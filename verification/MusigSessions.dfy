/**
 Persistent storage of MuSig2 sessions: eight slots in flash memory and the two sessions
 that a signing flow keeps in volatile memory.

 Session ids and randomness roots are the values of 32-byte arrays, so 0 is the array of
 zeros, which marks an empty slot.
 */
module MusigSessions {
  import opened Wrappers

  const MAX_SESSIONS: nat := 8

  datatype PsbtSession = PsbtSession(id: nat, root: nat)

  const Zeros: PsbtSession := PsbtSession(0, 0)

  /** The volatile state of a signing flow. */
  datatype Volatile = Volatile(round1: PsbtSession, round2: PsbtSession)

  // ---- the operations as functions of the memory contents ----

  /** The first slot whose id is the given one, or the number of slots. */
  function IndexOf(slots: seq<PsbtSession>, id: nat): (i: nat)
    ensures i <= |slots|
    ensures i < |slots| ==> slots[i].id == id
    ensures forall j :: 0 <= j < i ==> slots[j].id != id
  {
    if slots == [] then 0
    else if slots[0].id == id then 0
    else 1 + IndexOf(slots[1..], id)
  }

  /** The first all-zero slot, or the number of slots. */
  function FreeSlot(slots: seq<PsbtSession>): (i: nat)
    ensures i <= |slots|
    ensures i < |slots| ==> slots[i] == Zeros
    ensures forall j :: 0 <= j < i ==> slots[j] != Zeros
  {
    if slots == [] then 0
    else if slots[0] == Zeros then 0
    else 1 + FreeSlot(slots[1..])
  }

  function Popped(slots: seq<PsbtSession>, id: nat): Option<PsbtSession> {
    var i := IndexOf(slots, id);
    if i < |slots| then Some(slots[i]) else None
  }

  function AfterPop(slots: seq<PsbtSession>, id: nat): (r: seq<PsbtSession>)
    ensures |r| == |slots|
  {
    var i := IndexOf(slots, id);
    if i < |slots| then slots[i := Zeros] else slots
  }

  function AfterStore(slots: seq<PsbtSession>, session: PsbtSession): (r: seq<PsbtSession>)
    requires |slots| > 0
    ensures |r| == |slots|
  {
    var popped := AfterPop(slots, session.id);
    var i := FreeSlot(popped);
    popped[(if i < |slots| then i else 0) := session]
  }

  /** Round 1 keeps its session when asked again for the same id, and draws a root otherwise. */
  function AfterRound1(v: Volatile, id: nat, drawn: nat): Volatile {
    if v.round1.id != id then v.(round1 := PsbtSession(id, drawn)) else v
  }

  /** Round 2 answers from volatile memory, or else moves the session out of storage. */
  function Round2Result(slots: seq<PsbtSession>, v: Volatile, id: nat): Option<PsbtSession> {
    if v.round2.id != id then Popped(slots, id) else Some(v.round2)
  }

  function AfterRound2(slots: seq<PsbtSession>, v: Volatile, id: nat): (seq<PsbtSession>, Volatile) {
    if v.round2.id == id then (slots, v)
    else match Popped(slots, id)
      case Some(session) => (AfterPop(slots, id), v.(round2 := session))
      case None => (slots, v)
  }

  function AfterCommit(slots: seq<PsbtSession>, v: Volatile): seq<PsbtSession>
    requires |slots| > 0
  {
    if v.round1 != Zeros then AfterStore(slots, v.round1) else slots
  }

  // ---- the memory ----

  class SigningState {
    var round1: PsbtSession
    var round2: PsbtSession

    constructor ()
      ensures Value() == Volatile(Zeros, Zeros)
    {
      round1, round2 := Zeros, Zeros;
    }

    function Value(): Volatile
      reads this
    {
      Volatile(round1, round2)
    }

    method Initialize()
      modifies this
      ensures Value() == Volatile(Zeros, Zeros)
    {
      round1, round2 := Zeros, Zeros;
    }
  }

  class Storage {
    const slots: array<PsbtSession>

    constructor ()
      ensures Valid() && fresh(slots)
      ensures forall i :: 0 <= i < slots.Length ==> slots[i] == Zeros
    {
      slots := new PsbtSession[MAX_SESSIONS](_ => Zeros);
    }

    ghost predicate Valid() {
      slots.Length == MAX_SESSIONS
    }

    /** Looks an id up, zeroes its slot and returns what it held. */
    method Pop(id: nat) returns (out: Option<PsbtSession>)
      requires Valid()
      modifies slots
      ensures out == Popped(old(slots[..]), id)
      ensures slots[..] == AfterPop(old(slots[..]), id)
    {
      for i := 0 to slots.Length
        invariant slots[..] == old(slots[..])
        invariant forall j :: 0 <= j < i ==> slots[j].id != id
      {
        if slots[i].id == id {
          out := Some(slots[i]);
          slots[i] := Zeros;
          return;
        }
      }
      out := None;
    }

    /** Replaces any session with this id, using the first free slot, or slot 0 when there is none. */
    method Store(session: PsbtSession)
      requires Valid()
      modifies slots
      ensures slots[..] == AfterStore(old(slots[..]), session)
    {
      var _ := Pop(session.id);
      var i := 0;
      while i < slots.Length
        invariant 0 <= i <= slots.Length
        invariant slots[..] == AfterPop(old(slots[..]), session.id)
        invariant forall j :: 0 <= j < i ==> slots[j] != Zeros
      {
        if slots[i] == Zeros {
          break;
        }
        i := i + 1;
      }
      if i >= slots.Length {
        i := 0;
      }
      slots[i] := session;
    }

    method Round1(state: SigningState, id: nat, drawn: nat) returns (r: PsbtSession)
      requires Valid()
      modifies slots, state
      ensures slots[..] == AfterPop(old(slots[..]), id)
      ensures state.Value() == AfterRound1(old(state.Value()), id, drawn)
      ensures r == state.round1 && r.id == id
    {
      var _ := Pop(id);
      if state.round1.id != id {
        state.round1 := PsbtSession(id, drawn);
      }
      r := state.round1;
    }

    method Round2(state: SigningState, id: nat) returns (r: Option<PsbtSession>)
      requires Valid()
      modifies slots, state
      ensures r == Round2Result(old(slots[..]), old(state.Value()), id)
      ensures (slots[..], state.Value()) == AfterRound2(old(slots[..]), old(state.Value()), id)
    {
      if state.round2.id != id {
        var popped := Pop(id);
        if popped.None? {
          return None;
        }
        state.round2 := popped.value;
      }
      r := Some(state.round2);
    }

    /** Stores the session of round 1, if that round was executed. */
    method Commit(state: SigningState)
      requires Valid()
      modifies slots
      ensures slots[..] == AfterCommit(old(slots[..]), state.Value())
    {
      // the scan covers the id and the root
      if state.round1 != Zeros {
        Store(state.round1);
      }
    }
  }

  // ---- the storage as a bounded map from ids to roots ----

  /** Empty slots are zeroed and the ids of occupied slots are pairwise distinct. */
  ghost predicate WellFormed(slots: seq<PsbtSession>) {
    && |slots| == MAX_SESSIONS
    && (forall i :: 0 <= i < |slots| && slots[i].id == 0 ==> slots[i] == Zeros)
    && (forall i, j :: 0 <= i < j < |slots| && slots[i].id == slots[j].id ==> slots[i].id == 0)
  }

  ghost predicate Full(slots: seq<PsbtSession>) {
    forall i :: 0 <= i < |slots| ==> slots[i].id != 0
  }

  /** The map: what root is stored under a nonzero id. */
  ghost function Lookup(slots: seq<PsbtSession>, id: nat): Option<nat> {
    if exists i :: 0 <= i < |slots| && slots[i].id == id
    then var i :| 0 <= i < |slots| && slots[i].id == id; Some(slots[i].root)
    else None
  }

  lemma LookupAt(slots: seq<PsbtSession>, i: nat)
    requires WellFormed(slots) && i < |slots| && slots[i].id != 0
    ensures Lookup(slots, slots[i].id) == Some(slots[i].root)
    ensures IndexOf(slots, slots[i].id) == i
  {}

  /** Writing one slot changes what is stored under its old id and under its new one only. */
  lemma LookupAfterWrite(slots: seq<PsbtSession>, i: nat, session: PsbtSession, id: nat)
    requires WellFormed(slots) && i < |slots| && WellFormed(slots[i := session]) && id != 0
    ensures Lookup(slots[i := session], id)
            == if id == session.id then Some(session.root)
               else if id == slots[i].id then None
               else Lookup(slots, id)
  {
    var after := slots[i := session];
    if id == session.id {
      LookupAt(after, i);
    } else if j :| 0 <= j < |after| && after[j].id == id {
      assert after[j] == slots[j];
      LookupAt(after, j);
      LookupAt(slots, j);
    } else if j :| 0 <= j < |slots| && slots[j].id == id {
      assert j != i ==> after[j] == slots[j];
    }
  }

  /** Popping a nonzero id returns what the map holds and removes it. */
  lemma PopRefinesRemove(slots: seq<PsbtSession>, id: nat)
    requires WellFormed(slots) && id != 0
    ensures WellFormed(AfterPop(slots, id))
    ensures Lookup(slots, id) == (match Popped(slots, id) case Some(s) => Some(s.root) case None => None)
    ensures forall x :: x != 0 ==> Lookup(AfterPop(slots, id), x) == if x == id then None else Lookup(slots, x)
  {
    var i := IndexOf(slots, id);
    if i < |slots| {
      LookupAt(slots, i);
      forall x | x != 0
        ensures Lookup(AfterPop(slots, id), x) == if x == id then None else Lookup(slots, x)
      {
        LookupAfterWrite(slots, i, Zeros, x);
      }
    }
  }

  /** A slot is free after the pop exactly when the id was stored or some slot was empty. */
  lemma FreeAfterPop(slots: seq<PsbtSession>, id: nat)
    requires WellFormed(slots) && id != 0
    ensures FreeSlot(AfterPop(slots, id)) == |slots| <==> Lookup(slots, id).None? && Full(slots)
  {
    var popped := AfterPop(slots, id);
    if IndexOf(slots, id) < |slots| {
      assert popped[IndexOf(slots, id)] == Zeros;
    }
  }

  /**
   Storing a session maps its id to its root. Another session is lost only when all slots
   hold other ids, and then it is the one in slot 0.
   */
  lemma StoreRefinesUpdate(slots: seq<PsbtSession>, session: PsbtSession)
    requires WellFormed(slots) && session.id != 0
    ensures WellFormed(AfterStore(slots, session))
    ensures forall x :: x != 0 ==>
                          Lookup(AfterStore(slots, session), x)
                          == if x == session.id then Some(session.root)
                             else if x == slots[0].id && Lookup(slots, session.id).None? && Full(slots) then None
                             else Lookup(slots, x)
  {
    var popped := AfterPop(slots, session.id);
    PopRefinesRemove(slots, session.id);
    FreeAfterPop(slots, session.id);
    var free := FreeSlot(popped);
    var i := if free < |slots| then free else 0;
    assert forall j :: 0 <= j < |slots| ==> popped[j].id != session.id;
    assert AfterStore(slots, session) == popped[i := session];
    forall x | x != 0
      ensures Lookup(popped[i := session], x)
              == if x == session.id then Some(session.root) else if x == popped[i].id then None else Lookup(popped, x)
    {
      LookupAfterWrite(popped, i, session, x);
    }
  }
}
