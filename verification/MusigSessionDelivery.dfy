/**
 What the storage holds after every flow, and which sessions round 2 therefore gets back: a committed
 session is handed out with its own root unless a later flow used its id or took its slot.
 */
module MusigSessionDelivery {
  import opened Wrappers
  import opened MusigSessions
  import opened MusigSessionRuns

  /** The flow calls round 1 or round 2 for the id. */
  predicate Calls(calls: seq<Call>, id: nat) {
    exists i :: 0 <= i < |calls| && calls[i].id == id
  }

  /** The id that is lost when a session with a new id is stored: the one in slot 0 when all slots are taken. */
  ghost function Displaced(slots: seq<PsbtSession>, id: nat): nat
    requires |slots| > 0
  {
    if Full(slots) && Lookup(slots, id).None? then slots[0].id else 0
  }

  /** The state of a flow when its calls are done. */
  function CallsDone(f: nat, st: State, flow: Flow): (r: State)
    requires |st.slots| == MAX_SESSIONS
    ensures |r.slots| == MAX_SESSIONS
  {
    AfterCalls(f, st.(volatile := Volatile(Zeros, Zeros)), flow.calls)
  }

  // ---- one flow ----

  /** A commit stores the session of round 1, and loses at most the session that it displaces. */
  lemma CommitStores(slots: seq<PsbtSession>, v: Volatile, id: nat)
    requires WellFormed(slots) && v.round1.id != 0 && id != 0
    ensures WellFormed(AfterCommit(slots, v))
    ensures Lookup(AfterCommit(slots, v), id)
            == if id == v.round1.id then Some(v.round1.root) else if id == Displaced(slots, v.round1.id) then None else Lookup(slots, id)
  {
    StoreRefinesUpdate(slots, v.round1);
  }

  /** What the calls of a flow leave in storage: everything but the ids they were for. */
  ghost predicate Remaining(slots: seq<PsbtSession>, calls: seq<Call>, after: State) {
    && WellFormed(after.slots)
    && (forall id :: id != 0 ==> Lookup(after.slots, id) == if Calls(calls, id) then None else Lookup(slots, id))
    && (after.volatile.round1.id == 0 ==> after.volatile.round1 == Zeros)
    && (after.volatile.round1.id != 0 ==> Calls(calls, after.volatile.round1.id))
    && (after.volatile.round2.id != 0 ==> Calls(calls, after.volatile.round2.id))
  }

  lemma CallsAppend(calls: seq<Call>, call: Call, id: nat)
    ensures Calls(calls + [call], id) <==> Calls(calls, id) || call.id == id
  {
    var all := calls + [call];
    if Calls(calls, id) {
      var i :| 0 <= i < |calls| && calls[i].id == id;
      assert all[i].id == id;
    }
    assert all[|calls|] == call;
  }

  lemma CallLeaves(f: nat, slots: seq<PsbtSession>, calls: seq<Call>, st: State, call: Call)
    requires Remaining(slots, calls, st) && call.id != 0
    ensures Remaining(slots, calls + [call], AfterCall(f, st, call))
  {
    PopRefinesRemove(st.slots, call.id);
    var after := AfterCall(f, st, call);
    forall id | id != 0
      ensures Calls(calls + [call], id) <==> Calls(calls, id) || call.id == id
    {
      CallsAppend(calls, call, id);
    }
    assert forall id :: id != 0 ==> Lookup(after.slots, id) == if id == call.id then None else Lookup(st.slots, id);
  }

  lemma {:induction false} CallsLeave(f: nat, st: State, calls: seq<Call>)
    requires WellFormed(st.slots) && NonzeroIds(calls) && st.volatile == Volatile(Zeros, Zeros)
    ensures Remaining(st.slots, calls, AfterCalls(f, st, calls))
    decreases |calls|
  {
    if calls != [] {
      var last := |calls| - 1;
      CallsLeave(f, st, calls[..last]);
      CallLeaves(f, st.slots, calls[..last], AfterCalls(f, st, calls[..last]), calls[last]);
      assert calls[..last] + [calls[last]] == calls;
    }
  }

  /** What is stored under an id after a flow, as a function of what was stored before. */
  ghost function StoredAfter(f: nat, st: State, flow: Flow, id: nat): Option<nat>
    requires |st.slots| == MAX_SESSIONS
  {
    var done := CallsDone(f, st, flow);
    var pending := done.volatile.round1;
    if flow.commits && pending.id == id then Some(pending.root)
    else if Calls(flow.calls, id) || (flow.commits && pending.id != 0 && Displaced(done.slots, pending.id) == id) then None
    else Lookup(st.slots, id)
  }

  /** A flow removes the ids it calls, stores what it commits, and displaces at most one other session. */
  lemma FlowStores(f: nat, st: State, flow: Flow, id: nat)
    requires WellFormed(st.slots) && NonzeroIds(flow.calls) && id != 0
    ensures WellFormed(AfterFlow(f, st, flow).slots)
    ensures Lookup(AfterFlow(f, st, flow).slots, id) == StoredAfter(f, st, flow, id)
  {
    CallsLeave(f, st.(volatile := Volatile(Zeros, Zeros)), flow.calls);
    var done := CallsDone(f, st, flow);
    if flow.commits && done.volatile.round1.id != 0 {
      CommitStores(done.slots, done.volatile, id);
    }
  }

  /** The flow ends with a commit of the session. */
  predicate Commits(f: nat, st: State, flow: Flow, session: PsbtSession)
    requires |st.slots| == MAX_SESSIONS
  {
    session.id != 0 && flow.commits && CallsDone(f, st, flow).volatile.round1 == session
  }

  lemma CommitKeeps(f: nat, st: State, flow: Flow, session: PsbtSession)
    requires WellFormed(st.slots) && NonzeroIds(flow.calls) && Commits(f, st, flow, session)
    ensures Lookup(AfterFlow(f, st, flow).slots, session.id) == Some(session.root)
  {
    FlowStores(f, st, flow, session.id);
  }

  /** The flow neither calls the id nor displaces its session. */
  ghost predicate Spares(f: nat, st: State, flow: Flow, id: nat)
    requires |st.slots| == MAX_SESSIONS
  {
    var done := CallsDone(f, st, flow);
    var pending := done.volatile.round1;
    !Calls(flow.calls, id) && (flow.commits && pending.id != 0 ==> Displaced(done.slots, pending.id) != id)
  }

  /** Exactly the flows that spare a stored session keep it, if they do not store another under its id. */
  lemma SparesIff(f: nat, st: State, flow: Flow, session: PsbtSession)
    requires WellFormed(st.slots) && NonzeroIds(flow.calls) && session.id != 0
    requires Lookup(st.slots, session.id) == Some(session.root) && !Commits(f, st, flow, session)
    ensures Lookup(AfterFlow(f, st, flow).slots, session.id) == Some(session.root) <==> Spares(f, st, flow, session.id)
  {
    FlowStores(f, st, flow, session.id);
    CallsLeave(f, st.(volatile := Volatile(Zeros, Zeros)), flow.calls);
  }

  // ---- runs ----

  predicate NonzeroRun(flows: seq<Flow>) {
    forall i :: 0 <= i < |flows| ==> NonzeroIds(flows[i].calls)
  }

  lemma {:induction false} RunWellFormed(flows: seq<Flow>)
    requires NonzeroRun(flows)
    ensures WellFormed(AfterRun(flows).slots)
    decreases |flows|
  {
    if flows != [] {
      var last := |flows| - 1;
      RunWellFormed(flows[..last]);
      FlowStores(last, AfterRun(flows[..last]), flows[last], 1);
    }
  }

  lemma RunStep(flows: seq<Flow>, h: nat)
    requires h < |flows|
    ensures AfterRun(flows[..h + 1]) == AfterFlow(h, AfterRun(flows[..h]), flows[h])
  {
    assert flows[..h + 1][..h] == flows[..h];
  }

  /** A committed session stays in storage while flows spare it. */
  lemma {:induction false} SparedStays(flows: seq<Flow>, f: nat, g: nat, session: PsbtSession)
    requires NonzeroRun(flows) && f < g <= |flows| && Commits(f, AfterRun(flows[..f]), flows[f], session)
    requires forall h :: f < h < g ==> Spares(h, AfterRun(flows[..h]), flows[h], session.id)
    ensures Lookup(AfterRun(flows[..g]).slots, session.id) == Some(session.root)
    decreases g
  {
    var h := g - 1;
    RunWellFormed(flows[..h]);
    RunStep(flows, h);
    if f == h {
      CommitKeeps(h, AfterRun(flows[..h]), flows[h], session);
    } else {
      SparedStays(flows, f, h, session);
      SparedKept(h, AfterRun(flows[..h]), flows[h], session);
    }
  }

  lemma SparedKept(f: nat, st: State, flow: Flow, session: PsbtSession)
    requires WellFormed(st.slots) && NonzeroIds(flow.calls) && session.id != 0
    requires Lookup(st.slots, session.id) == Some(session.root) && Spares(f, st, flow, session.id)
    ensures Lookup(AfterFlow(f, st, flow).slots, session.id) == Some(session.root)
  {
    FlowStores(f, st, flow, session.id);
    CallsLeave(f, st.(volatile := Volatile(Zeros, Zeros)), flow.calls);
  }

  /** What is stored under an id is handed out by the first call for it, if that is for round 2. */
  lemma FirstCallTakes(f: nat, st: State, calls: seq<Call>, i: nat)
    requires WellFormed(st.slots) && NonzeroIds(calls) && st.volatile == Volatile(Zeros, Zeros)
    requires i < |calls| && calls[i].Round2? && !Calls(calls[..i], calls[i].id)
    ensures var before := AfterCalls(f, st, calls[..i]);
            var after := AfterCalls(f, st, calls[..i + 1]);
            match Lookup(st.slots, calls[i].id)
            case Some(root) => after.trace == before.trace + [HandedOut(f, PsbtSession(calls[i].id, root))]
            case None => after.trace == before.trace
  {
    var id := calls[i].id;
    var before := AfterCalls(f, st, calls[..i]);
    CallsLeave(f, st, calls[..i]);
    PopRefinesRemove(before.slots, id);
    assert calls[..i + 1][..i] == calls[..i];
  }

  lemma {:induction false} CallsKeepTrace(f: nat, st: State, calls: seq<Call>, i: nat, e: Event)
    requires |st.slots| == MAX_SESSIONS && i <= |calls| && e in AfterCalls(f, st, calls[..i]).trace
    ensures e in AfterCalls(f, st, calls).trace
    decreases |calls|
  {
    if i == |calls| {
      assert calls[..i] == calls;
    } else {
      var last := |calls| - 1;
      assert calls[..last][..i] == calls[..i];
      CallsKeepTrace(f, st, calls[..last], i, e);
    }
  }

  lemma FlowKeepsTrace(f: nat, st: State, flow: Flow, e: Event)
    requires |st.slots| == MAX_SESSIONS && e in st.trace
    ensures e in AfterFlow(f, st, flow).trace
  {
    var start := st.(volatile := Volatile(Zeros, Zeros));
    assert flow.calls[..0] == [];
    CallsKeepTrace(f, start, flow.calls, 0, e);
  }

  lemma {:induction false} RunKeepsTrace(flows: seq<Flow>, g: nat, e: Event)
    requires g <= |flows| && e in AfterRun(flows[..g]).trace
    ensures e in AfterRun(flows).trace
    decreases |flows|
  {
    if g == |flows| {
      assert flows[..g] == flows;
    } else {
      var last := |flows| - 1;
      assert flows[..last][..g] == flows[..g];
      RunKeepsTrace(flows[..last], g, e);
      FlowKeepsTrace(last, AfterRun(flows[..last]), flows[last], e);
    }
  }

  lemma FlowInRun(flows: seq<Flow>, g: nat, e: Event)
    requires g < |flows| && e in AfterFlow(g, AfterRun(flows[..g]), flows[g]).trace
    ensures e in AfterRun(flows).trace
  {
    RunStep(flows, g);
    RunKeepsTrace(flows, g + 1, e);
  }

  lemma FlowHandsOut(g: nat, st: State, flow: Flow, i: nat, session: PsbtSession)
    requires WellFormed(st.slots) && NonzeroIds(flow.calls) && Lookup(st.slots, session.id) == Some(session.root)
    requires i < |flow.calls| && flow.calls[i] == Round2(session.id) && !Calls(flow.calls[..i], session.id)
    ensures HandedOut(g, session) in AfterFlow(g, st, flow).trace
  {
    var start := st.(volatile := Volatile(Zeros, Zeros));
    FirstCallTakes(g, start, flow.calls, i);
    CallsKeepTrace(g, start, flow.calls, i + 1, HandedOut(g, session));
  }

  /**
   In every run: a session that flow f drew and committed is handed out by flow g, with that very root, if
   the first call of g for its id is for round 2 and all flows in between spare it.
   */
  lemma CommittedIsHandedOut(flows: seq<Flow>, f: nat, g: nat, i: nat, session: PsbtSession)
    requires NonzeroRun(flows) && f < g < |flows| && Commits(f, AfterRun(flows[..f]), flows[f], session)
    requires forall h :: f < h < g ==> Spares(h, AfterRun(flows[..h]), flows[h], session.id)
    requires i < |flows[g].calls| && flows[g].calls[i] == Round2(session.id) && !Calls(flows[g].calls[..i], session.id)
    ensures HandedOut(g, session) in AfterRun(flows).trace
  {
    RunWellFormed(flows[..g]);
    SparedStays(flows, f, g, session);
    FlowHandsOut(g, AfterRun(flows[..g]), flows[g], i, session);
    FlowInRun(flows, g, HandedOut(g, session));
  }

  // ---- eight ids fit ----

  predicate IdsWithin(flows: seq<Flow>, ids: set<nat>) {
    forall f, i :: 0 <= f < |flows| && 0 <= i < |flows[f].calls| ==> flows[f].calls[i].id in ids
  }

  /** The ids of the first k slots. */
  function SlotIds(slots: seq<PsbtSession>, k: nat): set<nat>
    requires k <= |slots|
  {
    if k == 0 then {} else SlotIds(slots, k - 1) + {slots[k - 1].id}
  }

  lemma {:induction false} SlotIdsCount(slots: seq<PsbtSession>, k: nat)
    requires WellFormed(slots) && Full(slots) && k <= |slots|
    ensures |SlotIds(slots, k)| == k
    ensures forall id :: id in SlotIds(slots, k) <==> exists i :: 0 <= i < k && slots[i].id == id
  {
    if k > 0 {
      SlotIdsCount(slots, k - 1);
    }
  }

  /** No session is displaced while all ids are among eight. */
  lemma EightFit(slots: seq<PsbtSession>, ids: set<nat>, id: nat)
    requires WellFormed(slots) && |ids| <= MAX_SESSIONS && id in ids
    requires forall x :: x != 0 && Lookup(slots, x).Some? ==> x in ids
    ensures Displaced(slots, id) == 0
  {
    if Full(slots) && Lookup(slots, id).None? {
      var stored := SlotIds(slots, MAX_SESSIONS);
      SlotIdsCount(slots, MAX_SESSIONS);
      forall x | x in stored
        ensures x in ids - {id}
      {
        var i :| 0 <= i < MAX_SESSIONS && slots[i].id == x;
        LookupAt(slots, i);
      }
      Larger(stored, ids - {id});
    }
  }

  lemma {:induction false} Larger(a: set<nat>, b: set<nat>)
    requires a <= b
    ensures |a| <= |b|
    decreases a
  {
    if a != {} {
      var x :| x in a;
      Larger(a - {x}, b - {x});
    }
  }

  lemma FlowWithin(f: nat, st: State, flow: Flow, ids: set<nat>, x: nat)
    requires WellFormed(st.slots) && NonzeroIds(flow.calls) && x != 0
    requires forall i :: 0 <= i < |flow.calls| ==> flow.calls[i].id in ids
    requires Lookup(st.slots, x).Some? ==> x in ids
    ensures Lookup(AfterFlow(f, st, flow).slots, x).Some? ==> x in ids
  {
    FlowStores(f, st, flow, x);
    CallsLeave(f, st.(volatile := Volatile(Zeros, Zeros)), flow.calls);
  }

  lemma EmptyLookup(x: nat)
    requires x != 0
    ensures Lookup(Empty().slots, x) == None
  {}

  lemma {:induction false} RunWithin(flows: seq<Flow>, ids: set<nat>, x: nat)
    requires NonzeroRun(flows) && IdsWithin(flows, ids) && x != 0
    ensures Lookup(AfterRun(flows).slots, x).Some? ==> x in ids
    decreases |flows|
  {
    if flows == [] {
      EmptyLookup(x);
    } else {
      var last := |flows| - 1;
      RunWithin(flows[..last], ids, x);
      RunWellFormed(flows[..last]);
      FlowWithin(last, AfterRun(flows[..last]), flows[last], ids, x);
    }
  }

  /** In a run with at most eight ids a flow spares every session whose id it does not call. */
  lemma FewAreSpared(flows: seq<Flow>, ids: set<nat>, h: nat, id: nat)
    requires NonzeroRun(flows) && IdsWithin(flows, ids) && |ids| <= MAX_SESSIONS && h < |flows| && id != 0
    ensures Spares(h, AfterRun(flows[..h]), flows[h], id) <==> !Calls(flows[h].calls, id)
  {
    var st := AfterRun(flows[..h]);
    RunWellFormed(flows[..h]);
    forall x | x != 0 && Lookup(st.slots, x).Some?
      ensures x in ids
    {
      RunWithin(flows[..h], ids, x);
    }
    SpareOf(h, st, flows[h], ids, id);
  }

  lemma SpareOf(f: nat, st: State, flow: Flow, ids: set<nat>, id: nat)
    requires WellFormed(st.slots) && NonzeroIds(flow.calls) && |ids| <= MAX_SESSIONS && id != 0
    requires forall i :: 0 <= i < |flow.calls| ==> flow.calls[i].id in ids
    requires forall x :: x != 0 && Lookup(st.slots, x).Some? ==> x in ids
    ensures Spares(f, st, flow, id) <==> !Calls(flow.calls, id)
  {
    var done := CallsDone(f, st, flow);
    CallsLeave(f, st.(volatile := Volatile(Zeros, Zeros)), flow.calls);
    if done.volatile.round1.id != 0 {
      EightFit(done.slots, ids, done.volatile.round1.id);
    }
  }

  // ---- a ninth does not ----

  /** Flows that draw and commit sessions with the ids 1 to n. */
  function OneEach(n: nat): (flows: seq<Flow>)
    ensures |flows| == n
  {
    if n == 0 then [] else OneEach(n - 1) + [Flow([Round1(n, n)], true)]
  }

  function Filled(n: nat): (slots: seq<PsbtSession>)
    ensures |slots| == MAX_SESSIONS
    ensures forall i :: 0 <= i < MAX_SESSIONS ==> slots[i] == if i < n then PsbtSession(i + 1, i + 1) else Zeros
  {
    seq(MAX_SESSIONS, i => if 0 <= i < n then PsbtSession(i + 1, i + 1) else Zeros)
  }

  /** One more flow fills the first free slot, or slot 0. */
  lemma OneFlow(st: State, n: nat)
    requires 1 <= n <= MAX_SESSIONS + 1 && st.slots == Filled(n - 1)
    ensures AfterFlow(n - 1, st, Flow([Round1(n, n)], true)).slots == st.slots[(if n <= MAX_SESSIONS then n - 1 else 0) := PsbtSession(n, n)]
  {
    var start := st.(volatile := Volatile(Zeros, Zeros));
    var call := Round1(n, n);
    assert [call][..0] == [] && AfterCalls(n - 1, start, []) == start;
    var done := AfterCalls(n - 1, start, [call]);
    assert done == AfterCall(n - 1, start, call);
    assert AfterPop(st.slots, n) == st.slots;
    assert done.slots == st.slots && done.volatile.round1 == PsbtSession(n, n);
    assert n <= MAX_SESSIONS ==> st.slots[n - 1] == Zeros;
    assert FreeSlot(st.slots) == n - 1;
  }

  lemma FilledStep(n: nat)
    requires 1 <= n <= MAX_SESSIONS
    ensures Filled(n - 1)[n - 1 := PsbtSession(n, n)] == Filled(n)
  {}

  lemma {:induction false} OneEachSlots(n: nat)
    requires n <= MAX_SESSIONS
    ensures AfterRun(OneEach(n)).slots == Filled(n)
  {
    if n > 0 {
      OneEachSlots(n - 1);
      assert OneEach(n)[..n - 1] == OneEach(n - 1);
      OneFlow(AfterRun(OneEach(n - 1)), n);
      FilledStep(n);
    }
  }

  /** The ninth of nine sessions displaces the first, which round 2 then does not find. */
  lemma NinthDisplaces(n: nat)
    requires n == MAX_SESSIONS + 1
    ensures Lookup(AfterRun(OneEach(n - 1)).slots, 1) == Some(1) && Lookup(AfterRun(OneEach(n)).slots, 1) == None
  {
    OneEachSlots(n - 1);
    assert OneEach(n)[..n - 1] == OneEach(n - 1);
    OneFlow(AfterRun(OneEach(n - 1)), n);
    FirstDisplaced(Filled(n - 1), PsbtSession(n, n));
  }

  lemma FirstDisplaced(slots: seq<PsbtSession>, session: PsbtSession)
    requires slots == Filled(MAX_SESSIONS) && session.id > MAX_SESSIONS
    ensures Lookup(slots, 1) == Some(1) && Lookup(slots[0 := session], 1) == None
  {
    assert slots[0] == PsbtSession(1, 1);
  }
}
