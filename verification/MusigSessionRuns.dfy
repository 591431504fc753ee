/**
 Whole runs of signing flows over the session storage. A randomness root handed out by
 round 2 is never stored again and never handed out in another flow.
 */
module MusigSessionRuns {
  import opened MusigSessions

  /** A call during a flow. Round 1 comes with the value the generator would return. */
  datatype Call = Round1(id: nat, drawn: nat) | Round2(id: nat)

  /** A flow starts from a zeroed volatile state, makes its calls, and commits or aborts. */
  datatype Flow = Flow(calls: seq<Call>, commits: bool)

  datatype Event =
    | Drew(flow: nat, session: PsbtSession)       // round 1 created a session
    | Stored(flow: nat, session: PsbtSession)     // a commit wrote a session to storage
    | HandedOut(flow: nat, session: PsbtSession)  // round 2 returned a session

  datatype State = State(slots: seq<PsbtSession>, volatile: Volatile, trace: seq<Event>)

  function Empty(): (r: State)
    ensures |r.slots| == MAX_SESSIONS
  {
    State([Zeros, Zeros, Zeros, Zeros, Zeros, Zeros, Zeros, Zeros], Volatile(Zeros, Zeros), [])
  }

  // ---- runs ----

  function AfterCall(f: nat, st: State, call: Call): State {
    match call
    case Round1(id, drawn) =>
      State(AfterPop(st.slots, id), AfterRound1(st.volatile, id, drawn),
            if st.volatile.round1.id != id then st.trace + [Drew(f, PsbtSession(id, drawn))] else st.trace)
    case Round2(id) =>
      var (slots, volatile) := AfterRound2(st.slots, st.volatile, id);
      State(slots, volatile,
            match Round2Result(st.slots, st.volatile, id)
            case Some(session) => st.trace + [HandedOut(f, session)]
            case None => st.trace)
  }

  function AfterCalls(f: nat, st: State, calls: seq<Call>): (r: State)
    requires |st.slots| == MAX_SESSIONS
    ensures |r.slots| == MAX_SESSIONS
    decreases |calls|
  {
    if calls == [] then st
    else AfterCall(f, AfterCalls(f, st, calls[..|calls| - 1]), calls[|calls| - 1])
  }

  function AfterEnd(f: nat, st: State, commits: bool): State
    requires |st.slots| == MAX_SESSIONS
  {
    var v := st.volatile;
    if commits && v.round1 != Zeros
    then State(AfterCommit(st.slots, v), v, st.trace + [Stored(f, v.round1)])
    else st
  }

  function AfterFlow(f: nat, st: State, flow: Flow): State
    requires |st.slots| == MAX_SESSIONS
  {
    AfterEnd(f, AfterCalls(f, st.(volatile := Volatile(Zeros, Zeros)), flow.calls), flow.commits)
  }

  /** The state after a run, starting from empty storage; flows are numbered from 0. */
  function AfterRun(flows: seq<Flow>): (r: State)
    ensures |r.slots| == MAX_SESSIONS
  {
    if flows == [] then Empty()
    else AfterFlow(|flows| - 1, AfterRun(flows[..|flows| - 1]), flows[|flows| - 1])
  }

  // ---- what is assumed of callers and of the random generator ----

  predicate NonzeroIds(calls: seq<Call>) {
    forall i :: 0 <= i < |calls| ==> calls[i].id != 0
  }

  function DrawsOf(calls: seq<Call>): set<nat> {
    set i | 0 <= i < |calls| && calls[i].Round1? :: calls[i].drawn
  }

  function AllDraws(flows: seq<Flow>): set<nat> {
    if flows == [] then {} else AllDraws(flows[..|flows| - 1]) + DrawsOf(flows[|flows| - 1].calls)
  }

  /** No draw repeats one of `used` or an earlier draw. */
  predicate FreshCalls(calls: seq<Call>, used: set<nat>) {
    forall i :: 0 <= i < |calls| && calls[i].Round1? ==> calls[i].drawn !in used + DrawsOf(calls[..i])
  }

  predicate FreshRun(flows: seq<Flow>) {
    forall i :: 0 <= i < |flows| ==> NonzeroIds(flows[i].calls) && FreshCalls(flows[i].calls, AllDraws(flows[..i]))
  }

  // ---- what every run keeps ----

  /** How a past event constrains the present state; f is the flow in progress. */
  predicate EventInv(e: Event, slots: seq<PsbtSession>, v: Volatile, f: nat, used: set<nat>) {
    && e.session.root in used
    && e.flow <= f
    && (v.round1.id != 0 && e.session.root == v.round1.root ==> e == Drew(f, v.round1))
    && (v.round2.id != 0 && e.session.root == v.round2.root ==>
          e.session == v.round2 && if e.HandedOut? then e.flow == f else e.flow < f)
    && (forall i :: 0 <= i < |slots| && slots[i].id != 0 && e.session.root == slots[i].root ==>
                      e.session == slots[i] && !e.HandedOut? && e.flow < f)
  }

  predicate TraceInv(trace: seq<Event>, slots: seq<PsbtSession>, v: Volatile, f: nat, used: set<nat>) {
    forall k :: 0 <= k < |trace| ==> EventInv(trace[k], slots, v, f, used)
  }

  /** Stored roots are drawn, pairwise distinct, and not the root of an open round. */
  predicate SlotInv(slots: seq<PsbtSession>, v: Volatile, used: set<nat>) {
    && (forall i :: 0 <= i < |slots| && slots[i].id != 0 ==>
                      && slots[i].root in used
                      && (v.round1.id != 0 ==> slots[i].root != v.round1.root)
                      && (v.round2.id != 0 ==> slots[i].root != v.round2.root))
    && (forall i, j :: 0 <= i < j < |slots| && slots[i].id != 0 && slots[j].id != 0 ==> slots[i].root != slots[j].root)
  }

  predicate VolatileInv(v: Volatile, used: set<nat>) {
    && (v.round1.id != 0 ==> v.round1.root in used)
    && (v.round1.id == 0 ==> v.round1 == Zeros)
    && (v.round2.id != 0 ==> v.round2.root in used)
    && (v.round1.id != 0 && v.round2.id != 0 ==> v.round1.root != v.round2.root)
  }

  /**
   Two events about one root, in this order: a root is drawn once, stored at most once, in the
   flow that drew it and under the same id, and from then on handed out within one later flow.
   */
  predicate Compatible(first: Event, second: Event) {
    first.session.root == second.session.root ==>
      && first.session == second.session
      && !second.Drew?
      && (second.Stored? ==> first == Drew(second.flow, second.session))
      && (second.HandedOut? ==> if first.HandedOut? then first.flow == second.flow else first.flow < second.flow)
  }

  predicate NoReuse(trace: seq<Event>) {
    forall i, j :: 0 <= i < j < |trace| ==> Compatible(trace[i], trace[j])
  }

  /** The session was stored by a flow before f, according to the events in the trace. */
  ghost predicate StoredBefore(trace: seq<Event>, f: nat, session: PsbtSession) {
    exists g: nat :: g < f && Stored(g, session) in trace
  }

  /** Every live or handed-out session comes from a round 1 and, once out of it, from a commit. */
  ghost predicate Origins(st: State, f: nat) {
    && (st.volatile.round1.id != 0 ==> Drew(f, st.volatile.round1) in st.trace)
    && (st.volatile.round2.id != 0 ==> StoredBefore(st.trace, f, st.volatile.round2))
    && (forall i :: 0 <= i < |st.slots| && st.slots[i].id != 0 ==> StoredBefore(st.trace, f, st.slots[i]))
    && TraceOrigins(st.trace)
  }

  /** A stored session was drawn in the same flow; one handed out was stored in an earlier flow. */
  ghost predicate TraceOrigins(trace: seq<Event>) {
    && (forall k :: 0 <= k < |trace| && trace[k].Stored? ==> Drew(trace[k].flow, trace[k].session) in trace[..k])
    && (forall k :: 0 <= k < |trace| && trace[k].HandedOut? ==> StoredBefore(trace[..k], trace[k].flow, trace[k].session))
  }

  ghost predicate Inv(st: State, f: nat, used: set<nat>) {
    && WellFormed(st.slots)
    && SlotInv(st.slots, st.volatile, used)
    && VolatileInv(st.volatile, used)
    && TraceInv(st.trace, st.slots, st.volatile, f, used)
    && NoReuse(st.trace)
  }

  /** Removing a session from storage keeps the invariant. */
  lemma PopKeepsInv(st: State, f: nat, used: set<nat>, id: nat)
    requires Inv(st, f, used) && id != 0
    ensures Inv(st.(slots := AfterPop(st.slots, id)), f, used)
  {
    PopRefinesRemove(st.slots, id);
  }

  /** Drawing a root that was never used keeps the invariant. */
  lemma DrawKeepsInv(st: State, f: nat, used: set<nat>, session: PsbtSession)
    requires Inv(st, f, used) && session.id != 0 && session.root !in used
    ensures Inv(State(st.slots, st.volatile.(round1 := session), st.trace + [Drew(f, session)]), f, used + {session.root})
  {}

  /** Extending the set of used draws keeps the invariant. */
  lemma MoreUsed(st: State, f: nat, used: set<nat>, more: set<nat>)
    requires Inv(st, f, used) && used <= more
    ensures Inv(st, f, more)
  {}

  /** Taking a session out of storage for round 2 keeps the invariant. */
  lemma TakeKeepsInv(st: State, f: nat, used: set<nat>, id: nat)
    requires Inv(st, f, used) && id != 0 && Popped(st.slots, id).Some?
    ensures var session := Popped(st.slots, id).value;
            Inv(State(AfterPop(st.slots, id), st.volatile.(round2 := session), st.trace + [HandedOut(f, session)]), f, used)
  {
    PopRefinesRemove(st.slots, id);
  }

  /** Answering round 2 from volatile memory keeps the invariant. */
  lemma RepeatKeepsInv(st: State, f: nat, used: set<nat>)
    requires Inv(st, f, used) && st.volatile.round2.id != 0
    ensures Inv(st.(trace := st.trace + [HandedOut(f, st.volatile.round2)]), f, used)
  {}

  lemma CallKeepsInv(st: State, f: nat, used: set<nat>, call: Call)
    requires Inv(st, f, used) && call.id != 0
    requires call.Round1? ==> call.drawn !in used
    ensures Inv(AfterCall(f, st, call), f, used + DrawsOf([call]))
  {
    match call
    case Round1(id, drawn) =>
      PopKeepsInv(st, f, used, id);
      var popped := st.(slots := AfterPop(st.slots, id));
      assert [call][0] == call && drawn in DrawsOf([call]);
      if st.volatile.round1.id != id {
        DrawKeepsInv(popped, f, used, PsbtSession(id, drawn));
        MoreUsed(AfterCall(f, st, call), f, used + {drawn}, used + DrawsOf([call]));
      } else {
        MoreUsed(popped, f, used, used + DrawsOf([call]));
      }
    case Round2(id) =>
      if st.volatile.round2.id == id {
        RepeatKeepsInv(st, f, used);
      } else if Popped(st.slots, id).Some? {
        TakeKeepsInv(st, f, used, id);
      }
      MoreUsed(AfterCall(f, st, call), f, used, used + DrawsOf([call]));
  }

  lemma DrawsSplit(calls: seq<Call>)
    requires calls != []
    ensures DrawsOf(calls) == DrawsOf(calls[..|calls| - 1]) + DrawsOf([calls[|calls| - 1]])
  {
    var last := |calls| - 1;
    assert [calls[last]][0] == calls[last];
    assert forall i :: 0 <= i < last ==> calls[..last][i] == calls[i];
  }

  lemma {:induction false} CallsKeepInv(st: State, f: nat, used: set<nat>, calls: seq<Call>)
    requires Inv(st, f, used) && NonzeroIds(calls) && FreshCalls(calls, used)
    ensures Inv(AfterCalls(f, st, calls), f, used + DrawsOf(calls))
    decreases |calls|
  {
    if calls == [] {
      MoreUsed(st, f, used, used + DrawsOf(calls));
    } else {
      var last := |calls| - 1;
      var rest := calls[..last];
      assert forall i :: 0 <= i < last ==> rest[..i] == calls[..i];
      CallsKeepInv(st, f, used, rest);
      var used' := used + DrawsOf(rest);
      var before := AfterCalls(f, st, rest);
      CallKeepsInv(before, f, used', calls[last]);
      DrawsSplit(calls);
      assert used' + DrawsOf([calls[last]]) == used + DrawsOf(calls);
    }
  }

  /** Ending a flow, by commit or by abort, keeps the invariant for the next flow. */
  lemma EndKeepsInv(st: State, f: nat, used: set<nat>, commits: bool)
    requires Inv(st, f, used)
    ensures Inv(AfterEnd(f, st, commits).(volatile := Volatile(Zeros, Zeros)), f + 1, used)
  {
    if commits && st.volatile.round1 != Zeros {
      StoreRefinesUpdate(st.slots, st.volatile.round1);
      assert forall i :: 0 <= i < MAX_SESSIONS ==>
                           AfterStore(st.slots, st.volatile.round1)[i] in {st.slots[i], Zeros, st.volatile.round1};
    }
  }

  lemma {:induction false} RunKeepsInv(flows: seq<Flow>)
    requires FreshRun(flows)
    ensures Inv(AfterRun(flows).(volatile := Volatile(Zeros, Zeros)), |flows|, AllDraws(flows))
    decreases |flows|
  {
    if flows != [] {
      var last := |flows| - 1;
      var rest := flows[..last];
      assert forall i :: 0 <= i < last ==> rest[..i] == flows[..i];
      RunKeepsInv(rest);
      var start := AfterRun(rest).(volatile := Volatile(Zeros, Zeros));
      CallsKeepInv(start, last, AllDraws(rest), flows[last].calls);
      EndKeepsInv(AfterCalls(last, start, flows[last].calls), last, AllDraws(flows), flows[last].commits);
    }
  }

  // ---- where handed-out roots come from ----

  lemma AppendKeepsOrigins(trace: seq<Event>, e: Event)
    requires TraceOrigins(trace)
    requires e.Stored? ==> Drew(e.flow, e.session) in trace
    requires e.HandedOut? ==> StoredBefore(trace, e.flow, e.session)
    ensures TraceOrigins(trace + [e])
    ensures forall f, session :: StoredBefore(trace, f, session) ==> StoredBefore(trace + [e], f, session)
  {
    forall k | 0 <= k < |trace + [e]|
      ensures (trace + [e])[..k] == trace[..k]
    {}
    assert trace[..|trace|] == trace;
    forall f: nat, session | StoredBefore(trace, f, session)
      ensures StoredBefore(trace + [e], f, session)
    {
      var g: nat :| g < f && Stored(g, session) in trace;
      assert Stored(g, session) in trace + [e];
    }
  }

  lemma CallKeepsOrigins(st: State, f: nat, call: Call)
    requires Origins(st, f) && call.id != 0
    ensures Origins(AfterCall(f, st, call), f)
  {
    match call
    case Round1(id, drawn) =>
      AppendKeepsOrigins(st.trace, Drew(f, PsbtSession(id, drawn)));
    case Round2(id) =>
      match Round2Result(st.slots, st.volatile, id)
      case None =>
      case Some(session) => AppendKeepsOrigins(st.trace, HandedOut(f, session));
  }

  lemma {:induction false} CallsKeepOrigins(st: State, f: nat, calls: seq<Call>)
    requires |st.slots| == MAX_SESSIONS && Origins(st, f) && NonzeroIds(calls)
    ensures Origins(AfterCalls(f, st, calls), f)
    decreases |calls|
  {
    if calls != [] {
      var last := |calls| - 1;
      CallsKeepOrigins(st, f, calls[..last]);
      CallKeepsOrigins(AfterCalls(f, st, calls[..last]), f, calls[last]);
    }
  }

  lemma EndKeepsOrigins(st: State, f: nat, commits: bool)
    requires |st.slots| == MAX_SESSIONS && Origins(st, f) && (st.volatile.round1.id == 0 ==> st.volatile.round1 == Zeros)
    ensures Origins(AfterEnd(f, st, commits).(volatile := Volatile(Zeros, Zeros)), f + 1)
  {
    var session := st.volatile.round1;
    if commits && session != Zeros {
      var trace := st.trace + [Stored(f, session)];
      AppendKeepsOrigins(st.trace, Stored(f, session));
      assert Stored(f, session) in trace;
      assert StoredBefore(trace, f + 1, session);
      forall i | 0 <= i < MAX_SESSIONS && AfterStore(st.slots, session)[i].id != 0
        ensures StoredBefore(trace, f + 1, AfterStore(st.slots, session)[i])
      {
        assert AfterStore(st.slots, session)[i] in {st.slots[i], Zeros, session};
      }
    }
  }

  lemma {:induction false} RunKeepsOrigins(flows: seq<Flow>)
    requires FreshRun(flows)
    ensures Origins(AfterRun(flows).(volatile := Volatile(Zeros, Zeros)), |flows|)
    decreases |flows|
  {
    if flows != [] {
      var last := |flows| - 1;
      var rest := flows[..last];
      assert forall i :: 0 <= i < last ==> rest[..i] == flows[..i];
      RunKeepsOrigins(rest);
      RunKeepsInv(rest);
      var start := AfterRun(rest).(volatile := Volatile(Zeros, Zeros));
      CallsKeepOrigins(start, last, flows[last].calls);
      CallsKeepInv(start, last, AllDraws(rest), flows[last].calls);
      EndKeepsOrigins(AfterCalls(last, start, flows[last].calls), last, flows[last].commits);
    }
  }

  /**
   In every run with fresh draws: a root handed out by round 2 was drawn, and stored under the
   same id, by one earlier flow; it is never drawn or stored again and never handed out in
   another flow.
   */
  lemma NoRootReuse(flows: seq<Flow>)
    requires FreshRun(flows)
    ensures NoReuse(AfterRun(flows).trace)
    ensures TraceOrigins(AfterRun(flows).trace)
  {
    RunKeepsInv(flows);
    RunKeepsOrigins(flows);
  }
}
