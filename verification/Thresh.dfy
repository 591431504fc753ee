/**
 The dynamic program that bounds the cost of satisfying k of the n children of `thresh`.

 Costs are 16-bit signed numbers where -1 means that there is no way; the program keeps
 them in arrays of 16-bit unsigned numbers.
 */
module Thresh {
  import opened Wrappers

  const INT16_MAX: int := 32767
  const MAX_N: nat := 128

  /** A 16-bit cost: -1 for infeasible, and otherwise at most INT16_MAX. */
  type Cost = c: int | -1 <= c <= 32767

  /** What one child costs when satisfied and when dissatisfied. */
  datatype Child = Child(sat: Cost, dsat: Cost)

  /** Saturating sum; infeasible if either side is. */
  function SumCheck(a: Cost, b: Cost): Cost {
    if a < 0 || b < 0 then -1
    else if a + b > INT16_MAX then INT16_MAX
    else a + b
  }

  /** The larger of the feasible costs. */
  function MaxCheck(a: Cost, b: Cost): Cost {
    if a < 0 then b
    else if a > b then a else b
  }

  // ---- what is computed ----

  /** How many children a choice satisfies. */
  function Count(choice: seq<bool>): nat {
    if |choice| == 0 then 0
    else Count(choice[..|choice| - 1]) + (if choice[|choice| - 1] then 1 else 0)
  }

  /** The cost of satisfying the chosen children and dissatisfying the others. */
  function ChoiceCost(children: seq<Child>, choice: seq<bool>): Cost
    requires |choice| == |children|
  {
    if |children| == 0 then 0
    else
      var last := |children| - 1;
      SumCheck(ChoiceCost(children[..last], choice[..last]), if choice[last] then children[last].sat else children[last].dsat)
  }

  predicate Choice(children: seq<Child>, k: nat, choice: seq<bool>) {
    |choice| == |children| && Count(choice) == k
  }

  /** The greatest cost over all ways to satisfy exactly k children; -1 if none is feasible. */
  ghost predicate IsBest(children: seq<Child>, k: nat, best: Cost) {
    && (forall choice :: Choice(children, k, choice) ==> ChoiceCost(children, choice) <= best)
    && (best >= 0 ==> exists choice :: Choice(children, k, choice) && ChoiceCost(children, choice) == best)
  }

  /** The recurrence: the last child is either dissatisfied or satisfied. */
  function Best(children: seq<Child>, k: nat): Cost
    decreases |children|
  {
    if k > |children| then -1
    else if |children| == 0 then 0
    else
      var rest, c := children[..|children| - 1], children[|children| - 1];
      if k == 0 then SumCheck(Best(rest, 0), c.dsat)
      else if k == |children| then SumCheck(Best(rest, k - 1), c.sat)
      else MaxCheck(SumCheck(Best(rest, k), c.dsat), SumCheck(Best(rest, k - 1), c.sat))
  }

  lemma {:induction false} CountBound(choice: seq<bool>)
    ensures Count(choice) <= |choice|
    decreases |choice|
  {
    if |choice| > 0 {
      CountBound(choice[..|choice| - 1]);
    }
  }

  /** A choice for one more child, from a choice for the others. */
  lemma ExtendChoice(children: seq<Child>, choice: seq<bool>, take: bool)
    requires |children| == |choice| + 1
    ensures var last := |choice|;
            && Count(choice + [take]) == Count(choice) + (if take then 1 else 0)
            && ChoiceCost(children, choice + [take])
               == SumCheck(ChoiceCost(children[..last], choice), if take then children[last].sat else children[last].dsat)
  {
    assert (choice + [take])[..|choice|] == choice;
  }

  lemma SumCheckMonotone(a: Cost, b: Cost, c: Cost)
    requires a <= b
    ensures SumCheck(a, c) <= SumCheck(b, c)
  {}

  /** What the last child adds when it is satisfied (take) or dissatisfied. */
  function LastCost(children: seq<Child>, take: bool): Cost
    requires |children| > 0
  {
    if take then children[|children| - 1].sat else children[|children| - 1].dsat
  }

  /** No choice that treats the last child this way costs more than the best for the others allows. */
  lemma ExtendBound(children: seq<Child>, k: nat, take: bool, before: Cost)
    requires |children| > 0
    requires IsBest(children[..|children| - 1], k, before)
    ensures forall choice ::
              Choice(children, if take then k + 1 else k, choice) && choice[|children| - 1] == take ==>
                ChoiceCost(children, choice) <= SumCheck(before, LastCost(children, take))
  {
    forall choice | Choice(children, if take then k + 1 else k, choice) && choice[|children| - 1] == take
      ensures ChoiceCost(children, choice) <= SumCheck(before, LastCost(children, take))
    {
      ExtendBoundOne(children, k, before, choice);
    }
  }

  lemma ExtendBoundOne(children: seq<Child>, k: nat, before: Cost, choice: seq<bool>)
    requires |children| == |choice| > 0
    requires IsBest(children[..|children| - 1], k, before)
    requires Count(choice) == if choice[|choice| - 1] then k + 1 else k
    ensures ChoiceCost(children, choice) <= SumCheck(before, LastCost(children, choice[|choice| - 1]))
  {
    var last := |children| - 1;
    assert Choice(children[..last], k, choice[..last]);
    SumCheckMonotone(ChoiceCost(children[..last], choice[..last]), before, LastCost(children, choice[last]));
  }

  /** And some choice costs just that. */
  lemma ExtendWitness(children: seq<Child>, k: nat, take: bool, before: Cost)
    requires |children| > 0
    requires IsBest(children[..|children| - 1], k, before)
    ensures var cost := SumCheck(before, LastCost(children, take));
            cost >= 0 ==>
              exists choice :: Choice(children, if take then k + 1 else k, choice) && ChoiceCost(children, choice) == cost
  {
    var last := |children| - 1;
    if SumCheck(before, LastCost(children, take)) >= 0 {
      var choice :| Choice(children[..last], k, choice) && ChoiceCost(children[..last], choice) == before;
      ExtendChoice(children, choice, take);
      assert Choice(children, if take then k + 1 else k, choice + [take]);
    }
  }

  /** The recurrence computes the best cost over all choices. */
  lemma {:induction false} BestIsBest(children: seq<Child>, k: nat)
    ensures IsBest(children, k, Best(children, k))
    decreases |children|
  {
    if k > |children| {
      forall choice | Choice(children, k, choice)
        ensures false
      {
        CountBound(choice);
      }
    } else if |children| == 0 {
      assert Choice(children, 0, []);
    } else {
      var rest := children[..|children| - 1];
      BestIsBest(rest, k);
      ExtendBound(children, k, false, Best(rest, k));
      ExtendWitness(children, k, false, Best(rest, k));
      if k > 0 {
        BestIsBest(rest, k - 1);
        ExtendBound(children, k - 1, true, Best(rest, k - 1));
        ExtendWitness(children, k - 1, true, Best(rest, k - 1));
      }
      BestCombines(children, k);
    }
  }

  /** Best is the maximum of the two extensions, also in the first and the last column. */
  lemma BestCombines(children: seq<Child>, k: nat)
    requires 0 < |children| && k <= |children|
    ensures var rest, c := children[..|children| - 1], children[|children| - 1];
            var skip := SumCheck(Best(rest, k), c.dsat);
            var take := if k > 0 then SumCheck(Best(rest, k - 1), c.sat) else -1;
            Best(children, k) == MaxCheck(skip, take)
  {}

  // ---- the table ----

  /** The 16-bit unsigned representation of a cost. */
  function ToU16(c: Cost): (u: nat)
    ensures u < 65536
    ensures FromU16(u) == c
  {
    if c < 0 then c + 65536 else c
  }

  /** Back to a signed number. */
  function FromU16(u: nat): int {
    if u >= 32768 then u - 65536 else u
  }

  /** Entry k after all children: entries past the last child keep their initial value. */
  function Entry(children: seq<Child>, k: nat): Cost {
    if k <= |children| then Best(children, k) else 0
  }

  /** Fills one row from the row for the children before. */
  method NextRow(sats: array<nat>, next: array<nat>, ghost children: seq<Child>, size: nat, c: Child)
    requires sats.Length == next.Length == MAX_N + 2 && sats != next && 1 <= size <= MAX_N + 1
    requires |children| == size && children[size - 1] == c
    requires forall j :: 0 <= j < size ==> sats[j] == ToU16(Best(children[..size - 1], j))
    modifies next
    ensures forall j :: 0 <= j <= size ==> next[j] == ToU16(Best(children, j))
  {
    ghost var rest := children[..size - 1];
    next[0] := ToU16(SumCheck(FromU16(sats[0]), c.dsat));
    for j := 1 to size
      invariant forall i :: 0 <= i < j ==> next[i] == ToU16(Best(children, i))
    {
      next[j] := ToU16(MaxCheck(SumCheck(FromU16(sats[j]), c.dsat), SumCheck(FromU16(sats[j - 1]), c.sat)));
      assert next[j] == ToU16(Best(children, j));
    }
    next[size] := ToU16(SumCheck(FromU16(sats[size - 1]), c.sat));
  }

  /** The costs of satisfying k children and of satisfying none; fails on more than 128 children. */
  method ThreshCosts(children: seq<Child>, k: nat) returns (r: Option<Child>)
    requires k <= MAX_N + 1
    ensures r == if |children| > MAX_N then None else Some(Child(Entry(children, k), Best(children, 0)))
  {
    var sats, next := new nat[MAX_N + 2](_ => 0), new nat[MAX_N + 2](_ => 0);
    if |children| > MAX_N {
      return None;
    }
    var size := 1;
    for i := 0 to |children|
      invariant size == i + 1
      invariant forall j :: 0 <= j < size ==> sats[j] == ToU16(Best(children[..i], j))
      invariant forall j :: size <= j < sats.Length ==> sats[j] == 0
    {
      assert children[..i + 1][..i] == children[..i];
      NextRow(sats, next, children[..i + 1], size, children[i]);
      size := size + 1;
      forall j | 0 <= j < size {
        sats[j] := next[j];
      }
    }
    assert children[..|children|] == children;
    r := Some(Child(FromU16(sats[k]), FromU16(sats[0])));
  }

  /** The entry is the best cost over all choices exactly when k does not exceed the number of children. */
  lemma EntryIsBest(children: seq<Child>, k: nat)
    ensures IsBest(children, k, Entry(children, k)) <==> k <= |children|
  {
    if k <= |children| {
      BestIsBest(children, k);
    } else {
      forall choice
        ensures !Choice(children, k, choice)
      {
        if |choice| == |children| {
          CountBound(choice);
        }
      }
    }
  }

  /** For k > n the table reports a satisfaction of cost 0 although there is none. */
  lemma EntryPastTheEnd()
    ensures Entry([Child(5, 0)], 2) == 0
    ensures forall choice :: !Choice([Child(5, 0)], 2, choice)
  {
    forall choice
      ensures !Choice([Child(5, 0)], 2, choice)
    {
      if |choice| == 1 {
        CountBound(choice);
      }
    }
  }
}
