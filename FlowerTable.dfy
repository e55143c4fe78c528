/**
  The flower state table shared by both programs, as values.

  A table is the sequence of the flowers' `state` fields. Every critical
  section of the programs (decay worker, gardener check) is one atomic step
  on it; true parallelism is an arbitrary sequence of such steps, folded
  from left to right by `Run`. The two programs differ only in where the
  per-flower lock lives, so the lock counters are modelled in their own
  modules (NamedLocks, EmbeddedLocks), which refer to the functions here.
*/
module FlowerTable {

  /** Number of flowers, fixed at compile time. */
  const FlowerCount: nat := 10

  /** The four values of `state` that the programs declare. */
  const Healthy: int := 0
  const Withering: int := 1
  const Withered: int := 2
  const Overflowed: int := 3

  /** One printed line: a flower's decay worker or a gardener reporting a transition. */
  datatype Event =
    | StartedWithering(flower: nat)
    | Watering(gardener: int, flower: nat)

  /** One critical section: the decay worker of `flower`, or gardener `gardener` checking `flower`. */
  datatype Step =
    | DecayOf(flower: nat)
    | CheckBy(gardener: int, flower: nat)

  /** The table after some steps, and the lines they printed, in order. */
  datatype Outcome = Outcome(table: seq<int>, events: seq<Event>)

  /** Every state is healthy or withering. */
  predicate AllowedStates(s: seq<int>) {
    forall j :: 0 <= j < |s| ==> s[j] == Healthy || s[j] == Withering
  }

  /** Every step names a flower of a table with `n` flowers. */
  predicate InRange(steps: seq<Step>, n: nat) {
    forall k :: 0 <= k < |steps| ==> steps[k].flower < n
  }

  /** One integer field of every record, in order: how a segment of records is seen as a table. */
  function Project<R>(records: seq<R>, field: R -> int): (r: seq<int>)
    ensures |r| == |records| && forall j :: 0 <= j < |records| ==> r[j] == field(records[j])
  {
    seq(|records|, j requires 0 <= j < |records| => field(records[j]))
  }

  /** The table written by the initialisation loop: every flower healthy. */
  function Initial(n: nat): (s: seq<int>)
    ensures |s| == n
    ensures forall j :: 0 <= j < n ==> s[j] == Healthy
  {
    seq(n, _ => Healthy)
  }

  /**
    The decay worker's critical section on flower `i`: a healthy flower starts
    withering and the worker reports it; any other state is left alone and
    nothing is reported. No other flower is touched.
  */
  function Decay(s: seq<int>, i: nat): (r: Outcome)
    requires i < |s|
    ensures |r.table| == |s|
    ensures forall j :: 0 <= j < |s| && j != i ==> r.table[j] == s[j]
    ensures s[i] == Healthy ==> r.table[i] == Withering && r.events == [StartedWithering(i)]
    ensures s[i] != Healthy ==> r.table[i] == s[i] && r.events == []
  {
    if s[i] == Healthy then Outcome(s[i := Withering], [StartedWithering(i)])
    else Outcome(s, [])
  }

  /**
    Gardener `g` checking flower `i`: a withering flower is watered back to
    healthy and the gardener reports it; any other state is left alone and
    nothing is reported. No other flower is touched.
  */
  function Check(s: seq<int>, g: int, i: nat): (r: Outcome)
    requires i < |s|
    ensures |r.table| == |s|
    ensures forall j :: 0 <= j < |s| && j != i ==> r.table[j] == s[j]
    ensures s[i] == Withering ==> r.table[i] == Healthy && r.events == [Watering(g, i)]
    ensures s[i] != Withering ==> r.table[i] == s[i] && r.events == []
  {
    if s[i] == Withering then Outcome(s[i := Healthy], [Watering(g, i)])
    else Outcome(s, [])
  }

  /** One critical section of either kind. */
  function Apply(s: seq<int>, step: Step): (r: Outcome)
    requires step.flower < |s|
    ensures |r.table| == |s|
    ensures forall j :: 0 <= j < |s| && j != step.flower ==> r.table[j] == s[j]
    ensures |r.events| <= 1
  {
    match step
    case DecayOf(i) => Decay(s, i)
    case CheckBy(g, i) => Check(s, g, i)
  }

  /** An interleaving of critical sections, executed one after another from `s`. */
  function Run(s: seq<int>, steps: seq<Step>): (r: Outcome)
    requires InRange(steps, |s|)
    ensures |r.table| == |s|
    ensures |r.events| <= |steps|
    decreases |steps|
  {
    if steps == [] then Outcome(s, [])
    else
      var prev := Run(s, steps[..|steps| - 1]);
      var last := Apply(prev.table, steps[|steps| - 1]);
      Outcome(last.table, prev.events + last.events)
  }

  /** A single step keeps every state healthy or withering. */
  lemma StepKeepsStatesAllowed(s: seq<int>, step: Step)
    requires step.flower < |s| && AllowedStates(s)
    ensures AllowedStates(Apply(s, step).table)
  {
  }

  /** Any interleaving of decay steps and gardener checks keeps every state healthy or withering. */
  lemma {:induction false} RunKeepsStatesAllowed(s: seq<int>, steps: seq<Step>)
    requires InRange(steps, |s|) && AllowedStates(s)
    ensures AllowedStates(Run(s, steps).table)
    decreases |steps|
  {
    if steps != [] {
      var init := steps[..|steps| - 1];
      RunKeepsStatesAllowed(s, init);
      StepKeepsStatesAllowed(Run(s, init).table, steps[|steps| - 1]);
    }
  }

  /**
    From the initial table, whatever the interleaving, every flower is healthy
    or withering: withered (2) and overflowed (3) are never produced.
  */
  lemma {:induction false} ReachableStatesAreHealthyOrWithering(steps: seq<Step>)
    requires InRange(steps, FlowerCount)
    ensures var t := Run(Initial(FlowerCount), steps).table;
      forall j :: 0 <= j < FlowerCount ==> t[j] == Healthy || t[j] == Withering
    ensures var t := Run(Initial(FlowerCount), steps).table;
      forall j :: 0 <= j < FlowerCount ==> t[j] != Withered && t[j] != Overflowed
  {
    RunKeepsStatesAllowed(Initial(FlowerCount), steps);
  }

  /** A flower that no step of an interleaving names keeps its state. */
  lemma {:induction false} RunLeavesOtherFlowers(s: seq<int>, steps: seq<Step>, j: nat)
    requires InRange(steps, |s|) && j < |s|
    requires forall k :: 0 <= k < |steps| ==> steps[k].flower != j
    ensures Run(s, steps).table[j] == s[j]
    decreases |steps|
  {
    if steps != [] {
      RunLeavesOtherFlowers(s, steps[..|steps| - 1], j);
    }
  }

  /** Two critical sections in a row: the second runs on the table the first left. */
  lemma RunTwo(s: seq<int>, a: Step, b: Step)
    requires a.flower < |s| && b.flower < |s|
    ensures InRange([a, b], |s|)
    ensures var first := Apply(s, a); var second := Apply(first.table, b);
      Run(s, [a, b]) == Outcome(second.table, first.events + second.events)
  {
    var steps := [a, b];
    assert steps[..1] == [a];
    assert steps[..1][..0] == [];
    assert Run(s, [a]) == Apply(s, a);
  }

  /**
    A decay followed by a gardener's check on the same healthy flower reports
    both transitions and gives back the original table.
  */
  lemma DecayThenCheckRestores(s: seq<int>, i: nat, g: int)
    requires i < |s| && s[i] == Healthy
    ensures InRange([DecayOf(i), CheckBy(g, i)], |s|)
    ensures Run(s, [DecayOf(i), CheckBy(g, i)]) == Outcome(s, [StartedWithering(i), Watering(g, i)])
  {
    RunTwo(s, DecayOf(i), CheckBy(g, i));
    assert s[i := Withering][i := Healthy] == s;
  }

  /**
    Under any interleaving: once some gardener has checked flower `j`, the
    flower is not withering at the end unless its own decay worker ran after
    that check. Other gardeners' checks and other flowers' decays cannot make
    it withering again.
  */
  lemma {:induction false} CheckedFlowerStaysRestored(s: seq<int>, steps: seq<Step>, j: nat, k: nat)
    requires InRange(steps, |s|) && j < |s|
    requires k < |steps| && steps[k].CheckBy? && steps[k].flower == j
    requires forall m :: k < m < |steps| ==> steps[m] != DecayOf(j)
    ensures Run(s, steps).table[j] != Withering
    decreases |steps|
  {
    if k < |steps| - 1 {
      CheckedFlowerStaysRestored(s, steps[..|steps| - 1], j, k);
    }
  }

  /**
    A sweep by gardener `g` interleaved with any other steps (the other
    gardener's checks, any decay workers): `at[j]` is where g checks flower
    `j`. At the end every flower whose decay worker did not run after g's
    check of it is healthy.
  */
  lemma InterleavedSweepRestores(s: seq<int>, steps: seq<Step>, g: int, at: seq<nat>)
    requires InRange(steps, |s|) && AllowedStates(s)
    requires |at| == |s|
    requires forall j :: 0 <= j < |s| ==> at[j] < |steps| && steps[at[j]] == CheckBy(g, j)
    ensures forall j :: 0 <= j < |s| && (forall m :: at[j] < m < |steps| ==> steps[m] != DecayOf(j)) ==>
      Run(s, steps).table[j] == Healthy
  {
    RunKeepsStatesAllowed(s, steps);
    forall j | 0 <= j < |s| && (forall m :: at[j] < m < |steps| ==> steps[m] != DecayOf(j))
      ensures Run(s, steps).table[j] == Healthy
    {
      CheckedFlowerStaysRestored(s, steps, j, at[j]);
    }
  }

  /** A decay right after a decay of the same flower changes nothing and reports nothing. */
  lemma DecayIsIdempotent(s: seq<int>, i: nat)
    requires i < |s|
    ensures var first := Decay(s, i).table;
      Decay(first, i) == Outcome(first, [])
  {
  }

  /** A check right after another check of the same flower finds nothing to water. */
  lemma CheckIsIdempotent(s: seq<int>, g1: int, g2: int, i: nat)
    requires i < |s|
    ensures var first := Check(s, g1, i).table;
      Check(first, g2, i) == Outcome(first, [])
  {
  }

  /**
    Two gardeners checking the same flower one after the other: exactly one
    watering is reported if it was withering, none otherwise.
  */
  lemma TwoChecksWaterAtMostOnce(s: seq<int>, g1: int, g2: int, i: nat)
    requires i < |s|
    ensures InRange([CheckBy(g1, i), CheckBy(g2, i)], |s|)
    ensures var r := Run(s, [CheckBy(g1, i), CheckBy(g2, i)]);
      r.events == (if s[i] == Withering then [Watering(g1, i)] else []) &&
      r.table[i] != Withering
  {
    RunTwo(s, CheckBy(g1, i), CheckBy(g2, i));
  }

  /** The checks of one sweep over the first `k` flowers, in increasing index order. */
  function Checks(g: int, k: nat): (r: seq<Step>)
    ensures |r| == k
    ensures forall m :: 0 <= m < k ==> r[m] == CheckBy(g, m)
  {
    if k == 0 then [] else Checks(g, k - 1) + [CheckBy(g, k - 1)]
  }

  /** The state a check leaves behind. */
  function Restored(st: int): (r: int) {
    if st == Withering then Healthy else st
  }

  /** The table once the first `k` flowers have been checked. */
  function PartlySwept(s: seq<int>, k: nat): (r: seq<int>)
    requires k <= |s|
  {
    seq(|s|, j requires 0 <= j < |s| => if j < k then Restored(s[j]) else s[j])
  }

  /** The waterings reported while checking the first `k` flowers. */
  function SweepEvents(s: seq<int>, g: int, k: nat): (ev: seq<Event>)
    requires k <= |s|
  {
    if k == 0 then []
    else SweepEvents(s, g, k - 1) + (if s[k - 1] == Withering then [Watering(g, k - 1)] else [])
  }

  /** Checking flowers 0..k-1 in order, with no step in between, yields the closed forms above. */
  lemma {:induction false} SweepPrefix(s: seq<int>, g: int, k: nat)
    requires k <= |s|
    ensures InRange(Checks(g, k), |s|)
    ensures Run(s, Checks(g, k)) == Outcome(PartlySwept(s, k), SweepEvents(s, g, k))
  {
    if k > 0 {
      SweepPrefix(s, g, k - 1);
      var steps := Checks(g, k);
      assert steps[..k - 1] == Checks(g, k - 1);
      assert PartlySwept(s, k - 1)[k - 1 := Restored(s[k - 1])] == PartlySwept(s, k);
    }
  }

  /**
    The waterings of a partial sweep: each is by gardener `g`, they name the
    withering flowers among the first `k` and no other, in increasing order.
  */
  lemma {:induction false} SweepEventsAreWitheringFlowers(s: seq<int>, g: int, k: nat)
    requires k <= |s|
    ensures var ev := SweepEvents(s, g, k);
      forall e :: e in ev ==> e.Watering? && e.gardener == g && e.flower < k && s[e.flower] == Withering
    ensures var ev := SweepEvents(s, g, k);
      forall j :: 0 <= j < k && s[j] == Withering ==> Watering(g, j) in ev
    ensures var ev := SweepEvents(s, g, k);
      forall a, b :: 0 <= a < b < |ev| ==> ev[a].flower < ev[b].flower
  {
    if k > 0 {
      SweepEventsAreWitheringFlowers(s, g, k - 1);
    }
  }

  /**
    A full sweep with no interleaved step: afterwards no flower is withering,
    withering flowers are healthy again, the others are unchanged, and every
    event is a watering by the gardener, of exactly the withering flowers, in
    increasing order.
  */
  lemma SweepWatersEveryWitheringFlower(s: seq<int>, g: int)
    ensures InRange(Checks(g, |s|), |s|)
    ensures var r := Run(s, Checks(g, |s|));
      forall j :: 0 <= j < |s| ==> r.table[j] != Withering
    ensures var r := Run(s, Checks(g, |s|));
      forall j :: 0 <= j < |s| ==> r.table[j] == (if s[j] == Withering then Healthy else s[j])
    ensures var r := Run(s, Checks(g, |s|));
      forall j :: 0 <= j < |s| ==> (Watering(g, j) in r.events <==> s[j] == Withering)
    ensures var r := Run(s, Checks(g, |s|));
      forall e :: e in r.events ==> e.Watering? && e.gardener == g
    ensures var r := Run(s, Checks(g, |s|));
      forall a, b :: 0 <= a < b < |r.events| ==> r.events[a].flower < r.events[b].flower
  {
    SweepPrefix(s, g, |s|);
    SweepEventsAreWitheringFlowers(s, g, |s|);
  }

  /** Checking flowers none of which is withering reports nothing. */
  lemma {:induction false} NoWitheringNoSweepEvents(s: seq<int>, g: int, k: nat)
    requires k <= |s|
    requires forall j :: 0 <= j < k ==> s[j] != Withering
    ensures SweepEvents(s, g, k) == []
  {
    if k > 0 {
      NoWitheringNoSweepEvents(s, g, k - 1);
    }
  }

  /** A second sweep straight after a first one changes nothing and reports nothing. */
  lemma SecondSweepIsQuiet(s: seq<int>, g1: int, g2: int)
    ensures InRange(Checks(g1, |s|), |s|)
    ensures var first := Run(s, Checks(g1, |s|)).table;
      InRange(Checks(g2, |first|), |first|) &&
      Run(first, Checks(g2, |first|)) == Outcome(first, [])
  {
    SweepWatersEveryWitheringFlower(s, g1);
    var first := Run(s, Checks(g1, |s|)).table;
    SweepPrefix(first, g2, |first|);
    NoWitheringNoSweepEvents(first, g2, |first|);
    assert PartlySwept(first, |first|) == first;
  }
}
