/**
  program.c: the flower table lives in a shared segment of `Flower` records
  holding only the state; the locks are named semaphores outside the
  segment, one per flower, opened under `SemName(i)` with initial value 1.

  A `Garden` is the initiating process's view after `initialize_resources`:
  the mapped records and the semaphore handles. Each critical section
  (`sem_wait` ... `sem_post`) is one method, executed atomically; an
  interleaving of the workers is a sequence of such calls.
*/
module NamedLocks {
  import opened FlowerTable
  import opened SemaphoreNames

  /** One record of the shared segment. */
  datatype Flower = Flower(state: int)

  /** A named semaphore: the name it was opened under and its counter. */
  datatype NamedSemaphore = NamedSemaphore(name: string, count: int)

  class Garden {
    /** The mapped shared segment, `FlowerCount` records. */
    var flowers: array<Flower>
    /** `semaphores[i]` guards `flowers[i]`. */
    var semaphores: array<NamedSemaphore>

    /** The table of states, as FlowerTable sees it. */
    function States(): seq<int>
      reads this, flowers
    {
      Project(flowers[..], (f: Flower) => f.state)
    }

    /**
      Between critical sections: the table has `FlowerCount` flowers, each
      healthy or withering, and semaphore `i` is named `SemName(i)` and free.
    */
    ghost predicate Valid()
      reads this, flowers, semaphores
    {
      flowers.Length == FlowerCount && semaphores.Length == FlowerCount &&
      AllowedStates(States()) &&
      forall i :: 0 <= i < FlowerCount ==> semaphores[i] == NamedSemaphore(SemName(i), 1)
    }

    /**
      `initialize_resources`: every flower is set healthy, then semaphore `i`
      is created under `SemName(i)` with value 1.
    */
    constructor ()
      ensures Valid() && fresh(flowers) && fresh(semaphores)
      ensures States() == Initial(FlowerCount)
    {
      var segment := new Flower[FlowerCount];
      var sems := new NamedSemaphore[FlowerCount];
      var i := 0;
      while i < FlowerCount
        invariant 0 <= i <= FlowerCount
        invariant forall j :: 0 <= j < i ==> segment[j].state == Healthy
      {
        segment[i] := segment[i].(state := Healthy);
        i := i + 1;
      }
      i := 0;
      while i < FlowerCount
        invariant 0 <= i <= FlowerCount
        invariant forall j :: 0 <= j < FlowerCount ==> segment[j].state == Healthy
        invariant forall j :: 0 <= j < i ==> sems[j] == NamedSemaphore(SemName(j), 1)
      {
        sems[i] := NamedSemaphore(SemName(i), 1);
        i := i + 1;
      }
      flowers, semaphores := segment, sems;
    }

    /** `sem_wait`: only scheduled when the counter is positive; takes one from it. */
    method Wait(i: nat)
      requires i < semaphores.Length && semaphores[i].count > 0
      modifies semaphores
      ensures semaphores[..] == old(semaphores[..])[i := old(semaphores[i]).(count := old(semaphores[i].count) - 1)]
    {
      semaphores[i] := semaphores[i].(count := semaphores[i].count - 1);
    }

    /** `sem_post`: gives one back. */
    method Post(i: nat)
      requires i < semaphores.Length
      modifies semaphores
      ensures semaphores[..] == old(semaphores[..])[i := old(semaphores[i]).(count := old(semaphores[i].count) + 1)]
    {
      semaphores[i] := semaphores[i].(count := semaphores[i].count + 1);
    }

    /**
      One pass of `simulate_flower`'s loop for flower `i`, without the sleep:
      under lock `i`, a healthy flower starts withering; `withering` says
      whether the line is printed. The table changes as `Decay` says, and
      every semaphore is back where it was.
    */
    method SimulateFlowerStep(i: nat) returns (withering: bool)
      requires Valid() && i < FlowerCount
      modifies flowers, semaphores
      ensures Valid()
      ensures withering <==> old(States())[i] == Healthy
      ensures Decay(old(States()), i) == Outcome(States(), if withering then [StartedWithering(i)] else [])
      ensures semaphores[..] == old(semaphores[..])
    {
      Wait(i);
      if flowers[i].state == Healthy {
        flowers[i] := flowers[i].(state := Withering);
        withering := true;
      } else {
        withering := false;
      }
      Post(i);
    }

    /**
      `simulate_flower`'s loop for flower `i` cut after `passes` passes, with
      no other worker in between: the first pass decays the flower as `Decay`
      says and every later pass finds it not healthy and reports nothing.
    */
    method SimulateFlower(i: nat, passes: nat) returns (events: seq<Event>)
      requires Valid() && i < FlowerCount
      modifies flowers, semaphores
      ensures Valid()
      ensures passes == 0 ==> States() == old(States()) && events == []
      ensures passes > 0 ==> Decay(old(States()), i) == Outcome(States(), events)
      ensures semaphores[..] == old(semaphores[..])
    {
      events := [];
      var k := 0;
      while k < passes
        invariant 0 <= k <= passes
        invariant Valid()
        invariant semaphores[..] == old(semaphores[..])
        invariant k == 0 ==> States() == old(States()) && events == []
        invariant k > 0 ==> Decay(old(States()), i) == Outcome(States(), events)
      {
        var withering := SimulateFlowerStep(i);
        if k > 0 {
          DecayIsIdempotent(old(States()), i);
        }
        if withering {
          events := events + [StartedWithering(i)];
        }
        k := k + 1;
      }
    }

    /**
      One inner iteration of `gardener_routine` for gardener `g` and flower
      `i`, without the sleep: under lock `i`, a withering flower is watered;
      `watering` says whether the line is printed. The table changes as
      `Check` says, and every semaphore is back where it was.
    */
    method GardenerCheck(g: int, i: nat) returns (watering: bool)
      requires Valid() && i < FlowerCount
      modifies flowers, semaphores
      ensures Valid()
      ensures watering <==> old(States())[i] == Withering
      ensures Check(old(States()), g, i) == Outcome(States(), if watering then [Watering(g, i)] else [])
      ensures semaphores[..] == old(semaphores[..])
    {
      Wait(i);
      if flowers[i].state == Withering {
        watering := true;
        flowers[i] := flowers[i].(state := Healthy);
      } else {
        watering := false;
      }
      Post(i);
    }

    /**
      One sweep of `gardener_routine`: the checks of flowers 0 to
      `FlowerCount` - 1 in order, with no other worker between its checks.
      It behaves as `Run` over those checks, and, with every state healthy or
      withering, leaves every flower healthy.
    */
    method GardenerSweep(g: int) returns (events: seq<Event>)
      requires Valid()
      modifies flowers, semaphores
      ensures Valid()
      ensures InRange(Checks(g, FlowerCount), FlowerCount)
      ensures Run(old(States()), Checks(g, FlowerCount)) == Outcome(States(), events)
      ensures forall j :: 0 <= j < FlowerCount ==> States()[j] == Healthy
      ensures semaphores[..] == old(semaphores[..])
    {
      ghost var s0 := States();
      SweepPrefix(s0, g, FlowerCount);
      events := [];
      var i := 0;
      while i < FlowerCount
        invariant 0 <= i <= FlowerCount
        invariant Valid()
        invariant semaphores[..] == old(semaphores[..])
        invariant InRange(Checks(g, i), FlowerCount)
        invariant Run(s0, Checks(g, i)) == Outcome(States(), events)
      {
        var watering := GardenerCheck(g, i);
        if watering {
          events := events + [Watering(g, i)];
        }
        assert Checks(g, i + 1)[..i] == Checks(g, i);
        i := i + 1;
      }
      SweepWatersEveryWitheringFlower(s0, g);
    }

    /**
      `gardener_routine` cut after `sweeps` sweeps, with no other worker in
      between: the first sweep reports the withering flowers and every later
      sweep reports nothing.
    */
    method GardenerRoutine(g: int, sweeps: nat) returns (events: seq<Event>)
      requires Valid()
      modifies flowers, semaphores
      ensures Valid()
      ensures InRange(Checks(g, FlowerCount), FlowerCount)
      ensures sweeps == 0 ==> States() == old(States()) && events == []
      ensures sweeps > 0 ==> Run(old(States()), Checks(g, FlowerCount)) == Outcome(States(), events)
      ensures semaphores[..] == old(semaphores[..])
    {
      SweepPrefix(States(), g, FlowerCount);
      events := [];
      var k := 0;
      while k < sweeps
        invariant 0 <= k <= sweeps
        invariant Valid()
        invariant semaphores[..] == old(semaphores[..])
        invariant k == 0 ==> States() == old(States()) && events == []
        invariant k > 0 ==> Run(old(States()), Checks(g, FlowerCount)) == Outcome(States(), events)
      {
        var more := GardenerSweep(g);
        if k > 0 {
          SecondSweepIsQuiet(old(States()), g, g);
        }
        events := events + more;
        k := k + 1;
      }
    }

    /**
      The name loop of `cleanup_resources`: the names it unlinks are derived
      by the same formula as at creation, so they are exactly the names the
      semaphores were opened under, and no name is unlinked twice.
    */
    method CleanupSemaphoreNames() returns (names: seq<string>)
      requires Valid()
      ensures |names| == FlowerCount
      ensures forall i :: 0 <= i < FlowerCount ==> names[i] == semaphores[i].name
      ensures forall i, j :: 0 <= i < j < FlowerCount ==> names[i] != names[j]
    {
      names := [];
      var i := 0;
      while i < FlowerCount
        invariant 0 <= i <= FlowerCount
        invariant |names| == i
        invariant forall k :: 0 <= k < i ==> names[k] == SemName(k)
      {
        names := names + [SemName(i)];
        i := i + 1;
      }
      forall a, b | 0 <= a < b < FlowerCount
        ensures names[a] != names[b]
      {
        SemNameInjective(a, b);
      }
    }
  }
}
