/**
  program_two.c: the same flower table, but each record of the shared
  segment embeds its own unnamed, process-shared semaphore next to the
  state, initialised to 1 by `initialize_resources`.

  A `Garden` is the mapped segment. Each critical section (`sem_wait` on the
  record's semaphore ... `sem_post`) is one method, executed atomically; an
  interleaving of the workers is a sequence of such calls.
*/
module EmbeddedLocks {
  import opened FlowerTable

  /** One record of the shared segment: the state and its lock counter. */
  datatype Flower = Flower(state: int, semaphore: int)

  class Garden {
    /** The mapped shared segment, `FlowerCount` records. */
    var flowers: array<Flower>

    /** The table of states, as FlowerTable sees it. */
    function States(): seq<int>
      reads this, flowers
    {
      Project(flowers[..], (f: Flower) => f.state)
    }

    /** The embedded lock counters, in flower order. */
    function Locks(): seq<int>
      reads this, flowers
    {
      Project(flowers[..], (f: Flower) => f.semaphore)
    }

    /**
      Between critical sections: the segment has `FlowerCount` records, each
      flower healthy or withering, and every embedded lock free.
    */
    ghost predicate Valid()
      reads this, flowers
    {
      flowers.Length == FlowerCount &&
      AllowedStates(States()) &&
      forall i :: 0 <= i < FlowerCount ==> flowers[i].semaphore == 1
    }

    /**
      `initialize_resources`: one loop sets each flower healthy and
      initialises its embedded semaphore to 1.
    */
    constructor ()
      ensures Valid() && fresh(flowers)
      ensures States() == Initial(FlowerCount)
      ensures forall i :: 0 <= i < FlowerCount ==> Locks()[i] == 1
    {
      var segment := new Flower[FlowerCount];
      var i := 0;
      while i < FlowerCount
        invariant 0 <= i <= FlowerCount
        invariant forall j :: 0 <= j < i ==> segment[j] == Flower(Healthy, 1)
      {
        segment[i] := segment[i].(state := Healthy);
        segment[i] := segment[i].(semaphore := 1);
        i := i + 1;
      }
      flowers := segment;
    }

    /** `sem_wait` on flower `i`'s lock: only scheduled when it is positive; takes one from it. */
    method Wait(i: nat)
      requires i < flowers.Length && flowers[i].semaphore > 0
      modifies flowers
      ensures flowers[..] == old(flowers[..])[i := old(flowers[i]).(semaphore := old(flowers[i].semaphore) - 1)]
    {
      flowers[i] := flowers[i].(semaphore := flowers[i].semaphore - 1);
    }

    /** `sem_post` on flower `i`'s lock: gives one back. */
    method Post(i: nat)
      requires i < flowers.Length
      modifies flowers
      ensures flowers[..] == old(flowers[..])[i := old(flowers[i]).(semaphore := old(flowers[i].semaphore) + 1)]
    {
      flowers[i] := flowers[i].(semaphore := flowers[i].semaphore + 1);
    }

    /**
      One pass of `simulate_flower`'s loop for flower `i`, without the sleep:
      the lock is taken (1 to 0), a healthy flower starts withering, and the
      lock is given back (0 to 1). The states change as `Decay` says and no
      lock, this one included, ends up different.
    */
    method SimulateFlowerStep(i: nat) returns (withering: bool)
      requires Valid() && i < FlowerCount
      modifies flowers
      ensures Valid()
      ensures withering <==> old(States())[i] == Healthy
      ensures Decay(old(States()), i) == Outcome(States(), if withering then [StartedWithering(i)] else [])
      ensures Locks() == old(Locks())
    {
      Wait(i);
      // lock `i` is held (counter 0) until the Post below
      if flowers[i].state == Healthy {
        flowers[i] := flowers[i].(state := Withering);
        withering := true;
      } else {
        withering := false;
      }
      Post(i);
    }

    /**
      `simulate_flower`'s loop for flower `i` cut after `passes` passes, with
      no other worker in between: the first pass decays the flower as `Decay`
      says and every later pass finds it not healthy and reports nothing.
    */
    method SimulateFlower(i: nat, passes: nat) returns (events: seq<Event>)
      requires Valid() && i < FlowerCount
      modifies flowers
      ensures Valid()
      ensures passes == 0 ==> States() == old(States()) && events == []
      ensures passes > 0 ==> Decay(old(States()), i) == Outcome(States(), events)
      ensures Locks() == old(Locks())
    {
      events := [];
      var k := 0;
      while k < passes
        invariant 0 <= k <= passes
        invariant Valid()
        invariant Locks() == old(Locks())
        invariant k == 0 ==> States() == old(States()) && events == []
        invariant k > 0 ==> Decay(old(States()), i) == Outcome(States(), events)
      {
        var withering := SimulateFlowerStep(i);
        if k > 0 {
          DecayIsIdempotent(old(States()), i);
        }
        if withering {
          events := events + [StartedWithering(i)];
        }
        k := k + 1;
      }
    }

    /**
      One inner iteration of `gardener_routine` for gardener `g` and flower
      `i`, without the sleep: under the embedded lock, a withering flower is
      watered. The states change as `Check` says and every lock is as before.
    */
    method GardenerCheck(g: int, i: nat) returns (watering: bool)
      requires Valid() && i < FlowerCount
      modifies flowers
      ensures Valid()
      ensures watering <==> old(States())[i] == Withering
      ensures Check(old(States()), g, i) == Outcome(States(), if watering then [Watering(g, i)] else [])
      ensures Locks() == old(Locks())
    {
      Wait(i);
      // lock `i` is held (counter 0) until the Post below
      if flowers[i].state == Withering {
        watering := true;
        flowers[i] := flowers[i].(state := Healthy);
      } else {
        watering := false;
      }
      Post(i);
    }

    /**
      One sweep of `gardener_routine`: the checks of flowers 0 to
      `FlowerCount` - 1 in order, with no other worker between its checks.
      It behaves as `Run` over those checks, and, with every state healthy or
      withering, leaves every flower healthy.
    */
    method GardenerSweep(g: int) returns (events: seq<Event>)
      requires Valid()
      modifies flowers
      ensures Valid()
      ensures InRange(Checks(g, FlowerCount), FlowerCount)
      ensures Run(old(States()), Checks(g, FlowerCount)) == Outcome(States(), events)
      ensures forall j :: 0 <= j < FlowerCount ==> States()[j] == Healthy
      ensures Locks() == old(Locks())
    {
      ghost var s0 := States();
      SweepPrefix(s0, g, FlowerCount);
      events := [];
      var i := 0;
      while i < FlowerCount
        invariant 0 <= i <= FlowerCount
        invariant Valid()
        invariant Locks() == old(Locks())
        invariant InRange(Checks(g, i), FlowerCount)
        invariant Run(s0, Checks(g, i)) == Outcome(States(), events)
      {
        var watering := GardenerCheck(g, i);
        if watering {
          events := events + [Watering(g, i)];
        }
        assert Checks(g, i + 1)[..i] == Checks(g, i);
        i := i + 1;
      }
      SweepWatersEveryWitheringFlower(s0, g);
    }

    /**
      `gardener_routine` cut after `sweeps` sweeps, each starting right after
      the previous one, with no other worker in between: the first sweep
      reports the withering flowers and every later sweep reports nothing.
    */
    method GardenerRoutine(g: int, sweeps: nat) returns (events: seq<Event>)
      requires Valid()
      modifies flowers
      ensures Valid()
      ensures InRange(Checks(g, FlowerCount), FlowerCount)
      ensures sweeps == 0 ==> States() == old(States()) && events == []
      ensures sweeps > 0 ==> Run(old(States()), Checks(g, FlowerCount)) == Outcome(States(), events)
      ensures Locks() == old(Locks())
    {
      SweepPrefix(States(), g, FlowerCount);
      events := [];
      var k := 0;
      while k < sweeps
        invariant 0 <= k <= sweeps
        invariant Valid()
        invariant Locks() == old(Locks())
        invariant k == 0 ==> States() == old(States()) && events == []
        invariant k > 0 ==> Run(old(States()), Checks(g, FlowerCount)) == Outcome(States(), events)
      {
        var more := GardenerSweep(g);
        if k > 0 {
          SecondSweepIsQuiet(old(States()), g, g);
        }
        events := events + more;
        k := k + 1;
      }
    }
  }
}
