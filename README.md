# Flower garden: the shared flower state table, in Dafny

The program simulates ten flowers whose state lives in shared memory. There
is one decay worker per flower (a forked process). After a random delay it
turns a healthy flower (state 0) into a withering one (state 1). Two
gardener threads sweep flowers 0 to 9 over and over and water every
withering flower back to healthy. Every read-modify-write of a flower
happens between `sem_wait` and `sem_post` on that flower's own semaphore.
The repository has two variants:

- `program.c` keeps the locks outside the segment, as named semaphores
  called `"/flower_sem_" + i`;
- `program_two.c` embeds an unnamed process-shared semaphore in each record.

The model:

- `FlowerTable.dfy` (module `FlowerTable`): the table as a `seq<int>` and
  each critical section as one atomic step (`Decay`, `Check`). An arbitrary
  interleaving of the workers is any sequence of `Step`s, folded left to
  right by `Run`. A gardener's sweep is `Run` over `Checks(g, n)`.
  - For every interleaving, the lemmas prove: states stay in {0, 1}; a step
    touches only its own flower; once any gardener has checked flower j,
    j is not withering at the end unless its own decay worker ran after that
    check; and so a sweep interleaved with other steps leaves healthy every
    flower that did not decay again after the sweep visited it.
  - With no step in between, the lemmas prove: a decay followed by a check
    on a healthy flower restores the table; back-to-back checks water at most once;
    back-to-back decays change nothing the second time; a sweep waters, and
    reports, exactly the withering flowers, in order; and a second sweep
    straight after is quiet.
  - No lemma says which flowers an interleaved sweep reports. Another
    gardener may water a flower first, and the sweep then does not report it.
- `SemaphoreNames.dfy` (module `SemaphoreNames`): the `"%s%d"` name
  derivation of `program.c`. It has an inverse (`SemIndex`), a decimal
  round trip, and injectivity.
- `NamedLocks.dfy` (module `NamedLocks`, for `program.c`): class `Garden`
  with the mapped `flowers` array and a separate `semaphores` array of
  named semaphores (name and counter).
- `EmbeddedLocks.dfy` (module `EmbeddedLocks`, for `program_two.c`): class
  `Garden` whose `flowers` array holds records of a state and its lock
  counter.

In both classes, each worker's critical section is a method: `Wait`, the
state update, then `Post`. Its `ensures` ties the new table to `Decay` or
`Check` of the old one and says the locks are as they were. `Valid()` holds
between critical sections: every state is 0 or 1, and every lock is free
(1). The critical-section, sweep and routine methods all keep it, which is
the imperative form of the reachability lemma. `Wait` and `Post` are the
two halves of a critical section: `Wait` breaks `Valid()` by taking the
lock, and `Post` restores it.

## Model

| member | source | states |
|---|---|---|
| FlowerTable.Initial | program.c:65-68 | the initialised table has exactly `FlowerCount` entries, all healthy (0) |
| FlowerTable.Decay | program.c:108-113 | decay of flower `i`: 0 becomes 1 and reports "started withering"; any other state is kept and nothing is reported; every other index is unchanged |
| FlowerTable.Check | program.c:88-94 | gardener `g` on flower `i`: 1 becomes 0 and reports "watering" by `g`; any other state is kept and nothing is reported; every other index is unchanged |
| FlowerTable.Apply | program_two.c:70-92 | either critical section keeps the table size, changes no flower but its own, and reports at most one line |
| FlowerTable.Run | program.c:126-148 | an interleaving of critical sections keeps the table size and prints at most one line per section |
| FlowerTable.StepKeepsStatesAllowed | program.c:84-115 | one critical section of either kind maps a table of 0s and 1s to a table of 0s and 1s |
| FlowerTable.RunKeepsStatesAllowed | program.c:84-115 | every interleaving of decay steps and gardener checks keeps every state in {0, 1} |
| FlowerTable.ReachableStatesAreHealthyOrWithering | program.c:17-20 | from the initialised table, whatever the interleaving, every state is 0 or 1; 2 (withered) and 3 (overflowed) are never produced |
| FlowerTable.RunLeavesOtherFlowers | program.c:84-115 | a flower that no step of an interleaving names keeps its state |
| FlowerTable.CheckedFlowerStaysRestored | program.c:84-115 | under any interleaving, after some gardener checks flower j, j is not withering at the end unless a decay of j ran after that check |
| FlowerTable.InterleavedSweepRestores | program.c:87-96 | gardener g's checks of every flower, interleaved with any other steps: at the end every flower not decayed again after g's check of it is healthy |
| FlowerTable.DecayIsIdempotent | program.c:108-113 | a decay straight after a decay of the same flower changes nothing and reports nothing |
| FlowerTable.DecayThenCheckRestores | program_two.c:66-94 | on a healthy flower, one decay then one check print "started withering" then "watering", and the whole table is back as it was |
| FlowerTable.CheckIsIdempotent | program.c:89-92 | a check straight after a check of the same flower leaves the table alone and reports nothing |
| FlowerTable.TwoChecksWaterAtMostOnce | program_two.c:71-74 | two gardeners checking one flower in a row report exactly one watering if it was withering and none otherwise; the flower is no longer withering |
| FlowerTable.Checks | program.c:87 | a sweep visits flowers 0 to k-1, in increasing order, one check each |
| FlowerTable.SweepPrefix | program.c:87-96 | after checking flowers 0..k-1 in order, those flowers are restored (1 to 0), the rest are untouched, and the reports are the waterings of the withering ones among them |
| FlowerTable.SweepEventsAreWitheringFlowers | program.c:89-90 | the waterings of a partial sweep are all by that gardener and name exactly the withering flowers visited, in strictly increasing index order |
| FlowerTable.SweepWatersEveryWitheringFlower | program.c:87-96 | after a full sweep with no interleaved step, no flower is withering, withering ones are healthy, the others are unchanged, every event is a watering by g, and flower j is reported iff it was withering, in increasing order |
| FlowerTable.NoWitheringNoSweepEvents | program_two.c:71 | a sweep over flowers none of which is withering reports nothing |
| FlowerTable.SecondSweepIsQuiet | program_two.c:68-78 | a sweep started straight after a sweep changes nothing and reports nothing |
| SemaphoreNames.Decimal | program.c:73 | `%d` of a natural number is one or more digits, with no leading zero unless it is 0, and exactly one digit iff it is below 10 |
| SemaphoreNames.DecimalRoundTrip | program.c:73 | reading back the decimal text of `n` gives `n` |
| SemaphoreNames.SemName | program.c:15 | every semaphore name starts with the prefix `/flower_sem_` and continues with one or more digits only |
| SemaphoreNames.SemNameRoundTrip | program.c:31 | the flower index can be recovered from its semaphore name |
| SemaphoreNames.SemNameInjective | program.c:71-80 | two flowers get the same semaphore name iff they are the same flower |
| SemaphoreNames.SemNameOfFlower | program.c:30-31 | for indices 0..9 the name is the prefix and one digit, and it fits the 256-byte buffer without truncation |
| NamedLocks.Garden.constructor | program.c:64-80 | after initialisation every flower is healthy and semaphore `i` exists under `SemName(i)` with value 1 |
| NamedLocks.Garden.Wait | program.c:88 | `sem_wait` on a free named semaphore takes one from its counter and changes nothing else |
| NamedLocks.Garden.Post | program.c:94 | `sem_post` gives one back to the counter and changes nothing else |
| NamedLocks.Garden.SimulateFlowerStep | program.c:108-113 | the decay critical section changes the table exactly as `Decay`, reports iff the flower was healthy, and leaves every semaphore as it found it |
| NamedLocks.Garden.SimulateFlower | program.c:105-114 | repeated decay passes of one flower with nothing interleaved change the table as one `Decay` and report at most that one line; every semaphore is as before |
| NamedLocks.Garden.GardenerCheck | program.c:88-94 | the gardener's critical section changes the table exactly as `Check`, reports iff the flower was withering, and leaves every semaphore as it found it |
| NamedLocks.Garden.GardenerSweep | program.c:87-96 | a sweep is `Run` over the checks of 0..9 in order; afterwards every flower is healthy and every semaphore is as before |
| NamedLocks.Garden.GardenerRoutine | program.c:86-98 | repeated sweeps with nothing interleaved report the first sweep's waterings and nothing more |
| NamedLocks.Garden.CleanupSemaphoreNames | program.c:27-34 | teardown derives the same ten names the semaphores were opened under, one per flower, all distinct |
| EmbeddedLocks.Garden.constructor | program_two.c:59-63 | after initialisation every flower is healthy and every embedded lock counter is 1 |
| EmbeddedLocks.Garden.Wait | program_two.c:70 | `sem_wait` on a free embedded lock takes one from that record's counter and changes nothing else |
| EmbeddedLocks.Garden.Post | program_two.c:75 | `sem_post` gives one back to that record's counter and changes nothing else |
| EmbeddedLocks.Garden.SimulateFlowerStep | program_two.c:87-92 | the decay critical section changes the states exactly as `Decay`, reports iff the flower was healthy, and leaves every lock counter, its own included, at its entry value |
| EmbeddedLocks.Garden.SimulateFlower | program_two.c:84-93 | repeated decay passes of one flower with nothing interleaved change the states as one `Decay` and report at most that one line; every lock counter is as before |
| EmbeddedLocks.Garden.GardenerCheck | program_two.c:70-75 | the gardener's critical section changes the states exactly as `Check`, reports iff the flower was withering, and leaves every lock counter at its entry value |
| EmbeddedLocks.Garden.GardenerSweep | program_two.c:69-77 | a sweep is `Run` over the checks of 0..9 in order; afterwards every flower is healthy and every lock counter is as before |
| EmbeddedLocks.Garden.GardenerRoutine | program_two.c:68-78 | sweeps that follow each other with no pause and nothing interleaved report the first sweep's waterings and nothing more |

## Left out

- Shared-memory lifecycle (`shm_open`, `ftruncate`, `mmap`, `munmap`, `close`, `shm_unlink`) and its failure exits. These are OS calls. The constructors start from a freshly allocated array, as if mapping always succeeded.
- Semaphore OS calls (`sem_open` with `O_EXCL`, `sem_close`, `sem_unlink`, `sem_init`, `sem_destroy`) and their failures. Only the counter is kept, plus the name for the named variant. A stale semaphore from an earlier run makes `sem_open` fail in `program.c`; that is not modelled.
- `cleanup_resources` beyond the names it derives. The closes, unmaps and unlinks, the `if (semaphores[i])`, `if (flowers)` and `shm_fd >= 0` guards for a partial initialisation, and `exit` are process and OS control.
- Signal handling (`sigaction`, `pause`) and `main`'s thread creation, forking and joining, with their error paths.
- Real concurrency. Each critical section is one atomic method, and an interleaving is a sequence of `Step`s (`FlowerTable.Run`) or of method calls. A blocking `sem_wait` becomes the precondition "counter positive". Mutual exclusion is therefore by construction.
- The orphaned-lock hazard: a worker dying inside its critical section. This needs process death mid-section, which an atomic step cannot show.
- Timing and randomness (`srand`, `rand`, `usleep`). The pause between sweeps in `program.c` (500 ms) and its absence in `program_two.c` are timing only, so the two gardener routines have the same model.
- `printf`/`perror`. A printed line is a returned `bool` or an `Event`.
- The gardener id comes from the thread argument pointer. Here it is the parameter `g`.
- NamedLocks.Garden.GardenerRoutine: the endless `while (1)` is cut after `sweeps` sweeps, and only the case with no other worker's step (a decay or the other gardener's check) between or within sweeps is stated. For interleavings, `FlowerTable.Run` gives the state invariant, the frame, and `InterleavedSweepRestores`. No lemma says which flowers an interleaved sweep reports.
- EmbeddedLocks.Garden.GardenerRoutine: same bound and restriction as above.
- NamedLocks.Garden.GardenerSweep: the ten checks run with no other step between them. In the source each check is followed by a 100 ms sleep during which decay workers and the other gardener run. An interleaved sweep is a sequence of `GardenerCheck` calls, or of `CheckBy` steps in `FlowerTable.Run` with other steps between them; `FlowerTable.InterleavedSweepRestores` covers that case.
- EmbeddedLocks.Garden.GardenerSweep: same restriction as above; the sleep after each check is at program_two.c:76.
- NamedLocks.Garden.SimulateFlower: the endless `while (1)` of the decay worker is cut after `passes` passes, and only passes with no other step in between are stated. Interleaved passes are `DecayOf(i)` steps in `FlowerTable.Run`.
- EmbeddedLocks.Garden.SimulateFlower: same bound and restriction as above.
- SemaphoreNames.Decimal: it models `%d` for non-negative values only, because flower indices are 0..9.
- Integer widths: `state` is a C `int` that only ever holds 0 or 1. Semaphore counters are unbounded, and `SEM_VALUE_MAX` is not modelled, since every post follows a wait.
