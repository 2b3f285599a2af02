/** When the worker looks at the stop flag, and what it sees.

    The flag is checked at fixed points of the run: before each round of the
    polling loop and before each target or tab inside a round. A point is
    named by its round and slot: slot 0 is the loop's own check before the
    round starts, slot `j + 1` the check before target `j`. Round 0 is the
    tab-opening phase of multi-tab mode. Once the flag is set it stays set,
    so a run's stop request is the first point at which the flag reads set,
    if any.

    The polling loops also check a deadline: the loop clock at the start of
    a round is the time the rounds before it took, and a round starts only
    while that clock is below the budget. */
module Schedule {
  import opened Wrappers
  import Waiter

  datatype Checkpoint = Checkpoint(round: nat, slot: nat)

  /** `a` comes no later than `b` in the run. */
  predicate NoLater(a: Checkpoint, b: Checkpoint)
  {
    a.round < b.round || (a.round == b.round && a.slot <= b.slot)
  }

  /** The flag reads set at `c`. */
  predicate Stopped(stop: Option<Checkpoint>, c: Checkpoint)
  {
    stop.Some? && NoLater(stop.value, c)
  }

  /** Once set, the flag stays set at every later check. */
  lemma StopStays(stop: Option<Checkpoint>, a: Checkpoint, b: Checkpoint)
    requires Stopped(stop, a) && NoLater(a, b)
    ensures Stopped(stop, b)
  {
  }

  /** A stop seen inside a round is seen by the check before the next one. */
  lemma StopReachesNextRound(stop: Option<Checkpoint>, r: nat, j: nat)
    requires Stopped(stop, Checkpoint(r, j))
    ensures Stopped(stop, Checkpoint(r + 1, 0))
  {
  }

  /** The time the rounds `lo` up to `hi` (exclusive) take together, when
      round `q` takes `cost(q)`: round `q` starts this long after round
      `lo` does. */
  function Elapsed(cost: nat -> Waiter.Pos, lo: nat, hi: nat): nat
    decreases hi - lo
  {
    if hi <= lo then 0 else cost(lo) + Elapsed(cost, lo + 1, hi)
  }

  /** Each of the rounds `r` to `last` started with the loop clock below the
      budget, the clock reading `clock` when round `r` started. */
  predicate StartsInBudget(cost: nat -> Waiter.Pos, budget: nat, r: nat, clock: nat, last: nat)
  {
    forall q :: r <= q <= last ==> clock + Elapsed(cost, r, q) < budget
  }

  /** The loop ended after round `last` because the check before the next
      round saw the stop, or because the clock had reached the budget. */
  predicate EndsAfter(stop: Option<Checkpoint>, cost: nat -> Waiter.Pos, budget: nat, r: nat, clock: nat, last: nat)
  {
    Stopped(stop, Checkpoint(last + 1, 0)) || clock + Elapsed(cost, r, last + 1) >= budget
  }

  /** The budget facts of the rounds after `r` carry over to round `r`
      when it started with the clock below the budget and took `cost(r)`. */
  lemma ElapsedStep(cost: nat -> Waiter.Pos, budget: nat, stop: Option<Checkpoint>, r: nat, clock: nat, last: nat)
    requires clock < budget && r <= last
    requires StartsInBudget(cost, budget, r + 1, clock + cost(r), last)
    requires EndsAfter(stop, cost, budget, r + 1, clock + cost(r), last)
    ensures StartsInBudget(cost, budget, r, clock, last)
    ensures EndsAfter(stop, cost, budget, r, clock, last)
  {
    forall q | r < q
      ensures Elapsed(cost, r, q) == cost(r) + Elapsed(cost, r + 1, q)
    {
    }
  }

  /** Every round takes at least one unit, so `n` rounds take at least `n`
      units. */
  lemma {:induction false} ElapsedAtLeastRounds(cost: nat -> Waiter.Pos, lo: nat, hi: nat)
    requires lo <= hi
    ensures Elapsed(cost, lo, hi) >= hi - lo
    decreases hi - lo
  {
    if lo < hi {
      ElapsedAtLeastRounds(cost, lo + 1, hi);
    }
  }
}
