/** Single-tab mode of `App.worker`: an optional warm-up on the home page,
    then rounds that visit every target page in list order until the time
    budget is spent or a stop is requested.

    Each round's duration and what each visit finds are observations; the
    loop's clock starts at 0 when the rounds begin, and the budget is the
    configured number of minutes on that clock. */
module SingleTab {
  import opened Wrappers
  import opened Schedule
  import Waiter
  import Executor

  /** The waits and the click budget the mode passes on. */
  const WarmupMaxWait: int := 180
  const PageMaxWait: int := 240
  const MaxClick: int := 999

  /** What a visit to one target page runs into. */
  datatype PageObs = PageObs(
    wait: nat -> Waiter.Tick,
    imgs: seq<Executor.Button>,
    attempts: (nat, nat) -> Executor.AttemptObs)

  datatype World = World(
    stop: Option<Checkpoint>,
    warmupWait: nat -> Waiter.Tick,
    page: (nat, nat) -> PageObs,      // round, target index
    roundCost: nat -> Waiter.Pos,     // how long a round takes, sleep included
    budget: nat)

  /** One target visit: whether the page became ready, and the clicks it
      added. */
  datatype Visit = Visit(round: nat, slot: nat, url: string, ready: bool, clicks: nat)

  /** What a visit found, before it is placed in the run. */
  datatype Look = Look(ready: bool, clicks: nat)

  datatype Run = Run(warmup: Option<Waiter.WaitRun>, visits: seq<Visit>, rounds: nat, total: nat)

  function PageParams(url: string, retries: int): Waiter.WaitParams
  {
    Waiter.WaitParams(url, PageMaxWait, retries, true)
  }

  /** `drv.get(url)`, the wait, and, on a ready page, the clicks. */
  function VisitPage(url: string, filter: Executor.Filter, retries: int, o: PageObs): (l: Look)
    // a page that is not ready is skipped: nothing is clicked on it
    ensures !l.ready ==> l.clicks == 0
    ensures l.ready <==> Waiter.Wait(PageParams(url, retries), o.wait).outcome == Waiter.Ready
    ensures l.ready ==> l.clicks == Executor.ClickAll(Executor.AsWritten, filter, MaxClick, retries, o.imgs, o.attempts).count
  {
    if Waiter.Wait(PageParams(url, retries), o.wait).outcome == Waiter.Ready then
      Look(true, Executor.ClickAll(Executor.AsWritten, filter, MaxClick, retries, o.imgs, o.attempts).count)
    else Look(false, 0)
  }

  /** The visit of target `j` in round `r`, as the loop places it. */
  function Place(urls: seq<string>, look: (nat, nat) -> Look, r: nat, j: nat): Visit
    requires j < |urls|
  {
    Visit(r, j, urls[j], look(r, j).ready, look(r, j).clicks)
  }

  /** The `for url in urls` loop of round `r` from target `j` on. */
  function RoundVisits(urls: seq<string>, look: (nat, nat) -> Look, stop: Option<Checkpoint>, r: nat, j: nat): (vs: seq<Visit>)
    requires j <= |urls|
    ensures |vs| <= |urls| - j
    ensures forall n :: 0 <= n < |vs| ==> vs[n] == Place(urls, look, r, j + n)
    // every visit passed its stop check; the round ends early only on a stop
    ensures forall n :: 0 <= n < |vs| ==> !Stopped(stop, Checkpoint(r, vs[n].slot + 1))
    ensures j + |vs| < |urls| ==> Stopped(stop, Checkpoint(r, j + |vs| + 1))
    decreases |urls| - j
  {
    if j == |urls| || Stopped(stop, Checkpoint(r, j + 1)) then []
    else
      var rest := RoundVisits(urls, look, stop, r, j + 1);
      var vs := [Place(urls, look, r, j)] + rest;
      assert forall n :: 0 < n < |vs| ==> vs[n] == rest[n - 1];
      vs
  }

  /** Consecutive visits: the next target of the same round, or the first
      target of the next round after the last one. */
  predicate Follows(a: Visit, b: Visit, n: nat)
  {
    || (b.round == a.round && b.slot == a.slot + 1)
    || (b.round == a.round + 1 && b.slot == 0 && a.slot + 1 == n)
  }

  /** Visits go through the list in order, round after round, with no
      target visited twice in a round and none skipped. */
  ghost predicate InOrder(vs: seq<Visit>, n: nat)
  {
    && (forall k :: 0 <= k < |vs| ==> vs[k].slot < n)
    && (forall i, j :: 0 <= i < j < |vs| && j == i + 1 ==> Follows(vs[i], vs[j], n))
  }

  /** The rounds loop from round `r` on, at loop clock `clock`: the visits
      made and the number of the last round started. */
  function Rounds(urls: seq<string>, look: (nat, nat) -> Look, w: World, r: nat, clock: nat): (res: (seq<Visit>, nat))
    requires r >= 1
    ensures r - 1 <= res.1
    // every round started passed the loop's check, and its visits passed theirs
    ensures forall q :: r <= q <= res.1 ==> !Stopped(w.stop, Checkpoint(q, 0))
    // a round starts only while the loop clock is below the budget, and the
    // loop ends on a stop or a spent budget
    ensures StartsInBudget(w.roundCost, w.budget, r, clock, res.1)
    ensures EndsAfter(w.stop, w.roundCost, w.budget, r, clock, res.1)
    ensures forall k :: 0 <= k < |res.0| ==> r <= res.0[k].round <= res.1
    ensures forall k :: 0 <= k < |res.0| ==> !Stopped(w.stop, Checkpoint(res.0[k].round, res.0[k].slot + 1))
    ensures forall k :: 0 <= k < |res.0| ==> res.0[k].slot < |urls| && res.0[k] == Place(urls, look, res.0[k].round, res.0[k].slot)
    decreases w.budget - clock
  {
    if Stopped(w.stop, Checkpoint(r, 0)) || clock >= w.budget then ([], r - 1)
    else
      var vs := RoundVisits(urls, look, w.stop, r, 0);
      var rest := Rounds(urls, look, w, r + 1, clock + w.roundCost(r));
      assert forall q :: r < q ==> Elapsed(w.roundCost, r, q) == w.roundCost(r) + Elapsed(w.roundCost, r + 1, q);
      (vs + rest.0, rest.1)
  }

  function SumClicks(vs: seq<Visit>): nat
  {
    if vs == [] then 0 else vs[0].clicks + SumClicks(vs[1..])
  }

  /** What each visit finds, by round and target. */
  function Looks(urls: seq<string>, filter: Executor.Filter, retries: int, w: World): (nat, nat) -> Look
  {
    (r: nat, j: nat) => if j < |urls| then VisitPage(urls[j], filter, retries, w.page(r, j)) else Look(false, 0)
  }

  /** Single-tab mode from the warm-up to the end of the last round. */
  function RunSingleTab(urls: seq<string>, filter: Executor.Filter, retries: int, warmup: bool, w: World): (run: Run)
    ensures run.warmup.Some? <==> warmup
    // the warm-up waits on the home page with a refresh, not a bounce, on failure
    ensures run.warmup.Some? ==>
              run.warmup.value == Waiter.Wait(Waiter.WaitParams(Waiter.HomeUrl, WarmupMaxWait, retries, false), w.warmupWait)
    ensures run.total == SumClicks(run.visits)
    ensures forall k :: 0 <= k < |run.visits| ==> !Stopped(w.stop, Checkpoint(run.visits[k].round, run.visits[k].slot + 1))
    ensures forall q :: 1 <= q <= run.rounds ==> !Stopped(w.stop, Checkpoint(q, 0))
    // each visit is the wait on its target and, on a ready page, the clicks
    ensures forall k :: 0 <= k < |run.visits| ==>
              && run.visits[k].slot < |urls|
              && run.visits[k].url == urls[run.visits[k].slot]
              && Look(run.visits[k].ready, run.visits[k].clicks)
                 == VisitPage(urls[run.visits[k].slot], filter, retries, w.page(run.visits[k].round, run.visits[k].slot))
    // round `q` starts only while the time the rounds before it took is
    // below the budget, and the loop ends on a stop or a spent budget
    ensures StartsInBudget(w.roundCost, w.budget, 1, 0, run.rounds)
    ensures EndsAfter(w.stop, w.roundCost, w.budget, 1, 0, run.rounds)
    // no round starts once the budget is spent or the stop is already set
    ensures w.budget == 0 || Stopped(w.stop, Checkpoint(1, 0)) ==> run.visits == [] && run.rounds == 0
  {
    var warm := if warmup then Some(Waiter.Wait(Waiter.WaitParams(Waiter.HomeUrl, WarmupMaxWait, retries, false), w.warmupWait)) else None;
    var res := Rounds(urls, Looks(urls, filter, retries, w), w, 1, 0);
    Run(warm, res.0, res.1, SumClicks(res.0))
  }

  /** Prepending a round's visits keeps the order when the next visit, if
      any, begins the next round at its first target. */
  lemma InOrderJoin(vs: seq<Visit>, rest: seq<Visit>, n: nat)
    requires InOrder(vs, n) && InOrder(rest, n)
    requires vs != [] && rest != [] ==> Follows(vs[|vs| - 1], rest[0], n)
    ensures InOrder(vs + rest, n)
  {
    var all := vs + rest;
    forall i, j | 0 <= i < j < |all| && j == i + 1
      ensures Follows(all[i], all[j], n)
    {
      var k := i;
      if k + 1 < |vs| {
        assert all[k] == vs[k] && all[k + 1] == vs[k + 1];
      } else if k + 1 == |vs| {
        assert all[k] == vs[|vs| - 1] && all[k + 1] == rest[0];
      } else {
        assert all[k] == rest[k - |vs|] && all[k + 1] == rest[k - |vs| + 1];
      }
    }
  }

  /** A later round is started only if no stop was seen in this one, and
      then this round visited every target. */
  lemma RoundCompleteBeforeNext(urls: seq<string>, look: (nat, nat) -> Look, w: World, r: nat, clock: nat)
    requires r >= 1
    requires !Stopped(w.stop, Checkpoint(r, 0)) && clock < w.budget
    ensures Rounds(urls, look, w, r + 1, clock + w.roundCost(r)).0 != [] ==> |RoundVisits(urls, look, w.stop, r, 0)| == |urls|
  {
  }

  /** One round's visits followed by the later rounds' visits are in order
      when the round covered every target before a later one began. */
  lemma RoundThenLater(vs: seq<Visit>, rest: seq<Visit>, n: nat, r: nat)
    requires |vs| <= n
    requires forall k :: 0 <= k < |vs| ==> vs[k].round == r && vs[k].slot == k
    requires rest != [] ==> |vs| == n && rest[0].round == r + 1 && rest[0].slot == 0
    requires InOrder(rest, n)
    ensures InOrder(vs + rest, n)
    ensures vs + rest != [] ==> (vs + rest)[0].round == r && (vs + rest)[0].slot == 0
  {
    assert InOrder(vs, n);
    InOrderJoin(vs, rest, n);
  }

  /** The rounds loop visits targets in list order, round after round,
      each round starting at the first target. */
  lemma {:induction false} RoundsInOrder(urls: seq<string>, look: (nat, nat) -> Look, w: World, r: nat, clock: nat)
    requires r >= 1
    ensures var vs := Rounds(urls, look, w, r, clock).0;
      && InOrder(vs, |urls|)
      && (vs != [] ==> vs[0].round == r && vs[0].slot == 0)
    decreases w.budget - clock
  {
    if !(Stopped(w.stop, Checkpoint(r, 0)) || clock >= w.budget) {
      var vs := RoundVisits(urls, look, w.stop, r, 0);
      var rest := Rounds(urls, look, w, r + 1, clock + w.roundCost(r)).0;
      RoundsInOrder(urls, look, w, r + 1, clock + w.roundCost(r));
      RoundCompleteBeforeNext(urls, look, w, r, clock);
      RoundThenLater(vs, rest, |urls|, r);
      assert Rounds(urls, look, w, r, clock).0 == vs + rest;
    }
  }

  /** The total adds up the visits: it is at least the sum over any prefix,
      so it never decreases as the run goes on. */
  lemma {:induction false} TotalOfPrefix(vs: seq<Visit>, k: nat)
    requires k <= |vs|
    ensures SumClicks(vs[..k]) <= SumClicks(vs)
    decreases k
  {
    if k > 0 {
      assert vs[..k][1..] == vs[1..][..k - 1];
      TotalOfPrefix(vs[1..], k - 1);
    }
  }

  /** Every round takes at least one unit, so no more rounds start than the
      budget has units. */
  lemma RoundsWithinBudget(urls: seq<string>, filter: Executor.Filter, retries: int, warmup: bool, w: World)
    ensures RunSingleTab(urls, filter, retries, warmup, w).rounds <= w.budget
  {
    var n := RunSingleTab(urls, filter, retries, warmup, w).rounds;
    if n > 0 {
      ElapsedAtLeastRounds(w.roundCost, 1, n);
    }
  }
}
