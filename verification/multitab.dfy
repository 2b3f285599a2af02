/** Multi-tab mode of `App.worker`: one tab per target page, opened and
    waited on in list order, then rounds that visit every tab and click on
    ready ones, re-waiting tabs that were not ready and reloading ready tabs
    whose last check is stale.

    Time stamps are `time.time()` readings in milliseconds, given as
    observations; the rounds loop has its own clock and budget as in
    single-tab mode. */
module MultiTab {
  import opened Wrappers
  import opened Schedule
  import Waiter
  import Executor

  const TabMaxWait: int := 240
  const MaxClick: int := 999
  /** `stale_sec = 25`, in milliseconds. */
  const StaleMs: int := 25_000

  /** What the worker remembers about a tab: `tab_ready[h]` and
      `tab_last_check[h]`. */
  datatype Tab = Tab(ready: bool, lastCheck: int)

  /** Opening tab `idx`: the wait on its page and the stamp read after it. */
  datatype OpenObs = OpenObs(wait: nat -> Waiter.Tick, stamp: int)

  /** What one turn on a tab runs into. */
  datatype TurnObs = TurnObs(
    switchFault: bool,                        // `switch_to.window` raised
    now: int,                                 // `now_ts`, read after the switch
    currentUrl: string,                       // the tab's URL before a re-wait
    rewait: nat -> Waiter.Tick,               // the re-wait of a tab not ready
    imgs: seq<Executor.Button>,               // the buttons the page shows
    attempts: (nat, nat) -> Executor.AttemptObs,
    reloadUrl: string,                        // the tab's URL after `refresh()`
    reloadWait: nat -> Waiter.Tick,
    reloadStamp: int)                         // `time.time()` after the reload wait

  /** A turn's observations reduced to what the turn logic looks at. */
  datatype TurnReading = TurnReading(
    switched: bool,
    now: int,
    rewaitReady: bool,
    clicks: nat,
    reloadReady: bool,
    reloadStamp: int)

  datatype TurnKind =
    | Unswitched      // the switch failed: the tab is left alone
    | StillNotReady   // re-waited and still not ready: nothing clicked
    | Productive      // something was clicked
    | Reloaded        // nothing clicked and the last check was stale
    | Idle            // nothing clicked, last check recent enough

  datatype TurnResult = TurnResult(kind: TurnKind, tab: Tab, clicks: nat)

  /** One turn, as the run records it, with the tab as the turn left it. */
  datatype TurnLog = TurnLog(round: nat, slot: nat, kind: TurnKind, clicks: nat, tab: Tab)

  datatype MultiWorld = MultiWorld(
    stop: Option<Checkpoint>,
    opens: nat -> OpenObs,
    turns: (nat, nat) -> TurnObs,     // round, tab index
    roundCost: nat -> Waiter.Pos,
    budget: nat)

  /** The run: the tabs as the opening left them (`None` when a stop cut it
      short), the turns of each round, the tabs at the start of each round
      and after the last one, and the clicks in total. */
  datatype MultiRun = MultiRun(opening: Option<seq<Tab>>, turns: seq<seq<TurnLog>>, starts: seq<seq<Tab>>,
                               tabs: seq<Tab>, total: nat)

  function TabParams(url: string, retries: int): Waiter.WaitParams
  {
    Waiter.WaitParams(url, TabMaxWait, retries, true)
  }

  function IsReady(p: Waiter.WaitParams, env: nat -> Waiter.Tick): bool
  {
    Waiter.Wait(p, env).outcome == Waiter.Ready
  }

  /** The clicks of a turn come from the click routine called without
      `cf_fail_retries`, so with its default, whatever the form says. */
  function ReadTurn(filter: Executor.Filter, retries: int, o: TurnObs): TurnReading
  {
    TurnReading(
      !o.switchFault,
      o.now,
      IsReady(TabParams(o.currentUrl, retries), o.rewait),
      Executor.ClickAll(Executor.AsWritten, filter, MaxClick, Executor.DefaultRetries, o.imgs, o.attempts).count,
      IsReady(TabParams(o.reloadUrl, retries), o.reloadWait),
      o.reloadStamp)
  }

  /** The body of `for h in window_handles` for one tab. */
  function TabTurn(t: Tab, rd: TurnReading): TurnResult
  {
    if !rd.switched then TurnResult(Unswitched, t, 0)
    else
      var t1 := if !t.ready then Tab(rd.rewaitReady, rd.now) else t;
      if !t1.ready then TurnResult(StillNotReady, t1, 0)
      else if rd.clicks > 0 then TurnResult(Productive, Tab(t1.ready, rd.now), rd.clicks)
      else if rd.now - t1.lastCheck > StaleMs then TurnResult(Reloaded, Tab(rd.reloadReady, rd.reloadStamp), 0)
      else TurnResult(Idle, t1, 0)
  }

  /** What a turn does with its tab. */
  lemma TurnLogic(t: Tab, rd: TurnReading)
    ensures TabTurn(t, rd).kind == Unswitched <==> !rd.switched
    ensures TabTurn(t, rd).kind == Unswitched ==> TabTurn(t, rd).tab == t
    // a tab that was not ready is waited on first; failing that, nothing is clicked
    ensures TabTurn(t, rd).kind == StillNotReady <==> rd.switched && !t.ready && !rd.rewaitReady
    // clicks are made only on a page that is ready by the time of the turn
    ensures TabTurn(t, rd).clicks > 0 <==> TabTurn(t, rd).kind == Productive
    ensures TabTurn(t, rd).kind == Productive ==> (t.ready || rd.rewaitReady) && TabTurn(t, rd).clicks == rd.clicks
    ensures TabTurn(t, rd).kind == Productive ==> TabTurn(t, rd).tab == Tab(true, rd.now)
    ensures TabTurn(t, rd).kind == Reloaded ==> TabTurn(t, rd).tab == Tab(rd.reloadReady, rd.reloadStamp)
  {
  }

  /** A reload happens exactly when a tab that was already ready yields
      nothing and was last checked more than 25 seconds before the turn. A
      tab that had to be re-waited is never reloaded in the same turn. */
  lemma ReloadOnlyWhenStale(t: Tab, rd: TurnReading)
    ensures TabTurn(t, rd).kind == Reloaded <==>
              rd.switched && t.ready && rd.clicks == 0 && rd.now - t.lastCheck > StaleMs
    ensures !t.ready ==> TabTurn(t, rd).kind != Reloaded
  {
  }

  /** After any turn that touched the tab, its last check is the turn's own
      stamp, or the stamp after the reload. */
  lemma LastCheckAfterTurn(t: Tab, rd: TurnReading)
    ensures var res := TabTurn(t, rd);
      && (res.kind == Reloaded ==> res.tab.lastCheck == rd.reloadStamp)
      && (res.kind == Productive || (res.kind == StillNotReady) || (res.kind == Idle && !t.ready) ==>
            res.tab.lastCheck == rd.now)
      && (res.kind == Idle && t.ready ==> res.tab == t)
  {
  }

  /** Tab `idx` as its opening leaves it: ready when the wait on its page
      succeeded, last checked at the stamp read after that wait. */
  function OpenedTab(urls: seq<string>, retries: int, w: MultiWorld, idx: nat): Tab
    requires idx < |urls|
  {
    Tab(IsReady(TabParams(urls[idx], retries), w.opens(idx).wait), w.opens(idx).stamp)
  }

  function Openings(urls: seq<string>, retries: int, w: MultiWorld): nat -> Tab
  {
    (idx: nat) => if idx < |urls| then OpenedTab(urls, retries, w, idx) else Tab(false, 0)
  }

  /** Opening the tabs from index `idx` on. The worker returns as soon as it
      sees the stop flag here, so a stop gives `None`. */
  function OpenTabs(n: nat, tabAt: nat -> Tab, stop: Option<Checkpoint>, idx: nat): (r: Option<seq<Tab>>)
    requires idx <= n
    ensures r.Some? ==> |r.value| == n - idx
    ensures r.Some? ==> forall k :: 0 <= k < |r.value| ==> r.value[k] == tabAt(idx + k)
    decreases n - idx
  {
    if idx == n then Some([])
    else if Stopped(stop, Checkpoint(0, idx + 1)) then None
    else
      match OpenTabs(n, tabAt, stop, idx + 1)
      case None => None
      case Some(rest) =>
        var tabs := [tabAt(idx)] + rest;
        assert forall k :: 0 < k < |tabs| ==> tabs[k] == rest[k - 1];
        Some(tabs)
  }

  /** The opening phase is cut short exactly when the stop flag is seen
      before one of the tabs, that is, when it is set by the check before
      the last one. */
  lemma {:induction false} OpenStopsOnlyOnStop(n: nat, tabAt: nat -> Tab, stop: Option<Checkpoint>, idx: nat)
    requires idx <= n
    ensures OpenTabs(n, tabAt, stop, idx).None? <==> idx < n && Stopped(stop, Checkpoint(0, n))
    decreases n - idx
  {
    if idx < n {
      OpenStopsOnlyOnStop(n, tabAt, stop, idx + 1);
      if Stopped(stop, Checkpoint(0, idx + 1)) {
        StopStays(stop, Checkpoint(0, idx + 1), Checkpoint(0, n));
      }
    }
  }

  /** The turns of round `r` from tab `h` on: the tabs after them and the
      turns taken. */
  function RoundTurns(tabs: seq<Tab>, readings: (nat, nat) -> TurnReading, stop: Option<Checkpoint>, r: nat, h: nat): (res: (seq<Tab>, seq<TurnLog>))
    requires h <= |tabs|
    ensures |res.0| == |tabs|
    ensures |res.1| <= |tabs| - h
    // tabs before `h` and tabs the round did not reach are left as they were
    ensures forall k :: 0 <= k < |tabs| && !(h <= k < h + |res.1|) ==> res.0[k] == tabs[k]
    // each turn is the turn logic on the tab as the round found it
    ensures forall n :: 0 <= n < |res.1| ==>
              && res.1[n].round == r && res.1[n].slot == h + n
              && var tr := TabTurn(tabs[h + n], readings(r, h + n));
                 res.1[n].kind == tr.kind && res.1[n].clicks == tr.clicks && res.1[n].tab == tr.tab && res.0[h + n] == tr.tab
    // every turn passed its stop check; the round ends early only on a stop
    ensures forall n :: 0 <= n < |res.1| ==> !Stopped(stop, Checkpoint(r, res.1[n].slot + 1))
    ensures h + |res.1| < |tabs| ==> Stopped(stop, Checkpoint(r, h + |res.1| + 1))
    decreases |tabs| - h
  {
    if h == |tabs| || Stopped(stop, Checkpoint(r, h + 1)) then (tabs, [])
    else
      var tr := TabTurn(tabs[h], readings(r, h));
      var rest := RoundTurns(tabs[h := tr.tab], readings, stop, r, h + 1);
      var log := [TurnLog(r, h, tr.kind, tr.clicks, tr.tab)] + rest.1;
      assert forall n :: 0 < n < |log| ==> log[n] == rest.1[n - 1];
      (rest.0, log)
  }

  /** The entry `e` is the turn logic on its tab as it stood before the
      turn, in `before`, and leaves the tab as it stands after, in `after`. */
  predicate Replays(e: TurnLog, before: seq<Tab>, after: seq<Tab>, rd: TurnReading)
  {
    && e.slot < |before| && e.slot < |after|
    && var tr := TabTurn(before[e.slot], rd);
       e.kind == tr.kind && e.clicks == tr.clicks && e.tab == tr.tab && after[e.slot] == tr.tab
  }

  /** What round `r` does, as a relation between the tabs before it,
      `before`, the tabs after it, `after`, and its turns: turn `n` is on tab
      `n`, passed its stop check and replays against the two; a tab the
      round did not reach is left as it was, and the round stops short of
      the last tab only on a stop. */
  predicate RoundStep(before: seq<Tab>, after: seq<Tab>, turns: seq<TurnLog>,
                      readings: (nat, nat) -> TurnReading, stop: Option<Checkpoint>, r: nat)
  {
    && |after| == |before| && |turns| <= |before|
    && (forall n :: 0 <= n < |turns| ==>
          && turns[n].round == r && turns[n].slot == n
          && Replays(turns[n], before, after, readings(r, n))
          && !Stopped(stop, Checkpoint(r, n + 1)))
    && (forall h :: |turns| <= h < |before| ==> after[h] == before[h])
    && (|turns| < |before| ==> Stopped(stop, Checkpoint(r, |turns| + 1)))
  }

  /** A whole round is one step of that relation. */
  lemma RoundTurnsStep(tabs: seq<Tab>, readings: (nat, nat) -> TurnReading, stop: Option<Checkpoint>, r: nat)
    ensures var one := RoundTurns(tabs, readings, stop, r, 0);
      RoundStep(tabs, one.0, one.1, readings, stop, r)
  {
  }

  /** Round `r + q` takes the tabs from `starts[q]` to `starts[q + 1]` with
      the turns `turns[q]`, for every round in `turns`. */
  predicate Steps(starts: seq<seq<Tab>>, turns: seq<seq<TurnLog>>, readings: (nat, nat) -> TurnReading,
                  stop: Option<Checkpoint>, r: nat)
  {
    && |starts| == |turns| + 1
    && forall q :: 0 <= q < |turns| ==> RoundStep(starts[q], starts[q + 1], turns[q], readings, stop, r + q)
  }

  /** One round's step followed by the later rounds' steps. */
  lemma StepsJoin(tabs: seq<Tab>, after: seq<Tab>, turns: seq<TurnLog>, later: seq<seq<TurnLog>>, starts: seq<seq<Tab>>,
                  readings: (nat, nat) -> TurnReading, stop: Option<Checkpoint>, r: nat)
    requires RoundStep(tabs, after, turns, readings, stop, r)
    requires Steps(starts, later, readings, stop, r + 1) && starts[0] == after
    ensures Steps([tabs] + starts, [turns] + later, readings, stop, r)
  {
    var st, ts := [tabs] + starts, [turns] + later;
    forall q | 0 < q < |ts|
      ensures RoundStep(st[q], st[q + 1], ts[q], readings, stop, r + q)
    {
      assert st[q] == starts[q - 1] && st[q + 1] == starts[q] && ts[q] == later[q - 1];
      assert RoundStep(starts[q - 1], starts[q], later[q - 1], readings, stop, r + 1 + (q - 1));
    }
  }

  /** How many rounds the polling loop starts from round `r` at loop clock
      `clock`: it goes on while no stop is seen and the clock is below the
      budget. */
  function RoundCount(w: MultiWorld, r: nat, clock: nat): nat
    decreases w.budget - clock
  {
    if Stopped(w.stop, Checkpoint(r, 0)) || clock >= w.budget then 0
    else 1 + RoundCount(w, r + 1, clock + w.roundCost(r))
  }

  /** Every round started passed the loop's check with the loop clock below
      the budget, and the loop ended on a stop or a spent budget. */
  lemma {:induction false} RoundCountBounds(w: MultiWorld, r: nat, clock: nat)
    requires r >= 1
    ensures forall q :: r <= q < r + RoundCount(w, r, clock) ==> !Stopped(w.stop, Checkpoint(q, 0))
    ensures StartsInBudget(w.roundCost, w.budget, r, clock, r - 1 + RoundCount(w, r, clock))
    ensures EndsAfter(w.stop, w.roundCost, w.budget, r, clock, r - 1 + RoundCount(w, r, clock))
    decreases w.budget - clock
  {
    if !(Stopped(w.stop, Checkpoint(r, 0)) || clock >= w.budget) {
      var clock' := clock + w.roundCost(r);
      RoundCountBounds(w, r + 1, clock');
      ElapsedStep(w.roundCost, w.budget, w.stop, r, clock, r + RoundCount(w, r + 1, clock'));
    }
  }

  /** The polling loop's result: the tabs at the end, the turns of each
      round started, and the tabs at the start of each of those rounds
      followed by the tabs at the end. */
  datatype Polling = Polling(tabs: seq<Tab>, turns: seq<seq<TurnLog>>, starts: seq<seq<Tab>>)

  /** The polling loop from round `r` on, at loop clock `clock`. */
  function Rounds(tabs: seq<Tab>, readings: (nat, nat) -> TurnReading, w: MultiWorld, r: nat, clock: nat): (p: Polling)
    requires r >= 1
    ensures |p.tabs| == |tabs| && |p.turns| == RoundCount(w, r, clock)
    ensures p.starts != [] && p.starts[0] == tabs && p.starts[|p.starts| - 1] == p.tabs
    ensures forall q :: 0 <= q < |p.starts| ==> |p.starts[q]| == |tabs|
    // round `r + q` took the tabs from `starts[q]` to `starts[q + 1]`
    ensures Steps(p.starts, p.turns, readings, w.stop, r)
    decreases w.budget - clock
  {
    if Stopped(w.stop, Checkpoint(r, 0)) || clock >= w.budget then Polling(tabs, [], [tabs])
    else
      var one := RoundTurns(tabs, readings, w.stop, r, 0);
      RoundTurnsStep(tabs, readings, w.stop, r);
      var rest := Rounds(one.0, readings, w, r + 1, clock + w.roundCost(r));
      StepsJoin(tabs, one.0, one.1, rest.turns, rest.starts, readings, w.stop, r);
      var starts := [tabs] + rest.starts;
      assert forall q :: 0 < q < |starts| ==> starts[q] == rest.starts[q - 1];
      Polling(rest.tabs, [one.1] + rest.turns, starts)
  }

  function SumClicks(log: seq<TurnLog>): nat
  {
    if log == [] then 0 else log[0].clicks + SumClicks(log[1..])
  }

  function TotalClicks(turns: seq<seq<TurnLog>>): nat
  {
    if turns == [] then 0 else SumClicks(turns[0]) + TotalClicks(turns[1..])
  }

  /** What each turn finds, by round and tab. */
  function Readings(filter: Executor.Filter, retries: int, w: MultiWorld): (nat, nat) -> TurnReading
  {
    (r: nat, h: nat) => ReadTurn(filter, retries, w.turns(r, h))
  }

  /** Multi-tab mode from the first tab to the end of the last round. */
  function RunMultiTab(urls: seq<string>, filter: Executor.Filter, retries: int, w: MultiWorld): (run: MultiRun)
    // a stop seen while opening ends the worker before any round
    ensures run.opening.None? <==> |urls| > 0 && Stopped(w.stop, Checkpoint(0, |urls|))
    ensures run.opening.None? ==> run.turns == [] && run.starts == [] && run.total == 0
    ensures run.opening.Some? ==> |run.opening.value| == |urls| && |run.tabs| == |urls|
    // each tab starts from the wait on its own page
    ensures run.opening.Some? ==> forall k :: 0 <= k < |urls| ==> run.opening.value[k] == OpenedTab(urls, retries, w, k)
    // one set of tab states per round started, and one after the last round
    ensures run.opening.Some? ==>
              && |run.starts| == |run.turns| + 1
              && run.starts[0] == run.opening.value && run.starts[|run.turns|] == run.tabs
              && forall q :: 0 <= q < |run.starts| ==> |run.starts[q]| == |urls|
    ensures run.total == TotalClicks(run.turns)
  {
    OpenStopsOnlyOnStop(|urls|, Openings(urls, retries, w), w.stop, 0);
    match OpenTabs(|urls|, Openings(urls, retries, w), w.stop, 0)
    case None => MultiRun(None, [], [], [], 0)
    case Some(tabs) =>
      var p := Rounds(tabs, Readings(filter, retries, w), w, 1, 0);
      MultiRun(Some(tabs), p.turns, p.starts, p.tabs, TotalClicks(p.turns))
  }

  /** Round `q` starts only while no stop is seen and the time the rounds
      before it took is below the budget, and the loop ends on either. */
  lemma RunWithinBudget(urls: seq<string>, filter: Executor.Filter, retries: int, w: MultiWorld)
    ensures var run := RunMultiTab(urls, filter, retries, w);
      && (forall q :: 1 <= q <= |run.turns| ==> !Stopped(w.stop, Checkpoint(q, 0)))
      && StartsInBudget(w.roundCost, w.budget, 1, 0, |run.turns|)
      && (run.opening.Some? ==> EndsAfter(w.stop, w.roundCost, w.budget, 1, 0, |run.turns|))
  {
    match OpenTabs(|urls|, Openings(urls, retries, w), w.stop, 0)
    case None =>
    case Some(tabs) =>
      RoundCountBounds(w, 1, 0);
  }

  /** Round `q + 1` of the run takes the tabs from its starting states to
      the next round's, turn by turn, with what each turn ran into. */
  lemma RunRoundStep(urls: seq<string>, filter: Executor.Filter, retries: int, w: MultiWorld, q: nat)
    requires q < |RunMultiTab(urls, filter, retries, w).turns|
    ensures var run := RunMultiTab(urls, filter, retries, w);
      RoundStep(run.starts[q], run.starts[q + 1], run.turns[q], Readings(filter, retries, w), w.stop, q + 1)
  {
  }

  /** Each turn of the run is on the tab of its slot, passed its stop check,
      and is the turn logic on that tab as its round found it, with what the
      turn ran into; it leaves the tab as the next round finds it. */
  lemma TurnsReplay(urls: seq<string>, filter: Executor.Filter, retries: int, w: MultiWorld, q: nat, n: nat)
    requires q < |RunMultiTab(urls, filter, retries, w).turns|
    requires n < |RunMultiTab(urls, filter, retries, w).turns[q]|
    ensures var run := RunMultiTab(urls, filter, retries, w);
      var e := run.turns[q][n];
      && e.round == q + 1 && e.slot == n && n < |urls|
      && !Stopped(w.stop, Checkpoint(q + 1, n + 1))
      && Replays(e, run.starts[q], run.starts[q + 1], ReadTurn(filter, retries, w.turns(q + 1, n)))
  {
    RunRoundStep(urls, filter, retries, w, q);
  }

  /** A round visits the tabs in order and stops short of the last one only
      on a stop; a tab changes between the start of one round and the next
      only through that round's turn on it. */
  lemma TabsChangeOnlyByTurns(urls: seq<string>, filter: Executor.Filter, retries: int, w: MultiWorld, q: nat, h: nat)
    requires q < |RunMultiTab(urls, filter, retries, w).turns|
    ensures var run := RunMultiTab(urls, filter, retries, w);
      && (|run.turns[q]| < |urls| ==> Stopped(w.stop, Checkpoint(q + 1, |run.turns[q]| + 1)))
      && (h < |urls| && run.starts[q + 1][h] != run.starts[q][h] ==> h < |run.turns[q]|)
  {
    RunRoundStep(urls, filter, retries, w, q);
  }

  /** The facts a replayed turn gives about the tab it found: a reload
      happened only on a tab that was ready, yielded no click and was last
      checked more than 25 seconds before the turn, and left the stamp read
      after the reload. */
  lemma ReplayedTurn(e: TurnLog, before: seq<Tab>, after: seq<Tab>, rd: TurnReading)
    requires Replays(e, before, after, rd)
    ensures e.kind == Reloaded <==> rd.switched && before[e.slot].ready && e.clicks == 0 && rd.now - before[e.slot].lastCheck > StaleMs
    ensures e.kind == Reloaded ==> e.tab.lastCheck == rd.reloadStamp
    ensures e.kind == Productive ==> e.clicks == rd.clicks
  {
    ReloadOnlyWhenStale(before[e.slot], rd);
    LastCheckAfterTurn(before[e.slot], rd);
    TurnLogic(before[e.slot], rd);
  }

  /** Reading a logged turn back: a reload happened only on a tab that was
      ready at the start of its round, yielded no click and was last
      checked more than 25 seconds before the turn; the clicks of a
      productive turn are those of the click routine with its default retry
      budget, whatever budget the form set. */
  lemma LoggedTurnFacts(urls: seq<string>, filter: Executor.Filter, retries: int, w: MultiWorld, q: nat, n: nat)
    requires q < |RunMultiTab(urls, filter, retries, w).turns|
    requires n < |RunMultiTab(urls, filter, retries, w).turns[q]|
    ensures var run := RunMultiTab(urls, filter, retries, w);
      var e := run.turns[q][n];
      var o := w.turns(q + 1, n);
      n < |run.starts[q]| &&
      var before := run.starts[q][n];
      && (e.kind == Reloaded <==>
            !o.switchFault && before.ready && e.clicks == 0 && o.now - before.lastCheck > StaleMs)
      && (e.kind == Reloaded ==> e.tab.lastCheck == o.reloadStamp)
      && (e.kind == Productive ==>
            e.clicks == Executor.ClickAll(Executor.AsWritten, filter, MaxClick, Executor.DefaultRetries, o.imgs, o.attempts).count)
  {
    var run := RunMultiTab(urls, filter, retries, w);
    TurnsReplay(urls, filter, retries, w, q, n);
    ReplayedTurn(run.turns[q][n], run.starts[q], run.starts[q + 1], ReadTurn(filter, retries, w.turns(q + 1, n)));
  }
}
