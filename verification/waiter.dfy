/** The Cloudflare wait loop of `browser_cf.wait_until_ready_with_cf`, with
    its fail-recovery choice from `warmup_home_then_back`.

    Time is an abstract clock. The page the loop sees on its `n`-th pass is
    `env(n)`: the classifier's observations, whether an actionable table
    button is present, and how many clock units the pass takes (at least
    one). A recovery's own duration never matters, because the clock
    restarts right after it. */
module Waiter {
  import opened Classifier

  /** The neutral page a bounce goes through (`HOME_URL`). */
  const HomeUrl: string := "https://resortbooking.metro.taipei/MT02.aspx?module=net_booking&files=booking_place&PT=1"

  type Pos = n: nat | 1 <= n witness 1

  /** One pass of the loop as the page presents it. */
  datatype Tick = Tick(signals: PageSignals, tableButton: bool, cost: Pos)

  /** The call's arguments: `target_url` (empty for `None`), `max_wait`,
      `max_fail_retries` and `bounce_on_fail`. */
  datatype WaitParams = WaitParams(target: string, maxWait: int, maxFailRetries: int, bounceOnFail: bool)

  datatype RecoveryKind = Bounce | Refresh

  /** One recovery: how it was done and the back-off slept before it. */
  datatype Recovery = Recovery(kind: RecoveryKind, backoff: nat)

  /** Browser navigation performed by a recovery. */
  datatype Nav = Goto(url: string) | Idle | Reload

  datatype Outcome = Ready | Blocked | TimedOut

  /** Loop variables: `fail_retries`, the time since `t0`, and what the loop
      has seen and done so far. */
  datatype WaitState = WaitState(failRetries: nat, elapsed: nat, seen: seq<CfState>, recoveries: seq<Recovery>)

  /** What one call did: its verdict (`True` exactly for `Ready`), the states
      it observed in order, and the recoveries it performed in order. */
  datatype WaitRun = WaitRun(outcome: Outcome, seen: seq<CfState>, recoveries: seq<Recovery>)

  datatype StepResult = Continue(next: WaitState) | Stop(run: WaitRun)

  /** The back-off before the `k`-th recovery: `min(2k, 8)` seconds. */
  function Backoff(k: nat): nat
  {
    if 2 * k < 8 then 2 * k else 8
  }

  /** Every recovery waits at least 2 and at most 8 units, and a later
      recovery never waits less than an earlier one. */
  lemma BackoffShape(k: nat, k': nat)
    requires 1 <= k <= k'
    ensures 2 <= Backoff(k) <= 8
    ensures Backoff(k) <= Backoff(k')
    ensures Backoff(k) == 8 <==> k >= 4
  {
  }

  /** A bounce needs both `bounce_on_fail` and a non-empty target. */
  function ChooseRecovery(bounceOnFail: bool, target: string): (k: RecoveryKind)
    ensures k == Bounce <==> bounceOnFail && target != ""
  {
    if bounceOnFail && target != "" then Bounce else Refresh
  }

  /** Which browser calls of a recovery raise: `get(HOME_URL)` and
      `get(target_url)` of a bounce, or `refresh()`. The idle step between
      the two visits swallows its own errors. */
  datatype NavFaults = NavFaults(home: bool, back: bool, refresh: bool)

  const NoFaults := NavFaults(false, false, false)

  /** The navigation calls a recovery makes, in order, and whether the last
      of them raised. */
  datatype NavRun = NavRun(navs: seq<Nav>, raised: bool)

  /** The navigation a recovery makes. A bounce runs its three steps under
      one `try`, so a failed visit to the home page skips the idle step and
      the return to the target; every error is swallowed. */
  function RecoveryNavigation(kind: RecoveryKind, target: string, f: NavFaults): (run: NavRun)
    // every recovery makes at least one call, and the first one names its kind
    ensures run.navs != [] && (run.navs[0] == Goto(HomeUrl) <==> kind == Bounce)
    // a bounce never reloads, and returns to the target only after reaching home
    ensures kind == Bounce ==> forall k :: 0 <= k < |run.navs| ==> run.navs[k] != Reload
    ensures kind == Bounce ==> (Goto(target) in run.navs[1..] <==> !f.home)
    ensures kind == Refresh ==> run.navs == [Reload]
    // the error of a call ends the recovery
    ensures run.raised <==> (kind == Bounce && (f.home || f.back)) || (kind == Refresh && f.refresh)
  {
    match kind
    case Bounce =>
      if f.home then NavRun([Goto(HomeUrl)], true)
      else NavRun([Goto(HomeUrl), Idle, Goto(target)], f.back)
    case Refresh => NavRun([Reload], f.refresh)
  }

  /** The page the browser shows after the calls `navs`, each of them
      completing. */
  function PageAfter(page: string, navs: seq<Nav>): string
    decreases |navs|
  {
    if navs == [] then page
    else PageAfter(if navs[0].Goto? then navs[0].url else page, navs[1..])
  }

  /** The page after a recovery: a call that raised leaves the page as it
      was before it. */
  function Landing(page: string, run: NavRun): string
  {
    if run.raised && run.navs != [] then PageAfter(page, run.navs[..|run.navs| - 1]) else PageAfter(page, run.navs)
  }

  /** Where a recovery leaves the browser: a bounce without errors ends on
      the target; a failed visit to the home page stays where it was; a
      failed return stays on the home page; a refresh stays on its page. */
  lemma RecoveryLanding(page: string, kind: RecoveryKind, target: string, f: NavFaults)
    ensures var at := Landing(page, RecoveryNavigation(kind, target, f));
      && (kind == Bounce && !f.home && !f.back ==> at == target)
      && (kind == Bounce && f.home ==> at == page)
      && (kind == Bounce && !f.home && f.back ==> at == HomeUrl)
      && (kind == Refresh ==> at == page)
  {
    var run := RecoveryNavigation(kind, target, f);
    if kind == Bounce && !f.home {
      var tail := [Idle, Goto(target)];
      assert run.navs == [Goto(HomeUrl)] + tail;
      assert PageAfter(HomeUrl, [Goto(target)]) == target;
      assert PageAfter(HomeUrl, tail) == PageAfter(HomeUrl, tail[1..]);
      assert PageAfter(page, run.navs) == PageAfter(HomeUrl, tail);
      if f.back {
        assert run.navs[..|run.navs| - 1] == [Goto(HomeUrl), Idle];
        assert PageAfter(HomeUrl, [Idle]) == HomeUrl;
      }
    } else if kind == Refresh {
      assert run.navs == [Reload] && run.navs[..|run.navs| - 1] == [];
      assert PageAfter(page, [Reload]) == PageAfter(page, []);
    }
  }

  /** The recovery the `k`-th fail triggers. */
  function NthRecovery(p: WaitParams, k: nat): Recovery
  {
    Recovery(ChooseRecovery(p.bounceOnFail, p.target), Backoff(k))
  }

  /** The observation at pass `i` lets the loop return `True`: no gate, no
      fail, and an actionable button. */
  predicate ReadyAt(env: nat -> Tick, seen: seq<CfState>, i: nat)
    requires i < |seen|
  {
    (seen[i] == Success || seen[i] == NoSignal) && env(i).tableButton
  }

  function CountFail(seen: seq<CfState>): nat
  {
    if seen == [] then 0
    else CountFail(seen[..|seen| - 1]) + (if seen[|seen| - 1] == Fail then 1 else 0)
  }

  /** Reference clock: the time spent since the most recent recovery (the
      most recent `Fail`), or since the start if there was none. */
  function Clock(env: nat -> Tick, seen: seq<CfState>): nat
  {
    if seen == [] then 0
    else if seen[|seen| - 1] == Fail then 0
    else Clock(env, seen[..|seen| - 1]) + env(|seen| - 1).cost
  }

  /** One pass of the loop body, given the time check already passed. */
  function Step(p: WaitParams, t: Tick, st: WaitState): (r: StepResult)
    ensures var st' := Classify(t.signals);
      && (r.Continue? ==> r.next.seen == st.seen + [st'])
      && (r.Stop? ==> r.run.seen == st.seen + [st'] && r.run.recoveries == st.recoveries)
      // Gate: wait it out without touching the fail budget or the clock origin.
      && (st' == Gate ==> r.Continue? && r.next.failRetries == st.failRetries
                          && r.next.recoveries == st.recoveries && r.next.elapsed == st.elapsed + t.cost)
      // Success and none both fall through to the button check.
      && (r.Stop? && r.run.outcome == Ready <==> (st' == Success || st' == NoSignal) && t.tableButton)
      && (r.Stop? && r.run.outcome == Blocked <==> st' == Fail && st.failRetries as int >= p.maxFailRetries)
      && (r.Stop? ==> r.run.outcome != TimedOut)
      // A recovery happens exactly on a fail within budget, and only then does the clock restart.
      && (r.Continue? && |r.next.recoveries| != |st.recoveries| <==> st' == Fail && (st.failRetries as int) < p.maxFailRetries)
      && (r.Continue? ==> (r.next.elapsed == 0 <==> |r.next.recoveries| != |st.recoveries|))
      && (r.Continue? && |r.next.recoveries| != |st.recoveries| ==>
            r.next.failRetries == st.failRetries + 1
            && r.next.recoveries == st.recoveries + [NthRecovery(p, st.failRetries + 1)])
      && (r.Continue? && |r.next.recoveries| == |st.recoveries| ==>
            r.next.failRetries == st.failRetries && r.next.recoveries == st.recoveries
            && r.next.elapsed == st.elapsed + t.cost)
  {
    var state := Classify(t.signals);
    var seen := st.seen + [state];
    match state
    case Gate =>
      Continue(st.(seen := seen, elapsed := st.elapsed + t.cost))
    case Fail =>
      if (st.failRetries as int) < p.maxFailRetries then
        var k := st.failRetries + 1;
        Continue(WaitState(k, 0, seen, st.recoveries + [NthRecovery(p, k)]))
      else
        Stop(WaitRun(Blocked, seen, st.recoveries))
    case _ =>
      if t.tableButton then Stop(WaitRun(Ready, seen, st.recoveries))
      else Continue(st.(seen := seen, elapsed := st.elapsed + t.cost))
  }

  /** What holds of the observations consumed so far: they were read in
      order, each pass began inside the time budget, and none let the loop
      return. */
  predicate History(p: WaitParams, env: nat -> Tick, seen: seq<CfState>)
  {
    && (forall i :: 0 <= i < |seen| ==> seen[i] == Classify(env(i).signals))
    && (forall i :: 0 <= i < |seen| ==> Clock(env, seen[..i]) < p.maxWait)
    && (forall i :: 0 <= i < |seen| ==> !ReadyAt(env, seen, i))
  }

  /** What holds of the loop variables at the top of every pass. */
  predicate LoopInvariant(p: WaitParams, env: nat -> Tick, st: WaitState)
  {
    && |st.recoveries| == st.failRetries
    && (st.failRetries == 0 || st.failRetries as int <= p.maxFailRetries)
    && CountFail(st.seen) == st.failRetries
    && (forall k :: 0 <= k < |st.recoveries| ==> st.recoveries[k] == NthRecovery(p, k + 1))
    && st.elapsed == Clock(env, st.seen)
    && History(p, env, st.seen)
  }

  /** What a finished call promises about its run. */
  predicate RunFacts(p: WaitParams, env: nat -> Tick, r: WaitRun)
  {
    // it consumed the page's observations in order
    && (forall i :: 0 <= i < |r.seen| ==> r.seen[i] == Classify(env(i).signals))
    // the k-th recovery (from 1) backs off min(2k, 8), and bounces or refreshes by the call's arguments
    && (forall k :: 0 <= k < |r.recoveries| ==> r.recoveries[k] == NthRecovery(p, k + 1))
    // the budget bounds the recoveries
    && (|r.recoveries| == 0 || |r.recoveries| <= p.maxFailRetries)
    // one recovery per fail observed, except the fail that found the budget spent
    && (r.outcome != Blocked ==> |r.recoveries| == CountFail(r.seen))
    && (r.outcome == Blocked ==>
          |r.seen| > 0 && r.seen[|r.seen| - 1] == Fail
          && |r.recoveries| + 1 == CountFail(r.seen)
          && |r.recoveries| as int >= p.maxFailRetries)
    // True only on an actionable observation, and at the first one
    && (r.outcome == Ready ==> |r.seen| > 0 && ReadyAt(env, r.seen, |r.seen| - 1))
    && (forall i :: 0 <= i < |r.seen| - 1 ==> !ReadyAt(env, r.seen, i))
    // every pass began inside the time budget of its window
    && (forall i :: 0 <= i < |r.seen| ==> Clock(env, r.seen[..i]) < p.maxWait)
    // a time-out means the current window is used up, and nothing was ready
    && (r.outcome == TimedOut ==>
          Clock(env, r.seen) >= p.maxWait && forall i :: 0 <= i < |r.seen| ==> !ReadyAt(env, r.seen, i))
  }

  /** How the reference functions extend by one observation. */
  lemma {:induction false} SnocFacts(env: nat -> Tick, seen: seq<CfState>, x: CfState)
    ensures var seen' := seen + [x];
      && seen'[..|seen|] == seen
      && (forall i :: 0 <= i <= |seen| ==> seen'[..i] == seen[..i])
      && (forall i :: 0 <= i < |seen| ==> ReadyAt(env, seen', i) == ReadyAt(env, seen, i))
      && CountFail(seen') == CountFail(seen) + (if x == Fail then 1 else 0)
      && Clock(env, seen') == (if x == Fail then 0 else Clock(env, seen) + env(|seen|).cost)
  {
    var seen' := seen + [x];
    assert seen'[..|seen|] == seen;
  }

  /** The observations so far, extended by one, are still consumed in order
      and each began inside the time budget. */
  lemma {:induction false} ExtendSeen(p: WaitParams, env: nat -> Tick, seen: seq<CfState>)
    requires History(p, env, seen)
    requires Clock(env, seen) < p.maxWait
    ensures var seen' := seen + [Classify(env(|seen|).signals)];
      && (forall i :: 0 <= i < |seen'| ==> seen'[i] == Classify(env(i).signals))
      && (forall i :: 0 <= i < |seen'| ==> Clock(env, seen'[..i]) < p.maxWait)
      && (forall i :: 0 <= i < |seen| ==> !ReadyAt(env, seen', i))
  {
    var seen' := seen + [Classify(env(|seen|).signals)];
    forall i | 0 <= i < |seen'|
      ensures seen'[i] == Classify(env(i).signals)
    {
      if i < |seen| {
        assert seen'[i] == seen[i];
      }
    }
    forall i | 0 <= i < |seen'|
      ensures Clock(env, seen'[..i]) < p.maxWait
    {
      if i == |seen| {
        assert seen'[..i] == seen;
      } else {
        assert seen'[..i] == seen[..i];
      }
    }
    forall i | 0 <= i < |seen|
      ensures !ReadyAt(env, seen', i)
    {
      assert !ReadyAt(env, seen, i);
      assert seen'[i] == seen[i];
    }
  }

  /** A pass that does not end the call keeps the loop invariant. */
  lemma ContinueKeepsInvariant(p: WaitParams, env: nat -> Tick, st: WaitState)
    requires LoopInvariant(p, env, st)
    requires (st.elapsed as int) < p.maxWait
    requires Step(p, env(|st.seen|), st).Continue?
    ensures LoopInvariant(p, env, Step(p, env(|st.seen|), st).next)
  {
    ContinueKeepsHistory(p, env, st);
    ContinueKeepsBooks(p, env, st);
  }

  /** The observation a continuing pass adds did not let the loop return. */
  lemma ContinueKeepsHistory(p: WaitParams, env: nat -> Tick, st: WaitState)
    requires LoopInvariant(p, env, st)
    requires (st.elapsed as int) < p.maxWait
    requires Step(p, env(|st.seen|), st).Continue?
    ensures History(p, env, Step(p, env(|st.seen|), st).next.seen)
  {
    var t := env(|st.seen|);
    var st' := Step(p, t, st).next;
    assert st'.seen == st.seen + [Classify(t.signals)];
    ExtendSeen(p, env, st.seen);
    assert !ReadyAt(env, st'.seen, |st.seen|);
  }

  /** A continuing pass keeps the fail count, the recoveries and the clock
      in step with the observations. */
  lemma {:induction false} ContinueKeepsBooks(p: WaitParams, env: nat -> Tick, st: WaitState)
    requires LoopInvariant(p, env, st)
    requires Step(p, env(|st.seen|), st).Continue?
    ensures var st' := Step(p, env(|st.seen|), st).next;
      && |st'.recoveries| == st'.failRetries
      && (st'.failRetries == 0 || st'.failRetries as int <= p.maxFailRetries)
      && CountFail(st'.seen) == st'.failRetries
      && (forall k :: 0 <= k < |st'.recoveries| ==> st'.recoveries[k] == NthRecovery(p, k + 1))
      && st'.elapsed == Clock(env, st'.seen)
  {
    var t := env(|st.seen|);
    var x := Classify(t.signals);
    var st' := Step(p, t, st).next;
    SnocFacts(env, st.seen, x);
    assert st'.seen == st.seen + [x];
    if |st'.recoveries| != |st.recoveries| {
      assert x == Fail;
    } else {
      assert x != Fail;
    }
  }

  /** A pass that ends the call leaves a run that keeps the call's promises. */
  lemma {:induction false} StopKeepsPromises(p: WaitParams, env: nat -> Tick, st: WaitState)
    requires LoopInvariant(p, env, st)
    requires (st.elapsed as int) < p.maxWait
    requires Step(p, env(|st.seen|), st).Stop?
    ensures RunFacts(p, env, Step(p, env(|st.seen|), st).run)
  {
    var t := env(|st.seen|);
    var x := Classify(t.signals);
    var run := Step(p, t, st).run;
    SnocFacts(env, st.seen, x);
    ExtendSeen(p, env, st.seen);
    assert run.seen == st.seen + [x];
    assert CountFail(run.seen) == st.failRetries + (if x == Fail then 1 else 0);
  }

  /** The `while` loop, from the given loop variables. */
  function Poll(p: WaitParams, env: nat -> Tick, st: WaitState): (r: WaitRun)
    requires LoopInvariant(p, env, st)
    ensures RunFacts(p, env, r)
    decreases p.maxFailRetries - st.failRetries as int, p.maxWait - st.elapsed as int
  {
    if st.elapsed as int >= p.maxWait then
      WaitRun(TimedOut, st.seen, st.recoveries)
    else
      match Step(p, env(|st.seen|), st)
      case Stop(run) =>
        StopKeepsPromises(p, env, st);
        run
      case Continue(st') =>
        ContinueKeepsInvariant(p, env, st);
        Poll(p, env, st')
  }

  /** `wait_until_ready_with_cf`: `True` exactly when the run is `Ready`. */
  function Wait(p: WaitParams, env: nat -> Tick): (r: WaitRun)
    ensures RunFacts(p, env, r)
  {
    Poll(p, env, WaitState(0, 0, [], []))
  }

  /** The loop returns `True` the first time it sees an actionable page that
      shows neither gate nor fail; a success banner on that page does not
      change the verdict. */
  lemma ReadyOnFirstActionable(p: WaitParams, env: nat -> Tick)
    requires 0 < p.maxWait
    requires Classify(env(0).signals) == Success || Classify(env(0).signals) == NoSignal
    requires env(0).tableButton
    ensures Wait(p, env) == WaitRun(Ready, [Classify(env(0).signals)], [])
  {
  }

  /** A page that keeps failing is given up on after exactly
      `max_fail_retries` recoveries, with the back-offs 2, 4, 6, 8, 8, ... */
  lemma PersistentFailGivesUp(p: WaitParams, env: nat -> Tick)
    requires 0 < p.maxWait
    requires forall n :: Classify(env(n).signals) == Fail
    ensures Wait(p, env).outcome == Blocked
    ensures |Wait(p, env).recoveries| == (if p.maxFailRetries < 0 then 0 else p.maxFailRetries)
  {
    var r := Wait(p, env);
    assert Clock(env, r.seen) == 0 by {
      if r.seen != [] {
        assert r.seen[|r.seen| - 1] == Fail;
      }
    }
    assert forall i :: 0 <= i < |r.seen| ==> !ReadyAt(env, r.seen, i);
  }

  /** Every recovery a wait makes, when its calls go through, leaves the
      browser on the target page if the call may bounce and has a target,
      and on the page it was on otherwise. */
  lemma RecoveriesLand(p: WaitParams, env: nat -> Tick, k: nat, page: string)
    requires k < |Wait(p, env).recoveries|
    ensures Landing(page, RecoveryNavigation(Wait(p, env).recoveries[k].kind, p.target, NoFaults))
              == (if p.bounceOnFail && p.target != "" then p.target else page)
  {
    RecoveryLanding(page, Wait(p, env).recoveries[k].kind, p.target, NoFaults);
  }
}
