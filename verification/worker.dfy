/** `App.worker` end to end: the checks and settings of the form, the wait
    for a scheduled start, and then one of the two polling modes. */
module Worker {
  import opened Wrappers
  import opened Schedule
  import Config
  import SingleTab
  import MultiTab

  /** What the run runs into: the clock reading when the start time is
      computed, and what each mode would see. The stop flag is checked at
      the start of every round, before every target or tab, and, while
      waiting for a scheduled start, at `Checkpoint(0, 0)`. */
  datatype Env = Env(nowUs: nat, single: SingleTab.World, multi: MultiTab.MultiWorld)

  datatype WorkerRun = WorkerRun(
    halt: Option<Config.Halt>,
    startUs: Option<nat>,            // the instant a scheduled start waits for
    single: Option<SingleTab.Run>,
    multi: Option<MultiTab.MultiRun>)

  /** The instant a scheduled start waits for: today at the given time, or
      tomorrow when that is not later than now. */
  function StartInstant(nowUs: nat, start: Option<Config.TimeOfDay>): (r: Option<nat>)
    requires start.Some? ==> Config.InDay(start.value)
    ensures r.Some? <==> start.Some?
    ensures r.Some? ==> nowUs < r.value <= nowUs + Config.DayUs
    ensures r.Some? ==> r.value % Config.DayUs == Config.TimeOfDayUs(start.value)
  {
    match start
    case None => None
    case Some(t) => Some(Config.NextOccurrence(nowUs, t))
  }

  function Work(f: Config.Form, env: Env): (run: WorkerRun)
    // a form the worker rejects ends the run before any page is opened
    ensures run.halt.Some? <==> Config.Configure(f).Err?
    ensures run.halt.Some? ==> run.halt.value == Config.Configure(f).error
    ensures run.halt.Some? ==> run.single.None? && run.multi.None? && run.startUs.None?
    // otherwise exactly one mode runs, the one the form asks for
    ensures run.single.Some? <==> Config.Configure(f).Ok? && f.singleTab
    ensures run.multi.Some? <==> Config.Configure(f).Ok? && !f.singleTab
    ensures run.startUs.Some? <==> Config.Configure(f).Ok? && f.startAt
    ensures run.startUs.Some? ==> env.nowUs < run.startUs.value <= env.nowUs + Config.DayUs
    ensures run.single.Some? ==>
              var p := Config.Configure(f).value;
              run.single.value == SingleTab.RunSingleTab(p.urls, p.filter, p.retries, f.warmup, env.single)
    ensures run.multi.Some? ==>
              var p := Config.Configure(f).value;
              run.multi.value == MultiTab.RunMultiTab(p.urls, p.filter, p.retries, env.multi)
  {
    match Config.Configure(f)
    case Err(h) => WorkerRun(Some(h), None, None, None)
    case Ok(p) =>
      var start := StartInstant(env.nowUs, p.start);
      if p.singleTab then
        WorkerRun(None, start, Some(SingleTab.RunSingleTab(p.urls, p.filter, p.retries, p.warmup, env.single)), None)
      else
        WorkerRun(None, start, None, Some(MultiTab.RunMultiTab(p.urls, p.filter, p.retries, env.multi)))
  }

  /** A stop requested while waiting for the start does not skip the
      single-tab warm-up, which does not look at the flag; it does keep
      every round from starting. In multi-tab mode it keeps every tab from
      being opened. */
  lemma StopBeforeStart(f: Config.Form, env: Env)
    requires Config.Configure(f).Ok?
    requires Stopped(env.single.stop, Checkpoint(0, 0)) && Stopped(env.multi.stop, Checkpoint(0, 0))
    ensures var run := Work(f, env);
      && (run.single.Some? ==> (run.single.value.warmup.Some? <==> f.warmup) && run.single.value.visits == [])
      && (run.multi.Some? ==> run.multi.value.opening.None? && run.multi.value.turns == [])
  {
    var p := Config.Configure(f).value;
    if f.singleTab {
      StopStays(env.single.stop, Checkpoint(0, 0), Checkpoint(1, 0));
    } else {
      StopStays(env.multi.stop, Checkpoint(0, 0), Checkpoint(0, |p.urls|));
    }
  }
}
