/** The opening of `App.worker`: the checks that end the run before any
    page is visited, the D2 slots, the filter and retry settings, and the
    scheduled start. */
module Config {
  import opened Wrappers
  import opened Text
  import TimeInput
  import Targets
  import Executor

  /** What the form holds when the run starts. `dates` is what
      `parse_dates` returned for the date field. */
  datatype Form = Form(
    launched: bool,                 // `ensure_launched` returned a driver
    dates: seq<string>,
    slot1: bool, slot2: bool, slot3: bool, slot4: bool,
    fromText: string, toText: string,
    courtA: bool, courtB: bool, courtC: bool,
    retriesText: string,
    singleTab: bool, warmup: bool,
    startAt: bool, startText: string)

  /** Why the run ended before the round loop. */
  datatype Halt =
    | NotLaunched        // the browser could not be started
    | NoDates            // no date given
    | NoSlots            // no D2 slot ticked
    | BadTimeFilter      // a time bound is not a valid `HH:MM`
    | BadRetries         // the retry count is not an integer
    | BadStartFormat     // the start time is not `HH:MM:SS` of integers
    | StartOutOfRange    // hour, minute or second outside its range

  datatype TimeOfDay = TimeOfDay(h: int, m: int, s: int)

  /** What the rest of the run works from. */
  datatype Plan = Plan(
    urls: seq<string>,
    filter: Executor.Filter,
    retries: int,
    singleTab: bool,
    warmup: bool,
    start: Option<TimeOfDay>)

  /** The retry budget used when the field is left empty. */
  const DefaultRetries: int := 3

  /** The ticked D2 boxes, as `d2_list` collects them. */
  function CollectSlots(b1: bool, b2: bool, b3: bool, b4: bool): (slots: seq<nat>)
    // exactly the ticked slots, in ascending order, each once
    ensures forall d :: d in slots <==> (d == 1 && b1) || (d == 2 && b2) || (d == 3 && b3) || (d == 4 && b4)
    ensures forall x, y :: 0 <= x < y < |slots| ==> slots[x] < slots[y]
    ensures slots == [] <==> !b1 && !b2 && !b3 && !b4
  {
    (if b1 then [1] else []) + (if b2 then [2] else []) + (if b3 then [3] else []) + (if b4 then [4] else [])
  }

  /** The shape Python's `int()` accepts here: optional sign, then ASCII
      digits, with surrounding whitespace stripped. */
  predicate IntShape(t: string)
  {
    || (t != "" && AllDigits(t))
    || (|t| > 1 && (t[0] == '+' || t[0] == '-') && AllDigits(t[1..]))
  }

  /** `int(s)` for a decimal string. */
  function ParseInt(s: string): (r: Option<int>)
    ensures r.Some? <==> IntShape(Strip(s))
    ensures r.Some? && AllDigits(Strip(s)) ==> r.value == DigitsValue(Strip(s))
    // a sign is followed by the digits whose value it signs
    ensures r.Some? && Strip(s)[0] == '-' ==> r.value == -(DigitsValue(Strip(s)[1..]) as int)
    ensures r.Some? && Strip(s)[0] == '+' ==> r.value == DigitsValue(Strip(s)[1..])
    ensures r.Some? && Strip(s)[0] == '-' ==> r.value <= 0
    ensures r.Some? && Strip(s)[0] != '-' ==> r.value >= 0
  {
    var t := Strip(s);
    if t != "" && AllDigits(t) then Some(DigitsValue(t))
    else if |t| > 1 && t[0] == '-' && AllDigits(t[1..]) then Some(0 - DigitsValue(t[1..]) as int)
    else if |t| > 1 && t[0] == '+' && AllDigits(t[1..]) then Some(DigitsValue(t[1..]))
    else None
  }

  /** A minus sign negates: `int("-5")` is -5. */
  lemma ExampleSigned()
    ensures ParseInt("-5") == Some(-5)
  {
    StripFixed("-5");
    assert "-5"[1..] == "5";
    assert DigitsValue("5") == 5;
  }

  /** A plus sign and leading zeros change nothing: `int("+05")` is 5. */
  lemma ExamplePlusPadded()
    ensures ParseInt("+05") == Some(5)
  {
    StripFixed("+05");
    assert "+05"[1..] == "05";
    assert DigitsValue("05") == 5;
  }

  /** `str(n)` for any integer. */
  function IntToString(n: int): string
  {
    if n < 0 then "-" + NatToString(-n) else NatToString(n)
  }

  /** Every integer's decimal rendering parses back to it. */
  lemma ParseIntRoundTrip(n: int)
    ensures ParseInt(IntToString(n)) == Some(n)
  {
    var t := IntToString(n);
    var d := NatToString(if n < 0 then -n else n);
    assert d != "" && AllDigits(d);
    assert !IsSpace(d[0]) && !IsSpace(d[|d| - 1]);
    if n < 0 {
      assert t[1..] == d;
      assert !IsSpace(t[0]) && !IsSpace(t[|t| - 1]);
      StripFixed(t);
      assert !IsDigit(t[0]);
    } else {
      StripFixed(t);
    }
  }

  /** `int(self.cf_fail_retries.get() or "3")`. */
  function ParseRetries(text: string): (r: Option<int>)
    ensures text == "" ==> r == Some(DefaultRetries)
    ensures text != "" ==> r == ParseInt(text)
  {
    if text == "" then Some(DefaultRetries) else ParseInt(text)
  }

  /** A time of day that `datetime.replace` accepts. */
  predicate InDay(t: TimeOfDay)
  {
    0 <= t.h <= 23 && 0 <= t.m <= 59 && 0 <= t.s <= 59
  }

  /** `hh, mm, ss = map(int, start_time.split(":"))`, then
      `now.replace(hour=hh, minute=mm, second=ss)`, which rejects values out
      of range. */
  function ParseStart(text: string): (r: Result<TimeOfDay, Halt>)
    ensures r.Ok? ==> InDay(r.value)
    ensures r.Ok? || r == Err(BadStartFormat) || r == Err(StartOutOfRange)
    // a range error needs three integer fields; anything else is a format error
    ensures r.Err? ==> (r == Err(StartOutOfRange) <==>
              var parts := Split(text, ':');
              |parts| == 3 && ParseInt(parts[0]).Some? && ParseInt(parts[1]).Some? && ParseInt(parts[2]).Some?)
  {
    var parts := Split(text, ':');
    if |parts| != 3 then Err(BadStartFormat)
    else TimeFrom(ParseInt(parts[0]), ParseInt(parts[1]), ParseInt(parts[2]))
  }

  /** The three fields as a time of day, once each has been read. */
  function TimeFrom(h: Option<int>, m: Option<int>, s: Option<int>): (r: Result<TimeOfDay, Halt>)
    ensures r.Ok? <==> h.Some? && m.Some? && s.Some? && InDay(TimeOfDay(h.value, m.value, s.value))
    ensures r.Ok? ==> r.value == TimeOfDay(h.value, m.value, s.value)
    ensures r.Err? ==> (r == Err(StartOutOfRange) <==> h.Some? && m.Some? && s.Some?)
    ensures r.Ok? || r == Err(BadStartFormat) || r == Err(StartOutOfRange)
  {
    match (h, m, s)
    case (Some(hh), Some(mm), Some(ss)) =>
      if InDay(TimeOfDay(hh, mm, ss)) then Ok(TimeOfDay(hh, mm, ss)) else Err(StartOutOfRange)
    case _ => Err(BadStartFormat)
  }

  /** A start time typed as `H:M:S` in decimal is read back as typed. */
  lemma ParseStartRoundTrip(h: nat, m: nat, s: nat)
    requires h <= 23 && m <= 59 && s <= 59
    ensures ParseStart(NatToString(h) + ":" + NatToString(m) + ":" + NatToString(s)) == Ok(TimeOfDay(h, m, s))
  {
    var a, b, c := NatToString(h), NatToString(m), NatToString(s);
    var text := a + ":" + b + ":" + c;
    assert Split(text, ':') == [a, b, c] by {
      assert text == a + [':'] + b + [':'] + c;
      SplitThree(a, b, c, ':');
    }
    assert ParseInt(a) == Some(h as int) by {
      ParseIntRoundTrip(h);
    }
    assert ParseInt(b) == Some(m as int) by {
      ParseIntRoundTrip(m);
    }
    assert ParseInt(c) == Some(s as int) by {
      ParseIntRoundTrip(s);
    }
    FieldsRead(text, [a, b, c], TimeOfDay(h, m, s));
  }

  /** A text that splits into three fields reading as an in-range time is
      that time. */
  lemma FieldsRead(text: string, parts: seq<string>, t: TimeOfDay)
    requires Split(text, ':') == parts && |parts| == 3
    requires ParseInt(parts[0]) == Some(t.h) && ParseInt(parts[1]) == Some(t.m) && ParseInt(parts[2]) == Some(t.s)
    requires InDay(t)
    ensures ParseStart(text) == Ok(t)
  {
  }

  /** Three digit strings joined by colons split back into themselves. */
  lemma SplitThree(a: string, b: string, c: string, sep: char)
    requires AllDigits(a) && AllDigits(b) && AllDigits(c) && !IsDigit(sep)
    ensures Split(a + [sep] + b + [sep] + c, sep) == [a, b, c]
  {
    var t := b + [sep] + c;
    assert Split(t, sep) == [b, c] by {
      NoSepInDigits(b, sep);
      NoSepInDigits(c, sep);
      SplitAtSep(b, c, sep);
    }
    assert Split(a + [sep] + t, sep) == [a] + [b, c] by {
      NoSepInDigits(a, sep);
      SplitAtSep(a, t, sep);
    }
    assert a + [sep] + b + [sep] + c == a + [sep] + t;
  }

  lemma NoSepInDigits(d: string, sep: char)
    requires AllDigits(d) && !IsDigit(sep)
    ensures Split(d, sep) == [d]
  {
    assert forall j :: 0 <= j < |d| ==> d[j] != sep by {
      forall j | 0 <= j < |d| ensures d[j] != sep {
        assert IsDigit(d[j]);
      }
    }
    SplitNoSep(d, sep);
  }

  /** Two fields instead of three is a format error, not a range error. */
  lemma ExampleMissingSeconds()
    ensures ParseStart("09:30") == Err(BadStartFormat)
  {
    assert "09:30" == "09" + [':'] + "30";
    SplitNoSep("09", ':');
    SplitNoSep("30", ':');
    SplitAtSep("09", "30", ':');
  }

  /** What a plan takes from the form: the pages of every date and ticked
      slot, the filter and retry count as parsed, the two mode switches, and
      the start time exactly when a scheduled start was asked for. */
  predicate Honours(f: Form, p: Plan)
  {
    && f.dates != []
    && (var slots := CollectSlots(f.slot1, f.slot2, f.slot3, f.slot4);
        && slots != []
        && p.urls == Targets.BuildUrls(f.dates, slots)
        && |p.urls| == |f.dates| * |slots| > 0)
    && TimeInput.ParseTimeHHMM(f.fromText) == Ok(p.filter.fromT)
    && TimeInput.ParseTimeHHMM(f.toText) == Ok(p.filter.toT)
    && p.filter.wantA == f.courtA && p.filter.wantB == f.courtB && p.filter.wantC == f.courtC
    && ParseRetries(f.retriesText) == Some(p.retries)
    && p.singleTab == f.singleTab && p.warmup == f.warmup
    && (p.start.Some? <==> f.startAt)
    && (f.startAt ==> ParseStart(f.startText) == Ok(p.start.value))
  }

  /** The worker's checks, in the order it makes them: launch, dates, slots,
      time bounds, retry count, and, for a scheduled start, the start time. */
  function Configure(f: Form): (r: Result<Plan, Halt>)
    ensures r == Err(NotLaunched) <==> !f.launched
    ensures r == Err(NoDates) <==> f.launched && f.dates == []
    ensures r == Err(NoSlots) <==> f.launched && f.dates != [] && !f.slot1 && !f.slot2 && !f.slot3 && !f.slot4
    ensures r.Ok? ==> Honours(f, r.value)
    // past the slots, the first field that does not read decides the halt
    ensures var early := !f.launched || f.dates == [] || (!f.slot1 && !f.slot2 && !f.slot3 && !f.slot4);
            var from := TimeInput.ParseTimeHHMM(f.fromText);
            var to := TimeInput.ParseTimeHHMM(f.toText);
            && (r == Err(BadTimeFilter) <==> !early && (from.Err? || to.Err?))
            && (r == Err(BadRetries) <==> !early && from.Ok? && to.Ok? && ParseRetries(f.retriesText).None?)
            && (r.Ok? <==> !early && from.Ok? && to.Ok? && ParseRetries(f.retriesText).Some?
                           && (f.startAt ==> ParseStart(f.startText).Ok?))
            && (r == Err(BadStartFormat) || r == Err(StartOutOfRange) ==>
                  f.startAt && ParseStart(f.startText) == Err(r.error))
  {
    if !f.launched then Err(NotLaunched)
    else if f.dates == [] then Err(NoDates)
    else
      var slots := CollectSlots(f.slot1, f.slot2, f.slot3, f.slot4);
      if slots == [] then Err(NoSlots)
      else
        assert |f.dates| * |slots| > 0 by {
          Targets.MulMonotone(1, |f.dates|, |slots|);
        }
        Settle(f, slots, TimeInput.ParseTimeHHMM(f.fromText), TimeInput.ParseTimeHHMM(f.toText),
                  ParseRetries(f.retriesText), ParseStart(f.startText))
  }

  /** The checks after the slots, given what each field parsed to: the
      first field that does not read ends the run. */
  function Settle(f: Form, slots: seq<nat>, from: Result<Option<string>, TimeInput.TimeError>,
                  to: Result<Option<string>, TimeInput.TimeError>, retries: Option<int>,
                  start: Result<TimeOfDay, Halt>): (r: Result<Plan, Halt>)
    requires start.Ok? || start == Err(BadStartFormat) || start == Err(StartOutOfRange)
    ensures r != Err(NotLaunched) && r != Err(NoDates) && r != Err(NoSlots)
    ensures r == Err(BadTimeFilter) <==> from.Err? || to.Err?
    ensures r == Err(BadRetries) <==> from.Ok? && to.Ok? && retries.None?
    ensures r.Ok? <==> from.Ok? && to.Ok? && retries.Some? && (f.startAt ==> start.Ok?)
    ensures r == Err(BadStartFormat) || r == Err(StartOutOfRange) ==> f.startAt && start == Err(r.error)
    // an accepted plan carries the fields as read, and a start exactly when one was asked for
    ensures r.Ok? ==>
              && r.value.urls == Targets.BuildUrls(f.dates, slots)
              && Ok(r.value.filter.fromT) == from && Ok(r.value.filter.toT) == to
              && r.value.filter.wantA == f.courtA && r.value.filter.wantB == f.courtB && r.value.filter.wantC == f.courtC
              && Some(r.value.retries) == retries
              && r.value.singleTab == f.singleTab && r.value.warmup == f.warmup
              && (r.value.start.Some? <==> f.startAt)
              && (f.startAt ==> start == Ok(r.value.start.value))
  {
    match (from, to)
    case (Ok(fromT), Ok(toT)) =>
      (match retries
       case None => Err(BadRetries)
       case Some(n) =>
         var filter := Executor.Filter(fromT, toT, f.courtA, f.courtB, f.courtC);
         var urls := Targets.BuildUrls(f.dates, slots);
         if !f.startAt then Ok(Plan(urls, filter, n, f.singleTab, f.warmup, None))
         else match start
           case Err(e) => Err(e)
           case Ok(t) => Ok(Plan(urls, filter, n, f.singleTab, f.warmup, Some(t))))
    case _ => Err(BadTimeFilter)
  }

  /** A microsecond count within one day. */
  const DayUs: nat := 86_400_000_000


  function TimeOfDayUs(t: TimeOfDay): nat
    requires InDay(t)
    ensures TimeOfDayUs(t) < DayUs
  {
    ((t.h * 60 + t.m) * 60 + t.s) * 1_000_000
  }

  /** `now.replace(hour, minute, second, microsecond=0)`, moved one day on
      when it is not after `now`; instants are microseconds on a naive local
      clock whose day boundaries are multiples of `DayUs`. */
  function NextOccurrence(nowUs: nat, t: TimeOfDay): (r: nat)
    requires InDay(t)
    ensures nowUs < r <= nowUs + DayUs
    ensures r % DayUs == TimeOfDayUs(t)
  {
    var today := (nowUs / DayUs) * DayUs + TimeOfDayUs(t);
    if today <= nowUs then today + DayUs else today
  }

  /** The start is the first instant after `now` at the requested time of
      day: no earlier such instant lies after `now`. */
  lemma NextOccurrenceIsFirst(nowUs: nat, t: TimeOfDay, q: nat)
    requires InDay(t)
    requires nowUs < q * DayUs + TimeOfDayUs(t)
    ensures NextOccurrence(nowUs, t) <= q * DayUs + TimeOfDayUs(t)
  {
    var day := nowUs / DayUs;
    assert day * DayUs <= nowUs < day * DayUs + DayUs;
    if q > day {
      assert q * DayUs >= day * DayUs + DayUs;
    }
  }
}
