/** `booking.click_all_bookings_on_page`: click every eligible booking
    button once, and retry a click the host rejected with "verification
    failed" after waiting for the challenge layer again.

    The page is an observation: the buttons found, each with the start time
    and court text read from its table row. What the `m`-th click on button
    `i` runs into is `env(i, m)`. */
module Executor {
  import opened Wrappers
  import opened Text
  import Waiter
  import Dialog
  import Relocation

  /** A booking button: its `onclick` attribute and what `_row_time` and
      `_row_court` read from its row (`None` and `""` when unreadable). */
  datatype Button = Button(onclick: string, rowTime: Option<string>, rowCourt: string)

  /** The caller's filter: `from_t`, `to_t` and the three court boxes. */
  datatype Filter = Filter(fromT: Option<string>, toT: Option<string>, wantA: bool, wantB: bool, wantC: bool)

  /** What one click attempt runs into. */
  datatype AttemptObs = AttemptObs(
    clickFault: bool,              // scrolling to or clicking the button raised
    dialog: Dialog.DialogObs,      // what the page showed right after the click
    currentUrl: string,            // `driver.current_url`, the recovery target
    recovery: nat -> Waiter.Tick,  // the page as the recovery wait sees it
    recoveryFault: bool,           // the recovery wait or the relocation lookup raised
    pageAfter: seq<Button>         // the buttons present after the recovery
  )

  /** How a button's attempts ended. */
  datatype Abandon = ClickFault | RecoveryFault | WaitFailed | NotRelocated

  datatype Fate =
    | Skipped              // filtered out, never clicked
    | Counted              // a click went through and was counted
    | Abandoned(why: Abandon)
    | Exhausted            // every allowed attempt was rejected
    | NotReached           // `max_click` was reached before this button

  /** A button's fate and the buttons actually clicked for it, in order. */
  datatype ButtonRun = ButtonRun(fate: Fate, clicked: seq<Button>)

  /** The count the call returns, and one run per button found. */
  datatype PageRun = PageRun(count: nat, runs: seq<ButtonRun>)

  /** The recovery wait after a rejected click is called with a fixed
      budget, whatever budget the caller gave: `max_wait=240`,
      `max_fail_retries=3`, `bounce_on_fail=True`. */
  const RecoveryMaxWait: int := 240
  const RecoveryFailRetries: int := 3

  /** What a caller that does not pass `cf_fail_retries` gets. */
  const DefaultRetries: int := 3

  function RecoveryParams(url: string): Waiter.WaitParams
  {
    Waiter.WaitParams(url, RecoveryMaxWait, RecoveryFailRetries, true)
  }

  /** Python truthiness of an optional string. */
  predicate Truthy(o: Option<string>)
  {
    o.Some? && o.value != ""
  }

  /** The time half of the filter, as the source writes it. */
  predicate TimeOk(f: Filter, t: Option<string>)
  {
    if (Truthy(f.fromT) || Truthy(f.toT)) && Truthy(t) then
      && !(Truthy(f.fromT) && LexLess(t.value, f.fromT.value))
      && !(Truthy(f.toT) && LexLess(f.toT.value, t.value))
    else true
  }

  /** The court half: with any box ticked, the upper-cased court text must
      contain a ticked letter. */
  predicate CourtOk(f: Filter, court: string)
  {
    if f.wantA || f.wantB || f.wantC then
      var up := Upper(court);
      (f.wantA && Contains(up, "A")) || (f.wantB && Contains(up, "B")) || (f.wantC && Contains(up, "C"))
    else true
  }

  predicate Eligible(f: Filter, b: Button)
  {
    TimeOk(f, b.rowTime) && CourtOk(f, b.rowCourt)
  }

  predicate LexAtMost(a: string, b: string)
  {
    LexLess(a, b) || a == b
  }

  /** The time filter is a closed window in string order: it passes when no
      bound is set or the row time is unknown, and otherwise exactly when
      `from <= t <= to` for the bounds that are set. */
  lemma TimeWindow(f: Filter, t: Option<string>)
    ensures TimeOk(f, t) <==>
      || (!Truthy(f.fromT) && !Truthy(f.toT))
      || !Truthy(t)
      || ((!Truthy(f.fromT) || LexAtMost(f.fromT.value, t.value))
          && (!Truthy(f.toT) || LexAtMost(t.value, f.toT.value)))
  {
    if Truthy(t) && Truthy(f.fromT) {
      NotLessIsAtLeast(t.value, f.fromT.value);
    }
    if Truthy(t) && Truthy(f.toT) {
      NotLessIsAtLeast(f.toT.value, t.value);
    }
  }

  /** A lower-case court letter matches too, since the court text is
      upper-cased first. */
  lemma CourtLetterAnyCase(f: Filter, court: string, k: nat)
    requires f.wantA && k < |court| && (court[k] == 'a' || court[k] == 'A')
    ensures CourtOk(f, court)
  {
    var up := Upper(court);
    assert up[k..k + 1] == "A";
    assert OccursAt(up, "A", k);
  }

  /** The court text holds the letter in either case. */
  predicate HasLetter(court: string, lower: char, upper: char)
  {
    exists k :: 0 <= k < |court| && (court[k] == lower || court[k] == upper)
  }

  lemma LetterInUpper(court: string, lower: char, upper: char)
    requires 'a' <= lower <= 'z' && upper == UpperChar(lower)
    ensures Contains(Upper(court), [upper]) <==> HasLetter(court, lower, upper)
  {
    var up := Upper(court);
    if Contains(up, [upper]) {
      var i: nat :| i <= |up| && OccursAt(up, [upper], i);
      assert up[i] == upper;
    }
    if HasLetter(court, lower, upper) {
      var k :| 0 <= k < |court| && (court[k] == lower || court[k] == upper);
      assert up[k..k + 1] == [upper];
      assert OccursAt(up, [upper], k);
    }
  }

  /** The court filter passes when no court is ticked, and otherwise exactly
      when the court text holds, in either case, the letter of a ticked
      court. */
  lemma CourtLetters(f: Filter, court: string)
    ensures CourtOk(f, court) <==>
      || (!f.wantA && !f.wantB && !f.wantC)
      || (f.wantA && HasLetter(court, 'a', 'A'))
      || (f.wantB && HasLetter(court, 'b', 'B'))
      || (f.wantC && HasLetter(court, 'c', 'C'))
  {
    LetterInUpper(court, 'a', 'A');
    LetterInUpper(court, 'b', 'B');
    LetterInUpper(court, 'c', 'C');
  }

  /** A button is tried exactly when its row time is in the window (or
      either is unknown) and its court text names a ticked court (or none
      is ticked). */
  lemma EligibleExactly(f: Filter, b: Button)
    ensures Eligible(f, b) <==>
      && (|| (!Truthy(f.fromT) && !Truthy(f.toT))
          || !Truthy(b.rowTime)
          || ((!Truthy(f.fromT) || LexAtMost(f.fromT.value, b.rowTime.value))
              && (!Truthy(f.toT) || LexAtMost(b.rowTime.value, f.toT.value))))
      && (|| (!f.wantA && !f.wantB && !f.wantC)
          || (f.wantA && HasLetter(b.rowCourt, 'a', 'A'))
          || (f.wantB && HasLetter(b.rowCourt, 'b', 'B'))
          || (f.wantC && HasLetter(b.rowCourt, 'c', 'C')))
  {
    TimeWindow(f, b.rowTime);
    CourtLetters(f, b.rowCourt);
  }

  function Onclicks(page: seq<Button>): (ocs: seq<string>)
    ensures |ocs| == |page|
    ensures forall j :: 0 <= j < |page| ==> ocs[j] == page[j].onclick
  {
    seq(|page|, j requires 0 <= j < |page| => page[j].onclick)
  }

  /** What the loop learns from one attempt: whether the click raised, the
      verdict on the dialog, whether the recovery raised or reached the
      booking page, and the button found again, if any. */
  datatype Reading = Reading(
    clickFault: bool,
    status: Dialog.DialogStatus,
    recoveryFault: bool,
    recovered: bool,
    relocated: Option<Button>)

  /** How a button is found again after a recovery. `AsWritten` is the
      source's selector: the first button whose `onclick` contains the call
      rebuilt from the key. `ByKey` is the corrected lookup: the first
      button whose `onclick` carries the same key. */
  datatype Lookup = AsWritten | ByKey

  /** `onclick` is what `lookup` accepts as the button with key `k`. */
  predicate Marks(lookup: Lookup, k: Relocation.Key, onclick: string)
  {
    match lookup
    case AsWritten => Contains(onclick, Relocation.Render(k))
    case ByKey => Relocation.KeyOf(onclick) == Some(k)
  }

  /** The first button on the page after the recovery that `lookup` accepts
      for `key`; without a key nothing is looked up. */
  function Refind(lookup: Lookup, key: Option<Relocation.Key>, page: seq<Button>): (b: Option<Button>)
    ensures b.Some? ==> key.Some? && Marks(lookup, key.value, b.value.onclick) && b.value in page
    ensures key.Some? ==> (b.None? <==> forall j :: 0 <= j < |page| ==> !Marks(lookup, key.value, page[j].onclick))
  {
    match key
    case None => None
    case Some(k) =>
      var found := match lookup
        case AsWritten => Relocation.FindAsWritten(k, Onclicks(page))
        case ByKey => Relocation.Relocate(k, Onclicks(page));
      match found
      case None => None
      case Some(j) => Some(page[j])
  }

  /** The dialog is judged by `_handle_confirm_and_detect_cf_fail`, the
      recovery by `wait_until_ready_with_cf` with the fixed budget, and the
      button is looked up again by the key of the button first clicked. */
  function ReadAttempt(o: AttemptObs, lookup: Lookup, key: Option<Relocation.Key>): Reading
  {
    Reading(o.clickFault, Dialog.Detect(o.dialog), o.recoveryFault,
            Waiter.Wait(RecoveryParams(o.currentUrl), o.recovery).outcome == Waiter.Ready,
            Refind(lookup, key, o.pageAfter))
  }

  function Readings(env: (nat, nat) -> AttemptObs, lookup: Lookup, key: Option<Relocation.Key>): (nat, nat) -> Reading
  {
    (i: nat, m: nat) => ReadAttempt(env(i, m), lookup, key)
  }

  /** Every button found again for button `i` is one `lookup` accepts for
      `key`. */
  ghost predicate RelocatesBy(readings: (nat, nat) -> Reading, i: nat, lookup: Lookup, key: Option<Relocation.Key>)
  {
    forall m: nat :: readings(i, m).relocated.Some? ==>
      key.Some? && Marks(lookup, key.value, readings(i, m).relocated.value.onclick)
  }

  lemma ReadingsRelocateBy(env: (nat, nat) -> AttemptObs, lookup: Lookup, key: Option<Relocation.Key>, i: nat)
    ensures RelocatesBy(Readings(env, lookup, key), i, lookup, key)
  {
    forall m: nat | Readings(env, lookup, key)(i, m).relocated.Some?
      ensures key.Some? && Marks(lookup, key.value, Readings(env, lookup, key)(i, m).relocated.value.onclick)
    {
      assert Readings(env, lookup, key)(i, m) == ReadAttempt(env(i, m), lookup, key);
    }
  }

  /** The click was rejected, and the recovery wait that followed reached
      the booking page. */
  predicate Recovered(rd: Reading)
  {
    !rd.clickFault && rd.status == Dialog.VerificationFailed && !rd.recoveryFault && rd.recovered
  }

  /** The attempt `m` on button `i` was rejected, and the recovery wait
      after it reached the booking page. */
  predicate Retried(env: (nat, nat) -> AttemptObs, i: nat, m: nat)
  {
    var o := env(i, m);
    && !o.clickFault
    && Dialog.Detect(o.dialog) == Dialog.VerificationFailed
    && !o.recoveryFault
    && Waiter.Wait(RecoveryParams(o.currentUrl), o.recovery).outcome == Waiter.Ready
  }

  /** What one attempt leads to: a final fate, or another click on `next`. */
  datatype Turn = Done(fate: Fate) | Again(next: Button)

  /** One pass of the attempt loop's body, for the button handle `cur`;
      `key` is the key of the button first clicked. */
  function AttemptTurn(rd: Reading, key: Option<Relocation.Key>, cur: Button): (t: Turn)
    ensures t.Again? <==> Recovered(rd) && (key.Some? ==> rd.relocated.Some?)
    // a keyed button is clicked again where it was found; otherwise the same handle is reused
    ensures t.Again? && key.Some? ==> t.next == rd.relocated.value
    ensures t.Again? && key.None? ==> t.next == cur
    ensures t.Done? ==> t.fate.Counted? || t.fate.Abandoned?
    ensures t == Done(Counted) <==> !rd.clickFault && rd.status != Dialog.VerificationFailed
    ensures t == Done(Abandoned(ClickFault)) <==> rd.clickFault
  {
    if rd.clickFault then Done(Abandoned(ClickFault))
    else if rd.status != Dialog.VerificationFailed then Done(Counted)
    else if rd.recoveryFault then Done(Abandoned(RecoveryFault))
    else if !rd.recovered then Done(Abandoned(WaitFailed))
    else if key.None? then Again(cur)
    else match rd.relocated
      case None => Done(Abandoned(NotRelocated))
      case Some(b) => Again(b)
  }

  /** The `while attempts <= cf_fail_retries` loop for button `i`, with the
      clicks made so far and the button handle the next click uses. */
  function Attempts(retries: int, readings: (nat, nat) -> Reading, i: nat,
                    key: Option<Relocation.Key>, cur: Button, clicked: seq<Button>): (r: ButtonRun)
    ensures |clicked| < |r.clicked| || (r.fate == Exhausted && r.clicked == clicked)
    ensures r.clicked[..|clicked|] == clicked
    ensures |clicked| < |r.clicked| ==> r.clicked[|clicked|] == cur
    ensures |r.clicked| <= (if |clicked| as int > retries then |clicked| else retries + 1)
    ensures r.fate != Skipped && r.fate != NotReached
    ensures r.fate == Exhausted ==> |r.clicked| as int > retries
    decreases retries + 1 - |clicked|
  {
    if |clicked| as int > retries then ButtonRun(Exhausted, clicked)
    else
      var clicked' := clicked + [cur];
      assert clicked'[..|clicked|] == clicked;
      match AttemptTurn(readings(i, |clicked|), key, cur)
      case Done(fate) => ButtonRun(fate, clicked')
      case Again(next) =>
        var r := Attempts(retries, readings, i, key, next, clicked');
        assert r.clicked[..|clicked|] == r.clicked[..|clicked'|][..|clicked|];
        assert r.clicked[|clicked|] == r.clicked[..|clicked'|][|clicked|];
        r
  }

  /** With a key, every click after the current one is on a button the
      lookup accepted; without one, the same handle is clicked throughout. */
  lemma {:induction false} AttemptsKeepMark(retries: int, readings: (nat, nat) -> Reading, i: nat, lookup: Lookup,
                                            key: Option<Relocation.Key>, cur: Button, clicked: seq<Button>)
    requires RelocatesBy(readings, i, lookup, key)
    ensures var r := Attempts(retries, readings, i, key, cur, clicked);
      && (key.Some? ==> forall m :: |clicked| < m < |r.clicked| ==> Marks(lookup, key.value, r.clicked[m].onclick))
      && (key.None? ==> forall m :: |clicked| <= m < |r.clicked| ==> r.clicked[m] == cur)
    decreases retries + 1 - |clicked|
  {
    if |clicked| as int <= retries {
      match AttemptTurn(readings(i, |clicked|), key, cur)
      case Done(_) =>
      case Again(next) =>
        var clicked' := clicked + [cur];
        AttemptsKeepMark(retries, readings, i, lookup, key, next, clicked');
        var r := Attempts(retries, readings, i, key, cur, clicked);
        assert r == Attempts(retries, readings, i, key, next, clicked');
        if key.Some? {
          assert readings(i, |clicked|).relocated == Some(next);
          forall m | |clicked| < m < |r.clicked|
            ensures Marks(lookup, key.value, r.clicked[m].onclick)
          {
            if m == |clicked'| {
              assert r.clicked[m] == next;
            }
          }
        } else {
          assert next == cur;
          forall m | |clicked| <= m < |r.clicked|
            ensures r.clicked[m] == cur
          {
            if m == |clicked| {
              assert r.clicked[m] == cur;
            }
          }
        }
    }
  }

  /** The loop depends on the readings of button `i` only. */
  lemma {:induction false} AttemptsAgree(retries: int, rd1: (nat, nat) -> Reading, rd2: (nat, nat) -> Reading, i: nat,
                                         key: Option<Relocation.Key>, cur: Button, clicked: seq<Button>)
    requires forall m: nat :: rd1(i, m) == rd2(i, m)
    ensures Attempts(retries, rd1, i, key, cur, clicked) == Attempts(retries, rd2, i, key, cur, clicked)
    decreases retries + 1 - |clicked|
  {
    if |clicked| as int <= retries {
      assert rd1(i, |clicked|) == rd2(i, |clicked|);
      match AttemptTurn(rd1(i, |clicked|), key, cur)
      case Done(_) =>
      case Again(next) =>
        AttemptsAgree(retries, rd1, rd2, i, key, next, clicked + [cur]);
    }
  }

  /** A click is followed by another only after a rejection and a recovery,
      and an exhausted loop saw nothing but those. */
  lemma {:induction false} AttemptsRetryOnlyAfterRecovery(retries: int, readings: (nat, nat) -> Reading, i: nat,
                                                          key: Option<Relocation.Key>, cur: Button, clicked: seq<Button>)
    ensures var r := Attempts(retries, readings, i, key, cur, clicked);
      && (forall m :: |clicked| <= m < |r.clicked| - 1 ==> Recovered(readings(i, m)))
      && (r.fate == Exhausted ==> forall m :: |clicked| <= m < |r.clicked| ==> Recovered(readings(i, m)))
    decreases retries + 1 - |clicked|
  {
    if |clicked| as int <= retries {
      match AttemptTurn(readings(i, |clicked|), key, cur)
      case Done(_) =>
      case Again(next) =>
        AttemptsRetryOnlyAfterRecovery(retries, readings, i, key, next, clicked + [cur]);
    }
  }

  /** A loop that stopped before its budget ran out stopped on its last
      click's turn. */
  lemma {:induction false} AttemptsEndOnLastTurn(retries: int, readings: (nat, nat) -> Reading, i: nat,
                                                 key: Option<Relocation.Key>, cur: Button, clicked: seq<Button>)
    ensures var r := Attempts(retries, readings, i, key, cur, clicked);
      r.fate != Exhausted ==>
        && |clicked| < |r.clicked|
        && AttemptTurn(readings(i, |r.clicked| - 1), key, r.clicked[|r.clicked| - 1]) == Done(r.fate)
    decreases retries + 1 - |clicked|
  {
    if |clicked| as int <= retries {
      match AttemptTurn(readings(i, |clicked|), key, cur)
      case Done(_) =>
      case Again(next) =>
        AttemptsEndOnLastTurn(retries, readings, i, key, next, clicked + [cur]);
    }
  }

  /** A reading says what the raw observation shows. */
  lemma ReadingOf(env: (nat, nat) -> AttemptObs, lookup: Lookup, key: Option<Relocation.Key>, i: nat, m: nat)
    ensures Recovered(Readings(env, lookup, key)(i, m)) <==> Retried(env, i, m)
    ensures Readings(env, lookup, key)(i, m).status == Dialog.Detect(env(i, m).dialog)
    ensures Readings(env, lookup, key)(i, m).clickFault == env(i, m).clickFault
  {
    assert Readings(env, lookup, key)(i, m) == ReadAttempt(env(i, m), lookup, key);
  }

  /** All attempts on one eligible button, relocating it with `lookup`. */
  function TryButton(lookup: Lookup, retries: int, env: (nat, nat) -> AttemptObs, i: nat, b: Button): (r: ButtonRun)
    // at most cf_fail_retries + 1 clicks, and none with a negative budget
    ensures |r.clicked| <= (if retries < 0 then 0 else retries + 1)
    ensures retries >= 0 ==> |r.clicked| > 0 && r.clicked[0] == b
    ensures r.fate != Skipped && r.fate != NotReached
    ensures r.fate == Exhausted ==> |r.clicked| as int == (if retries < 0 then 0 else retries + 1)
  {
    var key := Relocation.KeyOf(b.onclick);
    Attempts(retries, Readings(env, lookup, key), i, key, b, [])
  }

  /** The buttons the attempt loop clicks: every retry clicks a button the
      lookup accepted for the first button's key (by key: a button with that
      very key), and the same handle throughout when the first button has
      no key. */
  lemma TryButtonClicks(lookup: Lookup, retries: int, env: (nat, nat) -> AttemptObs, i: nat, b: Button)
    ensures var r := TryButton(lookup, retries, env, i, b);
      var key := Relocation.KeyOf(b.onclick);
      && (key.Some? ==> forall m :: 0 < m < |r.clicked| ==> Marks(lookup, key.value, r.clicked[m].onclick))
      && (key.Some? && lookup == ByKey ==>
            forall m :: 0 <= m < |r.clicked| ==> Relocation.KeyOf(r.clicked[m].onclick) == key)
      && (key.None? ==> forall m :: 0 <= m < |r.clicked| ==> r.clicked[m] == b)
  {
    var key := Relocation.KeyOf(b.onclick);
    ReadingsRelocateBy(env, lookup, key, i);
    AttemptsKeepMark(retries, Readings(env, lookup, key), i, lookup, key, b, []);
    assert TryButton(lookup, retries, env, i, b) == Attempts(retries, Readings(env, lookup, key), i, key, b, []);
  }

  /** The attempt loop on a button, read back in terms of the raw
      observations: a retry only follows a rejection and a recovery wait
      that reached the page; an exhausted button was rejected on its last
      allowed click; a counted button's last click was not rejected. */
  lemma TryButtonFacts(lookup: Lookup, retries: int, env: (nat, nat) -> AttemptObs, i: nat, b: Button)
    ensures var r := TryButton(lookup, retries, env, i, b);
      && (forall m :: 0 <= m < |r.clicked| - 1 ==> Retried(env, i, m))
      && (r.fate == Exhausted && retries >= 0 ==> Retried(env, i, retries as nat))
      && (r.fate == Counted ==>
            |r.clicked| > 0 && Dialog.Detect(env(i, |r.clicked| - 1).dialog) != Dialog.VerificationFailed)
  {
    var key := Relocation.KeyOf(b.onclick);
    var rds := Readings(env, lookup, key);
    var r := Attempts(retries, rds, i, key, b, []);
    AttemptsRetryOnlyAfterRecovery(retries, rds, i, key, b, []);
    forall m | 0 <= m < |r.clicked| - 1
      ensures Retried(env, i, m)
    {
      ReadingOf(env, lookup, key, i, m);
    }
    if r.fate == Exhausted && retries >= 0 {
      assert |r.clicked| == retries + 1;
      ReadingOf(env, lookup, key, i, retries as nat);
    }
    AttemptsEndOnLastTurn(retries, rds, i, key, b, []);
    if r.fate == Counted {
      ReadingOf(env, lookup, key, i, |r.clicked| - 1);
    }
  }

  /** A button whose call has a space after the comma, rejected once and
      then still on the page after a good recovery: the source's selector
      cannot find it and gives it up, while the lookup by key clicks it again
      and counts it. */
  lemma SpacedButtonAbandoned(retries: int, env: (nat, nat) -> AttemptObs, b: Button)
    requires retries >= 1 && b.onclick == "Step3Action(1, 2)"
    requires Retried(env, 0, 0) && env(0, 0).pageAfter == [b]
    requires !env(0, 1).clickFault && Dialog.Detect(env(0, 1).dialog) != Dialog.VerificationFailed
    ensures TryButton(AsWritten, retries, env, 0, b) == ButtonRun(Abandoned(NotRelocated), [b])
    ensures TryButton(ByKey, retries, env, 0, b) == ButtonRun(Counted, [b, b])
  {
    Relocation.SpacedCallLostAsWritten();
    var key := Relocation.KeyOf(b.onclick);
    assert Onclicks([b]) == ["Step3Action(1, 2)"];
    var rw, rk := Readings(env, AsWritten, key), Readings(env, ByKey, key);
    ReadingOf(env, AsWritten, key, 0, 0);
    ReadingOf(env, ByKey, key, 0, 0);
    ReadingOf(env, ByKey, key, 0, 1);
    assert rw(0, 0).relocated == None by {
      assert rw(0, 0) == ReadAttempt(env(0, 0), AsWritten, key);
    }
    assert rk(0, 0).relocated == Some(b) by {
      assert rk(0, 0) == ReadAttempt(env(0, 0), ByKey, key);
    }
    ReadingsFirstSecond(retries, rw, rk, key, b);
  }

  /** The two runs of the counterexample, on the readings alone. */
  lemma ReadingsFirstSecond(retries: int, rw: (nat, nat) -> Reading, rk: (nat, nat) -> Reading,
                            key: Option<Relocation.Key>, b: Button)
    requires retries >= 1 && key.Some?
    requires Recovered(rw(0, 0)) && rw(0, 0).relocated == None
    requires Recovered(rk(0, 0)) && rk(0, 0).relocated == Some(b)
    requires !rk(0, 1).clickFault && rk(0, 1).status != Dialog.VerificationFailed
    ensures Attempts(retries, rw, 0, key, b, []) == ButtonRun(Abandoned(NotRelocated), [b])
    ensures Attempts(retries, rk, 0, key, b, []) == ButtonRun(Counted, [b, b])
  {
    assert AttemptTurn(rk(0, 0), key, b) == Again(b);
    assert Attempts(retries, rk, 0, key, b, [b]) == ButtonRun(Counted, [b, b]);
  }

  /** Every button after a recovery is written as a compact call. */
  predicate CompactPage(page: seq<Button>)
  {
    forall j :: 0 <= j < |page| ==> Relocation.Compact(page[j].onclick)
  }

  /** When every page after a recovery holds compact calls only, the two
      lookups give every button the same attempts. */
  lemma TryButtonLookupsAgree(retries: int, env: (nat, nat) -> AttemptObs, i: nat, b: Button)
    requires forall m: nat :: CompactPage(env(i, m).pageAfter)
    ensures TryButton(AsWritten, retries, env, i, b) == TryButton(ByKey, retries, env, i, b)
  {
    var key := Relocation.KeyOf(b.onclick);
    forall m: nat
      ensures Readings(env, AsWritten, key)(i, m) == Readings(env, ByKey, key)(i, m)
    {
      var page := env(i, m).pageAfter;
      if key.Some? {
        Relocation.CompactLookupsAgree(key.value, Onclicks(page));
      }
      assert Refind(AsWritten, key, page) == Refind(ByKey, key, page);
    }
    AttemptsAgree(retries, Readings(env, AsWritten, key), Readings(env, ByKey, key), i, key, b, []);
  }

  function CountCounted(runs: seq<ButtonRun>): (n: nat)
    ensures n <= |runs|
  {
    if runs == [] then 0
    else (if runs[0].fate == Counted then 1 else 0) + CountCounted(runs[1..])
  }

  lemma CountCountedPrepend(r: ButtonRun, rs: seq<ButtonRun>, k: nat)
    requires 0 < k <= |rs| + 1
    ensures CountCounted(([r] + rs)[..k]) == (if r.fate == Counted then 1 else 0) + CountCounted(rs[..k - 1])
  {
    assert ([r] + rs)[..k] == [r] + rs[..k - 1];
    assert ([r] + rs[..k - 1])[1..] == rs[..k - 1];
  }

  lemma CountCountedNone(runs: seq<ButtonRun>)
    requires forall k :: 0 <= k < |runs| ==> runs[k].fate != Counted
    ensures CountCounted(runs) == 0
  {
  }

  /** The filter's verdict on each button found. */
  function FilterVerdicts(f: Filter, imgs: seq<Button>): (passes: seq<bool>)
    ensures |passes| == |imgs|
    ensures forall k :: 0 <= k < |imgs| ==> passes[k] == Eligible(f, imgs[k])
  {
    seq(|imgs|, k requires 0 <= k < |imgs| => Eligible(f, imgs[k]))
  }

  /** The attempts on each button, as they go if the loop reaches it. */
  function Tries(lookup: Lookup, retries: int, imgs: seq<Button>, env: (nat, nat) -> AttemptObs): (tries: seq<ButtonRun>)
    ensures |tries| == |imgs|
    ensures forall k :: 0 <= k < |imgs| ==> tries[k] == TryButton(lookup, retries, env, k, imgs[k])
  {
    seq(|imgs|, k requires 0 <= k < |imgs| => TryButton(lookup, retries, env, k, imgs[k]))
  }

  /** The `for img in imgs` loop from button `i` on, with `count` buttons
      counted so far; `passes` holds the filter's verdict on each button and
      `tries` what trying it would give. */
  function ClickFrom(passes: seq<bool>, tries: seq<ButtonRun>, maxClick: int, i: nat, count: nat): (r: PageRun)
    requires |passes| == |tries| && i <= |tries|
    ensures |r.runs| == |tries| - i
    ensures r.count == count + CountCounted(r.runs)
    ensures r.count <= (if (count as int) < maxClick then maxClick else count)
    // a reached button is tried when it passes the filter and skipped otherwise
    ensures forall k :: 0 <= k < |r.runs| ==>
              || r.runs[k] == ButtonRun(NotReached, [])
              || r.runs[k] == (if passes[i + k] then tries[i + k] else ButtonRun(Skipped, []))
    decreases |tries| - i
  {
    if i == |tries| then PageRun(count, [])
    else if count as int >= maxClick then
      var runs := seq(|tries| - i, _ => ButtonRun(NotReached, []));
      CountCountedNone(runs);
      PageRun(count, runs)
    else
      var br := if passes[i] then tries[i] else ButtonRun(Skipped, []);
      var c := count + (if br.fate == Counted then 1 else 0);
      var rest := ClickFrom(passes, tries, maxClick, i + 1, c);
      var runs := [br] + rest.runs;
      assert runs[1..] == rest.runs;
      PageRun(rest.count, runs)
  }

  /** A button is left unreached only when the buttons before it already
      brought the count to `max_click`. */
  lemma {:induction false} StopsOnlyAtMaxClick(passes: seq<bool>, tries: seq<ButtonRun>, maxClick: int, i: nat, count: nat, k: nat)
    requires |passes| == |tries| && i <= |tries| && k < |tries| - i
    requires forall j :: i <= j < |tries| ==> tries[j].fate != NotReached
    requires ClickFrom(passes, tries, maxClick, i, count).runs[k].fate == NotReached
    ensures count + CountCounted(ClickFrom(passes, tries, maxClick, i, count).runs[..k]) >= maxClick
    decreases |tries| - i
  {
    var r := ClickFrom(passes, tries, maxClick, i, count);
    if count as int >= maxClick {
      CountCountedNone(r.runs[..k]);
    } else {
      var br := r.runs[0];
      var c := count + (if br.fate == Counted then 1 else 0);
      var rest := ClickFrom(passes, tries, maxClick, i + 1, c);
      assert r.runs == [br] + rest.runs;
      if k > 0 {
        StopsOnlyAtMaxClick(passes, tries, maxClick, i + 1, c, k - 1);
        CountCountedPrepend(br, rest.runs, k);
      }
    }
  }

  /** `click_all_bookings_on_page`, with eligible buttons relocated by
      `lookup` after a recovery. */
  function ClickAll(lookup: Lookup, f: Filter, maxClick: int, retries: int, imgs: seq<Button>,
                    env: (nat, nat) -> AttemptObs): (r: PageRun)
    ensures |r.runs| == |imgs|
    // the count is the number of buttons that ended counted: each counts at most once
    ensures r.count == CountCounted(r.runs)
    ensures r.count <= |imgs|
    ensures r.count <= (if maxClick < 0 then 0 else maxClick)
    // ineligible buttons are never clicked, eligible reached ones are tried
    ensures forall k :: 0 <= k < |imgs| && r.runs[k].fate != NotReached ==>
              (r.runs[k].fate == Skipped <==> !Eligible(f, imgs[k]))
    ensures forall k :: 0 <= k < |imgs| && (r.runs[k].fate == Skipped || r.runs[k].fate == NotReached) ==>
              r.runs[k].clicked == []
    ensures forall k :: 0 <= k < |imgs| && r.runs[k].fate != NotReached && r.runs[k].fate != Skipped ==>
              r.runs[k] == TryButton(lookup, retries, env, k, imgs[k])
  {
    ClickFrom(FilterVerdicts(f, imgs), Tries(lookup, retries, imgs, env), maxClick, 0, 0)
  }

  /** Buttons are left unreached only once `max_click` buttons before them
      have been counted. */
  lemma UnreachedOnlyAfterMaxClick(lookup: Lookup, f: Filter, maxClick: int, retries: int, imgs: seq<Button>,
                                   env: (nat, nat) -> AttemptObs, k: nat)
    requires k < |imgs| && ClickAll(lookup, f, maxClick, retries, imgs, env).runs[k].fate == NotReached
    ensures CountCounted(ClickAll(lookup, f, maxClick, retries, imgs, env).runs[..k]) >= maxClick
  {
    StopsOnlyAtMaxClick(FilterVerdicts(f, imgs), Tries(lookup, retries, imgs, env), maxClick, 0, 0, k);
  }

  /** Every button is clicked at most `cf_fail_retries + 1` times, and a
      button is counted only when it passed the filter and its last click
      was not rejected. */
  lemma AttemptBound(lookup: Lookup, f: Filter, maxClick: int, retries: int, imgs: seq<Button>,
                     env: (nat, nat) -> AttemptObs, k: nat)
    requires k < |imgs|
    ensures |ClickAll(lookup, f, maxClick, retries, imgs, env).runs[k].clicked| <= (if retries < 0 then 0 else retries + 1)
    ensures var run := ClickAll(lookup, f, maxClick, retries, imgs, env).runs[k];
      run.fate == Counted ==>
        && Eligible(f, imgs[k])
        && Dialog.Detect(env(k, |run.clicked| - 1).dialog) != Dialog.VerificationFailed
  {
    TryButtonFacts(lookup, retries, env, k, imgs[k]);
  }

  /** With a negative budget the attempt loop never runs, so nothing is
      clicked or counted. */
  lemma NegativeBudgetClicksNothing(lookup: Lookup, f: Filter, maxClick: int, retries: int, imgs: seq<Button>,
                                    env: (nat, nat) -> AttemptObs)
    requires retries < 0
    ensures ClickAll(lookup, f, maxClick, retries, imgs, env).count == 0
  {
    var r := ClickAll(lookup, f, maxClick, retries, imgs, env);
    assert forall k :: 0 <= k < |imgs| ==> r.runs[k].fate != Counted;
    CountCountedNone(r.runs);
  }

  /** The recovery wait after a rejected click performs at most three
      recoveries, whatever retry budget the caller configured. */
  lemma RecoveryBudgetIsFixed(o: AttemptObs)
    ensures |Waiter.Wait(RecoveryParams(o.currentUrl), o.recovery).recoveries| <= 3
  {
  }

  /** When every page after a recovery holds compact calls only, the
      source's selector and the lookup by key give the same pass. */
  lemma ClickAllLookupsAgree(f: Filter, maxClick: int, retries: int, imgs: seq<Button>,
                             env: (nat, nat) -> AttemptObs)
    requires forall i: nat, m: nat :: CompactPage(env(i, m).pageAfter)
    ensures ClickAll(AsWritten, f, maxClick, retries, imgs, env) == ClickAll(ByKey, f, maxClick, retries, imgs, env)
  {
    forall k | 0 <= k < |imgs|
      ensures TryButton(AsWritten, retries, env, k, imgs[k]) == TryButton(ByKey, retries, env, k, imgs[k])
    {
      TryButtonLookupsAgree(retries, env, k, imgs[k]);
    }
    assert Tries(AsWritten, retries, imgs, env) == Tries(ByKey, retries, imgs, env);
  }
}
