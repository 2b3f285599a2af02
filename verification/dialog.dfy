/** `booking._handle_confirm_and_detect_cf_fail`: what the page showed right
    after a booking click.

    The browser is not modelled; the observation says whether a JavaScript
    alert was read and accepted, and what the SweetAlert2 popup showed: its
    title and body texts and whether it has a confirm button, or that
    reading it raised. */
module Dialog {
  import opened Text

  datatype Popup =
    | Unreadable
    | Popup(titles: seq<string>, bodies: seq<string>, confirmButton: bool)

  datatype DialogObs = DialogObs(alertAccepted: bool, popup: Popup)

  /** `'ok'`, `'cf_fail'` and `'none'`. */
  datatype DialogStatus = Accepted | VerificationFailed | NoDialog

  const FailedZh: string := "驗證失敗"
  const ReverifyZh: string := "重新驗證"
  const FailedEn: string := "verification failed"

  /** `" ".join(...).strip()` over the titles followed by the bodies. */
  function PopupText(titles: seq<string>, bodies: seq<string>): string
  {
    Strip(Join(titles + bodies, ' '))
  }

  /** The wording the host uses when a click was rejected by verification. */
  predicate FailureWording(text: string)
  {
    Contains(text, FailedZh) || Contains(text, ReverifyZh) || Contains(Lower(text), FailedEn)
  }

  /** The verdict on one post-click observation. */
  function Detect(d: DialogObs): (st: DialogStatus)
    // an accepted alert settles it before the popup is read
    ensures d.alertAccepted ==> st == Accepted
    ensures st == VerificationFailed <==>
              !d.alertAccepted && d.popup.Popup? && FailureWording(PopupText(d.popup.titles, d.popup.bodies))
    ensures st == Accepted <==>
              d.alertAccepted
              || (d.popup.Popup? && d.popup.confirmButton
                  && !FailureWording(PopupText(d.popup.titles, d.popup.bodies)))
    // a popup that could not be read never counts as a rejection
    ensures !d.alertAccepted && d.popup.Unreadable? ==> st == NoDialog
  {
    if d.alertAccepted then Accepted
    else match d.popup
      case Unreadable => NoDialog
      case Popup(titles, bodies, confirm) =>
        var text := PopupText(titles, bodies);
        if text != "" && FailureWording(text) then VerificationFailed
        else if confirm then Accepted
        else NoDialog
  }

  /** Every piece of a joined text sits inside it whole. */
  lemma {:induction false} JoinSurrounds(parts: seq<string>, k: nat, sep: char)
    requires k < |parts|
    ensures exists a: string, b: string :: Join(parts, sep) == a + parts[k] + b
    decreases |parts|
  {
    var last := |parts| - 1;
    if |parts| == 1 {
      assert Join(parts, sep) == "" + parts[k] + "";
    } else if k == last {
      assert Join(parts, sep) == (Join(parts[..last], sep) + [sep]) + parts[k] + "";
    } else {
      JoinSurrounds(parts[..last], k, sep);
      var a: string, b: string :| Join(parts[..last], sep) == a + parts[..last][k] + b;
      assert Join(parts, sep) == a + parts[k] + (b + [sep] + parts[last]);
    }
  }

  /** Skipping spaces is blind to case mapping. */
  lemma {:induction false} SkipSpacesLower(s: string, i: nat)
    requires i <= |s|
    ensures SkipSpaces(Lower(s), i) == SkipSpaces(s, i)
    decreases |s| - i
  {
    if i < |s| && IsSpace(s[i]) {
      SkipSpacesLower(s, i + 1);
    }
  }

  lemma {:induction false} BackSpacesLower(s: string, lo: nat, j: nat)
    requires lo <= j <= |s|
    ensures BackSpaces(Lower(s), lo, j) == BackSpaces(s, lo, j)
    decreases j - lo
  {
    if j > lo && IsSpace(s[j - 1]) {
      BackSpacesLower(s, lo, j - 1);
    }
  }

  /** Lower-casing and stripping commute. */
  lemma LowerStrip(s: string)
    ensures Lower(Strip(s)) == Strip(Lower(s))
  {
    SkipSpacesLower(s, 0);
    var lo := SkipSpaces(s, 0);
    BackSpacesLower(s, lo, |s|);
  }

  /** A word with no surrounding spaces found in one piece is found in the
      stripped, joined text. */
  lemma {:induction false} WordSurvivesJoin(parts: seq<string>, k: nat, w: string)
    requires k < |parts|
    requires w != "" && !IsSpace(w[0]) && !IsSpace(w[|w| - 1])
    requires Contains(parts[k], w)
    ensures Contains(Strip(Join(parts, ' ')), w)
  {
    JoinSurrounds(parts, k, ' ');
    var a: string, b: string :| Join(parts, ' ') == a + parts[k] + b;
    ContainsInContext(a, parts[k], b, w);
    ContainsSurvivesStrip(Join(parts, ' '), w);
  }

  /** Lower-casing works letter by letter, so it distributes over joins. */
  lemma LowerConcat(a: string, s: string, b: string)
    ensures Lower(a + s + b) == Lower(a) + Lower(s) + Lower(b)
  {
  }

  /** The same for a word looked up case-insensitively. */
  lemma {:induction false} LowerWordSurvivesJoin(parts: seq<string>, k: nat, w: string)
    requires k < |parts|
    requires w != "" && !IsSpace(w[0]) && !IsSpace(w[|w| - 1])
    requires Contains(Lower(parts[k]), w)
    ensures Contains(Lower(Strip(Join(parts, ' '))), w)
  {
    var joined := Join(parts, ' ');
    JoinSurrounds(parts, k, ' ');
    var a: string, b: string :| joined == a + parts[k] + b;
    assert Contains(Lower(joined), w) by {
      LowerConcat(a, parts[k], b);
      ContainsInContext(Lower(a), Lower(parts[k]), Lower(b), w);
    }
    assert Contains(Strip(Lower(joined)), w) by {
      ContainsSurvivesStrip(Lower(joined), w);
    }
    LowerStrip(joined);
  }

  /** If any title or body carries the failure wording, and no alert came
      first, the click is reported as rejected by verification. */
  lemma WordingInAnyPart(titles: seq<string>, bodies: seq<string>, confirm: bool, k: nat)
    requires k < |titles + bodies|
    requires var part := (titles + bodies)[k];
      Contains(part, FailedZh) || Contains(part, ReverifyZh) || Contains(Lower(part), FailedEn)
    ensures Detect(DialogObs(false, Popup(titles, bodies, confirm))) == VerificationFailed
  {
    var parts := titles + bodies;
    var text := PopupText(titles, bodies);
    if Contains(parts[k], FailedZh) {
      WordSurvivesJoin(parts, k, FailedZh);
      assert text != "";
    } else if Contains(parts[k], ReverifyZh) {
      WordSurvivesJoin(parts, k, ReverifyZh);
      assert text != "";
    } else {
      LowerWordSurvivesJoin(parts, k, FailedEn);
      assert |Lower(text)| > 0;
    }
  }
}
