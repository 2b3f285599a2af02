/** The Cloudflare state classifier of `browser_cf.get_cf_state`.

    The page is never read here: each of the seven element lookups the
    classifier performs is an observation that either found nothing, found
    a match, or raised. The lookups run in a fixed order and the first one
    that finds a match decides the state; a lookup that raises ends the
    inspection with `none`. */
module Classifier {

  /** The four states the classifier reports. `NoSignal` is the source's
      `'none'`. */
  datatype CfState = Gate | Success | Fail | NoSignal

  /** The outcome of one element lookup. */
  datatype Probe = Absent | Present | Raised

  /** What the seven lookups observed, in the order the classifier makes
      them. */
  datatype PageSignals = PageSignals(
    blockText: Probe,      // text 'Error 1020', 'error code: 1020', 'Access denied' or 已封鎖
    errorDetails: Probe,   // an element with class cf-error or id cf-error-details
    checkingText: Probe,   // text 'Checking your browser', 檢查您的瀏覽器, 正在驗證 or 請稍候
    challengeForm: Probe,  // challenge-stage, cf-browser-verification, challenge-form or challenge-platform
    turnstile: Probe,      // an iframe whose src mentions turnstile
    successBanner: Probe,  // text with 成功 and cloudflare (case-folded)
    verifiedBanner: Probe  // text with 驗證完成 and cloudflare (case-folded)
  )

  /** The lookups in source order, each paired with the state it reports
      when it finds a match. */
  function Rules(s: PageSignals): (rs: seq<(Probe, CfState)>)
    ensures |rs| == 7
    ensures forall k :: 0 <= k < |rs| ==> rs[k].1 != NoSignal
  {
    [ (s.blockText, Fail), (s.errorDetails, Fail),
      (s.checkingText, Gate), (s.challengeForm, Gate), (s.turnstile, Gate),
      (s.successBanner, Success), (s.verifiedBanner, Success) ]
  }

  /** Rule `k` is the first one that did not come back empty. */
  predicate FirstNonAbsent(rs: seq<(Probe, CfState)>, k: nat)
  {
    k < |rs| && rs[k].0 != Absent && forall j :: 0 <= j < k ==> rs[j].0 == Absent
  }

  /** Runs the rules in order: the first match decides, a raised lookup
      yields `NoSignal`, and so does running out of rules. */
  function FirstVerdict(rs: seq<(Probe, CfState)>): (st: CfState)
    requires forall k :: 0 <= k < |rs| ==> rs[k].1 != NoSignal
    ensures st != NoSignal <==> exists k: nat :: FirstNonAbsent(rs, k) && rs[k].0 == Present
    ensures forall k: nat :: FirstNonAbsent(rs, k) && rs[k].0 == Present ==> st == rs[k].1
  {
    if rs == [] then NoSignal
    else match rs[0].0
      case Present =>
        assert FirstNonAbsent(rs, 0);
        rs[0].1
      case Raised =>
        assert FirstNonAbsent(rs, 0);
        NoSignal
      case Absent =>
        var st := FirstVerdict(rs[1..]);
        assert forall k: nat :: FirstNonAbsent(rs, k + 1) <==> FirstNonAbsent(rs[1..], k);
        assert forall k: nat :: FirstNonAbsent(rs, k) ==> k >= 1;
        st
  }

  /** `get_cf_state`. */
  function Classify(s: PageSignals): (st: CfState)
    ensures st == Fail <==> exists k: nat :: k < 2 && FirstNonAbsent(Rules(s), k) && Rules(s)[k].0 == Present
    ensures st == Gate <==> exists k: nat :: 2 <= k < 5 && FirstNonAbsent(Rules(s), k) && Rules(s)[k].0 == Present
    ensures st == Success <==> exists k: nat :: 5 <= k < 7 && FirstNonAbsent(Rules(s), k) && Rules(s)[k].0 == Present
  {
    FirstVerdict(Rules(s))
  }

  /** No lookup raised. */
  predicate Inspectable(s: PageSignals)
  {
    forall k :: 0 <= k < 7 ==> Rules(s)[k].0 != Raised
  }

  predicate FailSeen(s: PageSignals)
  {
    s.blockText == Present || s.errorDetails == Present
  }

  predicate GateSeen(s: PageSignals)
  {
    s.checkingText == Present || s.challengeForm == Present || s.turnstile == Present
  }

  predicate SuccessSeen(s: PageSignals)
  {
    s.successBanner == Present || s.verifiedBanner == Present
  }

  /** On a page that could be inspected, a fail signal wins over everything,
      a gate signal over a success banner, and with no signal the state is
      `none`. */
  lemma PriorityOrder(s: PageSignals)
    requires Inspectable(s)
    ensures Classify(s) == Fail <==> FailSeen(s)
    ensures Classify(s) == Gate <==> !FailSeen(s) && GateSeen(s)
    ensures Classify(s) == Success <==> !FailSeen(s) && !GateSeen(s) && SuccessSeen(s)
    ensures Classify(s) == NoSignal <==> !FailSeen(s) && !GateSeen(s) && !SuccessSeen(s)
  {
    if s.blockText == Present {
      MatchBeforeErrorDecides(s, 0);
    } else if s.errorDetails == Present {
      MatchBeforeErrorDecides(s, 1);
    } else if s.checkingText == Present {
      MatchBeforeErrorDecides(s, 2);
    } else if s.challengeForm == Present {
      MatchBeforeErrorDecides(s, 3);
    } else if s.turnstile == Present {
      MatchBeforeErrorDecides(s, 4);
    } else if s.successBanner == Present {
      MatchBeforeErrorDecides(s, 5);
    } else if s.verifiedBanner == Present {
      MatchBeforeErrorDecides(s, 6);
    } else {
      assert forall k :: 0 <= k < 7 ==> Rules(s)[k].0 == Absent;
    }
  }

  /** A lookup that raises before any lookup has matched makes the state
      `none`, whatever the later lookups would have found. */
  lemma InspectionErrorIsNone(s: PageSignals, k: nat)
    requires k < 7 && Rules(s)[k].0 == Raised
    requires forall j :: 0 <= j < k ==> Rules(s)[j].0 == Absent
    ensures Classify(s) == NoSignal
  {
    assert FirstNonAbsent(Rules(s), k);
  }

  /** A lookup that matches before anything raised decides the state, even if
      a later lookup would have raised. */
  lemma MatchBeforeErrorDecides(s: PageSignals, k: nat)
    requires k < 7 && Rules(s)[k].0 == Present
    requires forall j :: 0 <= j < k ==> Rules(s)[j].0 == Absent
    ensures Classify(s) == Rules(s)[k].1
  {
    assert FirstNonAbsent(Rules(s), k);
  }
}
