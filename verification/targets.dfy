/** `booking.build_urls`: one booking page per (date, D2 slot) pair. */
module Targets {
  import opened Text

  /** `BASE_URL` up to its `{date}` placeholder. */
  const BaseUrlHead: string := "https://resortbooking.metro.taipei/MT02.aspx?module=net_booking&files=booking_place&StepFlag=2&PT=1&D="

  /** `BASE_URL.format(date=date, d2=d2)`. */
  function PageUrl(date: string, d2: nat): string
  {
    BaseUrlHead + date + "&D2=" + NatToString(d2)
  }

  /** The pages of one date, in slot order. */
  function DateRow(date: string, d2s: seq<nat>): (row: seq<string>)
    ensures |row| == |d2s|
    ensures forall j :: 0 <= j < |d2s| ==> row[j] == PageUrl(date, d2s[j])
  {
    seq(|d2s|, j requires 0 <= j < |d2s| => PageUrl(date, d2s[j]))
  }

  /** `[BASE_URL.format(date=d, d2=d2) for d in dates for d2 in d2_list]`. */
  function BuildUrls(dates: seq<string>, d2s: seq<nat>): (urls: seq<string>)
    ensures |urls| == |dates| * |d2s|
  {
    if dates == [] then []
    else DateRow(dates[0], d2s) + BuildUrls(dates[1..], d2s)
  }

  /** Date-major, slot-minor: the page for date `i` and slot `j` sits at
      index `i * |d2s| + j`. */
  lemma {:induction false} BuildUrlsOrder(dates: seq<string>, d2s: seq<nat>, i: nat, j: nat)
    requires i < |dates| && j < |d2s|
    ensures i * |d2s| + j < |BuildUrls(dates, d2s)|
    ensures BuildUrls(dates, d2s)[i * |d2s| + j] == PageUrl(dates[i], d2s[j])
    decreases i
  {
    var n := |d2s|;
    var urls := BuildUrls(dates, d2s);
    var rest := BuildUrls(dates[1..], d2s);
    assert urls == DateRow(dates[0], d2s) + rest;
    if i > 0 {
      BuildUrlsOrder(dates[1..], d2s, i - 1, j);
      assert i * n + j == n + ((i - 1) * n + j);
      assert urls[i * n + j] == rest[(i - 1) * n + j];
    } else {
      assert 0 * n + j == j;
    }
  }

  /** Multiplying by a natural keeps `<=`. */
  lemma {:induction false} MulMonotone(a: nat, b: nat, n: nat)
    requires a <= b
    ensures a * n <= b * n
    decreases b - a
  {
    if a < b {
      MulMonotone(a, b - 1, n);
      assert b * n == (b - 1) * n + n;
    }
  }

  /** Each page of the list belongs to exactly one (date, slot) pair: index
      `k` is date `k / |d2s|`, slot `k % |d2s|`. */
  lemma {:induction false} UrlAtIndex(dates: seq<string>, d2s: seq<nat>, k: nat)
    requires k < |BuildUrls(dates, d2s)|
    ensures |d2s| > 0 && k / |d2s| < |dates|
    ensures BuildUrls(dates, d2s)[k] == PageUrl(dates[k / |d2s|], d2s[k % |d2s|])
  {
    var n := |d2s|;
    DivBelow(k, n, |dates|);
    BuildUrlsOrder(dates, d2s, k / n, k % n);
  }

  /** An index below `m * n` is row `k / n`, column `k % n` of an `m` by
      `n` grid. */
  lemma DivBelow(k: nat, n: nat, m: nat)
    requires k < m * n
    ensures n > 0 && k / n < m && k % n < n && k == (k / n) * n + k % n
  {
    var i := k / n;
    if m <= i {
      MulMonotone(m, i, n);
      assert false;
    }
  }
}
