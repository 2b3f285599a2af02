/** The handful of Python `str` operations the bot relies on, stated over
    `seq<char>`: whitespace stripping, ASCII case mapping, substring search,
    code-point ordering, decimal digits, and splitting on one separator. */
module Text {

  /** Python's `str.isspace()` (also the `\s` class of a `str` regex). */
  predicate IsSpace(c: char)
  {
    var n := c as int;
    || 9 <= n <= 13 || 28 <= n <= 32 || n == 0x85 || n == 0xA0 || n == 0x1680
    || 0x2000 <= n <= 0x200A || n == 0x2028 || n == 0x2029 || n == 0x202F
    || n == 0x205F || n == 0x3000
  }

  predicate AllSpace(s: string)
  {
    forall k :: 0 <= k < |s| ==> IsSpace(s[k])
  }

  /** Index of the first non-space at or after `i` (or `|s|`). */
  function SkipSpaces(s: string, i: nat): (j: nat)
    requires i <= |s|
    ensures i <= j <= |s|
    ensures forall k :: i <= k < j ==> IsSpace(s[k])
    ensures j < |s| ==> !IsSpace(s[j])
    decreases |s| - i
  {
    if i == |s| || !IsSpace(s[i]) then i else SkipSpaces(s, i + 1)
  }

  /** Walking left from `j` but not below `lo`, the start of the run of
      spaces that ends at `j`. */
  function BackSpaces(s: string, lo: nat, j: nat): (i: nat)
    requires lo <= j <= |s|
    ensures lo <= i <= j
    ensures forall k :: i <= k < j ==> IsSpace(s[k])
    ensures i > lo ==> !IsSpace(s[i - 1])
    decreases j - lo
  {
    if j == lo || !IsSpace(s[j - 1]) then j else BackSpaces(s, lo, j - 1)
  }

  /** Python's `str.strip()` with no argument. */
  function Strip(s: string): (r: string)
    ensures |r| <= |s|
    ensures r == "" <==> AllSpace(s)
    ensures r != "" ==> !IsSpace(r[0]) && !IsSpace(r[|r| - 1])
  {
    var lo := SkipSpaces(s, 0);
    var hi := BackSpaces(s, lo, |s|);
    assert lo < |s| ==> hi > lo;
    s[lo..hi]
  }

  /** Strip only removes surrounding spaces: the kept text sits between a
      run of leading spaces and a run of trailing spaces. */
  lemma StripShape(s: string)
    ensures exists lo: nat, hi: nat ::
              (lo <= hi <= |s| && Strip(s) == s[lo..hi] && AllSpace(s[..lo]) && AllSpace(s[hi..]))
  {
    var lo := SkipSpaces(s, 0);
    var hi := BackSpaces(s, lo, |s|);
    assert AllSpace(s[..lo]);
    assert AllSpace(s[hi..]);
  }

  /** A string without surrounding spaces is left unchanged. */
  lemma StripFixed(s: string)
    requires s == "" || (!IsSpace(s[0]) && !IsSpace(s[|s| - 1]))
    ensures Strip(s) == s
  {
    if s != "" {
      var lo := SkipSpaces(s, 0);
      assert lo == 0;
      var hi := BackSpaces(s, lo, |s|);
      assert hi == |s|;
    }
  }

  /** Stripping twice is stripping once. */
  lemma StripIdempotent(s: string)
    ensures Strip(Strip(s)) == Strip(s)
  {
    StripFixed(Strip(s));
  }

  /** `p` occurs in `s` starting at index `i`. */
  predicate OccursAt(s: string, p: string, i: nat)
  {
    i + |p| <= |s| && s[i..i + |p|] == p
  }

  /** Python's `p in s` for strings. */
  predicate Contains(s: string, p: string)
  {
    exists i: nat :: i <= |s| && OccursAt(s, p, i)
  }

  /** An occurrence of a word whose first and last characters are not spaces
      survives stripping. */
  lemma {:induction false} ContainsSurvivesStrip(s: string, p: string)
    requires p != "" && !IsSpace(p[0]) && !IsSpace(p[|p| - 1])
    requires Contains(s, p)
    ensures Contains(Strip(s), p)
  {
    var i: nat :| i <= |s| && OccursAt(s, p, i);
    var lo := SkipSpaces(s, 0);
    var hi := BackSpaces(s, lo, |s|);
    assert s[i] == p[0];
    assert s[i + |p| - 1] == p[|p| - 1];
    assert lo <= i;
    assert i + |p| <= hi;
    var r := s[lo..hi];
    assert forall k :: i - lo <= k < i - lo + |p| ==> r[k] == s[lo + k];
    assert r[i - lo..i - lo + |p|] == s[i..i + |p|];
    assert OccursAt(r, p, i - lo);
  }

  /** An occurrence inside one piece is an occurrence in any text the piece
      is embedded in. */
  lemma ContainsInContext(a: string, s: string, b: string, p: string)
    requires Contains(s, p)
    ensures Contains(a + s + b, p)
  {
    var i: nat :| i <= |s| && OccursAt(s, p, i);
    var t := a + s + b;
    assert t[|a| + i..|a| + i + |p|] == s[i..i + |p|];
    assert OccursAt(t, p, |a| + i);
  }

  /** Python's `str.lower()` restricted to ASCII letters. */
  function LowerChar(c: char): char
  {
    if 'A' <= c <= 'Z' then (c as int + 32) as char else c
  }

  /** Python's `str.upper()` restricted to ASCII letters. */
  function UpperChar(c: char): char
  {
    if 'a' <= c <= 'z' then (c as int - 32) as char else c
  }

  function Lower(s: string): (r: string)
    ensures |r| == |s|
    ensures forall k :: 0 <= k < |s| ==> r[k] == LowerChar(s[k])
  {
    seq(|s|, k requires 0 <= k < |s| => LowerChar(s[k]))
  }

  function Upper(s: string): (r: string)
    ensures |r| == |s|
    ensures forall k :: 0 <= k < |s| ==> r[k] == UpperChar(s[k])
  {
    seq(|s|, k requires 0 <= k < |s| => UpperChar(s[k]))
  }

  /** Case mapping keeps occurrences: if `p` is in `s`, then `lower(p)` is
      in `lower(s)`. */
  lemma ContainsLower(s: string, p: string)
    requires Contains(s, p)
    ensures Contains(Lower(s), Lower(p))
  {
    var i: nat :| i <= |s| && OccursAt(s, p, i);
    assert Lower(s)[i..i + |p|] == Lower(p);
    assert OccursAt(Lower(s), Lower(p), i);
  }

  /** Python's `a < b` on strings: code-point lexicographic order. */
  predicate LexLess(a: string, b: string)
  {
    if b == "" then false
    else if a == "" then true
    else if a[0] != b[0] then a[0] < b[0]
    else LexLess(a[1..], b[1..])
  }

  /** Python's string order is a strict total order: exactly one of `a < b`,
      `a == b`, `b < a` holds. */
  lemma {:induction false} LexTrichotomy(a: string, b: string)
    ensures LexLess(a, b) || a == b || LexLess(b, a)
    ensures !(LexLess(a, b) && LexLess(b, a))
    ensures !LexLess(a, a)
  {
    if a != "" && b != "" && a[0] == b[0] {
      LexTrichotomy(a[1..], b[1..]);
      if a[1..] == b[1..] {
        assert a == [a[0]] + a[1..] && b == [b[0]] + b[1..];
      }
      LexTrichotomy(a[1..], a[1..]);
    } else if a != "" {
      LexTrichotomy(a[1..], a[1..]);
    }
  }

  /** `not (a < b)` is `b <= a`: the form the time filter's guards take. */
  lemma NotLessIsAtLeast(a: string, b: string)
    ensures !LexLess(a, b) <==> (LexLess(b, a) || a == b)
  {
    LexTrichotomy(a, b);
  }

  predicate IsDigit(c: char)
  {
    '0' <= c <= '9'
  }

  predicate AllDigits(s: string)
  {
    forall k :: 0 <= k < |s| ==> IsDigit(s[k])
  }

  /** Python's `int()` of a string of ASCII digits. */
  function DigitsValue(s: string): nat
    requires AllDigits(s)
  {
    if s == "" then 0
    else DigitsValue(s[..|s| - 1]) * 10 + (s[|s| - 1] as int - '0' as int)
  }

  function DigitChar(d: nat): (c: char)
    requires d < 10
    ensures IsDigit(c)
  {
    ('0' as int + d) as char
  }

  /** Python's `str(n)` for a natural number. */
  function NatToString(n: nat): (r: string)
    ensures r != "" && AllDigits(r)
    ensures DigitsValue(r) == n
    ensures |r| > 1 ==> r[0] != '0'
    decreases n
  {
    if n < 10 then [DigitChar(n)]
    else
      var r := NatToString(n / 10) + [DigitChar(n % 10)];
      assert r[..|r| - 1] == NatToString(n / 10);
      r
  }

  /** Python's `str.join(sep, parts)` for a one-character separator. */
  function Join(parts: seq<string>, sep: char): string
  {
    if parts == [] then ""
    else if |parts| == 1 then parts[0]
    else Join(parts[..|parts| - 1], sep) + [sep] + parts[|parts| - 1]
  }

  /** Python's `s.split(sep)` for a one-character separator: the pieces
      between separators, empty ones included. */
  function Split(s: string, sep: char): (parts: seq<string>)
    ensures |parts| >= 1
    ensures forall k, j :: 0 <= k < |parts| && 0 <= j < |parts[k]| ==> parts[k][j] != sep
    decreases |s|
  {
    if s == "" then [""]
    else if s[|s| - 1] == sep then Split(s[..|s| - 1], sep) + [""]
    else
      var init := Split(s[..|s| - 1], sep);
      init[..|init| - 1] + [init[|init| - 1] + [s[|s| - 1]]]
  }

  /** Splitting then joining with the same separator gives back the text. */
  lemma {:induction false} JoinSplit(s: string, sep: char)
    ensures Join(Split(s, sep), sep) == s
    decreases |s|
  {
    if s == "" {
    } else if s[|s| - 1] == sep {
      JoinSplit(s[..|s| - 1], sep);
      var init := Split(s[..|s| - 1], sep);
      var parts := init + [""];
      assert parts[..|parts| - 1] == init;
      assert s == s[..|s| - 1] + [sep];
    } else {
      JoinSplit(s[..|s| - 1], sep);
      var init := Split(s[..|s| - 1], sep);
      var last := init[|init| - 1] + [s[|s| - 1]];
      var parts := init[..|init| - 1] + [last];
      assert s == s[..|s| - 1] + [s[|s| - 1]];
      if |init| == 1 {
        assert Join(init, sep) == init[0];
      } else {
        assert parts[..|parts| - 1] == init[..|init| - 1];
        assert Join(init, sep) == Join(init[..|init| - 1], sep) + [sep] + init[|init| - 1];
      }
    }
  }

  /** A text with no separator splits into itself alone. */
  lemma {:induction false} SplitNoSep(s: string, sep: char)
    requires forall j :: 0 <= j < |s| ==> s[j] != sep
    ensures Split(s, sep) == [s]
    decreases |s|
  {
    if s != "" {
      SplitNoSep(s[..|s| - 1], sep);
      assert s[..|s| - 1] + [s[|s| - 1]] == s;
    }
  }

  /** Splitting at a separator splits each side on its own. */
  lemma {:induction false} SplitAtSep(s: string, t: string, sep: char)
    ensures Split(s + [sep] + t, sep) == Split(s, sep) + Split(t, sep)
    decreases |t|
  {
    var whole := s + [sep] + t;
    if t == "" {
      assert whole[..|whole| - 1] == s;
      assert Split(whole, sep) == Split(s, sep) + [""];
    } else {
      var t' := t[..|t| - 1];
      var c := t[|t| - 1];
      assert whole[..|whole| - 1] == s + [sep] + t';
      assert whole[|whole| - 1] == c;
      SplitAtSep(s, t', sep);
      if c == sep {
        assert Split(whole, sep) == Split(s + [sep] + t', sep) + [""];
        assert Split(t, sep) == Split(t', sep) + [""];
      } else {
        var right := Split(t', sep);
        var tail := right[..|right| - 1] + [right[|right| - 1] + [c]];
        SplitLastChar(whole, Split(s, sep), right, sep);
        assert Split(whole, sep) == Split(s, sep) + tail;
        assert [] + right == right;
        SplitLastChar(t, [], right, sep);
        assert Split(t, sep) == tail;
      }
    }
  }

  /** The step of `Split` for a text ending in a non-separator, when the
      split of the rest is `pre + right`. */
  lemma SplitLastChar(w: string, pre: seq<string>, right: seq<string>, sep: char)
    requires w != "" && w[|w| - 1] != sep
    requires |right| >= 1 && Split(w[..|w| - 1], sep) == pre + right
    ensures Split(w, sep) == pre + right[..|right| - 1] + [right[|right| - 1] + [w[|w| - 1]]]
  {
    var init := pre + right;
    assert init[..|init| - 1] == pre + right[..|right| - 1];
    assert init[|init| - 1] == right[|right| - 1];
  }
}
