/** `booking.parse_time_hhmm`: the optional `HH:MM` bounds of the time
    filter, validated and zero-padded. */
module TimeInput {
  import opened Wrappers
  import opened Text

  /** The two `ValueError`s the parser raises: wrong shape, or an hour or
      minute out of range. */
  datatype TimeError = BadFormat | OutOfRange

  /** `re.fullmatch(r"(\d{1,2}):(\d{2})", s)`: one or two digits, a colon,
      two digits. */
  predicate HHMMShape(s: string)
  {
    && (|s| == 4 || |s| == 5)
    && s[|s| - 3] == ':'
    && AllDigits(s[..|s| - 3])
    && AllDigits(s[|s| - 2..])
  }

  function Hours(s: string): nat
    requires HHMMShape(s)
  {
    DigitsValue(s[..|s| - 3])
  }

  function Minutes(s: string): nat
    requires HHMMShape(s)
  {
    DigitsValue(s[|s| - 2..])
  }

  predicate InRange(s: string)
    requires HHMMShape(s)
  {
    Hours(s) <= 23 && Minutes(s) <= 59
  }

  /** `f"{n:02d}"` for `n < 100`. */
  function Pad2(n: nat): (r: string)
    requires n < 100
    ensures |r| == 2 && AllDigits(r) && DigitsValue(r) == n
  {
    var r := [DigitChar(n / 10), DigitChar(n % 10)];
    assert r[..1] == [DigitChar(n / 10)];
    assert r[..1][..0] == [];
    assert DigitsValue(r[..1]) == n / 10;
    r
  }

  /** `f"{hh:02d}:{mm:02d}"`. */
  function Canonical(hh: nat, mm: nat): (r: string)
    requires hh < 100 && mm < 100
    ensures |r| == 5 && HHMMShape(r) && Hours(r) == hh && Minutes(r) == mm
  {
    var r := Pad2(hh) + ":" + Pad2(mm);
    assert r[..2] == Pad2(hh);
    assert r[3..] == Pad2(mm);
    r
  }

  /** `parse_time_hhmm`: `None` for blank input, the zero-padded time for a
      valid one, and the raised error otherwise. */
  function ParseTimeHHMM(x: string): (r: Result<Option<string>, TimeError>)
    ensures r == Ok(None) <==> AllSpace(x)
    ensures r == Err(BadFormat) <==> !AllSpace(x) && !HHMMShape(Strip(x))
    ensures r == Err(OutOfRange) <==> HHMMShape(Strip(x)) && !InRange(Strip(x))
    ensures r.Ok? && r.value.Some? ==>
              && HHMMShape(Strip(x)) && InRange(Strip(x))
              && |r.value.value| == 5 && HHMMShape(r.value.value) && InRange(r.value.value)
              && Hours(r.value.value) == Hours(Strip(x))
              && Minutes(r.value.value) == Minutes(Strip(x))
  {
    var s := Strip(x);
    if s == "" then Ok(None)
    else if !HHMMShape(s) then Err(BadFormat)
    else if !InRange(s) then Err(OutOfRange)
    else Ok(Some(Canonical(Hours(s), Minutes(s))))
  }

  /** A two-digit string is its own zero-padded rendering. */
  lemma Pad2OfDigits(d: string)
    requires |d| == 2 && AllDigits(d)
    ensures DigitsValue(d) < 100
    ensures Pad2(DigitsValue(d)) == d
  {
    assert d[..1][..0] == [];
    assert DigitsValue(d[..1]) == d[0] as int - '0' as int;
    assert d[..|d| - 1] == d[..1];
    assert DigitsValue(d) == (d[0] as int - '0' as int) * 10 + (d[1] as int - '0' as int);
  }

  /** The parser's output is a fixed point: parsing it again returns it
      unchanged. */
  lemma {:induction false} ParseIsIdempotent(x: string)
    requires ParseTimeHHMM(x).Ok? && ParseTimeHHMM(x).value.Some?
    ensures ParseTimeHHMM(ParseTimeHHMM(x).value.value) == ParseTimeHHMM(x)
  {
    var out := ParseTimeHHMM(x).value.value;
    assert !IsSpace(out[0]) && !IsSpace(out[4]);
    StripFixed(out);
    assert !AllSpace(out);
    Pad2OfDigits(out[..2]);
    Pad2OfDigits(out[3..]);
    assert out == out[..2] + ":" + out[3..];
  }

  /** Every valid time of day has exactly one rendering the parser returns,
      and it is accepted as it is. */
  lemma CanonicalParses(hh: nat, mm: nat)
    requires hh <= 23 && mm <= 59
    ensures ParseTimeHHMM(Canonical(hh, mm)) == Ok(Some(Canonical(hh, mm)))
  {
    var c := Canonical(hh, mm);
    assert !IsSpace(c[0]) && !IsSpace(c[4]);
    StripFixed(c);
    assert !AllSpace(c);
  }

  /** A one-digit hour is padded to two digits. */
  lemma ExamplePadded()
    ensures ParseTimeHHMM("9:05") == Ok(Some("09:05"))
  {
    var s := "9:05";
    assert Strip(s) == s && !AllSpace(s) by {
      assert !IsSpace(s[0]) && !IsSpace(s[3]);
      StripFixed(s);
    }
    assert HHMMShape(s) && Hours(s) == 9 && Minutes(s) == 5 by {
      assert s[..1] == "9";
      assert "9"[..0] == "";
      assert s[2..] == "05";
      assert "05"[..1] == "0";
      assert "0"[..0] == "";
    }
    assert Canonical(9, 5) == "09:05" by {
      assert Pad2(9) == "09";
      assert Pad2(5) == "05";
    }
    ValidParses(s, s);
  }

  /** A text that strips to a valid time parses to its padded rendering. */
  lemma ValidParses(x: string, s: string)
    requires Strip(x) == s && !AllSpace(x) && HHMMShape(s) && InRange(s)
    ensures ParseTimeHHMM(x) == Ok(Some(Canonical(Hours(s), Minutes(s))))
  {
  }

  /** Hour 24 is out of range. */
  lemma ExampleOutOfRange()
    ensures ParseTimeHHMM("24:00") == Err(OutOfRange)
  {
    StripFixed("24:00");
    assert !AllSpace("24:00") by { assert !IsSpace("24:00"[0]); }
    assert Hours("24:00") == 24 by {
      assert "24:00"[..2] == "24";
      assert "24"[..1] == "2";
      assert "2"[..0] == "";
    }
  }

  /** A one-digit minute does not fit the pattern. */
  lemma ExampleBadShape()
    ensures ParseTimeHHMM("9:5") == Err(BadFormat)
  {
    StripFixed("9:5");
    assert !AllSpace("9:5") by { assert !IsSpace("9:5"[0]); }
  }
}
