/** The relocation key of a booking button, read from its `onclick`
    attribute `Step3Action(a,b)`, and the two ways of finding the same
    button again after a recovery: the XPath selector the source builds
    from the key, and a lookup by key. */
module Relocation {
  import opened Wrappers
  import opened Text

  /** The two digit groups of the call, exactly as the regex captures them. */
  datatype Key = Key(a: string, b: string)

  const CallHead: string := "Step3Action("

  predicate ValidKey(k: Key)
  {
    k.a != "" && AllDigits(k.a) && k.b != "" && AllDigits(k.b)
  }

  /** End of the run of digits that starts at `i` (`\d+` is greedy). */
  function DigitRun(s: string, i: nat): (j: nat)
    requires i <= |s|
    ensures i <= j <= |s|
    ensures AllDigits(s[i..j])
    ensures j < |s| ==> !IsDigit(s[j])
    decreases |s| - i
  {
    if i == |s| || !IsDigit(s[i]) then i
    else
      var j := DigitRun(s, i + 1);
      assert s[i..j] == [s[i]] + s[i + 1..j];
      j
  }

  /** `Step3Action\((\d+)\s*,\s*(\d+)\)` tried at index `i`. Each run is
      maximal, and no shorter choice could succeed, because a digit is
      neither a space, a comma nor `)`. */
  function MatchAt(s: string, i: nat): (r: Option<Key>)
    requires i <= |s|
    ensures r.Some? ==> ValidKey(r.value)
  {
    if !(i + |CallHead| <= |s| && s[i..i + |CallHead|] == CallHead) then None
    else
      var d1 := i + |CallHead|;
      var e1 := DigitRun(s, d1);
      if e1 == d1 then None
      else
        var c := SkipSpaces(s, e1);
        if c == |s| || s[c] != ',' then None
        else
          var d2 := SkipSpaces(s, c + 1);
          var e2 := DigitRun(s, d2);
          if e2 == d2 || e2 == |s| || s[e2] != ')' then None
          else Some(Key(s[d1..e1], s[d2..e2]))
  }

  /** `re.search` from index `i`: the leftmost match. */
  function SearchFrom(s: string, i: nat): (r: Option<Key>)
    requires i <= |s|
    ensures r.Some? ==> ValidKey(r.value)
    decreases |s| - i
  {
    match MatchAt(s, i)
    case Some(k) => Some(k)
    case None => if i == |s| then None else SearchFrom(s, i + 1)
  }

  /** The key of an `onclick` attribute, or `None` when it has no call. */
  function KeyOf(onclick: string): (r: Option<Key>)
    ensures r.Some? ==> ValidKey(r.value)
  {
    SearchFrom(onclick, 0)
  }

  /** `f"Step3Action({a},{b})"`, the text the rebuilt selector looks for. */
  function Render(k: Key): string
  {
    CallHead + k.a + "," + k.b + ")"
  }

  /** The rendered call reads back as the same key. */
  lemma RenderRoundTrip(k: Key)
    requires ValidKey(k)
    ensures KeyOf(Render(k)) == Some(k)
  {
    var s := Render(k);
    var d1 := |CallHead|;
    var e1 := d1 + |k.a|;
    assert s[..d1] == CallHead;
    assert s[d1..e1] == k.a;
    assert s[e1] == ',';
    DigitRunStops(s, d1, e1);
    assert SkipSpaces(s, e1) == e1;
    var d2 := e1 + 1;
    var e2 := d2 + |k.b|;
    assert s[d2] == k.b[0];
    assert SkipSpaces(s, d2) == d2;
    assert s[d2..e2] == k.b;
    assert s[e2] == ')';
    DigitRunStops(s, d2, e2);
    assert MatchAt(s, 0) == Some(k);
  }

  /** A digit run over digits that ends before a non-digit ends there. */
  lemma {:induction false} DigitRunStops(s: string, i: nat, j: nat)
    requires i <= j < |s|
    requires AllDigits(s[i..j]) && !IsDigit(s[j])
    ensures DigitRun(s, i) == j
    decreases j - i
  {
    if i < j {
      assert IsDigit(s[i..j][0]);
      assert s[i + 1..j] == s[i..j][1..];
      DigitRunStops(s, i + 1, j);
    }
  }

  /** The source's relocation: the first button whose `onclick` contains
      the rendered call (`contains(@onclick, 'Step3Action(a,b)')`). */
  function FindAsWritten(k: Key, onclicks: seq<string>): (r: Option<nat>)
    ensures r.Some? ==> r.value < |onclicks| && Contains(onclicks[r.value], Render(k))
    ensures r.Some? ==> forall j :: 0 <= j < r.value ==> !Contains(onclicks[j], Render(k))
    ensures r.None? ==> forall j :: 0 <= j < |onclicks| ==> !Contains(onclicks[j], Render(k))
  {
    if onclicks == [] then None
    else if Contains(onclicks[0], Render(k)) then Some(0)
    else match FindAsWritten(k, onclicks[1..])
      case None => None
      case Some(j) => Some(j + 1)
  }

  /** Relocation by key: the first button on the reloaded page that carries
      the same key, wherever the reload put it. */
  function Relocate(k: Key, onclicks: seq<string>): (r: Option<nat>)
    ensures r.Some? ==> r.value < |onclicks| && KeyOf(onclicks[r.value]) == Some(k)
    ensures r.Some? ==> forall j :: 0 <= j < r.value ==> KeyOf(onclicks[j]) != Some(k)
    ensures r.None? <==> forall j :: 0 <= j < |onclicks| ==> KeyOf(onclicks[j]) != Some(k)
  {
    RelocateFrom(k, onclicks, 0)
  }

  /** The scan behind `Relocate`, from index `from` on. */
  function RelocateFrom(k: Key, onclicks: seq<string>, from: nat): (r: Option<nat>)
    requires from <= |onclicks|
    ensures r.Some? ==> from <= r.value < |onclicks| && KeyOf(onclicks[r.value]) == Some(k)
    ensures r.Some? ==> forall j :: from <= j < r.value ==> KeyOf(onclicks[j]) != Some(k)
    ensures r.None? <==> forall j :: from <= j < |onclicks| ==> KeyOf(onclicks[j]) != Some(k)
    decreases |onclicks| - from
  {
    if from == |onclicks| then None
    else if KeyOf(onclicks[from]) == Some(k) then Some(from)
    else RelocateFrom(k, onclicks, from + 1)
  }

  /** A button written without spaces is found by both lookups. */
  lemma CompactCallFoundBothWays(k: Key)
    requires ValidKey(k)
    ensures FindAsWritten(k, [Render(k)]) == Some(0)
    ensures Relocate(k, [Render(k)]) == Some(0)
  {
    assert OccursAt(Render(k), Render(k), 0);
    RenderRoundTrip(k);
  }

  /** An `onclick` that is exactly the rendered call of its own key: a call
      written without spaces and with nothing around it. */
  predicate Compact(onclick: string)
  {
    KeyOf(onclick).Some? && onclick == Render(KeyOf(onclick).value)
  }

  /** Where each part of the rendered call sits. */
  lemma RenderLayout(k: Key)
    requires ValidKey(k)
    ensures var s, h, la, lb := Render(k), |CallHead|, |k.a|, |k.b|;
      && |s| == h + la + lb + 2
      && s[h + la] == ',' && s[h + la + 1 + lb] == ')'
      && s[h..h + la] == k.a && s[h + la + 1..h + la + 1 + lb] == k.b
      && (forall j :: h <= j < h + la ==> IsDigit(s[j]))
      && (forall j :: h + la + 1 <= j < h + la + 1 + lb ==> IsDigit(s[j]))
      && (forall j :: 0 < j < |s| ==> s[j] != 'S')
  {
    var s, h, la, lb := Render(k), |CallHead|, |k.a|, |k.b|;
    assert s[h..h + la] == k.a;
    assert s[h + la + 1..h + la + 1 + lb] == k.b;
    forall j | h <= j < h + la
      ensures IsDigit(s[j])
    {
      assert s[j] == k.a[j - h];
    }
    forall j | h + la + 1 <= j < h + la + 1 + lb
      ensures IsDigit(s[j])
    {
      assert s[j] == k.b[j - h - la - 1];
    }
    forall j | 0 < j < |s|
      ensures s[j] != 'S'
    {
      if j < h {
        assert s[j] == CallHead[j];
      }
    }
  }

  /** The rendered call of one valid key occurs in the rendered call of
      another only when the two keys are the same. */
  lemma RenderOccursOnlyInItself(k: Key, k': Key, i: nat)
    requires ValidKey(k) && ValidKey(k')
    requires OccursAt(Render(k'), Render(k), i)
    ensures k == k'
  {
    var s := Render(k');
    var p := Render(k);
    var h := |CallHead|;
    RenderLayout(k);
    RenderLayout(k');
    // `p` starts with `S`, which `s` holds only at its start
    assert s[i] == 'S' by {
      assert s[i..i + |p|][0] == p[0];
    }
    assert i == 0;
    assert forall j :: 0 <= j < |p| ==> s[j] == p[j] by {
      forall j | 0 <= j < |p|
        ensures s[j] == p[j]
      {
        assert s[..|p|][j] == p[j];
      }
    }
    // the first group ends where the shorter of the two ends: a digit in
    // one rendering faces the comma in the other unless they end together
    var la, la' := |k.a|, |k'.a|;
    var ma := if la < la' then la else la';
    assert IsDigit(p[h + ma]) <==> ma < la;
    assert IsDigit(s[h + ma]) <==> ma < la';
    assert la == la';
    assert k.a == k'.a by {
      assert s[h..h + la] == p[h..h + la];
    }
    // the same for the second group against the closing parenthesis
    var d := h + la + 1;
    var lb, lb' := |k.b|, |k'.b|;
    var mb := if lb < lb' then lb else lb';
    assert IsDigit(p[d + mb]) <==> mb < lb;
    assert IsDigit(s[d + mb]) <==> mb < lb';
    assert lb == lb';
    assert k.b == k'.b by {
      assert s[d..d + lb] == p[d..d + lb];
    }
  }

  /** On a compact call the two lookups ask the same question: the
      rebuilt selector matches it exactly when it carries the key. */
  lemma CompactMarksAgree(k: Key, onclick: string)
    requires ValidKey(k) && Compact(onclick)
    ensures Contains(onclick, Render(k)) <==> KeyOf(onclick) == Some(k)
  {
    var k' := KeyOf(onclick).value;
    if Contains(onclick, Render(k)) {
      var i: nat :| i <= |onclick| && OccursAt(onclick, Render(k), i);
      RenderOccursOnlyInItself(k, k', i);
    }
    if KeyOf(onclick) == Some(k) {
      assert OccursAt(onclick, Render(k), 0);
    }
  }

  /** When every button's call is compact, the source's selector and the
      lookup by key find the same button. */
  lemma CompactLookupsAgree(k: Key, onclicks: seq<string>)
    requires ValidKey(k)
    requires forall j :: 0 <= j < |onclicks| ==> Compact(onclicks[j])
    ensures FindAsWritten(k, onclicks) == Relocate(k, onclicks)
  {
    forall j | 0 <= j < |onclicks|
      ensures Contains(onclicks[j], Render(k)) <==> KeyOf(onclicks[j]) == Some(k)
    {
      CompactMarksAgree(k, onclicks[j]);
    }
    var a, b := FindAsWritten(k, onclicks), Relocate(k, onclicks);
    if a.Some? && b.Some? {
      assert !(a.value < b.value) && !(b.value < a.value);
    }
  }

  /** A button whose call has a space after the comma: the regex reads its
      key, but the rebuilt selector cannot find it, so the button is given
      up after a recovery although it is still on the page. */
  lemma SpacedCallLostAsWritten()
    ensures KeyOf("Step3Action(1, 2)") == Some(Key("1", "2"))
    ensures FindAsWritten(Key("1", "2"), ["Step3Action(1, 2)"]) == None
    ensures Relocate(Key("1", "2"), ["Step3Action(1, 2)"]) == Some(0)
  {
    var s := "Step3Action(1, 2)";
    var p := Render(Key("1", "2"));
    assert p == "Step3Action(1,2)";
    assert s[..12] == CallHead;
    DigitRunStops(s, 12, 13);
    assert SkipSpaces(s, 13) == 13;
    assert SkipSpaces(s, 14) == 15;
    DigitRunStops(s, 15, 16);
    assert s[13] == ',' && s[16] == ')';
    assert s[12..13] == "1" && s[15..16] == "2";
    assert MatchAt(s, 0) == Some(Key("1", "2"));
    forall i: nat | i <= |s|
      ensures !OccursAt(s, p, i)
    {
      if i + |p| <= |s| {
        if i == 0 {
          assert s[i..i + |p|][14] != p[14];
        } else {
          assert s[i..i + |p|][0] != p[0];
        }
      }
    }
  }
}
