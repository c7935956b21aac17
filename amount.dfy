/**
 * `parse_amount`: find the first number written before a rouble sign, the
 * way `re.search` finds the pattern
 *   (\d{1,3}(?:[ NBSP]\d{3})*(?:[.,]\d{1,2})?)\s*₽
 * trying start positions from left to right, and read it as kopecks after
 * dropping the digit-group separators and reading a comma as the decimal point.
 */
module Amount {
  import opened Wrappers
  import opened Chars

  /** A digit-group separator: a space or a no-break space. */
  predicate IsSeparator(c: char)
  {
    c == ' ' || c == Nbsp
  }

  /** A decimal point, written either way. */
  predicate IsPoint(c: char)
  {
    c == '.' || c == ','
  }

  /** `\d{1,3}(?:[ NBSP]\d{3})*`: one to three digits, then groups of a separator and three digits. */
  predicate IsGrouped(s: string)
    decreases |s|
  {
    if |s| <= 3 then 1 <= |s| && AllDigits(s)
    else 5 <= |s| && IsSeparator(s[|s| - 4]) && AllDigits(s[|s| - 3..]) && IsGrouped(s[..|s| - 4])
  }

  /** Where the optional fraction `[.,]\d{1,2}` of a candidate would start; `|s|` when it has none. */
  function FractionStart(s: string): (k: nat)
    ensures k <= |s|
  {
    if |s| >= 2 && IsPoint(s[|s| - 2]) then |s| - 2
    else if |s| >= 3 && IsPoint(s[|s| - 3]) then |s| - 3
    else |s|
  }

  /** The text of the capture group: a grouped whole part and an optional fraction. */
  predicate IsAmountText(s: string)
  {
    var k := FractionStart(s);
    IsGrouped(s[..k]) && (k == |s| || AllDigits(s[k + 1..]))
  }

  /** `\s*₽` matches at position `e`. */
  predicate ClosesWithRuble(text: string, e: nat)
    decreases |text| - e
  {
    e < |text| && (text[e] == Ruble || (IsSpace(text[e]) && ClosesWithRuble(text, e + 1)))
  }

  /** The pattern matches at start `i` with the capture group `text[i..e]`. */
  predicate IsMatch(text: string, i: nat, e: nat)
  {
    i <= e <= |text| && IsAmountText(text[i..e]) && ClosesWithRuble(text, e)
  }

  /** The end of the capture group of a match at start `i`, looking at ends from `lo` on. */
  function FindEnd(text: string, i: nat, lo: nat): (r: Option<nat>)
    requires i <= lo <= |text|
    ensures r.Some? ==> lo <= r.value && IsMatch(text, i, r.value)
    ensures r.None? ==> forall e :: lo <= e ==> !IsMatch(text, i, e)
    decreases |text| - lo
  {
    if IsAmountText(text[i..lo]) && ClosesWithRuble(text, lo) then Some(lo)
    else if lo == |text| then None
    else FindEnd(text, i, lo + 1)
  }

  /** `re.search`: the leftmost start at which the pattern matches, with the end of its group. */
  function FirstMatchFrom(text: string, i: nat): (r: Option<(nat, nat)>)
    requires i <= |text|
    ensures r.Some? ==> i <= r.value.0 && IsMatch(text, r.value.0, r.value.1)
    ensures r.Some? ==> forall j, e :: i <= j < r.value.0 ==> !IsMatch(text, j, e)
    ensures r.None? ==> forall j, e :: i <= j ==> !IsMatch(text, j, e)
    decreases |text| - i
  {
    match FindEnd(text, i, i)
    case Some(e) => Some((i, e))
    case None =>
      if i == |text| then None
      else
        var r := FirstMatchFrom(text, i + 1);
        assert forall e :: !IsMatch(text, i, e) by {
          forall e ensures !IsMatch(text, i, e) {
            if i <= e { } else { }
          }
        }
        r
  }

  /** The group with the separators removed and a comma turned into a point. */
  function Normalise(s: string): (v: string)
    ensures |v| <= |s|
    ensures forall k :: 0 <= k < |v| ==> !IsSeparator(v[k]) && v[k] != ','
  {
    if s == [] then []
    else
      var c := s[|s| - 1];
      Normalise(s[..|s| - 1]) + (if IsSeparator(c) then [] else if c == ',' then ['.'] else [c])
  }

  function DigitValue(c: char): nat
    requires IsDigit(c)
  {
    (c as int) - ('0' as int)
  }

  /** The number a string of digits spells. */
  function DigitsValue(s: string): nat
    requires AllDigits(s)
  {
    if s == [] then 0 else DigitsValue(s[..|s| - 1]) * 10 + DigitValue(s[|s| - 1])
  }

  /**
   * `float(value)` in kopecks, for the strings `float` reads as a number with
   * at most two fraction digits written without sign, exponent or blanks:
   * digits, a point and up to two digits, not both parts empty. None for
   * every other string.
   */
  function DecimalKopecks(v: string): (r: Option<nat>)
    ensures r.Some? ==> |v| > 0 && forall k :: 0 <= k < |v| ==> IsDigit(v[k]) || v[k] == '.'
    ensures r.Some? ==> PointIndex(v) == |v| || |v| - PointIndex(v) <= 3
    ensures r.Some? ==> forall k :: PointIndex(v) < k < |v| ==> IsDigit(v[k])
    ensures |v| > 0 && AllDigits(v) ==> r.Some? && r.value == DigitsValue(v) * 100
  {
    var p := PointIndex(v);
    if p == |v| then
      if |v| > 0 && AllDigits(v) then Some(DigitsValue(v) * 100) else None
    else
      var whole, frac := v[..p], v[p + 1..];
      if AllDigits(whole) && AllDigits(frac) && |frac| <= 2 && |whole| + |frac| > 0 then
        Some(DigitsValue(whole) * 100 + DigitsValue(frac) * (if |frac| == 1 then 10 else 1))
      else None
  }

  /** The position of the first point in `v`, or `|v|`. */
  function PointIndex(v: string): (p: nat)
    ensures p <= |v|
    ensures forall k :: 0 <= k < p ==> v[k] != '.'
    ensures p < |v| ==> v[p] == '.'
  {
    if v == [] then 0
    else if v[0] == '.' then 0
    else 1 + PointIndex(v[1..])
  }

  /** `parse_amount`: the amount in kopecks of the first match, or None. */
  function ParseAmount(text: string): (r: Option<nat>)
    ensures r.Some? <==> exists i, e :: IsMatch(text, i, e)
  {
    match FirstMatchFrom(text, 0)
    case None => None
    case Some((i, e)) =>
      NormalisedAmountParses(text[i..e]);
      DecimalKopecks(Normalise(text[i..e]))
  }

  // ---------------------------------------------------------------------------
  // Lemmas
  // ---------------------------------------------------------------------------

  lemma NormaliseConcat(a: string, b: string)
    ensures Normalise(a + b) == Normalise(a) + Normalise(b)
    decreases |b|
  {
    if b == [] {
      assert a + b == a;
    } else {
      NormaliseConcat(a, b[..|b| - 1]);
      assert (a + b)[..|a + b| - 1] == a + b[..|b| - 1];
    }
  }

  /** Digits pass through normalisation unchanged. */
  lemma {:induction false} NormaliseDigits(s: string)
    requires AllDigits(s)
    ensures Normalise(s) == s
  {
    if s != [] {
      NormaliseDigits(s[..|s| - 1]);
    }
  }

  /** A grouped whole part normalises to digits only. */
  lemma {:induction false} NormaliseGrouped(s: string)
    requires IsGrouped(s)
    ensures AllDigits(Normalise(s)) && |Normalise(s)| > 0
    decreases |s|
  {
    if |s| <= 3 {
      NormaliseDigits(s);
    } else {
      var init, sep, tail := s[..|s| - 4], s[|s| - 4..|s| - 3], s[|s| - 3..];
      assert s == init + sep + tail;
      NormaliseGrouped(init);
      NormaliseConcat(init + sep, tail);
      NormaliseConcat(init, sep);
      NormaliseDigits(tail);
      assert Normalise(sep) == [] by {
        assert sep[..0] == [];
      }
    }
  }

  /** Every capture group normalises to a string `float` accepts, so the `except` branch never runs. */
  lemma NormalisedAmountParses(s: string)
    requires IsAmountText(s)
    ensures DecimalKopecks(Normalise(s)).Some?
  {
    var k := FractionStart(s);
    var whole := s[..k];
    NormaliseGrouped(whole);
    var w := Normalise(whole);
    if k == |s| {
      assert whole == s;
      DigitsHaveNoPoint(w);
    } else {
      var f := s[k + 1..];
      NormaliseFraction(s, k);
      DecimalKopecksWithFraction(w, f);
    }
  }

  /** A capture group with a fraction normalises to its whole part's digits, a point and the fraction digits. */
  lemma NormaliseFraction(s: string, k: nat)
    requires k < |s| && IsPoint(s[k]) && AllDigits(s[k + 1..])
    ensures Normalise(s) == Normalise(s[..k]) + (['.'] + s[k + 1..])
  {
    assert s == s[..k] + ([s[k]] + s[k + 1..]);
    NormaliseAroundPoint(s[..k], s[k], s[k + 1..], s);
  }

  lemma NormaliseAroundPoint(w: string, c: char, f: string, s: string)
    requires IsPoint(c) && AllDigits(f) && s == w + ([c] + f)
    ensures Normalise(s) == Normalise(w) + (['.'] + f)
  {
    NormaliseConcat(w, [c] + f);
    NormaliseConcat([c], f);
    NormaliseDigits(f);
    assert Normalise([c]) == ['.'] by {
      assert [c][..0] == [];
    }
  }

  /** A whole part, a point and one or two digits read as the kopecks they spell. */
  lemma DecimalKopecksWithFraction(w: string, f: string)
    requires AllDigits(w) && AllDigits(f) && 1 <= |f| <= 2
    ensures DecimalKopecks(w + (['.'] + f)).Some?
    ensures DecimalKopecks(w + (['.'] + f)).value == DigitsValue(w) * 100 + DigitsValue(f) * (if |f| == 1 then 10 else 1)
  {
    var v := w + (['.'] + f);
    assert v == w + ['.'] + f;
    PointIndexAfter(w, f);
    var p := PointIndex(v);
    assert p == |w| < |v|;
    assert v[..p] == w;
    assert v[p + 1..] == f;
    assert DecimalKopecks(v).value == DigitsValue(w) * 100 + DigitsValue(f) * (if |f| == 1 then 10 else 1);
  }

  lemma DigitsHaveNoPoint(w: string)
    requires AllDigits(w)
    ensures PointIndex(w) == |w|
  {
    if w != [] {
      DigitsHaveNoPoint(w[1..]);
    }
  }

  lemma {:induction false} PointIndexAfter(w: string, f: string)
    requires AllDigits(w)
    ensures PointIndex(w + ['.'] + f) == |w|
  {
    if w != [] {
      assert (w + ['.'] + f)[1..] == w[1..] + ['.'] + f;
      PointIndexAfter(w[1..], f);
    }
  }

  /** A capture group is made of digits, separators and points, and ends with a digit. */
  lemma {:induction false} GroupedShape(s: string)
    requires IsGrouped(s)
    ensures |s| > 0 && IsDigit(s[|s| - 1])
    ensures forall k :: 0 <= k < |s| ==> IsDigit(s[k]) || IsSeparator(s[k])
    decreases |s|
  {
    if |s| > 3 {
      GroupedShape(s[..|s| - 4]);
      forall k | 0 <= k < |s| ensures IsDigit(s[k]) || IsSeparator(s[k]) {
        if k < |s| - 4 {
          assert s[k] == s[..|s| - 4][k];
        } else if k >= |s| - 3 {
          assert s[k] == s[|s| - 3..][k - (|s| - 3)];
        }
      }
    }
  }

  lemma AmountTextShape(s: string)
    requires IsAmountText(s)
    ensures |s| > 0 && IsDigit(s[|s| - 1])
    ensures forall k :: 0 <= k < |s| ==> s[k] != Ruble
  {
    var k := FractionStart(s);
    GroupedShape(s[..k]);
    forall j | 0 <= j < |s| ensures s[j] != Ruble {
      if j < k {
        assert s[j] == s[..k][j];
      } else if j > k {
        assert s[j] == s[k + 1..][j - k - 1];
      }
    }
    if k < |s| {
      assert s[|s| - 1] == s[k + 1..][|s| - k - 2];
    } else {
      assert s[|s| - 1] == s[..k][|s| - 1];
    }
  }

  /** `\s*₽` cannot start inside a number that ends with a digit and holds no rouble sign. */
  lemma {:induction false} NoRubleInside(text: string, e1: nat, e2: nat)
    requires e1 < e2 <= |text|
    requires IsDigit(text[e2 - 1])
    requires forall k :: e1 <= k < e2 ==> text[k] != Ruble
    ensures !ClosesWithRuble(text, e1)
    decreases e2 - e1
  {
    if e1 + 1 < e2 {
      NoRubleInside(text, e1 + 1, e2);
    }
  }

  /** At a given start, at most one end of the group is followed by the rouble sign. */
  lemma MatchEndUnique(text: string, i: nat, e1: nat, e2: nat)
    requires IsMatch(text, i, e1) && IsMatch(text, i, e2)
    ensures e1 == e2
  {
    if e1 < e2 {
      AmountTextShape(text[i..e2]);
      assert text[e2 - 1] == text[i..e2][e2 - 1 - i];
      forall k | e1 <= k < e2 ensures text[k] != Ruble {
        assert text[k] == text[i..e2][k - i];
      }
      NoRubleInside(text, e1, e2);
    } else if e2 < e1 {
      AmountTextShape(text[i..e1]);
      assert text[e1 - 1] == text[i..e1][e1 - 1 - i];
      forall k | e2 <= k < e1 ensures text[k] != Ruble {
        assert text[k] == text[i..e1][k - i];
      }
      NoRubleInside(text, e2, e1);
    }
  }

  // ---------------------------------------------------------------------------
  // The format bank messages use, and the round trip through `parse_amount`.
  // ---------------------------------------------------------------------------

  function DigitChar(d: nat): (c: char)
    requires d < 10
    ensures IsDigit(c) && DigitValue(c) == d
  {
    ('0' as int + d) as char
  }

  /** The decimal digits of `n`, without leading zeros. */
  function Digits(n: nat): string
  {
    if n < 10 then [DigitChar(n)] else Digits(n / 10) + [DigitChar(n % 10)]
  }

  /** Exactly three digits, with leading zeros. */
  function Pad3(m: nat): string
    requires m < 1000
  {
    [DigitChar(m / 100), DigitChar(m / 10 % 10), DigitChar(m % 10)]
  }

  /** The whole roubles with no-break spaces between groups of three digits. */
  function Grouped(n: nat): string
  {
    if n < 1000 then Digits(n) else Grouped(n / 1000) + [Nbsp] + Pad3(n % 1000)
  }

  /** An amount as a bank message writes it: "1 234,56 ₽". */
  function FormatRubles(kopecks: nat): string
  {
    Grouped(kopecks / 100) + [',', DigitChar(kopecks % 100 / 10), DigitChar(kopecks % 10)] + [' ', Ruble]
  }

  lemma {:induction false} DigitsSpell(n: nat)
    ensures AllDigits(Digits(n)) && DigitsValue(Digits(n)) == n
    ensures 1 <= |Digits(n)| && (n < 1000 ==> |Digits(n)| <= 3)
  {
    if n >= 10 {
      DigitsSpell(n / 10);
      var s := Digits(n);
      assert s[..|s| - 1] == Digits(n / 10);
    }
  }

  lemma Pad3Spells(a: string, m: nat)
    requires AllDigits(a) && m < 1000
    ensures AllDigits(a + Pad3(m)) && DigitsValue(a + Pad3(m)) == DigitsValue(a) * 1000 + m
  {
    var d0, d1, d2 := DigitChar(m / 100), DigitChar(m / 10 % 10), DigitChar(m % 10);
    var s0 := a + [d0];
    var s1 := s0 + [d1];
    assert a + Pad3(m) == s1 + [d2];
    AppendDigit(a, d0);
    AppendDigit(s0, d1);
    AppendDigit(s1, d2);
    ThreeDigits(DigitsValue(a), m);
  }

  /** One more digit at the end multiplies the value by ten and adds the digit. */
  lemma AppendDigit(a: string, d: char)
    requires AllDigits(a) && IsDigit(d)
    ensures AllDigits(a + [d]) && DigitsValue(a + [d]) == DigitsValue(a) * 10 + DigitValue(d)
  {
    assert (a + [d])[..|a|] == a;
  }

  lemma ThreeDigits(v: nat, m: nat)
    requires m < 1000
    ensures ((v * 10 + m / 100) * 10 + m / 10 % 10) * 10 + m % 10 == v * 1000 + m
  {
  }

  /** The grouped form is a valid whole part and normalises to the digits of `n`. */
  lemma {:induction false} GroupedSpells(n: nat)
    ensures IsGrouped(Grouped(n))
    ensures AllDigits(Normalise(Grouped(n))) && DigitsValue(Normalise(Grouped(n))) == n
  {
    if n < 1000 {
      DigitsSpell(n);
      NormaliseDigits(Digits(n));
    } else {
      var init, tail := Grouped(n / 1000), Pad3(n % 1000);
      GroupedSpells(n / 1000);
      NextGroup(init, tail, Grouped(n));
      Pad3Spells(Normalise(init), n % 1000);
    }
  }

  /** A no-break space and three more digits extend a grouped whole part. */
  lemma NextGroup(init: string, tail: string, s: string)
    requires IsGrouped(init) && |tail| == 3 && AllDigits(tail)
    requires s == init + [Nbsp] + tail
    ensures IsGrouped(s)
    ensures Normalise(s) == Normalise(init) + tail
  {
    assert s[..|s| - 4] == init;
    assert s[|s| - 3..] == tail;
    assert s == init + ([Nbsp] + tail);
    NormaliseAroundSeparator(init, Nbsp, tail, s);
  }

  lemma NormaliseAroundSeparator(w: string, c: char, f: string, s: string)
    requires IsSeparator(c) && AllDigits(f) && s == w + ([c] + f)
    ensures Normalise(s) == Normalise(w) + f
  {
    NormaliseConcat(w, [c] + f);
    NormaliseConcat([c], f);
    NormaliseDigits(f);
    assert Normalise([c]) == [] by {
      assert [c][..0] == [];
    }
  }

  /** A grouped whole part, a comma and two digits form the text of the capture group. */
  lemma FormattedAmountText(g: string, f: string, t: string)
    requires IsGrouped(g) && |f| == 2 && AllDigits(f)
    requires t == g + ([','] + f)
    ensures FractionStart(t) == |g|
    ensures IsAmountText(t)
  {
    GroupedShape(g);
    assert t[|t| - 2] == f[0] && t[|t| - 3] == ',';
    assert t[..|g|] == g && t[|g| + 1..] == f;
  }

  /** In a formatted amount, the pattern matches at the start with the number as its group. */
  lemma FormattedMatch(g: string, f: string, t: string, text: string)
    requires IsGrouped(g) && |f| == 2 && AllDigits(f)
    requires t == g + ([','] + f) && text == t + [' ', Ruble]
    ensures FirstMatchFrom(text, 0) == Some((0, |t|))
  {
    FormattedAmountText(g, f, t);
    MatchBeforeRuble(t, text);
    var m := FirstMatchFrom(text, 0);
    MatchEndUnique(text, 0, m.value.1, |t|);
  }

  /** A capture-group text followed by " ₽" matches at the start. */
  lemma MatchBeforeRuble(t: string, text: string)
    requires IsAmountText(t) && text == t + [' ', Ruble]
    ensures IsMatch(text, 0, |t|)
  {
    assert text[0..|t|] == t;
    assert ClosesWithRuble(text, |t| + 1);
  }

  /** Reading back a formatted amount gives the amount: `parse_amount` inverts the bank's format. */
  lemma FormatRublesRoundTrip(kopecks: nat)
    ensures ParseAmount(FormatRubles(kopecks)).Some?
    ensures ParseAmount(FormatRubles(kopecks)).value == kopecks
  {
    var whole, r := kopecks / 100, kopecks % 100;
    var g := Grouped(whole);
    var f := [DigitChar(r / 10), DigitChar(r % 10)];
    var t := g + ([','] + f);
    var text := FormatRubles(kopecks);
    assert text == t + [' ', Ruble];
    GroupedSpells(whole);
    Pad2Value(r, f);
    FormattedGroup(g, f, t, text);
    FormattedValue(g, f, t);
    assert whole * 100 + r == kopecks;
  }

  /** `parse_amount` of a formatted amount reads the number before " ₽". */
  lemma FormattedGroup(g: string, f: string, t: string, text: string)
    requires IsGrouped(g) && |f| == 2 && AllDigits(f)
    requires t == g + ([','] + f) && text == t + [' ', Ruble]
    ensures ParseAmount(text) == DecimalKopecks(Normalise(t))
  {
    FormattedMatch(g, f, t, text);
    assert text[0..|t|] == t;
  }

  /** A whole part, a comma and two digits read as the kopecks they spell. */
  lemma FormattedValue(g: string, f: string, t: string)
    requires AllDigits(Normalise(g))
    requires |f| == 2 && AllDigits(f)
    requires t == g + ([','] + f)
    ensures DecimalKopecks(Normalise(t)).Some?
    ensures DecimalKopecks(Normalise(t)).value == DigitsValue(Normalise(g)) * 100 + DigitsValue(f)
  {
    assert t[..|g|] == g;
    assert t[|g| + 1..] == f;
    NormaliseFraction(t, |g|);
    DecimalKopecksWithFraction(Normalise(g), f);
  }

  lemma Pad2Value(r: nat, f: string)
    requires r < 100 && f == [DigitChar(r / 10), DigitChar(r % 10)]
    ensures AllDigits(f) && DigitsValue(f) == r
  {
    assert f[..1][..0] == [];
    assert DigitsValue(f[..1]) == r / 10;
  }

  /**
   * A number of more than three digits written without separators is read
   * from the first start at which a match exists: "12345 ₽" gives 345 roubles.
   */
  lemma UngroupedNumberReadFromItsLastDigits()
    ensures ParseAmount("12345 " + [Ruble]) == Some(34500)
  {
    var text := "12345 " + [Ruble];
    UngroupedNumberMatch(text);
    assert text[2..5] == "345";
    LastDigitsValue("345");
  }

  lemma LastDigitsValue(v: string)
    requires v == "345"
    ensures DecimalKopecks(Normalise(v)) == Some(34500)
  {
    NormaliseDigits(v);
    ThreeDigitValue(v);
  }

  lemma ThreeDigitValue(v: string)
    requires v == "345"
    ensures AllDigits(v) && DigitsValue(v) == 345
  {
    AppendDigit([], '3');
    AppendDigit("3", '4');
    AppendDigit("34", '5');
    assert v == "34" + ['5'];
  }

  /** In "12345 ₽" the first match starts at the third digit. */
  lemma UngroupedNumberMatch(text: string)
    requires text == "12345 " + [Ruble]
    ensures FirstMatchFrom(text, 0) == Some((2, 5))
  {
    NoMatchInFirstTwoDigits(text);
    assert text[2..5] == "345";
    assert IsAmountText("345");
    assert ClosesWithRuble(text, 6);
    assert IsMatch(text, 2, 5);
    var m := FirstMatchFrom(text, 0);
    MatchEndUnique(text, 2, m.value.1, 5);
  }

  lemma NoMatchInFirstTwoDigits(text: string)
    requires text == "12345 " + [Ruble]
    ensures forall j, e :: j < 2 ==> !IsMatch(text, j, e)
  {
    forall e: nat | ClosesWithRuble(text, e)
      ensures e == 5 || e == 6
    {
    }
    assert text[0..5] == "12345" && text[1..5] == "2345";
    assert text[0..6] == "12345 " && text[1..6] == "2345 ";
    assert !IsAmountText("12345") && !IsAmountText("2345");
    assert FractionStart("12345 ") == 6 && FractionStart("2345 ") == 5;
    assert "12345 "[..6] == "12345 " && "2345 "[..5] == "2345 ";
    assert !IsAmountText("12345 ") && !IsAmountText("2345 ");
  }
}
