/** The price tokens of a chat message (src/server.js:118-141): a number written
    with '.' as thousands separator and ',' as decimal separator, and an
    optional magnitude word. Prices are real numbers, so scaling is exact. */
module PriceTokens {
  import opened Wrappers
  import opened Strings
  import opened TextNormal

  predicate IsDigit(c: char) {
    '0' <= c <= '9'
  }

  /** A character of the class `[\d.,]`. */
  predicate IsNumberChar(c: char) {
    IsDigit(c) || c == '.' || c == ','
  }

  /** What the group `([\d.,]+)` of every price rule captures. */
  type NumberToken = s: string | |s| > 0 && forall k :: 0 <= k < |s| ==> IsNumberChar(s[k])
    witness "0"

  /** What the group `(milhoes?|milhao|mi|mil|m)` can capture; `milhoes?` also
      matches "milhoe". */
  const UNIT_TOKENS: seq<string> := ["milhoes", "milhoe", "milhao", "mi", "mil", "m"]

  type UnitToken = s: string | s in UNIT_TOKENS witness "mil"

  /** The scale a unit stands for, as `normalizePriceToken` names it. */
  datatype Scale = Thousand | Million | NoScale

  /** `normalizePriceToken(unitRaw)`; an absent or empty unit scales nothing. */
  function NormalizePriceToken(unitRaw: Option<string>): (scale: Scale)
    ensures scale == Thousand ==> unitRaw.Some? && Normalize(unitRaw.value) == "mil"
    ensures scale == Million ==> unitRaw.Some? && Normalize(unitRaw.value) in ["m", "mi", "milhao", "milhoes"]
    ensures unitRaw.Some? && unitRaw.value != "" && Normalize(unitRaw.value) == "mil" ==> scale == Thousand
  {
    if unitRaw.None? || unitRaw.value == "" then NoScale
    else
      var unit := Normalize(unitRaw.value);
      if unit == "mil" then Thousand
      else if unit in ["m", "mi", "milhao", "milhoes"] then Million
      else NoScale
  }

  function Multiplier(scale: Scale): real {
    match scale
    case Thousand => 1000.0
    case Million => 1000000.0
    case NoScale => 1.0
  }

  /** What each captured unit scales by; "milhoe" is not in the list of
      `normalizePriceToken`, so it scales by one. */
  lemma UnitTokenScale(u: UnitToken)
    ensures Multiplier(NormalizePriceToken(Some(u))) ==
      if u == "mil" then 1000.0 else if u == "milhoe" then 1.0 else 1000000.0
  {
    assert forall k :: 0 <= k < |u| ==> 'a' <= u[k] <= 'z';
    AsciiLowerIsNormal(u);
    assert Normalize(u) == u;
  }

  /** `raw.replace(/\./g, '')`. */
  function StripDots(s: string): (r: string)
    ensures |r| <= |s|
    ensures forall k :: 0 <= k < |r| ==> r[k] != '.' && r[k] in s
  {
    if s == [] then []
    else (if s[0] == '.' then [] else [s[0]]) + StripDots(s[1..])
  }

  /** `s.replace(',', '.')`: only the first comma. */
  function ReplaceFirstComma(s: string): (r: string)
    ensures |r| == |s|
  {
    if s == [] then []
    else if s[0] == ',' then "." + s[1..]
    else [s[0]] + ReplaceFirstComma(s[1..])
  }

  predicate AllDigits(s: string) {
    forall k :: 0 <= k < |s| ==> IsDigit(s[k])
  }

  /** The value of a string of decimal digits; the empty string is 0. */
  function DigitsValue(s: string): (n: nat)
    requires AllDigits(s)
  {
    if s == [] then 0 else DigitsValue(s[..|s| - 1]) * 10 + (s[|s| - 1] as int - '0' as int)
  }

  function Pow10(k: nat): (p: nat)
    ensures p >= 1
  {
    if k == 0 then 1 else 10 * Pow10(k - 1)
  }

  /** The number with integer digits `a` and fraction digits `b`. */
  function DecimalValue(a: string, b: string): (x: real)
    requires AllDigits(a) && AllDigits(b)
    ensures x >= 0.0
  {
    DigitsValue(a) as real + DigitsValue(b) as real / Pow10(|b|) as real
  }

  /** `Number(v)` on a string of digits and points: the empty string is 0; digits
      with at most one point and at least one digit are a decimal number;
      anything else is NaN (`None`). */
  function JsNumber(v: string): (r: Option<real>)
  {
    if v == "" then Some(0.0)
    else
      match IndexOf(v, ".")
      case None => if AllDigits(v) then Some(DigitsValue(v) as real) else None
      case Some(i) =>
        var a, b := v[..i], v[i + 1..];
        if AllDigits(a) && AllDigits(b) && |a| + |b| > 0 then
          Some(DecimalValue(a, b))
        else None
  }

  /** `parseNumericToken(raw)`. */
  function ParseNumericToken(raw: string): (r: Option<real>)
    ensures r.Some? ==> r.value >= 0.0
  {
    if raw == "" then None else JsNumber(ReplaceFirstComma(StripDots(raw)))
  }

  /** `parsePriceValue(numberRaw, unitRaw)`. */
  function ParsePriceValue(numberRaw: string, unitRaw: Option<string>): (r: Option<real>)
    ensures r.None? <==> ParseNumericToken(numberRaw).None?
    ensures r.Some? ==> r.value == ParseNumericToken(numberRaw).value * Multiplier(NormalizePriceToken(unitRaw))
    ensures r.Some? ==> r.value >= 0.0
  {
    match ParseNumericToken(numberRaw)
    case None => None
    case Some(value) =>
      match NormalizePriceToken(unitRaw)
      case Thousand => Some(value * 1000.0)
      case Million => Some(value * 1000000.0)
      case NoScale => Some(value)
  }

  /** Occurrences of `c` in `s`. */
  function CountChar(s: string, c: char): nat {
    if s == [] then 0 else (if s[0] == c then 1 else 0) + CountChar(s[1..], c)
  }

  lemma {:induction false} CountCharConcat(a: string, b: string, c: char)
    ensures CountChar(a + b, c) == CountChar(a, c) + CountChar(b, c)
  {
    if a == [] {
      assert a + b == b;
    } else {
      assert (a + b)[0] == a[0] && (a + b)[1..] == a[1..] + b;
      CountCharConcat(a[1..], b, c);
    }
  }

  /** `s` holds a decimal digit. */
  predicate HasDigit(s: string) {
    s != [] && (IsDigit(s[0]) || HasDigit(s[1..]))
  }

  lemma {:induction false} HasDigitConcat(a: string, b: string)
    ensures HasDigit(a + b) <==> HasDigit(a) || HasDigit(b)
  {
    if a == [] {
      assert a + b == b;
    } else {
      assert (a + b)[0] == a[0] && (a + b)[1..] == a[1..] + b;
      HasDigitConcat(a[1..], b);
    }
  }

  predicate DigitsAndCommas(s: string) {
    forall k :: 0 <= k < |s| ==> IsDigit(s[k]) || s[k] == ','
  }

  /** Removing the points of a token leaves its digits and commas. */
  lemma {:induction false} StripDotsKeeps(s: string)
    requires forall k :: 0 <= k < |s| ==> IsNumberChar(s[k])
    ensures DigitsAndCommas(StripDots(s))
    ensures CountChar(StripDots(s), ',') == CountChar(s, ',')
    ensures HasDigit(StripDots(s)) <==> HasDigit(s)
  {
    if s != [] {
      var head := if s[0] == '.' then "" else [s[0]];
      var tail := StripDots(s[1..]);
      assert StripDots(s) == head + tail;
      StripDotsKeeps(s[1..]);
      CountCharConcat(head, tail, ',');
      HasDigitConcat(head, tail);
      assert forall k :: 0 <= k < |head| ==> (head + tail)[k] == s[0];
      assert forall k :: |head| <= k < |head + tail| ==> (head + tail)[k] == tail[k - |head|];
    }
  }

  /** A string of digits and commas is all digits exactly when it has no comma. */
  lemma {:induction false} DigitsWithoutCommas(u: string)
    requires DigitsAndCommas(u)
    ensures AllDigits(u) <==> CountChar(u, ',') == 0
    ensures CountChar(u, ',') == 0 ==> (u != "" <==> HasDigit(u))
  {
    if u != [] {
      DigitsWithoutCommas(u[1..]);
    }
  }

  /** Replacing the first comma of a comma-free prefix. */
  lemma {:induction false} ReplaceFirstCommaSplit(a: string, b: string)
    requires forall k :: 0 <= k < |a| ==> a[k] != ','
    ensures ReplaceFirstComma(a + "," + b) == a + "." + b
    ensures ReplaceFirstComma(a) == a
  {
    if a == [] {
      assert a + "," + b == "," + b;
    } else {
      assert (a + "," + b)[0] == a[0] && (a + "," + b)[1..] == a[1..] + "," + b;
      ReplaceFirstCommaSplit(a[1..], b);
      assert a == [a[0]] + a[1..];
    }
  }

  /** The first comma of a string that has one. */
  lemma FirstComma(u: string) returns (i: nat)
    requires CountChar(u, ',') > 0
    ensures i < |u| && u[i] == ',' && forall k :: 0 <= k < i ==> u[k] != ','
  {
    i := 0;
    while u[i] != ','
      invariant i < |u|
      invariant forall k :: 0 <= k < i ==> u[k] != ','
      invariant CountChar(u[i..], ',') > 0
      decreases |u| - i
    {
      assert u[i..] == [u[i]] + u[i + 1..];
      CountCharConcat([u[i]], u[i + 1..], ',');
      i := i + 1;
    }
  }

  /** A string none of whose characters is `c` does not contain `[c]`. */
  lemma CharAbsent(u: string, c: char)
    requires forall k :: 0 <= k < |u| ==> u[k] != c
    ensures !Contains(u, [c])
  {
    forall i ensures !OccursAt(u, [c], i) {
      if 0 <= i < |u| {
        assert u[i..i + 1][0] == u[i];
      }
    }
  }

  /** `Number` of a string without a point. */
  lemma JsNumberWithoutPoint(u: string)
    requires forall k :: 0 <= k < |u| ==> u[k] != '.'
    ensures JsNumber(u) == if u == "" then Some(0.0) else if AllDigits(u) then Some(DigitsValue(u) as real) else None
  {
    CharAbsent(u, '.');
  }

  /** `Number` of digits, a point and the rest. */
  lemma JsNumberDecimal(a: string, b: string)
    requires AllDigits(a)
    ensures JsNumber(a + "." + b) ==
      if AllDigits(b) && |a| + |b| > 0 then Some(DecimalValue(a, b))
      else None
  {
    var v := a + "." + b;
    IndexOfDecimal(a, b);
    assert v[..|a|] == a && v[|a| + 1..] == b;
  }

  lemma IndexOfDecimal(a: string, b: string)
    requires AllDigits(a)
    ensures IndexOf(a + "." + b, ".") == Some(|a|)
  {
    var v := a + "." + b;
    assert OccursAt(v, ".", |a|) by {
      assert v[|a|..|a| + 1] == ".";
    }
    forall j | 0 <= j < |a| ensures !OccursAt(v, ".", j) {
      assert v[j..j + 1][0] == a[j];
    }
  }
  /** A token without commas. */
  lemma NumericTokenWithoutComma(t: NumberToken)
    requires CountChar(t, ',') == 0
    ensures ParseNumericToken(t).Some?
  {
    var u := StripDots(t);
    StripDotsKeeps(t);
    DigitsWithoutCommas(u);
    ReplaceFirstCommaSplit(u, "");
    JsNumberWithoutPoint(u);
  }

  /** The digits before the first comma, and the rest after it. */
  lemma SplitAtFirstComma(u: string, i: nat)
    requires DigitsAndCommas(u) && i < |u| && u[i] == ','
    requires forall k :: 0 <= k < i ==> u[k] != ','
    ensures u == u[..i] + "," + u[i + 1..]
    ensures AllDigits(u[..i]) && DigitsAndCommas(u[i + 1..])
  {
    assert u[i..i + 1] == ",";
    assert u == u[..i] + u[i..i + 1] + u[i + 1..];
  }

  /** A token with commas: the first one becomes the decimal point. */
  lemma NumericTokenWithComma(t: NumberToken)
    requires CountChar(t, ',') > 0
    ensures ParseNumericToken(t).Some? <==> CountChar(t, ',') == 1 && HasDigit(t)
  {
    var u := StripDots(t);
    StripDotsKeeps(t);
    var i := FirstComma(u);
    var a, b := u[..i], u[i + 1..];
    SplitAtFirstComma(u, i);
    ReplaceFirstCommaSplit(a, b);
    JsNumberDecimal(a, b);
    CountCharConcat(a + ",", b, ',');
    CountCharConcat(a, ",", ',');
    DigitsWithoutCommas(a);
    DigitsWithoutCommas(b);
    HasDigitConcat(a + ",", b);
    HasDigitConcat(a, ",");
    assert !HasDigit(",");
  }

  /** Exactly when `parseNumericToken` gives NaN on a captured token: when the
      token has two or more commas, or one comma and no digit. A token made of
      points only becomes the empty string, which is 0. */
  lemma ParseNumericTokenDefined(t: NumberToken)
    ensures ParseNumericToken(t).Some? <==>
      CountChar(t, ',') == 0 || (CountChar(t, ',') == 1 && HasDigit(t))
  {
    if CountChar(t, ',') == 0 {
      NumericTokenWithoutComma(t);
    } else {
      NumericTokenWithComma(t);
    }
  }

  /** A token whose digits come without a comma. */
  lemma IntegerToken(raw: string, a: string)
    requires raw != "" && StripDots(raw) == a && AllDigits(a)
    ensures ParseNumericToken(raw) == JsNumber(a)
    ensures a != "" ==> ParseNumericToken(raw) == Some(DigitsValue(a) as real)
  {
    ReplaceFirstCommaSplit(a, "");
    JsNumberWithoutPoint(a);
  }

  /** A token whose digits are split by a single comma. */
  lemma DecimalToken(raw: string, a: string, b: string)
    requires raw != "" && StripDots(raw) == a + "," + b && AllDigits(a)
    ensures ParseNumericToken(raw) == JsNumber(a + "." + b)
    ensures AllDigits(b) && |a| + |b| > 0 ==> ParseNumericToken(raw) == Some(DecimalValue(a, b))
  {
    ReplaceFirstCommaSplit(a, b);
    JsNumberDecimal(a, b);
  }

  /** A string without points is its own `StripDots`. */
  lemma {:induction false} StripDotsNoDots(s: string)
    requires forall k :: 0 <= k < |s| ==> s[k] != '.'
    ensures StripDots(s) == s
  {
    if s != [] {
      StripDotsNoDots(s[1..]);
      assert s == [s[0]] + s[1..];
    }
  }

  /** Removing the one point between two point-free strings joins them. */
  lemma {:induction false} StripDotsAround(a: string, b: string)
    requires forall k :: 0 <= k < |a| ==> a[k] != '.'
    requires forall k :: 0 <= k < |b| ==> b[k] != '.'
    ensures StripDots(a + "." + b) == a + b
  {
    if a == [] {
      assert a + "." + b == "." + b && ("." + b)[1..] == b;
      StripDotsNoDots(b);
    } else {
      assert (a + "." + b)[0] == a[0] && (a + "." + b)[1..] == a[1..] + "." + b;
      StripDotsAround(a[1..], b);
      assert a + b == [a[0]] + (a[1..] + b);
    }
  }

  /** A token of digits is their value. */
  lemma DigitsToken(s: string)
    requires s != "" && AllDigits(s)
    ensures ParseNumericToken(s) == Some(DigitsValue(s) as real)
  {
    StripDotsNoDots(s);
    IntegerToken(s, s);
  }

  function DigitOf(c: char): int {
    c as int - '0' as int
  }

  lemma DigitsValue2(s: string)
    requires |s| == 2 && AllDigits(s)
    ensures DigitsValue(s) == DigitOf(s[0]) * 10 + DigitOf(s[1])
  {
    var t := s[..1];
    assert t[..0] == [] && t[0] == s[0];
    assert DigitsValue(t) == DigitOf(s[0]);
  }

  lemma DigitsValue3(s: string)
    requires |s| == 3 && AllDigits(s)
    ensures DigitsValue(s) == DigitOf(s[0]) * 100 + DigitOf(s[1]) * 10 + DigitOf(s[2])
  {
    DigitsValue2(s[..2]);
  }

  lemma DigitsValue4(s: string)
    requires |s| == 4 && AllDigits(s)
    ensures DigitsValue(s) == DigitOf(s[0]) * 1000 + DigitOf(s[1]) * 100 + DigitOf(s[2]) * 10 + DigitOf(s[3])
  {
    DigitsValue3(s[..3]);
  }

  lemma DigitsExample()
    ensures DecimalValue("1200", "50") == 1200.5
  {
    DigitsValue4("1200");
    DigitsValue2("50");
  }

  lemma AllDigitsConcat(a: string, b: string)
    requires AllDigits(a) && AllDigits(b)
    ensures AllDigits(a + b)
  {
    assert forall k :: 0 <= k < |a + b| ==> (a + b)[k] == if k < |a| then a[k] else b[k - |a|];
  }

  /** Brazilian separators: the points group thousands, the comma is the
      decimal point. */
  lemma ThousandsAndDecimals(a: string, b: string, c: string)
    requires AllDigits(a) && AllDigits(b) && AllDigits(c) && |a| + |b| + |c| > 0
    ensures ParseNumericToken(a + "." + b + "," + c) == Some(DecimalValue(a + b, c))
  {
    var raw := a + "." + b + "," + c;
    assert raw == a + "." + (b + "," + c);
    StripDotsAround(a, b + "," + c);
    assert a + (b + "," + c) == a + b + "," + c;
    AllDigitsConcat(a, b);
    DecimalToken(raw, a + b, c);
  }

  /** For instance "1.200,50" is 1200.5. */
  lemma ThousandsAndDecimalsExample()
    ensures ParseNumericToken("1" + "." + "200" + "," + "50") == Some(1200.5)
  {
    ThousandsAndDecimals("1", "200", "50");
    assert "1" + "200" == "1200";
    DigitsExample();
  }

  lemma Token15()
    ensures ParseNumericToken("1.5") == Some(15.0)
  {
    assert "1.5" == "1" + "." + "5";
    StripDotsAround("1", "5");
    IntegerToken("1.5", "15");
    DigitsValue2("15");
  }

  /** A point always groups thousands, so "1.5" is fifteen. */
  lemma PointIsThousands()
    ensures ParseNumericToken("1.5") == Some(15.0)
    ensures ParsePriceValue("1.5", Some("milhoes")) == Some(15000000.0)
  {
    Token15();
    UnitTokenScale("milhoes");
  }

  /** Points alone are the empty string, which `Number` reads as zero. */
  lemma PointsAloneAreZero()
    ensures ParseNumericToken("...") == Some(0.0)
  {
    assert StripDots("...") == "";
  }

  /** A second comma stays a comma, which is not a number. */
  lemma TwoCommasAreNaN(a: string, b: string, c: string)
    requires AllDigits(a) && AllDigits(b) && AllDigits(c)
    ensures ParseNumericToken(a + "," + b + "," + c) == None
  {
    var bc := b + "," + c;
    var raw := a + "," + bc;
    assert raw == a + "," + b + "," + c;
    assert DigitsAndCommas(bc) && DigitsAndCommas(raw) by {
      assert forall k :: 0 <= k < |bc| ==> bc[k] == if k < |b| then b[k] else if k == |b| then ',' else c[k - |b| - 1];
      assert forall k :: 0 <= k < |raw| ==> raw[k] == if k < |a| then a[k] else if k == |a| then ',' else bc[k - |a| - 1];
    }
    StripDotsNoDots(raw);
    DecimalToken(raw, a, bc);
    assert bc[|b|] == ',';
    JsNumberDecimal(a, bc);
  }

  lemma Token2()
    ensures ParseNumericToken("2") == Some(2.0)
  {
    DigitsToken("2");
  }

  lemma Token500()
    ensures ParseNumericToken("500") == Some(500.0)
  {
    DigitsToken("500");
    DigitsValue3("500");
  }

  lemma Token800()
    ensures ParseNumericToken("800") == Some(800.0)
  {
    DigitsToken("800");
    DigitsValue3("800");
  }

  /** The magnitude words: "mi" is a million, "mil" a thousand, no word is one. */
  lemma MillionExample()
    ensures ParsePriceValue("2", Some("mi")) == Some(2000000.0)
  {
    Token2();
    UnitTokenScale("mi");
  }

  lemma FiveHundredThousand()
    ensures ParsePriceValue("500", Some("mil")) == Some(500000.0)
  {
    Token500();
    UnitTokenScale("mil");
  }

  lemma ThousandExample()
    ensures ParsePriceValue("800", Some("mil")) == Some(800000.0)
  {
    Token800();
    UnitTokenScale("mil");
  }

  lemma UnscaledExample()
    ensures ParsePriceValue("500", None) == Some(500.0)
    ensures ParsePriceValue("2", None) == Some(2.0)
  {
    Token2();
    Token500();
  }
}
