/** `parsePriceFilter` (src/server.js:143-188): the price range a chat message
    asks for. Rules are tried in order on the normalised text: an explicit
    range, an upper bound, a lower bound, and last a bare "de <valor>" read as a
    band of plus or minus 15% around the value, which a mention of rooms,
    suites, parking spaces or square metres switches off.

    The four capturing regular expressions are parameters (`Matchers`): each
    gives the groups of its first match or `None`, and the types of the groups
    are those the expressions allow. The room-hint expression has no groups and
    is modelled exactly. */
module PriceRules {
  import opened Wrappers
  import opened Strings
  import opened TextNormal
  import opened PriceTokens

  /** The number and optional unit groups of one price in a match. */
  datatype Capture = Capture(number: NumberToken, unit: Option<UnitToken>)

  /** The range, upper-bound, lower-bound and shorthand expressions. */
  datatype Matchers = Matchers(
    range: string -> Option<(Capture, Capture)>,
    upTo: string -> Option<Capture>,
    from: string -> Option<Capture>,
    shorthand: string -> Option<Capture>)

  /** `{ min, max }`, either of which may be absent. */
  datatype PriceFilter = PriceFilter(min: Option<real>, max: Option<real>)

  /** Every captured number occurs in the text it was matched in. */
  ghost predicate Sound(m: Matchers) {
    (forall t :: m.range(t).Some? ==> Contains(t, m.range(t).value.0.number) && Contains(t, m.range(t).value.1.number))
    && (forall t :: m.upTo(t).Some? ==> Contains(t, m.upTo(t).value.number))
    && (forall t :: m.from(t).Some? ==> Contains(t, m.from(t).value.number))
    && (forall t :: m.shorthand(t).Some? ==> Contains(t, m.shorthand(t).value.number))
  }

  /** `\w` of a regular expression without the unicode flag. */
  predicate IsWordChar(c: char) {
    'a' <= c <= 'z' || 'A' <= c <= 'Z' || '0' <= c <= '9' || c == '_'
  }

  predicate WordCharAt(s: string, i: int) {
    0 <= i < |s| && IsWordChar(s[i])
  }

  /** `\b` holds between positions `i - 1` and `i`. */
  predicate Boundary(s: string, i: int) {
    WordCharAt(s, i - 1) != WordCharAt(s, i)
  }

  /** `\bw\b` matches at `i`. */
  predicate WholeWordAt(s: string, w: string, i: int) {
    0 <= i && i + |w| <= |s| && s[i..i + |w|] == w && Boundary(s, i) && Boundary(s, i + |w|)
  }

  /** The words of `\bquartos?\b|\bsuites?\b|\bvagas?\b|\bm2\b`. */
  const ROOM_WORDS: seq<string> := ["quarto", "quartos", "suite", "suites", "vaga", "vagas", "m2"]

  /** The room-hint expression matches somewhere in `text`. */
  predicate HasRoomHint(text: string) {
    exists i, w | 0 <= i <= |text| && w in ROOM_WORDS :: WholeWordAt(text, w, i)
  }

  function Min(a: real, b: real): real {
    if a <= b then a else b
  }

  function Max(a: real, b: real): real {
    if a >= b then a else b
  }

  /** The explicit range: both numbers must parse; the order they are written
      in does not matter. */
  function RangeRule(m: Matchers, text: string): (r: Option<PriceFilter>)
  {
    match m.range(text)
    case None => None
    case Some((a, b)) =>
      match (ParsePriceValue(a.number, a.unit), ParsePriceValue(b.number, b.unit))
      case (Some(v1), Some(v2)) => Some(PriceFilter(Some(Min(v1, v2)), Some(Max(v1, v2))))
      case _ => None
  }

  function UpToRule(m: Matchers, text: string): (r: Option<PriceFilter>)
  {
    match m.upTo(text)
    case None => None
    case Some(c) =>
      match ParsePriceValue(c.number, c.unit)
      case None => None
      case Some(v) => Some(PriceFilter(None, Some(v)))
  }

  function FromRule(m: Matchers, text: string): (r: Option<PriceFilter>)
  {
    match m.from(text)
    case None => None
    case Some(c) =>
      match ParsePriceValue(c.number, c.unit)
      case None => None
      case Some(v) => Some(PriceFilter(Some(v), None))
  }

  /** The value a bare "de <valor>" stands for: a number from 1 to 20 without a
      unit is read as millions. */
  function ShorthandValue(c: Capture, v: real): real {
    if c.unit.None? && 1.0 <= v <= 20.0 then v * 1000000.0 else v
  }

  function ShorthandRule(m: Matchers, text: string): (r: Option<PriceFilter>)
  {
    match m.shorthand(text)
    case None => None
    case Some(c) =>
      match ParsePriceValue(c.number, c.unit)
      case None => None
      case Some(v) =>
        var value := ShorthandValue(c, v);
        if value > 0.0 then Some(PriceFilter(Some(value * 0.85), Some(value * 1.15))) else None
  }

  /** The rules in order, on normalised text. */
  function PriceFilterOfText(m: Matchers, text: string): (r: Option<PriceFilter>)
  {
    var range := RangeRule(m, text);
    if range.Some? then range
    else
      var upTo := UpToRule(m, text);
      if upTo.Some? then upTo
      else
        var from := FromRule(m, text);
        if from.Some? then from
        else if HasRoomHint(text) then None
        else ShorthandRule(m, text)
  }

  /** A single-price rule applies when its expression matches and its price
      parses. */
  predicate Applies(c: Option<Capture>) {
    c.Some? && ParsePriceValue(c.value.number, c.value.unit).Some?
  }

  /** The range rule applies when its expression matches and both prices
      parse. */
  predicate RangeApplies(m: Matchers, text: string) {
    m.range(text).Some?
    && ParsePriceValue(m.range(text).value.0.number, m.range(text).value.0.unit).Some?
    && ParsePriceValue(m.range(text).value.1.number, m.range(text).value.1.unit).Some?
  }

  /** The first rule that applies decides: a range gives both bounds, an upper
      or a lower bound gives that bound alone, and a room hint leaves the
      shorthand out; a rule whose price does not parse gives way to the next. */
  lemma RulePrecedence(m: Matchers, text: string)
    ensures RangeApplies(m, text) ==>
              var v1 := ParsePriceValue(m.range(text).value.0.number, m.range(text).value.0.unit).value;
              var v2 := ParsePriceValue(m.range(text).value.1.number, m.range(text).value.1.unit).value;
              PriceFilterOfText(m, text) == Some(PriceFilter(Some(Min(v1, v2)), Some(Max(v1, v2))))
    ensures !RangeApplies(m, text) && Applies(m.upTo(text)) ==>
              PriceFilterOfText(m, text) == Some(PriceFilter(None, ParsePriceValue(m.upTo(text).value.number, m.upTo(text).value.unit)))
    ensures !RangeApplies(m, text) && !Applies(m.upTo(text)) && Applies(m.from(text)) ==>
              PriceFilterOfText(m, text) == Some(PriceFilter(ParsePriceValue(m.from(text).value.number, m.from(text).value.unit), None))
    ensures !RangeApplies(m, text) && !Applies(m.upTo(text)) && !Applies(m.from(text)) ==>
              PriceFilterOfText(m, text) == if HasRoomHint(text) then None else ShorthandRule(m, text)
    ensures PriceFilterOfText(m, text).Some? ==>
              RangeApplies(m, text) || Applies(m.upTo(text)) || Applies(m.from(text))
              || (!HasRoomHint(text) && Applies(m.shorthand(text)))
  {
  }

  /** `parsePriceFilter(message)`. */
  function ParsePriceFilter(m: Matchers, message: string): (r: Option<PriceFilter>)
    ensures r.Some? ==> r.value.min.Some? || r.value.max.Some?
    ensures r.Some? && r.value.min.Some? ==> r.value.min.value >= 0.0
    ensures r.Some? && r.value.max.Some? ==> r.value.max.value >= 0.0
    ensures r.Some? && r.value.min.Some? && r.value.max.Some? ==> r.value.min.value <= r.value.max.value
  {
    PriceFilterOfText(m, Normalize(message))
  }

  /** The same expressions with the two prices of a range match exchanged. */
  function Swapped(m: Matchers): Matchers {
    m.(range := t => match m.range(t) case None => None case Some((a, b)) => Some((b, a)))
  }

  lemma RangeRuleSwapped(m: Matchers, text: string)
    ensures RangeRule(Swapped(m), text) == RangeRule(m, text)
  {
    match m.range(text)
    case None =>
      assert Swapped(m).range(text).None?;
    case Some((a, b)) =>
      assert Swapped(m).range(text) == Some((b, a));
  }

  /** "de 800 mil a 500 mil" asks for the same range as "de 500 mil a 800 mil". */
  lemma RangeOrderIrrelevant(m: Matchers, message: string)
    ensures ParsePriceFilter(Swapped(m), message) == ParsePriceFilter(m, message)
  {
    var text := Normalize(message);
    RangeRuleSwapped(m, text);
    assert Swapped(m).upTo == m.upTo && Swapped(m).from == m.from && Swapped(m).shorthand == m.shorthand;
    assert PriceFilterOfText(Swapped(m), text) == PriceFilterOfText(m, text);
  }

  /** The same expressions with the shorthand one never matching. */
  function NoShorthand(m: Matchers): Matchers {
    m.(shorthand := t => None)
  }

  /** A mention of rooms or area switches off the shorthand rule and nothing
      else; without such a mention the shorthand rule is the only way a result
      can hold a band around a single value. */
  lemma RoomHintBlocksShorthand(m: Matchers, message: string)
    ensures HasRoomHint(Normalize(message)) ==> ParsePriceFilter(m, message) == ParsePriceFilter(NoShorthand(m), message)
    ensures ParsePriceFilter(NoShorthand(m), message).Some? ==> ParsePriceFilter(m, message) == ParsePriceFilter(NoShorthand(m), message)
  {
    var text := Normalize(message);
    assert RangeRule(NoShorthand(m), text) == RangeRule(m, text);
    assert UpToRule(NoShorthand(m), text) == UpToRule(m, text);
    assert FromRule(NoShorthand(m), text) == FromRule(m, text);
    assert ShorthandRule(NoShorthand(m), text) == None;
  }

  /** The shorthand band contains the value it is built around. */
  lemma ShorthandBandContainsValue(m: Matchers, text: string)
    requires RangeRule(m, text).None? && UpToRule(m, text).None? && FromRule(m, text).None?
    requires !HasRoomHint(text)
    requires m.shorthand(text).Some?
    requires ParsePriceValue(m.shorthand(text).value.number, m.shorthand(text).value.unit).Some?
    ensures var c := m.shorthand(text).value;
            var value := ShorthandValue(c, ParsePriceValue(c.number, c.unit).value);
            PriceFilterOfText(m, text) == if value > 0.0 then Some(PriceFilter(Some(value * 0.85), Some(value * 1.15))) else None
    ensures PriceFilterOfText(m, text).Some? ==>
            var c := m.shorthand(text).value;
            var value := ShorthandValue(c, ParsePriceValue(c.number, c.unit).value);
            PriceFilterOfText(m, text).value.min.value < value < PriceFilterOfText(m, text).value.max.value
  {
  }

  /** Normalisation never makes a digit, point or comma out of another character. */
  lemma {:induction false} NormalizeKeepsNonNumbers(s: string)
    requires forall k :: 0 <= k < |s| ==> !IsNumberChar(s[k])
    ensures forall k :: 0 <= k < |Normalize(s)| ==> !IsNumberChar(Normalize(s)[k])
  {
    if s != [] {
      NormalizeKeepsNonNumbers(s[1..]);
      var head, tail := Fold(s[0]), Normalize(s[1..]);
      assert Normalize(s) == head + tail;
      assert forall k :: |head| <= k < |head + tail| ==> (head + tail)[k] == tail[k - |head|];
    }
  }

  /** A number token cannot occur in a text without digits, points or commas. */
  lemma TokenAbsent(text: string, tok: NumberToken)
    requires forall k :: 0 <= k < |text| ==> !IsNumberChar(text[k])
    ensures !Contains(text, tok)
  {
    forall i ensures !OccursAt(text, tok, i) {
      if 0 <= i && i + |tok| <= |text| {
        assert text[i..i + |tok|][0] == text[i];
      }
    }
  }

  /** A message that writes no digit, point or comma asks for no price; the
      empty message in particular. */
  lemma NoNumberNoPriceFilter(m: Matchers, message: string)
    requires Sound(m)
    requires forall k :: 0 <= k < |message| ==> !IsNumberChar(message[k])
    ensures ParsePriceFilter(m, message).None?
  {
    NormalizeKeepsNonNumbers(message);
    NoNumberNoMatch(m, Normalize(message));
  }

  /** None of the expressions matches a text without digits, points or
      commas. */
  lemma NoNumberNoMatch(m: Matchers, text: string)
    requires Sound(m)
    requires forall k :: 0 <= k < |text| ==> !IsNumberChar(text[k])
    ensures m.range(text).None? && m.upTo(text).None? && m.from(text).None? && m.shorthand(text).None?
  {
    forall tok: NumberToken ensures !Contains(text, tok) {
      TokenAbsent(text, tok);
    }
  }

  /** "de 500 mil a 800 mil". */
  lemma RangeExample(m: Matchers, text: string)
    requires m.range(text) == Some((Capture("500", Some("mil")), Capture("800", Some("mil"))))
    ensures PriceFilterOfText(m, text) == Some(PriceFilter(Some(500000.0), Some(800000.0)))
  {
    ThousandExample();
    FiveHundredThousand();
  }

  /** "ate 1.5 milhoes": the point groups thousands, so the bound is fifteen
      million. */
  lemma UpToExample(m: Matchers, text: string)
    requires m.range(text).None?
    requires m.upTo(text) == Some(Capture("1.5", Some("milhoes")))
    ensures PriceFilterOfText(m, text) == Some(PriceFilter(None, Some(15000000.0)))
  {
    PointIsThousands();
  }

  /** Every room word starts with one of these letters. */
  predicate IsRoomInitial(c: char) {
    c == 'q' || c == 's' || c == 'v' || c == 'm'
  }

  /** A text none of whose characters can start a room word has no room hint. */
  lemma NoRoomInitialNoHint(text: string)
    requires forall k :: 0 <= k < |text| ==> !IsRoomInitial(text[k])
    ensures !HasRoomHint(text)
  {
    forall i, w | 0 <= i <= |text| && w in ROOM_WORDS ensures !WholeWordAt(text, w, i) {
      assert IsRoomInitial(w[0]);
      if i + |w| <= |text| {
        assert text[i..i + |w|][0] == text[i];
      }
    }
  }

  /** "apto de 2": two million, plus or minus 15%. */
  lemma ShorthandExample(m: Matchers)
    requires m.range("apto de 2").None? && m.upTo("apto de 2").None? && m.from("apto de 2").None?
    requires m.shorthand("apto de 2") == Some(Capture("2", None))
    ensures PriceFilterOfText(m, "apto de 2") == Some(PriceFilter(Some(1700000.0), Some(2300000.0)))
  {
    NoRoomInitialNoHint("apto de 2");
    UnscaledExample();
  }

  /** "3 quartos de 2": the "de 2" is the rooms' count context, not a price. */
  lemma RoomHintExample(m: Matchers)
    requires m.range("3 quartos de 2").None? && m.upTo("3 quartos de 2").None? && m.from("3 quartos de 2").None?
    ensures PriceFilterOfText(m, "3 quartos de 2").None?
  {
    var text := "3 quartos de 2";
    assert WholeWordAt(text, "quartos", 2);
  }
}
