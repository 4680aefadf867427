/** The string helpers both pages use before text reaches the markup:
    `sanitizeInput` (src/public/admin/admin.js:561-563, and the same function
    in src/public/js/app.js:335-337), `escapeHTML` and `escapeAttr`
    (src/public/js/app.js:367-378) and `truncateText`
    (src/public/admin/admin.js:211-215). */
module TextSafety {
  import opened Strings
  import opened Seqs

  predicate IsAngle(c: char) {
    c == '<' || c == '>'
  }

  predicate KeptBySanitize(c: char) {
    !IsAngle(c)
  }

  /** `value.replace(/[<>]/g, '')`. */
  function SanitizeInput(value: string): (r: string)
    ensures '<' !in r && '>' !in r
    ensures |r| <= |value|
  {
    if value == [] then []
    else if IsAngle(value[0]) then SanitizeInput(value[1..])
    else [value[0]] + SanitizeInput(value[1..])
  }

  /** Sanitising deletes exactly the angle brackets and keeps every other
      character, in order. */
  lemma {:induction false} SanitizeKeepsOthers(value: string)
    ensures SanitizeInput(value) == Filter(value, KeptBySanitize)
  {
    if value != [] {
      SanitizeKeepsOthers(value[1..]);
      assert value == [value[0]] + value[1..];
      FilterCons(value[0], value[1..], KeptBySanitize);
    }
  }

  /** Text is left unchanged exactly when it has no angle bracket. */
  lemma {:induction false} SanitizeFixpoint(value: string)
    ensures SanitizeInput(value) == value <==> '<' !in value && '>' !in value
  {
    if value != [] {
      SanitizeFixpoint(value[1..]);
      assert value == [value[0]] + value[1..];
      if IsAngle(value[0]) {
        assert |SanitizeInput(value)| < |value| by {
          assert SanitizeInput(value) == SanitizeInput(value[1..]);
        }
      }
    }
  }

  /** Sanitising twice is sanitising once. */
  lemma SanitizeIdempotent(value: string)
    ensures SanitizeInput(SanitizeInput(value)) == SanitizeInput(value)
  {
    SanitizeFixpoint(SanitizeInput(value));
  }

  /** `s.replace(/c/g, rep)` for a single character `c`. */
  function ReplaceChar(s: string, c: char, rep: string): string {
    if s == [] then []
    else (if s[0] == c then rep else [s[0]]) + ReplaceChar(s[1..], c, rep)
  }

  lemma {:induction false} ReplaceCharConcat(a: string, b: string, c: char, rep: string)
    ensures ReplaceChar(a + b, c, rep) == ReplaceChar(a, c, rep) + ReplaceChar(b, c, rep)
  {
    if a != [] {
      ReplaceCharConcat(a[1..], b, c, rep);
      assert (a + b)[0] == a[0] && (a + b)[1..] == a[1..] + b;
    } else {
      assert a + b == b;
    }
  }

  /** Replacing a character that does not occur changes nothing. */
  lemma {:induction false} ReplaceCharAbsent(s: string, c: char, rep: string)
    requires c !in s
    ensures ReplaceChar(s, c, rep) == s
  {
    if s != [] {
      ReplaceCharAbsent(s[1..], c, rep);
      assert s == [s[0]] + s[1..];
    }
  }

  lemma ReplaceCharOne(x: char, c: char, rep: string)
    ensures ReplaceChar([x], c, rep) == if x == c then rep else [x]
  {
    assert [x][1..] == [];
  }

  /** `escapeHTML`: five replacements in turn, the ampersand first. */
  function EscapeHTML(value: string): string {
    ReplaceChar(ReplaceChar(ReplaceChar(ReplaceChar(ReplaceChar(
      value, '&', "&amp;"), '<', "&lt;"), '>', "&gt;"), '"', "&quot;"), '\'', "&#39;")
  }

  /** `escapeAttr`: `escapeHTML`, then the backtick. */
  function EscapeAttr(value: string): string {
    ReplaceChar(EscapeHTML(value), '`', "&#96;")
  }

  /** The entity each character stands for in escaped text. */
  function EscapeChar(c: char): (r: string)
    ensures |r| >= 1 && r[0] == (if c in "&<>\"'" then '&' else c)
  {
    if c == '&' then "&amp;"
    else if c == '<' then "&lt;"
    else if c == '>' then "&gt;"
    else if c == '"' then "&quot;"
    else if c == '\'' then "&#39;"
    else [c]
  }

  function EscapeAttrChar(c: char): (r: string)
    ensures |r| >= 1
  {
    if c == '`' then "&#96;" else EscapeChar(c)
  }

  /** Escaping character by character, the reference for both functions. */
  function EscapeEach(value: string, attr: bool): string {
    if value == [] then []
    else (if attr then EscapeAttrChar(value[0]) else EscapeChar(value[0])) + EscapeEach(value[1..], attr)
  }

  /** The passes after the one that wrote `e` leave it alone. */
  lemma PassesFrom(e: string, k: nat)
    requires 1 <= k <= 5
    requires k <= 1 ==> '<' !in e
    requires k <= 2 ==> '>' !in e
    requires k <= 3 ==> '"' !in e
    requires k <= 4 ==> '\'' !in e
    ensures k <= 1 ==> ReplaceChar(e, '<', "&lt;") == e
    ensures k <= 2 ==> ReplaceChar(e, '>', "&gt;") == e
    ensures k <= 3 ==> ReplaceChar(e, '"', "&quot;") == e
    ensures k <= 4 ==> ReplaceChar(e, '\'', "&#39;") == e
  {
    if k <= 1 { ReplaceCharAbsent(e, '<', "&lt;"); }
    if k <= 2 { ReplaceCharAbsent(e, '>', "&gt;"); }
    if k <= 3 { ReplaceCharAbsent(e, '"', "&quot;"); }
    if k <= 4 { ReplaceCharAbsent(e, '\'', "&#39;"); }
  }

  lemma EscapeHTMLChar(c: char)
    ensures EscapeHTML([c]) == EscapeChar(c)
  {
    ReplaceCharOne(c, '&', "&amp;");
    ReplaceCharOne(c, '<', "&lt;");
    ReplaceCharOne(c, '>', "&gt;");
    ReplaceCharOne(c, '"', "&quot;");
    ReplaceCharOne(c, '\'', "&#39;");
    if c == '&' {
      PassesFrom("&amp;", 1);
    } else if c == '<' {
      PassesFrom("&lt;", 2);
    } else if c == '>' {
      PassesFrom("&gt;", 3);
    } else if c == '"' {
      PassesFrom("&quot;", 4);
    }
  }

  lemma EscapeAttrChar1(c: char)
    ensures EscapeAttr([c]) == EscapeAttrChar(c)
  {
    EscapeHTMLChar(c);
    if c == '`' {
      ReplaceCharOne(c, '`', "&#96;");
    } else {
      ReplaceCharAbsent(EscapeChar(c), '`', "&#96;");
    }
  }

  lemma EscapeHTMLConcat(a: string, b: string)
    ensures EscapeHTML(a + b) == EscapeHTML(a) + EscapeHTML(b)
  {
    ReplaceCharConcat(a, b, '&', "&amp;");
    var a1, b1 := ReplaceChar(a, '&', "&amp;"), ReplaceChar(b, '&', "&amp;");
    ReplaceCharConcat(a1, b1, '<', "&lt;");
    var a2, b2 := ReplaceChar(a1, '<', "&lt;"), ReplaceChar(b1, '<', "&lt;");
    ReplaceCharConcat(a2, b2, '>', "&gt;");
    var a3, b3 := ReplaceChar(a2, '>', "&gt;"), ReplaceChar(b2, '>', "&gt;");
    ReplaceCharConcat(a3, b3, '"', "&quot;");
    var a4, b4 := ReplaceChar(a3, '"', "&quot;"), ReplaceChar(b3, '"', "&quot;");
    ReplaceCharConcat(a4, b4, '\'', "&#39;");
  }

  /** Because the ampersand goes first, the five passes never escape an
      entity another pass made: together they escape each character once. */
  lemma {:induction false} EscapeHTMLIsPerChar(value: string)
    ensures EscapeHTML(value) == EscapeEach(value, false)
  {
    if value != [] {
      EscapeHTMLIsPerChar(value[1..]);
      assert value == [value[0]] + value[1..];
      EscapeHTMLConcat([value[0]], value[1..]);
      EscapeHTMLChar(value[0]);
    }
  }

  lemma {:induction false} EscapeAttrIsPerChar(value: string)
    ensures EscapeAttr(value) == EscapeEach(value, true)
  {
    if value != [] {
      EscapeAttrIsPerChar(value[1..]);
      assert value == [value[0]] + value[1..];
      EscapeHTMLConcat([value[0]], value[1..]);
      ReplaceCharConcat(EscapeHTML([value[0]]), EscapeHTML(value[1..]), '`', "&#96;");
      EscapeAttrChar1(value[0]);
    }
  }

  /** No character escaped text must not hold survives. */
  lemma {:induction false} EscapeEachAvoids(value: string, attr: bool)
    ensures forall k :: 0 <= k < |EscapeEach(value, attr)| ==>
              EscapeEach(value, attr)[k] !in "<>\"'" && (attr ==> EscapeEach(value, attr)[k] != '`')
  {
    if value != [] {
      EscapeEachAvoids(value[1..], attr);
      var head := if attr then EscapeAttrChar(value[0]) else EscapeChar(value[0]);
      assert EscapeEach(value, attr) == head + EscapeEach(value[1..], attr);
      assert forall k :: 0 <= k < |head| ==> head[k] !in "<>\"'" && (attr ==> head[k] != '`');
    }
  }

  /** `escapeHTML` output has no '<', '>', '"' or '\'', and `escapeAttr`
      output no backtick either. */
  lemma EscapedTextIsInert(value: string)
    ensures forall k :: 0 <= k < |EscapeHTML(value)| ==> EscapeHTML(value)[k] !in "<>\"'"
    ensures forall k :: 0 <= k < |EscapeAttr(value)| ==> EscapeAttr(value)[k] !in "<>\"'`"
  {
    EscapeHTMLIsPerChar(value);
    EscapeAttrIsPerChar(value);
    EscapeEachAvoids(value, false);
    EscapeEachAvoids(value, true);
  }

  /** What a browser reads back from escaped text: the six entities the
      functions write become their characters again. */
  function Unescape(s: string): string
    decreases |s|
  {
    if s == [] then []
    else if "&amp;" <= s then "&" + Unescape(s[5..])
    else if "&lt;" <= s then "<" + Unescape(s[4..])
    else if "&gt;" <= s then ">" + Unescape(s[4..])
    else if "&quot;" <= s then "\"" + Unescape(s[6..])
    else if "&#39;" <= s then "'" + Unescape(s[5..])
    else if "&#96;" <= s then "`" + Unescape(s[5..])
    else [s[0]] + Unescape(s[1..])
  }

  /** Reading back one character, plain or written as an entity. */
  lemma UnescapeStep(c: char, rest: string, attr: bool)
    ensures Unescape((if attr then EscapeAttrChar(c) else EscapeChar(c)) + rest) == [c] + Unescape(rest)
  {
    if c == '&' {
      UnescapeEntity("&amp;", c, rest);
    } else if c == '<' {
      UnescapeEntity("&lt;", c, rest);
    } else if c == '>' {
      UnescapeEntity("&gt;", c, rest);
    } else if c == '"' {
      UnescapeEntity("&quot;", c, rest);
    } else if c == '\'' {
      UnescapeEntity("&#39;", c, rest);
    } else if c == '`' && attr {
      UnescapeEntity("&#96;", c, rest);
    } else {
      var s := [c] + rest;
      assert s[0] == c && s[1..] == rest;
    }
  }

  /** Each entity reads back as its character. */
  lemma UnescapeEntity(e: string, c: char, rest: string)
    requires (e, c) in [("&amp;", '&'), ("&lt;", '<'), ("&gt;", '>'), ("&quot;", '"'), ("&#39;", '\''), ("&#96;", '`')]
    ensures Unescape(e + rest) == [c] + Unescape(rest)
  {
    var s := e + rest;
    assert s[..|e|] == e && s[|e|..] == rest;
    assert s[0] == '&' && s[1] == e[1] && s[2] == e[2];
  }

  /** Escaping loses nothing: reading escaped text back gives the original. */
  lemma {:induction false} UnescapeEscapeEach(value: string, attr: bool)
    ensures Unescape(EscapeEach(value, attr)) == value
  {
    if value != [] {
      UnescapeEscapeEach(value[1..], attr);
      UnescapeStep(value[0], EscapeEach(value[1..], attr), attr);
      assert value == [value[0]] + value[1..];
    }
  }

  lemma EscapeRoundTrip(value: string)
    ensures Unescape(EscapeHTML(value)) == value
    ensures Unescape(EscapeAttr(value)) == value
  {
    EscapeHTMLIsPerChar(value);
    EscapeAttrIsPerChar(value);
    UnescapeEscapeEach(value, false);
    UnescapeEscapeEach(value, true);
  }

  /** `truncateText(value, maxLength)`: text that fits is returned as it is;
      longer text is cut to make room for "...". A falsy value is the empty
      string, which always fits when `maxLength` is not negative. */
  function TruncateText(value: string, maxLength: int): (r: string)
    ensures |value| <= maxLength ==> r == value
  {
    if |value| <= maxLength then value else SliceTo(value, maxLength - 3) + "..."
  }

  /** With room for the ellipsis, the result never exceeds `maxLength` and is
      a prefix of the text, or a prefix followed by "..." that is exactly
      `maxLength` long. */
  lemma TruncateBounds(value: string, maxLength: int)
    requires maxLength >= 3
    ensures |TruncateText(value, maxLength)| <= maxLength
    ensures |value| > maxLength ==>
              |TruncateText(value, maxLength)| == maxLength
              && TruncateText(value, maxLength) == value[..maxLength - 3] + "..."
  {
  }

  /** Below 3 the cut is negative, counts from the end, and the result is
      longer than `maxLength`. */
  lemma TruncateTooShortLimit()
    ensures TruncateText("abcd", 2) == "abc..."
  {
    assert SliceTo("abcd", -1) == "abc";
  }
}
