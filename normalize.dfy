/** `normalizeText` (src/server.js:111-116): lower-case the text, decompose it
    canonically (NFD) and delete the combining diacritical marks U+0300..U+036F,
    so that matching ignores case and accents.

    Case mapping and decomposition are modelled for the characters Portuguese
    text uses: ASCII and the Latin-1 letters. A Latin-1 letter with an accent
    or cedilla decomposes into its base letter followed by a combining mark,
    which is then deleted; so it becomes its base letter. Other characters are
    kept as they are. */
module TextNormal {
  import opened Strings

  /** First half of a combining diacritical mark. */
  predicate IsCombiningMark(c: char) {
    0x300 <= c as int <= 0x36F
  }

  /** `toLowerCase` on one character, for ASCII and Latin-1. */
  function Lower(c: char): (l: char)
    ensures !('A' <= l <= 'Z')
    ensures !(0xC0 <= l as int <= 0xDE && l as int != 0xD7)
  {
    if 'A' <= c <= 'Z' then (c as int + 32) as char
    else if 0xC0 <= c as int <= 0xDE && c as int != 0xD7 then (c as int + 32) as char
    else c
  }

  /** The base letter of a lower-case Latin-1 letter whose canonical
      decomposition is that letter followed by a combining mark. */
  function StripAccent(c: char): (b: char)
    ensures b == c || ('a' <= b <= 'z')
  {
    var x := c as int;
    if 0xE0 <= x <= 0xE5 then 'a'
    else if x == 0xE7 then 'c'
    else if 0xE8 <= x <= 0xEB then 'e'
    else if 0xEC <= x <= 0xEF then 'i'
    else if x == 0xF1 then 'n'
    else if 0xF2 <= x <= 0xF6 then 'o'
    else if 0xF9 <= x <= 0xFC then 'u'
    else if x == 0xFD || x == 0xFF then 'y'
    else c
  }

  /** What one input character becomes. */
  function Fold(c: char): (r: string)
    ensures |r| <= 1
  {
    var l := Lower(c);
    if IsCombiningMark(l) then [] else [StripAccent(l)]
  }

  /** A character that normalisation keeps as it is. */
  predicate IsNormal(c: char) {
    Fold(c) == [c]
  }

  /** Every character that comes out of `Fold` is left unchanged by it. */
  lemma FoldIsNormal(c: char)
    ensures forall k :: 0 <= k < |Fold(c)| ==> IsNormal(Fold(c)[k])
  {
  }

  /** `normalizeText(s)`. */
  function Normalize(s: string): (r: string)
    ensures |r| <= |s|
    ensures forall k :: 0 <= k < |r| ==> IsNormal(r[k])
  {
    if s == [] then []
    else
      FoldIsNormal(s[0]);
      Fold(s[0]) + Normalize(s[1..])
  }

  /** Normalisation works character by character. */
  lemma {:induction false} NormalizeConcat(a: string, b: string)
    ensures Normalize(a + b) == Normalize(a) + Normalize(b)
  {
    if a == [] {
      assert a + b == b;
    } else {
      assert (a + b)[0] == a[0] && (a + b)[1..] == a[1..] + b;
      NormalizeConcat(a[1..], b);
    }
  }

  /** A text made of normal characters is already normalised. */
  lemma {:induction false} NormalizeFixpoint(s: string)
    requires forall k :: 0 <= k < |s| ==> IsNormal(s[k])
    ensures Normalize(s) == s
  {
    if s != [] {
      NormalizeFixpoint(s[1..]);
    }
  }

  /** Normalising twice is normalising once. */
  lemma NormalizeIdempotent(s: string)
    ensures Normalize(Normalize(s)) == Normalize(s)
  {
    NormalizeFixpoint(Normalize(s));
  }

  /** Printable ASCII text without capitals is left as it is. */
  lemma AsciiLowerIsNormal(s: string)
    requires forall k :: 0 <= k < |s| ==> ' ' <= s[k] <= '~' && !('A' <= s[k] <= 'Z')
    ensures Normalize(s) == s
  {
    NormalizeFixpoint(s);
  }

  /** A keyword that holds a character normalisation never produces can never be
      found in normalised text. */
  lemma NeverInNormalized(s: string, keyword: string, k: nat)
    requires k < |keyword| && !IsNormal(keyword[k])
    ensures !Contains(Normalize(s), keyword)
  {
    var n := Normalize(s);
    forall i ensures !OccursAt(n, keyword, i) {
      if 0 <= i && i + |keyword| <= |n| {
        assert n[i..i + |keyword|][k] == n[i + k];
      }
    }
  }
}
