/** `se.escape` with its replacer `ie`, and the unescaping of identifiers by the pattern `te` with
    its replacer `ne`, on sequences of UTF-16 code units. */
module Escape {
  import opened Units

  const BACKSLASH: Unit := 0x5C
  const SPACE: Unit := 0x20
  const DASH: Unit := 0x2D
  const REPLACEMENT: Unit := 0xFFFD

  predicate IsDigit(c: Unit) { 0x30 <= c <= 0x39 }

  predicate IsWord(c: Unit) { IsDigit(c) || 0x41 <= c <= 0x5A || 0x61 <= c <= 0x7A || c == 0x5F }

  predicate IsControl(c: Unit) { c <= 0x1F || c == 0x7F }

  /** The characters that need a backslash wherever they stand. */
  predicate IsSpecial(c: Unit) { 0x20 <= c < 0x7F && !IsWord(c) && c != DASH }

  // ------------------------------------------------------------------ hexadecimal numbers

  predicate IsHex(c: Unit) { IsDigit(c) || 0x41 <= c <= 0x46 || 0x61 <= c <= 0x66 }

  function HexValue(c: Unit): nat
    requires IsHex(c)
  {
    if IsDigit(c) then c - 0x30 else if c < 0x61 then c - 0x41 + 10 else c - 0x61 + 10
  }

  function HexUnit(d: nat): (c: Unit)
    requires d < 16
    ensures IsHex(c) && HexValue(c) == d
  {
    if d < 10 then 0x30 + d else 0x61 + d - 10
  }

  /** `toString(16)`. */
  function Hex(n: nat): (s: Text)
    ensures s != [] && forall i | 0 <= i < |s| :: IsHex(s[i])
  {
    (if n < 16 then [] else Hex(n / 16)) + [HexUnit(n % 16)]
  }

  /** The number after `0x`. */
  function ParseHex(s: Text): nat
    requires forall i | 0 <= i < |s| :: IsHex(s[i])
  {
    if s == [] then 0 else ParseHex(s[..|s| - 1]) * 16 + HexValue(s[|s| - 1])
  }

  lemma {:induction false} HexRoundTrip(n: nat)
    ensures ParseHex(Hex(n)) == n
  {
    var s := Hex(n);
    if n >= 16 {
      HexRoundTrip(n / 16);
      assert s[..|s| - 1] == Hex(n / 16);
    } else {
      assert s[..|s| - 1] == [];
    }
  }

  lemma HexLength(n: nat)
    requires n <= 0x10FFFF
    ensures |Hex(n)| <= 6
  {
    var a := n / 16;
    var b := a / 16;
    var c := b / 16;
    var d := c / 16;
    var e := d / 16;
    assert e < 16 && |Hex(e)| == 1;
    assert |Hex(d)| <= 2;
    assert |Hex(c)| <= 3;
    assert |Hex(b)| <= 4;
    assert |Hex(a)| <= 5;
  }

  // ------------------------------------------------------------------ escaping

  /** The replacement of a unit that is written as a number. */
  function Coded(c: Unit): Text {
    if c == 0 then [REPLACEMENT] else [BACKSLASH] + Hex(c) + [SPACE]
  }

  /** Replace from some position on; `start` says whether it is the start of the whole string. */
  function EscapeFrom(s: Text, start: bool): Text {
    if s == [] then []
    else if IsControl(s[0]) || (start && IsDigit(s[0])) then Coded(s[0]) + EscapeFrom(s[1..], false)
    else if start && s[0] == DASH && |s| > 1 && IsDigit(s[1]) then [DASH] + Coded(s[1]) + EscapeFrom(s[2..], false)
    else if (start && s == [DASH]) || IsSpecial(s[0]) then [BACKSLASH, s[0]] + EscapeFrom(s[1..], false)
    else [s[0]] + EscapeFrom(s[1..], false)
  }

  function EscapeText(s: Text): Text {
    EscapeFrom(s, true)
  }

  // ------------------------------------------------------------------ unescaping

  predicate IsSpace(c: Unit) { c in [0x20, 0x09, 0x0D, 0x0A, 0x0C] }

  function HexRun(s: Text, max: nat): (n: nat)
    ensures n <= max && n <= |s| && forall i | 0 <= i < n :: IsHex(s[i])
    ensures n < max && n < |s| ==> !IsHex(s[n])
    decreases max
  {
    if max == 0 || s == [] || !IsHex(s[0]) then 0 else 1 + HexRun(s[1..], max - 1)
  }

  /** `x | 0xD800`; the two operands may share the bits 0x1800. */
  function OrHigh(x: nat): Unit
    requires x < 0x4000
  {
    0xD800 + x - (x / 2048 % 4) * 2048
  }

  /** The bits 11, 12, 14 and 15 are set, the others are those of the operand. */
  lemma OrHighMeans(x: nat)
    requires x < 0x4000
    ensures OrHigh(x) == 0x8000 + 0x4000 + x / 0x2000 * 0x2000 + 0x1800 + x % 0x800
  {
  }

  /** The units for the number of an escape: one below 0x10000, else the shifted pair. */
  function Decoded(number: nat): Text
    requires number <= 0xFFFFFF
  {
    if number < 0x10000 then [number]
    else
      var r := number - 0x10000;
      [OrHigh(r / 1024), 0xDC00 + r % 1024]
  }

  function Pow16(n: nat): nat {
    if n == 0 then 1 else 16 * Pow16(n - 1)
  }

  lemma {:induction false} ParseHexBound(s: Text)
    requires forall i | 0 <= i < |s| :: IsHex(s[i])
    ensures ParseHex(s) < Pow16(|s|)
    ensures |s| <= 6 ==> ParseHex(s) <= 0xFFFFFF
  {
    if s != [] { ParseHexBound(s[..|s| - 1]); }
    if |s| <= 6 {
      assert Pow16(|s|) <= Pow16(6) by {
        assert |s| in {0, 1, 2, 3, 4, 5, 6};
      }
    }
  }

  datatype Match = NoMatch | Match(length: nat, replacement: Text)

  /** The match of `te` at the start of `s`, and what `ne` makes of it. */
  function MatchEscape(s: Text): (m: Match)
    ensures m.Match? ==> 2 <= m.length <= |s|
  {
    if |s| < 2 || s[0] != BACKSLASH then NoMatch
    else
      var h := HexRun(s[1..], 6);
      if h > 0 then
        ParseHexBound(s[1..h + 1]);
        Match(if h + 1 < |s| && IsSpace(s[h + 1]) then h + 2 else h + 1, Decoded(ParseHex(s[1..h + 1])))
      else if IsSpace(s[1]) || !IsLineEnd(s[1]) then Match(2, [s[1]])
      else NoMatch
  }

  function Unescape(s: Text): Text {
    if s == [] then []
    else
      var m := MatchEscape(s);
      if m.Match? then m.replacement + Unescape(s[m.length..]) else [s[0]] + Unescape(s[1..])
  }

  // ------------------------------------------------------------------ properties

  const LOWER: Text :=
    [0x30, 0x31, 0x32, 0x33, 0x34, 0x35, 0x36, 0x37, 0x38, 0x39, 0x61, 0x62, 0x63, 0x64, 0x65, 0x66]
  const UPPER: Text :=
    [0x30, 0x31, 0x32, 0x33, 0x34, 0x35, 0x36, 0x37, 0x38, 0x39, 0x41, 0x42, 0x43, 0x44, 0x45, 0x46]

  /** The digits in both cases. */
  lemma HexDigits(c: Unit, d: nat)
    requires d < 16
    ensures IsHex(c) <==> c in LOWER || c in UPPER
    ensures HexUnit(d) == LOWER[d] && IsHex(UPPER[d]) && HexValue(LOWER[d]) == HexValue(UPPER[d]) == d
  {
    if IsHex(c) {
      assert if c < 0x40 then LOWER[c - 0x30] == c else if c < 0x60 then UPPER[c - 0x37] == c else LOWER[c - 0x57] == c;
    }
  }

  /** The units are the digits of `n`, each in either case, after some zeros. */
  ghost predicate Spells(s: Text, n: nat) {
    if s == [] then n == 0
    else
      var c := s[|s| - 1];
      (c == LOWER[n % 16] || c == UPPER[n % 16]) && Spells(s[..|s| - 1], n / 16)
  }

  lemma {:induction false} SpelledNumber(s: Text, n: nat)
    requires Spells(s, n)
    ensures (forall i | 0 <= i < |s| :: IsHex(s[i])) && ParseHex(s) == n
  {
    if s != [] {
      SpelledNumber(s[..|s| - 1], n / 16);
      HexDigits(s[|s| - 1], n % 16);
      assert forall i | 0 <= i < |s| - 1 :: s[i] == s[..|s| - 1][i];
    }
  }

  /** An escape by number, in upper or lower case and with leading zeros, up to six digits, stands for
      that number's units; one white space after it goes with it. */
  lemma SpelledEscape(digits: Text, n: nat, rest: Text)
    requires 1 <= |digits| <= 6 && Spells(digits, n)
    requires |digits| < 6 && rest != [] ==> rest[0] !in LOWER && rest[0] !in UPPER
    ensures n <= 0xFFFFFF
    ensures Unescape([BACKSLASH] + digits + rest) ==
            Decoded(n) + Unescape(if rest != [] && rest[0] in [0x20, 0x09, 0x0A, 0x0C, 0x0D] then rest[1..] else rest)
  {
    var s, k := [BACKSLASH] + digits + rest, |digits|;
    SpelledMatch(digits, n, rest);
    assert s[k + 1..] == rest;
    if rest != [] { assert s[k + 2..] == rest[1..]; }
  }

  lemma SpelledMatch(digits: Text, n: nat, rest: Text)
    requires 1 <= |digits| <= 6 && Spells(digits, n)
    requires |digits| < 6 && rest != [] ==> rest[0] !in LOWER && rest[0] !in UPPER
    ensures n <= 0xFFFFFF
    ensures MatchEscape([BACKSLASH] + digits + rest) ==
            Match(|digits| + if rest != [] && IsSpace(rest[0]) then 2 else 1, Decoded(n))
  {
    var s, k := [BACKSLASH] + digits + rest, |digits|;
    SpelledNumber(digits, n);
    ParseHexBound(digits);
    if rest != [] { HexDigits(rest[0], 0); }
    assert s[1..] == digits + rest && s[1..k + 1] == digits;
    assert rest != [] ==> s[k + 1] == rest[0];
    HexRunIs(s[1..], 6, k);
  }

  /** The digits that escaping writes. */
  lemma {:induction false} HexSpells(n: nat)
    ensures Spells(Hex(n), n)
  {
    var s := Hex(n);
    HexDigits(0, n % 16);
    if n >= 16 {
      HexSpells(n / 16);
      assert s[..|s| - 1] == Hex(n / 16);
    } else {
      assert s[..|s| - 1] == [] && n / 16 == 0;
    }
  }

  /** An escape by number followed by its space stands for that number's units. */
  lemma NumberedEscape(n: nat, rest: Text)
    requires n <= 0x10FFFF
    ensures Unescape([BACKSLASH] + Hex(n) + [SPACE] + rest) == Decoded(n) + Unescape(rest)
  {
    HexLength(n);
    HexSpells(n);
    SpelledEscape(Hex(n), n, [SPACE] + rest);
    assert [BACKSLASH] + Hex(n) + [SPACE] + rest == [BACKSLASH] + Hex(n) + ([SPACE] + rest);
    assert ([SPACE] + rest)[1..] == rest;
  }

  lemma {:induction false} HexRunIs(s: Text, max: nat, k: nat)
    requires k <= max && k <= |s| && (forall i | 0 <= i < k :: IsHex(s[i]))
    requires k < max && k < |s| ==> !IsHex(s[k])
    ensures HexRun(s, max) == k
  {
    if k > 0 { HexRunIs(s[1..], max - 1, k - 1); }
  }

  /** Code points outside the basic plane become the surrogate pair of UTF-16. */
  lemma DecodedIsUtf16(n: nat)
    requires n <= 0x10FFFF
    ensures n < 0x10000 ==> Decoded(n) == [n]
    ensures n >= 0x10000 ==> |Decoded(n)| == 2 && 0xD800 <= Decoded(n)[0] < 0xDC00 && 0xDC00 <= Decoded(n)[1] < 0xE000
    ensures n >= 0x10000 ==> 0x10000 + (Decoded(n)[0] as int - 0xD800) * 0x400 + (Decoded(n)[1] as int - 0xDC00) == n
  {
  }

  function WithoutNul(s: Text): Text {
    if s == [] then [] else [if s[0] == 0 then 0xFFFD else s[0]] + WithoutNul(s[1..])
  }

  lemma CodedRoundTrip(c: Unit, rest: Text)
    requires c < 0x10000
    ensures Unescape(Coded(c) + rest) == [if c == 0 then REPLACEMENT else c] + Unescape(rest)
  {
    if c == 0 {
      LiteralRoundTrip(REPLACEMENT, rest);
    } else {
      NumberedEscape(c, rest);
    }
  }

  lemma LiteralRoundTrip(c: Unit, rest: Text)
    requires c != BACKSLASH
    ensures Unescape([c] + rest) == [c] + Unescape(rest)
  {
    assert ([c] + rest)[1..] == rest;
  }

  lemma SpecialRoundTrip(c: Unit, rest: Text)
    requires IsSpecial(c) || c == DASH
    ensures Unescape([BACKSLASH, c] + rest) == [c] + Unescape(rest)
  {
    var s := [BACKSLASH, c] + rest;
    assert s[1..][0] == c && s[2..] == rest;
  }

  lemma DashThenDigit(s: Text)
    requires |s| > 1 && s[0] == DASH && IsDigit(s[1])
    ensures EscapeText(s) == [DASH] + EscapeText(s[1..])
  {
    assert s[1..][1..] == s[2..];
    assert [DASH] + Coded(s[1]) + EscapeFrom(s[2..], false) == [DASH] + (Coded(s[1]) + EscapeFrom(s[2..], false));
  }

  /** Unescaping undoes escaping, except that U+0000 has become U+FFFD. */
  lemma {:induction false} EscapeRoundTrip(s: Text, start: bool)
    ensures Unescape(EscapeFrom(s, start)) == WithoutNul(s)
    decreases |s|
  {
    if s == [] {
    } else if start && s[0] == DASH && |s| > 1 && IsDigit(s[1]) {
      DashThenDigit(s);
      EscapeRoundTrip(s[1..], true);
      LiteralRoundTrip(DASH, EscapeText(s[1..]));
    } else {
      var rest := EscapeFrom(s[1..], false);
      EscapeRoundTrip(s[1..], false);
      if IsControl(s[0]) || (start && IsDigit(s[0])) {
        CodedRoundTrip(s[0], rest);
      } else if (start && s == [DASH]) || IsSpecial(s[0]) {
        SpecialRoundTrip(s[0], rest);
      } else {
        LiteralRoundTrip(s[0], rest);
      }
    }
  }

  // ------------------------------------------------------------------ what escaping leaves alone

  /** Letters, digits, the underscore, the dash, and everything beyond ASCII. */
  predicate IsPlain(c: Unit) {
    0x30 <= c <= 0x39 || 0x41 <= c <= 0x5A || 0x61 <= c <= 0x7A || c == 0x5F || c == 0x2D || c >= 0x80
  }

  /** How one unit is written: plain units as they are, NUL as U+FFFD, other control characters by
      number, and the remaining ones behind a backslash; at the start digits too by number, after a dash
      as well, and a lone dash behind a backslash. */
  lemma EscapedForm(c: Unit, rest: Text)
    ensures EscapeFrom([c] + rest, false) ==
              (if c == 0 then [0xFFFD] else if c < 0x20 || c == 0x7F then [0x5C] + Hex(c) + [0x20]
               else if IsPlain(c) then [c] else [0x5C, c]) + EscapeFrom(rest, false)
    ensures 0x30 <= c <= 0x39 ==> EscapeText([c] + rest) == [0x5C] + Hex(c) + [0x20] + EscapeFrom(rest, false)
    ensures 0x30 <= c <= 0x39 ==>
              EscapeText([0x2D, c] + rest) == [0x2D, 0x5C] + Hex(c) + [0x20] + EscapeFrom(rest, false)
    ensures EscapeText([0x2D]) == [0x5C, 0x2D]
  {
    assert ([c] + rest)[1..] == rest && ([0x2D, c] + rest)[2..] == rest;
  }

  lemma {:induction false} NeverShorter(s: Text, start: bool)
    ensures |EscapeFrom(s, start)| >= |s|
    decreases |s|
  {
    if s != [] {
      NeverShorter(s[1..], false);
      if |s| > 1 { NeverShorter(s[2..], false); }
    }
  }

  lemma {:induction false} EscapeKeepsRest(s: Text)
    ensures EscapeFrom(s, false) == s <==> forall c <- s :: IsPlain(c)
  {
    if s != [] {
      var rest := EscapeFrom(s[1..], false);
      EscapeKeepsRest(s[1..]);
      NeverShorter(s[1..], false);
      assert s == [s[0]] + s[1..];
      if IsPlain(s[0]) {
        assert EscapeFrom(s, false) == [s[0]] + rest && ([s[0]] + rest)[1..] == rest;
      } else if s[0] == BACKSLASH {
        assert |EscapeFrom(s, false)| == 2 + |rest|;
      } else {
        assert EscapeFrom(s, false)[0] != s[0];
      }
    }
  }

  /** Escaping changes nothing exactly in plain text that does not start with a digit, nor with a dash and
      a digit, and is not a dash. */
  lemma EscapeKeeps(s: Text)
    ensures EscapeText(s) == s <==>
            && (forall c <- s :: IsPlain(c)) && s != [0x2D]
            && (s != [] ==> !(0x30 <= s[0] <= 0x39))
            && (|s| > 1 && s[0] == 0x2D ==> !(0x30 <= s[1] <= 0x39))
  {
    EscapeKeepsRest(s);
    if s == [DASH] {
      assert |EscapeText(s)| == 2;
    } else if s != [] && IsDigit(s[0]) {
      assert EscapeText(s)[0] == BACKSLASH;
    } else if |s| > 1 && s[0] == DASH && IsDigit(s[1]) {
      assert EscapeText(s)[1] == BACKSLASH;
    } else {
      assert EscapeText(s) == EscapeFrom(s, false);
    }
  }

  // ------------------------------------------------------------------ identifiers

  predicate IsNameStart(c: Unit) { c >= 0x80 || (IsWord(c) && !IsDigit(c)) }

  predicate IsName(c: Unit) { IsNameStart(c) || IsDigit(c) || c == DASH }

  /** The newlines of CSS; the line ends of a regular expression are others. */
  predicate IsNewline(c: Unit) { c in [0x0A, 0x0C, 0x0D] }

  /** A valid escape (section 4.3.8 of CSS Syntax Level 3). */
  predicate StartsEscape(s: Text) { |s| >= 2 && s[0] == 0x5C && !IsNewline(s[1]) }

  /** The units that a valid escape takes (section 4.3.7 of CSS Syntax Level 3). */
  function EscapeLength(s: Text): (n: nat)
    requires StartsEscape(s)
    ensures 2 <= n <= |s|
  {
    var h := HexRun(s[1..], 6);
    if h == 0 then 2 else if h + 1 < |s| && IsSpace(s[h + 1]) then h + 2 else h + 1
  }

  /** Only name units and escapes (section 4.3.11 of CSS Syntax Level 3). */
  predicate IsNameText(s: Text) {
    s == [] ||
    if StartsEscape(s) then IsNameText(s[EscapeLength(s)..]) else IsName(s[0]) && IsNameText(s[1..])
  }

  /** Would start an identifier (section 4.3.9 of CSS Syntax Level 3). */
  predicate StartsIdentifier(s: Text) {
    s != [] &&
    if s[0] == DASH then |s| > 1 && (IsNameStart(s[1]) || s[1] == DASH || StartsEscape(s[1..]))
    else IsNameStart(s[0]) || StartsEscape(s)
  }

  lemma CodedIsName(c: Unit, rest: Text)
    requires IsControl(c) || IsDigit(c)
    ensures IsNameText(rest) ==> IsNameText(Coded(c) + rest)
    ensures c == 0 || StartsEscape(Coded(c) + rest)
  {
    var s := Coded(c) + rest;
    if c == 0 {
      assert s[1..] == rest;
    } else {
      HexLength(c);
      var k := |Hex(c)|;
      assert s[1..][..k] == Hex(c) && s[1..][k] == SPACE;
      HexRunIs(s[1..], 6, k);
      assert s[k + 2..] == rest;
    }
  }

  lemma EscapedUnitIsName(c: Unit, rest: Text)
    requires IsSpecial(c) || c == DASH
    ensures IsNameText(rest) ==> IsNameText([BACKSLASH, c] + rest)
    ensures StartsEscape([BACKSLASH, c] + rest)
  {
    var s := [BACKSLASH, c] + rest;
    assert s[1..][0] == c && s[2..] == rest;
  }

  lemma LiteralIsName(c: Unit, rest: Text)
    requires IsName(c)
    ensures IsNameText(rest) ==> IsNameText([c] + rest)
  {
    assert ([c] + rest)[1..] == rest;
  }

  lemma {:induction false} EscapeIsName(s: Text, start: bool)
    ensures IsNameText(EscapeFrom(s, start))
    decreases |s|
  {
    if s == [] {
    } else if start && s[0] == DASH && |s| > 1 && IsDigit(s[1]) {
      DashThenDigit(s);
      EscapeIsName(s[1..], true);
      LiteralIsName(DASH, EscapeText(s[1..]));
    } else {
      var rest := EscapeFrom(s[1..], false);
      EscapeIsName(s[1..], false);
      if IsControl(s[0]) || (start && IsDigit(s[0])) {
        CodedIsName(s[0], rest);
      } else if (start && s == [DASH]) || IsSpecial(s[0]) {
        EscapedUnitIsName(s[0], rest);
      } else {
        LiteralIsName(s[0], rest);
      }
    }
  }

  lemma FirstUnit(s: Text)
    requires s != []
    ensures var e := EscapeFrom(s, false);
            e != [] && (s[0] == DASH <==> e[0] == DASH) &&
            (IsDigit(s[0]) || s[0] == DASH || IsNameStart(e[0]) || StartsEscape(e))
  {
    var rest := EscapeFrom(s[1..], false);
    if IsControl(s[0]) {
      CodedIsName(s[0], rest);
    } else if IsSpecial(s[0]) {
      EscapedUnitIsName(s[0], rest);
    }
  }

  /** The escaped form of a non-empty string is a CSS identifier. */
  lemma EscapeIsIdentifier(s: Text)
    requires s != []
    ensures IsNameText(EscapeText(s)) && StartsIdentifier(EscapeText(s))
  {
    EscapeIsName(s, true);
    var rest := EscapeFrom(s[1..], false);
    if IsControl(s[0]) || IsDigit(s[0]) {
      CodedIsName(s[0], rest);
    } else if s[0] == DASH && |s| > 1 && IsDigit(s[1]) {
      DashThenDigit(s);
      CodedIsName(s[1], EscapeFrom(s[1..][1..], false));
      assert ([DASH] + EscapeText(s[1..]))[1..] == EscapeText(s[1..]);
    } else if s == [DASH] || IsSpecial(s[0]) {
      EscapedUnitIsName(s[0], rest);
    } else if s[0] == DASH {
      FirstUnit(s[1..]);
      assert EscapeText(s) == [DASH] + rest && ([DASH] + rest)[1..] == rest;
    }
  }
}
