/** UUIDs: 128-bit values, their text form, and the parser that the Python constructor applies to a string.

    The text form is the one of section 4 of RFC 9562: 32 lower-case hexadecimal digits in groups of
    8-4-4-4-12. The parser is more liberal than that form: it drops "urn:" and "uuid:", strips braces, drops
    every hyphen and reads what is left, which must be 32 characters, as a base-16 integer literal. */
module Uuids {
  import opened Wrappers

  function Pow16(k: nat): (r: nat)
    ensures r > 0
  {
    if k == 0 then 1 else 16 * Pow16(k - 1)
  }

  const UUID_LIMIT: nat := 0x1_0000_0000_0000_0000_0000_0000_0000_0000

  type Uuid = n: nat | n < UUID_LIMIT

  lemma PowSum(a: nat, b: nat)
    ensures Pow16(a + b) == Pow16(a) * Pow16(b)
  {
    if a > 0 {
      PowSum(a - 1, b);
      assert Pow16(a + b) == 16 * Pow16(a - 1 + b);
    }
  }

  /** 32 hexadecimal digits are 128 bits. */
  lemma UuidBits()
    ensures Pow16(32) == UUID_LIMIT
  {
    assert Pow16(8) == 0x1_0000_0000;
    PowSum(8, 8);
    PowSum(16, 16);
  }

  function HexChar(d: nat): (c: char)
    requires d < 16
    ensures IsLowerHex(c) && HexValue(c) == Some(d)
  {
    if d < 10 then '0' + d as char else 'a' + (d - 10) as char
  }

  function HexValue(c: char): Option<nat> {
    if '0' <= c <= '9' then Some((c - '0') as nat)
    else if 'a' <= c <= 'f' then Some((c - 'a') as nat + 10)
    else if 'A' <= c <= 'F' then Some((c - 'A') as nat + 10)
    else None
  }

  predicate IsHex(c: char) { '0' <= c <= '9' || 'a' <= c <= 'f' || 'A' <= c <= 'F' }

  predicate IsLowerHex(c: char) { '0' <= c <= '9' || 'a' <= c <= 'f' }

  predicate AllHex(s: string) { forall i | 0 <= i < |s| :: IsHex(s[i]) }

  predicate AllLowerHex(s: string) { forall i | 0 <= i < |s| :: IsLowerHex(s[i]) }

  /** The low k hexadecimal digits of n, most significant first. */
  function ToHex(n: nat, k: nat): (s: string)
    ensures |s| == k && AllLowerHex(s)
  {
    if k == 0 then "" else ToHex(n / 16, k - 1) + [HexChar(n % 16)]
  }

  function FromHex(s: string): (n: nat)
    requires AllHex(s)
    ensures n < Pow16(|s|)
  {
    if s == "" then 0 else
      assert IsHex(s[|s| - 1]);
      16 * FromHex(s[..|s| - 1]) + HexValue(s[|s| - 1]).value
  }

  lemma {:induction false} HexRoundTrip(n: nat, k: nat)
    requires n < Pow16(k)
    ensures FromHex(ToHex(n, k)) == n
  {
    if k > 0 {
      HexRoundTrip(n / 16, k - 1);
      var s := ToHex(n, k);
      assert s[..k - 1] == ToHex(n / 16, k - 1) && s[k - 1] == HexChar(n % 16);
    }
  }

  /** 32 digits in groups of 8-4-4-4-12. */
  function Hyphenated(h: string): string
    requires |h| == 32
  {
    h[..8] + ("-" + (h[8..12] + ("-" + (h[12..16] + ("-" + (h[16..20] + ("-" + h[20..])))))))
  }

  /** Renders a UUID as text. */
  function Text(u: Uuid): string {
    Hyphenated(ToHex(u, 32))
  }

  /** All left-to-right non-overlapping occurrences of pat removed. */
  function Without(s: string, pat: string): string
    requires pat != ""
    decreases |s|
  {
    if s == "" then ""
    else if pat <= s then Without(s[|pat|..], pat)
    else [s[0]] + Without(s[1..], pat)
  }

  function StripLeft(s: string, cs: string): string {
    if s != "" && s[0] in cs then StripLeft(s[1..], cs) else s
  }

  function StripRight(s: string, cs: string): string {
    if s != "" && s[|s| - 1] in cs then StripRight(s[..|s| - 1], cs) else s
  }

  function Strip(s: string, cs: string): string {
    StripRight(StripLeft(s, cs), cs)
  }

  const INT_SPACES := " \t\n\r" + [0xB as char, 0xC as char]

  /** Digits of an integer literal: hexadecimal, with single underscores allowed between digits. */
  predicate DigitsWithUnderscores(s: string) {
    && s != "" && s[0] != '_' && s[|s| - 1] != '_'
    && (forall i | 0 <= i < |s| :: IsHex(s[i]) || s[i] == '_')
    && (forall i | 0 <= i < |s| - 1 :: !(s[i] == '_' && s[i + 1] == '_'))
  }

  predicate Signed(t: string) {
    t != "" && (t[0] == '+' || t[0] == '-')
  }

  function Unsigned(t: string): string {
    if Signed(t) then t[1..] else t
  }

  predicate Marked(body: string) {
    |body| >= 2 && body[0] == '0' && (body[1] == 'x' || body[1] == 'X')
  }

  /** A literal without its mark, and without the underscore that may follow the mark. */
  function Unmarked(body: string): string {
    if !Marked(body) then body
    else if |body| > 2 && body[2] == '_' then body[3..] else body[2..]
  }

  /** The value of s read as an integer literal in base 16. */
  function ParseInt16(s: string): Option<int> {
    var t := Strip(s, INT_SPACES);
    var digits := Unmarked(Unsigned(t));
    if !DigitsWithUnderscores(digits) then None
    else
      WithoutKeepsHex(digits);
      var value := FromHex(Without(digits, "_"));
      var result: int := if Signed(t) && t[0] == '-' then -(value as int) else value;
      Some(result)
  }

  lemma {:induction false} WithoutKeepsHex(s: string)
    requires forall i | 0 <= i < |s| :: IsHex(s[i]) || s[i] == '_'
    ensures AllHex(Without(s, "_"))
    decreases |s|
  {
    if s != "" {
      WithoutKeepsHex(s[1..]);
      assert s[0] == '_' ==> s[..1] == "_";
    }
  }

  /** Reads a UUID from text; None where the constructor raises ValueError. */
  function Parse(raw: string): Option<Uuid> {
    var hex := Without(Strip(Without(Without(raw, "urn:"), "uuid:"), "{}"), "-");
    if |hex| != 32 then None
    else
      var n := ParseInt16(hex);
      if n.Some? && 0 <= n.value < UUID_LIMIT then Some(n.value) else None
  }

  lemma PrefixMember(pat: string, s: string, k: nat)
    requires k < |pat|
    ensures pat <= s ==> k < |s| && s[k] == pat[k]
  {
  }

  lemma {:induction false} WithoutAbsent(s: string, pat: string, k: nat)
    requires k < |pat| && forall i | 0 <= i < |s| :: s[i] != pat[k]
    ensures Without(s, pat) == s
    decreases |s|
  {
    if s != "" {
      PrefixMember(pat, s, k);
      WithoutAbsent(s[1..], pat, k);
    }
  }

  lemma {:induction false} WithoutAppend(a: string, b: string, c: char)
    requires forall i | 0 <= i < |a| :: a[i] != c
    ensures Without(a + b, [c]) == a + Without(b, [c])
    decreases |a|
  {
    if a == "" {
      assert a + b == b;
    } else {
      assert (a + b)[0] == a[0] && (a + b)[1..] == a[1..] + b;
      WithoutAppend(a[1..], b, c);
    }
  }

  lemma HyphenDropped(a: string, b: string)
    requires '-' !in a
    ensures Without(a + ("-" + b), "-") == a + Without(b, "-")
  {
    WithoutAppend(a, "-" + b, '-');
    assert ("-" + b)[1..] == b;
  }

  lemma HyphensDropped(h: string)
    requires |h| == 32 && '-' !in h
    ensures Without(Hyphenated(h), "-") == h && Without(h, "-") == h
  {
    hide Without;
    var e := h[20..];
    var d := h[16..20] + ("-" + e);
    var c := h[12..16] + ("-" + d);
    var b := h[8..12] + ("-" + c);
    HyphenDropped(h[..8], b);
    HyphenDropped(h[8..12], c);
    HyphenDropped(h[12..16], d);
    HyphenDropped(h[16..20], e);
    WithoutAbsent(e, "-", 0);
    assert h[16..20] + h[20..] == h[16..];
    assert h[12..16] + h[16..] == h[12..];
    assert h[8..12] + h[12..] == h[8..];
    assert h[..8] + h[8..] == h;
    WithoutAbsent(h, "-", 0);
  }

  /** How many hyphens come before position i. */
  function Groups(i: nat): nat {
    if i < 8 then 0 else if i < 13 then 1 else if i < 18 then 2 else if i < 23 then 3 else 4
  }

  lemma HyphenatedShape(h: string)
    requires |h| == 32
    ensures |Hyphenated(h)| == 36
    ensures forall i | 0 <= i < 36 ::
      if i == 8 || i == 13 || i == 18 || i == 23 then Hyphenated(h)[i] == '-' else Hyphenated(h)[i] == h[i - Groups(i)]
  {
    var e := h[20..];
    var d := h[16..20] + ("-" + e);
    var c := h[12..16] + ("-" + d);
    var b := h[8..12] + ("-" + c);
    assert |e| == 12 && |d| == 17 && |c| == 22 && |b| == 27;
    assert Hyphenated(h) == h[..8] + ("-" + b);
    forall i | 9 <= i < 36 ensures Hyphenated(h)[i] == b[i - 9] {
    }
    forall i | 5 <= i < 27 ensures b[i] == c[i - 5] {
    }
    forall i | 5 <= i < 22 ensures c[i] == d[i - 5] {
    }
    forall i | 5 <= i < 17 ensures d[i] == e[i - 5] {
    }
  }

  lemma HexLiteral(h: string)
    requires |h| == 32 && AllHex(h)
    ensures ParseInt16(h) == Some(FromHex(h)) && FromHex(h) < UUID_LIMIT
  {
    hide FromHex, Without, Strip;
    assert IsHex(h[0]) && IsHex(h[1]) && IsHex(h[31]);
    StripNothing(h, INT_SPACES);
    WithoutAbsent(h, "_", 0);
    assert DigitsWithUnderscores(h);
    UuidBits();
  }

  lemma {:induction false} StripNothing(s: string, cs: string)
    requires s != "" && s[0] !in cs && s[|s| - 1] !in cs
    ensures Strip(s, cs) == s
  {
  }

  lemma TextDigits(u: Uuid)
    ensures Without(Strip(Without(Without(Text(u), "urn:"), "uuid:"), "{}"), "-") == ToHex(u, 32)
  {
    hide Without, Strip, Text, ToHex;
    var h, t := ToHex(u, 32), Text(u);
    TextShape(u);
    WithoutAbsent(t, "urn:", 3);
    WithoutAbsent(t, "uuid:", 4);
    StripNothing(t, "{}");
    TextIs(u);
    HyphensDropped(h);
  }

  lemma TextIs(u: Uuid)
    ensures Text(u) == Hyphenated(ToHex(u, 32))
  {
  }

  /** Parsing the text of any UUID gives the UUID back. */
  lemma {:induction false} TextRoundTrip(u: Uuid)
    ensures Parse(Text(u)) == Some(u)
  {
    hide Text, Without, Strip, ParseInt16;
    TextDigits(u);
    HexLiteral(ToHex(u, 32));
    UuidBits();
    HexRoundTrip(u, 32);
  }

  /** The text form: 36 characters, hyphens exactly at 8, 13, 18 and 23, lower-case digits elsewhere. */
  lemma {:induction false} TextShape(u: Uuid)
    ensures |Text(u)| == 36
    ensures forall i | 0 <= i < 36 ::
      if i == 8 || i == 13 || i == 18 || i == 23 then Text(u)[i] == '-' else IsLowerHex(Text(u)[i])
  {
    hide Hyphenated;
    var h := ToHex(u, 32);
    assert forall i | 0 <= i < 32 :: IsLowerHex(h[i]);
    HyphenatedShape(h);
  }
}
