/** Which texts the UUID constructor reads, and as which value: a text that is read spells the value by its hexadecimal
    digits, and every usual spelling is read. */
module Spellings {
  import opened Wrappers
  import opened Uuids

  // ---------- digits ----------

  function LowerDigits(): (s: string)
    ensures |s| == 16
  {
    "0123456789abcdef"
  }

  function UpperDigits(): (s: string)
    ensures |s| == 16
  {
    "0123456789ABCDEF"
  }

  /** A hexadecimal digit is worth its place in either row of digits. */
  lemma DigitIff(c: char, v: nat)
    ensures HexValue(c) == Some(v) <==> v < 16 && (c == LowerDigits()[v] || c == UpperDigits()[v])
    ensures IsHex(c) <==> HexValue(c).Some?
  {
    if v < 16 {
      DigitAt(v);
    }
    hide LowerDigits, UpperDigits;
  }

  lemma DigitAt(v: nat)
    requires v < 16
    ensures LowerDigits()[v] as int == if v < 10 then '0' as int + v else 'a' as int + v - 10
    ensures UpperDigits()[v] as int == if v < 10 then '0' as int + v else 'A' as int + v - 10
  {
  }

  lemma OneMoreDigit(s: string, c: char)
    requires AllHex(s) && IsHex(c)
    ensures AllHex(s + [c]) && HexValue(c).Some? && FromHex(s + [c]) == 16 * FromHex(s) + HexValue(c).value
  {
    assert (s + [c])[..|s|] == s;
  }

  /** Each digit further left is worth sixteen times as much. */
  lemma {:induction false} PlaceValue(a: string, b: string)
    requires AllHex(a) && AllHex(b)
    ensures AllHex(a + b) && FromHex(a + b) == FromHex(a) * Pow16(|b|) + FromHex(b)
    decreases |b|
  {
    if b == "" {
      assert a + b == a;
    } else {
      var rest, last := b[..|b| - 1], b[|b| - 1];
      assert b == rest + [last] && a + b == (a + rest) + [last] && IsHex(last);
      PlaceValue(a, rest);
      OneMoreDigit(rest, last);
      OneMoreDigit(a + rest, last);
      Shifted(FromHex(a), |rest|, FromHex(rest), HexValue(last).value);
    }
  }

  lemma Shifted(x: nat, k: nat, y: nat, v: nat)
    ensures 16 * (x * Pow16(k) + y) + v == x * Pow16(k + 1) + (16 * y + v)
  {
    assert Pow16(k + 1) == 16 * Pow16(k);
    assert 16 * (x * Pow16(k)) == x * (16 * Pow16(k));
  }

  lemma LeadingZero(s: string)
    requires AllHex(s)
    ensures AllHex("0" + s) && FromHex("0" + s) == FromHex(s)
  {
    PlaceValue("0", s);
    OneMoreDigit("", '0');
    assert "" + ['0'] == "0";
  }

  // ---------- leaving things out ----------

  /** t is s with some occurrences of pat left out. */
  ghost predicate Cuts(s: string, t: string, pat: string)
    requires pat != ""
    decreases |s|
  {
    || s == t
    || (pat <= s && Cuts(s[|pat|..], t, pat))
    || (s != "" && t != "" && s[0] == t[0] && Cuts(s[1..], t[1..], pat))
  }

  /** t is s with some characters of noise left out. */
  ghost predicate Picks(s: string, t: string, noise: string)
    decreases |s|
  {
    if s == "" then t == ""
    else
      || (s[0] in noise && Picks(s[1..], t, noise))
      || (t != "" && s[0] == t[0] && Picks(s[1..], t[1..], noise))
  }

  lemma {:induction false} WithoutCuts(s: string, pat: string)
    requires pat != ""
    ensures Cuts(s, Without(s, pat), pat)
    decreases |s|
  {
    if s != "" {
      WithoutCuts(if pat <= s then s[|pat|..] else s[1..], pat);
    }
  }

  lemma {:induction false} WithoutPicks(s: string, c: char, noise: string)
    requires c in noise
    ensures Picks(s, Without(s, [c]), noise)
    decreases |s|
  {
    if s != "" {
      WithoutPicks(s[1..], c, noise);
    }
  }

  lemma {:induction false} PicksAll(s: string, noise: string)
    ensures Picks(s, s, noise)
  {
    if s != "" {
      PicksAll(s[1..], noise);
    }
  }

  lemma {:induction false} PicksNone(s: string, noise: string)
    requires forall i | 0 <= i < |s| :: s[i] in noise
    ensures Picks(s, "", noise)
  {
    if s != "" {
      PicksNone(s[1..], noise);
    }
  }

  lemma {:induction false} PicksAppend(a: string, b: string, c: string, d: string, noise: string)
    requires Picks(a, c, noise) && Picks(b, d, noise)
    ensures Picks(a + b, c + d, noise)
    decreases |a|
  {
    if a == "" {
      assert a + b == b && c + d == d;
    } else {
      assert (a + b)[1..] == a[1..] + b && (a + b)[0] == a[0];
      if a[0] in noise && Picks(a[1..], c, noise) {
        PicksAppend(a[1..], b, c, d, noise);
      } else {
        PicksAppend(a[1..], b, c[1..], d, noise);
        assert (c + d)[1..] == c[1..] + d && (c + d)[0] == c[0];
      }
    }
  }

  lemma {:induction false} PicksTwice(s: string, t: string, u: string, noise: string)
    requires Picks(s, t, noise) && Picks(t, u, noise)
    ensures Picks(s, u, noise)
    decreases |s|
  {
    if s != "" {
      if s[0] in noise && Picks(s[1..], t, noise) {
        PicksTwice(s[1..], t, u, noise);
      } else if t[0] in noise && Picks(t[1..], u, noise) {
        PicksTwice(s[1..], t[1..], u, noise);
      } else {
        PicksTwice(s[1..], t[1..], u[1..], noise);
      }
    }
  }

  lemma PicksDrop(a: string, b: string, c: string, noise: string)
    requires forall i | 0 <= i < |a| :: a[i] in noise
    requires forall i | 0 <= i < |c| :: c[i] in noise
    ensures Picks(a + b + c, b, noise)
  {
    PicksNone(a, noise);
    PicksAll(b, noise);
    PicksNone(c, noise);
    PicksAppend(a, b, "", b, noise);
    PicksAppend(a + b, c, "" + b, "", noise);
    assert "" + b + "" == b;
  }

  lemma {:induction false} CutsShrinks(s: string, t: string, pat: string)
    requires pat != "" && Cuts(s, t, pat)
    ensures |t| <= |s|
    decreases |s|
  {
    if s != t {
      if pat <= s && Cuts(s[|pat|..], t, pat) {
        CutsShrinks(s[|pat|..], t, pat);
      } else {
        CutsShrinks(s[1..], t[1..], pat);
      }
    }
  }

  lemma {:induction false} PicksShrinks(s: string, t: string, noise: string)
    requires Picks(s, t, noise)
    ensures |t| <= |s|
    decreases |s|
  {
    if s != "" {
      if s[0] in noise && Picks(s[1..], t, noise) {
        PicksShrinks(s[1..], t, noise);
      } else {
        PicksShrinks(s[1..], t[1..], noise);
      }
    }
  }

  lemma {:induction false} StripLeftDrops(s: string, cs: string) returns (n: nat)
    ensures n <= |s| && StripLeft(s, cs) == s[n..] && forall i | 0 <= i < n :: s[i] in cs
    decreases |s|
  {
    if s != "" && s[0] in cs {
      n := StripLeftDrops(s[1..], cs);
      n := n + 1;
    } else {
      n := 0;
    }
  }

  lemma {:induction false} StripRightDrops(s: string, cs: string) returns (n: nat)
    ensures n <= |s| && StripRight(s, cs) == s[..n] && forall i | n <= i < |s| :: s[i] in cs
    decreases |s|
  {
    if s != "" && s[|s| - 1] in cs {
      n := StripRightDrops(s[..|s| - 1], cs);
      assert s[..|s| - 1][..n] == s[..n];
    } else {
      n := |s|;
    }
  }

  lemma StripPicks(s: string, cs: string, noise: string)
    requires forall c | c in cs :: c in noise
    ensures Picks(s, Strip(s, cs), noise)
  {
    var lo := StripLeftDrops(s, cs);
    var hi := StripRightDrops(s[lo..], cs);
    assert s == s[..lo] + s[lo..][..hi] + s[lo..][hi..];
    PicksDrop(s[..lo], s[lo..][..hi], s[lo..][hi..], noise);
  }

  // ---------- a text that is read spells its value ----------

  /** What an integer literal in base 16 can hold besides its digits. */
  const LITERAL_NOISE: string := INT_SPACES + "+-_xX"

  /** The digits d, in order and up to signs, spaces, underscores and an x, make up the literal, and u is their value. */
  ghost predicate Literal(s: string, d: string, u: int) {
    Picks(s, d, LITERAL_NOISE) && d != "" && AllHex(d) && FromHex(d) == u
  }

  lemma UnderscoresOut(s: string)
    requires DigitsWithUnderscores(s)
    ensures AllHex(Without(s, "_")) && Without(s, "_") != "" && Picks(s, Without(s, "_"), LITERAL_NOISE)
  {
    WithoutKeepsHex(s);
    WithoutPicks(s, '_', LITERAL_NOISE);
    assert !("_" <= s) by {
      assert s[..1] == [s[0]];
    }
  }

  /** The digits of a literal without its sign and spaces: a mark is a zero and noise. */
  lemma BodyLiteral(body: string) returns (d: string)
    requires DigitsWithUnderscores(Unmarked(body))
    ensures AllHex(d) && Literal(body, d, FromHex(d))
    ensures AllHex(Without(Unmarked(body), "_")) && FromHex(d) == FromHex(Without(Unmarked(body), "_"))
  {
    hide FromHex, Picks, Without, DigitsWithUnderscores;
    var digits := Unmarked(body);
    UnderscoresOut(digits);
    d := Without(digits, "_");
    if Marked(body) {
      var mark := body[1..|body| - |digits|];
      assert body == "0" + (mark + digits);
      PicksAll("0", LITERAL_NOISE);
      PicksNone(mark, LITERAL_NOISE);
      PicksAppend(mark, digits, "", d, LITERAL_NOISE);
      assert "" + d == d;
      PicksAppend("0", mark + digits, "0", d, LITERAL_NOISE);
      LeadingZero(d);
      d := "0" + d;
    }
  }

  lemma UnsignedPicks(t: string)
    ensures Picks(t, Unsigned(t), LITERAL_NOISE)
  {
    hide Picks;
    PicksAll(t, LITERAL_NOISE);
    if Signed(t) {
      assert t == t[..1] + t[1..] + "";
      PicksDrop(t[..1], t[1..], "", LITERAL_NOISE);
    }
  }

  lemma LiteralSound(s: string) returns (d: string)
    requires ParseInt16(s).Some? && ParseInt16(s).value >= 0
    ensures Literal(s, d, ParseInt16(s).value)
  {
    hide Picks, FromHex, DigitsWithUnderscores, Unmarked, Unsigned, Strip, Without;
    var t := Strip(s, INT_SPACES);
    StripPicks(s, INT_SPACES, LITERAL_NOISE);
    UnsignedPicks(t);
    PicksTwice(s, t, Unsigned(t), LITERAL_NOISE);
    d := BodyLiteral(Unsigned(t));
    PicksTwice(s, Unsigned(t), d, LITERAL_NOISE);
  }

  /** raw spells u: without some "urn:", some "uuid:", braces and hyphens, 32 characters are left, and they are a literal
      of u. */
  ghost predicate Spells(raw: string, u: Uuid) {
    exists m, n, core, d ::
      Cuts(raw, m, "urn:") && Cuts(m, n, "uuid:") && Picks(n, core, "{}-") && |core| == 32 && Literal(core, d, u)
  }

  /** A text that is read as u spells u. */
  lemma ParseSound(raw: string)
    requires Parse(raw).Some?
    ensures Spells(raw, Parse(raw).value)
  {
    var m := Without(raw, "urn:");
    var n := Without(m, "uuid:");
    var inner := Strip(n, "{}");
    var core := Without(inner, "-");
    WithoutCuts(raw, "urn:");
    WithoutCuts(m, "uuid:");
    StripPicks(n, "{}", "{}-");
    WithoutPicks(inner, '-', "{}-");
    PicksTwice(n, inner, core, "{}-");
    var d := LiteralSound(core);
  }

  lemma SpellsLength(raw: string, u: Uuid)
    requires Spells(raw, u)
    ensures |raw| >= 32
  {
    var m, n, core, d :|
      Cuts(raw, m, "urn:") && Cuts(m, n, "uuid:") && Picks(n, core, "{}-") && |core| == 32 && Literal(core, d, u);
    CutsShrinks(raw, m, "urn:");
    CutsShrinks(m, n, "uuid:");
    PicksShrinks(n, core, "{}-");
  }

  // ---------- the usual spellings are read ----------

  /** No colon, and hexadecimal digits or hyphens only. */
  ghost predicate Plain(t: string) {
    t != "" && IsHex(t[0]) && IsHex(t[|t| - 1]) && forall i | 0 <= i < |t| :: IsHex(t[i]) || t[i] == '-'
  }

  lemma PlainUncut(t: string)
    requires Plain(t)
    ensures Without(t, "urn:") == t && Without(t, "uuid:") == t && Strip(t, "{}") == t
  {
    WithoutAbsent(t, "urn:", 3);
    WithoutAbsent(t, "uuid:", 4);
    StripNothing(t, "{}");
  }

  lemma Braces(t: string)
    requires Plain(t)
    ensures Without("{" + t + "}", "urn:") == "{" + t + "}" && Without("{" + t + "}", "uuid:") == "{" + t + "}"
    ensures Strip("{" + t + "}", "{}") == t
  {
    var b := "{" + t + "}";
    WithoutAbsent(b, "urn:", 3);
    WithoutAbsent(b, "uuid:", 4);
    assert b[1..] == t + "}";
    assert (t + "}")[0] == t[0];
    assert StripLeft(b, "{}") == t + "}";
    assert (t + "}")[..|t|] == t;
    assert StripRight(t + "}", "{}") == StripRight(t, "{}") == t;
  }

  lemma Prefix(t: string)
    requires Plain(t)
    ensures Without(Without("urn:uuid:" + t, "urn:"), "uuid:") == t
  {
    var p := "urn:uuid:" + t;
    assert p[..4] == "urn:" && p[4..] == "uuid:" + t;
    var q := "uuid:" + t;
    assert q[..5] == "uuid:" && q[5..] == t;
    PlainUncut(t);
    NoUrn(t);
  }

  /** "uuid:" in front of a plain text holds no "urn:". */
  lemma NoUrn(t: string)
    requires Plain(t)
    ensures Without("uuid:" + t, "urn:") == "uuid:" + t
  {
    WithoutAbsent("uuid:" + t, "urn:", 1);
  }

  /** 32 hexadecimal digits in any letter case are read as their value: bare or hyphenated, and either of these in braces
      or behind "urn:uuid:". */
  lemma SpellingsRead(h: string, hyphens: bool)
    requires |h| == 32 && AllHex(h)
    ensures FromHex(h) < UUID_LIMIT
    ensures var t := if hyphens then Hyphenated(h) else h;
      Parse(t) == Parse("{" + t + "}") == Parse("urn:uuid:" + t) == Some(FromHex(h))
  {
    hide Without, Strip, Parse, FromHex;
    var t := if hyphens then Hyphenated(h) else h;
    HexLiteral(h);
    HyphensDropped(h);
    PlainText(h, hyphens);
    PlainUncut(t);
    Braces(t);
    Prefix(t);
    CoreRead(t, h);
    CoreRead("{" + t + "}", h);
    CoreRead("urn:uuid:" + t, h);
  }

  lemma PlainText(h: string, hyphens: bool)
    requires |h| == 32 && AllHex(h)
    ensures Plain(if hyphens then Hyphenated(h) else h)
  {
    hide Hyphenated;
    assert forall i | 0 <= i < 32 :: IsHex(h[i]);
    HyphenatedShape(h);
  }

  lemma CoreRead(raw: string, core: string)
    requires Without(Strip(Without(Without(raw, "urn:"), "uuid:"), "{}"), "-") == core && |core| == 32 && AllHex(core)
    ensures Parse(raw) == Some(FromHex(core))
  {
    hide Without, Strip, ParseInt16, FromHex;
    HexLiteral(core);
  }
}
