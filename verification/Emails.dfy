/** Email addresses over ASCII: the normal form that the uniqueness rule compares, and its syntax check. */
module Emails {
  import opened Wrappers

  predicate IsSpace(c: char) {
    0x09 as char <= c <= 0x0D as char || 0x1C as char <= c <= ' '
  }

  function Lower(c: char): char {
    if 'A' <= c <= 'Z' then c + 32 as char else c
  }

  function TrimLeft(s: string): string {
    if s != "" && IsSpace(s[0]) then TrimLeft(s[1..]) else s
  }

  function TrimRight(s: string): string {
    if s != "" && IsSpace(s[|s| - 1]) then TrimRight(s[..|s| - 1]) else s
  }

  function LowerAll(s: string): (t: string)
    ensures |t| == |s| && forall i | 0 <= i < |s| :: t[i] == Lower(s[i])
  {
    if s == "" then "" else [Lower(s[0])] + LowerAll(s[1..])
  }

  function Normalise(raw: string): string {
    LowerAll(TrimRight(TrimLeft(raw)))
  }

  /** One '@', no white space, and a dot in the domain that is neither its first nor its last character. */
  predicate WellFormed(s: string) {
    exists at, dot | 0 < at < |s| && at + 1 < dot < |s| - 1 ::
      && s[at] == '@' && s[dot] == '.'
      && forall i | 0 <= i < |s| :: !IsSpace(s[i]) && (s[i] == '@' ==> i == at)
  }

  /** The address in normal form; None where construction raises ValidationError. */
  function Email(raw: string): Option<string> {
    var n := Normalise(raw);
    if WellFormed(n) then Some(n) else None
  }

  lemma LowerTwice(s: string)
    ensures LowerAll(LowerAll(s)) == LowerAll(s)
  {
    var t := LowerAll(s);
    assert forall i | 0 <= i < |s| :: LowerAll(t)[i] == t[i];
  }

  /** A stored address is its own normal form: building an address from it succeeds and changes nothing. */
  lemma NormalFormIsFixed(raw: string)
    requires Email(raw).Some?
    ensures Email(Email(raw).value) == Email(raw)
  {
    var n := Email(raw).value;
    assert TrimLeft(n) == n && TrimRight(n) == n;
    LowerTwice(TrimRight(TrimLeft(raw)));
  }

  // ---------- what an address is, without the functions above ----------

  /** ASCII white space, for trimming as for the pattern. */
  const WHITE_SPACE: string := ['\t', '\n', 0xB as char, 0xC as char, '\r', 0x1C as char, 0x1D as char, 0x1E as char,
                                0x1F as char, ' ']

  /** raw[lo..hi] is raw without its outer white space. */
  ghost predicate Trimmed(raw: string, lo: nat, hi: nat) {
    && lo <= hi <= |raw|
    && (forall i | 0 <= i < lo :: raw[i] in WHITE_SPACE)
    && (forall i | hi <= i < |raw| :: raw[i] in WHITE_SPACE)
    && (lo < hi ==> raw[lo] !in WHITE_SPACE && raw[hi - 1] !in WHITE_SPACE)
  }

  /** A non-empty run of characters that are neither '@' nor white space. */
  ghost predicate Word(s: string) {
    s != "" && forall i | 0 <= i < |s| :: s[i] != '@' && s[i] !in WHITE_SPACE
  }

  /** The pattern: a word, '@', a word, '.', a word. */
  ghost predicate Matches(s: string) {
    exists local, domain, rest :: Parts(s, local, domain, rest)
  }

  ghost predicate Parts(s: string, local: string, domain: string, rest: string) {
    s == local + "@" + domain + "." + rest && Word(local) && Word(domain) && Word(rest)
  }

  /** t is s with each upper-case letter replaced by the lower-case one, 32 places on. */
  ghost predicate Folded(s: string, t: string) {
    && |t| == |s|
    && forall i | 0 <= i < |s| :: t[i] as int == if 'A' <= s[i] <= 'Z' then s[i] as int + 32 else s[i] as int
  }

  lemma SpaceIff(c: char)
    ensures IsSpace(c) <==> c in WHITE_SPACE
  {
    if IsSpace(c) {
      var n := c as int;
      var k := if n <= 13 then n - 9 else n - 23;
      assert WHITE_SPACE[k] == c;
    }
  }

  lemma {:induction false} TrimLeftAt(s: string, lo: nat)
    requires lo <= |s| && (forall i | 0 <= i < lo :: IsSpace(s[i])) && (lo < |s| ==> !IsSpace(s[lo]))
    ensures TrimLeft(s) == s[lo..]
  {
    if lo > 0 {
      TrimLeftAt(s[1..], lo - 1);
    }
  }

  lemma {:induction false} TrimRightAt(s: string, hi: nat)
    requires hi <= |s| && (forall i | hi <= i < |s| :: IsSpace(s[i])) && (hi > 0 ==> !IsSpace(s[hi - 1]))
    ensures TrimRight(s) == s[..hi]
    decreases |s|
  {
    if hi < |s| {
      TrimRightAt(s[..|s| - 1], hi);
      assert s[..|s| - 1][..hi] == s[..hi];
    }
  }

  lemma {:induction false} Trims(raw: string) returns (lo: nat, hi: nat)
    ensures Trimmed(raw, lo, hi)
  {
    lo, hi := 0, |raw|;
    while lo < |raw| && raw[lo] in WHITE_SPACE
      invariant lo <= |raw| && forall i | 0 <= i < lo :: raw[i] in WHITE_SPACE
    {
      lo := lo + 1;
    }
    while hi > lo && raw[hi - 1] in WHITE_SPACE
      invariant lo <= hi <= |raw| && forall i | hi <= i < |raw| :: raw[i] in WHITE_SPACE
    {
      hi := hi - 1;
    }
  }

  lemma TrimsTo(raw: string, lo: nat, hi: nat)
    requires Trimmed(raw, lo, hi)
    ensures TrimRight(TrimLeft(raw)) == raw[lo..hi]
  {
    forall i | 0 <= i < |raw| ensures IsSpace(raw[i]) <==> raw[i] in WHITE_SPACE {
      SpaceIff(raw[i]);
    }
    if lo < hi {
      TrimLeftAt(raw, lo);
      TrimRightAt(raw[lo..], hi - lo);
      assert raw[lo..][..hi - lo] == raw[lo..hi];
    } else {
      TrimLeftAt(raw, |raw|);
      TrimRightAt("", 0);
    }
  }

  lemma FoldsTo(s: string)
    ensures Folded(s, LowerAll(s))
  {
  }

  lemma WellFormedIff(s: string)
    ensures WellFormed(s) <==> Matches(s)
  {
    forall i | 0 <= i < |s| ensures IsSpace(s[i]) <==> s[i] in WHITE_SPACE {
      SpaceIff(s[i]);
    }
    if WellFormed(s) {
      var at, dot :| 0 < at < |s| && at + 1 < dot < |s| - 1 && s[at] == '@' && s[dot] == '.'
        && forall i | 0 <= i < |s| :: !IsSpace(s[i]) && (s[i] == '@' ==> i == at);
      assert s == s[..at] + "@" + s[at + 1..dot] + "." + s[dot + 1..];
      assert Parts(s, s[..at], s[at + 1..dot], s[dot + 1..]);
    }
    if Matches(s) {
      var local, domain, rest :| Parts(s, local, domain, rest);
      MatchesWell(s, local, domain, rest);
    }
  }

  lemma MatchesWell(s: string, local: string, domain: string, rest: string)
    requires Parts(s, local, domain, rest)
    ensures WellFormed(s)
  {
    var at, dot := |local|, |local| + 1 + |domain|;
    assert s[at] == '@' && s[dot] == '.';
    forall i | 0 <= i < |s| ensures !IsSpace(s[i]) && (s[i] == '@' ==> i == at) {
      SpaceIff(s[i]);
      assert i < at ==> s[i] == local[i];
      assert at < i < dot ==> s[i] == domain[i - at - 1];
      assert i > dot ==> s[i] == rest[i - dot - 1];
    }
  }

  lemma FoldedMatches(s: string, t: string)
    requires Folded(s, t)
    ensures Matches(s) <==> Matches(t)
  {
    WellFormedIff(s);
    WellFormedIff(t);
    forall i | 0 <= i < |s|
      ensures (IsSpace(s[i]) <==> IsSpace(t[i])) && (s[i] == '@' <==> t[i] == '@') && (s[i] == '.' <==> t[i] == '.')
    {
    }
    if WellFormed(s) {
      SamePattern(s, t);
    }
    if WellFormed(t) {
      SamePattern(t, s);
    }
  }

  lemma SamePattern(s: string, t: string)
    requires |s| == |t| && WellFormed(s)
    requires forall i | 0 <= i < |s| ::
      (IsSpace(s[i]) <==> IsSpace(t[i])) && (s[i] == '@' <==> t[i] == '@') && (s[i] == '.' <==> t[i] == '.')
    ensures WellFormed(t)
  {
    var at, dot :| 0 < at < |s| && at + 1 < dot < |s| - 1 && s[at] == '@' && s[dot] == '.'
      && forall i | 0 <= i < |s| :: !IsSpace(s[i]) && (s[i] == '@' ==> i == at);
    assert t[at] == '@' && t[dot] == '.';
  }

  /** Email accepts exactly what matches the pattern once outer white space is cut off, and gives it back with upper-case
      letters folded to lower case. */
  lemma EmailIff(raw: string, lo: nat, hi: nat)
    requires Trimmed(raw, lo, hi)
    ensures Email(raw).Some? <==> Matches(raw[lo..hi])
    ensures Email(raw).Some? ==> Folded(raw[lo..hi], Email(raw).value)
  {
    var core := raw[lo..hi];
    TrimsTo(raw, lo, hi);
    FoldsTo(core);
    FoldedMatches(core, LowerAll(core));
    WellFormedIff(LowerAll(core));
  }

  /** A stored address holds no upper-case letter and no white space. */
  lemma StoredIsPlain(raw: string)
    requires Email(raw).Some?
    ensures forall c | c in Email(raw).value :: !('A' <= c <= 'Z') && c !in WHITE_SPACE
  {
    var lo, hi := Trims(raw);
    EmailIff(raw, lo, hi);
    var e := Email(raw).value;
    forall i | 0 <= i < |e| ensures e[i] !in WHITE_SPACE {
      SpaceIff(e[i]);
    }
  }

  /** The same letters and signs, in either case. */
  ghost predicate SameLetters(a: string, b: string) {
    exists folded :: Folded(a, folded) && Folded(b, folded)
  }

  /** Spellings that differ only in letter case and outer white space are one address, or none. */
  lemma OneAddress(raw: string, lo: nat, hi: nat, other: string, from: nat, to: nat)
    requires Trimmed(raw, lo, hi) && Trimmed(other, from, to) && SameLetters(raw[lo..hi], other[from..to])
    ensures Email(raw) == Email(other)
  {
    var folded :| Folded(raw[lo..hi], folded) && Folded(other[from..to], folded);
    TrimsTo(raw, lo, hi);
    TrimsTo(other, from, to);
    FoldsTo(raw[lo..hi]);
    FoldsTo(other[from..to]);
    assert LowerAll(raw[lo..hi]) == folded == LowerAll(other[from..to]);
  }
}
