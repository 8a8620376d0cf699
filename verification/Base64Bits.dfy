/** What base64url coding computes, said of the bits: which symbol stands for which value, and which bytes the symbols
    of a text spell. */
module Base64Bits {
  import opened Wrappers
  import opened Base64Url

  /** The alphabet of section 5 of RFC 4648; the decoder reads '+' and '/' as its last two symbols as well. */
  function UpperCase(): (s: string)
    ensures |s| == 26
  {
    "ABCDEFGHIJKLMNOPQRSTUVWXYZ"
  }

  function LowerCase(): (s: string)
    ensures |s| == 26
  {
    "abcdefghijklmnopqrstuvwxyz"
  }

  function Digits(): (s: string)
    ensures |s| == 10
  {
    "0123456789"
  }

  ghost predicate Stands(c: char, v: nat) {
    || (v < 26 && c == UpperCase()[v])
    || (26 <= v < 52 && c == LowerCase()[v - 26])
    || (52 <= v < 62 && c == Digits()[v - 52])
    || (v == 62 && (c == '-' || c == '+'))
    || (v == 63 && (c == '_' || c == '/'))
  }

  lemma UpperAt(i: nat)
    requires i < 26
    ensures UpperCase()[i] as int == 'A' as int + i
  {
  }

  lemma LowerAt(i: nat)
    requires i < 26
    ensures LowerCase()[i] as int == 'a' as int + i
  {
  }

  lemma DigitAt(i: nat)
    requires i < 10
    ensures Digits()[i] as int == '0' as int + i
  {
  }

  lemma SymbolIff(c: char, v: nat)
    ensures SymbolValue(c) == Some(v) <==> Stands(c, v)
    ensures v < 64 ==> Stands(Symbol(v), v) && Symbol(v) != '+' && Symbol(v) != '/'
  {
    hide UpperCase, LowerCase, Digits;
    if v < 26 {
      UpperAt(v);
    } else if v < 52 {
      LowerAt(v - 26);
    } else if v < 62 {
      DigitAt(v - 52);
    }
  }

  /** The values of the symbols of s in order; every other character is skipped. */
  function Values(s: string): (v: seq<nat>)
    ensures |v| <= |s| && forall i | 0 <= i < |v| :: v[i] < 64
  {
    if s == "" then []
    else if SymbolValue(s[0]).None? then Values(s[1..])
    else [SymbolValue(s[0]).value] + Values(s[1..])
  }

  /** The 24 bits of four symbols are the 24 bits of three bytes; two or three symbols give one or two bytes. */
  ghost predicate Bits(v: seq<nat>, b: seq<Byte>) {
    |b| == |v| * 3 / 4 && Groups(v, b) && Tail(v, b)
  }

  ghost predicate Groups(v: seq<nat>, b: seq<Byte>) {
    forall q: nat | 4 * q + 3 < |v| :: Group(v, b, 4 * q, 3 * q)
  }

  ghost predicate Tail(v: seq<nat>, b: seq<Byte>)
    requires |b| == |v| * 3 / 4
  {
    var n, m := |v|, |b|;
    && (n % 4 == 2 ==> (v[n - 2] * 64 + v[n - 1]) / 16 == b[m - 1])
    && (n % 4 == 3 ==> ((v[n - 3] * 64 + v[n - 2]) * 64 + v[n - 1]) / 4 == b[m - 2] as int * 256 + b[m - 1])
  }

  ghost predicate Group(v: seq<nat>, b: seq<Byte>, i: nat, k: nat) {
    && i + 3 < |v| && k + 2 < |b|
    && ((v[i] * 64 + v[i + 1]) * 64 + v[i + 2]) * 64 + v[i + 3] == (b[k] as int * 256 + b[k + 1]) * 256 + b[k + 2]
  }

  /** The reader after the symbols v. */
  ghost predicate HasRead(r: Reader, v: seq<nat>) {
    && r.Valid() && r.quad == |v| % 4
    && (forall i | 0 <= i < |v| :: v[i] < 64)
    && Bits(v, r.out)
    && (r.quad == 1 ==> r.left == v[|v| - 1])
    && (r.quad == 2 ==> r.left == v[|v| - 1] % 16)
    && (r.quad == 3 ==> r.left == v[|v| - 1] % 4)
  }

  lemma FeedOne(r: Reader, v: seq<nat>, x: nat)
    requires HasRead(r, v) && x < 64
    ensures HasRead(Feed(r, x), v + [x])
  {
    hide Bits;
    FeedBits(r, v, x);
  }

  lemma FeedBits(r: Reader, v: seq<nat>, x: nat)
    requires HasRead(r, v) && x < 64
    ensures Bits(v + [x], Feed(r, x).out)
  {
    hide Groups, Tail;
    FeedLength(r, v, x);
    FeedGroups(r, v, x);
    FeedTail(r, v, x);
  }

  lemma FeedLength(r: Reader, v: seq<nat>, x: nat)
    requires HasRead(r, v) && x < 64
    ensures |Feed(r, x).out| == |v + [x]| * 3 / 4
  {
    hide Groups, Tail;
  }

  lemma FeedTail(r: Reader, v: seq<nat>, x: nat)
    requires HasRead(r, v) && x < 64 && |Feed(r, x).out| == |v + [x]| * 3 / 4
    ensures Tail(v + [x], Feed(r, x).out)
  {
    hide Groups;
    var n, b := |v|, r.out;
    if r.quad == 1 {
      assert (v[n - 1] * 64 + x) / 16 == v[n - 1] * 4 + x / 16;
    } else if r.quad == 2 {
      TwoBytes(v[n - 2], v[n - 1], x, b[|b| - 1]);
    }
  }

  lemma FeedGroups(r: Reader, v: seq<nat>, x: nat)
    requires HasRead(r, v) && x < 64
    ensures Groups(v + [x], Feed(r, x).out)
  {
    hide Group;
    var n, b := |v|, r.out;
    GroupsStay(r, v, x);
    if r.quad == 3 {
      ThreeBytes(v[n - 3], v[n - 2], v[n - 1], x, b[|b| - 2], b[|b| - 1]);
      LastGroup(r, v, x);
    }
  }

  lemma TwoBytes(x: nat, y: nat, z: nat, b: nat)
    requires x < 64 && y < 64 && z < 64 && (x * 64 + y) / 16 == b
    ensures ((x * 64 + y) * 64 + z) / 4 == b * 256 + (y % 16 * 16 + z / 4)
  {
    assert x * 64 + y == b * 16 + y % 16;
  }

  lemma ThreeBytes(w: nat, x: nat, y: nat, z: nat, b: nat, c: nat)
    requires w < 64 && x < 64 && y < 64 && z < 64 && ((w * 64 + x) * 64 + y) / 4 == b * 256 + c
    ensures ((w * 64 + x) * 64 + y) * 64 + z == (b * 256 + c) * 256 + (y % 4 * 64 + z)
  {
    assert (w * 64 + x) * 64 + y == (b * 256 + c) * 4 + y % 4;
  }

  lemma GroupsStay(r: Reader, v: seq<nat>, x: nat)
    requires HasRead(r, v) && x < 64
    ensures forall q: nat | 4 * q + 3 < |v| :: Group(v + [x], Feed(r, x).out, 4 * q, 3 * q)
  {
    forall q: nat | 4 * q + 3 < |v| ensures Group(v + [x], Feed(r, x).out, 4 * q, 3 * q) {
      assert Group(v, r.out, 4 * q, 3 * q);
    }
  }

  lemma LastGroup(r: Reader, v: seq<nat>, x: nat)
    requires HasRead(r, v) && x < 64 && r.quad == 3
    requires var n, b := |v|, r.out;
      ((v[n - 3] * 64 + v[n - 2]) * 64 + v[n - 1]) * 64 + x
      == (b[|b| - 2] as int * 256 + b[|b| - 1]) * 256 + (v[n - 1] % 4 * 64 + x)
    ensures forall q: nat | 4 * q + 3 == |v| :: Group(v + [x], Feed(r, x).out, 4 * q, 3 * q)
  {
    forall q: nat | 4 * q + 3 == |v| ensures Group(v + [x], Feed(r, x).out, 4 * q, 3 * q) {
      assert |r.out| == 3 * q + 2;
    }
  }

  lemma ReadSoFar(r: Reader, v: seq<nat>)
    requires HasRead(r, v)
    ensures Bits(v, r.out) && (r.quad == 0 <==> |v| % 4 == 0) && r.Valid()
    ensures forall pads: nat :: HasRead(r.(pads := pads), v)
  {
  }

  /** Reading s on from r, which has read v: the result has read a prefix of the symbols of s too; all of them if s has no
      padding, and then reading succeeds exactly if they complete their last group. */
  lemma {:induction false} ReadsBits(r: Reader, s: string, v: seq<nat>) returns (n: nat)
    requires r.Valid() && HasRead(r, v)
    ensures n <= |Values(s)|
    ensures Read(r, s).Some? ==> Bits(v + Values(s)[..n], Read(r, s).value)
    ensures '=' !in s ==> n == |Values(s)| && (Read(r, s).Some? <==> (|v| + |Values(s)|) % 4 == 0)
    decreases |s|
  {
    hide Bits, HasRead, Feed, SymbolValue;
    ReadSoFar(r, v);
    n := 0;
    assert v + Values(s)[..0] == v;
    if s != "" {
      var x := SymbolValue(s[0]);
      if s[0] == '=' && !(r.quad >= 2 && r.quad + r.pads + 1 >= 4) {
        PadIsNoSymbol();
        n := ReadsBits(if r.quad >= 2 then r.(pads := r.pads + 1) else r, s[1..], v);
      } else if s[0] != '=' && x.None? {
        n := ReadsBits(r, s[1..], v);
      } else if s[0] != '=' {
        FeedOne(r, v, x.value);
        n := ReadsBits(Feed(r, x.value), s[1..], v + [x.value]);
        assert v + [x.value] + Values(s[1..])[..n] == v + Values(s)[..n + 1];
        n := n + 1;
      }
    }
  }

  lemma PadIsNoSymbol()
    ensures SymbolValue('=').None?
  {
  }

  /** What decoding gives are the bits of the symbols of s up to a complete padding, or to the end. Without padding it
      succeeds exactly if the symbols come in groups of four. */
  lemma DecodedBits(s: string) returns (n: nat)
    ensures n <= |Values(s)|
    ensures Decode(s).Some? ==> Bits(Values(s)[..n], Decode(s).value)
    ensures '=' !in s ==> n == |Values(s)| && (Decode(s).Some? <==> |Values(s)| % 4 == 0)
  {
    n := ReadsBits(Start, s, []);
    assert [] + Values(s)[..n] == Values(s)[..n];
  }

  /** A character that encoding writes for a symbol. */
  ghost predicate Written(c: char) {
    c in UpperCase() || c in LowerCase() || c in Digits() || c == '-' || c == '_'
  }

  lemma SymbolWritten(v: nat)
    requires v < 64
    ensures Written(Symbol(v))
  {
    hide UpperCase, LowerCase, Digits, Symbol;
    SymbolIff(Symbol(v), v);
  }

  /** Encoding gives four characters for every three bytes or part of them: symbols, and then at most two '='. */
  lemma {:induction false} EncodeShape(b: seq<Byte>)
    ensures |Encode(b)| == (|b| + 2) / 3 * 4
    ensures forall i | 0 <= i < |Encode(b)| :: Written(Encode(b)[i]) || (Encode(b)[i] == '=' && i >= |Encode(b)| - 2)
    decreases |b|
  {
    hide Symbol, Written;
    forall v | 0 <= v < 64 ensures Written(Symbol(v)) {
      SymbolWritten(v);
    }
    if |b| >= 3 {
      EncodeShape(b[3..]);
      ShapeOfGroup(b);
    }
  }

  lemma ShapeOfGroup(b: seq<Byte>)
    requires |b| >= 3
    requires forall v | 0 <= v < 64 :: Written(Symbol(v))
    requires var t := Encode(b[3..]);
      && |t| == (|b| - 1) / 3 * 4
      && forall i | 0 <= i < |t| :: Written(t[i]) || (t[i] == '=' && i >= |t| - 2)
    ensures |Encode(b)| == (|b| + 2) / 3 * 4
    ensures forall i | 0 <= i < |Encode(b)| :: Written(Encode(b)[i]) || (Encode(b)[i] == '=' && i >= |Encode(b)| - 2)
  {
    hide Symbol, Written;
    var s, t := Encode(b), Encode(b[3..]);
    assert forall i | 4 <= i < |s| :: s[i] == t[i - 4];
  }
}
