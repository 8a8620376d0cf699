/** Base64 with the URL-safe alphabet (section 5 of RFC 4648): a padding encoder and the lenient decoder of the
    Python standard library, which skips characters outside the alphabet and stops at a complete padding. */
module Base64Url {
  import opened Wrappers

  type Byte = n: nat | n < 256

  function Symbol(v: nat): (c: char)
    requires v < 64
    ensures SymbolValue(c) == Some(v) && c != '='
  {
    if v < 26 then 'A' + v as char
    else if v < 52 then 'a' + (v - 26) as char
    else if v < 62 then '0' + (v - 52) as char
    else if v == 62 then '-' else '_'
  }

  /** The URL-safe decoder first maps '-' to '+' and '_' to '/', so it reads both alphabets. */
  function SymbolValue(c: char): (v: Option<nat>)
    ensures v.Some? ==> v.value < 64
  {
    if 'A' <= c <= 'Z' then Some((c - 'A') as nat)
    else if 'a' <= c <= 'z' then Some((c - 'a') as nat + 26)
    else if '0' <= c <= '9' then Some((c - '0') as nat + 52)
    else if c == '-' || c == '+' then Some(62)
    else if c == '_' || c == '/' then Some(63)
    else None
  }

  function Encode(b: seq<Byte>): string {
    if |b| == 0 then ""
    else if |b| == 1 then [Symbol(b[0] / 4), Symbol(b[0] % 4 * 16), '=', '=']
    else if |b| == 2 then [Symbol(b[0] / 4), Symbol(b[0] % 4 * 16 + b[1] / 16), Symbol(b[1] % 16 * 4), '=']
    else
      [Symbol(b[0] / 4), Symbol(b[0] % 4 * 16 + b[1] / 16), Symbol(b[1] % 16 * 4 + b[2] / 64), Symbol(b[2] % 64)]
      + Encode(b[3..])
  }

  /** Position in a group of four symbols, the bits left over from the last symbol, padding characters seen since
      the last symbol, and the bytes produced so far. */
  datatype Reader = Reader(quad: nat, left: nat, pads: nat, out: seq<Byte>) {
    ghost predicate Valid() {
      && (quad == 0 ==> left == 0) && (quad == 1 ==> left < 64)
      && (quad == 2 ==> left < 16) && (quad == 3 ==> left < 4) && quad < 4
    }
  }

  function Feed(r: Reader, v: nat): (r': Reader)
    requires r.Valid() && v < 64
    ensures r'.Valid()
  {
    if r.quad == 0 then Reader(1, v, 0, r.out)
    else if r.quad == 1 then Reader(2, v % 16, 0, r.out + [r.left * 4 + v / 16])
    else if r.quad == 2 then Reader(3, v % 4, 0, r.out + [r.left * 16 + v / 4])
    else Reader(0, 0, 0, r.out + [r.left * 64 + v])
  }

  function Read(r: Reader, s: string): Option<seq<Byte>>
    requires r.Valid()
    decreases |s|
  {
    if s == "" then (if r.quad == 0 then Some(r.out) else None)
    else if s[0] == '=' then
      if r.quad >= 2 && r.quad + r.pads + 1 >= 4 then Some(r.out)
      else Read(if r.quad >= 2 then r.(pads := r.pads + 1) else r, s[1..])
    else if SymbolValue(s[0]).None? then Read(r, s[1..])
    else Read(Feed(r, SymbolValue(s[0]).value), s[1..])
  }

  const Start := Reader(0, 0, 0, [])

  function Decode(s: string): Option<seq<Byte>> {
    Read(Start, s)
  }

  lemma ReadSymbol(r: Reader, v: nat, rest: string)
    requires r.Valid() && v < 64
    ensures Read(r, [Symbol(v)] + rest) == Read(Feed(r, v), rest)
  {
    var s := [Symbol(v)] + rest;
    assert s[0] == Symbol(v) && s[1..] == rest;
  }

  lemma {:induction false} ReadGroup(out: seq<Byte>, x: Byte, y: Byte, z: Byte, rest: string)
    ensures Read(Reader(0, 0, 0, out),
                 [Symbol(x / 4), Symbol(x % 4 * 16 + y / 16), Symbol(y % 16 * 4 + z / 64), Symbol(z % 64)] + rest)
         == Read(Reader(0, 0, 0, out + [x, y, z]), rest)
  {
    var v0, v1, v2, v3 := x / 4, x % 4 * 16 + y / 16, y % 16 * 4 + z / 64, z % 64;
    var r0 := Reader(0, 0, 0, out);
    var r1 := Feed(r0, v0);
    var r2 := Feed(r1, v1);
    var r3 := Feed(r2, v2);
    var r4 := Feed(r3, v3);
    var s3 := [Symbol(v3)] + rest;
    var s2 := [Symbol(v2)] + s3;
    var s1 := [Symbol(v1)] + s2;
    assert [Symbol(v0), Symbol(v1), Symbol(v2), Symbol(v3)] + rest == [Symbol(v0)] + s1;
    ReadSymbol(r0, v0, s1);
    ReadSymbol(r1, v1, s2);
    ReadSymbol(r2, v2, s3);
    ReadSymbol(r3, v3, rest);
    assert v0 * 4 + v1 / 16 == x && v1 % 16 * 16 + v2 / 4 == y && v2 % 4 * 64 + v3 == z;
    assert r4.out == out + [x, y, z];
  }

  lemma {:induction false} ReadTail(out: seq<Byte>, b: seq<Byte>)
    requires |b| == 1 || |b| == 2
    ensures Read(Reader(0, 0, 0, out), Encode(b)) == Some(out + b)
  {
    var r0 := Reader(0, 0, 0, out);
    var v0 := b[0] / 4;
    var r1 := Feed(r0, v0);
    if |b| == 1 {
      var v1 := b[0] % 4 * 16;
      var r2 := Feed(r1, v1);
      assert Encode(b) == [Symbol(v0)] + ([Symbol(v1)] + "==");
      ReadSymbol(r0, v0, [Symbol(v1)] + "==");
      ReadSymbol(r1, v1, "==");
      assert v0 * 4 + v1 / 16 == b[0];
      assert r2.out == out + b;
      assert "=="[1..] == "=";
      assert Read(r2.(pads := 1), "=") == Some(r2.out);
    } else {
      var v1, v2 := b[0] % 4 * 16 + b[1] / 16, b[1] % 16 * 4;
      var r2 := Feed(r1, v1);
      var r3 := Feed(r2, v2);
      assert Encode(b) == [Symbol(v0)] + ([Symbol(v1)] + ([Symbol(v2)] + "="));
      ReadSymbol(r0, v0, [Symbol(v1)] + ([Symbol(v2)] + "="));
      ReadSymbol(r1, v1, [Symbol(v2)] + "=");
      ReadSymbol(r2, v2, "=");
      assert v0 * 4 + v1 / 16 == b[0] && v1 % 16 * 16 + v2 / 4 == b[1];
      assert r3.out == out + b;
    }
  }

  lemma {:induction false} ReadEncoded(out: seq<Byte>, b: seq<Byte>)
    ensures Read(Reader(0, 0, 0, out), Encode(b)) == Some(out + b)
    decreases |b|
  {
    if |b| == 0 {
      assert out + b == out;
    } else if |b| < 3 {
      ReadTail(out, b);
    } else {
      ReadGroup(out, b[0], b[1], b[2], Encode(b[3..]));
      ReadEncoded(out + [b[0], b[1], b[2]], b[3..]);
      assert out + [b[0], b[1], b[2]] + b[3..] == out + b;
    }
  }

  /** Decoding the encoding of any byte string, of any length, gives it back. */
  lemma RoundTrip(b: seq<Byte>)
    ensures Decode(Encode(b)) == Some(b)
  {
    ReadEncoded([], b);
    assert [] + b == b;
  }
}
