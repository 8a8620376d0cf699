/** The opaque pagination cursor: the text of a user id, in base64url. */
module Cursors {
  import opened Wrappers
  import opened Uuids
  import opened Rows
  import Base64Url
  import Base64Bits
  import Spellings

  function EncodeCursor(u: Uuid): string {
    TextShape(u);
    var t := Text(u);
    assert forall i | 0 <= i < |t| :: t[i] as int < 256;
    Base64Url.Encode(seq(|t|, i requires 0 <= i < |t| => t[i] as int))
  }

  /** Every string is a cursor for some id or is refused with ValidationError. */
  function DecodeCursor(cursor: string): (r: Result<Uuid, Error>)
    ensures r.Failure? ==> r.error == ValidationFailed
  {
    var bytes := Base64Url.Decode(cursor);
    if bytes.None? || exists i | 0 <= i < |bytes.value| :: bytes.value[i] >= 128 then Failure(ValidationFailed)
    else
      var b := bytes.value;
      var id := Parse(seq(|b|, i requires 0 <= i < |b| => b[i] as char));
      if id.Some? then Success(id.value) else Failure(ValidationFailed)
  }

  lemma CursorRoundTrip(u: Uuid)
    ensures DecodeCursor(EncodeCursor(u)) == Success(u)
  {
    TextShape(u);
    TextRoundTrip(u);
    var t := Text(u);
    var b: seq<Base64Url.Byte> := seq(|t|, i requires 0 <= i < |t| => t[i] as int);
    Base64Url.RoundTrip(b);
    assert forall i | 0 <= i < |b| :: b[i] < 128;
    assert seq(|b|, i requires 0 <= i < |b| => b[i] as char) == t;
  }

  /** The bytes that the cursor's symbols spell are ASCII, and as text they spell u. */
  ghost predicate CursorSpells(cursor: string, u: Uuid) {
    exists n: nat, bytes: seq<Base64Url.Byte>, text: string | n <= |Base64Bits.Values(cursor)| && |text| == |bytes| ::
      && Base64Bits.Bits(Base64Bits.Values(cursor)[..n], bytes)
      && (forall i | 0 <= i < |text| :: text[i] as int == bytes[i] < 128)
      && Spellings.Spells(text, u)
  }

  /** A cursor that is accepted as u spells u by its symbols. */
  lemma DecodeSound(cursor: string)
    requires DecodeCursor(cursor).Success?
    ensures CursorSpells(cursor, DecodeCursor(cursor).value)
  {
    hide Base64Url.Decode, Parse;
    var n := Base64Bits.DecodedBits(cursor);
    var bytes := Base64Url.Decode(cursor).value;
    var text := seq(|bytes|, i requires 0 <= i < |bytes| => bytes[i] as char);
    Spellings.ParseSound(text);
  }

  /** A cursor with fewer than 43 symbols is refused: 32 characters take 43 symbols. */
  lemma ShortRefused(cursor: string)
    requires |Base64Bits.Values(cursor)| < 43
    ensures DecodeCursor(cursor) == Failure(ValidationFailed)
  {
    hide Base64Url.Decode, Parse, Spellings.Spells, Base64Bits.Groups, Base64Bits.Tail;
    if DecodeCursor(cursor).Success? {
      var u := DecodeCursor(cursor).value;
      DecodeSound(cursor);
      var n: nat, bytes: seq<Base64Url.Byte>, text: string :| n <= |Base64Bits.Values(cursor)| && |text| == |bytes|
        && Base64Bits.Bits(Base64Bits.Values(cursor)[..n], bytes)
        && (forall i | 0 <= i < |text| :: text[i] as int == bytes[i] < 128)
        && Spellings.Spells(text, u);
      Spellings.SpellsLength(text, u);
    }
  }

  /** A cursor that encodes an ASCII text is accepted exactly if the text is read as an id, and as that id. */
  lemma CursorOfText(text: string)
    requires forall i | 0 <= i < |text| :: text[i] as int < 128
    ensures var cursor := Base64Url.Encode(seq(|text|, i requires 0 <= i < |text| => text[i] as int));
      DecodeCursor(cursor) == if Parse(text).Some? then Success(Parse(text).value) else Failure(ValidationFailed)
  {
    hide Base64Url.Decode, Base64Url.Encode, Parse;
    var b: seq<Base64Url.Byte> := seq(|text|, i requires 0 <= i < |text| => text[i] as int);
    Base64Url.RoundTrip(b);
    assert seq(|b|, i requires 0 <= i < |b| => b[i] as char) == text;
  }
}
