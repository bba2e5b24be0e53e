/**
 * BSON ObjectIDs as the MongoDB Go driver handles them: `primitive.ObjectIDFromHex`
 * (the partial parse used by the read, update and delete handlers) and `ObjectID.Hex`
 * (the lowercase rendering the driver uses when it decodes an ObjectID into the
 * string field `User.ID`).
 */
module ObjectIds {
  import opened Wrappers

  newtype byte = x: int | 0 <= x < 256

  /** An ObjectID is exactly twelve bytes (`[12]byte` in the driver). */
  type IdBytes = b: seq<byte> | |b| == 12 witness [0, 0, 0, 0, 0, 0, 0, 0, 0, 0, 0, 0]

  datatype ObjectId = ObjectId(bytes: IdBytes)

  /** The characters `encoding/hex` accepts, in either case. */
  predicate IsHexDigit(c: char) {
    ('0' <= c <= '9') || ('a' <= c <= 'f') || ('A' <= c <= 'F')
  }

  predicate AllHex(s: string) {
    forall i :: 0 <= i < |s| ==> IsHexDigit(s[i])
  }

  predicate IsUpper(c: char) {
    'A' <= c <= 'Z'
  }

  /** No upper-case ASCII letter in `s`. */
  predicate IsLower(s: string) {
    forall i :: 0 <= i < |s| ==> !IsUpper(s[i])
  }

  /** ASCII lower-casing of one character: the spelling-insensitivity of hex digits. */
  function LowerChar(c: char): (r: char)
    ensures !IsUpper(r)
    ensures !IsUpper(c) ==> r == c
  {
    if IsUpper(c) then (c as int - 'A' as int + 'a' as int) as char else c
  }

  function ToLower(s: string): (r: string)
    ensures |r| == |s| && IsLower(r)
    ensures forall i :: 0 <= i < |s| ==> r[i] == LowerChar(s[i])
  {
    seq(|s|, i requires 0 <= i < |s| => LowerChar(s[i]))
  }

  /** The value of one hex digit. */
  function HexValue(c: char): (v: nat)
    requires IsHexDigit(c)
    ensures v < 16
  {
    if '0' <= c <= '9' then c as int - '0' as int
    else if 'a' <= c <= 'f' then c as int - 'a' as int + 10
    else c as int - 'A' as int + 10
  }

  /** The lower-case digit `encoding/hex` writes for a nibble. */
  function HexChar(v: nat): (c: char)
    requires v < 16
    ensures IsHexDigit(c) && !IsUpper(c) && HexValue(c) == v
  {
    if v < 10 then ('0' as int + v) as char else ('a' as int + v - 10) as char
  }

  /** Decoding a hex digit and writing it back yields its lower-case spelling. */
  lemma HexCharOfValue(c: char)
    requires IsHexDigit(c)
    ensures HexChar(HexValue(c)) == LowerChar(c)
  {
  }

  /**
   * `hex.Decode` on an even-length string: every pair of digits becomes one byte,
   * high nibble first; any character that is not a hex digit is an error.
   */
  function DecodeHex(s: string): (r: Option<seq<byte>>)
    requires |s| % 2 == 0
    ensures r.Some? <==> AllHex(s)
    ensures r.Some? ==> |r.value| == |s| / 2
    decreases |s|
  {
    if |s| == 0 then Some([])
    else if !IsHexDigit(s[0]) || !IsHexDigit(s[1]) then None
    else
      match DecodeHex(s[2..])
      case None => None
      case Some(rest) => Some([(HexValue(s[0]) * 16 + HexValue(s[1])) as byte] + rest)
  }

  /** `hex.EncodeToString`: two lower-case digits per byte. */
  function EncodeHex(b: seq<byte>): (s: string)
    ensures |s| == 2 * |b| && AllHex(s) && IsLower(s)
  {
    if b == [] then ""
    else [HexChar(b[0] as int / 16), HexChar(b[0] as int % 16)] + EncodeHex(b[1..])
  }

  /**
   * `primitive.ObjectIDFromHex`: succeeds exactly on 24 hex digits, in either case.
   * (The driver measures length in bytes; a string with a non-ASCII character is
   * rejected either way, so counting characters gives the same verdict.)
   */
  function ParseObjectId(s: string): (r: Option<ObjectId>)
    ensures r.Some? <==> |s| == 24 && AllHex(s)
  {
    if |s| != 24 then None
    else
      match DecodeHex(s)
      case None => None
      case Some(b) => Some(ObjectId(b))
  }

  /** `ObjectID.Hex`: the canonical, lower-case, 24-character spelling. */
  function Hex(id: ObjectId): (s: string)
    ensures |s| == 24 && AllHex(s) && IsLower(s)
  {
    EncodeHex(id.bytes)
  }

  lemma {:induction false} DecodeEncodeHex(b: seq<byte>)
    ensures DecodeHex(EncodeHex(b)) == Some(b)
  {
    if b != [] {
      var s := EncodeHex(b);
      assert s[2..] == EncodeHex(b[1..]);
      DecodeEncodeHex(b[1..]);
      var x := b[0] as int;
      assert HexValue(s[0]) * 16 + HexValue(s[1]) == x;
      assert b == [b[0]] + b[1..];
    }
  }

  lemma {:induction false} EncodeDecodeHex(s: string)
    requires |s| % 2 == 0 && AllHex(s)
    ensures EncodeHex(DecodeHex(s).value) == ToLower(s)
  {
    if s != [] {
      var b := DecodeHex(s).value;
      EncodeDecodeHex(s[2..]);
      assert b[1..] == DecodeHex(s[2..]).value;
      var x := b[0] as int;
      assert x == HexValue(s[0]) * 16 + HexValue(s[1]);
      assert x / 16 == HexValue(s[0]) && x % 16 == HexValue(s[1]);
      HexCharOfValue(s[0]);
      HexCharOfValue(s[1]);
      assert ToLower(s) == [LowerChar(s[0]), LowerChar(s[1])] + ToLower(s[2..]);
    }
  }

  /** Rendering an id and parsing it back gives the same id. */
  lemma ParseHexRoundTrip(id: ObjectId)
    ensures ParseObjectId(Hex(id)) == Some(id)
  {
    DecodeEncodeHex(id.bytes);
  }

  /** A successful parse is canonical: the id renders as the lower-cased input. */
  lemma HexOfParsed(s: string)
    requires ParseObjectId(s).Some?
    ensures Hex(ParseObjectId(s).value) == ToLower(s)
  {
    EncodeDecodeHex(s);
  }

  /** Two parseable spellings name the same id exactly when they agree up to case. */
  lemma SameIdIffSameLowercase(s1: string, s2: string)
    requires ParseObjectId(s1).Some? && ParseObjectId(s2).Some?
    ensures ParseObjectId(s1) == ParseObjectId(s2) <==> ToLower(s1) == ToLower(s2)
  {
    HexOfParsed(s1);
    HexOfParsed(s2);
    ParseHexRoundTrip(ParseObjectId(s1).value);
    ParseHexRoundTrip(ParseObjectId(s2).value);
  }
}
