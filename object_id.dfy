/** Content identifiers: the 20 raw bytes of an object's SHA-1 and their
    40-character lowercase hexadecimal form. */
module ObjectIds {

  newtype byte = x: int | 0 <= x < 256

  const RawSize: nat := 20

  /** The raw identifier bytes handed to the native library (a GitOid). */
  type RawOid = s: seq<byte> | |s| == RawSize witness seq(20, i => 0)

  /** An ObjectId; a null ObjectId is modelled as Option.None by its users. */
  datatype ObjectId = ObjectId(raw: RawOid) {

    /** The 40-character lowercase hexadecimal form of the identifier. */
    function Sha(): (s: string)
      ensures |s| == 2 * RawSize
      ensures forall i :: 0 <= i < |s| ==> IsHexDigit(s[i])
    {
      ToHex(raw)
    }

    /** Stand-in hash code: a function of the raw bytes only. */
    function GetHashCode(): int
    {
      raw[0] as int + 256 * (raw[1] as int + 256 * (raw[2] as int + 256 * raw[3] as int))
    }
  }

  predicate IsHexDigit(c: char)
  {
    '0' <= c <= '9' || 'a' <= c <= 'f'
  }

  /** The lowercase hexadecimal digit of a nibble. */
  function HexDigit(n: int): (c: char)
    requires 0 <= n < 16
    ensures IsHexDigit(c)
    ensures HexValue(c) == n
  {
    if n < 10 then (48 + n) as char else (87 + n) as char
  }

  /** The value of a lowercase hexadecimal digit (0 for any other character). */
  function HexValue(c: char): (n: int)
    ensures 0 <= n < 16
  {
    if '0' <= c <= '9' then c as int - 48
    else if 'a' <= c <= 'f' then c as int - 87
    else 0
  }

  /** Two digits per byte, high nibble first, no separators. */
  function ToHex(bytes: seq<byte>): (s: string)
    ensures |s| == 2 * |bytes|
    ensures forall i :: 0 <= i < |s| ==> IsHexDigit(s[i])
  {
    if bytes == [] then []
    else [HexDigit(bytes[0] as int / 16), HexDigit(bytes[0] as int % 16)] + ToHex(bytes[1..])
  }

  /** Reads back pairs of hexadecimal digits as bytes. */
  function FromHex(s: string): (bytes: seq<byte>)
    requires |s| % 2 == 0
    ensures |bytes| == |s| / 2
  {
    if s == [] then []
    else [(HexValue(s[0]) * 16 + HexValue(s[1])) as byte] + FromHex(s[2..])
  }

  /** The hexadecimal form loses nothing: decoding it gives back the bytes. */
  lemma {:induction false} FromHexToHex(bytes: seq<byte>)
    ensures FromHex(ToHex(bytes)) == bytes
  {
    if bytes != [] {
      var b := bytes[0] as int;
      var s := ToHex(bytes);
      assert s[2..] == ToHex(bytes[1..]);
      FromHexToHex(bytes[1..]);
      assert HexValue(s[0]) * 16 + HexValue(s[1]) == b;
    }
  }

  /** Two identifiers have the same Sha exactly when they are the same identifier. */
  lemma ShaInjective(a: ObjectId, b: ObjectId)
    ensures a.Sha() == b.Sha() <==> a == b
  {
    if a.Sha() == b.Sha() {
      FromHexToHex(a.raw);
      FromHexToHex(b.raw);
    }
  }
}
