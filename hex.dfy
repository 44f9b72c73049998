/**
  The hexadecimal text the application sends to the contract for an encryption handle or
  input proof: when the gateway hands back raw bytes (a `Uint8Array`) they become `0x`
  followed by `b.toString(16).padStart(2, '0')` for every byte `b`; any other value is
  passed on as it is.
*/
module Hex {
  import opened Wrappers
  import opened Numerals

  type byte = b: int | 0 <= b < 256

  predicate IsLowerHex(c: char) {
    '0' <= c <= '9' || 'a' <= c <= 'f'
  }

  /** One byte as two lower-case digits: the high nibble, then the low nibble. */
  function ByteToHex(b: byte): (s: string)
    ensures s == [DigitChar(b / 16), DigitChar(b % 16)]
  {
    var digits := ToRadix(b, 16);
    assert DigitChar(0) == '0';
    assert b >= 16 ==> digits == ToRadix(b / 16, 16) + [DigitChar(b % 16)];
    PadStart(digits, 2, '0')
  }

  /** The bytes' digit pairs, joined with no separator. */
  function HexDigits(bs: seq<byte>): (s: string)
    ensures |s| == 2 * |bs|
    ensures forall i :: 0 <= i < |s| ==> IsLowerHex(s[i])
  {
    if bs == [] then "" else ByteToHex(bs[0]) + HexDigits(bs[1..])
  }

  /** The `0x`-prefixed text of a byte array. */
  function ToHexString(bs: seq<byte>): (s: string)
    ensures |s| == 2 + 2 * |bs| && s[..2] == "0x"
    ensures forall i :: 2 <= i < |s| ==> IsLowerHex(s[i])
  {
    "0x" + HexDigits(bs)
  }

  /** The bytes a run of lower-case hex digit pairs stands for; `None` for anything else. */
  function DecodeDigits(s: string): Option<seq<byte>>
    decreases |s|
  {
    if s == [] then Some([])
    else if |s| == 1 || !IsLowerHex(s[0]) || !IsLowerHex(s[1]) then None
    else match DecodeDigits(s[2..])
      case None => None
      case Some(rest) =>
        var b := DigitValue(s[0]) * 16 + DigitValue(s[1]);
        if b < 256 then Some([b as byte] + rest) else None
  }

  /** Reads a `0x`-prefixed hex text back into bytes. */
  function ParseHexString(s: string): Option<seq<byte>> {
    if |s| >= 2 && s[..2] == "0x" then DecodeDigits(s[2..]) else None
  }

  lemma SliceAfter(head: string, rest: string, i: nat)
    requires |head| == 2 && 2 * i + 2 <= |head| + |rest|
    ensures i == 0 ==> (head + rest)[2 * i..2 * i + 2] == head
    ensures i > 0 ==> (head + rest)[2 * i..2 * i + 2] == rest[2 * (i - 1)..2 * (i - 1) + 2]
  {
  }

  /** Digit pair `i` of the text is the digit pair of byte `i`. */
  lemma {:induction false} HexDigitsAt(bs: seq<byte>, i: nat)
    requires i < |bs|
    ensures HexDigits(bs)[2 * i..2 * i + 2] == ByteToHex(bs[i])
    decreases i
  {
    if i > 0 {
      HexDigitsAt(bs[1..], i - 1);
    }
    HexDigitsStep(bs, i);
  }

  lemma HexDigitsStep(bs: seq<byte>, i: nat)
    requires i < |bs|
    requires i > 0 ==> HexDigits(bs[1..])[2 * (i - 1)..2 * (i - 1) + 2] == ByteToHex(bs[1..][i - 1])
    ensures HexDigits(bs)[2 * i..2 * i + 2] == ByteToHex(bs[i])
  {
    var head, rest := ByteToHex(bs[0]), HexDigits(bs[1..]);
    assert HexDigits(bs) == head + rest;
    SliceAfter(head, rest, i);
  }

  /** Every byte's digits stand at offset 2 + 2i of the `0x` text. */
  lemma ToHexStringAt(bs: seq<byte>, i: nat)
    requires i < |bs|
    ensures ToHexString(bs)[2 + 2 * i..4 + 2 * i] == ByteToHex(bs[i])
  {
    HexDigitsAt(bs, i);
    var h := HexDigits(bs);
    assert ToHexString(bs) == "0x" + h;
    SliceBehind("0x", h, 2 * i, 2 * i + 2);
  }

  lemma SliceBehind(p: string, h: string, lo: nat, hi: nat)
    requires lo <= hi <= |h|
    ensures (p + h)[|p| + lo..|p| + hi] == h[lo..hi]
  {
  }

  /** A byte's two digits are lower-case hex and read back as the byte. */
  lemma ByteToHexValue(b: byte)
    ensures IsLowerHex(ByteToHex(b)[0]) && IsLowerHex(ByteToHex(b)[1])
    ensures DigitValue(ByteToHex(b)[0]) * 16 + DigitValue(ByteToHex(b)[1]) == b
  {
  }

  /** Decoding a byte's two digits in front of more digits. */
  lemma DecodeStep(b: byte, rest: string, bs: seq<byte>)
    requires DecodeDigits(rest) == Some(bs)
    ensures DecodeDigits(ByteToHex(b) + rest) == Some([b] + bs)
  {
    var s := ByteToHex(b) + rest;
    ByteToHexValue(b);
    assert s[0] == ByteToHex(b)[0] && s[1] == ByteToHex(b)[1];
    assert s[2..] == rest;
  }

  /** Decoding the digit pairs gives the bytes back. */
  lemma {:induction false} DecodeHexDigits(bs: seq<byte>)
    ensures DecodeDigits(HexDigits(bs)) == Some(bs)
    decreases |bs|
  {
    if bs != [] {
      assert HexDigits(bs) == ByteToHex(bs[0]) + HexDigits(bs[1..]);
      DecodeHexDigits(bs[1..]);
      DecodeStep(bs[0], HexDigits(bs[1..]), bs[1..]);
      assert [bs[0]] + bs[1..] == bs;
    }
  }

  /** The round trip of the conversion: parsing the `0x` text recovers exactly the bytes. */
  lemma ParseToHexString(bs: seq<byte>)
    ensures ParseHexString(ToHexString(bs)) == Some(bs)
  {
    var s := ToHexString(bs);
    assert s[2..] == HexDigits(bs);
    DecodeHexDigits(bs);
  }

  /** Different byte arrays give different texts. */
  lemma ToHexStringInjective(a: seq<byte>, b: seq<byte>)
    requires ToHexString(a) == ToHexString(b)
    ensures a == b
  {
    ParseToHexString(a);
    ParseToHexString(b);
  }

  /** A value the encryption gateway returns for a handle or a proof. */
  datatype Encoded = Bytes(data: seq<byte>) | Text(text: string) | Absent

  /** The `instanceof Uint8Array` conversion: raw bytes become their `0x` text, all else is kept. */
  function Hexify(e: Encoded): (r: Encoded)
    ensures !r.Bytes?
    ensures e.Bytes? ==> r.Text? && ParseHexString(r.text) == Some(e.data) && Truthy(r)
    ensures !e.Bytes? ==> r == e
  {
    match e
    case Bytes(data) =>
      ParseToHexString(data);
      Text(ToHexString(data))
    case _ => e
  }

  /** JavaScript truthiness of such a value: an empty string or a missing value is falsy. */
  predicate Truthy(e: Encoded) {
    match e
    case Bytes(_) => true
    case Text(t) => t != ""
    case Absent => false
  }
}
