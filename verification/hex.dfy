/** Node's `Buffer.toString('hex')`: each byte becomes two lower-case
    hexadecimal digits, high nibble first. */
module Hex {
  import opened Wrappers

  type Byte = b: int | 0 <= b < 256

  predicate IsHexChar(c: char) {
    '0' <= c <= '9' || 'a' <= c <= 'f'
  }

  function NibbleChar(d: nat): (c: char)
    requires d < 16
    ensures IsHexChar(c)
  {
    if d < 10 then (48 + d) as char else (97 + d - 10) as char
  }

  function NibbleValue(c: char): (d: Option<nat>)
    ensures d.Some? <==> IsHexChar(c)
    ensures d.Some? ==> d.value < 16 && NibbleChar(d.value) == c
  {
    if '0' <= c <= '9' then Some(c as int - 48)
    else if 'a' <= c <= 'f' then Some(c as int - 97 + 10)
    else None
  }

  /** Two digits per byte: character 2i is byte i's high nibble and
      character 2i+1 its low nibble. */
  function HexEncode(bytes: seq<Byte>): (s: string)
    ensures |s| == 2 * |bytes|
    ensures forall j :: 0 <= j < |s| ==> IsHexChar(s[j])
    ensures forall i :: 0 <= i < |bytes| ==>
              s[2 * i] == NibbleChar(bytes[i] / 16) && s[2 * i + 1] == NibbleChar(bytes[i] % 16)
  {
    if bytes == [] then ""
    else
      var rest := HexEncode(bytes[1..]);
      assert forall i :: 1 <= i < |bytes| ==> bytes[i] == bytes[1..][i - 1];
      [NibbleChar(bytes[0] / 16), NibbleChar(bytes[0] % 16)] + rest
  }

  /** Reads pairs of lower-case hexadecimal digits back into bytes. */
  function HexDecode(s: string): (r: Option<seq<Byte>>)
    ensures r.Some? ==> 2 * |r.value| == |s|
    decreases |s|
  {
    if s == [] then Some([])
    else if |s| == 1 then None
    else
      match (NibbleValue(s[0]), NibbleValue(s[1]), HexDecode(s[2..]))
      case (Some(hi), Some(lo), Some(rest)) => Some([hi * 16 + lo] + rest)
      case _ => None
  }

  /** Decoding an encoding gives back the original bytes. */
  lemma {:induction false} DecodeEncode(bytes: seq<Byte>)
    ensures HexDecode(HexEncode(bytes)) == Some(bytes)
  {
    if bytes != [] {
      var s := HexEncode(bytes);
      DecodeEncode(bytes[1..]);
      assert s[2..] == HexEncode(bytes[1..]);
      assert bytes[0] == (bytes[0] / 16) * 16 + bytes[0] % 16;
      assert [bytes[0]] + bytes[1..] == bytes;
    }
  }
}
