/** Node's `Buffer.prototype.toString('hex')`: every byte becomes two
    lower-case base-16 digits, high nibble first. This is the base16 alphabet
    of section 8 of RFC 4648, written in lower case. */
module Hex {
  import opened Wrappers

  newtype byte = x: int | 0 <= x < 256

  /** A character of the lower-case base16 alphabet `0-9a-f`. */
  predicate IsHexDigit(ch: char) {
    '0' <= ch <= '9' || 'a' <= ch <= 'f'
  }

  function DigitOf(n: int): (ch: char)
    requires 0 <= n < 16
    ensures IsHexDigit(ch)
  {
    if n < 10 then ('0' as int + n) as char else ('a' as int + n - 10) as char
  }

  /** The value of a lower-case hex digit, `None` for any other character. */
  function ValueOf(ch: char): (r: Option<int>)
    ensures r.Some? <==> IsHexDigit(ch)
    ensures r.Some? ==> 0 <= r.value < 16 && DigitOf(r.value) == ch
  {
    if '0' <= ch <= '9' then Some(ch as int - '0' as int)
    else if 'a' <= ch <= 'f' then Some(ch as int - 'a' as int + 10)
    else None
  }

  lemma ValueOfDigit(n: int)
    requires 0 <= n < 16
    ensures ValueOf(DigitOf(n)) == Some(n)
  {
  }

  /** `buf.toString('hex')`: two characters per byte, all of them lower-case
      hex digits; `EncodeSpellsBytes` shows the pair at `2k` spells byte `k`. */
  function Encode(bs: seq<byte>): (s: string)
    ensures |s| == 2 * |bs|
    ensures forall k :: 0 <= k < |s| ==> IsHexDigit(s[k])
  {
    if |bs| == 0 then ""
    else [DigitOf(bs[0] as int / 16), DigitOf(bs[0] as int % 16)] + Encode(bs[1..])
  }

  /** The pair of characters at `2k` spells byte `k`, high nibble first. */
  lemma {:induction false} EncodeSpellsBytes(bs: seq<byte>, k: nat)
    requires k < |bs|
    ensures Encode(bs)[2 * k] == DigitOf(bs[k] as int / 16)
    ensures Encode(bs)[2 * k + 1] == DigitOf(bs[k] as int % 16)
  {
    if k > 0 {
      EncodeSpellsBytes(bs[1..], k - 1);
      assert Encode(bs)[2..] == Encode(bs[1..]);
      assert Encode(bs)[2 * k] == Encode(bs[1..])[2 * (k - 1)];
      assert Encode(bs)[2 * k + 1] == Encode(bs[1..])[2 * (k - 1) + 1];
    }
  }

  /** Reading a hex string back into bytes; odd length or a character outside
      the lower-case alphabet is rejected. */
  function Decode(s: string): (r: Option<seq<byte>>)
    ensures r.Some? ==> 2 * |r.value| == |s|
    decreases |s|
  {
    if |s| == 0 then Some([])
    else if |s| == 1 then None
    else
      match (ValueOf(s[0]), ValueOf(s[1]), Decode(s[2..]))
      case (Some(hi), Some(lo), Some(rest)) => Some([(hi * 16 + lo) as byte] + rest)
      case _ => None
  }

  /** Decoding undoes encoding, so the hex text determines the bytes. */
  lemma {:induction false} DecodeEncode(bs: seq<byte>)
    ensures Decode(Encode(bs)) == Some(bs)
  {
    if |bs| > 0 {
      var b := bs[0] as int;
      var s := Encode(bs);
      assert s[2..] == Encode(bs[1..]);
      ValueOfDigit(b / 16);
      ValueOfDigit(b % 16);
      DecodeEncode(bs[1..]);
      assert [(b / 16 * 16 + b % 16) as byte] + bs[1..] == bs;
    }
  }

  /** Distinct random bytes give distinct suffixes. */
  lemma EncodeInjective(a: seq<byte>, b: seq<byte>)
    requires Encode(a) == Encode(b)
    ensures a == b
  {
    DecodeEncode(a);
    DecodeEncode(b);
  }
}
