/** The API-key encoder of the settings page: each random byte becomes two
    lower-case hexadecimal characters (`byte.toString(16).padStart(2, '0')`),
    joined without a separator. */
module HexKey {
  import opened Wrappers

  newtype Byte = x: int | 0 <= x < 0x100

  /** The number of random bytes behind one key (`new Uint8Array(32)`). */
  const KeyBytes: nat := 32

  /** What `crypto.getRandomValues` fills the array with. */
  type RandomBytes = s: seq<Byte> | |s| == KeyBytes witness seq(KeyBytes, _ => 0)

  predicate IsHexChar(c: char) {
    '0' <= c <= '9' || 'a' <= c <= 'f'
  }

  /** The digit character for `d` in base 16, as `Number.prototype.toString` writes it. */
  function HexDigit(d: nat): (c: char)
    requires d < 16
    ensures IsHexChar(c)
  {
    if d < 10 then ('0' as int + d) as char else ('a' as int + d - 10) as char
  }

  /** The value of a hexadecimal character; the inverse of `HexDigit`. */
  function HexValue(c: char): (d: nat)
    requires IsHexChar(c)
    ensures d < 16 && HexDigit(d) == c
  {
    if c <= '9' then c as int - '0' as int else c as int - 'a' as int + 10
  }

  lemma HexValueOfDigit(d: nat)
    requires d < 16
    ensures HexValue(HexDigit(d)) == d
  {
  }

  /** `n.toString(16)` for a non-negative integer: no leading zeros, and "0" for zero. */
  function ToRadix16(n: nat): (s: string)
    ensures 1 <= |s|
    decreases n
  {
    if n < 16 then [HexDigit(n)] else ToRadix16(n / 16) + [HexDigit(n % 16)]
  }

  /** `s.padStart(width, fill)` with a one-character fill string. */
  function PadStart(s: string, width: nat, fill: char): (r: string)
    ensures |r| == if |s| >= width then |s| else width
    ensures r[|r| - |s|..] == s
    ensures forall k :: 0 <= k < |r| - |s| ==> r[k] == fill
    decreases width - |s|
  {
    if |s| >= width then s else PadStart([fill] + s, width, fill)
  }

  /** One byte as two hexadecimal digits, high nibble first. */
  function ByteHex(b: Byte): (r: string)
    ensures |r| == 2 && IsHexChar(r[0]) && IsHexChar(r[1])
  {
    [HexDigit(b as nat / 16), HexDigit(b as nat % 16)]
  }

  /** The source's formula, `byte.toString(16).padStart(2, '0')`, writes
      exactly the two nibbles; a byte below 16 gets a leading '0'. */
  lemma ByteHexIsPaddedRadix16(b: Byte)
    ensures PadStart(ToRadix16(b as nat), 2, '0') == ByteHex(b)
    ensures b < 16 ==> ByteHex(b)[0] == '0'
  {
    var n := b as nat;
    if n < 16 {
      assert ToRadix16(n) == [HexDigit(n)];
      assert PadStart([HexDigit(n)], 2, '0') == PadStart(['0', HexDigit(n)], 2, '0');
      assert HexDigit(0) == '0';
    } else {
      assert ToRadix16(n / 16) == [HexDigit(n / 16)];
    }
  }

  /** `Array.from(bytes, byteHex).join('')`. */
  function Encode(bytes: seq<Byte>): (s: string)
    ensures |s| == 2 * |bytes|
  {
    if bytes == [] then "" else ByteHex(bytes[0]) + Encode(bytes[1..])
  }

  /** Byte `i` occupies characters `2i` and `2i+1`. */
  lemma {:induction false} EncodeAt(bytes: seq<Byte>, i: nat)
    requires i < |bytes|
    ensures Encode(bytes)[2 * i] == HexDigit(bytes[i] as nat / 16)
    ensures Encode(bytes)[2 * i + 1] == HexDigit(bytes[i] as nat % 16)
    decreases i
  {
    var head, tail := ByteHex(bytes[0]), Encode(bytes[1..]);
    assert |head| == 2;
    assert Encode(bytes) == head + tail;
    if i > 0 {
      EncodeAt(bytes[1..], i - 1);
      var j := 2 * (i - 1);
      assert 2 * i == j + 2;
      assert bytes[1..][i - 1] == bytes[i];
      assert (head + tail)[j + 2] == tail[j];
      assert (head + tail)[j + 3] == tail[j + 1];
    }
  }

  /** An encoded key is lower-case hexadecimal throughout. */
  lemma EncodeIsHex(bytes: seq<Byte>)
    ensures forall k :: 0 <= k < |Encode(bytes)| ==> IsHexChar(Encode(bytes)[k])
  {
    forall k | 0 <= k < |Encode(bytes)|
      ensures IsHexChar(Encode(bytes)[k])
    {
      var i := k / 2;
      assert k == 2 * i || k == 2 * i + 1;
      EncodeAt(bytes, i);
    }
  }

  /** Decoding: pairs of hexadecimal characters back to bytes; `None` for an
      odd length or a character outside `0-9a-f`. */
  function Decode(s: string): Option<seq<Byte>>
    decreases |s|
  {
    if s == [] then Some([])
    else if |s| == 1 || !IsHexChar(s[0]) || !IsHexChar(s[1]) then None
    else
      match Decode(s[2..])
      case None => None
      case Some(rest) => Some([(HexValue(s[0]) * 16 + HexValue(s[1])) as Byte] + rest)
  }

  /** Decoding undoes encoding. */
  lemma {:induction false} DecodeEncode(bytes: seq<Byte>)
    ensures Decode(Encode(bytes)) == Some(bytes)
    decreases |bytes|
  {
    if bytes != [] {
      var s := Encode(bytes);
      var b := bytes[0] as nat;
      var hi, lo := b / 16, b % 16;
      assert s == [HexDigit(hi), HexDigit(lo)] + Encode(bytes[1..]);
      assert s[0] == HexDigit(hi) && s[1] == HexDigit(lo);
      assert s[2..] == Encode(bytes[1..]);
      DecodeEncode(bytes[1..]);
      HexValueOfDigit(hi);
      HexValueOfDigit(lo);
      assert hi * 16 + lo == b;
      assert ((HexValue(s[0]) * 16 + HexValue(s[1])) as Byte) == bytes[0];
      assert bytes == [bytes[0]] + bytes[1..];
    }
  }

  /** Different random bytes never give the same key. */
  lemma EncodeInjective(a: seq<Byte>, b: seq<Byte>)
    requires Encode(a) == Encode(b)
    ensures a == b
  {
    DecodeEncode(a);
    DecodeEncode(b);
  }

  /** `generateApiKey`, with the output of `crypto.getRandomValues` passed in. */
  method GenerateApiKey(random: RandomBytes) returns (key: string)
    ensures |key| == 64
    ensures key == Encode(random)
    ensures forall k :: 0 <= k < |key| ==> IsHexChar(key[k])
  {
    key := "";
    var i := 0;
    while i < |random|
      invariant 0 <= i <= |random|
      invariant key + Encode(random[i..]) == Encode(random)
    {
      var pair, rest := ByteHex(random[i]), Encode(random[i + 1..]);
      assert random[i..][1..] == random[i + 1..];
      assert Encode(random[i..]) == pair + rest;
      assert (key + pair) + rest == key + (pair + rest);
      key := key + pair;
      i := i + 1;
    }
    EncodeIsHex(random);
  }
}
