/** UTF-8 encoding of a string (section 3 of RFC 3629), the `Encoding.UTF8.GetBytes`
    that builds the signed message. A Dafny `char` is a Unicode scalar value. */
module Utf8 {
  import opened Utils

  /** The UTF-8 bytes of one scalar value. */
  function EncodeChar(c: char): (r: seq<byte>)
    ensures |r| == if c < 0x80 as char then 1 else if (c as int) < 0x800 then 2 else if (c as int) < 0x1_0000 then 3 else 4
    ensures c < 0x80 as char ==> r == [c as int as byte]
  {
    var n := c as int;
    if n < 0x80 then
      [n as byte]
    else if n < 0x800 then
      [(0xC0 + n / 0x40) as byte, (0x80 + n % 0x40) as byte]
    else if n < 0x1_0000 then
      [(0xE0 + n / 0x1000) as byte, (0x80 + (n / 0x40) % 0x40) as byte, (0x80 + n % 0x40) as byte]
    else
      [(0xF0 + n / 0x4_0000) as byte, (0x80 + (n / 0x1000) % 0x40) as byte,
       (0x80 + (n / 0x40) % 0x40) as byte, (0x80 + n % 0x40) as byte]
  }

  function Encode(s: string): seq<byte>
  {
    if s == [] then [] else EncodeChar(s[0]) + Encode(s[1..])
  }

  /** Encoding distributes over concatenation: the bytes of `a + b` are the bytes
      of `a` immediately followed by the bytes of `b`. */
  lemma {:induction false} EncodeAppend(a: string, b: string)
    ensures Encode(a + b) == Encode(a) + Encode(b)
  {
    if a == [] {
      assert a + b == b;
    } else {
      assert (a + b)[0] == a[0];
      assert (a + b)[1..] == a[1..] + b;
      EncodeAppend(a[1..], b);
    }
  }

  /** One byte per character, at least, and exactly one for ASCII text. */
  lemma {:induction false} EncodeLength(s: string)
    ensures |Encode(s)| >= |s|
    ensures (forall i :: 0 <= i < |s| ==> s[i] < 0x80 as char) ==> |Encode(s)| == |s|
  {
    if s != [] {
      EncodeLength(s[1..]);
    }
  }
}
