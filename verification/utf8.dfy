/**
 Bytes and UTF-8, as far as the marshalling layer needs them.

 A Rust `String` is a byte sequence that is well-formed UTF-8; a Lua string is
 an arbitrary byte sequence. Popping a Lua string into a Rust `String` goes
 through `String::from_utf8_lossy`, which keeps every well-formed encoded
 character and replaces each maximal ill-formed subpart by U+FFFD.
 */
module Utf8 {

  newtype byte = x: int | 0 <= x < 256

  /** The encoding of U+FFFD REPLACEMENT CHARACTER. */
  const Replacement: seq<byte> := [0xEF, 0xBF, 0xBD]

  /** Number of bytes a well-formed sequence starting with `lead` has; 0 if
      `lead` can never start one (Table 3-7 of the Unicode Standard). */
  function SeqLen(lead: byte): nat
  {
    if lead < 0x80 then 1
    else if 0xC2 <= lead <= 0xDF then 2
    else if 0xE0 <= lead <= 0xEF then 3
    else if 0xF0 <= lead <= 0xF4 then 4
    else 0
  }

  predicate IsCont(b: byte)
  {
    0x80 <= b <= 0xBF
  }

  /** The admissible range of the second byte depends on the lead byte. */
  predicate SecondOk(lead: byte, b: byte)
  {
    if lead == 0xE0 then 0xA0 <= b <= 0xBF
    else if lead == 0xED then 0x80 <= b <= 0x9F
    else if lead == 0xF0 then 0x90 <= b <= 0xBF
    else if lead == 0xF4 then 0x80 <= b <= 0x8F
    else IsCont(b)
  }

  /** Length of the maximal prefix of `b` that is a (possibly partial)
      well-formed sequence; at least one byte is always consumed. */
  function Matched(b: seq<byte>): (k: nat)
    requires |b| > 0
    ensures 1 <= k <= |b| && k <= 4
    ensures SeqLen(b[0]) >= 1 ==> k <= SeqLen(b[0])
  {
    var n := SeqLen(b[0]);
    if n <= 1 then 1
    else if |b| < 2 || !SecondOk(b[0], b[1]) then 1
    else if n == 2 then 2
    else if |b| < 3 || !IsCont(b[2]) then 2
    else if n == 3 then 3
    else if |b| < 4 || !IsCont(b[3]) then 3
    else 4
  }

  /** The maximal prefix is a whole encoded character. */
  predicate Complete(b: seq<byte>)
    requires |b| > 0
  {
    SeqLen(b[0]) >= 1 && Matched(b) == SeqLen(b[0])
  }

  /** Well-formed UTF-8: the bytes split into complete encoded characters. */
  predicate Valid(b: seq<byte>)
    decreases |b|
  {
    |b| == 0 || (Complete(b) && Valid(b[Matched(b)..]))
  }

  /** `String::from_utf8_lossy(b).into_owned()`, as bytes. */
  function Lossy(b: seq<byte>): seq<byte>
    decreases |b|
  {
    if |b| == 0 then []
    else
      var k := Matched(b);
      (if Complete(b) then b[..k] else Replacement) + Lossy(b[k..])
  }

  /** Lossy decoding changes nothing in a well-formed string. */
  lemma {:induction false} LossyOfValid(b: seq<byte>)
    requires Valid(b)
    ensures Lossy(b) == b
    decreases |b|
  {
    if |b| > 0 {
      var k := Matched(b);
      LossyOfValid(b[k..]);
      assert b == b[..k] + b[k..];
    }
  }

  /** A complete character followed by anything is matched on its own. */
  lemma CompletePrefix(x: seq<byte>, y: seq<byte>)
    requires |x| > 0 && Complete(x) && Matched(x) == |x|
    ensures Complete(x + y) && Matched(x + y) == |x| && (x + y)[|x|..] == y
  {
    var xy := x + y;
    assert xy[0] == x[0];
    if |x| >= 2 { assert xy[1] == x[1]; }
    if |x| >= 3 { assert xy[2] == x[2]; }
    if |x| >= 4 { assert xy[3] == x[3]; }
  }

  /** Prepending one complete character keeps a string well-formed. */
  lemma ValidCons(x: seq<byte>, y: seq<byte>)
    requires |x| > 0 && Complete(x) && Matched(x) == |x|
    requires Valid(y)
    ensures Valid(x + y)
  {
    CompletePrefix(x, y);
  }

  /** The output of lossy decoding is always well-formed: this is what makes
      the result a Rust `String`. */
  lemma {:induction false} LossyIsValid(b: seq<byte>)
    ensures Valid(Lossy(b))
    decreases |b|
  {
    if |b| > 0 {
      var k := Matched(b);
      LossyIsValid(b[k..]);
      if Complete(b) {
        var x := b[..k];
        assert x[0] == b[0];
        if k >= 2 { assert x[1] == b[1]; }
        if k >= 3 { assert x[2] == b[2]; }
        if k >= 4 { assert x[3] == b[3]; }
        ValidCons(x, Lossy(b[k..]));
      } else {
        ValidCons(Replacement, Lossy(b[k..]));
      }
    }
  }

  /** The UTF-8 encoding of one Unicode scalar value. */
  function EncodeChar(c: char): (r: seq<byte>)
    ensures 1 <= |r| <= 4
  {
    var n := c as int;
    if n < 0x80 then [n as byte]
    else if n < 0x800 then [(0xC0 + n / 64) as byte, (0x80 + n % 64) as byte]
    else if n < 0x1_0000 then
      [(0xE0 + n / 4096) as byte, (0x80 + (n / 64) % 64) as byte, (0x80 + n % 64) as byte]
    else
      [(0xF0 + n / 0x4_0000) as byte, (0x80 + (n / 4096) % 64) as byte,
       (0x80 + (n / 64) % 64) as byte, (0x80 + n % 64) as byte]
  }

  /** The UTF-8 encoding of a string: the bytes Rust stores for it. */
  function Encode(s: string): seq<byte>
  {
    if |s| == 0 then [] else EncodeChar(s[0]) + Encode(s[1..])
  }

  /** Every encoded character is one complete well-formed sequence. */
  lemma EncodeCharComplete(c: char)
    ensures Complete(EncodeChar(c)) && Matched(EncodeChar(c)) == |EncodeChar(c)|
  {
    var n := c as int;
    var r := EncodeChar(c);
    if n < 0x80 {
    } else if n < 0x800 {
      assert 2 <= n / 64 < 32;
    } else if n < 0x1_0000 {
      assert 0 <= n / 4096 < 16;
      assert !(0xD800 <= n < 0xE000);
      if n < 0x1000 {
        assert n / 64 >= 32;
      }
      if 0xD000 <= n < 0xE000 {
        assert n < 0xD800;
        assert (n / 64) % 64 == n / 64 - 0x340;
      }
    } else {
      assert n <= 0x10_FFFF;
      assert 0 <= n / 0x4_0000 <= 4;
      if n < 0x4_0000 {
        assert n / 4096 >= 16;
        assert (n / 4096) % 64 == n / 4096;
      }
      if n >= 0x10_0000 {
        assert (n / 4096) % 64 == n / 4096 - 256;
      }
    }
  }

  /** Encoding always produces well-formed UTF-8. */
  lemma {:induction false} EncodeIsValid(s: string)
    ensures Valid(Encode(s))
  {
    if |s| > 0 {
      EncodeIsValid(s[1..]);
      EncodeCharComplete(s[0]);
      ValidCons(EncodeChar(s[0]), Encode(s[1..]));
    }
  }

  /** Hence decoding an encoded string gives its bytes back. */
  lemma LossyOfEncode(s: string)
    ensures Lossy(Encode(s)) == Encode(s)
  {
    EncodeIsValid(s);
    LossyOfValid(Encode(s));
  }

  /** The scalar value an encoded character of 1 to 4 bytes stands for. */
  function DecodeChar(b: seq<byte>): int
    requires 1 <= |b| <= 4
  {
    if |b| == 1 then b[0] as int
    else if |b| == 2 then (b[0] as int - 0xC0) * 64 + (b[1] as int - 0x80)
    else if |b| == 3 then
      (b[0] as int - 0xE0) * 4096 + (b[1] as int - 0x80) * 64 + (b[2] as int - 0x80)
    else
      (b[0] as int - 0xF0) * 0x4_0000 + (b[1] as int - 0x80) * 4096
      + (b[2] as int - 0x80) * 64 + (b[3] as int - 0x80)
  }

  /** Decoding inverts the encoding of one character. */
  lemma DecodeEncodeChar(c: char)
    ensures DecodeChar(EncodeChar(c)) == c as int
  {
    var n := c as int;
    if n >= 0x800 {
      assert n / 64 == (n / 4096) * 64 + (n / 64) % 64;
    }
    if n >= 0x1_0000 {
      assert n / 4096 == (n / 0x4_0000) * 64 + (n / 4096) % 64;
    }
  }

  /** Distinct strings have distinct encodings: the lead byte of each
      encoded character gives its length, and its bytes give it back. */
  lemma {:induction false} EncodeInjective(s: string, t: string)
    requires Encode(s) == Encode(t)
    ensures s == t
  {
    if |s| > 0 && |t| > 0 {
      var a, b := EncodeChar(s[0]), EncodeChar(t[0]);
      EncodeCharComplete(s[0]);
      EncodeCharComplete(t[0]);
      assert Encode(s) == a + Encode(s[1..]) && Encode(t) == b + Encode(t[1..]);
      assert a[0] == Encode(s)[0] == b[0];
      assert |a| == SeqLen(a[0]) == |b|;
      assert a == Encode(s)[..|a|] == b;
      assert Encode(s[1..]) == Encode(s)[|a|..] == Encode(t[1..]);
      DecodeEncodeChar(s[0]);
      DecodeEncodeChar(t[0]);
      EncodeInjective(s[1..], t[1..]);
      assert s == [s[0]] + s[1..] && t == [t[0]] + t[1..];
    }
  }
}
