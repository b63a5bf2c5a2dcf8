/**
 The C-string helpers of luajit/src/cstr.rs. `null_terminate` appends a NUL
 character to a Rust string so that its bytes can be handed to a C function
 that reads up to the first NUL byte; `as_cstr` hands over the string's own
 bytes, which carry no terminator.
 */
module CStr {
  import opened Wrappers
  import opened Utf8

  /** `null_terminate`: `format!("{}\0", s)`. */
  function NullTerminate(s: string): (r: string)
    ensures |r| == |s| + 1
    ensures r[..|s|] == s
    ensures r[|s|] == '\0'
  {
    s + ['\0']
  }

  /** The bytes `as_cstr` points at: the UTF-8 encoding of the string, with
      nothing after it. */
  function AsCStr(s: string): seq<byte>
  {
    Encode(s)
  }

  /** What a C function reading a `const char *` sees: the bytes before the
      first NUL, or `None` when there is no NUL and the read would run past
      the end of the buffer. */
  function CRead(b: seq<byte>): (r: Option<seq<byte>>)
    ensures r.Some? <==> 0 in b
    ensures r.Some? ==> 0 !in r.value && |r.value| < |b| && b[..|r.value|] == r.value && b[|r.value|] == 0
  {
    if |b| == 0 then None
    else if b[0] == 0 then Some([])
    else match CRead(b[1..])
      case None => None
      case Some(t) => Some([b[0]] + t)
  }

  /** Encoding distributes over concatenation. */
  lemma {:induction false} EncodeAppend(s: string, t: string)
    ensures Encode(s + t) == Encode(s) + Encode(t)
  {
    if |s| > 0 {
      assert (s + t)[0] == s[0] && (s + t)[1..] == s[1..] + t;
      EncodeAppend(s[1..], t);
      assert Encode(s + t) == EncodeChar(s[0]) + Encode(s[1..] + t);
    } else {
      assert s + t == t;
    }
  }

  /** Only the NUL character encodes to a byte sequence holding a zero
      byte: every byte of a longer encoding has its top bit set. */
  lemma {:induction false} EncodeHasZero(s: string)
    ensures 0 in Encode(s) <==> '\0' in s
  {
    if |s| > 0 {
      EncodeHasZero(s[1..]);
      var n := s[0] as int;
      var e := EncodeChar(s[0]);
      assert 0 in e <==> s[0] == '\0' by {
        if n >= 0x80 {
          assert forall i :: 0 <= i < |e| ==> e[i] >= 0x80;
        }
      }
      assert Encode(s) == e + Encode(s[1..]);
      assert '\0' in s <==> s[0] == '\0' || '\0' in s[1..] by {
        assert s == [s[0]] + s[1..];
      }
    }
  }

  /** The bytes of a terminated string are the string's bytes and one NUL. */
  lemma NullTerminatedBytes(s: string)
    ensures Encode(NullTerminate(s)) == AsCStr(s) + [0]
  {
    EncodeAppend(s, ['\0']);
    assert Encode(['\0']) == [0] + Encode([]);
  }

  /** A C reader sees exactly the string through `null_terminate` when the
      string has no NUL of its own, and otherwise only the part before its
      first NUL. */
  lemma TerminatedReadsBack(s: string)
    ensures CRead(Encode(NullTerminate(s))).Some?
    ensures CRead(Encode(NullTerminate(s))) == Some(Encode(s)) <==> '\0' !in s
  {
    NullTerminatedBytes(s);
    EncodeHasZero(s);
    var b := Encode(s) + [0];
    assert b[|Encode(s)|] == 0;
    var r := CRead(b);
    if '\0' !in s {
      assert 0 !in Encode(s);
      assert forall i :: 0 <= i < |Encode(s)| ==> b[i] == Encode(s)[i] != 0;
      assert |r.value| == |Encode(s)|;
      assert r.value == b[..|Encode(s)|] == Encode(s);
    } else {
      assert 0 in Encode(s);
      assert r.value != Encode(s);
    }
  }

  /** `as_cstr` alone gives a C reader no terminator: reading a NUL-free
      string runs off its end. */
  lemma UnterminatedReadFails(s: string)
    ensures CRead(AsCStr(s)).None? <==> '\0' !in s
  {
    EncodeHasZero(s);
  }

  /** The byte at offset 3 of `"test"` is `'t'`. */
  lemma TestByte()
    ensures |AsCStr("test")| == 4 && AsCStr("test")[3] == 't' as byte
  {
    assert AsCStr("test") == EncodeChar('t') + Encode("est");
    assert Encode("est") == EncodeChar('e') + Encode("st");
    assert Encode("st") == EncodeChar('s') + Encode("t");
    assert Encode("t") == EncodeChar('t') + Encode("");
  }
}
