/**
 The boundary error of luajit/src/error.rs, its display strings, the terminal
 raise path `handle`, and the outcome of a stack operation that may abort.
 */
module Errors {
  import opened Wrappers
  import opened Utf8
  import opened Ffi

  /** `Error`: a pop found the wrong type, an underflow, or a wrapped
      foreign error known by its message. */
  datatype Error =
    | PopUnexpectedType(expected: string, found: string)
    | StackUnderflow(context: string)
    | External(message: string)

  /** The `Display` text derived by `thiserror`. */
  function Display(e: Error): (m: string)
    ensures e.PopUnexpectedType? ==>
      m == "Error popping " + e.expected + ": found " + e.found
    ensures e.StackUnderflow? ==>
      m == "Underflowed stack while attempting to pop " + e.context
    ensures e.External? ==> m == e.message
  {
    match e
    case PopUnexpectedType(x, f) => "Error popping " + x + ": found " + f
    case StackUnderflow(c) => "Underflowed stack while attempting to pop " + c
    case External(m) => m
  }

  // ---------------------------------------------------------------------------
  // Decimal rendering (`i32::to_string`)

  function DigitChar(d: nat): (c: char)
    requires d < 10
    ensures '0' <= c <= '9' && (c as int) - ('0' as int) == d
  {
    ('0' as int + d) as char
  }

  /** Decimal digits of a natural number, without leading zeros. */
  function Digits(n: nat): (r: string)
    ensures |r| >= 1
    ensures forall i :: 0 <= i < |r| ==> '0' <= r[i] <= '9'
    ensures |r| > 1 ==> r[0] != '0'
  {
    if n < 10 then [DigitChar(n)] else Digits(n / 10) + [DigitChar(n % 10)]
  }

  /** `to_string` of a signed integer. */
  function Decimal(n: int): string
  {
    if n < 0 then "-" + Digits(-n) else Digits(n)
  }

  /** The number a string of decimal digits denotes. */
  function DigitsValue(s: string): nat
    requires forall i :: 0 <= i < |s| ==> '0' <= s[i] <= '9'
  {
    if |s| == 0 then 0
    else DigitsValue(s[..|s| - 1]) * 10 + ((s[|s| - 1] as int) - ('0' as int))
  }

  /** Reading a rendered number back: an optional minus sign, then digits. */
  function ParseDecimal(s: string): Option<int>
  {
    if |s| == 0 then None
    else if s[0] == '-' then
      if |s| > 1 && forall i :: 1 <= i < |s| ==> '0' <= s[i] <= '9' then Some(-(DigitsValue(s[1..]) as int))
      else None
    else if forall i :: 0 <= i < |s| ==> '0' <= s[i] <= '9' then Some(DigitsValue(s))
    else None
  }

  lemma {:induction false} DigitsValueOfDigits(n: nat)
    ensures DigitsValue(Digits(n)) == n
  {
    if n >= 10 {
      DigitsValueOfDigits(n / 10);
      var r := Digits(n);
      assert r[..|r| - 1] == Digits(n / 10);
    }
  }

  /** Rendering is faithful: the rendered text reads back as the number. */
  lemma DecimalRoundTrip(n: int)
    ensures ParseDecimal(Decimal(n)) == Some(n)
  {
    if n < 0 {
      ParseNegative(-n);
    } else {
      ParseNonNegative(n);
    }
  }

  /** A minus sign then the digits of `m` reads back as `-m`. */
  lemma ParseNegative(m: nat)
    ensures ParseDecimal("-" + Digits(m)) == Some(-(m as int))
  {
    var d := Digits(m);
    DigitsValueOfDigits(m);
    var s := "-" + d;
    assert s[0] == '-' && s[1..] == d;
    assert forall i :: 1 <= i < |s| ==> s[i] == d[i - 1];
  }

  /** The digits of `m` read back as `m`. */
  lemma ParseNonNegative(m: nat)
    ensures ParseDecimal(Digits(m)) == Some(m)
  {
    DigitsValueOfDigits(m);
    assert Digits(m)[0] != '-';
  }

  // ---------------------------------------------------------------------------
  // Aborts

  /** Ways control can leave a stack operation without returning to its
      caller: a Rust panic (turned into a Lua error by the panic hook), a Lua
      error raised by a primitive, a call the Lua manual leaves undefined, or
      a table walk that exceeded its step bound. */
  datatype Abort =
    | Panic(message: string)
    | LuaRaise(message: string)
    | ApiMisuse
    | WalkLimit

  /** The outcome of a stack operation: it returned a value, or it aborted;
      either way with the stack as it was left. */
  datatype Outcome<+T> = Done(value: T, stack: Stack) | Aborted(reason: Abort, stack: Stack)

  // ---------------------------------------------------------------------------
  // The terminal raise path

  /** `handle`: pushes the display text of `e` as a Lua string and raises
      it. The result type has no returning case. */
  function Handle(s: Stack, e: Error): (r: Raise)
    ensures |r.stack| == |s| + 1 && r.stack[..|s|] == s
    ensures r.error == r.stack[|s|] && r.error.Str?
    ensures Lossy(r.error.bytes) == Encode(Display(e))
  {
    LossyOfEncode(Display(e));
    LuaError(PushLString(s, Encode(Display(e))))
  }
}
