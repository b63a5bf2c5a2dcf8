/**
 The pop protocol of luajit/src/pop.rs: type-directed extraction of a Rust
 value from the top of the Lua stack.

 Every `Pop` implementation except the unit and tuple ones runs inside a pop
 guard (`popguard!`). The whole protocol is parameterised by the guard
 behaviour, `AsWritten` (guard.rs as it stands) or `Corrected`.
 */
module PopProtocol {
  import opened Wrappers
  import opened Utf8
  import opened Ffi
  import opened Errors
  import opened Guard
  import opened Marshal

  type PopOutcome = Outcome<Result<Native, Error>>

  /** The `found` text of a mismatch: `lua_type(state, -1)` rendered in
      decimal (`other.to_string()`), not a type name. */
  function Found(s: Stack): string
    requires |s| >= 1
  {
    Decimal(Code(Type(s, -1)))
  }

  function Mismatch(kind: string, s: Stack): Error
    requires |s| >= 1
  {
    PopUnexpectedType(kind, Found(s))
  }

  function Underflow(s: Stack): PopOutcome
  {
    Aborted(Panic(UnderflowPanic), s)
  }

  /** The integer `lua_tointeger` returns for a number slot. */
  function ToInteger(v: Value): int
    requires v.Num? || v.Flt?
  {
    if v.Num? then Wrap(v.n, LuaInt) else Wrap(v.trunc, LuaInt)
  }

  /** The number `lua_tonumber` returns for a number slot, known by its
      truncation. */
  function ToNumber(v: Value): int
    requires v.Num? || v.Flt?
  {
    if v.Num? then v.n else v.trunc
  }

  // ---------------------------------------------------------------------------
  // Bodies: what runs between a pop guard's creation and its drop.

  /** `impl Pop for ()`: no guard. An empty stack is a unit; a nil on top is
      popped; anything else is a mismatch that leaves the stack alone. */
  function UnitPop(s: Stack): PopOutcome
  {
    if GetTop(s) == 0 then Done(Ok(NUnit), s)
    else if Type(s, -1) == TNil then Done(Ok(NUnit), PopN(s, 1))
    else Done(Err(Mismatch("nil", s)), s)
  }

  function BoolBody(s: Stack): PopOutcome
    requires |s| >= 1
  {
    if Type(s, -1) == TBoolean then Done(Ok(NBool(s[|s| - 1].b)), PopN(s, 1))
    else Done(Err(Mismatch("bool", s)), s)
  }

  /** `impl Pop for LuaInteger`. */
  function IntBody(s: Stack): PopOutcome
    requires |s| >= 1
  {
    if Type(s, -1) == TNumber then Done(Ok(NInt(ToInteger(s[|s| - 1]))), PopN(s, 1))
    else Done(Err(Mismatch("int", s)), s)
  }

  /** `impl Pop for LuaNumber`: only the tag check and the slot count. */
  function FloatBody(s: Stack): PopOutcome
    requires |s| >= 1
  {
    if Type(s, -1) == TNumber then Done(Ok(NFloat(ToNumber(s[|s| - 1]))), PopN(s, 1))
    else Done(Err(Mismatch("float", s)), s)
  }

  /** `impl Pop for String`: the bytes are decoded lossily. */
  function StrBody(s: Stack): PopOutcome
    requires |s| >= 1
  {
    if Type(s, -1) == TString then Done(Ok(NStr(Lossy(s[|s| - 1].bytes))), PopN(s, 1))
    else Done(Err(Mismatch("string", s)), s)
  }

  /** Runs a body under a pop guard: the guard is taken on `s` (the body has
      not run yet) and dropped on whatever the body returns. */
  function Guarded(rule: GuardRule, s: Stack, body: PopOutcome): PopOutcome
    requires |s| >= 1
  {
    Leave(rule, PopBaseline(rule, s).value, body)
  }

  /** The `as` cast applied after `LuaInteger::pop`. */
  function CastInt(w: IntWidth, o: PopOutcome): PopOutcome
  {
    match o
    case Done(Ok(NInt(n)), t) => Done(Ok(NInt(Wrap(n, w))), t)
    case _ => o
  }

  function WrapSome(o: PopOutcome): PopOutcome
  {
    match o
    case Done(Ok(x), t) => Done(Ok(NSome(x)), t)
    case _ => o
  }

  /** `<T as Pop>::pop` for the type `sh` stands for. */
  function PopAs(rule: GuardRule, sh: Shape, s: Stack): PopOutcome
    decreases sh, 2, 0
  {
    match sh
    case UnitS => UnitPop(s)
    case BoolS => if |s| == 0 then Underflow(s) else Guarded(rule, s, BoolBody(s))
    case IntS(w) => CastInt(w, if |s| == 0 then Underflow(s) else Guarded(rule, s, IntBody(s)))
    case FloatS => if |s| == 0 then Underflow(s) else Guarded(rule, s, FloatBody(s))
    case StrS => if |s| == 0 then Underflow(s) else Guarded(rule, s, StrBody(s))
    case OptS(i) => if |s| == 0 then Underflow(s) else Guarded(rule, s, OptBody(rule, i, s))
    case VecS(e) => if |s| == 0 then Underflow(s) else Guarded(rule, s, VecBody(rule, e, s))
    case MapS(k, v) => if |s| == 0 then Underflow(s) else Guarded(rule, s, MapBody(rule, k, v, s))
    case TupleS(es) =>
      // `set_ssize` is not part of this model; it is taken to leave the
      // stack alone.
      match PopRev(rule, es, |es|, s)
      case Aborted(r, t) => Aborted(r, t)
      case Done(Err(e), t) => Done(Err(e), t)
      case Done(Ok(xs), t) => Done(Ok(NTuple(xs)), t)
  }

  /** `impl Pop for Option<T>`: a nil is popped as `None`; anything else is
      left for `T::pop`. */
  function OptBody(rule: GuardRule, i: Shape, s: Stack): PopOutcome
    requires |s| >= 1
    decreases OptS(i), 1, 0
  {
    if Type(s, -1) == TNil then Done(Ok(NNone), PopN(s, 1))
    else WrapSome(PopAs(rule, i, s))
  }

  /** `impl Pop for Vec<T>`: a table on top is walked with `lua_next` from a
      nil key, one element popped per step; then the table is popped. */
  function VecBody(rule: GuardRule, e: Shape, s: Stack): PopOutcome
    requires |s| >= 1
    decreases VecS(e), 1, 0
  {
    if Type(s, -1) != TTable then Done(Err(Mismatch("Vec<T>", s)), s)
    else VecWalk(rule, e, [], PushNil(s), |s[|s| - 1].entries|)
  }

  /** The `while lua_next(state, -2) != 0` loop of `Vec::pop`, allowed at most
      `fuel` more element pops. */
  function VecWalk(rule: GuardRule, e: Shape, acc: seq<Native>, t: Stack, fuel: nat): PopOutcome
    decreases VecS(e), 0, fuel
  {
    match Next(t, -2)
    case NextMisuse => Aborted(ApiMisuse, t)
    case NextRaise(m) => Aborted(LuaRaise(m), t)
    case NextDone(t1) => Done(Ok(NVec(acc)), PopN(t1, 1))
    case NextPair(t1) =>
      if fuel == 0 then Aborted(WalkLimit, t1)
      else
        match PopAs(rule, e, t1)
        case Aborted(r, t2) => Aborted(r, t2)
        case Done(Err(err), t2) => Done(Err(err), t2)
        case Done(Ok(x), t2) => VecWalk(rule, e, acc + [x], t2, fuel - 1)
  }

  /** `impl Pop for HashMap<K, V>`: like `Vec`, but each step pops the value,
      duplicates the key with `lua_pushvalue(state, -1)`, pops the copy as
      the key, and inserts the pair. */
  function MapBody(rule: GuardRule, k: Shape, v: Shape, s: Stack): PopOutcome
    requires |s| >= 1
    decreases MapS(k, v), 1, 0
  {
    if Type(s, -1) != TTable then Done(Err(Mismatch("HashMap<K, V>", s)), s)
    else MapWalk(rule, k, v, [], PushNil(s), |s[|s| - 1].entries|)
  }

  function MapWalk(rule: GuardRule, k: Shape, v: Shape, acc: seq<(Native, Native)>, t: Stack, fuel: nat): PopOutcome
    decreases MapS(k, v), 0, fuel
  {
    match Next(t, -2)
    case NextMisuse => Aborted(ApiMisuse, t)
    case NextRaise(m) => Aborted(LuaRaise(m), t)
    case NextDone(t1) => Done(Ok(NMap(acc)), PopN(t1, 1))
    case NextPair(t1) =>
      if fuel == 0 then Aborted(WalkLimit, t1)
      else
        match PairPop(rule, k, v, t1)
        case Aborted(r, t4) => Aborted(r, t4)
        case Done(Err(err), t4) => Done(Err(err), t4)
        case Done(Ok(p), t4) => MapWalk(rule, k, v, Insert(acc, p.0, p.1), t4, fuel - 1)
  }

  /** The body of that loop once `lua_next` has pushed a pair: pop the value,
      copy the key with `lua_pushvalue(state, -1)`, pop the copy as the key. */
  function PairPop(rule: GuardRule, k: Shape, v: Shape, t1: Stack): Outcome<Result<(Native, Native), Error>>
    decreases MapS(k, v), 0, 0
  {
    match PopAs(rule, v, t1)
    case Aborted(r, t2) => Aborted(r, t2)
    case Done(Err(err), t2) => Done(Err(err), t2)
    case Done(Ok(val), t2) =>
      match PushValue(t2, -1)
      case None => Aborted(ApiMisuse, t2)
      case Some(t3) =>
        match PopAs(rule, k, t3)
        case Aborted(r, t4) => Aborted(r, t4)
        case Done(Err(err), t4) => Done(Err(err), t4)
        case Done(Ok(key), t4) => Done(Ok((key, val)), t4)
  }

  /** `pop_rev!`: pops elements `n - 1` down to `0` of a tuple, the last
      declared first, and returns them in declared order. */
  function PopRev(rule: GuardRule, es: seq<Shape>, n: nat, s: Stack): Outcome<Result<seq<Native>, Error>>
    requires n <= |es|
    decreases TupleS(es), 1, n
  {
    if n == 0 then Done(Ok([]), s)
    else
      match PopAs(rule, es[n - 1], s)
      case Aborted(r, t) => Aborted(r, t)
      case Done(Err(e), t) => Done(Err(e), t)
      case Done(Ok(x), t) =>
        match PopRev(rule, es, n - 1, t)
        case Aborted(r, u) => Aborted(r, u)
        case Done(Err(e), u) => Done(Err(e), u)
        case Done(Ok(xs), u) => Done(Ok(xs + [x]), u)
  }
}
