/**
 The push protocol of luajit/src/push.rs: type-directed conversion of a Rust
 value onto the Lua stack. `push` reports how many slots it added; it has no
 error of its own for the closed set of types, and the only way it does not
 return is a Lua error raised by `lua_rawset` (a map key that pushes nil) or
 a primitive called on the wrong slot.
 */
module PushProtocol {
  import opened Wrappers
  import opened Utf8
  import opened Ffi
  import opened Errors
  import opened Marshal
  import opened Util

  type PushOutcome = Outcome<int>

  /** The key `idx as i32 + 1` that element `idx` of a vector is stored
      under, with the `i32` arithmetic written out. */
  function VecKey(idx: nat): (k: int)
    ensures idx < 0x7FFF_FFFF ==> k == idx + 1
  {
    Wrap(Wrap(idx, I32) + 1, I32)
  }

  /** `<T as Push>::push` for the value `x`. Every implementation is
      determined by the value alone: the static type only rules out the
      types that have no implementation (`Pushable`). */
  function PushAs(x: Native, s: Stack): PushOutcome
    decreases x, 1
  {
    match x
    case NUnit => Done(1, PushNil(s))
    case NBool(b) => Done(1, PushBoolean(s, b))
    // Every width is widened or cast into `isize` first.
    case NInt(n) => Done(1, PushInteger(s, Wrap(n, LuaInt)))
    case NFloat(t) => Done(1, PushNumber(s, t))
    case NStr(bytes) => Done(1, PushLString(s, bytes))
    case NNone => Done(1, PushNil(s))
    case NSome(y) => PushAs(y, s)
    case NVec(items) =>
      (match VecFill(items, 0, CreateTable(s, Wrap(|items|, I32), 0))
       case Aborted(r, t) => Aborted(r, t)
       case Done(_, t) => Done(1, t))
    case NMap(pairs) =>
      (match MapFill(pairs, 0, CreateTable(s, 0, Wrap(|pairs|, I32)))
       case Aborted(r, t) => Aborted(r, t)
       case Done(_, t) => Done(1, t))
    case NTuple(parts) =>
      match TuplePush(parts, 0, s)
      case Aborted(r, t) => Aborted(r, t)
      case Done(_, t) => Done(Count(parts), t)
  }

  /** The `try_for_each` of `Vec::push` from element `i` on: push the
      element, then `lua_rawseti(state, -2, idx as i32 + 1)`. */
  function VecFill(items: seq<Native>, i: nat, t: Stack): PushOutcome
    requires i <= |items|
    decreases NVec(items), 0, |items| - i
  {
    if i == |items| then Done(0, t)
    else
      match PushAs(items[i], t)
      case Aborted(r, t1) => Aborted(r, t1)
      case Done(_, t1) =>
        match RawSetI(t1, -2, VecKey(i))
        case RawMisuse => Aborted(ApiMisuse, t1)
        case RawRaise(m) => Aborted(LuaRaise(m), t1)
        case RawOk(t2) => VecFill(items, i + 1, t2)
  }

  /** The `try_for_each` of `HashMap::push` from pair `i` on, in the map's
      iteration order. */
  function MapFill(pairs: seq<(Native, Native)>, i: nat, t: Stack): PushOutcome
    requires i <= |pairs|
    decreases NMap(pairs), 0, |pairs| - i, 1
  {
    if i == |pairs| then Done(0, t)
    else
      match MapPair(pairs, i, t)
      case Aborted(r, t1) => Aborted(r, t1)
      case Done(_, t1) => MapFill(pairs, i + 1, t1)
  }

  /** One pair of the map loop: push the key, push the value,
      `lua_rawset(state, -3)`. */
  function MapPair(pairs: seq<(Native, Native)>, i: nat, t: Stack): PushOutcome
    requires i < |pairs|
    decreases NMap(pairs), 0, |pairs| - i, 0
  {
    match PushAs(pairs[i].0, t)
    case Aborted(r, t1) => Aborted(r, t1)
    case Done(_, t1) =>
      match PushAs(pairs[i].1, t1)
      case Aborted(r, t2) => Aborted(r, t2)
      case Done(_, t2) =>
        match RawSet(t2, -3)
        case RawMisuse => Aborted(ApiMisuse, t2)
        case RawRaise(m) => Aborted(LuaRaise(m), t2)
        case RawOk(t3) => Done(0, t3)
  }

  /** `push_tuple!`: pushes the parts from part `i` on, in declared order,
      stopping at the first that does not return. */
  function TuplePush(parts: seq<Native>, i: nat, t: Stack): PushOutcome
    requires i <= |parts|
    decreases NTuple(parts), 0, |parts| - i
  {
    if i == |parts| then Done(0, t)
    else
      match PushAs(parts[i], t)
      case Aborted(r, t1) => Aborted(r, t1)
      case Done(_, t1) => TuplePush(parts, i + 1, t1)
  }

  // ---------------------------------------------------------------------------
  // What a push leaves on the stack

  /** Shapes whose every value pushes exactly one slot that is not nil. */
  predicate Slot(sh: Shape)
  {
    sh.BoolS? || sh.IntS? || sh.FloatS? || sh.StrS? || sh.VecS? || sh.MapS?
  }

  /** Values that push nil: `()`, `None`, and `Some` of such a value. */
  predicate PushesNil(x: Native)
  {
    x.NUnit? || x.NNone? || (x.NSome? && PushesNil(x.some))
  }

  /** Values whose push leaves exactly one slot and never aborts: no tuple
      anywhere, and no map key that pushes nil. */
  predicate FlatValue(x: Native)
  {
    match x
    case NTuple(_) => false
    case NSome(y) => FlatValue(y)
    case NVec(items) => forall j :: 0 <= j < |items| ==> FlatValue(items[j])
    case NMap(pairs) =>
      forall j :: 0 <= j < |pairs| ==> FlatPair(pairs[j])
    case _ => true
  }

  /** A map entry whose push stores one pair: flat key and value, and a
      key that is not nil. */
  predicate FlatPair(p: (Native, Native))
  {
    FlatValue(p.0) && !PushesNil(p.0) && FlatValue(p.1)
  }

  /** The Lua value a push of a flat value `x` leaves on top. Tables are
      built entry by entry with raw assignment, as the push loops do. A
      tuple is several slots, never one value (see `ValuesOf`). */
  function ToValue(x: Native): Value
    decreases x, 1
  {
    match x
    case NUnit => Nil
    case NBool(b) => Bool(b)
    case NInt(n) => Num(Wrap(n, LuaInt))
    case NFloat(t) => Flt(t)
    case NStr(bytes) => Str(bytes)
    case NNone => Nil
    case NSome(y) => ToValue(y)
    case NVec(items) => Table(FillVec(items, |items|))
    case NMap(pairs) => Table(FillMap(pairs, |pairs|))
    case NTuple(_) => Nil
  }

  /** The entries of the table a vector's first `n` elements make. */
  function FillVec(items: seq<Native>, n: nat): seq<Entry>
    requires n <= |items|
    decreases NVec(items), 0, n
  {
    if n == 0 then []
    else SetEntry(FillVec(items, n - 1), Num(VecKey(n - 1)), ToValue(items[n - 1]))
  }

  /** The entries of the table a map's first `n` pairs make. */
  function FillMap(pairs: seq<(Native, Native)>, n: nat): seq<Entry>
    requires n <= |pairs|
    decreases NMap(pairs), 0, n
  {
    if n == 0 then []
    else SetEntry(FillMap(pairs, n - 1), ToValue(pairs[n - 1].0), ToValue(pairs[n - 1].1))
  }

  /** A flat value leaves nil exactly when it is one of the values that
      push nil. */
  lemma {:induction false} ToValueNil(x: Native)
    ensures PushesNil(x) ==> ToValue(x) == Nil
    ensures FlatValue(x) && ToValue(x) == Nil ==> PushesNil(x)
  {
    if x.NSome? {
      ToValueNil(x.some);
    }
  }

  /** A slot-shaped value never pushes nil. */
  lemma SlotNotNil(sh: Shape, x: Native)
    requires Slot(sh) && HasShape(x, sh)
    ensures !PushesNil(x) && ToValue(x) != Nil
  {
    ToValueNil(x);
  }

  /** `x` pushes exactly the value `ToValue(x)` on any stack. */
  ghost predicate PushesItself(x: Native)
  {
    forall t :: PushAs(x, t) == Done(1, t + [ToValue(x)])
  }

  /** A map entry whose key and value push themselves, the key not nil. */
  ghost predicate PairPushes(p: (Native, Native))
  {
    PushesItself(p.0) && PushesItself(p.1) && ToValue(p.0) != Nil
  }

  /** A flat push adds exactly the value `ToValue(x)` on top, reports one
      slot, and leaves everything below untouched. */
  lemma {:induction false} PushFlat(x: Native, s: Stack)
    requires FlatValue(x)
    ensures PushAs(x, s) == Done(1, s + [ToValue(x)])
    decreases x
  {
    match x
    case NSome(y) => PushFlat(y, s);
    case NVec(items) =>
      forall j | 0 <= j < |items| ensures PushesItself(items[j]) {
        forall t ensures PushAs(items[j], t) == Done(1, t + [ToValue(items[j])]) {
          PushFlat(items[j], t);
        }
      }
      VecFillFlat(items, 0, s);
      assert PushAs(x, s) == Done(1, s + [Table(FillVec(items, |items|))]);
    case NMap(pairs) =>
      forall j | 0 <= j < |pairs| ensures PairPushes(pairs[j]) {
        ToValueNil(pairs[j].0);
        forall t ensures PushAs(pairs[j].0, t) == Done(1, t + [ToValue(pairs[j].0)]) {
          PushFlat(pairs[j].0, t);
        }
        forall t ensures PushAs(pairs[j].1, t) == Done(1, t + [ToValue(pairs[j].1)]) {
          PushFlat(pairs[j].1, t);
        }
      }
      MapFillFlat(pairs, 0, s);
      assert PushAs(x, s) == Done(1, s + [Table(FillMap(pairs, |pairs|))]);
    case _ =>
  }

  lemma {:induction false} VecFillFlat(items: seq<Native>, i: nat, s: Stack)
    requires i <= |items|
    requires forall j :: 0 <= j < |items| ==> PushesItself(items[j])
    ensures VecFill(items, i, s + [Table(FillVec(items, i))]) == Done(0, s + [Table(FillVec(items, |items|))])
    decreases |items| - i
  {
    if i < |items| {
      var es := FillVec(items, i);
      var v := ToValue(items[i]);
      assert PushesItself(items[i]);
      assert PushAs(items[i], s + [Table(es)]) == Done(1, (s + [Table(es)]) + [v]);
      assert (s + [Table(es)]) + [v] == s + [Table(es), v];
      RawSetIBelowTop(s, es, v, VecKey(i));
      VecFillStep(items, i, s + [Table(es)], s + [Table(es), v], s + [Table(FillVec(items, i + 1))]);
      VecFillFlat(items, i + 1, s);
    }
  }

  lemma {:induction false} MapFillFlat(pairs: seq<(Native, Native)>, i: nat, s: Stack)
    requires i <= |pairs|
    requires forall j :: 0 <= j < |pairs| ==> PairPushes(pairs[j])
    ensures MapFill(pairs, i, s + [Table(FillMap(pairs, i))]) == Done(0, s + [Table(FillMap(pairs, |pairs|))])
    decreases |pairs| - i
  {
    var t := s + [Table(FillMap(pairs, i))];
    if i < |pairs| {
      var t1 := s + [Table(FillMap(pairs, i + 1))];
      MapPairFlat(pairs, i, s);
      MapFillStep(pairs, i, t, t1);
      MapFillFlat(pairs, i + 1, s);
      assert MapFill(pairs, i, t) == MapFill(pairs, i + 1, t1);
    } else {
      assert MapFill(pairs, i, t) == Done(0, t);
    }
  }

  /** One step of the map loop. */
  lemma MapFillStep(pairs: seq<(Native, Native)>, i: nat, t: Stack, t1: Stack)
    requires i < |pairs| && MapPair(pairs, i, t) == Done(0, t1)
    ensures MapFill(pairs, i, t) == MapFill(pairs, i + 1, t1)
  {
  }

  /** One pair: the key and the value are pushed as their Lua values and
      stored in the table below them. */
  lemma MapPairFlat(pairs: seq<(Native, Native)>, i: nat, s: Stack)
    requires i < |pairs| && PairPushes(pairs[i])
    ensures MapPair(pairs, i, s + [Table(FillMap(pairs, i))]) == Done(0, s + [Table(FillMap(pairs, i + 1))])
  {
    var es := FillMap(pairs, i);
    var kv := ToValue(pairs[i].0);
    var vv := ToValue(pairs[i].1);
    assert PushAs(pairs[i].0, s + [Table(es)]) == Done(1, (s + [Table(es)]) + [kv]);
    assert (s + [Table(es)]) + [kv] == s + [Table(es), kv];
    assert PushAs(pairs[i].1, s + [Table(es), kv]) == Done(1, (s + [Table(es), kv]) + [vv]);
    assert (s + [Table(es), kv]) + [vv] == s + [Table(es), kv, vv];
    RawSetBelowTop(s, es, kv, vv);
  }

  /** One step of the vector loop: push the element, store it. */
  lemma VecFillStep(items: seq<Native>, i: nat, t: Stack, t1: Stack, t2: Stack)
    requires i < |items|
    requires PushAs(items[i], t) == Done(1, t1)
    requires RawSetI(t1, -2, VecKey(i)) == RawOk(t2)
    ensures VecFill(items, i, t) == VecFill(items, i + 1, t2)
  {
  }

  /** A tuple push pushes its parts in declared order, one after another,
      and reports its arity. */
  lemma TuplePushFlat(parts: seq<Native>, s: Stack)
    requires forall j :: 0 <= j < |parts| ==> FlatValue(parts[j])
    ensures PushAs(NTuple(parts), s) == Done(|parts|, s + ValuesOf(parts))
  {
    TuplePushFrom(parts, 0, s);
    CountIsLength(parts);
    assert parts[0..] == parts;
  }

  /** The values a sequence of flat-shaped parts push, in order. */
  function ValuesOf(xs: seq<Native>): (vs: seq<Value>)
    ensures |vs| == |xs|
  {
    if |xs| == 0 then [] else [ToValue(xs[0])] + ValuesOf(xs[1..])
  }

  /** Slot `j` of the pushed values is the value of part `j`. */
  lemma {:induction false} ValuesOfAt(xs: seq<Native>)
    ensures forall j :: 0 <= j < |xs| ==> ValuesOf(xs)[j] == ToValue(xs[j])
  {
    if |xs| > 0 {
      ValuesOfAt(xs[1..]);
      assert forall j :: 1 <= j < |xs| ==> ValuesOf(xs)[j] == ValuesOf(xs[1..])[j - 1] && xs[j] == xs[1..][j - 1];
    }
  }

  lemma {:induction false} TuplePushFrom(parts: seq<Native>, i: nat, s: Stack)
    requires i <= |parts|
    requires forall j :: 0 <= j < |parts| ==> FlatValue(parts[j])
    ensures TuplePush(parts, i, s) == Done(0, s + ValuesOf(parts[i..]))
    decreases |parts| - i
  {
    if i < |parts| {
      var t1 := s + [ToValue(parts[i])];
      PushFlat(parts[i], s);
      TupleStep(parts, i, s, t1);
      TuplePushFrom(parts, i + 1, t1);
      ValuesOfCons(parts[i..]);
      assert parts[i..][1..] == parts[i + 1..];
      assert t1 + ValuesOf(parts[i + 1..]) == s + ValuesOf(parts[i..]);
    } else {
      assert ValuesOf(parts[i..]) == [];
    }
  }

  /** One step of the tuple push. */
  lemma TupleStep(parts: seq<Native>, i: nat, t: Stack, t1: Stack)
    requires i < |parts|
    requires PushAs(parts[i], t).Done? && PushAs(parts[i], t).stack == t1
    ensures TuplePush(parts, i, t) == TuplePush(parts, i + 1, t1)
  {
  }

  /** A part whose push aborts ends the tuple push: the parts before it stay
      on the stack and the parts after it are never pushed. */
  lemma {:induction false} TupleAbortKeepsEarlier(parts: seq<Native>, i: nat, s: Stack)
    requires i < |parts|
    requires forall j :: 0 <= j < i ==> FlatValue(parts[j])
    requires PushAs(parts[i], s + ValuesOf(parts[..i])).Aborted?
    ensures PushAs(NTuple(parts), s) == PushAs(parts[i], s + ValuesOf(parts[..i]))
  {
    TupleAbortFrom(parts, 0, i, s);
    assert parts[0..i] == parts[..i];
  }

  lemma {:induction false} TupleAbortFrom(parts: seq<Native>, k: nat, i: nat, s: Stack)
    requires k <= i < |parts|
    requires forall j :: 0 <= j < i ==> FlatValue(parts[j])
    requires PushAs(parts[i], s + ValuesOf(parts[k..i])).Aborted?
    ensures TuplePush(parts, k, s) == PushAs(parts[i], s + ValuesOf(parts[k..i]))
    decreases i - k
  {
    if k == i {
      assert ValuesOf(parts[k..i]) == [];
      assert s + ValuesOf(parts[k..i]) == s;
    } else {
      var t1 := s + [ToValue(parts[k])];
      PushFlat(parts[k], s);
      TupleStep(parts, k, s, t1);
      ValuesOfCons(parts[k..i]);
      assert parts[k..i][1..] == parts[k + 1..i];
      assert t1 + ValuesOf(parts[k + 1..i]) == s + ValuesOf(parts[k..i]);
      TupleAbortFrom(parts, k + 1, i, t1);
    }
  }

  /** Pushing one more part adds its value on top. */
  lemma ValuesOfSnoc(xs: seq<Native>, x: Native)
    ensures ValuesOf(xs + [x]) == ValuesOf(xs) + [ToValue(x)]
  {
    ValuesOfAt(xs + [x]);
    ValuesOfAt(xs);
    assert forall j :: 0 <= j < |xs| ==> (xs + [x])[j] == xs[j];
  }

  lemma ValuesOfCons(xs: seq<Native>)
    requires |xs| > 0
    ensures ValuesOf(xs) == [ToValue(xs[0])] + ValuesOf(xs[1..])
  {
  }

  // ---------------------------------------------------------------------------
  // Tuples of tuples

  /** Values whose push never aborts and leaves only their own slots: flat
      values, and tuples of such values at any depth. */
  predicate Nested(x: Native)
  {
    match x
    case NTuple(parts) => forall j :: 0 <= j < |parts| ==> Nested(parts[j])
    case _ => FlatValue(x)
  }

  /** The slots a push of `x` leaves: its one value, or the slots of a
      tuple's parts in declared order. */
  function Slots(x: Native): seq<Value>
    decreases x, 1
  {
    match x
    case NTuple(parts) => SlotsOf(parts, |parts|)
    case _ => [ToValue(x)]
  }

  /** The slots of the first `n` parts of a tuple. */
  function SlotsOf(parts: seq<Native>, n: nat): seq<Value>
    requires n <= |parts|
    decreases NTuple(parts), 0, n
  {
    if n == 0 then [] else SlotsOf(parts, n - 1) + Slots(parts[n - 1])
  }

  /** What `push` reports: one for a single value, `count!` of the parts
      for a tuple. */
  function Reported(x: Native): int
  {
    if x.NTuple? then |x.parts| else 1
  }

  /** Every tuple push that returns reports the tuple's arity, whatever its
      parts pushed: `count!` counts the parts, not their slots. */
  lemma TupleReportsArity(parts: seq<Native>, s: Stack)
    ensures PushAs(NTuple(parts), s).Done? ==> PushAs(NTuple(parts), s).value == |parts|
  {
    CountIsLength(parts);
  }

  /** A nested value pushes exactly its slots above the stack it was given
      and reports `Reported(x)`: for a tuple with a tuple part that is fewer
      than the slots it pushed. */
  lemma {:induction false} PushNested(x: Native, s: Stack)
    requires Nested(x)
    ensures PushAs(x, s) == Done(Reported(x), s + Slots(x))
    decreases x, 1
  {
    match x
    case NTuple(parts) =>
      TuplePushNested(parts, 0, s);
      assert s + SlotsOf(parts, 0) == s;
      CountIsLength(parts);
    case _ =>
      PushFlat(x, s);
  }

  /** The tuple push from part `i` on adds the remaining parts' slots. */
  lemma {:induction false} TuplePushNested(parts: seq<Native>, i: nat, s: Stack)
    requires i <= |parts|
    requires forall j :: 0 <= j < |parts| ==> Nested(parts[j])
    ensures TuplePush(parts, i, s + SlotsOf(parts, i)) == Done(0, s + SlotsOf(parts, |parts|))
    decreases NTuple(parts), 0, |parts| - i
  {
    if i < |parts| {
      var t := s + SlotsOf(parts, i);
      PushNested(parts[i], t);
      assert t + Slots(parts[i]) == s + SlotsOf(parts, i + 1);
      TupleStep(parts, i, t, t + Slots(parts[i]));
      TuplePushNested(parts, i + 1, s);
    }
  }

  /** `((true, false),)` pushes two booleans and reports one. */
  lemma NestedTupleUndercounts(s: Stack)
    ensures PushAs(NTuple([NTuple([NBool(true), NBool(false)])]), s) == Done(1, s + [Bool(true), Bool(false)])
  {
    var inner := NTuple([NBool(true), NBool(false)]);
    var outer := NTuple([inner]);
    assert Nested(inner) && Nested(outer);
    assert SlotsOf(inner.parts, 1) == [Bool(true)];
    assert SlotsOf(inner.parts, 2) == [Bool(true), Bool(false)];
    assert SlotsOf(outer.parts, 1) == SlotsOf(outer.parts, 0) + Slots(inner);
    PushNested(outer, s);
  }

  /** `push_tuple!` reporting the sum of its parts' counts, which is the
      number of slots it pushed; `Option` passes its inner count on. Every
      other type pushes as `PushAs` does. */
  function PushSummed(x: Native, s: Stack): PushOutcome
    decreases x, 1
  {
    match x
    case NTuple(parts) => TupleSummed(parts, 0, s)
    case NSome(y) => PushSummed(y, s)
    case _ => PushAs(x, s)
  }

  /** The summing tuple push from part `i` on. */
  function TupleSummed(parts: seq<Native>, i: nat, t: Stack): PushOutcome
    requires i <= |parts|
    decreases NTuple(parts), 0, |parts| - i
  {
    if i == |parts| then Done(0, t)
    else
      match PushSummed(parts[i], t)
      case Aborted(r, t1) => Aborted(r, t1)
      case Done(n, t1) =>
        match TupleSummed(parts, i + 1, t1)
        case Aborted(r, t2) => Aborted(r, t2)
        case Done(m, t2) => Done(n + m, t2)
  }

  /** The summing push changes only the number reported: it returns or
      aborts exactly when `PushAs` does, with the same stack and reason. */
  lemma {:induction false} SummedSameEffect(x: Native, s: Stack)
    ensures PushSummed(x, s).Done? == PushAs(x, s).Done?
    ensures PushSummed(x, s).stack == PushAs(x, s).stack
    ensures PushSummed(x, s).Aborted? ==> PushSummed(x, s).reason == PushAs(x, s).reason
    decreases x, 1
  {
    match x
    case NTuple(parts) =>
      TupleSummedSameEffect(parts, 0, s);
    case NSome(y) =>
      SummedSameEffect(y, s);
    case _ =>
  }

  lemma {:induction false} TupleSummedSameEffect(parts: seq<Native>, i: nat, t: Stack)
    requires i <= |parts|
    ensures TupleSummed(parts, i, t).Done? == TuplePush(parts, i, t).Done?
    ensures TupleSummed(parts, i, t).stack == TuplePush(parts, i, t).stack
    ensures TupleSummed(parts, i, t).Aborted? ==> TupleSummed(parts, i, t).reason == TuplePush(parts, i, t).reason
    decreases NTuple(parts), 0, |parts| - i
  {
    if i < |parts| {
      SummedSameEffect(parts[i], t);
      if PushAs(parts[i], t).Done? {
        TupleSummedSameEffect(parts, i + 1, PushAs(parts[i], t).stack);
      }
    }
  }

  /** With the summing push a nested value reports exactly the number of
      slots it pushed. */
  lemma {:induction false} SummedCountsSlots(x: Native, s: Stack)
    requires Nested(x)
    ensures PushSummed(x, s) == Done(|Slots(x)|, s + Slots(x))
    decreases x, 1
  {
    match x
    case NTuple(parts) =>
      TupleSummedNested(parts, 0, s);
      assert s + SlotsOf(parts, 0) == s;
    case _ =>
      SummedNotTuple(x, s);
  }

  /** The summing push of a flat value reports one. */
  lemma {:induction false} SummedNotTuple(x: Native, s: Stack)
    requires FlatValue(x)
    ensures PushSummed(x, s) == Done(1, s + [ToValue(x)])
    decreases x
  {
    PushFlat(x, s);
    if x.NSome? {
      SummedNotTuple(x.some, s);
    }
  }

  /** The summing tuple push from part `i` on reports the remaining parts'
      slots and pushes them. */
  lemma {:induction false} TupleSummedNested(parts: seq<Native>, i: nat, s: Stack)
    requires i <= |parts|
    requires forall j :: 0 <= j < |parts| ==> Nested(parts[j])
    ensures TupleSummed(parts, i, s + SlotsOf(parts, i))
      == Done(|SlotsOf(parts, |parts|)| - |SlotsOf(parts, i)|, s + SlotsOf(parts, |parts|))
    decreases NTuple(parts), 0, |parts| - i
  {
    if i < |parts| {
      var t := s + SlotsOf(parts, i);
      SummedCountsSlots(parts[i], t);
      assert t + Slots(parts[i]) == s + SlotsOf(parts, i + 1);
      TupleSummedNested(parts, i + 1, s);
    }
  }

  // ---------------------------------------------------------------------------
  // Consequences visible from Lua

  /** Element `j` of a vector of non-nil elements is stored under `j + 1`,
      and nothing else is stored. */
  lemma {:induction false} VecEntries(items: seq<Native>, n: nat)
    requires n <= |items| < 0x7FFF_FFFF
    requires forall j :: 0 <= j < |items| ==> ToValue(items[j]) != Nil
    ensures VecFilled(items, n, FillVec(items, n))
  {
    if n > 0 {
      VecEntries(items, n - 1);
      VecEntriesStep(items, n, FillVec(items, n - 1));
    }
  }

  /** `es` holds the first `n` pairs of `pairs`, in order, under distinct
      keys. */
  predicate MapFilled(pairs: seq<(Native, Native)>, n: nat, es: seq<Entry>)
    requires n <= |pairs|
  {
    && |es| == n && Ffi.DistinctKeys(es)
    && forall j :: 0 <= j < n ==> es[j] == Entry(ToValue(pairs[j].0), ToValue(pairs[j].1))
  }

  /** `es` holds the first `n` elements of `items` under the keys 1 to `n`,
      in order. */
  predicate VecFilled(items: seq<Native>, n: nat, es: seq<Entry>)
    requires n <= |items|
  {
    && |es| == n && Ffi.DistinctKeys(es)
    && forall j :: 0 <= j < n ==> es[j] == Entry(Num(j + 1), ToValue(items[j]))
  }

  /** One `lua_rawseti` of `VecEntries`: the key `n` is new, so the entry is
      appended. */
  lemma VecEntriesStep(items: seq<Native>, n: nat, es: seq<Entry>)
    requires 0 < n <= |items| < 0x7FFF_FFFF
    requires ToValue(items[n - 1]) != Nil
    requires es == FillVec(items, n - 1) && VecFilled(items, n - 1, es)
    ensures VecFilled(items, n, FillVec(items, n))
  {
    var last := Entry(Num(n), ToValue(items[n - 1]));
    assert VecKey(n - 1) == n;
    forall i | 0 <= i < |es| ensures es[i].key != Num(n) {
      assert es[i] == Entry(Num(i + 1), ToValue(items[i]));
    }
    SetEntryNew(es, Num(n), ToValue(items[n - 1]));
    assert FillVec(items, n) == es + [last];
    AppendFilled(items, n, es, last);
  }

  lemma AppendFilled(items: seq<Native>, n: nat, es: seq<Entry>, last: Entry)
    requires 0 < n <= |items| && VecFilled(items, n - 1, es)
    requires last == Entry(Num(n), ToValue(items[n - 1]))
    ensures VecFilled(items, n, es + [last])
  {
    var r := es + [last];
    forall j | 0 <= j < n ensures r[j] == Entry(Num(j + 1), ToValue(items[j])) {
      if j < n - 1 {
        assert r[j] == es[j];
      }
    }
  }

  /** Raw assignment of nil deletes, so elements that push nil (`None`,
      `()`) leave holes: a vector of such elements becomes an empty table,
      whatever its length. */
  lemma VecOfNilsIsEmpty(items: seq<Native>, s: Stack)
    requires forall j :: 0 <= j < |items| ==> FlatValue(items[j]) && PushesNil(items[j])
    ensures PushAs(NVec(items), s) == Done(1, s + [Table([])])
  {
    PushFlat(NVec(items), s);
    FillVecOfNils(items, |items|);
  }

  lemma {:induction false} FillVecOfNils(items: seq<Native>, n: nat)
    requires n <= |items|
    requires forall j :: 0 <= j < |items| ==> PushesNil(items[j])
    ensures FillVec(items, n) == []
  {
    if n > 0 {
      FillVecOfNils(items, n - 1);
      ToValueNil(items[n - 1]);
      assert FillVec(items, n) == RemoveKey([], Num(VecKey(n - 1)));
    }
  }

  /** A map whose first key pushes nil makes `lua_rawset` raise "table index
      is nil": the push does not return, and the stack holds the new table,
      the nil key and the value. */
  lemma NilKeyRaises(k: Native, v: Native, rest: seq<(Native, Native)>, s: Stack)
    requires FlatValue(k) && PushesNil(k) && FlatValue(v)
    ensures PushAs(NMap([(k, v)] + rest), s) ==
      Aborted(LuaRaise("table index is nil"), s + [Table([]), Nil, ToValue(v)])
  {
    var pairs := [(k, v)] + rest;
    var t := s + [Table([])];
    NilPairRaises(pairs, t);
    assert t + [Nil, ToValue(v)] == s + [Table([]), Nil, ToValue(v)];
    FirstPairAborts(pairs, s, LuaRaise("table index is nil"), t + [Nil, ToValue(v)]);
  }

  /** The first pair of a map with a nil key: key and value are pushed
      above the table, and `lua_rawset` raises. */
  lemma NilPairRaises(pairs: seq<(Native, Native)>, t: Stack)
    requires |pairs| >= 1 && |t| >= 1 && t[|t| - 1] == Table([])
    requires FlatValue(pairs[0].0) && PushesNil(pairs[0].0) && FlatValue(pairs[0].1)
    ensures MapPair(pairs, 0, t) == Aborted(LuaRaise("table index is nil"), t + [Nil, ToValue(pairs[0].1)])
  {
    var k, v := pairs[0].0, pairs[0].1;
    ToValueNil(k);
    PushFlat(k, t);
    PushFlat(v, t + [Nil]);
    var t2 := t + [Nil, ToValue(v)];
    assert (t + [Nil]) + [ToValue(v)] == t2;
    assert Position(t2, -3) == Some(|t| - 1);
    assert RawSet(t2, -3) == RawRaise("table index is nil");
  }

  /** A map push that aborts in its first pair aborts the same way. */
  lemma FirstPairAborts(pairs: seq<(Native, Native)>, s: Stack, a: Abort, t: Stack)
    requires |pairs| >= 1
    requires MapPair(pairs, 0, s + [Table([])]) == Aborted(a, t)
    ensures PushAs(NMap(pairs), s) == Aborted(a, t)
  {
    assert CreateTable(s, 0, Wrap(|pairs|, I32)) == s + [Table([])];
  }

}
