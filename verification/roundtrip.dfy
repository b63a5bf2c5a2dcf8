/**
 Push and pop are inverse: a Rust value pushed onto the stack and popped back
 as the same type comes back unchanged and the stack is as it was, under the
 corrected guard. Under the guard as written the same round trip never
 completes for a guarded type.
 */
module RoundTrip {
  import opened Wrappers
  import opened Utf8
  import opened Ffi
  import opened Errors
  import opened Guard
  import opened Marshal
  import opened PopProtocol
  import opened PushProtocol
  import opened PopSpec
  import opened Seqs
  import opened TableWalk

  /** Map keys that come back as themselves: their pushes are distinct,
      non-nil Lua values. */
  predicate ScalarKey(k: Shape)
  {
    k.BoolS? || (k.IntS? && k.width != I32) || k.StrS?
  }

  /** Shapes whose values survive a push and a pop. Options, vector
      elements and map values must always push one non-nil slot: a nil
      pushed for `Some(None)` reads back as `None`, and a nil stored in a
      table deletes the entry. Tuples may hold tuples. */
  predicate RoundTrips(sh: Shape)
  {
    match sh
    case IntS(w) => w != I32
    case OptS(i) => Slot(i) && RoundTrips(i)
    case VecS(e) => Slot(e) && RoundTrips(e)
    case MapS(k, v) => ScalarKey(k) && Slot(v) && RoundTrips(v)
    case TupleS(es) =>
      && 1 <= |es| <= MaxArity
      && forall j :: 0 <= j < |es| ==> RoundTrips(es[j])
    case _ => true
  }

  /** The magnitude up to which every integer is a `lua_Number`: the stack
      stores numbers as doubles, with a 53-bit significand. */
  const MaxExact: int := 0x20_0000_0000_0000

  /** Values the stack holds exactly: integers a double represents, and
      vectors short enough that `idx as i32 + 1` does not wrap. */
  predicate Small(x: Native)
  {
    match x
    case NInt(n) => -MaxExact <= n <= MaxExact
    case NSome(y) => Small(y)
    case NVec(items) => |items| < 0x7FFF_FFFF && forall j :: 0 <= j < |items| ==> Small(items[j])
    case NMap(pairs) => forall j :: 0 <= j < |pairs| ==> Small(pairs[j].0) && Small(pairs[j].1)
    case NTuple(parts) => forall j :: 0 <= j < |parts| ==> Small(parts[j])
    case _ => true
  }

  /** A value of a round-tripping shape other than a tuple is flat: its
      push leaves one slot and never raises. */
  lemma {:induction false} RoundTripsFlat(sh: Shape, x: Native)
    requires RoundTrips(sh) && !sh.TupleS? && HasShape(x, sh)
    ensures FlatValue(x)
    decreases sh
  {
    match sh
    case OptS(i) =>
      if x.NSome? {
        RoundTripsFlat(i, x.some);
      }
    case VecS(e) =>
      forall j | 0 <= j < |x.items| ensures FlatValue(x.items[j]) {
        RoundTripsFlat(e, x.items[j]);
      }
    case MapS(k, v) =>
      forall j | 0 <= j < |x.pairs| ensures FlatPair(x.pairs[j]) {
        RoundTripsFlat(k, x.pairs[j].0);
        SlotNotNil(k, x.pairs[j].0);
        RoundTripsFlat(v, x.pairs[j].1);
      }
    case _ =>
  }

  /** Round-tripping shapes have a `Push` implementation. */
  lemma {:induction false} RoundTripsPushable(sh: Shape)
    requires RoundTrips(sh)
    ensures Pushable(sh)
  {
    match sh
    case OptS(i) => RoundTripsPushable(i);
    case VecS(e) => RoundTripsPushable(e);
    case MapS(k, v) => RoundTripsPushable(v);
    case TupleS(es) =>
      forall j | 0 <= j < |es| ensures Pushable(es[j]) {
        RoundTripsPushable(es[j]);
      }
    case _ =>
  }

  lemma {:induction false} RoundTripsIsShapeOk(sh: Shape)
    requires RoundTrips(sh)
    ensures ShapeOk(sh)
  {
    match sh
    case OptS(i) => RoundTripsIsShapeOk(i);
    case VecS(e) => RoundTripsIsShapeOk(e);
    case MapS(k, v) => RoundTripsIsShapeOk(v);
    case TupleS(es) =>
      forall j | 0 <= j < |es| ensures ShapeOk(es[j]) {
        RoundTripsIsShapeOk(es[j]);
      }
    case _ =>
  }

  /** Distinct keys push distinct Lua values. */
  lemma KeyInjective(k: Shape, a: Native, b: Native)
    requires ScalarKey(k) && HasShape(a, k) && HasShape(b, k)
    requires ToValue(a) == ToValue(b)
    ensures a == b
  {
    if k.IntS? {
      WrapRoundTrip(a.n, k.width);
      WrapRoundTrip(b.n, k.width);
    }
  }

  /** The table a map of distinct scalar keys and non-nil values pushes:
      one entry per pair, in the map's iteration order. */
  lemma {:induction false} MapEntries(k: Shape, v: Shape, pairs: seq<(Native, Native)>, n: nat)
    requires ScalarKey(k) && Slot(v) && n <= |pairs|
    requires Marshal.DistinctKeys(pairs)
    requires forall j :: 0 <= j < |pairs| ==> HasShape(pairs[j].0, k) && HasShape(pairs[j].1, v)
    ensures MapFilled(pairs, n, FillMap(pairs, n))
  {
    if n > 0 {
      MapEntries(k, v, pairs, n - 1);
      MapEntriesStep(k, v, pairs, n, FillMap(pairs, n - 1));
    }
  }

  /** One `lua_rawset` of `MapEntries`: the key is new, so the pair is
      appended. */
  lemma MapEntriesStep(k: Shape, v: Shape, pairs: seq<(Native, Native)>, n: nat, es: seq<Entry>)
    requires ScalarKey(k) && Slot(v) && 0 < n <= |pairs|
    requires Marshal.DistinctKeys(pairs)
    requires forall j :: 0 <= j < |pairs| ==> HasShape(pairs[j].0, k) && HasShape(pairs[j].1, v)
    requires es == FillMap(pairs, n - 1) && MapFilled(pairs, n - 1, es)
    ensures MapFilled(pairs, n, FillMap(pairs, n))
  {
    var key := ToValue(pairs[n - 1].0);
    forall j | 0 <= j < n - 1 ensures es[j].key != key {
      assert es[j] == Entry(ToValue(pairs[j].0), ToValue(pairs[j].1));
      if es[j].key == key {
        KeyInjective(k, pairs[j].0, pairs[n - 1].0);
      }
    }
    SlotNotNil(v, pairs[n - 1].1);
    SetEntryNew(es, key, ToValue(pairs[n - 1].1));
    AppendMapFilled(pairs, n, es, Entry(key, ToValue(pairs[n - 1].1)));
  }

  lemma AppendMapFilled(pairs: seq<(Native, Native)>, n: nat, es: seq<Entry>, last: Entry)
    requires 0 < n <= |pairs| && MapFilled(pairs, n - 1, es)
    requires last == Entry(ToValue(pairs[n - 1].0), ToValue(pairs[n - 1].1))
    requires forall j :: 0 <= j < |es| ==> es[j].key != last.key
    ensures MapFilled(pairs, n, es + [last])
  {
    var r := es + [last];
    forall j | 0 <= j < n ensures r[j] == Entry(ToValue(pairs[j].0), ToValue(pairs[j].1)) {
      if j < n - 1 {
        assert r[j] == es[j];
      }
    }
  }

  /** Popping a value's own push: with `ToValue(x)` on top of `s`, a pop as
      the shape of `x` yields `x` and leaves `s`. */
  lemma {:induction false} PopOfValue(sh: Shape, x: Native, s: Stack)
    requires RoundTrips(sh) && !sh.TupleS? && HasShape(x, sh) && Small(x)
    ensures PopAs(Corrected, sh, s + [ToValue(x)]) == Done(Ok(x), s)
    decreases sh
  {
    match sh
    case OptS(i) =>
      if x.NSome? {
        forall u ensures PopAs(Corrected, i, u + [ToValue(x.some)]) == Done(Ok(x.some), u) {
          PopOfValue(i, x.some, u);
        }
      }
      PopOfOption(i, x, s);
    case VecS(e) =>
      forall j | 0 <= j < |x.items| ensures PopsTo(e, ToValue(x.items[j]), x.items[j]) {
        forall u ensures PopAs(Corrected, e, u + [ToValue(x.items[j])]) == Done(Ok(x.items[j]), u) {
          PopOfValue(e, x.items[j], u);
        }
      }
      PopOfVec(e, x.items, s);
    case MapS(k, v) =>
      forall j | 0 <= j < |x.pairs| ensures PopsTo(k, ToValue(x.pairs[j].0), x.pairs[j].0) && PopsTo(v, ToValue(x.pairs[j].1), x.pairs[j].1) {
        forall u ensures PopAs(Corrected, k, u + [ToValue(x.pairs[j].0)]) == Done(Ok(x.pairs[j].0), u) {
          PopOfValue(k, x.pairs[j].0, u);
        }
        forall u ensures PopAs(Corrected, v, u + [ToValue(x.pairs[j].1)]) == Done(Ok(x.pairs[j].1), u) {
          PopOfValue(v, x.pairs[j].1, u);
        }
      }
      PopOfMap(k, v, x.pairs, s);
    case _ =>
      PopOfScalar(sh, x, s);
  }

  /** The scalar cases of `PopOfValue`: a unit, a boolean, an integer of a
      width that holds it, a float, a valid UTF-8 string. */
  lemma PopOfScalar(sh: Shape, x: Native, s: Stack)
    requires sh.UnitS? || sh.BoolS? || sh.IntS? || sh.FloatS? || sh.StrS?
    requires RoundTrips(sh) && HasShape(x, sh)
    ensures PopAs(Corrected, sh, s + [ToValue(x)]) == Done(Ok(x), s)
  {
    var t := s + [ToValue(x)];
    assert t[..|s|] == s;
    match sh
    case UnitS =>
    case BoolS =>
      assert TypeOf(t[|t| - 1]) == ExpectedTag(sh);
      ScalarPopCorrected(sh, t);
    case IntS(w) =>
      assert TypeOf(t[|t| - 1]) == ExpectedTag(sh);
      ScalarPopCorrected(sh, t);
      WrapRoundTrip(x.n, w);
    case FloatS =>
      assert TypeOf(t[|t| - 1]) == ExpectedTag(sh);
      ScalarPopCorrected(sh, t);
    case StrS =>
      assert TypeOf(t[|t| - 1]) == ExpectedTag(sh);
      ScalarPopCorrected(sh, t);
      LossyOfValid(x.bytes);
  }

  /** The option case of `PopOfValue`, given that the inner value pops
      back. */
  lemma PopOfOption(i: Shape, x: Native, s: Stack)
    requires RoundTrips(OptS(i)) && HasShape(x, OptS(i))
    requires x.NSome? ==> PopsTo(i, ToValue(x.some), x.some)
    ensures PopAs(Corrected, OptS(i), s + [ToValue(x)]) == Done(Ok(x), s)
  {
    var t := s + [ToValue(x)];
    assert t[..|s|] == s;
    OptionPopCorrected(i, t);
    if x.NSome? {
      SlotNotNil(i, x.some);
    }
  }

  /** The vector case of `PopOfValue`, given that every element pops back. */
  lemma PopOfVec(e: Shape, items: seq<Native>, s: Stack)
    requires RoundTrips(VecS(e)) && HasShape(NVec(items), VecS(e)) && Small(NVec(items))
    requires forall j :: 0 <= j < |items| ==> PopsTo(e, ToValue(items[j]), items[j])
    ensures PopAs(Corrected, VecS(e), s + [ToValue(NVec(items))]) == Done(Ok(NVec(items)), s)
  {
    VecTableOfItems(e, items);
    VecPopsTable(e, FillVec(items, |items|), items, s);
  }

  /** The table a vector pushed holds its elements under the keys 1, 2, …
      in order, and they are what pops back. */
  lemma VecTableOfItems(e: Shape, items: seq<Native>)
    requires RoundTrips(VecS(e)) && HasShape(NVec(items), VecS(e)) && Small(NVec(items))
    requires forall j :: 0 <= j < |items| ==> PopsTo(e, ToValue(items[j]), items[j])
    ensures |FillVec(items, |items|)| == |items| && Walkable(FillVec(items, |items|))
    ensures forall j :: 0 <= j < |items| ==> PopsTo(e, FillVec(items, |items|)[j].val, items[j])
  {
    var es := FillVec(items, |items|);
    forall j | 0 <= j < |items| ensures ToValue(items[j]) != Nil {
      SlotNotNil(e, items[j]);
    }
    VecEntries(items, |items|);
    assert VecFilled(items, |items|, es);
    forall j | 0 <= j < |es| ensures es[j].key != Nil && PopsTo(e, es[j].val, items[j]) {
      assert es[j] == Entry(Num(j + 1), ToValue(items[j]));
    }
  }

  /** The map case of `PopOfValue`, given that every key and value pops
      back. */
  lemma PopOfMap(k: Shape, v: Shape, pairs: seq<(Native, Native)>, s: Stack)
    requires RoundTrips(MapS(k, v)) && HasShape(NMap(pairs), MapS(k, v))
    requires forall j :: 0 <= j < |pairs| ==> PopsTo(k, ToValue(pairs[j].0), pairs[j].0) && PopsTo(v, ToValue(pairs[j].1), pairs[j].1)
    ensures PopAs(Corrected, MapS(k, v), s + [ToValue(NMap(pairs))]) == Done(Ok(NMap(pairs)), s)
  {
    MapTableOfPairs(k, v, pairs);
    MapPopsDistinct(k, v, FillMap(pairs, |pairs|), pairs, s);
  }

  /** The table a map pushed holds its pairs in order, under distinct
      non-nil keys, and they are what pops back. */
  lemma MapTableOfPairs(k: Shape, v: Shape, pairs: seq<(Native, Native)>)
    requires RoundTrips(MapS(k, v)) && HasShape(NMap(pairs), MapS(k, v))
    requires forall j :: 0 <= j < |pairs| ==> PopsTo(k, ToValue(pairs[j].0), pairs[j].0) && PopsTo(v, ToValue(pairs[j].1), pairs[j].1)
    ensures |FillMap(pairs, |pairs|)| == |pairs| && Walkable(FillMap(pairs, |pairs|))
    ensures forall j :: 0 <= j < |pairs| ==>
      PopsTo(k, FillMap(pairs, |pairs|)[j].key, pairs[j].0) && PopsTo(v, FillMap(pairs, |pairs|)[j].val, pairs[j].1)
  {
    var es := FillMap(pairs, |pairs|);
    MapEntries(k, v, pairs, |pairs|);
    assert MapFilled(pairs, |pairs|, es);
    forall j | 0 <= j < |pairs| ensures es[j].key != Nil && es[j] == Entry(ToValue(pairs[j].0), ToValue(pairs[j].1)) {
      SlotNotNil(k, pairs[j].0);
    }
  }

  /** `pop_rev!` over the values a tuple pushed: the first `n` parts come
      back in declared order, the last one popped first. */
  lemma {:induction false} PopRevOfValues(es: seq<Shape>, parts: seq<Native>, n: nat, s: Stack)
    requires |parts| == |es| && n <= |es|
    requires forall j :: 0 <= j < |es| ==> PopsTo(es[j], ToValue(parts[j]), parts[j])
    ensures PopRev(Corrected, es, n, s + ValuesOf(parts[..n])) == Done(Ok(parts[..n]), s)
    decreases n
  {
    if n == 0 {
      assert s + ValuesOf(parts[..0]) == s;
    } else {
      var base := s + ValuesOf(parts[..n - 1]);
      assert parts[..n] == parts[..n - 1] + [parts[n - 1]];
      ValuesOfSnoc(parts[..n - 1], parts[n - 1]);
      assert s + ValuesOf(parts[..n]) == base + [ToValue(parts[n - 1])];
      assert PopsTo(es[n - 1], ToValue(parts[n - 1]), parts[n - 1]);
      PopRevOfValues(es, parts, n - 1, s);
      PopRevStep(Corrected, es, n, s + ValuesOf(parts[..n]), parts[n - 1], base, parts[..n - 1], s);
    }
  }

  /** A value of a round-tripping shape is nested: flat, or a tuple of
      nested values. */
  lemma {:induction false} RoundTripsNested(sh: Shape, x: Native)
    requires RoundTrips(sh) && HasShape(x, sh)
    ensures Nested(x)
    decreases sh
  {
    if sh.TupleS? {
      forall j | 0 <= j < |x.parts| ensures Nested(x.parts[j]) {
        RoundTripsNested(sh.elems[j], x.parts[j]);
      }
    } else {
      RoundTripsFlat(sh, x);
    }
  }

  /** `x`'s slots, on top of any stack, pop back as `x` under the corrected
      guard and leave that stack. */
  ghost predicate PopsSlots(sh: Shape, x: Native)
  {
    forall t {:trigger PopAs(Corrected, sh, t + Slots(x))} :: PopAs(Corrected, sh, t + Slots(x)) == Done(Ok(x), t)
  }

  /** `pop_rev!` over the slots of a tuple's first `n` parts gives those
      parts back in declared order, whatever each part's slot count. */
  lemma {:induction false} PopRevOfSlots(es: seq<Shape>, parts: seq<Native>, n: nat, s: Stack)
    requires |parts| == |es| && n <= |es|
    requires forall j :: 0 <= j < |es| ==> PopsSlots(es[j], parts[j])
    ensures PopRev(Corrected, es, n, s + SlotsOf(parts, n)) == Done(Ok(parts[..n]), s)
    decreases n
  {
    if n == 0 {
      assert s + SlotsOf(parts, 0) == s;
    } else {
      var base := s + SlotsOf(parts, n - 1);
      assert s + SlotsOf(parts, n) == base + Slots(parts[n - 1]);
      assert PopsSlots(es[n - 1], parts[n - 1]);
      assert PopAs(Corrected, es[n - 1], base + Slots(parts[n - 1])) == Done(Ok(parts[n - 1]), base);
      PopRevOfSlots(es, parts, n - 1, s);
      assert parts[..n] == parts[..n - 1] + [parts[n - 1]];
      PopRevStep(Corrected, es, n, s + SlotsOf(parts, n), parts[n - 1], base, parts[..n - 1], s);
    }
  }

  /** The slots any round-tripping value pushes, tuples of tuples included,
      pop back as that value and leave the stack below them. */
  lemma {:induction false} PopOfSlots(sh: Shape, x: Native, s: Stack)
    requires RoundTrips(sh) && HasShape(x, sh) && Small(x)
    ensures PopAs(Corrected, sh, s + Slots(x)) == Done(Ok(x), s)
    decreases sh
  {
    if sh.TupleS? {
      var es := sh.elems;
      var parts := x.parts;
      forall j | 0 <= j < |es| ensures PopsSlots(es[j], parts[j]) {
        forall u ensures PopAs(Corrected, es[j], u + Slots(parts[j])) == Done(Ok(parts[j]), u) {
          PopOfSlots(es[j], parts[j], u);
        }
      }
      PopRevOfSlots(es, parts, |es|, s);
      assert parts[..|es|] == parts;
    } else {
      PopOfValue(sh, x, s);
    }
  }

  /** Push then pop is the identity under the corrected guard: the value
      comes back unchanged and the stack is exactly as it was before the
      push. */
  lemma RoundTrip(sh: Shape, x: Native, s: Stack)
    requires RoundTrips(sh) && HasShape(x, sh) && Small(x)
    ensures Pushable(sh) && PushAs(x, s).Done?
    ensures PopAs(Corrected, sh, PushAs(x, s).stack) == Done(Ok(x), s)
  {
    RoundTripsPushable(sh);
    RoundTripsNested(sh, x);
    PushNested(x, s);
    PopOfSlots(sh, x, s);
  }

  /** `Some(None)` of `Option<Option<bool>>` pushes nil, which pops back as
      `None`: an option whose inner value pushes nil does not round-trip. */
  lemma SomeNoneComesBackNone(s: Stack)
    ensures PushAs(NSome(NNone), s) == Done(1, s + [Nil])
    ensures PopAs(Corrected, OptS(OptS(BoolS)), s + [Nil]) == Done(Ok(NNone), s)
  {
    OptionPopCorrected(OptS(BoolS), s + [Nil]);
    assert (s + [Nil])[..|s + [Nil]| - 1] == s;
  }

  /** `vec![()]` pushes an empty table, which pops back as an empty vector:
      a vector whose elements push nil does not round-trip. */
  lemma UnitVecComesBackEmpty(s: Stack)
    ensures PushAs(NVec([NUnit]), s) == Done(1, s + [Table([])])
    ensures PopAs(Corrected, VecS(UnitS), s + [Table([])]) == Done(Ok(NVec([])), s)
  {
    VecOfNilsIsEmpty([NUnit], s);
    VecPopsTable(UnitS, [], [], s);
  }

  /** The tuple `((true, false),)` round-trips. */
  lemma NestedTupleRoundTrips(s: Stack)
    ensures var sh := TupleS([TupleS([BoolS, BoolS])]);
      var x := NTuple([NTuple([NBool(true), NBool(false)])]);
      PopAs(Corrected, sh, PushAs(x, s).stack) == Done(Ok(x), s)
  {
    var sh := TupleS([TupleS([BoolS, BoolS])]);
    var x := NTuple([NTuple([NBool(true), NBool(false)])]);
    assert RoundTrips(TupleS([BoolS, BoolS]));
    assert RoundTrips(sh) && HasShape(x, sh) && Small(x);
    RoundTrip(sh, x, s);
  }

  /** Under the guard as written, the same round trip never gives a value
      back for a guarded type. */
  lemma RoundTripAsWrittenFails(sh: Shape, x: Native, s: Stack)
    requires RoundTrips(sh) && GuardedShape(sh) && HasShape(x, sh) && Small(x)
    ensures Pushable(sh) && PushAs(x, s).Done?
    ensures var o := PopAs(AsWritten, sh, PushAs(x, s).stack);
      !(o.Done? && o.value.Ok?)
  {
    RoundTrip(sh, x, s);
    RoundTripsIsShapeOk(sh);
    AsWrittenNeverSucceeds(sh, PushAs(x, s).stack);
  }
}
