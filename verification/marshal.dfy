/**
 The closed set of Rust types the `Pop` and `Push` traits are implemented for
 (luajit/src/pop.rs, luajit/src/push.rs), as shapes, and Rust values of those
 types, as natives. `LuaInteger` is `isize`, taken to be 64 bits wide.
 */
module Marshal {
  import opened Utf8

  datatype IntWidth = I8 | U8 | I16 | U16 | I32 | U32 | I64 | U64 | ISize | USize

  function Bits(w: IntWidth): nat
  {
    match w
    case I8 => 8
    case U8 => 8
    case I16 => 16
    case U16 => 16
    case I32 => 32
    case U32 => 32
    case _ => 64
  }

  predicate Signed(w: IntWidth)
  {
    w.I8? || w.I16? || w.I32? || w.I64? || w.ISize?
  }

  function Pow2(k: nat): (r: nat)
    ensures r >= 1
  {
    if k == 0 then 1 else 2 * Pow2(k - 1)
  }

  function Modulus(w: IntWidth): (m: nat)
    ensures m >= 256 && m % 2 == 0
  {
    match w
    case I8 => 0x100
    case U8 => 0x100
    case I16 => 0x1_0000
    case U16 => 0x1_0000
    case I32 => 0x1_0000_0000
    case U32 => 0x1_0000_0000
    case _ => 0x1_0000_0000_0000_0000
  }

  lemma ModulusIsPow2(w: IntWidth)
    ensures Modulus(w) == Pow2(Bits(w))
  {
    if Bits(w) == 8 {
      assert Pow2(8) == 0x100;
    } else if Bits(w) == 16 {
      assert Pow2(8) == 0x100;
      assert Pow2(16) == 0x1_0000;
    } else if Bits(w) == 32 {
      assert Pow2(8) == 0x100;
      assert Pow2(16) == 0x1_0000;
      assert Pow2(24) == 0x100_0000;
      assert Pow2(32) == 0x1_0000_0000;
    } else {
      assert Pow2(8) == 0x100;
      assert Pow2(16) == 0x1_0000;
      assert Pow2(24) == 0x100_0000;
      assert Pow2(32) == 0x1_0000_0000;
      assert Pow2(40) == 0x100_0000_0000;
      assert Pow2(48) == 0x1_0000_0000_0000;
      assert Pow2(56) == 0x100_0000_0000_0000;
      assert Pow2(64) == 0x1_0000_0000_0000_0000;
    }
  }

  function MinOf(w: IntWidth): int
  {
    if Signed(w) then -(Modulus(w) / 2) else 0
  }

  function MaxOf(w: IntWidth): int
  {
    if Signed(w) then Modulus(w) / 2 - 1 else Modulus(w) - 1
  }

  predicate InRange(n: int, w: IntWidth)
  {
    MinOf(w) <= n <= MaxOf(w)
  }

  /** Rust's `as` cast into width `w`: keep the low `Bits(w)` bits, read them
      in two's complement when `w` is signed. It never fails. */
  function Wrap(n: int, w: IntWidth): (r: int)
    ensures InRange(r, w)
    ensures InRange(n, w) ==> r == n
  {
    var m := Modulus(w);
    if Signed(w) then
      var r := (n + m / 2) % m - m / 2;
      WrapFacts(n + m / 2, m);
      r
    else
      WrapFacts(n, m);
      n % m
  }

  lemma WrapFacts(x: int, m: int)
    requires m > 0
    ensures 0 <= x < m ==> x % m == x
  {
    if 0 <= x < m {
      assert x / m == 0;
    }
  }

  /** The cast keeps `n` modulo 2^`Bits(w)`: the result differs from `n` by
      a multiple of the modulus, and it is the only value in range that does. */
  lemma WrapCongruent(n: int, w: IntWidth)
    ensures (Wrap(n, w) - n) % Modulus(w) == 0
    ensures forall r :: InRange(r, w) && (r - n) % Modulus(w) == 0 ==> r == Wrap(n, w)
  {
    var m := Modulus(w);
    var x := if Signed(w) then n + m / 2 else n;
    assert Wrap(n, w) - n == x % m - x;
    ResidueOf(x, m);
    forall r | InRange(r, w) && (r - n) % m == 0 ensures r == Wrap(n, w) {
      ResidueUnique(r, Wrap(n, w), n, m, MinOf(w));
    }
  }

  /** The moduli of the integer widths. */
  predicate WidthModulus(m: int)
  {
    m == 0x100 || m == 0x1_0000 || m == 0x1_0000_0000 || m == 0x1_0000_0000_0000_0000
  }

  lemma ResidueOf(x: int, m: int)
    requires WidthModulus(m)
    ensures (x % m - x) % m == 0
  {
  }

  /** Two values in one window of width `m` that are congruent to `n` are
      equal. */
  lemma ResidueUnique(a: int, b: int, n: int, m: int, lo: int)
    requires WidthModulus(m) && lo <= a < lo + m && lo <= b < lo + m
    requires (a - n) % m == 0 && (b - n) % m == 0
    ensures a == b
  {
  }

  /** `LuaInteger` is `isize`. */
  const LuaInt: IntWidth := ISize

  /** Casting into a width and back into `isize` is the identity on values of
      that width: nothing is lost. */
  lemma WrapRoundTrip(n: int, w: IntWidth)
    requires InRange(n, w)
    ensures Wrap(Wrap(n, LuaInt), w) == n
  {
    var a := Wrap(n, LuaInt);
    if !InRange(n, LuaInt) {
      // Only u64 and usize values above isize::MAX get here: they wrap
      // negative going in and wrap back coming out.
      assert w.U64? || w.USize?;
      var m := Modulus(LuaInt);
      assert m / 2 <= n < m;
      assert (n + m / 2) / m == 1;
      assert a == n - m;
      assert a / m == -1;
      assert a % m == n;
    }
  }

  /** The shape of a marshallable Rust type. `FloatS` stands for both `f64`
      (`LuaNumber`) and `f32`. */
  datatype Shape =
    | UnitS
    | BoolS
    | IntS(width: IntWidth)
    | FloatS
    | StrS
    | OptS(inner: Shape)
    | VecS(elem: Shape)
    | MapS(key: Shape, val: Shape)
    | TupleS(elems: seq<Shape>)

  /** A Rust value. A `HashMap` is its entries in its iteration order; a
      float is known only by its truncation towards zero. */
  datatype Native =
    | NUnit
    | NBool(b: bool)
    | NInt(n: int)
    | NFloat(trunc: int)
    | NStr(bytes: seq<byte>)
    | NNone
    | NSome(some: Native)
    | NVec(items: seq<Native>)
    | NMap(pairs: seq<(Native, Native)>)
    | NTuple(parts: seq<Native>)

  /** The tuple implementations exist for arities 1 to 26. */
  const MaxArity: nat := 26

  /** Shapes that have a `Pop` implementation. */
  predicate ShapeOk(sh: Shape)
  {
    match sh
    case OptS(i) => ShapeOk(i)
    case VecS(e) => ShapeOk(e)
    case MapS(k, v) => ShapeOk(k) && ShapeOk(v)
    case TupleS(es) => 1 <= |es| <= MaxArity && forall i :: 0 <= i < |es| ==> ShapeOk(es[i])
    case _ => true
  }

  /** Shapes that also have a `Push` implementation: there is no `i32` one. */
  predicate Pushable(sh: Shape)
  {
    match sh
    case IntS(w) => w != I32
    case OptS(i) => Pushable(i)
    case VecS(e) => Pushable(e)
    case MapS(k, v) => Pushable(k) && Pushable(v)
    case TupleS(es) => 1 <= |es| <= MaxArity && forall i :: 0 <= i < |es| ==> Pushable(es[i])
    case _ => true
  }

  predicate DistinctKeys(ps: seq<(Native, Native)>)
  {
    forall i, j :: 0 <= i < j < |ps| ==> ps[i].0 != ps[j].0
  }

  /** `x` is a value of the Rust type `sh` stands for. */
  predicate HasShape(x: Native, sh: Shape)
  {
    match sh
    case UnitS => x.NUnit?
    case BoolS => x.NBool?
    case IntS(w) => x.NInt? && InRange(x.n, w)
    case FloatS => x.NFloat?
    case StrS => x.NStr? && Valid(x.bytes)
    case OptS(i) => x.NNone? || (x.NSome? && HasShape(x.some, i))
    case VecS(e) => x.NVec? && forall i :: 0 <= i < |x.items| ==> HasShape(x.items[i], e)
    case MapS(k, v) =>
      && x.NMap? && DistinctKeys(x.pairs)
      && forall i :: 0 <= i < |x.pairs| ==> HasShape(x.pairs[i].0, k) && HasShape(x.pairs[i].1, v)
    case TupleS(es) =>
      && x.NTuple? && |x.parts| == |es|
      && forall i :: 0 <= i < |es| ==> HasShape(x.parts[i], es[i])
  }

  /** `HashMap::insert`: a present key has its value replaced, a new key is
      added at the end of the iteration order. */
  function Insert(ps: seq<(Native, Native)>, k: Native, v: Native): seq<(Native, Native)>
  {
    if |ps| == 0 then [(k, v)]
    else if ps[0].0 == k then [(k, v)] + RemoveNative(ps[1..], k)
    else [ps[0]] + Insert(ps[1..], k, v)
  }

  function RemoveNative(ps: seq<(Native, Native)>, k: Native): seq<(Native, Native)>
  {
    if |ps| == 0 then []
    else if ps[0].0 == k then RemoveNative(ps[1..], k)
    else [ps[0]] + RemoveNative(ps[1..], k)
  }

  /** Removing a key keeps exactly the pairs with other keys, and keeps the
      keys distinct. */
  lemma {:induction false} RemoveNativeSpec(ps: seq<(Native, Native)>, k: Native)
    ensures forall p :: p in RemoveNative(ps, k) <==> p in ps && p.0 != k
    ensures DistinctKeys(ps) ==> DistinctKeys(RemoveNative(ps, k))
  {
    if |ps| > 0 {
      RemoveNativeSpec(ps[1..], k);
      if ps[0].0 != k {
        var rest := RemoveNative(ps[1..], k);
        assert DistinctKeys(ps) ==> forall p :: p in rest ==> p.0 != ps[0].0 by {
          if DistinctKeys(ps) {
            forall p | p in rest ensures p.0 != ps[0].0 {
              var j :| 0 <= j < |ps[1..]| && ps[1..][j] == p;
              assert ps[j + 1] == p;
            }
          }
        }
      }
    }
  }

  /** `HashMap::insert` as a map update: the new pair is present, pairs with
      other keys are kept and nothing else is added, the key now maps only
      to the new value, and keys stay distinct. */
  lemma {:induction false} InsertSpec(ps: seq<(Native, Native)>, k: Native, v: Native)
    ensures DistinctKeys(ps) ==> DistinctKeys(Insert(ps, k, v))
    ensures (k, v) in Insert(ps, k, v)
    ensures forall p :: p in Insert(ps, k, v) && p.0 != k ==> p in ps
    ensures forall p :: p in ps && p.0 != k ==> p in Insert(ps, k, v)
    ensures forall p :: p in Insert(ps, k, v) && p.0 == k ==> p.1 == v
  {
    if |ps| > 0 {
      if ps[0].0 == k {
        RemoveNativeSpec(ps[1..], k);
      } else {
        InsertSpec(ps[1..], k, v);
      }
    }
  }

  /** Inserting a key that is not yet present appends the pair. */
  lemma InsertFresh(ps: seq<(Native, Native)>, k: Native, v: Native)
    requires forall i :: 0 <= i < |ps| ==> ps[i].0 != k
    ensures Insert(ps, k, v) == ps + [(k, v)]
  {
    if |ps| > 0 {
      InsertFresh(ps[1..], k, v);
      assert ps == [ps[0]] + ps[1..];
    }
  }

  /** The map `HashMap::insert` builds from empty, the pairs inserted in
      order: a later pair with a key already present replaces its value. */
  function Collect(ps: seq<(Native, Native)>): seq<(Native, Native)>
  {
    if |ps| == 0 then [] else Insert(Collect(ps[..|ps| - 1]), ps[|ps| - 1].0, ps[|ps| - 1].1)
  }

  /** What `Collect` builds is a map: no key occurs twice. */
  lemma {:induction false} CollectIsMap(ps: seq<(Native, Native)>)
    ensures DistinctKeys(Collect(ps))
  {
    if |ps| > 0 {
      CollectIsMap(ps[..|ps| - 1]);
      InsertSpec(Collect(ps[..|ps| - 1]), ps[|ps| - 1].0, ps[|ps| - 1].1);
    }
  }

  /** Pairs with distinct keys are all kept, in insertion order. */
  lemma {:induction false} CollectDistinct(ps: seq<(Native, Native)>)
    requires DistinctKeys(ps)
    ensures Collect(ps) == ps
  {
    if |ps| > 0 {
      var init := ps[..|ps| - 1];
      var last := ps[|ps| - 1];
      assert DistinctKeys(init);
      CollectDistinct(init);
      forall i | 0 <= i < |init| ensures init[i].0 != last.0 {
        assert init[i] == ps[i];
      }
      InsertFresh(init, last.0, last.1);
      assert init + [last] == ps;
    }
  }
}
