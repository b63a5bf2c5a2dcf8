/**
 What `Vec::pop` and `HashMap::pop` make of any table, under the corrected
 guard: the `lua_next` walk visits the entries in table order, a `Vec` keeps
 the popped values and drops the keys, a `HashMap` inserts each popped pair.
 The tables are those Lua can hold: distinct keys, none of them nil.
 */
module TableWalk {
  import opened Wrappers
  import opened Ffi
  import opened Errors
  import opened Guard
  import opened Marshal
  import opened PopProtocol
  import opened PopSpec
  import opened Seqs

  /** Popping `v` as `sh` gives `x` and consumes exactly `v`, on any stack
      below it. */
  ghost predicate PopsTo(sh: Shape, v: Value, x: Native)
  {
    forall t {:trigger PopAs(Corrected, sh, t + [v])} :: PopAs(Corrected, sh, t + [v]) == Done(Ok(x), t)
  }

  /** A table Lua can hold: no key twice, no nil key. */
  predicate Walkable(es: seq<Entry>)
  {
    Ffi.DistinctKeys(es) && forall j :: 0 <= j < |es| ==> es[j].key != Nil
  }

  /** The key `lua_next` is resumed from after `q` entries: nil at the start,
      the last key visited otherwise. */
  function KeyAfter(es: seq<Entry>, q: nat): Value
    requires q <= |es|
  {
    if q == 0 then Nil else es[q - 1].key
  }

  /** `lua_next` resumed after `q` entries of a table Lua can hold pushes
      entry `q`, or ends the walk after the last one. */
  lemma Resume(es: seq<Entry>, s: Stack, q: nat)
    requires Walkable(es) && q <= |es|
    ensures Next(s + [Table(es), KeyAfter(es, q)], -2) ==
      if q == |es| then NextDone(s + [Table(es)])
      else NextPair(s + [Table(es), es[q].key, es[q].val])
  {
    var key := KeyAfter(es, q);
    assert ResumeAt(es, key) == Some(q) by {
      if q > 0 {
        KeyPosFirst(es, key);
        assert KeyPos(es, key) == Some(q - 1);
      }
    }
    NextBelowTop(s, es, key);
  }

  // ---------------------------------------------------------------------------
  // Vec

  /** Where the walk of `Vec::pop` stands after `q` entries: the values read
      so far, enough fuel for the rest. */
  ghost predicate VecWalkAt(e: Shape, es: seq<Entry>, xs: seq<Native>, q: nat, acc: seq<Native>, fuel: nat)
  {
    VecSource(e, es, xs) && q <= |es| && fuel >= |es| - q && acc == xs[..q]
  }

  /** A table Lua can hold whose values pop as the elements `xs`. */
  ghost predicate VecSource(e: Shape, es: seq<Entry>, xs: seq<Native>)
  {
    && |xs| == |es| && Walkable(es)
    && forall j :: 0 <= j < |es| ==> PopsTo(e, es[j].val, xs[j])
  }

  /** The walk of `Vec::pop` resumed after `q` entries pops the remaining
      values in table order and then the table. */
  lemma {:induction false} VecWalkFrom(e: Shape, es: seq<Entry>, xs: seq<Native>, s: Stack, q: nat, acc: seq<Native>, fuel: nat)
    requires VecWalkAt(e, es, xs, q, acc, fuel)
    ensures VecWalk(Corrected, e, acc, s + [Table(es), KeyAfter(es, q)], fuel) == Done(Ok(NVec(xs)), s)
    decreases |es| - q
  {
    if q == |es| {
      VecWalkLast(e, es, xs, s, q, acc, fuel);
    } else {
      VecWalkNext(e, es, xs, s, q, acc, fuel);
      VecWalkFrom(e, es, xs, s, q + 1, acc + [xs[q]], fuel - 1);
    }
  }

  lemma VecWalkLast(e: Shape, es: seq<Entry>, xs: seq<Native>, s: Stack, q: nat, acc: seq<Native>, fuel: nat)
    requires VecWalkAt(e, es, xs, q, acc, fuel) && q == |es|
    ensures VecWalk(Corrected, e, acc, s + [Table(es), KeyAfter(es, q)], fuel) == Done(Ok(NVec(xs)), s)
  {
    TakeAll(xs);
    Resume(es, s, q);
    assert (s + [Table(es)])[..|s|] == s;
    VecWalkEnd(Corrected, e, acc, s + [Table(es), KeyAfter(es, q)], s + [Table(es)], fuel);
  }

  lemma VecWalkNext(e: Shape, es: seq<Entry>, xs: seq<Native>, s: Stack, q: nat, acc: seq<Native>, fuel: nat)
    requires VecWalkAt(e, es, xs, q, acc, fuel) && q < |es|
    ensures fuel > 0 && VecWalkAt(e, es, xs, q + 1, acc + [xs[q]], fuel - 1)
    ensures VecWalk(Corrected, e, acc, s + [Table(es), KeyAfter(es, q)], fuel)
      == VecWalk(Corrected, e, acc + [xs[q]], s + [Table(es), KeyAfter(es, q + 1)], fuel - 1)
  {
    TakeSnoc(xs, q);
    var t1 := s + [Table(es), es[q].key];
    Resume(es, s, q);
    assert PopsTo(e, es[q].val, xs[q]);
    VecWalkStep(Corrected, e, acc, s + [Table(es), KeyAfter(es, q)], t1 + [es[q].val], xs[q], t1, fuel);
  }

  /** `Vec::pop` of a table whose values pop as the elements `xs`: the
      vector of those values in table order, the keys dropped, and the table
      consumed. */
  lemma VecPopsTable(e: Shape, es: seq<Entry>, xs: seq<Native>, s: Stack)
    requires |xs| == |es| && Walkable(es)
    requires forall j :: 0 <= j < |es| ==> PopsTo(e, es[j].val, xs[j])
    ensures PopAs(Corrected, VecS(e), s + [Table(es)]) == Done(Ok(NVec(xs)), s)
  {
    assert xs[..0] == [];
    VecWalkFrom(e, es, xs, s, 0, [], |es|);
    VecTableWalked(e, es, s, NVec(xs));
  }

  /** A guarded `Vec` pop whose walk yields `x` and leaves the stack below
      the table yields `x` and that stack. */
  lemma VecTableWalked(e: Shape, es: seq<Entry>, s: Stack, x: Native)
    requires VecWalk(Corrected, e, [], s + [Table(es), Nil], |es|) == Done(Ok(x), s)
    ensures PopAs(Corrected, VecS(e), s + [Table(es)]) == Done(Ok(x), s)
  {
    VecBodyOfTable(e, es, s);
    PopAsVec(e, s + [Table(es)]);
  }

  lemma PopAsVec(e: Shape, t: Stack)
    requires |t| >= 1 && VecBody(Corrected, e, t).Done? && |VecBody(Corrected, e, t).stack| == |t| - 1
    ensures PopAs(Corrected, VecS(e), t) == VecBody(Corrected, e, t)
  {
    GuardedBalanced(t, VecBody(Corrected, e, t));
  }

  lemma VecBodyOfTable(e: Shape, es: seq<Entry>, s: Stack)
    ensures VecBody(Corrected, e, s + [Table(es)]) == VecWalk(Corrected, e, [], s + [Table(es), Nil], |es|)
  {
    var t := s + [Table(es)];
    assert Type(t, -1) == TTable;
    assert PushNil(t) == s + [Table(es), Nil];
  }

  /** A guarded scope that consumes exactly the value on top keeps its
      result under the corrected rule. */
  lemma GuardedBalanced(t: Stack, body: Outcome<Result<Native, Error>>)
    requires |t| >= 1 && body.Done? && |body.stack| == |t| - 1
    ensures Guarded(Corrected, t, body) == body
  {
    assert PopBaseline(Corrected, t) == Ok(StackGuard(|t| - 1));
    CorrectedBalancedScope(StackGuard(|t| - 1), body);
  }

  // ---------------------------------------------------------------------------
  // HashMap

  /** Where the walk of `HashMap::pop` stands after `q` entries: the map
      built from the pairs read so far, enough fuel for the rest. */
  ghost predicate MapWalkAt(k: Shape, v: Shape, es: seq<Entry>, ps: seq<(Native, Native)>, q: nat,
                            acc: seq<(Native, Native)>, fuel: nat)
  {
    MapSource(k, v, es, ps) && q <= |es| && fuel >= |es| - q && acc == Collect(ps[..q])
  }

  /** A table Lua can hold whose keys and values pop as the pairs `ps`. */
  ghost predicate MapSource(k: Shape, v: Shape, es: seq<Entry>, ps: seq<(Native, Native)>)
  {
    && |ps| == |es| && Walkable(es)
    && (forall j :: 0 <= j < |es| ==> PopsTo(k, es[j].key, ps[j].0) && PopsTo(v, es[j].val, ps[j].1))
  }

  /** The walk of `HashMap::pop` resumed after `q` entries inserts the
      remaining pairs in table order and then pops the table. */
  lemma {:induction false} MapWalkFrom(k: Shape, v: Shape, es: seq<Entry>, ps: seq<(Native, Native)>, s: Stack, q: nat,
                                       acc: seq<(Native, Native)>, fuel: nat)
    requires MapWalkAt(k, v, es, ps, q, acc, fuel)
    ensures MapWalk(Corrected, k, v, acc, s + [Table(es), KeyAfter(es, q)], fuel) == Done(Ok(NMap(Collect(ps))), s)
    decreases |es| - q
  {
    if q == |es| {
      MapWalkLast(k, v, es, ps, s, q, acc, fuel);
    } else {
      MapWalkNext(k, v, es, ps, s, q, acc, fuel);
      MapWalkFrom(k, v, es, ps, s, q + 1, Collect(ps[..q + 1]), fuel - 1);
    }
  }

  lemma MapWalkLast(k: Shape, v: Shape, es: seq<Entry>, ps: seq<(Native, Native)>, s: Stack, q: nat,
                    acc: seq<(Native, Native)>, fuel: nat)
    requires MapWalkAt(k, v, es, ps, q, acc, fuel) && q == |es|
    ensures MapWalk(Corrected, k, v, acc, s + [Table(es), KeyAfter(es, q)], fuel) == Done(Ok(NMap(Collect(ps))), s)
  {
    TakeAll(ps);
    Resume(es, s, q);
    assert (s + [Table(es)])[..|s|] == s;
    MapWalkEnd(Corrected, k, v, acc, s + [Table(es), KeyAfter(es, q)], s + [Table(es)], fuel);
  }

  lemma MapWalkNext(k: Shape, v: Shape, es: seq<Entry>, ps: seq<(Native, Native)>, s: Stack, q: nat,
                    acc: seq<(Native, Native)>, fuel: nat)
    requires MapWalkAt(k, v, es, ps, q, acc, fuel) && q < |es|
    ensures fuel > 0 && MapWalkAt(k, v, es, ps, q + 1, Collect(ps[..q + 1]), fuel - 1)
    ensures MapWalk(Corrected, k, v, acc, s + [Table(es), KeyAfter(es, q)], fuel)
      == MapWalk(Corrected, k, v, Collect(ps[..q + 1]), s + [Table(es), KeyAfter(es, q + 1)], fuel - 1)
  {
    CollectSnoc(ps, q);
    Resume(es, s, q);
    var t2 := s + [Table(es), es[q].key];
    assert PopsTo(v, es[q].val, ps[q].1);
    assert PopsTo(k, es[q].key, ps[q].0);
    assert t2[|t2| - 1] == es[q].key;
    MapWalkStep(Corrected, k, v, acc, s + [Table(es), KeyAfter(es, q)], t2 + [es[q].val], ps[q].1, t2, ps[q].0, t2, fuel);
  }

  /** One more pair read is one more insertion. */
  lemma CollectSnoc(ps: seq<(Native, Native)>, q: nat)
    requires q < |ps|
    ensures Collect(ps[..q + 1]) == Insert(Collect(ps[..q]), ps[q].0, ps[q].1)
  {
    assert ps[..q + 1][..q] == ps[..q];
  }

  /** `HashMap::pop` of a table whose keys and values pop as the pairs `ps`:
      the map built by inserting those pairs in table order (a later key
      equal to an earlier one replaces its value), the table consumed. */
  lemma MapPopsTable(k: Shape, v: Shape, es: seq<Entry>, ps: seq<(Native, Native)>, s: Stack)
    requires |ps| == |es| && Walkable(es)
    requires forall j :: 0 <= j < |es| ==> PopsTo(k, es[j].key, ps[j].0) && PopsTo(v, es[j].val, ps[j].1)
    ensures PopAs(Corrected, MapS(k, v), s + [Table(es)]) == Done(Ok(NMap(Collect(ps))), s)
  {
    assert ps[..0] == [];
    MapWalkFrom(k, v, es, ps, s, 0, [], |es|);
    MapTableWalked(k, v, es, s, NMap(Collect(ps)));
  }

  /** A guarded `HashMap` pop whose walk yields `x` and leaves the stack
      below the table yields `x` and that stack. */
  lemma MapTableWalked(k: Shape, v: Shape, es: seq<Entry>, s: Stack, x: Native)
    requires MapWalk(Corrected, k, v, [], s + [Table(es), Nil], |es|) == Done(Ok(x), s)
    ensures PopAs(Corrected, MapS(k, v), s + [Table(es)]) == Done(Ok(x), s)
  {
    MapBodyOfTable(k, v, es, s);
    PopAsMap(k, v, s + [Table(es)]);
  }

  lemma PopAsMap(k: Shape, v: Shape, t: Stack)
    requires |t| >= 1 && MapBody(Corrected, k, v, t).Done? && |MapBody(Corrected, k, v, t).stack| == |t| - 1
    ensures PopAs(Corrected, MapS(k, v), t) == MapBody(Corrected, k, v, t)
  {
    GuardedBalanced(t, MapBody(Corrected, k, v, t));
  }

  lemma MapBodyOfTable(k: Shape, v: Shape, es: seq<Entry>, s: Stack)
    ensures MapBody(Corrected, k, v, s + [Table(es)]) == MapWalk(Corrected, k, v, [], s + [Table(es), Nil], |es|)
  {
    var t := s + [Table(es)];
    assert Type(t, -1) == TTable;
    assert PushNil(t) == s + [Table(es), Nil];
  }

  /** When the pairs' keys are distinct, `HashMap::pop` gives back exactly
      those pairs, in table order. */
  lemma MapPopsDistinct(k: Shape, v: Shape, es: seq<Entry>, ps: seq<(Native, Native)>, s: Stack)
    requires |ps| == |es| && Walkable(es) && Marshal.DistinctKeys(ps)
    requires forall j :: 0 <= j < |es| ==> PopsTo(k, es[j].key, ps[j].0) && PopsTo(v, es[j].val, ps[j].1)
    ensures PopAs(Corrected, MapS(k, v), s + [Table(es)]) == Done(Ok(NMap(ps)), s)
  {
    MapPopsTable(k, v, es, ps, s);
    CollectDistinct(ps);
  }
}
