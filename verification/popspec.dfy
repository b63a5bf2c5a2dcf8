/**
 What the pop protocol does, stated independently of the primitive calls it
 makes: per-shape behaviour under the corrected guard, and what the guard as
 written does to every guarded pop.
 */
module PopSpec {
  import opened Wrappers
  import opened Utf8
  import opened Ffi
  import opened Errors
  import opened Guard
  import opened Marshal
  import opened PopProtocol

  /** The shapes whose pop reads one scalar slot. */
  predicate Scalar(sh: Shape)
  {
    sh.BoolS? || sh.IntS? || sh.FloatS? || sh.StrS?
  }

  /** The shapes whose `Pop` implementation takes a pop guard. */
  predicate GuardedShape(sh: Shape)
  {
    !sh.UnitS? && !sh.TupleS?
  }

  /** Shapes built from `()` alone: a unit, or a tuple whose parts are all
      such shapes. */
  predicate UnitsOnly(sh: Shape)
  {
    match sh
    case UnitS => true
    case TupleS(es) => forall i :: 0 <= i < |es| ==> UnitsOnly(es[i])
    case _ => false
  }

  /** The type tag a scalar pop accepts. */
  function ExpectedTag(sh: Shape): TypeId
    requires Scalar(sh)
  {
    match sh
    case BoolS => TBoolean
    case StrS => TString
    case _ => TNumber
  }

  /** The `expected` text of a mismatch. */
  function Label(sh: Shape): string
  {
    match sh
    case UnitS => "nil"
    case BoolS => "bool"
    case IntS(_) => "int"
    case FloatS => "float"
    case StrS => "string"
    case VecS(_) => "Vec<T>"
    case MapS(_, _) => "HashMap<K, V>"
    case _ => ""
  }

  /** The Rust value a scalar slot of the accepted type reads as: an integer
      goes through `lua_tointeger` and then the `as` cast into its width. */
  function Read(sh: Shape, v: Value): Native
    requires Scalar(sh) && TypeOf(v) == ExpectedTag(sh)
  {
    match sh
    case BoolS => NBool(v.b)
    case IntS(w) => NInt(Wrap(ToInteger(v), w))
    case FloatS => NFloat(ToNumber(v))
    case StrS => NStr(Lossy(v.bytes))
  }

  /** The mismatch error a pop of `sh` reports for a top slot `v`. */
  function MismatchFor(sh: Shape, v: Value): Error
  {
    PopUnexpectedType(Label(sh), Decimal(Code(TypeOf(v))))
  }

  /** A guarded pop of an empty stack panics before anything else happens,
      whichever guard rule is in force. */
  lemma GuardedPopOfEmpty(rule: GuardRule, sh: Shape)
    requires GuardedShape(sh)
    ensures PopAs(rule, sh, []) == Aborted(Panic(UnderflowPanic), [])
  {
  }

  /** `()` pops without a guard: an empty stack or a nil on top is a unit
      (the nil is consumed); anything else is a mismatch labelled "nil" that
      leaves the stack untouched. */
  lemma UnitPopSpec(rule: GuardRule, s: Stack)
    ensures |s| == 0 ==> PopAs(rule, UnitS, s) == Done(Ok(NUnit), s)
    ensures |s| > 0 && s[|s| - 1] == Nil ==> PopAs(rule, UnitS, s) == Done(Ok(NUnit), s[..|s| - 1])
    ensures |s| > 0 && s[|s| - 1] != Nil ==>
      PopAs(rule, UnitS, s) == Done(Err(MismatchFor(UnitS, s[|s| - 1])), s)
  {
  }

  /** With the corrected guard a scalar pop checks the top slot's tag: on a
      match it yields the slot's value, on a mismatch an error naming the
      expected kind and the decimal tag found; in both cases exactly the top
      slot is gone (the guard trims the mismatched one). */
  lemma ScalarPopCorrected(sh: Shape, s: Stack)
    requires Scalar(sh) && |s| >= 1
    ensures var top := s[|s| - 1];
      PopAs(Corrected, sh, s) ==
        if TypeOf(top) == ExpectedTag(sh) then Done(Ok(Read(sh, top)), s[..|s| - 1])
        else Done(Err(MismatchFor(sh, top)), s[..|s| - 1])
  {
  }

  /** A string slot always pops as well-formed UTF-8, whatever its bytes. */
  lemma StringPopIsValid(s: Stack)
    requires |s| >= 1 && s[|s| - 1].Str?
    ensures PopAs(Corrected, StrS, s) == Done(Ok(NStr(Lossy(s[|s| - 1].bytes))), s[..|s| - 1])
    ensures Valid(Lossy(s[|s| - 1].bytes))
  {
    assert TypeOf(s[|s| - 1]) == ExpectedTag(StrS);
    ScalarPopCorrected(StrS, s);
    LossyIsValid(s[|s| - 1].bytes);
  }

  /** The mismatch the source's own naming shows: popping a `String` when a
      boolean is on top reports "string" and the tag "1", not a type name. */
  lemma StringOverBoolean(s: Stack, b: bool)
    ensures PopAs(Corrected, StrS, s + [Bool(b)]) == Done(Err(PopUnexpectedType("string", "1")), s)
    ensures Display(PopUnexpectedType("string", "1")) == "Error popping string: found 1"
  {
    ScalarPopCorrected(StrS, s + [Bool(b)]);
    assert (s + [Bool(b)])[..|s|] == s;
  }

  /** `Option<T>` under the corrected guard: a nil is consumed as `None`; any
      other top is popped by `T` alone (no second pop), and a value `T`
      yields becomes `Some`. */
  lemma OptionPopCorrected(i: Shape, s: Stack)
    requires |s| >= 1
    ensures s[|s| - 1] == Nil ==> PopAs(Corrected, OptS(i), s) == Done(Ok(NNone), s[..|s| - 1])
    ensures (s[|s| - 1] != Nil && PopAs(Corrected, i, s).Done? && PopAs(Corrected, i, s).value.Ok?
      && |PopAs(Corrected, i, s).stack| == |s| - 1) ==>
      PopAs(Corrected, OptS(i), s) == Done(Ok(NSome(PopAs(Corrected, i, s).value.value)), PopAs(Corrected, i, s).stack)
    ensures s[|s| - 1] != Nil && PopAs(Corrected, i, s).Aborted? ==>
      PopAs(Corrected, OptS(i), s) == PopAs(Corrected, i, s)
  {
  }

  /** With the corrected guard, every guarded pop that returns at all, with a
      value or an error, has removed exactly one slot. */
  lemma CorrectedGuardedBalance(sh: Shape, s: Stack)
    requires GuardedShape(sh) && |s| >= 1
    ensures PopAs(Corrected, sh, s).Done? ==> |PopAs(Corrected, sh, s).stack| == |s| - 1
  {
  }

  // ---------------------------------------------------------------------------
  // Single steps of the walks

  /** A `Vec` walk step: `lua_next` found a pair and its value popped. */
  lemma VecWalkStep(rule: GuardRule, e: Shape, acc: seq<Native>, t: Stack, t1: Stack, x: Native, t2: Stack, fuel: nat)
    requires Next(t, -2) == NextPair(t1) && fuel > 0
    requires PopAs(rule, e, t1) == Done(Ok(x), t2)
    ensures VecWalk(rule, e, acc, t, fuel) == VecWalk(rule, e, acc + [x], t2, fuel - 1)
  {
  }

  /** The end of a `Vec` walk: the table is popped and the elements read so
      far are the vector. */
  lemma VecWalkEnd(rule: GuardRule, e: Shape, acc: seq<Native>, t: Stack, t1: Stack, fuel: nat)
    requires Next(t, -2) == NextDone(t1) && |t1| >= 1
    ensures VecWalk(rule, e, acc, t, fuel) == Done(Ok(NVec(acc)), t1[..|t1| - 1])
  {
  }

  /** A `Vec` walk that does not read an element ends at once: with a value
      only when `lua_next` found no more entries, the table and key then
      gone. */
  lemma VecWalkEnds(rule: GuardRule, e: Shape, acc: seq<Native>, t: Stack, fuel: nat)
    requires !(Next(t, -2).NextPair? && fuel > 0)
    ensures var o := VecWalk(rule, e, acc, t, fuel);
      o.Done? ==> o.value == Ok(NVec(acc)) && |o.stack| + 2 == |t|
  {
    NextHeight(t, -2);
  }

  /** A `HashMap` walk step: the value popped, the key copied and popped,
      the pair inserted. */
  lemma MapWalkStep(rule: GuardRule, k: Shape, v: Shape, acc: seq<(Native, Native)>, t: Stack, t1: Stack,
                    val: Native, t2: Stack, key: Native, t4: Stack, fuel: nat)
    requires Next(t, -2) == NextPair(t1) && fuel > 0
    requires PopAs(rule, v, t1) == Done(Ok(val), t2)
    requires |t2| >= 1 && PopAs(rule, k, t2 + [t2[|t2| - 1]]) == Done(Ok(key), t4)
    ensures MapWalk(rule, k, v, acc, t, fuel) == MapWalk(rule, k, v, Insert(acc, key, val), t4, fuel - 1)
  {
    PushValueTop(t2);
    PairPopOk(rule, k, v, t1, val, t2, t2 + [t2[|t2| - 1]], key, t4);
    MapWalkPairOk(rule, k, v, acc, t, t1, fuel, key, val, t4);
  }

  /** The loop body reads a pair when both pops return a value, the key's
      from the stack with the key copied. */
  lemma PairPopOk(rule: GuardRule, k: Shape, v: Shape, t1: Stack, val: Native, t2: Stack, t3: Stack, key: Native, t4: Stack)
    requires PopAs(rule, v, t1) == Done(Ok(val), t2)
    requires PushValue(t2, -1) == Some(t3)
    requires PopAs(rule, k, t3) == Done(Ok(key), t4)
    ensures PairPop(rule, k, v, t1) == Done(Ok((key, val)), t4)
  {
  }

  /** A map-walk step in terms of the loop body: a pair read without error
      goes on to the next step. */
  lemma MapWalkPairOk(rule: GuardRule, k: Shape, v: Shape, acc: seq<(Native, Native)>, t: Stack, t1: Stack,
                      fuel: nat, key: Native, val: Native, t4: Stack)
    requires Next(t, -2) == NextPair(t1) && fuel > 0
    requires PairPop(rule, k, v, t1) == Done(Ok((key, val)), t4)
    ensures MapWalk(rule, k, v, acc, t, fuel) == MapWalk(rule, k, v, Insert(acc, key, val), t4, fuel - 1)
  {
  }

  /** A map walk that does not read a pair ends at once: with a value only
      when `lua_next` found no more entries, the table and key then gone. */
  lemma MapWalkEnds(rule: GuardRule, k: Shape, v: Shape, acc: seq<(Native, Native)>, t: Stack, fuel: nat)
    requires !(Next(t, -2).NextPair? && fuel > 0)
    ensures var o := MapWalk(rule, k, v, acc, t, fuel);
      o.Done? ==> o.value == Ok(NMap(acc)) && |o.stack| + 2 == |t|
  {
    NextHeight(t, -2);
  }

  lemma MapWalkEnd(rule: GuardRule, k: Shape, v: Shape, acc: seq<(Native, Native)>, t: Stack, t1: Stack, fuel: nat)
    requires Next(t, -2) == NextDone(t1) && |t1| >= 1
    ensures MapWalk(rule, k, v, acc, t, fuel) == Done(Ok(NMap(acc)), t1[..|t1| - 1])
  {
  }

  /** A `pop_rev!` step: the last part is popped first and appended last. */
  lemma PopRevStep(rule: GuardRule, es: seq<Shape>, n: nat, s: Stack, x: Native, t: Stack, xs: seq<Native>, u: Stack)
    requires 0 < n <= |es|
    requires PopAs(rule, es[n - 1], s) == Done(Ok(x), t)
    requires PopRev(rule, es, n - 1, t) == Done(Ok(xs), u)
    ensures PopRev(rule, es, n, s) == Done(Ok(xs + [x]), u)
  {
  }

  // ---------------------------------------------------------------------------
  // The guard as written

  /** With the guard as written, a scalar pop of a non-empty stack never
      returns: on a match it panics with "Expected size n, found -1", on a
      mismatch with "Expected size n, found 0". */
  lemma ScalarPopAsWritten(sh: Shape, s: Stack)
    requires Scalar(sh) && |s| >= 1
    ensures var top := s[|s| - 1];
      PopAs(AsWritten, sh, s) ==
        if TypeOf(top) == ExpectedTag(sh) then Aborted(Panic(TooManyPopped(|s|, -1)), s[..|s| - 1])
        else Aborted(Panic(TooManyPopped(|s|, 0)), s)
  {
  }

  /** The smallest witness: popping `true` off a one-slot stack. */
  lemma AsWrittenBoolWitness()
    ensures PopAs(AsWritten, BoolS, [Bool(true)]) ==
      Aborted(Panic("Popped too many values from stack: Expected size 1, found -1"), [])
    ensures PopAs(Corrected, BoolS, [Bool(true)]) == Done(Ok(NBool(true)), [])
  {
    ScalarPopAsWritten(BoolS, [Bool(true)]);
    ScalarPopCorrected(BoolS, [Bool(true)]);
    assert DigitChar(1) == '1';
    assert Decimal(1) == "1";
    assert Decimal(-1) == "-1";
    assert TooManyPopped(1, -1) == "Popped too many values from stack: Expected size 1, found -1";
  }

  /** With the guard as written no guarded pop ever succeeds, whatever the
      shape and the stack: a pop that returns a value is of a shape built
      from `()` alone, and it has removed at least one slot when there was
      one. */
  lemma {:induction false} AsWrittenNeverSucceeds(sh: Shape, s: Stack)
    requires ShapeOk(sh)
    ensures var o := PopAs(AsWritten, sh, s);
      o.Done? && o.value.Ok? ==>
        && UnitsOnly(sh)
        && |o.stack| <= |s|
        && (|s| > 0 ==> |o.stack| < |s|)
    decreases sh, 2, 0
  {
    match sh
    case UnitS =>
    case BoolS =>
      if |s| > 0 {
        GuardedAsWrittenNotOk(s, BoolBody(s));
      }
    case IntS(_) =>
      if |s| > 0 {
        GuardedAsWrittenNotOk(s, IntBody(s));
      }
    case FloatS =>
      if |s| > 0 {
        GuardedAsWrittenNotOk(s, FloatBody(s));
      }
    case StrS =>
      if |s| > 0 {
        GuardedAsWrittenNotOk(s, StrBody(s));
      }
    case OptS(i) =>
      if |s| > 0 {
        if Type(s, -1) != TNil {
          AsWrittenNeverSucceeds(i, s);
        }
        GuardedAsWrittenNotOk(s, OptBody(AsWritten, i, s));
      }
    case VecS(e) =>
      if |s| > 0 {
        if Type(s, -1) == TTable {
          VecWalkShrinks(e, [], PushNil(s), |s[|s| - 1].entries|);
        }
        GuardedAsWrittenNotOk(s, VecBody(AsWritten, e, s));
      }
    case MapS(k, v) =>
      if |s| > 0 {
        if Type(s, -1) == TTable {
          MapWalkShrinks(k, v, [], PushNil(s), |s[|s| - 1].entries|);
        }
        GuardedAsWrittenNotOk(s, MapBody(AsWritten, k, v, s));
      }
    case TupleS(es) =>
      PopRevShrinks(es, |es|, s);
  }

  /** A pop guard as written turns every successful body into a panic: the
      body consumed a slot, so the height is below twice the baseline. */
  lemma GuardedAsWrittenNotOk(s: Stack, body: PopOutcome)
    requires |s| >= 1
    requires body.Done? && body.value.Ok? ==> |body.stack| < |s|
    ensures var o := Guarded(AsWritten, s, body); !(o.Done? && o.value.Ok?)
  {
  }

  /** A walk that returned a value has dropped the key it started from and
      the table below it. */
  predicate ConsumedKeyAndTable(o: PopOutcome, t: Stack)
  {
    o.Done? && o.value.Ok? ==> |o.stack| + 2 <= |t|
  }

  lemma {:induction false} VecWalkShrinks(e: Shape, acc: seq<Native>, t: Stack, fuel: nat)
    requires ShapeOk(e)
    ensures ConsumedKeyAndTable(VecWalk(AsWritten, e, acc, t, fuel), t)
    decreases VecS(e), 0, fuel, 1
  {
    if Next(t, -2).NextPair? && fuel > 0 {
      var acc', t2 := VecWalkShrinksStep(e, acc, t, fuel);
      VecWalkShrinks(e, acc', t2, fuel - 1);
    } else {
      VecWalkEnds(AsWritten, e, acc, t, fuel);
    }
  }

  /** One element of a `Vec` walk as written: the walk drops the key and
      the table if the rest of it does, from the elements with this one
      appended and the stack its pop left (when the element ends the walk,
      it drops them whatever the rest does). */
  lemma VecWalkShrinksStep(e: Shape, acc: seq<Native>, t: Stack, fuel: nat) returns (acc': seq<Native>, t2: Stack)
    requires ShapeOk(e)
    requires Next(t, -2).NextPair? && fuel > 0
    ensures ConsumedKeyAndTable(VecWalk(AsWritten, e, acc', t2, fuel - 1), t2) ==>
              ConsumedKeyAndTable(VecWalk(AsWritten, e, acc, t, fuel), t)
    decreases VecS(e), 0, fuel, 0
  {
    var t1 := Next(t, -2).stack;
    AsWrittenNeverSucceeds(e, t1);
    NextHeight(t, -2);
    match PopAs(AsWritten, e, t1)
    case Aborted(_, _) =>
      acc', t2 := acc, t;
    case Done(Err(_), _) =>
      acc', t2 := acc, t;
    case Done(Ok(x), u) =>
      acc', t2 := acc + [x], u;
  }

  lemma {:induction false} MapWalkShrinks(k: Shape, v: Shape, acc: seq<(Native, Native)>, t: Stack, fuel: nat)
    requires ShapeOk(k) && ShapeOk(v)
    ensures ConsumedKeyAndTable(MapWalk(AsWritten, k, v, acc, t, fuel), t)
    decreases MapS(k, v), 0, fuel, 1
  {
    if Next(t, -2).NextPair? && fuel > 0 {
      var acc', t4 := MapWalkShrinksStep(k, v, acc, t, fuel);
      MapWalkShrinks(k, v, acc', t4, fuel - 1);
    } else {
      MapWalkEnds(AsWritten, k, v, acc, t, fuel);
    }
  }

  /** One pair of a map walk as written: the walk drops the key and the
      table if the rest of it does, from the map with the pair inserted and
      the stack the pair's pops left (when the pair ends the walk, it
      drops them whatever the rest does). */
  lemma MapWalkShrinksStep(k: Shape, v: Shape, acc: seq<(Native, Native)>, t: Stack, fuel: nat)
    returns (acc': seq<(Native, Native)>, t4: Stack)
    requires ShapeOk(k) && ShapeOk(v)
    requires Next(t, -2).NextPair? && fuel > 0
    ensures ConsumedKeyAndTable(MapWalk(AsWritten, k, v, acc', t4, fuel - 1), t4) ==>
              ConsumedKeyAndTable(MapWalk(AsWritten, k, v, acc, t, fuel), t)
    decreases MapS(k, v), 0, fuel, 0
  {
    var t1 := Next(t, -2).stack;
    NextHeight(t, -2);
    match PairPop(AsWritten, k, v, t1)
    case Aborted(_, _) =>
      acc', t4 := acc, t;
    case Done(Err(_), _) =>
      acc', t4 := acc, t;
    case Done(Ok(p), u) =>
      acc', t4 := Insert(acc, p.0, p.1), u;
      PairPopShrinks(k, v, t1, p.0, p.1, u);
  }

  /** One pair of the map walk as written: popping the value, copying the
      key and popping the copy leaves the stack lower than `lua_next` left
      it, that is no higher than before the pair was pushed. */
  lemma PairPopShrinks(k: Shape, v: Shape, t1: Stack, key: Native, val: Native, t4: Stack)
    requires ShapeOk(k) && ShapeOk(v)
    requires PairPop(AsWritten, k, v, t1) == Done(Ok((key, val)), t4)
    ensures |t4| + 1 <= |t1|
    decreases MapS(k, v), 0, 0, 0
  {
    AsWrittenNeverSucceeds(v, t1);
    var o := PopAs(AsWritten, v, t1);
    if o.Done? && o.value.Ok? && PushValue(o.stack, -1).Some? {
      AsWrittenNeverSucceeds(k, PushValue(o.stack, -1).value);
    }
  }

  lemma {:induction false} PopRevShrinks(es: seq<Shape>, n: nat, s: Stack)
    requires n <= |es|
    requires forall i :: 0 <= i < |es| ==> ShapeOk(es[i])
    ensures var o := PopRev(AsWritten, es, n, s);
      o.Done? && o.value.Ok? ==>
        && (forall i :: 0 <= i < n ==> UnitsOnly(es[i]))
        && |o.stack| <= |s| && (n > 0 && |s| > 0 ==> |o.stack| < |s|)
    decreases TupleS(es), 1, n
  {
    if n > 0 {
      AsWrittenNeverSucceeds(es[n - 1], s);
      match PopAs(AsWritten, es[n - 1], s)
      case Aborted(_, _) =>
      case Done(Err(_), _) =>
      case Done(Ok(x), t) =>
        PopRevShrinks(es, n - 1, t);
    }
  }

  // ---------------------------------------------------------------------------
  // The errors a pop reports

  /** An outcome whose error, if it returned one, is a type mismatch. */
  predicate MismatchOnly<T>(o: Outcome<Result<T, Error>>)
  {
    o.Done? && o.value.Err? ==> o.value.error.PopUnexpectedType?
  }

  /** Every error a pop returns is a type mismatch, whichever guard rule is
      in force: `StackUnderflow` is never built, since popping an empty
      stack panics in the pop guard instead. */
  lemma {:induction false} PopErrorsAreMismatches(rule: GuardRule, sh: Shape, s: Stack)
    ensures MismatchOnly(PopAs(rule, sh, s))
    ensures PopAs(rule, sh, s).Done? && PopAs(rule, sh, s).value.Err? ==> !PopAs(rule, sh, s).value.error.StackUnderflow?
    decreases sh, 2, 0
  {
    match sh
    case UnitS =>
    case BoolS =>
      if |s| > 0 {
        GuardedMismatchOnly(rule, s, BoolBody(s));
      }
    case IntS(_) =>
      if |s| > 0 {
        GuardedMismatchOnly(rule, s, IntBody(s));
      }
    case FloatS =>
      if |s| > 0 {
        GuardedMismatchOnly(rule, s, FloatBody(s));
      }
    case StrS =>
      if |s| > 0 {
        GuardedMismatchOnly(rule, s, StrBody(s));
      }
    case OptS(i) =>
      if |s| > 0 {
        if Type(s, -1) != TNil {
          PopErrorsAreMismatches(rule, i, s);
        }
        GuardedMismatchOnly(rule, s, OptBody(rule, i, s));
      }
    case VecS(e) =>
      if |s| > 0 {
        if Type(s, -1) == TTable {
          VecWalkMismatches(rule, e, [], PushNil(s), |s[|s| - 1].entries|);
        }
        GuardedMismatchOnly(rule, s, VecBody(rule, e, s));
      }
    case MapS(k, v) =>
      if |s| > 0 {
        if Type(s, -1) == TTable {
          MapWalkMismatches(rule, k, v, [], PushNil(s), |s[|s| - 1].entries|);
        }
        GuardedMismatchOnly(rule, s, MapBody(rule, k, v, s));
      }
    case TupleS(es) =>
      PopRevMismatches(rule, es, |es|, s);
  }

  /** The pop guard passes a returned result through or aborts. */
  lemma GuardedMismatchOnly(rule: GuardRule, s: Stack, body: PopOutcome)
    requires |s| >= 1 && MismatchOnly(body)
    ensures MismatchOnly(Guarded(rule, s, body))
  {
  }

  /** `MismatchOnly` for the outcome of a pop. */
  predicate PopMismatchOnly(o: PopOutcome)
  {
    o.Done? && o.value.Err? ==> o.value.error.PopUnexpectedType?
  }

  lemma {:induction false} VecWalkMismatches(rule: GuardRule, e: Shape, acc: seq<Native>, t: Stack, fuel: nat)
    ensures PopMismatchOnly(VecWalk(rule, e, acc, t, fuel))
    decreases VecS(e), 0, fuel, 1
  {
    if Next(t, -2).NextPair? && fuel > 0 {
      var acc', t2 := VecWalkMismatchesStep(rule, e, acc, t, fuel);
      VecWalkMismatches(rule, e, acc', t2, fuel - 1);
    } else {
      VecWalkEnds(rule, e, acc, t, fuel);
    }
  }

  /** One element of a `Vec` walk: every error the walk returns is a
      mismatch if every error the rest of it returns is one (when the
      element ends the walk, whatever the rest returns). */
  lemma VecWalkMismatchesStep(rule: GuardRule, e: Shape, acc: seq<Native>, t: Stack, fuel: nat)
    returns (acc': seq<Native>, t2: Stack)
    requires Next(t, -2).NextPair? && fuel > 0
    ensures PopMismatchOnly(VecWalk(rule, e, acc', t2, fuel - 1)) ==> PopMismatchOnly(VecWalk(rule, e, acc, t, fuel))
    decreases VecS(e), 0, fuel, 0
  {
    var t1 := Next(t, -2).stack;
    PopErrorsAreMismatches(rule, e, t1);
    match PopAs(rule, e, t1)
    case Aborted(_, _) =>
      acc', t2 := acc, t;
    case Done(Err(_), _) =>
      acc', t2 := acc, t;
    case Done(Ok(x), u) =>
      acc', t2 := acc + [x], u;
  }

  lemma {:induction false} MapWalkMismatches(rule: GuardRule, k: Shape, v: Shape, acc: seq<(Native, Native)>, t: Stack, fuel: nat)
    ensures PopMismatchOnly(MapWalk(rule, k, v, acc, t, fuel))
    decreases MapS(k, v), 0, fuel, 1
  {
    var more, acc', t4 := MapWalkMismatchesStep(rule, k, v, acc, t, fuel);
    if more {
      MapWalkMismatches(rule, k, v, acc', t4, fuel - 1);
    }
  }

  /** One step of a map walk: every error the walk returns is a mismatch
      if, when the step reads a pair and the walk goes on (`more`), every
      error the rest of it returns is one, from the map with the pair
      inserted and the stack the pair's pops left. */
  lemma MapWalkMismatchesStep(rule: GuardRule, k: Shape, v: Shape, acc: seq<(Native, Native)>, t: Stack, fuel: nat)
    returns (more: bool, acc': seq<(Native, Native)>, t4: Stack)
    ensures more ==> fuel > 0
    ensures (more ==> PopMismatchOnly(MapWalk(rule, k, v, acc', t4, fuel - 1))) ==>
              PopMismatchOnly(MapWalk(rule, k, v, acc, t, fuel))
    decreases MapS(k, v), 0, fuel, 0
  {
    more, acc', t4 := false, acc, t;
    if Next(t, -2).NextPair? && fuel > 0 {
      var t1 := Next(t, -2).stack;
      match PairPop(rule, k, v, t1)
      case Aborted(_, _) =>
      case Done(Err(e), u) =>
        PairPopMismatches(rule, k, v, t1, e, u);
      case Done(Ok(p), u) =>
        more, acc', t4 := true, Insert(acc, p.0, p.1), u;
    } else {
      MapWalkEnds(rule, k, v, acc, t, fuel);
    }
  }

  lemma PairPopMismatches(rule: GuardRule, k: Shape, v: Shape, t1: Stack, e: Error, t4: Stack)
    requires PairPop(rule, k, v, t1) == Done(Err(e), t4)
    ensures e.PopUnexpectedType?
    decreases MapS(k, v), 0, 0, 0
  {
    PopErrorsAreMismatches(rule, v, t1);
    var o := PopAs(rule, v, t1);
    if o.Done? && o.value.Ok? && PushValue(o.stack, -1).Some? {
      PopErrorsAreMismatches(rule, k, PushValue(o.stack, -1).value);
    }
  }

  lemma {:induction false} PopRevMismatches(rule: GuardRule, es: seq<Shape>, n: nat, s: Stack)
    requires n <= |es|
    ensures MismatchOnly(PopRev(rule, es, n, s))
    decreases TupleS(es), 1, n
  {
    if n > 0 {
      PopErrorsAreMismatches(rule, es[n - 1], s);
      match PopAs(rule, es[n - 1], s)
      case Aborted(_, _) =>
      case Done(Err(_), _) =>
      case Done(Ok(x), t) =>
        PopRevMismatches(rule, es, n - 1, t);
    }
  }
}
