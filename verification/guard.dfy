/**
 The stack guard of luajit/src/guard.rs. A guard records a baseline height when
 it is created; when it is dropped it trims the stack, leaves it alone, or
 panics.

 The drop decision is modelled twice. `DropAsWritten` is the code as it stands:
 it computes `diff = top - start` and compares `diff`, not `top`, with `start`.
 `DropIntended` is the rule the guard exists for: trim growth above the
 baseline, fail on shrinkage below it. `StackGuard::pop` records the full
 height although the scope it guards consumes one value; `PopBaseline` is the
 corrected baseline for such a scope. `GuardRule` selects which of the two the
 pop protocol runs with.
 */
module Guard {
  import opened Wrappers
  import opened Ffi
  import opened Errors

  datatype StackGuard = StackGuard(start: int)

  /** `StackGuard::new`: records the current height; it cannot fail. */
  function New(s: Stack): (g: StackGuard)
    ensures g.start == GetTop(s) >= 0
  {
    StackGuard(|s|)
  }

  const UnderflowPanic: string := "Rust underflowed the Lua stack!"

  /** `StackGuard::pop`: panics on an empty stack, otherwise records the
      current height. */
  function ForPop(s: Stack): Result<StackGuard, string>
  {
    if GetTop(s) == 0 then Err(UnderflowPanic) else Ok(StackGuard(|s|))
  }

  /** A pop guard panics exactly on an empty stack; otherwise its baseline
      is the full, positive height. */
  lemma ForPopSpec(s: Stack)
    ensures ForPop(s).Err? <==> |s| == 0
    ensures ForPop(s).Err? ==> ForPop(s).error == UnderflowPanic
    ensures ForPop(s).Ok? ==> ForPop(s).value.start == |s| >= 1
  {
  }

  /** What dropping a guard does to the stack. */
  datatype DropAction = Trim(to: nat) | Keep | Fail(message: string)

  function TooManyPopped(expected: int, found: int): string
  {
    "Popped too many values from stack: Expected size " + Decimal(expected) + ", found " + Decimal(found)
  }

  /** `Drop for StackGuard`, literally. */
  function DropAsWritten(g: StackGuard, top: nat): DropAction
    requires g.start >= 0
  {
    var diff := top - g.start;
    if diff > g.start then Trim(g.start)
    else if diff < g.start then Fail(TooManyPopped(g.start, diff))
    else Keep
  }

  /** The literal drop compares the growth `top - start`, not the height,
      with the baseline: it keeps a stack of exactly twice the baseline,
      trims anything taller back to the baseline, and panics below that. */
  lemma DropAsWrittenSpec(g: StackGuard, top: nat)
    requires g.start >= 0
    ensures DropAsWritten(g, top).Keep? <==> top == 2 * g.start
    ensures DropAsWritten(g, top).Trim? <==> top > 2 * g.start
    ensures DropAsWritten(g, top).Trim? ==> DropAsWritten(g, top).to == g.start
    ensures DropAsWritten(g, top).Fail? <==> top < 2 * g.start
    ensures DropAsWritten(g, top).Fail? ==> DropAsWritten(g, top).message == TooManyPopped(g.start, top - g.start)
  {
  }

  /** The rule a guard is meant to enforce: growth above the baseline is
      trimmed back to it, shrinkage below it is fatal, an unchanged height is
      left alone. */
  predicate IntendedRule(g: StackGuard, top: nat, a: DropAction)
    requires g.start >= 0
  {
    && (top > g.start ==> a == Trim(g.start))
    && (top == g.start ==> a == Keep)
    && (top < g.start ==> a.Fail?)
  }

  /** The drop decision written to that rule. */
  function DropIntended(g: StackGuard, top: nat): DropAction
    requires g.start >= 0
  {
    if top > g.start then Trim(g.start)
    else if top < g.start then Fail(TooManyPopped(g.start, top))
    else Keep
  }

  /** The intended drop obeys the rule, and its panic reports the height. */
  lemma DropIntendedSpec(g: StackGuard, top: nat)
    requires g.start >= 0
    ensures IntendedRule(g, top, DropIntended(g, top))
    ensures DropIntended(g, top).Fail? ==> DropIntended(g, top).message == TooManyPopped(g.start, top)
  {
  }

  /** The rule is a function of the baseline and the height: the intended
      decision is the only one that obeys it. */
  lemma IntendedRuleUnique(g: StackGuard, top: nat, a: DropAction)
    requires g.start >= 0
    requires IntendedRule(g, top, a)
    ensures a.Fail? == DropIntended(g, top).Fail?
    ensures !a.Fail? ==> a == DropIntended(g, top)
  {
  }

  /** The literal drop breaks the rule whenever the baseline is positive:
      a scope that leaves the stack exactly as it found it panics. */
  lemma AsWrittenBreaksRule(g: StackGuard)
    requires g.start >= 1
    ensures !IntendedRule(g, g.start, DropAsWritten(g, g.start))
    ensures DropAsWritten(g, g.start).Fail?
  {
  }

  /** The literal drop agrees with the rule only for a zero baseline. */
  lemma AsWrittenAgreesOnlyAtZero(g: StackGuard)
    requires g.start >= 0
    ensures (forall top: nat :: IntendedRule(g, top, DropAsWritten(g, top))) <==> g.start == 0
  {
    if g.start > 0 {
      AsWrittenBreaksRule(g);
    }
  }

  /** The literal drop leaves the stack untouched exactly at twice the
      baseline; a guarded scope that popped one value (height `start - 1`,
      with `start >= 1`) panics. */
  lemma AsWrittenPopPanics(g: StackGuard)
    requires g.start >= 1
    ensures DropAsWritten(g, g.start - 1) == Fail(TooManyPopped(g.start, -1))
  {
  }

  /** Which guard behaviour the pop protocol runs with. */
  datatype GuardRule = AsWritten | Corrected

  /** The baseline a pop guard records. As written it is the full height;
      corrected, it is the height the guarded scope must leave, one less,
      since the scope consumes the value on top. */
  function PopBaseline(rule: GuardRule, s: Stack): Result<StackGuard, string>
  {
    match ForPop(s)
    case Err(m) => Err(m)
    case Ok(g) => if rule.AsWritten? then Ok(g) else Ok(StackGuard(g.start - 1))
  }

  /** Both baselines panic on an empty stack only; as written the baseline
      is the full height, corrected it is one less. */
  lemma PopBaselineSpec(rule: GuardRule, s: Stack)
    ensures PopBaseline(rule, s).Err? <==> |s| == 0
    ensures PopBaseline(rule, s).Err? ==> PopBaseline(rule, s).error == UnderflowPanic
    ensures PopBaseline(rule, s).Ok? && rule.AsWritten? ==> PopBaseline(rule, s).value.start == |s|
    ensures PopBaseline(rule, s).Ok? && rule.Corrected? ==> PopBaseline(rule, s).value.start == |s| - 1
    ensures PopBaseline(rule, s).Ok? ==> PopBaseline(rule, s).value.start >= 0
  {
  }

  function DropWith(rule: GuardRule, g: StackGuard, top: nat): DropAction
    requires g.start >= 0
  {
    if rule.AsWritten? then DropAsWritten(g, top) else DropIntended(g, top)
  }

  /** Leaving a guarded scope: an abort passes through untouched (the panic
      hook raises before any unwinding, so no drop runs); a return applies
      the drop decision to the stack the scope left. */
  function Leave<T>(rule: GuardRule, g: StackGuard, o: Outcome<T>): Outcome<T>
    requires g.start >= 0
  {
    match o
    case Aborted(_, _) => o
    case Done(v, s) =>
      match DropWith(rule, g, |s|)
      case Keep => o
      case Trim(n) => Done(v, SetTop(s, n))
      case Fail(m) => Aborted(Panic(m), s)
  }

  /** Leaving a scope: an abort is passed on; a return is kept, trimmed to
      the baseline (the result kept), or turned into the drop's panic. */
  lemma LeaveSpec<T>(rule: GuardRule, g: StackGuard, o: Outcome<T>)
    requires g.start >= 0
    ensures o.Aborted? ==> Leave(rule, g, o) == o
    ensures o.Done? && DropWith(rule, g, |o.stack|).Keep? ==> Leave(rule, g, o) == o
    ensures o.Done? && DropWith(rule, g, |o.stack|).Trim? ==>
      Leave(rule, g, o) == Done(o.value, o.stack[..g.start])
    ensures o.Done? && DropWith(rule, g, |o.stack|).Fail? ==>
      Leave(rule, g, o) == Aborted(Panic(DropWith(rule, g, |o.stack|).message), o.stack)
  {
  }

  /** Under the corrected rule a guarded scope that returns with exactly its
      baseline height keeps its result and its stack. */
  lemma CorrectedBalancedScope<T>(g: StackGuard, o: Outcome<T>)
    requires g.start >= 0 && o.Done? && |o.stack| == g.start
    ensures Leave(Corrected, g, o) == o
  {
  }

  /** Under either rule a scope that leaves its stack below the baseline
      panics; under the literal rule so does a scope that leaves it anywhere
      below twice the baseline. */
  lemma ShrinkPanics<T>(rule: GuardRule, g: StackGuard, o: Outcome<T>)
    requires g.start >= 0 && o.Done?
    requires |o.stack| < g.start || (rule.AsWritten? && |o.stack| < 2 * g.start)
    ensures Leave(rule, g, o).Aborted? && Leave(rule, g, o).reason.Panic?
  {
  }
}
