/**
 The plugin entry point of luajit/src/entry.rs, which the `luaopen_*`
 function generated by `#[module]` calls: it runs the plugin function, pushes
 the module it returns and reports how many values it pushed, or raises the
 plugin's error as a Lua error.

 A panic anywhere below it reaches the hook that luajit/src/core.rs installs,
 which pushes the `Debug` text of the panic payload and raises it. That text
 is the one `Debug` gives a `dyn Any`, whatever the panic said.
 */
module Entry {
  import opened Wrappers
  import opened Utf8
  import opened Ffi
  import opened Errors
  import opened Marshal
  import opened PushProtocol

  /** What the plugin function did: returned a module value, returned an
      error known by its `Display` text, or panicked with a message. */
  datatype PluginRun =
    | Returns(value: Native)
    | Fails(display: string)
    | Panics(payload: string)

  /** How control leaves the entry point: it returns a count of results to
      Lua, it raises a Lua error value, or a C API call was made on a slot
      the Lua manual leaves undefined. */
  datatype EntryResult =
    | Returned(count: int, stack: Stack)
    | Raised(error: Value, stack: Stack)
    | Undefined(stack: Stack)

  /** `format!("{:?}", info.payload())` for any payload. */
  const OpaquePayload: string := "Any { .. }"

  /** The panic hook: push the payload text, then `lua_error`. */
  function PanicRaise(s: Stack): (r: EntryResult)
    ensures r.Raised? && r.error == Str(Encode(OpaquePayload)) && r.stack == s + [r.error]
  {
    var e := LuaError(PushLString(s, Encode(OpaquePayload)));
    Raised(e.error, e.stack)
  }

  /** `entry`: `module.push(state).unwrap()` on success, `handle` on error. */
  function EntryPoint(s: Stack, run: PluginRun): EntryResult
  {
    match run
    case Panics(_) => PanicRaise(s)
    case Fails(text) =>
      var e := Handle(s, External(text));
      Raised(e.error, e.stack)
    case Returns(x) => AfterPush(PushAs(x, s))
  }

  /** The `unwrap` of the push result: a returned push is returned to Lua;
      an aborted one leaves by the abort's own path. */
  function AfterPush(o: PushOutcome): EntryResult
  {
    match o
    case Done(n, t) => Returned(n, t)
    case Aborted(Panic(_), t) => PanicRaise(t)
    case Aborted(LuaRaise(m), t) => Raised(Str(Encode(m)), t + [Str(Encode(m))])
    case Aborted(_, t) => Undefined(t)
  }

  /** The entry point returns to Lua exactly when the plugin returned a
      module and pushing it returned; the count is what the push reported. */
  lemma ReturnsIffPushed(s: Stack, run: PluginRun)
    ensures EntryPoint(s, run).Returned? <==> run.Returns? && PushAs(run.value, s).Done?
    ensures EntryPoint(s, run).Returned? ==>
      EntryPoint(s, run).count == PushAs(run.value, s).value &&
      EntryPoint(s, run).stack == PushAs(run.value, s).stack
    ensures EntryPoint(s, run).Raised? ==>
      |EntryPoint(s, run).stack| >= 1 && EntryPoint(s, run).stack[|EntryPoint(s, run).stack| - 1] == EntryPoint(s, run).error
  {
    match run
    case Returns(x) =>
      AfterPushSpec(PushAs(x, s));
    case Fails(text) =>
      var e := Handle(s, External(text));
      assert EntryPoint(s, run) == Raised(e.error, e.stack);
    case Panics(_) =>
  }

  /** What the entry point makes of each outcome of the push. */
  lemma AfterPushSpec(o: PushOutcome)
    ensures AfterPush(o).Returned? <==> o.Done?
    ensures o.Done? ==> AfterPush(o) == Returned(o.value, o.stack)
    ensures AfterPush(o).Raised? ==>
      |AfterPush(o).stack| >= 1 && AfterPush(o).stack[|AfterPush(o).stack| - 1] == AfterPush(o).error
  {
  }

  /** A module that pushes as one value is returned as one result on top
      of the stack Lua handed in. */
  lemma FlatModuleReturned(s: Stack, x: Native)
    requires FlatValue(x)
    ensures EntryPoint(s, Returns(x)) == Returned(1, s + [ToValue(x)])
  {
    PushFlat(x, s);
  }

  /** A tuple of such values is returned as that many results, in order. */
  lemma TupleModuleReturned(s: Stack, parts: seq<Native>)
    requires forall j :: 0 <= j < |parts| ==> FlatValue(parts[j])
    ensures EntryPoint(s, Returns(NTuple(parts))) == Returned(|parts|, s + ValuesOf(parts))
  {
    TuplePushFlat(parts, s);
  }

  /** A plugin error never returns: its display text is raised as a Lua
      string on top of the stack, and reading those bytes back as a Rust
      string gives the text. */
  lemma ErrorRaised(s: Stack, text: string)
    ensures EntryPoint(s, Fails(text)).Raised?
    ensures EntryPoint(s, Fails(text)).error == Str(Encode(text))
    ensures EntryPoint(s, Fails(text)).stack == s + [Str(Encode(text))]
    ensures Lossy(EntryPoint(s, Fails(text)).error.bytes) == Encode(text)
  {
    var e := Handle(s, External(text));
    assert e.stack[..|s|] == s;
    assert e.stack == e.stack[..|s|] + [e.stack[|s|]];
    LossyOfEncode(text);
  }

  /** A panicking plugin raises the same opaque text whatever its message. */
  lemma PanicMessageLost(s: Stack, p: string, q: string)
    ensures EntryPoint(s, Panics(p)) == EntryPoint(s, Panics(q))
    ensures EntryPoint(s, Panics(p)).error == Str(Encode(OpaquePayload))
  {
  }

  /** A push that raises a Lua error raises it out of the entry point,
      with the message pushed on top. */
  lemma PushRaiseEscapes(s: Stack, x: Native, m: string, t: Stack)
    requires PushAs(x, s) == Aborted(LuaRaise(m), t)
    ensures EntryPoint(s, Returns(x)) == Raised(Str(Encode(m)), t + [Str(Encode(m))])
  {
  }

  /** A nested module is returned with every slot it pushed on the stack,
      but the count Lua is told is `Reported(x)`: for a tuple with a tuple
      part, Lua keeps fewer results than were pushed. */
  lemma NestedModuleReturned(s: Stack, x: Native)
    requires Nested(x)
    ensures EntryPoint(s, Returns(x)) == Returned(Reported(x), s + Slots(x))
  {
    PushNested(x, s);
  }

  /** `entry` with the summing tuple push. */
  function EntryPointSummed(s: Stack, run: PluginRun): EntryResult
  {
    match run
    case Returns(x) => AfterPush(PushSummed(x, s))
    case _ => EntryPoint(s, run)
  }

  /** The summing entry point differs from `entry` only in the count it
      returns. */
  lemma SummedEntryAgrees(s: Stack, run: PluginRun)
    ensures EntryPointSummed(s, run).Returned? == EntryPoint(s, run).Returned?
    ensures EntryPointSummed(s, run).stack == EntryPoint(s, run).stack
    ensures !EntryPoint(s, run).Returned? ==> EntryPointSummed(s, run) == EntryPoint(s, run)
  {
    if run.Returns? {
      SummedSameEffect(run.value, s);
    }
  }

  /** With the summing push every slot a nested module pushed is returned
      to Lua. */
  lemma NestedModuleAllReturned(s: Stack, x: Native)
    requires Nested(x)
    ensures EntryPointSummed(s, Returns(x)) == Returned(|Slots(x)|, s + Slots(x))
  {
    SummedCountsSlots(x, s);
  }

  /** The module `((true, false),)`: `entry` pushes both booleans and
      returns 1, so Lua receives only `false`; the summing entry returns 2. */
  lemma NestedTupleModule(s: Stack)
    ensures EntryPoint(s, Returns(NTuple([NTuple([NBool(true), NBool(false)])])))
      == Returned(1, s + [Bool(true), Bool(false)])
    ensures EntryPointSummed(s, Returns(NTuple([NTuple([NBool(true), NBool(false)])])))
      == Returned(2, s + [Bool(true), Bool(false)])
  {
    var inner := NTuple([NBool(true), NBool(false)]);
    assert Slots(inner) == [Bool(true), Bool(false)];
    assert SlotsOf([inner], 1) == SlotsOf([inner], 0) + Slots([inner][0]);
    assert Slots(NTuple([inner])) == Slots(inner);
    NestedTupleUndercounts(s);
    SummedCountsSlots(NTuple([inner]), s);
  }

  /** The message `lua_rawset` raises for a nil key. */
  const NilIndex: string := "table index is nil"

  /** A module map whose first key pushes nil never reaches Lua as a
      value: `lua_rawset` raises "table index is nil" out of the entry
      point, with the message above the half-built table, the nil key and
      the value. */
  lemma NilKeyModuleRaises(s: Stack, k: Native, v: Native, rest: seq<(Native, Native)>)
    requires FlatValue(k) && PushesNil(k) && FlatValue(v)
    ensures EntryPoint(s, Returns(NMap([(k, v)] + rest))) ==
      Raised(Str(Encode(NilIndex)), (s + [Table([]), Nil, ToValue(v)]) + [Str(Encode(NilIndex))])
  {
    NilKeyRaises(k, v, rest, s);
    PushRaiseEscapes(s, NMap([(k, v)] + rest), NilIndex, s + [Table([]), Nil, ToValue(v)]);
  }
}
