# nvim-utils marshalling core, modelled in Dafny

This project models the Rust side of nvim-utils that talks to LuaJIT through
the raw Lua 5.1 C API:

- **The C API** (`Ffi`, luajit/src/ffi.rs). The Lua stack is a sequence of
  values with the top at the end. Each primitive the core calls is a pure
  function from a stack to a stack: `lua_gettop`, `lua_settop`, `lua_type`,
  the pushes, `lua_rawset`, `lua_rawseti`, `lua_next`, `lua_getglobal` and
  `lua_error`. It also carries the type, status and pseudo-index codes.
- **The stack guard** (`Guard`, luajit/src/guard.rs). The drop decision is
  modelled twice: once as written, and once as the rule the guard exists
  for.
- **The pop protocol** (`PopProtocol`, luajit/src/pop.rs). Type-directed
  extraction of a Rust value from the top of the stack, for the closed set of
  shapes:
  - `()`, `bool`, the ten integer widths, `f64`/`f32`, `String`;
  - `Option<T>`, `Vec<T>`, `HashMap<K, V>`;
  - tuples of arity 1 to 26.

  `PopSpec` and `TableWalk` state what the protocol does.
- **The push protocol** (`PushProtocol`, luajit/src/push.rs). `RoundTrip`
  proves that a pop undoes a push.
- **The error type and `handle`** (`Errors`, luajit/src/error.rs).
- **The plugin entry point and the panic hook** (`Entry`,
  luajit/src/entry.rs and luajit/src/core.rs).
- **The C-string helpers** (`CStr`, luajit/src/cstr.rs).
- **The `#[module]` attribute's argument parser and symbol name** (`Macros`,
  macros/src/lib.rs).
- **The module builder** (`Builder`, src/builder.rs).
- **`count!`** (`Util`, luajit/src/util.rs).
- **Helpers.** `Marshal` holds the shapes, the Rust values and Rust's `as`
  casts. `Utf8` holds UTF-8 encoding and `String::from_utf8_lossy`.

## Modelling choices

- **Guard rule.** The pop protocol is parameterised by the guard rule:
  - `AsWritten` is guard.rs exactly as it stands;
  - `Corrected` is the intended rule.

  The round trip is proved under `Corrected`. Under `AsWritten` every guarded
  pop fails, and that is proved too (see Findings).
- **Aborts.** A stack operation either returns (`Done`) or aborts
  (`Aborted`) with one of these reasons:
  - a Rust panic;
  - a Lua error raised by a primitive;
  - a primitive called where the Lua manual leaves the behaviour undefined;
  - a table walk that ran out of its step bound.
- **Tuple count.** `PushProtocol.PushAs` reports a tuple's arity, as
  written. `PushProtocol.PushSummed` reports the sum of its parts' counts,
  as intended. `Entry.EntryPointSummed` is the entry point built on the
  summed push. Both pushes leave the same stack (see Findings).
- **Panics.** A panic does not unwind through the guards. The hook that
  core.rs installs raises a Lua error with `lua_error`, which does not
  return.
- **Where the code and its documentation differ, the model follows the
  code:**
  - Popping a guarded shape from an empty stack panics in `StackGuard::pop`.
    It does not return `Error::StackUnderflow`, which is never constructed.
  - Popping `()` from an empty stack succeeds.
  - The "found" part of a type mismatch is the decimal type tag
    (`other.to_string()` of the `i32` from `lua_type`), not a type name.
  - A tuple push reports its arity (`count!`), not the sum of its parts'
    slot counts. The two differ for a tuple with a tuple part (see Findings).
  - The guard's drop compares `top - start` with `start`, not `top` with
    `start` (see Findings).
  - `#[module]` rejects a `name = "..."` argument, although its error
    message asks for one.

## Model

| member | source | states |
|---|---|---|
| Ffi.Code | luajit/src/ffi.rs:57-70 | each `TypeId` discriminant lies in -1..8 and decodes back to that tag |
| Ffi.CodesDistinct | luajit/src/ffi.rs:46-55 | two tags share a code exactly when they are the same tag |
| Ffi.CodesCover | luajit/src/ffi.rs:46-55 | every code from -1 to 8 names a tag whose discriminant it is |
| Ffi.StatusCode | luajit/src/ffi.rs:33-42 | every status discriminant lies in 0..5 |
| Ffi.StatusCodesDistinct | luajit/src/ffi.rs:26-31 | two statuses share a code exactly when they are equal |
| Ffi.IndexCode | luajit/src/ffi.rs:16-22 | every `Index` discriminant is one of the three pseudo-index constants |
| Ffi.IndexCodesDistinct | luajit/src/ffi.rs:12-14 | the three pseudo-indices are pairwise distinct |
| Ffi.PseudoIndicesNotOnStack | luajit/src/ffi.rs:11-22 | on any stack of at most `LUAI_MAXCSTACK` slots no pseudo-index designates a slot; each lies below `-top` |
| Ffi.TypeOf | luajit/src/ffi.rs:106 | a value on the stack never has tag `NONE` |
| Ffi.Position | luajit/src/ffi.rs:106 | an index designates a slot exactly when it is in 1..top or -top..-1, and the slot is on the stack |
| Ffi.GetTop | luajit/src/ffi.rs:82 | `lua_gettop` is non-negative and zero exactly on an empty stack |
| Ffi.Type | luajit/src/ffi.rs:106 | `lua_type` gives `TABLE` for each of the three pseudo-indices (registry, environment, globals); any other index gets `NONE` exactly when it designates no slot, else the tag of that slot |
| Ffi.PseudoIsTable | luajit/src/ffi.rs:11-22 | every `Index` names a table, both for `lua_type` and for the functions that take a table by index |
| Ffi.SetTop | luajit/src/ffi.rs:84 | `lua_settop(idx)` leaves `idx` slots for `idx >= 0` and `top + idx + 1` for a negative `idx` |
| Ffi.PopN | luajit/src/ffi.rs:134 | `lua_pop(n)` removes exactly the top `n` slots and keeps the rest |
| Ffi.PushNil | luajit/src/ffi.rs:136 | adds one nil on top and leaves every slot below unchanged |
| Ffi.PushBoolean | luajit/src/ffi.rs:156 | adds the boolean on top and leaves every slot below unchanged |
| Ffi.PushInteger | luajit/src/ffi.rs:140 | adds the number on top and leaves every slot below unchanged |
| Ffi.PushNumber | luajit/src/ffi.rs:138 | adds the number on top and leaves every slot below unchanged |
| Ffi.PushLString | luajit/src/ffi.rs:142 | adds a string of exactly the given bytes on top and leaves every slot below unchanged |
| Ffi.PushValue | luajit/src/ffi.rs:86 | succeeds exactly for an index that designates a slot, and pushes a copy of that slot |
| Ffi.PushValueTop | luajit/src/ffi.rs:86 | `lua_pushvalue(-1)` on a non-empty stack duplicates the top slot |
| Ffi.CreateTable | luajit/src/ffi.rs:170 | adds a fresh empty table on top whatever the size hints, and leaves every slot below unchanged |
| Ffi.SetEntryLookup | luajit/src/ffi.rs:182 | after a raw `t[k] = v`, `k` reads `v` (nothing for nil), every other key reads as before, and distinct keys stay distinct |
| Ffi.SetEntryNew | luajit/src/ffi.rs:182 | assigning a non-nil value to an absent key appends one entry |
| Ffi.RawSetI | luajit/src/ffi.rs:184 | `lua_rawseti` never raises; it succeeds only with a table below the top, stores the top under `n` and pops it, leaving the other slots in place |
| Ffi.RawSet | luajit/src/ffi.rs:182 | `lua_rawset` raises "table index is nil" exactly when the key is nil; otherwise it stores the pair in the table and pops both |
| Ffi.NextFacts | luajit/src/ffi.rs:215 | `lua_next` pushes the entry after the key, or pops the key at the end; it raises exactly for a key not in the table |
| Ffi.RawSetIBelowTop | luajit/src/ffi.rs:184 | `lua_rawseti(-2, n)` stores the top in the table below it and pops it |
| Ffi.RawSetBelowTop | luajit/src/ffi.rs:182 | `lua_rawset(-3)` with a non-nil key stores the pair in the table below it and pops both |
| Ffi.NextHeight | luajit/src/ffi.rs:215 | `lua_next` leaves one slot more when it finds an entry and one slot fewer when it ends |
| Ffi.NextBelowTop | luajit/src/ffi.rs:215 | `lua_next(-2)` replaces the key by the next entry's key and value, or leaves only the table |
| Ffi.GetGlobal | luajit/src/ffi.rs:268-270 | `lua_getglobal` always succeeds; it pushes the global's value, or nil, and keeps every slot below |
| Ffi.LuaError | luajit/src/ffi.rs:213 | `lua_error` raises the value on top, with the stack as it was; no returning outcome exists |
| Guard.New | luajit/src/guard.rs:12-17 | `StackGuard::new` records the current height |
| Guard.ForPopSpec | luajit/src/guard.rs:20-31 | `StackGuard::pop` panics with "Rust underflowed the Lua stack!" exactly on an empty stack, else records the full height |
| Guard.DropAsWrittenSpec | luajit/src/guard.rs:35-47 | the literal drop keeps the stack exactly at twice the baseline, trims above that, and panics reporting `top - start` below that |
| Guard.DropIntendedSpec | luajit/src/guard.rs:35-47 | the intended drop trims growth to the baseline, keeps an unchanged height, and panics reporting the height on shrinkage |
| Guard.IntendedRuleUnique | luajit/src/guard.rs:35-47 | any decision obeying the intended rule agrees with `DropIntended` |
| Guard.AsWrittenBreaksRule | luajit/src/guard.rs:37-41 | with a positive baseline, the literal drop panics on a scope that left the height unchanged |
| Guard.AsWrittenAgreesOnlyAtZero | luajit/src/guard.rs:37-41 | the literal drop obeys the intended rule at every height exactly when the baseline is zero |
| Guard.AsWrittenPopPanics | luajit/src/guard.rs:37-44 | a pop guard whose scope consumed its one value panics with "found -1" |
| Guard.PopBaselineSpec | luajit/src/guard.rs:20-31 | both pop baselines panic only on an empty stack; as written the baseline is the height, corrected it is one less |
| Guard.LeaveSpec | luajit/src/guard.rs:34-47 | leaving a scope passes an abort on unchanged; a return is kept, trimmed to the baseline with its result, or turned into the drop's panic |
| Guard.CorrectedBalancedScope | luajit/src/guard.rs:38-40 | under the intended rule a scope that ends at its baseline keeps its result and its stack |
| Guard.ShrinkPanics | luajit/src/guard.rs:40-44 | a scope ending below the baseline panics under either rule; as written, so does one ending below twice the baseline |
| Marshal.ModulusIsPow2 | luajit/src/pop.rs:64-125 | each width's modulus is 2 to the power of its bit count |
| Marshal.Wrap | luajit/src/pop.rs:64-125 | an `as` cast lands in the target width's range and is the identity on values already in it |
| Marshal.WrapCongruent | luajit/src/pop.rs:64-125 | the cast preserves the value modulo 2^bits, and is the only in-range value that does, so it wraps rather than saturates |
| Marshal.WrapRoundTrip | luajit/src/push.rs:35-82 | casting a value of any width into `isize` and back gives the value itself |
| Marshal.InsertSpec | luajit/src/pop.rs:228 | `HashMap::insert` keeps keys distinct, stores the pair, keeps pairs with other keys, and leaves the key with only the new value |
| Marshal.InsertFresh | luajit/src/pop.rs:228 | inserting an absent key appends the pair |
| Marshal.CollectIsMap | luajit/src/pop.rs:218-229 | the map built by successive inserts never holds a key twice |
| Marshal.CollectDistinct | luajit/src/pop.rs:218-229 | inserting pairs whose keys are distinct keeps all of them, in order |
| PopSpec.GuardedPopOfEmpty | luajit/src/guard.rs:20-25 | any guarded pop of an empty stack panics with the underflow message, under either rule |
| PopSpec.UnitPopSpec | luajit/src/pop.rs:18-32 | `()` pops an empty stack or a nil top as unit, consuming the nil; any other top is a "nil" mismatch that leaves the stack alone |
| PopSpec.ScalarPopCorrected | luajit/src/pop.rs:34-165 | a scalar pop with a matching tag yields the slot's value cast to the width; a mismatch yields the expected label and the decimal tag found; either way exactly the top slot is gone |
| PopSpec.StringPopIsValid | luajit/src/pop.rs:149-165 | under the intended guard a string slot pops as its lossy decoding, which is always well-formed UTF-8, and only that slot is removed |
| PopSpec.StringOverBoolean | luajit/src/pop.rs:149-165 | popping a `String` over a boolean reports "Error popping string: found 1" |
| PopSpec.OptionPopCorrected | luajit/src/pop.rs:167-182 | a nil top pops as `None`; otherwise `T` pops it alone and its value is wrapped in `Some`, and its abort is passed on |
| PopSpec.CorrectedGuardedBalance | luajit/src/pop.rs:34-238 | under the intended guard every guarded pop that returns has removed exactly one slot |
| PopSpec.VecWalkStep | luajit/src/pop.rs:195-197 | one loop step of `Vec::pop` appends the popped element and continues |
| PopSpec.VecWalkEnd | luajit/src/pop.rs:195-201 | when `lua_next` ends, the table is popped and the elements read are the vector |
| PopSpec.VecWalkEnds | luajit/src/pop.rs:195-201 | a `Vec` walk step that reads no element returns a value only when `lua_next` ended, with the elements read so far and the key and table gone |
| PopSpec.MapWalkStep | luajit/src/pop.rs:221-229 | one loop step of `HashMap::pop` pops the value, copies and pops the key, and inserts the pair |
| PopSpec.PairPopOk | luajit/src/pop.rs:221-227 | the loop body reads the pair when the value pops, the key is copied and its copy pops |
| PopSpec.MapWalkPairOk | luajit/src/pop.rs:221-229 | a pair read without error inserts it and moves the walk on to the next entry |
| PopSpec.MapWalkEnds | luajit/src/pop.rs:221-233 | a `HashMap` walk step that reads no pair returns a value only when `lua_next` ended, with the map built so far and the key and table gone |
| PopSpec.MapWalkEnd | luajit/src/pop.rs:221-233 | when `lua_next` ends, the table is popped and the pairs inserted are the map |
| PopSpec.PopRevStep | luajit/src/pop.rs:256-262 | `pop_rev!` pops the last part first and appends it last |
| PopSpec.ScalarPopAsWritten | luajit/src/pop.rs:34-165 | with the literal guard a scalar pop never returns: a match panics with "found -1", a mismatch with "found 0" |
| PopSpec.AsWrittenBoolWitness | luajit/src/pop.rs:34-47 | popping `true` off a one-slot stack panics as written and returns `true` under the intended guard |
| PopSpec.AsWrittenNeverSucceeds | luajit/src/pop.rs:18-262 | with the literal guard a pop that returns a value is of a shape built only from `()` and tuples of it, never grows the stack, and consumes a slot if there is one |
| PopSpec.GuardedAsWrittenNotOk | luajit/src/guard.rs:34-47 | the literal pop guard turns every body that consumed a slot into a failure |
| PopSpec.VecWalkShrinks | luajit/src/pop.rs:188-205 | with the literal guard a `Vec` walk that returns a value has consumed the key and the table |
| PopSpec.VecWalkShrinksStep | luajit/src/pop.rs:195-197 | with the literal guard one element step keeps the walk's consumption of key and table: the rest of the walk consuming them implies the whole walk does |
| PopSpec.MapWalkShrinks | luajit/src/pop.rs:213-237 | with the literal guard a `HashMap` walk that returns a value has consumed the key and the table |
| PopSpec.MapWalkShrinksStep | luajit/src/pop.rs:221-229 | with the literal guard one pair step keeps the walk's consumption of key and table |
| PopSpec.PairPopShrinks | luajit/src/pop.rs:221-227 | with the literal guard a pair read without error leaves the stack lower than `lua_next` left it |
| PopSpec.PopRevShrinks | luajit/src/pop.rs:256-262 | with the literal guard a tuple pop that returns a value has consumed a slot when there was one |
| PopSpec.PopErrorsAreMismatches | luajit/src/error.rs:7-10 | every error a pop returns, of any shape under either guard rule, is a type mismatch; `StackUnderflow` is never returned |
| PopSpec.GuardedMismatchOnly | luajit/src/guard.rs:34-47 | a pop guard adds no error of its own |
| PopSpec.VecWalkMismatches | luajit/src/pop.rs:195-197 | every error a `Vec` walk returns is a mismatch from an element pop |
| PopSpec.VecWalkMismatchesStep | luajit/src/pop.rs:195-197 | one element step returns no error but a mismatch, and otherwise hands over to the rest of the walk |
| PopSpec.MapWalkMismatches | luajit/src/pop.rs:221-229 | every error a `HashMap` walk returns is a mismatch from a key or value pop |
| PopSpec.MapWalkMismatchesStep | luajit/src/pop.rs:221-229 | one pair step returns no error but a mismatch, and otherwise hands over to the rest of the walk |
| PopSpec.PairPopMismatches | luajit/src/pop.rs:221-227 | an error from the loop body is a mismatch from the key or the value pop |
| PopSpec.PopRevMismatches | luajit/src/pop.rs:256-262 | every error a tuple pop returns is a mismatch from a part |
| PushProtocol.VecKey | luajit/src/push.rs:135 | `idx as i32 + 1` is `idx + 1` while `idx` is below `i32::MAX` |
| PushProtocol.ToValueNil | luajit/src/push.rs:111-121 | `()`, `None` and `Some` of such a value push nil, and no other flat value does |
| PushProtocol.SlotNotNil | luajit/src/push.rs:21-109 | booleans, integers, floats, strings, vectors and maps never push nil |
| PushProtocol.PushFlat | luajit/src/push.rs:14-160 | a value without tuples or nil map keys pushes exactly one slot, its Lua value, reports 1, and keeps every slot below |
| PushProtocol.VecFillFlat | luajit/src/push.rs:131-137 | the element loop of `Vec::push` stores every element into the table on top |
| PushProtocol.MapFillFlat | luajit/src/push.rs:150-156 | the pair loop of `HashMap::push` stores every pair into the table on top |
| PushProtocol.MapFillStep | luajit/src/push.rs:151-156 | a pair that stores without aborting moves the loop on to the next pair |
| PushProtocol.MapPairFlat | luajit/src/push.rs:152-154 | one pair pushes its key and value and `lua_rawset` stores them in the table |
| PushProtocol.VecFillStep | luajit/src/push.rs:133-136 | an element that pushes and stores moves the loop on to the next element |
| PushProtocol.TuplePushFlat | luajit/src/push.rs:162-176 | a tuple of flat parts pushes their values in declared order and reports its arity |
| PushProtocol.ValuesOfAt | luajit/src/push.rs:171 | slot `j` of a tuple's pushed values is part `j`'s value |
| PushProtocol.TuplePushFrom | luajit/src/push.rs:170-172 | pushing the parts from `i` on adds their values in order |
| PushProtocol.TupleStep | luajit/src/push.rs:171 | a part that pushes moves the tuple push on to the next part |
| PushProtocol.TupleReportsArity | luajit/src/push.rs:172 | every tuple push that returns reports the tuple's arity, whatever its parts pushed |
| PushProtocol.PushNested | luajit/src/push.rs:162-176 | a flat value or a tuple of such values at any depth pushes exactly its slots, in declared order, and reports 1 or the arity, which for a tuple with a tuple part is less than the slots pushed |
| PushProtocol.TuplePushNested | luajit/src/push.rs:170-171 | the parts from `i` on push their slots one part after another |
| PushProtocol.NestedTupleUndercounts | luajit/src/push.rs:169-172 | `((true, false),)` pushes two booleans and reports 1 |
| PushProtocol.SummedSameEffect | luajit/src/push.rs:169-172 | the push that sums its parts' counts returns or aborts exactly when `push` does, with the same stack and reason: only the number reported differs |
| PushProtocol.TupleSummedSameEffect | luajit/src/push.rs:170-171 | the same, part by part |
| PushProtocol.SummedCountsSlots | luajit/src/push.rs:169-172 | with summed counts a nested value reports exactly the number of slots it pushed |
| PushProtocol.TupleSummedNested | luajit/src/push.rs:170-171 | the summed count of the parts from `i` on is the number of their slots |
| PushProtocol.TupleAbortKeepsEarlier | luajit/src/push.rs:171 | a part whose push aborts ends the tuple push; earlier parts stay on the stack and later ones are never pushed |
| PushProtocol.ValuesOfSnoc | luajit/src/push.rs:171 | one more part adds its value on top |
| PushProtocol.VecEntries | luajit/src/push.rs:128-139 | a vector of non-nil elements becomes a table holding element `j` under key `j + 1`, in order, and nothing else |
| PushProtocol.VecEntriesStep | luajit/src/push.rs:135 | each `lua_rawseti` adds a new key and so appends an entry |
| PushProtocol.VecOfNilsIsEmpty | luajit/src/push.rs:128-139 | a vector of nil-pushing elements becomes an empty table whatever its length |
| PushProtocol.NilKeyRaises | luajit/src/push.rs:147-159 | a map whose first key pushes nil raises "table index is nil" and leaves the table, the nil and the value on the stack |
| PushProtocol.NilPairRaises | luajit/src/push.rs:152-154 | a pair with a nil key pushes both and makes `lua_rawset` raise |
| PushProtocol.FirstPairAborts | luajit/src/push.rs:148-156 | a map push whose first pair aborts aborts the same way |
| RoundTrip.RoundTripsFlat | luajit/src/push.rs:111-160 | a value of a round-tripping shape other than a tuple is flat |
| RoundTrip.RoundTripsPushable | luajit/src/push.rs:28-82 | round-tripping shapes have a `Push` implementation, so they never involve `i32` |
| RoundTrip.RoundTripsIsShapeOk | luajit/src/pop.rs:264-289 | round-tripping shapes have a `Pop` implementation |
| RoundTrip.KeyInjective | luajit/src/push.rs:21-109 | distinct scalar keys push distinct Lua values |
| RoundTrip.MapEntries | luajit/src/push.rs:147-159 | a map of distinct scalar keys and non-nil values becomes a table of one entry per pair, in iteration order |
| RoundTrip.MapEntriesStep | luajit/src/push.rs:154 | each `lua_rawset` adds a new key and so appends an entry |
| RoundTrip.PopOfValue | luajit/src/pop.rs:18-238 | popping the Lua value a non-tuple value pushed, as its shape, yields the value and consumes exactly that slot |
| RoundTrip.PopOfScalar | luajit/src/pop.rs:18-165 | the same, for unit, boolean, integer, float and string |
| RoundTrip.PopOfOption | luajit/src/pop.rs:167-182 | the same, for an option |
| RoundTrip.PopOfVec | luajit/src/pop.rs:184-206 | the same, for a vector |
| RoundTrip.VecTableOfItems | luajit/src/push.rs:124-140 | a pushed vector's table has distinct non-nil keys and holds the elements in order |
| RoundTrip.PopOfMap | luajit/src/pop.rs:208-238 | the same, for a map |
| RoundTrip.MapTableOfPairs | luajit/src/push.rs:142-160 | a pushed map's table has distinct non-nil keys and holds the pairs in order |
| RoundTrip.PopRevOfValues | luajit/src/pop.rs:240-262 | `pop_rev!` over the values a tuple pushed gives the parts back in declared order |
| RoundTrip.RoundTripsNested | luajit/src/push.rs:162-176 | a value of a round-tripping shape pushes without aborting and leaves only its own slots |
| RoundTrip.PopRevOfSlots | luajit/src/pop.rs:256-262 | `pop_rev!` over the slots a tuple's parts pushed gives the parts back in declared order, whatever each part's slot count |
| RoundTrip.PopOfSlots | luajit/src/pop.rs:240-262 | the slots any round-tripping value pushes, tuples of tuples included, pop back as that value and leave the stack below them |
| RoundTrip.RoundTrip | luajit/src/pop.rs:14-16 | push then pop, under the intended guard, gives the value back and restores the stack exactly, for tuples of tuples too |
| RoundTrip.SomeNoneComesBackNone | luajit/src/push.rs:111-121 | `Some(None)` pushes nil, which pops back as `None` |
| RoundTrip.UnitVecComesBackEmpty | luajit/src/push.rs:124-140 | `vec![()]` pushes an empty table, which pops back as an empty vector |
| RoundTrip.NestedTupleRoundTrips | luajit/src/pop.rs:240-262 | `((true, false),)` pushed and popped comes back unchanged |
| RoundTrip.RoundTripAsWrittenFails | luajit/src/guard.rs:37-41 | under the literal guard the same round trip never gives a value back for a guarded shape |
| TableWalk.Resume | luajit/src/ffi.rs:215 | `lua_next` resumed after `q` entries of a table Lua can hold pushes entry `q`, or ends after the last |
| TableWalk.VecWalkFrom | luajit/src/pop.rs:195-201 | the `Vec` walk from any point pops the remaining values in table order, then the table |
| TableWalk.VecWalkLast | luajit/src/pop.rs:195-201 | the `Vec` walk after the last entry pops the table and returns the values read |
| TableWalk.VecWalkNext | luajit/src/pop.rs:195-197 | one `Vec` walk step reads the next entry's value |
| TableWalk.VecPopsTable | luajit/src/pop.rs:184-206 | `Vec::pop` of any table Lua can hold yields its values in table order, drops the keys and consumes the table |
| TableWalk.VecTableWalked | luajit/src/pop.rs:188-205 | a guarded `Vec` pop returns what its walk returns |
| TableWalk.PopAsVec | luajit/src/pop.rs:188-189 | a balanced `Vec` body passes through its guard |
| TableWalk.VecBodyOfTable | luajit/src/pop.rs:191-195 | a table on top starts the walk from a nil key |
| TableWalk.GuardedBalanced | luajit/src/guard.rs:34-47 | under the intended guard a body that consumed exactly the top slot passes through unchanged |
| TableWalk.MapWalkFrom | luajit/src/pop.rs:221-231 | the `HashMap` walk from any point inserts the remaining pairs in table order, then pops the table |
| TableWalk.MapWalkLast | luajit/src/pop.rs:221-233 | the `HashMap` walk after the last entry pops the table and returns the map built |
| TableWalk.MapWalkNext | luajit/src/pop.rs:221-229 | one `HashMap` walk step inserts the next entry's pair |
| TableWalk.CollectSnoc | luajit/src/pop.rs:228 | one more pair read is one more insertion |
| TableWalk.MapPopsTable | luajit/src/pop.rs:208-238 | `HashMap::pop` of any table Lua can hold yields the map built by inserting its popped pairs in table order, and consumes the table |
| TableWalk.MapTableWalked | luajit/src/pop.rs:213-237 | a guarded `HashMap` pop returns what its walk returns |
| TableWalk.PopAsMap | luajit/src/pop.rs:213-214 | a balanced `HashMap` body passes through its guard |
| TableWalk.MapBodyOfTable | luajit/src/pop.rs:216-219 | a table on top starts the walk from a nil key |
| TableWalk.MapPopsDistinct | luajit/src/pop.rs:208-238 | when the popped keys are distinct, `HashMap::pop` gives back exactly those pairs in table order |
| Errors.Display | luajit/src/error.rs:5-13 | the display text of each error variant, as `thiserror` derives it |
| Errors.Digits | luajit/src/pop.rs:29 | the decimal digits of a number: non-empty, digits only, no leading zero |
| Errors.DecimalRoundTrip | luajit/src/pop.rs:29 | the decimal rendering of any `i32` tag reads back as that number |
| Errors.Handle | luajit/src/error.rs:15-19 | `handle` pushes the display text as a Lua string that decodes back to the text, and raises it; it never returns |
| Utf8.LossyOfValid | luajit/src/pop.rs:158 | lossy decoding leaves well-formed UTF-8 unchanged |
| Utf8.LossyIsValid | luajit/src/pop.rs:158 | lossy decoding always yields well-formed UTF-8 |
| Utf8.EncodeIsValid | luajit/src/push.rs:97-109 | the bytes of a Rust string are well-formed UTF-8 |
| Utf8.LossyOfEncode | luajit/src/pop.rs:158 | a Rust string's bytes decode back to themselves |
| Utf8.DecodeEncodeChar | luajit/src/push.rs:99 | decoding one encoded character gives the character back |
| Utf8.EncodeInjective | luajit/src/push.rs:97-109 | distinct strings have distinct bytes |
| Util.CountIsLength | luajit/src/util.rs:1-4 | `count!` evaluates to the number of its arguments |
| CStr.NullTerminate | luajit/src/cstr.rs:10-12 | the string followed by exactly one NUL character |
| CStr.CRead | luajit/src/cstr.rs:16-18 | a C reader of a `const char *` sees the bytes before the first NUL, and only when there is one |
| CStr.EncodeHasZero | luajit/src/cstr.rs:10-12 | a string's bytes contain a zero byte exactly when the string contains NUL |
| CStr.NullTerminatedBytes | luajit/src/cstr.rs:10-12 | the bytes of a terminated string are the string's bytes and one zero |
| CStr.TerminatedReadsBack | luajit/src/cstr.rs:10-12 | a C reader always finds the terminator, and reads the whole string exactly when it has no NUL of its own |
| CStr.UnterminatedReadFails | luajit/src/cstr.rs:15-25 | `as_cstr` adds no terminator: a C reader runs off the end of the bytes exactly when the string holds no NUL |
| CStr.TestByte | luajit/src/cstr.rs:27-35 | byte 3 of `"test"` is `'t'` |
| Macros.ParseFromSpec | macros/src/lib.rs:15-24 | the argument loop succeeds exactly on a run of paths and keeps the last; it fails at the first other argument |
| Macros.ParseSpec | macros/src/lib.rs:12-29 | `parse` accepts exactly a non-empty list of paths and keeps the last; it rejects the first non-path with the `name = "..."` message, and an empty list with "expected module path" |
| Macros.SplitJoin | macros/src/lib.rs:40-46 | joining `_`-free segments with `_` and splitting the result gives them back |
| Macros.SymbolInjective | macros/src/lib.rs:40-51 | paths of `_`-free segments get distinct `luaopen_` symbols |
| Macros.SymbolCollision | macros/src/lib.rs:40-51 | `a_b::c` and `a::b_c` both export `luaopen_a_b_c` |
| Macros.SingleSegmentSymbol | macros/src/lib.rs:51 | a one-segment path's symbol is `luaopen_` and the segment |
| Builder.CheckCollision | src/builder.rs:60-69 | fails exactly when the name is already a field, with "Module already contains a field named {name}" |
| Builder.Add | src/builder.rs:82-92 | an adder succeeds exactly for a new name whose conversion succeeded; it then adds exactly that field and keeps the others, and on failure leaves the builder unchanged |
| Builder.With | src/builder.rs:276-280 | a consuming adder returns the builder an adder leaves, or the adder's error |
| Builder.ToLua | src/builder.rs:299-303 | converting the builder gives a Lua table with distinct keys in which every field name finds its value |
| Builder.SetFieldsLookup | src/builder.rs:292-294 | after the `set` loop each name reads its value, no other key is present, and keys are distinct |
| Builder.BuildHoldsFields | src/builder.rs:290-296 | the built table holds exactly the fields, with a nil field absent, whatever the iteration order |
| Builder.BuildOrderIrrelevant | src/builder.rs:292-294 | two iteration orders give tables that read alike at every key |
| Builder.AddThenBuild | src/builder.rs:82-92 | an added field is found in the built module and leaves the other fields' lookups alone |
| Builder.NewBuildsEmpty | src/builder.rs:53-58 | a fresh builder builds an empty table |
| Entry.PanicRaise | luajit/src/core.rs:6-14 | the panic hook pushes the `Debug` text of a `dyn Any` payload, "Any { .. }", on top of the stack and raises it |
| Entry.ReturnsIffPushed | luajit/src/entry.rs:19-22 | the entry point returns exactly when the plugin returned and its push returned, with the push's count and stack; a raise leaves its error on top |
| Entry.AfterPushSpec | luajit/src/entry.rs:20 | `unwrap` of the push returns exactly for a returned push; any raise leaves its error on top |
| Entry.FlatModuleReturned | luajit/src/entry.rs:20 | a module of one flat value returns 1 with that value on top |
| Entry.TupleModuleReturned | luajit/src/entry.rs:20 | a tuple module returns its arity with its values on top in order |
| Entry.NestedModuleReturned | luajit/src/entry.rs:20 | a module of nested tuples leaves all its slots on the stack but returns only 1 or its arity, so Lua keeps fewer results than were pushed |
| Entry.SummedEntryAgrees | luajit/src/entry.rs:19-22 | the entry point with summed tuple counts differs from `entry` only in the count it returns |
| Entry.NestedModuleAllReturned | luajit/src/entry.rs:20 | with summed tuple counts every slot a nested module pushed is returned to Lua |
| Entry.NestedTupleModule | luajit/src/entry.rs:20 | the module `((true, false),)` returns 1, so Lua receives only `false`; with summed counts it returns 2 |
| Entry.ErrorRaised | luajit/src/entry.rs:21 | a plugin error raises its display text as a Lua string, which decodes back to the text |
| Entry.PanicMessageLost | luajit/src/core.rs:9 | every panic raises the same text, "Any { .. }", whatever its message |
| Entry.PushRaiseEscapes | luajit/src/entry.rs:20 | a Lua error raised during the push leaves the entry point with its message on top |
| Entry.NilKeyModuleRaises | luajit/src/entry.rs:20 | a module map whose first key is nil raises "table index is nil" out of the entry point |

## Left out

- `set_ssize` (luajit/src/pop.rs:10, 248) is not part of this model, and its source is not available. The tuple pop takes it to leave the stack alone.
- PopProtocol.VecWalk and PopProtocol.MapWalk carry a step bound, the table's entry count, that the source does not have. The bound lets the walks terminate in the model. It never runs out on a table Lua can hold (`TableWalk.VecPopsTable`, `TableWalk.MapPopsTable`).
- Tables are compared by content, while Lua compares them by reference. Functions, userdata and threads carry an identity. The pop lemmas require a table's keys to be distinct and non-nil (`Walkable`). The round trip uses only scalar map keys, so a map whose keys push equal tables is not covered.
- The order of a table's entries stands in for the order `lua_next` visits them. A `HashMap`'s iteration order is a fixed sequence of pairs. `build`'s order over its fields is a parameter, constrained only to visit each field once.
- Floating-point values are known only by their truncation toward zero: `f32` narrowing, rounding, NaN and infinities are not modelled.
- RoundTrip.RoundTrip: integers are exact on the stack up to 2^53 in magnitude (`MaxExact`, the precision of the `double` Lua 5.1 stores). Values beyond that are excluded from the round trip rather than modelled as rounding.
- RoundTrip.RoundTrip: the shapes inside an `Option`, the elements of a `Vec` and the values of a `HashMap` must push exactly one non-nil slot (`Slot`), and map keys must be `bool`, a non-`i32` integer or `String` (`ScalarKey`). Other shapes do not round-trip. A nil-pushing inner value reads back as `None` (`RoundTrip.SomeNoneComesBackNone`, `PushProtocol.ToValueNil`). Nil-pushing elements vanish from the table (`RoundTrip.UnitVecComesBackEmpty`, `PushProtocol.VecOfNilsIsEmpty`). `i32` has no `Push` implementation at all.
- Ffi.PushInteger: the integer is stored exactly, while `lua_pushinteger` converts it to a `double`. The two agree only up to 2^53 in magnitude. The same holds for the integer pop (`PopSpec.ScalarPopCorrected`): `lua_tointeger` reads back the stored number exactly. Only the round trip bounds its integers (`MaxExact`).
- PushProtocol.VecKey: `idx as i32 + 1` (luajit/src/push.rs:135) wraps as in a release build. A debug build panics on the overflow instead. The round trip excludes vectors long enough to reach it.
- luajit/src/state.rs is not part of this model. It covers the thread-local state, the undefined behaviour of a second `init`, and the `unwrap` in `with_state`. Of luajit/src/core.rs only the text the panic hook raises is modelled.
- Memory allocation failures in `lua_createtable`, `lua_pushlstring`, mlua's `create_table`, `create_function` and `pack` are not modelled.
- Builder.Add: the mlua conversion an adder makes (`create_function` and `pack`, or `to_lua`) is a parameter holding its outcome. The `add_*`/`with_*` variants differ only in that call, and are modelled once.
- The code `#[module]` generates (macros/src/lib.rs:48-61), token streams, spans and raw identifiers are not modelled. Path segments are strings.
- Ffi.GetGlobal: the globals table is taken to have no metatable, so the lookup is raw. `lua_getfield` would run an `__index` metamethod, which could raise or return anything.
- Ffi.Type: the upvalue pseudo-indices below `LUA_GLOBALSINDEX` are not modelled and get `NONE`. The core never uses them.
- `lua_checkstack` and stack overflow are not modelled: a push always finds room. The capacity hints given to `lua_createtable` and `with_capacity` (from `lua_objlen`) have no effect on the model.
- The rest of the repository is not modelled: the `vim` API wrappers, the logging and the keymaps. Neither are the C API functions the core never calls.

## Findings

| source | as written | input that shows it | evidently intended | confidence | as-written member | corrected member |
|---|---|---|---|---|---|---|
| luajit/src/guard.rs:37-41 | the drop computes `ssize = lua_gettop - start` and compares that difference, not the height, with `start`; `StackGuard::pop` records the full height although its scope consumes one value | popping `true` from a stack holding only `true`: start 1, final height 0, so `ssize = -1 < 1` and the guard panics "Expected size 1, found -1" | trim a height above the baseline, panic on one below it, with the pop guard's baseline one below the height it sees, so that every successful pop returns its value | not executed | Guard.AsWrittenBreaksRule, PopSpec.AsWrittenBoolWitness | Guard.DropIntendedSpec, Guard.PopBaselineSpec, RoundTrip.RoundTrip |
| luajit/src/push.rs:172 | a tuple push reports `count!` of its parts, the arity, even when a part is itself a tuple that pushed several slots | the module `((true, false),)`: `entry` pushes two booleans and returns 1, so Lua receives only `false` | a tuple reports the sum of its parts' counts, so that `entry` returns every value it pushed | not executed | PushProtocol.NestedTupleUndercounts, Entry.NestedTupleModule | PushProtocol.SummedCountsSlots, Entry.NestedModuleAllReturned |
