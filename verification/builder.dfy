/**
 The module builder of src/builder.rs: a map from field names to Lua values,
 filled by `add_*` (through `&mut self`) or `with_*` (consuming the builder)
 calls that refuse a name already present, and turned into a Lua table by
 `build`.

 Each adder makes one call into mlua to turn its argument into a Lua value
 (`create_function` and `pack`, or `to_lua`); the outcome of that call is a
 parameter here. `build` iterates a `HashMap`, whose order is unspecified;
 the order is a parameter too, constrained only to visit every field once.
 */
module Builder {
  import opened Wrappers
  import opened Utf8
  import opened Ffi

  /** The part of `mlua::Error` the builder produces or passes on. */
  datatype LuaError =
    | RuntimeError(message: string)
    | Foreign(message: string)

  datatype ModuleBuilder = ModuleBuilder(fields: map<string, Value>)

  /** `ModuleBuilder::new`: no fields. */
  function New(): ModuleBuilder
  {
    ModuleBuilder(map[])
  }

  const CollisionPrefix: string := "Module already contains a field named "

  /** `check_collision`: refuse a name the builder already holds. */
  function CheckCollision(b: ModuleBuilder, name: string): (r: Result<(), LuaError>)
    ensures r.Err? <==> name in b.fields
    ensures r.Err? ==> r.error == RuntimeError(CollisionPrefix + name)
  {
    if name in b.fields then Err(RuntimeError(CollisionPrefix + name)) else Ok(())
  }

  /** The builder as an `add_*` call leaves it, and what the call returns. */
  datatype Added = Added(after: ModuleBuilder, result: Result<(), LuaError>)

  /** One `add_*` call with the outcome `converted` of its mlua conversion.
      Both `?` exits come before `insert`, so a failed call leaves the
      builder as it was. */
  function Add(b: ModuleBuilder, name: string, converted: Result<Value, LuaError>): (a: Added)
    ensures a.result.Ok? <==> name !in b.fields && converted.Ok?
    ensures a.result.Err? ==> a.after == b
    ensures name in b.fields ==> a.result == Err(RuntimeError(CollisionPrefix + name))
    ensures name !in b.fields && converted.Err? ==> a.result == Err(converted.error)
    ensures a.result.Ok? ==>
      && a.after.fields.Keys == b.fields.Keys + {name}
      && a.after.fields[name] == converted.value
      && forall n :: n in b.fields ==> a.after.fields[n] == b.fields[n]
  {
    match CheckCollision(b, name)
    case Err(e) => Added(b, Err(e))
    case Ok(_) =>
      match converted
      case Err(e) => Added(b, Err(e))
      case Ok(v) => Added(ModuleBuilder(b.fields[name := v]), Ok(()))
  }

  /** One `with_*` call: the same steps on a builder taken by value, which
      is dropped on failure. */
  function With(b: ModuleBuilder, name: string, converted: Result<Value, LuaError>): (r: Result<ModuleBuilder, LuaError>)
    ensures r.Ok? <==> name !in b.fields && converted.Ok?
    ensures r.Ok? ==> r.value == Add(b, name, converted).after
    ensures r.Err? ==> r.error == Add(b, name, converted).result.error
  {
    var a := Add(b, name, converted);
    match a.result
    case Ok(_) => Ok(a.after)
    case Err(e) => Err(e)
  }

  /** A field name as a table key: a Lua string of its UTF-8 bytes. */
  function Key(name: string): Value
  {
    Str(Encode(name))
  }

  /** `order` is an iteration order of `fields`: each name once. */
  predicate Enumerates(order: seq<string>, fields: map<string, Value>)
  {
    && (forall i, j :: 0 <= i < j < |order| ==> order[i] != order[j])
    && (forall i :: 0 <= i < |order| ==> order[i] in fields)
    && (forall n :: n in fields ==> n in order)
  }

  /** The entries of the table after `module.set(name, value)` for the
      names of `order`, in order. The fresh table has no metatable, so
      `set` assigns raw: a nil value leaves no entry. */
  function SetFields(fields: map<string, Value>, order: seq<string>): seq<Entry>
    requires forall i :: 0 <= i < |order| ==> order[i] in fields
  {
    if |order| == 0 then []
    else
      var n := order[|order| - 1];
      SetEntry(SetFields(fields, order[..|order| - 1]), Key(n), fields[n])
  }

  /** `build`: a fresh table holding every field. */
  function Build(b: ModuleBuilder, order: seq<string>): seq<Entry>
    requires Enumerates(order, b.fields)
  {
    SetFields(b.fields, order)
  }

  /** `<ModuleBuilder as ToLua>::to_lua`: the built table as a Lua value. */
  function ToLua(b: ModuleBuilder, order: seq<string>): (v: Value)
    requires Enumerates(order, b.fields)
    ensures v.Table? && DistinctKeys(v.entries)
    ensures forall n :: n in b.fields ==> Lookup(v.entries, Key(n)) == Stored(b.fields[n])
  {
    BuildHoldsFields(b, order);
    Table(Build(b, order))
  }

  function Stored(v: Value): Option<Value>
  {
    if v == Nil then None else Some(v)
  }

  /** After setting the names of `order`, each of them maps to its field
      value (none for nil), every other key is absent, and keys are
      distinct. */
  lemma {:induction false} SetFieldsLookup(fields: map<string, Value>, order: seq<string>)
    requires forall i :: 0 <= i < |order| ==> order[i] in fields
    requires forall i, j :: 0 <= i < j < |order| ==> order[i] != order[j]
    ensures DistinctKeys(SetFields(fields, order))
    ensures forall i :: 0 <= i < |order| ==>
      Lookup(SetFields(fields, order), Key(order[i])) == Stored(fields[order[i]])
    ensures forall k :: (forall i :: 0 <= i < |order| ==> Key(order[i]) != k) ==>
      Lookup(SetFields(fields, order), k) == None
  {
    if |order| > 0 {
      var m := |order| - 1;
      var init := order[..m];
      var n := order[m];
      SetFieldsLookup(fields, init);
      var es := SetFields(fields, init);
      SetEntryLookup(es, Key(n), fields[n]);
      forall i | 0 <= i < m
        ensures Lookup(SetFields(fields, order), Key(order[i])) == Stored(fields[order[i]])
      {
        assert init[i] == order[i] != n;
        if Key(order[i]) == Key(n) {
          EncodeInjective(order[i], n);
        }
      }
      forall k | forall i :: 0 <= i < |order| ==> Key(order[i]) != k
        ensures Lookup(SetFields(fields, order), k) == None
      {
        assert forall i :: 0 <= i < m ==> Key(init[i]) == Key(order[i]) != k;
        assert Key(order[m]) != k;
      }
    }
  }

  /** The built table holds exactly the builder's fields: each name finds
      its value (a nil value is no entry, as for any Lua table), no other
      key is present, and no key occurs twice; whatever the iteration
      order. */
  lemma BuildHoldsFields(b: ModuleBuilder, order: seq<string>)
    requires Enumerates(order, b.fields)
    ensures DistinctKeys(Build(b, order))
    ensures forall n :: n in b.fields ==> Lookup(Build(b, order), Key(n)) == Stored(b.fields[n])
    ensures forall k :: (forall n :: n in b.fields ==> Key(n) != k) ==> Lookup(Build(b, order), k) == None
  {
    SetFieldsLookup(b.fields, order);
    forall n | n in b.fields
      ensures Lookup(Build(b, order), Key(n)) == Stored(b.fields[n])
    {
      var i :| 0 <= i < |order| && order[i] == n;
    }
  }

  /** Hence the order `build` happens to iterate in is unobservable
      through lookups. */
  lemma BuildOrderIrrelevant(b: ModuleBuilder, o1: seq<string>, o2: seq<string>, k: Value)
    requires Enumerates(o1, b.fields) && Enumerates(o2, b.fields)
    ensures Lookup(Build(b, o1), k) == Lookup(Build(b, o2), k)
  {
    BuildHoldsFields(b, o1);
    BuildHoldsFields(b, o2);
    if exists n :: n in b.fields && Key(n) == k {
      var n :| n in b.fields && Key(n) == k;
    }
  }

  /** A successful add makes the name findable in the built module, with
      the converted value, and leaves every other name's lookup alone. */
  lemma AddThenBuild(b: ModuleBuilder, name: string, v: Value, before: seq<string>, after: seq<string>)
    requires name !in b.fields
    requires Enumerates(before, b.fields)
    requires Enumerates(after, Add(b, name, Ok(v)).after.fields)
    ensures Lookup(Build(Add(b, name, Ok(v)).after, after), Key(name)) == Stored(v)
    ensures forall n :: n in b.fields ==>
      Lookup(Build(Add(b, name, Ok(v)).after, after), Key(n)) == Lookup(Build(b, before), Key(n))
  {
    BuildHoldsFields(b, before);
    BuildHoldsFields(Add(b, name, Ok(v)).after, after);
  }

  /** A fresh builder builds an empty table. */
  lemma NewBuildsEmpty()
    ensures Build(New(), []) == []
  {
  }
}
