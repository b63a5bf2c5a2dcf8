/**
 The raw interface to the Lua 5.1 / LuaJIT C API (luajit/src/ffi.rs), as an
 abstract value-level model: the stack is a sequence of values with the top at
 the end, and each primitive the marshalling layer uses is a pure function from
 a stack to a stack. Tables are values holding an ordered list of entries; that
 order is the order in which `lua_next` visits them.
 */
module Ffi {
  import opened Wrappers
  import opened Utf8

  // ---------------------------------------------------------------------------
  // Type tags (`types` in ffi.rs)

  const NONE: int := -1
  const NIL: int := 0
  const BOOLEAN: int := 1
  const LIGHTUSERDATA: int := 2
  const NUMBER: int := 3
  const STRING: int := 4
  const TABLE: int := 5
  const FUNCTION: int := 6
  const USERDATA: int := 7
  const THREAD: int := 8

  datatype TypeId =
    | TNone | TNil | TBoolean | TLightUserData | TNumber
    | TString | TTable | TFunction | TUserData | TThread

  /** The `#[repr(i32)]` discriminant of a `TypeId`. */
  function Code(t: TypeId): (c: int)
    ensures NONE <= c <= THREAD
    ensures FromCode(c) == Some(t)
  {
    match t
    case TNone => NONE
    case TNil => NIL
    case TBoolean => BOOLEAN
    case TLightUserData => LIGHTUSERDATA
    case TNumber => NUMBER
    case TString => STRING
    case TTable => TABLE
    case TFunction => FUNCTION
    case TUserData => USERDATA
    case TThread => THREAD
  }

  /** The tag an integer returned by `lua_type` stands for, if any. */
  function FromCode(c: int): Option<TypeId>
  {
    if c == NONE then Some(TNone)
    else if c == NIL then Some(TNil)
    else if c == BOOLEAN then Some(TBoolean)
    else if c == LIGHTUSERDATA then Some(TLightUserData)
    else if c == NUMBER then Some(TNumber)
    else if c == STRING then Some(TString)
    else if c == TABLE then Some(TTable)
    else if c == FUNCTION then Some(TFunction)
    else if c == USERDATA then Some(TUserData)
    else if c == THREAD then Some(TThread)
    else None
  }

  /** Distinct tags have distinct codes, and every code in -1..8 names a tag. */
  lemma CodesDistinct(t: TypeId, u: TypeId)
    ensures Code(t) == Code(u) <==> t == u
  {
    assert FromCode(Code(t)) == Some(t) && FromCode(Code(u)) == Some(u);
  }

  lemma {:induction false} CodesCover(c: int)
    requires NONE <= c <= THREAD
    ensures FromCode(c).Some? && Code(FromCode(c).value) == c
  {
  }

  // ---------------------------------------------------------------------------
  // Status codes (`status` in ffi.rs)

  const OK: int := 0
  const YIELD: int := 1
  const ERRRUN: int := 2
  const ERRSYNTAX: int := 3
  const ERRMEM: int := 4
  const ERRERR: int := 5

  datatype Status = StOk | StYield | StErrRun | StErrSyntax | StErrMem | StErrErr

  /** The `#[repr(u32)]` discriminant of a `Status`. */
  function StatusCode(s: Status): (c: int)
    ensures OK <= c <= ERRERR
  {
    match s
    case StOk => OK
    case StYield => YIELD
    case StErrRun => ERRRUN
    case StErrSyntax => ERRSYNTAX
    case StErrMem => ERRMEM
    case StErrErr => ERRERR
  }

  /** The status discriminants are pairwise distinct. */
  lemma StatusCodesDistinct(s: Status, t: Status)
    ensures StatusCode(s) == StatusCode(t) <==> s == t
  {
  }

  // ---------------------------------------------------------------------------
  // Pseudo-indices (`index` in ffi.rs; section 3.3 of the Lua 5.1 Reference Manual)

  const REGISTRY: int := -10000
  const ENVIRON: int := -10001
  const GLOBALS: int := -10002

  datatype Index = Globals | Environ | Registry

  function IndexCode(i: Index): (c: int)
    ensures c == REGISTRY || c == ENVIRON || c == GLOBALS
  {
    match i
    case Globals => GLOBALS
    case Environ => ENVIRON
    case Registry => REGISTRY
  }

  /** The `Index` discriminants are pairwise distinct. */
  lemma IndexCodesDistinct(i: Index, j: Index)
    ensures IndexCode(i) == IndexCode(j) <==> i == j
  {
  }

  /** `LUAI_MAXCSTACK` of Lua 5.1: no C function's stack holds more slots. */
  const MAXCSTACK: nat := 8000

  /** `LUA_MULTRET`. */
  const MULTRET: int := -1

  // ---------------------------------------------------------------------------
  // Values and the stack

  /** The four value kinds the core never inspects beyond their tag. */
  datatype OtherKind = LightUserData | Function | UserData | Thread

  /** A Lua value. Numbers are known by the integer `lua_tointeger` returns;
      `Flt` is a number the model does not know exactly (floating point is out
      of scope), remembered only by that integer. A function, userdata or
      thread is a reference: `id` is its identity, so two distinct objects of
      one kind are distinct values (a light userdata's `id` is its address).
      A table, in contrast, is compared by its contents. */
  datatype Value =
    | Nil
    | Bool(b: bool)
    | Num(n: int)
    | Flt(trunc: int)
    | Str(bytes: seq<byte>)
    | Table(entries: seq<Entry>)
    | Other(kind: OtherKind, id: nat)

  datatype Entry = Entry(key: Value, val: Value)

  type Stack = seq<Value>

  /** `lua_type` of a value that is on the stack. */
  function TypeOf(v: Value): (t: TypeId)
    ensures t != TNone
  {
    match v
    case Nil => TNil
    case Bool(_) => TBoolean
    case Num(_) => TNumber
    case Flt(_) => TNumber
    case Str(_) => TString
    case Table(_) => TTable
    case Other(k, _) =>
      match k
      case LightUserData => TLightUserData
      case Function => TFunction
      case UserData => TUserData
      case Thread => TThread
  }

  /** The 0-based position a stack index designates (section 3.1 of the
      Lua 5.1 Reference Manual): positive indices count from the bottom (1 is
      the first slot), negative ones from the top (-1 is the top); anything
      else is not a valid stack index. */
  function Position(s: Stack, idx: int): (p: Option<nat>)
    ensures p.Some? ==> p.value < |s|
    ensures p.Some? <==> (1 <= idx <= |s| || -|s| <= idx <= -1)
  {
    if 1 <= idx <= |s| then Some(idx - 1)
    else if -|s| <= idx <= -1 then Some(|s| + idx)
    else None
  }

  /** Pseudo-indices are never valid stack indices of a stack Lua allows. */
  lemma PseudoIndicesNotOnStack(s: Stack, i: Index)
    requires |s| <= MAXCSTACK
    ensures Position(s, IndexCode(i)).None?
    ensures IndexCode(i) < -|s|
  {
  }

  /** `lua_gettop`. */
  function GetTop(s: Stack): (n: int)
    ensures n >= 0
    ensures n == 0 <==> s == []
  {
    |s|
  }

  /** `lua_type`: each of the three pseudo-indices of `Index`, which sit
      next to each other below every stack index, designates a table (the
      registry, the environment or the globals); any other index is a stack
      index, and `TNone` means it designates no slot. */
  function Type(s: Stack, idx: int): (t: TypeId)
    ensures GLOBALS <= idx <= REGISTRY ==> t == TTable
    ensures !(GLOBALS <= idx <= REGISTRY) ==> (t == TNone <==> Position(s, idx).None?)
    ensures !(GLOBALS <= idx <= REGISTRY) && Position(s, idx).Some? ==> t == TypeOf(s[Position(s, idx).value])
  {
    if GLOBALS <= idx <= REGISTRY then TTable
    else match Position(s, idx)
      case None => TNone
      case Some(p) => TypeOf(s[p])
  }

  /** `lua_type` and the table lookup of the getters agree on what a
      pseudo-index designates. */
  lemma PseudoIsTable(s: Stack, env: Env, i: Index)
    ensures Type(s, IndexCode(i)) == TTable
    ensures TableAt(s, env, IndexCode(i)).Some?
  {
  }

  /** What `lua_settop` accepts: any non-negative index, or a negative one
      that does not reach below the bottom. */
  predicate SetTopOk(s: Stack, idx: int)
  {
    idx >= 0 || -(idx + 1) <= |s|
  }

  /** `lua_settop`: cut the stack or fill it with nils. */
  function SetTop(s: Stack, idx: int): (r: Stack)
    requires SetTopOk(s, idx)
    ensures idx >= 0 ==> |r| == idx
    ensures idx < 0 ==> |r| == |s| + idx + 1
  {
    var n := if idx >= 0 then idx else |s| + idx + 1;
    if n <= |s| then s[..n] else s + seq(n - |s|, _ => Nil)
  }

  /** `lua_pop(L, n)`, that is `lua_settop(L, -n - 1)`. */
  function PopN(s: Stack, n: nat): (r: Stack)
    requires n <= |s|
    ensures r == s[..|s| - n]
  {
    SetTop(s, -(n as int) - 1)
  }

  /** `lua_pushnil`. */
  function PushNil(s: Stack): (r: Stack)
    ensures |r| == |s| + 1 && r[..|s|] == s && r[|s|] == Nil
  {
    s + [Nil]
  }

  /** `lua_pushboolean`. */
  function PushBoolean(s: Stack, b: bool): (r: Stack)
    ensures |r| == |s| + 1 && r[..|s|] == s && r[|s|] == Bool(b)
  {
    s + [Bool(b)]
  }

  /** `lua_pushinteger`. */
  function PushInteger(s: Stack, n: int): (r: Stack)
    ensures |r| == |s| + 1 && r[..|s|] == s && r[|s|] == Num(n)
  {
    s + [Num(n)]
  }

  /** `lua_pushnumber`, for a number known by its truncation. */
  function PushNumber(s: Stack, trunc: int): (r: Stack)
    ensures |r| == |s| + 1 && r[..|s|] == s && r[|s|] == Flt(trunc)
  {
    s + [Flt(trunc)]
  }

  /** `lua_pushlstring`: Lua copies the bytes. */
  function PushLString(s: Stack, bytes: seq<byte>): (r: Stack)
    ensures |r| == |s| + 1 && r[..|s|] == s && r[|s|] == Str(bytes)
  {
    s + [Str(bytes)]
  }

  /** `lua_pushvalue`: a copy of the designated slot on top, if there is one. */
  function PushValue(s: Stack, idx: int): (r: Option<Stack>)
    ensures r.Some? <==> Position(s, idx).Some?
    ensures r.Some? ==> r.value == s + [s[Position(s, idx).value]]
  {
    match Position(s, idx)
    case None => None
    case Some(p) => Some(s + [s[p]])
  }

  /** `lua_pushvalue(state, -1)` copies the top slot of a non-empty stack. */
  lemma PushValueTop(s: Stack)
    requires |s| >= 1
    ensures PushValue(s, -1) == Some(s + [s[|s| - 1]])
  {
  }

  /** `lua_createtable`: the size hints only preallocate, so a fresh empty
      table is pushed whatever they are. */
  function CreateTable(s: Stack, narr: int, nrec: int): (r: Stack)
    ensures |r| == |s| + 1 && r[..|s|] == s && r[|s|] == Table([])
  {
    s + [Table([])]
  }

  // ---------------------------------------------------------------------------
  // Tables

  /** `t[k]` read raw: the value of the first entry with key `k`. */
  function Lookup(es: seq<Entry>, k: Value): Option<Value>
  {
    if |es| == 0 then None
    else if es[0].key == k then Some(es[0].val)
    else Lookup(es[1..], k)
  }

  /** A key is found exactly when some entry carries it. */
  lemma {:induction false} LookupFound(es: seq<Entry>, k: Value)
    ensures Lookup(es, k).Some? <==> exists i :: 0 <= i < |es| && es[i].key == k
  {
    if |es| > 0 {
      LookupFound(es[1..], k);
      assert forall i :: 1 <= i < |es| ==> es[i] == es[1..][i - 1];
      if Lookup(es[1..], k).Some? {
        var i :| 0 <= i < |es[1..]| && es[1..][i].key == k;
        assert es[i + 1].key == k;
      }
    }
  }

  /** Position of the first entry with key `k`. */
  function KeyPos(es: seq<Entry>, k: Value): Option<nat>
  {
    if |es| == 0 then None
    else if es[0].key == k then Some(0)
    else
      match KeyPos(es[1..], k)
      case None => None
      case Some(p) => Some(p + 1)
  }

  /** `KeyPos` finds the first entry with the key, and finds none only when
      no entry has it. */
  lemma {:induction false} KeyPosFirst(es: seq<Entry>, k: Value)
    ensures KeyPos(es, k).Some? ==> KeyPos(es, k).value < |es| && es[KeyPos(es, k).value].key == k
    ensures KeyPos(es, k).Some? ==> forall i :: 0 <= i < KeyPos(es, k).value ==> es[i].key != k
    ensures KeyPos(es, k).None? ==> forall i :: 0 <= i < |es| ==> es[i].key != k
  {
    if |es| > 0 && es[0].key != k {
      KeyPosFirst(es[1..], k);
      if KeyPos(es[1..], k).None? {
        forall i | 1 <= i < |es| ensures es[i].key != k {
          assert es[i] == es[1..][i - 1];
        }
      } else {
        forall i | 1 <= i < KeyPos(es, k).value ensures es[i].key != k {
          assert es[i] == es[1..][i - 1];
        }
      }
    }
  }

  predicate DistinctKeys(es: seq<Entry>)
  {
    forall i, j :: 0 <= i < j < |es| ==> es[i].key != es[j].key
  }

  function RemoveKey(es: seq<Entry>, k: Value): seq<Entry>
  {
    if |es| == 0 then []
    else if es[0].key == k then RemoveKey(es[1..], k)
    else [es[0]] + RemoveKey(es[1..], k)
  }

  /** Removal keeps every entry with another key, in order, and no entry
      with key `k`. */
  lemma {:induction false} RemoveKeyEntries(es: seq<Entry>, k: Value)
    ensures forall i :: 0 <= i < |RemoveKey(es, k)| ==> RemoveKey(es, k)[i].key != k
    ensures forall e :: e in RemoveKey(es, k) <==> e in es && e.key != k
  {
    if |es| > 0 {
      RemoveKeyEntries(es[1..], k);
      assert forall e :: e in es <==> e == es[0] || e in es[1..];
    }
  }

  function ReplaceVal(es: seq<Entry>, k: Value, v: Value): (r: seq<Entry>)
    ensures |r| == |es|
  {
    if |es| == 0 then []
    else [Entry(es[0].key, if es[0].key == k then v else es[0].val)] + ReplaceVal(es[1..], k, v)
  }

  /** Replacement keeps every key in place and changes only the values
      stored under `k`. */
  lemma {:induction false} ReplaceValEntries(es: seq<Entry>, k: Value, v: Value)
    ensures forall i :: 0 <= i < |es| ==> ReplaceVal(es, k, v)[i].key == es[i].key
    ensures forall i :: 0 <= i < |es| ==>
      ReplaceVal(es, k, v)[i].val == if es[i].key == k then v else es[i].val
  {
    if |es| > 0 {
      ReplaceValEntries(es[1..], k, v);
      var r := ReplaceVal(es, k, v);
      assert forall i :: 1 <= i < |es| ==> r[i] == ReplaceVal(es[1..], k, v)[i - 1] && es[i] == es[1..][i - 1];
    }
  }

  /** Raw assignment `t[k] = v` (the key is not nil): assigning nil removes
      the key; an existing key keeps its place in the visiting order; a new
      key is visited last. */
  function SetEntry(es: seq<Entry>, k: Value, v: Value): seq<Entry>
  {
    if v == Nil then RemoveKey(es, k)
    else if KeyPos(es, k).Some? then ReplaceVal(es, k, v)
    else es + [Entry(k, v)]
  }

  /** After `t[k] = v`, reading `k` gives `v` (nothing for nil) and every
      other key reads as before; no two entries come to share a key. */
  lemma SetEntryLookup(es: seq<Entry>, k: Value, v: Value)
    ensures Lookup(SetEntry(es, k, v), k) == if v == Nil then None else Some(v)
    ensures forall k' :: k' != k ==> Lookup(SetEntry(es, k, v), k') == Lookup(es, k')
    ensures DistinctKeys(es) ==> DistinctKeys(SetEntry(es, k, v))
  {
    if v == Nil {
      RemoveKeyLookup(es, k);
    } else if KeyPos(es, k).Some? {
      ReplaceValLookup(es, k, v);
    } else {
      AppendLookup(es, Entry(k, v));
    }
  }

  /** Assigning a non-nil value to a key no entry carries appends a new
      last entry. */
  lemma SetEntryNew(es: seq<Entry>, k: Value, v: Value)
    requires v != Nil
    requires forall i :: 0 <= i < |es| ==> es[i].key != k
    ensures SetEntry(es, k, v) == es + [Entry(k, v)]
  {
    KeyPosFirst(es, k);
  }

  lemma {:induction false} RemoveKeyLookup(es: seq<Entry>, k: Value)
    ensures Lookup(RemoveKey(es, k), k) == None
    ensures forall k' :: k' != k ==> Lookup(RemoveKey(es, k), k') == Lookup(es, k')
    ensures DistinctKeys(es) ==> DistinctKeys(RemoveKey(es, k))
  {
    if |es| > 0 {
      RemoveKeyLookup(es[1..], k);
      var r := RemoveKey(es[1..], k);
      if DistinctKeys(es) {
        assert DistinctKeys(es[1..]);
        if es[0].key != k {
          RemoveKeyEntries(es[1..], k);
          forall i | 0 <= i < |r| ensures r[i].key != es[0].key {
            assert r[i] in r;
            assert r[i] in es[1..];
          }
        }
      }
    }
  }

  lemma {:induction false} ReplaceValLookup(es: seq<Entry>, k: Value, v: Value)
    requires KeyPos(es, k).Some?
    ensures Lookup(ReplaceVal(es, k, v), k) == Some(v)
    ensures forall k' :: k' != k ==> Lookup(ReplaceVal(es, k, v), k') == Lookup(es, k')
    ensures DistinctKeys(es) ==> DistinctKeys(ReplaceVal(es, k, v))
  {
    ReplaceValEntries(es, k, v);
    if es[0].key != k {
      ReplaceValLookup(es[1..], k, v);
    } else {
      ReplaceValOthers(es[1..], k, v);
    }
  }

  lemma {:induction false} ReplaceValOthers(es: seq<Entry>, k: Value, v: Value)
    ensures forall k' :: k' != k ==> Lookup(ReplaceVal(es, k, v), k') == Lookup(es, k')
  {
    if |es| > 0 {
      ReplaceValOthers(es[1..], k, v);
    }
  }

  lemma {:induction false} AppendLookup(es: seq<Entry>, e: Entry)
    requires KeyPos(es, e.key).None?
    ensures Lookup(es + [e], e.key) == Some(e.val)
    ensures forall k' :: k' != e.key ==> Lookup(es + [e], k') == Lookup(es, k')
    ensures DistinctKeys(es) ==> DistinctKeys(es + [e])
  {
    if |es| > 0 {
      assert (es + [e])[1..] == es[1..] + [e];
      AppendLookup(es[1..], e);
    } else {
      assert ([] + [e]) == [e];
    }
  }

  /** Outcome of a primitive that may raise a Lua error (a non-local exit,
      carrying the message) or be called outside what the manual allows. */
  datatype RawOutcome = RawOk(stack: Stack) | RawRaise(message: string) | RawMisuse

  /** `lua_rawseti(L, idx, n)`: `t[n] = v` where `t` is at `idx` and `v` is the
      top, which is popped. */
  function RawSetI(s: Stack, idx: int, n: int): (r: RawOutcome)
    ensures r.RawRaise? ==> false
    ensures r.RawOk? ==>
      |s| >= 2 && Position(s, idx).Some? && Position(s, idx).value < |s| - 1
      && s[Position(s, idx).value].Table?
    ensures r.RawOk? ==>
      var p := Position(s, idx).value;
      |r.stack| == |s| - 1 && r.stack[..p] == s[..p] && r.stack[p + 1..] == s[p + 1..|s| - 1]
      && r.stack[p] == Table(SetEntry(s[p].entries, Num(n), s[|s| - 1]))
  {
    match Position(s, idx)
    case None => RawMisuse
    case Some(p) =>
      if p == |s| - 1 || !s[p].Table? then RawMisuse
      else RawOk(s[..p] + [Table(SetEntry(s[p].entries, Num(n), s[|s| - 1]))] + s[p + 1..|s| - 1])
  }

  /** `lua_rawset(L, idx)`: `t[k] = v` where `t` is at `idx`, `v` the top and
      `k` just below it; both are popped. A nil key raises. */
  function RawSet(s: Stack, idx: int): (r: RawOutcome)
    ensures r.RawRaise? <==>
      |s| >= 3 && Position(s, idx).Some? && Position(s, idx).value < |s| - 2
      && s[Position(s, idx).value].Table? && s[|s| - 2] == Nil
    ensures r.RawRaise? ==> r.message == "table index is nil"
    ensures r.RawOk? ==>
      |s| >= 3 && Position(s, idx).Some? && Position(s, idx).value < |s| - 2
      && s[Position(s, idx).value].Table?
    ensures r.RawOk? ==>
      var p := Position(s, idx).value;
      |r.stack| == |s| - 2 && r.stack[..p] == s[..p] && r.stack[p + 1..] == s[p + 1..|s| - 2]
      && r.stack[p] == Table(SetEntry(s[p].entries, s[|s| - 2], s[|s| - 1]))
  {
    match Position(s, idx)
    case None => RawMisuse
    case Some(p) =>
      if p >= |s| - 2 || !s[p].Table? then RawMisuse
      else if s[|s| - 2] == Nil then RawRaise("table index is nil")
      else RawOk(s[..p] + [Table(SetEntry(s[p].entries, s[|s| - 2], s[|s| - 1]))] + s[p + 1..|s| - 2])
  }

  /** Result of `lua_next`: a pair was pushed (returns non-zero), the
      traversal is over (returns 0), or the key was not in the table. */
  datatype NextOutcome = NextPair(stack: Stack) | NextDone(stack: Stack) | NextRaise(message: string) | NextMisuse

  /** Where a traversal resumes after key `k`: the start for nil, just after
      `k`'s entry otherwise. */
  function ResumeAt(es: seq<Entry>, k: Value): Option<nat>
  {
    if k == Nil then Some(0)
    else match KeyPos(es, k)
      case None => None
      case Some(p) => Some(p + 1)
  }

  /** `lua_next(L, idx)`: pops a key and pushes the key and value of the
      entry after it in the table at `idx`; pushes nothing when there is none. */
  function Next(s: Stack, idx: int): NextOutcome
  {
    match Position(s, idx)
    case None => NextMisuse
    case Some(p) =>
      if p == |s| - 1 || !s[p].Table? then NextMisuse
      else
        var es := s[p].entries;
        match ResumeAt(es, s[|s| - 1])
        case None => NextRaise("invalid key to 'next'")
        case Some(q) =>
          if q < |es| then NextPair(s[..|s| - 1] + [es[q].key, es[q].val])
          else NextDone(s[..|s| - 1])
  }

  /** `lua_next` leaves one slot more when it pushes a pair and one fewer
      when the walk is over. */
  lemma NextHeight(s: Stack, idx: int)
    ensures Next(s, idx).NextPair? ==> |Next(s, idx).stack| == |s| + 1
    ensures Next(s, idx).NextDone? ==> |Next(s, idx).stack| == |s| - 1
  {
  }

  /** What each outcome of `lua_next` says about the stack it ran on. */
  lemma NextFacts(s: Stack, idx: int)
    ensures !Next(s, idx).NextMisuse? ==>
      |s| >= 1 && Position(s, idx).Some? && Position(s, idx).value < |s| - 1
      && s[Position(s, idx).value].Table?
    ensures Next(s, idx).NextRaise? <==> !Next(s, idx).NextMisuse? && ResumeAt(s[Position(s, idx).value].entries, s[|s| - 1]).None?
    ensures Next(s, idx).NextRaise? ==> Next(s, idx).message == "invalid key to 'next'"
    ensures Next(s, idx).NextDone? ==>
      (Next(s, idx).stack == s[..|s| - 1]
       && ResumeAt(s[Position(s, idx).value].entries, s[|s| - 1]).value >= |s[Position(s, idx).value].entries|)
    ensures Next(s, idx).NextPair? ==>
      var es := s[Position(s, idx).value].entries;
      var q := ResumeAt(es, s[|s| - 1]).value;
      q < |es| && Next(s, idx).stack == s[..|s| - 1] + [es[q].key, es[q].val]
  {
  }

  /** `lua_rawseti(L, -2, n)` with the table just below the value: the
      value is stored under `n` and popped. */
  lemma RawSetIBelowTop(s: Stack, es: seq<Entry>, v: Value, n: int)
    ensures RawSetI(s + [Table(es), v], -2, n) == RawOk(s + [Table(SetEntry(es, Num(n), v))])
  {
    var t := s + [Table(es), v];
    assert Position(t, -2) == Some(|s|);
    assert t[..|s|] == s && t[|s| + 1..|t| - 1] == [];
  }

  /** `lua_rawset(L, -3)` with the table just below a non-nil key and its
      value: the pair is stored and both are popped. */
  lemma RawSetBelowTop(s: Stack, es: seq<Entry>, k: Value, v: Value)
    requires k != Nil
    ensures RawSet(s + [Table(es), k, v], -3) == RawOk(s + [Table(SetEntry(es, k, v))])
  {
    var t := s + [Table(es), k, v];
    assert Position(t, -3) == Some(|s|);
    assert t[..|s|] == s && t[|s| + 1..|t| - 2] == [];
  }

  /** `lua_next(L, -2)` with the table just below the key: the entry after
      the key is pushed in the key's place, or only the table is left. */
  lemma NextBelowTop(s: Stack, es: seq<Entry>, k: Value)
    ensures Next(s + [Table(es), k], -2) ==
      match ResumeAt(es, k)
      case None => NextRaise("invalid key to 'next'")
      case Some(q) =>
        if q < |es| then NextPair(s + [Table(es), es[q].key, es[q].val])
        else NextDone(s + [Table(es)])
  {
    var t := s + [Table(es), k];
    assert Position(t, -2) == Some(|s|);
    assert t[..|t| - 1] == s + [Table(es)];
  }

  // ---------------------------------------------------------------------------
  // Globals and raising

  /** The tables the pseudo-indices designate. */
  datatype Env = Env(registry: seq<Entry>, environ: seq<Entry>, globals: seq<Entry>)

  /** The table an index designates, whether a pseudo-index or a stack slot. */
  function TableAt(s: Stack, env: Env, idx: int): Option<seq<Entry>>
  {
    if idx == REGISTRY then Some(env.registry)
    else if idx == ENVIRON then Some(env.environ)
    else if idx == GLOBALS then Some(env.globals)
    else match Position(s, idx)
      case None => None
      case Some(p) => if s[p].Table? then Some(s[p].entries) else None
  }

  /** `lua_getfield(L, idx, k)` on a table without metatable: pushes `t[k]`,
      or nil when the key is absent. */
  function GetField(s: Stack, env: Env, idx: int, k: seq<byte>): RawOutcome
  {
    match TableAt(s, env, idx)
    case None => RawMisuse
    case Some(es) =>
      match Lookup(es, Str(k))
      case None => RawOk(s + [Nil])
      case Some(v) => RawOk(s + [v])
  }

  /** `lua_getglobal(L, name)`, defined in ffi.rs as `lua_getfield` on the
      globals pseudo-index: pushes the global named `name`. */
  function GetGlobal(s: Stack, env: Env, name: seq<byte>): (r: RawOutcome)
    ensures r.RawOk? && |r.stack| == |s| + 1 && r.stack[..|s|] == s
    ensures r.stack[|s|] == match Lookup(env.globals, Str(name)) case None => Nil case Some(v) => v
  {
    GetField(s, env, GLOBALS, name)
  }

  /** A raised Lua error: the only outcome `lua_error` has. The type has no
      "returned" case, which is how the model says it never returns. */
  datatype Raise = Raise(error: Value, stack: Stack)

  /** `lua_error`: raise the value on top of the stack. */
  function LuaError(s: Stack): (r: Raise)
    requires |s| >= 1
    ensures r.error == s[|s| - 1] && r.stack == s
  {
    Raise(s[|s| - 1], s)
  }
}
