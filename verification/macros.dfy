/**
 The `#[module]` attribute of macros/src/lib.rs: it parses its arguments
 into the path of the module and names the exported C entry point
 `luaopen_` followed by the path's segments joined with `_`, the name Lua's
 `require` looks up for a C module.

 Identifiers are strings; the token streams, spans and the generated code
 around the entry point are not modelled.
 */
module Macros {
  import opened Wrappers

  /** One comma-separated attribute argument, as `syn::NestedMeta` sees it:
      a bare path (`foo::bar`), a `name = value` pair, a list (`f(..)`) or
      a literal. */
  datatype Arg =
    | PathArg(segments: seq<string>)
    | NameValueArg
    | ListArg
    | LitArg

  /** `Plugin`: the parsed attribute. */
  datatype Plugin = Plugin(path: seq<string>)

  /** A `syn::Error`: its message, and the argument it points at (the call
      site when there is none). */
  datatype ParseError = ParseError(message: string, at: Option<Arg>)

  const ExpectedName: string := "expected `name = \"...\"`"
  const ExpectedPath: string := "expected module path"

  /** The `for arg in args` loop from argument `i` on, with the path the
      earlier arguments left. */
  function ParseFrom(args: seq<Arg>, i: nat, path: Option<seq<string>>): Result<Option<seq<string>>, ParseError>
    requires i <= |args|
    decreases |args| - i
  {
    if i == |args| then Ok(path)
    else match args[i]
      case PathArg(p) => ParseFrom(args, i + 1, Some(p))
      case _ => Err(ParseError(ExpectedName, Some(args[i])))
  }

  /** `Plugin::parse`. */
  function Parse(args: seq<Arg>): Result<Plugin, ParseError>
  {
    match ParseFrom(args, 0, None)
    case Err(e) => Err(e)
    case Ok(None) => Err(ParseError(ExpectedPath, None))
    case Ok(Some(p)) => Ok(Plugin(p))
  }

  predicate AllPaths(args: seq<Arg>)
  {
    forall i :: 0 <= i < |args| ==> args[i].PathArg?
  }

  /** The loop stops at the first argument that is not a path; when there
      is none, the last path given (or the one carried in) is the result. */
  lemma {:induction false} ParseFromSpec(args: seq<Arg>, i: nat, path: Option<seq<string>>)
    requires i <= |args|
    ensures var r := ParseFrom(args, i, path);
      && (r.Ok? <==> AllPaths(args[i..]))
      && (r.Ok? ==> r.value == if i == |args| then path else Some(args[|args| - 1].segments))
      && (r.Err? ==>
            exists j :: (i <= j < |args| && !args[j].PathArg? && AllPaths(args[i..j]) &&
                         r.error == ParseError(ExpectedName, Some(args[j]))))
    decreases |args| - i
  {
    if i < |args| {
      if args[i].PathArg? {
        ParseFromSpec(args, i + 1, Some(args[i].segments));
        var r := ParseFrom(args, i, path);
        assert AllPaths(args[i..]) <==> AllPaths(args[i + 1..]) by {
          assert args[i..] == [args[i]] + args[i + 1..];
        }
        if r.Err? {
          var j :| i + 1 <= j < |args| && !args[j].PathArg? && AllPaths(args[i + 1..j]) &&
                   r.error == ParseError(ExpectedName, Some(args[j]));
          assert forall m :: 0 <= m < |args[i..j]| ==> args[i..j][m] == args[i + m];
        }
      } else {
        assert args[i..][0] == args[i];
        assert AllPaths(args[i..i]);
      }
    }
  }

  /** `parse` accepts exactly a non-empty list of paths and keeps the last;
      it reports the first argument of any other form, and an empty list
      as a missing path. */
  lemma ParseSpec(args: seq<Arg>)
    ensures Parse(args).Ok? <==> |args| > 0 && AllPaths(args)
    ensures Parse(args).Ok? ==> Parse(args).value.path == args[|args| - 1].segments
    ensures |args| == 0 ==> Parse(args) == Err(ParseError(ExpectedPath, None))
    ensures forall j :: 0 <= j < |args| && !args[j].PathArg? && AllPaths(args[..j]) ==>
      Parse(args) == Err(ParseError(ExpectedName, Some(args[j])))
  {
    ParseFromSpec(args, 0, None);
    assert args[0..] == args;
    var r := ParseFrom(args, 0, None);
    if r.Err? {
      var j :| 0 <= j < |args| && !args[j].PathArg? && AllPaths(args[0..j]) &&
               r.error == ParseError(ExpectedName, Some(args[j]));
      forall j' | 0 <= j' < |args| && !args[j'].PathArg? && AllPaths(args[..j'])
        ensures j' == j
      {
      }
    } else {
      forall j | 0 <= j < |args| ensures args[j].PathArg? {
        assert args[0..][j] == args[j];
      }
    }
  }

  /** `[String]::join`. */
  function Join(segs: seq<string>, sep: string): string
  {
    if |segs| == 0 then []
    else if |segs| == 1 then segs[0]
    else segs[0] + sep + Join(segs[1..], sep)
  }

  const EntryPrefix: string := "luaopen_"

  /** The name of the generated `#[no_mangle]` entry point. */
  function SymbolName(p: Plugin): string
  {
    EntryPrefix + Join(p.path, "_")
  }

  /** `str::split` on one character: the pieces between its occurrences. */
  function Split(s: string, c: char): (r: seq<string>)
    ensures |r| >= 1
  {
    if |s| == 0 then [[]]
    else if s[0] == c then [[]] + Split(s[1..], c)
    else
      var t := Split(s[1..], c);
      [[s[0]] + t[0]] + t[1..]
  }

  /** A piece without the separator runs on into the first piece of what
      follows it. */
  lemma {:induction false} SplitPrefix(a: string, b: string, c: char)
    requires c !in a
    ensures Split(a + b, c) == [a + Split(b, c)[0]] + Split(b, c)[1..]
  {
    if |a| > 0 {
      assert (a + b)[0] == a[0] && (a + b)[1..] == a[1..] + b;
      assert a[1..] + Split(b, c)[0] == (a + Split(b, c)[0])[1..];
      SplitPrefix(a[1..], b, c);
      assert [a[0]] + (a[1..] + Split(b, c)[0]) == a + Split(b, c)[0];
    } else {
      var t := Split(b, c);
      assert a + b == b && a + t[0] == t[0];
      assert [t[0]] + t[1..] == t;
    }
  }

  /** Splitting the joined segments on `_` gives them back when no segment
      holds an `_` of its own. */
  lemma {:induction false} SplitJoin(segs: seq<string>)
    requires |segs| >= 1
    requires forall i :: 0 <= i < |segs| ==> '_' !in segs[i]
    ensures Split(Join(segs, "_"), '_') == segs
  {
    if |segs| > 1 {
      SplitJoin(segs[1..]);
      var rest := Join(segs[1..], "_");
      assert segs[0] + "_" + rest == segs[0] + ("_" + rest);
      SplitPrefix(segs[0], "_" + rest, '_');
      assert ("_" + rest)[0] == '_' && ("_" + rest)[1..] == rest;
      assert Split("_" + rest, '_') == [[]] + segs[1..];
      assert segs[0] + [] == segs[0];
      assert segs == [segs[0]] + segs[1..];
    } else {
      SplitPrefix(segs[0], [], '_');
      assert segs[0] + [] == segs[0];
    }
  }

  /** So for such paths the entry point names the module unambiguously. */
  lemma SymbolInjective(p: Plugin, q: Plugin)
    requires |p.path| >= 1 && |q.path| >= 1
    requires forall i :: 0 <= i < |p.path| ==> '_' !in p.path[i]
    requires forall i :: 0 <= i < |q.path| ==> '_' !in q.path[i]
    requires SymbolName(p) == SymbolName(q)
    ensures p == q
  {
    var jp, jq := Join(p.path, "_"), Join(q.path, "_");
    assert jp == SymbolName(p)[|EntryPrefix|..];
    assert jq == SymbolName(q)[|EntryPrefix|..];
    SplitJoin(p.path);
    SplitJoin(q.path);
  }

  /** A segment that holds `_` breaks that: `a_b::c` and `a::b_c` export
      the same symbol. */
  lemma SymbolCollision()
    ensures SymbolName(Plugin(["a_b", "c"])) == SymbolName(Plugin(["a", "b_c"])) == "luaopen_a_b_c"
  {
    assert Join(["c"], "_") == "c";
    assert Join(["b_c"], "_") == "b_c";
    assert ["a_b", "c"][1..] == ["c"];
    assert ["a", "b_c"][1..] == ["b_c"];
  }

  /** The symbol of a one-segment path is the prefix and the segment. */
  lemma SingleSegmentSymbol(name: string)
    ensures SymbolName(Plugin([name])) == EntryPrefix + name
  {
  }
}
