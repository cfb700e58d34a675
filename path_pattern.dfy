/** A reading of the URLPattern pathname syntax used by the gate's table in
    src/proxy.ts: literal characters match themselves and a named group
    `:name` matches one non-empty path segment (a run without '/'). */
module PathPattern {
  import opened Strings

  /** `new URLPattern({ pathname: pat }).test(url)` on the URL's path. */
  predicate Test(pat: string, path: string)
    decreases |pat|
  {
    if pat == [] then path == []
    else if pat[0] == ':' then
      var name := Before(pat[1..], '/');
      var seg := Before(path, '/');
      seg != [] && Test(pat[1 + |name|..], path[|seg|..])
    else path != [] && pat[0] == path[0] && Test(pat[1..], path[1..])
  }

  /** A pattern without named groups matches exactly its own text. */
  lemma {:induction false} LiteralMatchesItself(pat: string, path: string)
    requires ':' !in pat
    ensures Test(pat, path) <==> path == pat
    decreases |pat|
  {
    if pat != [] && path != [] {
      assert ':' !in pat[1..];
      LiteralMatchesItself(pat[1..], path[1..]);
      if pat[0] == path[0] && pat[1..] == path[1..] {
        assert pat == [pat[0]] + pat[1..] && path == [path[0]] + path[1..];
      }
    }
  }

  /** A literal prefix followed by one trailing named group matches the
      prefix followed by exactly one non-empty segment. */
  lemma {:induction false} TrailingGroup(lit: string, name: string, path: string)
    requires ':' !in lit && '/' !in name
    ensures Test(lit + [':'] + name, path) <==>
      |path| > |lit| && path[..|lit|] == lit && '/' !in path[|lit|..]
    decreases |lit|
  {
    var pat := lit + [':'] + name;
    if lit == [] {
      assert pat[1..] == name;
      assert Before(name, '/') == name;
      var seg := Before(path, '/');
      assert Test([], path[|seg|..]) <==> |seg| == |path|;
      if |seg| == |path| {
        assert seg == path;
      }
    } else {
      assert pat[1..] == lit[1..] + [':'] + name;
      assert ':' !in lit[1..];
      if path != [] {
        TrailingGroup(lit[1..], name, path[1..]);
        if |path| >= |lit| {
          assert path[1..][|lit| - 1..] == path[|lit|..];
        }
        if |path| > |lit| && path[..|lit|] == lit {
          assert path[1..][..|lit| - 1] == lit[1..];
        }
        if |path[1..]| > |lit[1..]| && path[1..][..|lit| - 1] == lit[1..] && path[0] == lit[0] {
          assert path[..|lit|] == [path[0]] + path[1..][..|lit| - 1];
        }
      }
    }
  }
}
