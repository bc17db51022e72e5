/** Route patterns with named parameters: cutting a pattern into pieces, and matching a
    request path against them. */
module PathParams {
  import opened Bytes

  const MARKER := "/:"

  // -------------------------------------------------------------- the pattern

  /** Static fragments and parameter names from position `e` on; `e` is one past the end of
      the previous parameter, or 0. */
  function Cut(pattern: string, e: nat): (r: (seq<string>, seq<string>))
    requires e <= |pattern| + 1
    ensures |r.0| == |r.1| || |r.0| == |r.1| + 1
    decreases |pattern| + 1 - e
  {
    var m := FindFrom(pattern, MARKER, if e == 0 then 0 else e - 1);
    if m == |pattern| then (if e < |pattern| then [pattern[e..]] else [], [])
    else
      var sep := IndexFrom(pattern, '/', m + 2);
      var rest := Cut(pattern, sep + 1);
      ([pattern[e..m + 1]] + rest.0, [pattern[m + 2..sep]] + rest.1)
  }

  predicate Distinct(names: seq<string>) {
    forall i, j :: 0 <= i < j < |names| ==> names[i] != names[j]
  }

  /** Fragments and parameter values put together again. */
  function Build(f: seq<string>, v: seq<string>): string
    requires |f| == |v| || |f| == |v| + 1
  {
    if f == [] then ""
    else if v == [] then f[0]
    else if |f| == 1 then f[0] + v[0]
    else f[0] + v[0] + ("/" + Build(f[1..], v[1..]))
  }

  function Labels(names: seq<string>): (r: seq<string>)
    ensures |r| == |names|
  {
    seq(|names|, i requires 0 <= i < |names| => ":" + names[i])
  }

  predicate SlashFree(v: seq<string>) { forall i :: 0 <= i < |v| ==> '/' !in v[i] }

  // ------------------------------------------------------------- the matching

  /** The C library's bounded comparison: it stops at a NUL. */
  predicate SamePrefix(a: string, b: string)
    requires |a| >= |b|
  {
    forall k :: 0 <= k < |b| && '\0' !in b[..k] ==> a[k] == b[k]
  }

  /** Whether the path matches the fragments from `pos` on, and the values captured up to
      the end or to the first mismatch. */
  function Captures(f: seq<string>, n: nat, path: string, pos: nat): (r: (bool, seq<string>))
    requires |f| == n || |f| == n + 1
    ensures |r.1| <= n && (r.0 ==> |r.1| == n)
    decreases |f|
  {
    if f == [] then (pos >= |path|, [])
    else if pos + |f[0]| > |path| || !SamePrefix(path[pos..], f[0]) then (false, [])
    else
      var p := pos + |f[0]|;
      if n == 0 then Captures(f[1..], 0, path, p)
      else
        var sep := IndexFrom(path, '/', p);
        var rest := Captures(f[1..], n - 1, path, sep + 1);
        (rest.0, [path[p..sep]] + rest.1)
  }

  class Request {
    const path: string
    var pathParams: map<string, string>

    constructor (path: string)
      ensures this.path == path
    {
      this.path, pathParams := path, map[];
    }
  }

  /** The parameters hold exactly the captured values under the first names. */
  predicate Records(params: map<string, string>, names: seq<string>, v: seq<string>)
    requires |v| <= |names|
  {
    params.Keys == (set i | 0 <= i < |v| :: names[i])
    && forall i :: 0 <= i < |v| ==> names[i] in params && params[names[i]] == v[i]
  }

  /** What the match still does from `pos` on completes what it has caught. */
  ghost predicate Follows(all: (bool, seq<string>), caught: seq<string>, f: seq<string>, n: nat, path: string,
                          pos: nat) {
    (|f| == n || |f| == n + 1)
    && Captures(f, n, path, pos).0 == all.0 && caught + Captures(f, n, path, pos).1 == all.1
  }

  lemma FollowsStart(f: seq<string>, n: nat, path: string)
    requires |f| == n || |f| == n + 1
    ensures Follows(Captures(f, n, path, 0), [], f, n, path, 0)
  {
  }

  lemma {:induction false} FollowsStep(all: (bool, seq<string>), caught: seq<string>, f: seq<string>, n: nat,
                                       path: string, pos: nat)
    requires f != [] && Follows(all, caught, f, n, path, pos)
    ensures if pos + |f[0]| > |path| || !SamePrefix(path[pos..], f[0]) then all == (false, caught)
            else
              var p := pos + |f[0]|;
              if n == 0 then Follows(all, caught, f[1..], 0, path, p)
              else
                var sep := IndexFrom(path, '/', p);
                Follows(all, caught + [path[p..sep]], f[1..], n - 1, path, sep + 1)
  {
    hide SamePrefix, IndexFrom;
    assert caught + [] == caught;
  }

  lemma FollowsEnd(all: (bool, seq<string>), caught: seq<string>, path: string, pos: nat)
    requires Follows(all, caught, [], 0, path, pos)
    ensures all == (pos >= |path|, caught)
  {
    assert caught + [] == caught;
  }

  lemma NotDistinct(names: seq<string>, name: string, rest: seq<string>)
    requires name in names
    ensures !Distinct(names + ([name] + rest))
  {
    var i :| 0 <= i < |names| && names[i] == name;
    var all := names + ([name] + rest);
    assert all[i] == all[|names|];
  }

  lemma RecordsNext(params: map<string, string>, names: seq<string>, v: seq<string>, value: string)
    requires |v| < |names| && Distinct(names) && Records(params, names, v)
    ensures names[|v|] !in params && Records(params[names[|v|] := value], names, v + [value])
  {
  }

  lemma NoRecords(names: seq<string>)
    ensures Records(map[], names, [])
  {
  }

  lemma NoneTwice()
    ensures Distinct([])
  {
  }

  lemma OneMore(names: seq<string>, name: string)
    requires Distinct(names) && name !in names
    ensures Distinct(names + [name])
  {
  }

  lemma {:induction false} CutUnfold(pattern: string, e: nat)
    requires e <= |pattern| + 1
    ensures var m := FindFrom(pattern, MARKER, if e == 0 then 0 else e - 1);
            if m == |pattern| then Cut(pattern, e) == (if e < |pattern| then [pattern[e..]] else [], [])
            else
              var sep := IndexFrom(pattern, '/', m + 2);
              var rest := Cut(pattern, sep + 1);
              Cut(pattern, e) == ([pattern[e..m + 1]] + rest.0, [pattern[m + 2..sep]] + rest.1)
  {
    hide FindFrom, IndexFrom;
  }

  lemma {:induction false} CutStep(pattern: string, e: nat, f: seq<string>, names: seq<string>)
    requires e <= |pattern| + 1
    ensures var m := FindFrom(pattern, MARKER, if e == 0 then 0 else e - 1);
            if m == |pattern| then Cut(pattern, e) == (if e < |pattern| then [pattern[e..]] else [], [])
            else
              var sep := IndexFrom(pattern, '/', m + 2);
              var name := pattern[m + 2..sep];
              f + Cut(pattern, e).0 == f + [pattern[e..m + 1]] + Cut(pattern, sep + 1).0
              && names + Cut(pattern, e).1 == names + [name] + Cut(pattern, sep + 1).1
              && names + Cut(pattern, e).1 == names + ([name] + Cut(pattern, sep + 1).1)
  {
    hide Cut, FindFrom, IndexFrom, OccursAt;
    CutUnfold(pattern, e);
  }

  class PathParamsMatcher {
    var staticFragments: seq<string>
    var paramNames: seq<string>

    ghost predicate Valid()
      reads this
    {
      Distinct(paramNames) && (|staticFragments| == |paramNames| || |staticFragments| == |paramNames| + 1)
    }

    constructor ()
      ensures staticFragments == [] && paramNames == []
    {
      staticFragments, paramNames := [], [];
    }

    /** Reads the pattern; a repeated name is an error. */
    method Compile(pattern: string) returns (ok: bool)
      requires staticFragments == [] && paramNames == []
      modifies this
      ensures ok <==> Distinct(Cut(pattern, 0).1)
      ensures ok ==> Valid() && (staticFragments, paramNames) == Cut(pattern, 0)
    {
      hide Cut, Distinct, FindFrom, IndexFrom;
      ghost var all := Cut(pattern, 0);
      var lastParamEnd := 0;
      ghost var rest := all;
      assert [] + all.0 == all.0 && [] + all.1 == all.1;
      assert Distinct([]) by { NoneTwice(); }
      while true
        invariant lastParamEnd <= |pattern| + 1 && rest == Cut(pattern, lastParamEnd)
        invariant staticFragments + rest.0 == all.0 && paramNames + rest.1 == all.1
        invariant Distinct(paramNames)
        invariant |staticFragments| == |paramNames|
        decreases |pattern| + 1 - lastParamEnd
      {
        var markerPos := FindFrom(pattern, MARKER, if lastParamEnd == 0 then 0 else lastParamEnd - 1);
        CutStep(pattern, lastParamEnd, staticFragments, paramNames);
        if markerPos == |pattern| { break; }
        var fragment := pattern[lastParamEnd..markerPos + 1];
        var sepPos := IndexFrom(pattern, '/', markerPos + 2);
        var name := pattern[markerPos + 2..sepPos];
        rest := Cut(pattern, sepPos + 1);
        staticFragments := staticFragments + [fragment];
        if name in paramNames {
          NotDistinct(paramNames, name, rest.1);
          return false;
        }
        OneMore(paramNames, name);
        paramNames := paramNames + [name];
        lastParamEnd := sepPos + 1;
      }
      assert paramNames + [] == paramNames;
      if lastParamEnd < |pattern| {
        staticFragments := staticFragments + [pattern[lastParamEnd..]];
      } else {
        assert staticFragments + [] == staticFragments;
      }
      ok := true;
    }

    method Match(request: Request) returns (ok: bool)
      requires Valid()
      modifies request
      ensures var r := Captures(staticFragments, |paramNames|, request.path, 0);
              ok == r.0 && Records(request.pathParams, paramNames, r.1)
    {
      hide Follows, Captures, Records, Distinct, SamePrefix, IndexFrom;
      request.pathParams := map[];
      var fragments, names, path := staticFragments, paramNames, request.path;
      var startingPos: nat := 0;
      ghost var all := Captures(fragments, |names|, path, 0);
      ghost var caught, f, n := [], fragments, |names|;
      NoRecords(names);
      FollowsStart(f, n, path);
      for i := 0 to |fragments|
        invariant f == fragments[i..] && n == (if i < |names| then |names| - i else 0) && |caught| == |names| - n
        invariant Follows(all, caught, f, n, path, startingPos)
        invariant Records(request.pathParams, names, caught)
      {
        var fragment := fragments[i];
        FollowsStep(all, caught, f, n, path, startingPos);
        if startingPos + |fragment| > |path| { return false; }
        if !SamePrefix(path[startingPos..], fragment) { return false; }
        startingPos := startingPos + |fragment|;
        f := f[1..];
        if i < |names| {
          var sepPos := IndexFrom(path, '/', startingPos);
          var value := path[startingPos..sepPos];
          n := n - 1;
          RecordsNext(request.pathParams, names, caught, value);
          request.pathParams := request.pathParams[names[i] := value];
          caught := caught + [value];
          startingPos := sepPos + 1;
        }
      }
      assert f == [];
      FollowsEnd(all, caught, path, startingPos);
      ok := startingPos >= |path|;
    }
  }

  // ------------------------------------------------ matching inverts instantiation

  /** The pattern's pieces with values in place of the names, and one more slash if the
      pattern ends with a parameter. */
  predicate IsInstance(f: seq<string>, v: seq<string>, text: string)
    requires |f| == |v| || |f| == |v| + 1
  {
    text == Build(f, v) || (|f| == |v| && f != [] && text == Build(f, v) + "/")
  }

  /** No byte of the fragment stands behind its first NUL, where a comparison stops. */
  predicate Compared(b: string) { forall i :: 0 <= i < |b| - 1 ==> b[i] != '\0' }

  predicate AllCompared(f: seq<string>) { forall i :: 0 <= i < |f| ==> Compared(f[i]) }

  lemma ComparedPrefix(a: string, b: string)
    requires |a| >= |b|
    ensures a[..|b|] == b ==> SamePrefix(a, b)
    ensures Compared(b) ==> (SamePrefix(a, b) <==> a[..|b|] == b)
  {
    if a[..|b|] == b { assert forall k :: 0 <= k < |b| ==> a[k] == a[..|b|][k]; }
    if Compared(b) && SamePrefix(a, b) {
      forall k | 0 <= k < |b| ensures a[k] == b[k] { assert '\0' !in b[..k]; }
    }
  }

  /** A path around one captured value. */
  lemma Around(path: string, pos: nat, p: nat, sep: nat)
    requires pos <= p <= sep <= |path| && (sep < |path| ==> path[sep] == '/')
    ensures path[pos..] == path[pos..p] + path[p..sep] + if sep < |path| then "/" + path[sep + 1..] else ""
  {
  }

  lemma Head(path: string, pos: nat, b: string)
    requires pos + |b| <= |path|
    ensures path[pos..][..|b|] == path[pos..pos + |b|]
  {
  }

  lemma OneMoreParameter(frag: string, mark: string, f: seq<string>, v: seq<string>, rest: string)
    requires (|f| == |v| || |f| == |v| + 1) && IsInstance(f, v, rest)
    ensures IsInstance([frag] + f, [mark] + v, frag + mark + ("/" + rest))
  {
    assert ([frag] + f)[1..] == f && ([mark] + v)[1..] == v;
  }

  lemma LastParameter(frag: string, mark: string)
    ensures IsInstance([frag], [mark], frag + mark + "") && IsInstance([frag], [mark], frag + mark + "/")
  {
  }

  lemma {:induction false} CapturesUnfold(f: seq<string>, n: nat, path: string, pos: nat)
    requires f != [] && (|f| == n || |f| == n + 1)
    ensures var r := Captures(f, n, path, pos);
            if pos + |f[0]| > |path| || path[pos..pos + |f[0]|] != f[0] then Compared(f[0]) ==> !r.0
            else
              var p := pos + |f[0]|;
              if n == 0 then r == (p >= |path|, [])
              else
                var sep := IndexFrom(path, '/', p);
                var rest := Captures(f[1..], n - 1, path, sep + 1);
                r == (rest.0, [path[p..sep]] + rest.1)
  {
    hide IndexFrom, SamePrefix, Compared;
    if pos + |f[0]| <= |path| {
      ComparedPrefix(path[pos..], f[0]);
      Head(path, pos, f[0]);
    }
  }

  lemma {:induction false} MatchIsInstance(f: seq<string>, n: nat, path: string, pos: nat)
    requires (|f| == n || |f| == n + 1) && AllCompared(f) && pos <= |path|
    requires Captures(f, n, path, pos).0
    ensures var v := Captures(f, n, path, pos).1;
            SlashFree(v) && IsInstance(f, v, path[pos..])
    decreases |f|
  {
    hide IndexFrom, Captures, IsInstance, SlashFree, Compared;
    if f == [] {
      MatchEmpty(path, pos);
    } else {
      CapturesUnfold(f, n, path, pos);
      var p := pos + |f[0]|;
      if n == 0 {
        WholeFragment(f, path, pos);
      } else {
        var sep := IndexFrom(path, '/', p);
        var value := path[p..sep];
        Around(path, pos, p, sep);
        if |f| > 1 {
          assert sep < |path| by { CapturesLate(f[1..], n - 1, path, sep + 1); }
          MatchIsInstance(f[1..], n - 1, path, sep + 1);
          var v := Captures(f[1..], n - 1, path, sep + 1).1;
          OneMoreParameter(f[0], value, f[1..], v, path[sep + 1..]);
          MoreSlashFree(value, v);
          assert [f[0]] + f[1..] == f;
        } else {
          assert f[1..] == [] && n == 1;
          CapturesEmpty(path, sep + 1);
          assert f == [f[0]];
          LastParameter(f[0], value);
          MoreSlashFree(value, []);
          if sep < |path| { assert "/" + path[sep + 1..] == "/"; }
          assert [value] + [] == [value];
        }
      }
    }
  }

  lemma MatchEmpty(path: string, pos: nat)
    requires pos <= |path|
    ensures Captures([], 0, path, pos) == (pos == |path|, [])
    ensures IsInstance([], [], path[pos..]) <==> pos == |path|
    ensures SlashFree([])
  {
  }

  lemma WholeInstance(f: seq<string>, text: string)
    requires |f| == 1
    ensures IsInstance(f, [], text) <==> text == f[0]
  {
  }

  lemma WholeFragment(f: seq<string>, path: string, pos: nat)
    requires |f| == 1 && pos + |f[0]| == |path| && path[pos..pos + |f[0]|] == f[0]
    ensures IsInstance(f, [], path[pos..]) && SlashFree([])
  {
  }

  lemma MoreSlashFree(value: string, v: seq<string>)
    requires '/' !in value && (v == [] || SlashFree(v))
    ensures SlashFree([value] + v)
  {
  }

  /** Past the end of the path nothing more matches. */
  lemma CapturesLate(f: seq<string>, n: nat, path: string, pos: nat)
    requires f != [] && (|f| == n || |f| == n + 1) && Captures(f, n, path, pos).0
    ensures pos <= |path|
  {
  }

  lemma CapturesEmpty(path: string, pos: nat)
    ensures Captures([], 0, path, pos) == (pos >= |path|, [])
  {
  }

  lemma SepAt(path: string, p: nat, v: string)
    requires p + |v| <= |path| && path[p..p + |v|] == v && '/' !in v
    requires p + |v| == |path| || path[p + |v|] == '/'
    ensures IndexFrom(path, '/', p) == p + |v|
  {
    assert forall j :: p <= j < p + |v| ==> path[j] == v[j - p];
  }

  /** Reading off the parts of a path that starts with a fragment and a value. */
  lemma Parts(path: string, pos: nat, a: string, v: string, more: string)
    requires pos <= |path| && path[pos..] == a + v + more
    ensures pos + |a| + |v| + |more| == |path|
    ensures path[pos..pos + |a|] == a && path[pos + |a|..pos + |a| + |v|] == v && path[pos + |a| + |v|..] == more
  {
    var t := path[pos..];
    assert t[..|a|] == a && t[|a|..|a| + |v|] == v && t[|a| + |v|..] == more;
  }

  lemma {:induction false} InstanceMatches(f: seq<string>, v: seq<string>, path: string, pos: nat)
    requires (|f| == |v| || |f| == |v| + 1) && pos <= |path|
    requires SlashFree(v) && IsInstance(f, v, path[pos..])
    ensures Captures(f, |v|, path, pos) == (true, v)
    decreases |f|
  {
    hide IndexFrom, Captures, InstanceTail, IsInstance;
    if f == [] {
      MatchEmpty(path, pos);
    } else {
      CapturesUnfold(f, |v|, path, pos);
      if v == [] {
        assert path[pos..] == f[0] by { WholeInstance(f, path[pos..]); }
      } else {
        var p := pos + |f[0]|;
        var more := InstanceTail(f, v, path[pos..]);
        Parts(path, pos, f[0], v[0], more);
        var sep := p + |v[0]|;
        if sep < |path| { assert path[sep] == path[sep..][0] == '/'; }
        SepAt(path, p, v[0]);
        if |f| > 1 {
          DropDrop(path, sep, 1);
          InstanceMatches(f[1..], v[1..], path, sep + 1);
          assert [v[0]] + v[1..] == v;
        } else {
          assert f[1..] == [] && v[1..] == [];
          CapturesEmpty(path, sep + 1);
          assert [v[0]] + [] == v;
        }
      }
    }
  }

  /** What follows the first value of an instance. */
  function InstanceTail(f: seq<string>, v: seq<string>, text: string): (more: string)
    requires f != [] && v != [] && (|f| == |v| || |f| == |v| + 1) && IsInstance(f, v, text)
    ensures text == f[0] + v[0] + more && (more != "" ==> more[0] == '/')
    ensures |f| > 1 ==> more != "" && IsInstance(f[1..], v[1..], more[1..])
    ensures |f| == 1 ==> more == "" || more == "/"
  {
    if |f| == 1 then (if text == Build(f, v) then "" else "/")
    else "/" + Build(f[1..], v[1..]) + if text == Build(f, v) then "" else "/"
  }

  /** A path matches with certain values exactly when it is the pattern with these values,
      up to one more slash behind a last parameter. */
  lemma {:induction false} MatchIff(f: seq<string>, v: seq<string>, path: string)
    requires (|f| == |v| || |f| == |v| + 1) && AllCompared(f)
    ensures Captures(f, |v|, path, 0) == (true, v) <==> SlashFree(v) && IsInstance(f, v, path)
  {
    hide Captures, IsInstance, Compared;
    assert path[0..] == path;
    if Captures(f, |v|, path, 0) == (true, v) { MatchIsInstance(f, |v|, path, 0); }
    if SlashFree(v) && IsInstance(f, v, path) { InstanceMatches(f, v, path, 0); }
  }

  // ---------------------------------------------------------- what a pattern means

  ghost predicate NoMarker(text: string) { forall j: nat :: !OccursAt(text, MARKER, j) }

  /** No parameter marker is left inside the fragments, read with the slash before them. */
  ghost predicate Plain(f: seq<string>) {
    forall i :: 0 <= i < |f| ==> NoMarker("/" + f[i])
  }

  lemma SubSlice(s: string, a: nat, b: nat, i: nat, j: nat)
    requires a <= b <= |s| && i <= j <= b - a
    ensures s[a..b][i..j] == s[a + i..a + j]
  {
    var t := s[a..b];
    forall k | 0 <= k < j - i ensures t[i..j][k] == s[a + i..a + j][k] {
      assert t[i + k] == s[a + i + k];
    }
  }

  /** A stretch of the pattern before the next marker. */
  lemma Unmarked(pattern: string, a: nat, b: nat, m: nat)
    requires a <= b <= |pattern| && b <= m + 1
    requires forall j: nat :: a <= j < m ==> !OccursAt(pattern, MARKER, j)
    ensures NoMarker(pattern[a..b])
  {
    var t := pattern[a..b];
    forall j: nat ensures !OccursAt(t, MARKER, j) {
      if j + 2 <= |t| {
        SubSlice(pattern, a, b, j, j + 2);
        assert !OccursAt(pattern, MARKER, a + j);
      }
    }
  }

  /** One parameter of the pattern, from position `e` to the slash behind its name. */
  lemma {:induction false} CutParameter(pattern: string, e: nat, m: nat, f: seq<string>, names: seq<string>)
    requires e <= m + 1 && OccursAt(pattern, MARKER, m) && (|f| == |names| || |f| == |names| + 1)
    requires var sep := IndexFrom(pattern, '/', m + 2);
             if sep < |pattern| then SlashFree(names) && IsInstance(f, Labels(names), pattern[sep + 1..])
             else f == [] && names == []
    ensures var sep := IndexFrom(pattern, '/', m + 2);
            var all := [pattern[m + 2..sep]] + names;
            SlashFree(all) && IsInstance([pattern[e..m + 1]] + f, Labels(all), pattern[e..])
  {
    hide IndexFrom, IsInstance;
    var sep := IndexFrom(pattern, '/', m + 2);
    var frag, name := pattern[e..m + 1], pattern[m + 2..sep];
    Label(pattern, m, sep);
    Around(pattern, e, m + 1, sep);
    assert Labels([name] + names) == [":" + name] + Labels(names);
    if sep < |pattern| {
      OneMoreParameter(frag, ":" + name, f, Labels(names), pattern[sep + 1..]);
    } else {
      assert [frag] + f == [frag] && [":" + name] + Labels(names) == [":" + name];
      LastParameter(frag, ":" + name);
    }
  }

  lemma Label(pattern: string, m: nat, sep: nat)
    requires OccursAt(pattern, MARKER, m) && m + 2 <= sep <= |pattern|
    ensures pattern[m + 1..sep] == ":" + pattern[m + 2..sep]
  {
    assert pattern[m + 1] == pattern[m..m + 2][1] == ':';
  }

  lemma {:induction false} CutPast(pattern: string)
    ensures Cut(pattern, |pattern| + 1) == ([], [])
  {
  }

  /** From the end of a parameter on: the pattern is the instance of its own pieces in which
      every parameter stands for itself. */
  lemma {:induction false} CutIsInstance(pattern: string, e: nat)
    requires 0 < e <= |pattern| && pattern[e - 1] == '/'
    ensures var r := Cut(pattern, e);
            SlashFree(r.1) && Plain(r.0) && IsInstance(r.0, Labels(r.1), pattern[e..])
    decreases |pattern| + 1 - e
  {
    hide FindFrom, IndexFrom, IsInstance, NoMarker, OccursAt, Cut;
    var m := FindFrom(pattern, MARKER, e - 1);
    CutUnfold(pattern, e);
    if m == |pattern| {
      Fragment(pattern, e, |pattern|, m);
      assert pattern[e..|pattern|] == pattern[e..];
      LastFragment(pattern, e);
    } else {
      Fragment(pattern, e, m + 1, m);
      var sep := IndexFrom(pattern, '/', m + 2);
      var rest := Cut(pattern, sep + 1);
      if sep < |pattern| { CutIsInstance(pattern, sep + 1); } else { CutPast(pattern); }
      CutParameter(pattern, e, m, rest.0, rest.1);
    }
  }

  lemma LastFragment(pattern: string, e: nat)
    requires e <= |pattern|
    ensures IsInstance(if e < |pattern| then [pattern[e..]] else [], Labels([]), pattern[e..])
  {
  }

  /** A pattern is an instance of its own pieces, its parameter names hold no slash, and
      every marker in it starts a parameter. */
  lemma {:induction false} PatternPieces(pattern: string)
    ensures var (f, names) := Cut(pattern, 0);
            SlashFree(names) && IsInstance(f, Labels(names), pattern)
            && (f != [] ==> NoMarker(f[0]) && Plain(f[1..]))
  {
    hide FindFrom, IndexFrom, IsInstance, NoMarker, OccursAt, Cut;
    var m := FindFrom(pattern, MARKER, 0);
    CutUnfold(pattern, 0);
    assert pattern[0..] == pattern;
    if m == |pattern| {
      Unmarked(pattern, 0, |pattern|, m);
      assert pattern[0..|pattern|] == pattern;
      LastFragment(pattern, 0);
    } else {
      Unmarked(pattern, 0, m + 1, m);
      var sep := IndexFrom(pattern, '/', m + 2);
      var rest := Cut(pattern, sep + 1);
      if sep < |pattern| { CutIsInstance(pattern, sep + 1); } else { CutPast(pattern); }
      CutParameter(pattern, 0, m, rest.0, rest.1);
    }
  }

  lemma Fragment(pattern: string, e: nat, b: nat, m: nat)
    requires 0 < e <= b <= |pattern| && pattern[e - 1] == '/' && b <= m + 1
    requires forall j: nat :: e - 1 <= j < m ==> !OccursAt(pattern, MARKER, j)
    ensures NoMarker("/" + pattern[e..b])
  {
    Unmarked(pattern, e - 1, b, m);
    assert "/" + pattern[e..b] == pattern[e - 1..b];
  }

  // ------------------------------------------------------- NUL bytes in a pattern

  /** Fragments that no comparison tells apart. */
  ghost predicate Alike(f: seq<string>, g: seq<string>) {
    |f| == |g| && forall i :: 0 <= i < |f| ==>
      |f[i]| == |g[i]| && forall a: string :: |a| >= |f[i]| ==> (SamePrefix(a, f[i]) <==> SamePrefix(a, g[i]))
  }

  lemma {:induction false} CapturesStep(f: seq<string>, n: nat, path: string, pos: nat)
    requires f != [] && (|f| == n || |f| == n + 1)
    ensures var r, p := Captures(f, n, path, pos), pos + |f[0]|;
            if p > |path| || !SamePrefix(path[pos..], f[0]) then r == (false, [])
            else if n == 0 then r == Captures(f[1..], 0, path, p)
            else
              var sep := IndexFrom(path, '/', p);
              var rest := Captures(f[1..], n - 1, path, sep + 1);
              r == (rest.0, [path[p..sep]] + rest.1)
  {
    hide SamePrefix, IndexFrom;
  }

  lemma {:induction false} AlikeBehind(f: seq<string>, g: seq<string>)
    requires f != [] && Alike(f, g)
    ensures |f[0]| == |g[0]| && Alike(f[1..], g[1..])
  {
    hide SamePrefix;
  }

  lemma {:induction false} CapturesAlike(f: seq<string>, g: seq<string>, n: nat, path: string, pos: nat)
    requires (|f| == n || |f| == n + 1) && Alike(f, g)
    ensures Captures(f, n, path, pos) == Captures(g, n, path, pos)
    decreases |f|
  {
    hide SamePrefix, IndexFrom, Captures;
    if f == [] {
      assert g == [];
    } else {
      AlikeBehind(f, g);
      CapturesStep(f, n, path, pos);
      CapturesStep(g, n, path, pos);
      var p := pos + |f[0]|;
      if p <= |path| {
        assert SamePrefix(path[pos..], f[0]) <==> SamePrefix(path[pos..], g[0]);
        CapturesAlike(f[1..], g[1..], if n == 0 then 0 else n - 1, path,
                      if n == 0 then p else IndexFrom(path, '/', p) + 1);
      }
    }
  }

  /** A byte behind a NUL may be any other. */
  lemma {:induction false} BehindNul(b: string, q: nat, c: char, a: string)
    requires q + 1 < |b| <= |a| && b[q] == '\0'
    ensures SamePrefix(a, b) <==> SamePrefix(a, b[q + 1 := c])
  {
    var d := b[q + 1 := c];
    forall k | 0 <= k < |b|
      ensures ('\0' in b[..k] <==> '\0' in d[..k]) && ('\0' !in b[..k] ==> b[k] == d[k])
    {
      if k <= q + 1 { assert b[..k] == d[..k]; } else { assert b[..k][q] == d[..k][q] == '\0'; }
      if k == q + 1 { assert b[..k][q] == '\0'; }
    }
  }

  /** Changing a fragment changes the instance but not its length. */
  lemma {:induction false} BuildDiffers(f: seq<string>, v: seq<string>, i: nat, x: string)
    requires (|f| == |v| || |f| == |v| + 1) && i < |f| && |x| == |f[i]| && x != f[i]
    ensures |Build(f[i := x], v)| == |Build(f, v)| && Build(f[i := x], v) != Build(f, v)
    decreases |f|
  {
    var g := f[i := x];
    if v != [] && |f| > 1 {
      var s, t := "/" + Build(f[1..], v[1..]), "/" + Build(g[1..], v[1..]);
      if i == 0 {
        assert g[1..] == f[1..];
        Differ(f[0], x, v[0] + s);
        Append3(f[0], v[0], s);
        Append3(x, v[0], s);
      } else {
        assert g[1..] == f[1..][i - 1 := x];
        BuildDiffers(f[1..], v[1..], i - 1, x);
        assert s[1..] == Build(f[1..], v[1..]) && t[1..] == Build(g[1..], v[1..]);
        SameHead(f[0] + v[0], s, t);
      }
    } else if v != [] {
      Differ(f[0], x, v[0]);
    }
  }

  lemma Differ(a: string, b: string, s: string)
    requires |a| == |b| && a != b
    ensures a + s != b + s
  {
    assert (a + s)[..|a|] == a && (b + s)[..|b|] == b;
  }

  lemma SameHead(a: string, s: string, t: string)
    requires s != t
    ensures a + s != a + t
  {
    assert (a + s)[|a|..] == s && (a + t)[|a|..] == t;
  }

  /** A byte behind a NUL in a fragment lets a path match that is no instance. */
  lemma {:induction false} NotCompared(f: seq<string>, v: seq<string>) returns (path: string)
    requires (|f| == |v| || |f| == |v| + 1) && !AllCompared(f) && SlashFree(v)
    ensures Captures(f, |v|, path, 0) == (true, v) && !IsInstance(f, v, path)
  {
    hide SamePrefix, Captures, Build, SlashFree;
    var i :| 0 <= i < |f| && !Compared(f[i]);
    var q :| 0 <= q < |f[i]| - 1 && f[i][q] == '\0';
    var c := if f[i][q + 1] == 'a' then 'b' else 'a';
    var x := f[i][q + 1 := c];
    assert x[q + 1] != f[i][q + 1];
    var g := f[i := x];
    forall a: string | |a| >= |x| ensures SamePrefix(a, f[i]) <==> SamePrefix(a, x) { BehindNul(f[i], q, c, a); }
    assert Alike(f, g);
    path := Build(g, v);
    assert path[0..] == path;
    InstanceMatches(g, v, path, 0);
    CapturesAlike(f, g, |v|, path, 0);
    BuildDiffers(f, v, i, x);
  }

  /** Exactly the instances match, with exactly the values that were put in. */
  ghost predicate MatchesInstances(f: seq<string>, n: nat)
    requires |f| == n || |f| == n + 1
  {
    forall v: seq<string>, path: string :: |v| == n ==>
      (Captures(f, n, path, 0) == (true, v) <==> SlashFree(v) && IsInstance(f, v, path))
  }

  /** That is so exactly for the patterns none of whose fragments has a byte behind its first
      NUL. */
  lemma {:induction false} RouteMatching(pattern: string)
    ensures var (f, names) := Cut(pattern, 0); MatchesInstances(f, |names|) <==> AllCompared(f)
  {
    hide Captures, IsInstance, SlashFree, Compared, Cut;
    var (f, names) := Cut(pattern, 0);
    var n := |names|;
    if AllCompared(f) {
      forall v: seq<string>, path: string | |v| == n
        ensures Captures(f, n, path, 0) == (true, v) <==> SlashFree(v) && IsInstance(f, v, path)
      {
        MatchIff(f, v, path);
      }
    } else {
      var v := seq(n, _ => "");
      assert SlashFree(v) by { NoSlashes(n); }
      var path := NotCompared(f, v);
      assert Captures(f, n, path, 0) == (true, v) && !IsInstance(f, v, path);
    }
  }

  lemma NoSlashes(n: nat)
    ensures SlashFree(seq(n, _ => ""))
  {
  }

  /** In particular for every pattern without NUL bytes. */
  lemma {:induction false} NulFreePattern(pattern: string, e: nat)
    requires e <= |pattern| + 1 && '\0' !in pattern
    ensures AllCompared(Cut(pattern, e).0)
    decreases |pattern| + 1 - e
  {
    hide Cut, FindFrom, IndexFrom, OccursAt;
    var m := FindFrom(pattern, MARKER, if e == 0 then 0 else e - 1);
    CutUnfold(pattern, e);
    if m < |pattern| { NulFreePattern(pattern, IndexFrom(pattern, '/', m + 2) + 1); }
  }

  lemma {:induction false} OneFragment(pattern: string)
    requires pattern != "" && ':' !in pattern
    ensures Cut(pattern, 0) == ([pattern], [])
  {
    hide FindFrom, IndexFrom;
    CutUnfold(pattern, 0);
    var m := FindFrom(pattern, MARKER, 0);
    forall j: nat ensures !OccursAt(pattern, MARKER, j) {
      if j + 2 <= |pattern| { assert pattern[j..j + 2][1] == pattern[j + 1] != MARKER[1]; }
    }
    assert pattern[0..] == pattern;
  }

  lemma OneComparison(b: string, path: string)
    requires |path| == |b| && SamePrefix(path, b)
    ensures Captures([b], 0, path, 0) == (true, [])
  {
    assert path[0..] == path && [b][1..] == [];
    CapturesEmpty(path, |b|);
  }

  /** An example: a compiled pattern that matches more than its only instance. */
  lemma {:induction false} NulPatternMatchesMore()
    ensures var (f, names) := Cut("/a\0b", 0);
            names == [] && Captures(f, 0, "/a\0c", 0) == (true, []) && !IsInstance(f, [], "/a\0c")
  {
    hide Cut, Captures, SamePrefix;
    var b, path := "/a\0b", "/a\0c";
    OneFragment(b);
    assert path == b[3 := 'c'];
    BehindNul(b, 2, 'c', path);
    ComparedPrefix(path, path);
    assert path[..|path|] == path;
    OneComparison(b, path);
    WholeInstance([b], path);
  }
}
