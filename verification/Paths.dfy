/** Checking a request path before it is used below a directory. */
module Paths {
  import opened Bytes

  function SkipSlashes(s: string, i: nat): (r: nat)
    requires i <= |s|
    ensures i <= r <= |s| && (r < |s| ==> s[r] != '/')
    decreases |s| - i
  {
    if i < |s| && s[i] == '/' then SkipSlashes(s, i + 1) else i
  }

  /** The non-empty components from `i` on. */
  function Components(path: string, i: nat): (r: seq<string>)
    requires i <= |path|
    ensures forall k :: 0 <= k < |r| ==> r[k] != "" && '/' !in r[k]
    decreases |path| - i
  {
    var j := SkipSlashes(path, i);
    if j == |path| then []
    else
      var e := IndexFrom(path, '/', j);
      [path[j..e]] + Components(path, e)
  }

  /** How deep the first `k` components lead, unless they have left the start. */
  function LevelAt(c: seq<string>, k: nat): Option<nat>
    requires k <= |c|
  {
    if k == 0 then Some(0)
    else match LevelAt(c, k - 1)
      case None => None
      case Some(level) =>
        if c[k - 1] == "." then Some(level)
        else if c[k - 1] == ".." then (if level == 0 then None else Some(level - 1))
        else Some(level + 1)
  }

  lemma {:induction false} LevelLost(c: seq<string>, k: nat, m: nat)
    requires k <= m <= |c| && LevelAt(c, k).None?
    ensures LevelAt(c, m).None?
  {
    if k < m { LevelLost(c, k, m - 1); }
  }

  method SkipSlash(path: string, i0: nat) returns (i: nat)
    requires i0 <= |path|
    ensures i == SkipSlashes(path, i0)
  {
    i := i0;
    while i < |path| && path[i] == '/'
      invariant i0 <= i <= |path| && SkipSlashes(path, i) == SkipSlashes(path, i0)
    {
      i := i + 1;
    }
  }

  /** Reads up to the next slash, and no further than a forbidden byte. */
  method ReadComponent(path: string, beg: nat) returns (clean: bool, i: nat)
    requires beg <= |path|
    ensures clean <==> forall j :: beg <= j < IndexFrom(path, '/', beg) ==> path[j] != '\0' && path[j] != '\\'
    ensures clean ==> i == IndexFrom(path, '/', beg)
  {
    i := beg;
    while i < |path| && path[i] != '/'
      invariant beg <= i <= IndexFrom(path, '/', beg) == IndexFrom(path, '/', i)
      invariant forall j :: beg <= j < i ==> path[j] != '\0' && path[j] != '\\'
    {
      if path[i] == '\0' { return false, i; }
      else if path[i] == '\\' { return false, i; }
      i := i + 1;
    }
    clean := true;
  }

  method IsValidPath(path: string) returns (ok: bool)
    ensures ok <==> '\0' !in path && '\\' !in path && LevelAt(Components(path, 0), |Components(path, 0)|).Some?
  {
    hide Components, LevelAt, IndexFrom;
    ghost var c := Components(path, 0);
    ghost var n := 0;
    StartLevel(c);
    var level := 0;
    var i := SkipSlash(path, 0);
    SlashesAreClean(path, 0);
    ComponentsAt(path, 0);
    while i < |path|
      invariant i <= |path| && (i < |path| ==> path[i] != '/')
      invariant forall j :: 0 <= j < i ==> path[j] != '\0' && path[j] != '\\'
      invariant n <= |c| && LevelAt(c, n) == Some(level)
      invariant c[n..] == Components(path, i)
      decreases |path| - i
    {
      var beg := i;
      ComponentsAt(path, beg);
      var clean;
      clean, i := ReadComponent(path, beg);
      if !clean { return false; }
      var part := path[beg..i];
      assert c[n] == c[n..][0] == part;
      assert c[n + 1..] == c[n..][1..];
      NextLevel(c, n);
      if part == "." {
      } else if part == ".." {
        if level == 0 {
          LevelLost(c, n + 1, |c|);
          return false;
        }
        level := level - 1;
      } else {
        level := level + 1;
      }
      n := n + 1;
      ComponentsAt(path, i);
      SlashesAreClean(path, i);
      i := SkipSlash(path, i);
    }
    ComponentsAt(path, i);
    assert n == |c|;
    ok := true;
  }

  lemma StartLevel(c: seq<string>)
    ensures LevelAt(c, 0) == Some(0)
  {
  }

  lemma NextLevel(c: seq<string>, n: nat)
    requires n < |c| && LevelAt(c, n).Some?
    ensures LevelAt(c, n + 1) ==
            var level := LevelAt(c, n).value;
            if c[n] == "." then Some(level)
            else if c[n] == ".." then (if level == 0 then None else Some(level - 1))
            else Some(level + 1)
  {
  }

  lemma {:induction false} ComponentsAt(path: string, i: nat)
    requires i <= |path|
    ensures Components(path, SkipSlashes(path, i)) == Components(path, i)
    ensures i == |path| ==> Components(path, i) == []
    ensures i < |path| && path[i] != '/' ==>
              var e := IndexFrom(path, '/', i); Components(path, i) == [path[i..e]] + Components(path, e)
  {
    assert SkipSlashes(path, SkipSlashes(path, i)) == SkipSlashes(path, i);
  }

  lemma {:induction false} SlashesAreClean(path: string, i: nat)
    requires i <= |path|
    ensures forall j :: i <= j < SkipSlashes(path, i) ==> path[j] == '/'
    decreases |path| - i
  {
    if i < |path| && path[i] == '/' { SlashesAreClean(path, i + 1); }
  }

  // ------------------------------------------------------- what components are

  lemma {:induction false} SlashesShift(pre: string, t: string, i: nat)
    requires i <= |t|
    ensures SkipSlashes(pre + t, |pre| + i) == |pre| + SkipSlashes(t, i)
    decreases |t| - i
  {
    if i < |t| { SlashesShift(pre, t, i + 1); }
  }

  lemma {:induction false} SlashShift(pre: string, t: string, i: nat)
    requires i <= |t|
    ensures IndexFrom(pre + t, '/', |pre| + i) == |pre| + IndexFrom(t, '/', i)
    decreases |t| - i
  {
    if i < |t| { SlashShift(pre, t, i + 1); }
  }

  lemma SliceShift(pre: string, t: string, j: nat, e: nat)
    requires j <= e <= |t|
    ensures (pre + t)[|pre| + j..|pre| + e] == t[j..e]
  {
  }

  lemma {:induction false} ComponentsShift(pre: string, t: string, i: nat)
    requires i <= |t|
    ensures Components(pre + t, |pre| + i) == Components(t, i)
    decreases |t| - i
  {
    hide SkipSlashes, IndexFrom;
    SlashesShift(pre, t, i);
    var j := SkipSlashes(t, i);
    if j < |t| {
      SlashShift(pre, t, j);
      var e := IndexFrom(t, '/', j);
      SliceShift(pre, t, j, e);
      ComponentsShift(pre, t, e);
    }
  }

  lemma {:induction false} FrontStep(a: string, b: string, i: nat)
    requires i <= |a|
    ensures var s, j := a + "/" + b, SkipSlashes(a, i);
            if j < |a| then SkipSlashes(s, i) == j && IndexFrom(s, '/', j) == IndexFrom(a, '/', j)
            else SkipSlashes(s, i) == SkipSlashes(s, |a| + 1)
    decreases |a| - i
  {
    var s := a + "/" + b;
    assert s[|a|] == '/' && forall k :: 0 <= k < |a| ==> s[k] == a[k];
    if i < |a| && a[i] == '/' {
      FrontStep(a, b, i + 1);
    } else if i < |a| {
      FrontIndex(a, b, i);
    }
  }

  lemma {:induction false} FrontIndex(a: string, b: string, i: nat)
    requires i <= |a|
    ensures IndexFrom(a + "/" + b, '/', i) == IndexFrom(a, '/', i)
    decreases |a| - i
  {
    var s := a + "/" + b;
    assert s[|a|] == '/' && forall k :: 0 <= k < |a| ==> s[k] == a[k];
    if i < |a| { FrontIndex(a, b, i + 1); }
  }

  lemma {:induction false} FrontComponents(a: string, b: string, i: nat)
    requires i <= |a|
    ensures Components(a + "/" + b, i) == Components(a, i) + Components(b, 0)
    decreases |a| - i
  {
    hide SkipSlashes, IndexFrom, Components;
    var s, j := a + "/" + b, SkipSlashes(a, i);
    FrontStep(a, b, i);
    ComponentsAt(s, i);
    ComponentsAt(a, i);
    if j < |a| {
      var e := IndexFrom(a, '/', j);
      assert s[j..e] == a[j..e];
      FrontComponents(a, b, e);
      ComponentsAt(s, j);
      ComponentsAt(a, j);
      Append3([a[j..e]], Components(a, e), Components(b, 0));
    } else {
      ComponentsShift(a + "/", b, 0);
      ComponentsAt(s, |a| + 1);
      ComponentsAt(a, j);
      assert [] + Components(b, 0) == Components(b, 0);
    }
  }

  /** A slash separates, a text without one is a component, and nothing is none. */
  lemma {:induction false} ComponentsAre(a: string, b: string)
    ensures Components(a + "/" + b, 0) == Components(a, 0) + Components(b, 0)
    ensures '/' !in a ==> Components(a, 0) == if a == "" then [] else [a]
  {
    FrontComponents(a, b, 0);
    if '/' !in a && a != "" {
      assert IndexFrom(a, '/', 0) == |a|;
      assert a[0..|a|] == a && Components(a, |a|) == [];
    }
  }

  // ------------------------------------------------------- what the check is for

  /** One step of a walk through directories; the parent of the root is the root. */
  function Step(dir: seq<string>, part: string): seq<string> {
    if part == "." then dir
    else if part == ".." then (if dir == [] then [] else dir[..|dir| - 1])
    else dir + [part]
  }

  /** Where the first `k` components lead from `base`. */
  function WalkedTo(base: seq<string>, c: seq<string>, k: nat): seq<string>
    requires k <= |c|
  {
    if k == 0 then base else Step(WalkedTo(base, c, k - 1), c[k - 1])
  }

  predicate Below(base: seq<string>, dir: seq<string>) { |base| <= |dir| && dir[..|base|] == base }

  lemma {:induction false} LevelIsDepth(base: seq<string>, c: seq<string>, k: nat)
    requires k <= |c| && LevelAt(c, k).Some?
    ensures Below(base, WalkedTo(base, c, k)) && |WalkedTo(base, c, k)| == |base| + LevelAt(c, k).value
    ensures forall j :: 0 <= j <= k ==> LevelAt(c, j).Some?
  {
    if k > 0 {
      LevelIsDepth(base, c, k - 1);
      var dir, next := WalkedTo(base, c, k - 1), WalkedTo(base, c, k);
      if |next| >= |base| { assert next[..|base|] == dir[..|base|]; }
    }
  }

  lemma {:induction false} LostIsAbove(base: seq<string>, c: seq<string>, k: nat) returns (j: nat)
    requires base != [] && k <= |c| && LevelAt(c, k).None?
    ensures j <= k && !Below(base, WalkedTo(base, c, j))
  {
    if LevelAt(c, k - 1).None? {
      j := LostIsAbove(base, c, k - 1);
    } else {
      LevelIsDepth(base, c, k - 1);
      j := k;
    }
  }

  /** A clean path is accepted exactly when walking along it from a directory never leads
      outside that directory, not even on the way. The root is excepted: it is its own parent,
      so nothing leads outside it. */
  lemma {:induction false} ValidStaysBelow(base: seq<string>, path: string)
    requires base != []
    ensures var c := Components(path, 0);
            LevelAt(c, |c|).Some? <==> forall k :: 0 <= k <= |c| ==> Below(base, WalkedTo(base, c, k))
  {
    hide Components, Below;
    var c := Components(path, 0);
    if LevelAt(c, |c|).Some? {
      LevelIsDepth(base, c, |c|);
      forall k | 0 <= k <= |c| ensures Below(base, WalkedTo(base, c, k)) { LevelIsDepth(base, c, k); }
    } else {
      var j := LostIsAbove(base, c, |c|);
    }
  }
}
