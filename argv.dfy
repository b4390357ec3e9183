/**
 * The in-place transformations `wsh` applies to a parsed command line
 * (shell/wsh.c): `compact_argv`, `substitute_variables` and `count_pipes`.
 * An argument vector is a `char *argv[]` ended by a NULL pointer; here it is
 * an array of `Option<string>` whose first `None` ends the arguments.
 */
module ShellArgv {
  import opened Wrappers
  import opened ShellState

  /** The index of the terminating NULL, or the length when there is none. */
  function End(s: seq<Option<string>>): (r: nat)
    ensures r <= |s|
    ensures forall k :: 0 <= k < r ==> s[k].Some?
    ensures r < |s| ==> s[r].None?
  {
    if s == [] || s[0].None? then 0 else 1 + End(s[1..])
  }

  lemma {:induction false} EndAt(s: seq<Option<string>>, n: nat)
    requires n < |s| && s[n].None? && forall k :: 0 <= k < n ==> s[k].Some?
    ensures End(s) == n
  {
    if n > 0 { EndAt(s[1..], n - 1); }
  }

  predicate Terminated(s: seq<Option<string>>) {
    End(s) < |s|
  }

  // ---------------------------------------------------------------- compact_argv

  /** The arguments other than the empty string, in their order. */
  function NonEmpty(args: seq<Option<string>>): seq<Option<string>> {
    if args == [] then []
    else NonEmpty(args[..|args| - 1]) + (if args[|args| - 1] == Some("") then [] else [args[|args| - 1]])
  }

  /** Compaction removes exactly the empty strings and never lengthens the vector. */
  lemma {:induction false} NonEmptyMembers(args: seq<Option<string>>)
    ensures forall x :: x in NonEmpty(args) <==> x in args && x != Some("")
    ensures |NonEmpty(args)| <= |args|
  {
    if args != [] {
      var init := args[..|args| - 1];
      NonEmptyMembers(init);
      assert args == init + [args[|args| - 1]];
    }
  }

  /** A vector without empty strings is left as it is. */
  lemma {:induction false} NonEmptyIdentity(args: seq<Option<string>>)
    requires Some("") !in args
    ensures NonEmpty(args) == args
  {
    if args != [] {
      var init := args[..|args| - 1];
      NonEmptyIdentity(init);
      assert args == init + [args[|args| - 1]];
    }
  }

  /** `compact_argv` */
  method CompactArgv(a: array<Option<string>>)
    requires Terminated(a[..])
    modifies a
    ensures var s := old(a[..]);
            var kept := NonEmpty(s[..End(s)]);
            && End(a[..]) == |kept|
            && a[..|kept|] == kept
            && (forall k :: |kept| < k < a.Length ==> a[k] == s[k])
  {
    ghost var s := a[..];
    ghost var n := End(s);
    var compact := 0;
    var i := 0;
    while a[i].Some?
      invariant 0 <= compact <= i <= n
      invariant a[..compact] == NonEmpty(s[..i])
      invariant forall k :: compact <= k < a.Length ==> a[k] == s[k]
      decreases n - i
    {
      NonEmptyStep(s, i);
      if a[i] != Some("") {
        a[compact] := a[i];
        compact := compact + 1;
      }
      i := i + 1;
    }
    a[compact] := None;
    CompactEnd(a[..], s[..n]);
  }

  lemma NonEmptyStep(s: seq<Option<string>>, i: nat)
    requires i < |s|
    ensures NonEmpty(s[..i + 1]) == NonEmpty(s[..i]) + (if s[i] == Some("") then [] else [s[i]])
  {
    assert s[..i + 1][..i] == s[..i];
  }

  /** Once the NULL follows the kept arguments, it ends the vector. */
  lemma CompactEnd(cur: seq<Option<string>>, args: seq<Option<string>>)
    requires forall k :: 0 <= k < |args| ==> args[k].Some?
    requires |NonEmpty(args)| < |cur| && cur[..|NonEmpty(args)|] == NonEmpty(args) && cur[|NonEmpty(args)|].None?
    ensures End(cur) == |NonEmpty(args)|
  {
    var kept := NonEmpty(args);
    NonEmptyMembers(args);
    forall k | 0 <= k < |kept| ensures cur[k].Some? {
      assert cur[k] == kept[k] && kept[k] in args;
    }
    EndAt(cur, |kept|);
  }

  // ---------------------------------------------------------------- count_pipes

  /** How many arguments are exactly "|". */
  function Pipes(args: seq<Option<string>>): nat {
    if args == [] then 0
    else Pipes(args[..|args| - 1]) + (if args[|args| - 1] == Some("|") then 1 else 0)
  }

  lemma {:induction false} PipesAppend(s: seq<Option<string>>, t: seq<Option<string>>)
    ensures Pipes(s + t) == Pipes(s) + Pipes(t)
    decreases |t|
  {
    if t == [] {
      assert s + t == s;
    } else {
      var init := t[..|t| - 1];
      assert (s + t)[..|s + t| - 1] == s + init;
      assert (s + t)[|s + t| - 1] == t[|t| - 1];
      PipesAppend(s, init);
    }
  }

  /** The vector has as many pipes as it has arguments equal to "|", and compaction keeps them all. */
  lemma {:induction false} CompactKeepsPipes(args: seq<Option<string>>)
    ensures Pipes(NonEmpty(args)) == Pipes(args)
    ensures Pipes(args) <= |args|
  {
    if args != [] {
      var init := args[..|args| - 1];
      CompactKeepsPipes(init);
      var last := args[|args| - 1];
      PipesAppend(NonEmpty(init), if last == Some("") then [] else [last]);
    }
  }

  /** `count_pipes` */
  method CountPipes(a: array<Option<string>>) returns (pipes: nat)
    requires Terminated(a[..])
    ensures pipes == Pipes(a[..End(a[..])])
  {
    ghost var n := End(a[..]);
    pipes := 0;
    var i := 0;
    while a[i].Some?
      invariant 0 <= i <= n
      invariant pipes == Pipes(a[..i])
      decreases n - i
    {
      assert a[..i + 1][..i] == a[..i];
      if a[i] == Some("|") {
        pipes := pipes + 1;
      }
      i := i + 1;
    }
  }

  // ---------------------------------------------------------------- substitute_variables

  /**
   * `getenv(name)`, then `find_variable(shellVars, name)`: the environment
   * wins. `getenv("")` finds nothing, so a bare `$` is looked up only among
   * the shell variables.
   */
  function Lookup(env: map<string, string>, vars: seq<Var>, name: string): (r: Option<string>)
    ensures name != "" && name in env ==> r == Some(env[name])
    ensures !(name != "" && name in env) ==> (r.None? <==> Find(vars, name).None?)
    ensures r.Some? && !(name != "" && name in env) ==> r == Some(Find(vars, name).value.value)
  {
    if name != "" && name in env then Some(env[name])
    else match Find(vars, name)
      case Some(v) => Some(v.value)
      case None => None
  }

  predicate IsReference(arg: Option<string>) {
    arg.Some? && |arg.value| > 0 && arg.value[0] == '$'
  }

  /** What one argument becomes: a `$name` is replaced by its value, or deleted when it has none. */
  function Expand(arg: Option<string>, env: map<string, string>, vars: seq<Var>): seq<Option<string>> {
    if IsReference(arg) then
      match Lookup(env, vars, arg.value[1..])
      case Some(v) => [Some(v)]
      case None => []
    else [arg]
  }

  function Substituted(args: seq<Option<string>>, env: map<string, string>, vars: seq<Var>): seq<Option<string>> {
    if args == [] then []
    else Substituted(args[..|args| - 1], env, vars) + Expand(args[|args| - 1], env, vars)
  }

  /** A vector with no `$` arguments is left as it is. */
  lemma {:induction false} SubstitutedPlain(args: seq<Option<string>>, env: map<string, string>, vars: seq<Var>)
    requires forall k :: 0 <= k < |args| ==> !IsReference(args[k])
    ensures Substituted(args, env, vars) == args
  {
    if args != [] {
      SubstitutedPlain(args[..|args| - 1], env, vars);
    }
  }

  /** Substitution never lengthens the vector, and shortens it by one per unresolved reference. */
  lemma {:induction false} SubstitutedLength(args: seq<Option<string>>, env: map<string, string>, vars: seq<Var>)
    ensures |Substituted(args, env, vars)| == |args| - Unresolved(args, env, vars)
  {
    if args != [] {
      SubstitutedLength(args[..|args| - 1], env, vars);
    }
  }

  function Unresolved(args: seq<Option<string>>, env: map<string, string>, vars: seq<Var>): (r: nat)
    ensures r <= |args|
  {
    if args == [] then 0
    else
      var last := args[|args| - 1];
      Unresolved(args[..|args| - 1], env, vars) +
        (if IsReference(last) && Lookup(env, vars, last.value[1..]).None? then 1 else 0)
  }

  /** "echo $HOME $missing x" with HOME set in the environment becomes "echo /home/u x". */
  lemma SubstituteExample()
    ensures Substituted([Some("echo"), Some("$HOME"), Some("$missing"), Some("x")],
                        map["HOME" := "/home/u"], [Var("HOME", "/tmp")])
         == [Some("echo"), Some("/home/u"), Some("x")]
  {
    var args := [Some("echo"), Some("$HOME"), Some("$missing"), Some("x")];
    var env := map["HOME" := "/home/u"];
    var vars := [Var("HOME", "/tmp")];
    assert "$HOME"[1..] == "HOME";
    assert "$missing"[1..] == "missing";
    assert Find(vars, "missing").None?;
    assert IsReference(Some("$missing")) && IsReference(Some("$HOME"));
    assert Expand(Some("echo"), env, vars) == [Some("echo")];
    assert Expand(Some("$HOME"), env, vars) == [Some("/home/u")];
    assert Expand(Some("$missing"), env, vars) == [];
    assert Expand(Some("x"), env, vars) == [Some("x")];
    var p1 := [Some("echo")];
    var p2 := [Some("echo"), Some("$HOME")];
    var p3 := [Some("echo"), Some("$HOME"), Some("$missing")];
    assert p1[..0] == [];
    assert Substituted(p1, env, vars) == [Some("echo")];
    assert p2[..1] == p1;
    assert Substituted(p2, env, vars) == [Some("echo"), Some("/home/u")];
    assert p3[..2] == p2;
    assert Substituted(p3, env, vars) == [Some("echo"), Some("/home/u")];
    assert args[..3] == p3;
  }

  /** The left shift that deletes the argument at `i`; the terminating NULL at `m` moves down too. */
  method ShiftLeft(a: array<Option<string>>, i: nat, ghost m: nat)
    requires i < m < a.Length && a[m].None? && forall k :: i <= k < m ==> a[k].Some?
    modifies a
    ensures forall k :: 0 <= k < i ==> a[k] == old(a[k])
    ensures forall k :: i <= k < m ==> a[k] == old(a[k + 1])
    ensures forall k :: m <= k < a.Length ==> a[k] == old(a[k])
  {
    var j := i;
    while a[j].Some?
      invariant i <= j <= m
      invariant forall k :: 0 <= k < i ==> a[k] == old(a[k])
      invariant forall k :: i <= k < j ==> a[k] == old(a[k + 1])
      invariant forall k :: j <= k < a.Length ==> a[k] == old(a[k])
      decreases m - j
    {
      a[j] := a[j + 1];
      j := j + 1;
    }
  }

  /**
   * Midway through `substitute_variables`: the first `j` of the original `n`
   * arguments are done and the rest, `s[j..n]`, sit from position `i` on,
   * followed by NULLs up to the old terminator; nothing past it has moved.
   */
  ghost predicate Pending(cur: seq<Option<string>>, s: seq<Option<string>>, i: nat, j: nat, n: nat) {
    && i <= j <= n < |cur| == |s|
    && (forall k :: 0 <= k < n ==> s[k].Some?)
    && (forall k :: i <= k < i + (n - j) ==> cur[k] == s[k + (j - i)])
    && (forall k :: i + (n - j) <= k <= n ==> cur[k].None?)
    && (forall k :: n < k < |cur| ==> cur[k] == s[k])
  }

  /** One turn of the loop: the argument at `i` is kept, replaced, or deleted by the left shift. */
  method SubstituteAt(a: array<Option<string>>, i: nat, env: map<string, string>, vars: seq<Var>,
                      ghost s: seq<Option<string>>, ghost j: nat, ghost n: nat) returns (next: nat)
    requires Pending(a[..], s, i, j, n) && j < n
    modifies a
    ensures next == i + |Expand(s[j], env, vars)|
    ensures a[..next] == old(a[..i]) + Expand(s[j], env, vars)
    ensures Pending(a[..], s, next, j + 1, n)
  {
    assert a[i] == s[j];
    var arg := a[i].value;
    if |arg| > 0 && arg[0] == '$' {
      var substitution := Lookup(env, vars, arg[1..]);
      if substitution.Some? {
        a[i] := substitution;
        next := i + 1;
      } else {
        forall k | i <= k < i + (n - j) ensures a[k].Some? {
          assert a[k] == s[k + (j - i)];
        }
        ShiftLeft(a, i, i + (n - j));
        next := i;
        assert a[..next] == old(a[..i]);
      }
    } else {
      next := i + 1;
    }
  }

  /** `substitute_variables`, with the environment given as a map. */
  method SubstituteVariables(a: array<Option<string>>, env: map<string, string>, vars: seq<Var>)
    requires Terminated(a[..])
    modifies a
    ensures var s := old(a[..]);
            var n := End(s);
            var out := Substituted(s[..n], env, vars);
            && |out| <= n
            && End(a[..]) == |out|
            && a[..|out|] == out
            && (forall k :: |out| <= k <= n ==> a[k].None?)
            && (forall k :: n < k < a.Length ==> a[k] == s[k])
  {
    ghost var s := a[..];
    ghost var n := End(s);
    var i: nat := 0;
    ghost var j: nat := 0;
    while a[i].Some?
      invariant Pending(a[..], s, i, j, n)
      invariant a[..i] == Substituted(s[..j], env, vars)
      decreases n - j
    {
      SubstitutedStep(s, j, env, vars);
      i := SubstituteAt(a, i, env, vars, s, j, n);
      j := j + 1;
    }
    assert a[..][i].None?;
    SubstituteEnd(a[..], s, i, n, env, vars);
  }

  /** Once every argument is done, the substituted ones come first and the NULL after them ends the vector. */
  lemma SubstituteEnd(cur: seq<Option<string>>, s: seq<Option<string>>, i: nat, n: nat,
                      env: map<string, string>, vars: seq<Var>)
    requires Pending(cur, s, i, n, n) && cur[..i] == Substituted(s[..n], env, vars)
    ensures i <= n && End(cur) == i
    ensures forall k :: i <= k <= n ==> cur[k].None?
    ensures forall k :: n < k < |cur| ==> cur[k] == s[k]
  {
    forall k | 0 <= k < i ensures cur[k].Some? {
      SubstitutedSome(s[..n], env, vars);
      assert cur[k] in Substituted(s[..n], env, vars);
    }
    EndAt(cur, i);
  }

  lemma SubstitutedStep(s: seq<Option<string>>, j: nat, env: map<string, string>, vars: seq<Var>)
    requires j < |s|
    ensures Substituted(s[..j + 1], env, vars) == Substituted(s[..j], env, vars) + Expand(s[j], env, vars)
  {
    assert s[..j + 1][..j] == s[..j];
  }

  lemma {:induction false} SubstitutedSome(args: seq<Option<string>>, env: map<string, string>, vars: seq<Var>)
    requires forall k :: 0 <= k < |args| ==> args[k].Some?
    ensures forall x :: x in Substituted(args, env, vars) ==> x.Some?
  {
    if args != [] {
      SubstitutedSome(args[..|args| - 1], env, vars);
    }
  }
}
