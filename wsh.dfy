/**
 * The bookkeeping of the `wsh` shell (shell/wsh.c): the command history, a
 * most-recent-first list bounded by a settable capacity, and the shell's
 * local variables, an insertion-ordered list of name/value pairs. Both are
 * linked lists in the C program; here they are sequences held by a class,
 * and each relinking loop becomes a method proved against a function that
 * says what the list is afterwards.
 */
module ShellState {
  import opened Wrappers

  datatype Var = Var(name: string, value: string)

  /** `history_capacity`'s initial value. */
  const DefaultCapacity: nat := 5

  /** The commands `main` never records in the history; matched as prefixes of the line. */
  const BuiltIns: seq<string> := ["history", "cd", "exit", "export", "local", "vars"]

  // ---------------------------------------------------------------- history

  /** The newest `n` entries of a most-recent-first history. */
  function Newest(h: seq<string>, n: nat): (r: seq<string>)
    ensures |r| == if |h| <= n then |h| else n
  {
    if |h| <= n then h else h[..n]
  }

  /** The history after `add_history(command)`. */
  function Recorded(h: seq<string>, capacity: nat, command: string): seq<string> {
    if capacity == 0 || (|h| > 0 && h[0] == command) then h
    else Newest([command] + h, capacity)
  }

  /**
   * `add_history` ignores the command when the capacity is 0 or it repeats
   * the newest entry; otherwise the command becomes the newest entry, the
   * history stays within the capacity, and at most the oldest entry is lost.
   */
  lemma RecordedShape(h: seq<string>, capacity: nat, command: string)
    requires |h| <= capacity
    ensures var r := Recorded(h, capacity, command);
            && |r| <= capacity
            && (r == h <==> capacity == 0 || (|h| > 0 && h[0] == command))
            && (r != h ==>
                  && r[0] == command
                  && r[1..] == h[..|r| - 1]
                  && |r| == (if |h| < capacity then |h| + 1 else capacity))
  {
    var r := Recorded(h, capacity, command);
    if r != h {
      assert r == ([command] + h)[..|r|];
      assert r[1..] == h[..|r| - 1];
    }
  }

  /** Setting a capacity keeps the newest entries, in their order, and never grows the history. */
  lemma NewestIsPrefix(h: seq<string>, n: nat)
    ensures var r := Newest(h, n);
            && |r| <= n && |r| <= |h|
            && (forall i :: 0 <= i < |r| ==> r[i] == h[i])
            && (|h| <= n ==> r == h)
  {
  }

  /** Shrinking twice is shrinking once to the smaller capacity. */
  lemma NewestTwice(h: seq<string>, m: nat, n: nat)
    ensures Newest(Newest(h, m), n) == Newest(h, if m <= n then m else n)
  {
  }

  // ---------------------------------------------------------------- variables

  /** No two variables share a name. */
  predicate UniqueNames(vars: seq<Var>) {
    forall i, j :: 0 <= i < j < |vars| ==> vars[i].name != vars[j].name
  }

  /** Where `find_variable`'s walk stops: the first variable called `name`, or the end. */
  function Position(vars: seq<Var>, name: string): (r: nat)
    ensures r <= |vars|
    ensures r < |vars| ==> vars[r].name == name
    ensures forall j :: 0 <= j < r ==> vars[j].name != name
  {
    if vars == [] then 0
    else if vars[0].name == name then 0
    else 1 + Position(vars[1..], name)
  }

  /** What `find_variable` returns: the first node with that name, or NULL. */
  function Find(vars: seq<Var>, name: string): (r: Option<Var>)
    ensures r.None? <==> forall j :: 0 <= j < |vars| ==> vars[j].name != name
    ensures r.Some? ==> r.value in vars && r.value.name == name
  {
    var i := Position(vars, name);
    if i < |vars| then Some(vars[i]) else None
  }

  /** `unset_variable`: the first node with that name is unlinked; the rest stay in order. */
  function Unset(vars: seq<Var>, name: string): seq<Var> {
    var i := Position(vars, name);
    if i == |vars| then vars else vars[..i] + vars[i + 1..]
  }

  /** `set_local_variable`, with `value` NULL as `None`. */
  function SetLocal(vars: seq<Var>, name: string, value: Option<string>): seq<Var> {
    var i := Position(vars, name);
    var empty := value.None? || value.value == "";
    if i < |vars| then
      if empty then vars[..i] + vars[i + 1..] else vars[i := Var(name, value.value)]
    else
      if empty then vars else vars + [Var(name, value.value)]
  }

  /**
   * Unsetting removes the named variable and touches nothing else: every
   * other name finds what it found before, and the names stay unique.
   */
  lemma UnsetOutcome(vars: seq<Var>, name: string)
    requires UniqueNames(vars)
    ensures var r := Unset(vars, name);
            && UniqueNames(r)
            && Find(r, name).None?
            && (forall other :: other != name ==> Find(r, other) == Find(vars, other))
            && (Find(vars, name).None? ==> r == vars)
            && |r| == (if Find(vars, name).None? then |vars| else |vars| - 1)
  {
    var i := Position(vars, name);
    var r := Unset(vars, name);
    if i < |vars| {
      assert forall j :: 0 <= j < |r| ==> r[j] == (if j < i then vars[j] else vars[j + 1]);
      forall other | other != name ensures Find(r, other) == Find(vars, other) {
        var p := Position(vars, other);
        var q := Position(r, other);
        if p < i {
          assert r[p] == vars[p];
          assert q == p;
        } else if p == |vars| {
          assert q == |r|;
        } else {
          assert p > i;
          assert r[p - 1] == vars[p];
          assert q == p - 1;
        }
      }
    }
  }

  /**
   * The four cases of `set_local_variable`: an existing name with a
   * non-empty value is updated where it stands, with an empty or NULL value
   * it is removed, a new name with a non-empty value is appended, and a new
   * name with an empty value changes nothing. Names stay unique and no
   * other name's variable changes.
   */
  lemma SetLocalOutcome(vars: seq<Var>, name: string, value: Option<string>)
    requires UniqueNames(vars)
    ensures var r := SetLocal(vars, name, value);
            var present := Find(vars, name).Some?;
            var empty := value.None? || value.value == "";
            && UniqueNames(r)
            && (empty ==> r == Unset(vars, name))
            && (!empty && present ==> |r| == |vars| && Position(r, name) == Position(vars, name))
            && (!empty && !present ==> r == vars + [Var(name, value.value)])
            && Find(r, name) == (if empty then None else Some(Var(name, value.value)))
            && (forall other :: other != name ==> Find(r, other) == Find(vars, other))
  {
    var i := Position(vars, name);
    var r := SetLocal(vars, name, value);
    if value.None? || value.value == "" {
      UnsetOutcome(vars, name);
    } else if i < |vars| {
      PositionIsFirst(r, name, i);
      forall other | other != name ensures Find(r, other) == Find(vars, other) {
        var p := Position(vars, other);
        assert p != i;
        PositionIsFirst(r, other, p);
      }
    } else {
      forall other | other != name ensures Find(r, other) == Find(vars, other) {
        var p := Position(vars, other);
        if p < |vars| {
          PositionIsFirst(r, other, p);
        } else {
          PositionIsFirst(r, other, |r|);
        }
      }
      PositionIsFirst(r, name, |vars|);
    }
  }

  /**
   * How `strtok(arg, "=")` followed by `strtok(NULL, "")` splits the argument
   * of `local`: leading '=' are skipped, the name runs to the next '=', and
   * the value is whatever follows that '=', or NULL when nothing does.
   */
  function SplitAssignment(arg: string): (r: (Option<string>, Option<string>))
    ensures r.0.Some? ==> r.0.value != "" && '=' !in r.0.value
    ensures r.1.Some? ==> r.0.Some? && r.1.value != ""
  {
    var k := SkipEquals(arg, 0);
    if k == |arg| then (None, None)
    else
      var e := NextEquals(arg, k);
      var name := arg[k..e];
      assert name[0] == arg[k];
      if e >= |arg| - 1 then (Some(name), None) else (Some(name), Some(arg[e + 1..]))
  }

  function SkipEquals(s: string, k: nat): (r: nat)
    requires k <= |s|
    ensures k <= r <= |s| && (r < |s| ==> s[r] != '=')
    decreases |s| - k
  {
    if k == |s| || s[k] != '=' then k else SkipEquals(s, k + 1)
  }

  function NextEquals(s: string, k: nat): (r: nat)
    requires k <= |s|
    ensures k <= r <= |s| && (r < |s| ==> s[r] == '=')
    ensures forall j :: k <= j < r ==> s[j] != '='
    decreases |s| - k
  {
    if k == |s| || s[k] == '=' then k else NextEquals(s, k + 1)
  }

  /** `local name=value` splits back into its name and value; `local name=` gives a NULL value. */
  lemma {:induction false} SplitJoined(name: string, value: string)
    requires name != "" && '=' !in name && name[0] != '='
    ensures SplitAssignment(name + "=" + value) == (Some(name), if value == "" then None else Some(value))
  {
    var arg := name + "=" + value;
    assert arg[0] == name[0];
    assert SkipEquals(arg, 0) == 0;
    NextEqualsAt(arg, 0, |name|);
    assert arg[..|name|] == name;
    assert arg[|name| + 1..] == value;
  }

  lemma {:induction false} NextEqualsAt(s: string, k: nat, e: nat)
    requires k <= e < |s| && s[e] == '=' && forall j :: k <= j < e ==> s[j] != '='
    ensures NextEquals(s, k) == e
    decreases e - k
  {
    if k < e { NextEqualsAt(s, k + 1, e); }
  }

  /** Whether `main`'s `strncmp` loop finds a built-in command name at the start of the line. */
  predicate IsBuiltIn(line: string) {
    exists i :: 0 <= i < |BuiltIns| && BuiltIns[i] <= line
  }

  /** The check is by prefix: "cdx" and "exporter" count as built-ins, "ls" and "echo hi" do not. */
  lemma BuiltInByPrefix()
    ensures IsBuiltIn("cdx") && IsBuiltIn("exporter") && IsBuiltIn("history set 3")
    ensures !IsBuiltIn("ls") && !IsBuiltIn("echo hi") && !IsBuiltIn("c")
  {
    assert BuiltIns[1] <= "cdx";
    assert BuiltIns[3] <= "exporter";
    assert BuiltIns[0] <= "history set 3";
    assert !IsBuiltIn("c") by {
      forall i | 0 <= i < |BuiltIns| ensures !(BuiltIns[i] <= "c") { assert |BuiltIns[i]| > 1; }
    }
    assert !IsBuiltIn("ls") by {
      forall i | 0 <= i < |BuiltIns| ensures !(BuiltIns[i] <= "ls") { assert BuiltIns[i][0] != 'l' || BuiltIns[i][1] != 's'; }
    }
    assert !IsBuiltIn("echo hi") by {
      forall i | 0 <= i < |BuiltIns| ensures !(BuiltIns[i] <= "echo hi") { assert BuiltIns[i][0] != 'e' || BuiltIns[i][1] != 'c'; }
    }
  }

  /** `getline` leaves the newline on the line; `main` drops it. */
  function Chomp(raw: string): (r: string)
    ensures r == raw || r + "\n" == raw
    ensures |r| > 0 ==> r[|r| - 1] != '\n' || |raw| > |r|
  {
    if |raw| > 0 && raw[|raw| - 1] == '\n' then raw[..|raw| - 1] else raw
  }

  /** The globals `history_head`/`history_count`, `history_capacity` and `shellVars`. */
  class Shell {
    var history: seq<string>
    var capacity: nat
    var shellVars: seq<Var>

    ghost predicate Valid()
      reads this
    {
      |history| <= capacity && UniqueNames(shellVars)
    }

    constructor ()
      ensures Valid() && history == [] && capacity == DefaultCapacity && shellVars == []
    {
      history, capacity, shellVars := [], DefaultCapacity, [];
    }

    /** The tail-finding walk and unlink that both history operations use. */
    method DropOldest()
      requires |history| > 0
      modifies this`history
      ensures history == old(history)[..|old(history)| - 1]
    {
      var last := 0;
      while last + 1 < |history|
        invariant last + 1 <= |history|  // `last` names a node of the list
        decreases |history| - last
      {
        last := last + 1;
      }
      history := history[..last];
    }

    /** `add_history` */
    method AddHistory(command: string)
      requires Valid()
      modifies this`history
      ensures Valid() && history == Recorded(old(history), capacity, command)
    {
      if capacity != 0 && !(|history| > 0 && history[0] == command) {
        history := [command] + history;
        if |history| > capacity {
          DropOldest();
        }
      }
    }

    /** `adjust_history_capacity`: entries are dropped from the tail until the history fits. */
    method AdjustHistoryCapacity(n: int)
      requires Valid() && n >= 0
      modifies this`history, this`capacity
      ensures Valid() && capacity == n && history == Newest(old(history), n)
    {
      capacity := n;
      while |history| > capacity
        invariant capacity == n
        invariant history == old(history)[..|history|]
        invariant |history| >= (if |old(history)| <= n then |old(history)| else n)
        decreases |history|
      {
        DropOldest();
      }
    }

    /** The lookup half of `execute_history_command`: `index` counts from the newest entry, 1 first. */
    method HistoryEntry(index: int) returns (r: Option<string>)
      ensures r.None? <==> index < 1 || index > |history|
      ensures r.Some? ==> r.value == history[index - 1]
    {
      if index < 1 || index > |history| {
        r := None;
      } else {
        var current := history[0];
        var i := 1;
        while i < index
          invariant 1 <= i <= index && current == history[i - 1]
        {
          current := history[i];
          i := i + 1;
        }
        r := Some(current);
      }
    }

    /** The walk shared by `find_variable`, `unset_variable` and `set_local_variable`. */
    method Seek(name: string) returns (i: nat)
      ensures i == Position(shellVars, name)
    {
      i := 0;
      while i < |shellVars| && shellVars[i].name != name
        invariant i <= |shellVars|
        invariant forall j :: 0 <= j < i ==> shellVars[j].name != name
        decreases |shellVars| - i
      {
        i := i + 1;
      }
      PositionIsFirst(shellVars, name, i);
    }

    /** `find_variable(shellVars, name)` */
    method FindVariable(name: string) returns (r: Option<Var>)
      ensures r == Find(shellVars, name)
    {
      var i := Seek(name);
      r := if i < |shellVars| then Some(shellVars[i]) else None;
    }

    /** `unset_variable(&shellVars, name)` */
    method UnsetVariable(name: string)
      requires Valid()
      modifies this`shellVars
      ensures Valid() && shellVars == Unset(old(shellVars), name)
    {
      var i := Seek(name);
      if i < |shellVars| {
        shellVars := shellVars[..i] + shellVars[i + 1..];
      }
      UnsetOutcome(old(shellVars), name);
    }

    /** `set_local_variable(&shellVars, name, value)` */
    method SetLocalVariable(name: string, value: Option<string>)
      requires Valid()
      modifies this`shellVars
      ensures Valid() && shellVars == SetLocal(old(shellVars), name, value)
    {
      var i := Seek(name);
      var empty := value.None? || value.value == "";
      if i < |shellVars| {
        if empty {
          shellVars := shellVars[..i] + shellVars[i + 1..];
        } else {
          shellVars := shellVars[i := Var(name, value.value)];
        }
      } else if !empty {
        shellVars := shellVars + [Var(name, value.value)];
      }
      SetLocalOutcome(old(shellVars), name, value);
    }

    /** The `local` built-in of `execute_command`, given its argument. */
    method LocalCommand(arg: string)
      requires Valid()
      modifies this`shellVars
      ensures Valid()
      ensures var (name, value) := SplitAssignment(arg);
              shellVars == if name.Some? then SetLocal(old(shellVars), name.value, value) else old(shellVars)
    {
      var (name, value) := SplitAssignment(arg);
      if name.Some? {
        SetLocalVariable(name.value, value);
      }
    }

    /** `main`'s built-in test: a `strncmp` of each built-in's name against the line. */
    static method DetectBuiltIn(line: string) returns (b: bool)
      ensures b <==> IsBuiltIn(line)
    {
      b := false;
      var i := 0;
      while i < |BuiltIns| && !b
        invariant 0 <= i <= |BuiltIns|
        invariant b <==> exists j :: 0 <= j < i && BuiltIns[j] <= line
      {
        b := BuiltIns[i] <= line;
        i := i + 1;
      }
    }

    /** What one line read by `main` does to the history: empty lines and built-ins are not recorded. */
    method ReadLine(raw: string)
      requires Valid()
      modifies this`history
      ensures Valid()
      ensures var line := Chomp(raw);
              history == if line == "" || IsBuiltIn(line) then old(history) else Recorded(old(history), capacity, line)
    {
      var line := Chomp(raw);
      if line != "" {
        var builtIn := DetectBuiltIn(line);
        if !builtIn {
          AddHistory(line);
        }
      }
    }
  }

  lemma PositionIsFirst(vars: seq<Var>, name: string, i: nat)
    requires i <= |vars| && (i < |vars| ==> vars[i].name == name)
    requires forall j :: 0 <= j < i ==> vars[j].name != name
    ensures Position(vars, name) == i
  {
  }
}
