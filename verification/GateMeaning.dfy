/**
 What an empty audit says about every command of the tree, and so about every
 example the second traversal collects.
 */
module GateMeaning {
  import opened Prelude
  import opened Text
  import opened ExampleText
  import opened Grouping
  import opened HelpGate

  // ----- the surface, without a traversal -----

  /** A command below `cmd` is addressed by the indices of the children on the way; `help` hides what is under it. */
  predicate IsNode(cmd: Command, addr: seq<nat>)
    decreases |addr|
  {
    addr == []
    || (addr[0] < |cmd.subs| && cmd.subs[addr[0]].name != "help" && IsNode(cmd.subs[addr[0]], addr[1..]))
  }

  function NodeAt(cmd: Command, addr: seq<nat>): Command
    requires IsNode(cmd, addr)
    decreases |addr|
  {
    if addr == [] then cmd else NodeAt(cmd.subs[addr[0]], addr[1..])
  }

  function PathOf(cmd: Command, path: string, addr: seq<nat>): string
    requires IsNode(cmd, addr)
    decreases |addr|
  {
    if addr == [] then path else PathOf(cmd.subs[addr[0]], SubPath(path, cmd.subs[addr[0]].name), addr[1..])
  }

  // ----- the rules, as the policy words them -----

  predicate IsLeaf(cmd: Command) {
    forall i :: 0 <= i < |cmd.subs| ==> cmd.subs[i].name == "help"
  }

  predicate SummaryOk(cmd: Command) {
    cmd.about.Some? && |cmd.about.value| <= SUMMARY_LIMIT && !Contains(cmd.about.value, "[`")
  }

  predicate FlagsOk(args: seq<Arg>, atRoot: bool) {
    forall i :: 0 <= i < |args| && Reprinted(args[i], atRoot) && args[i].help.Some? ==>
      |args[i].help.value| <= SUMMARY_LIMIT
  }

  predicate TrailerOk(cmd: Command) {
    cmd.afterHelp.None? && (!IsLeaf(cmd) ==> cmd.afterLongHelp.None?)
  }

  /** The line fits, opens with the command's own path, and quotes only values of the table. */
  predicate LineOk(line: string, path: string)
    requires StartsWith(line, EXAMPLE_PREFIX)
  {
    && |line| <= SUMMARY_LIMIT
    && (Invocation(line) == path || StartsWith(Invocation(line), path + " "))
    && (forall v :: v in QuotedValues(Invocation(line)) ==> v in EXAMPLE_QUOTED_VALUES)
  }

  predicate LinesOk(lines: seq<string>, path: string)
    requires forall line :: line in lines ==> StartsWith(line, EXAMPLE_PREFIX)
  {
    forall line :: line in lines ==> LineOk(line, path)
  }

  predicate ExamplesOk(cmd: Command, path: string) {
    if OwesExamples(path) then ExamplesOf(cmd) == []
    else |ExamplesOf(cmd)| >= MIN_EXAMPLES && LinesOk(ExamplesOf(cmd), path)
  }

  predicate NodeOk(cmd: Command, path: string) {
    && SummaryOk(cmd) && FlagsOk(cmd.args, false) && TrailerOk(cmd)
    && (IsLeaf(cmd) ==> ExamplesOk(cmd, path))
  }

  predicate RootOk(root: Command) {
    root.about.Some? && root.afterHelp.Some? && root.afterLongHelp.None? && FlagsOk(root.args, true)
  }

  // ----- each audit reports nothing exactly when its rule holds -----

  lemma ChildrenOrLeaf(cmd: Command)
    ensures Children(cmd) == [] <==> IsLeaf(cmd)
  {
    if !IsLeaf(cmd) {
      var i :| 0 <= i < |cmd.subs| && cmd.subs[i].name != "help";
      assert cmd.subs[i] in Children(cmd);
    } else {
      NoMembers(Children(cmd));
    }
  }

  lemma {:induction false} FlagsAudited(args: seq<Arg>, path: string, atRoot: bool)
    ensures AuditFlags(args, path, atRoot) == [] <==> FlagsOk(args, atRoot)
    decreases |args|
  {
    if args != [] {
      FlagsAudited(args[..|args| - 1], path, atRoot);
      assert args == args[..|args| - 1] + [args[|args| - 1]];
    }
  }

  lemma {:induction false} ValuesAudited(values: seq<string>, path: string)
    ensures AuditValues(values, path) == [] <==> forall v :: v in values ==> v in EXAMPLE_QUOTED_VALUES
    decreases |values|
  {
    if values != [] {
      ValuesAudited(values[..|values| - 1], path);
      assert values == values[..|values| - 1] + [values[|values| - 1]];
    }
  }

  lemma LineAudited(line: string, path: string)
    requires StartsWith(line, EXAMPLE_PREFIX)
    ensures AuditLine(line, path) == [] <==> LineOk(line, path)
  {
    ValuesAudited(QuotedValues(Invocation(line)), path);
  }

  lemma {:induction false} LinesAudited(lines: seq<string>, path: string)
    requires forall line :: line in lines ==> StartsWith(line, EXAMPLE_PREFIX)
    ensures AuditLines(lines, path) == [] <==> LinesOk(lines, path)
    decreases |lines|
  {
    if lines != [] {
      var before, last := lines[..|lines| - 1], lines[|lines| - 1];
      LinesAudited(before, path);
      LineAudited(last, path);
      LinesSplit(lines, path);
    }
  }

  lemma LinesSplit(lines: seq<string>, path: string)
    requires lines != [] && forall line :: line in lines ==> StartsWith(line, EXAMPLE_PREFIX)
    ensures LinesOk(lines, path) <==> LinesOk(lines[..|lines| - 1], path) && LineOk(lines[|lines| - 1], path)
  {
    assert lines == lines[..|lines| - 1] + [lines[|lines| - 1]];
  }

  lemma ExamplesAudited(cmd: Command, path: string)
    ensures AuditExamples(cmd, path) == [] <==> ExamplesOk(cmd, path)
  {
    LinesAudited(ExamplesOf(cmd), path);
  }

  lemma NodeAudited(cmd: Command, path: string)
    ensures AuditNode(cmd, path) == [] <==> NodeOk(cmd, path)
  {
    ChildrenOrLeaf(cmd);
    FlagsAudited(cmd.args, path, false);
    ExamplesAudited(cmd, path);
    SummaryAudited(cmd, path);
    TrailerAudited(cmd, path);
  }

  lemma SummaryAudited(cmd: Command, path: string)
    ensures AuditSummary(cmd, path) == [] <==> SummaryOk(cmd)
  {
  }

  lemma TrailerAudited(cmd: Command, path: string)
    ensures AuditTrailer(cmd, path) == [] <==> TrailerOk(cmd)
  {
    ChildrenOrLeaf(cmd);
  }

  // ----- the walk -----

  /** A command that is in order wherever it is audited. */
  ghost predicate OkAt(cmd: Command, path: string, addr: seq<nat>)
    requires IsNode(cmd, addr)
  {
    NodeOk(NodeAt(cmd, addr), PathOf(cmd, path, addr))
  }

  /** The command at this address is in order, if it is at or below the `i`-th child and deep enough to be audited. */
  ghost predicate CleanAt(cmd: Command, i: nat, path: string, depth: nat, minDepth: nat, addr: seq<nat>) {
    IsNode(cmd, addr) && addr != [] && addr[0] >= i && depth + |addr| >= minDepth ==> OkAt(cmd, path, addr)
  }

  ghost predicate Clean(cmd: Command, i: nat, path: string, depth: nat, minDepth: nat) {
    forall addr {:trigger CleanAt(cmd, i, path, depth, minDepth, addr)} :: CleanAt(cmd, i, path, depth, minDepth, addr)
  }

  lemma {:induction false} WalkFindsEverything(cmd: Command, i: nat, path: string, depth: nat, minDepth: nat)
    requires i <= |cmd.subs|
    ensures Walk(cmd, i, path, depth, minDepth) == [] <==> Clean(cmd, i, path, depth, minDepth)
    decreases cmd, |cmd.subs| - i
  {
    if i == |cmd.subs| {
      NothingBelow(cmd, path, depth, minDepth);
    } else {
      var sub := cmd.subs[i];
      WalkFindsEverything(cmd, i + 1, path, depth, minDepth);
      if sub.name == "help" {
        HelpIsSkipped(cmd, i, path, depth, minDepth);
      } else {
        WalkFindsEverything(sub, 0, SubPath(path, sub.name), depth + 1, minDepth);
        CleanSplits(cmd, i, path, depth, minDepth);
        WalkSplits(cmd, i, path, depth, minDepth);
      }
    }
  }

  lemma NothingBelow(cmd: Command, path: string, depth: nat, minDepth: nat)
    ensures Clean(cmd, |cmd.subs|, path, depth, minDepth)
  {
    forall addr ensures CleanAt(cmd, |cmd.subs|, path, depth, minDepth, addr) {
    }
  }

  lemma HelpIsSkipped(cmd: Command, i: nat, path: string, depth: nat, minDepth: nat)
    requires i < |cmd.subs| && cmd.subs[i].name == "help"
    ensures Walk(cmd, i, path, depth, minDepth) == Walk(cmd, i + 1, path, depth, minDepth)
    ensures Clean(cmd, i, path, depth, minDepth) <==> Clean(cmd, i + 1, path, depth, minDepth)
  {
    var next := i + 1;
    WalkStep(cmd, i, path, depth, minDepth);
    if Clean(cmd, next, path, depth, minDepth) {
      forall addr ensures CleanAt(cmd, i, path, depth, minDepth, addr) {
        assert CleanAt(cmd, next, path, depth, minDepth, addr);
      }
    }
    if Clean(cmd, i, path, depth, minDepth) {
      forall addr ensures CleanAt(cmd, next, path, depth, minDepth, addr) {
        assert CleanAt(cmd, i, path, depth, minDepth, addr);
      }
    }
  }

  lemma WalkSplits(cmd: Command, i: nat, path: string, depth: nat, minDepth: nat)
    requires i < |cmd.subs| && cmd.subs[i].name != "help"
    ensures var sub := cmd.subs[i]; var subPath := SubPath(path, sub.name);
      Walk(cmd, i, path, depth, minDepth) == [] <==>
      && (depth + 1 >= minDepth ==> OkAt(sub, subPath, []))
      && Walk(sub, 0, subPath, depth + 1, minDepth) == []
      && Walk(cmd, i + 1, path, depth, minDepth) == []
  {
    WalkStep(cmd, i, path, depth, minDepth);
    NodeAudited(cmd.subs[i], SubPath(path, cmd.subs[i].name));
  }

  /** A command below a child is a command below its parent, by one more index. */
  lemma OneDeeper(cmd: Command, i: nat, path: string, addr: seq<nat>)
    requires i < |cmd.subs| && cmd.subs[i].name != "help"
    ensures IsNode(cmd, [i] + addr) <==> IsNode(cmd.subs[i], addr)
    ensures IsNode(cmd.subs[i], addr) ==> NodeAt(cmd, [i] + addr) == NodeAt(cmd.subs[i], addr)
    ensures IsNode(cmd.subs[i], addr) ==>
      PathOf(cmd, path, [i] + addr) == PathOf(cmd.subs[i], SubPath(path, cmd.subs[i].name), addr)
  {
    assert ([i] + addr)[1..] == addr;
  }

  lemma OkOneDeeper(cmd: Command, i: nat, path: string, addr: seq<nat>)
    requires i < |cmd.subs| && cmd.subs[i].name != "help" && IsNode(cmd.subs[i], addr)
    ensures IsNode(cmd, [i] + addr)
    ensures OkAt(cmd, path, [i] + addr) <==> OkAt(cmd.subs[i], SubPath(path, cmd.subs[i].name), addr)
  {
    OneDeeper(cmd, i, path, addr);
  }

  /** An address below the `i`-th child, seen from the parent and from the child. */
  lemma CleanOneDeeper(cmd: Command, i: nat, path: string, depth: nat, minDepth: nat, addr: seq<nat>)
    requires i < |cmd.subs| && cmd.subs[i].name != "help" && addr != []
    ensures CleanAt(cmd, i, path, depth, minDepth, [i] + addr)
       <==> CleanAt(cmd.subs[i], 0, SubPath(path, cmd.subs[i].name), depth + 1, minDepth, addr)
  {
    OneDeeper(cmd, i, path, addr);
    if IsNode(cmd.subs[i], addr) {
      OkOneDeeper(cmd, i, path, addr);
    }
  }

  lemma CleanChild(cmd: Command, i: nat, path: string, depth: nat, minDepth: nat)
    requires i < |cmd.subs| && cmd.subs[i].name != "help"
    ensures CleanAt(cmd, i, path, depth, minDepth, [i])
       <==> (depth + 1 >= minDepth ==> OkAt(cmd.subs[i], SubPath(path, cmd.subs[i].name), []))
  {
    assert [i] + [] == [i];
    OkOneDeeper(cmd, i, path, []);
  }

  /** The commands from the `i`-th child on are that child, those below it, and those from the next child on. */
  lemma CleanSplits(cmd: Command, i: nat, path: string, depth: nat, minDepth: nat)
    requires i < |cmd.subs| && cmd.subs[i].name != "help"
    ensures var sub := cmd.subs[i]; var subPath := SubPath(path, sub.name);
      Clean(cmd, i, path, depth, minDepth) <==>
      && (depth + 1 >= minDepth ==> OkAt(sub, subPath, []))
      && Clean(sub, 0, subPath, depth + 1, minDepth)
      && Clean(cmd, i + 1, path, depth, minDepth)
  {
    var sub := cmd.subs[i];
    var subPath, next := SubPath(path, sub.name), i + 1;
    CleanChild(cmd, i, path, depth, minDepth);
    if Clean(cmd, i, path, depth, minDepth) {
      assert CleanAt(cmd, i, path, depth, minDepth, [i]);
      CleanBelow(cmd, i, path, depth, minDepth);
      forall addr ensures CleanAt(cmd, next, path, depth, minDepth, addr) {
        assert CleanAt(cmd, i, path, depth, minDepth, addr);
      }
    } else if Clean(sub, 0, subPath, depth + 1, minDepth) && Clean(cmd, i + 1, path, depth, minDepth) {
      var addr :| !CleanAt(cmd, i, path, depth, minDepth, addr);
      assert CleanAt(cmd, i + 1, path, depth, minDepth, addr);
      OnlyTheChild(cmd, i, path, depth, minDepth, addr);
    }
  }

  lemma CleanBelow(cmd: Command, i: nat, path: string, depth: nat, minDepth: nat)
    requires i < |cmd.subs| && cmd.subs[i].name != "help" && Clean(cmd, i, path, depth, minDepth)
    ensures Clean(cmd.subs[i], 0, SubPath(path, cmd.subs[i].name), depth + 1, minDepth)
  {
    var sub := cmd.subs[i];
    var subPath, deeper := SubPath(path, sub.name), depth + 1;
    forall addr ensures CleanAt(sub, 0, subPath, deeper, minDepth, addr) {
      if addr != [] {
        CleanOneDeeper(cmd, i, path, depth, minDepth, addr);
        assert CleanAt(cmd, i, path, depth, minDepth, [i] + addr);
      }
    }
  }

  /** If only the child itself is left to be at fault, it is. */
  lemma OnlyTheChild(cmd: Command, i: nat, path: string, depth: nat, minDepth: nat, addr: seq<nat>)
    requires i < |cmd.subs| && cmd.subs[i].name != "help"
    requires Clean(cmd.subs[i], 0, SubPath(path, cmd.subs[i].name), depth + 1, minDepth)
    requires !CleanAt(cmd, i, path, depth, minDepth, addr) && CleanAt(cmd, i + 1, path, depth, minDepth, addr)
    ensures addr == [i]
  {
    assert addr == [i] + addr[1..];
    if addr[1..] != [] {
      assert CleanAt(cmd.subs[i], 0, SubPath(path, cmd.subs[i].name), depth + 1, minDepth, addr[1..]);
      CleanOneDeeper(cmd, i, path, depth, minDepth, addr[1..]);
      assert false;
    }
  }

  /** The gate is silent exactly on the trees whose every command keeps every rule. */
  lemma SilentIffClean(root: Command, scope: Scope)
    ensures Audited(root, scope) == [] <==>
      (scope == WholeBinary ==> RootOk(root)) && Clean(root, 0, "", 0, if scope == WholeBinary then 1 else 2)
  {
    WalkFindsEverything(root, 0, "", 0, MinDepth(scope));
    FlagsAudited(root.args, "", true);
  }

  // ----- the other traversals -----

  /** An example belongs to the command at `addr`, as its line without the prefix. */
  ghost predicate ExampleAt(cmd: Command, path: string, addr: seq<nat>, example: (string, string)) {
    && IsNode(cmd, addr) && addr != []
    && example.0 == PathOf(cmd, path, addr)
    && HasLine(NodeAt(cmd, addr), example.1)
  }

  /** The command carries an example line with this invocation. */
  ghost predicate HasLine(cmd: Command, invocation: string) {
    exists line :: line in ExamplesOf(cmd) && invocation == Invocation(line)
  }

  lemma NoExamplesInNothing()
    ensures ExampleLines("") == []
  {
    assert Split("", '\n') == [""];
    assert Lines("") == [];
  }

  lemma OwnExamplesAre(cmd: Command, path: string, example: (string, string))
    ensures example in OwnExamples(cmd, path) <==>
      example.0 == path && HasLine(cmd, example.1)
  {
    NoExamplesInNothing();
    var lines := ExamplesOf(cmd);
    if example in OwnExamples(cmd, path) {
      var i :| 0 <= i < |lines| && OwnExamples(cmd, path)[i] == example;
      assert lines[i] in lines;
    }
    if line :| line in lines && example.1 == Invocation(line) {
      var i :| 0 <= i < |lines| && lines[i] == line;
      if example.0 == path {
        assert OwnExamples(cmd, path)[i] == example;
      }
    }
  }

  /** A command's own, at an address. */
  ghost predicate OwnAt<T>(own: (Command, string) -> seq<T>, cmd: Command, path: string, addr: seq<nat>, x: T) {
    IsNode(cmd, addr) && addr != [] && x in own(NodeAt(cmd, addr), PathOf(cmd, path, addr))
  }

  lemma OwnOneDeeper<T>(own: (Command, string) -> seq<T>, cmd: Command, i: nat, path: string, addr: seq<nat>, x: T)
    requires i < |cmd.subs| && cmd.subs[i].name != "help"
    ensures var sub := cmd.subs[i]; var subPath := SubPath(path, sub.name);
      OwnAt(own, cmd, path, [i] + addr, x) <==>
        if addr == [] then x in own(sub, subPath) else OwnAt(own, sub, subPath, addr, x)
  {
    OneDeeper(cmd, i, path, addr);
  }

  lemma GatherStep<T>(own: (Command, string) -> seq<T>, cmd: Command, i: nat, path: string, x: T)
    requires i < |cmd.subs|
    ensures var sub := cmd.subs[i]; var subPath := SubPath(path, sub.name);
      x in Gathered(own, cmd, i, path) <==>
        (sub.name != "help" && (x in own(sub, subPath) || x in Gathered(own, sub, 0, subPath)))
        || x in Gathered(own, cmd, i + 1, path)
  {
  }

  /** Everything gathered is some command's own. */
  lemma {:induction false} GatheredHasHome<T>(
    own: (Command, string) -> seq<T>, cmd: Command, i: nat, path: string, x: T) returns (addr: seq<nat>)
    requires i <= |cmd.subs| && x in Gathered(own, cmd, i, path)
    ensures OwnAt(own, cmd, path, addr, x)
    decreases cmd, |cmd.subs| - i
  {
    var sub := cmd.subs[i];
    var subPath := SubPath(path, sub.name);
    GatherStep(own, cmd, i, path, x);
    if x in Gathered(own, cmd, i + 1, path) {
      addr := GatheredHasHome(own, cmd, i + 1, path, x);
    } else {
      var rest := [];
      if x !in own(sub, subPath) {
        rest := GatheredHasHome(own, sub, 0, subPath, x);
      }
      OwnOneDeeper(own, cmd, i, path, rest, x);
      addr := [i] + rest;
    }
  }

  /** The traversal in parts, one child after another. */
  lemma GatherInParts<T>(own: (Command, string) -> seq<T>, cmd: Command, i: nat, path: string)
    requires i < |cmd.subs|
    ensures var sub := cmd.subs[i]; var subPath := SubPath(path, sub.name);
      Gathered(own, cmd, i, path) ==
        (if sub.name == "help" then [] else own(sub, subPath) + Gathered(own, sub, 0, subPath))
        + Gathered(own, cmd, i + 1, path)
  {
  }

  lemma {:induction false} GatheredFromEarlier<T>(
    own: (Command, string) -> seq<T>, cmd: Command, i: nat, k: nat, path: string) returns (before: seq<T>)
    requires i <= k <= |cmd.subs|
    ensures Gathered(own, cmd, i, path) == before + Gathered(own, cmd, k, path)
    decreases k - i
  {
    if i == k {
      before := [];
    } else {
      var rest := GatheredFromEarlier(own, cmd, i + 1, k, path);
      GatherInParts(own, cmd, i, path);
      var sub := cmd.subs[i];
      var subPath := SubPath(path, sub.name);
      var first := if sub.name == "help" then [] else own(sub, subPath) + Gathered(own, sub, 0, subPath);
      before := first + rest;
      Associate(first, rest, Gathered(own, cmd, k, path));
    }
  }

  /** And every command's own is gathered, whole and in its order. */
  lemma {:induction false} EveryOwnIsGathered<T>(
    own: (Command, string) -> seq<T>, cmd: Command, i: nat, path: string, addr: seq<nat>)
    returns (before: seq<T>, after: seq<T>)
    requires i <= |cmd.subs| && IsNode(cmd, addr) && addr != [] && addr[0] >= i
    ensures Gathered(own, cmd, i, path) == before + own(NodeAt(cmd, addr), PathOf(cmd, path, addr)) + after
    decreases |addr|
  {
    var k := addr[0];
    var sub := cmd.subs[k];
    var subPath := SubPath(path, sub.name);
    var earlier := GatheredFromEarlier(own, cmd, i, k, path);
    GatherInParts(own, cmd, k, path);
    var later := Gathered(own, cmd, k + 1, path);
    if |addr| == 1 {
      assert addr[1..] == [];
      before, after := earlier, Gathered(own, sub, 0, subPath) + later;
      Regroup(earlier, own(sub, subPath), Gathered(own, sub, 0, subPath), later);
      Associate(earlier + own(sub, subPath), Gathered(own, sub, 0, subPath), later);
    } else {
      var b, a := EveryOwnIsGathered(own, sub, 0, subPath, addr[1..]);
      before, after := earlier + own(sub, subPath) + b, a + later;
      InTheMiddle(earlier, own(sub, subPath), b, own(NodeAt(cmd, addr), PathOf(cmd, path, addr)), a, later);
    }
  }

  lemma InTheMiddle<T>(a: seq<T>, b: seq<T>, c: seq<T>, d: seq<T>, e: seq<T>, f: seq<T>)
    ensures a + (b + (c + d + e) + f) == (a + b + c) + d + (e + f)
  {
  }

  lemma CollectedHasHome(cmd: Command, i: nat, path: string, example: (string, string)) returns (addr: seq<nat>)
    requires i <= |cmd.subs| && example in Collected(cmd, i, path)
    ensures ExampleAt(cmd, path, addr, example)
  {
    addr := GatheredHasHome(OwnExamples, cmd, i, path, example);
    OwnExamplesAre(NodeAt(cmd, addr), PathOf(cmd, path, addr), example);
  }

  lemma EveryExampleIsCollected(cmd: Command, i: nat, path: string, addr: seq<nat>, example: (string, string))
    requires i <= |cmd.subs| && ExampleAt(cmd, path, addr, example) && addr[0] >= i
    ensures example in Collected(cmd, i, path)
  {
    OwnExamplesAre(NodeAt(cmd, addr), PathOf(cmd, path, addr), example);
    var before, after := EveryOwnIsGathered(OwnExamples, cmd, i, path, addr);
  }

  lemma {:induction false} LeavesHaveHomes(cmd: Command, i: nat, path: string, leaf: string)
    returns (addr: seq<nat>)
    requires i <= |cmd.subs| && leaf in Leaves(cmd, i, path)
    ensures IsNode(cmd, addr) && addr != [] && IsLeaf(NodeAt(cmd, addr)) && PathOf(cmd, path, addr) == leaf
    decreases cmd, |cmd.subs| - i
  {
    var sub := cmd.subs[i];
    var subPath := SubPath(path, sub.name);
    if sub.name == "help" || leaf in Leaves(cmd, i + 1, path) {
      addr := LeavesHaveHomes(cmd, i + 1, path, leaf);
    } else if leaf in Leaves(sub, 0, subPath) {
      var rest := LeavesHaveHomes(sub, 0, subPath, leaf);
      addr := [i] + rest;
      assert addr[1..] == rest;
    } else {
      ChildrenOrLeaf(sub);
      addr := [i];
      assert addr[1..] == [];
    }
  }

  // ----- what a silent gate promises -----

  /**
   If the whole-binary audit is silent, every example of the second traversal
   comes from a leaf that owes none, opens with that leaf's own path, fits on
   its line, and quotes only values of the table.
   */
  lemma SilentMeansCleanExamples(root: Command, example: (string, string))
    returns (addr: seq<nat>)
    requires Audited(root, WholeBinary) == [] && example in Collected(root, 0, "")
    ensures IsNode(root, addr) && IsLeaf(NodeAt(root, addr)) && PathOf(root, "", addr) == example.0
    ensures !OwesExamples(example.0)
    ensures example.1 == example.0 || StartsWith(example.1, example.0 + " ")
    ensures |EXAMPLE_PREFIX + example.1| <= SUMMARY_LIMIT
    ensures forall v :: v in QuotedValues(example.1) ==> v in EXAMPLE_QUOTED_VALUES
  {
    SilentIffClean(root, WholeBinary);
    addr := CollectedHasHome(root, 0, "", example);
    assert CleanAt(root, 0, "", 0, MinDepth(WholeBinary), addr);
    var line := LineOf(root, "", addr, example);
    LineOfCleanNode(NodeAt(root, addr), example.0, line);
  }

  lemma LineOf(cmd: Command, path: string, addr: seq<nat>, example: (string, string)) returns (line: string)
    requires ExampleAt(cmd, path, addr, example)
    ensures line in ExamplesOf(NodeAt(cmd, addr)) && example.1 == Invocation(line)
  {
    line :| line in ExamplesOf(NodeAt(cmd, addr)) && example.1 == Invocation(line);
  }

  /** Where a command is in order, an example line makes it a leaf that owes none, and the line keeps the rules. */
  lemma LineOfCleanNode(cmd: Command, path: string, line: string)
    requires NodeOk(cmd, path) && line in ExamplesOf(cmd)
    ensures IsLeaf(cmd) && !OwesExamples(path) && LineOk(line, path) && line == EXAMPLE_PREFIX + Invocation(line)
  {
    NoExamplesInNothing();
  }

  /** And every leaf carries its examples, or is on the debt list and carries none. */
  lemma SilentMeansEnoughExamples(root: Command, addr: seq<nat>)
    requires Audited(root, WholeBinary) == []
    requires IsNode(root, addr) && addr != [] && IsLeaf(NodeAt(root, addr))
    ensures OwesExamples(PathOf(root, "", addr)) ==> ExamplesOf(NodeAt(root, addr)) == []
    ensures !OwesExamples(PathOf(root, "", addr)) ==> |ExamplesOf(NodeAt(root, addr))| >= MIN_EXAMPLES
  {
    SilentIffClean(root, WholeBinary);
    assert CleanAt(root, 0, "", 0, MinDepth(WholeBinary), addr);
  }

  /** A debt list with nothing unclaimed names leaves of the tree and nothing else, each without examples. */
  lemma ClaimedDebtIsReal(root: Command, path: string)
    returns (addr: seq<nat>)
    requires Audited(root, WholeBinary) == [] && OwesExamples(path) && path in Leaves(root, 0, "")
    ensures IsNode(root, addr) && PathOf(root, "", addr) == path
    ensures IsLeaf(NodeAt(root, addr)) && ExamplesOf(NodeAt(root, addr)) == []
  {
    addr := LeavesHaveHomes(root, 0, "", path);
    SilentMeansEnoughExamples(root, addr);
  }
}
