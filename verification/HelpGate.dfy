/**
 The gate over the command surface: a recursive audit of the command tree,
 and the second traversal that collects its examples.
 */
module HelpGate {
  import opened Prelude
  import opened Text
  import opened Sorting
  import opened ExampleText

  const SUMMARY_LIMIT := 100
  const MIN_EXAMPLES := 2
  const EXAMPLE_PREFIX := "  $ bookrack "

  const GLOBAL_ARG_IDS := ["audit_profile", "data_dir", "json", "library", "no_color", "quiet"]

  const EXAMPLES_OWED := [
    "corpus rebuild", "metadata ack", "metadata advance", "metadata approve", "metadata reaudit",
    "metadata reject", "stamps reconcile", "vectors drop", "vectors rebuild", "vectors reembed", "vectors reset"]

  const EXAMPLE_QUOTED_VALUES := [
    "Doe, Jane", "Sample Title", "a sample phrase", "venue lists no DOI", "wrong source file"]

  datatype Arg = Arg(id: string, isGlobal: bool, help: Option<string>, long: Option<string>)

  datatype Command = Command(
    name: string, about: Option<string>, afterHelp: Option<string>, afterLongHelp: Option<string>,
    args: seq<Arg>, subs: seq<Command>)

  datatype Scope = WholeBinary | MirroredEnums

  function MinDepth(scope: Scope): nat { if scope == WholeBinary then 1 else 2 }

  datatype ViolationKind =
    | SummaryMissing | SummaryTooLong(len: nat) | SummaryHasRustdocLink
    | FlagSummaryTooLong(flag: string, len: nat)
    | ExamplesMissing | ExamplesTooFew(count: nat) | ExamplesAlreadyWritten
    | ExampleLineTooLong(line: string, len: nat) | ExampleOffPath(line: string) | ExampleValueOffTable(value: string)
    | AfterHelpBelowRoot | ExamplesOnNode | RootTrailerMisplaced

  datatype Violation = Violation(path: string, kind: ViolationKind)

  // ----- text -----

  predicate Contains(s: string, part: string) {
    StartsWith(s, part) || (s != [] && Contains(s[1..], part))
  }

  /** `str::lines`: a final empty line is none, and only a line that ended in `\n` loses a `\r`. */
  function Lines(block: string): seq<string> {
    var pieces := Split(block, '\n');
    var last := pieces[|pieces| - 1];
    seq(|pieces| - 1, i requires 0 <= i < |pieces| - 1 => WithoutCr(pieces[i])) + if last == [] then [] else [last]
  }

  function WithoutCr(line: string): string {
    if line != [] && line[|line| - 1] == '\r' then line[..|line| - 1] else line
  }

  function Prefixed(lines: seq<string>): (r: seq<string>)
    ensures forall line :: line in r <==> line in lines && StartsWith(line, EXAMPLE_PREFIX)
  {
    if lines == [] then []
    else
      assert lines == [lines[0]] + lines[1..];
      (if StartsWith(lines[0], EXAMPLE_PREFIX) then [lines[0]] else []) + Prefixed(lines[1..])
  }

  function ExampleLines(block: string): (r: seq<string>)
    ensures forall line :: line in r ==> StartsWith(line, EXAMPLE_PREFIX)
  {
    Prefixed(Lines(block))
  }

  function Invocation(line: string): string
    requires StartsWith(line, EXAMPLE_PREFIX)
  {
    line[|EXAMPLE_PREFIX|..]
  }

  // ----- the rules at one command -----

  function Children(cmd: Command): (r: seq<Command>)
    ensures forall sub :: sub in r ==> sub in cmd.subs
  {
    Unhelped(cmd.subs)
  }

  /** clap's generated `help` is not part of the surface. */
  function Unhelped(subs: seq<Command>): (r: seq<Command>)
    ensures forall sub :: sub in r <==> sub in subs && sub.name != "help"
  {
    if subs == [] then []
    else
      assert subs == [subs[0]] + subs[1..];
      (if subs[0].name == "help" then [] else [subs[0]]) + Unhelped(subs[1..])
  }

  function SubPath(path: string, name: string): string {
    if path == [] then name else path + " " + name
  }

  function AuditSummary(cmd: Command, path: string): seq<Violation> {
    match cmd.about
    case None => [Violation(path, SummaryMissing)]
    case Some(about) =>
      (if |about| > SUMMARY_LIMIT then [Violation(path, SummaryTooLong(|about|))] else [])
      + if Contains(about, "[`") then [Violation(path, SummaryHasRustdocLink)] else []
  }

  predicate Reprinted(arg: Arg, atRoot: bool) {
    if atRoot then arg.isGlobal else arg.id in GLOBAL_ARG_IDS && !arg.isGlobal
  }

  function AuditFlag(arg: Arg, path: string, atRoot: bool): seq<Violation> {
    if Reprinted(arg, atRoot) && arg.help.Some? && |arg.help.value| > SUMMARY_LIMIT
    then
      var flag := "--" + (if arg.long.Some? then arg.long.value else arg.id);
      [Violation(path, FlagSummaryTooLong(flag, |arg.help.value|))]
    else []
  }

  function AuditFlags(args: seq<Arg>, path: string, atRoot: bool): seq<Violation> {
    if args == [] then []
    else AuditFlags(args[..|args| - 1], path, atRoot) + AuditFlag(args[|args| - 1], path, atRoot)
  }

  function AuditTrailer(cmd: Command, path: string): seq<Violation> {
    (if cmd.afterHelp.Some? then [Violation(path, AfterHelpBelowRoot)] else [])
    + if Children(cmd) != [] && cmd.afterLongHelp.Some? then [Violation(path, ExamplesOnNode)] else []
  }

  function AuditValues(values: seq<string>, path: string): seq<Violation> {
    if values == [] then []
    else
      var v := values[|values| - 1];
      AuditValues(values[..|values| - 1], path)
      + if v in EXAMPLE_QUOTED_VALUES then [] else [Violation(path, ExampleValueOffTable(v))]
  }

  function AuditLine(line: string, path: string): seq<Violation>
    requires StartsWith(line, EXAMPLE_PREFIX)
  {
    (if |line| > SUMMARY_LIMIT then [Violation(path, ExampleLineTooLong(line, |line|))] else [])
    + (if Invocation(line) != path && !StartsWith(Invocation(line), path + " ")
       then [Violation(path, ExampleOffPath(line))] else [])
    + AuditValues(QuotedValues(Invocation(line)), path)
  }

  function AuditLines(lines: seq<string>, path: string): seq<Violation>
    requires forall line :: line in lines ==> StartsWith(line, EXAMPLE_PREFIX)
  {
    if lines == [] then []
    else AuditLines(lines[..|lines| - 1], path) + AuditLine(lines[|lines| - 1], path)
  }

  function ExamplesOf(cmd: Command): (r: seq<string>)
    ensures forall line :: line in r ==> StartsWith(line, EXAMPLE_PREFIX)
  {
    ExampleLines(if cmd.afterLongHelp.Some? then cmd.afterLongHelp.value else "")
  }

  predicate OwesExamples(path: string) { path in EXAMPLES_OWED }

  function AuditExamples(cmd: Command, path: string): seq<Violation> {
    var lines := ExamplesOf(cmd);
    if lines == [] then
      if OwesExamples(path) then [] else [Violation(path, ExamplesMissing)]
    else
      (if OwesExamples(path) then [Violation(path, ExamplesAlreadyWritten)] else [])
      + (if |lines| < MIN_EXAMPLES then [Violation(path, ExamplesTooFew(|lines|))] else [])
      + AuditLines(lines, path)
  }

  function AuditNode(cmd: Command, path: string): seq<Violation> {
    AuditSummary(cmd, path) + AuditFlags(cmd.args, path, false) + AuditTrailer(cmd, path) + AuditLeaf(cmd, path)
  }

  function AuditLeaf(cmd: Command, path: string): seq<Violation> {
    if Children(cmd) == [] then AuditExamples(cmd, path) else []
  }

  // ----- the traversals -----

  function NodeAtDepth(sub: Command, subPath: string, depth: nat, minDepth: nat): seq<Violation> {
    if depth + 1 >= minDepth then AuditNode(sub, subPath) else []
  }

  /** The children of `cmd` from the `i`-th on, each with everything below it. */
  function Walk(cmd: Command, i: nat, path: string, depth: nat, minDepth: nat): seq<Violation>
    requires i <= |cmd.subs|
    decreases cmd, |cmd.subs| - i
  {
    if i == |cmd.subs| then []
    else
      var sub := cmd.subs[i];
      (if sub.name == "help" then []
       else
         var subPath := SubPath(path, sub.name);
         NodeAtDepth(sub, subPath, depth, minDepth)
         + Walk(sub, 0, subPath, depth + 1, minDepth))
      + Walk(cmd, i + 1, path, depth, minDepth)
  }

  function AuditRoot(root: Command): seq<Violation> {
    (if root.about.None? then [Violation("", SummaryMissing)] else [])
    + (if root.afterHelp.None? || root.afterLongHelp.Some? then [Violation("", RootTrailerMisplaced)] else [])
    + AuditFlags(root.args, "", true)
  }

  function Audited(root: Command, scope: Scope): seq<Violation> {
    (if scope == WholeBinary then AuditRoot(root) else []) + Walk(root, 0, "", 0, MinDepth(scope))
  }

  function PathInvocations(path: string, lines: seq<string>): (r: seq<(string, string)>)
    requires forall line :: line in lines ==> StartsWith(line, EXAMPLE_PREFIX)
    ensures |r| == |lines| && forall i :: 0 <= i < |lines| ==> r[i] == (path, Invocation(lines[i]))
  {
    seq(|lines|, i requires 0 <= i < |lines| => assert lines[i] in lines; (path, Invocation(lines[i])))
  }

  function OwnExamples(cmd: Command, path: string): seq<(string, string)> {
    if cmd.afterLongHelp.Some? then PathInvocations(path, ExampleLines(cmd.afterLongHelp.value)) else []
  }

  /**
   What the traversal gathers from the `i`-th child on: each command's own, then
   what is below it; `help` is skipped.
   */
  function Gathered<T>(own: (Command, string) -> seq<T>, cmd: Command, i: nat, path: string): seq<T>
    requires i <= |cmd.subs|
    decreases cmd, |cmd.subs| - i
  {
    if i == |cmd.subs| then []
    else
      var sub := cmd.subs[i];
      (if sub.name == "help" then []
       else
         var subPath := SubPath(path, sub.name);
         own(sub, subPath) + Gathered(own, sub, 0, subPath))
      + Gathered(own, cmd, i + 1, path)
  }

  function Collected(cmd: Command, i: nat, path: string): seq<(string, string)>
    requires i <= |cmd.subs|
  {
    Gathered(OwnExamples, cmd, i, path)
  }

  function Leaves(cmd: Command, i: nat, path: string): set<string>
    requires i <= |cmd.subs|
    decreases cmd, |cmd.subs| - i
  {
    if i == |cmd.subs| then {}
    else
      var sub := cmd.subs[i];
      (if sub.name == "help" then {}
       else
         var subPath := SubPath(path, sub.name);
         (if Children(sub) == [] then {subPath} else {}) + Leaves(sub, 0, subPath))
      + Leaves(cmd, i + 1, path)
  }

  // ----- the same, pushing into a growing vector -----

  lemma Regroup<T>(a: seq<T>, b: seq<T>, c: seq<T>, d: seq<T>)
    ensures a + b + c + d == a + ((b + c) + d)
  {
  }

  lemma WalkStep(cmd: Command, i: nat, path: string, depth: nat, minDepth: nat)
    requires i < |cmd.subs|
    ensures var sub := cmd.subs[i]; var subPath := SubPath(path, sub.name);
      && (sub.name == "help" ==> Walk(cmd, i, path, depth, minDepth) == Walk(cmd, i + 1, path, depth, minDepth))
      && (sub.name != "help" ==>
          Walk(cmd, i, path, depth, minDepth)
          == NodeAtDepth(sub, subPath, depth, minDepth) + Walk(sub, 0, subPath, depth + 1, minDepth)
             + Walk(cmd, i + 1, path, depth, minDepth))
  {
    assert [] + Walk(cmd, i + 1, path, depth, minDepth) == Walk(cmd, i + 1, path, depth, minDepth);
  }

  lemma CollectStep(cmd: Command, i: nat, path: string)
    requires i < |cmd.subs|
    ensures var sub := cmd.subs[i]; var subPath := SubPath(path, sub.name);
      && (sub.name == "help" ==> Collected(cmd, i, path) == Collected(cmd, i + 1, path))
      && (sub.name != "help" ==>
          Collected(cmd, i, path)
          == OwnExamples(sub, subPath) + Collected(sub, 0, subPath) + Collected(cmd, i + 1, path))
  {
    assert [] + Collected(cmd, i + 1, path) == Collected(cmd, i + 1, path);
  }

  method PushFlags(cmd: Command, path: string, atRoot: bool, before: seq<Violation>) returns (out: seq<Violation>)
    ensures out == before + AuditFlags(cmd.args, path, atRoot)
  {
    out := before;
    for i := 0 to |cmd.args|
      invariant out == before + AuditFlags(cmd.args[..i], path, atRoot)
    {
      var arg := cmd.args[i];
      assert cmd.args[..i + 1][..i] == cmd.args[..i];
      var reprinted := if atRoot then arg.isGlobal else arg.id in GLOBAL_ARG_IDS && !arg.isGlobal;
      if !reprinted || arg.help.None? {
        continue;
      }
      var len := |arg.help.value|;
      if len > SUMMARY_LIMIT {
        var flag := "--" + if arg.long.Some? then arg.long.value else arg.id;
        out := out + [Violation(path, FlagSummaryTooLong(flag, len))];
      }
    }
    assert cmd.args[..|cmd.args|] == cmd.args;
  }

  method PushLine(line: string, path: string, before: seq<Violation>) returns (out: seq<Violation>)
    requires StartsWith(line, EXAMPLE_PREFIX)
    ensures out == before + AuditLine(line, path)
  {
    out := before;
    var len := |line|;
    if len > SUMMARY_LIMIT {
      out := out + [Violation(path, ExampleLineTooLong(line, len))];
    }
    ghost var long := if len > SUMMARY_LIMIT then [Violation(path, ExampleLineTooLong(line, len))] else [];
    assert out == before + long;
    var invocation := Invocation(line);
    var offPath := invocation != path && !StartsWith(invocation, path + " ");
    ghost var off := if offPath then [Violation(path, ExampleOffPath(line))] else [];
    if offPath {
      out := out + [Violation(path, ExampleOffPath(line))];
    }
    assert out == before + long + off;
    var values := FindQuotedValues(invocation);
    out := PushValues(values, path, out);
    Regroup(before, long, off, AuditValues(values, path));
  }

  method PushValues(values: seq<string>, path: string, before: seq<Violation>) returns (out: seq<Violation>)
    ensures out == before + AuditValues(values, path)
  {
    out := before;
    for i := 0 to |values|
      invariant out == before + AuditValues(values[..i], path)
    {
      assert values[..i + 1][..i] == values[..i];
      if values[i] !in EXAMPLE_QUOTED_VALUES {
        out := out + [Violation(path, ExampleValueOffTable(values[i]))];
      }
    }
    assert values[..|values|] == values;
  }

  method PushExamples(cmd: Command, path: string, before: seq<Violation>) returns (out: seq<Violation>)
    ensures out == before + AuditExamples(cmd, path)
  {
    out := before;
    var lines := ExamplesOf(cmd);
    var owed := OwesExamples(path);
    if lines == [] {
      if !owed {
        out := out + [Violation(path, ExamplesMissing)];
      }
      return;
    }
    ghost var written := if owed then [Violation(path, ExamplesAlreadyWritten)] else [];
    if owed {
      out := out + [Violation(path, ExamplesAlreadyWritten)];
    }
    assert out == before + written;
    ghost var few := if |lines| < MIN_EXAMPLES then [Violation(path, ExamplesTooFew(|lines|))] else [];
    if |lines| < MIN_EXAMPLES {
      out := out + [Violation(path, ExamplesTooFew(|lines|))];
    }
    assert out == before + written + few;
    out := PushLines(lines, path, out);
    Regroup(before, written, few, AuditLines(lines, path));
  }

  method PushLines(lines: seq<string>, path: string, before: seq<Violation>) returns (out: seq<Violation>)
    requires forall line :: line in lines ==> StartsWith(line, EXAMPLE_PREFIX)
    ensures out == before + AuditLines(lines, path)
  {
    out := before;
    for i := 0 to |lines|
      invariant forall line :: line in lines[..i] ==> StartsWith(line, EXAMPLE_PREFIX)
      invariant out == before + AuditLines(lines[..i], path)
    {
      OneMoreLine(lines, path, i);
      out := PushLine(lines[i], path, out);
      Associate(before, AuditLines(lines[..i], path), AuditLine(lines[i], path));
    }
    assert lines[..|lines|] == lines;
  }

  lemma OneMoreLine(lines: seq<string>, path: string, i: nat)
    requires i < |lines| && forall line :: line in lines ==> StartsWith(line, EXAMPLE_PREFIX)
    ensures StartsWith(lines[i], EXAMPLE_PREFIX)
    ensures forall line :: line in lines[..i] ==> StartsWith(line, EXAMPLE_PREFIX)
    ensures forall line :: line in lines[..i + 1] ==> StartsWith(line, EXAMPLE_PREFIX)
    ensures AuditLines(lines[..i + 1], path) == AuditLines(lines[..i], path) + AuditLine(lines[i], path)
  {
    assert lines[..i + 1][..i] == lines[..i] && lines[i] in lines;
  }

  lemma PushedFour<T>(before: seq<T>, a: seq<T>, b: seq<T>, c: seq<T>, d: seq<T>)
    ensures before + a + b + c + d == before + (a + b + c + d)
  {
  }

  method PushSummary(cmd: Command, path: string, before: seq<Violation>) returns (out: seq<Violation>)
    ensures out == before + AuditSummary(cmd, path)
  {
    out := before;
    if cmd.about.None? {
      return out + [Violation(path, SummaryMissing)];
    }
    var len := |cmd.about.value|;
    if len > SUMMARY_LIMIT {
      out := out + [Violation(path, SummaryTooLong(len))];
    }
    if Contains(cmd.about.value, "[`") {
      out := out + [Violation(path, SummaryHasRustdocLink)];
    }
  }

  method PushTrailer(cmd: Command, path: string, before: seq<Violation>) returns (out: seq<Violation>)
    ensures out == before + AuditTrailer(cmd, path)
  {
    out := before;
    if cmd.afterHelp.Some? {
      out := out + [Violation(path, AfterHelpBelowRoot)];
    }
    if Children(cmd) != [] && cmd.afterLongHelp.Some? {
      out := out + [Violation(path, ExamplesOnNode)];
    }
  }

  method PushLeaf(cmd: Command, path: string, before: seq<Violation>) returns (out: seq<Violation>)
    ensures out == before + AuditLeaf(cmd, path)
  {
    out := before;
    if Children(cmd) == [] {
      out := PushExamples(cmd, path, out);
    }
  }

  method PushNode(cmd: Command, path: string, before: seq<Violation>) returns (out: seq<Violation>)
    ensures out == before + AuditNode(cmd, path)
  {
    out := PushSummary(cmd, path, before);
    out := PushFlags(cmd, path, false, out);
    out := PushTrailer(cmd, path, out);
    out := PushLeaf(cmd, path, out);
    PushedFour(before, AuditSummary(cmd, path), AuditFlags(cmd.args, path, false), AuditTrailer(cmd, path),
      AuditLeaf(cmd, path));
  }

  /** What is left to report before a child is what it adds and what is left after it. */
  lemma WalkOn(cmd: Command, i: nat, path: string, depth: nat, minDepth: nat, out: seq<Violation>)
    requires i < |cmd.subs|
    ensures var sub := cmd.subs[i]; var subPath := SubPath(path, sub.name);
      out + Walk(cmd, i, path, depth, minDepth)
      == (if sub.name == "help" then out
          else out + NodeAtDepth(sub, subPath, depth, minDepth) + Walk(sub, 0, subPath, depth + 1, minDepth))
         + Walk(cmd, i + 1, path, depth, minDepth)
  {
    var sub := cmd.subs[i];
    WalkStep(cmd, i, path, depth, minDepth);
    if sub.name != "help" {
      Regroup(out, NodeAtDepth(sub, SubPath(path, sub.name), depth, minDepth),
        Walk(sub, 0, SubPath(path, sub.name), depth + 1, minDepth), Walk(cmd, i + 1, path, depth, minDepth));
    }
  }

  method WalkTree(cmd: Command, path: string, depth: nat, scope: Scope, before: seq<Violation>)
    returns (out: seq<Violation>)
    ensures out == before + Walk(cmd, 0, path, depth, MinDepth(scope))
    decreases cmd, 0
  {
    out := before;
    for i := 0 to |cmd.subs|
      invariant out + Walk(cmd, i, path, depth, MinDepth(scope)) == before + Walk(cmd, 0, path, depth, MinDepth(scope))
    {
      var sub := cmd.subs[i];
      WalkOn(cmd, i, path, depth, MinDepth(scope), out);
      if sub.name == "help" {
        continue;
      }
      out := WalkOne(sub, SubPath(path, sub.name), depth, scope, out);
    }
  }

  /** One turn of the loop: the child itself, if deep enough, and everything below it. */
  method WalkOne(sub: Command, subPath: string, depth: nat, scope: Scope, before: seq<Violation>)
    returns (out: seq<Violation>)
    ensures out
      == before + NodeAtDepth(sub, subPath, depth, MinDepth(scope)) + Walk(sub, 0, subPath, depth + 1, MinDepth(scope))
    decreases sub, 1
  {
    out := before;
    if depth + 1 >= MinDepth(scope) {
      out := PushNode(sub, subPath, out);
    } else {
      assert before + [] == before;
    }
    out := WalkTree(sub, subPath, depth + 1, scope, out);
  }

  method PushRoot(root: Command) returns (out: seq<Violation>)
    ensures out == AuditRoot(root)
  {
    out := [];
    if root.about.None? {
      out := out + [Violation("", SummaryMissing)];
    }
    if root.afterHelp.None? || root.afterLongHelp.Some? {
      out := out + [Violation("", RootTrailerMisplaced)];
    }
    out := PushFlags(root, "", true, out);
  }

  method AuditTree(root: Command, scope: Scope) returns (out: seq<Violation>)
    ensures out == Audited(root, scope)
  {
    out := [];
    if scope == WholeBinary {
      out := PushRoot(root);
    }
    out := WalkTree(root, "", 0, scope, out);
  }

  method CollectExamples(cmd: Command, path: string, before: seq<(string, string)>) returns (out: seq<(string, string)>)
    ensures out == before + Collected(cmd, 0, path)
    decreases cmd
  {
    out := before;
    for i := 0 to |cmd.subs|
      invariant out + Collected(cmd, i, path) == before + Collected(cmd, 0, path)
    {
      var sub := cmd.subs[i];
      CollectStep(cmd, i, path);
      if sub.name == "help" {
        continue;
      }
      var subPath := SubPath(path, sub.name);
      ghost var atSub := out;
      out := PushOwn(sub, subPath, out);
      out := CollectExamples(sub, subPath, out);
      Regroup(atSub, OwnExamples(sub, subPath), Collected(sub, 0, subPath), Collected(cmd, i + 1, path));
    }
  }

  method PushOwn(cmd: Command, path: string, before: seq<(string, string)>) returns (out: seq<(string, string)>)
    ensures out == before + OwnExamples(cmd, path)
  {
    out := before;
    if cmd.afterLongHelp.Some? {
      out := PushBlock(ExampleLines(cmd.afterLongHelp.value), path, out);
    }
  }

  method PushBlock(lines: seq<string>, path: string, before: seq<(string, string)>) returns (out: seq<(string, string)>)
    requires forall line :: line in lines ==> StartsWith(line, EXAMPLE_PREFIX)
    ensures out == before + PathInvocations(path, lines)
  {
    out := before;
    for j := 0 to |lines|
      invariant forall line :: line in lines[..j] ==> StartsWith(line, EXAMPLE_PREFIX)
      invariant out == before + PathInvocations(path, lines[..j])
    {
      assert lines[j] in lines && lines[..j + 1] == lines[..j] + [lines[j]];
      assert PathInvocations(path, lines[..j + 1]) ==
        PathInvocations(path, lines[..j]) + [(path, Invocation(lines[j]))];
      out := out + [(path, Invocation(lines[j]))];
    }
    assert lines[..|lines|] == lines;
  }

  method ExamplesInTree(root: Command) returns (out: seq<(string, string)>)
    ensures out == Collected(root, 0, "")
  {
    out := CollectExamples(root, "", []);
    assert [] + Collected(root, 0, "") == Collected(root, 0, "");
  }

  method CollectLeaves(cmd: Command, path: string, before: set<string>) returns (out: set<string>)
    ensures out == before + Leaves(cmd, 0, path)
    decreases cmd
  {
    out := before;
    for i := 0 to |cmd.subs|
      invariant out + Leaves(cmd, i, path) == before + Leaves(cmd, 0, path)
    {
      var sub := cmd.subs[i];
      if sub.name == "help" {
        continue;
      }
      var subPath := SubPath(path, sub.name);
      if Children(sub) == [] {
        out := out + {subPath};
      }
      out := CollectLeaves(sub, subPath, out);
    }
  }

  method UnclaimedDebt(root: Command) returns (out: seq<string>)
    ensures forall p :: p in out <==> OwesExamples(p) && p !in Leaves(root, 0, "")
  {
    var live := CollectLeaves(root, "", {});
    var owed := EXAMPLES_OWED;
    out := [];
    for i := 0 to |owed|
      invariant forall p :: p in out <==> p in owed[..i] && p !in live
    {
      assert owed[..i + 1] == owed[..i] + [owed[i]];
      if owed[i] !in live {
        out := out + [owed[i]];
      }
    }
    assert owed[..|owed|] == owed;
  }

  // ----- the policy lists -----

  /** Some neighbours are equal or descending. */
  predicate IsUnsortedOrDuplicated(list: seq<string>) {
    exists i :: 0 <= i < |list| - 1 && StringLe(list[i + 1], list[i])
  }

  /** Looking at neighbours is enough: a list that passes ascends strictly throughout. */
  lemma {:induction false} NeighboursSuffice(list: seq<string>)
    ensures !IsUnsortedOrDuplicated(list) <==>
      forall i, j :: 0 <= i < j < |list| ==> StringLe(list[i], list[j]) && list[i] != list[j]
  {
    if !IsUnsortedOrDuplicated(list) {
      forall i, j | 0 <= i < j < |list| ensures StringLe(list[i], list[j]) && list[i] != list[j] {
        AscendsFrom(list, i, j);
      }
    } else {
      var i :| 0 <= i < |list| - 1 && StringLe(list[i + 1], list[i]);
      if StringLe(list[i], list[i + 1]) {
        StringAntisymmetric(list[i], list[i + 1]);
      }
    }
  }

  lemma {:induction false} AscendsFrom(list: seq<string>, i: nat, j: nat)
    requires !IsUnsortedOrDuplicated(list) && i < j < |list|
    ensures StringLe(list[i], list[j]) && !StringLe(list[j], list[i])
    decreases j
  {
    assert !StringLe(list[j], list[j - 1]) by { assert list[j] == list[j - 1 + 1]; }
    StringTotal(list[j], list[j - 1]);
    if i < j - 1 {
      AscendsFrom(list, i, j - 1);
      StringTransitive(list[i], list[j - 1], list[j]);
      if StringLe(list[j], list[i]) {
        StringTransitive(list[j], list[i], list[j - 1]);
      }
    }
  }
}
