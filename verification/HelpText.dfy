/**
 The text the gate reads: lines and their ends, the `Examples:` block, substrings
 and command paths, each against how it is written.
 */
module HelpText {
  import opened Prelude
  import opened Text
  import opened Sorting
  import opened HelpGate
  import opened GateMeaning

  // ----- lines -----

  predicate EndsInCr(s: string) { s != [] && s[|s| - 1] == '\r' }

  /** A line with its end, `\n` or `\r\n`. */
  datatype Line = Line(text: string, crlf: bool) {
    function Whole(): string { text + if crlf then "\r\n" else "\n" }

    predicate Ok() { '\n' !in text && (crlf || !EndsInCr(text)) }
  }

  function Joined(lines: seq<Line>): string {
    if lines == [] then [] else lines[0].Whole() + Joined(lines[1..])
  }

  function Texts(lines: seq<Line>): seq<string> { Map(lines, (l: Line) => l.text) }

  function FullLines(pieces: seq<string>): seq<string>
    requires pieces != []
  {
    seq(|pieces| - 1, i requires 0 <= i < |pieces| - 1 => WithoutCr(pieces[i]))
  }

  lemma FirstFullLine(piece: string, pieces: seq<string>)
    requires pieces != []
    ensures FullLines([piece] + pieces) == [WithoutCr(piece)] + FullLines(pieces)
    ensures ([piece] + pieces)[|[piece] + pieces| - 1] == pieces[|pieces| - 1]
  {
  }

  lemma LinesInParts(block: string)
    ensures var pieces := Split(block, '\n'); var last := pieces[|pieces| - 1];
      Lines(block) == FullLines(pieces) + if last == [] then [] else [last]
  {
  }

  lemma FirstLine(text: string, rest: string)
    requires '\n' !in text
    ensures Lines(text + ['\n'] + rest) == [WithoutCr(text)] + Lines(rest)
  {
    SplitHead(text, '\n', rest);
    FirstFullLine(text, Split(rest, '\n'));
    LinesInParts(rest);
    LinesInParts(text + ['\n'] + rest);
  }

  lemma OneMoreLine(l: Line, rest: string)
    requires l.Ok()
    ensures Lines(l.Whole() + rest) == [l.text] + Lines(rest)
  {
    var piece := l.text + if l.crlf then ['\r'] else [];
    assert l.Whole() + rest == piece + ['\n'] + rest;
    FirstLine(piece, rest);
    assert WithoutCr(piece) == l.text;
  }

  /** Lines written with either end, and possibly a last one without, read back as they are. */
  lemma {:induction false} LinesReadBack(lines: seq<Line>, last: string)
    requires forall l :: l in lines ==> l.Ok()
    requires '\n' !in last
    ensures Lines(Joined(lines) + last) == Texts(lines) + if last == [] then [] else [last]
  {
    if lines == [] {
      assert Joined(lines) + last == last;
      SplitNone(last, '\n');
    } else {
      assert lines[0] in lines && forall x :: x in lines[1..] ==> x in lines;
      Associate(lines[0].Whole(), Joined(lines[1..]), last);
      OneMoreLine(lines[0], Joined(lines[1..]) + last);
      LinesReadBack(lines[1..], last);
      assert Texts(lines) == [lines[0].text] + Texts(lines[1..]);
    }
  }

  // ----- the block `examples!` writes -----

  function Tail(xs: seq<string>): string {
    if xs == [] then [] else "\n" + (EXAMPLE_PREFIX + xs[0]) + Tail(xs[1..])
  }

  /** The heading and one prefixed line for each invocation, without a last line end. */
  function ExamplesBlock(xs: seq<string>): string { "Examples:" + Tail(xs) }

  predicate OneLine(x: string) { '\n' !in x && !EndsInCr(x) }

  function PrefixedAll(xs: seq<string>): seq<string> { Map(xs, x => EXAMPLE_PREFIX + x) }

  lemma {:induction false} TailLines(head: string, xs: seq<string>)
    requires head != [] && OneLine(head) && forall x :: x in xs ==> OneLine(x)
    ensures Lines(head + Tail(xs)) == [head] + PrefixedAll(xs)
    decreases |xs|
  {
    if xs == [] {
      assert head + Tail(xs) == head;
      SplitNone(head, '\n');
    } else {
      var next := EXAMPLE_PREFIX + xs[0];
      assert xs[0] in xs && forall x :: x in xs[1..] ==> x in xs;
      PrefixIsOneLine(xs[0]);
      assert head + Tail(xs) == head + ['\n'] + (next + Tail(xs[1..]));
      FirstLine(head, next + Tail(xs[1..]));
      TailLines(next, xs[1..]);
      PrefixedHead(xs);
    }
  }

  lemma PrefixedHead(xs: seq<string>)
    requires xs != []
    ensures PrefixedAll(xs) == [EXAMPLE_PREFIX + xs[0]] + PrefixedAll(xs[1..])
  {
  }

  lemma PrefixIsOneLine(x: string)
    requires OneLine(x)
    ensures OneLine(EXAMPLE_PREFIX + x)
  {
    var s := EXAMPLE_PREFIX + x;
    forall i | 0 <= i < |s| ensures s[i] != '\n' {
      if i < |EXAMPLE_PREFIX| { assert s[i] == EXAMPLE_PREFIX[i]; } else { assert x[i - |EXAMPLE_PREFIX|] in x; }
    }
    assert x == [] ==> s[|s| - 1] == ' ';
  }

  lemma {:induction false} AllPrefixed(xs: seq<string>)
    ensures Prefixed(PrefixedAll(xs)) == PrefixedAll(xs)
  {
    if xs != [] {
      AllPrefixed(xs[1..]);
      assert PrefixedAll(xs)[1..] == PrefixedAll(xs[1..]);
      assert (EXAMPLE_PREFIX + xs[0])[..|EXAMPLE_PREFIX|] == EXAMPLE_PREFIX;
    }
  }

  /** The block's example lines are the invocations, prefixed. */
  lemma BlockReadsBack(xs: seq<string>)
    requires forall x :: x in xs ==> OneLine(x)
    ensures ExampleLines(ExamplesBlock(xs)) == PrefixedAll(xs)
  {
    var heading := "Examples:";
    assert heading[0] != EXAMPLE_PREFIX[0] && heading[8] == ':';
    assert forall i :: 0 <= i < |heading| ==> heading[i] != '\n';
    TailLines(heading, xs);
    AllPrefixed(xs);
    assert ([heading] + PrefixedAll(xs))[1..] == PrefixedAll(xs);
    assert [] + PrefixedAll(xs) == PrefixedAll(xs);
  }

  function WithPath(path: string, xs: seq<string>): seq<(string, string)> { Map(xs, x => (path, x)) }

  /**
   What `examples!` writes at a command is what the traversal collects there, each
   invocation as written and in order.
   */
  lemma WrittenExamplesAreCollected(root: Command, addr: seq<nat>, xs: seq<string>)
    returns (before: seq<(string, string)>, after: seq<(string, string)>)
    requires IsNode(root, addr) && addr != [] && forall x :: x in xs ==> OneLine(x)
    requires NodeAt(root, addr).afterLongHelp == Some(ExamplesBlock(xs))
    ensures Collected(root, 0, "") == before + WithPath(PathOf(root, "", addr), xs) + after
    ensures ExamplesOf(NodeAt(root, addr)) == PrefixedAll(xs)
  {
    BlockReadsBack(xs);
    before, after := EveryOwnIsGathered(OwnExamples, root, 0, "", addr);
    var path := PathOf(root, "", addr);
    var own := OwnExamples(NodeAt(root, addr), path);
    forall i | 0 <= i < |xs| ensures own[i] == (path, xs[i]) {
      InvocationReadsBack(xs[i]);
    }
    assert own == WithPath(path, xs);
  }

  lemma InvocationReadsBack(x: string)
    ensures StartsWith(EXAMPLE_PREFIX + x, EXAMPLE_PREFIX) && Invocation(EXAMPLE_PREFIX + x) == x
  {
  }

  // ----- substrings and paths -----

  predicate FoundAt(s: string, part: string, k: nat) { k + |part| <= |s| && s[k..k + |part|] == part }

  /** `contains` finds the part at some place. */
  lemma {:induction false} ContainsIff(s: string, part: string)
    ensures Contains(s, part) <==> exists k: nat :: FoundAt(s, part, k)
  {
    if s == [] {
      assert Contains(s, part) <==> part == [];
      assert part == [] ==> FoundAt(s, part, 0);
    } else if StartsWith(s, part) {
      assert FoundAt(s, part, 0);
    } else {
      ContainsIff(s[1..], part);
      if k: nat :| FoundAt(s[1..], part, k) {
        assert s[k + 1..k + 1 + |part|] == s[1..][k..k + |part|];
        assert FoundAt(s, part, k + 1);
      }
      if k: nat :| FoundAt(s, part, k) {
        assert s[0..|part|] == s[..|part|];
        assert k > 0 && s[1..][k - 1..k - 1 + |part|] == s[k..k + |part|];
        assert FoundAt(s[1..], part, k - 1);
      }
    }
  }

  /** The names on the way to a command. */
  function NamesAt(cmd: Command, addr: seq<nat>): seq<string>
    requires IsNode(cmd, addr)
    decreases |addr|
  {
    if addr == [] then [] else [cmd.subs[addr[0]].name] + NamesAt(cmd.subs[addr[0]], addr[1..])
  }

  predicate AreWords(names: seq<string>) { forall i :: 0 <= i < |names| ==> names[i] != [] && ' ' !in names[i] }

  /** What follows a path: nothing, or a space and these names. */
  predicate Continues(rest: string, names: seq<string>) {
    if names == [] then rest == [] else rest != [] && rest[0] == ' ' && Split(rest[1..], ' ') == names
  }

  lemma OneMoreName(name: string, rest: string, names: seq<string>)
    requires ' ' !in name && Continues(rest, names)
    ensures Split(name + rest, ' ') == [name] + names
  {
    if names == [] {
      SplitNone(name, ' ');
      assert name + rest == name;
    } else {
      SplitHead(name, ' ', rest[1..]);
      assert name + rest == name + [' '] + rest[1..];
    }
  }

  lemma {:induction false} PathContinues(cmd: Command, path: string, addr: seq<nat>) returns (rest: string)
    requires IsNode(cmd, addr) && path != [] && AreWords(NamesAt(cmd, addr))
    ensures PathOf(cmd, path, addr) == path + rest && Continues(rest, NamesAt(cmd, addr))
    decreases |addr|
  {
    if addr == [] {
      rest := [];
      assert path + [] == path;
    } else {
      var sub := cmd.subs[addr[0]];
      var names := NamesAt(sub, addr[1..]);
      assert NamesAt(cmd, addr) == [sub.name] + names;
      FewerWords(sub.name, names);
      var more := PathContinues(sub, SubPath(path, sub.name), addr[1..]);
      rest := " " + (sub.name + more);
      assert rest[1..] == sub.name + more;
      assert path + rest == path + " " + sub.name + more;
      OneMoreName(sub.name, more, names);
    }
  }

  lemma FewerWords(name: string, names: seq<string>)
    requires AreWords([name] + names)
    ensures name != [] && ' ' !in name && AreWords(names)
  {
    assert ([name] + names)[0] == name;
    assert forall i :: 0 <= i < |names| ==> names[i] == ([name] + names)[i + 1];
  }

  /** A command's path is the names on the way to it, from the root's child down, with one space between. */
  lemma PathsAreTheNames(root: Command, addr: seq<nat>)
    requires IsNode(root, addr) && addr != [] && AreWords(NamesAt(root, addr))
    ensures Split(PathOf(root, "", addr), ' ') == NamesAt(root, addr)
  {
    var sub := root.subs[addr[0]];
    var names := NamesAt(sub, addr[1..]);
    assert NamesAt(root, addr) == [sub.name] + names;
    FewerWords(sub.name, names);
    var rest := PathContinues(sub, sub.name, addr[1..]);
    OneMoreName(sub.name, rest, names);
  }
}
