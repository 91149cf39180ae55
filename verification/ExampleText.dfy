/** The text of one example: how it splits into tokens and what it quotes. */
module ExampleText {
  import opened Prelude
  import opened Text
  import opened Grouping

  const QUOTE := '"'

  // ----- split_example -----

  datatype Scan = Scan(out: seq<string>, token: string, quoted: bool, started: bool)

  const Start := Scan([], "", false, false)

  /** What one character does to the four variables of the loop. */
  function Step(st: Scan, c: char): Scan {
    if c == QUOTE then st.(quoted := !st.quoted, started := true)
    else if IsWhitespace(c) && !st.quoted then
      if st.started then st.(out := st.out + [st.token], token := "", started := false) else st
    else st.(token := st.token + [c], started := true)
  }

  function Feed(st: Scan, s: string): Scan
    decreases |s|
  {
    if s == [] then st else Feed(Step(st, s[0]), s[1..])
  }

  datatype UnbalancedQuote = UnbalancedQuote

  function Tokens(invocation: string): Result<seq<string>, UnbalancedQuote> {
    var st := Feed(Start, invocation);
    if st.quoted then Err(UnbalancedQuote)
    else Ok(if st.started then st.out + [st.token] else st.out)
  }

  lemma {:induction false} FeedAppend(st: Scan, a: string, b: string)
    ensures Feed(st, a + b) == Feed(Feed(st, a), b)
    decreases |a|
  {
    if a == [] {
      assert a + b == b;
    } else {
      assert (a + b)[1..] == a[1..] + b;
      FeedAppend(Step(st, a[0]), a[1..], b);
    }
  }

  method SplitExample(invocation: string) returns (r: Result<seq<string>, UnbalancedQuote>)
    ensures r == Tokens(invocation)
  {
    var out, token, quoted, started := [], "", false, false;
    for i := 0 to |invocation|
      invariant Scan(out, token, quoted, started) == Feed(Start, invocation[..i])
    {
      var c := invocation[i];
      assert invocation[..i + 1] == invocation[..i] + [c];
      FeedAppend(Start, invocation[..i], [c]);
      if c == QUOTE {
        quoted, started := !quoted, true;
      } else if IsWhitespace(c) && !quoted {
        if started {
          out, token, started := out + [token], "", false;
        }
      } else {
        token, started := token + [c], true;
      }
    }
    assert invocation[..|invocation|] == invocation;
    if quoted {
      return Err(UnbalancedQuote);
    }
    if started {
      out := out + [token];
    }
    return Ok(out);
  }

  /** A split fails exactly when the quotes do not pair up. */
  lemma FailsIffQuotesAreOdd(invocation: string)
    ensures Tokens(invocation).Err? <==> CountOf(invocation, QUOTE) % 2 == 1
  {
    QuotedIsParity(Start, invocation);
  }

  lemma Parity(n: nat)
    ensures (1 + n) % 2 == 0 <==> n % 2 != 0
  {
  }

  lemma {:induction false} QuotedIsParity(st: Scan, s: string)
    ensures Feed(st, s).quoted <==> (st.quoted <==> CountOf(s, QUOTE) % 2 == 0)
    decreases |s|
  {
    if s != [] {
      QuotedIsParity(Step(st, s[0]), s[1..]);
      assert CountOf(s, QUOTE) == (if s[0] == QUOTE then 1 else 0) + CountOf(s[1..], QUOTE);
      Parity(CountOf(s[1..], QUOTE));
    }
  }

  // ----- rendering and splitting back -----

  predicate Blank(s: string) { forall i :: 0 <= i < |s| ==> IsWhitespace(s[i]) }

  /** A stretch of a word, between quotes or bare. */
  datatype Segment = Segment(text: string, quoted: bool)

  /** No stretch holds a quote; a bare one is not empty and holds no whitespace. */
  predicate Writable(g: Segment) {
    QUOTE !in g.text && (!g.quoted ==> g.text != [] && forall i :: 0 <= i < |g.text| ==> !IsWhitespace(g.text[i]))
  }

  /** One word of a line, `--title="Sample Title"` say, with the whitespace in front of it. */
  datatype Part = Part(gap: string, segments: seq<Segment>)

  predicate Renderable(p: Part) {
    Blank(p.gap) && p.segments != [] && forall i :: 0 <= i < |p.segments| ==> Writable(p.segments[i])
  }

  predicate Spaced(parts: seq<Part>) {
    && (forall i :: 0 <= i < |parts| ==> Renderable(parts[i]))
    && (forall i :: 0 < i < |parts| ==> parts[i].gap != [])
  }

  function Word(segments: seq<Segment>): string {
    if segments == [] then []
    else
      var g := segments[|segments| - 1];
      Word(segments[..|segments| - 1]) + if g.quoted then [QUOTE] + g.text + [QUOTE] else g.text
  }

  /** A word stands for its stretches, one after the other, without the quotes. */
  function TokenOf(segments: seq<Segment>): string {
    if segments == [] then [] else TokenOf(segments[..|segments| - 1]) + segments[|segments| - 1].text
  }

  function Render(parts: seq<Part>): string {
    if parts == [] then []
    else Render(parts[..|parts| - 1]) + (parts[|parts| - 1].gap + Word(parts[|parts| - 1].segments))
  }

  function TokensOf(parts: seq<Part>): seq<string> {
    seq(|parts|, i requires 0 <= i < |parts| => TokenOf(parts[i].segments))
  }

  lemma {:induction false} FeedGap(st: Scan, gap: string)
    requires Blank(gap) && !st.quoted && (st.started ==> gap != []) && (!st.started ==> st.token == [])
    ensures Feed(st, gap) == Scan(if st.started then st.out + [st.token] else st.out, [], false, false)
    decreases |gap|
  {
    if gap != [] {
      assert gap[0] != QUOTE;
      FeedGap(Step(st, gap[0]), gap[1..]);
    }
  }

  /** Characters that are no quotes, and no whitespace unless quoted, join the token. */
  lemma {:induction false} FeedToken(st: Scan, token: string)
    requires QUOTE !in token && (st.quoted ==> st.started)
    requires st.quoted || forall i :: 0 <= i < |token| ==> !IsWhitespace(token[i])
    ensures Feed(st, token) == st.(token := st.token + token, started := st.started || token != [])
    decreases |token|
  {
    if token == [] {
      assert st.token + token == st.token;
    } else {
      assert token[0] in token && forall c :: c in token[1..] ==> c in token;
      FeedToken(Step(st, token[0]), token[1..]);
      assert token == [token[0]] + token[1..];
      assert st.token + [token[0]] + token[1..] == st.token + token;
    }
  }

  lemma FeedSegment(st: Scan, g: Segment)
    requires Writable(g) && !st.quoted
    ensures Feed(st, if g.quoted then [QUOTE] + g.text + [QUOTE] else g.text)
         == st.(token := st.token + g.text, started := true)
  {
    if g.quoted {
      var open := st.(quoted := true, started := true);
      FeedAppend(st, [QUOTE] + g.text, [QUOTE]);
      FeedAppend(st, [QUOTE], g.text);
      assert Feed(st, [QUOTE]) == open;
      FeedToken(open, g.text);
    } else {
      FeedToken(st, g.text);
    }
  }

  lemma {:induction false} FeedWord(out: seq<string>, segments: seq<Segment>)
    requires forall i :: 0 <= i < |segments| ==> Writable(segments[i])
    ensures Feed(Scan(out, [], false, false), Word(segments)) == Scan(out, TokenOf(segments), false, segments != [])
    decreases |segments|
  {
    if segments != [] {
      var before, g := segments[..|segments| - 1], segments[|segments| - 1];
      FeedWord(out, before);
      FeedAppend(Scan(out, [], false, false), Word(before), if g.quoted then [QUOTE] + g.text + [QUOTE] else g.text);
      FeedSegment(Scan(out, TokenOf(before), false, before != []), g);
    }
  }

  lemma {:induction false} FeedRendered(parts: seq<Part>)
    requires Spaced(parts) && parts != []
    ensures Feed(Start, Render(parts))
      == Scan(TokensOf(parts[..|parts| - 1]), TokenOf(parts[|parts| - 1].segments), false, true)
    decreases |parts|
  {
    var before, last := parts[..|parts| - 1], parts[|parts| - 1];
    var st := Feed(Start, Render(before));
    if before != [] {
      FeedRendered(before);
      TokensSnoc(before[..|before| - 1], before[|before| - 1]);
      assert before[..|before| - 1] + [before[|before| - 1]] == before;
    }
    assert Renderable(last);
    FeedGap(st, last.gap);
    assert Feed(st, last.gap) == Scan(TokensOf(before), [], false, false);
    FeedWord(TokensOf(before), last.segments);
    FeedAppend(st, last.gap, Word(last.segments));
    FeedAppend(Start, Render(before), last.gap + Word(last.segments));
  }

  lemma TokensSnoc(parts: seq<Part>, last: Part)
    ensures TokensOf(parts + [last]) == TokensOf(parts) + [TokenOf(last.segments)]
  {
  }

  /** Rendering any words, quoted in full, in part or not at all, and splitting the line gives their tokens back. */
  lemma RenderThenSplit(parts: seq<Part>, trailing: string)
    requires Spaced(parts) && Blank(trailing)
    ensures Tokens(Render(parts) + trailing) == Ok(TokensOf(parts))
  {
    var st := Feed(Start, Render(parts));
    FeedAppend(Start, Render(parts), trailing);
    if parts == [] {
      assert st == Start;
    } else {
      FeedRendered(parts);
      TokensSnoc(parts[..|parts| - 1], parts[|parts| - 1]);
      assert parts[..|parts| - 1] + [parts[|parts| - 1]] == parts;
    }
    if trailing != [] || parts == [] {
      FeedGap(st, trailing);
    }
    var end := Feed(st, trailing);
    assert !end.quoted && (if end.started then end.out + [end.token] else end.out) == TokensOf(parts);
  }

  /** How far a line has been read: whole words, the gap and the stretches of the next, and a quote still open. */
  datatype Reading = Reading(parts: seq<Part>, gap: string, segments: seq<Segment>, open: Option<string>)

  function TextOf(r: Reading): string {
    Render(r.parts) + (r.gap + Word(r.segments)) + if r.open.Some? then [QUOTE] + r.open.value else []
  }

  predicate Sound(r: Reading) {
    && Spaced(r.parts) && Blank(r.gap) && (r.parts != [] ==> r.gap != [])
    && (forall i :: 0 <= i < |r.segments| ==> Writable(r.segments[i]))
    && (r.open.Some? ==> QUOTE !in r.open.value)
  }

  /** The reading one character further. */
  function ReadOn(r: Reading, c: char): Reading {
    if c == QUOTE then
      match r.open
      case None => r.(open := Some(""))
      case Some(text) => r.(segments := r.segments + [Segment(text, true)], open := None)
    else if r.open.Some? then r.(open := Some(r.open.value + [c]))
    else if !IsWhitespace(c) then r.(segments := r.segments + [Segment([c], false)])
    else if r.segments == [] then r.(gap := r.gap + [c])
    else Reading(r.parts + [Part(r.gap, r.segments)], [c], [], None)
  }

  lemma ReadOnIsSound(r: Reading, c: char)
    requires Sound(r)
    ensures Sound(ReadOn(r, c))
  {
  }

  lemma OneMoreSegment(segments: seq<Segment>, g: Segment)
    ensures Word(segments + [g]) == Word(segments) + if g.quoted then [QUOTE] + g.text + [QUOTE] else g.text
  {
    assert (segments + [g])[..|segments|] == segments;
  }

  lemma OneMorePart(parts: seq<Part>, p: Part)
    ensures Render(parts + [p]) == Render(parts) + (p.gap + Word(p.segments))
  {
    assert (parts + [p])[..|parts|] == parts;
  }

  lemma ReadOnText(r: Reading, c: char)
    ensures TextOf(ReadOn(r, c)) == TextOf(r) + [c]
  {
    if r.open.Some? {
      OneMoreSegment(r.segments, Segment(r.open.value, true));
      assert [QUOTE] + r.open.value + [c] == [QUOTE] + (r.open.value + [c]);
    } else if c != QUOTE && IsWhitespace(c) {
      OneMorePart(r.parts, Part(r.gap, r.segments));
    } else {
      OneMoreSegment(r.segments, Segment([c], false));
    }
  }

  predicate OddQuotes(s: string) { CountOf(s, QUOTE) % 2 == 1 }

  lemma OddOneMore(s: string, c: char)
    ensures OddQuotes(s + [c]) <==> (if c == QUOTE then !OddQuotes(s) else OddQuotes(s))
  {
    CountOneMore(s, c);
  }

  predicate Follows(r: Reading, s: string) {
    TextOf(r) == s && (r.open.Some? <==> OddQuotes(s))
  }

  lemma OneMoreRead(r: Reading, s: string, c: char)
    requires Sound(r) && Follows(r, s)
    ensures Sound(ReadOn(r, c)) && Follows(ReadOn(r, c), s + [c])
  {
    ReadOnIsSound(r, c);
    ReadOnText(r, c);
    OddOneMore(s, c);
    assert ReadOn(r, c).open.Some? <==> (if c == QUOTE then r.open.None? else r.open.Some?);
  }

  lemma {:induction false} EveryLineIsRead(s: string) returns (r: Reading)
    ensures Sound(r) && Follows(r, s)
    decreases |s|
  {
    if s == [] {
      r := Reading([], [], [], None);
      NothingIsRead();
    } else {
      var n := |s| - 1;
      assert s == s[..n] + [s[n]];
      var before := EveryLineIsRead(s[..n]);
      r := ReadOn(before, s[n]);
      OneMoreRead(before, s[..n], s[n]);
    }
  }

  lemma NothingIsRead()
    ensures Sound(Reading([], [], [], None)) && Follows(Reading([], [], [], None), [])
  {
  }

  lemma {:induction false} CountOneMore(s: string, c: char)
    ensures CountOf(s + [c], QUOTE) == CountOf(s, QUOTE) + if c == QUOTE then 1 else 0
  {
    if s == [] {
      assert s + [c] == [c] && [c][1..] == [];
    } else {
      assert (s + [c])[1..] == s[1..] + [c];
      CountOneMore(s[1..], c);
    }
  }

  /** The words of a reading, the one under way included. */
  lemma WordsRead(r: Reading) returns (parts: seq<Part>, trailing: string)
    requires Sound(r)
    ensures Spaced(parts) && Blank(trailing) && (r.open.None? ==> TextOf(r) == Render(parts) + trailing)
  {
    parts, trailing := r.parts, r.gap;
    if r.segments != [] {
      parts, trailing := r.parts + [Part(r.gap, r.segments)], [];
      assert parts[..|r.parts|] == r.parts;
    }
  }

  /**
   What a split means, on every line: it succeeds exactly with the tokens of the
   words the line is a rendering of, and a line with paired quotes is one.
   */
  lemma SplitMeans(s: string) returns (parts: seq<Part>, trailing: string)
    ensures Tokens(s).Ok? ==> Spaced(parts) && Blank(trailing) && s == Render(parts) + trailing
    ensures Tokens(s).Ok? ==> Tokens(s).value == TokensOf(parts)
  {
    var r := EveryLineIsRead(s);
    FailsIffQuotesAreOdd(s);
    parts, trailing := WordsRead(r);
    if r.open.None? {
      RenderThenSplit(parts, trailing);
    }
  }

  // ----- quoted_values -----

  /** `str::find` of the quote. */
  function Find(s: string): (r: Option<nat>)
    ensures r.Some? ==> r.value < |s| && s[r.value] == QUOTE && QUOTE !in s[..r.value]
    ensures r.None? ==> QUOTE !in s
  {
    if s == [] then None
    else if s[0] == QUOTE then Some(0)
    else
      match Find(s[1..])
      case None => None
      case Some(i) =>
        assert s[..i + 1] == [s[0]] + s[1..][..i];
        Some(i + 1)
  }

  /** Every second piece between the quotes; a last one that no quote closes does not count. */
  function Quoted(pieces: seq<string>): seq<string> {
    if |pieces| < 3 then [] else [pieces[1]] + Quoted(pieces[2..])
  }

  function QuotedValues(invocation: string): seq<string> {
    Quoted(Split(invocation, QUOTE))
  }

  /** One turn of the loop: the text up to the second quote holds one value. */
  lemma OneValue(rest: string, open: nat, close: nat)
    requires open < |rest| && rest[open] == QUOTE && QUOTE !in rest[..open]
    requires open + 1 + close < |rest| && rest[open + 1 + close] == QUOTE && QUOTE !in rest[open + 1..open + 1 + close]
    ensures QuotedValues(rest) == [rest[open + 1..open + 1 + close]] + QuotedValues(rest[open + close + 2..])
  {
    var value, after := rest[open + 1..open + 1 + close], rest[open + close + 2..];
    assert rest == rest[..open] + [QUOTE] + (value + [QUOTE] + after);
    SplitHead(rest[..open], QUOTE, value + [QUOTE] + after);
    SplitHead(value, QUOTE, after);
    var pieces := Split(rest, QUOTE);
    assert pieces == [rest[..open]] + ([value] + Split(after, QUOTE));
    assert pieces[2..] == Split(after, QUOTE);
  }

  lemma NoValue(rest: string)
    requires Find(rest).None? || Find(rest[Find(rest).value + 1..]).None?
    ensures QuotedValues(rest) == []
  {
    if Find(rest).None? {
      SplitNone(rest, QUOTE);
    } else {
      var open := Find(rest).value;
      assert rest == rest[..open] + [QUOTE] + rest[open + 1..];
      SplitHead(rest[..open], QUOTE, rest[open + 1..]);
      SplitNone(rest[open + 1..], QUOTE);
    }
  }

  /** The loop that walks from quote to quote finds exactly the spans between paired quotes. */
  method FindQuotedValues(invocation: string) returns (out: seq<string>)
    ensures out == QuotedValues(invocation)
  {
    out := [];
    var rest := invocation;
    while Find(rest).Some?
      invariant out + QuotedValues(rest) == QuotedValues(invocation)
      decreases |rest|
    {
      var open := Find(rest).value;
      var after := rest[open + 1..];
      if Find(after).None? {
        break;
      }
      var close := Find(after).value;
      assert after[..close] == rest[open + 1..open + 1 + close];
      OneValue(rest, open, close);
      out := out + [after[..close]];
      assert after[close + 1..] == rest[open + close + 2..];
      rest := after[close + 1..];
    }
    NoValue(rest);
    assert out + [] == out;
  }

  /** There are half as many values as quotes, and no value holds one. */
  lemma HalfTheQuotes(invocation: string)
    ensures |QuotedValues(invocation)| == CountOf(invocation, QUOTE) / 2
    ensures forall v :: v in QuotedValues(invocation) ==> QUOTE !in v
  {
    PieceCount(invocation);
    var pieces := Split(invocation, QUOTE);
    forall i | 0 <= i < |pieces| ensures QUOTE !in pieces[i] {
      PiecesAreFree(invocation, QUOTE, i);
    }
    HalfThePieces(pieces);
  }

  lemma {:induction false} PieceCount(s: string)
    ensures |Split(s, QUOTE)| == CountOf(s, QUOTE) + 1
  {
    if s != [] {
      PieceCount(s[1..]);
    }
  }

  lemma {:induction false} HalfThePieces(pieces: seq<string>)
    requires pieces != [] && forall i :: 0 <= i < |pieces| ==> QUOTE !in pieces[i]
    ensures |Quoted(pieces)| == (|pieces| - 1) / 2
    ensures forall v :: v in Quoted(pieces) ==> QUOTE !in v
  {
    if |pieces| >= 3 {
      HalfThePieces(pieces[2..]);
    }
  }
}
