/** Splitting text at a separator, and prefixes. */
module Text {
  predicate StartsWith(s: string, prefix: string) { |prefix| <= |s| && s[..|prefix|] == prefix }

  /** `str::split(sep)`: the pieces between the separators, at least one. */
  function Split(s: string, sep: char): (pieces: seq<string>)
    ensures pieces != []
  {
    if s == [] then [""]
    else if s[0] == sep then [""] + Split(s[1..], sep)
    else
      var rest := Split(s[1..], sep);
      [[s[0]] + rest[0]] + rest[1..]
  }

  /** The first piece ends at the first separator. */
  lemma {:induction false} SplitHead(head: string, sep: char, rest: string)
    requires sep !in head
    ensures Split(head + [sep] + rest, sep) == [head] + Split(rest, sep)
  {
    if head == [] {
      assert head + [sep] + rest == [sep] + rest;
    } else {
      assert (head + [sep] + rest)[1..] == head[1..] + [sep] + rest;
      assert forall c :: c in head[1..] ==> c in head;
      SplitHead(head[1..], sep, rest);
      assert head[0] in head && head == [head[0]] + head[1..];
      assert ([head[1..]] + Split(rest, sep))[1..] == Split(rest, sep);
    }
  }

  lemma {:induction false} SplitNone(s: string, sep: char)
    requires sep !in s
    ensures Split(s, sep) == [s]
  {
    if s != [] {
      assert forall c :: c in s[1..] ==> c in s;
      SplitNone(s[1..], sep);
      assert s[0] in s && s == [s[0]] + s[1..];
    }
  }

  /** No piece ever holds the separator. */
  lemma {:induction false} PiecesAreFree(s: string, sep: char, i: nat)
    requires i < |Split(s, sep)|
    ensures sep !in Split(s, sep)[i]
  {
    if s != [] {
      if s[0] == sep {
        if i > 0 { PiecesAreFree(s[1..], sep, i - 1); }
      } else {
        PiecesAreFree(s[1..], sep, i);
      }
    }
  }
}
