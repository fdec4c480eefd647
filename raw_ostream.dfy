/** The output sink llvm::outs(), and the line structure of the text written to it. */
module RawOstream {

  /** Everything written to the stream so far, in order. */
  class OutStream {
    var text: string

    constructor ()
      ensures text == ""
    {
      text := "";
    }

    method Write(s: string)
      modifies this
      ensures text == old(text) + s
    {
      text := text + s;
    }
  }

  predicate NoNewline(s: string)
  {
    '\n' !in s
  }

  /** The text made of `lines`, each terminated by a newline. */
  function Unlines(lines: seq<string>): string
  {
    if lines == [] then "" else lines[0] + "\n" + Unlines(lines[1..])
  }

  lemma {:induction false} UnlinesAppend(a: seq<string>, b: seq<string>)
    ensures Unlines(a + b) == Unlines(a) + Unlines(b)
  {
    if a == [] {
      assert a + b == b;
    } else {
      assert (a + b)[1..] == a[1..] + b;
      UnlinesAppend(a[1..], b);
    }
  }

  lemma UnlinesSnoc(a: seq<string>, line: string)
    ensures Unlines(a + [line]) == Unlines(a) + line + "\n"
  {
    UnlinesAppend(a, [line]);
    assert [line][1..] == [];
  }

  lemma UnlinesSingle(line: string)
    ensures Unlines([line]) == line + "\n"
  {
    assert [line][1..] == [];
  }

  lemma UnlinesCons(line: string, a: seq<string>)
    ensures Unlines([line] + a) == line + "\n" + Unlines(a)
  {
    assert ([line] + a)[1..] == a;
  }

  /** The position of the first newline of `s`, or |s| when it has none. */
  function NewlineIndex(s: string): (i: nat)
    ensures i <= |s|
    ensures i < |s| ==> s[i] == '\n'
    ensures forall k :: 0 <= k < i ==> s[k] != '\n'
  {
    if s == "" then 0 else if s[0] == '\n' then 0 else 1 + NewlineIndex(s[1..])
  }

  /** Splits text at its newlines; an unterminated tail is a line of its own. */
  function Lines(s: string): seq<string>
    decreases |s|
  {
    if s == "" then []
    else
      var i := NewlineIndex(s);
      if i == |s| then [s] else [s[..i]] + Lines(s[i + 1..])
  }

  /** Splitting the text of newline-free lines gives the lines back. */
  lemma {:induction false} LinesOfUnlines(lines: seq<string>)
    requires forall k :: 0 <= k < |lines| ==> NoNewline(lines[k])
    ensures Lines(Unlines(lines)) == lines
  {
    if lines != [] {
      var l, rest := lines[0], Unlines(lines[1..]);
      var s := Unlines(lines);
      assert s == l + "\n" + rest;
      assert NoNewline(l);
      var i := NewlineIndex(s);
      assert s[|l|] == '\n';
      assert i == |l|;
      assert s[..i] == l;
      assert s[i + 1..] == rest;
      LinesOfUnlines(lines[1..]);
    }
  }

  /** How many of `lines` are equal to `line`. */
  function Occurrences(lines: seq<string>, line: string): nat
  {
    if lines == [] then 0
    else Occurrences(lines[..|lines| - 1], line) + (if lines[|lines| - 1] == line then 1 else 0)
  }

  lemma {:induction false} OccurrencesAppend(a: seq<string>, b: seq<string>, line: string)
    ensures Occurrences(a + b, line) == Occurrences(a, line) + Occurrences(b, line)
    decreases |b|
  {
    if b == [] {
      assert a + b == a;
    } else {
      var b' := b[..|b| - 1];
      assert (a + b)[..|a + b| - 1] == a + b';
      OccurrencesAppend(a, b', line);
    }
  }

  lemma {:induction false} OccurrencesAbsent(a: seq<string>, line: string)
    requires forall k :: 0 <= k < |a| ==> a[k] != line
    ensures Occurrences(a, line) == 0
    decreases |a|
  {
    if a != [] {
      OccurrencesAbsent(a[..|a| - 1], line);
    }
  }
}
