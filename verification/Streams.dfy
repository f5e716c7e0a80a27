// What a connection delivers: bytes in chunks of any size, and the lines in them. One entry of an
// input script is what one call of read() meets; a script that is over stands for a peer that
// closed the connection, and so does a chunk without bytes.
module Streams {
  import opened Text

  datatype Event = Chunk(bytes: string) | TimedOut | Failed

  /** Where the first newline stands, or the length when there is none. */
  function LineEnd(s: string): (n: nat)
    ensures n <= |s| && (n < |s| ==> s[n] == '\n')
    ensures forall i :: 0 <= i < n ==> s[i] != '\n'
  {
    if s == "" || s[0] == '\n' then 0 else 1 + LineEnd(s[1..])
  }

  lemma LineEndIs(s: string, n: nat)
    requires n <= |s| && (n < |s| ==> s[n] == '\n')
    requires forall i :: 0 <= i < n ==> s[i] != '\n'
    ensures LineEnd(s) == n
  {
  }

  lemma LineEndConcat(a: string, b: string)
    ensures LineEnd(a + b) == if LineEnd(a) < |a| then LineEnd(a) else |a| + LineEnd(b)
  {
    var n := if LineEnd(a) < |a| then LineEnd(a) else |a| + LineEnd(b);
    LineEndIs(a + b, n);
  }

  // ----- the byte stream behind the chunks -----

  /** The bytes that arrive before anything else happens. */
  function Arriving(ins: seq<Event>): string {
    if ins == [] || !ins[0].Chunk? || ins[0].bytes == "" then "" else ins[0].bytes + Arriving(ins[1..])
  }

  /** The number of chunks that arrive before anything else happens. */
  function Chunks(ins: seq<Event>): nat {
    if ins == [] || !ins[0].Chunk? || ins[0].bytes == "" then 0 else 1 + Chunks(ins[1..])
  }

  /** What happens after those bytes. */
  function Beyond(ins: seq<Event>): seq<Event> {
    if ins == [] || !ins[0].Chunk? || ins[0].bytes == "" then ins else Beyond(ins[1..])
  }

  // ----- lines of a stream -----

  /** The complete lines of a text, and what stands after the last newline. */
  function Lines(s: string): seq<string>
    decreases |s|
  {
    var n := LineEnd(s);
    if n == |s| then [] else [s[..n]] + Lines(s[n + 1..])
  }

  function Remainder(s: string): string
    decreases |s|
  {
    var n := LineEnd(s);
    if n == |s| then s else Remainder(s[n + 1..])
  }

  function Joined(lines: seq<string>): string {
    if lines == [] then "" else lines[0] + "\n" + Joined(lines[1..])
  }

  /** Splitting loses nothing: the lines and the remainder make up the text again. */
  lemma {:induction false} LinesJoin(s: string)
    ensures Joined(Lines(s)) + Remainder(s) == s
    decreases |s|
  {
    var n := LineEnd(s);
    if n < |s| {
      var rest := s[n + 1..];
      LinesJoin(rest);
      JoinedFirst(s[..n], Lines(rest));
      SplitAt(s, n);
      Assoc(s[..n] + "\n", Joined(Lines(rest)), Remainder(rest));
    }
  }

  lemma JoinedFirst(line: string, lines: seq<string>)
    ensures Joined([line] + lines) == line + "\n" + Joined(lines)
  {
    assert ([line] + lines)[1..] == lines;
  }

  lemma SplitAt(s: string, n: nat)
    requires n < |s| && s[n] == '\n'
    ensures s == s[..n] + "\n" + s[n + 1..]
  {
  }

  lemma {:induction false} LinesHoldNoNewline(s: string)
    ensures '\n' !in Remainder(s)
    ensures forall i :: 0 <= i < |Lines(s)| ==> '\n' !in Lines(s)[i]
    decreases |s|
  {
    var n := LineEnd(s);
    if n < |s| {
      LinesHoldNoNewline(s[n + 1..]);
    }
  }

  lemma AcrossChunk(res: string, a: string, b: string, m: nat)
    requires m <= |b|
    ensures res + a + b[..m] == res + (a + b)[..|a| + m]
    ensures m < |b| ==> b[m + 1..] == (a + b)[|a| + m + 1..]
  {
    assert (a + b)[..|a| + m] == a + b[..m];
  }
}
