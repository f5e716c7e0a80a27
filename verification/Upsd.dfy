// How upsd reads what a client sends (server/upsd.c), and the lines it answers GET VAR and LIST VAR
// with (server/netget.c, server/netlist.c).
module Upsd {
  import opened ParseConf
  import opened Text

  // ----- reading a client -----

  /** The parser of a connection, and the commands completed. */
  datatype Heard = Heard(scan: Scan, lines: seq<seq<string>>)

  /** client_readline on the bytes of one read: after a parse error the rest of them is dropped. */
  function HearChunk(s: Scan, lim: Limits, chunk: string): Heard
    decreases |chunk|
  {
    if chunk == "" then Heard(s, [])
    else
      var s' := FeedChar(s, lim, chunk[0]);
      if s'.state == ParseErr then Heard(s', [])
      else
        var h := HearChunk(s', lim, chunk[1..]);
        h.(lines := (if s'.state == EndOfLine then [s'.args] else []) + h.lines)
  }

  function Hear(s: Scan, lim: Limits, chunks: seq<string>): Heard
    decreases |chunks|
  {
    if chunks == [] then Heard(s, [])
    else
      var h := HearChunk(s, lim, chunks[0]);
      var rest := Hear(h.scan, lim, chunks[1..]);
      rest.(lines := h.lines + rest.lines)
  }

  function Together(chunks: seq<string>): string {
    if chunks == [] then "" else chunks[0] + Together(chunks[1..])
  }

  /** No character of the text is a parse error. */
  predicate NeverErrs(s: Scan, lim: Limits, text: string)
    decreases |text|
  {
    text != "" ==> FeedChar(s, lim, text[0]).state != ParseErr && NeverErrs(FeedChar(s, lim, text[0]), lim, text[1..])
  }

  lemma {:induction false} NeverErrsConcat(s: Scan, lim: Limits, a: string, b: string)
    ensures NeverErrs(s, lim, a + b) <==> NeverErrs(s, lim, a) && NeverErrs(FeedChars(s, lim, a), lim, b)
    decreases |a|
  {
    if a == "" {
      assert a + b == b;
    } else {
      assert (a + b)[0] == a[0] && (a + b)[1..] == a[1..] + b;
      NeverErrsConcat(FeedChar(s, lim, a[0]), lim, a[1..], b);
    }
  }

  lemma {:induction false} UnstoppedNeverErrs(s: Scan, lim: Limits, text: string)
    requires !Stopped(Run(s, lim, text))
    ensures NeverErrs(s, lim, text)
    decreases |text|
  {
    OneLineStep(s, lim, text);
    if text != "" {
      OneLineStep(Step(s, lim, text[0]), lim, text[1..]);
      UnstoppedNeverErrs(Step(s, lim, text[0]), lim, text[1..]);
    }
  }

  lemma {:induction false} ChunkHeard(s: Scan, lim: Limits, chunk: string)
    requires NeverErrs(s, lim, chunk)
    ensures HearChunk(s, lim, chunk) == Heard(FeedChars(s, lim, chunk), FeedLines(s, lim, chunk))
    decreases |chunk|
  {
    if chunk != "" {
      ChunkHeard(FeedChar(s, lim, chunk[0]), lim, chunk[1..]);
    }
  }

  /** Without a parse error, where the reads cut the stream makes no difference. */
  lemma {:induction false} HearIgnoresChunking(s: Scan, lim: Limits, chunks: seq<string>)
    requires NeverErrs(s, lim, Together(chunks))
    ensures Hear(s, lim, chunks) == Heard(FeedChars(s, lim, Together(chunks)), FeedLines(s, lim, Together(chunks)))
    decreases |chunks|
  {
    if chunks != [] {
      var rest := Together(chunks[1..]);
      NeverErrsConcat(s, lim, chunks[0], rest);
      ChunkHeard(s, lim, chunks[0]);
      HearIgnoresChunking(FeedChars(s, lim, chunks[0]), lim, chunks[1..]);
      FeedLinesConcat(s, lim, chunks[0], rest);
      FeedCharsConcat(s, lim, chunks[0], rest);
    }
  }

  // ----- number signs that are lost in a parse error -----

  function Hashes(text: string): nat {
    if text == "" then 0 else (if text[0] == '#' then 1 else 0) + Hashes(text[1..])
  }

  function HashesIn(words: seq<string>): nat {
    if words == [] then 0 else HashesIn(words[..|words| - 1]) + Hashes(words[|words| - 1])
  }

  lemma {:induction false} HashesConcat(a: string, b: string)
    ensures Hashes(a + b) == Hashes(a) + Hashes(b)
  {
    if a == "" {
      assert a + b == b;
    } else {
      assert (a + b)[0] == a[0] && (a + b)[1..] == a[1..] + b;
      HashesConcat(a[1..], b);
    }
  }

  /** The number signs in the words read and in the one being read. */
  function Held(s: Scan): nat {
    HashesIn(s.args) + Hashes(s.word)
  }

  /** Those of the line being read. */
  function Gathered(s: Scan): nat {
    if Stopped(s) then 0 else Held(s)
  }

  lemma SnocHashes(words: seq<string>, w: string)
    ensures HashesIn(words + [w]) == HashesIn(words) + Hashes(w)
  {
    assert (words + [w])[..|words|] == words;
  }

  lemma EndOfWordHashes(s: Scan, lim: Limits)
    ensures Held(EndOfWord(s, lim)) <= Held(s)
  {
    SnocHashes(s.args, s.word);
  }

  lemma AddCharHashes(s: Scan, lim: Limits, c: char)
    ensures Held(AddChar(s, lim, c)) <= Held(s) + Hashes([c])
  {
    HashesConcat(s.word, [c]);
  }

  lemma WordStartHashes(s: Scan, lim: Limits, c: char)
    ensures Held(StepFindWordStart(s, lim, c)) <= Held(s) + Hashes([c])
  {
    if c == '\n' || c == '#' || IsSpace(c) || c == '\\' || c == '"' {
      assert StepFindWordStart(s, lim, c) == s.(state := StepFindWordStart(s, lim, c).state);
    } else {
      var t := AddChar(s, lim, c);
      AddCharHashes(s, lim, c);
      EndOfWordHashes(t, lim);
      assert Held(t.(state := Collect)) == Held(t);
      assert Held(EndOfWord(t, lim).(state := FindWordStart)) == Held(EndOfWord(t, lim));
    }
  }

  lemma CollectHashes(s: Scan, lim: Limits, c: char)
    ensures Held(StepCollect(s, lim, c)) <= Held(s) + Hashes([c])
  {
    var done := EndOfWord(s, lim);
    EndOfWordHashes(s, lim);
    if c == '=' {
      WordStartHashes(done, lim, c);
      assert StepCollect(s, lim, c) == StepFindWordStart(done, lim, c).(state := FindWordStart);
    } else if c == '#' || c == '\n' || IsSpace(c) {
      assert StepCollect(s, lim, c) == done.(state := StepCollect(s, lim, c).state);
    } else {
      AddCharHashes(s, lim, c);
    }
  }

  lemma QuoteHashes(s: Scan, lim: Limits, c: char)
    ensures Held(StepQuoteCollect(s, lim, c)) <= Held(s) + Hashes([c])
  {
    if c == '#' || c == '"' {
      EndOfWordHashes(s, lim);
      var t := StepQuoteCollect(s, lim, c);
      assert t.args == EndOfWord(s, lim).args && t.word == EndOfWord(s, lim).word;
    } else {
      AddCharHashes(s, lim, c);
    }
  }

  /** Every number sign in a line was read as one. */
  lemma StepHashes(s: Scan, lim: Limits, c: char)
    ensures Held(Step(s, lim, c)) <= Held(s) + Hashes([c])
  {
    match s.state
    case FindWordStart => WordStartHashes(s, lim, c);
    case QuoteCollect => QuoteHashes(s, lim, c);
    case Collect => CollectHashes(s, lim, c);
    case _ => AddCharHashes(s, lim, c);
  }

  lemma FeedHashes(s: Scan, lim: Limits, c: char)
    requires WordSettled(s)
    ensures var s' := FeedChar(s, lim, c);
            WordSettled(s') && Gathered(s') <= Gathered(s) + Hashes([c])
            && (s'.state == EndOfLine ==> HashesIn(s'.args) <= Gathered(s) + Hashes([c]))
  {
    StepHashes(if Stopped(s) then Fresh(s) else s, lim, c);
    StepSettles(if Stopped(s) then Fresh(s) else s, lim, c);
  }

  predicate FewHashes(lines: seq<seq<string>>, max: nat) {
    forall i :: 0 <= i < |lines| ==> HashesIn(lines[i]) <= max
  }

  lemma TooManyHashes(lines: seq<seq<string>>, line: seq<string>, max: nat)
    requires FewHashes(lines, max) && HashesIn(line) > max
    ensures line !in lines
  {
  }

  lemma {:induction false} ChunkHashes(s: Scan, lim: Limits, chunk: string, max: nat)
    requires WordSettled(s) && Gathered(s) + Hashes(chunk) <= max
    ensures var h := HearChunk(s, lim, chunk);
            WordSettled(h.scan) && FewHashes(h.lines, max) && Gathered(h.scan) <= Gathered(s) + Hashes(chunk)
    decreases |chunk|
  {
    if chunk != "" {
      assert chunk == [chunk[0]] + chunk[1..];
      HashesConcat([chunk[0]], chunk[1..]);
      FeedHashes(s, lim, chunk[0]);
      ChunkHashes(FeedChar(s, lim, chunk[0]), lim, chunk[1..], max);
    }
  }

  lemma {:induction false} HearHashes(s: Scan, lim: Limits, chunks: seq<string>, max: nat)
    requires WordSettled(s) && Gathered(s) + Hashes(Together(chunks)) <= max
    ensures FewHashes(Hear(s, lim, chunks).lines, max)
    decreases |chunks|
  {
    if chunks != [] {
      HashesConcat(chunks[0], Together(chunks[1..]));
      ChunkHashes(s, lim, chunks[0], max);
      HearHashes(HearChunk(s, lim, chunks[0]).scan, lim, chunks[1..], max);
    }
  }

  /** The chunks that are left when one character has been read from them. */
  lemma {:induction false} FirstHeard(s: Scan, lim: Limits, chunks: seq<string>, c: char, rest: string) returns (later: seq<string>)
    requires Together(chunks) == [c] + rest
    ensures var s' := FeedChar(s, lim, c);
            if s'.state == ParseErr then
              Hashes(Together(later)) <= Hashes(rest) && Hear(s, lim, chunks) == Hear(s', lim, later)
            else
              && Together(later) == rest
              && Hear(s, lim, chunks).lines == (if s'.state == EndOfLine then [s'.args] else []) + Hear(s', lim, later).lines
    decreases |chunks|
  {
    if chunks[0] == "" {
      assert "" + Together(chunks[1..]) == Together(chunks[1..]);
      later := FirstHeard(s, lim, chunks[1..], c, rest);
    } else {
      var more := chunks[0][1..];
      assert chunks[0][0] == (chunks[0] + Together(chunks[1..]))[0] == c;
      assert more + Together(chunks[1..]) == (chunks[0] + Together(chunks[1..]))[1..] == rest;
      if FeedChar(s, lim, c).state == ParseErr {
        later := chunks[1..];
        HashesConcat(more, Together(later));
      } else {
        later := [more] + chunks[1..];
        assert later[1..] == chunks[1..];
        var first := if FeedChar(s, lim, c).state == EndOfLine then [FeedChar(s, lim, c).args] else [];
        Assoc(first, HearChunk(FeedChar(s, lim, c), lim, more).lines, Hear(HearChunk(FeedChar(s, lim, c), lim, more).scan, lim, chunks[1..]).lines);
      }
    }
  }

  /** A text that errs at a number sign: no line that comes of it holds as many as it did. */
  lemma {:induction false} ErringLosesHash(s: Scan, lim: Limits, chunks: seq<string>, a: string, rest: string)
    requires WordSettled(s) && !Stopped(Run(s, lim, a)) && Step(Run(s, lim, a), lim, '#').state == ParseErr
    requires Together(chunks) == a + ("#" + rest)
    ensures FewHashes(Hear(s, lim, chunks).lines, Hashes(rest))
    decreases |a|
  {
    OneLineStep(s, lim, a);
    if a == "" {
      assert a + ("#" + rest) == ['#'] + rest;
      var later := FirstHeard(s, lim, chunks, '#', rest);
      ErredHashes(s, lim, later, Hashes(rest));
    } else {
      var s' := Step(s, lim, a[0]);
      assert a + ("#" + rest) == [a[0]] + (a[1..] + ("#" + rest));
      var later := FirstHeard(s, lim, chunks, a[0], a[1..] + ("#" + rest));
      OneLineStep(s', lim, a[1..]);
      StepSettles(s, lim, a[0]);
      ErringLosesHash(s', lim, later, a[1..], rest);
      assert [] + Hear(s', lim, later).lines == Hear(s', lim, later).lines;
    }
  }

  lemma ErredHashes(s: Scan, lim: Limits, later: seq<string>, max: nat)
    requires WordSettled(s) && !Stopped(s) && Step(s, lim, '#').state == ParseErr && Hashes(Together(later)) <= max
    ensures FewHashes(Hear(Step(s, lim, '#'), lim, later).lines, max)
  {
    StepSettles(s, lim, '#');
    HearHashes(Step(s, lim, '#'), lim, later, max);
  }

  // ----- what it answers -----

  datatype Variable = Variable(name: string, value: string)

  /** The variable as the clients are to see it: while a shutdown is forced its status says so. */
  function Shown(v: Variable, fsd: bool): Variable {
    if fsd && SameIgnoringCase(v.name, "ups.status") then Variable(v.name, "FSD " + v.value) else v
  }

  function AllShown(vs: seq<Variable>, fsd: bool): (r: seq<Variable>)
    ensures |r| == |vs| && forall i :: 0 <= i < |vs| ==> r[i] == Shown(vs[i], fsd)
  {
    if vs == [] then [] else [Shown(vs[0], fsd)] + AllShown(vs[1..], fsd)
  }

  /** The row that shows a variable: the value encoded and in quotes. */
  function Row(dev: string, v: Variable): string {
    "VAR " + dev + (" " + v.name + " " + Quoted(v.value))
  }

  function Rows(dev: string, vs: seq<Variable>): (rows: seq<string>)
    ensures |rows| == |vs| && forall i :: 0 <= i < |vs| ==> rows[i] == Row(dev, vs[i])
  {
    if vs == [] then [] else [Row(dev, vs[0])] + Rows(dev, vs[1..])
  }

  /** The line as upsd prints it, from the value the driver set. */
  function ServerRow(dev: string, v: Variable, fsd: bool): string {
    if fsd && SameIgnoringCase(v.name, "ups.status")
    then "VAR " + dev + " " + v.name + " \"FSD " + Encode(v.value) + "\""
    else "VAR " + dev + " " + v.name + " \"" + Encode(v.value) + "\""
  }

  function ServerRows(dev: string, vs: seq<Variable>, fsd: bool): seq<string> {
    if vs == [] then [] else [ServerRow(dev, vs[0], fsd)] + ServerRows(dev, vs[1..], fsd)
  }

  lemma ServerRowShows(dev: string, v: Variable, fsd: bool)
    ensures ServerRow(dev, v, fsd) == Row(dev, Shown(v, fsd))
  {
    if fsd && SameIgnoringCase(v.name, "ups.status") {
      EncodeConcat("FSD ", v.value);
      EncodeFsd();
      StatusRow(dev, v.name, Encode(v.value));
    } else {
      PlainRow(dev, v.name, Encode(v.value));
    }
  }

  lemma PlainRow(dev: string, name: string, value: string)
    ensures "VAR " + dev + " " + name + " \"" + value + "\"" == "VAR " + dev + (" " + name + " " + ("\"" + value + "\""))
  {
    var tail := value + "\"";
    assert " \"" == " " + "\"";
    assert " " + name + " " + ("\"" + tail) == " " + name + " \"" + tail;
  }

  lemma StatusRow(dev: string, name: string, value: string)
    ensures "VAR " + dev + " " + name + " \"FSD " + value + "\"" ==
            "VAR " + dev + (" " + name + " " + ("\"" + ("FSD " + value) + "\""))
  {
    PlainRow(dev, name, "FSD " + value);
    assert " \"FSD " + value == " \"" + ("FSD " + value);
  }

  lemma EncodeFsd()
    ensures Encode("FSD ") == "FSD "
  {
    assert "FSD "[1..] == "SD " && "SD "[1..] == "D " && "D "[1..] == " " && " "[1..] == "";
    assert Encode(" ") == [' '] + "" == " ";
    assert Encode("D ") == ['D'] + " " == "D ";
    assert Encode("SD ") == ['S'] + "D " == "SD ";
  }

  lemma {:induction false} ServerRowsShow(dev: string, vs: seq<Variable>, fsd: bool)
    ensures ServerRows(dev, vs, fsd) == Rows(dev, AllShown(vs, fsd))
  {
    if vs != [] {
      ServerRowShows(dev, vs[0], fsd);
      ServerRowsShow(dev, vs[1..], fsd);
      assert AllShown(vs, fsd)[1..] == AllShown(vs[1..], fsd);
    }
  }
}
