// The configuration-line scanner of common/parseconf.c as a function of the characters read:
// what one character does to the scan, what the three entry points make of a line, and the
// encoder that is meant to be the scanner's inverse.
module ParseConf {
  import opened Text

  datatype State =
    | FindWordStart
    | FindEol
    | QuoteCollect
    | QcLiteral
    | Collect
    | CollectLiteral
    | EndOfLine
    | ParseErr

  /** Limits on the number of arguments and the length of one word; zero means unlimited. */
  datatype Limits = Limits(args: nat, wordLen: nat)

  /** What a context has read so far: the word being built and the words already complete. */
  datatype Scan = Scan(state: State, word: string, args: seq<string>, error: bool)

  const IDLE: Scan := Scan(FindWordStart, "", [], false)

  /** The characters a word may hold. */
  predicate Printable(c: char) {
    ' ' <= c <= '\U{7f}'
  }

  predicate AllPrintable(s: string) {
    forall i :: 0 <= i < |s| ==> Printable(s[i])
  }

  /** The characters that pconf_encode puts a backslash before. */
  predicate Special(c: char) {
    c == '#' || c == '\\' || c == '"'
  }

  // ----- one character -----

  function AddChar(s: Scan, lim: Limits, c: char): Scan {
    if !Printable(c) then s
    else if lim.wordLen != 0 && |s.word| >= lim.wordLen then s
    else s.(word := s.word + [c])
  }

  function EndOfWord(s: Scan, lim: Limits): Scan {
    if lim.args != 0 && |s.args| >= lim.args then s.(word := "")
    else s.(word := "", args := s.args + [s.word])
  }

  function StepFindWordStart(s: Scan, lim: Limits, c: char): Scan {
    if c == '\n' then s.(state := EndOfLine)
    else if c == '#' then s.(state := FindEol)
    else if IsSpace(c) then s.(state := FindWordStart)
    else if c == '\\' then s.(state := CollectLiteral)
    else if c == '"' then s.(state := QuoteCollect)
    else if c == '=' then EndOfWord(AddChar(s, lim, c), lim).(state := FindWordStart)
    else AddChar(s, lim, c).(state := Collect)
  }

  function StepFindEol(s: Scan, c: char): Scan {
    s.(state := if c == '\n' then EndOfLine else FindEol)
  }

  function StepQuoteCollect(s: Scan, lim: Limits, c: char): Scan {
    if c == '#' then EndOfWord(s, lim).(state := ParseErr, error := true)
    else if c == '"' then EndOfWord(s, lim).(state := FindWordStart)
    else if c == '\\' then s.(state := QcLiteral)
    else AddChar(s, lim, c).(state := QuoteCollect)
  }

  function StepQcLiteral(s: Scan, lim: Limits, c: char): Scan {
    if c == '\n' then s.(state := QuoteCollect) else AddChar(s, lim, c).(state := QuoteCollect)
  }

  function StepCollect(s: Scan, lim: Limits, c: char): Scan {
    if c == '#' then EndOfWord(s, lim).(state := FindEol)
    else if c == '\n' then EndOfWord(s, lim).(state := EndOfLine)
    else if IsSpace(c) then EndOfWord(s, lim).(state := FindWordStart)
    else if c == '=' then StepFindWordStart(EndOfWord(s, lim), lim, c).(state := FindWordStart)
    else if c == '\\' then s.(state := CollectLiteral)
    else AddChar(s, lim, c).(state := Collect)
  }

  function StepCollectLiteral(s: Scan, lim: Limits, c: char): Scan {
    if c == '\n' then s.(state := Collect) else AddChar(s, lim, c).(state := Collect)
  }

  /** parse_char: a finished line ignores further characters. */
  function Step(s: Scan, lim: Limits, c: char): Scan {
    match s.state
    case FindWordStart => StepFindWordStart(s, lim, c)
    case FindEol => StepFindEol(s, c)
    case QuoteCollect => StepQuoteCollect(s, lim, c)
    case QcLiteral => StepQcLiteral(s, lim, c)
    case Collect => StepCollect(s, lim, c)
    case CollectLiteral => StepCollectLiteral(s, lim, c)
    case EndOfLine => s
    case ParseErr => s
  }

  lemma StepKeepsArgs(s: Scan, lim: Limits, c: char)
    ensures |s.args| <= |Step(s, lim, c).args|
  {
  }

  predicate Stopped(s: Scan) {
    s.state == EndOfLine || s.state == ParseErr
  }

  function Run(s: Scan, lim: Limits, text: string): Scan
    decreases |text|
  {
    if text == "" then s else Run(Step(s, lim, text[0]), lim, text[1..])
  }

  lemma {:induction false} RunConcat(s: Scan, lim: Limits, a: string, b: string)
    ensures Run(s, lim, a + b) == Run(Run(s, lim, a), lim, b)
    decreases |a|
  {
    if a == "" {
      assert a + b == b;
    } else {
      assert (a + b)[0] == a[0] && (a + b)[1..] == a[1..] + b;
      RunConcat(Step(s, lim, a[0]), lim, a[1..], b);
    }
  }

  lemma RunOne(s: Scan, lim: Limits, c: char)
    ensures Run(s, lim, [c]) == Step(s, lim, c)
  {
    assert [c][1..] == "";
  }

  lemma {:induction false} RunStopped(s: Scan, lim: Limits, text: string)
    requires Stopped(s)
    ensures Run(s, lim, text) == s
    decreases |text|
  {
    if text != "" {
      RunStopped(s, lim, text[1..]);
    }
  }

  // ----- the three entry points -----

  function Fresh(s: Scan): Scan {
    s.(state := FindWordStart, args := [])
  }

  /** Ties off a word that is still being built when the input is over. */
  function TieOff(s: Scan, lim: Limits): Scan {
    if s.word != "" then EndOfWord(s, lim) else s
  }

  /** pconf_line */
  function ParseLine(s: Scan, lim: Limits, line: string): Scan {
    var r := Run(Fresh(s), lim, line);
    if Stopped(r) then r else TieOff(r, lim)
  }

  /** pconf_char */
  function FeedChar(s: Scan, lim: Limits, c: char): Scan {
    Step(if Stopped(s) then Fresh(s) else s, lim, c)
  }

  function FeedChars(s: Scan, lim: Limits, text: string): Scan
    decreases |text|
  {
    if text == "" then s else FeedChars(FeedChar(s, lim, text[0]), lim, text[1..])
  }

  datatype FileResult = FileResult(ok: bool, scan: Scan, rest: string)

  /** The loop of pconf_file_next: reads up to the end of a line or of the input. */
  function ReadLine(s: Scan, lim: Limits, input: string): (r: FileResult)
    ensures r.ok <==> Stopped(r.scan)
    decreases |input|
  {
    if Stopped(s) then FileResult(true, s, input)
    else if input == "" then FileResult(false, s, "")
    else ReadLine(Step(s, lim, input[0]), lim, input[1..])
  }

  /** pconf_file_next */
  function FileNext(s: Scan, lim: Limits, input: string): FileResult {
    var r := ReadLine(Fresh(s), lim, input);
    if r.ok then r
    else if r.scan.args != [] then FileResult(true, TieOff(r.scan, lim), "")
    else r
  }

  /** The argument slots after a line of `args` has been read into them: those beyond keep what
      earlier lines left. */
  function SlotsAfter(slots: seq<string>, args: seq<string>): seq<string> {
    args + if |args| < |slots| then slots[|args|..] else []
  }

  // ----- the word buffer is empty between words -----

  predicate WordSettled(s: Scan) {
    s.state in {FindWordStart, FindEol, EndOfLine, ParseErr} ==> s.word == ""
  }

  lemma StepSettles(s: Scan, lim: Limits, c: char)
    requires WordSettled(s)
    ensures WordSettled(Step(s, lim, c))
  {
  }

  lemma {:induction false} RunSettles(s: Scan, lim: Limits, text: string)
    requires WordSettled(s)
    ensures WordSettled(Run(s, lim, text))
    decreases |text|
  {
    if text != "" {
      StepSettles(s, lim, text[0]);
      RunSettles(Step(s, lim, text[0]), lim, text[1..]);
    }
  }

  /** However a line is handed over, its end leaves no part of a word behind for the next line. */
  lemma LineBoundaryLeavesNoWord(s: Scan, lim: Limits, line: string)
    requires s.word == ""
    ensures ParseLine(s, lim, line).word == ""
    ensures var f := FileNext(s, lim, line); f.ok ==> f.scan.word == ""
    ensures var c := Run(Fresh(s), lim, line); Stopped(c) ==> c.word == ""
  {
    RunSettles(Fresh(s), lim, line);
    ReadLineIsRun(Fresh(s), lim, line);
  }

  lemma {:induction false} ReadLineIsRun(s: Scan, lim: Limits, input: string)
    ensures ReadLine(s, lim, input).scan == Run(s, lim, input)
    decreases |input|
  {
    if Stopped(s) {
      RunStopped(s, lim, input);
    } else if input != "" {
      ReadLineIsRun(Step(s, lim, input[0]), lim, input[1..]);
    }
  }

  // ----- does it matter how a line is fed? -----

  /** pconf_line does not stop early: the line holds no end of line of its own and no error. */
  predicate OneLine(s: Scan, lim: Limits, line: string) {
    !Stopped(Run(Fresh(s), lim, line))
  }

  /** The scan ends where a newline would end it in the same way as the end of the string. */
  predicate EndsCleanly(r: Scan, lim: Limits) {
    || r.state == FindWordStart
    || r.state == FindEol
    || (r.state == Collect && (r.word != "" || (lim.args != 0 && |r.args| >= lim.args)))
  }

  lemma {:induction false} OneLineStep(s: Scan, lim: Limits, text: string)
    requires !Stopped(Run(s, lim, text))
    ensures !Stopped(s)
  {
    if Stopped(s) {
      RunStopped(s, lim, text);
    }
  }

  lemma {:induction false} FeedCharsIsRun(s: Scan, lim: Limits, text: string)
    requires !Stopped(Run(s, lim, text))
    ensures FeedChars(s, lim, text) == Run(s, lim, text)
    decreases |text|
  {
    OneLineStep(s, lim, text);
    if text != "" {
      FeedCharsIsRun(Step(s, lim, text[0]), lim, text[1..]);
    }
  }

  lemma {:induction false} FeedCharsConcat(s: Scan, lim: Limits, a: string, b: string)
    ensures FeedChars(s, lim, a + b) == FeedChars(FeedChars(s, lim, a), lim, b)
    decreases |a|
  {
    if a == "" {
      assert a + b == b;
    } else {
      assert (a + b)[0] == a[0] && (a + b)[1..] == a[1..] + b;
      FeedCharsConcat(FeedChar(s, lim, a[0]), lim, a[1..], b);
    }
  }

  lemma {:induction false} ReadLineStops(s: Scan, lim: Limits, line: string, c: char, more: string)
    requires !Stopped(Run(s, lim, line)) && Stopped(Step(Run(s, lim, line), lim, c))
    ensures ReadLine(s, lim, line + [c] + more) == FileResult(true, Step(Run(s, lim, line), lim, c), more)
    decreases |line|
  {
    OneLineStep(s, lim, line);
    var input := line + [c] + more;
    if line == "" {
      assert input[0] == c && input[1..] == more;
    } else {
      assert input[0] == line[0] && input[1..] == line[1..] + [c] + more;
      ReadLineStops(Step(s, lim, line[0]), lim, line[1..], c, more);
    }
  }

  /** The promise of the file's header comment, with its exact condition: a line handed over as a
      string and the same line handed over character by character with a newline give the same
      arguments exactly when the scan ends cleanly. */
  lemma SameHoweverFed(s: Scan, lim: Limits, line: string)
    requires s.word == "" && OneLine(s, lim, line)
    ensures var r := Run(Fresh(s), lim, line);
            var viaChars := FeedChars(Fresh(s), lim, line + "\n");
            (viaChars.state == EndOfLine && viaChars.args == ParseLine(s, lim, line).args) <==> EndsCleanly(r, lim)
  {
    FeedCharsConcat(Fresh(s), lim, line, "\n");
    FeedCharsIsRun(Fresh(s), lim, line);
    var r := Run(Fresh(s), lim, line);
    RunSettles(Fresh(s), lim, line);
    assert FeedChars(r, lim, "\n") == FeedChar(r, lim, '\n') by { assert "\n"[1..] == ""; }
  }

  /** A file line is fed like characters, and what follows its newline is left unread. */
  lemma FileFedLikeChars(s: Scan, lim: Limits, line: string, more: string)
    requires s.word == "" && OneLine(s, lim, line) && EndsCleanly(Run(Fresh(s), lim, line), lim)
    ensures var f := FileNext(s, lim, line + "\n" + more);
            && f.ok && f.rest == more && f.scan.state == EndOfLine
            && f.scan == FeedChars(Fresh(s), lim, line + "\n")
            && f.scan.args == ParseLine(s, lim, line).args
  {
    var r := Run(Fresh(s), lim, line);
    ReadLineStops(Fresh(s), lim, line, '\n', more);
    SameHoweverFed(s, lim, line);
    FeedCharsConcat(Fresh(s), lim, line, "\n");
    FeedCharsIsRun(Fresh(s), lim, line);
    assert FeedChars(r, lim, "\n") == FeedChar(r, lim, '\n') by { assert "\n"[1..] == ""; }
  }

  /** A parse error ends the line for all three entry points, but only pconf_line drops what comes
      behind it: the other two go on there as if a line began. */
  lemma AfterParseError(s: Scan, lim: Limits, front: string, c: char, rest: string, more: string)
    requires !Stopped(Run(Fresh(s), lim, front)) && Step(Run(Fresh(s), lim, front), lim, c).state == ParseErr
    ensures var e := Step(Run(Fresh(s), lim, front), lim, c);
            && ParseLine(s, lim, front + ([c] + rest)) == e
            && FeedChars(Fresh(s), lim, front + ([c] + rest)) == FeedChars(e, lim, rest)
            && FeedLines(Fresh(s), lim, front + ([c] + rest)) == FeedLines(Fresh(e), lim, rest)
            && FileNext(s, lim, front + [c] + (rest + more)) == FileResult(true, e, rest + more)
  {
    var r := Run(Fresh(s), lim, front);
    var e := Step(r, lim, c);
    RunConcat(Fresh(s), lim, front, [c] + rest);
    assert ([c] + rest)[1..] == rest;
    RunStopped(e, lim, rest);
    FeedCharsConcat(Fresh(s), lim, front, [c] + rest);
    FeedCharsIsRun(Fresh(s), lim, front);
    FeedLinesConcat(Fresh(s), lim, front, [c] + rest);
    UnstoppedFeedsNoLine(Fresh(s), lim, front);
    assert FeedLines(r, lim, [c] + rest) == [] + FeedLines(e, lim, rest);
    ReadLineStops(Fresh(s), lim, front, c, rest + more);
  }

  /** Without a final newline the file entry point agrees with pconf_line exactly when some word
      was already complete at the end of the input; otherwise it reports nothing at all and the
      unfinished word stays in the buffer. */
  lemma LastLineWithoutNewline(s: Scan, lim: Limits, line: string)
    requires s.word == "" && OneLine(s, lim, line)
    ensures var r := Run(Fresh(s), lim, line);
            var f := FileNext(s, lim, line);
            && f.rest == ""
            && (f.ok <==> r.args != [])
            && (f.ok ==> f.scan == ParseLine(s, lim, line))
            && (!f.ok ==> f.scan.args == [] && f.scan.word == r.word)
  {
    ReadLineIsRun(Fresh(s), lim, line);
    ReadLineUnstopped(Fresh(s), lim, line);
  }

  lemma {:induction false} ReadLineUnstopped(s: Scan, lim: Limits, input: string)
    requires !Stopped(Run(s, lim, input))
    ensures !ReadLine(s, lim, input).ok && ReadLine(s, lim, input).rest == ""
    decreases |input|
  {
    OneLineStep(s, lim, input);
    if input != "" {
      ReadLineUnstopped(Step(s, lim, input[0]), lim, input[1..]);
    }
  }

  /** In a line of printable characters an unquoted word under construction is never empty, so
      only an open quote or a pending backslash can make the entry points differ. */
  lemma {:induction false} PrintableWordGrows(s: Scan, lim: Limits, text: string)
    requires AllPrintable(text)
    requires s.state == Collect ==> s.word != ""
    ensures var r := Run(s, lim, text); r.state == Collect ==> r.word != ""
    decreases |text|
  {
    if text != "" {
      assert Printable(text[0]);
      PrintableWordGrows(Step(s, lim, text[0]), lim, text[1..]);
    }
  }

  lemma PrintableLineSameHoweverFed(s: Scan, lim: Limits, line: string, more: string)
    requires s.word == "" && AllPrintable(line) && OneLine(s, lim, line)
    ensures var r := Run(Fresh(s), lim, line);
            var viaLine := ParseLine(s, lim, line);
            var viaChars := FeedChars(Fresh(s), lim, line + "\n");
            var viaFile := FileNext(s, lim, line + "\n" + more);
            if r.state in {QuoteCollect, QcLiteral, CollectLiteral}
            then viaChars.state != EndOfLine
            else && viaChars.state == EndOfLine && viaFile.ok && viaFile.rest == more
                 && viaLine.args == viaChars.args == viaFile.scan.args
                 && viaLine.word == viaChars.word == viaFile.scan.word == ""
  {
    var r := Run(Fresh(s), lim, line);
    PrintableWordGrows(Fresh(s), lim, line);
    SameHoweverFed(s, lim, line);
    LineBoundaryLeavesNoWord(s, lim, line);
    FeedCharsConcat(Fresh(s), lim, line, "\n");
    FeedCharsIsRun(Fresh(s), lim, line);
    assert FeedChars(r, lim, "\n") == FeedChar(r, lim, '\n') by { assert "\n"[1..] == ""; }
    RunSettles(Fresh(s), lim, line);
    if r.state !in {QuoteCollect, QcLiteral, CollectLiteral} {
      FileFedLikeChars(s, lim, line, more);
    }
  }

  // ----- the lines of a stream of characters -----

  /** The lines a stream of bytes holds when it is fed without any interruption. */
  function FeedLines(s: Scan, lim: Limits, bytes: string): seq<seq<string>>
    decreases |bytes|
  {
    if bytes == "" then []
    else
      var s' := FeedChar(s, lim, bytes[0]);
      (if s'.state == EndOfLine then [s'.args] else []) + FeedLines(s', lim, bytes[1..])
  }

  lemma {:induction false} FeedLinesConcat(s: Scan, lim: Limits, a: string, b: string)
    ensures FeedLines(s, lim, a + b) == FeedLines(s, lim, a) + FeedLines(FeedChars(s, lim, a), lim, b)
    decreases |a|
  {
    if a == "" {
      assert a + b == b;
    } else {
      assert (a + b)[0] == a[0] && (a + b)[1..] == a[1..] + b;
      FeedLinesConcat(FeedChar(s, lim, a[0]), lim, a[1..], b);
    }
  }

  lemma {:induction false} UnstoppedFeedsNoLine(s: Scan, lim: Limits, text: string)
    requires !Stopped(Run(s, lim, text))
    ensures FeedLines(s, lim, text) == []
    decreases |text|
  {
    OneLineStep(s, lim, text);
    if text != "" {
      OneLineStep(Step(s, lim, text[0]), lim, text[1..]);
      UnstoppedFeedsNoLine(Step(s, lim, text[0]), lim, text[1..]);
    }
  }

  /** The lines in a text that stays within one line until its final newline. */
  lemma FeedLineThenNewline(s: Scan, lim: Limits, text: string)
    requires !Stopped(Run(s, lim, text))
    ensures var s' := Step(Run(s, lim, text), lim, '\n');
            FeedLines(s, lim, text + "\n") == if s'.state == EndOfLine then [s'.args] else []
  {
    FeedLinesConcat(s, lim, text, "\n");
    UnstoppedFeedsNoLine(s, lim, text);
    FeedCharsIsRun(s, lim, text);
    var r := Run(s, lim, text);
    assert FeedLines(r, lim, "\n") == if FeedChar(r, lim, '\n').state == EndOfLine then [FeedChar(r, lim, '\n').args] else [] by {
      assert "\n"[1..] == "";
      assert FeedLines(FeedChar(r, lim, '\n'), lim, "") == [];
    }
  }

  lemma FeedFresh(s: Scan, lim: Limits, text: string)
    requires BetweenLines(s) && text != ""
    ensures FeedLines(s, lim, text) == FeedLines(Fresh(s), lim, text)
  {
  }

  /** A connection between two lines. */
  predicate BetweenLines(s: Scan) {
    s.word == "" && (Stopped(s) || (s.state == FindWordStart && s.args == []))
  }

  // ----- the encoder -----

  function EncodeChar(c: char): (r: string)
    ensures 1 <= |r| <= 2 && r[|r| - 1] == c
  {
    if Special(c) then ['\\', c] else [c]
  }

  /** What pconf_encode writes when there is room for everything. */
  function Encode(s: string): (r: string)
    ensures |s| <= |r|
  {
    if s == "" then "" else EncodeChar(s[0]) + Encode(s[1..])
  }

  function Quoted(s: string): string {
    "\"" + Encode(s) + "\""
  }

  lemma {:induction false} EncodeConcat(a: string, b: string)
    ensures Encode(a + b) == Encode(a) + Encode(b)
  {
    if a == "" {
      assert a + b == b;
    } else {
      assert (a + b)[0] == a[0] && (a + b)[1..] == a[1..] + b;
      EncodeConcat(a[1..], b);
    }
  }

  // ----- the scanner undoes the encoder -----

  /** A word as the word length limit lets it through. */
  function Fit(w: string, lim: Limits): string {
    if lim.wordLen == 0 then w else Clip(w, lim.wordLen)
  }

  lemma RunEncodedChar(s: Scan, lim: Limits, before: string, c: char)
    requires s.state == QuoteCollect || (s.state == Collect && c != ' ' && c != '=')
    requires s.word == Fit(before, lim) && Printable(c)
    ensures Run(s, lim, EncodeChar(c)) == s.(word := Fit(before + [c], lim))
  {
    if Special(c) {
      assert EncodeChar(c) == ['\\'] + [c];
      RunConcat(s, lim, ['\\'], [c]);
      RunOne(s, lim, '\\');
      RunOne(Step(s, lim, '\\'), lim, c);
    } else {
      RunOne(s, lim, c);
    }
  }

  /** Reading the encoding of a printable text extends the word by that text, as far as it fits. */
  lemma {:induction false} RunEncoded(s: Scan, lim: Limits, before: string, w: string)
    requires s.state == QuoteCollect || (s.state == Collect && ' ' !in w && '=' !in w)
    requires s.word == Fit(before, lim) && AllPrintable(w)
    ensures Run(s, lim, Encode(w)) == s.(word := Fit(before + w, lim))
    decreases |w|
  {
    if w == "" {
      assert before + w == before;
    } else {
      var c := w[0];
      assert Printable(c);
      assert c in w;
      var next := s.(word := Fit(before + [c], lim));
      RunEncodedChar(s, lim, before, c);
      RunConcat(s, lim, EncodeChar(c), Encode(w[1..]));
      RunEncoded(next, lim, before + [c], w[1..]);
      assert before + [c] + w[1..] == before + w;
    }
  }

  /** Appends a complete word unless the argument limit is reached. */
  function PutArg(s: Scan, lim: Limits, w: string): Scan {
    EndOfWord(s.(word := Fit(w, lim)), lim).(state := FindWordStart)
  }

  lemma RunQuoted(s: Scan, lim: Limits, w: string)
    requires s.state == FindWordStart && s.word == "" && AllPrintable(w)
    ensures Run(s, lim, Quoted(w)) == PutArg(s, lim, w)
  {
    var inQuotes := s.(state := QuoteCollect);
    RunConcat(s, lim, "\"" + Encode(w), "\"");
    RunConcat(s, lim, "\"", Encode(w));
    RunOne(s, lim, '"');
    RunEncoded(inQuotes, lim, "", w);
    assert "" + w == w;
    RunOne(inQuotes.(word := Fit(w, lim)), lim, '"');
  }

  // ----- encodings cut short -----

  lemma {:induction false} EncodingCutAnywhere(s: Scan, lim: Limits, w: string, k: nat)
    requires s.state == QuoteCollect && k <= |Encode(w)|
    ensures var r := Run(s, lim, Encode(w)[..k]); r.state in {QuoteCollect, QcLiteral} && r.args == s.args
    decreases |w|
  {
    if k > 0 {
      var e := Encode(w)[..k];
      var c := EncodeChar(w[0]);
      if k < |c| {
        assert e == ['\\'];
        RunOne(s, lim, '\\');
      } else {
        assert e == c + Encode(w[1..])[..k - |c|];
        RunConcat(s, lim, c, Encode(w[1..])[..k - |c|]);
        EncodedCharStaysQuoted(s, lim, w[0]);
        EncodingCutAnywhere(Run(s, lim, c), lim, w[1..], k - |c|);
      }
    }
  }

  lemma EncodedCharStaysQuoted(s: Scan, lim: Limits, c: char)
    requires s.state == QuoteCollect
    ensures var r := Run(s, lim, EncodeChar(c)); r.state == QuoteCollect && r.args == s.args
  {
    if Special(c) {
      assert EncodeChar(c) == ['\\'] + [c];
      RunConcat(s, lim, ['\\'], [c]);
      RunOne(s, lim, '\\');
      RunOne(Step(s, lim, '\\'), lim, c);
    } else {
      RunOne(s, lim, c);
    }
  }

  lemma QuotedCutAnywhere(s: Scan, lim: Limits, w: string, k: nat)
    requires s.state == FindWordStart && k < |Quoted(w)|
    ensures var r := Run(s, lim, Quoted(w)[..k]);
            r.state in {FindWordStart, QuoteCollect, QcLiteral} && r.args == s.args
  {
    if k > 0 {
      var inner := Encode(w)[..k - 1];
      assert Quoted(w)[..k] == "\"" + inner;
      RunConcat(s, lim, "\"", inner);
      RunOne(s, lim, '"');
      EncodingCutAnywhere(s.(state := QuoteCollect), lim, w, k - 1);
    }
  }

  // ----- words that need no quotes -----

  /** A word that means itself without quotes and without escapes. */
  predicate Plain(w: string) {
    w != "" && forall i :: 0 <= i < |w| ==> Printable(w[i]) && !Special(w[i]) && w[i] != ' ' && w[i] != '='
  }

  /** Collecting an unquoted word without special characters */
  lemma {:induction false} RunPlain(s: Scan, lim: Limits, before: string, w: string)
    requires s.state == Collect && s.word == Fit(before, lim)
    requires w == "" || Plain(w)
    ensures Run(s, lim, w) == s.(word := Fit(before + w, lim))
    decreases |w|
  {
    if w == "" {
      assert before + w == before;
    } else {
      assert Printable(w[0]) && !Special(w[0]);
      assert Step(s, lim, w[0]) == s.(word := Fit(before + [w[0]], lim));
      RunPlain(s.(word := Fit(before + [w[0]], lim)), lim, before + [w[0]], w[1..]);
      assert before + [w[0]] + w[1..] == before + w;
    }
  }

  lemma RunPlainWord(s: Scan, lim: Limits, w: string)
    requires s.state == FindWordStart && s.word == "" && Plain(w)
    ensures Run(s, lim, w) == s.(state := Collect, word := Fit(w, lim))
    ensures Run(s, lim, w + " ") == PutArg(s, lim, w)
  {
    var first := s.(state := Collect, word := Fit([w[0]], lim));
    assert Printable(w[0]) && !Special(w[0]);
    assert Step(s, lim, w[0]) == first;
    RunPlain(first, lim, [w[0]], w[1..]);
    assert [w[0]] + w[1..] == w;
    RunConcat(s, lim, w, " ");
    RunOne(s.(state := Collect, word := Fit(w, lim)), lim, ' ');
  }

  // ----- a line of quoted words -----

  /** The encodings of the words, each in quotes, separated by single spaces. */
  function QuoteLine(ws: seq<string>): string {
    if ws == [] then ""
    else if |ws| == 1 then Quoted(ws[0])
    else Quoted(ws[0]) + " " + QuoteLine(ws[1..])
  }

  /** The words as the limits let them through: those for which there is still room after `taken`
      earlier ones, each cut to length. */
  function FitAll(ws: seq<string>, lim: Limits, taken: nat): seq<string> {
    if ws == [] || (lim.args != 0 && taken >= lim.args) then []
    else [Fit(ws[0], lim)] + FitAll(ws[1..], lim, taken + 1)
  }

  lemma PutArgFits(s: Scan, lim: Limits, ws: seq<string>)
    requires ws != [] && s.word == "" && s.state == FindWordStart
    ensures var s' := PutArg(s, lim, ws[0]);
            && s'.state == FindWordStart && s'.word == "" && s'.error == s.error
            && s'.args + FitAll(ws[1..], lim, |s'.args|) == s.args + FitAll(ws, lim, |s.args|)
  {
    var s' := PutArg(s, lim, ws[0]);
    var w := [Fit(ws[0], lim)];
    if lim.args != 0 && |s.args| >= lim.args {
    } else {
      assert s.args + w + FitAll(ws[1..], lim, |s'.args|) == s.args + (w + FitAll(ws[1..], lim, |s'.args|));
    }
  }

  lemma {:induction false} RunQuoteLine(s: Scan, lim: Limits, ws: seq<string>)
    requires s.state == FindWordStart && s.word == ""
    requires forall w :: w in ws ==> AllPrintable(w)
    ensures Run(s, lim, QuoteLine(ws)) == s.(args := s.args + FitAll(ws, lim, |s.args|))
    decreases |ws|
  {
    if ws == [] {
      assert s.args + [] == s.args;
    } else {
      var s' := PutArg(s, lim, ws[0]);
      RunQuoted(s, lim, ws[0]);
      PutArgFits(s, lim, ws);
      if |ws| == 1 {
        assert s'.args + [] == s'.args;
      } else {
        RunConcat(s, lim, Quoted(ws[0]) + " ", QuoteLine(ws[1..]));
        RunConcat(s, lim, Quoted(ws[0]), " ");
        RunOne(s', lim, ' ');
        RunQuoteLine(s', lim, ws[1..]);
      }
    }
  }

  predicate WithinLimits(ws: seq<string>, lim: Limits) {
    && (lim.args == 0 || |ws| <= lim.args)
    && (lim.wordLen == 0 || forall w :: w in ws ==> |w| <= lim.wordLen)
  }

  lemma {:induction false} FitAllExactly(ws: seq<string>, lim: Limits, taken: nat)
    requires lim.args == 0 || taken <= lim.args
    ensures FitAll(ws, lim, taken) == ws <==>
            && (lim.args == 0 || taken + |ws| <= lim.args)
            && (lim.wordLen == 0 || forall w :: w in ws ==> |w| <= lim.wordLen)
    decreases |ws|
  {
    if ws != [] && !(lim.args != 0 && taken >= lim.args) {
      var rest := FitAll(ws[1..], lim, taken + 1);
      FitAllExactly(ws[1..], lim, taken + 1);
      assert FitAll(ws, lim, taken)[1..] == rest;
      assert ws == [ws[0]] + ws[1..];
      assert forall w :: w in ws <==> w == ws[0] || w in ws[1..];
    }
  }

  /** Plain words, each followed by a space. */
  function PlainLine(ws: seq<string>): string {
    if ws == [] then "" else ws[0] + " " + PlainLine(ws[1..])
  }

  lemma {:induction false} RunPlainLine(s: Scan, lim: Limits, ws: seq<string>)
    requires s.state == FindWordStart && s.word == ""
    requires forall w :: w in ws ==> Plain(w)
    ensures Run(s, lim, PlainLine(ws)) == s.(args := s.args + FitAll(ws, lim, |s.args|))
    decreases |ws|
  {
    if ws == [] {
      assert s.args + [] == s.args;
    } else {
      RunPlainWord(s, lim, ws[0]);
      PutArgFits(s, lim, ws);
      RunConcat(s, lim, ws[0] + " ", PlainLine(ws[1..]));
      RunPlainLine(PutArg(s, lim, ws[0]), lim, ws[1..]);
    }
  }

  /** Parsing undoes quoting, whatever the context parsed before: the line of quoted encodings
      yields the words themselves, cut to the limits in force, so unchanged exactly when they fit. */
  lemma ParseUndoesQuoting(s: Scan, lim: Limits, ws: seq<string>)
    requires s.word == "" && forall w :: w in ws ==> AllPrintable(w)
    ensures ParseLine(s, lim, QuoteLine(ws)) == Scan(FindWordStart, "", FitAll(ws, lim, 0), s.error)
    ensures ParseLine(s, lim, QuoteLine(ws)).args == ws <==> WithinLimits(ws, lim)
  {
    RunQuoteLine(Fresh(s), lim, ws);
    FitAllExactly(ws, lim, 0);
  }
}
