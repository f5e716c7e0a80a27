// The client half of clients/upssched.c: the message sendcmd builds in its two fixed buffers, and
// what becomes of it on the other side of the socket.
module UpsSchedClient {
  import opened Text
  import opened ParseConf
  import opened ParseConfContext
  import opened Tokens
  import opened UpsSched

  const ENC_SIZE: nat := SMALLBUF + 8

  /** The bytes sendcmd writes. */
  function Message(cmd: string, arg1: string, arg2: Option<string>): string {
    var first := Clip(cmd + " \"" + EncodedIn(arg1, ENC_SIZE) + "\"", SMALLBUF - 1);
    var all := if arg2.Some?
               then AppendText(first, SMALLBUF, " \"" + EncodedIn(arg2.value, ENC_SIZE) + "\"").text
               else first;
    Clip(all + "\n", ENC_SIZE - 1)
  }

  /** snprintf(buf, size, ...) into a fresh buffer */
  method Print(text: string, size: nat) returns (buf: array<char>)
    requires size > 0 && NUL !in text
    ensures fresh(buf) && buf.Length == size && Terminated(buf)
    ensures CString(buf[..]) == Clip(text, size - 1)
  {
    buf := new char[size](_ => NUL);
    PrintAt(buf, 0, size, text);
    var want := Clip(text, size - 1);
    assert buf[..][..|want|] == want;
    TextStored(buf[..], want);
  }

  /** The message-building part of sendcmd */
  method BuildMessage(cmd: string, arg1: string, arg2: Option<string>) returns (msg: string)
    requires NUL !in cmd && NUL !in arg1 && (arg2.Some? ==> NUL !in arg2.value)
    ensures msg == Message(cmd, arg1, arg2)
  {
    var enc1 := EncodeText(arg1, ENC_SIZE);
    var buf := Print(cmd + " \"" + enc1 + "\"", SMALLBUF);
    if arg2.Some? {
      var enc2 := EncodeText(arg2.value, ENC_SIZE);
      var ret := AppendFormatted(buf, SMALLBUF, " \"" + enc2 + "\"");
    }
    CStringEnds(buf[..]);
    var enc := Print(CString(buf[..]) + "\n", ENC_SIZE);
    return CString(enc[..]);
  }

  // ----- what the daemon makes of it -----

  function Args(cmd: string, arg1: string, arg2: Option<string>): seq<string> {
    [cmd, arg1] + if arg2.Some? then [arg2.value] else []
  }

  /** The whole command line, were there no buffers. */
  function FullLine(cmd: string, arg1: string, arg2: Option<string>): string {
    cmd + " " + QuoteLine(Args(cmd, arg1, arg2)[1..])
  }

  /** Nothing is cut: one byte of the second append stays unused. */
  predicate FitsBuffers(cmd: string, arg1: string, arg2: Option<string>) {
    |FullLine(cmd, arg1, arg2)| <= SMALLBUF - (if arg2.Some? then 2 else 1)
  }

  lemma FullLineShape(cmd: string, arg1: string, arg2: Option<string>)
    ensures FullLine(cmd, arg1, arg2) ==
            if arg2.Some? then cmd + " " + Quoted(arg1) + " " + Quoted(arg2.value) else cmd + " " + Quoted(arg1)
  {
    var ws := Args(cmd, arg1, arg2)[1..];
    if arg2.Some? {
      assert ws == [arg1, arg2.value] && ws[1..] == [arg2.value];
      assert QuoteLine(ws) == Quoted(arg1) + " " + Quoted(arg2.value);
      assert cmd + " " + QuoteLine(ws) == cmd + " " + Quoted(arg1) + " " + Quoted(arg2.value);
    } else {
      assert ws == [arg1];
    }
  }

  lemma FirstPartWhole(cmd: string, arg: string, max: nat)
    requires |cmd + " " + Quoted(arg)| <= max < ENC_SIZE
    ensures Clip(cmd + " \"" + EncodedIn(arg, ENC_SIZE) + "\"", max) == cmd + " " + Quoted(arg)
  {
    EncodedInWhole(arg, ENC_SIZE);
    assert cmd + " \"" + Encode(arg) + "\"" == cmd + " " + Quoted(arg);
  }

  lemma MessageWhole(cmd: string, arg1: string, arg2: Option<string>)
    requires FitsBuffers(cmd, arg1, arg2)
    ensures Message(cmd, arg1, arg2) == FullLine(cmd, arg1, arg2) + "\n"
  {
    FullLineShape(cmd, arg1, arg2);
    FirstPartWhole(cmd, arg1, SMALLBUF - 1);
    if arg2.Some? {
      SecondPartWhole(cmd + " " + Quoted(arg1), arg2.value);
    }
  }

  lemma SecondPartWhole(first: string, arg: string)
    requires |first + " " + Quoted(arg)| + 2 <= SMALLBUF
    ensures AppendText(first, SMALLBUF, " \"" + EncodedIn(arg, ENC_SIZE) + "\"").text == first + " " + Quoted(arg)
  {
    EncodedInWhole(arg, ENC_SIZE);
    var more := " \"" + EncodedIn(arg, ENC_SIZE) + "\"";
    assert more == " " + Quoted(arg);
    AppendKeepsAllIffSpare(first, SMALLBUF, more);
    assert first + more == first + " " + Quoted(arg);
  }

  lemma RunFullLine(s: Scan, lim: Limits, cmd: string, ws: seq<string>)
    requires s.state == FindWordStart && s.word == "" && s.args == []
    requires Plain(cmd) && forall w :: w in ws ==> AllPrintable(w)
    requires WithinLimits([cmd] + ws, lim)
    ensures Run(s, lim, cmd + " " + QuoteLine(ws)) == s.(args := [cmd] + ws)
  {
    RunPlainWord(s, lim, cmd);
    RunConcat(s, lim, cmd + " ", QuoteLine(ws));
    assert cmd in [cmd] + ws;
    RunQuoteLine(PutArg(s, lim, cmd), lim, ws);
    assert forall w :: w in ws ==> w in [cmd] + ws;
    FitAllExactly(ws, lim, 1);
  }

  /** End to end: when the line fits the buffers and the limits, the bytes sendcmd builds make the
      daemon see exactly the intended arguments as one line, wherever the reads split it. */
  lemma SendReachesDaemon(s: Scan, lim: Limits, o: seq<ReadOutcome>, cmd: string, arg1: string, arg2: Option<string>)
    requires BetweenLines(s) && Plain(cmd) && AllPrintable(arg1) && (arg2.Some? ==> AllPrintable(arg2.value))
    requires WithinLimits(Args(cmd, arg1, arg2), lim) && FitsBuffers(cmd, arg1, arg2)
    requires Bytes(o) == Message(cmd, arg1, arg2) && !Serve(s, lim, o).closed
    ensures Serve(s, lim, o).lines == [Args(cmd, arg1, arg2)]
  {
    AllServed(s, lim, o);
    MessageWhole(cmd, arg1, arg2);
    var line := FullLine(cmd, arg1, arg2);
    var ws := Args(cmd, arg1, arg2)[1..];
    assert Args(cmd, arg1, arg2) == [cmd] + ws;
    FeedFresh(s, lim, line + "\n");
    RunFullLine(Fresh(s), lim, cmd, ws);
    FeedLineThenNewline(Fresh(s), lim, line);
  }

  /** What the client asks for with these arguments. */
  function Intended(cmd: string, arg1: string, arg2: Option<string>): Command {
    if cmd == "CANCEL" then CancelCmd(arg1, arg2)
    else if arg2.Some? then StartCmd(arg1, arg2.value)
    else Unknown
  }

  /** And then the daemon performs exactly the intended command, once, at some time while it reads. */
  lemma CommandArrives(d: Daemon, s: Scan, slots: seq<string>, lim: Limits, o: seq<ReadOutcome>, at: nat -> int,
                       cmd: string, arg1: string, arg2: Option<string>)
    requires cmd == "START" || cmd == "CANCEL"
    requires BetweenLines(s) && AllPrintable(arg1) && (arg2.Some? ==> AllPrintable(arg2.value))
    requires WithinLimits(Args(cmd, arg1, arg2), lim) && FitsBuffers(cmd, arg1, arg2)
    requires Bytes(o) == Message(cmd, arg1, arg2) && !Serve(s, lim, o).closed
    ensures exists n: nat | n <= |o| :: ServeDaemon(d, s, slots, lim, o, at) == Perform(d, Intended(cmd, arg1, arg2), at(n))
  {
    PlainCommand(cmd);
    SendReachesDaemon(s, lim, o, cmd, arg1, arg2);
    var after, times := ServeDaemonPerforms(d, s, slots, lim, o, at);
    ArgsMeanIntended(cmd, arg1, arg2, after[0]);
    assert Serve(s, lim, o).lines[1..] == [];
    var n: nat :| n <= |o| && times[0] == at(n);
  }

  lemma PlainCommand(cmd: string)
    requires cmd == "START" || cmd == "CANCEL"
    ensures Plain(cmd)
  {
  }

  lemma ArgsMeanIntended(cmd: string, arg1: string, arg2: Option<string>, slots: seq<string>)
    requires cmd == "START" || cmd == "CANCEL"
    ensures SockArg(Args(cmd, arg1, arg2), slots) == Intended(cmd, arg1, arg2)
  {
    assert "START" != "CANCEL" by { assert |"START"| != |"CANCEL"|; }
    var args := Args(cmd, arg1, arg2);
    assert args[0] == cmd && args[1] == arg1 && (arg2.Some? ==> args[2] == arg2.value);
  }

  // ----- and only then -----

  /** Cut before its last character, a line of quoted words never completes its last word. */
  lemma {:induction false} QuoteLineCutAnywhere(s: Scan, lim: Limits, ws: seq<string>, k: nat)
    requires s.state == FindWordStart && s.word == "" && ws != []
    requires forall w :: w in ws ==> AllPrintable(w)
    requires k < |QuoteLine(ws)|
    ensures var r := Run(s, lim, QuoteLine(ws)[..k]);
            r.state in {FindWordStart, QuoteCollect, QcLiteral} && |r.args| < |s.args| + |ws|
    decreases |ws|
  {
    var q := Quoted(ws[0]);
    var line := QuoteLine(ws);
    if k < |q| {
      assert line[..k] == q[..k];
      QuotedCutAnywhere(s, lim, ws[0], k);
    } else {
      assert |ws| > 1;
      var s' := PutArg(s, lim, ws[0]);
      RunQuoted(s, lim, ws[0]);
      if k == |q| {
        assert line[..k] == q;
      } else {
        var rest := QuoteLine(ws[1..])[..k - |q| - 1];
        assert line[..k] == q + " " + rest;
        RunConcat(s, lim, q + " ", rest);
        RunConcat(s, lim, q, " ");
        RunOne(s', lim, ' ');
        QuoteLineCutAnywhere(s', lim, ws[1..], k - |q| - 1);
      }
    }
  }

  lemma FirstPartCut(cmd: string, arg: string, max: nat)
    requires max < ENC_SIZE - 1
    ensures Clip(cmd + " \"" + EncodedIn(arg, ENC_SIZE) + "\"", max) == Clip(cmd + " " + Quoted(arg), max)
  {
    CutEncodingAgrees(cmd + " \"", arg, "\"", max, ENC_SIZE);
    assert cmd + " " + Quoted(arg) == cmd + " \"" + Encode(arg) + "\"";
  }

  lemma AppendedCut(first: string, more: string, cut: string)
    requires |first| < SMALLBUF - 1 && |first + more| > SMALLBUF - 2
    requires Clip(cut, SMALLBUF - 2 - |first|) == Clip(more, SMALLBUF - 2 - |first|)
    ensures AppendText(first, SMALLBUF, cut).text == (first + more)[..SMALLBUF - 2]
  {
    var left := SMALLBUF - 2 - |first|;
    assert (first + more)[..SMALLBUF - 2] == first + more[..left];
  }

  lemma SecondPartCut(first: string, arg: string)
    requires |first| < SMALLBUF - 1 && |first + " " + Quoted(arg)| > SMALLBUF - 2
    ensures AppendText(first, SMALLBUF, " \"" + EncodedIn(arg, ENC_SIZE) + "\"").text == (first + " " + Quoted(arg))[..SMALLBUF - 2]
  {
    var more := " " + Quoted(arg);
    assert first + " " + Quoted(arg) == first + more;
    assert more == " \"" + Encode(arg) + "\"";
    CutEncodingAgrees(" \"", arg, "\"", SMALLBUF - 2 - |first|, ENC_SIZE);
    AppendedCut(first, more, " \"" + EncodedIn(arg, ENC_SIZE) + "\"");
  }

  lemma MessageCut(cmd: string, arg1: string, arg2: Option<string>)
    requires !FitsBuffers(cmd, arg1, arg2)
    ensures exists k: nat :: SMALLBUF - 2 <= k < |FullLine(cmd, arg1, arg2)| &&
              Message(cmd, arg1, arg2) == FullLine(cmd, arg1, arg2)[..k] + "\n"
  {
    var line, full1 := FullLine(cmd, arg1, arg2), cmd + " " + Quoted(arg1);
    var max := SMALLBUF - 1;
    FullLineShape(cmd, arg1, arg2);
    FirstPartCut(cmd, arg1, max);
    if arg2.None? {
      assert Message(cmd, arg1, arg2) == line[..max] + "\n";
    } else if |full1| >= max {
      var first := full1[..max];
      assert first == line[..max] && first + "" == first;
      assert Message(cmd, arg1, arg2) == line[..max] + "\n";
    } else {
      SecondPartCut(full1, arg2.value);
      assert Message(cmd, arg1, arg2) == line[..max - 1] + "\n";
    }
  }

  /** When the line does not fit, the daemon never sees the intended arguments: the size test of
      FitsBuffers is exactly the condition under which a command gets through. */
  lemma CommandArrivesIffFits(s: Scan, lim: Limits, o: seq<ReadOutcome>, cmd: string, arg1: string, arg2: Option<string>)
    requires BetweenLines(s) && Plain(cmd) && |cmd| < SMALLBUF - 2
    requires AllPrintable(arg1) && (arg2.Some? ==> AllPrintable(arg2.value))
    requires WithinLimits(Args(cmd, arg1, arg2), lim)
    requires Bytes(o) == Message(cmd, arg1, arg2) && !Serve(s, lim, o).closed
    ensures Serve(s, lim, o).lines == [Args(cmd, arg1, arg2)] <==> FitsBuffers(cmd, arg1, arg2)
  {
    if FitsBuffers(cmd, arg1, arg2) {
      SendReachesDaemon(s, lim, o, cmd, arg1, arg2);
    } else {
      CutMessageMisses(s, lim, o, cmd, arg1, arg2);
    }
  }

  lemma CutMessageMisses(s: Scan, lim: Limits, o: seq<ReadOutcome>, cmd: string, arg1: string, arg2: Option<string>)
    requires BetweenLines(s) && Plain(cmd) && |cmd| < SMALLBUF - 2
    requires AllPrintable(arg1) && (arg2.Some? ==> AllPrintable(arg2.value)) && !FitsBuffers(cmd, arg1, arg2)
    requires Bytes(o) == Message(cmd, arg1, arg2) && !Serve(s, lim, o).closed
    ensures Serve(s, lim, o).lines != [Args(cmd, arg1, arg2)]
  {
    var line := FullLine(cmd, arg1, arg2);
    MessageCut(cmd, arg1, arg2);
    var k: nat :| SMALLBUF - 2 <= k < |line| && Message(cmd, arg1, arg2) == line[..k] + "\n";
    AllServed(s, lim, o);
    FeedFresh(s, lim, line[..k] + "\n");
    CutLineMisses(Fresh(s), lim, cmd, Args(cmd, arg1, arg2)[1..], k);
    assert Args(cmd, arg1, arg2) == [cmd] + Args(cmd, arg1, arg2)[1..];
  }

  lemma CutLineMisses(s: Scan, lim: Limits, cmd: string, ws: seq<string>, k: nat)
    requires s.state == FindWordStart && s.word == "" && s.args == []
    requires Plain(cmd) && ws != [] && forall w :: w in ws ==> AllPrintable(w)
    requires |cmd| < k < |cmd + " " + QuoteLine(ws)|
    ensures FeedLines(s, lim, (cmd + " " + QuoteLine(ws))[..k] + "\n") != [[cmd] + ws]
  {
    var line := (cmd + " " + QuoteLine(ws))[..k];
    var cut := QuoteLine(ws)[..k - |cmd| - 1];
    assert line == cmd + " " + cut;
    RunPlainWord(s, lim, cmd);
    RunConcat(s, lim, cmd + " ", cut);
    QuoteLineCutAnywhere(PutArg(s, lim, cmd), lim, ws, k - |cmd| - 1);
    FeedLineThenNewline(s, lim, line);
    var got := Step(Run(s, lim, line), lim, '\n').args;
    assert |got| < |[cmd] + ws|;
  }
}
