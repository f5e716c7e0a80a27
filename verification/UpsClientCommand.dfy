// The command builder of the C client library (clients/upsclient.c), and what the server's
// scanner makes of the commands it builds.
module UpsClientCommand {
  import opened ParseConf
  import opened ParseConfContext
  import opened Text
  import opened Tokens

  const NETBUF_LEN: nat := 512

  function Wrapped(arg: string, enc: string): string {
    if ' ' in arg then " \"" + enc + "\"" else " " + enc
  }

  function AppendArgs(text: string, size: nat, args: seq<string>): (r: string)
    requires |text| < size
    ensures |r| < size
    decreases |args|
  {
    if args == [] then text
    else
      var next := AppendText(text, size, Wrapped(args[0], EncodedIn(args[0], NETBUF_LEN))).text;
      AppendArgs(next, size, args[1..])
  }

  /** What build_cmd leaves in a buffer of `size` bytes. */
  function Command(size: nat, cmd: string, args: seq<string>): string
    requires size > 0
  {
    var text := AppendArgs(Clip(cmd, size - 1), size, args);
    text + Clip("\n", size - |text| - 1)
  }

  /** snprintf(buf + len, bufsize - len, "%s", text) onto the text already there */
  method PutText(buf: array<char>, text: string)
    requires Terminated(buf) && |CString(buf[..])| < buf.Length && NUL !in text
    modifies buf
    ensures Terminated(buf) && |CString(buf[..])| < buf.Length
    ensures CString(buf[..]) == old(CString(buf[..])) + Clip(text, buf.Length - |old(CString(buf[..]))| - 1)
  {
    CStringEnds(buf[..]);
    ghost var have := CString(buf[..]);
    var len := |CString(buf[..])|;
    PrintAt(buf, len, buf.Length - len, text);
    ghost var want := have + Clip(text, buf.Length - len - 1);
    assert buf[..][..|want|] == want;
    TextStored(buf[..], want);
  }

  /** One round of build_cmd's loop */
  method AppendArg(buf: array<char>, arg: string)
    requires Terminated(buf) && NUL !in arg
    modifies buf
    ensures Terminated(buf)
    ensures CString(buf[..]) == AppendText(old(CString(buf[..])), buf.Length, Wrapped(arg, EncodedIn(arg, NETBUF_LEN))).text
    ensures |CString(buf[..])| < buf.Length
  {
    var text := EncodeText(arg, NETBUF_LEN);
    var ret := AppendFormatted(buf, buf.Length, if ' ' in arg then " \"" + text + "\"" else " " + text);
    CStringEnds(buf[..]);
  }

  /** memset(buf, '\0', bufsize) */
  method Clear(buf: array<char>)
    requires buf.Length > 0
    modifies buf
    ensures Terminated(buf) && CString(buf[..]) == ""
  {
    forall i | 0 <= i < buf.Length {
      buf[i] := NUL;
    }
    assert buf[0] in buf[..];
  }

  /** The loop of build_cmd */
  method AppendAll(buf: array<char>, args: seq<string>)
    requires Terminated(buf) && |CString(buf[..])| < buf.Length
    requires forall i :: 0 <= i < |args| ==> NUL !in args[i]
    modifies buf
    ensures Terminated(buf) && |CString(buf[..])| < buf.Length
    ensures CString(buf[..]) == AppendArgs(old(CString(buf[..])), buf.Length, args)
  {
    ghost var whole := AppendArgs(CString(buf[..]), buf.Length, args);
    assert args[0..] == args;
    var i := 0;
    while i < |args|
      invariant i <= |args| && Terminated(buf) && |CString(buf[..])| < buf.Length
      invariant AppendArgs(CString(buf[..]), buf.Length, args[i..]) == whole
    {
      assert args[i..][1..] == args[i + 1..];
      AppendArg(buf, args[i]);
      i := i + 1;
    }
  }

  /** snprintf(buf, bufsize, "%s", cmdname) into the cleared buffer */
  method StartCommand(buf: array<char>, cmd: string)
    requires Terminated(buf) && CString(buf[..]) == "" && buf.Length > 0 && NUL !in cmd
    modifies buf
    ensures Terminated(buf) && CString(buf[..]) == Clip(cmd, buf.Length - 1)
  {
    PutText(buf, cmd);
    EmptyLeft(Clip(cmd, buf.Length - 1));
  }

  lemma EmptyLeft(s: string)
    ensures "" + s == s
  {
  }

  /** build_cmd */
  method BuildCmd(buf: array<char>, cmd: string, args: seq<string>)
    requires buf.Length > 0 && NUL !in cmd && forall i :: 0 <= i < |args| ==> NUL !in args[i]
    modifies buf
    ensures Terminated(buf) && CString(buf[..]) == Command(buf.Length, cmd, args)
  {
    Clear(buf);
    StartCommand(buf, cmd);
    AppendAll(buf, args);
    PutText(buf, "\n");
  }

  // ----- the command without its buffers -----

  function ArgText(arg: string): string {
    Wrapped(arg, Encode(arg))
  }

  function ArgTexts(args: seq<string>): string {
    if args == [] then "" else ArgText(args[0]) + ArgTexts(args[1..])
  }

  lemma ArgClipped(text: string, arg: string)
    requires |text| + 2 <= NETBUF_LEN
    ensures AppendText(text, NETBUF_LEN, Wrapped(arg, EncodedIn(arg, NETBUF_LEN))).text ==
            Clip(text + ArgText(arg), NETBUF_LEN - 2)
  {
    var left := NETBUF_LEN - 2 - |text|;
    if ' ' in arg {
      CutEncodingAgrees(" \"", arg, "\"", left, NETBUF_LEN);
    } else {
      CutEncodingAgrees(" ", arg, "", left, NETBUF_LEN);
      assert " " + Encode(arg) + "" == " " + Encode(arg);
      assert " " + EncodedIn(arg, NETBUF_LEN) + "" == " " + EncodedIn(arg, NETBUF_LEN);
    }
    ClipBehind(text, ArgText(arg), left);
  }

  lemma ClipBehind(a: string, b: string, n: nat)
    ensures Clip(a + b, |a| + n) == a + Clip(b, n)
  {
  }

  lemma ClipTwice(a: string, b: string, n: nat)
    ensures Clip(Clip(a, n) + b, n) == Clip(a + b, n)
  {
    if |a| > n {
      assert (a[..n] + b)[..n] == a[..n] == (a + b)[..n];
    }
  }

  lemma {:induction false} ArgsClipped(text: string, args: seq<string>)
    requires |text| + 2 <= NETBUF_LEN
    ensures AppendArgs(text, NETBUF_LEN, args) == Clip(text + ArgTexts(args), NETBUF_LEN - 2)
    decreases |args|
  {
    if args == [] {
      assert text + "" == text;
    } else {
      var first, more := ArgText(args[0]), ArgTexts(args[1..]);
      ArgClipped(text, args[0]);
      ArgsClipped(Clip(text + first, NETBUF_LEN - 2), args[1..]);
      ClipTwice(text + first, more, NETBUF_LEN - 2);
      Assoc(text, first, more);
    }
  }

  /** The whole command, were there no buffers. */
  function FullCommand(cmd: string, args: seq<string>): string {
    cmd + ArgTexts(args)
  }

  predicate Fits(cmd: string, args: seq<string>) {
    |FullCommand(cmd, args)| + 2 <= NETBUF_LEN
  }

  /** Two bytes of the buffer always stay free for the newline and the terminator: what is left of
      the command is cut in front of them. */
  lemma CommandClipped(cmd: string, args: seq<string>)
    requires |cmd| + 2 <= NETBUF_LEN
    ensures Command(NETBUF_LEN, cmd, args) == Clip(FullCommand(cmd, args), NETBUF_LEN - 2) + "\n"
  {
    ArgsClipped(cmd, args);
  }

  lemma CommandWholeIff(cmd: string, args: seq<string>)
    ensures Command(NETBUF_LEN, cmd, args) == FullCommand(cmd, args) + "\n" <==> Fits(cmd, args)
  {
    if |cmd| + 2 <= NETBUF_LEN {
      CommandClipped(cmd, args);
    }
  }

  // ----- what the server reads -----

  function Equals(s: string): (n: nat)
    ensures n <= |s| && (n < |s| ==> s[n] == '=')
    ensures forall i :: 0 <= i < n ==> s[i] != '='
  {
    if s == "" || s[0] == '=' then 0 else 1 + Equals(s[1..])
  }

  /** The words an argument without spaces is split into: an equals sign is a word of its own. */
  function SplitEquals(arg: string): seq<string>
    decreases |arg|
  {
    var n := Equals(arg);
    if arg == "" then []
    else if n == |arg| then [arg]
    else if n == 0 then ["="] + SplitEquals(arg[1..])
    else [arg[..n]] + SplitEquals(arg[n..])
  }

  /** The words the server reads for one argument. */
  function ReadAs(arg: string): seq<string> {
    if ' ' in arg then [arg] else SplitEquals(arg)
  }

  function AllReadAs(args: seq<string>): seq<string> {
    if args == [] then [] else ReadAs(args[0]) + AllReadAs(args[1..])
  }

  /** The scan between words once the words `ws` have been added to it. */
  function Added(s: Scan, lim: Limits, ws: seq<string>): Scan {
    s.(args := s.args + FitAll(ws, lim, |s.args|))
  }

  predicate Between(s: Scan) {
    s.state == FindWordStart && s.word == ""
  }

  /** The scan `r` is `t` once the word being collected, if any, is complete. */
  predicate Holding(r: Scan, lim: Limits, t: Scan) {
    r == t || (r.state == Collect && EndOfWord(r, lim).(state := FindWordStart) == t)
  }

  lemma {:induction false} FitAllConcat(a: seq<string>, b: seq<string>, lim: Limits, taken: nat)
    ensures FitAll(a + b, lim, taken) == FitAll(a, lim, taken) + FitAll(b, lim, taken + |FitAll(a, lim, taken)|)
    decreases |a|
  {
    if a == [] {
      assert a + b == b;
    } else {
      assert (a + b)[1..] == a[1..] + b;
      if !(lim.args != 0 && taken >= lim.args) {
        FitAllConcat(a[1..], b, lim, taken + 1);
      }
    }
  }

  lemma AddedTwice(s: Scan, lim: Limits, a: seq<string>, b: seq<string>)
    ensures Added(Added(s, lim, a), lim, b) == Added(s, lim, a + b)
  {
    FitAllConcat(a, b, lim, |s.args|);
    assert s.args + FitAll(a, lim, |s.args|) + FitAll(b, lim, |Added(s, lim, a).args|) ==
           s.args + (FitAll(a, lim, |s.args|) + FitAll(b, lim, |Added(s, lim, a).args|));
  }

  lemma AddedOne(s: Scan, lim: Limits, w: string)
    requires Between(s)
    ensures PutArg(s, lim, w) == Added(s, lim, [w])
  {
    PutArgFits(s, lim, [w]);
    assert PutArg(s, lim, w).args + [] == PutArg(s, lim, w).args;
  }

  /** Reading the encoding of a word with neither spaces nor equals signs collects that word. */
  lemma RunBareWord(s: Scan, lim: Limits, w: string)
    requires Between(s) && w != "" && AllPrintable(w) && ' ' !in w && '=' !in w
    ensures Run(s, lim, Encode(w)) == s.(state := Collect, word := Fit(w, lim))
  {
    var first := s.(state := Collect, word := Fit([w[0]], lim));
    assert Printable(w[0]) && w[0] in w;
    assert Run(s, lim, EncodeChar(w[0])) == first by {
      if Special(w[0]) {
        assert EncodeChar(w[0]) == ['\\'] + [w[0]];
        RunConcat(s, lim, ['\\'], [w[0]]);
        RunOne(s, lim, '\\');
        RunOne(Step(s, lim, '\\'), lim, w[0]);
      } else {
        RunOne(s, lim, w[0]);
      }
    }
    RunConcat(s, lim, EncodeChar(w[0]), Encode(w[1..]));
    RunEncoded(first, lim, [w[0]], w[1..]);
    assert [w[0]] + w[1..] == w;
  }

  lemma BareWordHeld(s: Scan, lim: Limits, w: string)
    requires Between(s) && w != "" && AllPrintable(w) && ' ' !in w && '=' !in w
    ensures Holding(Run(s, lim, Encode(w)), lim, Added(s, lim, [w])) && Run(s, lim, Encode(w)).state == Collect
  {
    RunBareWord(s, lim, w);
    AddedOne(s, lim, w);
  }

  lemma EqualsStep(t: Scan, lim: Limits, c: char)
    requires t.word == "" && c == '='
    ensures StepFindWordStart(t, lim, c).(state := FindWordStart) == PutArg(t, lim, [c])
  {
    assert t.word + [c] == [c];
    assert Printable(c) && !IsSpace(c);
    assert AddChar(t, lim, c) == t.(word := [c]);
    assert Fit([c], lim) == [c];
  }

  /** An equals sign ends the word before it and is a word itself. */
  lemma EqualsRead(r: Scan, lim: Limits, t: Scan)
    requires Between(t) && Holding(r, lim, t)
    ensures Run(r, lim, "=") == Added(t, lim, ["="])
  {
    RunOne(r, lim, '=');
    AddedOne(t, lim, "=");
    EqualsStep(t, lim, '=');
    if r != t {
      EqualsStep(EndOfWord(r, lim), lim, '=');
    }
  }

  lemma {:induction false} SplitHeld(s: Scan, lim: Limits, arg: string)
    requires Between(s) && AllPrintable(arg) && ' ' !in arg
    ensures Holding(Run(s, lim, Encode(arg)), lim, Added(s, lim, SplitEquals(arg)))
    decreases |arg|
  {
    var n := Equals(arg);
    if arg == "" {
      assert s.args + [] == s.args;
    } else {
      var w, rest := arg[..n], arg[n..];
      assert arg == w + rest && (n == |arg| ==> w == arg);
      EncodeConcat(w, rest);
      RunConcat(s, lim, Encode(w), Encode(rest));
      if n > 0 {
        BareWordHeld(s, lim, w);
      }
      if n < |arg| {
        SplitAtEquals(s, lim, arg, n);
      }
    }
  }

  lemma SplitAtEquals(s: Scan, lim: Limits, arg: string, n: nat)
    requires Between(s) && AllPrintable(arg) && ' ' !in arg && n == Equals(arg) < |arg|
    requires n > 0 ==> Holding(Run(s, lim, Encode(arg[..n])), lim, Added(s, lim, [arg[..n]]))
    ensures Holding(Run(Run(s, lim, Encode(arg[..n])), lim, Encode(arg[n..])), lim, Added(s, lim, SplitEquals(arg)))
    decreases |arg|, 0
  {
    var r := Run(s, lim, Encode(arg[..n]));
    var before := if n == 0 then [] else [arg[..n]];
    var t := Added(s, lim, before);
    assert s.args + [] == s.args;
    var t1 := Added(t, lim, ["="]);
    var more := arg[n + 1..];
    assert arg[n..][1..] == more;
    assert Encode(arg[n..]) == "=" + Encode(more);
    RunConcat(r, lim, "=", Encode(more));
    EqualsRead(r, lim, t);
    SplitHeld(t1, lim, more);
    AddedTwice(t, lim, ["="], SplitEquals(more));
    AddedTwice(s, lim, before, ["="] + SplitEquals(more));
    assert Equals(arg[n..]) == 0;
    assert SplitEquals(arg[n..]) == ["="] + SplitEquals(more);
    assert arg[0..] == arg;
    assert SplitEquals(arg) == before + (["="] + SplitEquals(more));
  }

  lemma ArgHeld(s: Scan, lim: Limits, arg: string)
    requires Between(s) && AllPrintable(arg)
    ensures Holding(Run(s, lim, ArgText(arg)), lim, Added(s, lim, ReadAs(arg)))
  {
    RunOne(s, lim, ' ');
    if ' ' in arg {
      assert ArgText(arg) == " " + Quoted(arg);
      RunConcat(s, lim, " ", Quoted(arg));
      RunQuoted(s, lim, arg);
      AddedOne(s, lim, arg);
    } else {
      RunConcat(s, lim, " ", Encode(arg));
      SplitHeld(s, lim, arg);
    }
  }

  /** A space completes the word in hand. */
  lemma ArgTextSettles(r: Scan, lim: Limits, t: Scan, arg: string)
    requires Between(t) && Holding(r, lim, t)
    ensures Run(r, lim, ArgText(arg)) == Run(t, lim, ArgText(arg))
  {
    var tail := ArgText(arg)[1..];
    assert ArgText(arg) == " " + tail;
    RunConcat(r, lim, " ", tail);
    RunConcat(t, lim, " ", tail);
    RunOne(r, lim, ' ');
    RunOne(t, lim, ' ');
  }

  lemma {:induction false} ArgsHeld(r: Scan, lim: Limits, t: Scan, args: seq<string>)
    requires Between(t) && Holding(r, lim, t)
    requires forall i :: 0 <= i < |args| ==> AllPrintable(args[i])
    ensures Holding(Run(r, lim, ArgTexts(args)), lim, Added(t, lim, AllReadAs(args)))
    decreases |args|
  {
    if args == [] {
      assert t.args + [] == t.args;
    } else {
      RunConcat(r, lim, ArgText(args[0]), ArgTexts(args[1..]));
      ArgTextSettles(r, lim, t, args[0]);
      ArgHeld(t, lim, args[0]);
      ArgsHeld(Run(t, lim, ArgText(args[0])), lim, Added(t, lim, ReadAs(args[0])), args[1..]);
      AddedTwice(t, lim, ReadAs(args[0]), AllReadAs(args[1..]));
    }
  }

  /** The scan `r` completes a line of the words `ws` at a newline, or completes none. */
  predicate EndsAs(r: Scan, lim: Limits, t: Scan, ws: Option<seq<string>>) {
    && !Stopped(r)
    && match ws
       case None => Step(r, lim, '\n').state != EndOfLine
       case Some(words) => Holding(r, lim, Added(t, lim, words))
  }

  /** What a newline makes of such a scan. */
  lemma EndedLine(r: Scan, lim: Limits, t: Scan, ws: Option<seq<string>>)
    requires Between(t) && EndsAs(r, lim, t, ws)
    ensures var s' := Step(r, lim, '\n');
            && (s'.state == EndOfLine <==> ws.Some?)
            && (ws.Some? ==> s'.args == Added(t, lim, ws.value).args)
  {
  }

  lemma LineWords(s0: Scan, lim: Limits, cmd: string, ws: seq<string>)
    requires s0.args == []
    ensures Added(Added(s0, lim, [cmd]), lim, ws).args == FitAll([cmd] + ws, lim, 0)
  {
    AddedTwice(s0, lim, [cmd], ws);
    assert [] + FitAll([cmd] + ws, lim, 0) == FitAll([cmd] + ws, lim, 0);
  }

  /** The line read of a command whose arguments end as `ws`. */
  lemma CommandLine(s: Scan, lim: Limits, cmd: string, text: string, ws: Option<seq<string>>)
    requires BetweenLines(s) && EndsAs(Run(Fresh(s), lim, text), lim, Added(Fresh(s), lim, [cmd]), ws)
    ensures FeedLines(s, lim, text + "\n") ==
            match ws case None => [] case Some(words) => [FitAll([cmd] + words, lim, 0)]
  {
    var s0 := Fresh(s);
    FeedFresh(s, lim, text + "\n");
    FeedLineThenNewline(s0, lim, text);
    EndedLine(Run(s0, lim, text), lim, Added(s0, lim, [cmd]), ws);
    if ws.Some? {
      LineWords(s0, lim, cmd, ws.value);
    }
  }

  lemma CommandHeld(s0: Scan, lim: Limits, cmd: string, args: seq<string>)
    requires Between(s0) && Plain(cmd) && forall i :: 0 <= i < |args| ==> AllPrintable(args[i])
    ensures EndsAs(Run(s0, lim, FullCommand(cmd, args)), lim, Added(s0, lim, [cmd]), Some(AllReadAs(args)))
  {
    RunPlainWord(s0, lim, cmd);
    AddedOne(s0, lim, cmd);
    ArgsHeld(Run(s0, lim, cmd), lim, Added(s0, lim, [cmd]), args);
    RunConcat(s0, lim, cmd, ArgTexts(args));
  }

  /** Whatever the arguments hold, the server completes one line, of these words. */
  lemma CommandReadAs(s: Scan, lim: Limits, cmd: string, args: seq<string>)
    requires BetweenLines(s) && Plain(cmd) && forall i :: 0 <= i < |args| ==> AllPrintable(args[i])
    ensures FeedLines(s, lim, FullCommand(cmd, args) + "\n") == [FitAll([cmd] + AllReadAs(args), lim, 0)]
  {
    CommandHeld(Fresh(s), lim, cmd, args);
    CommandLine(s, lim, cmd, FullCommand(cmd, args), Some(AllReadAs(args)));
  }

  lemma WholeCommandReadAs(s: Scan, lim: Limits, cmd: string, args: seq<string>)
    requires BetweenLines(s) && Plain(cmd) && forall i :: 0 <= i < |args| ==> AllPrintable(args[i])
    requires Fits(cmd, args) && WithinLimits([cmd] + AllReadAs(args), lim)
    ensures FeedLines(s, lim, Command(NETBUF_LEN, cmd, args)) == [[cmd] + AllReadAs(args)]
  {
    CommandWholeIff(cmd, args);
    CommandReadAs(s, lim, cmd, args);
    FitAllExactly([cmd] + AllReadAs(args), lim, 0);
  }

  // ----- exactly which arguments arrive -----

  /** Arguments that reach the server as they are: with a space they are quoted; without one they
      must not be empty, and an equals sign must stand alone. */
  predicate Intact(arg: string) {
    ' ' in arg || arg == "=" || (arg != "" && '=' !in arg)
  }

  lemma ReadAsIntact(arg: string)
    ensures Intact(arg) ==> ReadAs(arg) == [arg]
    ensures !Intact(arg) && arg != "" ==> ReadAs(arg) != [] && 0 < |ReadAs(arg)[0]| < |arg|
    ensures arg == "" ==> ReadAs(arg) == []
  {
    if arg == "=" {
      assert arg[1..] == "";
    }
  }

  lemma {:induction false} NoEmptyWords(arg: string)
    ensures forall i :: 0 <= i < |SplitEquals(arg)| ==> SplitEquals(arg)[i] != ""
    decreases |arg|
  {
    var n := Equals(arg);
    if arg != "" && n < |arg| {
      NoEmptyWords(if n == 0 then arg[1..] else arg[n..]);
    }
  }

  lemma {:induction false} NoEmptyWordsRead(args: seq<string>)
    ensures forall i :: 0 <= i < |AllReadAs(args)| ==> AllReadAs(args)[i] != ""
  {
    if args != [] {
      NoEmptyWords(args[0]);
      NoEmptyWordsRead(args[1..]);
    }
  }

  lemma {:induction false} IntactExactly(args: seq<string>, lim: Limits, taken: nat)
    requires lim.args == 0 || taken + |args| <= lim.args
    requires lim.wordLen == 0 || forall i :: 0 <= i < |args| ==> |args[i]| <= lim.wordLen
    ensures FitAll(AllReadAs(args), lim, taken) == args <==> forall i :: 0 <= i < |args| ==> Intact(args[i])
    decreases |args|
  {
    if args != [] {
      var arg := args[0];
      var words := AllReadAs(args);
      ReadAsIntact(arg);
      if Intact(arg) {
        assert words == [arg] + AllReadAs(args[1..]) && words[1..] == AllReadAs(args[1..]);
        IntactExactly(args[1..], lim, taken + 1);
        assert FitAll(words, lim, taken) == [arg] + FitAll(words[1..], lim, taken + 1);
        assert args == [arg] + args[1..];
        assert FitAll(words, lim, taken)[1..] == FitAll(words[1..], lim, taken + 1);
        assert (forall i :: 0 <= i < |args| ==> Intact(args[i])) <==> (forall i :: 0 <= i < |args[1..]| ==> Intact(args[1..][i])) by {
          assert forall i :: 0 < i < |args| ==> args[i] == args[1..][i - 1];
        }
      } else {
        NoEmptyWordsRead(args);
        assert words != [] ==> FitAll(words, lim, taken)[0] == Fit(words[0], lim);
        assert arg != "" ==> words[0] == ReadAs(arg)[0];
      }
    }
  }

  // ----- commands that do not fit -----

  lemma EncodedPrefix(arg: string, p: nat)
    requires 0 < p <= |arg|
    ensures Encode(arg[..p]) == EncodeChar(arg[0]) + Encode(arg[1..][..p - 1])
  {
    assert arg[..p][0] == arg[0] && arg[..p][1..] == arg[1..][..p - 1];
  }

  /** A cut encoding is that of a prefix, perhaps with the backslash of the next character. */
  predicate CutsTo(arg: string, m: nat, p: nat)
    requires m <= |Encode(arg)| && p <= |arg|
  {
    Encode(arg)[..m] == Encode(arg[..p]) + Slash(|Encode(arg[..p])| == m)
  }

  function Slash(whole: bool): string {
    if whole then "" else "\\"
  }

  lemma CutBehind(c: string, e: string, part: string, m: nat)
    requires |c| <= m <= |c| + |e| && e[..m - |c|] == part + Slash(|part| == m - |c|)
    ensures (c + e)[..m] == (c + part) + Slash(|c + part| == m)
  {
    assert (c + e)[..m] == c + e[..m - |c|];
    Assoc(c, part, Slash(|part| == m - |c|));
  }

  lemma CutsToLater(arg: string, m: nat, p: nat)
    requires arg != "" && |EncodeChar(arg[0])| <= m <= |Encode(arg)| && 0 < p <= |arg|
    requires CutsTo(arg[1..], m - |EncodeChar(arg[0])|, p - 1)
    ensures CutsTo(arg, m, p)
  {
    var c := EncodeChar(arg[0]);
    EncodedPrefix(arg, p);
    CutBehind(c, Encode(arg[1..]), Encode(arg[1..][..p - 1]), m);
  }

  lemma CutsToNothing(arg: string, m: nat)
    requires arg != "" && m < |EncodeChar(arg[0])|
    ensures CutsTo(arg, m, 0)
  {
    assert m == 1 ==> Encode(arg)[..m] == "\\";
    assert Encode(arg[..0]) == "" && "" + Slash(m == 0) == Slash(m == 0);
  }

  lemma {:induction false} EncodeCut(arg: string, m: nat)
    requires m <= |Encode(arg)|
    ensures CutsTo(arg, m, FitCount(arg, m))
  {
    if arg != "" {
      var c := EncodeChar(arg[0]);
      if m < |c| {
        CutsToNothing(arg, m);
      } else {
        EncodeCut(arg[1..], m - |c|);
        CutsToLater(arg, m, FitCount(arg, m));
      }
    }
  }

  /** The words the server reads when the text of the arguments ends after `k` characters and a
      newline follows; none if that does not end a line. */
  function CutReadAs(args: seq<string>, k: nat): Option<seq<string>>
    requires k < |ArgTexts(args)|
    decreases |args|
  {
    var first := |ArgText(args[0])|;
    if k >= first then
      match CutReadAs(args[1..], k - first)
      case None => None
      case Some(ws) => Some(ReadAs(args[0]) + ws)
    else CutArgReadAs(args[0], k)
  }

  function CutArgReadAs(arg: string, k: nat): Option<seq<string>> {
    if ' ' in arg then if k <= 1 then Some([]) else None
    else if k == 0 then Some([])
    else
      var p := FitCount(arg, k - 1);
      if |Encode(arg[..p])| == k - 1 then Some(SplitEquals(arg[..p])) else None
  }

  lemma CutArgRead(t: Scan, lim: Limits, arg: string, k: nat)
    requires Between(t) && AllPrintable(arg) && k < |ArgText(arg)|
    ensures EndsAs(Run(t, lim, ArgText(arg)[..k]), lim, t, CutArgReadAs(arg, k))
  {
    RunOne(t, lim, ' ');
    AddedNothing(t, lim);
    if k <= 1 {
      assert ArgText(arg)[..k] == if k == 0 then "" else " ";
      assert FitCount(arg, 0) == 0;
    } else if ' ' in arg {
      CutQuotedRead(t, lim, arg, k);
    } else {
      assert ArgText(arg)[..k] == " " + Encode(arg)[..k - 1];
      RunConcat(t, lim, " ", Encode(arg)[..k - 1]);
      CutBareRead(t, lim, arg, k - 1);
    }
  }

  lemma AddedNothing(t: Scan, lim: Limits)
    ensures Added(t, lim, []) == t
  {
    assert t.args + [] == t.args;
  }

  lemma CutQuotedRead(t: Scan, lim: Limits, arg: string, k: nat)
    requires Between(t) && ' ' in arg && 2 <= k < |ArgText(arg)|
    ensures var r := Run(t, lim, ArgText(arg)[..k]); !Stopped(r) && Step(r, lim, '\n').state != EndOfLine
  {
    var inner := Encode(arg)[..k - 2];
    assert ArgText(arg)[..k] == " \"" + inner;
    RunConcat(t, lim, " \"", inner);
    assert " \"" == " " + "\"";
    RunConcat(t, lim, " ", "\"");
    RunOne(t, lim, ' ');
    RunOne(t, lim, '"');
    EncodingCutAnywhere(t.(state := QuoteCollect), lim, arg, k - 2);
  }

  lemma CutBareRead(t: Scan, lim: Limits, arg: string, m: nat)
    requires Between(t) && AllPrintable(arg) && ' ' !in arg && m <= |Encode(arg)|
    ensures EndsAs(Run(t, lim, Encode(arg)[..m]), lim, t, CutArgReadAs(arg, m + 1))
  {
    var part := arg[..FitCount(arg, m)];
    EncodeCut(arg, m);
    SplitHeld(t, lim, part);
    if |Encode(part)| == m {
      assert Encode(part) + "" == Encode(part);
    } else {
      EscapePending(Run(t, lim, Encode(part)), lim);
      RunConcat(t, lim, Encode(part), "\\");
    }
  }

  lemma EscapePending(r: Scan, lim: Limits)
    requires r.state == Collect || r.state == FindWordStart
    ensures var r' := Run(r, lim, "\\"); r'.state == CollectLiteral && Step(r', lim, '\n').state == Collect
  {
    RunOne(r, lim, '\\');
  }

  lemma EndsLater(r: Scan, lim: Limits, t: Scan, first: seq<string>, ws: Option<seq<string>>)
    requires EndsAs(r, lim, Added(t, lim, first), ws)
    ensures EndsAs(r, lim, t, if ws.None? then None else Some(first + ws.value))
  {
    if ws.Some? {
      AddedTwice(t, lim, first, ws.value);
    }
  }

  lemma CutFirstRead(r: Scan, lim: Limits, t: Scan, arg: string, k: nat)
    requires Between(t) && Holding(r, lim, t) && AllPrintable(arg) && k < |ArgText(arg)|
    ensures EndsAs(Run(r, lim, ArgText(arg)[..k]), lim, t, CutArgReadAs(arg, k))
  {
    CutArgRead(t, lim, arg, k);
    if k == 0 {
      assert ArgText(arg)[..k] == "";
      AddedNothing(t, lim);
    } else {
      CutSettles(r, lim, t, arg, k);
    }
  }

  lemma ThroughFirst(r: Scan, lim: Limits, t: Scan, arg: string, more: string)
    requires Between(t) && Holding(r, lim, t) && AllPrintable(arg)
    ensures Run(r, lim, ArgText(arg) + more) == Run(Run(t, lim, ArgText(arg)), lim, more)
    ensures Holding(Run(t, lim, ArgText(arg)), lim, Added(t, lim, ReadAs(arg)))
  {
    RunConcat(r, lim, ArgText(arg), more);
    ArgTextSettles(r, lim, t, arg);
    ArgHeld(t, lim, arg);
  }

  lemma CutTexts(args: seq<string>, k: nat)
    requires args != [] && k <= |ArgTexts(args)|
    ensures var first := ArgText(args[0]);
            if k < |first| then ArgTexts(args)[..k] == first[..k]
            else ArgTexts(args)[..k] == first + ArgTexts(args[1..])[..k - |first|]
  {
  }

  lemma {:induction false} CutArgsRead(r: Scan, lim: Limits, t: Scan, args: seq<string>, k: nat)
    requires Between(t) && Holding(r, lim, t)
    requires forall i :: 0 <= i < |args| ==> AllPrintable(args[i])
    requires k < |ArgTexts(args)|
    ensures EndsAs(Run(r, lim, ArgTexts(args)[..k]), lim, t, CutReadAs(args, k))
    decreases |args|
  {
    var arg, rest := args[0], args[1..];
    var first := ArgText(arg);
    CutTexts(args, k);
    if k >= |first| {
      var m := k - |first|;
      ThroughFirst(r, lim, t, arg, ArgTexts(rest)[..m]);
      CutArgsRead(Run(t, lim, first), lim, Added(t, lim, ReadAs(arg)), rest, m);
      EndsLater(Run(r, lim, ArgTexts(args)[..k]), lim, t, ReadAs(arg), CutReadAs(rest, m));
    } else {
      CutFirstRead(r, lim, t, arg, k);
    }
  }

  lemma CutSettles(r: Scan, lim: Limits, t: Scan, arg: string, k: nat)
    requires Between(t) && Holding(r, lim, t) && 0 < k <= |ArgText(arg)|
    ensures Run(r, lim, ArgText(arg)[..k]) == Run(t, lim, ArgText(arg)[..k])
  {
    var tail := ArgText(arg)[..k][1..];
    assert ArgText(arg)[..k] == " " + tail;
    RunConcat(r, lim, " ", tail);
    RunConcat(t, lim, " ", tail);
    RunOne(r, lim, ' ');
    RunOne(t, lim, ' ');
  }

  lemma {:induction false} SplitNotLonger(arg: string)
    ensures arg == "" ==> SplitEquals(arg) == []
    ensures arg != "" ==> SplitEquals(arg) != [] && 0 < |SplitEquals(arg)[0]| <= |arg|
  {
  }

  lemma {:induction false} CutNoEmptyWords(args: seq<string>, k: nat)
    requires k < |ArgTexts(args)| && CutReadAs(args, k).Some?
    ensures forall i :: 0 <= i < |CutReadAs(args, k).value| ==> CutReadAs(args, k).value[i] != ""
    decreases |args|
  {
    var first := |ArgText(args[0])|;
    if k >= first {
      NoEmptyWords(args[0]);
      CutNoEmptyWords(args[1..], k - first);
    } else if ' ' !in args[0] && k > 0 {
      NoEmptyWords(args[0][..FitCount(args[0], k - 1)]);
    }
  }

  lemma CutArgShorter(arg: string, k: nat)
    requires k < |ArgText(arg)| && CutArgReadAs(arg, k).Some?
    ensures var ws := CutArgReadAs(arg, k).value; ws == [] || |ws[0]| < |arg|
  {
    if ' ' !in arg && k > 0 {
      var p := FitCount(arg, k - 1);
      SplitNotLonger(arg[..p]);
      if p == |arg| {
        assert arg[..p] == arg;
      }
    }
  }

  /** What the limits make of `ws` differs from `args` when the first word or the rest does. */
  lemma FitDiffers(ws: seq<string>, args: seq<string>, lim: Limits, taken: nat)
    requires ws != [] && args != [] && !(lim.args != 0 && taken >= lim.args)
    requires |ws[0]| < |args[0]| || (args[0] == "" && ws[0] != "") || FitAll(ws[1..], lim, taken + 1) != args[1..]
    ensures FitAll(ws, lim, taken) != args
  {
    var fitted := FitAll(ws, lim, taken);
    assert fitted[0] == Fit(ws[0], lim) && fitted[1..] == FitAll(ws[1..], lim, taken + 1);
  }

  /** The words read are those of the first argument and then the others. */
  lemma CutReadLater(args: seq<string>, k: nat)
    requires k < |ArgTexts(args)| && k >= |ArgText(args[0])| && CutReadAs(args, k).Some?
    requires Intact(args[0])
    ensures CutReadAs(args[1..], k - |ArgText(args[0])|).Some?
    ensures var ws := CutReadAs(args, k).value;
            ws != [] && ws[1..] == CutReadAs(args[1..], k - |ArgText(args[0])|).value
  {
    ReadAsIntact(args[0]);
  }

  lemma CutReadShorter(args: seq<string>, k: nat)
    requires k < |ArgTexts(args)| && CutReadAs(args, k).Some? && CutReadAs(args, k).value != []
    requires k < |ArgText(args[0])| || !Intact(args[0])
    ensures var w := CutReadAs(args, k).value[0]; |w| < |args[0]| || (args[0] == "" && w != "")
  {
    CutNoEmptyWords(args, k);
    if k < |ArgText(args[0])| {
      CutArgShorter(args[0], k);
    } else {
      ReadAsIntact(args[0]);
    }
  }

  /** A cut in the arguments always shows. */
  lemma {:induction false} CutDiffers(args: seq<string>, k: nat, lim: Limits, taken: nat)
    requires k < |ArgTexts(args)| && CutReadAs(args, k).Some?
    requires lim.args == 0 || taken + |args| <= lim.args
    ensures FitAll(CutReadAs(args, k).value, lim, taken) != args
    decreases |args|
  {
    var ws := CutReadAs(args, k).value;
    if ws != [] {
      var first := |ArgText(args[0])|;
      if k < first || !Intact(args[0]) {
        CutReadShorter(args, k);
      } else {
        CutReadLater(args, k);
        CutDiffers(args[1..], k - first, lim, taken + 1);
      }
      FitDiffers(ws, args, lim, taken);
    }
  }

  lemma CutCommandEnds(s0: Scan, lim: Limits, cmd: string, args: seq<string>, k: nat)
    requires Between(s0) && Plain(cmd) && forall i :: 0 <= i < |args| ==> AllPrintable(args[i])
    requires k < |ArgTexts(args)|
    ensures EndsAs(Run(s0, lim, cmd + ArgTexts(args)[..k]), lim, Added(s0, lim, [cmd]), CutReadAs(args, k))
  {
    RunPlainWord(s0, lim, cmd);
    AddedOne(s0, lim, cmd);
    CutArgsRead(Run(s0, lim, cmd), lim, Added(s0, lim, [cmd]), args, k);
    RunConcat(s0, lim, cmd, ArgTexts(args)[..k]);
  }

  /** The line the server reads of a cut command, if it completes one. */
  lemma CutCommandReadAs(s: Scan, lim: Limits, cmd: string, args: seq<string>, k: nat)
    requires BetweenLines(s) && Plain(cmd) && forall i :: 0 <= i < |args| ==> AllPrintable(args[i])
    requires k < |ArgTexts(args)|
    ensures FeedLines(s, lim, cmd + ArgTexts(args)[..k] + "\n") ==
            match CutReadAs(args, k) case None => [] case Some(ws) => [FitAll([cmd] + ws, lim, 0)]
  {
    CutCommandEnds(Fresh(s), lim, cmd, args, k);
    CommandLine(s, lim, cmd, cmd + ArgTexts(args)[..k], CutReadAs(args, k));
  }

  /** A command that was cut is never read as the words it was built from. */
  lemma CutCommandMisses(s: Scan, lim: Limits, cmd: string, args: seq<string>, k: nat)
    requires BetweenLines(s) && Plain(cmd) && forall i :: 0 <= i < |args| ==> AllPrintable(args[i])
    requires WithinLimits([cmd] + args, lim) && |cmd| <= k < |FullCommand(cmd, args)|
    ensures FeedLines(s, lim, FullCommand(cmd, args)[..k] + "\n") != [[cmd] + args]
  {
    var m := k - |cmd|;
    assert FullCommand(cmd, args)[..k] == cmd + ArgTexts(args)[..m];
    CutCommandReadAs(s, lim, cmd, args, m);
    var ws := CutReadAs(args, m);
    if ws.Some? {
      assert cmd in [cmd] + args && forall i :: 0 <= i < |args| ==> args[i] in [cmd] + args;
      CutDiffers(args, m, lim, 1);
      WordsAfterCommand(cmd, args, ws.value, lim);
    }
  }

  lemma WordsAfterCommand(cmd: string, args: seq<string>, ws: seq<string>, lim: Limits)
    requires WithinLimits([cmd] + args, lim)
    ensures FitAll([cmd] + ws, lim, 0) == [cmd] + args <==> FitAll(ws, lim, 1) == args
  {
    assert cmd in [cmd] + args;
    assert ([cmd] + ws)[1..] == ws && ([cmd] + args)[1..] == args;
    assert FitAll([cmd] + ws, lim, 0) == [cmd] + FitAll(ws, lim, 1);
    assert ([cmd] + FitAll(ws, lim, 1))[1..] == FitAll(ws, lim, 1);
  }

  lemma {:induction false} FullTextStays(text: string, size: nat, args: seq<string>)
    requires |text| == size - 1
    ensures AppendArgs(text, size, args) == text
    decreases |args|
  {
    if args != [] {
      assert text + "" == text;
      FullTextStays(text, size, args[1..]);
    }
  }

  /** A command name that fills the buffer leaves no room for the newline, so no line is completed. */
  lemma LongCommandUnread(s: Scan, lim: Limits, cmd: string, args: seq<string>)
    requires BetweenLines(s) && Plain(cmd) && |cmd| + 2 > NETBUF_LEN
    ensures FeedLines(s, lim, Command(NETBUF_LEN, cmd, args)) == []
  {
    var cut := Clip(cmd, NETBUF_LEN - 1);
    FullTextStays(cut, NETBUF_LEN, args);
    assert Clip("\n", 0) == "" && cut + "" == cut;
    assert cut == cmd[..NETBUF_LEN - 1];
    FeedFresh(s, lim, cut);
    RunPlainWord(Fresh(s), lim, cut);
    UnstoppedFeedsNoLine(Fresh(s), lim, cut);
  }

  /** The comment in build_cmd says that the arguments arrive intact. They do exactly when the whole
      command fits the buffer and each of them is quoted, is a lone equals sign, or is neither empty
      nor holds an equals sign. */
  lemma ArgsArriveIff(s: Scan, lim: Limits, cmd: string, args: seq<string>)
    requires BetweenLines(s) && Plain(cmd) && forall i :: 0 <= i < |args| ==> AllPrintable(args[i])
    requires WithinLimits([cmd] + args, lim)
    ensures FeedLines(s, lim, Command(NETBUF_LEN, cmd, args)) == [[cmd] + args] <==>
            Fits(cmd, args) && forall i :: 0 <= i < |args| ==> Intact(args[i])
  {
    if |cmd| + 2 > NETBUF_LEN {
      LongCommandUnread(s, lim, cmd, args);
    } else {
      ShortCommandArrivesIff(s, lim, cmd, args);
    }
  }

  lemma ShortCommandArrivesIff(s: Scan, lim: Limits, cmd: string, args: seq<string>)
    requires BetweenLines(s) && Plain(cmd) && |cmd| + 2 <= NETBUF_LEN
    requires forall i :: 0 <= i < |args| ==> AllPrintable(args[i])
    requires WithinLimits([cmd] + args, lim)
    ensures FeedLines(s, lim, Command(NETBUF_LEN, cmd, args)) == [[cmd] + args] <==>
            Fits(cmd, args) && forall i :: 0 <= i < |args| ==> Intact(args[i])
  {
    CommandClipped(cmd, args);
    if Fits(cmd, args) {
      CommandReadAs(s, lim, cmd, args);
      assert cmd in [cmd] + args && forall i :: 0 <= i < |args| ==> args[i] in [cmd] + args;
      IntactExactly(args, lim, 1);
      WordsAfterCommand(cmd, args, AllReadAs(args), lim);
    } else {
      CutCommandMisses(s, lim, cmd, args, NETBUF_LEN - 2);
    }
  }

  // ----- checking the answer -----

  /** No word of the answer differs from the query's word in its place, ignoring case. */
  predicate Agree(q: seq<string>, a: seq<string>) {
    forall i :: 0 <= i < |q| && i < |a| ==> SameIgnoringCase(q[i], a[i])
  }

  /** The answer starts with the words of the query. */
  predicate Echoes(q: seq<string>, a: seq<string>) {
    |q| <= |a| && Agree(q, a)
  }

  /** Beyond: every slot agrees, and then the source goes on to compare slots that were never
      allocated. */
  datatype Comparison = Same | Different | Beyond

  /** What verify_resp finds in the argument slots `a`, which may hold more than the answer's words. */
  function Compare(q: seq<string>, a: seq<string>): Comparison {
    if !Agree(q, a) then Different else if |q| > |a| then Beyond else Same
  }

  /** verify_resp on the argument slots from `skip` on */
  method VerifyResp(q: seq<string>, ctx: Context, skip: nat) returns (r: Comparison)
    requires ctx.Valid() && skip <= ctx.maxargs
    ensures r == Same <==> Echoes(q, ctx.Slots()[skip..])
    ensures r == Different <==> exists i :: 0 <= i < |q| && i < |ctx.Slots()[skip..]| && !SameIgnoringCase(q[i], ctx.Slots()[skip..][i])
    ensures r == Compare(q, ctx.Slots()[skip..])
  {
    ghost var a := ctx.Slots()[skip..];
    var i := 0;
    while i < |q|
      invariant i <= |q| && i <= |a| && forall k :: 0 <= k < i ==> SameIgnoringCase(q[k], a[k])
    {
      if skip + i == ctx.maxargs {
        return Beyond;
      }
      var word := ctx.Slot(skip + i);
      assert word == a[i];
      if !SameIgnoringCase(q[i], word) {
        return Different;
      }
      i := i + 1;
    }
    return Same;
  }
}
