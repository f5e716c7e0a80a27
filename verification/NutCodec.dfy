// Quoting in the C++ client library (clients/nutclient.cpp): escape, explode, and how the two get
// along with the server's own scanner and encoder in common/parseconf.c.
module NutCodec {
  import opened ParseConf
  import Upsd
  import opened Text

  datatype Mode = Init | SimpleString | QuotedString | SimpleEscape | QuotedEscape

  /** The words already complete and the one being built. */
  datatype Exploding = Exploding(mode: Mode, temp: string, res: seq<string>)

  const START: Exploding := Exploding(Init, "", [])

  /** '\\' + c in C++ adds the two character codes; appending the sum keeps its low byte. */
  function Summed(c: char): char {
    ((92 + c as int) % 256) as char
  }

  function Escaped(e: Exploding, c: char): Exploding {
    var known := c == '\\' || c == '"' || (c == ' ' && e.mode == SimpleEscape);
    e.(temp := e.temp + [if known then c else Summed(c)],
       mode := if e.mode == SimpleEscape then SimpleString else QuotedString)
  }

  function Push(e: Exploding, mode: Mode): Exploding {
    Exploding(mode, "", e.res + [e.temp])
  }

  function ExplodeChar(e: Exploding, c: char): Exploding {
    match e.mode
    case Init =>
      if c == ' ' then e
      else if c == '"' then e.(mode := QuotedString)
      else if c == '\\' then e.(mode := SimpleEscape)
      else e.(temp := e.temp + [c], mode := SimpleString)
    case SimpleString =>
      if c == ' ' then Push(e, Init)
      else if c == '\\' then e.(mode := SimpleEscape)
      else if c == '"' then Push(e, QuotedString)
      else e.(temp := e.temp + [c])
    case QuotedString =>
      if c == '\\' then e.(mode := QuotedEscape)
      else if c == '"' then Push(e, Init)
      else e.(temp := e.temp + [c])
    case SimpleEscape => Escaped(e, c)
    case QuotedEscape => Escaped(e, c)
  }

  function ExplodeAll(e: Exploding, text: string): Exploding
    decreases |text|
  {
    if text == "" then e else ExplodeAll(ExplodeChar(e, text[0]), text[1..])
  }

  /** A last word without a closing quote or space is kept unless it is empty. */
  function Finish(e: Exploding): seq<string> {
    if e.temp != "" then e.res + [e.temp] else e.res
  }

  /** TcpClient::explode from the start of a string */
  function Words(text: string): seq<string> {
    Finish(ExplodeAll(START, text))
  }

  /** TcpClient::explode */
  method Explode(str: string, begin: nat) returns (res: seq<string>)
    ensures res == if begin <= |str| then Words(str[begin..]) else []
  {
    var e := START;
    var idx := begin;
    while idx < |str|
      invariant begin <= |str| ==> idx <= |str| && ExplodeAll(e, str[idx..]) == ExplodeAll(START, str[begin..])
      invariant begin > |str| ==> e == START
    {
      assert str[idx..][1..] == str[idx + 1..];
      e := ExplodeChar(e, str[idx]);
      idx := idx + 1;
    }
    res := e.res;
    if e.temp != "" {
      res := res + [e.temp];
    }
  }

  // ----- escape -----

  function EscapeChar(c: char): string {
    if c == '"' || c == '\\' then ['\\', c] else [c]
  }

  function EscapeBody(s: string): string {
    if s == "" then "" else EscapeChar(s[0]) + EscapeBody(s[1..])
  }

  lemma {:induction false} EscapeBodyConcat(a: string, b: string)
    ensures EscapeBody(a + b) == EscapeBody(a) + EscapeBody(b)
  {
    if a == "" {
      assert a + b == b;
    } else {
      assert (a + b)[0] == a[0] && (a + b)[1..] == a[1..] + b;
      EscapeBodyConcat(a[1..], b);
    }
  }

  function Escape(s: string): string {
    "\"" + EscapeBody(s) + "\""
  }

  /** TcpClient::escape */
  method EscapeString(str: string) returns (res: string)
    ensures res == Escape(str)
  {
    res := "\"";
    var n := 0;
    while n < |str|
      invariant n <= |str| && res == "\"" + EscapeBody(str[..n])
    {
      EscapeBodyConcat(str[..n], [str[n]]);
      assert str[..n + 1] == str[..n] + [str[n]];
      assert EscapeBody([str[n]]) == EscapeChar(str[n]) + "";
      assert EscapeChar(str[n]) + "" == EscapeChar(str[n]);
      if str[n] == '"' {
        res := res + "\\\"";
      } else if str[n] == '\\' {
        res := res + "\\\\";
      } else {
        res := res + [str[n]];
      }
      n := n + 1;
    }
    assert str[..n] == str;
    res := res + "\"";
  }

  // ----- explode undoes escape -----

  lemma {:induction false} ExplodeConcat(e: Exploding, a: string, b: string)
    ensures ExplodeAll(e, a + b) == ExplodeAll(ExplodeAll(e, a), b)
    decreases |a|
  {
    if a == "" {
      assert a + b == b;
    } else {
      assert (a + b)[0] == a[0] && (a + b)[1..] == a[1..] + b;
      ExplodeConcat(ExplodeChar(e, a[0]), a[1..], b);
    }
  }

  lemma ExplodeOne(e: Exploding, c: char)
    ensures ExplodeAll(e, [c]) == ExplodeChar(e, c)
  {
    assert [c][1..] == "";
  }

  lemma ExplodeEscapedChar(e: Exploding, c: char)
    requires e.mode == QuotedString
    ensures ExplodeAll(e, EscapeChar(c)) == e.(temp := e.temp + [c])
  {
    if c == '"' || c == '\\' {
      assert EscapeChar(c) == ['\\'] + [c];
      ExplodeConcat(e, ['\\'], [c]);
      ExplodeOne(e, '\\');
      ExplodeOne(e.(mode := QuotedEscape), c);
    } else {
      ExplodeOne(e, c);
    }
  }

  lemma {:induction false} ExplodeEscapeBody(e: Exploding, v: string)
    requires e.mode == QuotedString
    ensures ExplodeAll(e, EscapeBody(v)) == e.(temp := e.temp + v)
    decreases |v|
  {
    if v == "" {
      assert e.temp + v == e.temp;
    } else {
      ExplodeConcat(e, EscapeChar(v[0]), EscapeBody(v[1..]));
      ExplodeEscapedChar(e, v[0]);
      ExplodeEscapeBody(e.(temp := e.temp + [v[0]]), v[1..]);
      assert e.temp + [v[0]] + v[1..] == e.temp + v;
    }
  }

  lemma ExplodeInQuotes(e: Exploding, body: string, v: string)
    requires e.mode == Init && e.temp == ""
    requires ExplodeAll(e.(mode := QuotedString), body) == Exploding(QuotedString, v, e.res)
    ensures ExplodeAll(e, "\"" + body + "\"") == e.(res := e.res + [v])
  {
    ExplodeConcat(e, "\"" + body, "\"");
    ExplodeConcat(e, "\"", body);
    ExplodeOne(e, '"');
    ExplodeOne(Exploding(QuotedString, v, e.res), '"');
  }

  lemma ExplodeEscape(e: Exploding, v: string)
    requires e.mode == Init && e.temp == ""
    ensures ExplodeAll(e, Escape(v)) == e.(res := e.res + [v])
  {
    ExplodeEscapeBody(e.(mode := QuotedString), v);
    assert "" + v == v;
    ExplodeInQuotes(e, EscapeBody(v), v);
  }

  /** The escaped values as the client appends them to a request: each after a space. */
  function EscapedList(vs: seq<string>): string {
    if vs == [] then "" else " " + Escape(vs[0]) + EscapedList(vs[1..])
  }

  lemma {:induction false} ExplodeEscapedList(e: Exploding, vs: seq<string>)
    requires e.mode == Init && e.temp == ""
    ensures ExplodeAll(e, EscapedList(vs)) == e.(res := e.res + vs)
    decreases |vs|
  {
    if vs == [] {
      assert e.res + vs == e.res;
    } else {
      ExplodeConcat(e, " " + Escape(vs[0]), EscapedList(vs[1..]));
      ExplodeConcat(e, " ", Escape(vs[0]));
      ExplodeOne(e, ' ');
      ExplodeEscape(e, vs[0]);
      ExplodeEscapedList(e.(res := e.res + [vs[0]]), vs[1..]);
      assert e.res + [vs[0]] + vs[1..] == e.res + vs;
    }
  }

  /** Exploding escaped values returns them, whatever they hold: with a space before each as in a
      request, after a prefix that is skipped, and with spaces only in between. */
  lemma ExplodeUndoesEscape(prefix: string, vs: seq<string>)
    ensures Words((prefix + EscapedList(vs))[|prefix|..]) == vs
    ensures Words(EscapedList(vs)) == vs
    ensures vs != [] ==> Words(EscapedList(vs)[1..]) == vs
  {
    assert (prefix + EscapedList(vs))[|prefix|..] == EscapedList(vs);
    ExplodeEscapedList(START, vs);
    assert [] + vs == vs;
    if vs != [] {
      var joined := EscapedList(vs)[1..];
      assert EscapedList(vs) == " " + joined;
      ExplodeConcat(START, " ", joined);
      ExplodeOne(START, ' ');
    }
  }

  // ----- words without quotes -----

  /** The characters explode does not take literally. */
  predicate Meta(c: char) {
    c == ' ' || c == '"' || c == '\\'
  }

  predicate Bare(w: string) {
    w != "" && forall i :: 0 <= i < |w| ==> !Meta(w[i])
  }

  lemma {:induction false} ExplodeBare(e: Exploding, w: string)
    requires e.mode == Init || e.mode == SimpleString
    requires forall i :: 0 <= i < |w| ==> !Meta(w[i])
    ensures ExplodeAll(e, w) == e.(temp := e.temp + w, mode := if w == "" then e.mode else SimpleString)
    decreases |w|
  {
    if w == "" {
      assert e.temp + w == e.temp;
    } else {
      ExplodeBare(ExplodeChar(e, w[0]), w[1..]);
      assert e.temp + [w[0]] + w[1..] == e.temp + w;
    }
  }

  function TotalLength(ws: seq<string>): nat {
    if ws == [] then 0 else TotalLength(ws[..|ws| - 1]) + |ws[|ws| - 1]|
  }

  /** Characters kept so far, counting a pending backslash. */
  function Kept(e: Exploding): nat {
    TotalLength(e.res) + |e.temp| + if Pending(e) then 1 else 0
  }

  predicate Pending(e: Exploding) {
    e.mode == SimpleEscape || e.mode == QuotedEscape
  }

  lemma KeptGrows(e: Exploding, c: char)
    ensures Kept(ExplodeChar(e, c)) <= Kept(e) + 1
    ensures Pending(e) ==> Kept(ExplodeChar(e, c)) <= Kept(e)
    ensures !Pending(e) && e.mode != QuotedString && Meta(c) && c != '\\' ==> Kept(ExplodeChar(e, c)) <= Kept(e)
  {
    assert (e.res + [e.temp])[..|e.res|] == e.res;
  }

  lemma {:induction false} KeptBound(e: Exploding, text: string)
    ensures var r := ExplodeAll(e, text);
            && Kept(r) <= Kept(e) + |text|
            && (Pending(e) ==> TotalLength(r.res) + |r.temp| < Kept(e) + |text|)
    decreases |text|
  {
    if text != "" {
      KeptGrows(e, text[0]);
      KeptBound(ExplodeChar(e, text[0]), text[1..]);
    }
  }

  /** Outside quotes every character that is not taken literally costs at least one. */
  lemma {:induction false} MetaIsLost(e: Exploding, text: string, i: nat)
    requires e.mode == Init || e.mode == SimpleString
    requires i < |text| && Meta(text[i]) && forall k :: 0 <= k < i ==> !Meta(text[k])
    ensures var r := ExplodeAll(e, text); TotalLength(r.res) + |r.temp| < Kept(e) + |text|
    decreases i
  {
    var next := ExplodeChar(e, text[0]);
    KeptGrows(e, text[0]);
    if i == 0 {
      KeptBound(next, text[1..]);
    } else {
      MetaIsLost(next, text[1..], i - 1);
    }
  }

  lemma {:induction false} FirstMeta(w: string) returns (i: nat)
    requires w != "" && !Bare(w)
    ensures i < |w| && Meta(w[i]) && forall k :: 0 <= k < i ==> !Meta(w[k])
  {
    if Meta(w[0]) {
      i := 0;
    } else {
      var rest := FirstMeta(w[1..]);
      i := rest + 1;
    }
  }

  lemma MetaShortens(w: string)
    requires w != "" && !Bare(w)
    ensures TotalLength(Words(w)) < |w|
  {
    var e := ExplodeAll(START, w);
    var i := FirstMeta(w);
    MetaIsLost(START, w, i);
    assert (e.res + [e.temp])[..|e.res|] == e.res;
  }

  /** A word sent without quotes comes back as itself exactly when it is bare. */
  lemma BareWordIff(w: string)
    ensures Words(w) == [w] <==> Bare(w)
  {
    if Bare(w) {
      ExplodeBare(START, w);
      assert "" + w == w && [] + [w] == [w];
    } else if w != "" {
      MetaShortens(w);
      assert [w][..0] == [];
      assert TotalLength([w]) == |w|;
    }
  }

  // ----- client to server -----

  lemma {:induction false} ServerReadsBody(s: Scan, lim: Limits, before: string, v: string)
    requires s.state == QuoteCollect && s.word == Fit(before, lim) && AllPrintable(v)
    ensures var r := Run(s, lim, EscapeBody(v));
            if '#' in v then r.state == ParseErr && r.error else r == s.(word := Fit(before + v, lim))
    decreases |v|
  {
    if v == "" {
      assert before + v == before;
    } else {
      var c := v[0];
      assert Printable(c);
      assert v == [c] + v[1..];
      var next := s.(word := Fit(before + [c], lim));
      RunConcat(s, lim, EscapeChar(c), EscapeBody(v[1..]));
      if c == '#' {
        RunOne(s, lim, c);
        RunStopped(Step(s, lim, c), lim, EscapeBody(v[1..]));
      } else {
        ServerReadsChar(s, lim, before, c);
        ServerReadsBody(next, lim, before + [c], v[1..]);
        assert before + [c] + v[1..] == before + v;
      }
    }
  }

  lemma ServerReadsChar(s: Scan, lim: Limits, before: string, c: char)
    requires s.state == QuoteCollect && s.word == Fit(before, lim) && Printable(c) && c != '#'
    ensures Run(s, lim, EscapeChar(c)) == s.(word := Fit(before + [c], lim))
  {
    if c == '"' || c == '\\' {
      assert EscapeChar(c) == ['\\'] + [c];
      RunConcat(s, lim, ['\\'], [c]);
      RunOne(s, lim, '\\');
      RunOne(Step(s, lim, '\\'), lim, c);
    } else {
      RunOne(s, lim, c);
    }
  }

  /** escape puts no backslash before a number sign, which ends a quoted word with a parse error
      on the server: an escaped value is read as the value exactly when it holds none. */
  lemma ServerReadsEscaped(s: Scan, lim: Limits, v: string)
    requires s.state == FindWordStart && s.word == "" && AllPrintable(v)
    ensures var r := Run(s, lim, Escape(v));
            if '#' in v then r.state == ParseErr && r.error else r == PutArg(s, lim, v)
  {
    var inQuotes := s.(state := QuoteCollect);
    RunConcat(s, lim, "\"" + EscapeBody(v), "\"");
    RunConcat(s, lim, "\"", EscapeBody(v));
    RunOne(s, lim, '"');
    ServerReadsBody(inQuotes, lim, "", v);
    assert "" + v == v;
    var body := Run(inQuotes, lim, EscapeBody(v));
    RunOne(body, lim, '"');
  }

  /** The request of setDeviceVariable for one value. */
  function SetCommand(dev: string, name: string, value: string): string {
    "SET VAR " + dev + " " + name + " " + Escape(value)
  }

  lemma SetCommandShape(dev: string, name: string, value: string)
    ensures SetCommand(dev, name, value) == PlainLine(["SET", "VAR", dev, name]) + Escape(value)
  {
    var ws := ["SET", "VAR", dev, name];
    assert ws[1..] == ["VAR", dev, name] && ws[1..][1..] == [dev, name] && ws[1..][1..][1..] == [name];
    assert PlainLine([name]) == name + " " + "" == name + " ";
    assert PlainLine([dev, name]) == dev + " " + (name + " ");
    assert PlainLine(ws[1..]) == "VAR" + " " + (dev + " " + (name + " "));
    assert "SET VAR " + dev + " " + name + " " == "SET" + " " + ("VAR" + " " + (dev + " " + (name + " ")));
  }

  lemma ServerReadsRequest(s: Scan, lim: Limits, ws: seq<string>, value: string)
    requires s.word == "" && AllPrintable(value) && forall w :: w in ws ==> Plain(w)
    requires WithinLimits(ws + [value], lim)
    ensures var r := Run(Fresh(s), lim, PlainLine(ws) + Escape(value));
            if '#' in value then r.state == ParseErr && r.error else r == Fresh(s).(args := ws + [value])
  {
    assert forall w :: w in ws ==> w in ws + [value];
    assert value in ws + [value];
    FitAllExactly(ws, lim, 0);
    RunPlainLine(Fresh(s), lim, ws);
    assert [] + ws == ws;
    RunConcat(Fresh(s), lim, PlainLine(ws), Escape(value));
    ServerReadsEscaped(Fresh(s).(args := ws), lim, value);
  }

  function FirstHash(v: string): (n: nat)
    requires '#' in v
    ensures n < |v| && v[n] == '#' && '#' !in v[..n]
  {
    if v[0] == '#' then 0
    else
      var n := 1 + FirstHash(v[1..]);
      assert v[..n] == [v[0]] + v[1..][..n - 1];
      n
  }

  lemma {:induction false} EscapeKeepsHashes(v: string)
    ensures Upsd.Hashes(EscapeBody(v)) == Upsd.Hashes(v)
  {
    if v != "" {
      Upsd.HashesConcat(EscapeChar(v[0]), EscapeBody(v[1..]));
      if |EscapeChar(v[0])| == 2 {
        assert EscapeChar(v[0])[1..] == [v[0]];
      }
      EscapeKeepsHashes(v[1..]);
    }
  }

  /** What the server is still to read when the first number sign of the value has come. */
  function AfterHash(value: string): string
    requires '#' in value
  {
    EscapeBody(value[FirstHash(value) + 1..]) + ("\"" + "\n")
  }

  lemma EscapeAtHash(value: string)
    requires '#' in value
    ensures EscapeBody(value) == EscapeBody(value[..FirstHash(value)]) + ("#" + EscapeBody(value[FirstHash(value) + 1..]))
    ensures Upsd.Hashes(value) > Upsd.Hashes(value[FirstHash(value) + 1..])
  {
    var n := FirstHash(value);
    var head, tail := value[..n], value[n + 1..];
    assert value == head + (['#'] + tail);
    assert (['#'] + tail)[0] == '#' && (['#'] + tail)[1..] == tail;
    EscapeBodyConcat(head, ['#'] + tail);
    Upsd.HashesConcat(head, ['#'] + tail);
  }

  lemma SetCommandAtHash(line: string, value: string)
    requires '#' in value
    ensures line + Escape(value) + "\n" ==
            (line + ("\"" + EscapeBody(value[..FirstHash(value)]))) + ("#" + AfterHash(value))
  {
    var head, tail := EscapeBody(value[..FirstHash(value)]), EscapeBody(value[FirstHash(value) + 1..]);
    EscapeAtHash(value);
    Regroup(line, head, tail);
  }

  lemma Regroup(line: string, head: string, tail: string)
    ensures line + ("\"" + (head + ("#" + tail)) + "\"") + "\n" ==
            (line + ("\"" + head)) + ("#" + (tail + ("\"" + "\n")))
  {
    var end := "\"" + "\n";
    assert ("\"" + (head + ("#" + tail)) + "\"") + "\n" == ("\"" + head) + (("#" + tail) + end);
    assert ("#" + tail) + end == "#" + (tail + end);
    Assoc(line, "\"" + head, "#" + (tail + end));
  }

  lemma RestHashes(tail: string)
    ensures Upsd.Hashes(EscapeBody(tail) + ("\"" + "\n")) == Upsd.Hashes(tail)
  {
    Upsd.HashesConcat(EscapeBody(tail), "\"" + "\n");
    EscapeKeepsHashes(tail);
    assert ("\"" + "\n")[1..] == "\n" && "\n"[1..] == "";
  }

  /** The server is in the middle of the quoted value when the first number sign comes. */
  lemma RunToHash(s: Scan, lim: Limits, ws: seq<string>, head: string)
    requires s.state == FindWordStart && s.word == "" && s.args == [] && AllPrintable(head) && '#' !in head
    requires forall w :: w in ws ==> Plain(w)
    ensures Run(s, lim, PlainLine(ws) + ("\"" + EscapeBody(head))).state == QuoteCollect
  {
    var t := s.(args := s.args + FitAll(ws, lim, |s.args|));
    RunPlainLine(s, lim, ws);
    RunConcat(s, lim, PlainLine(ws), "\"" + EscapeBody(head));
    RunConcat(t, lim, "\"", EscapeBody(head));
    RunOne(t, lim, '"');
    ServerReadsBody(t.(state := QuoteCollect), lim, "", head);
  }

  /** The line the server completes of a value without number signs, wherever its reads cut it. */
  lemma SetCommandHeard(s: Scan, lim: Limits, ws: seq<string>, value: string, chunks: seq<string>)
    requires BetweenLines(s) && AllPrintable(value) && forall w :: w in ws ==> Plain(w)
    requires WithinLimits(ws + [value], lim) && '#' !in value
    requires Upsd.Together(chunks) == PlainLine(ws) + Escape(value) + "\n"
    ensures Upsd.Hear(s, lim, chunks).lines == [ws + [value]]
  {
    var text := PlainLine(ws) + Escape(value);
    ServerReadsRequest(s, lim, ws, value);
    RequestNeverErrs(s, lim, text);
    Upsd.HearIgnoresChunking(s, lim, chunks);
    FeedFresh(s, lim, text + "\n");
    FeedLineThenNewline(Fresh(s), lim, text);
  }

  lemma RequestNeverErrs(s: Scan, lim: Limits, text: string)
    requires BetweenLines(s) && text != "" && Run(Fresh(s), lim, text).state == FindWordStart
    ensures Upsd.NeverErrs(s, lim, text + "\n")
  {
    Upsd.UnstoppedNeverErrs(Fresh(s), lim, text);
    Upsd.NeverErrsConcat(Fresh(s), lim, text, "\n");
    FeedCharsIsRun(Fresh(s), lim, text);
    assert "\n"[1..] == "";
    assert (text + "\n")[0] == text[0];
  }

  /** A value set through the library reaches the server's command dispatcher unchanged, in one line
      and wherever its reads cut the command, exactly when it holds no number sign. */
  lemma SetCommandArrivesIff(s: Scan, lim: Limits, dev: string, name: string, value: string, chunks: seq<string>)
    requires BetweenLines(s) && Plain(dev) && Plain(name) && AllPrintable(value)
    requires WithinLimits(["SET", "VAR", dev, name] + [value], lim)
    requires Upsd.Together(chunks) == SetCommand(dev, name, value) + "\n"
    ensures Upsd.Hear(s, lim, chunks).lines == [["SET", "VAR", dev, name] + [value]] <==> '#' !in value
  {
    var ws := ["SET", "VAR", dev, name];
    assert Plain("SET") && Plain("VAR");
    SetCommandShape(dev, name, value);
    if '#' in value {
      HashedCommandMisses(s, lim, ws, value, chunks);
    } else {
      SetCommandHeard(s, lim, ws, value, chunks);
    }
  }

  lemma HashedCommandMisses(s: Scan, lim: Limits, ws: seq<string>, value: string, chunks: seq<string>)
    requires BetweenLines(s) && AllPrintable(value) && '#' in value && forall w :: w in ws ==> Plain(w)
    requires Upsd.Together(chunks) == PlainLine(ws) + Escape(value) + "\n"
    ensures Upsd.Hear(s, lim, chunks).lines != [ws + [value]]
  {
    var head := value[..FirstHash(value)];
    var lines := Upsd.Hear(Fresh(s), lim, chunks).lines;
    SetCommandAtHash(PlainLine(ws), value);
    EscapeAtHash(value);
    RestHashes(value[FirstHash(value) + 1..]);
    RunToHash(Fresh(s), lim, ws, head);
    HeardFresh(s, lim, chunks);
    Upsd.ErringLosesHash(Fresh(s), lim, chunks, PlainLine(ws) + ("\"" + EscapeBody(head)), AfterHash(value));
    Upsd.SnocHashes(ws, value);
    Upsd.TooManyHashes(lines, ws + [value], Upsd.Hashes(AfterHash(value)));
  }

  lemma {:induction false} HeardFresh(s: Scan, lim: Limits, chunks: seq<string>)
    requires BetweenLines(s) && Upsd.Together(chunks) != ""
    ensures Upsd.Hear(s, lim, chunks).lines == Upsd.Hear(Fresh(s), lim, chunks).lines
    decreases |chunks|
  {
    if chunks[0] == "" {
      assert "" + Upsd.Together(chunks[1..]) == Upsd.Together(chunks[1..]);
      HeardFresh(s, lim, chunks[1..]);
    }
  }

  // ----- server to client -----

  /** A value the server encoded, as explode reads it: each number sign has become DEL. */
  function Received(v: string): (r: string)
    ensures |r| == |v|
    ensures forall i :: 0 <= i < |v| ==> r[i] == if v[i] == '#' then '\U{7f}' else v[i]
  {
    if v == "" then "" else [if v[0] == '#' then '\U{7f}' else v[0]] + Received(v[1..])
  }

  lemma ExplodeEncodedChar(e: Exploding, c: char)
    requires e.mode == QuotedString
    ensures ExplodeAll(e, EncodeChar(c)) == e.(temp := e.temp + [if c == '#' then '\U{7f}' else c])
  {
    if Special(c) {
      assert EncodeChar(c) == ['\\'] + [c];
      ExplodeConcat(e, ['\\'], [c]);
      ExplodeOne(e, '\\');
      ExplodeOne(e.(mode := QuotedEscape), c);
      assert Summed('#') == '\U{7f}';
    } else {
      ExplodeOne(e, c);
    }
  }

  lemma {:induction false} ExplodeEncoded(e: Exploding, v: string)
    requires e.mode == QuotedString
    ensures ExplodeAll(e, Encode(v)) == e.(temp := e.temp + Received(v))
    decreases |v|
  {
    if v == "" {
      assert e.temp + "" == e.temp;
    } else {
      var c := if v[0] == '#' then '\U{7f}' else v[0];
      ExplodeConcat(e, EncodeChar(v[0]), Encode(v[1..]));
      ExplodeEncodedChar(e, v[0]);
      ExplodeEncoded(e.(temp := e.temp + [c]), v[1..]);
      Assoc(e.temp, [c], Received(v[1..]));
    }
  }

  /** A row of the server's variable list after its prefix: the name and the encoded value. The
      client reads both back unchanged exactly when the value holds no number sign. */
  lemma RowArrivesIff(name: string, v: string)
    requires Bare(name)
    ensures Words(" " + name + " " + Quoted(v)) == [name, Received(v)]
    ensures Words(" " + name + " " + Quoted(v)) == [name, v] <==> '#' !in v
  {
    var named := Exploding(SimpleString, name, []);
    var between := Exploding(Init, "", [name]);
    ExplodeConcat(START, " " + name + " ", Quoted(v));
    ExplodeConcat(START, " " + name, " ");
    ExplodeConcat(START, " ", name);
    ExplodeOne(START, ' ');
    ExplodeBare(START, name);
    assert "" + name == name && [] + [name] == [name];
    ExplodeOne(named, ' ');
    ExplodeEncoded(between.(mode := QuotedString), v);
    assert "" + Received(v) == Received(v);
    ExplodeInQuotes(between, Encode(v), Received(v));
    assert [name] + [Received(v)] == [name, Received(v)];
    if '#' in v {
      var i :| 0 <= i < |v| && v[i] == '#';
      assert Received(v)[i] != v[i];
    } else {
      assert Received(v) == v;
    }
  }
}
