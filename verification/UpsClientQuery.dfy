// GET and LIST over the C client library (clients/upsclient.c): a built command goes out, lines
// come back through the reader, the parser and the checks of the answer.
module UpsClientQuery {
  import opened ParseConf
  import opened ParseConfContext
  import opened Streams
  import opened Text
  import opened UpsClientCommand
  import opened UpsClientReader
  import opened Upsd

  /** A connection, its parser, and what the parser's argument slots hold. */
  datatype Session = Session(conn: Conn, scan: Scan, slots: seq<string>)

  /** What a call reports; Undefined when it compares a query with argument slots that do not exist. */
  datatype Verdict = Words(args: seq<string>) | End(args: seq<string>) | Error(why: Problem) | Undefined

  datatype Step = Step(verdict: Verdict, session: Session)

  const TMP: nat := NETBUF_LEN - 1

  // ----- the three calls -----

  /** upscli_readline into a fresh buffer, upscli_errcheck, pconf_line */
  function NextLine(s: Session, lim: Limits): (r: Step)
    ensures r.verdict.Words? ==> r.verdict.args == r.session.scan.args <= r.session.slots
  {
    if !s.conn.open then Step(Error(DriverNotConnected), s)
    else
      var p := ReadPiece(s.conn, TMP, "");
      var after := s.(conn := p.conn);
      var line := CString(p.text + [NUL]);
      if !p.ok then Step(Error(Cause(s.conn)), after)
      else if "ERR" <= line then Step(Error(ReportedByServer), after)
      else
        var scan := ParseLine(s.scan, lim, line);
        Step(Words(scan.args), after.(scan := scan, slots := SlotsAfter(s.slots, scan.args)))
  }

  /** verify_resp on the slots from `skip` on */
  function Verify(query: seq<string>, args: seq<string>, slots: seq<string>, skip: nat): Verdict
    requires skip <= |slots|
  {
    match Compare(query, slots[skip..])
    case Same => Words(args)
    case Different => Error(ProtocolError)
    case Beyond => Undefined
  }

  function GetVerdict(query: seq<string>, args: seq<string>, slots: seq<string>): Verdict
    requires args <= slots
  {
    if |args| < |query| then Error(ProtocolError) else Verify(query, args, slots, 0)
  }

  function StartVerdict(query: seq<string>, args: seq<string>, slots: seq<string>): Verdict
    requires args <= slots
  {
    if |args| < 2 || !Echoes(["BEGIN", "LIST"], args) then Error(ProtocolError)
    else Verify(query, args, slots, 2)
  }

  function NextVerdict(query: seq<string>, args: seq<string>, slots: seq<string>): Verdict
    requires args <= slots
  {
    if |args| < 1 then Error(ProtocolError)
    else if |args| >= 2 && args[0] == "END" && args[1] == "LIST" then End(args)
    else Verify(query, args, slots, 0)
  }

  datatype Call = GetCall | StartCall | NextCall

  /** The line is only looked at when one was read. */
  function Judged(call: Call, query: seq<string>, r: Step): Step
    requires r.verdict.Words? ==> r.verdict.args <= r.session.slots
  {
    if !r.verdict.Words? then r
    else
      r.(verdict := match call
                    case GetCall => GetVerdict(query, r.verdict.args, r.session.slots)
                    case StartCall => StartVerdict(query, r.verdict.args, r.session.slots)
                    case NextCall => NextVerdict(query, r.verdict.args, r.session.slots))
  }

  function Asked(s: Session, cmd: string, query: seq<string>): Session {
    if s.conn.open then s.(conn := s.conn.(sent := s.conn.sent + [Command(NETBUF_LEN, cmd, query)])) else s
  }

  function GetStep(s: Session, lim: Limits, query: seq<string>): Step {
    if |query| < 1 then Step(Error(InvalidArgument), s)
    else Judged(GetCall, query, NextLine(Asked(s, "GET", query), lim))
  }

  function StartStep(s: Session, lim: Limits, query: seq<string>): Step {
    if |query| < 1 then Step(Error(InvalidArgument), s)
    else Judged(StartCall, query, NextLine(Asked(s, "LIST", query), lim))
  }

  function NextStep(s: Session, lim: Limits, query: seq<string>): Step {
    Judged(NextCall, query, NextLine(s, lim))
  }

  datatype Walk = Walk(rows: seq<seq<string>>, last: Step)

  lemma NextLineShrinks(s: Session, lim: Limits)
    requires NextLine(s, lim).verdict.Words?
    ensures |Unread(NextLine(s, lim).session.conn)| < |Unread(s.conn)|
  {
    ReadsCut(s.conn, TMP, "");
  }

  /** The caller's loop: next line after next line until something other than a row comes. */
  function ListRest(s: Session, lim: Limits, query: seq<string>): Walk
    decreases |Unread(s.conn)|
  {
    var r := NextStep(s, lim, query);
    if !r.verdict.Words? then Walk([], r)
    else
      NextLineShrinks(s, lim);
      var w := ListRest(r.session, lim, query);
      w.(rows := [r.verdict.args] + w.rows)
  }

  // ----- a list of the server, end to end -----

  predicate Short(line: string) {
    '\n' !in line && NUL !in line && |line| < TMP
  }

  lemma {:induction false} CStringWhole(s: string)
    requires NUL !in s
    ensures CString(s + [NUL]) == s
  {
    if s != "" {
      assert (s + [NUL])[1..] == s[1..] + [NUL];
      CStringWhole(s[1..]);
    }
  }

  /** When the line has enough words, what the slots held before does not matter. */
  lemma VerifyEchoes(query: seq<string>, args: seq<string>, slots: seq<string>)
    requires args <= slots && |query| <= |args|
    ensures Verify(query, args, slots, 0) == if Echoes(query, args) then Words(args) else Error(ProtocolError)
  {
    assert slots[0..] == slots;
    assert forall i :: 0 <= i < |query| ==> slots[i] == args[i];
  }

  /** A line that fits the buffer comes through the reader whole. */
  lemma LineRead(s: Session, lim: Limits, line: string, rest: string)
    requires s.conn.open && Short(line) && Unread(s.conn) == line + "\n" + rest
    ensures var p := ReadPiece(s.conn, TMP, "");
            && p.ok && CString(p.text + [NUL]) == line
            && p.conn.open && Unread(p.conn) == rest && p.conn.sent == s.conn.sent
  {
    ReadsCut(s.conn, TMP, "");
    LineWholeIff(line, rest, TMP);
    CStringWhole(line);
    assert "" + line == line;
  }

  /** And, unless it reports an error, through the parser. */
  lemma LineReceived(s: Session, lim: Limits, line: string, rest: string)
    requires s.conn.open && Short(line) && !("ERR" <= line)
    requires Unread(s.conn) == line + "\n" + rest
    ensures var r := NextLine(s, lim);
            && r.verdict == Words(ParseLine(s.scan, lim, line).args)
            && r.session.scan == ParseLine(s.scan, lim, line)
            && r.session.conn.open && Unread(r.session.conn) == rest && r.session.conn.sent == s.conn.sent
  {
    LineRead(s, lim, line, rest);
  }

  /** The words of a row as upsd means it. */
  function RowWords(dev: string, v: Variable): seq<string> {
    ["VAR", dev, v.name] + [v.value]
  }

  lemma ThreePlain(a: string, b: string, c: string)
    ensures PlainLine([a, b, c]) == a + " " + (b + " " + (c + " "))
  {
    assert [a, b, c][1..] == [b, c] && [b, c][1..] == [c] && [c][1..] == [];
    assert PlainLine([c]) == c + " " + "" == c + " ";
  }

  lemma RowText(dev: string, v: Variable)
    ensures Row(dev, v) == PlainLine(["VAR", dev, v.name]) + Quoted(v.value)
  {
    var q := Quoted(v.value);
    ThreePlain("VAR", dev, v.name);
    assert "VAR " == "VAR" + " ";
    assert " " + v.name + " " + q == " " + (v.name + " ") + q;
    assert "VAR " + dev + (" " + (v.name + " ") + q) == "VAR " + (dev + " " + (v.name + " ")) + q;
  }

  lemma RowParsed(s: Scan, lim: Limits, dev: string, v: Variable)
    requires s.word == "" && Plain(dev) && Plain(v.name) && AllPrintable(v.value)
    requires WithinLimits(RowWords(dev, v), lim)
    ensures ParseLine(s, lim, Row(dev, v)).args == RowWords(dev, v)
    ensures ParseLine(s, lim, Row(dev, v)).word == ""
  {
    assert Plain("VAR");
    RowText(dev, v);
    QuotedAfterPlain(s, lim, ["VAR", dev, v.name], v.value);
  }

  lemma QuotedAfterPlain(s: Scan, lim: Limits, ws: seq<string>, value: string)
    requires s.word == "" && AllPrintable(value) && forall w :: w in ws ==> Plain(w)
    requires WithinLimits(ws + [value], lim)
    ensures ParseLine(s, lim, PlainLine(ws) + Quoted(value)) == Fresh(s).(args := ws + [value])
  {
    assert forall w :: w in ws ==> w in ws + [value];
    assert value in ws + [value];
    FitAllExactly(ws, lim, 0);
    RunPlainLine(Fresh(s), lim, ws);
    assert [] + ws == ws;
    RunConcat(Fresh(s), lim, PlainLine(ws), Quoted(value));
    RunQuoted(Fresh(s).(args := ws), lim, value);
  }

  predicate GoodRow(dev: string, v: Variable, lim: Limits) {
    && Plain(v.name) && AllPrintable(v.value) && WithinLimits(RowWords(dev, v), lim)
    && Short(Row(dev, v))
  }

  lemma RowReceived(s: Session, lim: Limits, dev: string, v: Variable, rest: string)
    requires s.conn.open && s.scan.word == "" && Plain(dev) && GoodRow(dev, v, lim)
    requires Unread(s.conn) == Row(dev, v) + "\n" + rest
    ensures var r := NextStep(s, lim, ["VAR", dev]);
            && r.verdict == Words(RowWords(dev, v)) && r.session.conn.open && r.session.scan.word == ""
            && Unread(r.session.conn) == rest && r.session.conn.sent == s.conn.sent
  {
    assert Row(dev, v)[0] == 'V';
    LineReceived(s, lim, Row(dev, v), rest);
    RowParsed(s.scan, lim, dev, v);
    var args := RowWords(dev, v);
    VerifyEchoes(["VAR", dev], args, NextLine(s, lim).session.slots);
    assert args[0] == "VAR" != "END" by { assert "VAR"[0] != "END"[0]; }
    assert Echoes(["VAR", dev], args);
  }

  function RowsWords(dev: string, vs: seq<Variable>): seq<seq<string>> {
    if vs == [] then [] else [RowWords(dev, vs[0])] + RowsWords(dev, vs[1..])
  }

  function Trailer(dev: string): string {
    "END LIST VAR " + dev
  }

  lemma HeaderParsed(s: Scan, lim: Limits, mark: string, dev: string)
    requires s.word == "" && Plain(mark) && Plain(dev)
    requires WithinLimits([mark, "LIST", "VAR"] + [dev], lim)
    ensures var r := ParseLine(s, lim, mark + " LIST VAR " + dev); r.args == [mark, "LIST", "VAR", dev] && r.word == ""
  {
    var ws := [mark, "LIST", "VAR"];
    var all := ws + [dev];
    assert Plain("LIST") && Plain("VAR");
    assert forall w :: w in ws ==> w in all;
    assert dev in all;
    ThreePlain(mark, "LIST", "VAR");
    assert mark + " LIST VAR " + dev == PlainLine(ws) + dev by {
      assert " LIST VAR " == " " + ("LIST" + " " + ("VAR" + " "));
    }
    PlainAfterPlain(s, lim, ws, dev);
  }

  lemma PlainAfterPlain(s: Scan, lim: Limits, ws: seq<string>, w: string)
    requires s.word == "" && Plain(w) && forall v :: v in ws ==> Plain(v)
    requires WithinLimits(ws + [w], lim)
    ensures var r := ParseLine(s, lim, PlainLine(ws) + w); r.args == ws + [w] && r.word == ""
  {
    var t := Fresh(s).(args := ws);
    assert forall v :: v in ws ==> v in ws + [w];
    assert w in ws + [w];
    FitAllExactly(ws, lim, 0);
    RunPlainLine(Fresh(s), lim, ws);
    assert [] + ws == ws;
    RunConcat(Fresh(s), lim, PlainLine(ws), w);
    LastWordParsed(s, lim, t, PlainLine(ws) + w, w);
  }

  lemma LastWordParsed(s: Scan, lim: Limits, t: Scan, line: string, w: string)
    requires t.state == FindWordStart && t.word == "" && Plain(w) && Run(Fresh(s), lim, line) == Run(t, lim, w)
    requires (lim.args == 0 || |t.args| < lim.args) && (lim.wordLen == 0 || |w| <= lim.wordLen)
    ensures var r := ParseLine(s, lim, line); r.args == t.args + [w] && r.word == ""
  {
    RunPlainWord(t, lim, w);
  }

  /** The rows in order, then the end, and nothing read beyond it. */
  lemma {:induction false} RowsReceived(s: Session, lim: Limits, dev: string, vs: seq<Variable>, rest: string)
    requires s.conn.open && s.scan.word == "" && Plain(dev)
    requires WithinLimits(["END", "LIST", "VAR"] + [dev], lim) && Short(Trailer(dev))
    requires forall i :: 0 <= i < |vs| ==> GoodRow(dev, vs[i], lim)
    requires Unread(s.conn) == Joined(Rows(dev, vs) + [Trailer(dev)]) + rest
    ensures var w := ListRest(s, lim, ["VAR", dev]);
            && w.rows == RowsWords(dev, vs) && w.last.verdict == End(["END", "LIST", "VAR", dev])
            && Unread(w.last.session.conn) == rest && w.last.session.conn.sent == s.conn.sent
    decreases |vs|
  {
    var lines := Rows(dev, vs);
    if vs == [] {
      TrailerReceived(s, lim, dev, rest);
    } else {
      var more := Rows(dev, vs[1..]) + [Trailer(dev)];
      assert lines + [Trailer(dev)] == [lines[0]] + more;
      JoinedFirst(lines[0], more);
      Assoc(lines[0] + "\n", Joined(more), rest);
      RowReceived(s, lim, dev, vs[0], Joined(more) + rest);
      RowsReceived(NextStep(s, lim, ["VAR", dev]).session, lim, dev, vs[1..], rest);
    }
  }

  lemma TrailerReceived(s: Session, lim: Limits, dev: string, rest: string)
    requires s.conn.open && s.scan.word == "" && Plain(dev)
    requires WithinLimits(["END", "LIST", "VAR"] + [dev], lim) && Short(Trailer(dev))
    requires Unread(s.conn) == Joined([] + [Trailer(dev)]) + rest
    ensures var r := NextStep(s, lim, ["VAR", dev]);
            r.verdict == End(["END", "LIST", "VAR", dev]) && Unread(r.session.conn) == rest && r.session.conn.sent == s.conn.sent
  {
    var line := Trailer(dev);
    assert [] + [line] == [line] + [];
    JoinedFirst(line, []);
    Assoc(line + "\n", "", rest);
    assert "" + rest == rest;
    assert line == "END" + " LIST VAR " + dev;
    assert Plain("END");
    HeaderReceived(s, lim, "END", dev, rest);
  }

  /** Against upsd's list of a device, with every line shorter than the buffer: the list starts,
      the rows come back in order with every value as upsd shows it, number signs included, the end
      is recognised, one query was sent, and exactly the reply was read. */
  lemma ListReturnsVariables(s: Session, lim: Limits, dev: string, vs: seq<Variable>, fsd: bool, rest: string)
    requires s.conn.open && s.scan.word == "" && Plain(dev)
    requires WithinLimits(["BEGIN", "LIST", "VAR"] + [dev], lim) && Short("BEGIN LIST VAR " + dev)
    requires forall i :: 0 <= i < |vs| ==> GoodRow(dev, Shown(vs[i], fsd), lim)
    requires Unread(s.conn) == Joined(["BEGIN LIST VAR " + dev] + (ServerRows(dev, vs, fsd) + [Trailer(dev)])) + rest
    ensures var start := StartStep(s, lim, ["VAR", dev]);
            var w := ListRest(start.session, lim, ["VAR", dev]);
            && start.verdict == Words(["BEGIN", "LIST", "VAR", dev])
            && w.rows == RowsWords(dev, AllShown(vs, fsd)) && w.last.verdict.End?
            && Unread(w.last.session.conn) == rest
            && w.last.session.conn.sent == s.conn.sent + [Command(NETBUF_LEN, "LIST", ["VAR", dev])]
  {
    ServerRowsShow(dev, vs, fsd);
    ShownListReturned(s, lim, dev, AllShown(vs, fsd), rest);
  }

  lemma ShownListReturned(s: Session, lim: Limits, dev: string, vs: seq<Variable>, rest: string)
    requires s.conn.open && s.scan.word == "" && Plain(dev)
    requires WithinLimits(["BEGIN", "LIST", "VAR"] + [dev], lim) && Short("BEGIN LIST VAR " + dev)
    requires forall i :: 0 <= i < |vs| ==> GoodRow(dev, vs[i], lim)
    requires Unread(s.conn) == Joined(["BEGIN LIST VAR " + dev] + (Rows(dev, vs) + [Trailer(dev)])) + rest
    ensures var start := StartStep(s, lim, ["VAR", dev]);
            var w := ListRest(start.session, lim, ["VAR", dev]);
            && start.verdict == Words(["BEGIN", "LIST", "VAR", dev])
            && w.rows == RowsWords(dev, vs) && w.last.verdict.End?
            && Unread(w.last.session.conn) == rest
            && w.last.session.conn.sent == s.conn.sent + [Command(NETBUF_LEN, "LIST", ["VAR", dev])]
  {
    var more := Rows(dev, vs) + [Trailer(dev)];
    var head := "BEGIN LIST VAR " + dev;
    JoinedFirst(head, more);
    Assoc(head + "\n", Joined(more), rest);
    StartReceived(s, lim, dev, Joined(more) + rest);
    EndWithinLimits(dev, lim);
    RowsReceived(StartStep(s, lim, ["VAR", dev]).session, lim, dev, vs, rest);
  }

  lemma StartReceived(s: Session, lim: Limits, dev: string, rest: string)
    requires s.conn.open && s.scan.word == "" && Plain(dev)
    requires WithinLimits(["BEGIN", "LIST", "VAR"] + [dev], lim) && Short("BEGIN LIST VAR " + dev)
    requires Unread(s.conn) == "BEGIN LIST VAR " + dev + "\n" + rest
    ensures var r := StartStep(s, lim, ["VAR", dev]);
            && r.verdict == Words(["BEGIN", "LIST", "VAR", dev])
            && r.session.conn.open && r.session.scan.word == "" && Unread(r.session.conn) == rest
            && r.session.conn.sent == s.conn.sent + [Command(NETBUF_LEN, "LIST", ["VAR", dev])]
  {
    assert "BEGIN LIST VAR " + dev == "BEGIN" + " LIST VAR " + dev;
    assert Plain("BEGIN");
    HeaderReceived(Asked(s, "LIST", ["VAR", dev]), lim, "BEGIN", dev, rest);
    StartAccepted(dev, NextLine(Asked(s, "LIST", ["VAR", dev]), lim).session.slots);
  }

  /** The first or last line of a list comes through as its four words. */
  lemma HeaderReceived(s: Session, lim: Limits, mark: string, dev: string, rest: string)
    requires s.conn.open && s.scan.word == "" && Plain(mark) && Plain(dev)
    requires |mark| >= 2 && mark[1] != 'R' && Short(mark + " LIST VAR " + dev)
    requires WithinLimits([mark, "LIST", "VAR"] + [dev], lim)
    requires Unread(s.conn) == mark + " LIST VAR " + dev + "\n" + rest
    ensures var r := NextLine(s, lim);
            && r.verdict == Words([mark, "LIST", "VAR", dev])
            && r.session.conn.open && r.session.scan.word == "" && Unread(r.session.conn) == rest
            && r.session.conn.sent == s.conn.sent
  {
    var line := mark + " LIST VAR " + dev;
    assert line[1] == mark[1];
    LineReceived(s, lim, line, rest);
    HeaderParsed(s.scan, lim, mark, dev);
  }

  lemma StartAccepted(dev: string, slots: seq<string>)
    requires ["BEGIN", "LIST", "VAR", dev] <= slots
    ensures StartVerdict(["VAR", dev], ["BEGIN", "LIST", "VAR", dev], slots) == Words(["BEGIN", "LIST", "VAR", dev])
  {
    var args := ["BEGIN", "LIST", "VAR", dev];
    assert slots[2..][0] == args[2] && slots[2..][1] == args[3];
    assert Echoes(["VAR", dev], slots[2..]) && Echoes(["BEGIN", "LIST"], args);
  }

  lemma EndWithinLimits(dev: string, lim: Limits)
    requires WithinLimits(["BEGIN", "LIST", "VAR"] + [dev], lim) && Short("BEGIN LIST VAR " + dev)
    ensures WithinLimits(["END", "LIST", "VAR"] + [dev], lim) && Short(Trailer(dev))
  {
    var ws := ["BEGIN", "LIST", "VAR"] + [dev];
    assert ws[0] in ws && ws[1] in ws && ws[2] in ws && ws[3] in ws;
    ShortTrailer(dev);
  }

  lemma ShortTrailer(dev: string)
    requires Short("BEGIN LIST VAR " + dev)
    ensures Short(Trailer(dev))
  {
    forall c | c in dev
      ensures c in "BEGIN LIST VAR " + dev
    {
    }
  }

  // ----- GET, end to end -----

  /** Whatever line the server answers with, as long as it fits the buffer: an ERR line and an answer
      that does not begin with the words of the query are errors, and any other answer is returned
      word by word; one command was sent, and exactly the line was read, however it arrived. */
  lemma GetAnswered(s: Session, lim: Limits, query: seq<string>, line: string, rest: string)
    requires s.conn.open && query != [] && Short(line) && Unread(s.conn) == line + "\n" + rest
    ensures var r := GetStep(s, lim, query);
            var words := ParseLine(s.scan, lim, line).args;
            && (r.verdict == Error(ReportedByServer) <==> "ERR" <= line)
            && (r.verdict == Words(words) <==> !("ERR" <= line) && Echoes(query, words))
            && (r.verdict == Error(ProtocolError) <==> !("ERR" <= line) && !Echoes(query, words))
            && r.session.conn.open && Unread(r.session.conn) == rest
            && r.session.conn.sent == s.conn.sent + [Command(NETBUF_LEN, "GET", query)]
  {
    var asked := Asked(s, "GET", query);
    var words := ParseLine(s.scan, lim, line).args;
    if "ERR" <= line {
      LineRead(asked, lim, line, rest);
    } else {
      LineReceived(asked, lim, line, rest);
      if |query| <= |words| {
        VerifyEchoes(query, words, NextLine(asked, lim).session.slots);
      }
    }
  }

  // ----- any further line of a list -----

  /** Whatever line comes: an ERR line and one without words are errors; a line that begins END LIST is
      the end; and any other is a row exactly when the query's words stand in the argument slots, where
      a line with too few words leaves those of earlier lines. */
  lemma NextAnswered(s: Session, lim: Limits, query: seq<string>, line: string, rest: string)
    requires s.conn.open && Short(line) && Unread(s.conn) == line + "\n" + rest
    ensures var r := NextStep(s, lim, query);
            var words := ParseLine(s.scan, lim, line).args;
            var slots := SlotsAfter(s.slots, words);
            && r.session.conn.open && Unread(r.session.conn) == rest
            && r.verdict ==
               if "ERR" <= line then Error(ReportedByServer)
               else if words == [] then Error(ProtocolError)
               else if ["END", "LIST"] <= words then End(words)
               else if Echoes(query, slots) then Words(words)
               else if Agree(query, slots) then Undefined
               else Error(ProtocolError)
  {
    var words := ParseLine(s.scan, lim, line).args;
    if "ERR" <= line {
      LineRead(s, lim, line, rest);
    } else {
      LineReceived(s, lim, line, rest);
      var slots := NextLine(s, lim).session.slots;
      assert slots[0..] == slots;
      assert ["END", "LIST"] <= words <==> |words| >= 2 && words[0] == "END" && words[1] == "LIST";
    }
  }

  /** The manual page says that a response which is not part of the list asked for is an error. So it
      is, but for a line that breaks off within the words of the query and whose missing words are those
      earlier lines left in their slots. */
  lemma OnlyRowsOfTheListIff(s: Session, lim: Limits, query: seq<string>, line: string, rest: string)
    requires s.conn.open && Short(line) && Unread(s.conn) == line + "\n" + rest && query != []
    ensures var words := ParseLine(s.scan, lim, line).args;
            (NextStep(s, lim, query).verdict.Words? ==> Echoes(query, words)) <==>
            !(!("ERR" <= line) && 0 < |words| < |query| && !(["END", "LIST"] <= words) && Echoes(query, SlotsAfter(s.slots, words)))
  {
    var words := ParseLine(s.scan, lim, line).args;
    var slots := SlotsAfter(s.slots, words);
    NextAnswered(s, lim, query, line, rest);
    assert forall i :: 0 <= i < |words| ==> slots[i] == words[i];
  }

  /** The value the driver set comes back as upsd shows it, number signs included, and the server
      reads the command as the words it was built from. */
  lemma GetReturnsValue(s: Session, lim: Limits, dev: string, v: Variable, fsd: bool, rest: string, t: Scan, slim: Limits)
    requires s.conn.open && s.scan.word == "" && Plain(dev) && GoodRow(dev, Shown(v, fsd), lim)
    requires Unread(s.conn) == ServerRow(dev, v, fsd) + "\n" + rest
    requires BetweenLines(t) && WithinLimits(["GET"] + ["VAR", dev, v.name], slim)
    requires Fits("GET", ["VAR", dev, v.name])
    ensures var r := GetStep(s, lim, ["VAR", dev, v.name]);
            && r.verdict == Words(["VAR", dev, v.name] + [Shown(v, fsd).value])
            && Unread(r.session.conn) == rest
            && |r.session.conn.sent| == |s.conn.sent| + 1
            && FeedLines(t, slim, r.session.conn.sent[|s.conn.sent|]) == [["GET"] + ["VAR", dev, v.name]]
  {
    var query, shown := ["VAR", dev, v.name], Shown(v, fsd);
    ServerRowShows(dev, v, fsd);
    GetAnswered(s, lim, query, Row(dev, shown), rest);
    assert Row(dev, shown)[0] == 'V';
    RowParsed(s.scan, lim, dev, shown);
    EchoesItself(query, shown.value);
    QueryArrives(t, slim, dev, v.name);
  }

  lemma QueryArrives(t: Scan, slim: Limits, dev: string, name: string)
    requires Plain(dev) && Plain(name) && Fits("GET", ["VAR", dev, name])
    requires BetweenLines(t) && WithinLimits(["GET"] + ["VAR", dev, name], slim)
    ensures FeedLines(t, slim, Command(NETBUF_LEN, "GET", ["VAR", dev, name])) == [["GET"] + ["VAR", dev, name]]
  {
    PlainQuery(dev, name);
    assert Plain("GET");
    ArgsArriveIff(t, slim, "GET", ["VAR", dev, name]);
  }

  lemma EchoesItself(query: seq<string>, value: string)
    ensures Echoes(query, query + [value])
  {
  }

  lemma PlainQuery(dev: string, name: string)
    requires Plain(dev) && Plain(name)
    ensures forall i :: 0 <= i < 3 ==> AllPrintable(["VAR", dev, name][i]) && Intact(["VAR", dev, name][i])
  {
    assert Plain("VAR");
    forall w | Plain(w)
      ensures AllPrintable(w) && Intact(w)
    {
    }
  }

  // ----- the class -----

  /** What the callers of verify_resp make of its result. */
  method Check(query: seq<string>, args: seq<string>, ctx: Context, skip: nat) returns (r: Verdict)
    requires ctx.Valid() && skip <= ctx.maxargs
    ensures r == Verify(query, args, ctx.Slots(), skip)
  {
    var c := VerifyResp(query, ctx, skip);
    match c {
      case Same => return Words(args);
      case Different => return Error(ProtocolError);
      case Beyond => return Undefined;
    }
  }

  method CheckGet(query: seq<string>, args: seq<string>, ctx: Context) returns (r: Verdict)
    requires ctx.Valid() && args == ctx.View().args && args <= ctx.Slots()
    ensures r == GetVerdict(query, args, ctx.Slots())
  {
    if |args| < |query| {
      return Error(ProtocolError);
    }
    r := Check(query, args, ctx, 0);
  }

  method CheckStart(query: seq<string>, args: seq<string>, ctx: Context) returns (r: Verdict)
    requires ctx.Valid() && args == ctx.View().args && args <= ctx.Slots()
    ensures r == StartVerdict(query, args, ctx.Slots())
  {
    if |args| < 2 {
      return Error(ProtocolError);
    }
    if !SameIgnoringCase("BEGIN", args[0]) || !SameIgnoringCase("LIST", args[1]) {
      return Error(ProtocolError);
    }
    r := Check(query, args, ctx, 2);
  }

  method CheckNext(query: seq<string>, args: seq<string>, ctx: Context) returns (r: Verdict)
    requires ctx.Valid() && args == ctx.View().args && args <= ctx.Slots()
    ensures r == NextVerdict(query, args, ctx.Slots())
  {
    if |args| < 1 {
      return Error(ProtocolError);
    }
    if |args| >= 2 && args[0] == "END" && args[1] == "LIST" {
      return End(args);
    }
    r := Check(query, args, ctx, 0);
  }

  class Client {
    const conn: Connection
    const ctx: Context

    ghost predicate Valid()
      reads this, conn, ctx, ctx.Repr
    {
      conn.Valid() && ctx.Valid() && {conn, conn.readbuf} !! ctx.Repr
    }

    ghost function View(): Session
      reads this, conn, conn.readbuf, ctx, ctx.Repr
      requires Valid()
    {
      Session(conn.View(), ctx.View(), ctx.Slots())
    }

    constructor (conn: Connection, ctx: Context)
      requires conn.Valid() && ctx.Valid() && {conn, conn.readbuf} !! ctx.Repr
      ensures Valid() && View() == Session(conn.View(), ctx.View(), ctx.Slots())
    {
      this.conn := conn;
      this.ctx := ctx;
    }

    /** build_cmd into a local buffer, then upscli_sendline */
    method Ask(cmd: string, query: seq<string>) returns (ok: bool)
      requires Valid() && NUL !in cmd && forall i :: 0 <= i < |query| ==> NUL !in query[i]
      modifies conn`sent, conn`upserror
      ensures Valid() && View() == Asked(old(View()), cmd, query)
      ensures ok == conn.open && conn.upserror == if ok then old(conn.upserror) else DriverNotConnected
    {
      var buf := new char[NETBUF_LEN];
      BuildCmd(buf, cmd, query);
      if !conn.open {
        conn.upserror := DriverNotConnected;
        return false;
      }
      conn.sent := conn.sent + [CString(buf[..])];
      return true;
    }

    /** upscli_readline into a local buffer */
    method ReadTmp() returns (ok: bool, line: string)
      requires Valid()
      modifies conn, conn.readbuf
      ensures Valid() && View() == old(View()).(conn := conn.View())
      ensures var c := old(conn.View());
              if !c.open then !ok && conn.upserror == DriverNotConnected && conn.View() == c
              else
                var p := ReadPiece(c, TMP, "");
                && ok == p.ok && conn.View() == p.conn
                && (ok ==> line == CString(p.text + [NUL]))
                && (!ok ==> conn.upserror == Cause(c))
    {
      var tmp := new char[NETBUF_LEN];
      ghost var p := ReadPiece(conn.View(), TMP, "");
      var ret := conn.ReadlineTimeout(tmp, NETBUF_LEN);
      if ret != 0 {
        return false, "";
      }
      BufferHolds(tmp[..], p.text);
      return true, CString(tmp[..]);
    }

    method Parse(line: string) returns (words: seq<string>)
      requires Valid()
      modifies ctx.Repr
      ensures Valid() && fresh(ctx.Repr - old(ctx.Repr))
      ensures View() == old(View()).(scan := ParseLine(old(ctx.View()), ctx.limits, line),
                                     slots := SlotsAfter(old(ctx.Slots()), ctx.View().args))
      ensures words == View().scan.args
    {
      ctx.Line(line);
      words := ctx.Words();
    }

    /** upscli_readline, upscli_errcheck and pconf_line, as every call does them */
    method Receive() returns (r: Verdict)
      requires Valid()
      modifies conn, conn.readbuf, ctx.Repr
      ensures Valid() && fresh(ctx.Repr - old(ctx.Repr))
      ensures Step(r, View()) == NextLine(old(View()), ctx.limits)
      ensures r.Error? ==> conn.upserror == r.why
    {
      var ok, line := ReadTmp();
      if !ok {
        return Error(conn.upserror);
      }
      if |line| >= 3 && line[..3] == "ERR" {
        conn.upserror := ReportedByServer;
        return Error(ReportedByServer);
      }
      assert !("ERR" <= line);
      var words := Parse(line);
      return Words(words);
    }

    /** A command and the first line of its answer */
    method Exchange(cmd: string, query: seq<string>) returns (r: Verdict)
      requires Valid() && NUL !in cmd && forall i :: 0 <= i < |query| ==> NUL !in query[i]
      modifies conn, conn.readbuf, ctx.Repr
      ensures Valid() && fresh(ctx.Repr - old(ctx.Repr))
      ensures Step(r, View()) == NextLine(Asked(old(View()), cmd, query), ctx.limits)
      ensures r.Error? ==> conn.upserror == r.why
    {
      var ok := Ask(cmd, query);
      if !ok {
        return Error(DriverNotConnected);
      }
      r := Receive();
    }

    method Report(r: Verdict)
      requires Valid()
      modifies conn`upserror
      ensures Valid() && View() == old(View()) && conn.upserror == if r.Error? then r.why else old(conn.upserror)
    {
      if r.Error? {
        conn.upserror := r.why;
      }
    }

    /** upscli_get */
    method Get(query: seq<string>) returns (r: Verdict)
      requires Valid() && forall i :: 0 <= i < |query| ==> NUL !in query[i]
      modifies conn, conn.readbuf, ctx.Repr
      ensures Valid() && fresh(ctx.Repr - old(ctx.Repr))
      ensures Step(r, View()) == GetStep(old(View()), ctx.limits, query)
      ensures r.Error? ==> conn.upserror == r.why
    {
      if |query| < 1 {
        conn.upserror := InvalidArgument;
        return Error(InvalidArgument);
      }
      r := Exchange("GET", query);
      if r.Words? {
        r := CheckGet(query, r.args, ctx);
        Report(r);
      }
    }

    /** upscli_list_start */
    method ListStart(query: seq<string>) returns (r: Verdict)
      requires Valid() && forall i :: 0 <= i < |query| ==> NUL !in query[i]
      modifies conn, conn.readbuf, ctx.Repr
      ensures Valid() && fresh(ctx.Repr - old(ctx.Repr))
      ensures Step(r, View()) == StartStep(old(View()), ctx.limits, query)
      ensures r.Error? ==> conn.upserror == r.why
    {
      if |query| < 1 {
        conn.upserror := InvalidArgument;
        return Error(InvalidArgument);
      }
      r := Exchange("LIST", query);
      if r.Words? {
        r := CheckStart(query, r.args, ctx);
        Report(r);
      }
    }

    /** upscli_list_next */
    method ListNext(query: seq<string>) returns (r: Verdict)
      requires Valid()
      modifies conn, conn.readbuf, ctx.Repr
      ensures Valid() && fresh(ctx.Repr - old(ctx.Repr))
      ensures Step(r, View()) == NextStep(old(View()), ctx.limits, query)
      ensures r.Error? ==> conn.upserror == r.why
    {
      r := Receive();
      if r.Words? {
        r := CheckNext(query, r.args, ctx);
        Report(r);
      }
    }
  }

  /** Only what stands before the buffer's first zero byte counts. */
  lemma {:induction false} BufferHolds(buf: seq<char>, text: string)
    requires |text| < |buf| && buf[..|text| + 1] == text + [NUL]
    ensures CString(buf) == CString(text + [NUL])
    decreases |text|
  {
    assert buf[0] == (text + [NUL])[0];
    if text != "" {
      assert buf[1..][..|text|] == buf[..|text| + 1][1..] == text[1..] + [NUL] == (text + [NUL])[1..];
      BufferHolds(buf[1..], text[1..]);
    }
  }
}
