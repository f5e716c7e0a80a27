// One concrete input for each promise of the sources that does not hold for all of them. The exact
// conditions are theorems of the modules named here.
module Counterexamples {
  import opened Text
  import Client = NutClient
  import Codec = NutCodec
  import Command = UpsClientCommand
  import Conf = ParseConf
  import Formats
  import Query = UpsClientQuery
  import Reader = UpsClientReader
  import Sched = UpsSchedClient
  import Timers = UpsSched
  import Socket = NutSocket
  import Storage = ParseConfContext
  import Streams
  import Tokens
  import Upsd
  import opened UpsMon
  import opened UpsMonRuns
  import Notices = UpsMonNotices
  import Status = UpsMonStatus

  const NO_LIMITS: Conf.Limits := Conf.Limits(0, 0)

  /** An open quote: pconf_line reports a word, pconf_char no line (ParseConf.SameHoweverFed). */
  lemma OpenQuote()
    ensures Conf.ParseLine(Conf.IDLE, NO_LIMITS, "\"a").args == ["a"]
    ensures Conf.FeedChars(Conf.IDLE, NO_LIMITS, "\"a\n").state == Conf.QuoteCollect
  {
    assert "\"a"[1..] == "a" && "a"[1..] == "";
    assert "\"a\n"[1..] == "a\n" && "a\n"[1..] == "\n" && "\n"[1..] == "";
    assert "" + "a" == "a";
  }

  /** A file that ends in a lone word (ParseConf.LastLineWithoutNewline). */
  lemma LoneLastWord()
    ensures !Conf.FileNext(Conf.IDLE, NO_LIMITS, "a").ok
  {
    assert "a"[1..] == "";
  }

  /** A one-byte buffer is left without a terminator (ParseConfContext.EncodeInto). */
  method OneByteBuffer() returns (dest: array<char>)
    ensures dest.Length == 1 && dest[0] == '\\'
  {
    dest := new char[1];
    Storage.EncodeInto("#", dest);
    assert dest[..][0] == '\\';
  }

  /** Two characters and a terminator fit three bytes, yet one is lost
      (Tokens.AppendKeepsAllIffSpare), and the token is reported as added
      (TokenLists.NewWordListedIffSpare). */
  lemma ExactFit()
    ensures Tokens.AppendText("", 3, "ab").text == "a"
    ensures Tokens.AddWord("", 3, "ab") == Tokens.Appended("a", 1)
  {
    assert "ab"[..1] == "a" && "" + "a" == "a";
    assert Tokens.Words("") == [];
    assert "" + "ab" == "ab";
  }

  /** A token that was there already among those added: the result is 1 all the same
      (TokenLists.OneMeansAllAdded). */
  lemma NotAllAdded()
    ensures Tokens.AddWords(Tokens.Appended("a", -2), 8, ["a", "b"]).ret == 1
  {
    Tokens.WordsOfWord("a", "");
    assert "a" + "" == "a";
    assert Tokens.Words("a") == ["a"];
    assert ["a", "b"][1..] == ["b"] && ["b"][1..] == [];
    assert "b" !in Tokens.Words("a");
    assert |" " + "b"| == 2;
  }

  /** A format whose minimized form fills the buffer: the terminator goes behind it
      (Formats.MinimizeInto). */
  method FullBuffer() returns (buf: array<char>)
    ensures buf.Length == 3 && buf[0] == '%' && buf[1] == NUL
  {
    buf := new char[3];
    assert "%"[1..] == "";
    assert Formats.Minimize("%", false) == ['%'] + "";
    var ok := Formats.MinimizeInto(buf, 1, Some("%"));
    assert buf[..1][0] == '%';
  }

  /** The longest timer name the configuration parser lets through: the message is cut, and the daemon
      does not see the arguments (UpsSchedClient.CommandArrivesIffFits). */
  lemma LongTimerName(o: seq<Timers.ReadOutcome>)
    requires var name: string := seq(512, _ => 'x');
             Timers.Bytes(o) == Sched.Message("CANCEL", name, None) && !Timers.Serve(Conf.IDLE, Conf.Limits(32, 512), o).closed
    ensures var name: string := seq(512, _ => 'x');
            Timers.Serve(Conf.IDLE, Conf.Limits(32, 512), o).lines != [Sched.Args("CANCEL", name, None)]
  {
    var name: string := seq(512, _ => 'x');
    Sched.FullLineShape("CANCEL", name, None);
    assert |Conf.Encode(name)| >= 512;
    assert Sched.Args("CANCEL", name, None) == ["CANCEL", name];
    Sched.PlainCommand("CANCEL");
    Sched.CommandArrivesIffFits(Conf.IDLE, Conf.Limits(32, 512), o, "CANCEL", name, None);
  }

  /** Calibration reported, a wake-up, calibration reported again: two notices that it began and none
      that it ended (UpsMonNotices.AlternationBreaksIff). */
  lemma WokenWhileCalibrating(cfg: Config, r: Report)
    requires r.status == "CAL"
    ensures var start := NewUps("ups@localhost", 1, "user", "pw", true);
            var es := [Event(Poll(r), cfg, 1), Event(Wake, cfg, 2), Event(Poll(r), cfg, 3)];
            Notices.Follow(Run(start, es).log, Cal) == Notices.Broken
  {
    var start := NewUps("ups@localhost", 1, "user", "pw", true);
    var es := [Event(Poll(r), cfg, 1), Event(Wake, cfg, 2), Event(Poll(r), cfg, 3)];
    assert es[..2][..1] == es[..1] && es[..3] == es && es[..1][..0] == [];
    assert Run(start, []) == start;
    CalibrationReported(start, cfg, r, 1);
    assert Run(start, es[..1]) == PollSucceeded(start, cfg, r, 1);
    assert Notices.WokenWhileOn(start, es[..2], Cal);
    assert Notices.WokenWhileOn(start, es, Cal);
    CalibrationReported(Run(start, es[..2]), cfg, r, 3);
    Notices.AlternationBreaksIff(start, es, Cal);
  }

  lemma CalibrationReported(u: Ups, cfg: Config, r: Report, now: int)
    requires r.status == "CAL"
    ensures Cal in PollSucceeded(u, cfg, r, now).status
  {
    assert "CAL"[1..] == "AL" && "AL"[1..] == "L" && "L"[1..] == "";
    assert Split("") == [""];
    assert Split("L") == ["L"] by { assert ['L'] + "" == "L"; }
    assert Split("AL") == ["AL"] by { assert ['A'] + "L" == "AL"; }
    assert Split("CAL") == ["CAL"] by { assert ['C'] + "AL" == "CAL"; }
    assert SameIgnoringCase(Split("CAL")[0], Spelling(CAL));
    assert Status.Says(Split(r.status), Name(Cal));
    Status.FlagAfterStatus(u.(throttleState := ERR_NONE, throttleCount := -1), cfg, r, now, Cal);
  }

  /** Two chunks without a newline, then a timeout: the first is gone (NutSocket.TimeoutKeepsAllIff). */
  lemma TimeoutAfterTwoChunks()
    ensures var l := Socket.Link(true, "", [Streams.Chunk("a"), Streams.Chunk("b"), Streams.TimedOut], []);
            Socket.Unread(l) == "ab" && Socket.ReadLine(l, "").link.buffer == "b"
  {
    var l := Socket.Link(true, "", [Streams.Chunk("a"), Streams.Chunk("b"), Streams.TimedOut], []);
    var l1 := Socket.Link(true, "a", [Streams.Chunk("b"), Streams.TimedOut], []);
    var l2 := Socket.Link(true, "b", [Streams.TimedOut], []);
    assert l.incoming[1..] == l1.incoming && l1.incoming[1..] == l2.incoming;
    assert "a"[1..] == "" && "b"[1..] == "";
    assert Socket.ReadLine(l2, "" + "" + "a").link.buffer == "b";
    assert "a" + ("b" + "") == "ab" && "" + "ab" == "ab";
  }

  /** The value "#": refused when set through the C++ library, wherever the server's reads cut the
      command, and read through it as DEL (NutCodec.SetCommandArrivesIff, NutCodec.RowArrivesIff). */
  lemma NumberSign(s: Conf.Scan, lim: Conf.Limits, chunks: seq<string>)
    requires Conf.BetweenLines(s) && lim.args == lim.wordLen == 0
    requires Upsd.Together(chunks) == Codec.SetCommand("ups", "x", "#") + "\n"
    ensures Upsd.Hear(s, lim, chunks).lines != [["SET", "VAR", "ups", "x"] + ["#"]]
    ensures Codec.Words(" x " + Conf.Quoted("#")) == ["x", "\U{7f}"]
  {
    Codec.SetCommandArrivesIff(s, lim, "ups", "x", "#", chunks);
    Codec.RowArrivesIff("x", "#");
    assert Codec.Received("#") == "\U{7f}";
    assert " " + "x" + " " + Conf.Quoted("#") == " x " + Conf.Quoted("#");
  }

  /** An argument with an equals sign arrives as three words, and an empty one as none
      (UpsClientCommand.ArgsArriveIff). */
  lemma EqualsSign(s: Conf.Scan, lim: Conf.Limits)
    requires Conf.BetweenLines(s) && lim.args == lim.wordLen == 0
    ensures Conf.FeedLines(s, lim, Command.Command(Command.NETBUF_LEN, "SET", ["a=b", ""])) == [["SET"] + ["a", "=", "b"]]
  {
    ArgsSplit();
    SetFits();
    PlainSet();
    Command.WholeCommandReadAs(s, lim, "SET", ["a=b", ""]);
  }

  lemma PlainSet()
    ensures Conf.Plain("SET") && Conf.AllPrintable("a=b") && Conf.AllPrintable("")
  {
  }

  lemma ArgsSplit()
    ensures Command.AllReadAs(["a=b", ""]) == ["a", "=", "b"]
  {
    EqualsSplit();
    assert ["a=b", ""][1..] == [""] && [""][1..] == [];
    assert Command.AllReadAs([""]) == [] + [];
    assert ["a", "=", "b"] + [] == ["a", "=", "b"];
  }

  lemma EqualsSplit()
    ensures Command.ReadAs("a=b") == ["a", "=", "b"] && Command.ReadAs("") == []
  {
    assert "a=b"[1..] == "=b" && "=b"[1..] == "b" && "b"[1..] == "" && "a=b"[..1] == "a";
    assert Command.Equals("=b") == 0 && Command.Equals("b") == 1;
    assert Command.SplitEquals("b") == ["b"];
    assert Command.SplitEquals("=b") == ["="] + ["b"];
  }

  lemma SetFits()
    ensures Command.Fits("SET", ["a=b", ""])
  {
    var args := ["a=b", ""];
    assert args[1..] == [""] && [""][1..] == [];
    assert |Conf.Encode("a=b")| <= 6 by {
      assert "a=b"[1..] == "=b" && "=b"[1..] == "b" && "b"[1..] == "";
      assert |Conf.Encode("b")| <= 2 && |Conf.Encode("=b")| <= 4;
    }
    assert |Command.ArgText("a=b")| <= 9 && |Command.ArgText("")| <= 3;
    assert |Command.ArgTexts([""])| <= 3;
  }

  /** With a server that lists a device with the empty name, as upsd never does, the pipelined query
      returns it and the one-device query throws (NutClient.AgreesWithOneAtATime). */
  lemma NamelessDevice()
    ensures var l := Socket.Link(true, "", [Streams.Chunk("BEGIN LIST VAR \nEND LIST VAR \n")], []);
            Client.QueryDevices(l, [""]).reply.Got? && Client.QueryOne(l, "").reply.Threw?
  {
    var l := Socket.Link(true, "", [Streams.Chunk("BEGIN LIST VAR \nEND LIST VAR \n")], []);
    var r := Client.Listed([]);
    assert "BEGIN LIST VAR " + "" == "BEGIN LIST VAR " && "END LIST VAR " + "" == "END LIST VAR ";
    assert Client.ReplyLines("", r) == ["BEGIN LIST VAR "] + (["END LIST VAR "] + []);
    Streams.JoinedFirst("BEGIN LIST VAR ", ["END LIST VAR "] + []);
    Streams.JoinedFirst("END LIST VAR ", []);
    assert Socket.Unread(l) == Client.ReplyText("", r) + "";
    assert Client.Stream([""], [r]) == Client.ReplyText("", r) + "";
    Client.PipelinedQuery(l, [""], [r], "");
    Client.QueryOneOfNoName(l, r, "");
  }

  /** After a row of the list, a line that breaks off after its first word is taken for another row
      (UpsClientQuery.OnlyRowsOfTheListIff). */
  lemma BrokenOffRow(s: Query.Session)
    requires s.conn.open && s.conn.held == "VAR\n" && s.conn.incoming == []
    requires s.scan == Conf.IDLE && s.slots == ["VAR", "ups", "input.voltage", "230"]
    ensures Query.NextStep(s, NO_LIMITS, ["VAR", "ups"]).verdict == Query.Words(["VAR"])
  {
    assert Reader.Unread(s.conn) == "VAR" + "\n" + "";
    Conf.RunPlainWord(Conf.Fresh(s.scan), NO_LIMITS, "VAR");
    assert Conf.ParseLine(s.scan, NO_LIMITS, "VAR").args == ["VAR"];
    assert Conf.SlotsAfter(s.slots, ["VAR"]) == ["VAR"] + s.slots[1..];
    Query.NextAnswered(s, NO_LIMITS, ["VAR", "ups"], "VAR", "");
  }
}
