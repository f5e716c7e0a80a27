// Variable queries of the C++ client library (clients/nutclient.cpp): one device at a time, all
// devices through the generic form, and all devices pipelined.
module NutClient {
  import opened Text
  import opened NutSocket
  import opened Streams
  import Codec = NutCodec
  import ParseConf
  import opened Upsd

  /** What a call does: it returns, it throws, or it reads an element a vector does not have. */
  datatype Reply<+T> = Got(value: T) | Threw(e: Exception) | Undefined

  datatype Answer<+T> = Answer(reply: Reply<T>, link: Link)

  type Rows = seq<seq<string>>
  type Variables = map<string, seq<string>>

  const INVALID_RESPONSE: Exception := NutError("Invalid response")
  const INVALID_DEVICE: Exception := NutError("Invalid device")

  /** detectError: a bare ERR makes substr(4) throw an exception outside the library's own. */
  function Detect(line: string): Option<Exception> {
    if !("ERR" <= line) then None
    else if |line| < 4 then Some(OutOfRange)
    else Some(NutError(line[4..]))
  }

  // ----- parseList -----

  function ReadRows(l: Link, req: string, arr: Rows): (a: Answer<Rows>)
    ensures a.link.sent == l.sent && !a.reply.Undefined?
    decreases Size(l)
  {
    var r := ReadLine(l, "");
    match r.outcome
    case Thrown(e) => Answer(Threw(e), r.link)
    case Line(res) =>
      if Detect(res).Some? then Answer(Threw(Detect(res).value), r.link)
      else if res == "END LIST " + req then Answer(Got(arr), r.link)
      else if req <= res then ReadRows(r.link, req, arr + [Codec.Words(res[|req|..])])
      else Answer(Threw(INVALID_RESPONSE), r.link)
  }

  function ReadList(l: Link, req: string): (a: Answer<Rows>)
    ensures a.link.sent == l.sent && !a.reply.Undefined?
  {
    var r := ReadLine(l, "");
    match r.outcome
    case Thrown(e) => Answer(Threw(e), r.link)
    case Line(res) =>
      if Detect(res).Some? then Answer(Threw(Detect(res).value), r.link)
      else if res != "BEGIN LIST " + req then Answer(Threw(INVALID_RESPONSE), r.link)
      else ReadRows(r.link, req, [])
  }

  /** The rows as a map from their first words; a later row replaces an earlier one. */
  function Collect(rows: Rows, vars: Variables): Variables
    requires forall i :: 0 <= i < |rows| ==> rows[i] != []
  {
    if rows == [] then vars else Collect(rows[1..], vars[rows[0][0] := rows[0][1..]])
  }

  function Mapped(rows: Rows): Reply<Variables> {
    if forall i :: 0 <= i < |rows| ==> rows[i] != [] then Got(Collect(rows, map[])) else Undefined
  }

  function VariablesOf(a: Answer<Rows>): Answer<Variables> {
    match a.reply
    case Got(rows) => Answer(Mapped(rows), a.link)
    case Threw(e) => Answer(Threw(e), a.link)
    case Undefined => Answer(Undefined, a.link)
  }

  // ----- the three queries -----

  function Request(dev: string): string {
    if dev == "" then "VAR" else "VAR " + dev
  }

  function Send(l: Link, lines: seq<string>): Link {
    l.(sent := l.sent + lines)
  }

  /** TcpClient::getDeviceVariableValues */
  function QueryOne(l: Link, dev: string): Answer<Variables> {
    if !l.connected then Answer(Threw(NotConnected), l)
    else VariablesOf(ReadList(Send(l, ["LIST " + Request(dev) + "\n"]), Request(dev)))
  }

  /** Client::getDevicesVariableValues: the first failure ends it. */
  function QueryEach(l: Link, devs: seq<string>, res: map<string, Variables>): Answer<map<string, Variables>>
    decreases |devs|
  {
    if devs == [] then Answer(Got(res), l)
    else
      var a := QueryOne(l, devs[0]);
      match a.reply
      case Got(vars) => QueryEach(a.link, devs[1..], res[devs[0] := vars])
      case Threw(e) => Answer(Threw(e), a.link)
      case Undefined => Answer(Undefined, a.link)
  }

  function Queries(devs: seq<string>): seq<string> {
    if devs == [] then [] else ["LIST VAR " + devs[0] + "\n"] + Queries(devs[1..])
  }

  /** Reads one reply per device, passing over those that throw one of the library's exceptions. */
  function ReadReplies(l: Link, devs: seq<string>, res: map<string, Variables>): Answer<map<string, Variables>>
    decreases |devs|
  {
    if devs == [] then Answer(Got(res), l)
    else
      var a := VariablesOf(ReadList(l, "VAR " + devs[0]));
      match a.reply
      case Got(vars) => ReadReplies(a.link, devs[1..], res[devs[0] := vars])
      case Threw(e) =>
        if e == OutOfRange then Answer(Threw(e), a.link) else ReadReplies(a.link, devs[1..], res)
      case Undefined => Answer(Undefined, a.link)
  }

  /** TcpClient::getDevicesVariableValues; a std::set hands out its devices in one fixed order. */
  function QueryDevices(l: Link, devs: seq<string>): Answer<map<string, Variables>> {
    if devs == [] then Answer(Got(map[]), l)
    else if !l.connected then Answer(Threw(NotConnected), l)
    else
      var a := ReadReplies(Send(l, Queries(devs)), devs, map[]);
      if a.reply == Got(map[]) then Answer(Threw(INVALID_DEVICE), a.link) else a
  }

  // ----- a server that answers in order -----

  datatype ServerReply = Rejected(line: string) | Listed(rows: seq<string>)

  function ReplyLines(dev: string, r: ServerReply): seq<string> {
    match r
    case Rejected(line) => [line]
    case Listed(rows) => ["BEGIN LIST VAR " + dev] + (rows + ["END LIST VAR " + dev])
  }

  /** A row continues the request's words and names a variable. */
  predicate ProperRow(req: string, row: string) {
    '\n' !in row && req <= row && Codec.Words(row[|req|..]) != []
  }

  /** One ERR line with a reason, or a complete list. */
  predicate Proper(dev: string, r: ServerReply) {
    && '\n' !in dev
    && match r
       case Rejected(line) => "ERR " <= line && '\n' !in line
       case Listed(rows) => forall i :: 0 <= i < |rows| ==> ProperRow("VAR " + dev, rows[i])
  }

  function ReplyText(dev: string, r: ServerReply): string {
    Joined(ReplyLines(dev, r))
  }

  function Stream(devs: seq<string>, rs: seq<ServerReply>): string
    requires |devs| == |rs|
  {
    if devs == [] then "" else ReplyText(devs[0], rs[0]) + Stream(devs[1..], rs[1..])
  }

  function RowWords(req: string, rows: seq<string>): Rows
    requires forall i :: 0 <= i < |rows| ==> ProperRow(req, rows[i])
    ensures |RowWords(req, rows)| == |rows|
    ensures forall i :: 0 <= i < |rows| ==> RowWords(req, rows)[i] == Codec.Words(rows[i][|req|..])
  {
    if rows == [] then []
    else
      assert ProperRow(req, rows[0]);
      [Codec.Words(rows[0][|req|..])] + RowWords(req, rows[1..])
  }

  /** What a listed device's reply means. */
  function Meaning(dev: string, r: ServerReply): Variables
    requires Proper(dev, r) && r.Listed?
  {
    Collect(RowWords("VAR " + dev, r.rows), map[])
  }

  function Expected(dev: string, r: ServerReply): Reply<Variables>
    requires Proper(dev, r)
  {
    match r
    case Rejected(line) => Threw(NutError(line[4..]))
    case Listed(_) => Got(Meaning(dev, r))
  }

  /** `after` is `before` with everything read but `rest`. */
  predicate ReadUpTo(after: Link, before: Link, rest: string) {
    && ValidLink(after) && after.connected == before.connected
    && Unread(after) == rest && after.sent == before.sent
  }

  // ----- reading one reply -----

  lemma ReadsFirst(l: Link, line: string, lines: seq<string>, rest: string)
    requires ValidLink(l) && '\n' !in line && Unread(l) == Joined([line] + lines) + rest
    ensures var r := ReadLine(l, "");
            r.outcome == Line(line) && ReadUpTo(r.link, l, Joined(lines) + rest)
  {
    JoinedFirst(line, lines);
    Assoc(line + "\n", Joined(lines), rest);
    ReadsHead(l, line, Joined(lines) + rest);
  }

  lemma EndRead(l: Link, req: string, arr: Rows, rest: string)
    requires ValidLink(l) && '\n' !in req && Unread(l) == Joined(["END LIST " + req]) + rest
    ensures var a := ReadRows(l, req, arr); a.reply == Got(arr) && ReadUpTo(a.link, l, rest)
  {
    assert ["END LIST " + req] == ["END LIST " + req] + [];
    ReadsFirst(l, "END LIST " + req, [], rest);
    assert Detect("END LIST " + req) == None by { assert ("END LIST " + req)[1] == 'N'; }
    assert "" + rest == rest;
  }

  lemma {:induction false} RowsRead(l: Link, req: string, arr: Rows, rows: seq<string>, rest: string)
    requires ValidLink(l) && "VAR " <= req && '\n' !in req
    requires forall i :: 0 <= i < |rows| ==> ProperRow(req, rows[i])
    requires Unread(l) == Joined(rows + ["END LIST " + req]) + rest
    ensures var a := ReadRows(l, req, arr);
            a.reply == Got(arr + RowWords(req, rows)) && ReadUpTo(a.link, l, rest)
    decreases |rows|
  {
    var end := ["END LIST " + req];
    var r := ReadLine(l, "");
    if rows == [] {
      assert rows + end == end;
      EndRead(l, req, arr, rest);
      assert arr + [] == arr;
    } else {
      assert rows + end == [rows[0]] + (rows[1..] + end);
      ReadsFirst(l, rows[0], rows[1..] + end, rest);
      RowIsRow(req, rows[0]);
      assert ProperRow(req, rows[0]);
      var words := [Codec.Words(rows[0][|req|..])];
      RowsRead(r.link, req, arr + words, rows[1..], rest);
      Assoc(arr, words, RowWords(req, rows[1..]));
    }
  }

  lemma RowIsRow(req: string, row: string)
    requires "VAR " <= req <= row
    ensures Detect(row) == None && row != "END LIST " + req
  {
    assert row[0] == req[0] == 'V';
  }

  lemma HeadersPlain(dev: string)
    requires '\n' !in dev
    ensures "BEGIN LIST VAR " + dev == "BEGIN LIST " + ("VAR " + dev)
    ensures "END LIST VAR " + dev == "END LIST " + ("VAR " + dev)
    ensures '\n' !in "BEGIN LIST " + ("VAR " + dev) && '\n' !in "VAR " + dev
    ensures Detect("BEGIN LIST " + ("VAR " + dev)) == None
  {
    assert ("BEGIN LIST " + ("VAR " + dev))[0] == 'B';
  }

  lemma RejectionRead(l: Link, req: string, line: string, rest: string)
    requires ValidLink(l) && "ERR " <= line && '\n' !in line && Unread(l) == Joined([line]) + rest
    ensures var a := ReadList(l, req); a.reply == Threw(NutError(line[4..])) && ReadUpTo(a.link, l, rest)
  {
    assert [line] == [line] + [];
    ReadsFirst(l, line, [], rest);
    assert "ERR" <= line by { assert "ERR" == "ERR "[..3] == line[..3]; }
    assert "" + rest == rest;
  }

  lemma ListingRead(l: Link, dev: string, rows: seq<string>, rest: string)
    requires ValidLink(l) && Proper(dev, Listed(rows)) && Unread(l) == ReplyText(dev, Listed(rows)) + rest
    ensures var a := ReadList(l, "VAR " + dev);
            a.reply == Got(RowWords("VAR " + dev, rows)) && ReadUpTo(a.link, l, rest)
  {
    var req := "VAR " + dev;
    HeadersPlain(dev);
    ReadsFirst(l, "BEGIN LIST " + req, rows + ["END LIST " + req], rest);
    RowsRead(ReadLine(l, "").link, req, [], rows, rest);
    assert [] + RowWords(req, rows) == RowWords(req, rows);
  }

  lemma ListRead(l: Link, dev: string, r: ServerReply, rest: string)
    requires ValidLink(l) && Proper(dev, r) && Unread(l) == ReplyText(dev, r) + rest
    ensures var a := VariablesOf(ReadList(l, "VAR " + dev));
            a.reply == Expected(dev, r) && ReadUpTo(a.link, l, rest)
  {
    match r
    case Rejected(line) => RejectionRead(l, "VAR " + dev, line, rest);
    case Listed(rows) => ListingRead(l, dev, rows, rest);
  }

  lemma QueryText(dev: string)
    requires dev != ""
    ensures "LIST " + Request(dev) + "\n" == "LIST VAR " + dev + "\n"
  {
    assert "LIST VAR " == "LIST " + "VAR ";
    Assoc("LIST ", "VAR ", dev);
  }

  /** The one-device query on its own reply. */
  lemma QueryOneReads(l: Link, dev: string, r: ServerReply, rest: string)
    requires ValidLink(l) && l.connected && dev != "" && Proper(dev, r) && Unread(l) == ReplyText(dev, r) + rest
    ensures var a := QueryOne(l, dev);
            a.reply == Expected(dev, r) && ReadUpTo(a.link, Send(l, ["LIST VAR " + dev + "\n"]), rest)
  {
    QueryText(dev);
    ListRead(Send(l, ["LIST VAR " + dev + "\n"]), dev, r, rest);
  }

  /** The one-device query for the empty name asks for and expects something else, so that it throws
      on either reply. */
  lemma QueryOneOfNoName(l: Link, r: ServerReply, rest: string)
    requires ValidLink(l) && l.connected && Proper("", r) && Unread(l) == ReplyText("", r) + rest
    ensures QueryOne(l, "").reply.Threw?
  {
    var asked := Send(l, ["LIST VAR\n"]);
    assert "LIST " + Request("") + "\n" == "LIST VAR\n";
    match r
    case Rejected(line) => RejectionRead(asked, "VAR", line, rest);
    case Listed(rows) =>
      HeadersPlain("");
      ReadsFirst(asked, "BEGIN LIST " + ("VAR " + ""), rows + ["END LIST VAR " + ""], rest);
      assert |"BEGIN LIST " + ("VAR " + "")| != |"BEGIN LIST " + "VAR"|;
  }

  // ----- reading all replies -----

  /** The accepted devices, added to `res` in order. */
  function AddAccepted(devs: seq<string>, rs: seq<ServerReply>, res: map<string, Variables>): map<string, Variables>
    requires |devs| == |rs| && forall i :: 0 <= i < |devs| ==> Proper(devs[i], rs[i])
    decreases |devs|
  {
    if devs == [] then res
    else AddAccepted(devs[1..], rs[1..], if rs[0].Listed? then res[devs[0] := Meaning(devs[0], rs[0])] else res)
  }

  lemma {:induction false} RepliesRead(l: Link, devs: seq<string>, rs: seq<ServerReply>, res: map<string, Variables>, rest: string)
    requires ValidLink(l) && |devs| == |rs| && forall i :: 0 <= i < |devs| ==> Proper(devs[i], rs[i])
    requires Unread(l) == Stream(devs, rs) + rest
    ensures var a := ReadReplies(l, devs, res);
            a.reply == Got(AddAccepted(devs, rs, res)) && ReadUpTo(a.link, l, rest)
    decreases |devs|
  {
    if devs == [] {
      assert "" + rest == rest;
    } else {
      var more := Stream(devs[1..], rs[1..]) + rest;
      Assoc(ReplyText(devs[0], rs[0]), Stream(devs[1..], rs[1..]), rest);
      ListRead(l, devs[0], rs[0], more);
      var l1 := VariablesOf(ReadList(l, "VAR " + devs[0])).link;
      RepliesRead(l1, devs[1..], rs[1..], if rs[0].Listed? then res[devs[0] := Meaning(devs[0], rs[0])] else res, rest);
    }
  }

  lemma {:induction false} AcceptedExactly(devs: seq<string>, rs: seq<ServerReply>, res: map<string, Variables>)
    requires |devs| == |rs| && forall i :: 0 <= i < |devs| ==> Proper(devs[i], rs[i])
    requires Distinct(devs) && forall i :: 0 <= i < |devs| ==> devs[i] !in res
    ensures var all := AddAccepted(devs, rs, res);
            && (forall i :: 0 <= i < |devs| ==>
                  if rs[i].Listed? then devs[i] in all && all[devs[i]] == Meaning(devs[i], rs[i]) else devs[i] !in all)
            && (forall d :: d in res ==> d in all && all[d] == res[d])
            && (forall d :: d in all ==> d in res || d in devs)
    decreases |devs|
  {
    if devs != [] {
      var next := if rs[0].Listed? then res[devs[0] := Meaning(devs[0], rs[0])] else res;
      AcceptedExactly(devs[1..], rs[1..], next);
      var all := AddAccepted(devs, rs, res);
      forall i | 0 <= i < |devs|
        ensures if rs[i].Listed? then devs[i] in all && all[devs[i]] == Meaning(devs[i], rs[i]) else devs[i] !in all
      {
        if i > 0 {
          assert devs[i] == devs[1..][i - 1] && rs[i] == rs[1..][i - 1];
        }
      }
    }
  }

  /** Against a server that answers in order, however the network cuts the replies: the pipelined
      query maps exactly the accepted devices to what their replies mean, throws only when all of a
      non-empty set are rejected, sends one query per device, and leaves nothing of the replies
      unread. */
  lemma PipelinedQuery(l: Link, devs: seq<string>, rs: seq<ServerReply>, rest: string)
    requires ValidLink(l) && l.connected && |devs| == |rs| && Distinct(devs)
    requires forall i :: 0 <= i < |devs| ==> Proper(devs[i], rs[i])
    requires Unread(l) == Stream(devs, rs) + rest
    ensures var a := QueryDevices(l, devs);
            && ReadUpTo(a.link, Send(l, Queries(devs)), rest)
            && (a.reply.Got? <==> devs == [] || exists i :: 0 <= i < |devs| && rs[i].Listed?)
            && (!a.reply.Got? ==> a.reply == Threw(INVALID_DEVICE))
            && (a.reply.Got? ==>
                  && (forall d :: d in a.reply.value ==> d in devs)
                  && forall i :: 0 <= i < |devs| ==>
                       if rs[i].Listed? then devs[i] in a.reply.value && a.reply.value[devs[i]] == Meaning(devs[i], rs[i])
                       else devs[i] !in a.reply.value)
  {
    if devs == [] {
      assert "" + rest == rest && l.sent + [] == l.sent;
    } else {
      RepliesRead(Send(l, Queries(devs)), devs, rs, map[], rest);
      AcceptedExactly(devs, rs, map[]);
      EmptyIffAllRejected(devs, rs);
    }
  }

  lemma EmptyIffAllRejected(devs: seq<string>, rs: seq<ServerReply>)
    requires |devs| == |rs| && Distinct(devs) && forall i :: 0 <= i < |devs| ==> Proper(devs[i], rs[i])
    ensures AddAccepted(devs, rs, map[]) == map[] <==> forall i :: 0 <= i < |devs| ==> !rs[i].Listed?
  {
    AcceptedExactly(devs, rs, map[]);
    var all := AddAccepted(devs, rs, map[]);
    if forall i :: 0 <= i < |devs| ==> !rs[i].Listed? {
      forall d
        ensures d !in all
      {
        if d in devs {
          var i :| 0 <= i < |devs| && devs[i] == d;
          assert !rs[i].Listed?;
        }
      }
    }
  }

  /** What the pipelined query says of a device is what the query for it alone says: the same value,
      or nothing where that one throws. */
  predicate SameAnswer(one: Reply<Variables>, all: Reply<map<string, Variables>>, dev: string) {
    match one
    case Got(vars) => all.Got? && dev in all.value && all.value[dev] == vars
    case Threw(e) => all.Threw? || (all.Got? && dev !in all.value)
    case Undefined => false
  }

  /** The two agree on every device, wherever and however its reply is read alone, but for one case:
      an accepted device with the empty name. */
  lemma AgreesWithOneAtATime(l: Link, devs: seq<string>, rs: seq<ServerReply>, rest: string, i: nat, k: Link, after: string)
    requires ValidLink(l) && l.connected && |devs| == |rs| && Distinct(devs)
    requires forall i :: 0 <= i < |devs| ==> Proper(devs[i], rs[i])
    requires Unread(l) == Stream(devs, rs) + rest
    requires i < |devs|
    ensures ValidLink(k) && k.connected && Unread(k) == ReplyText(devs[i], rs[i]) + after ==>
            (SameAnswer(QueryOne(k, devs[i]).reply, QueryDevices(l, devs).reply, devs[i]) <==>
              !(devs[i] == "" && rs[i].Listed?))
  {
    PipelinedQuery(l, devs, rs, rest);
    if ValidLink(k) && k.connected && Unread(k) == ReplyText(devs[i], rs[i]) + after {
      if devs[i] == "" {
        QueryOneOfNoName(k, rs[i], after);
      } else {
        QueryOneReads(k, devs[i], rs[i], after);
      }
    }
  }

  // ----- what the server's own lists mean -----

  lemma {:induction false} EncodeHasNewline(v: string)
    ensures '\n' in ParseConf.Encode(v) ==> '\n' in v
  {
    if v != "" {
      EncodeHasNewline(v[1..]);
    }
  }

  lemma RowProper(dev: string, v: Variable)
    requires Codec.Bare(v.name) && '\n' !in dev && '\n' !in v.name && '\n' !in v.value
    ensures ProperRow("VAR " + dev, Row(dev, v))
    ensures Codec.Words(Row(dev, v)[|"VAR " + dev|..]) == [v.name, Codec.Received(v.value)]
  {
    var tail := " " + v.name + " " + ParseConf.Quoted(v.value);
    assert Row(dev, v)[|"VAR " + dev|..] == tail;
    Codec.RowArrivesIff(v.name, v.value);
    EncodeHasNewline(v.value);
    assert '\n' !in "VAR " && '\n' !in "VAR " + dev && '\n' !in ParseConf.Quoted(v.value);
  }

  lemma {:induction false} CollectDistinct(rows: Rows, vars: Variables)
    requires forall i :: 0 <= i < |rows| ==> rows[i] != [] && rows[i][0] !in vars
    requires forall i, j :: 0 <= i < j < |rows| ==> rows[i][0] != rows[j][0]
    ensures var all := Collect(rows, vars);
            && (forall i :: 0 <= i < |rows| ==> rows[i][0] in all && all[rows[i][0]] == rows[i][1..])
            && (forall n :: n in vars ==> n in all && all[n] == vars[n])
            && |all| == |vars| + |rows|
    decreases |rows|
  {
    if rows != [] {
      var next := vars[rows[0][0] := rows[0][1..]];
      CollectDistinct(rows[1..], next);
      assert next.Keys == vars.Keys + {rows[0][0]};
      assert forall i :: 0 < i < |rows| ==> rows[i] == rows[1..][i - 1];
    }
  }

  /** A variable whose row the client can take apart: neither part holds a newline, and its name
      holds nothing the client treats specially. */
  predicate Listable(v: Variable) {
    Codec.Bare(v.name) && '\n' !in v.name && '\n' !in v.value
  }

  predicate AllListable(vs: seq<Variable>) {
    forall i :: 0 <= i < |vs| ==> Listable(vs[i])
  }

  predicate NamesDiffer(vs: seq<Variable>) {
    forall i, j :: 0 <= i < j < |vs| ==> vs[i].name != vs[j].name
  }

  /** The map holds exactly these variables, with number signs turned into DEL. */
  predicate Holds(vars: Variables, vs: seq<Variable>) {
    && |vars| == |vs|
    && forall i :: 0 <= i < |vs| ==> vs[i].name in vars && vars[vs[i].name] == [Codec.Received(vs[i].value)]
  }

  lemma RowsProper(dev: string, vs: seq<Variable>)
    requires '\n' !in dev && AllListable(vs)
    ensures Proper(dev, Listed(Upsd.Rows(dev, vs)))
    ensures forall i :: 0 <= i < |vs| ==>
              Codec.Words(Upsd.Rows(dev, vs)[i][|"VAR " + dev|..]) == [vs[i].name, Codec.Received(vs[i].value)]
  {
    forall i | 0 <= i < |vs|
      ensures ProperRow("VAR " + dev, Upsd.Rows(dev, vs)[i])
      ensures Codec.Words(Upsd.Rows(dev, vs)[i][|"VAR " + dev|..]) == [vs[i].name, Codec.Received(vs[i].value)]
    {
      assert Listable(vs[i]);
      RowProper(dev, vs[i]);
    }
  }

  lemma CollectHolds(words: Rows, vs: seq<Variable>)
    requires NamesDiffer(vs) && |words| == |vs|
    requires forall i :: 0 <= i < |vs| ==> words[i] == [vs[i].name, Codec.Received(vs[i].value)]
    ensures Holds(Collect(words, map[]), vs)
  {
    CollectDistinct(words, map[]);
    forall i | 0 <= i < |vs|
      ensures vs[i].name in Collect(words, map[]) && Collect(words, map[])[vs[i].name] == [Codec.Received(vs[i].value)]
    {
      assert words[i][0] == vs[i].name && words[i][1..] == [Codec.Received(vs[i].value)];
    }
  }

  lemma RowsMean(dev: string, vs: seq<Variable>)
    requires '\n' !in dev && AllListable(vs) && NamesDiffer(vs)
    ensures Proper(dev, Listed(Upsd.Rows(dev, vs)))
    ensures Holds(Meaning(dev, Listed(Upsd.Rows(dev, vs))), vs)
  {
    RowsProper(dev, vs);
    CollectHolds(RowWords("VAR " + dev, Upsd.Rows(dev, vs)), vs);
  }

  lemma ShownListable(v: Variable, fsd: bool)
    requires Listable(v)
    ensures Listable(Shown(v, fsd)) && Shown(v, fsd).name == v.name
  {
    assert '\n' !in "FSD ";
  }

  /** From the driver's values to the caller's map: a list upsd writes is a proper reply, and the
      client's map holds every variable as upsd shows it, with number signs turned into DEL. */
  lemma ServerListMeans(dev: string, vs: seq<Variable>, fsd: bool)
    requires '\n' !in dev && AllListable(vs) && NamesDiffer(vs)
    ensures Proper(dev, Listed(ServerRows(dev, vs, fsd)))
    ensures Holds(Meaning(dev, Listed(ServerRows(dev, vs, fsd))), AllShown(vs, fsd))
  {
    ServerRowsShow(dev, vs, fsd);
    forall i | 0 <= i < |vs|
      ensures Listable(AllShown(vs, fsd)[i]) && AllShown(vs, fsd)[i].name == vs[i].name
    {
      assert Listable(vs[i]);
      ShownListable(vs[i], fsd);
    }
    RowsMean(dev, AllShown(vs, fsd));
  }

  // ----- the generic form -----

  predicate AllListed(rs: seq<ServerReply>) {
    rs == [] || (rs[0].Listed? && AllListed(rs[1..]))
  }

  lemma {:induction false} AllListedMeans(rs: seq<ServerReply>)
    ensures AllListed(rs) <==> forall i :: 0 <= i < |rs| ==> rs[i].Listed?
  {
    if rs != [] {
      AllListedMeans(rs[1..]);
      assert forall i :: 0 < i < |rs| ==> rs[i] == rs[1..][i - 1];
    }
  }

  lemma SendInTurn(l: Link, k: Link, a: Link, q: string, qs: seq<string>, rest: string)
    requires k.connected == l.connected && k.sent == l.sent + [q] && ReadUpTo(a, Send(k, qs), rest)
    ensures ReadUpTo(a, Send(l, [q] + qs), rest)
  {
    assert l.sent + [q] + qs == l.sent + ([q] + qs);
  }

  /** The generic form returns only if every device is accepted and has a name. */
  lemma {:induction false} EachReads(l: Link, devs: seq<string>, rs: seq<ServerReply>, res: map<string, Variables>, rest: string)
    requires ValidLink(l) && l.connected && |devs| == |rs|
    requires forall i :: 0 <= i < |devs| ==> Proper(devs[i], rs[i])
    requires Unread(l) == Stream(devs, rs) + rest
    ensures var a := QueryEach(l, devs, res);
            if AllListed(rs) && "" !in devs
            then a.reply == Got(AddAccepted(devs, rs, res)) && ReadUpTo(a.link, Send(l, Queries(devs)), rest)
            else a.reply.Threw?
    decreases |devs|
  {
    if devs == [] {
      assert "" + rest == rest && l.sent + [] == l.sent;
    } else {
      var more := Stream(devs[1..], rs[1..]) + rest;
      Assoc(ReplyText(devs[0], rs[0]), Stream(devs[1..], rs[1..]), rest);
      if devs[0] == "" {
        QueryOneOfNoName(l, rs[0], more);
        return;
      }
      QueryOneReads(l, devs[0], rs[0], more);
      if rs[0].Listed? {
        var l1 := QueryOne(l, devs[0]).link;
        var next := res[devs[0] := Meaning(devs[0], rs[0])];
        EachReads(l1, devs[1..], rs[1..], next, rest);
        if AllListed(rs) && "" !in devs {
          SendInTurn(l, l1, QueryEach(l1, devs[1..], next).link, "LIST VAR " + devs[0] + "\n", Queries(devs[1..]), rest);
        }
      }
    }
  }

  lemma PipelinedReads(l: Link, devs: seq<string>, rs: seq<ServerReply>, rest: string)
    requires ValidLink(l) && l.connected && |devs| == |rs| && Distinct(devs) && devs != []
    requires forall i :: 0 <= i < |devs| ==> Proper(devs[i], rs[i])
    requires Unread(l) == Stream(devs, rs) + rest
    ensures var a := QueryDevices(l, devs);
            && ReadUpTo(a.link, Send(l, Queries(devs)), rest)
            && (AllListed(rs) ==> a.reply == Got(AddAccepted(devs, rs, map[])))
  {
    RepliesRead(Send(l, Queries(devs)), devs, rs, map[], rest);
    EmptyIffAllRejected(devs, rs);
    assert AllListed(rs) ==> rs[0].Listed?;
  }

  /** The pipelined form returns what the generic one returns whenever that one returns at all, and
      has then sent and read the same bytes. */
  lemma PipelinedRefinesGeneric(l: Link, devs: seq<string>, rs: seq<ServerReply>, rest: string)
    requires ValidLink(l) && l.connected && |devs| == |rs| && Distinct(devs)
    requires forall i :: 0 <= i < |devs| ==> Proper(devs[i], rs[i])
    requires Unread(l) == Stream(devs, rs) + rest
    ensures var each := QueryEach(l, devs, map[]);
            var piped := QueryDevices(l, devs);
            && (each.reply.Got? <==> "" !in devs && forall i :: 0 <= i < |rs| ==> rs[i].Listed?)
            && (each.reply.Got? ==>
                  piped.reply == each.reply && Unread(piped.link) == Unread(each.link) == rest && piped.link.sent == each.link.sent)
  {
    AllListedMeans(rs);
    EachReads(l, devs, rs, map[], rest);
    if devs != [] {
      PipelinedReads(l, devs, rs, rest);
    } else {
      assert "" + rest == rest;
    }
  }

  // ----- the class -----

  method DetectError(line: string) returns (e: Option<Exception>)
    ensures e == Detect(line)
  {
    if |line| >= 3 && line[..3] == "ERR" {
      return Some(if |line| < 4 then OutOfRange else NutError(line[4..]));
    }
    return None;
  }

  /** The loop that turns rows into a map; a row without any word has no element 0. */
  method CollectRows(rows: Rows) returns (r: Reply<Variables>)
    ensures r == Mapped(rows)
  {
    var vars: Variables := map[];
    var n := 0;
    while n < |rows|
      invariant n <= |rows| && forall i :: 0 <= i < n ==> rows[i] != []
      invariant (forall i :: 0 <= i < |rows| ==> rows[i] != []) ==> Collect(rows[n..], vars) == Collect(rows, map[])
    {
      if rows[n] == [] {
        return Undefined;
      }
      assert rows[n..][1..] == rows[n + 1..];
      vars := vars[rows[n][0] := rows[n][1..]];
      n := n + 1;
    }
    return Got(vars);
  }

  class TcpClient {
    const socket: Socket

    constructor (socket: Socket)
      ensures this.socket == socket
    {
      this.socket := socket;
    }

    /** sendAsyncQueries, each query without its newline */
    method SendAsyncQueries(queries: seq<string>) returns (e: Option<Exception>)
      modifies socket
      ensures e == if queries == [] || old(socket.connected) then None else Some(NotConnected)
      ensures socket.View() == if old(socket.connected) then Send(old(socket.View()), WithNewlines(queries)) else old(socket.View())
    {
      var n := 0;
      assert socket.sent + WithNewlines(queries[..0]) == socket.sent;
      while n < |queries|
        invariant n <= |queries| && (n > 0 ==> old(socket.connected))
        invariant socket.View() == Send(old(socket.View()), WithNewlines(queries[..n]))
      {
        var failed := socket.Write(queries[n]);
        if failed.Some? {
          return failed;
        }
        WithNewlinesAppend(queries, n);
        n := n + 1;
      }
      assert queries[..n] == queries;
      return None;
    }

    method ParseList(req: string) returns (r: Reply<Rows>)
      modifies socket
      ensures Answer(r, socket.View()) == ReadList(old(socket.View()), req)
    {
      var line := socket.Read();
      if line.Thrown? {
        return Threw(line.e);
      }
      var failed := DetectError(line.text);
      if failed.Some? {
        return Threw(failed.value);
      }
      if line.text != "BEGIN LIST " + req {
        return Threw(INVALID_RESPONSE);
      }
      var arr: Rows := [];
      while true
        invariant ReadRows(socket.View(), req, arr) == ReadList(old(socket.View()), req)
        decreases Size(socket.View())
      {
        line := socket.Read();
        if line.Thrown? {
          return Threw(line.e);
        }
        failed := DetectError(line.text);
        if failed.Some? {
          return Threw(failed.value);
        }
        if line.text == "END LIST " + req {
          return Got(arr);
        }
        if |line.text| >= |req| && line.text[..|req|] == req {
          var row := Codec.Explode(line.text, |req|);
          arr := arr + [row];
        } else {
          assert !(req <= line.text);
          return Threw(INVALID_RESPONSE);
        }
      }
    }

    /** getDeviceVariableValues, with list("VAR", dev) */
    method GetDeviceVariableValues(dev: string) returns (r: Reply<Variables>)
      modifies socket
      ensures Answer(r, socket.View()) == QueryOne(old(socket.View()), dev)
    {
      var req := "VAR";
      if dev != "" {
        req := req + " " + dev;
      }
      assert req == Request(dev);
      var failed := SendAsyncQueries(["LIST " + req]);
      assert WithNewlines(["LIST " + req]) == ["LIST " + req + "\n"];
      if failed.Some? {
        return Threw(failed.value);
      }
      var res := ParseList(req);
      if res.Threw? {
        return Threw(res.e);
      }
      r := CollectRows(res.value);
    }

    /** The generic form: one device after the other */
    method GetEachDevice(devs: seq<string>) returns (r: Reply<map<string, Variables>>)
      modifies socket
      ensures Answer(r, socket.View()) == QueryEach(old(socket.View()), devs, map[])
    {
      var res := map[];
      var n := 0;
      while n < |devs|
        invariant n <= |devs| && QueryEach(socket.View(), devs[n..], res) == QueryEach(old(socket.View()), devs, map[])
      {
        assert devs[n..][1..] == devs[n + 1..];
        var one := GetDeviceVariableValues(devs[n]);
        if one.Threw? {
          return Threw(one.e);
        }
        if one.Undefined? {
          return Undefined;
        }
        res := res[devs[n] := one.value];
        n := n + 1;
      }
      return Got(res);
    }

    /** The body of the loop over the replies: the map to go on with, or what ends the call */
    method ReadReply(dev: string, res: map<string, Variables>) returns (r: Reply<map<string, Variables>>)
      modifies socket
      ensures var a := VariablesOf(ReadList(old(socket.View()), "VAR " + dev));
              && socket.View() == a.link
              && r == match a.reply
                      case Got(vars) => Got(res[dev := vars])
                      case Threw(e) => if e == OutOfRange then Threw(e) else Got(res)
                      case Undefined => Undefined
    {
      var rows := ParseList("VAR " + dev);
      if rows.Threw? {
        return if rows.e == OutOfRange then Threw(OutOfRange) else Got(res);
      }
      var vars := CollectRows(rows.value);
      return if vars.Got? then Got(res[dev := vars.value]) else Undefined;
    }

    /** getDevicesVariableValues, pipelined */
    method GetDevicesVariableValues(devs: seq<string>) returns (r: Reply<map<string, Variables>>)
      modifies socket
      ensures Answer(r, socket.View()) == QueryDevices(old(socket.View()), devs)
    {
      if devs == [] {
        return Got(map[]);
      }
      var queries := [];
      var n := 0;
      while n < |devs|
        invariant n <= |devs| && WithNewlines(queries) == Queries(devs[..n]) && (queries == [] <==> n == 0)
        invariant socket.View() == old(socket.View())
      {
        WithNewlinesLast(queries, "LIST VAR " + devs[n]);
        QueriesLast(devs, n);
        queries := queries + ["LIST VAR " + devs[n]];
        n := n + 1;
      }
      assert devs[..n] == devs;
      var failed := SendAsyncQueries(queries);
      if failed.Some? {
        return Threw(failed.value);
      }
      ghost var all := ReadReplies(socket.View(), devs, map[]);
      var res := map[];
      n := 0;
      while n < |devs|
        invariant n <= |devs| && ReadReplies(socket.View(), devs[n..], res) == all
      {
        assert devs[n..][1..] == devs[n + 1..];
        var one := ReadReply(devs[n], res);
        if !one.Got? {
          return one;
        }
        res := one.value;
        n := n + 1;
      }
      if res == map[] {
        return Threw(INVALID_DEVICE);
      }
      return Got(res);
    }
  }

  function WithNewlines(queries: seq<string>): seq<string> {
    if queries == [] then [] else [queries[0] + "\n"] + WithNewlines(queries[1..])
  }

  lemma {:induction false} WithNewlinesLast(queries: seq<string>, q: string)
    ensures WithNewlines(queries + [q]) == WithNewlines(queries) + [q + "\n"]
    decreases |queries|
  {
    if queries == [] {
      assert [] + [q] == [q] && WithNewlines([q]) == [q + "\n"];
    } else {
      assert (queries + [q])[1..] == queries[1..] + [q];
      WithNewlinesLast(queries[1..], q);
    }
  }

  lemma WithNewlinesAppend(queries: seq<string>, n: nat)
    requires n < |queries|
    ensures WithNewlines(queries[..n + 1]) == WithNewlines(queries[..n]) + [queries[n] + "\n"]
  {
    assert queries[..n + 1] == queries[..n] + [queries[n]];
    WithNewlinesLast(queries[..n], queries[n]);
  }

  lemma {:induction false} QueriesLast(devs: seq<string>, n: nat)
    requires n < |devs|
    ensures Queries(devs[..n + 1]) == Queries(devs[..n]) + ["LIST VAR " + devs[n] + "\n"]
    decreases n
  {
    if n == 0 {
      assert devs[..1] == [devs[0]] && devs[..0] == [];
      assert [devs[0]][1..] == [];
    } else {
      assert devs[..n + 1][1..] == devs[1..][..n] && devs[..n][1..] == devs[1..][..n - 1];
      QueriesLast(devs[1..], n - 1);
    }
  }
}
