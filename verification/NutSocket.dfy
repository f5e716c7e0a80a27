// The socket of the C++ client library (clients/nutclient.cpp): lines reassembled from whatever
// chunks the network delivers.
module NutSocket {
  import opened Streams
  import opened Text

  /** Everything the client throws; all but OutOfRange derive from NutException. */
  datatype Exception = NotConnected | Timeout | IoError(what: string) | NutError(msg: string) | OutOfRange

  datatype Outcome = Line(text: string) | Thrown(e: Exception)

  datatype Link = Link(connected: bool, buffer: string, incoming: seq<Event>, sent: seq<string>)

  datatype Reading = Reading(outcome: Outcome, link: Link)

  const CLOSED: Exception := IoError("Server closed connection unexpectedly")
  const BROKEN: Exception := IoError("Error while reading on socket")

  predicate ValidLink(l: Link) {
    !l.connected ==> l.buffer == ""
  }

  function Disconnected(l: Link): Link {
    l.(connected := false, buffer := "")
  }

  function Weight(ins: seq<Event>): nat {
    if ins == [] then 0 else 1 + (if ins[0].Chunk? then |ins[0].bytes| else 0) + Weight(ins[1..])
  }

  /** Bounds the number of lines still to come. */
  function Size(l: Link): nat {
    |l.buffer| + Weight(l.incoming)
  }

  /** Socket::read(), with `res` already gathered. After a chunk without a newline the buffer keeps
      that chunk alone; a timeout then drops what was gathered before it. */
  function ReadLine(l: Link, res: string): (r: Reading)
    ensures Size(r.link) <= Size(l) && (r.outcome.Line? ==> Size(r.link) < Size(l))
    ensures r.link.sent == l.sent
    decreases |l.incoming|
  {
    var n := LineEnd(l.buffer);
    if n < |l.buffer| then Reading(Line(res + l.buffer[..n]), l.(buffer := l.buffer[n + 1..]))
    else if !l.connected then Reading(Thrown(NotConnected), l)
    else if l.incoming == [] then Reading(Thrown(CLOSED), Disconnected(l))
    else
      var rest := l.(incoming := l.incoming[1..]);
      match l.incoming[0]
      case TimedOut => Reading(Thrown(Timeout), rest)
      case Failed => Reading(Thrown(BROKEN), Disconnected(rest))
      case Chunk(bytes) =>
        if bytes == "" then Reading(Thrown(CLOSED), Disconnected(rest))
        else ReadLine(rest.(buffer := bytes), res + l.buffer)
  }

  // ----- the byte stream behind the chunks -----

  function Unread(l: Link): string {
    if l.connected then l.buffer + Arriving(l.incoming) else l.buffer
  }

  /** What a read meets once the stream holds no further newline. */
  function Ending(l: Link): Exception {
    if !l.connected then NotConnected
    else
      var after := Beyond(l.incoming);
      if after == [] || after[0].Chunk? then CLOSED else if after[0].TimedOut? then Timeout else BROKEN
  }

  predicate SameStream(k: Link, l: Link) {
    && k.connected == l.connected && Unread(k) == Unread(l)
    && (k.connected ==> Beyond(k.incoming) == Beyond(l.incoming))
  }

  /** The reading `r` is the stream up to its first newline, or the stream's ending. */
  predicate IsFirstLine(r: Reading, l: Link, res: string) {
    var all := Unread(l);
    var n := LineEnd(all);
    && ValidLink(r.link)
    && (n == |all| ==> r.outcome == Thrown(Ending(l)))
    && (n < |all| ==>
          && r.outcome == Line(res + all[..n]) && r.link.connected == l.connected
          && Unread(r.link) == all[n + 1..] && Beyond(r.link.incoming) == Beyond(l.incoming))
  }

  lemma ReadsBuffered(l: Link, res: string)
    requires ValidLink(l) && LineEnd(l.buffer) < |l.buffer|
    ensures IsFirstLine(ReadLine(l, res), l, res)
  {
    var n := LineEnd(l.buffer);
    LineEndConcat(l.buffer, Arriving(l.incoming));
    assert Unread(l)[..n] == l.buffer[..n];
    assert Unread(l)[n + 1..] == l.buffer[n + 1..] + Arriving(l.incoming);
  }

  /** The link once the next chunk has taken the buffer's place. */
  function NextChunk(l: Link): Link
    requires Chunks(l.incoming) > 0
  {
    l.(buffer := l.incoming[0].bytes, incoming := l.incoming[1..])
  }

  lemma FirstLineAcrossChunk(r: Reading, l: Link, res: string)
    requires l.connected && Chunks(l.incoming) > 0 && LineEnd(l.buffer) == |l.buffer|
    requires IsFirstLine(r, NextChunk(l), res + l.buffer)
    ensures IsFirstLine(r, l, res)
  {
    var more := Unread(NextChunk(l));
    assert Unread(l) == l.buffer + more;
    LineEndConcat(l.buffer, more);
    AcrossChunk(res, l.buffer, more, LineEnd(more));
  }

  /** A read returns the stream up to its first newline, wherever the chunks were cut. */
  lemma {:induction false} ReadsStream(l: Link, res: string)
    requires ValidLink(l)
    ensures IsFirstLine(ReadLine(l, res), l, res)
    decreases |l.incoming|
  {
    if LineEnd(l.buffer) < |l.buffer| {
      ReadsBuffered(l, res);
    } else if l.connected && Chunks(l.incoming) > 0 {
      ReadsStream(NextChunk(l), res + l.buffer);
      FirstLineAcrossChunk(ReadLine(NextChunk(l), res + l.buffer), l, res);
    } else {
      assert l.buffer + "" == l.buffer;
    }
  }

  /** Two connections with the same bytes to come behave alike, however those bytes are cut. */
  lemma ReadIgnoresChunking(k: Link, l: Link)
    requires ValidLink(k) && ValidLink(l) && SameStream(k, l)
    ensures ReadLine(k, "").outcome == ReadLine(l, "").outcome
    ensures ReadLine(k, "").outcome.Line? ==> SameStream(ReadLine(k, "").link, ReadLine(l, "").link)
  {
    ReadsStream(k, "");
    ReadsStream(l, "");
    SameFirstLine(ReadLine(k, ""), k, ReadLine(l, ""), l);
  }

  lemma SameFirstLine(r: Reading, k: Link, q: Reading, l: Link)
    requires SameStream(k, l) && IsFirstLine(r, k, "") && IsFirstLine(q, l, "")
    ensures r.outcome == q.outcome && (r.outcome.Line? ==> SameStream(r.link, q.link))
  {
  }

  datatype Drained = Drained(lines: seq<string>, e: Exception, link: Link)

  /** Reading line after line until a read throws. */
  function Drain(l: Link): Drained
    decreases Size(l)
  {
    var r := ReadLine(l, "");
    match r.outcome
    case Thrown(e) => Drained([], e, r.link)
    case Line(text) => var d := Drain(r.link); d.(lines := [text] + d.lines)
  }

  /** Reading until nothing more comes yields exactly the stream split at its newlines. */
  lemma {:induction false} DrainSplitsStream(l: Link)
    requires ValidLink(l)
    ensures Drain(l).lines == Lines(Unread(l)) && Drain(l).e == Ending(l)
    decreases Size(l)
  {
    ReadsStream(l, "");
    if LineEnd(Unread(l)) < |Unread(l)| {
      var n := LineEnd(Unread(l));
      DrainSplitsStream(ReadLine(l, "").link);
      assert "" + Unread(l)[..n] == Unread(l)[..n];
    }
  }

  /** One line at the head of the stream is read whole and nothing else is. */
  lemma ReadsHead(l: Link, line: string, rest: string)
    requires ValidLink(l) && '\n' !in line && Unread(l) == line + "\n" + rest
    ensures var r := ReadLine(l, "");
            r.outcome == Line(line) && ValidLink(r.link) && r.link.connected == l.connected && Unread(r.link) == rest
  {
    assert Unread(l)[..|line|] == line && Unread(l)[|line| + 1..] == rest;
    LineEndIs(Unread(l), |line|);
    ReadsStream(l, "");
    assert "" + line == line;
  }

  // ----- what a timeout loses -----

  function LastChunk(l: Link): string
    decreases |l.incoming|
  {
    if Chunks(l.incoming) == 0 then l.buffer
    else LastChunk(NextChunk(l))
  }

  lemma {:induction false} TimeoutKeepsLastChunk(l: Link, res: string)
    requires l.connected && ReadLine(l, res).outcome == Thrown(Timeout)
    ensures ReadLine(l, res).link.buffer == LastChunk(l)
    decreases |l.incoming|
  {
    if Chunks(l.incoming) > 0 {
      TimeoutKeepsLastChunk(NextChunk(l), res + l.buffer);
    }
  }

  lemma {:induction false} LastChunkIsAll(l: Link)
    requires l.connected
    ensures |LastChunk(l)| <= |Unread(l)|
    ensures LastChunk(l) == Unread(l) <==>
            Chunks(l.incoming) == 0 || (l.buffer == "" && Chunks(l.incoming) == 1)
    decreases |l.incoming|
  {
    if Chunks(l.incoming) > 0 {
      var l1 := NextChunk(l);
      LastChunkIsAll(l1);
      assert Unread(l) == l.buffer + Unread(l1);
      assert "" + Unread(l1) == Unread(l1);
    } else {
      assert l.buffer + "" == l.buffer;
    }
  }

  /** After a timeout the next read still sees every byte received so far exactly when at most one
      chunk had to be held: none arrived, or one arrived into an empty buffer. */
  lemma TimeoutKeepsAllIff(l: Link)
    requires ValidLink(l) && ReadLine(l, "").outcome == Thrown(Timeout)
    ensures ReadLine(l, "").link.buffer == Unread(l) <==>
            Chunks(l.incoming) == 0 || (l.buffer == "" && Chunks(l.incoming) == 1)
  {
    ReadsStream(l, "");
    TimeoutKeepsLastChunk(l, "");
    LastChunkIsAll(l);
  }

  // ----- the class -----

  class Socket {
    var connected: bool
    var buffer: string
    var incoming: seq<Event>
    var sent: seq<string>

    function View(): Link
      reads this
    {
      Link(connected, buffer, incoming, sent)
    }

    method Disconnect()
      modifies this
      ensures View() == Disconnected(old(View()))
    {
      connected := false;
      buffer := "";
    }

    /** Socket::read(void*, size_t): None when it throws */
    method Receive() returns (got: Option<string>, e: Exception)
      modifies this
      ensures sent == old(sent)
      ensures if !old(connected) then got == None && e == NotConnected && View() == old(View())
              else if old(incoming) == [] then got == Some("") && View() == old(View())
              else
                var rest := old(View()).(incoming := old(incoming)[1..]);
                match old(incoming)[0]
                case TimedOut => got == None && e == Timeout && View() == rest
                case Failed => got == None && e == BROKEN && View() == Disconnected(rest)
                case Chunk(bytes) => got == Some(bytes) && View() == rest
    {
      if !connected {
        return None, NotConnected;
      }
      if incoming == [] {
        return Some(""), CLOSED;
      }
      var event := incoming[0];
      incoming := incoming[1..];
      match event {
        case TimedOut => return None, Timeout;
        case Failed =>
          Disconnect();
          return None, BROKEN;
        case Chunk(bytes) => return Some(bytes), CLOSED;
      }
    }

    /** _buffer.find('\n') */
    method FindNewline() returns (idx: nat)
      ensures idx == LineEnd(buffer)
    {
      idx := 0;
      while idx < |buffer| && buffer[idx] != '\n'
        invariant idx <= |buffer| && forall i :: 0 <= i < idx ==> buffer[i] != '\n'
      {
        idx := idx + 1;
      }
      LineEndIs(buffer, idx);
    }

    /** Socket::read() */
    method Read() returns (o: Outcome)
      modifies this
      ensures Reading(o, View()) == ReadLine(old(View()), "")
    {
      var res := "";
      while true
        invariant ReadLine(View(), res) == ReadLine(old(View()), "")
        decreases |incoming|
      {
        if buffer != "" {
          var idx := FindNewline();
          if idx < |buffer| {
            res := res + buffer[..idx];
            buffer := buffer[idx + 1..];
            return Line(res);
          }
          res := res + buffer;
        }
        assert buffer == "" ==> res + buffer == res;
        var got, e := Receive();
        if got == None {
          return Thrown(e);
        }
        if got.value == "" {
          Disconnect();
          return Thrown(CLOSED);
        }
        buffer := got.value;
      }
    }

    /** Socket::write(const std::string&): the newline is added on the way out */
    method Write(line: string) returns (e: Option<Exception>)
      modifies this
      ensures e == if old(connected) then None else Some(NotConnected)
      ensures View() == old(View()).(sent := if old(connected) then old(sent) + [line + "\n"] else old(sent))
    {
      if !connected {
        return Some(NotConnected);
      }
      sent := sent + [line + "\n"];
      return None;
    }
  }
}
