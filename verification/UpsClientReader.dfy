// The line reader of the C client library (clients/upsclient.c): a 64-byte refill buffer on one
// side, the caller's bounded buffer on the other.
module UpsClientReader {
  import opened Streams
  import opened Text

  const READBUF_LEN: nat := 64

  datatype Problem =
    | NoProblem
    | DriverNotConnected
    | InvalidArgument
    | ReadError
    | ServerDisconnected
    | WriteError
    | ReportedByServer
    | ProtocolError

  /** What the LOGOUT that upscli_disconnect writes will meet. */
  datatype Goodbye = Written | Broken | Stuck

  /** The bytes still held in the refill buffer, what the network has yet to deliver, and what was
      sent. */
  datatype Conn = Conn(open: bool, held: string, incoming: seq<Event>, sent: seq<string>, goodbye: Goodbye)

  datatype Piece = Piece(ok: bool, text: string, conn: Conn)

  /** Why the read fails once a connection holds no further bytes. */
  function ReadCause(c: Conn): Problem {
    var after := Beyond(c.incoming);
    if after != [] && after[0].Failed? then ReadError else ServerDisconnected
  }

  /** The error a failing call leaves: writing LOGOUT may replace that of the read. */
  function Cause(c: Conn): Problem {
    match c.goodbye
    case Written => ReadCause(c)
    case Broken => WriteError
    case Stuck => ServerDisconnected
  }

  function LogoutSent(c: Conn): seq<string> {
    if c.goodbye.Written? then c.sent + ["LOGOUT\n"] else c.sent
  }

  function NextChunk(c: Conn): Conn
    requires Chunks(c.incoming) > 0
  {
    c.(held := c.incoming[0].bytes, incoming := c.incoming[1..])
  }

  function Refilled(c: Conn): Conn {
    if c.held == "" && Chunks(c.incoming) > 0 then NextChunk(c) else c
  }

  function Closed(c: Conn): Conn {
    c.(open := false, held := "", incoming := if c.incoming == [] then [] else c.incoming[1..], sent := LogoutSent(c))
  }

  /** The loop of upscli_readline_timeout, with `done` already stored and `room` bytes left. */
  function ReadPiece(c: Conn, room: nat, done: string): (p: Piece)
    ensures |p.text| <= |done| + room
    decreases room, |c.incoming|
  {
    if room == 0 then Piece(true, done, c)
    else if c.held == "" then
      if Chunks(c.incoming) == 0 then Piece(false, done, Closed(c)) else ReadPiece(NextChunk(c), room, done)
    else
      var next := c.(held := c.held[1..]);
      if c.held[0] == '\n' then Piece(true, done, next) else ReadPiece(next, room - 1, done + [c.held[0]])
  }

  // ----- the stream behind it -----

  function Unread(c: Conn): string {
    c.held + Arriving(c.incoming)
  }

  /** What a read with `room` bytes makes of a stream: a line without its newline, or `room` bytes
      of a longer one. */
  datatype Cut = Cut(text: string, rest: string)

  predicate CanCut(all: string, room: nat) {
    LineEnd(all) < |all| || room <= |all|
  }

  function CutOff(all: string, room: nat): Cut
    requires CanCut(all, room)
  {
    var n := LineEnd(all);
    if n < room then Cut(all[..n], all[n + 1..]) else Cut(all[..room], all[room..])
  }

  /** `p` is what a read makes of the stream of `c`. */
  predicate IsCut(p: Piece, c: Conn, room: nat, done: string) {
    var all := Unread(c);
    && (p.ok <==> CanCut(all, room))
    && (p.ok ==>
          && p.text == done + CutOff(all, room).text && Unread(p.conn) == CutOff(all, room).rest
          && p.conn.open == c.open && p.conn.sent == c.sent && Beyond(p.conn.incoming) == Beyond(c.incoming))
    && (!p.ok ==> !p.conn.open && p.conn.held == "" && p.conn.sent == LogoutSent(c))
  }

  lemma CutLater(first: char, more: string, room: nat)
    requires room > 0 && first != '\n'
    ensures CanCut([first] + more, room) <==> CanCut(more, room - 1)
    ensures CanCut(more, room - 1) ==>
              CutOff([first] + more, room) == Cut([first] + CutOff(more, room - 1).text, CutOff(more, room - 1).rest)
  {
    var all := [first] + more;
    assert all[1..] == more;
    assert forall k :: 0 <= k <= |more| ==> all[..k + 1] == [first] + more[..k] && all[k + 1..] == more[k..];
  }

  lemma TakeOne(p: Piece, c: Conn, room: nat, done: string)
    requires room > 0 && c.held != "" && c.held[0] != '\n'
    requires IsCut(p, c.(held := c.held[1..]), room - 1, done + [c.held[0]])
    ensures IsCut(p, c, room, done)
  {
    var first, more := c.held[0], Unread(c.(held := c.held[1..]));
    Assoc([first], c.held[1..], Arriving(c.incoming));
    assert c.held == [first] + c.held[1..];
    CutLater(first, more, room);
    if p.ok {
      Assoc(done, [first], CutOff(more, room - 1).text);
    }
  }

  lemma TakeNewline(c: Conn, room: nat, done: string)
    requires room > 0 && c.held != "" && c.held[0] == '\n'
    ensures IsCut(Piece(true, done, c.(held := c.held[1..])), c, room, done)
  {
    var all := Unread(c);
    assert all[0] == '\n' && all[1..] == c.held[1..] + Arriving(c.incoming);
    assert done + all[..0] == done;
  }

  /** One read takes one cut off the stream, however the stream was delivered. */
  lemma {:induction false} ReadsCut(c: Conn, room: nat, done: string)
    ensures IsCut(ReadPiece(c, room, done), c, room, done)
    decreases room, |c.incoming|
  {
    if room == 0 {
      assert done + Unread(c)[..0] == done;
    } else if c.held == "" {
      if Chunks(c.incoming) > 0 {
        ReadsCut(NextChunk(c), room, done);
        assert Unread(c) == Unread(NextChunk(c));
      }
    } else if c.held[0] == '\n' {
      TakeNewline(c, room, done);
    } else {
      var next := c.(held := c.held[1..]);
      ReadsCut(next, room - 1, done + [c.held[0]]);
      TakeOne(ReadPiece(next, room - 1, done + [c.held[0]]), c, room, done);
    }
  }

  lemma ReadIgnoresChunking(b: Conn, c: Conn, room: nat)
    requires Unread(b) == Unread(c)
    ensures var p, q := ReadPiece(b, room, ""), ReadPiece(c, room, "");
            p.ok == q.ok && (p.ok ==> p.text == q.text && Unread(p.conn) == Unread(q.conn))
  {
    ReadsCut(b, room, "");
    ReadsCut(c, room, "");
  }

  // ----- runs of reads -----

  /** The texts that reads with `room` bytes cut off a stream until they fail. */
  function Cuts(all: string, room: nat): seq<string>
    requires room > 0
    decreases |all|
  {
    if !CanCut(all, room) then []
    else [CutOff(all, room).text] + Cuts(CutOff(all, room).rest, room)
  }

  /** What no read returns: an unfinished line shorter than the caller's buffer. */
  function Leftover(all: string, room: nat): string
    requires room > 0
    decreases |all|
  {
    if !CanCut(all, room) then all else Leftover(CutOff(all, room).rest, room)
  }

  /** The stream a caller puts together from the texts alone: one that does not fill the buffer was
      ended by a newline. */
  function Rebuilt(texts: seq<string>, room: nat): string {
    if texts == [] then ""
    else texts[0] + (if |texts[0]| < room then "\n" else "") + Rebuilt(texts[1..], room)
  }

  lemma CutJoins(all: string, room: nat)
    requires room > 0 && CanCut(all, room)
    ensures var c := CutOff(all, room);
            all == c.text + (if |c.text| < room then "\n" else "") + c.rest
  {
  }

  /** No byte is lost, duplicated or reordered, whatever the size of the buffer. */
  lemma {:induction false} CutsRebuild(all: string, room: nat)
    requires room > 0
    ensures Rebuilt(Cuts(all, room), room) + Leftover(all, room) == all
    ensures |Leftover(all, room)| < room
    decreases |all|
  {
    if CanCut(all, room) {
      var c := CutOff(all, room);
      CutsRebuild(c.rest, room);
      CutJoins(all, room);
      assert Cuts(all, room)[1..] == Cuts(c.rest, room);
      Assoc(c.text + (if |c.text| < room then "\n" else ""), Rebuilt(Cuts(c.rest, room), room), Leftover(c.rest, room));
    }
  }

  /** The line at the head of a stream comes back whole, newline consumed, exactly when two bytes of
      the caller's buffer can stay free for the newline and the terminator. */
  lemma LineWholeIff(line: string, rest: string, room: nat)
    requires '\n' !in line
    ensures var all := line + "\n" + rest;
            CanCut(all, room) && (CutOff(all, room) == Cut(line, rest) <==> |line| < room)
  {
    var all := line + "\n" + rest;
    LineEndIs(all, |line|);
    assert all[..|line|] == line && all[|line| + 1..] == rest;
    if room <= |line| {
      assert |CutOff(all, room).rest| == |all| - room > |rest|;
    }
  }

  /** When no line is too long, reading returns the lines themselves. */
  lemma {:induction false} ShortLinesWhole(all: string, room: nat)
    requires room > 0 && |Remainder(all)| < room
    requires forall i :: 0 <= i < |Lines(all)| ==> |Lines(all)[i]| < room
    ensures Cuts(all, room) == Lines(all) && Leftover(all, room) == Remainder(all)
    decreases |all|
  {
    var n := LineEnd(all);
    if n < |all| {
      assert Lines(all)[0] == all[..n];
      assert Lines(all)[1..] == Lines(all[n + 1..]);
      ShortLinesWhole(all[n + 1..], room);
    }
  }

  /** Reads until one fails. */
  function Drain(c: Conn, room: nat): (r: (seq<string>, Conn))
    requires room > 0
    decreases |Unread(c)|
  {
    var p := ReadPiece(c, room, "");
    ReadsCut(c, room, "");
    if !p.ok then ([], p.conn) else var d := Drain(p.conn, room); ([p.text] + d.0, d.1)
  }

  /** Over a whole connection the reads return the cuts of its stream, independent of chunking. */
  lemma {:induction false} DrainCutsStream(c: Conn, room: nat)
    requires room > 0
    ensures Drain(c, room).0 == Cuts(Unread(c), room) && !Drain(c, room).1.open
    decreases |Unread(c)|
  {
    ReadsCut(c, room, "");
    var p := ReadPiece(c, room, "");
    if p.ok {
      DrainCutsStream(p.conn, room);
      assert "" + CutOff(Unread(c), room).text == CutOff(Unread(c), room).text;
    }
  }

  // ----- the class -----

  class Connection {
    var open: bool
    const readbuf: array<char>
    var readlen: nat
    var readidx: nat
    var incoming: seq<Event>
    var upserror: Problem
    var sent: seq<string>
    const goodbye: Goodbye

    ghost predicate Valid()
      reads this
    {
      && readbuf.Length == READBUF_LEN
      && readidx <= readlen <= readbuf.Length
      && (!open ==> readidx == readlen)
      && forall i :: 0 <= i < |incoming| && incoming[i].Chunk? ==> |incoming[i].bytes| <= READBUF_LEN
    }

    ghost function View(): Conn
      reads this, readbuf
      requires Valid()
    {
      Conn(open, readbuf[readidx..readlen], incoming, sent, goodbye)
    }

    constructor (incoming: seq<Event>, goodbye: Goodbye)
      requires forall i :: 0 <= i < |incoming| && incoming[i].Chunk? ==> |incoming[i].bytes| <= READBUF_LEN
      ensures Valid() && View() == Conn(true, "", incoming, [], goodbye) && upserror == NoProblem && fresh(readbuf)
    {
      open := true;
      readbuf := new char[READBUF_LEN];
      readlen, readidx := 0, 0;
      this.incoming := incoming;
      upserror, sent, this.goodbye := NoProblem, [], goodbye;
    }

    /** net_read into the refill buffer */
    method NetRead() returns (ret: int)
      requires Valid() && open && readidx == readlen
      modifies this, readbuf
      ensures Valid() && open
      ensures if Chunks(old(incoming)) > 0
              then ret > 0 && View() == NextChunk(old(View())) && upserror == old(upserror)
              else && ret < 1 && readidx == readlen && incoming == Closed(old(View())).incoming && sent == old(sent)
                   && upserror == ReadCause(old(View()))
    {
      if incoming == [] {
        upserror := ServerDisconnected;
        return 0;
      }
      var event := incoming[0];
      incoming := incoming[1..];
      if event.Failed? {
        upserror := ReadError;
        return -1;
      }
      if event.TimedOut? || event.bytes == "" {
        upserror := ServerDisconnected;
        return 0;
      }
      forall i | 0 <= i < |event.bytes| {
        readbuf[i] := event.bytes[i];
      }
      readidx, readlen := 0, |event.bytes|;
      assert readbuf[0..readlen] == event.bytes;
      return |event.bytes|;
    }

    /** upscli_disconnect, with net_write of the LOGOUT */
    method Disconnect()
      requires Valid() && readidx == readlen && open
      modifies this`open, this`sent, this`upserror
      ensures Valid() && !open && sent == old(LogoutSent(View()))
      ensures upserror == match goodbye case Written => old(upserror) case Broken => WriteError case Stuck => ServerDisconnected
    {
      match goodbye {
        case Written => sent := sent + ["LOGOUT\n"];
        case Broken => upserror := WriteError;
        case Stuck => upserror := ServerDisconnected;
      }
      open := false;
    }

    /** The next byte, refilling the buffer first when it is used up */
    method NextByte() returns (ok: bool, c: char)
      requires Valid() && open
      modifies this, readbuf
      ensures Valid()
      ensures var v := Refilled(old(View()));
              if v.held == "" then && !ok && View() == Closed(v)
                                   && upserror == Cause(v)
              else ok && upserror == old(upserror) && c == v.held[0] && View() == v.(held := v.held[1..])
    {
      c := NUL;
      if readidx == readlen {
        var ret := NetRead();
        if ret < 1 {
          Disconnect();
          return false, c;
        }
      }
      c := readbuf[readidx];
      readidx := readidx + 1;
      return true, c;
    }

    /** One turn of the loop: 1 for a byte stored, 0 at a newline, -1 when there is no byte */
    method StoreNext(buf: array<char>, recv: nat, ghost room: nat, ghost done: string) returns (more: int)
      requires Valid() && open && recv < buf.Length && buf != readbuf && buf[..recv] == done && room > 0
      modifies this, readbuf, buf
      ensures Valid() && more in {-1, 0, 1} && (open <==> more != -1)
      ensures forall j :: recv < j < buf.Length ==> buf[j] == old(buf[j])
      ensures upserror == if more == -1 then Cause(old(View())) else old(upserror)
      ensures more != -1 ==> Cause(View()) == Cause(old(View()))
      ensures more == 1 ==> buf[..recv + 1] == done + [buf[recv]]
      ensures more == 0 ==> buf[..recv] == done
      ensures ReadPiece(old(View()), room, done) ==
              if more == 1 then ReadPiece(View(), room - 1, done + [buf[recv]]) else Piece(more == 0, done, View())
    {
      var ok, c := NextByte();
      if !ok {
        return -1;
      }
      buf[recv] := c;
      assert buf[..recv] == done;
      return if c == '\n' then 0 else 1;
    }

    /** The loop of upscli_readline_timeout, and the terminator */
    method FillLine(buf: array<char>, buflen: nat) returns (ret: int)
      requires Valid() && open && 1 <= buflen <= buf.Length && buf != readbuf
      modifies this, readbuf, buf
      ensures Valid() && (ret == 0 || ret == -1)
      ensures var p := ReadPiece(old(View()), buflen - 1, "");
              && View() == p.conn
              && (ret == 0 <==> p.ok)
              && (p.ok ==> |p.text| < buflen && buf[..|p.text| + 1] == p.text + [NUL] && upserror == old(upserror))
              && (!p.ok ==> upserror == Cause(old(View())))
      ensures forall j :: buflen <= j < buf.Length ==> buf[j] == old(buf[j])
    {
      ghost var whole := ReadPiece(View(), buflen - 1, "");
      ghost var done := "";
      var recv := 0;
      while recv < buflen - 1
        invariant Valid() && open && recv <= buflen - 1
        invariant buf[..recv] == done && ReadPiece(View(), buflen - 1 - recv, done) == whole
        invariant upserror == old(upserror) && forall j :: buflen <= j < buf.Length ==> buf[j] == old(buf[j])
        invariant Cause(View()) == Cause(old(View()))
      {
        var more := StoreNext(buf, recv, buflen - 1 - recv, done);
        if more == -1 {
          return -1;
        }
        if more == 0 {
          break;
        }
        done := done + [buf[recv]];
        recv := recv + 1;
      }
      assert Piece(true, done, View()) == whole;
      Terminate(buf, recv, done);
      return 0;
    }

    method Terminate(buf: array<char>, recv: nat, ghost done: string)
      requires Valid() && recv < buf.Length && buf != readbuf && buf[..recv] == done
      modifies buf
      ensures Valid() && View() == old(View())
      ensures buf[..recv + 1] == done + [NUL] && forall j :: recv < j < buf.Length ==> buf[j] == old(buf[j])
    {
      buf[recv] := NUL;
      assert buf[..recv] == done;
    }

    /** upscli_readline_timeout */
    method ReadlineTimeout(buf: array<char>, buflen: nat) returns (ret: int)
      requires Valid() && buflen <= buf.Length && buf != readbuf
      modifies this, readbuf, buf
      ensures Valid()
      ensures ret == 0 || ret == -1
      ensures if !old(open) || buflen < 1
              then && ret == -1 && View() == old(View()) && buf[..] == old(buf[..])
                   && upserror == if !old(open) then DriverNotConnected else InvalidArgument
              else
                var p := ReadPiece(old(View()), buflen - 1, "");
                && View() == p.conn
                && (ret == 0 <==> p.ok)
                && (p.ok ==> |p.text| < buflen && buf[..|p.text| + 1] == p.text + [NUL] && upserror == old(upserror))
                && (!p.ok ==> upserror == Cause(old(View())))
      ensures buf[buflen..] == old(buf[buflen..])
    {
      if !open {
        upserror := DriverNotConnected;
        return -1;
      }
      if buflen < 1 {
        upserror := InvalidArgument;
        return -1;
      }
      ret := FillLine(buf, buflen);
    }
  }
}
