// The timer daemon of clients/upssched.c: what its queue of timers goes through over a run, how
// it reads commands from a connection, and the message its client builds for it.
module UpsSched {
  import opened Text
  import opened ParseConf

  /** Minimum number of passes with an empty queue before the daemon exits. */
  const EMPTY_WAIT: nat := 15
  const US_MAX_READ: nat := 128
  const SMALLBUF: nat := 512

  // ----- the timer queue -----

  /** A timer, with its serial number and the number of passes made before it was started. */
  datatype Timer = Timer(id: nat, name: string, etime: int, since: nat)

  /** A timer that went off in pass number `pass`. */
  datatype Firing = Firing(timer: Timer, pass: nat)

  /** One call of checktimers: the time and whether the queue was empty. */
  datatype Pass = Pass(at: int, idle: bool)

  datatype Daemon = Daemon(
    queue: seq<Timer>,
    emptyctr: nat,
    exited: bool,
    ran: seq<string>,        // commands executed, in order
    started: seq<Timer>,     // history, oldest first
    fired: seq<Firing>,
    cancelled: seq<Timer>,
    passes: seq<Pass>)

  const NEW_DAEMON: Daemon := Daemon([], 0, false, [], [], [], [], [])

  function StartTimer(d: Daemon, name: string, ofsstr: string, now: int): Daemon {
    var ofs := Strtol(ofsstr);
    if ofs < 0 then d
    else
      var t := Timer(|d.started|, name, now + ofs, |d.passes|);
      d.(queue := d.queue + [t], started := d.started + [t])
  }

  /** The position of the first timer with this name, or the length of the queue. */
  function FindTimer(queue: seq<Timer>, name: string): (i: nat)
    ensures i <= |queue|
    ensures i < |queue| ==> queue[i].name == name
    ensures forall k :: 0 <= k < i ==> queue[k].name != name
  {
    if queue == [] || queue[0].name == name then 0 else 1 + FindTimer(queue[1..], name)
  }

  function RemoveAt<T>(s: seq<T>, i: nat): seq<T>
    requires i < |s|
  {
    s[..i] + s[i + 1..]
  }

  function CancelTimer(d: Daemon, name: string, cname: Option<string>): Daemon {
    var i := FindTimer(d.queue, name);
    if i < |d.queue| then d.(queue := RemoveAt(d.queue, i), cancelled := d.cancelled + [d.queue[i]])
    else if cname.Some? && cname.value != "" then d.(ran := d.ran + [cname.value])
    else d
  }

  /** The timers of a queue that are due at `now`, or those that are not, in queue order. */
  function Select(queue: seq<Timer>, now: int, due: bool): seq<Timer> {
    if queue == [] then []
    else (if (now >= queue[0].etime) == due then [queue[0]] else []) + Select(queue[1..], now, due)
  }

  function Names(ts: seq<Timer>): (r: seq<string>)
    ensures |r| == |ts|
  {
    seq(|ts|, i requires 0 <= i < |ts| => ts[i].name)
  }

  function Firings(ts: seq<Timer>, pass: nat): (r: seq<Firing>)
    ensures |r| == |ts|
  {
    seq(|ts|, i requires 0 <= i < |ts| => Firing(ts[i], pass))
  }

  function CheckTimers(d: Daemon, now: int): Daemon {
    if d.queue == [] then
      d.(emptyctr := d.emptyctr + 1, exited := d.emptyctr + 1 >= EMPTY_WAIT, passes := d.passes + [Pass(now, true)])
    else
      var due := Select(d.queue, now, true);
      d.(emptyctr := 0,
         queue := Select(d.queue, now, false),
         ran := d.ran + Names(due),
         fired := d.fired + Firings(due, |d.passes|),
         passes := d.passes + [Pass(now, false)])
  }

  datatype Op =
    | Start(name: string, ofs: string, now: int)
    | Cancel(name: string, cname: Option<string>)
    | Check(now: int)

  /** A daemon that has exited does nothing more. */
  function Apply(d: Daemon, op: Op): Daemon {
    if d.exited then d
    else match op
      case Start(name, ofs, now) => StartTimer(d, name, ofs, now)
      case Cancel(name, cname) => CancelTimer(d, name, cname)
      case Check(now) => CheckTimers(d, now)
  }

  function RunOps(ops: seq<Op>): Daemon {
    if ops == [] then NEW_DAEMON else Apply(RunOps(ops[..|ops| - 1]), ops[|ops| - 1])
  }

  function FiredTimers(fs: seq<Firing>): (r: seq<Timer>)
    ensures |r| == |fs|
  {
    seq(|fs|, i requires 0 <= i < |fs| => fs[i].timer)
  }

  // ----- every started timer is pending, fired once or cancelled -----

  ghost predicate Conserved(d: Daemon) {
    && multiset(d.queue) + multiset(FiredTimers(d.fired)) + multiset(d.cancelled) == multiset(d.started)
    && forall i :: 0 <= i < |d.started| ==> d.started[i].id == i
  }

  lemma {:induction false} SelectSplits(queue: seq<Timer>, now: int)
    ensures multiset(Select(queue, now, true)) + multiset(Select(queue, now, false)) == multiset(queue)
    ensures forall t :: t in Select(queue, now, true) ==> t in queue && t.etime <= now
    ensures forall t :: t in Select(queue, now, false) ==> t in queue && now < t.etime
  {
    if queue != [] {
      SelectSplits(queue[1..], now);
      assert queue == [queue[0]] + queue[1..];
    }
  }

  lemma RemoveAtKeepsRest<T>(s: seq<T>, i: nat)
    requires i < |s|
    ensures multiset(RemoveAt(s, i)) + multiset{s[i]} == multiset(s)
  {
    assert s == s[..i] + [s[i]] + s[i + 1..];
  }

  lemma StartConserves(d: Daemon, name: string, ofs: string, now: int)
    requires Conserved(d)
    ensures Conserved(StartTimer(d, name, ofs, now))
  {
  }

  lemma CancelConserves(d: Daemon, name: string, cname: Option<string>)
    requires Conserved(d)
    ensures Conserved(CancelTimer(d, name, cname))
  {
    var i := FindTimer(d.queue, name);
    if i < |d.queue| {
      RemoveAtKeepsRest(d.queue, i);
    }
  }

  lemma CheckConserves(d: Daemon, now: int)
    requires Conserved(d)
    ensures Conserved(CheckTimers(d, now))
  {
    if d.queue != [] {
      SelectSplits(d.queue, now);
      var due := Select(d.queue, now, true);
      FiredTimersConcat(d.fired, due, |d.passes|);
    }
  }

  lemma FiredTimersConcat(fs: seq<Firing>, ts: seq<Timer>, pass: nat)
    ensures multiset(FiredTimers(fs + Firings(ts, pass))) == multiset(FiredTimers(fs)) + multiset(ts)
  {
    assert FiredTimers(fs + Firings(ts, pass)) == FiredTimers(fs) + ts;
  }

  lemma ApplyConserves(d: Daemon, op: Op)
    requires Conserved(d)
    ensures Conserved(Apply(d, op))
  {
    match op
    case Start(name, ofs, now) => StartConserves(d, name, ofs, now);
    case Cancel(name, cname) => CancelConserves(d, name, cname);
    case Check(now) => CheckConserves(d, now);
  }

  lemma {:induction false} RunConserves(ops: seq<Op>)
    ensures Conserved(RunOps(ops))
  {
    if ops == [] {
      assert FiredTimers([]) == [];
    } else {
      RunConserves(ops[..|ops| - 1]);
      ApplyConserves(RunOps(ops[..|ops| - 1]), ops[|ops| - 1]);
    }
  }

  /** Over every run, every timer ever started with a valid offset is in exactly one of three
      places, and there exactly once: in the queue, among the fired or among the cancelled. */
  lemma TimerInOnePlace(ops: seq<Op>, k: nat)
    requires k < |RunOps(ops).started|
    ensures var d := RunOps(ops); var t := d.started[k];
            multiset(d.queue)[t] + multiset(FiredTimers(d.fired))[t] + multiset(d.cancelled)[t] == 1
  {
    var d := RunOps(ops);
    RunConserves(ops);
    var t := d.started[k];
    StartedOnce(d.started, k);
  }

  lemma StartedOnce(ts: seq<Timer>, k: nat)
    requires k < |ts| && forall i, j :: 0 <= i < j < |ts| ==> ts[i] != ts[j]
    ensures multiset(ts)[ts[k]] == 1
  {
    RemoveAtKeepsRest(ts, k);
    var others := RemoveAt(ts, k);
    forall j | 0 <= j < |others|
      ensures others[j] != ts[k]
    {
      assert others[j] == ts[if j < k then j else j + 1];
    }
  }

  // ----- a timer fires in the first pass that is not before its time -----

  ghost predicate OnTime(d: Daemon) {
    && (forall t :: t in d.queue ==> t.since <= |d.passes| && NotDue(d, t, |d.passes|))
    && (forall f :: f in d.fired ==>
          f.timer.since <= f.pass < |d.passes| && f.timer.etime <= d.passes[f.pass].at && NotDue(d, f.timer, f.pass))
  }

  /** No pass from the start of `t` up to pass number `end` came at or after its time. */
  ghost predicate NotDue(d: Daemon, t: Timer, end: nat) {
    end <= |d.passes| && forall k :: t.since <= k < end ==> d.passes[k].at < t.etime
  }

  lemma {:induction false} RunOnTime(ops: seq<Op>)
    ensures OnTime(RunOps(ops))
  {
    if ops != [] {
      var d, op := RunOps(ops[..|ops| - 1]), ops[|ops| - 1];
      RunOnTime(ops[..|ops| - 1]);
      if !d.exited && op.Check? && d.queue != [] {
        CheckOnTime(d, op.now);
      }
    }
  }

  lemma CheckOnTime(d: Daemon, now: int)
    requires OnTime(d) && d.queue != []
    ensures OnTime(CheckTimers(d, now))
  {
    var d' := CheckTimers(d, now);
    var due := Select(d.queue, now, true);
    SelectSplits(d.queue, now);
    forall f | f in d'.fired
      ensures f.timer.since <= f.pass < |d'.passes|
      ensures f.timer.etime <= d'.passes[f.pass].at && NotDue(d', f.timer, f.pass)
    {
      if f !in d.fired {
        assert f in Firings(due, |d.passes|);
        assert f.timer in due;
        assert NotDue(d, f.timer, |d.passes|);
      } else {
        assert NotDue(d, f.timer, f.pass);
      }
    }
    forall t | t in d'.queue
      ensures t.since <= |d'.passes| && NotDue(d', t, |d'.passes|)
    {
      assert NotDue(d, t, |d.passes|);
    }
  }

  /** A timer never fires before its time, fires in the very first pass at or after it, and what is
      still pending was not due in any pass since its start. */
  lemma FiresAtFirstDuePass(ops: seq<Op>)
    ensures var d := RunOps(ops);
            && (forall f :: f in d.fired ==>
                  && f.timer.since <= f.pass < |d.passes|
                  && f.timer.etime <= d.passes[f.pass].at
                  && forall k :: f.timer.since <= k < f.pass ==> d.passes[k].at < f.timer.etime)
            && (forall t :: t in d.queue ==> forall k :: t.since <= k < |d.passes| ==> d.passes[k].at < t.etime)
  {
    RunOnTime(ops);
    var d := RunOps(ops);
    forall f | f in d.fired
      ensures forall k :: f.timer.since <= k < f.pass ==> d.passes[k].at < f.timer.etime
    {
      assert NotDue(d, f.timer, f.pass);
    }
    forall t | t in d.queue
      ensures forall k :: t.since <= k < |d.passes| ==> d.passes[k].at < t.etime
    {
      assert NotDue(d, t, |d.passes|);
    }
  }

  // ----- the daemon exits only after a run of empty passes -----

  function TrailingIdle(passes: seq<Pass>): (n: nat)
    ensures n <= |passes|
    ensures forall k :: |passes| - n <= k < |passes| ==> passes[k].idle
    ensures n < |passes| ==> !passes[|passes| - n - 1].idle
  {
    if passes == [] || !passes[|passes| - 1].idle then 0 else 1 + TrailingIdle(passes[..|passes| - 1])
  }

  lemma {:induction false} EmptyCounterCounts(ops: seq<Op>)
    ensures CountsIdle(RunOps(ops))
  {
    if ops != [] {
      EmptyCounterCounts(ops[..|ops| - 1]);
      OpCounts(RunOps(ops[..|ops| - 1]), ops[|ops| - 1]);
    }
  }

  predicate CountsIdle(d: Daemon) {
    d.emptyctr == TrailingIdle(d.passes) && (d.exited <==> d.emptyctr >= EMPTY_WAIT)
  }

  lemma PassCounts(passes: seq<Pass>, pass: Pass)
    ensures TrailingIdle(passes + [pass]) == if pass.idle then 1 + TrailingIdle(passes) else 0
  {
    var all := passes + [pass];
    assert all[..|all| - 1] == passes && all[|all| - 1] == pass;
  }

  lemma OpCounts(d: Daemon, op: Op)
    requires CountsIdle(d)
    ensures CountsIdle(Apply(d, op))
  {
    if op.Check? {
      PassCounts(d.passes, Pass(op.now, d.queue == []));
    } else if op.Start? {
      assert StartTimer(d, op.name, op.ofs, op.now).passes == d.passes;
    }
  }

  /** The daemon has exited exactly when its last EMPTY_WAIT passes all found an empty queue. */
  lemma ExitsAfterEmptyWait(ops: seq<Op>)
    ensures var d := RunOps(ops);
            d.exited <==> |d.passes| >= EMPTY_WAIT && forall k :: |d.passes| - EMPTY_WAIT <= k < |d.passes| ==> d.passes[k].idle
  {
    EmptyCounterCounts(ops);
    var d := RunOps(ops);
    var n := TrailingIdle(d.passes);
    if n < EMPTY_WAIT && |d.passes| >= EMPTY_WAIT {
      assert !d.passes[|d.passes| - n - 1].idle;
    }
  }

  // ----- commands -----

  datatype Command =
    | StartCmd(name: string, ofs: string)
    | CancelCmd(name: string, cname: Option<string>)
    | Unknown
    | Undefined  // a lone CANCEL on a connection that never had a second argument reads no slot

  /** sock_arg, with the argument slots as the line left them: a lone CANCEL takes its name from an
      earlier line. */
  function SockArg(args: seq<string>, slots: seq<string>): Command {
    if |args| < 1 then Unknown
    else if args[0] == "CANCEL" then
      if |args| >= 3 then CancelCmd(args[1], Some(args[2]))
      else if |args| == 2 then CancelCmd(args[1], None)
      else if |slots| > 1 then CancelCmd(slots[1], None)
      else Undefined
    else if |args| < 3 then Unknown
    else if args[0] == "START" then StartCmd(args[1], args[2])
    else Unknown
  }

  /** What a command does to the daemon; an unknown one does nothing. */
  function Perform(d: Daemon, c: Command, now: int): Daemon {
    match c
    case StartCmd(name, ofs) => StartTimer(d, name, ofs, now)
    case CancelCmd(name, cname) => CancelTimer(d, name, cname)
    case Unknown => d
    case Undefined => d
  }

  // ----- reading a connection -----

  /** What one read() of one byte can come back with. */
  datatype ReadOutcome =
    | Byte(c: char)
    | Again     // nothing to read now
    | ZeroOpen  // zero bytes, but the connection still looks open
    | Gone      // closed, or any other error

  function Bytes(o: seq<ReadOutcome>): string {
    if o == [] then "" else (if o[0].Byte? then [o[0].c] else "") + Bytes(o[1..])
  }

  datatype Round = Round(scan: Scan, used: nat, ret: int, line: Option<seq<string>>)

  /** sock_read from its i-th byte on: 1 after a complete line, 0 to be continued, -1 to close. */
  function ReadRound(s: Scan, lim: Limits, o: seq<ReadOutcome>, i: nat): (r: Round)
    ensures r.used <= |o|
    ensures i < US_MAX_READ && o != [] ==> r.used > 0
    decreases |o|
  {
    if i >= US_MAX_READ || o == [] then Round(s, 0, 0, None)
    else match o[0]
      case Again => Round(s, 1, 0, None)
      case Gone => Round(s, 1, -1, None)
      case ZeroOpen =>
        if i == US_MAX_READ - 1 then Round(s, 1, -1, None)
        else var r := ReadRound(s, lim, o[1..], i + 1); r.(used := r.used + 1)
      case Byte(c) =>
        var s' := FeedChar(s, lim, c);
        if s'.state == EndOfLine then Round(s', 1, 1, Some(s'.args))
        else if s'.state == ParseErr then Round(s', 1, 0, None)
        else var r := ReadRound(s', lim, o[1..], i + 1); r.(used := r.used + 1)
  }

  /** The argument slots of the connection after such a round. */
  function RoundSlots(slots: seq<string>, s: Scan, lim: Limits, o: seq<ReadOutcome>, i: nat): seq<string>
    decreases |o|
  {
    if i >= US_MAX_READ || o == [] then slots
    else match o[0]
      case Again => slots
      case Gone => slots
      case ZeroOpen => if i == US_MAX_READ - 1 then slots else RoundSlots(slots, s, lim, o[1..], i + 1)
      case Byte(c) =>
        var s' := FeedChar(s, lim, c);
        var slots' := SlotsAfter(slots, s'.args);
        if Stopped(s') then slots' else RoundSlots(slots', s', lim, o[1..], i + 1)
  }

  datatype Served = Served(scan: Scan, used: nat, closed: bool, lines: seq<seq<string>>)

  /** Calls of sock_read, one after the other, until the outcomes are used up. */
  function Serve(s: Scan, lim: Limits, o: seq<ReadOutcome>): (r: Served)
    ensures r.used <= |o|
    decreases |o|
  {
    if o == [] then Served(s, 0, false, [])
    else
      var r := ReadRound(s, lim, o, 0);
      if r.ret == -1 then Served(r.scan, r.used, true, [])
      else
        InTurn(r, Serve(r.scan, lim, o[r.used..]))
  }

  lemma {:induction false} BytesConcat(a: seq<ReadOutcome>, b: seq<ReadOutcome>)
    ensures Bytes(a + b) == Bytes(a) + Bytes(b)
  {
    if a == [] {
      assert a + b == b;
    } else {
      assert (a + b)[0] == a[0] && (a + b)[1..] == a[1..] + b;
      BytesConcat(a[1..], b);
    }
  }

  /** The round is what feeding these bytes does. */
  predicate Feeds(r: Round, s: Scan, lim: Limits, bytes: string) {
    && r.scan == FeedChars(s, lim, bytes)
    && FeedLines(s, lim, bytes) == (if r.line.Some? then [r.line.value] else [])
    && (r.line.Some? <==> r.ret == 1)
  }

  /** A byte that ends the round. */
  lemma LastFeeds(s: Scan, lim: Limits, c: char)
    requires Stopped(FeedChar(s, lim, c))
    ensures var s' := FeedChar(s, lim, c);
            Feeds(if s'.state == EndOfLine then Round(s', 1, 1, Some(s'.args)) else Round(s', 1, 0, None), s, lim, [c])
  {
    FeedOne(s, lim, c, "");
    assert [c] + "" == [c];
  }

  lemma FeedsLater(r: Round, s: Scan, lim: Limits, c: char, bytes: string)
    requires !Stopped(FeedChar(s, lim, c)) && Feeds(r, FeedChar(s, lim, c), lim, bytes)
    ensures Feeds(r.(used := r.used + 1), s, lim, [c] + bytes)
  {
    FeedOne(s, lim, c, bytes);
  }

  lemma {:induction false} RoundFeeds(s: Scan, lim: Limits, o: seq<ReadOutcome>, i: nat)
    ensures Feeds(ReadRound(s, lim, o, i), s, lim, Bytes(o[..ReadRound(s, lim, o, i).used]))
    decreases |o|
  {
    if i < US_MAX_READ && o != [] {
      BytesOfHead(o, ReadRound(s, lim, o, i).used);
      match o[0]
      case Byte(c) =>
        if Stopped(FeedChar(s, lim, c)) {
          LastFeeds(s, lim, c);
          assert Bytes(o[1..][..0]) == "" && [c] + "" == [c];
        } else {
          var r := ReadRound(FeedChar(s, lim, c), lim, o[1..], i + 1);
          RoundFeeds(FeedChar(s, lim, c), lim, o[1..], i + 1);
          FeedsLater(r, s, lim, c, Bytes(o[1..][..r.used]));
        }
      case ZeroOpen =>
        if i < US_MAX_READ - 1 {
          RoundFeeds(s, lim, o[1..], i + 1);
        }
      case _ =>
    }
  }

  lemma BytesOfHead(o: seq<ReadOutcome>, n: nat)
    requires 0 < n <= |o|
    ensures var rest := Bytes(o[1..][..n - 1]);
            Bytes(o[..n]) == if o[0].Byte? then [o[0].c] + rest else rest
  {
    assert o[..n][0] == o[0] && o[..n][1..] == o[1..][..n - 1];
  }

  lemma FeedOne(s: Scan, lim: Limits, c: char, rest: string)
    ensures var s' := FeedChar(s, lim, c);
            && FeedChars(s, lim, [c] + rest) == FeedChars(s', lim, rest)
            && FeedLines(s, lim, [c] + rest) == (if s'.state == EndOfLine then [s'.args] else []) + FeedLines(s', lim, rest)
  {
    assert ([c] + rest)[1..] == rest;
  }

  /** The lines served and the scan left are those of feeding these bytes. */
  predicate ServesBytes(r: Served, s: Scan, lim: Limits, bytes: string) {
    r.lines == FeedLines(s, lim, bytes) && r.scan == FeedChars(s, lim, bytes)
  }

  /** Where short reads, empty reads or the US_MAX_READ cut-off split the stream makes no
      difference: the lines served are those of the bytes read, and all of them are read unless the
      connection is closed. */
  lemma {:induction false} ServeFeeds(s: Scan, lim: Limits, o: seq<ReadOutcome>, all: Served)
    requires all == Serve(s, lim, o)
    ensures ServesBytes(all, s, lim, Bytes(o[..all.used])) && (!all.closed ==> all.used == |o|)
    decreases |o|
  {
    if o == [] {
      assert o[..0] == [];
    } else {
      var r := ReadRound(s, lim, o, 0);
      RoundFeeds(s, lim, o, 0);
      if r.ret != -1 {
        var rest := Serve(r.scan, lim, o[r.used..]);
        ServeFeeds(r.scan, lim, o[r.used..], rest);
        ServedInTurn(s, lim, o, r, rest);
      }
    }
  }

  /** A connection that stays open is served the lines of all its bytes. */
  lemma AllServed(s: Scan, lim: Limits, o: seq<ReadOutcome>)
    requires !Serve(s, lim, o).closed
    ensures Serve(s, lim, o).lines == FeedLines(s, lim, Bytes(o))
  {
    var r := Serve(s, lim, o);
    ServeFeeds(s, lim, o, r);
    assert o[..r.used] == o;
  }

  lemma ServedInTurn(s: Scan, lim: Limits, o: seq<ReadOutcome>, r: Round, rest: Served)
    requires r.used + rest.used <= |o| && Feeds(r, s, lim, Bytes(o[..r.used]))
    requires ServesBytes(rest, r.scan, lim, Bytes(o[r.used..][..rest.used]))
    ensures ServesBytes(InTurn(r, rest), s, lim, Bytes(o[..r.used + rest.used]))
  {
    TakenTwice(o, r.used, rest.used);
    RoundThenRest(s, lim, o[..r.used], o[r.used..][..rest.used], r, rest);
  }

  /** One round that leaves the connection open, and what is served after it. */
  function InTurn(r: Round, rest: Served): Served {
    Served(rest.scan, r.used + rest.used, rest.closed, (if r.line.Some? then [r.line.value] else []) + rest.lines)
  }

  lemma TakenTwice(o: seq<ReadOutcome>, m: nat, n: nat)
    requires m + n <= |o|
    ensures o[..m + n] == o[..m] + o[m..][..n]
  {
  }

  lemma RoundThenRest(s: Scan, lim: Limits, a: seq<ReadOutcome>, b: seq<ReadOutcome>, r: Round, rest: Served)
    requires Feeds(r, s, lim, Bytes(a)) && ServesBytes(rest, r.scan, lim, Bytes(b))
    ensures ServesBytes(InTurn(r, rest), s, lim, Bytes(a + b))
  {
    FeedTwice(s, lim, a, b);
  }

  lemma FeedTwice(s: Scan, lim: Limits, a: seq<ReadOutcome>, b: seq<ReadOutcome>)
    ensures var s' := FeedChars(s, lim, Bytes(a));
            && FeedChars(s, lim, Bytes(a + b)) == FeedChars(s', lim, Bytes(b))
            && FeedLines(s, lim, Bytes(a + b)) == FeedLines(s, lim, Bytes(a)) + FeedLines(s', lim, Bytes(b))
  {
    BytesConcat(a, b);
    FeedLinesConcat(s, lim, Bytes(a), Bytes(b));
    FeedCharsConcat(s, lim, Bytes(a), Bytes(b));
  }

  // ----- what serving a connection does to the daemon -----

  /** The lines of a connection performed in turn, each with the slots and at the time given for it. */
  function PerformAll(d: Daemon, lines: seq<seq<string>>, slots: seq<seq<string>>, times: seq<int>): Daemon
    requires |slots| == |times| == |lines|
    decreases |lines|
  {
    if lines == [] then d
    else PerformAll(Perform(d, SockArg(lines[0], slots[0]), times[0]), lines[1..], slots[1..], times[1..])
  }

  /** Calls of sock_read until the outcomes are used up, each command performed as its line is
      complete; `at` is the clock when so many outcomes are still to come. */
  function ServeDaemon(d: Daemon, s: Scan, slots: seq<string>, lim: Limits, o: seq<ReadOutcome>, at: nat -> int): Daemon
    decreases |o|
  {
    if o == [] then d
    else
      var r := ReadRound(s, lim, o, 0);
      var slots' := RoundSlots(slots, s, lim, o, 0);
      var d' := if r.line.Some? then Perform(d, SockArg(r.line.value, slots'), at(|o|)) else d;
      if r.ret == -1 then d' else ServeDaemon(d', r.scan, slots', lim, o[r.used..], at)
  }

  /** The times lie within the reading of `n` outcomes. */
  predicate Clocked(times: seq<int>, at: nat -> int, n: nat) {
    forall i :: 0 <= i < |times| ==> exists k: nat | k <= n :: times[i] == at(k)
  }

  /** However the reads split it, a connection does to the daemon what its lines say, each once and
      in order. */
  lemma {:induction false} ServeDaemonPerforms(d: Daemon, s: Scan, slots: seq<string>, lim: Limits, o: seq<ReadOutcome>, at: nat -> int)
    returns (after: seq<seq<string>>, times: seq<int>)
    ensures |after| == |times| == |Serve(s, lim, o).lines| && Clocked(times, at, |o|)
    ensures ServeDaemon(d, s, slots, lim, o, at) == PerformAll(d, Serve(s, lim, o).lines, after, times)
    decreases |o|
  {
    after, times := [], [];
    if o != [] {
      var r := ReadRound(s, lim, o, 0);
      var slots' := RoundSlots(slots, s, lim, o, 0);
      RoundFeeds(s, lim, o, 0);
      if r.ret != -1 {
        var d' := if r.line.Some? then Perform(d, SockArg(r.line.value, slots'), at(|o|)) else d;
        var rest := Serve(r.scan, lim, o[r.used..]).lines;
        after, times := ServeDaemonPerforms(d', r.scan, slots', lim, o[r.used..], at);
        if r.line.Some? {
          OneMore(d, r.line.value, slots', at(|o|), rest, after, times);
          after, times := [slots'] + after, [at(|o|)] + times;
        } else {
          assert Serve(s, lim, o).lines == [] + rest == rest;
        }
      }
    }
  }

  lemma OneMore(d: Daemon, line: seq<string>, slots: seq<string>, now: int,
                lines: seq<seq<string>>, after: seq<seq<string>>, times: seq<int>)
    requires |after| == |times| == |lines|
    ensures PerformAll(d, [line] + lines, [slots] + after, [now] + times) ==
            PerformAll(Perform(d, SockArg(line, slots), now), lines, after, times)
  {
    assert ([line] + lines)[1..] == lines && ([slots] + after)[1..] == after && ([now] + times)[1..] == times;
  }
}
