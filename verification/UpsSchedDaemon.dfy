// The timer daemon of clients/upssched.c with its linked list of timers and its connections: every
// method is proved to do what the functions of module UpsSched say.
module UpsSchedDaemon {
  import opened Text
  import opened ParseConfContext
  import opened UpsSched

  class TimerNode {
    const name: string
    const etime: int
    var next: TimerNode?
    ghost const timer: Timer

    constructor (name: string, etime: int, ghost id: nat, ghost since: nat)
      ensures this.name == name && this.etime == etime && next == null
      ensures timer == Timer(id, name, etime, since)
    {
      this.name, this.etime, next := name, etime, null;
      timer := Timer(id, name, etime, since);
    }

    ghost predicate Consistent() {
      timer.name == name && timer.etime == etime
    }
  }

  ghost function Queue(nodes: seq<TimerNode>): (r: seq<Timer>)
    ensures |r| == |nodes|
  {
    seq(|nodes|, i requires 0 <= i < |nodes| => nodes[i].timer)
  }

  ghost function NodeAt(nodes: seq<TimerNode>, i: nat): TimerNode? {
    if i < |nodes| then nodes[i] else null
  }

  ghost function IndexOf(nodes: seq<TimerNode>, n: TimerNode): (i: nat)
    ensures i <= |nodes| && (i < |nodes| <==> n in nodes)
    ensures i < |nodes| ==> nodes[i] == n
  {
    if nodes == [] || nodes[0] == n then 0 else 1 + IndexOf(nodes[1..], n)
  }

  lemma QueueHead(nodes: seq<TimerNode>)
    requires nodes != []
    ensures Queue(nodes) == [nodes[0].timer] + Queue(nodes[1..])
  {
  }

  class TimerDaemon {
    var thead: TimerNode?
    var emptyctr: nat
    var exited: bool
    var ran: seq<string>
    ghost var nodes: seq<TimerNode>
    ghost var started: seq<Timer>
    ghost var fired: seq<Firing>
    ghost var cancelled: seq<Timer>
    ghost var passes: seq<Pass>

    ghost predicate Valid()
      reads this, nodes
    {
      && thead == NodeAt(nodes, 0)
      && (forall i {:trigger nodes[i].next} :: 0 <= i < |nodes| ==> nodes[i].next == NodeAt(nodes, i + 1))
      && (forall i :: 0 <= i < |nodes| ==> nodes[i].Consistent())
      && (forall i, j :: 0 <= i < j < |nodes| ==> nodes[i] != nodes[j])
    }

    ghost function View(): Daemon
      reads this
    {
      Daemon(Queue(nodes), emptyctr, exited, ran, started, fired, cancelled, passes)
    }

    constructor ()
      ensures Valid() && nodes == [] && View() == NEW_DAEMON
    {
      thead, emptyctr, exited, ran := null, 0, false, [];
      nodes, started, fired, cancelled, passes := [], [], [], [], [];
    }

    /** Links a node behind the last one. */
    method Append(last: TimerNode?, node: TimerNode)
      requires Valid() && last == (if nodes == [] then null else nodes[|nodes| - 1])
      requires node !in nodes && node.next == null && node.Consistent()
      modifies `thead, `nodes, last
      ensures Valid() && nodes == old(nodes) + [node]
    {
      if last != null {
        last.next := node;
      } else {
        thead := node;
      }
      nodes := nodes + [node];
    }

    /** Unlinks the node at position `i`, of which `last` is the predecessor. */
    method Unlink(last: TimerNode?, tmp: TimerNode, ghost i: nat)
      requires Valid() && i < |nodes| && tmp == nodes[i]
      requires last == (if i == 0 then null else nodes[i - 1])
      modifies `thead, `nodes, last
      ensures Valid() && nodes == RemoveAt(old(nodes), i)
    {
      if last == null {
        thead := tmp.next;
      } else {
        last.next := tmp.next;
      }
      ghost var all := nodes;
      nodes := RemoveAt(nodes, i);
      forall k | 0 <= k < |nodes|
        ensures nodes[k].next == NodeAt(nodes, k + 1)
      {
        assert nodes[k] == if k < i then all[k] else all[k + 1];
      }
    }

    /** start_timer */
    method StartTimer(name: string, ofsstr: string, now: int)
      requires Valid()
      modifies `thead, `nodes, `started, nodes
      ensures Valid() && forall i :: 0 <= i < |nodes| ==> nodes[i] in old(nodes) || fresh(nodes[i])
      ensures View() == UpsSched.StartTimer(old(View()), name, ofsstr, now)
    {
      var ofs := Strtol(ofsstr);
      if ofs < 0 {
        return;
      }
      var tmp, last := thead, thead;
      ghost var i := 0;
      while tmp != null
        invariant i <= |nodes| && tmp == NodeAt(nodes, i)
        invariant last == if nodes == [] then null else nodes[if i == 0 then 0 else i - 1]
        decreases |nodes| - i
      {
        last := tmp;
        tmp := tmp.next;
        i := i + 1;
      }
      var node := new TimerNode(name, now + ofs, |started|, |passes|);
      Append(last, node);
      assert Queue(nodes) == Queue(old(nodes)) + [node.timer];
      started := started + [node.timer];
    }

    /** removetimer */
    method RemoveTimer(tfind: TimerNode)
      requires Valid()
      modifies `thead, `nodes, nodes
      ensures Valid()
      ensures nodes == if tfind in old(nodes) then RemoveAt(old(nodes), IndexOf(old(nodes), tfind)) else old(nodes)
    {
      var last: TimerNode? := null;
      var tmp := thead;
      ghost var i := 0;
      while tmp != null
        invariant i <= |nodes| && tmp == NodeAt(nodes, i)
        invariant last == if i == 0 then null else nodes[i - 1]
        invariant forall k :: 0 <= k < i ==> nodes[k] != tfind
        decreases |nodes| - i
      {
        if tmp == tfind {
          IndexOfDistinct(nodes, tfind, i);
          Unlink(last, tmp, i);
          return;
        }
        last := tmp;
        tmp := tmp.next;
        i := i + 1;
      }
    }

    method RemoveAtPosition(tmp: TimerNode, ghost k: nat)
      requires Valid() && k < |nodes| && nodes[k] == tmp
      modifies `thead, `nodes, nodes
      ensures Valid() && nodes == RemoveAt(old(nodes), k)
      ensures Queue(nodes) == RemoveAt(Queue(old(nodes)), k) && forall i :: 0 <= i < |nodes| ==> nodes[i] in old(nodes)
    {
      IndexOfDistinct(nodes, tmp, k);
      RemoveTimer(tmp);
    }

    /** cancel_timer; the commands it runs are appended to `ran` */
    method CancelTimer(name: string, cname: Option<string>)
      requires Valid()
      modifies `thead, `nodes, `cancelled, `ran, nodes
      ensures Valid() && forall i :: 0 <= i < |nodes| ==> nodes[i] in old(nodes)
      ensures View() == UpsSched.CancelTimer(old(View()), name, cname)
    {
      ghost var queue := Queue(nodes);
      var tmp := thead;
      ghost var i := 0;
      while tmp != null
        invariant i <= |nodes| && tmp == NodeAt(nodes, i)
        invariant forall k :: 0 <= k < i ==> queue[k].name != name
        decreases |nodes| - i
      {
        if tmp.name == name {
          FindTimerIs(queue, name, i);
          cancelled := cancelled + [tmp.timer];
          RemoveAtPosition(tmp, i);
          return;
        }
        assert queue[i].name == tmp.name;
        tmp := tmp.next;
        i := i + 1;
      }
      FindTimerIs(queue, name, |queue|);
      if cname.Some? && cname.value != "" {
        ran := ran + [cname.value];
      }
    }

    /** checktimers */
    method CheckTimers(now: int)
      requires Valid() && !exited
      modifies this, nodes
      ensures Valid() && forall i :: 0 <= i < |nodes| ==> nodes[i] in old(nodes)
      ensures View() == UpsSched.CheckTimers(old(View()), now)
    {
      if thead == null {
        assert Queue(nodes) == [];
        emptyctr := emptyctr + 1;
        passes := passes + [Pass(now, true)];
        if emptyctr < EMPTY_WAIT {
          return;
        }
        exited := true;
        return;
      }
      emptyctr := 0;
      FireDue(now);
      assert Queue(old(nodes))[0] == old(nodes)[0].timer;
      passes := passes + [Pass(now, false)];
    }

    /** Runs a due timer's command and removes its node, which stands at position `k`. */
    method Fire(tmp: TimerNode, ghost k: nat)
      requires Valid() && k < |nodes| && nodes[k] == tmp
      modifies `thead, `nodes, `ran, `fired, nodes
      ensures Valid() && nodes == RemoveAt(old(nodes), k) && forall i :: 0 <= i < |nodes| ==> nodes[i] in old(nodes)
      ensures ran == old(ran) + [tmp.timer.name] && fired == old(fired) + [Firing(tmp.timer, |passes|)]
    {
      ran := ran + [tmp.name];
      fired := fired + [Firing(tmp.timer, |passes|)];
      RemoveAtPosition(tmp, k);
    }

    /** One turn of the walk: `kept` has been passed over, `rest` is still to come. */
    method Visit(tmp: TimerNode, now: int, ghost kept: seq<TimerNode>, ghost rest: seq<TimerNode>)
      returns (tmpnext: TimerNode?)
      requires Valid() && rest != [] && rest[0] == tmp && nodes == kept + rest
      modifies `thead, `nodes, `ran, `fired, nodes
      ensures Valid() && (forall i :: 0 <= i < |nodes| ==> nodes[i] in old(nodes))
      ensures tmpnext == NodeAt(rest, 1)
      ensures var late := now >= tmp.timer.etime;
              && nodes == kept + (if late then [] else [tmp]) + rest[1..]
              && ran == old(ran) + (if late then [tmp.timer.name] else [])
              && fired == old(fired) + (if late then [Firing(tmp.timer, |passes|)] else [])
    {
      assert nodes[|kept|] == tmp;
      tmpnext := tmp.next;
      if now >= tmp.etime {
        Fire(tmp, |kept|);
        assert nodes == kept + rest[1..];
      } else {
        assert nodes == kept + [tmp] + rest[1..];
      }
    }

    /** The state of that walk: the list is what was kept and what is to come, all of it from `all`,
        and the timers due have been run. */
    ghost predicate WalkedTo(kept: seq<TimerNode>, due: seq<Timer>, rest: seq<TimerNode>, q: seq<Timer>, now: int,
                             all: seq<TimerNode>, ran0: seq<string>, fired0: seq<Firing>)
      reads this, nodes
    {
      && Valid() && nodes == kept + rest && (forall i :: 0 <= i < |nodes| ==> nodes[i] in all)
      && Walking(kept, due, rest, q, now)
      && ran == ran0 + Names(due) && fired == fired0 + Firings(due, |passes|)
    }

    method VisitNext(tmp: TimerNode, now: int, ghost kept: seq<TimerNode>, ghost due: seq<Timer>, ghost rest: seq<TimerNode>,
                     ghost q: seq<Timer>, ghost all: seq<TimerNode>, ghost ran0: seq<string>, ghost fired0: seq<Firing>)
      returns (tmpnext: TimerNode?, ghost kept': seq<TimerNode>, ghost due': seq<Timer>)
      requires tmp == NodeAt(rest, 0) && WalkedTo(kept, due, rest, q, now, all, ran0, fired0)
      modifies `thead, `nodes, `ran, `fired, nodes
      ensures tmpnext == NodeAt(rest[1..], 0) && WalkedTo(kept', due', rest[1..], q, now, all, ran0, fired0)
    {
      ghost var late := now >= tmp.timer.etime;
      tmpnext := Visit(tmp, now, kept, rest);
      WalkOn(kept, due, rest, q, now);
      BookOn(due, if late then [tmp.timer] else [], |passes|);
      kept', due' := kept + (if late then [] else [tmp]), due + (if late then [tmp.timer] else []);
    }

    /** The walk of checktimers through the list, removing nodes as it goes */
    method FireDue(now: int)
      requires Valid()
      modifies `thead, `nodes, `ran, `fired, nodes
      ensures Valid() && forall i :: 0 <= i < |nodes| ==> nodes[i] in old(nodes)
      ensures var q := Queue(old(nodes)); var due := Select(q, now, true);
              && Queue(nodes) == Select(q, now, false)
              && ran == old(ran) + Names(due) && fired == old(fired) + Firings(due, |passes|)
    {
      ghost var q := Queue(nodes);
      ghost var kept: seq<TimerNode>, due: seq<Timer>, rest := [], [], nodes;
      var tmp := thead;
      WalkBegins(nodes, now);
      while tmp != null
        invariant tmp == NodeAt(rest, 0) && WalkedTo(kept, due, rest, q, now, old(nodes), old(ran), old(fired))
        decreases |rest|
      {
        tmp, kept, due := VisitNext(tmp, now, kept, due, rest, q, old(nodes), old(ran), old(fired));
        rest := rest[1..];
      }
      WalkEnds(kept, due, rest, q, now);
    }
  }

  /** The walk through the queue `q` so far: the timers kept and those due, with `rest` to come. */
  ghost predicate Walking(kept: seq<TimerNode>, due: seq<Timer>, rest: seq<TimerNode>, q: seq<Timer>, now: int) {
    && Queue(kept) + Select(Queue(rest), now, false) == Select(q, now, false)
    && due + Select(Queue(rest), now, true) == Select(q, now, true)
  }

  lemma BookOn(due: seq<Timer>, more: seq<Timer>, pass: nat)
    requires |more| <= 1
    ensures Names(due + more) == Names(due) + if more == [] then [] else [more[0].name]
    ensures Firings(due + more, pass) == Firings(due, pass) + if more == [] then [] else [Firing(more[0], pass)]
  {
  }

  lemma WalkBegins(nodes: seq<TimerNode>, now: int)
    ensures Walking([], [], nodes, Queue(nodes), now)
  {
    assert [] + Select(Queue(nodes), now, false) == Select(Queue(nodes), now, false);
    assert [] + Select(Queue(nodes), now, true) == Select(Queue(nodes), now, true);
  }

  lemma WalkEnds(kept: seq<TimerNode>, due: seq<Timer>, rest: seq<TimerNode>, q: seq<Timer>, now: int)
    requires Walking(kept, due, rest, q, now) && NodeAt(rest, 0) == null
    ensures Queue(kept + rest) == Select(q, now, false) && due == Select(q, now, true)
  {
    assert Queue(rest) == [] && kept + rest == kept;
    assert Queue(kept) + [] == Queue(kept) && due + [] == due;
  }

  lemma WalkOn(kept: seq<TimerNode>, due: seq<Timer>, rest: seq<TimerNode>, q: seq<Timer>, now: int)
    requires rest != [] && Walking(kept, due, rest, q, now)
    ensures var late := now >= rest[0].timer.etime;
            Walking(kept + (if late then [] else [rest[0]]), due + (if late then [rest[0].timer] else []), rest[1..], q, now)
  {
    QueueHead(rest);
    assert Queue(rest)[1..] == Queue(rest[1..]);
    assert Queue(kept + [rest[0]]) == Queue(kept) + [rest[0].timer];
    assert kept + [] == kept;
  }

  lemma {:induction false} FindTimerIs(queue: seq<Timer>, name: string, i: nat)
    requires i <= |queue| && (i < |queue| ==> queue[i].name == name)
    requires forall k :: 0 <= k < i ==> queue[k].name != name
    ensures FindTimer(queue, name) == i
  {
  }

  lemma IndexOfDistinct(nodes: seq<TimerNode>, n: TimerNode, k: nat)
    requires k < |nodes| && nodes[k] == n
    requires forall i, j :: 0 <= i < j < |nodes| ==> nodes[i] != nodes[j]
    ensures IndexOf(nodes, n) == k
  {
  }

  /** The daemon's storage and a connection's parser have nothing in common. */
  ghost predicate Apart(d: TimerDaemon, ctx: Context)
    reads d, ctx, ctx.Repr
  {
    ctx.Valid() && d !in ctx.Repr && forall i :: 0 <= i < |d.nodes| ==> d.nodes[i] !in ctx.Repr
  }

  /** sock_arg: the command understood, if any */
  method SockArg(d: TimerDaemon, ctx: Context, now: int) returns (c: Command)
    requires d.Valid() && Apart(d, ctx)
    modifies d, d.nodes
    ensures d.Valid() && c == UpsSched.SockArg(old(ctx.View()).args, old(ctx.Slots()))
    ensures d.View() == Perform(old(d.View()), c, now)
  {
    if ctx.numargs < 1 {
      return Unknown;
    }
    if ctx.Slot(0) == "CANCEL" {
      if ctx.maxargs < 2 {
        return Undefined;
      }
      var name := ctx.Slot(1);
      var cname := if ctx.numargs < 3 then None else Some(ctx.Slot(2));
      d.CancelTimer(name, cname);
      return CancelCmd(name, cname);
    }
    if ctx.numargs < 3 {
      return Unknown;
    }
    if ctx.Slot(0) == "START" {
      var name, ofs := ctx.Slot(1), ctx.Slot(2);
      d.StartTimer(name, ofs, now);
      return StartCmd(name, ofs);
    }
    return Unknown;
  }

  /** One turn of sock_read's loop: whether it goes on, and if not with what result */
  method ReadByte(ctx: Context, outcome: ReadOutcome, i: nat, ghost rest: seq<ReadOutcome>) returns (more: bool, ret: int)
    requires ctx.Valid() && i < US_MAX_READ && rest != [] && rest[0] == outcome
    modifies ctx.Repr
    ensures ctx.Valid() && fresh(ctx.Repr - old(ctx.Repr))
    ensures var r := ReadRound(old(ctx.View()), ctx.limits, rest, i);
            if more then
              var later := ReadRound(ctx.View(), ctx.limits, rest[1..], i + 1);
              && r == later.(used := later.used + 1)
              && RoundSlots(old(ctx.Slots()), old(ctx.View()), ctx.limits, rest, i)
                 == RoundSlots(ctx.Slots(), ctx.View(), ctx.limits, rest[1..], i + 1)
            else
              && r == Round(ctx.View(), 1, ret, if ret == 1 then Some(ctx.View().args) else None)
              && RoundSlots(old(ctx.Slots()), old(ctx.View()), ctx.limits, rest, i) == ctx.Slots()
  {
    match outcome {
      case Again => return false, 0;
      case Gone => return false, -1;
      case ZeroOpen => return i != US_MAX_READ - 1, -1;
      case Byte(c) =>
        var result := ctx.Char(c);
        return result == 0, if result == 1 then 1 else 0;
    }
  }

  /** The reading loop of sock_read: bytes go to the parser one at a time. */
  method ReadLine(ctx: Context, o: seq<ReadOutcome>) returns (used: nat, ret: int)
    requires ctx.Valid()
    modifies ctx.Repr
    ensures ctx.Valid() && fresh(ctx.Repr - old(ctx.Repr))
    ensures Round(ctx.View(), used, ret, if ret == 1 then Some(ctx.View().args) else None)
            == ReadRound(old(ctx.View()), ctx.limits, o, 0)
    ensures ctx.Slots() == RoundSlots(old(ctx.Slots()), old(ctx.View()), ctx.limits, o, 0)
  {
    ghost var slots := RoundSlots(ctx.Slots(), ctx.View(), ctx.limits, o, 0);
    ghost var whole := ReadRound(ctx.View(), ctx.limits, o, 0);
    used := 0;
    while used < US_MAX_READ && used < |o|
      invariant ctx.Valid() && fresh(ctx.Repr - old(ctx.Repr)) && used <= US_MAX_READ && used <= |o|
      invariant var r := ReadRound(ctx.View(), ctx.limits, o[used..], used); whole == r.(used := r.used + used)
      invariant slots == RoundSlots(ctx.Slots(), ctx.View(), ctx.limits, o[used..], used)
    {
      assert o[used..][1..] == o[used + 1..];
      var more;
      more, ret := ReadByte(ctx, o[used], used, o[used..]);
      used := used + 1;
      if !more {
        return used, ret;
      }
    }
    return used, 0;
  }

  /** What the daemon answers on the socket. */
  function Reply(c: Command): string {
    match c
    case StartCmd(_, _) => "OK\n"
    case CancelCmd(_, _) => "OK\n"
    case Unknown => "ERR UNKNOWN\n"
    case Undefined => ""
  }

  /** sock_read: one round of reading, and the command when it completes a line */
  method SockRead(d: TimerDaemon, ctx: Context, o: seq<ReadOutcome>, now: int)
    returns (used: nat, ret: int, answer: string)
    requires d.Valid() && Apart(d, ctx)
    modifies d, d.nodes, ctx.Repr
    ensures d.Valid() && ctx.Valid()
    ensures var r := ReadRound(old(ctx.View()), ctx.limits, o, 0);
            var slots := RoundSlots(old(ctx.Slots()), old(ctx.View()), ctx.limits, o, 0);
            && ctx.View() == r.scan && ctx.Slots() == slots && used == r.used && ret == r.ret
            && match r.line
               case None => d.View() == old(d.View()) && answer == ""
               case Some(args) =>
                 var c := UpsSched.SockArg(args, slots);
                 d.View() == Perform(old(d.View()), c, now) && answer == Reply(c)
  {
    used, ret := ReadLine(ctx, o);
    answer := "";
    if ret == 1 {
      var c := SockArg(d, ctx, now);
      answer := Reply(c);
    }
  }
}
