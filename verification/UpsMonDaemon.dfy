// The linked list of monitored UPSes in clients/upsmon.c and the operations that walk and relink
// it; every method is proved to do to the list what the functions of module UpsMonList say.
module UpsMonDaemon {
  import opened Text
  import opened UpsMon
  import opened UpsMonNode
  import opened UpsMonList

  ghost function NodeAt(nodes: seq<UpsNode>, i: nat): UpsNode? {
    if i < |nodes| then nodes[i] else null
  }

  ghost function Views(nodes: seq<UpsNode>): (r: seq<Ups>)
    reads nodes
    ensures |r| == |nodes|
    ensures forall i {:trigger r[i]} :: 0 <= i < |nodes| ==> r[i] == nodes[i].View()
  {
    seq(|nodes|, i requires 0 <= i < |nodes| reads nodes => nodes[i].View())
  }

  class Monitoring {
    var firstups: UpsNode?
    var totalpv: nat
    ghost var nodes: seq<UpsNode>

    ghost predicate Valid()
      reads this, nodes
    {
      && firstups == NodeAt(nodes, 0)
      && (forall i {:trigger nodes[i].next} :: 0 <= i < |nodes| ==> nodes[i].next == NodeAt(nodes, i + 1))
      && (forall i, j :: 0 <= i < j < |nodes| ==> nodes[i] != nodes[j])
    }

    ghost function View(): State
      reads this, nodes
    {
      State(Views(nodes), totalpv)
    }

    constructor ()
      ensures Valid() && View() == State([], 0)
    {
      firstups, totalpv, nodes := null, 0, [];
    }

    /** One turn of recalc's loop: `done` lie behind, `rest` from this UPS on are still to come. */
    method JudgeNext(ups: UpsNode, cfg: Config, now: int, val_ol: nat,
                     ghost done: seq<Ups>, ghost rest: seq<Ups>, ghost before: seq<Ups>)
      returns (sum: nat, next: UpsNode?)
      requires Judged(done, rest, before, val_ol, cfg, now)
      requires Valid() && rest != [] && |done| < |nodes| && nodes[|done|] == ups && Views(nodes) == done + rest
      modifies ups
      ensures Valid() && next == NodeAt(nodes, |done| + 1)
      ensures Views(nodes) == done + [RecalcOne(rest[0], cfg, now)] + rest[1..]
      ensures Judged(done + [RecalcOne(rest[0], cfg, now)], rest[1..], before, sum, cfg, now)
    {
      RecalcNext(done, rest, cfg, now);
      PowerNext(val_ol, rest, before, cfg, now);
      var critical := JudgeOne(ups, cfg, now, |done|);
      assert Views(nodes) == done + [RecalcOne(rest[0], cfg, now)] + rest[1..];
      RecalcKeepsPower(rest[0], cfg, now);
      sum := val_ol;
      if !critical {
        sum := Wrap(val_ol + ups.pv);
      }
      next := ups.next;
    }

    method JudgeOne(ups: UpsNode, cfg: Config, now: int, ghost i: nat) returns (critical: bool)
      requires Valid() && i < |nodes| && nodes[i] == ups
      modifies ups
      ensures Valid() && Views(nodes)[i].pv == ups.pv
      ensures var u := old(Views(nodes))[i];
              critical == CriticalNow(u, cfg, now) && Views(nodes) == old(Views(nodes))[i := RecalcOne(u, cfg, now)]
    {
      critical := ups.Recalc(cfg, now);
    }

    /** The loop of recalc */
    method JudgeAll(cfg: Config, now: int) returns (val_ol: nat)
      requires Valid()
      modifies nodes
      ensures Valid()
      ensures Views(nodes) == RecalcAll(old(Views(nodes)), cfg, now)
      ensures val_ol == Wrap(OnlinePower(old(Views(nodes)), cfg, now))
    {
      ghost var before := Views(nodes);
      ghost var done: seq<Ups>, rest := [], before;
      val_ol := 0;
      var ups := firstups;
      while ups != null
        invariant Valid() && |done| + |rest| == |nodes| && ups == NodeAt(nodes, |done|)
        invariant Views(nodes) == done + rest
        invariant Judged(done, rest, before, val_ol, cfg, now)
        decreases |rest|
      {
        val_ol, ups := JudgeNext(ups, cfg, now, val_ol, done, rest, before);
        done, rest := done + [RecalcOne(rest[0], cfg, now)], rest[1..];
      }
      assert rest == [];
      AllJudged(done, before, val_ol, cfg, now);
      assert done + rest == done;
    }

    /** recalc: whether forceshutdown is entered */
    method Recalc(cfg: Config, now: int) returns (shutdown: bool)
      requires Valid()
      modifies nodes
      ensures Valid()
      ensures Views(nodes) == RecalcAll(old(Views(nodes)), cfg, now)
      ensures shutdown <==> ShutsDown(old(Views(nodes)), cfg, now)
      ensures OnlinePower(old(Views(nodes)), cfg, now) < UINT_RANGE ==>
                (shutdown <==> OnlinePower(old(Views(nodes)), cfg, now) < cfg.minsupplies)
    {
      var val_ol := JudgeAll(cfg, now);
      shutdown := val_ol < cfg.minsupplies;
    }

    method Append(last: UpsNode?, node: UpsNode)
      requires Valid() && last == (if nodes == [] then null else nodes[|nodes| - 1])
      requires node !in nodes && node.next == null
      modifies `firstups, `nodes, last
      ensures Valid() && nodes == old(nodes) + [node]
      ensures Views(nodes) == old(Views(nodes)) + [node.View()]
    {
      if last != null {
        last.next := node;
      } else {
        firstups := node;
      }
      nodes := nodes + [node];
      assert forall k :: 0 <= k < |nodes| - 1 ==> nodes[k].View() == old(nodes[k].View());
    }

    /** The walk of addups: the node with this name, or null and the last node */
    method FindNode(sys: string) returns (tmp: UpsNode?, last: UpsNode?, ghost i: nat)
      requires Valid()
      ensures i == FindUps(Views(nodes), sys) && tmp == NodeAt(nodes, i)
      ensures tmp == null ==> last == (if nodes == [] then null else nodes[|nodes| - 1])
    {
      tmp, last := firstups, firstups;
      i := 0;
      while tmp != null && tmp.sys != sys
        invariant i <= |nodes| && tmp == NodeAt(nodes, i)
        invariant tmp == null ==> last == if nodes == [] then null else nodes[|nodes| - 1]
        invariant forall k :: 0 <= k < i ==> nodes[k].sys != sys
        decreases |nodes| - i
      {
        last := tmp;
        tmp := tmp.next;
        i := i + 1;
      }
      FindUpsIs(Views(nodes), sys, i);
    }

    /** addups for the arguments of a valid MONITOR line, after the power value has been read */
    method AddUps(reloading: bool, m: Monitor)
      requires Valid()
      modifies this, nodes
      ensures Valid() && (forall k :: 0 <= k < |nodes| ==> nodes[k] in old(nodes) || fresh(nodes[k]))
      ensures View() == UpsMonList.AddUps(old(View()), reloading, m)
    {
      var tmp, last, i := FindNode(m.sys);
      if tmp == null {
        AddNew(last, m);
      } else if reloading {
        RedefineListed(tmp, m, i);
      }
    }

    method RedefineListed(tmp: UpsNode, m: Monitor, ghost i: nat)
      requires Valid() && i < |nodes| && nodes[i] == tmp && i == FindUps(Views(nodes), m.sys)
      modifies `totalpv, tmp
      ensures Valid() && View() == UpsMonList.AddUps(old(View()), true, m)
    {
      ghost var before := View();
      RedefineOne(tmp, m, i);
      ghost var list := Views(nodes);
      totalpv := Wrap(totalpv + tmp.pv);
      assert Views(nodes) == list;
      Redefined(before, View(), m);
    }

    method AddNew(last: UpsNode?, m: Monitor)
      requires Valid() && last == (if nodes == [] then null else nodes[|nodes| - 1])
      modifies `firstups, `nodes, `totalpv, last
      ensures Valid() && (forall k :: 0 <= k < |nodes| ==> nodes[k] in old(nodes) || fresh(nodes[k]))
      ensures Views(nodes) == old(Views(nodes)) + [NewUps(m.sys, m.pv, m.un, m.pw, NamesPrimary(m.option))]
      ensures totalpv == Wrap(old(totalpv) + m.pv)
    {
      var node := new UpsNode(m.sys, m.pv, m.un, m.pw, NamesPrimary(m.option));
      totalpv := Wrap(totalpv + node.pv);
      Append(last, node);
    }

    method RedefineOne(ups: UpsNode, m: Monitor, ghost i: nat)
      requires Valid() && i < |nodes| && nodes[i] == ups
      modifies ups
      ensures Valid() && ups.pv == m.pv
      ensures Views(nodes) ==
              old(Views(nodes))[i := UpsMon.Redefine(old(Views(nodes))[i], m.pv, m.un, m.pw, m.option)]
    {
      RedefineKeeps(ups.View(), m.pv, m.un, m.pw, m.option);
      ups.Redefine(m.pv, m.un, m.pw, m.option);
    }

    /** parse_conf_arg and addups for one line: whether the program must end */
    method TakeLine(words: seq<string>, reloading: bool) returns (fatal: bool)
      requires Valid()
      modifies this, nodes
      ensures Valid() && (forall k :: 0 <= k < |nodes| ==> nodes[k] in old(nodes) || fresh(nodes[k]))
      ensures fatal <==> OldStyle(words)
      ensures var m := MonitorOf(words);
              View() == if m.Some? then UpsMonList.AddUps(old(View()), reloading, m.value) else old(View())
    {
      if |words| < 5 || words[0] != "MONITOR" {
        return false;
      }
      if |words| == 5 {
        return true;
      }
      var lpv := Strtol(words[2]);
      if lpv < 0 || lpv >= UINT_RANGE {
        return false;
      }
      AddUps(reloading, Monitor(words[1], lpv, words[3], words[4], words[5]));
      return false;
    }

    /** loadconfig, for the lines of the file that parse: whether the program must end */
    method LoadConfig(lines: seq<seq<string>>, reloading: bool) returns (fatal: bool)
      requires Valid()
      modifies this, nodes
      ensures Valid() && (forall k :: 0 <= k < |nodes| ==> nodes[k] in old(nodes) || fresh(nodes[k]))
      ensures fatal <==> HasOldStyle(lines)
      ensures !fatal ==> Running(View()) == UpsMonList.LoadConfig(old(View()), reloading, lines)
    {
      ghost var start := View();
      var i := 0;
      while i < |lines|
        invariant i <= |lines| && Valid()
        invariant forall k :: 0 <= k < |nodes| ==> nodes[k] in old(nodes) || fresh(nodes[k])
        invariant !HasOldStyle(lines[..i])
        invariant View() == Load(start, reloading, Monitors(lines[..i]))
      {
        OldStyleNext(lines, i);
        fatal := TakeNext(lines, i, reloading, start);
        if fatal {
          return true;
        }
        i := i + 1;
      }
      AllLines(lines, i);
      return false;
    }

    /** One line of the file after `i` others */
    method TakeNext(lines: seq<seq<string>>, i: nat, reloading: bool, ghost start: State) returns (fatal: bool)
      requires Valid() && i < |lines| && View() == Load(start, reloading, Monitors(lines[..i]))
      modifies this, nodes
      ensures Valid() && (forall k :: 0 <= k < |nodes| ==> nodes[k] in old(nodes) || fresh(nodes[k]))
      ensures fatal <==> OldStyle(lines[i])
      ensures !fatal ==> View() == Load(start, reloading, Monitors(lines[..i + 1]))
    {
      LoadNext(start, reloading, lines, i);
      fatal := TakeLine(lines[i], reloading);
    }

    /** One record changed in place; the rest of the list keeps its records. */
    method ClearRetain(ups: UpsNode, ghost before: seq<Ups>, ghost i: nat) returns (next: UpsNode?)
      requires Valid() && i < |nodes| == |before| && nodes[i] == ups
      requires Views(nodes) == Unretained(before[..i]) + before[i..]
      modifies ups
      ensures Valid() && next == NodeAt(nodes, i + 1)
      ensures Views(nodes) == Unretained(before[..i + 1]) + before[i + 1..]
    {
      UnretainedNext(before, i);
      ups.retain := false;
      assert Views(nodes) == old(Views(nodes))[i := before[i].(retain := false)];
      next := ups.next;
    }

    method ForgetOne(ups: UpsNode, ghost before: seq<Ups>, ghost i: nat) returns (next: UpsNode?)
      requires Valid() && i < |nodes| == |before| && nodes[i] == ups
      requires Views(nodes) == Forgotten(before[..i]) + before[i..]
      modifies ups
      ensures Valid() && next == NodeAt(nodes, i + 1)
      ensures Views(nodes) == Forgotten(before[..i + 1]) + before[i + 1..]
    {
      ForgottenNext(before, i);
      ups.throttleCount := -1;
      ups.throttleState := ERR_NONE;
      assert Views(nodes) == old(Views(nodes))[i := ForgetThrottle(before[i])];
      next := ups.next;
    }

    /** The loop that clears the retain marks before a reload */
    method ClearRetains()
      requires Valid()
      modifies nodes
      ensures Valid() && Views(nodes) == Unretained(old(Views(nodes)))
    {
      ghost var before := Views(nodes);
      var tmp := firstups;
      ghost var i := 0;
      while tmp != null
        invariant Valid() && i <= |nodes| && tmp == NodeAt(nodes, i)
        invariant Views(nodes) == Unretained(before[..i]) + before[i..]
        decreases |nodes| - i
      {
        tmp := ClearRetain(tmp, before, i);
        i := i + 1;
      }
      WholeList(before, Unretained(before));
    }

    /** The loop of loadconfig that forgets the poll failures on a reload */
    method ForgetThrottles()
      requires Valid()
      modifies nodes
      ensures Valid() && Views(nodes) == Forgotten(old(Views(nodes)))
    {
      ghost var before := Views(nodes);
      var ups := firstups;
      ghost var i := 0;
      while ups != null
        invariant Valid() && i <= |nodes| && ups == NodeAt(nodes, i)
        invariant Views(nodes) == Forgotten(before[..i]) + before[i..]
        decreases |nodes| - i
      {
        ups := ForgetOne(ups, before, i);
        i := i + 1;
      }
      WholeList(before, Forgotten(before));
    }

    /** The list while what the file no longer names is being deleted: `kept` have been passed, `rest`
        are still to come, and nothing but the nodes of `all` is in it. */
    ghost predicate Sweeping(kept: seq<UpsNode>, rest: seq<UpsNode>, all: seq<UpsNode>, goal: seq<Ups>)
      reads this, nodes, kept, rest
    {
      && Valid() && nodes == kept + rest && Views(kept) + Retained(Views(rest)) == goal
      && forall k :: 0 <= k < |nodes| ==> nodes[k] in all
    }

    /** One turn of the loop that deletes what the file no longer names. */
    method SweepNext(tmp: UpsNode, ghost kept: seq<UpsNode>, ghost rest: seq<UpsNode>, ghost all: seq<UpsNode>, ghost goal: seq<Ups>)
      returns (next: UpsNode?, ghost kept': seq<UpsNode>)
      requires Sweeping(kept, rest, all, goal) && tmp == NodeAt(rest, 0)
      modifies `firstups, `nodes, nodes
      ensures Sweeping(kept', rest[1..], all, goal) && next == NodeAt(rest[1..], 0)
    {
      ghost var u := tmp.View();
      assert nodes[|kept|] == tmp && Views(rest)[0] == u;
      SweepStep(Views(kept), Views(rest));
      kept' := kept + if u.retain then [tmp] else [];
      next := tmp.next;
      if !tmp.retain {
        WithoutOne(kept, rest, all);
        DeleteOne(tmp, kept, rest);
      } else {
        assert nodes == kept + [tmp] + rest[1..];
      }
      assert Views(kept') == old(Views(kept)) + if u.retain then [u] else [];
      assert Views(rest[1..]) == old(Views(rest))[1..];
    }

    method DeleteOne(tmp: UpsNode, ghost kept: seq<UpsNode>, ghost rest: seq<UpsNode>)
      requires Valid() && rest != [] && rest[0] == tmp && nodes == kept + rest
      modifies `firstups, `nodes, nodes
      ensures Valid() && nodes == kept + rest[1..]
      ensures Views(kept) == old(Views(kept)) && Views(rest[1..]) == old(Views(rest))[1..]
    {
      assert nodes[|kept|] == tmp;
      DeleteUps(tmp);
      assert nodes == kept + rest[1..];
      assert forall k :: 0 <= k < |kept| ==> nodes[k] == kept[k];
      assert forall k :: 1 <= k < |rest| ==> nodes[|kept| + k - 1] == rest[k];
    }

    method Sweep()
      requires Valid()
      modifies `firstups, `nodes, nodes
      ensures Valid() && Views(nodes) == Retained(old(Views(nodes)))
      ensures forall k :: 0 <= k < |nodes| ==> nodes[k] in old(nodes)
    {
      ghost var goal := Retained(Views(nodes));
      ghost var kept: seq<UpsNode>, rest := [], nodes;
      var tmp := firstups;
      assert [] + goal == goal;
      while tmp != null
        invariant Sweeping(kept, rest, old(nodes), goal) && tmp == NodeAt(rest, 0)
        decreases |rest|
      {
        tmp, kept := SweepNext(tmp, kept, rest, old(nodes), goal);
        rest := rest[1..];
      }
      NothingLeft(kept, rest, goal);
    }

    /** reload_conf: whether the program goes on */
    method ReloadConf(file: Option<seq<seq<string>>>, throttled: bool, minsupplies: nat) returns (running: bool)
      requires Valid()
      modifies this, nodes
      ensures Valid() && (forall k :: 0 <= k < |nodes| ==> nodes[k] in old(nodes) || fresh(nodes[k]))
      ensures var outcome := UpsMonList.ReloadConf(old(View()), file, throttled, minsupplies);
              running == outcome.Running? && (running ==> View() == outcome.st)
    {
      if file.None? {
        return true;
      }
      ClearRetains();
      totalpv := 0;
      if throttled {
        ForgetThrottles();
      }
      var fatal := LoadConfig(file.value, true);
      if fatal {
        return false;
      }
      Sweep();
      return totalpv >= minsupplies;
    }

    /** delete_ups */
    method DeleteUps(target: UpsNode)
      requires Valid()
      modifies `firstups, `nodes, nodes
      ensures Valid() && (forall k :: 0 <= k < |nodes| ==> nodes[k] in old(nodes))
      ensures forall n :: n in nodes && n != target ==> n.View() == old(n.View())
      ensures forall i :: 0 <= i < |old(nodes)| && old(nodes)[i] == target ==> nodes == old(nodes)[..i] + old(nodes)[i + 1..]
    {
      var ptr, last := firstups, firstups;
      ghost var all := nodes;
      ghost var i := 0;
      while ptr != null
        invariant i <= |nodes| && ptr == NodeAt(nodes, i)
        invariant last == if nodes == [] then null else nodes[if i == 0 then 0 else i - 1]
        invariant forall k :: 0 <= k < i ==> nodes[k] != target
        decreases |nodes| - i
      {
        if ptr == target {
          DropAndUnlink(last, ptr, i);
          return;
        }
        last := ptr;
        ptr := ptr.next;
        i := i + 1;
      }
    }

    method DropAndUnlink(last: UpsNode?, ptr: UpsNode, ghost i: nat)
      requires Valid() && i < |nodes| && ptr == nodes[i]
      requires last == nodes[if i == 0 then 0 else i - 1]
      modifies `firstups, `nodes, last, ptr
      ensures Valid() && nodes == old(nodes)[..i] + old(nodes)[i + 1..]
      ensures forall k :: 0 <= k < |old(nodes)| && k != i ==> old(nodes)[k].View() == old(nodes[k].View())
    {
      ptr.DropConnection();
      Unlink(last, ptr, i);
    }

    method Unlink(last: UpsNode?, ptr: UpsNode, ghost i: nat)
      requires Valid() && i < |nodes| && ptr == nodes[i]
      requires last == nodes[if i == 0 then 0 else i - 1]
      modifies `firstups, `nodes, last
      ensures Valid() && nodes == old(nodes)[..i] + old(nodes)[i + 1..]
      ensures forall k :: 0 <= k < |old(nodes)| ==> old(nodes)[k].View() == old(nodes[k].View())
    {
      ghost var all := nodes;
      if ptr == last {
        firstups := ptr.next;
      } else {
        last.next := ptr.next;
      }
      nodes := nodes[..i] + nodes[i + 1..];
      forall k | 0 <= k < |nodes|
        ensures nodes[k].next == NodeAt(nodes, k + 1)
      {
        assert nodes[k] == if k < i then all[k] else all[k + 1];
      }
    }
  }

  lemma Redefined(st: State, st': State, m: Monitor)
    requires FindUps(st.list, m.sys) < |st.list|
    requires var i := FindUps(st.list, m.sys);
             st'.list == st.list[i := UpsMon.Redefine(st.list[i], m.pv, m.un, m.pw, m.option)]
    requires st'.totalpv == Wrap(st.totalpv + m.pv)
    ensures st' == UpsMonList.AddUps(st, true, m)
  {
  }

  lemma {:induction false} FindUpsIs(list: seq<Ups>, sys: string, i: nat)
    requires i <= |list| && (i < |list| ==> list[i].sys == sys)
    requires forall k :: 0 <= k < i ==> list[k].sys != sys
    ensures FindUps(list, sys) == i
  {
  }

  lemma AllLines(lines: seq<seq<string>>, i: nat)
    requires i == |lines|
    ensures lines[..i] == lines
  {
  }

  lemma OldStyleNext(lines: seq<seq<string>>, i: nat)
    requires i < |lines|
    ensures HasOldStyle(lines[..i + 1]) <==> HasOldStyle(lines[..i]) || OldStyle(lines[i])
    ensures OldStyle(lines[i]) ==> HasOldStyle(lines)
  {
    assert forall k :: 0 <= k < i ==> lines[..i][k] == lines[..i + 1][k];
    assert lines[..i + 1][i] == lines[i];
  }

  lemma LoadNext(st: State, reloading: bool, lines: seq<seq<string>>, i: nat)
    requires i < |lines|
    ensures var after, m := Load(st, reloading, Monitors(lines[..i])), MonitorOf(lines[i]);
            Load(st, reloading, Monitors(lines[..i + 1])) ==
              if m.Some? then UpsMonList.AddUps(after, reloading, m.value) else after
  {
    assert lines[..i + 1][..i] == lines[..i];
    assert lines[..i + 1][i] == lines[i];
    var ms, m := Monitors(lines[..i]), MonitorOf(lines[i]);
    if m.Some? {
      assert (ms + [m.value])[..|ms|] == ms;
    } else {
      assert ms + [] == ms;
    }
  }

  lemma RecalcKeepsPower(u: Ups, cfg: Config, now: int)
    ensures RecalcOne(u, cfg, now).pv == u.pv
  {
  }

  /** What recalc has made of the list, and its sum, when `rest` is still to come. */
  predicate Judged(done: seq<Ups>, rest: seq<Ups>, before: seq<Ups>, sum: nat, cfg: Config, now: int) {
    && done + RecalcAll(rest, cfg, now) == RecalcAll(before, cfg, now)
    && SumSoFar(sum, rest, before, cfg, now)
  }

  lemma AllJudged(done: seq<Ups>, before: seq<Ups>, sum: nat, cfg: Config, now: int)
    requires Judged(done, [], before, sum, cfg, now)
    ensures done == RecalcAll(before, cfg, now) && sum == Wrap(OnlinePower(before, cfg, now))
  {
    assert done + [] == done;
  }

  lemma RecalcNext(done: seq<Ups>, rest: seq<Ups>, cfg: Config, now: int)
    requires rest != []
    ensures done + RecalcAll(rest, cfg, now) == done + [RecalcOne(rest[0], cfg, now)] + RecalcAll(rest[1..], cfg, now)
  {
    var tail := RecalcAll(rest[1..], cfg, now);
    assert done + ([RecalcOne(rest[0], cfg, now)] + tail) == done + [RecalcOne(rest[0], cfg, now)] + tail;
  }

  /** The sum as it stands after one more UPS. */
  function AddPower(val_ol: nat, u: Ups, critical: bool): nat {
    if critical then val_ol else Wrap(val_ol + u.pv)
  }

  /** What has been added up and what is still to come make the whole. */
  predicate SumSoFar(val_ol: nat, rest: seq<Ups>, all: seq<Ups>, cfg: Config, now: int) {
    val_ol < UINT_RANGE && Wrap(val_ol + OnlinePower(rest, cfg, now)) == Wrap(OnlinePower(all, cfg, now))
  }

  lemma PowerNext(val_ol: nat, rest: seq<Ups>, all: seq<Ups>, cfg: Config, now: int)
    requires rest != [] && SumSoFar(val_ol, rest, all, cfg, now)
    ensures SumSoFar(AddPower(val_ol, rest[0], CriticalNow(rest[0], cfg, now)), rest[1..], all, cfg, now)
  {
    var critical, power := CriticalNow(rest[0], cfg, now), OnlinePower(rest[1..], cfg, now);
    if !critical {
      assert OnlinePower(rest, cfg, now) == rest[0].pv + power;
      WrapAdd(val_ol + rest[0].pv, power);
    }
  }

  lemma WholeList(before: seq<Ups>, after: seq<Ups>)
    ensures before[..|before|] == before && after + before[|before|..] == after
  {
  }

  lemma UnretainedNext(before: seq<Ups>, i: nat)
    requires i < |before|
    ensures var sofar := Unretained(before[..i]) + before[i..];
            sofar[i] == before[i] &&
            sofar[i := before[i].(retain := false)] == Unretained(before[..i + 1]) + before[i + 1..]
  {
  }

  lemma ForgottenNext(before: seq<Ups>, i: nat)
    requires i < |before|
    ensures var sofar := Forgotten(before[..i]) + before[i..];
            sofar[i] == before[i] &&
            sofar[i := ForgetThrottle(before[i])] == Forgotten(before[..i + 1]) + before[i + 1..]
  {
  }

  lemma SweepStep(done: seq<Ups>, rest: seq<Ups>)
    requires rest != []
    ensures done + Retained(rest) ==
            done + (if rest[0].retain then [rest[0]] else []) + Retained(rest[1..])
  {
    RetainedConcat([rest[0]], rest[1..]);
    assert [rest[0]] + rest[1..] == rest && [rest[0]][..0] == [];
    var first := if rest[0].retain then [rest[0]] else [];
    assert Retained([rest[0]]) == [] + first == first;
    Assoc(done, first, Retained(rest[1..]));
  }

  lemma WithoutOne(kept: seq<UpsNode>, rest: seq<UpsNode>, all: seq<UpsNode>)
    requires rest != [] && forall k :: 0 <= k < |kept + rest| ==> (kept + rest)[k] in all
    ensures forall k :: 0 <= k < |kept + rest[1..]| ==> (kept + rest[1..])[k] in all
  {
    forall k | 0 <= k < |kept + rest[1..]|
      ensures (kept + rest[1..])[k] in all
    {
      assert (kept + rest[1..])[k] == (kept + rest)[if k < |kept| then k else k + 1];
    }
  }

  lemma NothingLeft(kept: seq<UpsNode>, rest: seq<UpsNode>, all: seq<Ups>)
    requires NodeAt(rest, 0) == null && Views(kept) + Retained(Views(rest)) == all
    ensures Views(kept + rest) == all
  {
    assert rest == [] && kept + rest == kept;
    assert Views(kept) + [] == Views(kept);
  }

  lemma {:induction false} RetainedConcat(a: seq<Ups>, b: seq<Ups>)
    ensures Retained(a + b) == Retained(a) + Retained(b)
    decreases |b|
  {
    if b == [] {
      assert a + b == a && Retained(a) + [] == Retained(a);
    } else {
      var front, last := b[..|b| - 1], b[|b| - 1];
      assert (a + b)[..|a + b| - 1] == a + front && (a + b)[|a + b| - 1] == last;
      RetainedConcat(a, front);
      Assoc(Retained(a), Retained(front), if last.retain then [last] else []);
    }
  }
}
