// Whole runs of upsmon (the main loop of clients/upsmon.c): start-up, polls of single UPSes,
// judgements, reloads and wake-ups in any order. Each record in the list is followed through its own
// run, so that what holds of every run of one UPS holds of each of them.
module UpsMonProgram {
  import opened UpsMon
  import opened UpsMonRuns
  import opened UpsMonSafety
  import opened UpsMonOutage
  import opened List = UpsMonList

  /** One act of the program. */
  datatype Act =
    | OfOne(sys: string, e: Event)               // a poll or a connection, of the first UPS of that name
    | JudgeAll(cfg: Config, now: int)            // recalc
    | ReloadAll(r: Reload, cfg: Config, now: int)
    | WakeAll(cfg: Config, now: int)

  function ApplyTo(list: seq<Ups>, sys: string, e: Event): seq<Ups> {
    var i := FindUps(list, sys);
    if i < |list| then list[i := Apply(list[i], e)] else list
  }

  function AllWoken(list: seq<Ups>, now: int): (r: seq<Ups>)
    ensures |r| == |list|
  {
    seq(|list|, i requires 0 <= i < |list| => WakeUp(list[i], now))
  }

  function Perform(st: State, a: Act): Outcome {
    match a
    case OfOne(sys, e) => Running(st.(list := ApplyTo(st.list, sys, e)))
    case JudgeAll(cfg, now) =>
      if ShutsDown(st.list, cfg, now) then Exited else Running(st.(list := RecalcAll(st.list, cfg, now)))
    case ReloadAll(r, _, _) => ReloadConf(st, r.file, r.throttled, r.minsupplies)
    case WakeAll(_, now) => Running(st.(list := AllWoken(st.list, now)))
  }

  /** The program after start-up with `lines` and the acts; it ends at once when the power values of
      the file do not suffice. */
  function Program(lines: seq<seq<string>>, minsupplies: nat, acts: seq<Act>): Outcome {
    if acts == [] then
      var o := LoadConfig(State([], 0), false, lines);
      if o.Running? && o.st.totalpv < minsupplies then Exited else o
    else
      match Program(lines, minsupplies, acts[..|acts| - 1])
      case Exited => Exited
      case Running(st) => Perform(st, acts[|acts| - 1])
  }

  // ----- the run behind each record -----

  /** A record as it was added, the events it has seen since, and whether the file names it. */
  datatype Track = Track(start: Ups, es: seq<Event>, named: bool)

  function Now(t: Track): Ups {
    Run(t.start, t.es).(retain := t.named)
  }

  function Nows(ts: seq<Track>): (r: seq<Ups>)
    ensures |r| == |ts|
    ensures forall i {:trigger r[i]} :: 0 <= i < |ts| ==> r[i] == Now(ts[i])
  {
    seq(|ts|, i requires 0 <= i < |ts| => Now(ts[i]))
  }

  function Later(t: Track, e: Event): Track {
    t.(es := t.es + [e])
  }

  function AllLater(ts: seq<Track>, e: Event): (r: seq<Track>)
    ensures |r| == |ts|
    ensures forall i {:trigger r[i]} :: 0 <= i < |ts| ==> r[i] == Later(ts[i], e)
  {
    seq(|ts|, i requires 0 <= i < |ts| => Later(ts[i], e))
  }

  function Unnamed(ts: seq<Track>): (r: seq<Track>)
    ensures |r| == |ts|
    ensures forall i {:trigger r[i]} :: 0 <= i < |ts| ==> r[i] == ts[i].(named := false)
  {
    seq(|ts|, i requires 0 <= i < |ts| => ts[i].(named := false))
  }

  function Prepare(ts: seq<Track>, throttled: bool, cfg: Config, now: int): seq<Track> {
    if throttled then AllLater(Unnamed(ts), Event(ResetThrottle, cfg, now)) else Unnamed(ts)
  }

  function Reconfigured(m: Monitor, cfg: Config, now: int): Event {
    Event(Reconfigure(m.pv, m.un, m.pw, m.option), cfg, now)
  }

  function AddTrack(ts: seq<Track>, reloading: bool, m: Monitor, cfg: Config, now: int): seq<Track> {
    var i := FindUps(Nows(ts), m.sys);
    if i < |ts| then
      if reloading then ts[i := Later(ts[i], Reconfigured(m, cfg, now)).(named := true)] else ts
    else ts + [Track(NewUps(m.sys, m.pv, m.un, m.pw, NamesPrimary(m.option)), [], true)]
  }

  function LoadTracks(ts: seq<Track>, reloading: bool, ms: seq<Monitor>, cfg: Config, now: int): seq<Track> {
    if ms == [] then ts
    else AddTrack(LoadTracks(ts, reloading, ms[..|ms| - 1], cfg, now), reloading, ms[|ms| - 1], cfg, now)
  }

  function NamedOnes(ts: seq<Track>): seq<Track> {
    if ts == [] then []
    else NamedOnes(ts[..|ts| - 1]) + if ts[|ts| - 1].named then [ts[|ts| - 1]] else []
  }

  /** The same act on the tracks. */
  function Follow(ts: seq<Track>, a: Act): seq<Track> {
    match a
    case OfOne(sys, e) =>
      var i := FindUps(Nows(ts), sys);
      if i < |ts| then ts[i := Later(ts[i], e)] else ts
    case JudgeAll(cfg, now) => AllLater(ts, Event(Recalc, cfg, now))
    case ReloadAll(r, cfg, now) =>
      if r.file.None? then ts
      else NamedOnes(LoadTracks(Prepare(ts, r.throttled, cfg, now), true, Monitors(r.file.value), cfg, now))
    case WakeAll(cfg, now) => AllLater(ts, Event(Wake, cfg, now))
  }

  function Tracks(lines: seq<seq<string>>, acts: seq<Act>): seq<Track> {
    if acts == [] then LoadTracks([], false, Monitors(lines), NO_CONFIG, 0)
    else Follow(Tracks(lines, acts[..|acts| - 1]), acts[|acts| - 1])
  }

  /** Stands in where nothing looks at the configuration. */
  const NO_CONFIG: Config := Config(0, 0, 0, 0, 0, 0, 0, 0, 0, 0)

  // ----- what no event changes -----

  /** The name stays, and a retained record stays retained. */
  predicate SameRecord(u: Ups, u': Ups) {
    u'.sys == u.sys && (u.retain ==> u'.retain)
  }

  lemma ClearSame(u: Ups, status: string, f: Flag)
    requires Reported(f)
    ensures SameRecord(u, ClearIfAbsent(u, status, f))
  {
  }

  lemma ClearThreeSame(u: Ups, status: string, a: Flag, b: Flag, c: Flag)
    requires Reported(a) && Reported(b) && Reported(c)
    ensures SameRecord(u, ClearIfAbsent(ClearIfAbsent(ClearIfAbsent(u, status, a), status, b), status, c))
  {
    ClearSame(u, status, a);
    ClearSame(ClearIfAbsent(u, status, a), status, b);
    ClearSame(ClearIfAbsent(ClearIfAbsent(u, status, a), status, b), status, c);
  }

  lemma BeforeWordsSame(u: Ups, r: Report, now: int)
    ensures SameRecord(u, BeforeWords(u, r, now))
  {
    var u0 := UpsIsAlive(u, now);
    ClearThreeSame(u0, r.status, LowBatt, Fsd, Cal);
    var u1 := ClearAbsent1(u0, r.status);
    ClearThreeSame(u1, r.status, Off, Bypass, Alarm);
    ClearThreeSame(ClearAbsent2(u1, r.status), r.status, Over, Trim, Boost);
  }

  lemma WordSame(u: Ups, cfg: Config, w: Word, news: bool, now: int)
    ensures SameRecord(u, ApplyWord(u, cfg, w, news, now))
  {
  }

  lemma {:induction false} WordsSame(u: Ups, cfg: Config, ws: seq<string>, news: bool, now: int)
    ensures SameRecord(u, ApplyWords(u, cfg, ws, news, now))
    decreases |ws|
  {
    if ws != [] {
      WordSame(u, cfg, WordOf(ws[0]), news, now);
      WordsSame(UpdateCritTimer(ApplyWord(u, cfg, WordOf(ws[0]), news, now), now), cfg, ws[1..], news, now);
    }
  }

  lemma EventSame(u: Ups, e: Event)
    ensures SameRecord(u, Apply(u, e))
  {
    match e.op
    case Poll(r) =>
      if r.status != "" {
        var v := u.(throttleState := ERR_NONE, throttleCount := -1);
        BeforeWordsSame(v, r, e.now);
        WordsSame(BeforeWords(v, r, e.now), e.cfg, Split(r.status), r.alarmNews, e.now);
      }
    case Reconfigure(pv, un, pw, option) => RedefineSame(u, pv, un, pw, option);
    case _ =>
  }

  lemma RedefineSame(u: Ups, pv: nat, un: string, pw: string, option: string)
    ensures Redefine(u, pv, un, pw, option).sys == u.sys && Redefine(u, pv, un, pw, option).retain
    ensures forall b: bool :: Redefine(u.(retain := b), pv, un, pw, option) == Redefine(u, pv, un, pw, option)
  {
    forall b: bool
      ensures Redefine(u.(retain := b), pv, un, pw, option) == Redefine(u, pv, un, pw, option)
    {
      assert u.(retain := b).(retain := true, pv := pv) == u.(retain := true, pv := pv);
    }
  }

  lemma {:induction false} RunSame(start: Ups, es: seq<Event>)
    requires start.retain
    ensures Run(start, es).retain && Run(start, es).sys == start.sys
  {
    if es != [] {
      RunSame(start, es[..|es| - 1]);
      EventSame(Run(start, es[..|es| - 1]), es[|es| - 1]);
    }
  }

  // ----- the tracks are the list -----

  /** Tracks begin as addups fills in a record. */
  predicate Begun(ts: seq<Track>) {
    forall i :: 0 <= i < |ts| ==> Added(ts[i].start)
  }

  predicate AllNamed(ts: seq<Track>) {
    forall i :: 0 <= i < |ts| ==> ts[i].named
  }

  lemma RunSnoc(start: Ups, es: seq<Event>, e: Event)
    ensures Run(start, es + [e]) == Apply(Run(start, es), e)
  {
    assert (es + [e])[..|es|] == es;
  }

  lemma LaterNow(t: Track, e: Event)
    requires Added(t.start) && t.named
    ensures Now(Later(t, e)) == Apply(Now(t), e)
  {
    RunSnoc(t.start, t.es, e);
    RunSame(t.start, t.es);
    EventSame(Run(t.start, t.es), e);
    assert Now(t) == Run(t.start, t.es);
  }

  lemma ReconfiguredNow(t: Track, m: Monitor, cfg: Config, now: int)
    ensures Now(Later(t, Reconfigured(m, cfg, now)).(named := true)) == Redefine(Now(t), m.pv, m.un, m.pw, m.option)
  {
    var u := Run(t.start, t.es);
    RunSnoc(t.start, t.es, Reconfigured(m, cfg, now));
    RedefineSame(u, m.pv, m.un, m.pw, m.option);
    assert Now(t) == u.(retain := t.named);
  }

  lemma UnnamedNow(t: Track)
    ensures Now(t.(named := false)) == Now(t).(retain := false)
  {
    RetainTwice(Run(t.start, t.es), t.named);
  }

  lemma RetainTwice(u: Ups, b: bool)
    ensures u.(retain := b).(retain := false) == u.(retain := false)
  {
  }

  lemma ForgotNow(t: Track, cfg: Config, now: int)
    requires !t.named
    ensures Now(Later(t, Event(ResetThrottle, cfg, now))) == ForgetThrottle(Now(t))
  {
    RunSnoc(t.start, t.es, Event(ResetThrottle, cfg, now));
    ForgotUnretained(Run(t.start, t.es), Event(ResetThrottle, cfg, now));
  }

  lemma ForgotUnretained(u: Ups, e: Event)
    requires e.op.ResetThrottle?
    ensures Apply(u, e).(retain := false) == ForgetThrottle(u.(retain := false))
  {
  }

  lemma PreparedNows(ts: seq<Track>, throttled: bool, cfg: Config, now: int)
    ensures Nows(Prepare(ts, throttled, cfg, now)) == Prepared(Nows(ts), throttled)
  {
    forall i | 0 <= i < |ts|
      ensures Nows(Prepare(ts, throttled, cfg, now))[i] == Prepared(Nows(ts), throttled)[i]
    {
      UnnamedNow(ts[i]);
      ForgotNow(ts[i].(named := false), cfg, now);
    }
  }

  lemma AddTrackIs(ts: seq<Track>, totalpv: nat, reloading: bool, m: Monitor, cfg: Config, now: int)
    requires Begun(ts)
    ensures Nows(AddTrack(ts, reloading, m, cfg, now)) == AddUps(State(Nows(ts), totalpv), reloading, m).list
    ensures Begun(AddTrack(ts, reloading, m, cfg, now))
  {
    var i := FindUps(Nows(ts), m.sys);
    if i < |ts| {
      ReconfiguredNow(ts[i], m, cfg, now);
    } else {
      var u := NewUps(m.sys, m.pv, m.un, m.pw, NamesPrimary(m.option));
      assert Now(Track(u, [], true)) == u;
    }
  }

  lemma {:induction false} LoadTracksIs(ts: seq<Track>, totalpv: nat, reloading: bool, ms: seq<Monitor>, cfg: Config, now: int)
    requires Begun(ts)
    ensures Nows(LoadTracks(ts, reloading, ms, cfg, now)) == Load(State(Nows(ts), totalpv), reloading, ms).list
    ensures Begun(LoadTracks(ts, reloading, ms, cfg, now))
  {
    if ms != [] {
      var front := ms[..|ms| - 1];
      LoadTracksIs(ts, totalpv, reloading, front, cfg, now);
      var st := Load(State(Nows(ts), totalpv), reloading, front);
      AddTrackIs(LoadTracks(ts, reloading, front, cfg, now), st.totalpv, reloading, ms[|ms| - 1], cfg, now);
    }
  }

  lemma NowsSnoc(ts: seq<Track>, t: Track)
    ensures Nows(ts + [t]) == Nows(ts) + [Now(t)]
  {
  }

  lemma RetainedSnoc(list: seq<Ups>, u: Ups)
    ensures Retained(list + [u]) == Retained(list) + if u.retain then [u] else []
  {
    assert (list + [u])[..|list|] == list;
  }

  lemma {:induction false} NamedOnesAre(ts: seq<Track>)
    requires Begun(ts)
    ensures Nows(NamedOnes(ts)) == Retained(Nows(ts)) && Begun(NamedOnes(ts)) && AllNamed(NamedOnes(ts))
  {
    if ts != [] {
      var front, last := ts[..|ts| - 1], ts[|ts| - 1];
      NamedOnesAre(front);
      assert front + [last] == ts;
      NowsSnoc(front, last);
      RetainedSnoc(Nows(front), Now(last));
      NowsSnoc(NamedOnes(front), last);
    }
  }

  lemma AllLaterAre(ts: seq<Track>, e: Event)
    requires Begun(ts) && AllNamed(ts)
    ensures forall i :: 0 <= i < |ts| ==> Nows(AllLater(ts, e))[i] == Apply(Nows(ts)[i], e)
    ensures Begun(AllLater(ts, e)) && AllNamed(AllLater(ts, e))
  {
    forall i | 0 <= i < |ts|
      ensures Nows(AllLater(ts, e))[i] == Apply(Nows(ts)[i], e)
    {
      LaterNow(ts[i], e);
    }
  }

  lemma {:induction false} RecalcAllAt(list: seq<Ups>, cfg: Config, now: int)
    ensures forall i :: 0 <= i < |list| ==> RecalcAll(list, cfg, now)[i] == Apply(list[i], Event(Recalc, cfg, now))
  {
    if list != [] {
      RecalcAllAt(list[1..], cfg, now);
      assert forall i :: 0 < i < |list| ==> list[i] == list[1..][i - 1];
    }
  }

  /** The tracks are where the list is. */
  predicate Tracked(ts: seq<Track>, list: seq<Ups>) {
    Begun(ts) && AllNamed(ts) && Nows(ts) == list
  }

  lemma OneFollowed(ts: seq<Track>, list: seq<Ups>, sys: string, e: Event)
    requires Tracked(ts, list)
    ensures Tracked(Follow(ts, OfOne(sys, e)), ApplyTo(list, sys, e))
  {
    var i := FindUps(list, sys);
    if i < |ts| {
      LaterNow(ts[i], e);
    }
  }

  lemma JudgementFollowed(ts: seq<Track>, list: seq<Ups>, cfg: Config, now: int)
    requires Tracked(ts, list)
    ensures Tracked(Follow(ts, JudgeAll(cfg, now)), RecalcAll(list, cfg, now))
  {
    AllLaterAre(ts, Event(Recalc, cfg, now));
    RecalcAllAt(list, cfg, now);
  }

  lemma WakingFollowed(ts: seq<Track>, list: seq<Ups>, cfg: Config, now: int)
    requires Tracked(ts, list)
    ensures Tracked(Follow(ts, WakeAll(cfg, now)), AllWoken(list, now))
  {
    AllLaterAre(ts, Event(Wake, cfg, now));
  }

  lemma FollowIs(ts: seq<Track>, st: State, a: Act)
    requires Tracked(ts, st.list) && Perform(st, a).Running?
    ensures Tracked(Follow(ts, a), Perform(st, a).st.list)
  {
    match a
    case OfOne(sys, e) => OneFollowed(ts, st.list, sys, e);
    case JudgeAll(cfg, now) => JudgementFollowed(ts, st.list, cfg, now);
    case WakeAll(cfg, now) => WakingFollowed(ts, st.list, cfg, now);
    case ReloadAll(r, cfg, now) =>
      if r.file.Some? {
        ReloadFollowed(ts, st, r, cfg, now);
      }
  }

  lemma ReloadFollowed(ts: seq<Track>, st: State, r: Reload, cfg: Config, now: int)
    requires Tracked(ts, st.list) && r.file.Some? && ReloadConf(st, r.file, r.throttled, r.minsupplies).Running?
    ensures Tracked(Follow(ts, ReloadAll(r, cfg, now)), ReloadConf(st, r.file, r.throttled, r.minsupplies).st.list)
  {
    var before := Prepare(ts, r.throttled, cfg, now);
    PreparedNows(ts, r.throttled, cfg, now);
    LoadTracksIs(before, 0, true, Monitors(r.file.value), cfg, now);
    NamedOnesAre(LoadTracks(before, true, Monitors(r.file.value), cfg, now));
  }

  lemma {:induction false} StartTracked(ms: seq<Monitor>)
    ensures Tracked(LoadTracks([], false, ms, NO_CONFIG, 0), Load(State([], 0), false, ms).list)
  {
    LoadTracksIs([], 0, false, ms, NO_CONFIG, 0);
    assert Nows([]) == [];
    StartNamed(ms);
  }

  lemma {:induction false} StartNamed(ms: seq<Monitor>)
    ensures AllNamed(LoadTracks([], false, ms, NO_CONFIG, 0))
  {
    if ms != [] {
      StartNamed(ms[..|ms| - 1]);
    }
  }

  /** Over every run of the program, each record in the list has gone through a run of its own from
      the moment it was added; a reload was to it a change of its parameters, after the poll failures
      had been forgotten. */
  lemma {:induction false} EveryRecordHasItsRun(lines: seq<seq<string>>, minsupplies: nat, acts: seq<Act>)
    requires Program(lines, minsupplies, acts).Running?
    ensures Tracked(Tracks(lines, acts), Program(lines, minsupplies, acts).st.list)
  {
    if acts == [] {
      StartTracked(Monitors(lines));
    } else {
      var front := acts[..|acts| - 1];
      EveryRecordHasItsRun(lines, minsupplies, front);
      FollowIs(Tracks(lines, front), Program(lines, minsupplies, front).st, acts[|acts| - 1]);
    }
  }

  lemma TrackNow(ts: seq<Track>, list: seq<Ups>, i: nat)
    requires Tracked(ts, list) && i < |ts|
    ensures list[i] == Run(ts[i].start, ts[i].es)
  {
    RunSame(ts[i].start, ts[i].es);
    assert list[i] == Now(ts[i]);
  }

  // ----- the shutdown -----

  /** The power of the systems of which no non-empty status was ever parsed. */
  function UnheardPower(ts: seq<Track>): nat {
    if ts == [] then 0 else (if Unheard(ts[0].es) then Now(ts[0]).pv else 0) + UnheardPower(ts[1..])
  }

  lemma {:induction false} UnheardStaysOnline(ts: seq<Track>, list: seq<Ups>, cfg: Config, now: int)
    requires Tracked(ts, list)
    ensures UnheardPower(ts) <= OnlinePower(list, cfg, now)
    decreases |ts|
  {
    if ts != [] {
      TrackNow(ts, list, 0);
      assert Tracked(ts[1..], list[1..]) by {
        assert forall i :: 0 <= i < |ts[1..]| ==> ts[1..][i] == ts[i + 1];
        assert Nows(ts[1..]) == list[1..];
      }
      UnheardStaysOnline(ts[1..], list[1..], cfg, now);
      if Unheard(ts[0].es) {
        NeverHeardNeverCritical(ts[0].start, ts[0].es, cfg, now);
      }
    }
  }

  /** In no run of the program is the shutdown entered while the systems that were never heard from
      supply MINSUPPLIES on their own, unless the sum overflows. */
  lemma UnheardSystemsHoldShutdown(lines: seq<seq<string>>, minsupplies: nat, acts: seq<Act>, st: State, ts: seq<Track>,
                                   cfg: Config, now: int)
    requires Program(lines, minsupplies, acts) == Running(st) && ts == Tracks(lines, acts)
    ensures UnheardPower(ts) >= cfg.minsupplies && OnlinePower(st.list, cfg, now) < UINT_RANGE ==>
              !ShutsDown(st.list, cfg, now)
  {
    EveryRecordHasItsRun(lines, minsupplies, acts);
    UnheardStaysOnline(ts, st.list, cfg, now);
    EnoughPower(st.list, cfg, now, OnlinePower(st.list, cfg, now));
  }

  lemma EnoughPower(list: seq<Ups>, cfg: Config, now: int, power: nat)
    requires power == OnlinePower(list, cfg, now)
    ensures cfg.minsupplies <= power < UINT_RANGE ==> !ShutsDown(list, cfg, now)
  {
  }

  lemma {:induction false} RunConcat(start: Ups, a: seq<Event>, b: seq<Event>)
    ensures Run(start, a + b) == Run(Run(start, a), b)
    decreases |b|
  {
    if b == [] {
      assert a + b == a;
    } else {
      var front, last := b[..|b| - 1], b[|b| - 1];
      assert (a + b)[..|a + b| - 1] == a + front && (a + b)[|a + b| - 1] == last;
      RunConcat(start, a, front);
    }
  }

  lemma ShutsDownAlone(u: Ups, cfg: Config, now: int)
    requires 0 < cfg.minsupplies <= u.pv < UINT_RANGE
    ensures ShutsDown([u], cfg, now) <==> CriticalNow(u, cfg, now)
  {
    assert OnlinePower([u], cfg, now) == if CriticalNow(u, cfg, now) then 0 else u.pv;
  }

  /** The single UPS of a host as its primary, in an outage that found no delay running. */
  predicate LoneOutage(t: Track, before: seq<Event>, outage: seq<Event>, next: Event) {
    && t.es == before + outage
    && var u := Run(t.start, before);
       Outage(u, outage + [next]) && u.oblbsince < 1 && Primary in u.status
  }

  lemma LoneJudged(t: Track, before: seq<Event>, outage: seq<Event>, i: nat, next: Event)
    requires LoneOutage(t, before, outage, next) && FirstInForce(outage, i) && DelayInForce(next)
    ensures CriticalNow(Run(t.start, t.es), next.cfg, next.now) <==> next.now - outage[i].now >= next.cfg.oblbduration
  {
    var u, es := Run(t.start, before), outage + [next];
    RunConcat(t.start, before, outage);
    FirstStays(outage, next, i);
    OutageTimeline(u, es, i, |outage|);
  }

  lemma FirstStays(outage: seq<Event>, next: Event, i: nat)
    requires FirstInForce(outage, i)
    ensures FirstInForce(outage + [next], i) && (outage + [next])[..|outage|] == outage
  {
    assert forall j :: 0 <= j < |outage| ==> (outage + [next])[j] == outage[j];
  }

  /** On a host with one UPS, of which it is the primary: in an outage whose judgement i started the
      delay, the next judgement enters the shutdown exactly when OBLBDURATION seconds have passed. */
  lemma LonePrimaryShutsDownInTime(lines: seq<seq<string>>, minsupplies: nat, acts: seq<Act>, st: State, t: Track,
                                   before: seq<Event>, outage: seq<Event>, i: nat, next: Event)
    requires Program(lines, minsupplies, acts) == Running(st) && Tracks(lines, acts) == [t]
    requires LoneOutage(t, before, outage, next) && FirstInForce(outage, i) && DelayInForce(next)
    ensures |st.list| == 1
    ensures 0 < next.cfg.minsupplies <= st.list[0].pv < UINT_RANGE ==>
              (ShutsDown(st.list, next.cfg, next.now) <==> next.now - outage[i].now >= next.cfg.oblbduration)
  {
    EveryRecordHasItsRun(lines, minsupplies, acts);
    TrackNow([t], st.list, 0);
    assert st.list == [st.list[0]];
    LoneJudged(t, before, outage, i, next);
    if 0 < next.cfg.minsupplies <= st.list[0].pv < UINT_RANGE {
      ShutsDownAlone(st.list[0], next.cfg, next.now);
    }
  }
}
