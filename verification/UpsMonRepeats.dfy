// The two warnings of upsmon that are repeated while their cause lasts (clients/upsmon.c): over every
// run, NOCOMM and REPLBATT come no closer together than their intervals.
module UpsMonRepeats {
  import opened UpsMon
  import opened UpsMonRuns
  import opened UpsMonSafety

  predicate Repeated(n: Notice) {
    n == NoComm || n == ReplBatt
  }

  /** When the warning was last sent. */
  function Stamp(u: Ups, n: Notice): int {
    if n == NoComm then u.lastncwarn else u.lastrbwarn
  }

  function Interval(cfg: Config, n: Notice): int {
    if n == NoComm then cfg.nocommwarntime else cfg.rbwarntime
  }

  function Count(log: seq<Notice>, n: Notice): nat {
    if log == [] then 0 else Count(log[..|log| - 1], n) + if log[|log| - 1] == n then 1 else 0
  }

  lemma CountSnoc(log: seq<Notice>, m: Notice, n: Notice)
    ensures Count(log + [m], n) == Count(log, n) + if m == n then 1 else 0
  {
    assert (log + [m])[..|log|] == log;
  }

  predicate Silent(u: Ups, u': Ups, n: Notice) {
    Count(u'.log, n) == Count(u.log, n) && Stamp(u', n) == Stamp(u, n)
  }

  /** Warned, after the interval and with the time noted. */
  predicate Warns(u: Ups, u': Ups, n: Notice, cfg: Config, now: int) {
    Count(u'.log, n) > Count(u.log, n) && now - Stamp(u, n) > Interval(cfg, n) && Stamp(u', n) == now
  }

  predicate Heeds(u: Ups, u': Ups, n: Notice, cfg: Config, now: int) {
    Silent(u, u', n) || Warns(u, u', n, cfg, now)
  }

  lemma HeedsTwice(u: Ups, v: Ups, w: Ups, n: Notice, cfg: Config, now: int)
    requires Heeds(u, v, n, cfg, now) && Heeds(v, w, n, cfg, now)
    ensures Heeds(u, w, n, cfg, now)
  {
  }

  lemma SaysOther(u: Ups, u': Ups, m: Notice, n: Notice)
    requires m != n && u'.log == u.log + [m] && Stamp(u', n) == Stamp(u, n)
    ensures Silent(u, u', n)
  {
    CountSnoc(u.log, m, n);
  }

  // ----- the handlers -----

  lemma AliveHeeds(u: Ups, now: int, n: Notice)
    requires Repeated(n)
    ensures Silent(u, UpsIsAlive(u, now), n)
  {
    if u.commstate == 0 {
      SaysOther(u, UpsIsAlive(u, now), CommOk, n);
    }
  }

  lemma GoneHeeds(u: Ups, cfg: Config, now: int, n: Notice)
    requires Repeated(n)
    ensures Heeds(u, UpsIsGone(u, cfg, now), n, cfg, now)
  {
    var u' := UpsIsGone(u, cfg, now);
    if u.commstate != 0 {
      SaysOther(u, u', CommBad, n);
    } else if u' != u {
      CountSnoc(u.log, NoComm, n);
    }
  }

  lemma ReplBattHeeds(u: Ups, cfg: Config, now: int, n: Notice)
    requires Repeated(n)
    ensures Heeds(u, UpsReplBatt(u, cfg, now), n, cfg, now)
  {
    if now - u.lastrbwarn > cfg.rbwarntime {
      CountSnoc(u.log, ReplBatt, n);
    }
  }

  lemma ClearHeeds(u: Ups, status: string, f: Flag, n: Notice)
    requires Reported(f) && Repeated(n)
    ensures Silent(u, ClearIfAbsent(u, status, f), n)
  {
    var u' := ClearIfAbsent(u, status, f);
    if u'.log != u.log {
      assert u'.log == u.log + [u'.log[|u.log|]];
      SaysOther(u, u', u'.log[|u.log|], n);
    }
  }

  lemma EcoHeeds(u: Ups, r: Report, n: Notice)
    requires Repeated(n)
    ensures Silent(u, EcoMode(u, r), n)
  {
    var u' := EcoMode(u, r);
    if u'.log != u.log {
      assert u'.log == u.log + [u'.log[|u.log|]];
      SaysOther(u, u', u'.log[|u.log|], n);
    }
  }

  lemma LineWordHeeds(u: Ups, cfg: Config, w: Word, news: bool, now: int, n: Notice)
    requires Repeated(n) && w in {OL, OB, LB, CAL, OFF, BYPASS}
    ensures Silent(u, ApplyWord(u, cfg, w, news, now), n)
  {
    var u' := ApplyWord(u, cfg, w, news, now);
    if u'.log != u.log {
      assert u'.log == u.log + [u'.log[|u.log|]];
      SaysOther(u, u', u'.log[|u.log|], n);
    }
  }

  lemma ModeWordHeeds(u: Ups, cfg: Config, w: Word, news: bool, now: int, n: Notice)
    requires Repeated(n) && w in {ECO, ALARM, OVER, TRIM, BOOST, FSD, NoReaction}
    ensures Silent(u, ApplyWord(u, cfg, w, news, now), n)
  {
    var u' := ApplyWord(u, cfg, w, news, now);
    if u'.log != u.log {
      assert u'.log == u.log + [u'.log[|u.log|]];
      SaysOther(u, u', u'.log[|u.log|], n);
    }
  }

  lemma WordHeeds(u: Ups, cfg: Config, w: Word, news: bool, now: int, n: Notice)
    requires Repeated(n)
    ensures Heeds(u, UpdateCritTimer(ApplyWord(u, cfg, w, news, now), now), n, cfg, now)
  {
    if w == RB {
      ReplBattHeeds(u, cfg, now, n);
    } else if w in {OL, OB, LB, CAL, OFF, BYPASS} {
      LineWordHeeds(u, cfg, w, news, now, n);
    } else {
      ModeWordHeeds(u, cfg, w, news, now, n);
    }
  }

  lemma {:induction false} WordsHeed(u: Ups, cfg: Config, ws: seq<string>, news: bool, now: int, n: Notice)
    requires Repeated(n)
    ensures Heeds(u, ApplyWords(u, cfg, ws, news, now), n, cfg, now)
    decreases |ws|
  {
    if ws != [] {
      var v := UpdateCritTimer(ApplyWord(u, cfg, WordOf(ws[0]), news, now), now);
      WordHeeds(u, cfg, WordOf(ws[0]), news, now, n);
      WordsHeed(v, cfg, ws[1..], news, now, n);
      HeedsTwice(u, v, ApplyWords(u, cfg, ws, news, now), n, cfg, now);
    }
  }

  lemma ClearThreeHeed(u: Ups, status: string, a: Flag, b: Flag, c: Flag, n: Notice)
    requires Reported(a) && Reported(b) && Reported(c) && Repeated(n)
    ensures Silent(u, ClearIfAbsent(ClearIfAbsent(ClearIfAbsent(u, status, a), status, b), status, c), n)
  {
    var u1 := ClearIfAbsent(u, status, a);
    ClearHeeds(u, status, a, n);
    ClearHeeds(u1, status, b, n);
    ClearHeeds(ClearIfAbsent(u1, status, b), status, c, n);
  }

  lemma BeforeWordsHeeds(u: Ups, r: Report, now: int, n: Notice)
    requires Repeated(n)
    ensures Silent(u, BeforeWords(u, r, now), n)
  {
    var u0 := UpsIsAlive(u, now);
    AliveHeeds(u, now, n);
    ClearThreeHeed(u0, r.status, LowBatt, Fsd, Cal, n);
    var u1 := ClearAbsent1(u0, r.status);
    ClearThreeHeed(u1, r.status, Off, Bypass, Alarm, n);
    var u2 := ClearAbsent2(u1, r.status);
    ClearThreeHeed(u2, r.status, Over, Trim, Boost, n);
    EcoHeeds(ClearAbsent3(u2, r.status), r, n);
  }

  // ----- the steps -----

  lemma PollHeeds(u: Ups, cfg: Config, r: Report, now: int, n: Notice)
    requires Repeated(n)
    ensures Heeds(u, PollSucceeded(u, cfg, r, now), n, cfg, now)
  {
    var v := u.(throttleState := ERR_NONE, throttleCount := -1);
    if r.status == "" {
      GoneHeeds(v, cfg, now, n);
    } else {
      BeforeWordsHeeds(v, r, now, n);
      WordsHeed(BeforeWords(v, r, now), cfg, Split(r.status), r.alarmNews, now, n);
    }
  }

  lemma PollFailHeeds(u: Ups, cfg: Config, code: int, lost: bool, now: int, n: Notice)
    requires Repeated(n)
    ensures Heeds(u, PollFailed(u, cfg, code, lost, now), n, cfg, now)
  {
    var t := Throttle(u.throttleCount, u.throttleState, cfg.throttleMax, code);
    GoneHeeds(u.(throttleCount := t.count, throttleState := t.state), cfg, now, n);
  }

  lemma QuietStep(u: Ups, e: Event, n: Notice)
    requires Repeated(n) && !e.op.Poll? && !e.op.PollFail? && !e.op.ConnectFail?
    ensures Silent(u, Apply(u, e), n)
  {
    match e.op
    case Reconfigure(pv, un, pw, option) => RedefineQuiet(u, pv, un, pw, option);
    case _ =>
  }

  lemma RedefineQuiet(u: Ups, pv: nat, un: string, pw: string, option: string)
    ensures var u' := Redefine(u, pv, un, pw, option);
            u'.log == u.log && u'.lastncwarn == u.lastncwarn && u'.lastrbwarn == u.lastrbwarn
  {
  }

  lemma StepHeeds(u: Ups, e: Event, n: Notice)
    requires Repeated(n)
    ensures Heeds(u, Apply(u, e), n, e.cfg, e.now)
  {
    match e.op
    case Poll(r) => PollHeeds(u, e.cfg, r, e.now, n);
    case PollFail(code, lost) => PollFailHeeds(u, e.cfg, code, lost, e.now, n);
    case ConnectFail(_) => GoneHeeds(ClearFlag(u, CliConnected), e.cfg, e.now, n);
    case _ => QuietStep(u, e, n);
  }

  // ----- over a run -----

  /** Step k sends the warning. */
  predicate WarnedAt(start: Ups, es: seq<Event>, k: nat, n: Notice)
    requires k < |es|
  {
    Count(Run(start, es[..k + 1]).log, n) > Count(Run(start, es[..k]).log, n)
  }

  function StampTimer(start: Ups, es: seq<Event>, n: Notice): nat -> int {
    (m: nat) => if m <= |es| then Stamp(Run(start, es[..m]), n) else 0
  }

  lemma StampMoves(start: Ups, es: seq<Event>, k: nat, n: Notice)
    requires k < |es| && Repeated(n)
    ensures if WarnedAt(start, es, k, n) then
              && es[k].now - StampTimer(start, es, n)(k) > Interval(es[k].cfg, n)
              && StampTimer(start, es, n)(k + 1) == es[k].now
            else StampTimer(start, es, n)(k + 1) == StampTimer(start, es, n)(k)
  {
    StepAt(start, es, k);
    StepHeeds(Run(start, es[..k]), es[k], n);
  }

  /** Over every run, while the clock does not run back: between two NOCOMM warnings about a UPS more
      than NOCOMMWARNTIME seconds pass, and between two REPLBATT more than RBWARNTIME. */
  lemma WarningsSpaced(start: Ups, es: seq<Event>, i: nat, k: nat, n: Notice)
    requires ClockRuns(es) && i < k < |es| && Repeated(n)
    ensures WarnedAt(start, es, i, n) && WarnedAt(start, es, k, n) ==> es[k].now - es[i].now > Interval(es[k].cfg, n)
  {
    if WarnedAt(start, es, i, n) && WarnedAt(start, es, k, n) {
      var stamp := StampTimer(start, es, n);
      StampMoves(start, es, i, n);
      forall m: nat | i + 1 <= m < k && stamp(m) >= es[i].now
        ensures stamp(m + 1) >= es[i].now
      {
        StampMoves(start, es, m, n);
      }
      StaysAbove(stamp, i + 1, k, es[i].now);
      StampMoves(start, es, k, n);
    }
  }
}
