// What the sequence of notifications about one UPS looks like over every run.
module UpsMonNotices {
  import opened UpsMon
  import opened UpsMonRuns

  /** The conditions announced by a pair of notices. */
  predicate Paired(f: Flag) {
    f.Cal? || f.Off? || f.Bypass? || f.Over? || f.Trim? || f.Boost?
  }

  predicate PairedWord(w: Word) {
    w.CAL? || w.OFF? || w.BYPASS? || w.OVER? || w.TRIM? || w.BOOST?
  }

  function Began(f: Flag): Notice
    requires Paired(f)
  {
    match f
    case Cal => NowCal
    case Off => NowOff
    case Bypass => NowBypass
    case Over => NowOver
    case Trim => NowTrim
    case Boost => NowBoost
  }

  function Ended(f: Flag): Notice
    requires Paired(f)
  {
    match f
    case Cal => NotCal
    case Off => NotOff
    case Bypass => NotBypass
    case Over => NotOver
    case Trim => NotTrim
    case Boost => NotBoost
  }

  datatype Tally = Inactive | Active | Broken

  /** Follows the two notices of a condition through a log: they must alternate, starting with the
      notice that it began. */
  function Follow(log: seq<Notice>, f: Flag): Tally
    requires Paired(f)
  {
    if log == [] then Inactive else FollowOne(Follow(log[..|log| - 1], f), log[|log| - 1], f)
  }

  function FollowOne(t: Tally, n: Notice, f: Flag): Tally
    requires Paired(f)
  {
    if n == Began(f) then if t == Inactive then Active else Broken
    else if n == Ended(f) then if t == Active then Inactive else Broken
    else t
  }

  /** The notices alternate so far, and the last one tells whether the flag is set. */
  predicate Told(u: Ups, f: Flag)
    requires Paired(f)
  {
    Follow(u.log, f) == if f in u.status then Active else Inactive
  }

  /** They do not: a notice was doubled, or one is out for a condition whose flag is not set, so that
      the next report of it is announced a second time. */
  predicate Astray(u: Ups, f: Flag)
    requires Paired(f)
  {
    Follow(u.log, f) == Broken || (Follow(u.log, f) == Active && f !in u.status)
  }

  /** One or the other, as `told` says. */
  predicate Tells(u: Ups, f: Flag, told: bool)
    requires Paired(f)
  {
    if told then Told(u, f) else Astray(u, f)
  }

  // A single handler adds at most one notice. Moves says how the notice and the flag go together,
  // without looking at the log before it.

  predicate AddsOne(u: Ups, u': Ups) {
    |u'.log| > 0 && u'.log == u.log + [u'.log[|u'.log| - 1]]
  }

  /** The notice and the flag go together. */
  predicate Suits(u: Ups, u': Ups, n: Notice, f: Flag)
    requires Paired(f)
  {
    if n == Began(f) then f !in u.status && f in u'.status
    else if n == Ended(f) then f in u.status && f !in u'.status
    else f in u'.status <==> f in u.status
  }

  predicate Moves(u: Ups, u': Ups, f: Flag)
    requires Paired(f)
  {
    if |u'.log| == |u.log| then u'.log == u.log && (f in u'.status <==> f in u.status)
    else AddsOne(u, u') && Suits(u, u', u'.log[|u'.log| - 1], f)
  }

  lemma MovesTell(u: Ups, u': Ups, f: Flag, told: bool)
    requires Paired(f) && Moves(u, u', f) && Tells(u, f, told)
    ensures Tells(u', f, told)
  {
    if u'.log != u.log {
      assert u'.log[..|u'.log| - 1] == u.log;
    }
  }

  /** One handler announces the beginning of `g` and sets its flag. */
  lemma Begins(u: Ups, u': Ups, g: Flag, f: Flag)
    requires Paired(g) && Paired(f) && g !in u.status
    requires u'.log == u.log + [Began(g)] && u'.status == u.status + {g}
    ensures Moves(u, u', f)
  {
  }

  lemma Ends(u: Ups, u': Ups, g: Flag, f: Flag)
    requires Paired(g) && Paired(f) && g in u.status
    requires u'.log == u.log + [Ended(g)] && u'.status == u.status - {g}
    ensures Moves(u, u', f)
  {
  }

  /** Neither notice of a pair. */
  predicate Single(n: Notice) {
    forall f: Flag {:trigger Paired(f)} :: Paired(f) ==> n != Began(f) && n != Ended(f)
  }

  lemma Announces(u: Ups, u': Ups, n: Notice, f: Flag)
    requires Paired(f) && Single(n) && (f in u'.status <==> f in u.status)
    requires u'.log == u.log + [n]
    ensures Moves(u, u', f)
  {
  }

  lemma MovesFrom(u: Ups, v: Ups, u': Ups, f: Flag)
    requires Paired(f) && Moves(v, u', f) && v.log == u.log && (f in v.status <==> f in u.status)
    ensures Moves(u, u', f)
  {
  }

  lemma AliveMoves(u: Ups, now: int, f: Flag)
    requires Paired(f)
    ensures Moves(u, UpsIsAlive(u, now), f)
  {
    if u.commstate == 0 {
      Announces(u, UpsIsAlive(u, now), CommOk, f);
    }
  }

  lemma GoneMoves(u: Ups, cfg: Config, now: int, f: Flag)
    requires Paired(f)
    ensures Moves(u, UpsIsGone(u, cfg, now), f)
  {
    var u' := UpsIsGone(u, cfg, now);
    if u.commstate != 0 {
      Announces(u, u', CommBad, f);
    } else if u' != u {
      Announces(u, u', NoComm, f);
    }
  }

  lemma DropKeeps(u: Ups, f: Flag)
    requires Paired(f)
    ensures DropConnection(u).log == u.log && (f in DropConnection(u).status <==> f in u.status)
  {
  }

  lemma DropMoves(u: Ups, cfg: Config, now: int, f: Flag)
    requires Paired(f)
    ensures Moves(u, DropConnection(UpsIsGone(u, cfg, now)), f)
  {
    var u' := UpsIsGone(u, cfg, now);
    GoneMoves(u, cfg, now, f);
    DropKeeps(u', f);
  }

  lemma ClearIfAbsentMoves(u: Ups, status: string, g: Flag, f: Flag)
    requires Reported(g) && Paired(f)
    ensures Moves(u, ClearIfAbsent(u, status, g), f)
  {
    match g
    case LowBatt =>
    case Fsd =>
    case Alarm => AlarmAndOverEnd(u, f);
    case Over => AlarmAndOverEnd(u, f);
    case Off => OffAndBypassEnd(u, f);
    case Bypass => OffAndBypassEnd(u, f);
    case _ => ChangesEnd(u, f);
  }

  lemma ChangesEnd(u: Ups, f: Flag)
    requires Paired(f)
    ensures Moves(u, UpsIsNotCal(u), f) && Moves(u, UpsIsNotTrim(u), f) && Moves(u, UpsIsNotBoost(u), f)
  {
    if Cal in u.status {
      Ends(u, UpsIsNotCal(u), Cal, f);
    }
    if Trim in u.status {
      Ends(u, UpsIsNotTrim(u), Trim, f);
    }
    if Boost in u.status {
      Ends(u, UpsIsNotBoost(u), Boost, f);
    }
  }

  lemma OffAndBypassEnd(u: Ups, f: Flag)
    requires Paired(f)
    ensures Moves(u, UpsIsNotOff(u), f) && Moves(u, UpsIsNotBypass(u), f)
  {
    if Off in u.status {
      Ends(u, UpsIsNotOff(u), Off, f);
    }
    if Bypass in u.status {
      Ends(u, UpsIsNotBypass(u), Bypass, f);
    }
  }

  lemma AlarmAndOverEnd(u: Ups, f: Flag)
    requires Paired(f)
    ensures Moves(u, UpsIsNotAlarm(u), f) && Moves(u, UpsIsNotOver(u), f)
  {
    if Alarm in u.status {
      Announces(u, UpsIsNotAlarm(u), NotAlarm, f);
    }
    if Over in u.status {
      Ends(u, UpsIsNotOver(u), Over, f);
    }
  }

  lemma EcoModeMoves(u: Ups, r: Report, f: Flag)
    requires Paired(f)
    ensures Moves(u, EcoMode(u, r), f)
  {
    if Eco in u.status {
      Announces(u, UpsIsNotEco(u), NotEco, f);
    } else {
      EcoBegins(u, f);
    }
  }

  /** What a word's handler can do to the six paired conditions: at most begin its own. */
  lemma PairedWordMoves(u: Ups, cfg: Config, w: Word, news: bool, now: int, f: Flag)
    requires Paired(f) && PairedWord(w)
    ensures Moves(u, ApplyWord(u, cfg, w, news, now), f)
  {
    match w
    case CAL => CalBegins(u, f);
    case OFF => OffBegins(u, cfg, now, f);
    case BYPASS => CalBegins(u, f);
    case OVER => OverBegins(u, now, f);
    case TRIM => TrimBegins(u, f);
    case BOOST => TrimBegins(u, f);
  }

  lemma CalBegins(u: Ups, f: Flag)
    requires Paired(f)
    ensures Moves(u, UpsIsCal(u), f) && Moves(u, UpsIsBypass(u), f)
  {
    if Cal !in u.status {
      Begins(u, UpsIsCal(u), Cal, f);
    }
    if Bypass !in u.status {
      Begins(u, UpsIsBypass(u), Bypass, f);
    }
  }

  lemma TrimBegins(u: Ups, f: Flag)
    requires Paired(f)
    ensures Moves(u, UpsIsTrim(u), f) && Moves(u, UpsIsBoost(u), f)
  {
    if Trim !in u.status {
      Begins(u, UpsIsTrim(u), Trim, f);
    }
    if Boost !in u.status {
      Begins(u, UpsIsBoost(u), Boost, f);
    }
  }

  lemma OffBegins(u: Ups, cfg: Config, now: int, f: Flag)
    requires Paired(f)
    ensures Moves(u, UpsIsOff(u, cfg, now), f)
  {
    if Off !in u.status {
      Begins(u, UpsIsOff(u, cfg, now), Off, f);
    }
  }

  lemma OverBegins(u: Ups, now: int, f: Flag)
    requires Paired(f)
    ensures Moves(u, UpsIsOver(u, now), f)
  {
    if Over !in u.status {
      Begins(u, UpsIsOver(u, now), Over, f);
    }
  }

  lemma LineMoves(u: Ups, f: Flag)
    requires Paired(f)
    ensures Moves(u, UpsOnLine(u), f) && Moves(u, UpsOnBatt(u), f)
  {
    OnLineMoves(u, f);
    OnBattMoves(u, f);
  }

  lemma OnBattMoves(u: Ups, f: Flag)
    requires Paired(f)
    ensures Moves(u, UpsOnBatt(u), f)
  {
    if OnBatt !in u.status {
      assert UpsOnBatt(u).log == u.log + [NowOnBatt];
      Announces(u, UpsOnBatt(u), NowOnBatt, f);
    }
  }

  lemma OnLineMoves(u: Ups, f: Flag)
    requires Paired(f)
    ensures Moves(u, UpsOnLine(u), f)
  {
    if Online !in u.status && u.linestate != -1 {
      Announces(u, UpsOnLine(u), NowOnline, f);
    }
  }

  lemma UnpairedWordMoves(u: Ups, cfg: Config, w: Word, news: bool, now: int, f: Flag)
    requires Paired(f) && !PairedWord(w)
    ensures Moves(u, ApplyWord(u, cfg, w, news, now), f)
  {
    match w
    case OL => LineMoves(u, f);
    case OB => LineMoves(u, f);
    case LB => BatteryMoves(u, cfg, now, f);
    case RB => BatteryMoves(u, cfg, now, f);
    case ECO => EventMoves(u, news, f);
    case ALARM => EventMoves(u, news, f);
    case FSD => EventMoves(u, news, f);
    case NoReaction =>
  }

  lemma BatteryMoves(u: Ups, cfg: Config, now: int, f: Flag)
    requires Paired(f)
    ensures Moves(u, UpsLowBatt(u), f) && Moves(u, UpsReplBatt(u, cfg, now), f)
  {
    if LowBatt !in u.status {
      Announces(u, UpsLowBatt(u), NowLowBatt, f);
    }
    if now - u.lastrbwarn > cfg.rbwarntime {
      Announces(u, UpsReplBatt(u, cfg, now), ReplBatt, f);
    }
  }

  lemma EventMoves(u: Ups, news: bool, f: Flag)
    requires Paired(f)
    ensures Moves(u, UpsIsEco(u), f) && Moves(u, UpsIsAlarm(u, news), f) && Moves(u, UpsFsd(u), f)
  {
    EcoBegins(u, f);
    AlarmBegins(u, news, f);
    FsdMoves(u, f);
  }

  lemma EcoBegins(u: Ups, f: Flag)
    requires Paired(f)
    ensures Moves(u, UpsIsEco(u), f)
  {
    if Eco !in u.status {
      Announces(u, UpsIsEco(u), NowEco, f);
    }
  }

  lemma AlarmBegins(u: Ups, news: bool, f: Flag)
    requires Paired(f)
    ensures Moves(u, UpsIsAlarm(u, news), f)
  {
    if Alarm !in u.status || news {
      Announces(u, UpsIsAlarm(u, news), NowAlarm, f);
    }
  }

  lemma FsdMoves(u: Ups, f: Flag)
    requires Paired(f)
    ensures Moves(u, UpsFsd(u), f)
  {
    if Fsd !in u.status {
      Announces(u, UpsFsd(u), NowFsd, f);
    }
  }

  lemma ApplyWordMoves(u: Ups, cfg: Config, w: Word, news: bool, now: int, f: Flag)
    requires Paired(f)
    ensures Moves(u, UpdateCritTimer(ApplyWord(u, cfg, w, news, now), now), f)
  {
    if PairedWord(w) {
      PairedWordMoves(u, cfg, w, news, now, f);
    } else {
      UnpairedWordMoves(u, cfg, w, news, now, f);
    }
  }

  lemma ClearThreeTell(u: Ups, status: string, a: Flag, b: Flag, c: Flag, f: Flag, told: bool)
    requires Reported(a) && Reported(b) && Reported(c) && Paired(f) && Tells(u, f, told)
    ensures Tells(ClearIfAbsent(ClearIfAbsent(ClearIfAbsent(u, status, a), status, b), status, c), f, told)
  {
    var u1 := ClearIfAbsent(u, status, a);
    var u2 := ClearIfAbsent(u1, status, b);
    ClearIfAbsentMoves(u, status, a, f);
    MovesTell(u, u1, f, told);
    ClearIfAbsentMoves(u1, status, b, f);
    MovesTell(u1, u2, f, told);
    ClearIfAbsentMoves(u2, status, c, f);
    MovesTell(u2, ClearIfAbsent(u2, status, c), f, told);
  }

  lemma BeforeWordsTells(u: Ups, r: Report, now: int, f: Flag, told: bool)
    requires Paired(f) && Tells(u, f, told)
    ensures Tells(BeforeWords(u, r, now), f, told)
  {
    var u0 := UpsIsAlive(u, now);
    AliveMoves(u, now, f);
    MovesTell(u, u0, f, told);
    ClearThreeTell(u0, r.status, LowBatt, Fsd, Cal, f, told);
    var u1 := ClearAbsent1(u0, r.status);
    ClearThreeTell(u1, r.status, Off, Bypass, Alarm, f, told);
    var u2 := ClearAbsent2(u1, r.status);
    ClearThreeTell(u2, r.status, Over, Trim, Boost, f, told);
    var u3 := ClearAbsent3(u2, r.status);
    EcoModeMoves(u3, r, f);
    MovesTell(u3, EcoMode(u3, r), f, told);
  }

  lemma {:induction false} ApplyWordsTell(u: Ups, cfg: Config, ws: seq<string>, news: bool, now: int, f: Flag, told: bool)
    requires Paired(f) && Tells(u, f, told)
    ensures Tells(ApplyWords(u, cfg, ws, news, now), f, told)
    decreases |ws|
  {
    if ws != [] {
      var u' := UpdateCritTimer(ApplyWord(u, cfg, WordOf(ws[0]), news, now), now);
      ApplyWordMoves(u, cfg, WordOf(ws[0]), news, now, f);
      MovesTell(u, u', f, told);
      ApplyWordsTell(u', cfg, ws[1..], news, now, f, told);
    }
  }

  lemma PollTells(u: Ups, cfg: Config, r: Report, now: int, f: Flag, told: bool)
    requires Paired(f) && Tells(u, f, told)
    ensures Tells(PollSucceeded(u, cfg, r, now), f, told)
  {
    var u := u.(throttleState := ERR_NONE, throttleCount := -1);
    if r.status == "" {
      GoneMoves(u, cfg, now, f);
      MovesTell(u, UpsIsGone(u, cfg, now), f, told);
    } else {
      BeforeWordsTells(u, r, now, f, told);
      ApplyWordsTell(BeforeWords(u, r, now), cfg, Split(r.status), r.alarmNews, now, f, told);
    }
  }

  lemma OtherEventMoves(u: Ups, e: Event, f: Flag)
    requires Paired(f) && !e.op.Wake? && !e.op.Poll?
    ensures Moves(u, Apply(u, e), f)
  {
    match e.op
    case PollFail(code, lost) =>
      var t := Throttle(u.throttleCount, u.throttleState, e.cfg.throttleMax, code);
      var u1 := u.(throttleCount := t.count, throttleState := t.state);
      if lost {
        DropMoves(u1, e.cfg, e.now, f);
        MovesFrom(u, u1, DropConnection(UpsIsGone(u1, e.cfg, e.now)), f);
      } else {
        GoneMoves(u1, e.cfg, e.now, f);
        MovesFrom(u, u1, UpsIsGone(u1, e.cfg, e.now), f);
      }
    case ConnectFail(uncertified) => ConnectFailMoves(u, e, f);
    case Connect(loggedIn) =>
    case Recalc => RecalcKeeps(u, e.cfg, e.now);
    case Reconfigure(pv, un, pw, option) => RedefineMoves(u, pv, un, pw, option, f);
    case ResetThrottle =>
  }

  lemma ConnectFailMoves(u: Ups, e: Event, f: Flag)
    requires Paired(f) && e.op.ConnectFail?
    ensures Moves(u, Apply(u, e), f)
  {
    var u1 := ClearFlag(u, CliConnected);
    GoneMoves(u1, e.cfg, e.now, f);
    DropMoves(u1, e.cfg, e.now, f);
    assert u1.log == u.log && (f in u1.status <==> f in u.status);
    if e.op.uncertified {
      MovesFrom(u, u1, DropConnection(UpsIsGone(u1, e.cfg, e.now)), f);
    } else {
      MovesFrom(u, u1, UpsIsGone(u1, e.cfg, e.now), f);
    }
  }

  /** recalc says nothing and touches no flag but LowBatt. */
  lemma RecalcKeeps(u: Ups, cfg: Config, now: int)
    ensures var u' := AfterJudge(PromoteDead(u, cfg, now), cfg, now);
            u'.log == u.log && u'.commstate == u.commstate && forall g :: g != LowBatt ==> (g in u'.status <==> g in u.status)
  {
  }

  lemma RedefineMoves(u: Ups, pv: nat, un: string, pw: string, option: string, f: Flag)
    requires Paired(f)
    ensures Moves(u, Redefine(u, pv, un, pw, option), f)
  {
  }

  lemma EventTells(u: Ups, e: Event, f: Flag, told: bool)
    requires Paired(f) && Tells(u, f, told) && !e.op.Wake?
    ensures Tells(Apply(u, e), f, told)
  {
    if e.op.Poll? {
      PollTells(u, e.cfg, e.op.report, e.now, f, told);
    } else {
      OtherEventMoves(u, e, f);
      MovesTell(u, Apply(u, e), f, told);
    }
  }

  predicate NoWake(es: seq<Event>) {
    forall k :: 0 <= k < |es| ==> !es[k].op.Wake?
  }

  /** Over every run without an operating system wake-up, the notices that a condition began and
      that it ended strictly alternate, beginning with the former, and the last of them tells
      whether the condition's flag is set. */
  lemma {:induction false} NoticesAlternate(start: Ups, es: seq<Event>, f: Flag)
    requires Added(start) && Paired(f) && NoWake(es)
    ensures Told(Run(start, es), f)
  {
    if es != [] {
      NoticesAlternate(start, es[..|es| - 1], f);
      EventTells(Run(start, es[..|es| - 1]), es[|es| - 1], f, true);
    }
  }

  /** Some wake-up of the run found the condition on. */
  predicate WokenWhileOn(start: Ups, es: seq<Event>, f: Flag) {
    && es != []
    && var front, e := es[..|es| - 1], es[|es| - 1];
       WokenWhileOn(start, front, f) || (e.op.Wake? && f in Run(start, front).status)
  }

  lemma WakeTells(u: Ups, now: int, f: Flag, told: bool)
    requires Paired(f) && Tells(u, f, told)
    ensures Tells(WakeUp(u, now), f, told && f !in u.status)
  {
  }

  lemma EachEventTells(u: Ups, e: Event, f: Flag, told: bool)
    requires Paired(f) && Tells(u, f, told)
    ensures Tells(Apply(u, e), f, told && !(e.op.Wake? && f in u.status))
  {
    if e.op.Wake? {
      WakeTells(u, e.now, f, told);
    } else {
      EventTells(u, e, f, told);
    }
  }

  lemma {:induction false} RunTells(start: Ups, es: seq<Event>, f: Flag)
    requires Added(start) && Paired(f)
    ensures Tells(Run(start, es), f, !WokenWhileOn(start, es, f))
  {
    if es != [] {
      var front, e := es[..|es| - 1], es[|es| - 1];
      RunTells(start, front, f);
      EachEventTells(Run(start, front), e, f, !WokenWhileOn(start, front, f));
    }
  }

  /** A wake-up forgets the flags without notice. Over every run the notices of a condition alternate
      and agree with its flag exactly when no wake-up came while the condition was on; after one that
      did, agreement never returns, and once the condition is reported again it has been announced
      twice over. */
  lemma AlternationBreaksIff(start: Ups, es: seq<Event>, f: Flag)
    requires Added(start) && Paired(f)
    ensures Told(Run(start, es), f) <==> !WokenWhileOn(start, es, f)
    ensures WokenWhileOn(start, es, f) ==> Astray(Run(start, es), f)
    ensures WokenWhileOn(start, es, f) && f in Run(start, es).status ==> Follow(Run(start, es).log, f) == Broken
  {
    RunTells(start, es, f);
  }

  // ----- COMMBAD and COMMOK -----

  /** Whether a COMMBAD is out that no COMMOK has followed; broken by a second COMMBAD. */
  function LinkDown(log: seq<Notice>): Tally {
    if log == [] then Inactive else LinkDownOne(LinkDown(log[..|log| - 1]), log[|log| - 1])
  }

  function LinkDownOne(t: Tally, n: Notice): Tally {
    if t == Broken then Broken
    else if n == CommBad then if t == Active then Broken else Active
    else if n == CommOk then Inactive
    else t
  }

  /** No second COMMBAD came without a COMMOK in between, and while one is out the link is down. */
  predicate LinkTold(u: Ups) {
    && LinkDown(u.log) != Broken
    && (LinkDown(u.log) == Active ==> u.commstate == 0)
  }

  predicate LinkMoves(u: Ups, u': Ups) {
    if |u'.log| == |u.log| then u'.log == u.log && (u.commstate == 0 ==> u'.commstate == 0)
    else if AddsOne(u, u') then
      var n := u'.log[|u'.log| - 1];
      if n == CommBad then u.commstate != 0 && u'.commstate == 0
      else n == CommOk || (u.commstate == 0 ==> u'.commstate == 0)
    else false
  }

  lemma LinkMovesTell(u: Ups, u': Ups)
    requires LinkMoves(u, u') && LinkTold(u)
    ensures LinkTold(u')
  {
    if u'.log != u.log {
      assert u'.log[..|u'.log| - 1] == u.log;
    }
  }

  lemma HandlersMoveLink(u: Ups, cfg: Config, r: Report, w: Word, g: Flag, now: int)
    requires Reported(g)
    ensures LinkMoves(u, UpsIsAlive(u, now)) && LinkMoves(u, UpsIsGone(u, cfg, now))
    ensures LinkMoves(u, ClearIfAbsent(u, r.status, g)) && LinkMoves(u, EcoMode(u, r))
    ensures LinkMoves(u, UpdateCritTimer(ApplyWord(u, cfg, w, r.alarmNews, now), now))
  {
    CommsMoveLink(u, cfg, now);
    ClearIfAbsentMovesLink(u, r.status, g);
    EcoModeMovesLink(u, r);
    ApplyWordMovesLink(u, cfg, w, r.alarmNews, now);
  }

  lemma CommsMoveLink(u: Ups, cfg: Config, now: int)
    ensures LinkMoves(u, UpsIsAlive(u, now)) && LinkMoves(u, UpsIsGone(u, cfg, now))
  {
  }

  lemma ClearIfAbsentMovesLink(u: Ups, status: string, g: Flag)
    requires Reported(g)
    ensures LinkMoves(u, ClearIfAbsent(u, status, g))
  {
  }

  lemma EcoModeMovesLink(u: Ups, r: Report)
    ensures LinkMoves(u, EcoMode(u, r))
  {
  }

  lemma PairedWordMovesLink(u: Ups, cfg: Config, w: Word, news: bool, now: int)
    requires PairedWord(w)
    ensures LinkMoves(u, ApplyWord(u, cfg, w, news, now))
  {
    match w
    case CAL => assert LinkMoves(u, UpsIsCal(u));
    case OFF => assert LinkMoves(u, UpsIsOff(u, cfg, now));
    case BYPASS => assert LinkMoves(u, UpsIsBypass(u));
    case OVER => assert LinkMoves(u, UpsIsOver(u, now));
    case TRIM => assert LinkMoves(u, UpsIsTrim(u));
    case BOOST => assert LinkMoves(u, UpsIsBoost(u));
  }

  lemma ApplyWordMovesLink(u: Ups, cfg: Config, w: Word, news: bool, now: int)
    ensures LinkMoves(u, ApplyWord(u, cfg, w, news, now))
  {
    if PairedWord(w) {
      PairedWordMovesLink(u, cfg, w, news, now);
      return;
    }
    match w
    case OL => assert LinkMoves(u, UpsOnLine(u));
    case OB => assert LinkMoves(u, UpsOnBatt(u));
    case LB => assert LinkMoves(u, UpsLowBatt(u));
    case RB => assert LinkMoves(u, UpsReplBatt(u, cfg, now));
    case ECO => assert LinkMoves(u, UpsIsEco(u));
    case ALARM => assert LinkMoves(u, UpsIsAlarm(u, news));
    case FSD => assert LinkMoves(u, UpsFsd(u));
    case NoReaction =>
  }

  lemma ClearThreeTellLink(u: Ups, cfg: Config, r: Report, a: Flag, b: Flag, c: Flag)
    requires Reported(a) && Reported(b) && Reported(c) && LinkTold(u)
    ensures LinkTold(ClearIfAbsent(ClearIfAbsent(ClearIfAbsent(u, r.status, a), r.status, b), r.status, c))
  {
    var u1 := ClearIfAbsent(u, r.status, a);
    var u2 := ClearIfAbsent(u1, r.status, b);
    HandlersMoveLink(u, cfg, r, OL, a, 0);
    LinkMovesTell(u, u1);
    HandlersMoveLink(u1, cfg, r, OL, b, 0);
    LinkMovesTell(u1, u2);
    HandlersMoveLink(u2, cfg, r, OL, c, 0);
    LinkMovesTell(u2, ClearIfAbsent(u2, r.status, c));
  }

  lemma BeforeWordsTellLink(u: Ups, cfg: Config, r: Report, now: int)
    requires LinkTold(u)
    ensures LinkTold(BeforeWords(u, r, now))
  {
    var u0 := UpsIsAlive(u, now);
    HandlersMoveLink(u, cfg, r, OL, Cal, now);
    LinkMovesTell(u, u0);
    ClearThreeTellLink(u0, cfg, r, LowBatt, Fsd, Cal);
    var u1 := ClearAbsent1(u0, r.status);
    ClearThreeTellLink(u1, cfg, r, Off, Bypass, Alarm);
    var u2 := ClearAbsent2(u1, r.status);
    ClearThreeTellLink(u2, cfg, r, Over, Trim, Boost);
    var u3 := ClearAbsent3(u2, r.status);
    HandlersMoveLink(u3, cfg, r, OL, Cal, now);
    LinkMovesTell(u3, EcoMode(u3, r));
  }

  lemma {:induction false} ApplyWordsTellLink(u: Ups, cfg: Config, ws: seq<string>, r: Report, now: int)
    requires LinkTold(u)
    ensures LinkTold(ApplyWords(u, cfg, ws, r.alarmNews, now))
    decreases |ws|
  {
    if ws != [] {
      var u' := UpdateCritTimer(ApplyWord(u, cfg, WordOf(ws[0]), r.alarmNews, now), now);
      HandlersMoveLink(u, cfg, r, WordOf(ws[0]), Cal, now);
      LinkMovesTell(u, u');
      ApplyWordsTellLink(u', cfg, ws[1..], r, now);
    }
  }

  lemma PollTellsLink(u: Ups, cfg: Config, r: Report, now: int)
    requires LinkTold(u)
    ensures LinkTold(PollSucceeded(u, cfg, r, now))
  {
    var u := u.(throttleState := ERR_NONE, throttleCount := -1);
    if r.status == "" {
      HandlersMoveLink(u, cfg, r, OL, Cal, now);
      LinkMovesTell(u, UpsIsGone(u, cfg, now));
    } else {
      BeforeWordsTellLink(u, cfg, r, now);
      ApplyWordsTellLink(BeforeWords(u, r, now), cfg, Split(r.status), r, now);
    }
  }

  lemma OtherEventMovesLink(u: Ups, e: Event)
    requires !e.op.Poll?
    ensures LinkMoves(u, Apply(u, e))
  {
    match e.op
    case PollFail(code, lost) =>
      var t := Throttle(u.throttleCount, u.throttleState, e.cfg.throttleMax, code);
      GoneMovesLink(u.(throttleCount := t.count, throttleState := t.state), e.cfg, e.now);
    case ConnectFail(uncertified) => GoneMovesLink(ClearFlag(u, CliConnected), e.cfg, e.now);
    case Reconfigure(pv, un, pw, option) => RedefineMovesLink(u, pv, un, pw, option);
    case Recalc => RecalcKeeps(u, e.cfg, e.now);
    case _ =>
  }

  lemma GoneMovesLink(u: Ups, cfg: Config, now: int)
    ensures LinkMoves(u, UpsIsGone(u, cfg, now)) && LinkMoves(u, DropConnection(UpsIsGone(u, cfg, now)))
  {
  }

  lemma RedefineMovesLink(u: Ups, pv: nat, un: string, pw: string, option: string)
    ensures LinkMoves(u, Redefine(u, pv, un, pw, option))
  {
  }

  /** Between two COMMBAD notices there is always a COMMOK, in every run, wake-ups included. */
  lemma {:induction false} CommBadsSeparated(start: Ups, es: seq<Event>)
    requires Added(start)
    ensures LinkDown(Run(start, es).log) != Broken
    ensures LinkTold(Run(start, es))
  {
    if es != [] {
      var u, e := Run(start, es[..|es| - 1]), es[|es| - 1];
      CommBadsSeparated(start, es[..|es| - 1]);
      if e.op.Poll? {
        PollTellsLink(u, e.cfg, e.op.report, e.now);
      } else {
        OtherEventMovesLink(u, e);
        LinkMovesTell(u, Apply(u, e));
      }
    }
  }
}
