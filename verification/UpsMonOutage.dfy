// An outage from its first report to the shutdown: a poll that reports OB and LB, and then any
// number of judgements and of further polls that take nothing back (is_ups_critical of
// clients/upsmon.c).
module UpsMonOutage {
  import opened Text
  import opened UpsMon
  import opened UpsMonRuns
  import opened UpsMonSafety
  import Status = UpsMonStatus

  /** No word of the status says that the condition is there. */
  predicate Silent(r: Report, f: Flag)
    requires Reported(f)
  {
    !Status.Says(Split(r.status), Name(f))
  }

  /** The words report OB and LB, not OL, and nothing that decides before a low battery does; nor is
      such a condition left over from before because its name occurs inside another word. */
  predicate OutageBegins(u: Ups, r: Report) {
    && r.status != ""
    && Status.Says(Split(r.status), OB) && Status.Says(Split(r.status), LB) && !Status.Says(Split(r.status), OL)
    && Silent(r, Cal) && Silent(r, Fsd) && Silent(r, Off)
    && forall f :: f in {Cal, Fsd, Off} && f in u.status ==> !Contains(r.status, Spelling(Name(f)))
  }

  /** A later status takes nothing of that back. */
  predicate OutageGoesOn(r: Report) {
    && r.status != "" && Contains(r.status, "LB") && !Status.Says(Split(r.status), OL)
    && Silent(r, Cal) && Silent(r, Fsd) && Silent(r, Off)
  }

  predicate Outage(u: Ups, es: seq<Event>) {
    && es != [] && es[0].op.Poll? && OutageBegins(u, es[0].op.report)
    && forall j :: 0 < j < |es| ==> es[j].op.Recalc? || (es[j].op.Poll? && OutageGoesOn(es[j].op.report))
  }

  predicate InOutage(u: Ups) {
    && OnBatt in u.status && LowBatt in u.status && Cal !in u.status && Fsd !in u.status && Off !in u.status
    && u.commstate == 1
  }

  lemma SplitPlain()
    ensures Split("OB LB") == ["OB", "LB"]
  {
    assert "OB LB"[1..] == "B LB" && "B LB"[1..] == " LB" && " LB"[1..] == "LB" && "LB"[1..] == "B" && "B"[1..] == "";
    assert Split("") == [""];
    assert Split("B") == ["B"] by { assert ['B'] + "" == "B"; }
    assert Split("LB") == ["LB"] by { assert ['L'] + "B" == "LB"; }
    assert Split(" LB") == ["", "LB"];
    assert Split("B LB") == ["B", "LB"] by { assert ['B'] + "" == "B"; }
    assert ['O'] + "B" == "OB";
  }

  lemma PlainSays(w: Word)
    requires w != NoReaction
    ensures Status.Says(Split("OB LB"), w) <==> w == OB || w == LB
  {
    SplitPlain();
    var ws := ["OB", "LB"];
    assert Status.InVocabulary("OB") && Status.InVocabulary("LB");
    Status.KnownWordsSay(ws, w);
    if Spelling(w) in ws {
      assert Spelling(w) == "OB" || Spelling(w) == "LB";
      assert |Spelling(w)| == 2 && Spelling(w)[1] == 'B' && Spelling(w)[0] != 'R';
    }
    assert Spelling(OB) == ws[0] && Spelling(LB) == ws[1];
  }

  lemma PlainNames(f: Flag)
    requires f in {Cal, Fsd, Off}
    ensures Spelling(Name(f)) !in ["OB", "LB"]
  {
    assert |Spelling(Name(f))| == 3;
  }

  lemma PlainContains(f: Flag)
    requires f in {LowBatt, Cal, Fsd, Off}
    ensures Contains("OB LB", Spelling(Name(f))) <==> f == LowBatt
  {
    SplitPlain();
    assert Status.InVocabulary("OB") && Status.InVocabulary("LB");
    if f == LowBatt {
      assert OccursAt("OB LB", "LB", 3);
    } else if Contains("OB LB", Spelling(Name(f))) {
      Status.KnownTextContains("OB LB", f);
      PlainNames(f);
    }
  }

  lemma PlainSilent(r: Report, f: Flag)
    requires r.status == "OB LB" && f in {Cal, Fsd, Off}
    ensures Silent(r, f)
  {
    PlainSays(Name(f));
  }

  /** The plain status begins an outage whatever was known of the UPS, and goes on with one. */
  lemma PlainOutage(u: Ups, r: Report)
    requires r.status == "OB LB"
    ensures OutageBegins(u, r) && OutageGoesOn(r)
  {
    PlainSays(OB);
    PlainSays(LB);
    PlainSays(OL);
    PlainSilent(r, Cal);
    PlainSilent(r, Fsd);
    PlainSilent(r, Off);
    PlainContains(LowBatt);
    forall f | f in {Cal, Fsd, Off} && f in u.status
      ensures !Contains(r.status, Spelling(Name(f)))
    {
      PlainContains(f);
    }
  }

  // ----- what a status leaves -----

  predicate SameLink(u: Ups, u': Ups) {
    && u'.commstate == u.commstate
    && (OnBatt in u'.status <==> OnBatt in u.status) && (Primary in u'.status <==> Primary in u.status)
  }

  lemma ClearKeepsLink(u: Ups, status: string, f: Flag)
    requires Reported(f)
    ensures SameLink(u, ClearIfAbsent(u, status, f))
  {
  }

  lemma ClearThreeKeepLink(u: Ups, status: string, a: Flag, b: Flag, c: Flag)
    requires Reported(a) && Reported(b) && Reported(c)
    ensures SameLink(u, ClearIfAbsent(ClearIfAbsent(ClearIfAbsent(u, status, a), status, b), status, c))
  {
    ClearKeepsLink(u, status, a);
    ClearKeepsLink(ClearIfAbsent(u, status, a), status, b);
    ClearKeepsLink(ClearIfAbsent(ClearIfAbsent(u, status, a), status, b), status, c);
  }

  lemma KeepsLink(u: Ups, status: string)
    ensures SameLink(u, ClearAbsent(u, status))
  {
    ClearThreeKeepLink(u, status, LowBatt, Fsd, Cal);
    var u1 := ClearAbsent1(u, status);
    ClearThreeKeepLink(u1, status, Off, Bypass, Alarm);
    ClearThreeKeepLink(ClearAbsent2(u1, status), status, Over, Trim, Boost);
  }

  lemma BeforeWordsLink(u: Ups, r: Report, now: int)
    ensures var b := BeforeWords(u, r, now);
            && b.commstate == 1
            && (OnBatt in b.status <==> OnBatt in u.status) && (Primary in b.status <==> Primary in u.status)
  {
    KeepsLink(UpsIsAlive(u, now), r.status);
  }

  lemma WordOnBattery(u: Ups, cfg: Config, w: Word, news: bool, now: int)
    requires w != OL
    ensures var u' := ApplyWord(u, cfg, w, news, now);
            && u'.commstate == u.commstate && (Primary in u'.status <==> Primary in u.status)
            && (OnBatt in u'.status <==> OnBatt in u.status || w == OB)
  {
    if w in {CAL, OFF, BYPASS, OVER, TRIM, BOOST} {
      ConditionKeepsLink(u, cfg, w, news, now);
    }
  }

  lemma ConditionKeepsLink(u: Ups, cfg: Config, w: Word, news: bool, now: int)
    requires w in {CAL, OFF, BYPASS, OVER, TRIM, BOOST}
    ensures SameLink(u, ApplyWord(u, cfg, w, news, now))
  {
  }

  lemma {:induction false} WordsOnBattery(u: Ups, cfg: Config, ws: seq<string>, news: bool, now: int)
    requires !Status.Says(ws, OL)
    ensures var u' := ApplyWords(u, cfg, ws, news, now);
            && u'.commstate == u.commstate && (Primary in u'.status <==> Primary in u.status)
            && (OnBatt in u'.status <==> OnBatt in u.status || Status.Says(ws, OB))
    decreases |ws|
  {
    if ws != [] {
      var w := WordOf(ws[0]);
      Status.SaysHead(ws, OL);
      Status.SaysHead(ws, OB);
      Status.SpellingsApart(ws[0], OL);
      Status.SpellingsApart(ws[0], OB);
      WordOnBattery(u, cfg, w, news, now);
      WordsOnBattery(UpdateCritTimer(ApplyWord(u, cfg, w, news, now), now), cfg, ws[1..], news, now);
    }
  }

  lemma PollOnBattery(u: Ups, cfg: Config, r: Report, now: int)
    requires r.status != "" && !Status.Says(Split(r.status), OL)
    ensures var u' := PollSucceeded(u, cfg, r, now);
            && u'.commstate == 1 && (Primary in u'.status <==> Primary in u.status)
            && (OnBatt in u'.status <==> OnBatt in u.status || Status.Says(Split(r.status), OB))
  {
    var v := u.(throttleState := ERR_NONE, throttleCount := -1);
    BeforeWordsLink(v, r, now);
    WordsOnBattery(BeforeWords(v, r, now), cfg, Split(r.status), r.alarmNews, now);
  }

  lemma FlagAfterPoll(u: Ups, cfg: Config, r: Report, now: int, f: Flag)
    requires Reported(f) && r.status != ""
    ensures f in PollSucceeded(u, cfg, r, now).status <==>
            !Silent(r, f) || (f in u.status && Contains(r.status, Spelling(Name(f))))
  {
    Status.FlagAfterStatus(u.(throttleState := ERR_NONE, throttleCount := -1), cfg, r, now, f);
  }

  lemma FlagsAfterPoll(u: Ups, cfg: Config, r: Report, now: int)
    requires r.status != "" && Silent(r, Cal) && Silent(r, Fsd) && Silent(r, Off)
    requires forall f :: f in {Cal, Fsd, Off} && f in u.status ==> !Contains(r.status, Spelling(Name(f)))
    requires Status.Says(Split(r.status), LB) || (LowBatt in u.status && Contains(r.status, "LB"))
    ensures var s := PollSucceeded(u, cfg, r, now).status;
            LowBatt in s && Cal !in s && Fsd !in s && Off !in s
  {
    FlagAfterPoll(u, cfg, r, now, LowBatt);
    FlagAfterPoll(u, cfg, r, now, Cal);
    FlagAfterPoll(u, cfg, r, now, Fsd);
    FlagAfterPoll(u, cfg, r, now, Off);
  }

  lemma OutageReported(u: Ups, cfg: Config, r: Report, now: int)
    requires OutageBegins(u, r) || (InOutage(u) && OutageGoesOn(r))
    ensures InOutage(PollSucceeded(u, cfg, r, now))
    ensures Primary in PollSucceeded(u, cfg, r, now).status <==> Primary in u.status
  {
    PollOnBattery(u, cfg, r, now);
    FlagsAfterPoll(u, cfg, r, now);
  }

  lemma OutageJudged(u: Ups, cfg: Config, now: int)
    requires InOutage(u)
    ensures var u' := AfterJudge(PromoteDead(u, cfg, now), cfg, now);
            InOutage(u') && (Primary in u'.status <==> Primary in u.status)
    ensures OnLowBattery(Judge(PromoteDead(u, cfg, now), cfg, now))
  {
  }

  lemma OutageStep(u: Ups, e: Event)
    requires InOutage(u) && (e.op.Recalc? || (e.op.Poll? && OutageGoesOn(e.op.report)))
    ensures InOutage(Apply(u, e)) && (Primary in Apply(u, e).status <==> Primary in u.status)
  {
    if e.op.Poll? {
      OutageReported(u, e.cfg, e.op.report, e.now);
    } else {
      OutageJudged(u, e.cfg, e.now);
    }
  }

  lemma {:induction false} OutageLasts(u: Ups, es: seq<Event>, n: nat)
    requires Outage(u, es) && 0 < n <= |es|
    ensures InOutage(Run(u, es[..n])) && (Primary in Run(u, es[..n]).status <==> Primary in u.status)
    decreases n
  {
    StepAt(u, es, n - 1);
    if n == 1 {
      OutageReported(u, es[0].cfg, es[0].op.report, es[0].now);
    } else {
      OutageLasts(u, es, n - 1);
      OutageStep(Run(u, es[..n - 1]), es[n - 1]);
    }
  }

  /** During an outage every judgement comes to the clauses for a low battery. */
  lemma OutageVerdict(u: Ups, es: seq<Event>, k: nat)
    requires Outage(u, es) && 0 < k < |es| && es[k].op.Recalc?
    ensures OnLowBattery(VerdictAt(u, es, k))
  {
    OutageLasts(u, es, k);
    OutageJudged(Run(u, es[..k]), es[k].cfg, es[k].now);
  }

  // ----- the clocks during an outage -----

  lemma {:induction false} NeverNonCritical(u: Ups, cfg: Config, ws: seq<string>, news: bool, now: int)
    requires OnBatt in u.status && LowBatt in u.status && Cal !in u.status
    requires !Status.Says(ws, OL) && !Status.Says(ws, CAL)
    ensures !SomeNonCritical(u, cfg, ws, news, now)
    decreases |ws|
  {
    if ws != [] {
      var w := WordOf(ws[0]);
      var u' := ApplyWord(u, cfg, w, news, now);
      Status.SaysHead(ws, OL);
      Status.SaysHead(ws, CAL);
      Status.SpellingsApart(ws[0], OL);
      Status.SpellingsApart(ws[0], CAL);
      WordOnBattery(u, cfg, w, news, now);
      Status.ApplyWordSets(u, cfg, w, news, now, LowBatt);
      Status.ApplyWordSets(u, cfg, w, news, now, Cal);
      NeverNonCritical(UpdateCritTimer(u', now), cfg, ws[1..], news, now);
    }
  }

  lemma OutageNotReassuring(u: Ups, es: seq<Event>, n: nat)
    requires Outage(u, es) && 0 < n < |es|
    ensures !Reassured(u, es, n)
  {
    if es[n].op.Poll? {
      var r := es[n].op.report;
      var v := Run(u, es[..n]).(throttleState := ERR_NONE, throttleCount := -1);
      OutageLasts(u, es, n);
      BeforeWordsLink(v, r, es[n].now);
      Status.BeforeWordsKeeps(v, r, es[n].now, LowBatt);
      Status.BeforeWordsKeeps(v, r, es[n].now, Cal);
      NeverNonCritical(BeforeWords(v, r, es[n].now), es[n].cfg, Split(r.status), r.alarmNews, es[n].now);
    }
  }

  /** The HOSTSYNC clock stands where the first report of the outage left it. */
  lemma {:induction false} ClockStands(u: Ups, es: seq<Event>, n: nat)
    requires Outage(u, es) && 0 < n <= |es|
    ensures Run(u, es[..n]).lastnoncrit == Run(u, es[..1]).lastnoncrit
    decreases n
  {
    if n > 1 {
      TimerAt(u, es, n - 1);
      OutageNotReassuring(u, es, n - 1);
      ClockStands(u, es, n - 1);
    }
  }

  lemma FirstWordNotBoth(u: Ups, cfg: Config, w: Word, news: bool, now: int)
    requires OnBatt !in u.status && LowBatt !in u.status
    ensures NonCritical(ApplyWord(u, cfg, w, news, now))
  {
    if w != OL {
      WordOnBattery(u, cfg, w, news, now);
    }
    Status.ApplyWordSets(u, cfg, w, news, now, LowBatt);
  }

  /** For a UPS that was neither on battery nor low, that is the time of the report. */
  lemma FreshOutageSetsClock(u: Ups, es: seq<Event>)
    requires Outage(u, es) && OnBatt !in u.status && LowBatt !in u.status
    ensures Run(u, es[..1]).lastnoncrit == es[0].now
  {
    var r := es[0].op.report;
    var v := u.(throttleState := ERR_NONE, throttleCount := -1);
    assert es[..0] == [];
    BeforeWordsLink(v, r, es[0].now);
    Status.BeforeWordsKeeps(v, r, es[0].now, LowBatt);
    FirstWordNotBoth(BeforeWords(v, r, es[0].now), es[0].cfg, WordOf(Split(r.status)[0]), r.alarmNews, es[0].now);
    assert Reassured(u, es, 0);
    TimerAt(u, es, 0);
  }

  /** What a judgement says once no delay holds it up. */
  function Due(primary: bool, e: Event, since: int): Verdict {
    if primary then PrimaryOnLowBattery
    else if e.now - since > e.cfg.hostsync then PrimaryNeverActed
    else WaitingForPrimary
  }

  lemma JudgedUnderDelay(u: Ups, es: seq<Event>, k: nat)
    requires Outage(u, es) && 0 < k < |es| && es[k].op.Recalc?
    requires Run(u, es[..k]).oblbsince > 0 || !DelayInForce(es[k])
    ensures VerdictAt(u, es, k) ==
            if DelayInForce(es[k]) && es[k].now - Run(u, es[..k]).oblbsince < es[k].cfg.oblbduration then DelayRunning
            else Due(Primary in u.status, es[k], Run(u, es[..1]).lastnoncrit)
  {
    OutageLasts(u, es, k);
    ClockStands(u, es, k);
    JudgedInOutage(Run(u, es[..k]), es[k]);
  }

  lemma JudgedInOutage(u: Ups, e: Event)
    requires InOutage(u) && e.op.Recalc? && (u.oblbsince > 0 || !DelayInForce(e))
    ensures Judge(PromoteDead(u, e.cfg, e.now), e.cfg, e.now) ==
            if DelayInForce(e) && e.now - u.oblbsince < e.cfg.oblbduration then DelayRunning
            else Due(Primary in u.status, e, u.lastnoncrit)
  {
  }

  lemma OutageStaysLow(u: Ups, es: seq<Event>, i: nat, n: nat)
    requires Outage(u, es) && n <= |es|
    ensures StayedLow(u, es, i, n)
  {
    forall j: nat | i < j < n
      ensures LowAt(u, es, j)
    {
      if es[j].op.Recalc? {
        OutageVerdict(u, es, j);
      }
    }
  }

  // ----- the timelines -----

  predicate NoneInForce(es: seq<Event>, n: nat)
    requires n <= |es|
  {
    forall j :: 0 < j < n ==> !DelayInForce(es[j])
  }

  /** Step i is the first judgement of the outage with a delay in force. */
  predicate FirstInForce(es: seq<Event>, i: nat) {
    0 < i < |es| && DelayInForce(es[i]) && NoneInForce(es, i)
  }

  lemma NotStarted(u: Ups, e: Event)
    requires e.op.Poll? || (e.op.Recalc? && !DelayInForce(e))
    requires u.oblbsince < 1
    ensures Apply(u, e).oblbsince < 1
  {
    if e.op.Poll? {
      PollKeepsDelay(u, e);
    }
  }

  lemma {:induction false} NoDelayYet(u: Ups, es: seq<Event>, n: nat)
    requires Outage(u, es) && u.oblbsince < 1 && 0 < n <= |es| && NoneInForce(es, n)
    ensures Run(u, es[..n]).oblbsince < 1
    decreases n
  {
    StepAt(u, es, n - 1);
    if n == 1 {
      assert es[..0] == [];
      NotStarted(u, es[0]);
    } else {
      NoDelayYet(u, es, n - 1);
      NotStarted(Run(u, es[..n - 1]), es[n - 1]);
    }
  }

  lemma FirstJudged(u: Ups, e: Event)
    requires InOutage(u) && u.oblbsince < 1 && DelayInForce(e)
    ensures Judge(PromoteDead(u, e.cfg, e.now), e.cfg, e.now) == DelayStarted
  {
  }

  lemma DelayBeginsAt(u: Ups, es: seq<Event>, i: nat)
    requires Outage(u, es) && u.oblbsince < 1 && FirstInForce(es, i)
    ensures StartsDelay(u, es, i)
  {
    NoDelayYet(u, es, i);
    OutageLasts(u, es, i);
    FirstJudged(Run(u, es[..i]), es[i]);
  }

  /** An outage that finds no delay running: the first judgement with OBLBDURATION in force starts
      it, and every later one waits exactly until that many seconds have passed; then a primary is
      critical, and a secondary by its HOSTSYNC clock. */
  lemma OutageTimeline(u: Ups, es: seq<Event>, i: nat, k: nat)
    requires Outage(u, es) && u.oblbsince < 1 && FirstInForce(es, i) && i < k < |es| && es[k].op.Recalc?
    ensures VerdictAt(u, es, i) == DelayStarted
    ensures VerdictAt(u, es, k) ==
            if DelayInForce(es[k]) && es[k].now - es[i].now < es[k].cfg.oblbduration then DelayRunning
            else Due(Primary in u.status, es[k], Run(u, es[..1]).lastnoncrit)
  {
    DelayBeginsAt(u, es, i);
    OutageStaysLow(u, es, i, k);
    DelayKept(u, es, i, k);
    JudgedUnderDelay(u, es, k);
  }

  /** The same for an outage that finds a delay running, since `u.oblbsince`. */
  lemma OutageUnderDelay(u: Ups, es: seq<Event>, k: nat)
    requires Outage(u, es) && u.oblbsince > 0 && 0 < k < |es| && es[k].op.Recalc?
    ensures VerdictAt(u, es, k) ==
            if DelayInForce(es[k]) && es[k].now - u.oblbsince < es[k].cfg.oblbduration then DelayRunning
            else Due(Primary in u.status, es[k], Run(u, es[..1]).lastnoncrit)
  {
    assert es[..0] == [];
    StepAt(u, es, 0);
    PollKeepsDelay(u, es[0]);
    OutageStaysLow(u, es, 0, k);
    DelayPersists(u, es, u.oblbsince, 0, k);
    JudgedUnderDelay(u, es, k);
  }

  /** Without OBLBDURATION a primary is critical at once, and a secondary that was on line before the
      outage exactly when HOSTSYNC seconds have passed since its first report. */
  lemma OutageWithoutDelay(u: Ups, es: seq<Event>, k: nat)
    requires Outage(u, es) && 0 < k < |es| && es[k].op.Recalc? && !DelayInForce(es[k])
    ensures Primary in u.status ==> VerdictAt(u, es, k) == PrimaryOnLowBattery
    ensures Primary !in u.status && OnBatt !in u.status && LowBatt !in u.status ==>
              VerdictAt(u, es, k) == if es[k].now - es[0].now > es[k].cfg.hostsync then PrimaryNeverActed else WaitingForPrimary
  {
    JudgedUnderDelay(u, es, k);
    if OnBatt !in u.status && LowBatt !in u.status {
      FreshOutageSetsClock(u, es);
    }
  }
}
