// When a UPS is judged critical: what the delays of clients/upsmon.c promise over every run.
module UpsMonSafety {
  import opened UpsMon
  import opened UpsMonRuns

  // ----- on line and on battery exclude each other -----

  lemma {:induction false} ApplyWordsKeepLine(u: Ups, cfg: Config, ws: seq<string>, news: bool, now: int)
    requires !(Online in u.status && OnBatt in u.status)
    ensures var u' := ApplyWords(u, cfg, ws, news, now); !(Online in u'.status && OnBatt in u'.status)
    decreases |ws|
  {
    if ws != [] {
      ApplyWordKeepsLine(u, cfg, WordOf(ws[0]), news, now);
      ApplyWordsKeepLine(UpdateCritTimer(ApplyWord(u, cfg, WordOf(ws[0]), news, now), now), cfg, ws[1..], news, now);
    }
  }

  lemma ApplyWordKeepsLine(u: Ups, cfg: Config, w: Word, news: bool, now: int)
    requires !(Online in u.status && OnBatt in u.status)
    ensures var u' := ApplyWord(u, cfg, w, news, now); !(Online in u'.status && OnBatt in u'.status)
  {
  }

  lemma ClearIfAbsentKeeps(u: Ups, status: string, g: Flag)
    requires Reported(g)
    ensures ClearIfAbsent(u, status, g).status <= u.status
    ensures ClearIfAbsent(u, status, g).lastnoncrit == u.lastnoncrit
    ensures ClearIfAbsent(u, status, g).oblbsince == u.oblbsince
  {
  }

  lemma ClearThreeKeep(u: Ups, status: string, a: Flag, b: Flag, c: Flag)
    requires Reported(a) && Reported(b) && Reported(c)
    ensures var u' := ClearIfAbsent(ClearIfAbsent(ClearIfAbsent(u, status, a), status, b), status, c);
            u'.status <= u.status && u'.lastnoncrit == u.lastnoncrit && u'.oblbsince == u.oblbsince
  {
    var u1 := ClearIfAbsent(u, status, a);
    ClearIfAbsentKeeps(u, status, a);
    ClearIfAbsentKeeps(u1, status, b);
    ClearIfAbsentKeeps(ClearIfAbsent(u1, status, b), status, c);
  }

  /** Before the words are looked at, a status can only clear flags, but for the ECO mode. */
  lemma BeforeWordsKeeps(u: Ups, r: Report, now: int)
    ensures var u' := BeforeWords(u, r, now);
            u'.status <= u.status + {Eco} && u'.lastnoncrit == u.lastnoncrit && u'.oblbsince == u.oblbsince
  {
    var u0 := UpsIsAlive(u, now);
    ClearThreeKeep(u0, r.status, LowBatt, Fsd, Cal);
    var u1 := ClearAbsent1(u0, r.status);
    ClearThreeKeep(u1, r.status, Off, Bypass, Alarm);
    var u2 := ClearAbsent2(u1, r.status);
    ClearThreeKeep(u2, r.status, Over, Trim, Boost);
  }

  lemma {:induction false} NeverOnLineAndOnBattery(start: Ups, es: seq<Event>)
    requires Added(start)
    ensures var u := Run(start, es); !(Online in u.status && OnBatt in u.status)
  {
    if es != [] {
      var u, e := Run(start, es[..|es| - 1]), es[|es| - 1];
      NeverOnLineAndOnBattery(start, es[..|es| - 1]);
      match e.op
      case Poll(r) =>
        if r.status != "" {
          var u := u.(throttleState := ERR_NONE, throttleCount := -1);
          BeforeWordsKeeps(u, r, e.now);
          ApplyWordsKeepLine(BeforeWords(u, r, e.now), e.cfg, Split(r.status), r.alarmNews, e.now);
        }
      case Recalc => RecalcFlags(u, e.cfg, e.now);
      case _ => OtherFlags(u, e);
    }
  }

  lemma RecalcFlags(u: Ups, cfg: Config, now: int)
    ensures AfterJudge(PromoteDead(u, cfg, now), cfg, now).status <= u.status + {LowBatt}
    ensures OnBatt !in u.status ==> AfterJudge(PromoteDead(u, cfg, now), cfg, now).status == u.status
  {
  }

  lemma OtherFlags(u: Ups, e: Event)
    requires !e.op.Poll? && !e.op.Recalc?
    ensures Apply(u, e).status <= u.status + {Primary, Login, CliConnected}
    ensures Apply(u, e).lastnoncrit == u.lastnoncrit && Apply(u, e).oblbsince == u.oblbsince
  {
    match e.op
    case Reconfigure(pv, un, pw, option) => RedefineFlags(u, pv, un, pw, option);
    case _ =>
  }

  lemma RedefineFlags(u: Ups, pv: nat, un: string, pw: string, option: string)
    ensures var u' := Redefine(u, pv, un, pw, option);
            u'.status <= u.status + {Primary} && u'.lastnoncrit == u.lastnoncrit && u'.oblbsince == u.oblbsince
  {
  }

  // ----- a UPS never heard from is taken for on line -----

  predicate Unheard(es: seq<Event>) {
    forall k :: 0 <= k < |es| && es[k].op.Poll? ==> es[k].op.report.status == ""
  }

  predicate Blank(u: Ups) {
    && u.status <= {Primary, Login, CliConnected}
    && u.offstate == u.bypassstate == u.alarmstate == u.overstate == -1
  }

  lemma BlankNotCritical(u: Ups, cfg: Config, now: int)
    requires Blank(u)
    ensures !Critical(Judge(PromoteDead(u, cfg, now), cfg, now))
    ensures Blank(AfterJudge(PromoteDead(u, cfg, now), cfg, now))
  {
  }

  lemma GoneStaysBlank(u: Ups, e: Event)
    requires Blank(u) && !e.op.Recalc? && (e.op.Poll? ==> e.op.report.status == "")
    ensures Blank(Apply(u, e))
  {
    match e.op
    case Reconfigure(pv, un, pw, option) => RedefineStaysBlank(u, pv, un, pw, option);
    case _ =>
  }

  lemma RedefineStaysBlank(u: Ups, pv: nat, un: string, pw: string, option: string)
    requires Blank(u)
    ensures Blank(Redefine(u, pv, un, pw, option))
  {
  }

  /** A UPS of which no non-empty status was ever parsed is never critical, in any run. */
  lemma {:induction false} NeverHeardNeverCritical(start: Ups, es: seq<Event>, cfg: Config, now: int)
    requires Added(start) && Unheard(es)
    ensures !Critical(Judge(PromoteDead(Run(start, es), cfg, now), cfg, now))
    ensures Blank(Run(start, es))
    decreases |es|
  {
    if es != [] {
      var u, e := Run(start, es[..|es| - 1]), es[|es| - 1];
      NeverHeardNeverCritical(start, es[..|es| - 1], cfg, now);
      if e.op.Recalc? {
        BlankNotCritical(u, e.cfg, e.now);
      } else {
        GoneStaysBlank(u, e);
      }
    }
    BlankNotCritical(Run(start, es), cfg, now);
  }

  // ----- values that change from step to step -----

  /** A value that no step after step i changes. */
  lemma {:induction false} Persists(value: nat -> int, since: int, i: nat, n: nat)
    requires i < n && value(i + 1) == since
    requires forall m: nat :: i < m < n && value(m) == since ==> value(m + 1) == since
    ensures value(n) == since
    decreases n
  {
    if i + 1 < n {
      Persists(value, since, i, n - 1);
    }
  }

  /** A value that is not below t and that no step takes below it. */
  lemma {:induction false} StaysAbove(value: nat -> int, k: nat, n: nat, t: int)
    requires k <= n && value(k) >= t && forall m: nat :: k <= m < n && value(m) >= t ==> value(m + 1) >= t
    ensures value(n) >= t
    decreases n
  {
    if k < n {
      StaysAbove(value, k, n - 1, t);
    }
  }

  /** The last step before n that changed the value. */
  lemma {:induction false} LastChange(value: nat -> int, n: nat) returns (k: nat)
    requires value(n) != value(0)
    ensures k < n && value(k) != value(k + 1) && forall m: nat :: k < m <= n ==> value(m) == value(n)
    decreases n
  {
    k := n - 1;
    if value(k) == value(n) {
      k := LastChange(value, n - 1);
    }
  }

  // ----- the OBLBDURATION delay -----

  /** Step k is a judgement that started the delay. */
  predicate StartsDelay(start: Ups, es: seq<Event>, k: nat) {
    k < |es| && es[k].op.Recalc? && VerdictAt(start, es, k) == DelayStarted
  }

  /** Step j is not a judgement that found the UPS outside OB+LB with nothing else wrong. */
  predicate LowAt(start: Ups, es: seq<Event>, j: nat)
    requires j < |es|
  {
    es[j].op.Recalc? ==> VerdictAt(start, es, j) != NotOnLowBattery
  }

  /** No step after i and before n is one. */
  predicate StayedLow(start: Ups, es: seq<Event>, i: nat, n: nat)
    requires n <= |es|
  {
    forall j: nat {:trigger LowAt(start, es, j)} :: i < j < n ==> LowAt(start, es, j)
  }

  /** The delay timer after the first m steps. */
  function DelayTimer(start: Ups, es: seq<Event>): nat -> int {
    (m: nat) => if m <= |es| then Run(start, es[..m]).oblbsince else 0
  }

  /** While the delay timer runs there is a judgement that started it at the recorded time. */
  lemma DelayHasStart(start: Ups, es: seq<Event>, n: nat) returns (i: nat)
    requires Added(start) && n <= |es| && Run(start, es[..n]).oblbsince > 0
    ensures i < n && StartsDelay(start, es, i) && StayedLow(start, es, i, n)
    ensures es[i].now == Run(start, es[..n]).oblbsince
  {
    i := LastChange(DelayTimer(start, es), n);
    DelayChanged(start, es, i);
    forall j: nat | i < j < n
      ensures LowAt(start, es, j)
    {
      LowWhileRunning(start, es, j, DelayTimer(start, es)(n));
    }
  }

  lemma DelayChanged(start: Ups, es: seq<Event>, i: nat)
    requires i < |es| && DelayTimer(start, es)(i) != DelayTimer(start, es)(i + 1) && DelayTimer(start, es)(i + 1) > 0
    ensures StartsDelay(start, es, i) && es[i].now == DelayTimer(start, es)(i + 1)
  {
    if StartsDelay(start, es, i) {
      DelayBegins(start, es, i);
    } else {
      DelayCarriedOver(start, es, i);
    }
  }

  lemma LowWhileRunning(start: Ups, es: seq<Event>, j: nat, since: int)
    requires j < |es| && DelayTimer(start, es)(j + 1) == since > 0
    ensures LowAt(start, es, j)
  {
    if !StartsDelay(start, es, j) {
      DelayCarriedOver(start, es, j);
    }
  }

  lemma DelayCarriedOver(start: Ups, es: seq<Event>, n: nat)
    requires n < |es| && Run(start, es[..n + 1]).oblbsince > 0 && !StartsDelay(start, es, n)
    ensures Run(start, es[..n]).oblbsince == Run(start, es[..n + 1]).oblbsince
    ensures LowAt(start, es, n)
  {
    var u, e := Run(start, es[..n]), es[n];
    StepAt(start, es, n);
    if e.op.Poll? {
      PollKeepsDelay(u, e);
    } else if e.op.Recalc? {
      JudgedCarriesOver(PromoteDead(u, e.cfg, e.now), e.cfg, e.now);
    } else {
      OtherFlags(u, e);
    }
  }

  lemma JudgedCarriesOver(u: Ups, cfg: Config, now: int)
    requires AfterJudge(u, cfg, now).oblbsince > 0 && Judge(u, cfg, now) != DelayStarted
    ensures AfterJudge(u, cfg, now).oblbsince == u.oblbsince && Judge(u, cfg, now) != NotOnLowBattery
  {
  }

  lemma PollKeepsDelay(u: Ups, e: Event)
    requires e.op.Poll?
    ensures Apply(u, e).oblbsince == u.oblbsince
  {
    var r := e.op.report;
    if r.status != "" {
      var u := u.(throttleState := ERR_NONE, throttleCount := -1);
      BeforeWordsKeeps(u, r, e.now);
      ApplyWordsKeepDelay(BeforeWords(u, r, e.now), e.cfg, Split(r.status), r.alarmNews, e.now);
    }
  }

  lemma {:induction false} ApplyWordsKeepDelay(u: Ups, cfg: Config, ws: seq<string>, news: bool, now: int)
    ensures ApplyWords(u, cfg, ws, news, now).oblbsince == u.oblbsince
    decreases |ws|
  {
    if ws != [] {
      ApplyWordKeepsTimers(u, cfg, WordOf(ws[0]), news, now);
      ApplyWordsKeepDelay(UpdateCritTimer(ApplyWord(u, cfg, WordOf(ws[0]), news, now), now), cfg, ws[1..], news, now);
    }
  }

  /** With OBLBDURATION in force, a UPS becomes critical for OB+LB only if an earlier judgement, at
      least that many seconds before, started the delay, and every judgement in between either saw
      OB+LB or was decided by an earlier clause. */
  lemma LowBatteryOutlastsDelay(start: Ups, es: seq<Event>, k: nat)
    requires Added(start) && k < |es| && es[k].op.Recalc?
    requires es[k].cfg.oblbduration > 0 && es[k].now > 0
    ensures ByLowBattery(VerdictAt(start, es, k)) ==>
              exists i: nat :: i < k && StartsDelay(start, es, i) && StayedLow(start, es, i, k)
                && es[k].now - es[i].now >= es[k].cfg.oblbduration
  {
    if ByLowBattery(VerdictAt(start, es, k)) {
      var i := DelayHasStart(start, es, k);
    }
  }

  /** The clauses for a UPS on low battery: no earlier one decided. */
  predicate OnLowBattery(v: Verdict) {
    v.DelayStarted? || v.DelayRunning? || v.PrimaryOnLowBattery? || v.PrimaryNeverActed? || v.WaitingForPrimary?
  }

  /** The delay is in force at a judgement. */
  predicate DelayInForce(e: Event) {
    e.op.Recalc? && e.cfg.oblbduration > 0 && e.now > 0
  }

  lemma JudgementKeepsDelay(u: Ups, cfg: Config, now: int)
    requires u.oblbsince > 0 && Judge(u, cfg, now) != NotOnLowBattery
    ensures AfterJudge(u, cfg, now).oblbsince == u.oblbsince
  {
  }

  lemma DelayStep(start: Ups, es: seq<Event>, n: nat)
    requires n < |es| && LowAt(start, es, n) && Run(start, es[..n]).oblbsince > 0
    ensures Run(start, es[..n + 1]).oblbsince == Run(start, es[..n]).oblbsince
  {
    var u, e := Run(start, es[..n]), es[n];
    StepAt(start, es, n);
    if e.op.Poll? {
      PollKeepsDelay(u, e);
    } else if e.op.Recalc? {
      JudgementKeepsDelay(PromoteDead(u, e.cfg, e.now), e.cfg, e.now);
    } else {
      OtherFlags(u, e);
    }
  }

  lemma DelayBegins(start: Ups, es: seq<Event>, i: nat)
    requires StartsDelay(start, es, i)
    ensures Run(start, es[..i + 1]).oblbsince == es[i].now > 0
  {
    StepAt(start, es, i);
    JudgementStartsDelay(PromoteDead(Run(start, es[..i]), es[i].cfg, es[i].now), es[i].cfg, es[i].now);
  }

  lemma JudgementStartsDelay(u: Ups, cfg: Config, now: int)
    requires Judge(u, cfg, now) == DelayStarted
    ensures AfterJudge(u, cfg, now).oblbsince == now > 0
  {
  }

  lemma LowKeepsDelay(start: Ups, es: seq<Event>, i: nat, n: nat, m: nat)
    requires i < m < n <= |es| && StayedLow(start, es, i, n)
    ensures Run(start, es[..m]).oblbsince > 0 ==> Run(start, es[..m + 1]).oblbsince == Run(start, es[..m]).oblbsince
  {
    if Run(start, es[..m]).oblbsince > 0 {
      assert LowAt(start, es, m);
      DelayStep(start, es, m);
    }
  }

  lemma DelaySteps(start: Ups, es: seq<Event>, since: int, i: nat, n: nat)
    requires i < n <= |es| && StayedLow(start, es, i, n) && since > 0
    ensures forall m: nat :: i < m < n && DelayTimer(start, es)(m) == since ==> DelayTimer(start, es)(m + 1) == since
  {
    forall m: nat | i < m < n && DelayTimer(start, es)(m) == since
      ensures DelayTimer(start, es)(m + 1) == since
    {
      LowKeepsDelay(start, es, i, n, m);
    }
  }

  /** A running delay keeps its beginning for as long as no judgement finds the UPS outside OB+LB. */
  lemma DelayPersists(start: Ups, es: seq<Event>, since: int, i: nat, n: nat)
    requires i < n <= |es| && StayedLow(start, es, i, n) && Run(start, es[..i + 1]).oblbsince == since > 0
    ensures Run(start, es[..n]).oblbsince == since
  {
    DelaySteps(start, es, since, i, n);
    Persists(DelayTimer(start, es), since, i, n);
  }

  lemma DelayKept(start: Ups, es: seq<Event>, i: nat, n: nat)
    requires i < n <= |es| && StartsDelay(start, es, i) && StayedLow(start, es, i, n)
    ensures Run(start, es[..n]).oblbsince == es[i].now > 0
  {
    DelayBegins(start, es, i);
    DelayPersists(start, es, es[i].now, i, n);
  }

  lemma DelayDecides(u: Ups, cfg: Config, now: int)
    requires u.oblbsince > 0 && OnLowBattery(Judge(PromoteDead(u, cfg, now), cfg, now))
    ensures var v := Judge(PromoteDead(u, cfg, now), cfg, now);
            if cfg.oblbduration > 0 && now > 0 && now - u.oblbsince < cfg.oblbduration then v == DelayRunning
            else if Primary in u.status then v == PrimaryOnLowBattery
            else v == if now - u.lastnoncrit > cfg.hostsync then PrimaryNeverActed else WaitingForPrimary
  {
  }

  /** The converse over every run: after the judgement that started the delay, and while none finds
      the UPS outside OB+LB, a judgement no earlier clause decides waits exactly until OBLBDURATION
      seconds have passed since, and then a primary is critical. */
  lemma DelayRunsItsTime(start: Ups, es: seq<Event>, i: nat, k: nat)
    requires i < k < |es| && DelayInForce(es[k])
    ensures StartsDelay(start, es, i) && StayedLow(start, es, i, k) && OnLowBattery(VerdictAt(start, es, k)) ==>
              var waited := es[k].now - es[i].now >= es[k].cfg.oblbduration;
              && (VerdictAt(start, es, k) == DelayRunning <==> !waited)
              && (VerdictAt(start, es, k) == PrimaryOnLowBattery <==> waited && Primary in Run(start, es[..k]).status)
  {
    if StartsDelay(start, es, i) && StayedLow(start, es, i, k) && OnLowBattery(VerdictAt(start, es, k)) {
      DelayKept(start, es, i, k);
      DelayDecides(Run(start, es[..k]), es[k].cfg, es[k].now);
    }
  }

  /** What the verdict excluded there means: nothing earlier in the list of clauses applied, and the
      UPS was not both on battery and low. */
  lemma OutsideLowBattery(u: Ups, cfg: Config, now: int)
    ensures Judge(u, cfg, now) == NotOnLowBattery ==>
              !(OnBatt in u.status && LowBatt in u.status) && !Critical(Judge(u, cfg, now))
    ensures !Critical(Judge(u, cfg, now)) && !(OnBatt in u.status && LowBatt in u.status) ==>
              Judge(u, cfg, now) == NotOnLowBattery
  {
  }

  // ----- the HOSTSYNC wait of a secondary -----

  /** Some word, when it had been processed, left the UPS outside OB and LB, or calibrating. */
  predicate SomeNonCritical(u: Ups, cfg: Config, ws: seq<string>, news: bool, now: int)
    decreases |ws|
  {
    ws != [] && (
      var u' := ApplyWord(u, cfg, WordOf(ws[0]), news, now);
      NonCritical(u') || SomeNonCritical(UpdateCritTimer(u', now), cfg, ws[1..], news, now))
  }

  /** Step k parsed a status of which some word left the UPS uncritical. */
  predicate Reassured(start: Ups, es: seq<Event>, k: nat) {
    && k < |es| && es[k].op.Poll? && es[k].op.report.status != ""
    && var u := Run(start, es[..k]).(throttleState := ERR_NONE, throttleCount := -1);
       var r := es[k].op.report;
       SomeNonCritical(BeforeWords(u, r, es[k].now), es[k].cfg, Split(r.status), r.alarmNews, es[k].now)
  }

  lemma {:induction false} ApplyWordsTiming(u: Ups, cfg: Config, ws: seq<string>, news: bool, now: int)
    ensures ApplyWords(u, cfg, ws, news, now).lastnoncrit ==
            if SomeNonCritical(u, cfg, ws, news, now) then now else u.lastnoncrit
    decreases |ws|
  {
    if ws != [] {
      var u' := ApplyWord(u, cfg, WordOf(ws[0]), news, now);
      ApplyWordKeepsTimers(u, cfg, WordOf(ws[0]), news, now);
      ApplyWordsTiming(UpdateCritTimer(u', now), cfg, ws[1..], news, now);
    }
  }

  lemma ApplyWordKeepsTimers(u: Ups, cfg: Config, w: Word, news: bool, now: int)
    ensures ApplyWord(u, cfg, w, news, now).lastnoncrit == u.lastnoncrit
    ensures ApplyWord(u, cfg, w, news, now).oblbsince == u.oblbsince
  {
  }

  /** A poll moves the timer when some word left the UPS uncritical. */
  lemma PollTiming(u: Ups, cfg: Config, r: Report, now: int)
    ensures var v := u.(throttleState := ERR_NONE, throttleCount := -1);
            PollSucceeded(u, cfg, r, now).lastnoncrit ==
            if r.status != "" && SomeNonCritical(BeforeWords(v, r, now), cfg, Split(r.status), r.alarmNews, now) then now
            else u.lastnoncrit
  {
    var v := u.(throttleState := ERR_NONE, throttleCount := -1);
    if r.status != "" {
      BeforeWordsKeeps(v, r, now);
      ApplyWordsTiming(BeforeWords(v, r, now), cfg, Split(r.status), r.alarmNews, now);
    }
  }

  lemma OtherTiming(u: Ups, e: Event)
    requires !e.op.Poll?
    ensures Apply(u, e).lastnoncrit == u.lastnoncrit
  {
    if !e.op.Recalc? {
      OtherFlags(u, e);
    }
  }

  /** Only a reassuring poll moves the timer. */
  lemma TimerAt(start: Ups, es: seq<Event>, n: nat)
    requires n < |es|
    ensures Run(start, es[..n + 1]).lastnoncrit ==
            if Reassured(start, es, n) then es[n].now else Run(start, es[..n]).lastnoncrit
  {
    var u, e := Run(start, es[..n]), es[n];
    StepAt(start, es, n);
    if e.op.Poll? {
      PollTiming(u, e.cfg, e.op.report, e.now);
    } else {
      OtherTiming(u, e);
    }
  }

  predicate ClockRuns(es: seq<Event>) {
    forall i, j :: 0 <= i < j < |es| ==> es[i].now <= es[j].now
  }

  /** The HOSTSYNC timer after the first m steps. */
  function HostTimer(start: Ups, es: seq<Event>): nat -> int {
    (m: nat) => if m <= |es| then Run(start, es[..m]).lastnoncrit else 0
  }

  lemma TimerMoves(start: Ups, es: seq<Event>, n: nat)
    requires n < |es|
    ensures HostTimer(start, es)(n + 1) == if Reassured(start, es, n) then es[n].now else HostTimer(start, es)(n)
  {
    TimerAt(start, es, n);
  }

  /** While the clock does not run back, the timer does not fall behind either. */
  lemma TimerNotBehind(start: Ups, es: seq<Event>, k: nat, n: nat, t: int)
    requires k <= n <= |es| && t <= HostTimer(start, es)(k)
    requires forall j :: k <= j < n ==> t <= es[j].now
    ensures t <= HostTimer(start, es)(n)
  {
    forall m: nat | k <= m < n && HostTimer(start, es)(m) >= t
      ensures HostTimer(start, es)(m + 1) >= t
    {
      TimerMoves(start, es, m);
    }
    StaysAbove(HostTimer(start, es), k, n, t);
  }

  /** The timer stems from a reassurance, unless there never was one. */
  lemma TimerHasSource(start: Ups, es: seq<Event>, n: nat) returns (k: nat)
    requires Added(start) && n <= |es| && Run(start, es[..n]).lastnoncrit != 0
    ensures k < n && Reassured(start, es, k) && es[k].now == Run(start, es[..n]).lastnoncrit
  {
    k := LastChange(HostTimer(start, es), n);
    TimerMoves(start, es, k);
  }

  /** A secondary gives up on its primary only if it was not reassured in the last HOSTSYNC seconds. */
  lemma SecondaryGivesUpAfterHostsync(start: Ups, es: seq<Event>, k: nat, i: nat)
    requires ClockRuns(es) && i < k < |es| && es[k].op.Recalc?
    ensures VerdictAt(start, es, k) == PrimaryNeverActed && Reassured(start, es, i) ==>
              es[k].now - es[i].now > es[k].cfg.hostsync
  {
    if Reassured(start, es, i) {
      TimerAt(start, es, i);
      TimerNotBehind(start, es, i + 1, k, es[i].now);
      SecondaryVerdicts(Run(start, es[..k]), es[k].cfg, es[k].now);
    }
  }

  /** A secondary that still waits was reassured within HOSTSYNC seconds, or it never was at all and
      its clock stands within HOSTSYNC of zero. */
  lemma SecondaryWaitsWithinHostsync(start: Ups, es: seq<Event>, k: nat)
    requires Added(start) && k < |es| && es[k].op.Recalc?
    ensures VerdictAt(start, es, k) == WaitingForPrimary ==>
              es[k].now <= es[k].cfg.hostsync ||
              exists i: nat :: i < k && Reassured(start, es, i) && es[k].now - es[i].now <= es[k].cfg.hostsync
  {
    SecondaryVerdicts(Run(start, es[..k]), es[k].cfg, es[k].now);
    if VerdictAt(start, es, k) == WaitingForPrimary && Run(start, es[..k]).lastnoncrit != 0 {
      var i := TimerHasSource(start, es, k);
    }
  }

  /** No step after i and before n reassured the UPS. */
  predicate Unreassured(start: Ups, es: seq<Event>, i: nat, n: nat) {
    forall j: nat {:trigger Reassured(start, es, j)} :: i < j < n ==> !Reassured(start, es, j)
  }

  lemma TimerKept(start: Ups, es: seq<Event>, i: nat, n: nat)
    requires i < n <= |es| && Reassured(start, es, i) && Unreassured(start, es, i, n)
    ensures Run(start, es[..n]).lastnoncrit == es[i].now
  {
    TimerAt(start, es, i);
    TimerPersists(start, es, es[i].now, i, n);
  }

  lemma UnreassuredKeeps(start: Ups, es: seq<Event>, i: nat, n: nat, m: nat)
    requires i < m < n <= |es| && Unreassured(start, es, i, n)
    ensures Run(start, es[..m + 1]).lastnoncrit == Run(start, es[..m]).lastnoncrit
  {
    assert !Reassured(start, es, m);
    TimerAt(start, es, m);
  }

  lemma TimerSteps(start: Ups, es: seq<Event>, since: int, i: nat, n: nat)
    requires i < n <= |es| && Unreassured(start, es, i, n)
    ensures forall m: nat :: i < m < n && HostTimer(start, es)(m) == since ==> HostTimer(start, es)(m + 1) == since
  {
    forall m: nat | i < m < n && HostTimer(start, es)(m) == since
      ensures HostTimer(start, es)(m + 1) == since
    {
      UnreassuredKeeps(start, es, i, n, m);
    }
  }

  lemma TimerPersists(start: Ups, es: seq<Event>, since: int, i: nat, n: nat)
    requires i < n <= |es| && Unreassured(start, es, i, n) && Run(start, es[..i + 1]).lastnoncrit == since
    ensures Run(start, es[..n]).lastnoncrit == since
  {
    TimerSteps(start, es, since, i, n);
    Persists(HostTimer(start, es), since, i, n);
  }

  /** A secondary that no earlier clause decides gives up exactly when HOSTSYNC seconds have passed
      since the last reassurance. */
  lemma SecondaryWaitsItsTime(start: Ups, es: seq<Event>, i: nat, k: nat)
    requires i < k < |es| && es[k].op.Recalc?
    ensures Reassured(start, es, i) && Unreassured(start, es, i, k) &&
            VerdictAt(start, es, k) in {PrimaryNeverActed, WaitingForPrimary} ==>
              (VerdictAt(start, es, k) == PrimaryNeverActed <==> es[k].now - es[i].now > es[k].cfg.hostsync)
  {
    if Reassured(start, es, i) && Unreassured(start, es, i, k) {
      TimerKept(start, es, i, k);
      SecondaryVerdicts(Run(start, es[..k]), es[k].cfg, es[k].now);
    }
  }

  lemma SecondaryVerdicts(u: Ups, cfg: Config, now: int)
    ensures var v := Judge(PromoteDead(u, cfg, now), cfg, now);
            && (v == PrimaryNeverActed ==> now - u.lastnoncrit > cfg.hostsync)
            && (v == WaitingForPrimary ==> now - u.lastnoncrit <= cfg.hostsync)
  {
  }

  // ----- how often a repeated poll failure is logged -----

  /** The throttling state after n failures with the same code. */
  function ThrottleAfter(count: int, state: int, max: int, code: int, n: nat): Throttled {
    if n == 0 then Throttled(false, count, state)
    else
      var t := ThrottleAfter(count, state, max, code, n - 1);
      Throttle(t.count, t.state, max, code)
  }

  lemma {:induction false} ThrottleCounts(count: int, state: int, max: int, code: int, n: nat)
    requires max > 0 && state != code && n > 0
    ensures ThrottleAfter(count, state, max, code, n) == Throttled((n - 1) % max == 0, (n - 1) % max, code)
    decreases n
  {
    if n > 1 {
      ThrottleCounts(count, state, max, code, n - 1);
      ModNext(n - 2, max);
    }
  }

  lemma ModNext(k: nat, max: int)
    requires max > 0
    ensures (k + 1) % max == if k % max == max - 1 then 0 else k % max + 1
  {
    var q, r := k / max, k % max;
    assert k == q * max + r;
    if r == max - 1 {
      assert k + 1 == (q + 1) * max;
      ModUnique(k + 1, q + 1, 0, max);
    } else {
      ModUnique(k + 1, q, r + 1, max);
    }
  }

  lemma ModUnique(k: int, q: int, r: int, max: int)
    requires max > 0 && 0 <= r < max && k == q * max + r
    ensures k % max == r
  {
    var d := k / max - q;
    assert d * max == r - k % max;
    MultipleGrows(d, max);
  }

  lemma MultipleGrows(d: int, max: int)
    requires max > 0
    ensures d >= 1 ==> d * max >= max
    ensures d <= -1 ==> d * max <= -max
  {
  }

  /** Failure number k, counted from 0, of a run of failures with one code that was not the code of
      the last failure before: logged every POLLFAIL_LOG_THROTTLE_MAX times, only first, or always. */
  lemma LoggedEveryMax(count: int, state: int, max: int, code: int, k: nat)
    requires state != code
    ensures ThrottleAfter(count, state, max, code, k + 1).logged <==>
            if max > 0 then k % max == 0 else if max == 0 then k == 0 else true
    decreases k
  {
    if max > 0 {
      ThrottleCounts(count, state, max, code, k + 1);
    } else if max == 0 {
      QuietAfterFirst(count, state, code, k + 1);
    }
  }

  lemma {:induction false} QuietAfterFirst(count: int, state: int, code: int, n: nat)
    requires state != code && n > 0
    ensures ThrottleAfter(count, state, 0, code, n) == Throttled(n == 1, 0, code)
  {
    if n > 1 {
      QuietAfterFirst(count, state, code, n - 1);
    }
  }

  /** Polls fail with one code while the connection lasts, and the UPS is judged in between. */
  predicate FailureRun(es: seq<Event>, code: int, max: int) {
    forall j :: 0 <= j < |es| ==>
      es[j].op.Recalc? || (es[j].op == PollFail(code, false) && es[j].cfg.throttleMax == max)
  }

  function Failures(es: seq<Event>): nat {
    if es == [] then 0 else Failures(es[..|es| - 1]) + if es[|es| - 1].op.PollFail? then 1 else 0
  }

  /** Step k is a poll failure that is logged. */
  predicate LoggedAt(start: Ups, es: seq<Event>, k: nat)
    requires k < |es|
  {
    && es[k].op.PollFail?
    && var u := Run(start, es[..k]);
       Throttle(u.throttleCount, u.throttleState, es[k].cfg.throttleMax, es[k].op.code).logged
  }

  lemma FailureCounters(u: Ups, e: Event)
    requires e.op.Recalc? || (e.op.PollFail? && !e.op.lost)
    ensures var u' := Apply(u, e);
            if e.op.Recalc? then u'.throttleCount == u.throttleCount && u'.throttleState == u.throttleState
            else
              var t := Throttle(u.throttleCount, u.throttleState, e.cfg.throttleMax, e.op.code);
              u'.throttleCount == t.count && u'.throttleState == t.state
  {
  }

  /** The throttling counters of the record are those of `t`. */
  predicate CountersAre(u: Ups, t: Throttled) {
    u.throttleCount == t.count && u.throttleState == t.state
  }

  lemma CountersStep(u: Ups, e: Event, start: Ups, code: int, max: int, n: nat)
    requires e.op.Recalc? || (e.op == PollFail(code, false) && e.cfg.throttleMax == max)
    requires CountersAre(u, ThrottleAfter(start.throttleCount, start.throttleState, max, code, n))
    ensures CountersAre(Apply(u, e), ThrottleAfter(start.throttleCount, start.throttleState, max, code,
                                                   if e.op.PollFail? then n + 1 else n))
  {
    FailureCounters(u, e);
  }

  lemma {:induction false} FailuresThrottle(start: Ups, es: seq<Event>, code: int, max: int)
    requires FailureRun(es, code, max)
    ensures CountersAre(Run(start, es), ThrottleAfter(start.throttleCount, start.throttleState, max, code, Failures(es)))
    decreases |es|
  {
    if es != [] {
      var front, e := es[..|es| - 1], es[|es| - 1];
      FailuresThrottle(start, front, code, max);
      CountersStep(Run(start, front), e, start, code, max, Failures(front));
    }
  }

  /** In a run of failures with one code, which was not the code of the failure before, the failure
      that comes after n others of the run is logged exactly when n is a multiple of
      POLLFAIL_LOG_THROTTLE_MAX; with a maximum of zero only the first, with a negative one all. */
  lemma FailureLoggedEveryMax(start: Ups, es: seq<Event>, code: int, max: int, k: nat)
    requires FailureRun(es, code, max) && start.throttleState != code
    requires k < |es| && es[k].op.PollFail?
    ensures var n := Failures(es[..k]);
            LoggedAt(start, es, k) <==> if max > 0 then n % max == 0 else if max == 0 then n == 0 else true
  {
    var front := es[..k];
    FailuresThrottle(start, front, code, max);
    LoggedEveryMax(start.throttleCount, start.throttleState, max, code, Failures(front));
  }
}
