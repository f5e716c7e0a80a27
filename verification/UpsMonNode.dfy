// The record of one UPS in clients/upsmon.c, updated in place by its handlers. Every method is
// proved to do to the fields what the function of the same name in module UpsMon says.
module UpsMonNode {
  import opened Text
  import opened UpsMon

  class UpsNode {
    const sys: string
    var pv: nat
    var un: string
    var pw: string
    var status: set<Flag>
    var retain: bool
    var commstate: int
    var linestate: int
    var offstate: int
    var bypassstate: int
    var ecostate: int
    var alarmstate: int
    var overstate: int
    var throttleCount: int
    var throttleState: int
    var lastpoll: int
    var lastnoncrit: int
    var lastrbwarn: int
    var lastncwarn: int
    var offsince: int
    var oblbsince: int
    var oversince: int
    ghost var log: seq<Notice>
    var next: UpsNode?

    ghost function View(): Ups
      reads this
    {
      Ups(sys, pv, un, pw, status, retain, commstate, linestate, offstate, bypassstate, ecostate, alarmstate, overstate,
          throttleCount, throttleState, lastpoll, lastnoncrit, lastrbwarn, lastncwarn, offsince, oblbsince, oversince,
          log)
    }

    constructor (sys: string, pv: nat, un: string, pw: string, primary: bool)
      ensures View() == NewUps(sys, pv, un, pw, primary) && next == null
    {
      this.sys, this.pv, this.un, this.pw := sys, pv, un, pw;
      status := if primary then {Primary} else {};
      retain := true;
      commstate, linestate, offstate, bypassstate, ecostate, alarmstate, overstate := -1, -1, -1, -1, -1, -1, -1;
      throttleCount, throttleState := -1, ERR_NONE;
      lastpoll, lastnoncrit, lastrbwarn, lastncwarn := 0, 0, 0, 0;
      offsince, oblbsince, oversince := 0, 0, 0;
      log, next := [], null;
    }

    /** do_notify: only the fact that it happened is kept. */
    method Notify(n: Notice)
      modifies `log
      ensures View() == UpsMon.Notify(old(View()), n)
    {
      log := log + [n];
    }

    method SetFlag(f: Flag)
      modifies `status
      ensures View() == UpsMon.SetFlag(old(View()), f)
    {
      status := status + {f};
    }

    method ClearFlag(f: Flag)
      modifies `status
      ensures View() == UpsMon.ClearFlag(old(View()), f)
    {
      status := status - {f};
    }

    method UpsIsAlive(now: int)
      modifies this
      ensures View() == UpsMon.UpsIsAlive(old(View()), now) && next == old(next)
    {
      lastpoll := now;
      if commstate == 1 { return; }
      if commstate == 0 {
        Notify(CommOk);
      }
      commstate := 1;
    }

    method UpsIsGone(cfg: Config, now: int)
      modifies this
      ensures View() == UpsMon.UpsIsGone(old(View()), cfg, now) && next == old(next)
    {
      if commstate != 0 {
        commstate := 0;
        Notify(CommBad);
        return;
      }
      if now - lastpoll < cfg.nocommwarntime { return; }
      if now - lastncwarn > cfg.nocommwarntime {
        Notify(NoComm);
        lastncwarn := now;
      }
    }

    method UpsIsOff(cfg: Config, now: int)
      modifies this
      ensures View() == UpsMon.UpsIsOff(old(View()), cfg, now) && next == old(next)
    {
      if Off in status {
        if offsince < 1 {
          offsince := now;
        } else if cfg.offduration > 0 && now - offsince > cfg.offduration {
          offstate := 1;
        }
        return;
      }
      offsince := now;
      if cfg.offduration == 0 {
        offstate := 1;
      }
      Notify(NowOff);
      SetFlag(Off);
    }

    method UpsIsNotOff()
      modifies this
      ensures View() == UpsMon.UpsIsNotOff(old(View())) && next == old(next)
    {
      offsince := 0;
      offstate := 0;
      if Off in status {
        Notify(NotOff);
        ClearFlag(Off);
      }
    }

    method UpsIsBypass()
      modifies this
      ensures View() == UpsMon.UpsIsBypass(old(View())) && next == old(next)
    {
      if Bypass in status { return; }
      bypassstate := 1;
      Notify(NowBypass);
      SetFlag(Bypass);
    }

    method UpsIsNotBypass()
      modifies this
      ensures View() == UpsMon.UpsIsNotBypass(old(View())) && next == old(next)
    {
      bypassstate := 0;
      if Bypass in status {
        Notify(NotBypass);
        ClearFlag(Bypass);
      }
    }

    method UpsIsEco()
      modifies this
      ensures View() == UpsMon.UpsIsEco(old(View())) && next == old(next)
    {
      if Eco in status { return; }
      ecostate := 1;
      Notify(NowEco);
      SetFlag(Eco);
    }

    method UpsIsNotEco()
      modifies this
      ensures View() == UpsMon.UpsIsNotEco(old(View())) && next == old(next)
    {
      ecostate := 0;
      if Eco in status {
        Notify(NotEco);
        ClearFlag(Eco);
      }
    }

    method UpsIsAlarm(news: bool)
      modifies this
      ensures View() == UpsMon.UpsIsAlarm(old(View()), news) && next == old(next)
    {
      if Alarm in status {
        if news {
          Notify(NowAlarm);
        }
        return;
      }
      alarmstate := 1;
      Notify(NowAlarm);
      SetFlag(Alarm);
    }

    method UpsIsNotAlarm()
      modifies this
      ensures View() == UpsMon.UpsIsNotAlarm(old(View())) && next == old(next)
    {
      alarmstate := 0;
      if Alarm in status {
        Notify(NotAlarm);
        ClearFlag(Alarm);
      }
    }

    method UpsOnBatt()
      modifies this
      ensures View() == UpsMon.UpsOnBatt(old(View())) && next == old(next)
    {
      if OnBatt in status { return; }
      linestate := 0;
      Notify(NowOnBatt);
      SetFlag(OnBatt);
      ClearFlag(Online);
    }

    method UpsOnLine()
      modifies this
      ensures View() == UpsMon.UpsOnLine(old(View())) && next == old(next)
    {
      if Online in status { return; }
      if linestate != -1 {
        Notify(NowOnline);
      }
      linestate := 1;
      SetFlag(Online);
      ClearFlag(OnBatt);
    }

    method UpsLowBatt()
      modifies this
      ensures View() == UpsMon.UpsLowBatt(old(View())) && next == old(next)
    {
      if LowBatt in status { return; }
      Notify(NowLowBatt);
      SetFlag(LowBatt);
    }

    method UpsReplBatt(cfg: Config, now: int)
      modifies this
      ensures View() == UpsMon.UpsReplBatt(old(View()), cfg, now) && next == old(next)
    {
      if now - lastrbwarn > cfg.rbwarntime {
        Notify(ReplBatt);
        lastrbwarn := now;
      }
    }

    method UpsIsOver(now: int)
      modifies this
      ensures View() == UpsMon.UpsIsOver(old(View()), now) && next == old(next)
    {
      if Over in status {
        if oversince < 1 {
          oversince := now;
        }
        return;
      }
      oversince := now;
      overstate := 1;
      Notify(NowOver);
      SetFlag(Over);
    }

    method UpsIsNotOver()
      modifies this
      ensures View() == UpsMon.UpsIsNotOver(old(View())) && next == old(next)
    {
      oversince := 0;
      overstate := 0;
      if Over in status {
        Notify(NotOver);
        ClearFlag(Over);
      }
    }

    method UpsIsCal()
      modifies this
      ensures View() == UpsMon.UpsIsCal(old(View())) && next == old(next)
    {
      if Cal in status { return; }
      Notify(NowCal);
      SetFlag(Cal);
    }

    method UpsIsNotCal()
      modifies this
      ensures View() == UpsMon.UpsIsNotCal(old(View())) && next == old(next)
    {
      if Cal in status {
        Notify(NotCal);
        ClearFlag(Cal);
      }
    }

    method UpsIsTrim()
      modifies this
      ensures View() == UpsMon.UpsIsTrim(old(View())) && next == old(next)
    {
      if Trim in status { return; }
      Notify(NowTrim);
      SetFlag(Trim);
    }

    method UpsIsNotTrim()
      modifies this
      ensures View() == UpsMon.UpsIsNotTrim(old(View())) && next == old(next)
    {
      if Trim in status {
        Notify(NotTrim);
        ClearFlag(Trim);
      }
    }

    method UpsIsBoost()
      modifies this
      ensures View() == UpsMon.UpsIsBoost(old(View())) && next == old(next)
    {
      if Boost in status { return; }
      Notify(NowBoost);
      SetFlag(Boost);
    }

    method UpsIsNotBoost()
      modifies this
      ensures View() == UpsMon.UpsIsNotBoost(old(View())) && next == old(next)
    {
      if Boost in status {
        Notify(NotBoost);
        ClearFlag(Boost);
      }
    }

    method UpsFsd()
      modifies this
      ensures View() == UpsMon.UpsFsd(old(View())) && next == old(next)
    {
      if Fsd in status { return; }
      Notify(NowFsd);
      SetFlag(Fsd);
    }

    method DropConnection()
      modifies this
      ensures View() == UpsMon.DropConnection(old(View())) && next == old(next)
    {
      commstate := 0;
      throttleCount := -1;
      throttleState := ERR_NONE;
      ClearFlag(Login);
      ClearFlag(CliConnected);
    }

    method UpdateCritTimer(now: int)
      modifies this
      ensures View() == UpsMon.UpdateCritTimer(old(View()), now) && next == old(next)
    {
      if OnBatt !in status || LowBatt !in status || Cal in status {
        lastnoncrit := now;
      }
    }

    /** One word of the status */
    method ApplyWord(cfg: Config, statword: string, alarmNews: bool, now: int)
      modifies this
      ensures View() == UpsMon.ApplyWord(old(View()), cfg, WordOf(statword), alarmNews, now) && next == old(next)
    {
      match WordOf(statword) {
        case OL => UpsOnLine();
        case OB => UpsOnBatt();
        case LB => UpsLowBatt();
        case RB => UpsReplBatt(cfg, now);
        case CAL => UpsIsCal();
        case OFF => UpsIsOff(cfg, now);
        case BYPASS => UpsIsBypass();
        case ECO => UpsIsEco();
        case ALARM => UpsIsAlarm(alarmNews);
        case OVER => UpsIsOver(now);
        case TRIM => UpsIsTrim();
        case BOOST => UpsIsBoost();
        case FSD => UpsFsd();
        case NoReaction =>
      }
    }

    /** The tests for conditions that have disappeared from the status */
    method ClearIfAbsent(status: string, f: Flag)
      requires Reported(f)
      modifies this
      ensures View() == UpsMon.ClearIfAbsent(old(View()), status, f) && next == old(next)
    {
      var here := HasInfix(status, Spelling(Name(f)));
      if here { return; }
      match f {
        case LowBatt => ClearFlag(LowBatt);
        case Fsd => ClearFlag(Fsd);
        case Cal => UpsIsNotCal();
        case Off => UpsIsNotOff();
        case Bypass => UpsIsNotBypass();
        case Alarm => UpsIsNotAlarm();
        case Over => UpsIsNotOver();
        case Trim => UpsIsNotTrim();
        case Boost => UpsIsNotBoost();
      }
    }

    method BeforeWords(r: Report, now: int)
      modifies this
      ensures View() == UpsMon.BeforeWords(old(View()), r, now) && next == old(next)
    {
      UpsIsAlive(now);
      ClearIfAbsent(r.status, LowBatt);
      ClearIfAbsent(r.status, Fsd);
      ClearIfAbsent(r.status, Cal);
      ClearIfAbsent(r.status, Off);
      ClearIfAbsent(r.status, Bypass);
      ClearIfAbsent(r.status, Alarm);
      ClearIfAbsent(r.status, Over);
      ClearIfAbsent(r.status, Trim);
      ClearIfAbsent(r.status, Boost);
      var isEcoBuzzword := PassesForEco(r.buzzword);
      if !isEcoBuzzword {
        isEcoBuzzword := PassesForEco(r.buzzwordX);
      }
      var here := HasInfix(r.status, "ECO");
      if !here && !isEcoBuzzword {
        UpsIsNotEco();
      } else if isEcoBuzzword {
        UpsIsEco();
      }
    }

    /** parse_status */
    method ParseStatus(cfg: Config, r: Report, now: int)
      modifies this
      ensures View() == UpsMon.ParseStatus(old(View()), cfg, r, now) && next == old(next)
    {
      if r.status == "" {
        UpsIsGone(cfg, now);
        return;
      }
      BeforeWords(r, now);
      ghost var want := ApplyWords(View(), cfg, Split(r.status), r.alarmNews, now);
      var statword: Option<string> := Some(r.status);
      while statword.Some?
        invariant next == old(next)
        invariant want == if statword.None? then View() else ApplyWords(View(), cfg, Split(statword.value), r.alarmNews, now)
        decreases if statword.None? then 0 else |statword.value| + 1
      {
        var word, rest := CutAtSpace(statword.value);
        ApplyWord(cfg, word, r.alarmNews, now);
        UpdateCritTimer(now);
        statword := rest;
      }
    }

    /** The bookkeeping of pollups after a failed poll; whether the failure is logged */
    method PollFailed(cfg: Config, code: int, lost: bool, now: int) returns (logged: bool)
      modifies this
      ensures View() == UpsMon.PollFailed(old(View()), cfg, code, lost, now) && next == old(next)
      ensures logged == Throttle(old(throttleCount), old(throttleState), cfg.throttleMax, code).logged
    {
      if cfg.throttleMax < 0 {
        logged := true;
      } else if throttleState == code {
        if cfg.throttleMax == 0 {
          logged := false;
        } else {
          var count := throttleCount;
          throttleCount := throttleCount + 1;
          if count >= cfg.throttleMax - 1 {
            logged := true;
            throttleCount := 0;
          } else {
            logged := false;
          }
        }
      } else {
        throttleState := code;
        throttleCount := 0;
        logged := true;
      }
      UpsIsGone(cfg, now);
      if lost {
        DropConnection();
      }
    }

    /** pollups after an answered poll */
    method PollSucceeded(cfg: Config, r: Report, now: int)
      modifies this
      ensures View() == UpsMon.PollSucceeded(old(View()), cfg, r, now) && next == old(next)
    {
      throttleState := ERR_NONE;
      throttleCount := -1;
      ParseStatus(cfg, r, now);
    }

    /** is_ups_critical */
    method IsUpsCritical(cfg: Config, now: int) returns (critical: bool)
      modifies this
      ensures View() == AfterJudge(old(View()), cfg, now) && next == old(next)
      ensures critical == Critical(Judge(old(View()), cfg, now))
    {
      if Fsd in status { return true; }
      if commstate == 0 {
        if overstate == 1 || Over in status {
          if cfg.overduration >= 0 {
            if !(now > 0 && now - oversince < cfg.overduration) { return true; }
          }
        }
        if alarmstate == 1 || Alarm in status {
          if cfg.alarmcritical == 1 { return true; }
        }
        if Cal in status { return true; }
        if bypassstate == 1 || Bypass in status { return true; }
        if offstate == 1 || (cfg.offduration >= 0 && Off in status) { return true; }
      }
      if Off in status && cfg.offduration >= 0 && offstate == 1 { return true; }
      if OnBatt !in status || LowBatt !in status {
        if oblbsince > 0 {
          oblbsince := 0;
        }
        return false;
      }
      if Cal in status { return false; }
      if cfg.oblbduration > 0 {
        if oblbsince < 1 && now > 0 {
          oblbsince := now;
          return false;
        }
        if now > 0 && now - oblbsince < cfg.oblbduration { return false; }
      }
      if Primary in status { return true; }
      if now - lastnoncrit > cfg.hostsync { return true; }
      return false;
    }

    /** The part of recalc that concerns one UPS */
    method Recalc(cfg: Config, now: int) returns (critical: bool)
      modifies this
      ensures var u := PromoteDead(old(View()), cfg, now);
              View() == AfterJudge(u, cfg, now) && critical == Critical(Judge(u, cfg, now))
      ensures next == old(next)
    {
      if now - lastpoll > cfg.deadtime {
        if OnBatt in status {
          SetFlag(LowBatt);
        }
      }
      critical := IsUpsCritical(cfg, now);
    }

    method Reconnect()
      modifies this
      ensures View() == UpsMon.Reconnect(old(View())) && next == old(next)
    {
      if Login !in status {
        DropConnection();
      }
    }

    method ChangeLogin(un: string, pw: string)
      modifies this
      ensures View() == UpsMon.ChangeLogin(old(View()), un, pw) && next == old(next)
    {
      if this.un != un {
        this.un := un;
        Reconnect();
      }
      if this.pw != pw {
        this.pw := pw;
        Reconnect();
      }
    }

    method ChangeRole(option: string)
      modifies this
      ensures View() == UpsMon.ChangeRole(old(View()), option) && next == old(next)
    {
      if NamesPrimary(option) && Primary !in status {
        SetFlag(Primary);
        DropConnection();
        return;
      }
      if NamesSecondary(option) && Primary in status {
        ClearFlag(Primary);
      }
    }

    /** redefine_ups, but for the running total */
    method Redefine(pv: nat, un: string, pw: string, option: string)
      modifies this
      ensures View() == UpsMon.Redefine(old(View()), pv, un, pw, option) && next == old(next)
    {
      retain := true;
      if this.pv != pv {
        this.pv := pv;
      }
      ChangeLogin(un, pw);
      ChangeRole(option);
    }
  }

  /** The four searches in a mode buzzword, as they are combined */
  method PassesForEco(buzzword: string) returns (passes: bool)
    ensures passes == Efficient(buzzword)
  {
    if buzzword == "" {
      return false;
    }
    var eco := HasInfix(buzzword, ":ECO");
    var ess := HasInfix(buzzword, ":ESS");
    var he := HasInfix(buzzword, ":HE");
    var smart := HasInfix(buzzword, ":SMART");
    return !eco || !ess || !he || !smart;
  }

  /** strstr(hay, needle) != NULL */
  method HasInfix(hay: string, needle: string) returns (found: bool)
    ensures found == Contains(hay, needle)
  {
    var i := 0;
    while i <= |hay|
      invariant i <= |hay| + 1
      invariant forall k: nat :: k < i ==> !OccursAt(hay, needle, k)
    {
      if i + |needle| <= |hay| && hay[i..i + |needle|] == needle {
        assert OccursAt(hay, needle, i);
        return true;
      }
      i := i + 1;
    }
    return false;
  }

  /** Cuts a text at its first space: the word before it and, if there is a space, what follows. */
  method CutAtSpace(text: string) returns (word: string, rest: Option<string>)
    ensures Split(text) == [word] + if rest.None? then [] else Split(rest.value)
    ensures rest.Some? ==> |rest.value| < |text|
  {
    var i := 0;
    while i < |text| && text[i] != ' '
      invariant i <= |text| && ' ' !in text[..i]
    {
      assert text[..i + 1] == text[..i] + [text[i]];
      i := i + 1;
    }
    SplitCut(text, i);
    if i == |text| {
      return text, None;
    }
    return text[..i], Some(text[i + 1..]);
  }

  lemma SplitCut(text: string, i: nat)
    requires i <= |text| && ' ' !in text[..i] && (i < |text| ==> text[i] == ' ')
    ensures if i == |text| then Split(text) == [text] else Split(text) == [text[..i]] + Split(text[i + 1..])
  {
    if i == |text| {
      assert text[..i] == text && text + "" == text;
      SplitWord(text, "", false);
    } else {
      assert text == text[..i] + (" " + text[i + 1..]);
      SplitWord(text[..i], text[i + 1..], true);
    }
  }

  lemma {:induction false} SplitWord(w: string, rest: string, more: bool)
    requires ' ' !in w && (!more ==> rest == "")
    ensures Split(w + if more then " " + rest else "") == [w] + if more then Split(rest) else []
    decreases |w|
  {
    var tail := if more then " " + rest else "";
    if w == "" {
      assert w + tail == tail;
      if more {
        assert tail[1..] == rest;
      }
    } else {
      assert w[0] in w;
      SplitWord(w[1..], rest, more);
      assert (w + tail)[0] == w[0] && (w + tail)[1..] == w[1..] + tail;
      assert [w[0]] + w[1..] == w;
    }
  }
}
