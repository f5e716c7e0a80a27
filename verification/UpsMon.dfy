// The decision machine of clients/upsmon.c for one UPS, as functions of its record: what a polled
// status does to it, when it is judged critical, and everything else that changes the record.
// The clock is read once per step and is an input, like the configuration in force.
module UpsMon {
  import opened Text

  datatype Flag =
    | Online | OnBatt | LowBatt | Fsd | Primary | Login | CliConnected | Cal
    | Off | Bypass | Eco | Alarm | Other | Over | Trim | Boost

  datatype Notice =
    | NowOnline | NowOnBatt | NowLowBatt | NowFsd | CommOk | CommBad | ReplBatt | NoComm
    | NowCal | NotCal | NowOff | NotOff | NowBypass | NotBypass | NowEco | NotEco
    | NowAlarm | NotAlarm | NowOver | NotOver | NowTrim | NotTrim | NowBoost | NotBoost

  datatype Config = Config(
    deadtime: int, offduration: int, oblbduration: int, hostsync: int, rbwarntime: int, nocommwarntime: int,
    overduration: int, alarmcritical: int, throttleMax: int, minsupplies: nat)

  /** utype_t, and the notifications sent about this UPS so far. */
  datatype Ups = Ups(
    sys: string, pv: nat, un: string, pw: string, status: set<Flag>, retain: bool,
    commstate: int, linestate: int, offstate: int, bypassstate: int, ecostate: int, alarmstate: int, overstate: int,
    throttleCount: int, throttleState: int,
    lastpoll: int, lastnoncrit: int, lastrbwarn: int, lastncwarn: int,
    offsince: int, oblbsince: int, oversince: int,
    log: seq<Notice>)

  /** UPSCLI_ERR_NONE */
  const ERR_NONE: int := 0

  /** A record as addups fills it in. */
  function NewUps(sys: string, pv: nat, un: string, pw: string, primary: bool): Ups {
    Ups(sys, pv, un, pw, if primary then {Primary} else {}, true, -1, -1, -1, -1, -1, -1, -1, -1, ERR_NONE,
        0, 0, 0, 0, 0, 0, 0, [])
  }

  function Notify(u: Ups, n: Notice): Ups {
    u.(log := u.log + [n])
  }

  function SetFlag(u: Ups, f: Flag): Ups {
    u.(status := u.status + {f})
  }

  function ClearFlag(u: Ups, f: Flag): Ups {
    u.(status := u.status - {f})
  }

  // ----- communication -----

  function UpsIsAlive(u: Ups, now: int): Ups {
    var u := u.(lastpoll := now);
    if u.commstate == 1 then u
    else if u.commstate == 0 then Notify(u, CommOk).(commstate := 1)
    else u.(commstate := 1)
  }

  function UpsIsGone(u: Ups, cfg: Config, now: int): Ups {
    if u.commstate != 0 then Notify(u, CommBad).(commstate := 0)
    else if now - u.lastpoll < cfg.nocommwarntime then u
    else if now - u.lastncwarn > cfg.nocommwarntime then Notify(u, NoComm).(lastncwarn := now)
    else u
  }

  function DropConnection(u: Ups): Ups {
    u.(commstate := 0, throttleCount := -1, throttleState := ERR_NONE, status := u.status - {Login} - {CliConnected})
  }

  // ----- conditions reported in the status -----

  function UpsIsOff(u: Ups, cfg: Config, now: int): Ups {
    if Off in u.status then
      if u.offsince < 1 then u.(offsince := now)
      else if cfg.offduration > 0 && now - u.offsince > cfg.offduration then u.(offstate := 1)
      else u
    else
      var u := u.(offsince := now, offstate := if cfg.offduration == 0 then 1 else u.offstate);
      SetFlag(Notify(u, NowOff), Off)
  }

  function UpsIsNotOff(u: Ups): Ups {
    var u := u.(offsince := 0, offstate := 0);
    if Off in u.status then ClearFlag(Notify(u, NotOff), Off) else u
  }

  function UpsIsBypass(u: Ups): Ups {
    if Bypass in u.status then u else SetFlag(Notify(u, NowBypass), Bypass).(bypassstate := 1)
  }

  function UpsIsNotBypass(u: Ups): Ups {
    var u := u.(bypassstate := 0);
    if Bypass in u.status then ClearFlag(Notify(u, NotBypass), Bypass) else u
  }

  function UpsIsEco(u: Ups): Ups {
    if Eco in u.status then u else SetFlag(Notify(u, NowEco), Eco).(ecostate := 1)
  }

  function UpsIsNotEco(u: Ups): Ups {
    var u := u.(ecostate := 0);
    if Eco in u.status then ClearFlag(Notify(u, NotEco), Eco) else u
  }

  /** `news`: an alarm text was fetched and differs from the one reported last. */
  function UpsIsAlarm(u: Ups, news: bool): Ups {
    if Alarm in u.status then if news then Notify(u, NowAlarm) else u
    else SetFlag(Notify(u, NowAlarm), Alarm).(alarmstate := 1)
  }

  function UpsIsNotAlarm(u: Ups): Ups {
    var u := u.(alarmstate := 0);
    if Alarm in u.status then ClearFlag(Notify(u, NotAlarm), Alarm) else u
  }

  function UpsOnBatt(u: Ups): Ups {
    if OnBatt in u.status then u
    else ClearFlag(SetFlag(Notify(u, NowOnBatt), OnBatt), Online).(linestate := 0)
  }

  function UpsOnLine(u: Ups): Ups {
    if Online in u.status then u
    else
      var u := if u.linestate != -1 then Notify(u, NowOnline) else u;
      ClearFlag(SetFlag(u, Online), OnBatt).(linestate := 1)
  }

  function UpsLowBatt(u: Ups): Ups {
    if LowBatt in u.status then u else SetFlag(Notify(u, NowLowBatt), LowBatt)
  }

  function UpsReplBatt(u: Ups, cfg: Config, now: int): Ups {
    if now - u.lastrbwarn > cfg.rbwarntime then Notify(u, ReplBatt).(lastrbwarn := now) else u
  }

  function UpsIsCal(u: Ups): Ups {
    if Cal in u.status then u else SetFlag(Notify(u, NowCal), Cal)
  }

  function UpsIsNotCal(u: Ups): Ups {
    if Cal in u.status then ClearFlag(Notify(u, NotCal), Cal) else u
  }

  function UpsIsOver(u: Ups, now: int): Ups {
    if Over in u.status then if u.oversince < 1 then u.(oversince := now) else u
    else SetFlag(Notify(u, NowOver), Over).(oversince := now, overstate := 1)
  }

  function UpsIsNotOver(u: Ups): Ups {
    var u := u.(oversince := 0, overstate := 0);
    if Over in u.status then ClearFlag(Notify(u, NotOver), Over) else u
  }

  function UpsIsTrim(u: Ups): Ups {
    if Trim in u.status then u else SetFlag(Notify(u, NowTrim), Trim)
  }

  function UpsIsNotTrim(u: Ups): Ups {
    if Trim in u.status then ClearFlag(Notify(u, NotTrim), Trim) else u
  }

  function UpsIsBoost(u: Ups): Ups {
    if Boost in u.status then u else SetFlag(Notify(u, NowBoost), Boost)
  }

  function UpsIsNotBoost(u: Ups): Ups {
    if Boost in u.status then ClearFlag(Notify(u, NotBoost), Boost) else u
  }

  function UpsFsd(u: Ups): Ups {
    if Fsd in u.status then u else SetFlag(Notify(u, NowFsd), Fsd)
  }

  // ----- parse_status -----

  /** The pieces between single spaces; two spaces in a row enclose an empty piece. */
  function Split(s: string): (r: seq<string>)
    ensures |r| > 0
    decreases |s|
  {
    if s == "" then [""]
    else
      var rest := Split(s[1..]);
      if s[0] == ' ' then [""] + rest else [[s[0]] + rest[0]] + rest[1..]
  }

  /** The status words upsmon reacts to. */
  datatype Word = OL | OB | LB | RB | CAL | OFF | BYPASS | ECO | ALARM | OVER | TRIM | BOOST | FSD | NoReaction

  function Spelling(w: Word): string {
    match w
    case OL => "OL" case OB => "OB" case LB => "LB" case RB => "RB" case CAL => "CAL" case OFF => "OFF"
    case BYPASS => "BYPASS" case ECO => "ECO" case ALARM => "ALARM" case OVER => "OVER" case TRIM => "TRIM"
    case BOOST => "BOOST" case FSD => "FSD" case NoReaction => ""
  }

  /** The conditions whose flag follows the status from poll to poll, and their words. */
  predicate Reported(f: Flag) {
    f in {LowBatt, Fsd, Cal, Off, Bypass, Alarm, Over, Trim, Boost}
  }

  function Name(f: Flag): Word
    requires Reported(f)
  {
    match f
    case LowBatt => LB
    case Fsd => FSD
    case Cal => CAL
    case Off => OFF
    case Bypass => BYPASS
    case Alarm => ALARM
    case Over => OVER
    case Trim => TRIM
    case Boost => BOOST
  }

  /** What the reports that come with a status say besides its words. */
  datatype Report = Report(status: string, buzzword: string, buzzwordX: string, alarmNews: bool)

  /** The test of a mode buzzword: any text passes that lacks one of the four marks. */
  predicate Efficient(buzzword: string) {
    && buzzword != ""
    && !(Contains(buzzword, ":ECO") && Contains(buzzword, ":ESS") && Contains(buzzword, ":HE") && Contains(buzzword, ":SMART"))
  }

  predicate InEcoMode(r: Report) {
    Efficient(r.buzzword) || Efficient(r.buzzwordX)
  }

  function ClearIfAbsent(u: Ups, status: string, f: Flag): Ups
    requires Reported(f)
  {
    if Contains(status, Spelling(Name(f))) then u
    else match f
      case LowBatt => ClearFlag(u, LowBatt)
      case Fsd => ClearFlag(u, Fsd)
      case Cal => UpsIsNotCal(u)
      case Off => UpsIsNotOff(u)
      case Bypass => UpsIsNotBypass(u)
      case Alarm => UpsIsNotAlarm(u)
      case Over => UpsIsNotOver(u)
      case Trim => UpsIsNotTrim(u)
      case Boost => UpsIsNotBoost(u)
  }

  /** The tests for disappeared conditions, in the order of parse_status. */
  function ClearAbsent(u: Ups, status: string): Ups {
    ClearAbsent3(ClearAbsent2(ClearAbsent1(u, status), status), status)
  }

  function ClearAbsent1(u: Ups, status: string): Ups {
    ClearIfAbsent(ClearIfAbsent(ClearIfAbsent(u, status, LowBatt), status, Fsd), status, Cal)
  }

  function ClearAbsent2(u: Ups, status: string): Ups {
    ClearIfAbsent(ClearIfAbsent(ClearIfAbsent(u, status, Off), status, Bypass), status, Alarm)
  }

  function ClearAbsent3(u: Ups, status: string): Ups {
    ClearIfAbsent(ClearIfAbsent(ClearIfAbsent(u, status, Over), status, Trim), status, Boost)
  }

  function EcoMode(u: Ups, r: Report): Ups {
    if !Contains(r.status, "ECO") && !InEcoMode(r) then UpsIsNotEco(u)
    else if InEcoMode(r) then UpsIsEco(u)
    else u
  }

  function WordOf(s: string): Word {
    if SameIgnoringCase(s, "OL") then OL
    else if SameIgnoringCase(s, "OB") then OB
    else if SameIgnoringCase(s, "LB") then LB
    else if SameIgnoringCase(s, "RB") then RB
    else if SameIgnoringCase(s, "CAL") then CAL
    else if SameIgnoringCase(s, "OFF") then OFF
    else if SameIgnoringCase(s, "BYPASS") then BYPASS
    else if SameIgnoringCase(s, "ECO") then ECO
    else if SameIgnoringCase(s, "ALARM") then ALARM
    else if SameIgnoringCase(s, "OVER") then OVER
    else if SameIgnoringCase(s, "TRIM") then TRIM
    else if SameIgnoringCase(s, "BOOST") then BOOST
    else if SameIgnoringCase(s, "FSD") then FSD
    else NoReaction
  }

  function ApplyWord(u: Ups, cfg: Config, w: Word, alarmNews: bool, now: int): Ups {
    match w
    case OL => UpsOnLine(u)
    case OB => UpsOnBatt(u)
    case LB => UpsLowBatt(u)
    case RB => UpsReplBatt(u, cfg, now)
    case CAL => UpsIsCal(u)
    case OFF => UpsIsOff(u, cfg, now)
    case BYPASS => UpsIsBypass(u)
    case ECO => UpsIsEco(u)
    case ALARM => UpsIsAlarm(u, alarmNews)
    case OVER => UpsIsOver(u, now)
    case TRIM => UpsIsTrim(u)
    case BOOST => UpsIsBoost(u)
    case FSD => UpsFsd(u)
    case NoReaction => u
  }

  /** Not on battery, or the battery is not low, or the UPS is calibrating. */
  predicate NonCritical(u: Ups) {
    OnBatt !in u.status || LowBatt !in u.status || Cal in u.status
  }

  function UpdateCritTimer(u: Ups, now: int): Ups {
    if NonCritical(u) then u.(lastnoncrit := now) else u
  }

  function ApplyWords(u: Ups, cfg: Config, ws: seq<string>, alarmNews: bool, now: int): Ups
    decreases |ws|
  {
    if ws == [] then u
    else ApplyWords(UpdateCritTimer(ApplyWord(u, cfg, WordOf(ws[0]), alarmNews, now), now), cfg, ws[1..], alarmNews, now)
  }

  /** The record when the loop over the words begins. */
  function BeforeWords(u: Ups, r: Report, now: int): Ups {
    EcoMode(ClearAbsent(UpsIsAlive(u, now), r.status), r)
  }

  function ParseStatus(u: Ups, cfg: Config, r: Report, now: int): Ups {
    if r.status == "" then UpsIsGone(u, cfg, now)
    else ApplyWords(BeforeWords(u, r, now), cfg, Split(r.status), r.alarmNews, now)
  }

  // ----- poll failures -----

  datatype Throttled = Throttled(logged: bool, count: int, state: int)

  /** Whether a failure with this code is logged, and the throttling state after it. */
  function Throttle(count: int, state: int, max: int, code: int): Throttled {
    if max < 0 then Throttled(true, count, state)
    else if state == code then
      if max == 0 then Throttled(false, count, state)
      else if count >= max - 1 then Throttled(true, 0, state)
      else Throttled(false, count + 1, state)
    else Throttled(true, 0, code)
  }

  function PollFailed(u: Ups, cfg: Config, code: int, lost: bool, now: int): Ups {
    var t := Throttle(u.throttleCount, u.throttleState, cfg.throttleMax, code);
    var u := UpsIsGone(u.(throttleCount := t.count, throttleState := t.state), cfg, now);
    if lost then DropConnection(u) else u
  }

  function PollSucceeded(u: Ups, cfg: Config, r: Report, now: int): Ups {
    ParseStatus(u.(throttleState := ERR_NONE, throttleCount := -1), cfg, r, now)
  }

  // ----- is_ups_critical -----

  /** The clause of is_ups_critical that decides. */
  datatype Verdict =
    | ForcedShutdown                                                  // FSD is set
    | LostOverloaded | LostInAlarm | LostCalibrating | LostOnBypass | LostOff  // no communication
    | OffTooLong
    | NotOnLowBattery | StillCalibrating | DelayStarted | DelayRunning         // not critical
    | PrimaryOnLowBattery | PrimaryNeverActed                                  // OB+LB
    | WaitingForPrimary                                                        // not critical yet

  predicate Critical(v: Verdict) {
    || v.ForcedShutdown? || v.LostOverloaded? || v.LostInAlarm? || v.LostCalibrating? || v.LostOnBypass? || v.LostOff?
    || v.OffTooLong? || v.PrimaryOnLowBattery? || v.PrimaryNeverActed?
  }

  predicate ByLowBattery(v: Verdict) {
    v == PrimaryOnLowBattery || v == PrimaryNeverActed
  }

  function Judge(u: Ups, cfg: Config, now: int): Verdict {
    var lost := u.commstate == 0;
    if Fsd in u.status then ForcedShutdown
    else if lost && (u.overstate == 1 || Over in u.status) && cfg.overduration >= 0
            && !(now > 0 && now - u.oversince < cfg.overduration) then LostOverloaded
    else if lost && (u.alarmstate == 1 || Alarm in u.status) && cfg.alarmcritical == 1 then LostInAlarm
    else if lost && Cal in u.status then LostCalibrating
    else if lost && (u.bypassstate == 1 || Bypass in u.status) then LostOnBypass
    else if lost && (u.offstate == 1 || (cfg.offduration >= 0 && Off in u.status)) then LostOff
    else if Off in u.status && cfg.offduration >= 0 && u.offstate == 1 then OffTooLong
    else if OnBatt !in u.status || LowBatt !in u.status then NotOnLowBattery
    else if Cal in u.status then StillCalibrating
    else if cfg.oblbduration > 0 && u.oblbsince < 1 && now > 0 then DelayStarted
    else if cfg.oblbduration > 0 && now > 0 && now - u.oblbsince < cfg.oblbduration then DelayRunning
    else if Primary in u.status then PrimaryOnLowBattery
    else if now - u.lastnoncrit > cfg.hostsync then PrimaryNeverActed
    else WaitingForPrimary
  }

  /** The record after is_ups_critical. */
  function AfterJudge(u: Ups, cfg: Config, now: int): Ups {
    match Judge(u, cfg, now)
    case NotOnLowBattery => if u.oblbsince > 0 then u.(oblbsince := 0) else u
    case DelayStarted => u.(oblbsince := now)
    case _ => u
  }

  /** recalc first takes a UPS that is dead and was last on battery for one with a low battery. */
  function PromoteDead(u: Ups, cfg: Config, now: int): Ups {
    if now - u.lastpoll > cfg.deadtime && OnBatt in u.status then SetFlag(u, LowBatt) else u
  }

  // ----- configuration and connection -----

  predicate NamesPrimary(option: string) {
    SameIgnoringCase(option, "primary") || SameIgnoringCase(option, "master")
  }

  predicate NamesSecondary(option: string) {
    SameIgnoringCase(option, "secondary") || SameIgnoringCase(option, "slave")
  }

  function Reconnect(u: Ups): Ups {
    if Login !in u.status then DropConnection(u) else u
  }

  /** redefine_ups */
  function Redefine(u: Ups, pv: nat, un: string, pw: string, option: string): Ups {
    ChangeRole(ChangeLogin(u.(retain := true, pv := pv), un, pw), option)
  }

  function ChangeLogin(u: Ups, un: string, pw: string): Ups {
    var u := if u.un != un then Reconnect(u.(un := un)) else u;
    if u.pw != pw then Reconnect(u.(pw := pw)) else u
  }

  function ChangeRole(u: Ups, option: string): Ups {
    if NamesPrimary(option) && Primary !in u.status then DropConnection(SetFlag(u, Primary))
    else if NamesSecondary(option) && Primary in u.status then ClearFlag(u, Primary)
    else u
  }

  /** try_connect: refused, or connected with or without a login */
  function ConnectFailed(u: Ups, cfg: Config, uncertified: bool, now: int): Ups {
    var u := UpsIsGone(ClearFlag(u, CliConnected), cfg, now);
    if uncertified then DropConnection(u) else u
  }

  function Connected(u: Ups, loggedIn: bool): Ups {
    var u := SetFlag(u, CliConnected);
    if loggedIn then SetFlag(u, Login) else u
  }

  function ForgetThrottle(u: Ups): Ups {
    u.(throttleCount := -1, throttleState := ERR_NONE)
  }

  /** The main loop after the operating system has slept. */
  function WakeUp(u: Ups, now: int): Ups {
    u.(status := {}, lastpoll := now)
  }
}
