// What holds of one UPS record over every run of upsmon: any sequence of polls, failures,
// judgements, reloads and wake-ups, with any clock readings and a configuration that may change
// from step to step.
module UpsMonRuns {
  import opened UpsMon

  datatype Op =
    | Poll(report: Report)
    | PollFail(code: int, lost: bool)
    | ConnectFail(uncertified: bool)
    | Connect(loggedIn: bool)
    | Recalc
    | Reconfigure(pv: nat, un: string, pw: string, option: string)
    | ResetThrottle
    | Wake

  /** One step, with the configuration and the clock it sees. */
  datatype Event = Event(op: Op, cfg: Config, now: int)

  function Apply(u: Ups, e: Event): Ups {
    match e.op
    case Poll(r) => PollSucceeded(u, e.cfg, r, e.now)
    case PollFail(code, lost) => PollFailed(u, e.cfg, code, lost, e.now)
    case ConnectFail(uncertified) => ConnectFailed(u, e.cfg, uncertified, e.now)
    case Connect(loggedIn) => Connected(u, loggedIn)
    case Recalc => AfterJudge(PromoteDead(u, e.cfg, e.now), e.cfg, e.now)
    case Reconfigure(pv, un, pw, option) => Redefine(u, pv, un, pw, option)
    case ResetThrottle => ForgetThrottle(u)
    case Wake => WakeUp(u, e.now)
  }

  /** The record after a run that began when the UPS was added. */
  function Run(start: Ups, es: seq<Event>): Ups {
    if es == [] then start else Apply(Run(start, es[..|es| - 1]), es[|es| - 1])
  }

  lemma StepAt(start: Ups, es: seq<Event>, n: nat)
    requires n < |es|
    ensures Run(start, es[..n + 1]) == Apply(Run(start, es[..n]), es[n])
  {
    assert es[..n + 1][..n] == es[..n];
  }

  predicate Added(u: Ups) {
    u == NewUps(u.sys, u.pv, u.un, u.pw, Primary in u.status)
  }

  /** The verdict recalc reaches in step k. */
  function VerdictAt(start: Ups, es: seq<Event>, k: nat): Verdict
    requires k < |es|
  {
    Judge(PromoteDead(Run(start, es[..k]), es[k].cfg, es[k].now), es[k].cfg, es[k].now)
  }
}
