// The list of monitored UPSes of clients/upsmon.c as a sequence of records: the sum of power
// values that recalc compares with MINSUPPLIES, and what a reload makes of the list.
module UpsMonList {
  import opened Text
  import TokenLists
  import opened UpsMon

  /** unsigned int wraps around at this value. */
  const UINT_RANGE: nat := 0x1_0000_0000

  function Wrap(n: nat): nat {
    n % UINT_RANGE
  }

  lemma WrapAdd(a: nat, b: nat)
    ensures Wrap(Wrap(a) + b) == Wrap(a + b)
  {
  }

  // ----- recalc -----

  predicate CriticalNow(u: Ups, cfg: Config, now: int) {
    Critical(Judge(PromoteDead(u, cfg, now), cfg, now))
  }

  /** The power values of the UPSes that are not critical, added up without a limit. */
  function OnlinePower(list: seq<Ups>, cfg: Config, now: int): nat {
    if list == [] then 0
    else (if CriticalNow(list[0], cfg, now) then 0 else list[0].pv) + OnlinePower(list[1..], cfg, now)
  }

  function RecalcOne(u: Ups, cfg: Config, now: int): Ups {
    AfterJudge(PromoteDead(u, cfg, now), cfg, now)
  }

  function RecalcAll(list: seq<Ups>, cfg: Config, now: int): (r: seq<Ups>)
    ensures |r| == |list|
  {
    if list == [] then [] else [RecalcOne(list[0], cfg, now)] + RecalcAll(list[1..], cfg, now)
  }

  /** Whether recalc enters forceshutdown: its sum is an unsigned int. */
  predicate ShutsDown(list: seq<Ups>, cfg: Config, now: int) {
    Wrap(OnlinePower(list, cfg, now)) < cfg.minsupplies
  }

  // ----- MONITOR lines -----

  /** What a valid MONITOR line asks for. */
  datatype Monitor = Monitor(sys: string, pv: nat, un: string, pw: string, option: string)

  function MonitorOf(words: seq<string>): Option<Monitor> {
    if |words| >= 6 && words[0] == "MONITOR" && 0 <= Strtol(words[2]) < UINT_RANGE
    then Some(Monitor(words[1], Strtol(words[2]), words[3], words[4], words[5]))
    else None
  }

  /** A MONITOR line without a user name ends the program. */
  predicate OldStyle(words: seq<string>) {
    |words| == 5 && words[0] == "MONITOR"
  }

  function Monitors(lines: seq<seq<string>>): seq<Monitor> {
    if lines == [] then []
    else
      var m := MonitorOf(lines[|lines| - 1]);
      Monitors(lines[..|lines| - 1]) + if m.Some? then [m.value] else []
  }

  datatype State = State(list: seq<Ups>, totalpv: nat)

  function FindUps(list: seq<Ups>, sys: string): (i: nat)
    ensures i <= |list| && (i < |list| ==> list[i].sys == sys)
    ensures forall k :: 0 <= k < i ==> list[k].sys != sys
  {
    if list == [] || list[0].sys == sys then 0 else 1 + FindUps(list[1..], sys)
  }

  /** addups for a valid line */
  function AddUps(st: State, reloading: bool, m: Monitor): State {
    var i := FindUps(st.list, m.sys);
    if i < |st.list| then
      if reloading then
        State(st.list[i := Redefine(st.list[i], m.pv, m.un, m.pw, m.option)], Wrap(st.totalpv + m.pv))
      else st
    else State(st.list + [NewUps(m.sys, m.pv, m.un, m.pw, NamesPrimary(m.option))], Wrap(st.totalpv + m.pv))
  }

  function Load(st: State, reloading: bool, ms: seq<Monitor>): State {
    if ms == [] then st else AddUps(Load(st, reloading, ms[..|ms| - 1]), reloading, ms[|ms| - 1])
  }

  datatype Outcome = Running(st: State) | Exited

  predicate HasOldStyle(lines: seq<seq<string>>) {
    exists k :: 0 <= k < |lines| && OldStyle(lines[k])
  }

  /** loadconfig, as far as the list is concerned */
  function LoadConfig(st: State, reloading: bool, lines: seq<seq<string>>): Outcome {
    if HasOldStyle(lines) then Exited else Running(Load(st, reloading, Monitors(lines)))
  }

  function Unretained(list: seq<Ups>): (r: seq<Ups>)
    ensures |r| == |list|
  {
    seq(|list|, i requires 0 <= i < |list| => list[i].(retain := false))
  }

  function Forgotten(list: seq<Ups>): (r: seq<Ups>)
    ensures |r| == |list|
  {
    seq(|list|, i requires 0 <= i < |list| => ForgetThrottle(list[i]))
  }

  /** The list that the file is read into: nothing retained, and poll failures forgotten if they
      were being throttled. */
  function Prepared(list: seq<Ups>, throttled: bool): (r: seq<Ups>)
    ensures |r| == |list|
  {
    if throttled then Forgotten(Unretained(list)) else Unretained(list)
  }

  function Retained(list: seq<Ups>): seq<Ups> {
    if list == [] then []
    else Retained(list[..|list| - 1]) + if list[|list| - 1].retain then [list[|list| - 1]] else []
  }

  /** reload_conf; no lines means that the file could not be opened */
  function ReloadConf(st: State, file: Option<seq<seq<string>>>, throttled: bool, minsupplies: nat): Outcome {
    if file.None? then Running(st)
    else
      match LoadConfig(State(Prepared(st.list, throttled), 0), true, file.value)
      case Exited => Exited
      case Running(loaded) =>
        if loaded.totalpv < minsupplies then Exited else Running(State(Retained(loaded.list), loaded.totalpv))
  }

  // ----- which systems a reload leaves -----

  function Systems(list: seq<Ups>): (r: seq<string>)
    ensures |r| == |list|
  {
    seq(|list|, i requires 0 <= i < |list| => list[i].sys)
  }

  function NamesIn(ms: seq<Monitor>): (r: seq<string>)
    ensures |r| == |ms|
  {
    seq(|ms|, i requires 0 <= i < |ms| => ms[i].sys)
  }

  function PowerOf(ms: seq<Monitor>): nat {
    if ms == [] then 0 else PowerOf(ms[..|ms| - 1]) + ms[|ms| - 1].pv
  }

  /** The names that are in `chosen`, in order. */
  function Chosen(names: seq<string>, chosen: seq<string>): seq<string> {
    if names == [] then []
    else Chosen(names[..|names| - 1], chosen) + if names[|names| - 1] in chosen then [names[|names| - 1]] else []
  }

  /** What holds after the lines of `ms` have been loaded into a list without retained entries. */
  ghost predicate LoadedSo(start: State, ms: seq<Monitor>, st: State) {
    && Systems(st.list) == Systems(start.list) + TokenLists.Unseen(Systems(start.list), NamesIn(ms))
    && (forall i :: 0 <= i < |st.list| ==> (st.list[i].retain <==> st.list[i].sys in NamesIn(ms)))
    && st.totalpv == Wrap(start.totalpv + PowerOf(ms))
  }

  lemma FindIffListed(list: seq<Ups>, sys: string)
    ensures FindUps(list, sys) < |list| <==> sys in Systems(list)
  {
    if sys in Systems(list) {
      var k :| 0 <= k < |list| && Systems(list)[k] == sys;
      assert list[k].sys == sys;
    }
    var i := FindUps(list, sys);
    if i < |list| {
      assert Systems(list)[i] == sys;
    }
  }

  lemma RedefineKeeps(u: Ups, pv: nat, un: string, pw: string, option: string)
    ensures var u' := Redefine(u, pv, un, pw, option); u'.sys == u.sys && u'.retain && u'.pv == pv
  {
  }

  lemma AddUpsSystems(st: State, m: Monitor)
    ensures Systems(AddUps(st, true, m).list) == Systems(st.list) + if m.sys in Systems(st.list) then [] else [m.sys]
    ensures AddUps(st, true, m).totalpv == Wrap(st.totalpv + m.pv)
  {
    var i := FindUps(st.list, m.sys);
    FindIffListed(st.list, m.sys);
    if i < |st.list| {
      RedefineKeeps(st.list[i], m.pv, m.un, m.pw, m.option);
    }
  }

  lemma AddUpsRetains(st: State, m: Monitor, k: nat)
    requires k < |AddUps(st, true, m).list| && Distinct(Systems(st.list))
    ensures var u := AddUps(st, true, m).list[k];
            if u.sys == m.sys then u.retain && u.pv == m.pv else k < |st.list| && u == st.list[k]
  {
    var i := FindUps(st.list, m.sys);
    if i < |st.list| {
      RedefineKeeps(st.list[i], m.pv, m.un, m.pw, m.option);
      if k != i {
        assert Systems(st.list)[k] == st.list[k].sys && Systems(st.list)[i] == m.sys;
      }
    }
  }

  lemma {:induction false} LoadInvariant(start: State, ms: seq<Monitor>)
    requires Distinct(Systems(start.list)) && start.totalpv < UINT_RANGE
    requires forall i :: 0 <= i < |start.list| ==> !start.list[i].retain
    ensures LoadedSo(start, ms, Load(start, true, ms)) && Distinct(Systems(Load(start, true, ms).list))
    decreases |ms|
  {
    if ms == [] {
      assert Systems(start.list) + [] == Systems(start.list);
    } else {
      var front, m := ms[..|ms| - 1], ms[|ms| - 1];
      LoadInvariant(start, front);
      assert NamesIn(ms) == NamesIn(front) + [m.sys];
      AddPreserves(start, front, Load(start, true, front), m);
      assert front + [m] == ms;
    }
  }

  lemma AddPreserves(start: State, ms: seq<Monitor>, st: State, m: Monitor)
    requires LoadedSo(start, ms, st) && Distinct(Systems(st.list))
    ensures var st' := AddUps(st, true, m); LoadedSo(start, ms + [m], st') && Distinct(Systems(st'.list))
  {
    var st' := AddUps(st, true, m);
    var have, names := Systems(start.list), NamesIn(ms);
    assert NamesIn(ms + [m]) == names + [m.sys];
    assert (ms + [m])[..|ms|] == ms;
    AddUpsSystems(st, m);
    TokenLists.UnseenSnoc(have, names, m.sys);
    WrapAdd(start.totalpv + PowerOf(ms), m.pv);
    forall k | 0 <= k < |st'.list|
      ensures st'.list[k].retain <==> st'.list[k].sys in names + [m.sys]
    {
      AddUpsRetains(st, m, k);
    }
  }

  // ----- what the reload keeps -----

  lemma {:induction false} RetainedAreChosen(list: seq<Ups>, chosen: seq<string>)
    requires forall i :: 0 <= i < |list| ==> (list[i].retain <==> list[i].sys in chosen)
    ensures Systems(Retained(list)) == Chosen(Systems(list), chosen)
  {
    if list != [] {
      var front, last := list[..|list| - 1], list[|list| - 1];
      RetainedAreChosen(front, chosen);
      assert Systems(list) == Systems(front) + [last.sys];
      assert Systems(Retained(front) + [last]) == Systems(Retained(front)) + [last.sys];
      assert Systems(list)[..|list| - 1] == Systems(front);
    }
  }

  lemma {:induction false} ChosenConcat(a: seq<string>, b: seq<string>, chosen: seq<string>)
    ensures Chosen(a + b, chosen) == Chosen(a, chosen) + Chosen(b, chosen)
    decreases |b|
  {
    if b == [] {
      assert a + b == a;
    } else {
      assert (a + b)[..|a + b| - 1] == a + b[..|b| - 1];
      ChosenConcat(a, b[..|b| - 1], chosen);
    }
  }

  lemma {:induction false} AllChosen(names: seq<string>, chosen: seq<string>)
    requires forall i :: 0 <= i < |names| ==> names[i] in chosen
    ensures Chosen(names, chosen) == names
  {
    if names != [] {
      var front, last := names[..|names| - 1], names[|names| - 1];
      AllChosen(front, chosen);
      assert front + [last] == names;
    }
  }

  lemma {:induction false} ChosenMeaning(names: seq<string>, chosen: seq<string>)
    requires Distinct(names)
    ensures Distinct(Chosen(names, chosen))
    ensures forall s :: s in Chosen(names, chosen) <==> s in names && s in chosen
  {
    if names != [] {
      var front, last := names[..|names| - 1], names[|names| - 1];
      ChosenMeaning(front, chosen);
      assert names == front + [last];
      assert last !in front;
      var c := Chosen(front, chosen);
      assert forall i :: 0 <= i < |c| ==> c[i] in front;
    }
  }

  lemma RetainedSystems(start: State, ms: seq<Monitor>)
    requires Distinct(Systems(start.list)) && start.totalpv < UINT_RANGE
    requires forall i :: 0 <= i < |start.list| ==> !start.list[i].retain
    ensures var kept, names := Systems(Retained(Load(start, true, ms).list)), NamesIn(ms);
            && kept == Chosen(Systems(start.list), names) + TokenLists.Unseen(Systems(start.list), names)
            && Distinct(kept)
            && (forall s :: s in kept <==> s in Systems(Load(start, true, ms).list) && s in names)
  {
    var loaded, names, have := Load(start, true, ms), NamesIn(ms), Systems(start.list);
    var added := TokenLists.Unseen(have, names);
    LoadInvariant(start, ms);
    TokenLists.UnseenMeaning(have, names);
    RetainedAreChosen(loaded.list, names);
    ChosenConcat(have, added, names);
    assert forall i :: 0 <= i < |added| ==> added[i] in added;
    AllChosen(added, names);
    ChosenMeaning(Systems(loaded.list), names);
  }

  lemma NamedAreLoaded(start: State, ms: seq<Monitor>)
    requires Distinct(Systems(start.list)) && start.totalpv < UINT_RANGE
    requires forall i :: 0 <= i < |start.list| ==> !start.list[i].retain
    ensures forall s :: s in NamesIn(ms) ==> s in Systems(Load(start, true, ms).list)
    ensures Load(start, true, ms).totalpv == Wrap(start.totalpv + PowerOf(ms))
  {
    LoadInvariant(start, ms);
    NewOnesComplete(Systems(start.list), NamesIn(ms));
  }

  lemma NewOnesComplete(have: seq<string>, names: seq<string>)
    ensures forall s :: s in names ==> s in have + TokenLists.Unseen(have, names)
  {
    TokenLists.UnseenMeaning(have, names);
  }

  /** After a successful reload the list holds exactly the systems of the valid MONITOR lines, each
      once: the old ones that are still named, in their old order, then the new ones in file order;
      and the total is the sum of the power values of all valid lines. */
  lemma ReloadLeavesNamedSystems(st: State, lines: seq<seq<string>>, throttled: bool, minsupplies: nat)
    requires Distinct(Systems(st.list))
    requires ReloadConf(st, Some(lines), throttled, minsupplies).Running?
    ensures var st' := ReloadConf(st, Some(lines), throttled, minsupplies).st;
            var names := NamesIn(Monitors(lines));
            && Systems(st'.list) == Chosen(Systems(st.list), names) + TokenLists.Unseen(Systems(st.list), names)
            && Distinct(Systems(st'.list))
            && (forall s :: s in Systems(st'.list) <==> s in names)
            && st'.totalpv == Wrap(PowerOf(Monitors(lines)))
  {
    var start := State(Prepared(st.list, throttled), 0);
    assert Systems(start.list) == Systems(st.list);
    RetainedSystems(start, Monitors(lines));
    NamedAreLoaded(start, Monitors(lines));
  }

  // ----- the list over the whole life of the program -----

  lemma StartUpSystems(st: State, m: Monitor)
    ensures Systems(AddUps(st, false, m).list) == Systems(st.list) + if m.sys in Systems(st.list) then [] else [m.sys]
  {
    FindIffListed(st.list, m.sys);
  }

  /** At start-up a system named again is ignored: the list holds each named system once, in file
      order. */
  lemma {:induction false} StartUpLeavesNamedSystems(ms: seq<Monitor>)
    ensures var list := Load(State([], 0), false, ms).list;
            && Systems(list) == TokenLists.Unseen([], NamesIn(ms))
            && Distinct(Systems(list))
            && (forall s :: s in Systems(list) <==> s in NamesIn(ms))
    decreases |ms|
  {
    TokenLists.UnseenMeaning([], NamesIn(ms));
    if ms != [] {
      var front, m := ms[..|ms| - 1], ms[|ms| - 1];
      StartUpLeavesNamedSystems(front);
      StartUpSystems(Load(State([], 0), false, front), m);
      assert NamesIn(ms) == NamesIn(front) + [m.sys];
      TokenLists.UnseenSnoc([], NamesIn(front), m.sys);
    }
  }

  datatype Reload = Reload(file: Option<seq<seq<string>>>, throttled: bool, minsupplies: nat)

  /** The state after start-up with `lines` and some reloads. */
  function Life(lines: seq<seq<string>>, reloads: seq<Reload>): Outcome {
    if reloads == [] then LoadConfig(State([], 0), false, lines)
    else
      match Life(lines, reloads[..|reloads| - 1])
      case Exited => Exited
      case Running(st) =>
        var r := reloads[|reloads| - 1];
        ReloadConf(st, r.file, r.throttled, r.minsupplies)
  }

  /** No system is ever monitored twice, so the reload theorems hold of every reload. */
  lemma {:induction false} NamesAlwaysDistinct(lines: seq<seq<string>>, reloads: seq<Reload>)
    requires Life(lines, reloads).Running?
    ensures Distinct(Systems(Life(lines, reloads).st.list))
    decreases |reloads|
  {
    if reloads == [] {
      StartUpLeavesNamedSystems(Monitors(lines));
    } else {
      var front, r := reloads[..|reloads| - 1], reloads[|reloads| - 1];
      NamesAlwaysDistinct(lines, front);
      if r.file.Some? {
        ReloadLeavesNamedSystems(Life(lines, front).st, r.file.value, r.throttled, r.minsupplies);
      }
    }
  }

  // ----- the total against the list -----

  function ListPower(list: seq<Ups>): nat {
    if list == [] then 0 else ListPower(list[..|list| - 1]) + list[|list| - 1].pv
  }

  function RetainedPower(list: seq<Ups>): nat {
    if list == [] then 0
    else RetainedPower(list[..|list| - 1]) + if list[|list| - 1].retain then list[|list| - 1].pv else 0
  }

  lemma {:induction false} RetainedPowerIs(list: seq<Ups>)
    ensures ListPower(Retained(list)) == RetainedPower(list)
  {
    if list != [] {
      var front, last := list[..|list| - 1], list[|list| - 1];
      RetainedPowerIs(front);
      if last.retain {
        assert (Retained(front) + [last])[..|Retained(front)|] == Retained(front);
      } else {
        assert Retained(front) + [] == Retained(front);
      }
    }
  }

  lemma {:induction false} RetainedPowerUpdate(list: seq<Ups>, i: nat, u: Ups)
    requires i < |list| && !list[i].retain && u.retain
    ensures RetainedPower(list[i := u]) == RetainedPower(list) + u.pv
  {
    var n := |list| - 1;
    if i < n {
      assert list[i := u][..n] == list[..n][i := u];
      RetainedPowerUpdate(list[..n], i, u);
    } else {
      assert list[i := u][..n] == list[..n];
    }
  }

  lemma AddUpsPower(st: State, m: Monitor)
    requires forall i :: 0 <= i < |st.list| && st.list[i].sys == m.sys ==> !st.list[i].retain
    ensures RetainedPower(AddUps(st, true, m).list) == RetainedPower(st.list) + m.pv
  {
    var i := FindUps(st.list, m.sys);
    if i < |st.list| {
      RedefineKeeps(st.list[i], m.pv, m.un, m.pw, m.option);
      RetainedPowerUpdate(st.list, i, Redefine(st.list[i], m.pv, m.un, m.pw, m.option));
    } else {
      var u := NewUps(m.sys, m.pv, m.un, m.pw, NamesPrimary(m.option));
      assert (st.list + [u])[..|st.list|] == st.list;
    }
  }

  lemma {:induction false} LoadPower(start: State, ms: seq<Monitor>)
    requires Distinct(Systems(start.list)) && start.totalpv < UINT_RANGE
    requires forall i :: 0 <= i < |start.list| ==> !start.list[i].retain
    requires Distinct(NamesIn(ms))
    ensures RetainedPower(Load(start, true, ms).list) == PowerOf(ms)
    decreases |ms|
  {
    if ms == [] {
      NothingRetained(start.list);
    } else {
      var front, m := ms[..|ms| - 1], ms[|ms| - 1];
      assert NamesIn(ms) == NamesIn(front) + [m.sys];
      DistinctSnoc(NamesIn(front), m.sys);
      LoadPower(start, front);
      LoadInvariant(start, front);
      AddUpsPower(Load(start, true, front), m);
    }
  }

  lemma DistinctSnoc(names: seq<string>, name: string)
    requires Distinct(names + [name])
    ensures Distinct(names) && name !in names
  {
    var all := names + [name];
    assert forall i :: 0 <= i < |names| ==> all[i] == names[i];
    assert all[|names|] == name;
  }

  lemma {:induction false} NothingRetained(list: seq<Ups>)
    requires forall i :: 0 <= i < |list| ==> !list[i].retain
    ensures RetainedPower(list) == 0
  {
    if list != [] {
      NothingRetained(list[..|list| - 1]);
    }
  }

  /** When the file names no system twice, the total is the sum of the power values in the list. */
  lemma TotalIsListPower(st: State, lines: seq<seq<string>>, throttled: bool, minsupplies: nat)
    requires Distinct(Systems(st.list)) && Distinct(NamesIn(Monitors(lines)))
    requires ReloadConf(st, Some(lines), throttled, minsupplies).Running?
    ensures var st' := ReloadConf(st, Some(lines), throttled, minsupplies).st;
            st'.totalpv == Wrap(ListPower(st'.list))
  {
    var start := State(Prepared(st.list, throttled), 0);
    assert Systems(start.list) == Systems(st.list);
    LoadPower(start, Monitors(lines));
    LoadInvariant(start, Monitors(lines));
    RetainedPowerIs(Load(start, true, Monitors(lines)).list);
  }
}
