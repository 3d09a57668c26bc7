/** Orphan take-over on a clock: several instances claim, refresh, finish and lose discoveries, and scan
    the table for claims that nobody seems to refresh any more. Database calls take no time. */
module Takeover {
  import H = Heartbeat

  datatype Phase = Claimed | Flying | Leaving | Over

  /** since: when the endpoint was claimed for this discovery. */
  datatype Disc = Disc(inst: nat, ep: string, phase: Phase, since: real) {
    predicate Live() { !phase.Over? }
  }

  /** Whether the last status is Started, and the last attempt. */
  datatype Row = Row(started: bool, last: real)

  type Table = map<string, Row>

  /** When the instance's updater acts next, how often in a row it has failed, and the longest such row. */
  datatype Updater = Updater(wake: real, fails: nat, most: nat)

  /** A scan has found the endpoint orphaned, and the instance is about to claim it by force. */
  datatype Order = Order(inst: nat, ep: string)

  datatype State = State(now: real, upd: seq<Updater>, table: Table, discs: seq<Disc>, orders: set<Order>)

  datatype Step =
    | Insert(ep: string)
    | Delete(ep: string)
    | Claim(inst: nat, ep: string, force: bool)
    | Enter(k: nat)
    | Leave(k: nat)
    | Finish(k: nat, ok: bool)
    | Skip(k: nat)
    | Tick(d: real)
    | Beat(inst: nat, ok: bool)
    | Scan(inst: nat)
    | TakeOver(inst: nat, ep: string, ok: bool)
    | Crash(inst: nat)

  function Init(n: nat): State { State(0.0, seq(n, _ => Updater(0.0, 0, 0)), map[], [], {}) }

  /** The endpoints in the map of the instance. */
  function Flights(discs: seq<Disc>, i: nat): (r: set<string>)
    ensures forall ep :: ep in r <==>
        exists k :: 0 <= k < |discs| && discs[k].inst == i && discs[k].ep == ep && discs[k].phase.Flying?
  {
    set k | 0 <= k < |discs| && discs[k].inst == i && discs[k].phase.Flying? :: discs[k].ep
  }

  function Orphans(s: State): (r: set<string>)
    ensures forall ep :: ep in r <==> ep in s.table && s.table[ep].started && s.now - s.table[ep].last >= H.ORPHAN_AGE
  {
    set ep | ep in s.table && s.table[ep].started && s.now - s.table[ep].last >= H.ORPHAN_AGE
  }

  function Refreshed(t: Table, eps: set<string>, now: real): (r: Table)
    ensures r.Keys == t.Keys
    ensures forall ep :: ep in t ==> r[ep] == if ep in eps then Row(true, now) else t[ep]
  {
    map ep | ep in t :: if ep in eps then Row(true, now) else t[ep]
  }

  function Ended(discs: seq<Disc>, i: nat): (r: seq<Disc>)
    ensures |r| == |discs|
    ensures forall k :: 0 <= k < |r| ==> r[k] == if discs[k].inst == i then discs[k].(phase := Over) else discs[k]
  {
    seq(|discs|, k requires 0 <= k < |discs| => if discs[k].inst == i then discs[k].(phase := Over) else discs[k])
  }

  function Taken(s: State, i: nat, ep: string): State {
    s.(table := s.table[ep := Row(true, s.now)], discs := s.discs + [Disc(i, ep, Claimed, s.now)])
  }

  predicate InPhase(s: State, k: nat, phase: Phase) { k < |s.discs| && s.discs[k].phase == phase }

  function Moved(s: State, k: nat, phase: Phase): State
    requires k < |s.discs|
  {
    s.(discs := s.discs[k := s.discs[k].(phase := phase)])
  }

  /** Time passes only while no database call is due: nothing to enter or to finish, no take-over to do,
      and no updater to act. */
  predicate CanTick(s: State, d: real) {
    && d > 0.0 && s.orders == {}
    && (forall i :: 0 <= i < |s.upd| ==> s.now + d <= s.upd[i].wake)
    && (forall k :: 0 <= k < |s.discs| ==> s.discs[k].phase.Flying? || s.discs[k].phase.Over?)
  }

  function Beaten(s: State, i: nat, ok: bool): State
    requires i < |s.upd|
  {
    var u, eps := s.upd[i], Flights(s.discs, i);
    if eps == {} || (ok && eps <= s.table.Keys) then
      s.(upd := s.upd[i := Updater(s.now + H.UPDATE_EVERY, 0, u.most)], table := Refreshed(s.table, eps, s.now))
    else
      s.(upd := s.upd[i := Updater(s.now + H.RETRY_AFTER, u.fails + 1,
        if u.fails < u.most then u.most else u.fails + 1)])
  }

  /** One step; a step that is not enabled changes nothing. A take-over that is not ok failed in the database
      or passed over an endpoint that is switched off. */
  function Next(s: State, a: Step): State {
    match a
    case Insert(ep) => if ep in s.table then s else s.(table := s.table[ep := Row(false, s.now)])
    case Delete(ep) => s.(table := s.table - {ep})
    case Claim(i, ep, force) =>
      if i < |s.upd| && ep in s.table && (force || !s.table[ep].started) then Taken(s, i, ep) else s
    case Enter(k) => if InPhase(s, k, Claimed) then Moved(s, k, Flying) else s
    case Leave(k) => if InPhase(s, k, Flying) then Moved(s, k, Leaving) else s
    case Finish(k, ok) =>
      if !InPhase(s, k, Leaving) then s
      else if ok && s.discs[k].ep in s.table then
        Moved(s, k, Over).(table := s.table[s.discs[k].ep := Row(false, s.now)])
      else Moved(s, k, Over)
    case Skip(k) => if InPhase(s, k, Claimed) then Moved(s, k, Over) else s
    case Tick(d) => if CanTick(s, d) then s.(now := s.now + d) else s
    case Beat(i, ok) => if i < |s.upd| && s.now >= s.upd[i].wake then Beaten(s, i, ok) else s
    case Scan(i) => if i < |s.upd| then s.(orders := s.orders + set ep | ep in Orphans(s) :: Order(i, ep)) else s
    case TakeOver(i, ep, ok) =>
      if i >= |s.upd| || Order(i, ep) !in s.orders then s
      else
        var t := s.(orders := s.orders - {Order(i, ep)});
        if ok && ep in s.table then Taken(t, i, ep) else t
    case Crash(i) =>
      if i < |s.upd| then
        s.(upd := s.upd[i := Updater(s.now, 0, s.upd[i].most)], discs := Ended(s.discs, i),
           orders := set o | o in s.orders && o.inst != i)
      else s
  }

  function Run(s: State, steps: seq<Step>): State {
    if steps == [] then s else Next(Run(s, steps[..|steps| - 1]), steps[|steps| - 1])
  }

  // ---- The invariant ----

  predicate UpdaterOk(now: real, u: Updater) {
    u.fails <= u.most && now <= u.wake <= now + (if u.fails == 0 then H.UPDATE_EVERY else H.RETRY_AFTER)
  }

  /** How old the claim of a live discovery can be, by its phase. */
  predicate DiscOk(now: real, u: Updater, t: Table, d: Disc) {
    && (d.phase.Claimed? ==> d.since == now)
    && (d.Live() && d.ep in t && t[d.ep].started ==>
          && now - t[d.ep].last <= H.Slack(u.most)
          && (d.phase.Claimed? ==> t[d.ep].last == now)
          && (d.phase.Flying? ==> u.wake - t[d.ep].last <= H.Slack(u.fails)))
  }

  predicate UpdatersOk(s: State) { forall i :: 0 <= i < |s.upd| ==> UpdaterOk(s.now, s.upd[i]) }

  predicate DiscsOk(s: State) {
    forall k :: 0 <= k < |s.discs| ==>
      s.discs[k].inst < |s.upd| && DiscOk(s.now, s.upd[s.discs[k].inst], s.table, s.discs[k])
  }

  predicate FewFailures(s: State) { forall i :: 0 <= i < |s.upd| ==> s.upd[i].most <= 19 }

  /** Only what was claimed at this very instant can be live and about to be taken over. */
  predicate OrdersOk(s: State) {
    FewFailures(s) ==>
      forall o, k :: o in s.orders && 0 <= k < |s.discs| && s.discs[k].Live() && s.discs[k].ep == o.ep ==>
        s.discs[k].since == s.now
  }

  ghost predicate Inv(s: State) { UpdatersOk(s) && DiscsOk(s) && OrdersOk(s) }

  /** A row that was just written is recent enough for every discovery. */
  lemma JustWritten(now: real, u: Updater, t: Table, d: Disc)
    requires UpdaterOk(now, u) && (d.phase.Claimed? ==> d.since == now)
    requires d.ep in t && t[d.ep].started ==> t[d.ep].last == now
    ensures DiscOk(now, u, t, d)
  {
    H.MoreSlack(0, u.fails);
    H.MoreSlack(0, u.most);
  }

  lemma SameRow(now: real, u: Updater, t: Table, t': Table, d: Disc)
    requires DiscOk(now, u, t, d)
    requires d.ep in t' && t'[d.ep].started ==> d.ep in t && t[d.ep] == t'[d.ep]
    ensures DiscOk(now, u, t', d)
  {
  }

  /** What writes rows, if at all, as Started right now, or deletes them, or ends their status, keeps
      every discovery's bound. */
  lemma RowsChange(s: State, t: Table)
    requires UpdatersOk(s) && DiscsOk(s)
    requires forall ep :: ep in t && t[ep].started ==> t[ep].last == s.now || (ep in s.table && s.table[ep] == t[ep])
    ensures DiscsOk(s.(table := t))
  {
    forall k | 0 <= k < |s.discs| ensures DiscOk(s.now, s.upd[s.discs[k].inst], t, s.discs[k]) {
      var d := s.discs[k];
      if d.ep in t && t[d.ep].started && t[d.ep].last == s.now {
        JustWritten(s.now, s.upd[d.inst], t, d);
      } else {
        SameRow(s.now, s.upd[d.inst], s.table, t, d);
      }
    }
  }

  lemma TakenKeeps(s: State, i: nat, ep: string)
    requires UpdatersOk(s) && DiscsOk(s) && OrdersOk(s) && i < |s.upd|
    ensures Inv(Taken(s, i, ep))
  {
    var t := Taken(s, i, ep);
    RowsChange(s, t.table);
    JustWritten(s.now, s.upd[i], t.table, Disc(i, ep, Claimed, s.now));
    assert forall k :: 0 <= k < |s.discs| ==> t.discs[k] == s.discs[k];
  }

  lemma MovedKeeps(s: State, k: nat, phase: Phase)
    requires Inv(s) && k < |s.discs|
    requires (s.discs[k].phase.Claimed? && phase.Flying?) || (s.discs[k].phase.Flying? && phase.Leaving?) || phase.Over?
    ensures Inv(Moved(s, k, phase))
  {
    var t, d := Moved(s, k, phase), s.discs[k];
    assert DiscOk(s.now, s.upd[d.inst], s.table, d);
    if phase.Flying? {
      JustWritten(s.now, s.upd[d.inst], s.table, d.(phase := phase));
    }
    forall j | 0 <= j < |t.discs|
      ensures t.discs[j].inst < |t.upd| && DiscOk(t.now, t.upd[t.discs[j].inst], t.table, t.discs[j]) {
      assert j != k ==> t.discs[j] == s.discs[j];
    }
    OrdersStay(s, t);
  }

  /** Discoveries that end or move on claim nothing new. */
  lemma OrdersStay(s: State, t: State)
    requires OrdersOk(s) && t.now == s.now && t.orders <= s.orders && |t.discs| == |s.discs|
    requires FewFailures(t) ==> FewFailures(s)
    requires forall k :: 0 <= k < |s.discs| ==>
      t.discs[k].ep == s.discs[k].ep && t.discs[k].since == s.discs[k].since &&
        (t.discs[k].Live() ==> s.discs[k].Live())
    ensures OrdersOk(t)
  {
    if FewFailures(t) {
      forall o, k | o in t.orders && 0 <= k < |t.discs| && t.discs[k].Live() && t.discs[k].ep == o.ep
        ensures t.discs[k].since == t.now
      {
        assert o in s.orders && s.discs[k].Live();
      }
    }
  }

  lemma TickKeeps(s: State, d: real)
    requires Inv(s) && CanTick(s, d)
    ensures Inv(s.(now := s.now + d))
  {
    forall k | 0 <= k < |s.discs| ensures DiscOk(s.now + d, s.upd[s.discs[k].inst], s.table, s.discs[k]) {
      var u := s.upd[s.discs[k].inst];
      assert DiscOk(s.now, u, s.table, s.discs[k]) && UpdaterOk(s.now, u);
      H.MoreSlack(u.fails, u.most);
    }
  }

  /** The instance's own discoveries after its updater has acted; the rows are those after the call. */
  lemma BeatKeepsOwn(s: State, i: nat, ok: bool, k: nat)
    requires Inv(s) && i < |s.upd| && s.now >= s.upd[i].wake && k < |s.discs| && s.discs[k].inst == i
    ensures DiscOk(s.now, Beaten(s, i, ok).upd[i], Beaten(s, i, ok).table, s.discs[k])
  {
    var t, d, u := Beaten(s, i, ok), s.discs[k], s.upd[i];
    assert DiscOk(s.now, u, s.table, d) && UpdaterOk(s.now, u);
    var u' := t.upd[i];
    H.MoreSlack(u.most, u'.most);
    H.MoreSlack(0, u'.most);
    if u'.fails == 0 {
      if d.phase.Flying? {
        assert d.ep in Flights(s.discs, i);
      }
    } else {
      assert H.Slack(u'.fails) == H.Slack(u.fails) + H.RETRY_AFTER;
    }
  }

  lemma BeatKeeps(s: State, i: nat, ok: bool)
    requires Inv(s) && i < |s.upd| && s.now >= s.upd[i].wake
    ensures Inv(Beaten(s, i, ok))
  {
    var t := Beaten(s, i, ok);
    RowsChange(s, t.table);
    forall k | 0 <= k < |t.discs|
      ensures t.discs[k].inst < |t.upd| && DiscOk(t.now, t.upd[t.discs[k].inst], t.table, t.discs[k]) {
      if s.discs[k].inst == i {
        BeatKeepsOwn(s, i, ok, k);
      } else {
        assert DiscOk(s.now, s.upd[s.discs[k].inst], t.table, s.discs[k]);
      }
    }
    assert t.upd[i].most >= s.upd[i].most;
    assert FewFailures(t) ==> FewFailures(s) by {
      assert forall j :: 0 <= j < |s.upd| ==> t.upd[j].most >= s.upd[j].most;
    }
    OrdersStay(s, t);
  }

  /** A scan passes over every endpoint with a live discovery. */
  lemma ScanSpares(s: State, k: nat)
    requires UpdatersOk(s) && DiscsOk(s) && FewFailures(s) && k < |s.discs| && s.discs[k].Live()
    ensures s.discs[k].ep !in Orphans(s)
  {
    var u := s.upd[s.discs[k].inst];
    assert DiscOk(s.now, u, s.table, s.discs[k]);
    H.MoreSlack(u.most, 19);
  }

  lemma ScanKeeps(s: State, i: nat)
    requires Inv(s) && i < |s.upd|
    ensures Inv(Next(s, Scan(i)))
  {
    var t := Next(s, Scan(i));
    if FewFailures(s) {
      forall o, k | o in t.orders && 0 <= k < |t.discs| && t.discs[k].Live() && t.discs[k].ep == o.ep
        ensures t.discs[k].since == t.now
      {
        ScanSpares(s, k);
        assert o in s.orders;
      }
    }
  }

  lemma CrashKeeps(s: State, i: nat)
    requires Inv(s) && i < |s.upd|
    ensures Inv(Next(s, Crash(i)))
  {
    var t := Next(s, Crash(i));
    forall k | 0 <= k < |t.discs|
      ensures t.discs[k].inst < |t.upd| && DiscOk(t.now, t.upd[t.discs[k].inst], t.table, t.discs[k]) {
      assert DiscOk(s.now, s.upd[s.discs[k].inst], s.table, s.discs[k]);
    }
    assert FewFailures(t) ==> FewFailures(s) by {
      assert forall j :: 0 <= j < |s.upd| ==> t.upd[j].most == s.upd[j].most;
    }
    OrdersStay(s, t);
  }

  lemma FinishKeeps(s: State, k: nat, ok: bool)
    requires Inv(s) && InPhase(s, k, Leaving)
    ensures Inv(Next(s, Finish(k, ok)))
  {
    MovedKeeps(s, k, Over);
    RowsChange(Moved(s, k, Over), Next(s, Finish(k, ok)).table);
  }

  lemma TakeOverKeeps(s: State, i: nat, ep: string, ok: bool)
    requires Inv(s) && i < |s.upd|
    ensures Inv(Next(s, TakeOver(i, ep, ok)))
  {
    var t := s.(orders := s.orders - {Order(i, ep)});
    OrdersStay(s, t);
    TakenKeeps(t, i, ep);
  }

  lemma InvNext(s: State, a: Step)
    requires Inv(s)
    ensures Inv(Next(s, a))
  {
    match a
    case Insert(ep) => RowsChange(s, Next(s, a).table);
    case Delete(ep) => RowsChange(s, Next(s, a).table);
    case Claim(i, ep, force) =>
      if i < |s.upd| {
        TakenKeeps(s, i, ep);
      }
    case Enter(k) => if InPhase(s, k, Claimed) { MovedKeeps(s, k, Flying); }
    case Leave(k) => if InPhase(s, k, Flying) { MovedKeeps(s, k, Leaving); }
    case Finish(k, ok) => if InPhase(s, k, Leaving) { FinishKeeps(s, k, ok); }
    case Skip(k) => if InPhase(s, k, Claimed) { MovedKeeps(s, k, Over); }
    case Tick(d) => if CanTick(s, d) { TickKeeps(s, d); }
    case Beat(i, ok) => if i < |s.upd| && s.now >= s.upd[i].wake { BeatKeeps(s, i, ok); }
    case Scan(i) => if i < |s.upd| { ScanKeeps(s, i); }
    case TakeOver(i, ep, ok) => if i < |s.upd| { TakeOverKeeps(s, i, ep, ok); }
    case Crash(i) => if i < |s.upd| { CrashKeeps(s, i); }
  }

  lemma {:induction false} InvRun(n: nat, steps: seq<Step>)
    ensures Inv(Run(Init(n), steps))
  {
    if steps != [] {
      InvRun(n, steps[..|steps| - 1]);
      InvNext(Run(Init(n), steps[..|steps| - 1]), steps[|steps| - 1]);
    }
  }

  // ---- Results over every timed run ----

  /** With at most 19 updater failures in a row on every instance, no scan of any instance finds an
      endpoint orphaned that has a live discovery anywhere. */
  lemma LiveIsNeverOrphaned(n: nat, steps: seq<Step>, k: nat)
    requires var s := Run(Init(n), steps); FewFailures(s) && k < |s.discs| && s.discs[k].Live()
    ensures var s := Run(Init(n), steps); s.discs[k].ep !in Orphans(s)
  {
    InvRun(n, steps);
    ScanSpares(Run(Init(n), steps), k);
  }

  /** And a take-over claims no endpoint with a live discovery, except one that was claimed at the very
      same instant, after the scan: by another take-over, or by a request. */
  lemma OnlyDoubleTakeOvers(n: nat, steps: seq<Step>, o: Order, k: nat)
    requires var s := Run(Init(n), steps);
      FewFailures(s) && o in s.orders && k < |s.discs| && s.discs[k].Live() && s.discs[k].ep == o.ep
    ensures var s := Run(Init(n), steps); s.discs[k].since == s.now
  {
    InvRun(n, steps);
  }

  /** A scan misses no orphan: half an hour without a refresh, and whoever scans can claim it right away. */
  lemma OrphanIsTakenOver(s: State, i: nat, ep: string)
    requires i < |s.upd| && ep in s.table && s.table[ep].started && s.now - s.table[ep].last >= 1800.0
    ensures var t := Next(Next(s, Scan(i)), TakeOver(i, ep, true));
      && t.table == s.table[ep := Row(true, s.now)]
      && t.discs == s.discs + [Disc(i, ep, Claimed, s.now)]
      && t.upd == s.upd && t.now == s.now
  {
    var r := Next(s, Scan(i));
    assert ep in Orphans(s);
    assert Order(i, ep) in r.orders;
  }

  /** A discovery that is claimed, entered, left and finished while no time passes has put its endpoint
      back to what it was, as of now; one whose final status cannot be stored leaves the claim behind. */
  lemma ClaimedAndFinished(s: State, i: nat, ep: string, ok: bool)
    requires i < |s.upd| && ep in s.table && !s.table[ep].started
    ensures var k := |s.discs|;
      var t := Next(Next(Next(Next(s, Claim(i, ep, false)), Enter(k)), Leave(k)), Finish(k, ok));
      && t.table == s.table[ep := Row(!ok, s.now)] && t.discs == s.discs + [Disc(i, ep, Over, s.now)]
      && t.upd == s.upd && t.orders == s.orders && t.now == s.now
  {
    var k := |s.discs|;
    var a := Next(s, Claim(i, ep, false));
    assert a.discs[k] == Disc(i, ep, Claimed, s.now);
    var b := Next(a, Enter(k));
    assert b.discs == s.discs + [Disc(i, ep, Flying, s.now)];
    var c := Next(b, Leave(k));
    assert c.discs == s.discs + [Disc(i, ep, Leaving, s.now)];
    assert Moved(c, k, Over).discs == s.discs + [Disc(i, ep, Over, s.now)];
  }

  /** An updater that gets through refreshes every endpoint in flight on its instance, and touches no
      other; it then sleeps for twenty minutes. */
  lemma BeatRefreshes(s: State, i: nat)
    requires i < |s.upd| && s.now >= s.upd[i].wake
    requires forall k :: 0 <= k < |s.discs| && s.discs[k].inst == i && s.discs[k].phase.Flying? ==>
      s.discs[k].ep in s.table
    ensures var t := Next(s, Beat(i, true));
      && t.upd == s.upd[i := Updater(s.now + 1200.0, 0, s.upd[i].most)] && t.discs == s.discs
      && t.table.Keys == s.table.Keys
      && forall ep :: ep in t.table ==>
          t.table[ep] ==
            if exists k :: 0 <= k < |s.discs| && s.discs[k].inst == i && s.discs[k].ep == ep && s.discs[k].phase.Flying?
            then Row(true, s.now) else s.table[ep]
  {
    var eps := Flights(s.discs, i);
    assert eps <= s.table.Keys;
  }

  /** One endpoint in flight that was deleted makes the updater fail, whatever the database does: nothing
      of the instance is refreshed, and the failures in a row add up. */
  lemma DeletionFailsUpdater(s: State, i: nat, k: nat, ok: bool)
    requires i < |s.upd| && s.now >= s.upd[i].wake
    requires k < |s.discs| && s.discs[k].inst == i && s.discs[k].phase.Flying? && s.discs[k].ep !in s.table
    ensures Next(s, Beat(i, ok)).table == s.table && Next(s, Beat(i, ok)).upd[i].fails == s.upd[i].fails + 1
    ensures Next(s, Beat(i, ok)).upd[i].wake == s.now + 30.0
  {
    assert s.discs[k].ep in Flights(s.discs, i);
  }

  // ---- The double take-over happens ----

  // One claim is lost with its instance; half an hour later two instances scan before either claims.
  function Lost(ep: string): seq<Step> {
    [Insert(ep), Claim(0, ep, false), Crash(0), Beat(0, true), Beat(1, true), Tick(1200.0)]
  }

  function BothScan(ep: string): seq<Step> {
    [Beat(0, true), Beat(1, true), Tick(600.0), Scan(0), Scan(1), TakeOver(0, ep, true)]
  }

  function LostState(ep: string, now: real, wake: real): State {
    State(now, [Updater(wake, 0, 0), Updater(wake, 0, 0)], map[ep := Row(true, 0.0)], [Disc(0, ep, Over, 0.0)], {})
  }

  lemma RunConcat(s: State, a: seq<Step>, b: seq<Step>)
    ensures Run(s, a + b) == Run(Run(s, a), b)
    decreases |b|
  {
    if b == [] {
      assert a + b == a;
    } else {
      var n := |b| - 1;
      assert (a + b)[..|a + b| - 1] == a + b[..n];
      RunConcat(s, a, b[..n]);
    }
  }

  lemma RunCons(s: State, a: Step, rest: seq<Step>)
    ensures Run(s, [a] + rest) == Run(Next(s, a), rest)
  {
    assert [a][..0] == [];
    assert Run(s, [a]) == Next(Run(s, []), a);
    RunConcat(s, [a], rest);
  }

  lemma LoseOne(ep: string)
    ensures Next(Next(Next(Init(2), Insert(ep)), Claim(0, ep, false)), Crash(0)) == LostState(ep, 0.0, 0.0)
  {
    var s1 := Next(Init(2), Insert(ep));
    assert s1.upd == [Updater(0.0, 0, 0), Updater(0.0, 0, 0)];
    var s2 := Next(s1, Claim(0, ep, false));
    assert s2.discs == [Disc(0, ep, Claimed, 0.0)];
    var s3 := Next(s2, Crash(0));
    assert s3.discs == [Disc(0, ep, Over, 0.0)];
    assert s3.upd == [Updater(0.0, 0, 0), Updater(0.0, 0, 0)];
    assert s3.table == map[ep := Row(true, 0.0)];
  }

  /** Both updaters act, with nothing in flight. */
  lemma BeatBoth(ep: string, now: real)
    ensures Next(Next(LostState(ep, now, now), Beat(0, true)), Beat(1, true)) == LostState(ep, now, now + 1200.0)
  {
    var s := LostState(ep, now, now);
    assert Flights(s.discs, 0) == {} && Flights(s.discs, 1) == {};
    var t := Next(s, Beat(0, true));
    assert t.table == s.table && t.upd == [Updater(now + 1200.0, 0, 0), Updater(now, 0, 0)];
    var r := Next(t, Beat(1, true));
    assert r.table == s.table && r.upd == [Updater(now + 1200.0, 0, 0), Updater(now + 1200.0, 0, 0)];
  }

  lemma Wait(ep: string, now: real, wake: real, d: real)
    requires d > 0.0 && now + d <= wake
    ensures Next(LostState(ep, now, wake), Tick(d)) == LostState(ep, now + d, wake)
  {
    assert CanTick(LostState(ep, now, wake), d);
  }

  /** In a run without a single failure two instances discover one endpoint at a time. */
  lemma DoubleTakeOver(ep: string)
    ensures Run(Init(2), Lost(ep) + BothScan(ep) + [TakeOver(1, ep, true)]).discs
      == [Disc(0, ep, Over, 0.0), Disc(0, ep, Claimed, 1800.0), Disc(1, ep, Claimed, 1800.0)]
  {
    ScanBoth(ep);
    ReachLost(ep);
    ReachScan(ep);
    RunConcat(Init(2), Lost(ep), BothScan(ep));
    RunConcat(Init(2), Lost(ep) + BothScan(ep), [TakeOver(1, ep, true)]);
    RunCons(Run(Init(2), Lost(ep) + BothScan(ep)), TakeOver(1, ep, true), []);
    assert [TakeOver(1, ep, true)] + [] == [TakeOver(1, ep, true)];
  }

  lemma ScanBoth(ep: string)
    ensures var s := Next(Next(Next(Next(LostState(ep, 1800.0, 2400.0), Scan(0)), Scan(1)),
        TakeOver(0, ep, true)), TakeOver(1, ep, true));
      s.discs == [Disc(0, ep, Over, 0.0), Disc(0, ep, Claimed, 1800.0), Disc(1, ep, Claimed, 1800.0)]
  {
    var s := LostState(ep, 1800.0, 2400.0);
    assert Orphans(s) == {ep};
    var t := Next(Next(s, Scan(0)), Scan(1));
    assert Order(0, ep) in t.orders && Order(1, ep) in t.orders && t.discs == s.discs;
    var u := Next(t, TakeOver(0, ep, true));
    assert Order(1, ep) in u.orders && u.discs == s.discs + [Disc(0, ep, Claimed, 1800.0)] && ep in u.table;
    var v := Next(u, TakeOver(1, ep, true));
    assert v.discs == u.discs + [Disc(1, ep, Claimed, 1800.0)];
  }

  lemma RunThree(s: State, a: Step, b: Step, c: Step)
    ensures Run(s, [a, b, c]) == Next(Next(Next(s, a), b), c)
  {
    RunCons(s, a, [b, c]);
    RunCons(Next(s, a), b, [c]);
    RunCons(Next(Next(s, a), b), c, []);
    assert [a] + [b, c] == [a, b, c] && [b] + [c] == [b, c] && [c] + [] == [c];
  }

  lemma RunSix(s: State, a: Step, b: Step, c: Step, d: Step, e: Step, f: Step)
    ensures Run(s, [a, b, c, d, e, f]) == Next(Next(Next(Next(Next(Next(s, a), b), c), d), e), f)
  {
    RunConcat(s, [a, b, c], [d, e, f]);
    assert [a, b, c] + [d, e, f] == [a, b, c, d, e, f];
    RunThree(s, a, b, c);
    RunThree(Run(s, [a, b, c]), d, e, f);
  }

  lemma ReachLost(ep: string)
    ensures Run(Init(2), Lost(ep)) == LostState(ep, 1200.0, 1200.0)
  {
    RunSix(Init(2), Insert(ep), Claim(0, ep, false), Crash(0), Beat(0, true), Beat(1, true), Tick(1200.0));
    LoseOne(ep);
    BeatBoth(ep, 0.0);
    Wait(ep, 0.0, 1200.0, 1200.0);
  }

  lemma ReachScan(ep: string)
    ensures Run(LostState(ep, 1200.0, 1200.0), BothScan(ep))
      == Next(Next(Next(LostState(ep, 1800.0, 2400.0), Scan(0)), Scan(1)), TakeOver(0, ep, true))
  {
    RunSix(LostState(ep, 1200.0, 1200.0), Beat(0, true), Beat(1, true), Tick(600.0),
      Scan(0), Scan(1), TakeOver(0, ep, true));
    BeatBoth(ep, 1200.0);
    Wait(ep, 1200.0, 2400.0, 600.0);
  }
}
