/** The updater's timing: how old the claim of a live discovery can get before it is refreshed, against
    the age at which another instance takes the discovery for an orphan. Times are in seconds. */
module Heartbeat {

  const UPDATE_EVERY := 1200.0
  const RETRY_AFTER := 30.0
  const ORPHAN_AGE := 1800.0

  /** A discovery is Flying while it is in the instance's map; database calls take no time, so no time
      passes between its claim and its entry, or between its removal and its final status. */
  datatype Phase = Pending | Flying | Leaving

  datatype Claim = Claim(lastAttempt: real, phase: Phase)

  /** wake: when the updater acts next; fails: how often in a row its call has failed; most: the
      longest such row so far. */
  datatype State = State(now: real, wake: real, fails: nat, most: nat, live: map<string, Claim>)

  datatype Step =
    | Begin(ep: string)
    | Enter(ep: string)
    | Leave(ep: string)
    | Finish(ep: string)
    | Tick(d: real)
    | Beat(ok: bool)

  const INIT := State(0.0, 0.0, 0, 0, map[])

  predicate AllFlying(s: State) { forall ep :: ep in s.live ==> s.live[ep].phase.Flying? }

  function Refreshed(s: State): map<string, Claim> {
    map ep | ep in s.live :: if s.live[ep].phase.Flying? then s.live[ep].(lastAttempt := s.now) else s.live[ep]
  }

  predicate InPhase(s: State, ep: string, phase: Phase) { ep in s.live && s.live[ep].phase == phase }

  /** One step; a step that is not enabled changes nothing. The updater acts as soon as it wakes, and
      makes no database call when the map is empty. */
  function Next(s: State, a: Step): State {
    match a
    case Begin(ep) => if ep in s.live then s else s.(live := s.live[ep := Claim(s.now, Pending)])
    case Enter(ep) => if InPhase(s, ep, Pending) then s.(live := s.live[ep := s.live[ep].(phase := Flying)]) else s
    case Leave(ep) => if InPhase(s, ep, Flying) then s.(live := s.live[ep := s.live[ep].(phase := Leaving)]) else s
    case Finish(ep) => if InPhase(s, ep, Leaving) then s.(live := s.live - {ep}) else s
    case Tick(d) => if d > 0.0 && s.now + d <= s.wake && AllFlying(s) then s.(now := s.now + d) else s
    case Beat(ok) =>
      if s.now < s.wake then s
      else if ok || forall ep :: ep in s.live ==> !s.live[ep].phase.Flying? then
        State(s.now, s.now + UPDATE_EVERY, 0, s.most, Refreshed(s))
      else s.(wake := s.now + RETRY_AFTER, fails := s.fails + 1,
        most := if s.fails < s.most then s.most else s.fails + 1)
  }

  function Run(s: State, steps: seq<Step>): State {
    if steps == [] then s else Next(Run(s, steps[..|steps| - 1]), steps[|steps| - 1])
  }

  function Age(s: State, ep: string): real
    requires ep in s.live
  {
    s.now - s.live[ep].lastAttempt
  }

  /** What a scan for orphaned discoveries takes over. */
  predicate Orphan(s: State, ep: string) { ep in s.live && Age(s, ep) >= ORPHAN_AGE }

  /** The oldest a claim gets while at most this many calls in a row fail. */
  function Slack(fails: nat): real { UPDATE_EVERY + RETRY_AFTER * (fails as real) }

  /** Claims in the map are as recent as the updater's last success allows, whatever its wake-up time. */
  ghost predicate Inv(s: State) {
    && s.fails <= s.most
    && s.now <= s.wake <= s.now + (if s.fails == 0 then UPDATE_EVERY else RETRY_AFTER)
    && (forall ep :: ep in s.live ==> s.live[ep].lastAttempt <= s.now)
    && (forall ep :: ep in s.live && s.live[ep].phase.Pending? ==> s.live[ep].lastAttempt == s.now)
    && (forall ep :: ep in s.live ==> Age(s, ep) <= Slack(s.most))
    && (forall ep :: ep in s.live && !s.live[ep].phase.Leaving? ==> s.wake - s.live[ep].lastAttempt <= Slack(s.fails))
  }

  lemma MoreSlack(a: nat, b: nat)
    requires a <= b
    ensures Slack(a) <= Slack(b)
  {
  }

  lemma InvNext(s: State, a: Step)
    requires Inv(s)
    ensures Inv(Next(s, a))
  {
    var t := Next(s, a);
    MoreSlack(s.fails, s.most);
    MoreSlack(0, s.most);
    MoreSlack(s.most, t.most);
    if a.Tick? && t != s {
      forall ep | ep in t.live ensures Age(t, ep) <= Slack(t.most) {
        assert s.wake - s.live[ep].lastAttempt <= Slack(s.fails);
      }
    }
    if t.fails == s.fails + 1 {
      assert Slack(t.fails) == Slack(s.fails) + RETRY_AFTER;
    }
  }

  lemma {:induction false} InvRun(steps: seq<Step>)
    ensures Inv(Run(INIT, steps))
  {
    if steps != [] {
      InvRun(steps[..|steps| - 1]);
      InvNext(Run(INIT, steps[..|steps| - 1]), steps[|steps| - 1]);
    }
  }

  /** In every timed run a live discovery's claim is never older than the slack for the longest row of
      failures so far; with at most 19 failures in a row no scan takes it for an orphan. */
  lemma LiveIsNeverOrphan(steps: seq<Step>, ep: string)
    requires var s := Run(INIT, steps); ep in s.live
    ensures var s := Run(INIT, steps);
      Age(s, ep) <= Slack(s.most) && (s.most <= 19 ==> !Orphan(s, ep))
  {
    InvRun(steps);
    var s := Run(INIT, steps);
    if s.most <= 19 {
      MoreSlack(s.most, 19);
    }
  }

  /** A discovery comes and goes without a trace while no time passes. */
  lemma ComesAndGoes(s: State, ep: string)
    requires ep !in s.live
    ensures Next(Next(s, Begin(ep)), Enter(ep)).live == s.live[ep := Claim(s.now, Flying)]
    ensures Next(Next(Next(Next(s, Begin(ep)), Enter(ep)), Leave(ep)), Finish(ep)) == s
  {
    var a := Next(Next(s, Begin(ep)), Enter(ep));
    assert a == s.(live := s.live[ep := Claim(s.now, Flying)]);
    var b := Next(a, Leave(ep));
    assert b == s.(live := s.live[ep := Claim(s.now, Leaving)]);
    assert Next(b, Finish(ep)).live == s.live;
  }

  // ---- The bound is met ----

  /** The updater runs first, the discovery starts right after, and then every call fails. */
  function Worst(fails: nat): seq<Step> {
    if fails == 0 then [Beat(true), Begin("x"), Enter("x"), Tick(UPDATE_EVERY)]
    else Worst(fails - 1) + [Beat(false), Tick(RETRY_AFTER)]
  }

  lemma RunSnoc(s: State, steps: seq<Step>, a: Step)
    ensures Run(s, steps + [a]) == Next(Run(s, steps), a)
  {
    assert (steps + [a])[..|steps|] == steps;
  }

  function WorstState(fails: nat): State {
    State(Slack(fails), Slack(fails), fails, fails, map["x" := Claim(0.0, Flying)])
  }

  lemma {:induction false} WorstRun(fails: nat)
    ensures Run(INIT, Worst(fails)) == WorstState(fails)
  {
    if fails == 0 {
      FirstWait();
    } else {
      WorstRun(fails - 1);
      var before := Worst(fails - 1);
      RunSnoc(INIT, before, Beat(false));
      RunSnoc(INIT, before + [Beat(false)], Tick(RETRY_AFTER));
      assert Worst(fails) == before + [Beat(false)] + [Tick(RETRY_AFTER)];
      FailOnce(fails - 1);
    }
  }

  lemma FailOnce(fails: nat)
    ensures Next(Next(WorstState(fails), Beat(false)), Tick(RETRY_AFTER)) == WorstState(fails + 1)
  {
    var s := WorstState(fails);
    assert Slack(fails + 1) == Slack(fails) + RETRY_AFTER;
    assert s.live["x"].phase.Flying?;
    assert Next(s, Beat(false)) == State(s.now, s.now + RETRY_AFTER, fails + 1, fails + 1, s.live);
  }

  const AWAKE := State(0.0, UPDATE_EVERY, 0, 0, map[])
  const BEGUN := State(0.0, UPDATE_EVERY, 0, 0, map["x" := Claim(0.0, Pending)])
  const ENTERED := State(0.0, UPDATE_EVERY, 0, 0, map["x" := Claim(0.0, Flying)])

  lemma FirstWait()
    ensures Run(INIT, Worst(0)) == WorstState(0)
  {
    FirstBeat();
    FirstBegin();
    FirstEnter();
    FirstTick();
    RunFour(INIT, Beat(true), Begin("x"), Enter("x"), Tick(UPDATE_EVERY));
  }

  lemma FirstBeat()
    ensures Next(INIT, Beat(true)) == AWAKE
  {
    assert Refreshed(INIT) == map[];
  }

  lemma FirstBegin()
    ensures Next(AWAKE, Begin("x")) == BEGUN
  {
  }

  lemma FirstEnter()
    ensures Next(BEGUN, Enter("x")) == ENTERED
  {
    assert BEGUN.live["x" := Claim(0.0, Flying)] == ENTERED.live;
  }

  lemma FirstTick()
    ensures Next(ENTERED, Tick(UPDATE_EVERY)) == WorstState(0)
  {
    assert AllFlying(ENTERED);
  }

  lemma RunFour(s: State, a: Step, b: Step, c: Step, d: Step)
    ensures Run(s, [a, b, c, d]) == Next(Next(Next(Next(s, a), b), c), d)
  {
    RunSnoc(s, [], a);
    RunSnoc(s, [a], b);
    RunSnoc(s, [a, b], c);
    RunSnoc(s, [a, b, c], d);
    assert [] + [a] == [a] && [a] + [b] == [a, b] && [a, b] + [c] == [a, b, c] && [a, b, c] + [d] == [a, b, c, d];
  }

  /** For every number of failures there is a run in which a live claim gets exactly that old, so a scan
      can take over a live discovery exactly when 20 calls in a row can fail. */
  lemma BoundIsTight(fails: nat)
    ensures var s := Run(INIT, Worst(fails));
      s.most == fails && InPhase(s, "x", Flying) && Age(s, "x") == Slack(fails) && (Orphan(s, "x") <==> fails >= 20)
  {
    WorstRun(fails);
  }
}
