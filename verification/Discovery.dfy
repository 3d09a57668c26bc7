/** Who discovers an endpoint: the status in the database as a claim, the reference counted map of
    discoveries in flight on each instance, and the updater that refreshes the claims it finds there. */
module Discovery {
  import opened Collect

  // ---- The map of discoveries in flight ----

  type Refs = map<string, nat>

  function RefCount(m: Refs, id: string): nat { if id in m then m[id] else 0 }

  function Without(m: Refs, id: string): Refs { m - {id} }

  /** Every id in the map is counted at least once. */
  predicate NoZero(m: Refs) { forall id :: id in m ==> m[id] > 0 }

  function Added(m: Refs, id: string): (r: Refs)
    ensures forall x :: RefCount(r, x) == RefCount(m, x) + (if x == id then 1 else 0)
    ensures NoZero(m) ==> NoZero(r)
  {
    if id in m then m[id := m[id] + 1] else m[id := 1]
  }

  function Dropped(m: Refs, id: string): (r: Refs)
    ensures forall x :: RefCount(r, x) == if x == id && RefCount(m, x) > 0 then RefCount(m, x) - 1 else RefCount(m, x)
    ensures NoZero(m) ==> NoZero(r)
  {
    if id !in m then m else if m[id] <= 1 then Without(m, id) else m[id := m[id] - 1]
  }

  /** Removing right after adding restores the map, whatever was in it. */
  lemma DropUndoesAdd(m: Refs, id: string)
    requires NoZero(m)
    ensures Dropped(Added(m, id), id) == m
  {
    assert id !in m ==> Without(m[id := 1], id) == m;
  }

  class DiscoveryMap {
    var discMap: Refs

    constructor ()
      ensures discMap == map[]
    {
      discMap := map[];
    }

    method Add(id: string)
      modifies this
      ensures discMap == Added(old(discMap), id)
    {
      if id in discMap {
        discMap := discMap[id := discMap[id] + 1];
      } else {
        discMap := discMap[id := 1];
      }
    }

    method Remove(id: string)
      modifies this
      ensures discMap == Dropped(old(discMap), id)
    {
      if id in discMap {
        var ref := discMap[id];
        if ref <= 1 {
          discMap := Without(discMap, id);
        } else {
          discMap := discMap[id := ref - 1];
        }
      }
    }
  }

  // ---- The claim in the database ----

  /** Started is the claim; any other last status is Other. */
  datatype Status = Started | Other

  type Table = map<string, Status>

  /** Endpoints can be claimed together only when each is in the table, once. */
  predicate AllKnown(t: Table, ids: seq<string>) {
    Distinct(ids) && forall i :: 0 <= i < |ids| ==> ids[i] in t
  }

  /** Those of the endpoints that are not being discovered yet; all of them when forced. */
  function Free(t: Table, ids: seq<string>, force: bool): (r: seq<string>)
    ensures forall x :: x in r <==> x in ids && (force || x !in t || t[x].Other?)
    ensures Distinct(ids) ==> Distinct(r)
  {
    if ids == [] then [] else
      var last := ids[|ids| - 1];
      var before := Free(t, ids[..|ids| - 1], force);
      assert Distinct(ids) ==> last !in ids[..|ids| - 1];
      assert last !in ids[..|ids| - 1] && Distinct(before) ==> Distinct(before + [last]);
      if force || last !in t || t[last].Other? then before + [last] else before
  }

  function Picked(t: Table, ids: seq<string>, force: bool): (r: seq<string>)
    ensures AllKnown(t, ids) ==> forall x :: x in r <==> x in ids && (force || t[x].Other?)
    ensures !AllKnown(t, ids) ==> r == []
    ensures Distinct(r)
  {
    if AllKnown(t, ids) then Free(t, ids, force) else []
  }

  function Marked(t: Table, ids: seq<string>): (r: Table)
    ensures r.Keys == t.Keys
    ensures forall x :: x in t ==> r[x] == if x in ids then Started else t[x]
  {
    map x | x in t :: if x in ids then Started else t[x]
  }

  class Endpoints {
    var table: Table

    /** Claims what is free and returns it; on an error nothing is claimed. */
    method UpdateRFEndpointForDiscover(ids: seq<string>, force: bool, ok: bool) returns (modEPs: seq<string>, err: bool)
      modifies this
      ensures err <==> !ok || !AllKnown(old(table), ids)
      ensures !ok || (exists id :: id in ids && id !in old(table)) || !Distinct(ids) ==> err
      ensures !err ==> forall id :: id in modEPs <==> id in ids && (force || old(table)[id].Other?)
      ensures table.Keys == old(table).Keys
      ensures forall id :: id in table ==>
        table[id] == if !err && id in ids && (force || old(table)[id].Other?) then Started else old(table)[id]
      ensures modEPs == if err then [] else Picked(old(table), ids, force)
      ensures table == Marked(old(table), modEPs)
      ensures !force && ids != [] && !err ==> (modEPs == [] <==> forall id :: id in ids ==> old(table)[id].Started?)
    {
      assert Marked(table, []) == table;
      if !ok || !AllKnown(table, ids) {
        return [], true;
      }
      modEPs, err := [], false;
      for i := 0 to |ids|
        invariant modEPs == Free(table, ids[..i], force)
        invariant table == old(table)
      {
        assert ids[..i + 1][..i] == ids[..i];
        if force || table[ids[i]] != Started {
          modEPs := modEPs + [ids[i]];
        }
      }
      assert ids[..|ids|] == ids;
      if |modEPs| > 0 {
        assert modEPs[0] in modEPs;
        table := Marked(table, modEPs);
      }
    }
  }

  // ---- The protocol ----

  /** A discovery is claimed, then in the map, then out of it, and done once its final status is
      stored; it is lost when the endpoint turns out invalid after its claim, when its instance dies,
      or when the status cannot be stored. */
  datatype Phase = Claimed | InFlight | Removed | Done | Lost

  datatype Disc = Disc(inst: nat, ep: string, phase: Phase) {
    predicate Live() { phase.Claimed? || phase.InFlight? || phase.Removed? }
  }

  /** The updater holds the mutex from reading the map until after its database call. */
  datatype Updater = Idle | Holding(ids: set<string>) | Written

  datatype Instance = Instance(refs: Refs, updater: Updater)

  datatype State = State(table: Table, insts: seq<Instance>, discs: seq<Disc>)

  datatype Step =
    | Insert(ep: string)
    | Delete(ep: string)
    | Claim(inst: nat, ids: seq<string>, force: bool)
    | Skip(k: nat)
    | MapAdd(k: nat)
    | MapRemove(k: nat)
    | Store(k: nat, ok: bool)
    | Lock(inst: nat)
    | Write(inst: nat, ok: bool)
    | Unlock(inst: nat)
    | Crash(inst: nat)

  function Init(n: nat): State { State(map[], seq(n, _ => Instance(map[], Idle)), []) }

  function NewDiscs(i: nat, ids: seq<string>): (r: seq<Disc>)
    ensures |r| == |ids| && forall k :: 0 <= k < |r| ==> r[k] == Disc(i, ids[k], Claimed)
  {
    seq(|ids|, k requires 0 <= k < |ids| => Disc(i, ids[k], Claimed))
  }

  /** The instance's discoveries end where they are. */
  function Killed(discs: seq<Disc>, i: nat): (r: seq<Disc>)
    ensures |r| == |discs|
    ensures forall k :: 0 <= k < |r| ==>
        r[k] == if discs[k].inst == i && discs[k].Live() then discs[k].(phase := Lost) else discs[k]
  {
    seq(|discs|, k requires 0 <= k < |discs| =>
      if discs[k].inst == i && discs[k].Live() then discs[k].(phase := Lost) else discs[k])
  }

  /** The updater's database call: every id in the map must be in the table, or none is refreshed. */
  function Refreshed(t: Table, ids: set<string>, ok: bool): (r: Table)
    ensures r.Keys == t.Keys
    ensures forall x :: x in t ==> r[x] == if ok && ids <= t.Keys && x in ids then Started else t[x]
  {
    map x | x in t :: if ok && ids <= t.Keys && x in ids then Started else t[x]
  }

  /** Whether the step's next action is the discovery's, and it does not wait for the mutex. */
  predicate Ready(s: State, k: nat, phase: Phase) {
    && k < |s.discs| && s.discs[k].phase == phase && s.discs[k].inst < |s.insts|
    && (phase.Removed? || s.insts[s.discs[k].inst].updater.Idle?)
  }

  /** One step; a step that is not enabled changes nothing. */
  function Next(s: State, a: Step): (r: State)
    ensures |r.insts| == |s.insts|
  {
    match a
    case Insert(ep) => if ep in s.table then s else s.(table := s.table[ep := Other])
    case Delete(ep) => s.(table := s.table - {ep})
    case Claim(i, ids, force) =>
      if i >= |s.insts| then s else
        var picked := Picked(s.table, ids, force);
        s.(table := Marked(s.table, picked), discs := s.discs + NewDiscs(i, picked))
    case Skip(k) =>
      if k < |s.discs| && s.discs[k].phase.Claimed? then s.(discs := s.discs[k := s.discs[k].(phase := Lost)]) else s
    case MapAdd(k) => if Ready(s, k, Claimed) then Moved(s, k, InFlight, Added(RefsOf(s, k), s.discs[k].ep)) else s
    case MapRemove(k) => if Ready(s, k, InFlight) then Moved(s, k, Removed, Dropped(RefsOf(s, k), s.discs[k].ep)) else s
    case Store(k, ok) =>
      if !Ready(s, k, Removed) then s
      else if !ok then s.(discs := s.discs[k := s.discs[k].(phase := Lost)])
      else Stored(s, k)
    case Lock(i) =>
      if i < |s.insts| && s.insts[i].updater.Idle? && s.insts[i].refs != map[] then
        s.(insts := s.insts[i := s.insts[i].(updater := Holding(s.insts[i].refs.Keys))])
      else s
    case Write(i, ok) =>
      if i < |s.insts| && s.insts[i].updater.Holding? then
        s.(table := Refreshed(s.table, s.insts[i].updater.ids, ok),
          insts := s.insts[i := s.insts[i].(updater := Written)])
      else s
    case Unlock(i) =>
      if i < |s.insts| && s.insts[i].updater.Written? then
        s.(insts := s.insts[i := s.insts[i].(updater := Idle)]) else s
    case Crash(i) =>
      if i < |s.insts| then s.(insts := s.insts[i := Instance(map[], Idle)], discs := Killed(s.discs, i)) else s
  }

  function RefsOf(s: State, k: nat): Refs
    requires k < |s.discs| && s.discs[k].inst < |s.insts|
  {
    s.insts[s.discs[k].inst].refs
  }

  function Moved(s: State, k: nat, phase: Phase, refs: Refs): State
    requires k < |s.discs| && s.discs[k].inst < |s.insts|
  {
    var i := s.discs[k].inst;
    s.(insts := s.insts[i := s.insts[i].(refs := refs)], discs := s.discs[k := s.discs[k].(phase := phase)])
  }

  /** The final status reaches the table, if the endpoint is still there. */
  function Stored(s: State, k: nat): State
    requires k < |s.discs|
  {
    var ep := s.discs[k].ep;
    s.(table := if ep in s.table then s.table[ep := Other] else s.table,
      discs := s.discs[k := s.discs[k].(phase := Done)])
  }

  function Run(s: State, steps: seq<Step>): State {
    if steps == [] then s else Next(Run(s, steps[..|steps| - 1]), steps[|steps| - 1])
  }

  // ---- Counting ----

  predicate Flying(d: Disc, i: nat, ep: string) { d.inst == i && d.ep == ep && d.phase.InFlight? }

  function InFlightCount(discs: seq<Disc>, i: nat, ep: string): nat {
    if discs == [] then 0
    else InFlightCount(discs[..|discs| - 1], i, ep) + (if Flying(discs[|discs| - 1], i, ep) then 1 else 0)
  }

  lemma {:induction false} CountUpdate(discs: seq<Disc>, k: nat, d: Disc, i: nat, ep: string)
    requires k < |discs|
    ensures InFlightCount(discs[k := d], i, ep) + (if Flying(discs[k], i, ep) then 1 else 0)
         == InFlightCount(discs, i, ep) + (if Flying(d, i, ep) then 1 else 0)
  {
    var n := |discs| - 1;
    if k == n {
      assert discs[k := d][..n] == discs[..n];
    } else {
      assert discs[k := d][..n] == discs[..n][k := d];
      CountUpdate(discs[..n], k, d, i, ep);
    }
  }

  lemma {:induction false} CountClaims(discs: seq<Disc>, more: seq<Disc>, i: nat, ep: string)
    requires forall k :: 0 <= k < |more| ==> more[k].phase.Claimed?
    ensures InFlightCount(discs + more, i, ep) == InFlightCount(discs, i, ep)
  {
    if more == [] {
      assert discs + more == discs;
    } else {
      var n := |more| - 1;
      assert (discs + more)[..|discs| + n] == discs + more[..n];
      CountClaims(discs, more[..n], i, ep);
    }
  }

  lemma {:induction false} CountKilled(discs: seq<Disc>, dead: nat, i: nat, ep: string)
    ensures InFlightCount(Killed(discs, dead), i, ep) == if i == dead then 0 else InFlightCount(discs, i, ep)
  {
    if discs != [] {
      var n := |discs| - 1;
      assert Killed(discs, dead)[..n] == Killed(discs[..n], dead);
      CountKilled(discs[..n], dead, i, ep);
    }
  }

  lemma {:induction false} CountWitness(discs: seq<Disc>, i: nat, ep: string)
    ensures InFlightCount(discs, i, ep) > 0 <==> exists k :: 0 <= k < |discs| && Flying(discs[k], i, ep)
  {
    if discs != [] {
      var n := |discs| - 1;
      CountWitness(discs[..n], i, ep);
      if k :| 0 <= k < |discs| && Flying(discs[k], i, ep) {
        assert k < n ==> Flying(discs[..n][k], i, ep);
      }
      if k :| 0 <= k < n && Flying(discs[..n][k], i, ep) {
        assert Flying(discs[k], i, ep);
      }
    }
  }

  // ---- What every step keeps ----

  /** The map counts the discoveries in flight, and holds still while the updater has the mutex. */
  ghost predicate Counted(x: Instance, discs: seq<Disc>, i: nat) {
    && NoZero(x.refs)
    && (forall ep :: RefCount(x.refs, ep) == InFlightCount(discs, i, ep))
    && (x.updater.Holding? ==> x.updater.ids == x.refs.Keys)
  }

  /** Whoever claimed the endpoint is still at it, or was lost. */
  predicate Owned(discs: seq<Disc>, ep: string) {
    exists k :: 0 <= k < |discs| && discs[k].ep == ep && !discs[k].phase.Done?
  }

  ghost predicate Inv(s: State) {
    && (forall i :: 0 <= i < |s.insts| ==> Counted(s.insts[i], s.discs, i))
    && (forall k :: 0 <= k < |s.discs| ==> s.discs[k].inst < |s.insts|)
    && (forall ep :: ep in s.table && s.table[ep].Started? ==> Owned(s.discs, ep))
  }

  lemma OwnedAfter(discs: seq<Disc>, later: seq<Disc>, ep: string)
    requires Owned(discs, ep) && |discs| <= |later|
    requires forall k :: 0 <= k < |discs| ==>
        later[k].ep == discs[k].ep && (later[k].phase.Done? ==> discs[k].phase.Done?)
    ensures Owned(later, ep)
  {
    var k :| 0 <= k < |discs| && discs[k].ep == ep && !discs[k].phase.Done?;
    assert later[k].ep == ep;
  }

  lemma CountedAfterMove(s: State, k: nat, phase: Phase, refs: Refs)
    requires Inv(s) && k < |s.discs| && s.insts[s.discs[k].inst].updater.Idle?
    requires var d, m := s.discs[k], RefsOf(s, k);
      || (d.phase.Claimed? && phase.InFlight? && refs == Added(m, d.ep))
      || (d.phase.InFlight? && phase.Removed? && refs == Dropped(m, d.ep))
    ensures Inv(Moved(s, k, phase, refs))
  {
    var d, t := s.discs[k], Moved(s, k, phase, refs);
    var d' := d.(phase := phase);
    forall i | 0 <= i < |t.insts| ensures Counted(t.insts[i], t.discs, i) {
      assert Counted(s.insts[i], s.discs, i);
      assert Counted(s.insts[d.inst], s.discs, d.inst);
      forall ep ensures RefCount(t.insts[i].refs, ep) == InFlightCount(t.discs, i, ep) {
        CountUpdate(s.discs, k, d', i, ep);
        CountWitness(s.discs, i, ep);
        assert Flying(s.discs[k], i, ep) ==> InFlightCount(s.discs, i, ep) > 0;
      }
    }
    forall ep | ep in t.table && t.table[ep].Started? ensures Owned(t.discs, ep) {
      OwnedAfter(s.discs, t.discs, ep);
    }
  }

  lemma InvStore(s: State, k: nat, ok: bool)
    requires Inv(s)
    ensures Inv(Next(s, Store(k, ok)))
  {
    if Ready(s, k, Removed) {
      var t := Next(s, Store(k, ok));
      forall i | 0 <= i < |t.insts| ensures Counted(t.insts[i], t.discs, i) {
        assert Counted(s.insts[i], s.discs, i);
        forall ep ensures InFlightCount(t.discs, i, ep) == InFlightCount(s.discs, i, ep) {
          CountUpdate(s.discs, k, t.discs[k], i, ep);
        }
      }
      forall ep | ep in t.table && t.table[ep].Started? ensures Owned(t.discs, ep) {
        var o :| 0 <= o < |s.discs| && s.discs[o].ep == ep && !s.discs[o].phase.Done?;
        assert t.discs[o].ep == ep;
      }
    }
  }

  lemma InvSkip(s: State, k: nat)
    requires Inv(s)
    ensures Inv(Next(s, Skip(k)))
  {
    var t := Next(s, Skip(k));
    if t != s {
      forall i | 0 <= i < |t.insts| ensures Counted(t.insts[i], t.discs, i) {
        assert Counted(s.insts[i], s.discs, i);
        forall ep ensures InFlightCount(t.discs, i, ep) == InFlightCount(s.discs, i, ep) {
          CountUpdate(s.discs, k, t.discs[k], i, ep);
        }
      }
      forall ep | ep in t.table && t.table[ep].Started? ensures Owned(t.discs, ep) {
        OwnedAfter(s.discs, t.discs, ep);
      }
    }
  }

  lemma InvClaim(s: State, i: nat, ids: seq<string>, force: bool)
    requires Inv(s)
    ensures Inv(Next(s, Claim(i, ids, force)))
  {
    if i < |s.insts| {
      var picked := Picked(s.table, ids, force);
      var t := Next(s, Claim(i, ids, force));
      forall j | 0 <= j < |t.insts| ensures Counted(t.insts[j], t.discs, j) {
        assert Counted(s.insts[j], s.discs, j);
        forall ep ensures InFlightCount(t.discs, j, ep) == InFlightCount(s.discs, j, ep) {
          CountClaims(s.discs, NewDiscs(i, picked), j, ep);
        }
      }
      forall ep | ep in t.table && t.table[ep].Started? ensures Owned(t.discs, ep) {
        if ep in picked {
          var n :| 0 <= n < |picked| && picked[n] == ep;
          assert t.discs[|s.discs| + n] == Disc(i, ep, Claimed);
        } else {
          OwnedAfter(s.discs, t.discs, ep);
        }
      }
    }
  }

  lemma InvCrash(s: State, dead: nat)
    requires Inv(s)
    ensures Inv(Next(s, Crash(dead)))
  {
    if dead < |s.insts| {
      var t := Next(s, Crash(dead));
      forall i | 0 <= i < |t.insts| ensures Counted(t.insts[i], t.discs, i) {
        assert Counted(s.insts[i], s.discs, i);
        forall ep ensures RefCount(t.insts[i].refs, ep) == InFlightCount(t.discs, i, ep) {
          CountKilled(s.discs, dead, i, ep);
        }
      }
      forall ep | ep in t.table && t.table[ep].Started? ensures Owned(t.discs, ep) {
        OwnedAfter(s.discs, t.discs, ep);
      }
    }
  }

  /** An id in the map has a discovery in flight on that instance. */
  lemma InMapIsFlying(s: State, i: nat, ep: string)
    requires Inv(s) && i < |s.insts|
    ensures ep in s.insts[i].refs <==> exists k :: 0 <= k < |s.discs| && Flying(s.discs[k], i, ep)
  {
    assert Counted(s.insts[i], s.discs, i);
    assert RefCount(s.insts[i].refs, ep) == InFlightCount(s.discs, i, ep);
    CountWitness(s.discs, i, ep);
  }

  lemma InvUpdater(s: State, i: nat, a: Step)
    requires Inv(s) && (a == Lock(i) || a == Unlock(i) || (a.Write? && a.inst == i))
    ensures Inv(Next(s, a))
  {
    var t := Next(s, a);
    forall j | 0 <= j < |t.insts| ensures Counted(t.insts[j], t.discs, j) {
      assert Counted(s.insts[j], s.discs, j);
      assert t.insts[j].refs == s.insts[j].refs;
    }
    forall ep | ep in t.table && t.table[ep].Started? ensures Owned(t.discs, ep) {
      if !s.table[ep].Started? {
        assert Counted(s.insts[i], s.discs, i);
        InMapIsFlying(s, i, ep);
      }
    }
  }

  lemma InvNext(s: State, a: Step)
    requires Inv(s)
    ensures Inv(Next(s, a))
  {
    match a
    case MapAdd(k) =>
      if Ready(s, k, Claimed) {
        CountedAfterMove(s, k, InFlight, Added(RefsOf(s, k), s.discs[k].ep));
      }
    case MapRemove(k) =>
      if Ready(s, k, InFlight) {
        CountedAfterMove(s, k, Removed, Dropped(RefsOf(s, k), s.discs[k].ep));
      }
    case Skip(k) => InvSkip(s, k);
    case Claim(i, ids, force) => InvClaim(s, i, ids, force);
    case Store(k, ok) => InvStore(s, k, ok);
    case Crash(i) => InvCrash(s, i);
    case Lock(i) => InvUpdater(s, i, a);
    case Write(i, _) => InvUpdater(s, i, a);
    case Unlock(i) => InvUpdater(s, i, a);
    case Insert(_) => assert Next(s, a).discs == s.discs && Next(s, a).insts == s.insts;
    case Delete(_) => assert Next(s, a).discs == s.discs && Next(s, a).insts == s.insts;
  }

  lemma {:induction false} InvRun(n: nat, steps: seq<Step>)
    ensures Inv(Run(Init(n), steps))
  {
    if steps != [] {
      InvRun(n, steps[..|steps| - 1]);
      InvNext(Run(Init(n), steps[..|steps| - 1]), steps[|steps| - 1]);
    }
  }

  // ---- Results over every run ----

  predicate HasLive(s: State, ep: string) {
    exists k :: 0 <= k < |s.discs| && s.discs[k].ep == ep && s.discs[k].Live()
  }

  predicate HasLost(s: State, ep: string) {
    exists k :: 0 <= k < |s.discs| && s.discs[k].ep == ep && s.discs[k].phase.Lost?
  }

  /** In every run, on every instance, an endpoint's count in the map is the number of its
      discoveries there between being added and being removed; at zero it has no entry. */
  lemma MapCountsInFlight(n: nat, steps: seq<Step>, i: nat, ep: string)
    requires i < n
    ensures var s := Run(Init(n), steps);
      && |s.insts| == n
      && RefCount(s.insts[i].refs, ep) == InFlightCount(s.discs, i, ep)
      && (ep in s.insts[i].refs <==> exists k :: 0 <= k < |s.discs| && Flying(s.discs[k], i, ep))
  {
    InvRun(n, steps);
    SameInstances(n, steps);
    InMapIsFlying(Run(Init(n), steps), i, ep);
    assert Counted(Run(Init(n), steps).insts[i], Run(Init(n), steps).discs, i);
  }

  lemma {:induction false} SameInstances(n: nat, steps: seq<Step>)
    ensures |Run(Init(n), steps).insts| == n
  {
    if steps != [] {
      SameInstances(n, steps[..|steps| - 1]);
    }
  }

  /** After any run, an instance's updater turns an endpoint back to Started only while a
      discovery of it is in flight on that very instance. */
  lemma UpdaterIsHonest(n: nat, steps: seq<Step>, i: nat, ok: bool, ep: string)
    requires var s, t := Run(Init(n), steps), Run(Init(n), steps + [Write(i, ok)]);
      ep in s.table && s.table[ep].Other? && ep in t.table && t.table[ep].Started?
    ensures exists k :: 0 <= k < |Run(Init(n), steps).discs| && Flying(Run(Init(n), steps).discs[k], i, ep)
  {
    var s := Run(Init(n), steps);
    assert (steps + [Write(i, ok)])[..|steps|] == steps;
    InvRun(n, steps);
    assert Counted(s.insts[i], s.discs, i);
    InMapIsFlying(s, i, ep);
  }

  /** No endpoint stays claimed for nothing: a Started one has a discovery that is under way, or
      that was lost with its instance or its status write and waits to be taken over. */
  lemma StartedHasOwner(n: nat, steps: seq<Step>, ep: string)
    requires var s := Run(Init(n), steps); ep in s.table && s.table[ep].Started?
    ensures HasLive(Run(Init(n), steps), ep) || HasLost(Run(Init(n), steps), ep)
  {
    var s := Run(Init(n), steps);
    InvRun(n, steps);
    var k :| 0 <= k < |s.discs| && s.discs[k].ep == ep && !s.discs[k].phase.Done?;
    assert s.discs[k].Live() || s.discs[k].phase.Lost?;
  }

  /** One endpoint that was deleted while its discovery is in flight keeps the updater from
      refreshing any endpoint; otherwise a successful call refreshes all of them. */
  lemma RefreshIsAllOrNothing(n: nat, steps: seq<Step>, i: nat)
    requires var s := Run(Init(n), steps); i < |s.insts| && s.insts[i].updater.Holding?
    ensures var s := Run(Init(n), steps);
      var t := Next(s, Write(i, true)).table;
      if s.insts[i].refs.Keys <= s.table.Keys then forall ep :: ep in s.insts[i].refs ==> t[ep].Started?
      else t == s.table
  {
    InvRun(n, steps);
    var s := Run(Init(n), steps);
    assert Counted(s.insts[i], s.discs, i);
  }

  /** A claim starts a discovery of each endpoint asked for that is not being discovered, of all of them
      when forced, and of nothing else; whatever was going on before goes on. */
  lemma ClaimTakesAll(s: State, i: nat, ids: seq<string>, force: bool)
    requires i < |s.insts| && Distinct(ids) && forall id :: id in ids ==> id in s.table
    ensures var t := Next(s, Claim(i, ids, force));
      && t.insts == s.insts && t.table.Keys == s.table.Keys && s.discs <= t.discs
      && (forall id :: id in t.table ==>
            t.table[id] == if id in ids && (force || s.table[id].Other?) then Started else s.table[id])
      && (forall k :: |s.discs| <= k < |t.discs| ==> t.discs[k].inst == i && t.discs[k].phase.Claimed?)
      && (forall id :: (exists k :: |s.discs| <= k < |t.discs| && t.discs[k].ep == id) <==>
            id in ids && (force || s.table[id].Other?))
  {
    var picked, t := Picked(s.table, ids, force), Next(s, Claim(i, ids, force));
    forall id | id in picked ensures exists k :: |s.discs| <= k < |t.discs| && t.discs[k].ep == id {
      var j :| 0 <= j < |picked| && picked[j] == id;
      assert t.discs[|s.discs| + j].ep == id;
    }
  }

  /** A discovery that runs through leaves nothing behind but its final status. */
  lemma ThroughAndDone(s: State, k: nat)
    requires k < |s.discs| && s.discs[k].phase.Claimed? && s.discs[k].inst < |s.insts|
    requires s.insts[s.discs[k].inst].updater.Idle? && NoZero(s.insts[s.discs[k].inst].refs)
    ensures var t := Next(Next(Next(s, MapAdd(k)), MapRemove(k)), Store(k, true));
      && t.insts == s.insts && t.discs == s.discs[k := s.discs[k].(phase := Done)]
      && t.table == if s.discs[k].ep in s.table then s.table[s.discs[k].ep := Other] else s.table
  {
    var i, ep := s.discs[k].inst, s.discs[k].ep;
    DropUndoesAdd(s.insts[i].refs, ep);
    var a := Next(s, MapAdd(k));
    assert a.insts[i] == Instance(Added(s.insts[i].refs, ep), Idle) && a.discs[k] == Disc(i, ep, InFlight);
    var b := Next(a, MapRemove(k));
    assert b.insts[i] == s.insts[i] && b.insts == s.insts && b.discs[k] == Disc(i, ep, Removed);
    assert Next(b, Store(k, true)) == Stored(b, k);
  }

  // ---- One discovery at a time ----

  ghost predicate NoTwoLive(discs: seq<Disc>) {
    forall j, k :: 0 <= j < k < |discs| && discs[j].Live() && discs[k].Live() ==> discs[j].ep != discs[k].ep
  }

  /** The table shows every live discovery's claim. */
  ghost predicate Shown(discs: seq<Disc>, t: Table) {
    forall k :: 0 <= k < |discs| && discs[k].Live() ==> discs[k].ep in t && t[discs[k].ep].Started?
  }

  ghost predicate Exclusive(s: State) { NoTwoLive(s.discs) && Shown(s.discs, s.table) }

  /** A step that respects claims: nothing is deleted, and nothing claimed by force, while a
      discovery of it is live. */
  ghost predicate Rightful(s: State, a: Step) {
    && (a.Delete? ==> !HasLive(s, a.ep))
    && (a.Claim? && a.force && a.inst < |s.insts| && AllKnown(s.table, a.ids) ==>
      forall id :: id in a.ids ==> !HasLive(s, id))
  }

  /** Exactly the rightful steps keep discoveries exclusive. */
  lemma RightfulKeepsExclusive(s: State, a: Step)
    requires Inv(s) && Exclusive(s)
    ensures Exclusive(Next(s, a)) <==> Rightful(s, a)
  {
    match a
    case Claim(i, ids, force) =>
      if i < |s.insts| {
        ClaimKeepsExclusive(s, i, ids, force);
      }
    case Delete(ep) => DeleteKeepsExclusive(s, ep);
    case Crash(i) =>
      if i < |s.insts| {
        FewerLive(s.discs, Next(s, a).discs, s.table);
      }
    case Store(k, ok) =>
      if Ready(s, k, Removed) {
        StoreKeepsExclusive(s, k, ok);
      }
    case _ =>
      assert Shown(s.discs, Next(s, a).table);
      FewerLive(s.discs, Next(s, a).discs, Next(s, a).table);
  }

  /** Ending discoveries, or moving them along, keeps exclusiveness. */
  lemma FewerLive(discs: seq<Disc>, later: seq<Disc>, t: Table)
    requires NoTwoLive(discs) && Shown(discs, t) && |later| == |discs|
    requires forall k :: 0 <= k < |discs| ==> later[k].ep == discs[k].ep && (later[k].Live() ==> discs[k].Live())
    ensures NoTwoLive(later) && Shown(later, t)
  {
  }

  lemma DeleteKeepsExclusive(s: State, ep: string)
    requires Exclusive(s)
    ensures Shown(s.discs, s.table - {ep}) <==> !HasLive(s, ep)
  {
    if HasLive(s, ep) {
      var k :| 0 <= k < |s.discs| && s.discs[k].ep == ep && s.discs[k].Live();
      assert s.discs[k].ep !in s.table - {ep};
    }
  }

  lemma StoreKeepsExclusive(s: State, k: nat, ok: bool)
    requires Exclusive(s) && k < |s.discs| && s.discs[k].Live()
    ensures Exclusive(Stored(s, k)) && NoTwoLive(s.discs[k := s.discs[k].(phase := Lost)])
      && Shown(s.discs[k := s.discs[k].(phase := Lost)], s.table)
  {
    forall j | 0 <= j < |s.discs| && j != k && s.discs[j].Live() ensures s.discs[j].ep != s.discs[k].ep {
      assert j < k || k < j;
    }
  }

  lemma ClaimKeepsExclusive(s: State, i: nat, ids: seq<string>, force: bool)
    requires Exclusive(s) && i < |s.insts|
    ensures Exclusive(Next(s, Claim(i, ids, force))) <==> Rightful(s, Claim(i, ids, force))
  {
    var picked := Picked(s.table, ids, force);
    if Rightful(s, Claim(i, ids, force)) {
      forall k | 0 <= k < |s.discs| && s.discs[k].Live() ensures s.discs[k].ep !in picked {
        assert HasLive(s, s.discs[k].ep);
      }
      AppendKeepsExclusive(s.discs, i, picked);
    } else {
      var id :| id in ids && HasLive(s, id);
      AppendBreaksExclusive(s, i, picked, id);
    }
  }

  lemma AppendBreaksExclusive(s: State, i: nat, picked: seq<string>, id: string)
    requires id in picked && HasLive(s, id)
    ensures !NoTwoLive(s.discs + NewDiscs(i, picked))
  {
    var j :| 0 <= j < |s.discs| && s.discs[j].ep == id && s.discs[j].Live();
    var k :| 0 <= k < |picked| && picked[k] == id;
    var discs := s.discs + NewDiscs(i, picked);
    assert discs[j] == s.discs[j] && discs[|s.discs| + k] == Disc(i, id, Claimed);
  }

  lemma AppendKeepsExclusive(discs: seq<Disc>, i: nat, picked: seq<string>)
    requires NoTwoLive(discs) && Distinct(picked)
    requires forall k :: 0 <= k < |discs| && discs[k].Live() ==> discs[k].ep !in picked
    ensures NoTwoLive(discs + NewDiscs(i, picked))
  {
    var more := NewDiscs(i, picked);
    var all := discs + more;
    forall j, k | 0 <= j < k < |all| && all[j].Live() && all[k].Live() ensures all[j].ep != all[k].ep {
      if k >= |discs| {
        assert all[k].ep == picked[k - |discs|];
        assert j >= |discs| ==> all[j].ep == picked[j - |discs|];
      }
    }
  }

  /** In a run whose every step respects claims, no endpoint is ever discovered twice at a time. */
  lemma {:induction false} OneDiscoveryAtATime(n: nat, steps: seq<Step>)
    requires forall m :: 0 <= m < |steps| ==> Rightful(Run(Init(n), steps[..m]), steps[m])
    ensures Exclusive(Run(Init(n), steps))
  {
    if steps != [] {
      var before := steps[..|steps| - 1];
      forall m | 0 <= m < |before| ensures Rightful(Run(Init(n), before[..m]), before[m]) {
        assert before[..m] == steps[..m];
      }
      OneDiscoveryAtATime(n, before);
      InvRun(n, before);
      RightfulKeepsExclusive(Run(Init(n), before), steps[|steps| - 1]);
    }
  }

  // The states on the way of one endpoint's first discovery.
  function FreeState(ep: string): State { State(map[ep := Other], [Instance(map[], Idle)], []) }

  function ClaimedState(ep: string): State {
    State(map[ep := Started], [Instance(map[], Idle)], [Disc(0, ep, Claimed)])
  }

  function FlyingState(ep: string): State {
    State(map[ep := Started], [Instance(map[ep := 1], Idle)], [Disc(0, ep, InFlight)])
  }

  function ToFlight(ep: string): seq<Step> { [Insert(ep), Claim(0, [ep], false)] + [MapAdd(0)] }

  lemma RunSnoc(s: State, steps: seq<Step>, a: Step)
    ensures Run(s, steps + [a]) == Next(Run(s, steps), a)
  {
    assert (steps + [a])[..|steps|] == steps;
  }

  lemma RunTwo(s: State, a: Step, b: Step)
    ensures Run(s, [a, b]) == Next(Next(s, a), b)
  {
    RunSnoc(s, [], a);
    RunSnoc(s, [a], b);
    assert [] + [a] == [a] && [a] + [b] == [a, b];
  }

  lemma ToClaim(ep: string)
    ensures Run(Init(1), [Insert(ep), Claim(0, [ep], false)]) == ClaimedState(ep)
  {
    assert Next(Init(1), Insert(ep)) == FreeState(ep);
    ClaimFree(ep);
    RunTwo(Init(1), Insert(ep), Claim(0, [ep], false));
  }

  lemma ClaimFree(ep: string)
    ensures Next(FreeState(ep), Claim(0, [ep], false)) == ClaimedState(ep)
  {
    PickOne(FreeState(ep).table, ep, false);
    assert Marked(FreeState(ep).table, [ep]) == map[ep := Started];
    assert [] + NewDiscs(0, [ep]) == [Disc(0, ep, Claimed)];
  }

  lemma PickOne(t: Table, id: string, force: bool)
    requires id in t && (force || t[id].Other?)
    ensures Picked(t, [id], force) == [id]
  {
    var ids := [id];
    assert ids[..|ids| - 1] == [];
    assert Free(t, [], force) == [];
    assert AllKnown(t, ids);
  }

  lemma ToFlightReaches(ep: string)
    ensures Run(Init(1), ToFlight(ep)) == FlyingState(ep)
  {
    ToClaim(ep);
    RunSnoc(Init(1), [Insert(ep), Claim(0, [ep], false)], MapAdd(0));
    assert Next(ClaimedState(ep), MapAdd(0)) == FlyingState(ep);
  }

  /** Why a discovery leaves the map first: were its status stored while it is still in the map, the
      updater could turn the finished endpoint back to Started with nobody left to finish it. */
  lemma OrderMatters(ep: string)
    ensures Run(Init(1), ToFlight(ep)) == FlyingState(ep) && Stored(FlyingState(ep), 0).table == map[ep := Other]
    ensures var t := Run(Stored(FlyingState(ep), 0), [Lock(0), Write(0, true)]);
      t.table == map[ep := Started] && !HasLive(t, ep) && !HasLost(t, ep)
  {
    ToFlightReaches(ep);
    UpdateTooLate(ep);
  }

  lemma UpdateTooLate(ep: string)
    ensures Stored(FlyingState(ep), 0).table == map[ep := Other]
    ensures var t := Run(Stored(FlyingState(ep), 0), [Lock(0), Write(0, true)]);
      t.table == map[ep := Started] && t.discs == [Disc(0, ep, Done)]
  {
    var early := Stored(FlyingState(ep), 0);
    assert early == State(map[ep := Other], [Instance(map[ep := 1], Idle)], [Disc(0, ep, Done)]);
    assert ep in early.insts[0].refs;
    assert early.insts[0].refs.Keys == {ep};
    var held := State(map[ep := Other], [Instance(map[ep := 1], Holding({ep}))], [Disc(0, ep, Done)]);
    assert Next(early, Lock(0)) == held;
    assert Refreshed(held.table, {ep}, true) == map[ep := Started];
    RunTwo(early, Lock(0), Write(0, true));
  }

  /** A forced claim of an endpoint that is being discovered makes it discovered twice at a time. */
  lemma ForceDiscoversTwice(ep: string)
    ensures !Exclusive(Run(Init(1), [Insert(ep), Claim(0, [ep], false)] + [Claim(0, [ep], true)]))
  {
    ToClaim(ep);
    RunSnoc(Init(1), [Insert(ep), Claim(0, [ep], false)], Claim(0, [ep], true));
    var s := ClaimedState(ep);
    var t := Next(s, Claim(0, [ep], true));
    PickOne(s.table, ep, true);
    assert t.discs[0] == Disc(0, ep, Claimed) && t.discs[1] == Disc(0, ep, Claimed);
  }

  /** An endpoint can be deleted while in flight; the updater then holds an id that is not in the table. */
  lemma DeletionIsReached(ep: string)
    ensures var s := Run(Init(1), ToFlight(ep) + [Delete(ep)] + [Lock(0)]);
      |s.insts| == 1 && s.insts[0].updater == Holding({ep}) && !(s.insts[0].refs.Keys <= s.table.Keys)
  {
    ToFlightReaches(ep);
    RunSnoc(Init(1), ToFlight(ep), Delete(ep));
    RunSnoc(Init(1), ToFlight(ep) + [Delete(ep)], Lock(0));
    var s := Next(FlyingState(ep), Delete(ep));
    assert s.insts[0].refs.Keys == {ep} && ep !in s.table && ep in s.insts[0].refs;
  }
}
