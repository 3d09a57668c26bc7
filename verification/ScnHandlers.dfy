/** The critical sections that change the subscription list and the index together. */
module ScnHandlers {
  import opened Collect
  import opened Options
  import opened Text
  import opened ScnUrls
  import opened PatchRemove
  import opened ScnIndex

  datatype Sub = Sub(id: int, subscriber: string, url: string, enabled: Option<bool>,
                     roles: seq<string>, subRoles: seq<string>, swStatus: seq<string>, states: seq<string>)

  function Keys(t: TrigType, values: seq<string>): seq<Key> {
    if values == [] then [] else Keys(t, values[..|values| - 1]) + [(t, Lower(values[|values| - 1]))]
  }

  function EnabledKeys(e: Option<bool>): seq<Key> {
    if e == Some(true) then [(OnEnabled, "enabled")] else []
  }

  /** Every trigger but the states. */
  function FixedTriggers(s: Sub): seq<Key> {
    EnabledKeys(s.enabled) + Keys(OnRole, s.roles) + Keys(OnSubRole, s.subRoles) + Keys(OnSwStatus, s.swStatus)
  }

  function Triggers(s: Sub): seq<Key> { FixedTriggers(s) + Keys(OnState, s.states) }

  function Hold(s: Sub): Holding { Holding(s.url, Triggers(s)) }

  function Holdings(list: seq<Sub>): (r: seq<Holding>)
    ensures |r| == |list|
    ensures forall i :: 0 <= i < |list| ==> r[i] == Hold(list[i])
  {
    seq(|list|, i requires 0 <= i < |list| => Hold(list[i]))
  }

  /** `stuck`: the lock is held for ever by a handler that panicked. */
  datatype Scn = Scn(list: seq<Sub>, idx: Index, stuck: bool)

  function View(s: Scn): Cached { Cached(Holdings(s.list), s.idx) }

  datatype PatchOp = AddOp | RemoveOp | ReplaceOp

  datatype Patch = Patch(op: PatchOp, enabled: Option<bool>, roles: seq<string>,
                         subRoles: seq<string>, swStatus: seq<string>, states: seq<string>)

  function FindSub(list: seq<Sub>, id: int): (i: nat)
    ensures i <= |list|
    ensures forall j :: 0 <= j < i ==> list[j].id != id
    ensures i < |list| ==> list[i].id == id
  {
    if list == [] || list[0].id == id then 0 else 1 + FindSub(list[1..], id)
  }

  /** The patch values not in the list as it was before the patch; repeats stay. */
  function NewValues(have: seq<string>, patch: seq<string>): seq<string> {
    if patch == [] then []
    else
      var v := patch[|patch| - 1];
      NewValues(have, patch[..|patch| - 1]) + if v in have then [] else [v]
  }

  function AddDelta(s: Sub, p: Patch): Sub {
    Sub(s.id, s.subscriber, s.url, if p.enabled == Some(true) && s.enabled == Some(false) then Some(true) else None,
        NewValues(s.roles, p.roles), NewValues(s.subRoles, p.subRoles),
        NewValues(s.swStatus, p.swStatus), NewValues(s.states, p.states))
  }

  function AddEntry(s: Sub, p: Patch): Sub {
    var d := AddDelta(s, p);
    s.(enabled := if d.enabled.Some? then d.enabled else s.enabled, roles := s.roles + d.roles,
       subRoles := s.subRoles + d.subRoles, swStatus := s.swStatus + d.swStatus, states := s.states + d.states)
  }

  function RemoveDelta(s: Sub, p: Patch): Sub {
    Sub(s.id, s.subscriber, s.url, if p.enabled == Some(true) && s.enabled == Some(true) then Some(true) else None,
        Matched(s.roles, p.roles), Matched(s.subRoles, p.subRoles),
        Matched(s.swStatus, p.swStatus), Matched(s.states, p.states))
  }

  function RemoveEntry(s: Sub, p: Patch): Sub {
    s.(enabled := if RemoveDelta(s, p).enabled.Some? then Some(false) else s.enabled,
       roles := RemoveEach(s.roles, p.roles), subRoles := RemoveEach(s.subRoles, p.subRoles),
       swStatus := RemoveEach(s.swStatus, p.swStatus), states := RemoveEach(s.states, p.states))
  }

  /** One list of the entry, and the values taken out of it, if the loop over it is reached at all. */
  function CutIf(reached: bool, have: seq<string>, patch: seq<string>): seq<string> {
    if reached then CutList(have, patch) else have
  }

  function TakenIf(reached: bool, have: seq<string>, patch: seq<string>): seq<string> {
    if reached then Matched(have, patch[..SafeLen(have, patch)]) else []
  }

  predicate ReachRoles(s: Sub, p: Patch) { PatchSafe(s.states, p.states) }

  predicate ReachSubRoles(s: Sub, p: Patch) { ReachRoles(s, p) && PatchSafe(s.roles, p.roles) }

  predicate ReachSw(s: Sub, p: Patch) { ReachSubRoles(s, p) && PatchSafe(s.subRoles, p.subRoles) }

  /** What a remove patch that panics has taken out of the entry, list after list; it never gets to the flag. */
  function CutDelta(s: Sub, p: Patch): Sub {
    Sub(s.id, s.subscriber, s.url, None, TakenIf(ReachRoles(s, p), s.roles, p.roles),
        TakenIf(ReachSubRoles(s, p), s.subRoles, p.subRoles),
        TakenIf(ReachSw(s, p), s.swStatus, p.swStatus), TakenIf(true, s.states, p.states))
  }

  function CutEntry(s: Sub, p: Patch): Sub {
    s.(states := CutIf(true, s.states, p.states), roles := CutIf(ReachRoles(s, p), s.roles, p.roles),
       subRoles := CutIf(ReachSubRoles(s, p), s.subRoles, p.subRoles),
       swStatus := CutIf(ReachSw(s, p), s.swStatus, p.swStatus))
  }

  function ReplaceEntry(s: Sub, p: Patch): Sub {
    s.(enabled := if p.enabled.Some? then p.enabled else s.enabled,
       roles := if p.roles != [] then p.roles else s.roles,
       subRoles := if p.subRoles != [] then p.subRoles else s.subRoles,
       swStatus := if p.swStatus != [] then p.swStatus else s.swStatus,
       states := if p.states != [] then p.states else s.states)
  }

  /** A remove patch cuts out its values without running past the end of a shrinking list. */
  predicate PatchRuns(s: Sub, p: Patch) {
    PatchSafe(s.roles, p.roles) && PatchSafe(s.subRoles, p.subRoles)
    && PatchSafe(s.swStatus, p.swStatus) && PatchSafe(s.states, p.states)
  }

  /** The patch is for a cached subscription and runs past the end of one of its lists. */
  predicate Panics(s: Scn, id: int, p: Patch) {
    var i := FindSub(s.list, id);
    i < |s.list| && !PatchRuns(s.list[i], p)
  }

  /** A Post on a cached ID leaves the entry's Url and subscriber. */
  function PostEntry(old': Sub, sub: Sub): Sub { sub.(id := old'.id, url := old'.url, subscriber := old'.subscriber) }

  /** A Put rewrites only the states of the cached entry. */
  function PutEntry(old': Sub, sub: Sub): Sub { old'.(states := sub.states) }

  datatype Op =
    | Refresh(list: seq<Sub>)
    | Post(sub: Sub)
    | Put(sub: Sub)
    | DoPatch(id: int, patch: Patch)
    | Delete(id: int)
    | DeleteAll

  const NO_SUBS: Scn := Scn([], map[], false)

  /** The index with cached entry i taken out and `sub` put in. */
  ghost function Swap(s: Scn, i: nat, sub: Sub): Index
    requires Ok(View(s)) && i < |s.list|
  {
    Enter(Withdraw(s.idx, View(s).hs[i]), Hold(sub))
  }

  ghost function ApplyPost(s: Scn, sub: Sub): Scn
    requires Ok(View(s))
  {
    var i := FindSub(s.list, sub.id);
    if i == |s.list| then s.(list := s.list + [sub], idx := Enter(s.idx, Hold(sub)))
    else s.(list := s.list[i := PostEntry(s.list[i], sub)], idx := Swap(s, i, sub))
  }

  ghost function ApplyPut(s: Scn, sub: Sub): Scn
    requires Ok(View(s))
  {
    var i := FindSub(s.list, sub.id);
    if i == |s.list| then s else s.(list := s.list[i := PutEntry(s.list[i], sub)], idx := Swap(s, i, sub))
  }

  ghost function ApplyAdd(s: Scn, id: int, p: Patch): Scn {
    var i := FindSub(s.list, id);
    if i == |s.list| then s
    else s.(list := s.list[i := AddEntry(s.list[i], p)], idx := Enter(s.idx, Hold(AddDelta(s.list[i], p))))
  }

  /** A remove patch that panics leaves the entry partly cut, the index as it was, and the lock held. */
  ghost function ApplyRemove(s: Scn, id: int, p: Patch): Scn
    requires Ok(View(s))
  {
    var i := FindSub(s.list, id);
    if i == |s.list| then s
    else if !PatchRuns(s.list[i], p) then s.(list := s.list[i := CutEntry(s.list[i], p)], stuck := true)
    else
      RemoveDeltaInside(s, i, p);
      s.(list := s.list[i := RemoveEntry(s.list[i], p)], idx := Withdraw(s.idx, Hold(RemoveDelta(s.list[i], p))))
  }

  ghost function ApplyReplace(s: Scn, id: int, p: Patch): Scn
    requires Ok(View(s))
  {
    var i := FindSub(s.list, id);
    if i == |s.list| then s
    else
      var e := ReplaceEntry(s.list[i], p);
      s.(list := s.list[i := e], idx := Swap(s, i, e))
  }

  ghost function ApplyPatch(s: Scn, id: int, p: Patch): Scn
    requires Ok(View(s))
  {
    match p.op
    case AddOp => ApplyAdd(s, id, p)
    case RemoveOp => ApplyRemove(s, id, p)
    case ReplaceOp => ApplyReplace(s, id, p)
  }

  ghost function ApplyDelete(s: Scn, id: int): Scn
    requires Ok(View(s))
  {
    var i := FindSub(s.list, id);
    if i == |s.list| then s else s.(list := Cut(s.list, i), idx := Withdraw(s.idx, View(s).hs[i]))
  }

  function ApplyRefresh(list: seq<Sub>): Scn { Scn(list, EnterAll(map[], Holdings(list)), false) }

  /** With the lock held for ever every operation waits, and none takes effect. */
  ghost function Apply(s: Scn, op: Op): Scn
    requires Ok(View(s))
  {
    if s.stuck then s else
    match op
    case Refresh(list) => ApplyRefresh(list)
    case Post(sub) => ApplyPost(s, sub)
    case Put(sub) => ApplyPut(s, sub)
    case DoPatch(id, p) => ApplyPatch(s, id, p)
    case Delete(id) => ApplyDelete(s, id)
    case DeleteAll => NO_SUBS
  }

  // ---- Multisets of triggers ----

  lemma {:induction false} KeysConcat(t: TrigType, a: seq<string>, b: seq<string>)
    ensures Keys(t, a + b) == Keys(t, a) + Keys(t, b)
  {
    if b == [] {
      assert a + b == a;
    } else {
      assert (a + b)[..|a + b| - 1] == a + b[..|b| - 1];
      KeysConcat(t, a, b[..|b| - 1]);
    }
  }

  lemma {:induction false} KeysLength(t: TrigType, s: seq<string>)
    ensures |Keys(t, s)| == |s|
  {
    if s != [] {
      KeysLength(t, s[..|s| - 1]);
    }
  }

  lemma TriggersLength(s: Sub)
    ensures |Triggers(s)| == |EnabledKeys(s.enabled)| + |s.roles| + |s.subRoles| + |s.swStatus| + |s.states|
  {
    KeysLength(OnRole, s.roles);
    KeysLength(OnSubRole, s.subRoles);
    KeysLength(OnSwStatus, s.swStatus);
    KeysLength(OnState, s.states);
  }

  lemma KeysFirst(t: TrigType, s: seq<string>)
    requires s != []
    ensures multiset(Keys(t, s)) == multiset{(t, Lower(s[0]))} + multiset(Keys(t, s[1..]))
  {
    KeysConcat(t, s[..1], s[1..]);
    assert s == s[..1] + s[1..];
    assert s[..1][..0] == [] && Keys(t, []) == [];
    assert Keys(t, s[..1]) == [(t, Lower(s[0]))];
  }

  lemma KeysLast(t: TrigType, s: seq<string>, v: string)
    ensures multiset(Keys(t, s + [v])) == multiset(Keys(t, s)) + multiset{(t, Lower(v))}
  {
    assert (s + [v])[..|s + [v]| - 1] == s;
  }

  lemma {:induction false} RemoveFirstKeys(t: TrigType, s: seq<string>, v: string)
    requires v in s
    ensures multiset(Keys(t, RemoveFirst(s, v))) + multiset{(t, Lower(v))} == multiset(Keys(t, s))
  {
    KeysFirst(t, s);
    if s[0] != v {
      var rest, cut := s[1..], RemoveFirst(s[1..], v);
      RemoveFirstKeys(t, rest, v);
      assert RemoveFirst(s, v) == [s[0]] + cut && ([s[0]] + cut)[1..] == cut;
      KeysFirst(t, [s[0]] + cut);
    }
  }

  lemma {:induction false} PatchKeys(t: TrigType, s: seq<string>, patch: seq<string>)
    ensures multiset(Keys(t, RemoveEach(s, patch))) + multiset(Keys(t, Matched(s, patch))) == multiset(Keys(t, s))
  {
    if patch != [] {
      var earlier, v := patch[..|patch| - 1], patch[|patch| - 1];
      PatchKeys(t, s, earlier);
      var left := RemoveEach(s, earlier);
      if v in left {
        RemoveFirstKeys(t, left, v);
        KeysLast(t, Matched(s, earlier), v);
      } else {
        assert Matched(s, patch) == Matched(s, earlier);
      }
    }
  }

  lemma TriggerParts(s: Sub)
    ensures multiset(Triggers(s)) == multiset(EnabledKeys(s.enabled)) + multiset(Keys(OnRole, s.roles))
      + multiset(Keys(OnSubRole, s.subRoles))
      + multiset(Keys(OnSwStatus, s.swStatus)) + multiset(Keys(OnState, s.states))
    ensures multiset(Triggers(s)) == multiset(FixedTriggers(s)) + multiset(Keys(OnState, s.states))
  {
  }

  /** Triggers add up when every kind of trigger does. */
  lemma TriggersAddUp(a: Sub, b: Sub, c: Sub)
    requires multiset(EnabledKeys(a.enabled)) + multiset(EnabledKeys(b.enabled)) == multiset(EnabledKeys(c.enabled))
    requires multiset(Keys(OnRole, a.roles)) + multiset(Keys(OnRole, b.roles)) == multiset(Keys(OnRole, c.roles))
    requires multiset(Keys(OnSubRole, a.subRoles)) + multiset(Keys(OnSubRole, b.subRoles))
          == multiset(Keys(OnSubRole, c.subRoles))
    requires multiset(Keys(OnSwStatus, a.swStatus)) + multiset(Keys(OnSwStatus, b.swStatus))
          == multiset(Keys(OnSwStatus, c.swStatus))
    requires multiset(Keys(OnState, a.states)) + multiset(Keys(OnState, b.states)) == multiset(Keys(OnState, c.states))
    ensures multiset(Triggers(a)) + multiset(Triggers(b)) == multiset(Triggers(c))
  {
    TriggerParts(a);
    TriggerParts(b);
    TriggerParts(c);
  }

  /** An add patch puts into the entry exactly what it puts into the index. */
  lemma AddConserves(s: Sub, p: Patch)
    ensures multiset(Triggers(s)) + multiset(Triggers(AddDelta(s, p))) == multiset(Triggers(AddEntry(s, p)))
  {
    var d := AddDelta(s, p);
    KeysConcat(OnRole, s.roles, d.roles);
    KeysConcat(OnSubRole, s.subRoles, d.subRoles);
    KeysConcat(OnSwStatus, s.swStatus, d.swStatus);
    KeysConcat(OnState, s.states, d.states);
    TriggersAddUp(s, d, AddEntry(s, p));
  }

  /** A remove patch takes out of the entry exactly what it takes out of the index. */
  lemma RemoveConserves(s: Sub, p: Patch)
    ensures multiset(Triggers(RemoveEntry(s, p))) + multiset(Triggers(RemoveDelta(s, p))) == multiset(Triggers(s))
  {
    PatchKeys(OnRole, s.roles, p.roles);
    PatchKeys(OnSubRole, s.subRoles, p.subRoles);
    PatchKeys(OnSwStatus, s.swStatus, p.swStatus);
    PatchKeys(OnState, s.states, p.states);
    TriggersAddUp(RemoveEntry(s, p), RemoveDelta(s, p), s);
  }

  lemma CutKeys(t: TrigType, reached: bool, have: seq<string>, patch: seq<string>)
    ensures multiset(Keys(t, CutIf(reached, have, patch))) + multiset(Keys(t, TakenIf(reached, have, patch)))
         == multiset(Keys(t, have))
  {
    PatchKeys(t, have, patch[..SafeLen(have, patch)]);
    assert Keys(t, []) == [];
  }

  lemma CutConserves(s: Sub, p: Patch)
    ensures multiset(Triggers(CutEntry(s, p))) + multiset(Triggers(CutDelta(s, p))) == multiset(Triggers(s))
  {
    CutKeys(OnRole, ReachRoles(s, p), s.roles, p.roles);
    CutKeys(OnSubRole, ReachSubRoles(s, p), s.subRoles, p.subRoles);
    CutKeys(OnSwStatus, ReachSw(s, p), s.swStatus, p.swStatus);
    CutKeys(OnState, true, s.states, p.states);
    TriggersAddUp(CutEntry(s, p), CutDelta(s, p), s);
  }

  /** A remove patch that panics has taken a trigger out of the entry. */
  lemma PanicTakesTrigger(s: Sub, p: Patch)
    requires !PatchRuns(s, p)
    ensures |Triggers(CutEntry(s, p))| < |Triggers(s)|
  {
    CutShrinks(s.states, p.states);
    CutShrinks(s.roles, p.roles);
    CutShrinks(s.subRoles, p.subRoles);
    CutShrinks(s.swStatus, p.swStatus);
    TriggersLength(s);
    TriggersLength(CutEntry(s, p));
  }

  /** A remove patch that runs through takes out of every list what there is to take, and gets to the flag. */
  lemma RunsThrough(s: Sub, p: Patch)
    requires PatchRuns(s, p)
    ensures var off := p.enabled == Some(true) && s.enabled == Some(true);
      && RemoveEntry(s, p) == CutEntry(s, p).(enabled := if off then Some(false) else s.enabled)
      && RemoveDelta(s, p) == CutDelta(s, p).(enabled := if off then p.enabled else None)
  {
    WholeList(s.states, p.states);
    WholeList(s.roles, p.roles);
    WholeList(s.subRoles, p.subRoles);
    WholeList(s.swStatus, p.swStatus);
  }

  lemma WholeList(have: seq<string>, patch: seq<string>)
    requires PatchSafe(have, patch)
    ensures CutIf(true, have, patch) == RemoveEach(have, patch) && TakenIf(true, have, patch) == Matched(have, patch)
  {
    assert patch[..|patch|] == patch;
    SafeLenIs(have, patch, |patch|);
  }

  lemma CutShrinks(s: seq<string>, patch: seq<string>)
    ensures if PatchSafe(s, patch) then |CutList(s, patch)| <= |s| else |CutList(s, patch)| < |s|
  {
    if !PatchSafe(s, patch) {
      PanicLeavesItCut(s, patch);
    }
    EachCutIsLeftBehind(s, patch[..SafeLen(s, patch)]);
  }

  lemma RemoveDeltaInside(s: Scn, i: nat, p: Patch)
    requires Ok(View(s)) && i < |s.list|
    ensures NoNilWrite(s.idx, Triggers(RemoveDelta(s.list[i], p)))
  {
    RemoveConserves(s.list[i], p);
    SubsetNoNil(View(s), i, Triggers(RemoveDelta(s.list[i], p)));
  }

  // ---- One operation ----

  lemma ViewUpdate(list: seq<Sub>, i: nat, e: Sub)
    requires i < |list|
    ensures Holdings(list[i := e]) == Holdings(list)[i := Hold(e)]
    ensures Holdings(Cut(list, i)) == Cut(Holdings(list), i)
  {
  }

  lemma ViewAppend(list: seq<Sub>, e: Sub)
    ensures Holdings(list + [e]) == Holdings(list) + [Hold(e)]
  {
  }

  /** A refresh makes the two agree, whatever they were. */
  lemma RefreshAgrees(s: Scn, list: seq<Sub>)
    requires Ok(View(s))
    ensures Ok(View(ApplyRefresh(list))) && Agree(View(ApplyRefresh(list)))
  {
    Rebuilt(Holdings(list));
  }

  lemma PostNewKeeps(s: Scn, sub: Sub)
    requires Ok(View(s)) && FindSub(s.list, sub.id) == |s.list|
    ensures Ok(View(ApplyPost(s, sub)))
    ensures Agree(View(s)) ==> Agree(View(ApplyPost(s, sub)))
  {
    ViewAppend(s.list, sub);
    Appended(View(s), Hold(sub));
  }

  /** Rewriting entry i as e while the index trades entry i for `sub`. */
  lemma SwapKeeps(s: Scn, i: nat, sub: Sub, e: Sub)
    requires Ok(View(s)) && i < |s.list|
    requires forall k :: k in Hold(e).keys ==> k in Hold(sub).keys || k in View(s).hs[i].keys
    ensures Ok(View(s.(list := s.list[i := e], idx := Swap(s, i, sub))))
    ensures Agree(View(s)) ==>
      (Agree(View(s.(list := s.list[i := e], idx := Swap(s, i, sub)))) <==>
        multiset(Hold(sub).keys) == multiset(Hold(e).keys) && (sub.url == e.url || Hold(sub).keys == []))
  {
    ViewUpdate(s.list, i, e);
    Swapped(View(s), i, Hold(sub), Hold(e));
    SameHoldingMeans(Hold(sub), Hold(e));
  }

  /** Whatever the list gets, the index trades the triggers of entry i for those of `sub`. */
  lemma SwapCounts(s: Scn, i: nat, sub: Sub, k: Key, u: string)
    requires Ok(View(s)) && Agree(View(s)) && i < |s.list|
    ensures RefCount(Swap(s, i, sub), k, u)
      == RefCount(s.idx, k, u) - (if u == s.list[i].url then multiset(Triggers(s.list[i]))[k] else 0)
         + (if u == sub.url then multiset(Triggers(sub))[k] else 0)
  {
    var h := View(s).hs[i];
    assert h == Hold(s.list[i]);
    HeldWithin(View(s).hs, i, k, u);
    RemoveKeysCount(s.idx, h.keys, h.url, k, u);
    RemoveKeysOk(s.idx, h.keys, h.url);
    AddKeysCount(Withdraw(s.idx, h), Triggers(sub), sub.url, k, u);
  }

  lemma {:induction false} HeldWithin(hs: seq<Holding>, i: nat, k: Key, u: string)
    requires i < |hs|
    ensures Held(hs[i], k, u) <= Total(hs, k, u)
  {
    if i < |hs| - 1 {
      HeldWithin(hs[..|hs| - 1], i, k, u);
    }
  }

  /** A Post on a cached ID keeps agreement exactly when it repeats the cached URL
      (or brings no trigger at all): the entry keeps its old URL. */
  lemma PostCachedKeeps(s: Scn, sub: Sub)
    requires Ok(View(s)) && FindSub(s.list, sub.id) < |s.list|
    ensures Ok(View(ApplyPost(s, sub)))
    ensures Agree(View(s)) ==> (Agree(View(ApplyPost(s, sub))) <==>
              (sub.url == s.list[FindSub(s.list, sub.id)].url || Triggers(sub) == []))
  {
    var i := FindSub(s.list, sub.id);
    var e := PostEntry(s.list[i], sub);
    assert Triggers(e) == Triggers(sub);
    SwapKeeps(s, i, sub, e);
  }

  /** A Put brings the cached entry's URL and its triggers other than states. */
  ghost predicate OnlyStates(old': Sub, sub: Sub) {
    multiset(FixedTriggers(sub)) == multiset(FixedTriggers(old')) && (sub.url == old'.url || Triggers(sub) == [])
  }

  lemma CancelTail(f: seq<Key>, g: seq<Key>, h: seq<Key>)
    ensures multiset(f + h) == multiset(g + h) <==> multiset(f) == multiset(g)
  {
    assert multiset(f + h) - multiset(h) == multiset(f);
    assert multiset(g + h) - multiset(h) == multiset(g);
  }

  lemma PutEntryTriggers(old': Sub, sub: Sub)
    ensures var e := PutEntry(old', sub);
            (forall k :: k in Hold(e).keys ==> k in Hold(sub).keys || k in Hold(old').keys)
            && (multiset(Hold(sub).keys) == multiset(Hold(e).keys) && (sub.url == e.url || Hold(sub).keys == [])
                <==> OnlyStates(old', sub))
  {
    var f, g, h := FixedTriggers(sub), FixedTriggers(old'), Keys(OnState, sub.states);
    CancelTail(f, g, h);
    assert Hold(PutEntry(old', sub)).keys == g + h && Hold(sub).keys == f + h;
    assert forall k :: k in g + h ==> k in f + h || k in g + Keys(OnState, old'.states);
  }

  /** A Put on a cached ID keeps agreement exactly when it changes only states. */
  lemma PutKeeps(s: Scn, sub: Sub)
    requires Ok(View(s)) && FindSub(s.list, sub.id) < |s.list|
    ensures Ok(View(ApplyPut(s, sub)))
    ensures Agree(View(s)) ==> (Agree(View(ApplyPut(s, sub))) <==> OnlyStates(s.list[FindSub(s.list, sub.id)], sub))
  {
    var i := FindSub(s.list, sub.id);
    PutEntryTriggers(s.list[i], sub);
    SwapKeeps(s, i, sub, PutEntry(s.list[i], sub));
  }

  lemma PatchAddKeeps(s: Scn, id: int, p: Patch)
    requires Ok(View(s))
    ensures Ok(View(ApplyAdd(s, id, p))) && (Agree(View(s)) ==> Agree(View(ApplyAdd(s, id, p))))
  {
    var i := FindSub(s.list, id);
    if i < |s.list| {
      var e := s.list[i];
      AddConserves(e, p);
      ViewUpdate(s.list, i, AddEntry(e, p));
      Grown(View(s), i, Hold(AddDelta(e, p)), Hold(AddEntry(e, p)));
    }
  }

  /** A remove patch keeps agreement exactly when it runs through. */
  lemma PatchRemoveKeeps(s: Scn, id: int, p: Patch)
    requires Ok(View(s))
    ensures Ok(View(ApplyRemove(s, id, p)))
    ensures Agree(View(s)) ==> (Agree(View(ApplyRemove(s, id, p))) <==> !Panics(s, id, p))
    ensures ApplyRemove(s, id, p).stuck <==> s.stuck || Panics(s, id, p)
  {
    var i := FindSub(s.list, id);
    if i < |s.list| {
      if PatchRuns(s.list[i], p) {
        RunningKeeps(s, i, p);
      } else {
        PanicBreaks(s, i, p);
      }
    }
  }

  lemma RunningKeeps(s: Scn, i: nat, p: Patch)
    requires Ok(View(s)) && i < |s.list|
    ensures NoNilWrite(s.idx, Triggers(RemoveDelta(s.list[i], p)))
    ensures var t := s.(list := s.list[i := RemoveEntry(s.list[i], p)],
        idx := Withdraw(s.idx, Hold(RemoveDelta(s.list[i], p))));
      Ok(View(t)) && (Agree(View(s)) ==> Agree(View(t)))
  {
    var e := s.list[i];
    RemoveConserves(e, p);
    ViewUpdate(s.list, i, RemoveEntry(e, p));
    Shrunk(View(s), i, Hold(RemoveDelta(e, p)), Hold(RemoveEntry(e, p)));
  }

  lemma PanicBreaks(s: Scn, i: nat, p: Patch)
    requires Ok(View(s)) && i < |s.list| && !PatchRuns(s.list[i], p)
    ensures var t := s.(list := s.list[i := CutEntry(s.list[i], p)], stuck := true);
      Ok(View(t)) && (Agree(View(s)) ==> !Agree(View(t)))
  {
    var e, c := s.list[i], CutEntry(s.list[i], p);
    CutConserves(e, p);
    ViewUpdate(s.list, i, c);
    Curtailed(View(s), i, Hold(c));
    SameHoldingMeans(Hold(e), Hold(c));
    PanicTakesTrigger(e, p);
    assert |multiset(Triggers(c))| == |Triggers(c)| && |multiset(Triggers(e))| == |Triggers(e)|;
  }

  lemma PatchReplaceKeeps(s: Scn, id: int, p: Patch)
    requires Ok(View(s))
    ensures Ok(View(ApplyReplace(s, id, p))) && (Agree(View(s)) ==> Agree(View(ApplyReplace(s, id, p))))
  {
    var i := FindSub(s.list, id);
    if i < |s.list| {
      var e := ReplaceEntry(s.list[i], p);
      SwapKeeps(s, i, e, e);
    }
  }

  lemma DeleteKeeps(s: Scn, id: int)
    requires Ok(View(s))
    ensures Ok(View(ApplyDelete(s, id)))
    ensures Agree(View(s)) ==> Agree(View(ApplyDelete(s, id)))
  {
    var i := FindSub(s.list, id);
    if i < |s.list| {
      ViewUpdate(s.list, i, s.list[i]);
      Deleted(View(s), i);
    }
  }

  // ---- Whole runs ----

  /** The remove patch of this operation panics. */
  predicate Unsafe(s: Scn, op: Op) {
    !s.stuck && op.DoPatch? && op.patch.op.RemoveOp? && Panics(s, op.id, op.patch)
  }

  /** Post, Put and remove patches keep list and index together only under these conditions; the rest always do. */
  ghost predicate Faithful(s: Scn, op: Op) {
    s.stuck ||
    match op
    case Post(sub) =>
      var i := FindSub(s.list, sub.id);
      i == |s.list| || sub.url == s.list[i].url || Triggers(sub) == []
    case Put(sub) =>
      var i := FindSub(s.list, sub.id);
      i == |s.list| || OnlyStates(s.list[i], sub)
    case _ => !Unsafe(s, op)
  }

  /** What is claimed of a step from s to t: the nil-map safety; agreement kept exactly when the step is
      faithful; the lock left held exactly when it panics. */
  ghost predicate Kept(s: Scn, t: Scn, faithful: bool, panics: bool) {
    && Ok(View(t))
    && (Agree(View(s)) ==> (Agree(View(t)) <==> faithful))
    && (t.stuck <==> s.stuck || panics)
  }

  lemma StepPost(s: Scn, sub: Sub)
    requires Ok(View(s))
    ensures var i := FindSub(s.list, sub.id);
      Kept(s, ApplyPost(s, sub), i == |s.list| || sub.url == s.list[i].url || Triggers(sub) == [], false)
  {
    if FindSub(s.list, sub.id) == |s.list| {
      PostNewKeeps(s, sub);
    } else {
      PostCachedKeeps(s, sub);
    }
  }

  lemma StepPut(s: Scn, sub: Sub)
    requires Ok(View(s))
    ensures var i := FindSub(s.list, sub.id);
      Kept(s, ApplyPut(s, sub), i == |s.list| || OnlyStates(s.list[i], sub), false)
  {
    if FindSub(s.list, sub.id) < |s.list| {
      PutKeeps(s, sub);
    }
  }

  lemma StepPatch(s: Scn, id: int, p: Patch)
    requires Ok(View(s))
    ensures var panics := p.op.RemoveOp? && Panics(s, id, p); Kept(s, ApplyPatch(s, id, p), !panics, panics)
  {
    match p.op
    case AddOp =>
      PatchAddKeeps(s, id, p);
      assert Kept(s, ApplyAdd(s, id, p), true, false);
    case RemoveOp =>
      PatchRemoveKeeps(s, id, p);
      assert Kept(s, ApplyRemove(s, id, p), !Panics(s, id, p), Panics(s, id, p));
    case ReplaceOp =>
      PatchReplaceKeeps(s, id, p);
      assert Kept(s, ApplyReplace(s, id, p), true, false);
  }

  lemma StepKept(s: Scn, op: Op)
    requires Ok(View(s)) && !s.stuck
    ensures Kept(s, Apply(s, op), Faithful(s, op), Unsafe(s, op))
  {
    match op
    case Refresh(list) =>
      RefreshAgrees(s, list);
      assert Kept(s, ApplyRefresh(list), true, false);
    case Post(sub) => StepPost(s, sub);
    case Put(sub) => StepPut(s, sub);
    case DoPatch(id, p) => StepPatch(s, id, p);
    case Delete(id) =>
      DeleteKeeps(s, id);
      assert Kept(s, ApplyDelete(s, id), true, false);
    case DeleteAll =>
      Rebuilt([]);
      assert Kept(s, NO_SUBS, true, false);
  }

  /** One operation never breaks the nil-map safety, keeps agreement exactly when it is faithful, and
      leaves the lock held exactly when it panics. */
  lemma StepKeeps(s: Scn, op: Op)
    requires Ok(View(s))
    ensures Ok(View(Apply(s, op)))
    ensures Agree(View(s)) ==> (Agree(View(Apply(s, op))) <==> Faithful(s, op))
    ensures Apply(s, op).stuck <==> s.stuck || Unsafe(s, op)
  {
    if !s.stuck {
      StepKept(s, op);
    }
  }

  /** Any operations from start-up: the state reached, and its nil-map safety. */
  ghost function Run(ops: seq<Op>): (s: Scn)
    ensures Ok(View(s))
  {
    if ops == [] then NO_SUBS
    else
      var before := Run(ops[..|ops| - 1]);
      StepKeeps(before, ops[|ops| - 1]);
      Apply(before, ops[|ops| - 1])
  }

  /** After any faithful operations, every reference count is the number of trigger occurrences cached. */
  lemma {:induction false} RunsAgree(ops: seq<Op>)
    requires forall i :: 0 <= i < |ops| ==> Faithful(Run(ops[..i]), ops[i])
    ensures Agree(View(Run(ops)))
  {
    if ops == [] {
      Rebuilt([]);
    } else {
      var n := |ops| - 1;
      forall i | 0 <= i < n ensures Faithful(Run(ops[..n][..i]), ops[..n][i]) {
        assert ops[..n][..i] == ops[..i];
      }
      RunsAgree(ops[..n]);
      StepKeeps(Run(ops[..n]), ops[n]);
    }
  }

  /** Operation i of the run is a remove patch that panics. */
  ghost predicate PanicsAt(ops: seq<Op>, i: nat)
    requires i < |ops|
  {
    Unsafe(Run(ops[..i]), ops[i])
  }

  lemma StuckStep(ops: seq<Op>, n: nat)
    requires n < |ops|
    ensures Run(ops[..n + 1]).stuck <==> Run(ops[..n]).stuck || PanicsAt(ops, n)
  {
    assert ops[..n + 1][..n] == ops[..n];
    StepKeeps(Run(ops[..n]), ops[n]);
  }

  ghost predicate SomePanic(ops: seq<Op>, n: nat)
    requires n <= |ops|
  {
    exists i :: 0 <= i < n && PanicsAt(ops, i)
  }

  lemma SomePanicStep(ops: seq<Op>, n: nat)
    requires n < |ops|
    ensures SomePanic(ops, n + 1) <==> SomePanic(ops, n) || PanicsAt(ops, n)
  {
    if SomePanic(ops, n + 1) {
      var i :| 0 <= i < n + 1 && PanicsAt(ops, i);
      assert i == n || i < n;
    }
  }

  lemma {:induction false} StuckUpTo(ops: seq<Op>, n: nat)
    requires n <= |ops|
    ensures Run(ops[..n]).stuck <==> SomePanic(ops, n)
  {
    if n > 0 {
      var m := n - 1;
      StuckUpTo(ops, m);
      StuckStep(ops, m);
      SomePanicStep(ops, m);
    }
  }

  /** A run gets stuck exactly if it has a remove patch that panics. */
  lemma StuckMeans(ops: seq<Op>)
    ensures Run(ops).stuck <==> exists i :: 0 <= i < |ops| && PanicsAt(ops, i)
  {
    StuckUpTo(ops, |ops|);
    assert ops[..|ops|] == ops;
  }

  lemma RunSnoc(ops: seq<Op>, op: Op)
    ensures Run(ops + [op]) == Apply(Run(ops), op)
  {
    assert (ops + [op])[..|ops + [op]| - 1] == ops;
  }

  lemma StuckSnoc(ops: seq<Op>, op: Op)
    requires Run(ops).stuck
    ensures Run(ops + [op]) == Run(ops)
  {
    RunSnoc(ops, op);
  }

  /** Once stuck, nothing changes any more. */
  lemma {:induction false} StuckStays(ops: seq<Op>, more: seq<Op>)
    requires Run(ops).stuck
    ensures Run(ops + more) == Run(ops)
    decreases |more|
  {
    if more == [] {
      assert ops + more == ops;
    } else {
      assert ops + more == (ops + [more[0]]) + more[1..];
      StuckSnoc(ops, more[0]);
      StuckStays(ops + [more[0]], more[1..]);
    }
  }

  /** The first panic of a run that was faithful so far leaves list and index in disagreement for
      ever: whatever is asked for later, nothing changes any more. */
  lemma PanicIsForEver(ops: seq<Op>, op: Op, more: seq<Op>)
    requires forall i :: 0 <= i < |ops| ==> Faithful(Run(ops[..i]), ops[i])
    requires Unsafe(Run(ops), op)
    ensures Run(ops + [op] + more) == Apply(Run(ops), op)
    ensures !Agree(View(Run(ops + [op] + more)))
  {
    RunsAgree(ops);
    StepKeeps(Run(ops), op);
    RunSnoc(ops, op);
    StuckStays(ops + [op], more);
  }

  // ---- Two ways to lose agreement ----

  lemma FirstPost(first: Sub)
    ensures var s := Run([Post(first)]); s.list == [first] && !s.stuck && Agree(View(s))
  {
    RunSnoc([], Post(first));
    assert [] + [Post(first)] == [Post(first)];
    assert ApplyPost(NO_SUBS, first).list == [first];
    Rebuilt([]);
    StepKeeps(NO_SUBS, Post(first));
  }

  lemma ApplyOf(s: Scn, sub: Sub)
    requires Ok(View(s)) && !s.stuck
    ensures Apply(s, Put(sub)) == ApplyPut(s, sub) && Apply(s, Post(sub)) == ApplyPost(s, sub)
  {
  }

  lemma LossyPut(s: Scn, sub: Sub)
    requires Ok(View(s)) && Agree(View(s)) && !s.stuck && FindSub(s.list, sub.id) < |s.list|
    requires !OnlyStates(s.list[FindSub(s.list, sub.id)], sub)
    ensures !Agree(View(Apply(s, Put(sub))))
  {
    ApplyOf(s, sub);
    PutKeeps(s, sub);
  }

  /** The server starts, takes a subscription, and any Put on it that changes more than States. */
  lemma PutCanDisagree(first: Sub, sub: Sub)
    requires sub.id == first.id && !OnlyStates(first, sub)
    ensures !Agree(View(Run([Post(first)] + [Put(sub)])))
  {
    FirstPost(first);
    LossyPut(Run([Post(first)]), sub);
    RunSnoc([Post(first)], Put(sub));
  }

  lemma LossyPost(s: Scn, sub: Sub)
    requires Ok(View(s)) && Agree(View(s)) && !s.stuck && FindSub(s.list, sub.id) < |s.list|
    requires sub.url != s.list[FindSub(s.list, sub.id)].url && Triggers(sub) != []
    ensures !Agree(View(Apply(s, Post(sub))))
  {
    ApplyOf(s, sub);
    PostCachedKeeps(s, sub);
  }

  /** The same with any Post on its ID that has a trigger and another Url. */
  lemma PostCanDisagree(first: Sub, sub: Sub)
    requires sub.id == first.id && sub.url != first.url && Triggers(sub) != []
    ensures !Agree(View(Run([Post(first)] + [Post(sub)])))
  {
    FirstPost(first);
    LossyPost(Run([Post(first)]), sub);
    RunSnoc([Post(first)], Post(sub));
  }

  /** Changing one role is such a Put. */
  lemma RoleChangeIsMore(first: Sub, role: string)
    requires first.roles == [] && (OnRole, Lower(role)) !in FixedTriggers(first)
    ensures !OnlyStates(first, first.(roles := [role]))
  {
    var sub, k := first.(roles := [role]), (OnRole, Lower(role));
    assert [role][..0] == [] && Keys(OnRole, []) == [];
    assert Keys(OnRole, [role]) == [k];
    assert k in FixedTriggers(sub);
    assert multiset(FixedTriggers(sub))[k] > 0 && multiset(FixedTriggers(first))[k] == 0;
  }

  // ---- Sending a state change notification ----

  datatype Payload = Payload(state: string, role: string, subRole: string, swStatus: string, enabled: Option<bool>)

  /** The one trigger a notification is sent for; a bare "enabled" counts whatever its value. */
  function Chosen(p: Payload): Option<Key> {
    if p.state != "" then Some((OnState, Lower(p.state)))
    else if p.role != "" then Some((OnRole, Lower(p.role)))
    else if p.subRole != "" then Some((OnSubRole, Lower(p.subRole)))
    else if p.swStatus != "" then Some((OnSwStatus, Lower(p.swStatus)))
    else if p.enabled.Some? then Some((OnEnabled, "enabled"))
    else None
  }

  function Targets(idx: Index, p: Payload): seq<string> {
    if Chosen(p).None? then [] else ScnUrls.Urls(ScnIndex.Urls(idx, Chosen(p).value))
  }

  predicate Wants(s: Sub, p: Payload) {
    Chosen(p).Some? && Chosen(p).value in Triggers(s)
  }

  lemma {:induction false} KeysHold(t: TrigType, values: seq<string>, k: Key)
    ensures k in Keys(t, values) <==> k.0 == t && exists v :: v in values && Lower(v) == k.1
  {
    if values != [] {
      var n := |values| - 1;
      KeysHold(t, values[..n], k);
      assert forall v :: v in values <==> v in values[..n] || v == values[n];
    }
  }

  predicate HasValue(values: seq<string>, v: string) { exists w :: w in values && Lower(w) == Lower(v) }

  /** The subscription asks for the first thing the notification says something about, in any letter case. */
  predicate AsksFor(s: Sub, p: Payload) {
    if p.state != "" then HasValue(s.states, p.state)
    else if p.role != "" then HasValue(s.roles, p.role)
    else if p.subRole != "" then HasValue(s.subRoles, p.subRole)
    else if p.swStatus != "" then HasValue(s.swStatus, p.swStatus)
    else p.enabled.Some? && s.enabled == Some(true)
  }

  lemma WantsMeans(s: Sub, p: Payload)
    ensures Wants(s, p) <==> AsksFor(s, p)
  {
    if Chosen(p).Some? {
      var k := Chosen(p).value;
      KeysHold(OnRole, s.roles, k);
      KeysHold(OnSubRole, s.subRoles, k);
      KeysHold(OnSwStatus, s.swStatus, k);
      KeysHold(OnState, s.states, k);
    }
  }

  /** After any faithful operations a notification goes to exactly the URLs of the cached
      subscriptions that ask for what it is about, to each once. */
  lemma NotifiesSubscribers(ops: seq<Op>, p: Payload)
    requires forall i :: 0 <= i < |ops| ==> Faithful(Run(ops[..i]), ops[i])
    ensures var s := Run(ops);
            Distinct(Targets(s.idx, p))
            && forall u :: u in Targets(s.idx, p) <==>
              exists i :: 0 <= i < |s.list| && s.list[i].url == u && AsksFor(s.list[i], p)
  {
    var s := Run(ops);
    NotifiesWanting(ops, p);
    forall u
      ensures u in Targets(s.idx, p) <==> exists i :: 0 <= i < |s.list| && s.list[i].url == u && AsksFor(s.list[i], p) {
      if i :| 0 <= i < |s.list| && s.list[i].url == u && AsksFor(s.list[i], p) {
        WantsMeans(s.list[i], p);
      }
      if i :| 0 <= i < |s.list| && s.list[i].url == u && Wants(s.list[i], p) {
        WantsMeans(s.list[i], p);
      }
    }
  }

  /** In terms of the chosen trigger: the URLs of those who hold it. */
  lemma NotifiesWanting(ops: seq<Op>, p: Payload)
    requires forall i :: 0 <= i < |ops| ==> Faithful(Run(ops[..i]), ops[i])
    ensures var s := Run(ops);
            Distinct(Targets(s.idx, p))
            && forall u :: u in Targets(s.idx, p) <==>
              exists i :: 0 <= i < |s.list| && s.list[i].url == u && Wants(s.list[i], p)
  {
    var s := Run(ops);
    RunsAgree(ops);
    if Chosen(p).Some? {
      var k := Chosen(p).value;
      Routing(View(s), k);
      forall u
        ensures u in Targets(s.idx, p) <==> exists i :: 0 <= i < |s.list| && s.list[i].url == u && Wants(s.list[i], p) {
        if i :| 0 <= i < |s.list| && s.list[i].url == u && Wants(s.list[i], p) {
          assert Subscribes(View(s).hs[i], k, u);
        }
        if i :| 0 <= i < |s.list| && Subscribes(View(s).hs[i], k, u) {
          assert s.list[i].url == u && Wants(s.list[i], p);
        }
      }
    }
  }
}
