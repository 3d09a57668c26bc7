/** The server's subscription list and index, changed in place by the handlers under one lock. Each
    handler takes what its database call answered as a parameter and changes nothing on an error. */
module ScnServer {
  import opened Options
  import opened Text
  import opened ScnUrls
  import opened PatchRemove
  import opened ScnIndex
  import opened ScnHandlers

  lemma KeysSnoc(t: TrigType, values: seq<string>, i: nat)
    requires i < |values|
    ensures var ks := Keys(t, values[..i + 1]);
            ks == Keys(t, values[..i]) + [(t, Lower(values[i]))] && ks[..|ks| - 1] == Keys(t, values[..i])
  {
    assert values[..i + 1][..i] == values[..i];
  }

  lemma {:induction false} NoNilOfType(idx: Index, t: TrigType, values: seq<string>)
    ensures NoNilWrite(idx, Keys(t, values)) <==> values == [] || t in idx
  {
    if values != [] {
      var n := |values| - 1;
      NoNilOfType(idx, t, values[..n]);
      NoNilConcat(idx, Keys(t, values[..n]), [(t, Lower(values[n]))]);
      assert NoNilWrite(idx, [(t, Lower(values[n]))]) <==> t in idx by {
        assert (t, Lower(values[n])) in [(t, Lower(values[n]))];
      }
    }
  }

  class Server {
    var scnSubs: seq<Sub>
    var scnSubMap: Index
    /** Held between critical sections only if one of them ended in a panic. */
    var scnSubLock: bool

    ghost function State(): Scn
      reads this
    {
      Scn(scnSubs, scnSubMap, scnSubLock)
    }

    constructor ()
      ensures State() == NO_SUBS
    {
      scnSubs, scnSubMap, scnSubLock := [], map[], false;
    }

    /** Without the lock the caller waits for ever: nobody is left to release it. */
    method Lock() returns (got: bool)
      modifies `scnSubLock
      ensures got == !old(scnSubLock) && scnSubLock
    {
      got := !scnSubLock;
      scnSubLock := true;
    }

    method Unlock()
      modifies `scnSubLock
      ensures !scnSubLock
    {
      scnSubLock := false;
    }

    // ---- addSCNMapSubscription and removeSCNMapSubscription ----

    method AddTrigger(t: TrigType, value: string, url: string)
      modifies `scnSubMap
      ensures scnSubMap == AddKey(old(scnSubMap), (t, value), url)
    {
      if t !in scnSubMap {
        scnSubMap := scnSubMap[t := map[]];
      }
      if value !in scnSubMap[t] {
        scnSubMap := scnSubMap[t := scnSubMap[t][value := []]];
      }
      scnSubMap := scnSubMap[t := scnSubMap[t][value := AddUrl(scnSubMap[t][value], url)]];
      ghost var was := if t in old(scnSubMap) then old(scnSubMap)[t] else map[];
      assert scnSubMap[t] == was[value := scnSubMap[t][value]];
      assert scnSubMap == old(scnSubMap)[t := scnSubMap[t]];
    }

    method AddTriggers(t: TrigType, values: seq<string>, url: string)
      modifies `scnSubMap
      ensures scnSubMap == AddKeys(old(scnSubMap), Keys(t, values), url)
    {
      for i := 0 to |values|
        invariant scnSubMap == AddKeys(old(scnSubMap), Keys(t, values[..i]), url)
      {
        AddTrigger(t, Lower(values[i]), url);
        KeysSnoc(t, values, i);
      }
      assert values[..|values|] == values;
    }

    /** The write into the inner map needs it not to be nil. */
    method RemoveTrigger(t: TrigType, value: string, url: string)
      requires t in scnSubMap
      modifies `scnSubMap
      ensures scnSubMap == RemoveKey(old(scnSubMap), (t, value), url)
    {
      var urls := if value in scnSubMap[t] then scnSubMap[t][value] else [];
      scnSubMap := scnSubMap[t := scnSubMap[t][value := RemoveUrl(urls, url)]];
    }

    method RemoveTriggers(t: TrigType, values: seq<string>, url: string)
      requires NoNilWrite(scnSubMap, Keys(t, values))
      modifies `scnSubMap
      ensures scnSubMap == RemoveKeys(old(scnSubMap), Keys(t, values), url)
    {
      NoNilOfType(scnSubMap, t, values);
      NoNilOfType(scnSubMap, t, []);
      for i := 0 to |values|
        invariant NoNilWrite(old(scnSubMap), Keys(t, values[..i]))
        invariant scnSubMap == RemoveKeys(old(scnSubMap), Keys(t, values[..i]), url)
      {
        KeysSnoc(t, values, i);
        NoNilOfType(old(scnSubMap), t, values[..i + 1]);
        RemoveTrigger(t, Lower(values[i]), url);
      }
      assert values[..|values|] == values;
    }

    method AddMapSubscription(sub: Sub)
      modifies `scnSubMap
      ensures scnSubMap == Enter(old(scnSubMap), Hold(sub))
    {
      ghost var was := scnSubMap;
      ghost var e, r, sr, sw := EnabledKeys(sub.enabled), Keys(OnRole, sub.roles), Keys(OnSubRole, sub.subRoles),
        Keys(OnSwStatus, sub.swStatus);
      if sub.enabled == Some(true) {
        AddTrigger(OnEnabled, "enabled", sub.url);
        assert e[..0] == [];
      }
      AddTriggers(OnRole, sub.roles, sub.url);
      AddKeysConcat(was, e, r, sub.url);
      AddTriggers(OnSubRole, sub.subRoles, sub.url);
      AddKeysConcat(was, e + r, sr, sub.url);
      AddTriggers(OnSwStatus, sub.swStatus, sub.url);
      AddKeysConcat(was, e + r + sr, sw, sub.url);
      AddTriggers(OnState, sub.states, sub.url);
      AddKeysConcat(was, e + r + sr + sw, Keys(OnState, sub.states), sub.url);
    }

    method RemoveMapSubscription(sub: Sub)
      requires NoNilWrite(scnSubMap, Triggers(sub))
      modifies `scnSubMap
      ensures scnSubMap == Withdraw(old(scnSubMap), Hold(sub))
    {
      ghost var was := scnSubMap;
      ghost var e, r, sr, sw, st := EnabledKeys(sub.enabled), Keys(OnRole, sub.roles),
        Keys(OnSubRole, sub.subRoles), Keys(OnSwStatus, sub.swStatus), Keys(OnState, sub.states);
      NoNilConcat(was, e + r + sr + sw, st);
      NoNilConcat(was, e + r + sr, sw);
      NoNilConcat(was, e + r, sr);
      NoNilConcat(was, e, r);
      if sub.enabled == Some(true) {
        assert (OnEnabled, "enabled") in e && e[..0] == [];
        RemoveTrigger(OnEnabled, "enabled", sub.url);
      }
      RemoveTriggers(OnRole, sub.roles, sub.url);
      RemoveKeysConcat(was, e, r, sub.url);
      RemoveTriggers(OnSubRole, sub.subRoles, sub.url);
      RemoveKeysConcat(was, e + r, sr, sub.url);
      RemoveTriggers(OnSwStatus, sub.swStatus, sub.url);
      RemoveKeysConcat(was, e + r + sr, sw, sub.url);
      RemoveTriggers(OnState, sub.states, sub.url);
      RemoveKeysConcat(was, e + r + sr + sw, st, sub.url);
    }

    // ---- The critical sections ----

    /** None stands for a failed database read. */
    method Refresh(subs: Option<seq<Sub>>)
      requires Ok(View(State()))
      modifies this
      ensures State() == if subs.Some? && !old(scnSubLock) then ApplyRefresh(subs.value) else old(State())
    {
      var got := Lock();
      if !got {
        return;
      }
      if subs.None? {
        Unlock();
        return;
      }
      var list := subs.value;
      ghost var hs := Holdings(list);
      scnSubMap := map[];
      for i := 0 to |list|
        invariant scnSubMap == EnterAll(map[], hs[..i])
      {
        AddMapSubscription(list[i]);
        assert hs[..i + 1][..i] == hs[..i];
      }
      assert hs[..|list|] == hs;
      scnSubs := list;
      Unlock();
    }

    method FindIndex(id: int) returns (i: nat)
      ensures i == FindSub(scnSubs, id)
    {
      i := 0;
      while i < |scnSubs| && scnSubs[i].id != id
        invariant i <= |scnSubs| && forall j :: 0 <= j < i ==> scnSubs[j].id != id
      {
        i := i + 1;
      }
    }

    /** The index trades the cached entry's triggers for those of the new subscription. */
    method SwapTriggers(i: nat, newSub: Sub)
      requires Ok(View(State())) && i < |scnSubs|
      modifies `scnSubMap
      ensures scnSubMap == Swap(old(State()), i, newSub)
    {
      var sub := scnSubs[i];
      assert View(State()).hs[i] == Hold(sub);
      RemoveMapSubscription(sub);
      AddMapSubscription(newSub);
    }

    method Post(newSub: Sub, dbOk: bool)
      requires Ok(View(State()))
      modifies this
      ensures State() == if dbOk && !old(scnSubLock) then ApplyPost(old(State()), newSub) else old(State())
    {
      var got := Lock();
      if !got {
        return;
      }
      if !dbOk {
        Unlock();
        return;
      }
      var i := FindIndex(newSub.id);
      if i < |scnSubs| {
        SwapTriggers(i, newSub);
        scnSubs := scnSubs[i := scnSubs[i].(states := newSub.states, enabled := newSub.enabled,
          roles := newSub.roles, subRoles := newSub.subRoles, swStatus := newSub.swStatus)];
      } else {
        AddMapSubscription(newSub);
        scnSubs := scnSubs + [newSub];
      }
      Unlock();
    }

    method Put(newSub: Sub, didUpdate: bool)
      requires Ok(View(State()))
      modifies this
      ensures State() == if didUpdate && !old(scnSubLock) then ApplyPut(old(State()), newSub) else old(State())
    {
      var got := Lock();
      if !got {
        return;
      }
      if !didUpdate {
        Unlock();
        return;
      }
      var i := FindIndex(newSub.id);
      if i < |scnSubs| {
        SwapTriggers(i, newSub);
        scnSubs := scnSubs[i := scnSubs[i].(states := newSub.states)];
      }
      Unlock();
    }

    method Missing(have: seq<string>, patch: seq<string>) returns (r: seq<string>)
      ensures r == NewValues(have, patch)
    {
      r := [];
      for i := 0 to |patch|
        invariant r == NewValues(have, patch[..i])
      {
        var isMatch := false;
        for j := 0 to |have|
          invariant isMatch <==> patch[i] in have[..j]
        {
          assert have[..j + 1] == have[..j] + [have[j]];
          if have[j] == patch[i] {
            isMatch := true;
          }
        }
        assert have[..|have|] == have;
        if !isMatch {
          r := r + [patch[i]];
        }
        assert patch[..i + 1][..i] == patch[..i];
      }
      assert patch[..|patch|] == patch;
    }

    /** A failed database call changes nothing; a panic leaves the lock held. */
    method DoPatch(id: int, p: Patch, didPatch: bool) returns (panicked: bool)
      requires Ok(View(State()))
      modifies this
      ensures State() == if !didPatch || old(scnSubLock) then old(State()) else ApplyPatch(old(State()), id, p)
      ensures panicked <==> didPatch && !old(scnSubLock) && p.op.RemoveOp? && Panics(old(State()), id, p)
    {
      var got := Lock();
      if !got {
        return false;
      }
      panicked := false;
      if didPatch {
        panicked := PatchCached(id, p);
      }
      if panicked {
        return true;
      }
      Unlock();
    }

    method PatchCached(id: int, p: Patch) returns (panicked: bool)
      requires Ok(View(State()))
      modifies `scnSubs, `scnSubMap
      ensures State().(stuck := panicked) == ApplyPatch(old(State()).(stuck := false), id, p)
      ensures panicked <==> p.op.RemoveOp? && Panics(old(State()), id, p)
    {
      panicked := false;
      match p.op
      case AddOp => PatchAdd(id, p);
      case RemoveOp => panicked := PatchRemove(id, p);
      case ReplaceOp => PatchReplace(id, p);
    }

    /** The values not yet in the old lists are appended to the cached ones. */
    method AddLists(i: nat, p: Patch) returns (newSub: Sub)
      requires i < |scnSubs|
      modifies `scnSubs
      ensures newSub == AddDelta(old(scnSubs)[i], p)
      ensures scnSubs == old(scnSubs)[i := AddEntry(old(scnSubs)[i], p)]
    {
      var sub := scnSubs[i];
      var states := Missing(sub.states, p.states);
      var roles := Missing(sub.roles, p.roles);
      var subRoles := Missing(sub.subRoles, p.subRoles);
      var swStatus := Missing(sub.swStatus, p.swStatus);
      newSub := Sub(sub.id, sub.subscriber, sub.url, None, roles, subRoles, swStatus, states);
      scnSubs := scnSubs[i := sub.(roles := sub.roles + roles, subRoles := sub.subRoles + subRoles,
        swStatus := sub.swStatus + swStatus, states := sub.states + states)];
      if p.enabled == Some(true) && sub.enabled == Some(false) {
        newSub := newSub.(enabled := p.enabled);
        scnSubs := scnSubs[i := scnSubs[i].(enabled := p.enabled)];
      }
    }

    method PatchAdd(id: int, p: Patch)
      requires Ok(View(State()))
      modifies `scnSubs, `scnSubMap
      ensures State() == ApplyAdd(old(State()), id, p)
    {
      var i := FindIndex(id);
      if i < |scnSubs| {
        var newSub := AddLists(i, p);
        AddMapSubscription(newSub);
      }
    }

    /** Cuts the patch values out of a list that shares its backing array with the handler's copy. */
    method CutOut(have: seq<string>, patch: seq<string>)
        returns (left: seq<string>, removed: seq<string>, panicked: bool)
      ensures panicked <==> !PatchSafe(have, patch)
      ensures left == CutIf(true, have, patch) && removed == TakenIf(true, have, patch)
    {
      var a := new string[|have|](k requires 0 <= k < |have| => have[k]);
      assert a[..] == have;
      var live;
      live, removed, panicked := RemoveShared(a, patch);
      left := a[..live];
    }

    /** List after list of the cached entry is cut in place. A panic ends the handler then and there:
        what is cut stays cut, and neither the flag nor the index is reached. */
    method CutLists(i: nat, p: Patch) returns (newSub: Sub, panicked: bool)
      requires i < |scnSubs|
      modifies `scnSubs
      ensures panicked <==> !PatchRuns(old(scnSubs)[i], p)
      ensures newSub == CutDelta(old(scnSubs)[i], p)
      ensures scnSubs == old(scnSubs)[i := CutEntry(old(scnSubs)[i], p)]
    {
      var sub := scnSubs[i];
      newSub := Sub(sub.id, sub.subscriber, sub.url, None, [], [], [], []);
      var left, cut;
      left, cut, panicked := CutOut(sub.states, p.states);
      scnSubs, newSub := scnSubs[i := sub.(states := left)], newSub.(states := cut);
      if panicked {
        return;
      }
      left, cut, panicked := CutOut(sub.roles, p.roles);
      scnSubs, newSub := scnSubs[i := scnSubs[i].(roles := left)], newSub.(roles := cut);
      if panicked {
        return;
      }
      left, cut, panicked := CutOut(sub.subRoles, p.subRoles);
      scnSubs, newSub := scnSubs[i := scnSubs[i].(subRoles := left)], newSub.(subRoles := cut);
      if panicked {
        return;
      }
      left, cut, panicked := CutOut(sub.swStatus, p.swStatus);
      scnSubs, newSub := scnSubs[i := scnSubs[i].(swStatus := left)], newSub.(swStatus := cut);
    }

    method PatchRemove(id: int, p: Patch) returns (panicked: bool)
      requires Ok(View(State()))
      modifies `scnSubs, `scnSubMap
      ensures panicked <==> Panics(old(State()), id, p)
      ensures State().(stuck := panicked) == ApplyRemove(old(State()).(stuck := false), id, p)
    {
      var i := FindIndex(id);
      if i == |scnSubs| {
        return false;
      }
      var sub := scnSubs[i];
      ghost var was := State();
      var newSub;
      newSub, panicked := CutLists(i, p);
      if panicked {
        return;
      }
      RunsThrough(sub, p);
      RemoveDeltaInside(was, i, p);
      if p.enabled == Some(true) && sub.enabled == Some(true) {
        newSub := newSub.(enabled := p.enabled);
        scnSubs := scnSubs[i := scnSubs[i].(enabled := Some(false))];
      }
      RemoveMapSubscription(newSub);
    }

    /** Only the fields the patch names are replaced. */
    method Overwrite(sub: Sub, p: Patch) returns (r: Sub)
      ensures r == ReplaceEntry(sub, p)
    {
      r := sub;
      if |p.states| > 0 {
        r := r.(states := p.states);
      }
      if |p.roles| > 0 {
        r := r.(roles := p.roles);
      }
      if |p.subRoles| > 0 {
        r := r.(subRoles := p.subRoles);
      }
      if |p.swStatus| > 0 {
        r := r.(swStatus := p.swStatus);
      }
      if p.enabled.Some? {
        r := r.(enabled := p.enabled);
      }
    }

    method PatchReplace(id: int, p: Patch)
      requires Ok(View(State()))
      modifies `scnSubs, `scnSubMap
      ensures State() == ApplyReplace(old(State()), id, p)
    {
      var i := FindIndex(id);
      if i < |scnSubs| {
        var sub := scnSubs[i];
        assert View(State()).hs[i] == Hold(sub);
        RemoveMapSubscription(sub);
        var entry := Overwrite(sub, p);
        scnSubs := scnSubs[i := entry];
        AddMapSubscription(entry);
        assert State().idx == Swap(old(State()), i, entry);
      }
    }

    method Delete(id: int, didDelete: bool)
      requires Ok(View(State()))
      modifies this
      ensures State() == if didDelete && !old(scnSubLock) then ApplyDelete(old(State()), id) else old(State())
    {
      var got := Lock();
      if !got {
        return;
      }
      if !didDelete {
        Unlock();
        return;
      }
      var i := FindIndex(id);
      if i < |scnSubs| {
        RemoveMapSubscription(scnSubs[i]);
        scnSubs := Cut(scnSubs, i);
      }
      Unlock();
    }

    method DeleteAll(dbOk: bool)
      requires Ok(View(State()))
      modifies this
      ensures State() == if dbOk && !old(scnSubLock) then NO_SUBS else old(State())
    {
      var got := Lock();
      if !got {
        return;
      }
      if dbOk {
        scnSubs, scnSubMap := [], map[];
      }
      Unlock();
    }

    /** The URLs a notification job starts a sender for, in order. */
    method Notify(scn: Payload) returns (started: seq<string>)
      ensures started == Targets(scnSubMap, scn)
    {
      var trigger, triggerType;
      if scn.state != "" {
        trigger, triggerType := Lower(scn.state), OnState;
      } else if scn.role != "" {
        trigger, triggerType := Lower(scn.role), OnRole;
      } else if scn.subRole != "" {
        trigger, triggerType := Lower(scn.subRole), OnSubRole;
      } else if scn.swStatus != "" {
        trigger, triggerType := Lower(scn.swStatus), OnSwStatus;
      } else if scn.enabled.Some? {
        trigger, triggerType := "enabled", OnEnabled;
      } else {
        return [];
      }
      if triggerType !in scnSubMap || trigger !in scnSubMap[triggerType] {
        return [];
      }
      var urlList := scnSubMap[triggerType][trigger];
      started := [];
      for i := 0 to |urlList|
        invariant started == ScnUrls.Urls(urlList)[..i]
      {
        started := started + [urlList[i].url];
      }
    }
  }
}
