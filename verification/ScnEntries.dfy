/** What each operation makes of the cached list and of the entry it is about, field by field. */
module ScnEntries {
  import opened Options
  import opened Text
  import opened ScnUrls
  import opened PatchRemove
  import opened ScnIndex
  import opened ScnHandlers

  /** Only a patch that says true counts for an add or a remove, and only for a flag that is the opposite. */
  function FlagAfter(s: Sub, p: Patch): Option<bool> {
    match p.op
    case AddOp => if s.enabled == Some(false) && p.enabled == Some(true) then Some(true) else s.enabled
    case RemoveOp => if s.enabled == Some(true) && p.enabled == Some(true) then Some(false) else s.enabled
    case ReplaceOp => if p.enabled.None? then s.enabled else p.enabled
  }

  predicate SameName(s: Sub, e: Sub) { e.id == s.id && e.subscriber == s.subscriber && e.url == s.url }

  /** How often a value is in a list. */
  function Times(s: seq<string>, v: string): nat { multiset(s)[v] }

  /** A list after an add patch: what was there, and behind it the given values it lacked. */
  ghost predicate ListAdded(have: seq<string>, given: seq<string>, after: seq<string>) {
    have <= after && forall v :: Times(after, v) == Times(have, v) + if v in have then 0 else Times(given, v)
  }

  /** A list after a remove patch: each given value is there once less for each time it is given. */
  ghost predicate ListRemoved(have: seq<string>, given: seq<string>, after: seq<string>) {
    forall v :: Times(after, v) == if Times(have, v) < Times(given, v) then 0 else Times(have, v) - Times(given, v)
  }

  ghost predicate ListPatched(op: PatchOp, have: seq<string>, given: seq<string>, after: seq<string>) {
    match op
    case AddOp => ListAdded(have, given, after)
    case RemoveOp => ListRemoved(have, given, after)
    case ReplaceOp => after == if given == [] then have else given
  }

  /** A patch that runs through has made e of the entry s. */
  ghost predicate Patched(s: Sub, p: Patch, e: Sub) {
    && SameName(s, e) && e.enabled == FlagAfter(s, p)
    && ListPatched(p.op, s.roles, p.roles, e.roles) && ListPatched(p.op, s.subRoles, p.subRoles, e.subRoles)
    && ListPatched(p.op, s.swStatus, p.swStatus, e.swStatus) && ListPatched(p.op, s.states, p.states, e.states)
  }

  lemma TimesSnoc(s: seq<string>, x: string, v: string)
    ensures Times(s + [x], v) == Times(s, v) + if x == v then 1 else 0
    ensures Times(s + [], v) == Times(s, v)
  {
    assert s + [] == s;
  }

  lemma {:induction false} NewValuesTimes(have: seq<string>, patch: seq<string>, v: string)
    ensures Times(NewValues(have, patch), v) == if v in have then 0 else Times(patch, v)
  {
    if patch != [] {
      var n := |patch| - 1;
      NewValuesTimes(have, patch[..n], v);
      assert patch[..n] + [patch[n]] == patch;
      TimesSnoc(patch[..n], patch[n], v);
      if patch[n] in have {
        assert NewValues(have, patch) == NewValues(have, patch[..n]);
      } else {
        TimesSnoc(NewValues(have, patch[..n]), patch[n], v);
      }
    }
  }

  /** The values stay in the order they are given in. */
  lemma {:induction false} NewValuesConcat(have: seq<string>, a: seq<string>, b: seq<string>)
    ensures NewValues(have, a + b) == NewValues(have, a) + NewValues(have, b)
  {
    if b == [] {
      assert a + b == a;
    } else {
      assert (a + b)[..|a + b| - 1] == a + b[..|b| - 1];
      NewValuesConcat(have, a, b[..|b| - 1]);
    }
  }

  lemma AddedMeans(have: seq<string>, patch: seq<string>)
    ensures ListAdded(have, patch, have + NewValues(have, patch))
  {
    forall v
      ensures Times(have + NewValues(have, patch), v) == Times(have, v) + if v in have then 0 else Times(patch, v)
    {
      NewValuesTimes(have, patch, v);
    }
  }

  lemma RemoveFirstTimes(s: seq<string>, x: string, v: string)
    ensures Times(if x in s then RemoveFirst(s, x) else s, v) == Times(s, v) - if x in s && x == v then 1 else 0
  {
    if x in s {
      RemoveFirstConserves(s, x);
      assert multiset(RemoveFirst(s, x)) == multiset(s) - multiset{x};
    }
  }

  lemma RemoveStep(t: seq<string>, x: string, v: string, had: nat, given: nat)
    requires Times(t, v) == Less(had, given)
    ensures Times(if x in t then RemoveFirst(t, x) else t, v) == Less(had, given + if x == v then 1 else 0)
  {
    RemoveFirstTimes(t, x, v);
    assert x in t <==> Times(t, x) > 0;
  }

  lemma {:induction false} RemovedTimes(have: seq<string>, patch: seq<string>, v: string)
    ensures Times(RemoveEach(have, patch), v) == Less(Times(have, v), Times(patch, v))
  {
    if patch != [] {
      var n := |patch| - 1;
      RemovedTimes(have, patch[..n], v);
      TimesSnoc(patch[..n], patch[n], v);
      assert patch[..n] + [patch[n]] == patch;
      RemoveStep(RemoveEach(have, patch[..n]), patch[n], v, Times(have, v), Times(patch[..n], v));
    }
  }

  lemma RemovedMeans(have: seq<string>, patch: seq<string>)
    ensures ListRemoved(have, patch, RemoveEach(have, patch))
  {
    forall v ensures Times(RemoveEach(have, patch), v)
      == if Times(have, v) < Times(patch, v) then 0 else Times(have, v) - Times(patch, v)
    {
      RemovedTimes(have, patch, v);
    }
  }

  lemma AddMeans(s: Sub, p: Patch)
    requires p.op.AddOp?
    ensures Patched(s, p, AddEntry(s, p))
  {
    AddedMeans(s.roles, p.roles);
    AddedMeans(s.subRoles, p.subRoles);
    AddedMeans(s.swStatus, p.swStatus);
    AddedMeans(s.states, p.states);
  }

  lemma RemoveMeans(s: Sub, p: Patch)
    requires p.op.RemoveOp?
    ensures Patched(s, p, RemoveEntry(s, p))
  {
    RemovedMeans(s.roles, p.roles);
    RemovedMeans(s.subRoles, p.subRoles);
    RemovedMeans(s.swStatus, p.swStatus);
    RemovedMeans(s.states, p.states);
  }

  lemma ReplaceMeans(s: Sub, p: Patch)
    requires p.op.ReplaceOp?
    ensures Patched(s, p, ReplaceEntry(s, p))
  {
  }

  /** The list of this place, when a remove patch panics in the one at `at`: an earlier one is done, that
      one is cut as far as the loop got, a later one is as it was. */
  ghost predicate ListCut(place: nat, at: nat, have: seq<string>, given: seq<string>, after: seq<string>) {
    if place < at then PatchSafe(have, given) && ListRemoved(have, given, after)
    else if place == at then !PatchSafe(have, given) && after == CutList(have, given)
    else after == have
  }

  /** The lists are dealt with in this order, and the flag last. */
  ghost predicate PanickedIn(s: Sub, p: Patch, e: Sub, at: nat) {
    && at < 4 && SameName(s, e) && e.enabled == s.enabled
    && ListCut(0, at, s.states, p.states, e.states)
    && ListCut(1, at, s.roles, p.roles, e.roles)
    && ListCut(2, at, s.subRoles, p.subRoles, e.subRoles)
    && ListCut(3, at, s.swStatus, p.swStatus, e.swStatus)
  }

  lemma SafeIsDone(have: seq<string>, patch: seq<string>)
    ensures PatchSafe(have, patch) ==> ListRemoved(have, patch, CutList(have, patch))
  {
    if PatchSafe(have, patch) {
      WholeList(have, patch);
      RemovedMeans(have, patch);
    }
  }

  lemma CutMeans(s: Sub, p: Patch)
    requires p.op.RemoveOp? && !PatchRuns(s, p)
    ensures exists at :: PanickedIn(s, p, CutEntry(s, p), at)
  {
    SafeIsDone(s.states, p.states);
    SafeIsDone(s.roles, p.roles);
    SafeIsDone(s.subRoles, p.subRoles);
    var at: nat := if !PatchSafe(s.states, p.states) then 0 else if !PatchSafe(s.roles, p.roles) then 1
      else if !PatchSafe(s.subRoles, p.subRoles) then 2 else 3;
    assert PanickedIn(s, p, CutEntry(s, p), at);
  }

  // ---- The list after an operation ----

  /** Entry i has become e, and every other entry is as it was. */
  predicate Rewritten(list: seq<Sub>, after: seq<Sub>, i: nat, e: Sub) { i < |list| && after == list[i := e] }

  ghost predicate PatchDone(list: seq<Sub>, after: seq<Sub>, i: nat, p: Patch)
    requires i < |list| && |after| == |list|
  {
    if p.op.RemoveOp? && !PatchRuns(list[i], p) then exists at :: PanickedIn(list[i], p, after[i], at)
    else Patched(list[i], p, after[i])
  }

  /** The cached list after an operation, given the place of the first entry with its ID, if any. */
  ghost predicate ListDone(list: seq<Sub>, op: Op, i: nat, after: seq<Sub>)
    requires i <= |list|
  {
    match op
    case Refresh(subs) => after == subs
    case DeleteAll => after == []
    case Post(sub) =>
      if i == |list| then after == list + [sub]
      else Rewritten(list, after, i, Sub(list[i].id, list[i].subscriber, list[i].url, sub.enabled,
             sub.roles, sub.subRoles, sub.swStatus, sub.states))
    case Put(sub) =>
      if i == |list| then after == list
      else Rewritten(list, after, i, Sub(list[i].id, list[i].subscriber, list[i].url, list[i].enabled,
             list[i].roles, list[i].subRoles, list[i].swStatus, sub.states))
    case Delete(_) => if i == |list| then after == list else after == list[..i] + list[i + 1..]
    case DoPatch(_, p) =>
      if i == |list| then after == list
      else |after| == |list| && Rewritten(list, after, i, after[i]) && PatchDone(list, after, i, p)
  }

  function IdOf(op: Op): int {
    match op
    case Post(sub) => sub.id
    case Put(sub) => sub.id
    case DoPatch(id, _) => id
    case Delete(id) => id
    case _ => 0
  }

  lemma PatchListAfter(s: Scn, id: int, p: Patch)
    requires Ok(View(s))
    ensures ListDone(s.list, DoPatch(id, p), FindSub(s.list, id), ApplyPatch(s, id, p).list)
  {
    var i := FindSub(s.list, id);
    if i < |s.list| {
      match p.op
      case AddOp => AddMeans(s.list[i], p);
      case RemoveOp =>
        if PatchRuns(s.list[i], p) {
          RemoveMeans(s.list[i], p);
        } else {
          CutMeans(s.list[i], p);
        }
      case ReplaceOp => ReplaceMeans(s.list[i], p);
    }
  }

  /** Every operation leaves the list as its kind says, unless the lock is held for ever. */
  lemma ListAfter(s: Scn, op: Op, i: nat)
    requires Ok(View(s)) && i <= |s.list|
    requires forall j :: 0 <= j < i ==> s.list[j].id != IdOf(op)
    requires i < |s.list| ==> s.list[i].id == IdOf(op)
    ensures if s.stuck then Apply(s, op) == s else ListDone(s.list, op, i, Apply(s, op).list)
  {
    assert i == FindSub(s.list, IdOf(op));
    if !s.stuck && op.DoPatch? {
      PatchListAfter(s, op.id, op.patch);
    }
  }
}
