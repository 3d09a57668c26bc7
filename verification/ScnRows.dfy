/** The stored subscriptions beside the cached list: what each operation writes to the database, and
    when the cached list still says the same afterwards. */
module ScnRows {
  import opened Options
  import opened ScnUrls
  import opened PatchRemove
  import opened ScnIndex
  import opened ScnHandlers
  import opened ScnEntries

  /** The subscription table, by ID. */
  type Rows = map<int, Sub>

  // ---- What the database does with a patch ----

  /** Every patch value that is not in the list as it has become by then. */
  function GrowEach(have: seq<string>, patch: seq<string>): seq<string> {
    if patch == [] then have
    else
      var t, v := GrowEach(have, patch[..|patch| - 1]), patch[|patch| - 1];
      if v in t then t else t + [v]
  }

  function AddedRow(s: Sub, p: Patch): Sub {
    s.(enabled := if p.enabled == Some(true) && s.enabled == Some(false) then Some(true) else s.enabled,
       roles := GrowEach(s.roles, p.roles), subRoles := GrowEach(s.subRoles, p.subRoles),
       swStatus := GrowEach(s.swStatus, p.swStatus), states := GrowEach(s.states, p.states))
  }

  function PatchedRow(s: Sub, p: Patch): Sub {
    match p.op
    case AddOp => AddedRow(s, p)
    case RemoveOp => RemoveEntry(s, p)
    case ReplaceOp => ReplaceEntry(s, p)
  }

  method GrowAll(have: seq<string>, patch: seq<string>) returns (r: seq<string>)
    ensures r == GrowEach(have, patch)
  {
    r := have;
    for i := 0 to |patch|
      invariant r == GrowEach(have, patch[..i])
    {
      var isMatch := false;
      for j := 0 to |r|
        invariant isMatch <==> patch[i] in r[..j]
      {
        assert r[..j + 1] == r[..j] + [r[j]];
        if r[j] == patch[i] {
          isMatch := true;
        }
      }
      assert r[..|r|] == r;
      assert patch[..i + 1][..i] == patch[..i];
      if !isMatch {
        r := r + [patch[i]];
      }
    }
    assert patch[..|patch|] == patch;
  }

  /** Unlike the handler this ranges over the list as it is by then, so it cannot run past its end. */
  method CutAll(have: seq<string>, patch: seq<string>) returns (r: seq<string>)
    ensures r == RemoveEach(have, patch)
  {
    r := have;
    for i := 0 to |patch|
      invariant r == RemoveEach(have, patch[..i])
    {
      EachSnoc(have, patch, i);
      var j := 0;
      while j < |r| && r[j] != patch[i]
        invariant j <= |r| && forall k :: 0 <= k < j ==> r[k] != patch[i]
      {
        j := j + 1;
      }
      if j < |r| {
        RemoveFirstAt(r, patch[i], j);
        r := r[..j] + r[j + 1..];
      }
    }
    assert patch[..|patch|] == patch;
  }

  /** PatchSCNSubscriptionTx on the row it has read. */
  method PatchRow(row: Sub, p: Patch) returns (r: Sub)
    ensures r == PatchedRow(row, p)
  {
    r := row;
    match p.op
    case AddOp =>
      var states := GrowAll(r.states, p.states);
      var roles := GrowAll(r.roles, p.roles);
      var subRoles := GrowAll(r.subRoles, p.subRoles);
      var swStatus := GrowAll(r.swStatus, p.swStatus);
      r := r.(states := states, roles := roles, subRoles := subRoles, swStatus := swStatus);
      if p.enabled == Some(true) && r.enabled == Some(false) {
        r := r.(enabled := p.enabled);
      }
    case RemoveOp =>
      var states := CutAll(r.states, p.states);
      var roles := CutAll(r.roles, p.roles);
      var subRoles := CutAll(r.subRoles, p.subRoles);
      var swStatus := CutAll(r.swStatus, p.swStatus);
      r := r.(states := states, roles := roles, subRoles := subRoles, swStatus := swStatus);
      if p.enabled == Some(true) && r.enabled == Some(true) {
        r := r.(enabled := Some(false));
      }
    case ReplaceOp =>
      if |p.states| > 0 {
        r := r.(states := p.states);
      }
      if |p.roles| > 0 {
        r := r.(roles := p.roles);
      }
      if |p.subRoles| > 0 {
        r := r.(subRoles := p.subRoles);
      }
      if |p.swStatus| > 0 {
        r := r.(swStatus := p.swStatus);
      }
      if p.enabled.Some? {
        r := r.(enabled := p.enabled);
      }
  }

  // ---- Cached and stored, operation by operation ----

  predicate Listed(list: seq<Sub>, id: int) { exists i :: 0 <= i < |list| && list[i].id == id }

  /** The list holds each stored subscription once, as it is stored. */
  ghost predicate Matches(list: seq<Sub>, rows: Rows) {
    && (forall i, j :: 0 <= i < j < |list| ==> list[i].id != list[j].id)
    && (forall i :: 0 <= i < |list| ==> list[i].id in rows && rows[list[i].id] == list[i])
    && (forall id :: id in rows ==> Listed(list, id))
  }

  /** What the database goes along with: it gives a new subscription a new ID, changes or deletes only
      what is there, and reads out what it holds. */
  ghost predicate Accepts(rows: Rows, op: Op) {
    match op
    case Refresh(list) => Matches(list, rows)
    case Post(sub) => sub.id !in rows
    case Put(sub) => sub.id in rows
    case DoPatch(id, _) => id in rows
    case Delete(id) => id in rows
    case DeleteAll => true
  }

  function StoredAfter(rows: Rows, op: Op): Rows {
    match op
    case Refresh(_) => rows
    case Post(sub) => rows[sub.id := sub]
    case Put(sub) => rows[sub.id := sub]
    case DoPatch(id, p) => if id in rows then rows[id := PatchedRow(rows[id], p)] else rows
    case Delete(id) => rows - {id}
    case DeleteAll => map[]
  }

  /** No new value is given twice. */
  predicate NoNewTwice(have: seq<string>, patch: seq<string>) {
    forall i, j :: 0 <= i < j < |patch| && patch[i] == patch[j] ==> patch[i] in have
  }

  /** When the cached list goes along with what is stored: a Put that changes States only, an add patch
      without a new value given twice, a remove patch that runs through or panics with nothing left to
      do, and any other operation. */
  predicate Lossless(list: seq<Sub>, op: Op) {
    match op
    case Put(sub) =>
      var i := FindSub(list, sub.id);
      i < |list| ==> list[i].(states := sub.states) == sub
    case DoPatch(id, p) =>
      var i := FindSub(list, id);
      i < |list| ==> LosslessPatch(list[i], p)
    case _ => true
  }

  predicate LosslessPatch(e: Sub, p: Patch) {
    match p.op
    case AddOp =>
      NoNewTwice(e.roles, p.roles) && NoNewTwice(e.subRoles, p.subRoles)
      && NoNewTwice(e.swStatus, p.swStatus) && NoNewTwice(e.states, p.states)
    case RemoveOp => PatchRuns(e, p) || CutEntry(e, p) == RemoveEntry(e, p)
    case ReplaceOp => true
  }

  lemma {:induction false} GrowHas(have: seq<string>, patch: seq<string>, v: string)
    ensures v in GrowEach(have, patch) <==> v in have || v in patch
  {
    if patch != [] {
      var n := |patch| - 1;
      GrowHas(have, patch[..n], v);
      GrowHas(have, patch[..n], patch[n]);
      assert patch == patch[..n] + [patch[n]];
    }
  }

  /** A stored list after an add patch: what was there, and behind it each given value it lacked, once. */
  ghost predicate ListGrown(have: seq<string>, given: seq<string>, after: seq<string>) {
    have <= after && forall v :: Times(after, v) == if v in have then Times(have, v) else if v in given then 1 else 0
  }

  lemma {:induction false} GrowTimes(have: seq<string>, patch: seq<string>, v: string)
    ensures have <= GrowEach(have, patch)
    ensures Times(GrowEach(have, patch), v) == if v in have then Times(have, v) else if v in patch then 1 else 0
  {
    if patch != [] {
      var n := |patch| - 1;
      GrowTimes(have, patch[..n], v);
      GrowHas(have, patch[..n], patch[n]);
      TimesSnoc(GrowEach(have, patch[..n]), patch[n], v);
      assert patch == patch[..n] + [patch[n]];
    }
  }

  lemma GrownMeans(have: seq<string>, patch: seq<string>)
    ensures ListGrown(have, patch, GrowEach(have, patch))
  {
    GrowTimes(have, patch, "");
    forall v
      ensures Times(GrowEach(have, patch), v) == if v in have then Times(have, v) else if v in patch then 1 else 0
    {
      GrowTimes(have, patch, v);
    }
  }

  /** The patched row, field by field: as the cached entry, but an added value is there only once. */
  lemma RowMeans(row: Sub, p: Patch)
    ensures var r := PatchedRow(row, p);
      if p.op.AddOp? then
        && SameName(row, r) && r.enabled == FlagAfter(row, p)
        && ListGrown(row.roles, p.roles, r.roles) && ListGrown(row.subRoles, p.subRoles, r.subRoles)
        && ListGrown(row.swStatus, p.swStatus, r.swStatus) && ListGrown(row.states, p.states, r.states)
      else Patched(row, p, r)
  {
    match p.op
    case AddOp =>
      GrownMeans(row.roles, p.roles);
      GrownMeans(row.subRoles, p.subRoles);
      GrownMeans(row.swStatus, p.swStatus);
      GrownMeans(row.states, p.states);
    case RemoveOp => RemoveMeans(row, p);
    case ReplaceOp => ReplaceMeans(row, p);
  }

  lemma NoNewTwiceSnoc(have: seq<string>, patch: seq<string>)
    requires patch != []
    ensures var n := |patch| - 1;
      NoNewTwice(have, patch) <==> NoNewTwice(have, patch[..n]) && (patch[n] in patch[..n] ==> patch[n] in have)
  {
    var n := |patch| - 1;
    if patch[n] in patch[..n] {
      var i :| 0 <= i < n && patch[..n][i] == patch[n];
      assert patch[i] == patch[n];
    }
  }

  /** Growing value by value never gives more than the old list and the values new to it, and gives less
      exactly if a new value is given twice. */
  lemma {:induction false} GrowMeans(have: seq<string>, patch: seq<string>)
    ensures |GrowEach(have, patch)| <= |have + NewValues(have, patch)|
    ensures |GrowEach(have, patch)| == |have + NewValues(have, patch)| <==> NoNewTwice(have, patch)
    ensures NoNewTwice(have, patch) ==> GrowEach(have, patch) == have + NewValues(have, patch)
  {
    if patch != [] {
      var n := |patch| - 1;
      GrowMeans(have, patch[..n]);
      GrowHas(have, patch[..n], patch[n]);
      NoNewTwiceSnoc(have, patch);
      if patch[n] !in have {
        assert have + NewValues(have, patch) == (have + NewValues(have, patch[..n])) + [patch[n]];
      } else {
        assert NewValues(have, patch) == NewValues(have, patch[..n]);
      }
    }
  }

  lemma AddMatches(e: Sub, p: Patch)
    requires p.op.AddOp?
    ensures AddEntry(e, p) == PatchedRow(e, p) <==> LosslessPatch(e, p)
  {
    GrowMeans(e.roles, p.roles);
    GrowMeans(e.subRoles, p.subRoles);
    GrowMeans(e.swStatus, p.swStatus);
    GrowMeans(e.states, p.states);
  }

  /** One entry and its row change: the list still matches exactly if they change to the same. */
  lemma MatchesUpdate(list: seq<Sub>, rows: Rows, i: nat, e: Sub, r: Sub)
    requires Matches(list, rows) && i < |list| && e.id == r.id == list[i].id
    ensures Matches(list[i := e], rows[r.id := r]) <==> e == r
  {
    var list', rows' := list[i := e], rows[r.id := r];
    forall id | id in rows' ensures Listed(list', id) {
      var j :| 0 <= j < |list| && list[j].id == id;
      assert list'[j].id == id;
    }
    assert list'[i] == e && rows'[e.id] == r;
  }

  lemma PostMatches(list: seq<Sub>, rows: Rows, sub: Sub)
    requires Matches(list, rows) && sub.id !in rows
    ensures !Listed(list, sub.id) && Matches(list + [sub], rows[sub.id := sub])
  {
    var list' := list + [sub];
    assert list'[|list|] == sub;
    forall id | id in rows ensures Listed(list', id) {
      var j :| 0 <= j < |list| && list[j].id == id;
      assert list'[j].id == id;
    }
  }

  lemma DeleteMatches(list: seq<Sub>, rows: Rows, i: nat)
    requires Matches(list, rows) && i < |list|
    ensures Matches(Cut(list, i), rows - {list[i].id})
  {
    var list' := Cut(list, i);
    forall id | id in rows && id != list[i].id ensures Listed(list', id) {
      var j :| 0 <= j < |list| && list[j].id == id;
      assert list'[if j < i then j else j - 1].id == id;
    }
  }

  lemma FindListed(list: seq<Sub>, id: int)
    ensures FindSub(list, id) < |list| <==> Listed(list, id)
  {
  }

  lemma PatchMatches(s: Scn, rows: Rows, id: int, p: Patch)
    requires Ok(View(s)) && Matches(s.list, rows) && id in rows
    ensures var i := FindSub(s.list, id);
      i < |s.list|
      && (Matches(ApplyPatch(s, id, p).list, rows[id := PatchedRow(rows[id], p)]) <==> LosslessPatch(s.list[i], p))
  {
    FindListed(s.list, id);
    var i := FindSub(s.list, id);
    var e, r := s.list[i], PatchedRow(rows[id], p);
    match p.op
    case AddOp =>
      AddMatches(e, p);
      MatchesUpdate(s.list, rows, i, AddEntry(e, p), r);
    case RemoveOp =>
      MatchesUpdate(s.list, rows, i, if PatchRuns(e, p) then RemoveEntry(e, p) else CutEntry(e, p), r);
    case ReplaceOp =>
      MatchesUpdate(s.list, rows, i, ReplaceEntry(e, p), r);
  }

  /** An accepted operation keeps the cached list equal to what is stored exactly when it is lossless. */
  lemma StepMatches(s: Scn, rows: Rows, op: Op)
    requires Ok(View(s)) && !s.stuck && Matches(s.list, rows) && Accepts(rows, op)
    ensures Matches(Apply(s, op).list, StoredAfter(rows, op)) <==> Lossless(s.list, op)
  {
    match op
    case Refresh(list) => assert ApplyRefresh(list).list == list;
    case Post(sub) =>
      PostMatches(s.list, rows, sub);
      FindListed(s.list, sub.id);
      assert ApplyPost(s, sub).list == s.list + [sub];
    case Put(sub) =>
      FindListed(s.list, sub.id);
      var i := FindSub(s.list, sub.id);
      MatchesUpdate(s.list, rows, i, PutEntry(s.list[i], sub), sub);
      assert ApplyPut(s, sub).list == s.list[i := PutEntry(s.list[i], sub)];
    case DoPatch(id, p) => PatchMatches(s, rows, id, p);
    case Delete(id) =>
      FindListed(s.list, id);
      DeleteMatches(s.list, rows, FindSub(s.list, id));
      assert ApplyDelete(s, id).list == Cut(s.list, FindSub(s.list, id));
    case DeleteAll => assert NO_SUBS.list == [];
  }

  // ---- Whole runs ----

  /** The server's state and the table. */
  datatype Both = Both(scn: Scn, rows: Rows)

  ghost predicate Takes(b: Both, op: Op) { !b.scn.stuck && Accepts(b.rows, op) }

  /** With the lock held for ever, or refused by the database, an operation changes nothing. */
  ghost function Step(b: Both, op: Op): (r: Both)
    requires Ok(View(b.scn))
    ensures Ok(View(r.scn))
  {
    if !Takes(b, op) then b
    else
      StepKeeps(b.scn, op);
      Both(Apply(b.scn, op), StoredAfter(b.rows, op))
  }

  ghost function RunBoth(ops: seq<Op>): (b: Both)
    ensures Ok(View(b.scn))
  {
    if ops == [] then Both(NO_SUBS, map[]) else Step(RunBoth(ops[..|ops| - 1]), ops[|ops| - 1])
  }

  lemma BothStep(b: Both, op: Op)
    requires Ok(View(b.scn)) && Matches(b.scn.list, b.rows)
    ensures Matches(Step(b, op).scn.list, Step(b, op).rows) <==> (Takes(b, op) ==> Lossless(b.scn.list, op))
  {
    if Takes(b, op) {
      StepMatches(b.scn, b.rows, op);
    }
  }

  /** Over every run whose operations are lossless when the database takes them, the cached list is
      what is stored. */
  lemma {:induction false} RunsMatch(ops: seq<Op>)
    requires forall i :: 0 <= i < |ops| && Takes(RunBoth(ops[..i]), ops[i]) ==>
        Lossless(RunBoth(ops[..i]).scn.list, ops[i])
    ensures Matches(RunBoth(ops).scn.list, RunBoth(ops).rows)
  {
    if ops != [] {
      var before := ops[..|ops| - 1];
      forall i | 0 <= i < |before| && Takes(RunBoth(before[..i]), before[i])
        ensures Lossless(RunBoth(before[..i]).scn.list, before[i])
      {
        assert before[..i] == ops[..i];
      }
      RunsMatch(before);
      BothStep(RunBoth(before), ops[|ops| - 1]);
    }
  }

  /** Until a remove patch panics, the next refresh makes the list what is stored again, whatever it was. */
  lemma RefreshMatches(b: Both, list: seq<Sub>)
    requires Ok(View(b.scn)) && Takes(b, Refresh(list))
    ensures Matches(Step(b, Refresh(list)).scn.list, Step(b, Refresh(list)).rows)
  {
    assert ApplyRefresh(list).list == list;
  }

  /** When a remove patch panics: the list is what is stored exactly if the values not dealt with, in the
      lists reached, are no longer there, and there is nothing to do in the rest. */
  lemma CutIsWhole(have: seq<string>, patch: seq<string>)
    ensures CutList(have, patch) == RemoveEach(have, patch) <==>
      forall j :: SafeLen(have, patch) <= j < |patch| ==> patch[j] !in CutList(have, patch)
  {
    assert patch[..|patch|] == patch;
    RestTakesNothing(have, patch, SafeLen(have, patch), |patch|);
  }

  /** The values k to n leave the list as it was after the first k. */
  ghost predicate RestMisses(have: seq<string>, patch: seq<string>, k: nat, n: nat)
    requires k <= n <= |patch|
  {
    forall j :: k <= j < n ==> patch[j] !in RemoveEach(have, patch[..k])
  }

  lemma RestMissesStep(have: seq<string>, patch: seq<string>, k: nat, m: nat)
    requires k <= m < |patch|
    ensures RestMisses(have, patch, k, m + 1) <==>
        RestMisses(have, patch, k, m) && patch[m] !in RemoveEach(have, patch[..k])
  {
  }

  /** One more value, for lists of which nothing else is known. */
  lemma OneMore(start: seq<string>, before: seq<string>, after: seq<string>, v: string, missed: bool)
    requires |before| <= |start| && (before == start <==> missed)
    requires after == if v in before then RemoveFirst(before, v) else before
    ensures |after| <= |start| && (after == start <==> missed && v !in start)
  {
    if v in before {
      RemoveFirstConserves(before, v);
    }
  }

  lemma {:induction false} RestTakesNothing(have: seq<string>, patch: seq<string>, k: nat, n: nat)
    requires k <= n <= |patch|
    ensures |RemoveEach(have, patch[..n])| <= |RemoveEach(have, patch[..k])|
    ensures RemoveEach(have, patch[..n]) == RemoveEach(have, patch[..k]) <==> RestMisses(have, patch, k, n)
  {
    if k < n {
      var m := n - 1;
      RestTakesNothing(have, patch, k, m);
      Turn(have, patch, m);
      RestMissesStep(have, patch, k, m);
      OneMore(RemoveEach(have, patch[..k]), RemoveEach(have, patch[..m]), RemoveEach(have, patch[..m + 1]), patch[m],
              RestMisses(have, patch, k, m));
    }
  }
}
