/** Polling jobs on several instances: rows in the database, at most one per component, the tables of
    running jobs on each instance, and the take-over of expired rows by deleting and remaking them. */
module Jobs {
  import opened Options
  import opened Collect

  datatype Row = Row(comp: string, complete: bool)

  /** The job table joined with its data table, whose primary key is the component. */
  datatype Db = Db(rows: map<nat, Row>, next: nat)

  datatype Scanned = Scanned(id: nat, row: Row)

  /** The jobs running here by id, the polls by component, the scan being worked off, and the
      deleted job still to be remade. */
  datatype Inst = Inst(jobs: map<nat, string>, polls: map<string, nat>, scan: seq<Scanned>, pending: Option<Scanned>)

  datatype Remade = Remade(was: nat, now: nat)

  /** took: the take-over deletes that reported true; made: which row replaced which; sent: the jobs
      that were sent a cancel signal. */
  datatype State = State(db: Db, insts: seq<Inst>, took: seq<nat>, made: seq<Remade>, sent: seq<nat>)

  const IDLE := Inst(map[], map[], [], None)

  function Init(n: nat): State { State(Db(map[], 0), seq(n, _ => IDLE), [], [], []) }

  // ---- Starting and cancelling on one instance ----

  predicate HasRow(db: Db, comp: string) { exists id :: id in db.rows && db.rows[id].comp == comp }

  /** InsertJob goes through for a named component without a row. */
  predicate CanInsert(db: Db, comp: string, ok: bool) { ok && comp != "" && !HasRow(db, comp) }

  function Inserted(db: Db, comp: string): Db { Db(db.rows[db.next := Row(comp, false)], db.next + 1) }

  function Started(x: Inst, id: nat, comp: string): Inst {
    x.(jobs := x.jobs[id := comp], polls := x.polls[comp := id])
  }

  function Deleted(db: Db, id: nat, ok: bool): Db { if ok then db.(rows := db.rows - {id}) else db }

  function Cancelled(x: Inst, comp: string): Inst
    requires comp in x.polls
  {
    x.(jobs := x.jobs - {x.polls[comp]}, polls := x.polls - {comp})
  }

  class Table {
    var db: Db

    constructor ()
      ensures db == Db(map[], 0)
    {
      db := Db(map[], 0);
    }

    method InsertJob(comp: string, ok: bool) returns (id: nat, err: bool)
      modifies this
      ensures err <==> !CanInsert(old(db), comp, ok)
      ensures err <==> !ok || comp == "" || exists k :: k in old(db).rows && old(db).rows[k].comp == comp
      ensures db == if err then old(db) else Inserted(old(db), comp)
      ensures !err ==> db.rows == old(db).rows[id := Row(comp, false)] && db.next == id + 1 && id == old(db).next
    {
      if !ok || comp == "" || HasRow(db, comp) {
        return 0, true;
      }
      id, err := db.next, false;
      db := Inserted(db, comp);
    }

    method DeleteJob(id: nat, ok: bool) returns (didDelete: bool)
      modifies this
      ensures didDelete <==> ok && id in old(db).rows
      ensures db == Deleted(old(db), id, ok)
      ensures db.next == old(db).next && db.rows == if didDelete then old(db).rows - {id} else old(db).rows
    {
      didDelete := ok && id in db.rows;
      if ok {
        db := Deleted(db, id, true);
      }
    }
  }

  /** The tables of one instance; `signals` is the number of cancel signals sent to each job. */
  class Runner {
    const table: Table
    var jobList: map<nat, string>
    var srfpJobList: map<string, nat>
    var signals: map<nat, nat>

    constructor (t: Table)
      ensures table == t && View() == IDLE && signals == map[]
    {
      table := t;
      jobList, srfpJobList, signals := map[], map[], map[];
    }

    function View(): Inst reads this { Inst(jobList, srfpJobList, [], None) }

    method DoStateRFPoll(comp: string, ok: bool) returns (err: bool)
      modifies `jobList, `srfpJobList, table
      ensures err <==> !CanInsert(old(table.db), comp, ok)
      ensures table.db == if err then old(table.db) else Inserted(old(table.db), comp)
      ensures View() == if err then old(View()) else Started(old(View()), old(table.db).next, comp)
      ensures !err ==> var id := old(table.db).next;
        jobList == old(jobList)[id := comp] && srfpJobList == old(srfpJobList)[comp := id]
        && table.db.rows == old(table.db).rows[id := Row(comp, false)]
    {
      var id;
      id, err := table.InsertJob(comp, ok);
      if err {
        return;
      }
      jobList := jobList[id := comp];
      srfpJobList := srfpJobList[comp := id];
    }

    /** A job is signalled when and only when it leaves the tables. */
    method CancelStateRFPoll(comp: string, ok: bool)
      modifies this, table
      ensures comp !in old(srfpJobList) ==>
          View() == old(View()) && table.db == old(table.db) && signals == old(signals)
      ensures comp in old(srfpJobList) ==>
        var id := old(srfpJobList)[comp];
        && View() == Cancelled(old(View()), comp)
        && table.db == Deleted(old(table.db), id, ok)
        && jobList == old(jobList) - {id} && srfpJobList == old(srfpJobList) - {comp}
        && table.db.rows == (if ok then old(table.db).rows - {id} else old(table.db).rows)
        && signals == old(signals)[id := (if id in old(signals) then old(signals)[id] else 0) + 1]
    {
      if comp in srfpJobList {
        var id := srfpJobList[comp];
        signals := signals[id := (if id in signals then signals[id] else 0) + 1];
        var didDelete := table.DeleteJob(id, ok);
        srfpJobList := srfpJobList - {comp};
        jobList := jobList - {id};
      }
    }

    /** JobSync for one job of its scan: only the instance whose delete reported true remakes the job. */
    method SyncJob(j: Scanned, deleteOk: bool, insertOk: bool) returns (isNew: bool)
      modifies `jobList, `srfpJobList, table
      ensures isNew <==> deleteOk && j.id in old(table.db).rows && !j.row.complete
      ensures var left := Deleted(old(table.db), j.id, deleteOk);
        if isNew && CanInsert(left, j.row.comp, insertOk) then
          table.db == Inserted(left, j.row.comp) && View() == Started(old(View()), left.next, j.row.comp)
        else table.db == left && View() == old(View())
      // a job remade is a new row and a poll started here; otherwise at most the old row has gone
      ensures if isNew && insertOk && j.row.comp != ""
          && (forall k :: k in old(table.db).rows && k != j.id ==> old(table.db).rows[k].comp != j.row.comp) then
        var id := old(table.db).next;
        && jobList == old(jobList)[id := j.row.comp] && srfpJobList == old(srfpJobList)[j.row.comp := id]
        && table.db.rows == (old(table.db).rows - {j.id})[id := Row(j.row.comp, false)]
      else
        && jobList == old(jobList) && srfpJobList == old(srfpJobList)
        && table.db.rows == if deleteOk then old(table.db).rows - {j.id} else old(table.db).rows
    {
      var didDelete := table.DeleteJob(j.id, deleteOk);
      if j.row.complete || !didDelete {
        return false;
      }
      ghost var left := table.db.rows;
      assert forall k :: k in old(table.db).rows && k != j.id ==> k in left && left[k] == old(table.db).rows[k];
      var err := DoStateRFPoll(j.row.comp, insertOk);
      if err && insertOk && j.row.comp != "" {
        ghost var k :| k in left && left[k].comp == j.row.comp;
        assert k in old(table.db).rows && k != j.id;
      }
      return true;
    }
  }

  // ---- All instances ----

  datatype Step =
    | Start(inst: nat, comp: string, ok: bool)
    | Cancel(inst: nat, comp: string, ok: bool)
    | Finish(id: nat)
    | Scan(inst: nat, found: seq<nat>)
    | Take(inst: nat, ok: bool)
    | Remake(inst: nat, ok: bool)
    | Crash(inst: nat)

  /** The scan returns some of the rows as they are now; it is worked off later, when they may be gone. */
  function Read(db: Db, found: seq<nat>): seq<Scanned>
    requires ToSet(found) <= db.rows.Keys
  {
    seq(|found|, i requires 0 <= i < |found| => (assert found[i] in ToSet(found); Scanned(found[i], db.rows[found[i]])))
  }

  /** The next job of the scan is deleted, and remade unless it is complete or was not there. */
  function TakeNext(s: State, i: nat, ok: bool): State
    requires i < |s.insts| && s.insts[i].scan != []
  {
    var j, x := s.insts[i].scan[0], s.insts[i].(scan := s.insts[i].scan[1..]);
    if ok && j.id in s.db.rows then
      s.(db := Deleted(s.db, j.id, true), took := s.took + [j.id],
         insts := s.insts[i := if j.row.complete then x else x.(pending := Some(j))])
    else s.(insts := s.insts[i := x])
  }

  function RemakePending(s: State, i: nat, ok: bool): State
    requires i < |s.insts| && s.insts[i].pending.Some?
  {
    var j, x := s.insts[i].pending.value, s.insts[i].(pending := None);
    if CanInsert(s.db, j.row.comp, ok) then
      s.(db := Inserted(s.db, j.row.comp), insts := s.insts[i := Started(x, s.db.next, j.row.comp)],
         made := s.made + [Remade(j.id, s.db.next)])
    else s.(insts := s.insts[i := x])
  }

  /** One step; a step that is not enabled changes nothing. */
  function Next(s: State, a: Step): State {
    match a
    case Start(i, comp, ok) =>
      if i < |s.insts| && CanInsert(s.db, comp, ok) then
        s.(db := Inserted(s.db, comp), insts := s.insts[i := Started(s.insts[i], s.db.next, comp)])
      else s
    case Cancel(i, comp, ok) =>
      if i < |s.insts| && comp in s.insts[i].polls then
        var id := s.insts[i].polls[comp];
        s.(db := Deleted(s.db, id, ok), insts := s.insts[i := Cancelled(s.insts[i], comp)], sent := s.sent + [id])
      else s
    case Finish(id) =>
      if id in s.db.rows then s.(db := s.db.(rows := s.db.rows[id := s.db.rows[id].(complete := true)])) else s
    case Scan(i, found) =>
      if i < |s.insts| && s.insts[i].scan == [] && s.insts[i].pending.None? && ToSet(found) <= s.db.rows.Keys then
        s.(insts := s.insts[i := s.insts[i].(scan := Read(s.db, found))])
      else s
    case Take(i, ok) =>
      if i < |s.insts| && s.insts[i].scan != [] && s.insts[i].pending.None? then TakeNext(s, i, ok) else s
    case Remake(i, ok) => if i < |s.insts| && s.insts[i].pending.Some? then RemakePending(s, i, ok) else s
    case Crash(i) => if i < |s.insts| then s.(insts := s.insts[i := IDLE]) else s
  }

  function Run(s: State, steps: seq<Step>): State {
    if steps == [] then s else Next(Run(s, steps[..|steps| - 1]), steps[|steps| - 1])
  }

  /** A row that was found expired and is not complete goes, and a new one for its component comes; the
      instance that took it polls the component under the new id. */
  lemma TakeOverRemakes(s: State, i: nat)
    requires i < |s.insts| && s.insts[i].scan != [] && s.insts[i].pending.None?
    requires var j := s.insts[i].scan[0];
      j.id in s.db.rows && j.id < s.db.next && j.row == s.db.rows[j.id] && !j.row.complete && j.row.comp != ""
      && forall k :: k in s.db.rows && k != j.id ==> s.db.rows[k].comp != j.row.comp
    ensures var j, t := s.insts[i].scan[0], Next(Next(s, Take(i, true)), Remake(i, true));
      && t.db.rows == (s.db.rows - {j.id})[s.db.next := Row(j.row.comp, false)] && t.db.next == s.db.next + 1
      && t.took == s.took + [j.id] && t.made == s.made + [Remade(j.id, s.db.next)] && t.sent == s.sent
      && |t.insts| == |s.insts| && (forall k :: 0 <= k < |s.insts| && k != i ==> t.insts[k] == s.insts[k])
      && t.insts[i].jobs == s.insts[i].jobs[s.db.next := j.row.comp]
      && t.insts[i].polls == s.insts[i].polls[j.row.comp := s.db.next]
      && t.insts[i].scan == s.insts[i].scan[1..] && t.insts[i].pending.None?
  {
    var j, r := s.insts[i].scan[0], Next(s, Take(i, true));
    assert r.insts[i].pending == Some(j) && r.db.rows == s.db.rows - {j.id};
    assert CanInsert(r.db, j.row.comp, true);
  }

  /** A row that is complete, or gone already, is not remade. */
  lemma NothingToRemake(s: State, i: nat, ok: bool)
    requires i < |s.insts| && s.insts[i].scan != [] && s.insts[i].pending.None?
    requires !ok || s.insts[i].scan[0].id !in s.db.rows || s.insts[i].scan[0].row.complete
    ensures var j, t := s.insts[i].scan[0], Next(s, Take(i, ok));
      && t.insts == s.insts[i := s.insts[i].(scan := s.insts[i].scan[1..])] && t.made == s.made && t.sent == s.sent
      && t.db.rows == (if ok then s.db.rows - {j.id} else s.db.rows) && t.db.next == s.db.next
  {
  }

  /** A finished job that a scan finds is cleared away. */
  lemma FinishedIsCleared(s: State, i: nat, id: nat)
    requires i < |s.insts| && s.insts[i].scan == [] && s.insts[i].pending.None? && id in s.db.rows
    ensures var r := Next(Next(s, Finish(id)), Scan(i, [id]));
      && r.insts == s.insts[i := s.insts[i].(scan := [Scanned(id, Row(s.db.rows[id].comp, true))])]
      && Next(r, Take(i, true)) == s.(db := Db(s.db.rows - {id}, s.db.next), took := s.took + [id])
  {
    assert ToSet([id]) == {id};
    var r := Next(Next(s, Finish(id)), Scan(i, [id]));
    assert r.insts[i].scan == [Scanned(id, Row(s.db.rows[id].comp, true))];
    var t := Next(r, Take(i, true));
    assert t.db.rows == s.db.rows - {id};
    assert t.insts[i] == s.insts[i];
    assert t.insts == s.insts;
  }

  /** Starting a poll and cancelling it leaves the instance as it was, and the job signalled. */
  lemma CancelUndoesStart(s: State, i: nat, comp: string)
    requires i < |s.insts| && comp != "" && comp !in s.insts[i].polls && s.db.next !in s.insts[i].jobs
    requires RowsOk(s.db) && forall k :: k in s.db.rows ==> s.db.rows[k].comp != comp
    ensures var t := Next(s, Start(i, comp, true));
      t.db.rows == s.db.rows[s.db.next := Row(comp, false)] && t.insts[i].polls == s.insts[i].polls[comp := s.db.next]
      && t.insts[i].jobs == s.insts[i].jobs[s.db.next := comp]
    ensures var t := Next(Next(s, Start(i, comp, true)), Cancel(i, comp, true));
      t.db.rows == s.db.rows && t.insts == s.insts && t.sent == s.sent + [s.db.next]
  {
    var t := Next(s, Start(i, comp, true));
    assert CanInsert(s.db, comp, true);
    assert t.insts[i] == Started(s.insts[i], s.db.next, comp);
    var r := Next(t, Cancel(i, comp, true));
    assert r.db.rows == s.db.rows;
    assert r.insts[i].jobs == s.insts[i].jobs && r.insts[i].polls == s.insts[i].polls;
    assert r.insts == s.insts;
  }

  // ---- Invariants, one concern each ----

  ghost predicate RowsOk(db: Db) {
    && (forall id :: id in db.rows ==> id < db.next)
    && (forall a, b :: a in db.rows && b in db.rows && db.rows[a].comp == db.rows[b].comp ==> a == b)
  }

  /** A job that was deleted for good. */
  predicate Spent(db: Db, id: nat) { id < db.next && id !in db.rows }

  ghost predicate TookOk(s: State) { Distinct(s.took) && forall id :: id in s.took ==> Spent(s.db, id) }

  /** Jobs to be remade, and jobs remade, were taken, and are all different. */
  ghost predicate MadeOk(s: State) {
    && (forall i :: 0 <= i < |s.insts| && s.insts[i].pending.Some? ==> s.insts[i].pending.value.id in s.took)
    && (forall i :: 0 <= i < |s.made| ==> s.made[i].was in s.took)
    && (forall i, j :: 0 <= i < j < |s.made| ==> s.made[i].was != s.made[j].was)
    && (forall i, j :: 0 <= i < |s.insts| && s.insts[i].pending.Some? && 0 <= j < |s.made| ==>
      s.insts[i].pending.value.id != s.made[j].was)
    && (forall i, j :: 0 <= i < j < |s.insts| && s.insts[i].pending.Some? && s.insts[j].pending.Some? ==>
          s.insts[i].pending.value.id != s.insts[j].pending.value.id)
  }

  /** Every poll is in the job list under its id. */
  predicate TablesOk(x: Inst) { forall c :: c in x.polls ==> x.polls[c] in x.jobs && x.jobs[x.polls[c]] == c }

  ghost predicate AllTablesOk(insts: seq<Inst>) { forall i :: 0 <= i < |insts| ==> TablesOk(insts[i]) }

  /** Running jobs have ids given out before, and were not signalled. */
  ghost predicate Unsent(insts: seq<Inst>, next: nat, sent: seq<nat>) {
    && (forall i, id :: 0 <= i < |insts| && id in insts[i].jobs ==> id < next)
    && (forall i, id :: 0 <= i < |insts| && id in insts[i].jobs ==> id !in sent)
  }

  ghost predicate Apart(insts: seq<Inst>) {
    forall i, j, id :: 0 <= i < |insts| && 0 <= j < |insts| && id in insts[i].jobs && id in insts[j].jobs ==> i == j
  }

  ghost predicate SentOk(next: nat, sent: seq<nat>) { Distinct(sent) && forall id :: id in sent ==> id < next }

  ghost predicate JobsOk(s: State) {
    AllTablesOk(s.insts) && Unsent(s.insts, s.db.next, s.sent) && Apart(s.insts) && SentOk(s.db.next, s.sent)
  }

  ghost predicate Inv(s: State) { RowsOk(s.db) && TookOk(s) && MadeOk(s) && JobsOk(s) }

  /** The job table only loses rows or gets the next id. */
  lemma DbSteps(s: State, a: Step)
    requires RowsOk(s.db)
    ensures var t := Next(s, a);
      && RowsOk(t.db) && s.db.next <= t.db.next
      && (forall id :: Spent(s.db, id) ==> Spent(t.db, id))
      && (forall id :: id in t.db.rows ==> id in s.db.rows || id == s.db.next)
  {
    var t := Next(s, a);
    if t.db.next == s.db.next + 1 {
      var comp := t.db.rows[s.db.next].comp;
      assert t.db == Inserted(s.db, comp) && !HasRow(s.db, comp);
    }
  }

  lemma TookStep(s: State, a: Step)
    requires RowsOk(s.db) && TookOk(s)
    ensures TookOk(Next(s, a))
  {
    DbSteps(s, a);
    var t := Next(s, a);
    if t.took != s.took {
      var id := s.insts[a.inst].scan[0].id;
      assert t.took == s.took + [id] && id in s.db.rows && Spent(t.db, id);
      assert id !in s.took;
    }
  }

  lemma MadeStep(s: State, a: Step)
    requires TookOk(s) && MadeOk(s)
    ensures MadeOk(Next(s, a))
  {
    match a
    case Take(i, ok) =>
      if i < |s.insts| && s.insts[i].scan != [] && s.insts[i].pending.None? {
        TakeStep(s, i, ok);
      }
    case Remake(i, ok) =>
      if i < |s.insts| && s.insts[i].pending.Some? {
        RemakeStep(s, i, ok);
      }
    case _ =>
      SamePending(s, Next(s, a));
  }

  lemma SamePending(s: State, t: State)
    requires MadeOk(s) && t.took == s.took && t.made == s.made && |t.insts| == |s.insts|
    requires forall k :: 0 <= k < |s.insts| ==> t.insts[k].pending.None? || t.insts[k].pending == s.insts[k].pending
    ensures MadeOk(t)
  {
  }

  lemma TakeStep(s: State, i: nat, ok: bool)
    requires TookOk(s) && MadeOk(s) && i < |s.insts| && s.insts[i].scan != [] && s.insts[i].pending.None?
    ensures MadeOk(TakeNext(s, i, ok))
  {
    var id := s.insts[i].scan[0].id;
    assert id in s.db.rows ==> id !in s.took;
  }

  lemma RemakeStep(s: State, i: nat, ok: bool)
    requires MadeOk(s) && i < |s.insts| && s.insts[i].pending.Some?
    ensures MadeOk(RemakePending(s, i, ok))
  {
    var t := RemakePending(s, i, ok);
    assert t.insts[i].pending.None?;
    assert forall k :: 0 <= k < |s.insts| && k != i ==> t.insts[k] == s.insts[k];
    forall k, j | 0 <= k < |t.insts| && t.insts[k].pending.Some? && 0 <= j < |t.made|
      ensures t.insts[k].pending.value.id != t.made[j].was {
      assert k < i || i < k;
    }
  }

  lemma StartStep(s: State, t: State, i: nat, comp: string)
    requires JobsOk(s) && i < |s.insts| == |t.insts| && t.db.next == s.db.next + 1 && t.sent == s.sent
    requires forall k :: 0 <= k < |s.insts| && k != i ==> t.insts[k] == s.insts[k]
    requires t.insts[i].jobs == s.insts[i].jobs[s.db.next := comp] &&
        t.insts[i].polls == s.insts[i].polls[comp := s.db.next]
    ensures JobsOk(t)
  {
    forall k | 0 <= k < |t.insts| ensures TablesOk(t.insts[k]) {
      assert TablesOk(s.insts[k]);
    }
    forall k, j, id | 0 <= k < |t.insts| && 0 <= j < |t.insts| && id in t.insts[k].jobs && id in t.insts[j].jobs
      ensures k == j {
      assert id != s.db.next ==> id in s.insts[k].jobs && id in s.insts[j].jobs;
    }
  }

  lemma CancelStep(s: State, i: nat, comp: string, ok: bool)
    requires JobsOk(s)
    ensures JobsOk(Next(s, Cancel(i, comp, ok)))
  {
    if i < |s.insts| && comp in s.insts[i].polls {
      var t, id := Next(s, Cancel(i, comp, ok)), s.insts[i].polls[comp];
      assert TablesOk(s.insts[i]);
      FewerJobs(s.insts, t.insts, s.db.next, s.sent);
      assert id in s.insts[i].jobs && id !in s.sent;
      forall k, j | 0 <= k < |s.insts| && j in t.insts[k].jobs ensures j < t.db.next && j !in t.sent {
        assert j in s.insts[k].jobs;
      }
    }
  }

  lemma FewerJobs(insts: seq<Inst>, later: seq<Inst>, next: nat, sent: seq<nat>)
    requires AllTablesOk(insts) && Unsent(insts, next, sent) && Apart(insts) && |later| == |insts|
    requires forall i :: 0 <= i < |insts| ==> later[i].jobs.Keys <= insts[i].jobs.Keys && TablesOk(later[i])
    ensures AllTablesOk(later) && Unsent(later, next, sent) && Apart(later)
  {
    forall i, id | 0 <= i < |later| && id in later[i].jobs ensures id in insts[i].jobs {
    }
  }

  lemma JobsStep(s: State, a: Step)
    requires JobsOk(s)
    ensures JobsOk(Next(s, a))
  {
    var t := Next(s, a);
    match a
    case Start(i, comp, ok) =>
      if t != s {
        StartStep(s, t, i, comp);
      }
    case Remake(i, ok) =>
      if i < |s.insts| && s.insts[i].pending.Some? {
        JobsRemake(s, i, ok);
      }
    case Cancel(i, comp, ok) => CancelStep(s, i, comp, ok);
    case Crash(i) =>
      if i < |s.insts| {
        forall k | 0 <= k < |s.insts| ensures TablesOk(t.insts[k]) {
          assert TablesOk(s.insts[k]);
        }
        FewerJobs(s.insts, t.insts, s.db.next, s.sent);
      }
    case _ => SameTables(s, t);
  }

  lemma JobsRemake(s: State, i: nat, ok: bool)
    requires JobsOk(s) && i < |s.insts| && s.insts[i].pending.Some?
    ensures JobsOk(RemakePending(s, i, ok))
  {
    var t, comp := RemakePending(s, i, ok), s.insts[i].pending.value.row.comp;
    if CanInsert(s.db, comp, ok) {
      StartStep(s, t, i, comp);
    } else {
      SameTables(s, t);
    }
  }

  lemma SameTables(s: State, t: State)
    requires JobsOk(s) && |t.insts| == |s.insts| && t.sent == s.sent && t.db.next == s.db.next
    requires forall i :: 0 <= i < |s.insts| ==>
        t.insts[i].jobs == s.insts[i].jobs && t.insts[i].polls == s.insts[i].polls
    ensures JobsOk(t)
  {
    forall i | 0 <= i < |t.insts| ensures TablesOk(t.insts[i]) {
      assert TablesOk(s.insts[i]);
    }
    FewerJobs(s.insts, t.insts, s.db.next, s.sent);
  }

  lemma {:induction false} InvRun(n: nat, steps: seq<Step>)
    ensures Inv(Run(Init(n), steps))
  {
    if steps != [] {
      var s, a := Run(Init(n), steps[..|steps| - 1]), steps[|steps| - 1];
      InvRun(n, steps[..|steps| - 1]);
      DbSteps(s, a);
      TookStep(s, a);
      MadeStep(s, a);
      JobsStep(s, a);
    }
  }

  // ---- Results over every run ----

  /** However the instances scan and take over, a row is deleted by at most one of them, and at most
      one job replaces it. */
  lemma {:induction false} OneSuccessor(n: nat, steps: seq<Step>)
    ensures var s := Run(Init(n), steps);
      && Distinct(s.took)
      && (forall i :: 0 <= i < |s.made| ==> s.made[i].was in s.took)
      && (forall i, j :: 0 <= i < j < |s.made| ==> s.made[i].was != s.made[j].was)
  {
    InvRun(n, steps);
  }

  /** No component has two job rows. */
  lemma {:induction false} OneRowPerComponent(n: nat, steps: seq<Step>, a: nat, b: nat)
    requires var db := Run(Init(n), steps).db; a in db.rows && b in db.rows && db.rows[a].comp == db.rows[b].comp
    ensures a == b
  {
    InvRun(n, steps);
  }

  /** On every instance each poll is in the job list under its id, no job runs on two instances, and
      no job is sent a second cancel signal. */
  lemma TablesAgree(n: nat, steps: seq<Step>)
    ensures var s := Run(Init(n), steps);
      && (forall i :: 0 <= i < |s.insts| ==> TablesOk(s.insts[i]))
      && (forall i, j, id :: 0 <= i < j < |s.insts| && id in s.insts[i].jobs ==> id !in s.insts[j].jobs)
      && Distinct(s.sent)
      && (forall i, id :: 0 <= i < |s.insts| && id in s.insts[i].jobs ==> id !in s.sent)
  {
    InvRun(n, steps);
  }

  // ---- Jobs nobody can cancel any more ----

  ghost predicate BackedBy(x: Inst, rows: map<nat, Row>) {
    forall id :: id in x.jobs ==> id in rows && rows[id].comp == x.jobs[id] && Named(x, id)
  }

  /** The converse: every job in a job list is the poll of its component there, and has its row. */
  ghost predicate Backed(s: State) { forall i :: 0 <= i < |s.insts| ==> BackedBy(s.insts[i], s.db.rows) }

  predicate Named(x: Inst, id: nat)
    requires id in x.jobs
  {
    x.jobs[id] in x.polls && x.polls[x.jobs[id]] == id
  }

  /** The step takes the row of a job that some instance is still running. */
  predicate Steals(s: State, a: Step) {
    && a.Take? && a.ok && a.inst < |s.insts| && s.insts[a.inst].scan != [] && s.insts[a.inst].pending.None?
    && s.insts[a.inst].scan[0].id in s.db.rows
    && Running(s.insts, s.insts[a.inst].scan[0].id)
  }

  predicate Running(insts: seq<Inst>, id: nat) { exists i :: 0 <= i < |insts| && id in insts[i].jobs }

  /** Exactly taking over a job that is still running breaks the correspondence of tables and rows. */
  lemma BackedUnlessStolen(s: State, a: Step)
    requires Inv(s) && Backed(s)
    ensures Backed(Next(s, a)) <==> !Steals(s, a)
  {
    match a
    case Start(i, comp, ok) =>
      if i < |s.insts| && CanInsert(s.db, comp, ok) {
        BackedStart(s, Next(s, a), i, comp);
      }
    case Remake(i, ok) => BackedRemake(s, i, ok);
    case Cancel(i, comp, ok) => BackedCancel(s, i, comp, ok);
    case Take(i, ok) =>
      if i < |s.insts| && s.insts[i].scan != [] && s.insts[i].pending.None? {
        BackedTake(s, i, ok);
      }
    case _ => BackedQuiet(s, a);
  }

  /** Over every run that takes over no running job, every listed job is its component's poll on that
      instance and has its row. */
  lemma {:induction false} RunsStayBacked(n: nat, steps: seq<Step>)
    requires forall m :: 0 <= m < |steps| ==> !Steals(Run(Init(n), steps[..m]), steps[m])
    ensures Backed(Run(Init(n), steps))
  {
    if steps != [] {
      var before := steps[..|steps| - 1];
      forall m | 0 <= m < |before| ensures !Steals(Run(Init(n), before[..m]), before[m]) {
        assert before[..m] == steps[..m];
      }
      RunsStayBacked(n, before);
      InvRun(n, before);
      BackedUnlessStolen(Run(Init(n), before), steps[|steps| - 1]);
    }
  }

  lemma BackedRemake(s: State, i: nat, ok: bool)
    requires Inv(s) && Backed(s)
    ensures Backed(Next(s, Remake(i, ok)))
  {
    if i < |s.insts| && s.insts[i].pending.Some? {
      var comp := s.insts[i].pending.value.row.comp;
      if CanInsert(s.db, comp, ok) {
        BackedStart(s, RemakePending(s, i, ok), i, comp);
      } else {
        StillBacked(s, RemakePending(s, i, ok));
      }
    }
  }

  lemma BackedQuiet(s: State, a: Step)
    requires Backed(s) && (a.Finish? || a.Scan? || a.Crash?)
    ensures Backed(Next(s, a))
  {
    StillBacked(s, Next(s, a));
  }

  /** Instances with the same tables, or none, stay backed as long as running jobs keep their rows. */
  lemma StillBacked(s: State, t: State)
    requires Backed(s) && |t.insts| == |s.insts|
    requires forall i :: 0 <= i < |s.insts| ==>
      t.insts[i] == IDLE || (t.insts[i].jobs == s.insts[i].jobs && t.insts[i].polls == s.insts[i].polls)
    requires forall id :: id in s.db.rows && Running(s.insts, id) ==>
        id in t.db.rows && t.db.rows[id].comp == s.db.rows[id].comp
    ensures Backed(t)
  {
    forall i | 0 <= i < |t.insts| ensures BackedBy(t.insts[i], t.db.rows) {
      assert BackedBy(s.insts[i], s.db.rows);
      if t.insts[i] != IDLE {
        forall id | id in t.insts[i].jobs
          ensures id in t.db.rows && t.db.rows[id].comp == t.insts[i].jobs[id] && Named(t.insts[i], id)
        {
          assert id in s.insts[i].jobs && Named(s.insts[i], id) && Running(s.insts, id);
        }
      }
    }
  }

  lemma BackedStart(s: State, t: State, i: nat, comp: string)
    requires Inv(s) && Backed(s) && !HasRow(s.db, comp) && t.db == Inserted(s.db, comp) && i < |s.insts| == |t.insts|
    requires forall k :: 0 <= k < |s.insts| && k != i ==> t.insts[k] == s.insts[k]
    requires t.insts[i].jobs == s.insts[i].jobs[s.db.next := comp] &&
        t.insts[i].polls == s.insts[i].polls[comp := s.db.next]
    ensures Backed(t)
  {
    forall k | 0 <= k < |t.insts| ensures BackedBy(t.insts[k], t.db.rows) {
      assert BackedBy(s.insts[k], s.db.rows);
      assert forall id :: id in s.insts[k].jobs ==> id < s.db.next;
      forall id | id in s.insts[k].jobs ensures s.insts[k].jobs[id] != comp && Named(s.insts[k], id) {
        assert s.db.rows[id].comp != comp;
      }
    }
  }

  lemma BackedCancel(s: State, i: nat, comp: string, ok: bool)
    requires Inv(s) && Backed(s)
    ensures Backed(Next(s, Cancel(i, comp, ok)))
  {
    if i < |s.insts| && comp in s.insts[i].polls {
      var t, id := Next(s, Cancel(i, comp, ok)), s.insts[i].polls[comp];
      assert TablesOk(s.insts[i]);
      forall k | 0 <= k < |t.insts| ensures BackedBy(t.insts[k], t.db.rows) {
        assert BackedBy(s.insts[k], s.db.rows);
        assert id in s.insts[i].jobs;
        forall j | j in t.insts[k].jobs
          ensures j in t.db.rows && t.db.rows[j].comp == t.insts[k].jobs[j] && Named(t.insts[k], j)
        {
          assert j in s.insts[k].jobs && Named(s.insts[k], j);
          assert j != id;
        }
      }
    }
  }

  lemma BackedTake(s: State, i: nat, ok: bool)
    requires Backed(s) && i < |s.insts| && s.insts[i].scan != [] && s.insts[i].pending.None?
    ensures Backed(TakeNext(s, i, ok)) <==> !Steals(s, Take(i, ok))
  {
    var t, id := TakeNext(s, i, ok), s.insts[i].scan[0].id;
    assert forall k :: 0 <= k < |s.insts| ==>
      t.insts[k].jobs == s.insts[k].jobs && t.insts[k].polls == s.insts[k].polls;
    if Steals(s, Take(i, ok)) {
      var k :| 0 <= k < |s.insts| && id in s.insts[k].jobs;
      assert id in t.insts[k].jobs && id !in t.db.rows;
      assert !BackedBy(t.insts[k], t.db.rows);
    } else {
      StillBacked(s, t);
    }
  }

  /** A job that no poll names and that was not signalled never will be: whatever happens later, its
      polling goroutine gets no cancel signal. */
  lemma {:induction false} UnnamedIsNeverSignalled(s: State, steps: seq<Step>, id: nat)
    requires id < s.db.next && id !in s.sent
    requires forall i, c :: 0 <= i < |s.insts| && c in s.insts[i].polls ==> s.insts[i].polls[c] != id
    ensures var t := Run(s, steps);
      && id < t.db.next && id !in t.sent
      && (forall i, c :: 0 <= i < |t.insts| && c in t.insts[i].polls ==> t.insts[i].polls[c] != id)
  {
    if steps != [] {
      var r, a := Run(s, steps[..|steps| - 1]), steps[|steps| - 1];
      UnnamedIsNeverSignalled(s, steps[..|steps| - 1], id);
      UnnamedStep(r, a, id);
    }
  }

  lemma UnnamedStep(s: State, a: Step, id: nat)
    requires id < s.db.next && id !in s.sent
    requires forall i, c :: 0 <= i < |s.insts| && c in s.insts[i].polls ==> s.insts[i].polls[c] != id
    ensures var t := Next(s, a);
      && id < t.db.next && id !in t.sent
      && (forall i, c :: 0 <= i < |t.insts| && c in t.insts[i].polls ==> t.insts[i].polls[c] != id)
  {
    var t := Next(s, a);
    forall i, c | 0 <= i < |t.insts| && c in t.insts[i].polls ensures t.insts[i].polls[c] != id {
      assert c in s.insts[i].polls ==> s.insts[i].polls[c] != id;
    }
  }

  /** Starting a poll where a stale one is still listed leaves the stale job listed and unnamed: it is
      never signalled again. */
  lemma RestartLeaks(n: nat, before: seq<Step>, i: nat, comp: string, after: seq<Step>)
    requires var s := Run(Init(n), before);
      i < |s.insts| && comp in s.insts[i].polls && CanInsert(s.db, comp, true)
    ensures var s := Run(Init(n), before);
      var t := Next(s, Start(i, comp, true));
      var id := s.insts[i].polls[comp];
      id in t.insts[i].jobs && !Named(t.insts[i], id) && id !in Run(t, after).sent
  {
    InvRun(n, before);
    var s := Run(Init(n), before);
    var t := Next(s, Start(i, comp, true));
    var id := s.insts[i].polls[comp];
    assert TablesOk(s.insts[i]);
    assert id in s.insts[i].jobs && s.insts[i].jobs[id] == comp && id < s.db.next;
    forall k, c | 0 <= k < |t.insts| && c in t.insts[k].polls ensures t.insts[k].polls[c] != id {
      if k != i || c != comp {
        assert TablesOk(s.insts[k]) && s.insts[k].polls[c] in s.insts[k].jobs;
      }
    }
    UnnamedIsNeverSignalled(t, after, id);
  }

  // The second instance takes the job of the first for expired and deletes its row.
  const THEFT: seq<Step> := [Start(0, "x", true), Scan(1, [0]), Take(1, true)]
  const RUNNING := Inst(map[0 := "x"], map["x" := 0], [], None)
  const JOB := Scanned(0, Row("x", false))

  const STALE := State(Db(map[], 1), [RUNNING, IDLE.(pending := Some(JOB))], [0], [], [])

  /** Such a restart happens: the first instance still lists the poll when a new one can be started,
      and then goes on running a job that no later run signals. */
  lemma LeakIsReached(after: seq<Step>)
    ensures Run(Init(2), THEFT) == STALE && CanInsert(STALE.db, "x", true)
    ensures var t := Next(STALE, Start(0, "x", true));
      t.insts[0].jobs.Keys == {0, 1} && !Named(t.insts[0], 0) && 0 !in Run(t, after).sent
  {
    var s1 := State(Db(map[0 := Row("x", false)], 1), [RUNNING, IDLE], [], [], []);
    StartOne(s1);
    ScanOne(s1);
    var s2 := s1.(insts := [RUNNING, IDLE.(scan := [JOB])]);
    TakeOne(s2);
    RunThree(Init(2), THEFT[0], THEFT[1], THEFT[2]);
    RestartLeaks(2, THEFT, 0, "x", after);
  }

  lemma StartOne(s: State)
    requires s == State(Db(map[0 := Row("x", false)], 1), [RUNNING, IDLE], [], [], [])
    ensures Next(Init(2), Start(0, "x", true)) == s
  {
    assert Init(2).insts == [IDLE, IDLE];
    assert Started(IDLE, 0, "x") == RUNNING;
    assert Inserted(Init(2).db, "x") == s.db;
  }

  lemma ScanOne(s: State)
    requires s == State(Db(map[0 := Row("x", false)], 1), [RUNNING, IDLE], [], [], [])
    ensures Next(s, Scan(1, [0])) == s.(insts := [RUNNING, IDLE.(scan := [JOB])])
  {
    assert ToSet([0]) == {0};
    assert Read(s.db, [0]) == [JOB];
  }

  lemma TakeOne(s: State)
    requires s == State(Db(map[0 := Row("x", false)], 1), [RUNNING, IDLE.(scan := [JOB])], [], [], [])
    ensures Next(s, Take(1, true)) == STALE
  {
    assert s.insts[1].scan[1..] == [];
    assert s.db.rows - {0} == map[];
    assert Next(s, Take(1, true)).insts == [RUNNING, IDLE.(pending := Some(JOB))];
  }

  lemma RunThree(s: State, a: Step, b: Step, c: Step)
    ensures Run(s, [a, b, c]) == Next(Next(Next(s, a), b), c)
  {
    assert [a, b, c][..2] == [a, b] && [a, b][..1] == [a] && [a][..0] == [];
    assert Run(s, [a]) == Next(Run(s, []), a);
    assert Run(s, [a, b]) == Next(Run(s, [a]), b);
  }
}
