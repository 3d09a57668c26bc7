/** The lock and reservation operations as transactions on the stored tables. A statement that
    fails aborts the transaction: from then on every statement fails, and a commit changes nothing. */
module CompLockStore {
  import opened Options
  import opened Collect
  import opened CompLocks

  /** How an INSERT ends; DupKey is the key conflict the code reports as "reserved". */
  datatype Outcome = Fine | Broken | DupKey

  /** Which database calls of one operation succeed. */
  datatype Calls = Calls(begin: bool, select: bool, insert: Outcome,
    delete: bool, read: bool, update: bool, commit: bool)

  const ALL_FINE := Calls(true, true, Fine, true, true, true, true)

  /** The error is about the flags of one of the selected components. */
  ghost predicate Blames(t: Tables, affected: seq<string>, err: Error) {
    exists id :: id in affected && id in t.comps && match err
      case CompDisabled => t.comps[id].disabled
      case CompLocked => t.comps[id].locked
      case CompUnlocked => !t.comps[id].locked
      case _ => false
  }

  /** The error of a request on components that the database did not fail: nothing was selected, or the
      flags of one of them bar it, or reservations are in the way. */
  ghost predicate RightError(t: Tables, affected: seq<string>, err: Error) {
    if affected == [] then err.NotFound? else err.CompReserved? || Blames(t, affected, err)
  }

  /** The results name exactly the components done, and as failures exactly the others asked for. */
  ghost predicate Reported(success: seq<string>, failure: seq<Failure>, asked: set<string>, done: set<string>) {
    ToSet(success) == done && Ids(failure) == asked - done
  }

  lemma IdsSnoc<T>(s: seq<About<T>>, x: About<T>)
    ensures Ids(s + [x]) == Ids(s) + {x.id}
  {
    var all := s + [x];
    assert forall i :: 0 <= i < |s| ==> all[i] == s[i];
    assert all[|s|] == x;
  }

  function KeysFor(ids: seq<string>): (r: seq<KeyPair>)
    ensures |r| == |ids| && Ids(r) == ToSet(ids)
  {
    var r := seq(|ids|, i requires 0 <= i < |ids| => About(ids[i], NoKey));
    assert forall i :: 0 <= i < |ids| ==> r[i].id == ids[i];
    r
  }

  /** When a reservation request goes through: something was selected, and a rigid one can have it all. */
  ghost predicate Reservable(t: Tables, affected: seq<string>, model: Model, duration: int) {
    affected != [] && (model.Flexible? || forall id :: id in affected ==> CanReserve(t, id, duration))
  }

  /** The report of a committed request: exactly the reservable components reserved, the others
      failed; and for a rigid one, all of them reserved. */
  ghost predicate Reserved(t: Tables, affected: seq<string>, model: Model, duration: int,
                           success: seq<string>, failure: seq<Failure>)
  {
    && Reported(success, failure, ToSet(affected), set id | id in affected && CanReserve(t, id, duration))
    && (model.Rigid? ==> failure == [] && ToSet(success) == ToSet(affected))
  }

  /** Each failure gives the reason its component could not be reserved. */
  ghost predicate ReasonsOk(t: Tables, affected: seq<string>, duration: int, failure: seq<Failure>) {
    forall f :: f in failure ==>
      f.id in affected && f.id in t.comps && f.what == ReserveBar(t.comps[f.id], duration).GetOr(ReservedReason)
  }

  lemma ReasonsGrow(t: Tables, affected: seq<string>, duration: int,
      before: seq<Failure>, ids: seq<string>, after: seq<Failure>)
    requires Selected(t, affected) && ReasonsOk(t, affected, duration, before)
    requires ToSet(ids) == set id | id in affected && ReserveBar(t.comps[id], duration).None?
    requires forall f :: f in after ==> f in before || (f.id in ids && f.what == ReservedReason)
    ensures ReasonsOk(t, affected, duration, after)
  {
    forall f | f in after && f !in before
      ensures f.id in affected && f.id in t.comps && ReserveBar(t.comps[f.id], duration).None?
    {
      assert f.id in ToSet(ids);
      assert f.id in ToSet(affected);
    }
  }

  /** What an insert of the components without a bar does is what the operation is to do. */
  lemma ReserveTarget(t: Tables, affected: seq<string>, model: Model,
      duration: int, now: int, serial: nat, pick: set<string>)
    requires Selected(t, affected)
    ensures pick == (set id | id in affected && ReserveBar(t.comps[id], duration).None?) ==>
      && (set id | id in affected && CanReserve(t, id, duration)) == pick - t.res.Keys
      && (model.Flexible? || pick - t.res.Keys == ToSet(affected) ==>
            InsertRes(t, pick, duration, now, serial) == Next(t, Reserve(affected, model, duration, now, serial)))
      && InsertRes(t, {}, duration, now, serial) == t
  {
    var ok := set id | id in affected && CanReserve(t, id, duration);
    if pick == (set id | id in affected && ReserveBar(t.comps[id], duration).None?) {
      forall id ensures id in ok <==> id in pick - t.res.Keys {
        assert id in affected ==> id in ToSet(affected) && id in t.comps;
      }
      assert ok == pick - t.res.Keys;
      assert t.res.Keys + pick == t.res.Keys + ok;
    }
  }

  lemma InsertedReport(t: Tables, affected: seq<string>, model: Model, duration: int, pick: set<string>,
      success: seq<string>, failure: seq<Failure>)
    requires Selected(t, affected)
    requires pick == (set id | id in affected && ReserveBar(t.comps[id], duration).None?)
    requires ToSet(success) == pick - t.res.Keys
    requires Ids(failure) == (ToSet(affected) - pick) + (pick - ToSet(success))
    requires model.Rigid? ==> failure == []
    ensures Reserved(t, affected, model, duration, success, failure)
    ensures ToSet(success) !! Ids(failure) && ToSet(success) + Ids(failure) == ToSet(affected)
  {
    assert (set id | id in affected && CanReserve(t, id, duration)) == pick - t.res.Keys by {
      ReserveTarget(t, affected, model, duration, 0, 0, pick);
    }
    assert pick <= ToSet(affected);
    PartsAgain(ToSet(affected), pick, ToSet(success));
  }

  lemma PartsAgain(all: set<string>, pick: set<string>, done: set<string>)
    requires done <= pick <= all
    ensures (all - pick) + (pick - done) == all - done
    ensures done + (all - done) == all
  {
  }

  /** How the report on requested keys comes out, given the components found: with as many
      found as requested the found ones are taken for the requested ones, otherwise each
      request is looked up among the found ones. */
  ghost predicate KeyReport(keys: seq<KeyPair>, found: seq<string>, success: seq<string>, failure: seq<Failure>) {
    && |success| + |failure| == |keys|
    && (if |keys| == |found| then success == found && failure == []
        else ToSet(success) == Ids(keys) * ToSet(found) && Ids(failure) == Ids(keys) - ToSet(found))
  }

  /** The report is exact (success: what was found; failure: the other requests) exactly when
      all that was found was requested, or the counts match and all that was requested was found. */
  lemma KeyReportExact(keys: seq<KeyPair>, found: seq<string>, success: seq<string>, failure: seq<Failure>)
    requires Distinct(found) && KeyReport(keys, found, success, failure)
    ensures Reported(success, failure, Ids(keys), ToSet(found)) <==>
      ToSet(found) <= Ids(keys) || (|keys| == |found| && Ids(keys) <= ToSet(found))
  {
    if |keys| == |found| {
      assert Ids(failure) == {};
      if ToSet(found) <= Ids(keys) {
        var ids := seq(|keys|, i requires 0 <= i < |keys| => keys[i].id);
        assert forall i :: 0 <= i < |keys| ==> ids[i] == keys[i].id;
        assert ToSet(ids) == Ids(keys);
        Pigeonhole(found, ids);
      }
      var missed := Ids(keys) - ToSet(found);
      assert missed == {} ==> forall x :: x in Ids(keys) ==> x !in missed;
    } else {
      assert Ids(keys) * ToSet(found) == ToSet(found) <==> ToSet(found) <= Ids(keys);
    }
  }

  /** Every key given is one made for the component it is given for. */
  predicate OwnKeys(keys: seq<KeyPair>) {
    forall i :: 0 <= i < |keys| && keys[i].what.RKey? ==> keys[i].what.owner == keys[i].id
  }

  lemma OwnKeysFindOwn(t: Tables, keys: seq<KeyPair>)
    requires Safe(t) && OwnKeys(keys)
    ensures ByKey(t, keys) <= Ids(keys)
  {
    forall id | id in ByKey(t, keys) ensures id in Ids(keys) {
      var i :| 0 <= i < |keys| && keys[i].what == t.res[id].key;
      assert keys[i].id == id;
    }
  }

  /** With keys that belong to their components the report on them is exact. */
  lemma OwnKeysReport(t: Tables, keys: seq<KeyPair>, found: seq<string>, success: seq<string>, failure: seq<Failure>)
    requires Distinct(found) && KeyReport(keys, found, success, failure) && ToSet(found) <= ByKey(t, keys)
    ensures Safe(t) && OwnKeys(keys) ==> Reported(success, failure, Ids(keys), ToSet(found))
  {
    if Safe(t) && OwnKeys(keys) {
      OwnKeysFindOwn(t, keys);
      KeyReportExact(keys, found, success, failure);
    }
  }

  /** A rigid release goes through only if every key given is that of a live reservation:
      reservations and keys match one to one. */
  lemma RigidNamesAll(t: Tables, keys: seq<KeyPair>)
    requires Safe(t) && |ByKey(t, keys)| == |keys|
    ensures forall i :: 0 <= i < |keys| ==> exists id :: id in ByKey(t, keys) && t.res[id].key == keys[i].what
  {
    var owned := seq(|keys|, i requires 0 <= i < |keys| => keys[i].what);
    var found := ByKey(t, keys);
    var named := set id | id in found :: t.res[id].key;
    KeysAreDistinct(t, found);
    assert forall i :: 0 <= i < |keys| ==> owned[i] == keys[i].what;
    forall k | k in named ensures k in ToSet(owned) {
      var id :| id in found && t.res[id].key == k;
      var i :| 0 <= i < |keys| && keys[i].what == t.res[id].key;
      assert owned[i] == k;
    }
    SetSize(owned);
    SubsetSize(named, ToSet(owned));
    forall i | 0 <= i < |keys| ensures exists id :: id in found && t.res[id].key == keys[i].what {
      assert owned[i] in ToSet(owned);
      assert keys[i].what in named;
    }
  }

  lemma {:induction false} KeysAreDistinct(t: Tables, ids: set<string>)
    requires Safe(t) && ids <= t.res.Keys
    ensures |set id | id in ids :: t.res[id].key| == |ids|
  {
    var named := set id | id in ids :: t.res[id].key;
    if ids != {} {
      var x :| x in ids;
      var rest := set id | id in ids - {x} :: t.res[id].key;
      KeysAreDistinct(t, ids - {x});
      assert named == rest + {t.res[x].key};
    } else {
      assert named == {};
    }
  }

  /** The keys a rigid request needs: some, none empty, and as many as they find. */
  ghost predicate Presentable(keys: seq<KeyPair>, found: set<string>) {
    keys != [] && !HasEmptyKey(keys) && |found| == |keys|
  }

  lemma ReleaseTarget(t: Tables, keys: seq<KeyPair>, model: Model)
    ensures DropRes(t, {}) == t
    ensures keys == [] ==> Next(t, Release(keys, model)) == t
    ensures HasEmptyKey(keys) ==> Next(t, Release(keys, model)) == t
    ensures !HasEmptyKey(keys) && (model.Flexible? || |ByKey(t, keys)| == |keys|) ==>
      Next(t, Release(keys, model)) == DropRes(t, ByKey(t, keys))
  {
    assert t.res - {} == t.res;
    if keys == [] {
      assert ByKey(t, keys) == {};
    }
  }

  lemma RenewTarget(t: Tables, keys: seq<KeyPair>, model: Model, expires: int)
    ensures keys == [] ==> Next(t, Renew(keys, model, expires)) == t
    ensures HasEmptyKey(keys) ==> Next(t, Renew(keys, model, expires)) == t
    ensures !HasEmptyKey(keys) && (model.Flexible? || |ByKey(t, keys) * Expiring(t)| == |keys|) ==>
      Next(t, Renew(keys, model, expires)) == ExtendRes(t, ByKey(t, keys) * Expiring(t), expires)
  {
    assert ExtendRes(t, {}, expires).res == t.res;
    if keys == [] {
      assert ByKey(t, keys) * Expiring(t) == {};
    }
  }

  lemma ForceTarget(t: Tables, affected: seq<string>, model: Model, gone: seq<string>)
    requires Selected(t, affected) && Distinct(gone) && ToSet(gone) == ToSet(affected) * t.res.Keys
    ensures |gone| == |affected| <==> ToSet(affected) <= t.res.Keys
    ensures model.Flexible? || |gone| == |affected| ==>
      Next(t, ForceRelease(affected, model)) == DropRes(t, ToSet(gone))
      && Target(t, ForceRelease(affected, model)) == ToSet(gone)
  {
    SetSize(gone);
    SetSize(affected);
    SubsetSize(ToSet(gone), ToSet(affected));
    assert ToSet(affected) * t.res.Keys == ToSet(affected) <==> ToSet(affected) <= t.res.Keys;
  }

  /** The selected components that can be locked (or unlocked). */
  function Lockable(t: Tables, affected: seq<string>, v: bool): set<string> {
    set id | id in affected && CanLock(t, id, v)
  }

  /** The flags of some selected component allow the change. */
  predicate SomeUnbarred(t: Tables, affected: seq<string>, v: bool)
    requires ToSet(affected) <= t.comps.Keys
  {
    exists id :: id in ToSet(affected) && LockBar(t.comps[id], v).None?
  }

  lemma LockTarget(t: Tables, affected: seq<string>, model: Model, v: bool, pick: set<string>)
    requires Selected(t, affected)
    ensures pick == (set id | id in affected && LockBar(t.comps[id], v).None?) ==>
      Lockable(t, affected, v) == pick - t.res.Keys && pick <= ToSet(affected)
    ensures model.Flexible? || Lockable(t, affected, v) == ToSet(affected) ==>
      Next(t, Lock(affected, model, v)) == SetLocked(t, Lockable(t, affected, v), v)
  {
    if pick == (set id | id in affected && LockBar(t.comps[id], v).None?) {
      forall id ensures id in Lockable(t, affected, v) <==> id in pick - t.res.Keys {
        assert id in affected ==> id in ToSet(affected) && id in t.comps;
      }
    }
  }

  /** Each failure of a lock request gives the first of: locked or unlocked already, disabled, reserved. */
  ghost predicate LockReasonsOk(t: Tables, v: bool, failure: seq<Failure>) {
    forall f :: f in failure ==> f.id in t.comps && var m := t.comps[f.id];
      f.what == if m.locked == v then (if v then LockedReason else UnlockedReason)
        else if m.disabled then DisabledReason else ReservedReason
  }

  lemma LockReasons(t: Tables, affected: seq<string>, v: bool, lockKeys: seq<string>,
      bars: seq<Failure>, all: seq<Failure>)
    requires Selected(t, affected)
    requires ToSet(lockKeys) == (set id | id in affected && LockBar(t.comps[id], v).None?)
    requires forall f :: f in bars ==> f.id in t.comps && LockBar(t.comps[f.id], v) == Some(f.what)
    requires forall f :: f in all ==> f in bars || (f.id in lockKeys && f.what == ReservedReason)
    ensures LockReasonsOk(t, v, all)
  {
    forall f | f in all && f !in bars ensures f.id in t.comps && LockBar(t.comps[f.id], v).None? {
      assert f.id in ToSet(lockKeys);
      assert f.id in ToSet(affected);
    }
  }

  lemma DisableTarget(t: Tables, affected: seq<string>, model: Model)
    requires Selected(t, affected)
    ensures DropRes(t, ToSet(affected) * t.res.Keys) == DropRes(t, Target(t, Disable(affected, model)))
  {
    assert t.res - ToSet(affected) * t.res.Keys == t.res - ToSet(affected);
  }

  ghost function DisableOrRepair(affected: seq<string>, model: Model, disable: bool): Op {
    if disable then Disable(affected, model) else Repair(affected, model)
  }

  lemma DisableRows(t: Tables, t': Tables, affected: seq<string>, model: Model, disable: bool)
    requires Selected(t, affected) && t' == Next(t, DisableOrRepair(affected, model, disable))
    ensures FlagsAfter(t, t', ToSet(affected), None, Some(disable))
    ensures ReservationsLeft(t, t', if disable then ToSet(affected) else {})
  {
  }

  // ---- What a committed operation has done to the rows ----

  /** Every component has the flags it had, except those named, which have the new ones. */
  ghost predicate FlagsAfter(before: Tables, after: Tables, named: set<string>,
                             lock: Option<bool>, disable: Option<bool>)
  {
    && after.comps.Keys == before.comps.Keys
    && forall id :: id in before.comps ==>
        after.comps[id] == if id !in named then before.comps[id]
          else Comp(lock.GetOr(before.comps[id].locked), disable.GetOr(before.comps[id].disabled))
  }

  /** The reservations named are gone, and all others are as they were. */
  ghost predicate ReservationsLeft(before: Tables, after: Tables, gone: set<string>) {
    after.res.Keys == before.res.Keys - gone && forall id :: id in after.res ==> after.res[id] == before.res[id]
  }

  class Store {
    var db: Tables
    var tx: Tables
    var aborted: bool

    constructor ()
      ensures db == EMPTY
    {
      db, tx, aborted := EMPTY, EMPTY, false;
    }

    method Begin()
      modifies `tx, `aborted
      ensures tx == db && !aborted
    {
      tx, aborted := db, false;
    }

    method Rollback()
      modifies `tx
      ensures tx == db
    {
      tx := db;
    }

    method Commit(ok: bool) returns (err: Error)
      modifies `db
      ensures err == if ok && !aborted then NoError else DbError
      ensures db == if err.NoError? then tx else old(db)
    {
      if !ok || aborted {
        return DbError;
      }
      db := tx;
      return NoError;
    }

    // ---- Statements ----

    method InsertCompReservationsTx(ids: seq<string>, duration: int, now: int, serial: nat, o: Outcome)
      returns (inserted: seq<string>, reserved: bool, err: Error)
      requires !aborted
      modifies `tx, `aborted
      ensures aborted <==> !o.Fine?
      ensures reserved <==> o.DupKey?
      ensures err == if o.Broken? then DbError else NoError
      ensures tx == if o.Fine? then InsertRes(old(tx), ToSet(ids), duration, now, serial) else old(tx)
      ensures Distinct(inserted)
      ensures ToSet(inserted) == if o.Fine? then ToSet(ids) - old(tx).res.Keys else {}
    {
      if !o.Fine? {
        aborted := true;
        return [], o.DupKey?, if o.Broken? then DbError else NoError;
      }
      inserted := Listing(ToSet(ids) - tx.res.Keys);
      tx := InsertRes(tx, ToSet(ids), duration, now, serial);
      return inserted, false, NoError;
    }

    /** With force the components' reservations go, and with no component all of them; without, those the keys name. */
    method DeleteCompReservationsTx(keys: seq<KeyPair>, force: bool, ok: bool) returns (gone: seq<string>, err: Error)
      requires !aborted
      modifies `tx, `aborted
      ensures var refused := !force && (HasEmptyKey(keys) || keys == []);
              && aborted == (!refused && !ok)
              && err == (if refused then KeyRequired else if !ok then DbError else NoError)
      ensures Distinct(gone)
      ensures ToSet(gone) == if !err.NoError? then {} else if !force then ByKey(old(tx), keys)
                             else if keys == [] then old(tx).res.Keys else Ids(keys) * old(tx).res.Keys
      ensures tx == DropRes(old(tx), ToSet(gone))
    {
      for i := 0 to |keys|
        invariant force || !HasEmptyKey(keys[..i])
        invariant tx == old(tx) && !aborted
      {
        assert keys[..i + 1] == keys[..i] + [keys[i]];
        if keys[i].what.NoKey? && !force {
          return [], KeyRequired;
        }
      }
      assert keys[..|keys|] == keys;
      if !force && keys == [] {
        return [], KeyRequired;
      }
      if !ok {
        aborted := true;
        return [], DbError;
      }
      gone := Listing(if !force then ByKey(tx, keys) else if keys == [] then tx.res.Keys else Ids(keys) * tx.res.Keys);
      tx := DropRes(tx, ToSet(gone));
      return gone, NoError;
    }

    /** Only expiring reservations can be renewed. */
    method UpdateCompReservationsTx(keys: seq<KeyPair>, expires: int, ok: bool)
        returns (renewed: seq<string>, err: Error)
      requires !aborted
      modifies `tx, `aborted
      ensures var refused := HasEmptyKey(keys) || keys == [];
              && aborted == (!refused && !ok)
              && err == (if refused then KeyRequired else if !ok then DbError else NoError)
      ensures Distinct(renewed)
      ensures ToSet(renewed) == if err.NoError? then ByKey(old(tx), keys) * Expiring(old(tx)) else {}
      ensures tx == if err.NoError? then ExtendRes(old(tx), ToSet(renewed), expires) else old(tx)
    {
      for i := 0 to |keys|
        invariant !HasEmptyKey(keys[..i])
        invariant tx == old(tx) && !aborted
      {
        assert keys[..i + 1] == keys[..i] + [keys[i]];
        if keys[i].what.NoKey? {
          return [], KeyRequired;
        }
      }
      assert keys[..|keys|] == keys;
      if keys == [] {
        return [], KeyRequired;
      }
      if !ok {
        aborted := true;
        return [], DbError;
      }
      renewed := Listing(ByKey(tx, keys) * Expiring(tx));
      tx := ExtendRes(tx, ToSet(renewed), expires);
      return renewed, NoError;
    }

    /** The reserved ones among the components, or all reserved components when none is given. */
    method GetCompReservationsTx(ids: seq<string>, ok: bool) returns (found: seq<string>, err: Error)
      requires !aborted
      modifies `aborted
      ensures aborted == !ok && err == if ok then NoError else DbError
      ensures Distinct(found)
      ensures ToSet(found) == if !ok then {} else if ids == [] then tx.res.Keys else ToSet(ids) * tx.res.Keys
    {
      if !ok {
        aborted := true;
        return [], DbError;
      }
      found := Listing(if ids == [] then tx.res.Keys else ToSet(ids) * tx.res.Keys);
      return found, NoError;
    }

    method BulkUpdateTx(ids: seq<string>, disabled: bool, v: bool, ok: bool) returns (updated: seq<string>, err: Error)
      requires ids != []
      modifies `tx, `aborted
      ensures aborted == (old(aborted) || !ok) && err == if aborted then DbError else NoError
      ensures Distinct(updated)
      ensures ToSet(updated) == if aborted then {} else ToSet(ids) * old(tx).comps.Keys
      ensures tx == if aborted then old(tx)
                    else if disabled then SetDisabled(old(tx), ToSet(ids), v) else SetLocked(old(tx), ToSet(ids), v)
    {
      if aborted || !ok {
        aborted := true;
        return [], DbError;
      }
      updated := Listing(ToSet(ids) * tx.comps.Keys);
      tx := if disabled then SetDisabled(tx, ToSet(ids), v) else SetLocked(tx, ToSet(ids), v);
      return updated, NoError;
    }

    // ---- Reserving ----

    method InsertCompReservations(affected: seq<string>, model: Model, duration: int, now: int, serial: nat, c: Calls)
      returns (success: seq<string>, failure: seq<Failure>, err: Error)
      requires affected == [] || Selected(db, affected)
      modifies this
      ensures db == if err.NoError? then Next(old(db), Reserve(affected, model, duration, now, serial)) else old(db)
      ensures err.NoError? ==> Reserved(old(db), affected, model, duration, success, failure)
      ensures err.NoError? ==> db.comps == old(db).comps && db.res.Keys == old(db).res.Keys + ToSet(success)
      ensures err.NoError? ==> forall id :: id in db.res ==>
        db.res[id] == if id in old(db).res then old(db).res[id]
          else Reservation(if duration > 0 then Some(now + duration) else None, RKey(id, serial))
      ensures err.NoError? ==> forall id :: id in success <==>
        id in affected && id in old(db).comps && id !in old(db).res
          && !old(db).comps[id].disabled && (old(db).comps[id].locked <==> duration == 0)
      ensures c == ALL_FINE ==> (err.NoError? <==> Reservable(old(db), affected, model, duration))
      ensures c == ALL_FINE && !err.NoError? ==> RightError(old(db), affected, err)
      // even when the commit fails, the report accounts for every selected component once, as a set
      ensures affected != [] && model.Flexible? && c.begin && c.select && !c.insert.Broken? ==>
        ToSet(success) !! Ids(failure) && ToSet(success) + Ids(failure) == ToSet(affected)
      ensures forall f :: f in failure ==> f.id in affected && f.id in old(db).comps
      ensures forall f :: f in failure ==> var m := old(db).comps[f.id];
        f.what == if m.disabled then DisabledReason else if m.locked && duration != 0 then LockedReason
          else if !m.locked && duration == 0 then UnlockedReason else ReservedReason
    {
      if !c.begin {
        return [], [], DbError;
      }
      Begin();
      success, failure, err := InsertHelper(affected, model, duration, now, serial, c);
      if !err.NoError? {
        Rollback();
        return success, failure, err;
      }
      err := Commit(c.commit);
      InToSet(success);
    }

    /** insertCompReservationsHelper: sort out who can be reserved, insert, and account for the rest. */
    method InsertHelper(affected: seq<string>, model: Model, duration: int, now: int, serial: nat, c: Calls)
      returns (success: seq<string>, failure: seq<Failure>, err: Error)
      requires tx == db && !aborted
      requires affected == [] || Selected(db, affected)
      modifies `tx, `aborted
      ensures err.NoError? && !aborted ==> tx == Next(db, Reserve(affected, model, duration, now, serial))
      ensures err.NoError? && !aborted ==> Reserved(db, affected, model, duration, success, failure)
      ensures err.NoError? && model.Rigid? ==> !aborted
      ensures c == ALL_FINE ==> !aborted && (err.NoError? <==> Reservable(db, affected, model, duration))
      ensures c == ALL_FINE && !err.NoError? ==> RightError(db, affected, err)
      ensures affected != [] && model.Flexible? && c.select && !c.insert.Broken? ==>
        ToSet(success) !! Ids(failure) && ToSet(success) + Ids(failure) == ToSet(affected)
      ensures ReasonsOk(db, affected, duration, failure)
    {
      success, failure := [], [];
      if !c.select {
        aborted := true;
        return [], [], DbError;
      }
      if affected == [] {
        return [], [], NotFound;
      }
      var insertComps;
      insertComps, failure, err := PickReservable(affected, model, duration);
      ghost var pick := ToSet(insertComps);
      ReserveTarget(db, affected, model, duration, now, serial, pick);
      if !err.NoError? || insertComps == [] {
        return [], failure, err;
      }
      assert insertComps[0] in pick;
      var reserved;
      success, reserved, err := InsertCompReservationsTx(insertComps, duration, now, serial, c.insert);
      if !err.NoError? {
        return success, failure, err;
      }
      ghost var before := failure;
      failure, err := AccountInserts(failure, insertComps, success, reserved, model);
      ReasonsGrow(db, affected, duration, before, insertComps, failure);
      if err.NoError? && !reserved {
        InsertedReport(db, affected, model, duration, pick, success, failure);
      } else {
        PartsAgain(ToSet(affected), pick, ToSet(success));
      }
    }

    /** The components asked for in the INSERT but not returned by it are failures; a rigid request has none. */
    method AccountInserts(failure: seq<Failure>, insertComps: seq<string>, success: seq<string>,
        reserved: bool, model: Model)
      returns (all: seq<Failure>, err: Error)
      requires Distinct(insertComps) && Distinct(success) && ToSet(success) <= ToSet(insertComps)
      requires reserved ==> ToSet(success) == {} && insertComps != []
      ensures err.NoError? <==> model.Flexible? || ToSet(success) == ToSet(insertComps)
      ensures err.NoError? || err.CompReserved?
      ensures model.Flexible? || err.NoError? ==> Ids(all) == Ids(failure) + (ToSet(insertComps) - ToSet(success))
      ensures model.Rigid? && err.NoError? ==> all == failure
      ensures forall f :: f in all ==> f in failure || (f.id in insertComps && f.what == ReservedReason)
    {
      all := failure;
      if reserved {
        assert insertComps[0] in ToSet(insertComps);
        if model.Rigid? {
          return all, CompReserved;
        }
        all := AllFail(all, insertComps, {}, ReservedReason);
      }
      if |insertComps| != |success| {
        SetSize(insertComps);
        SetSize(success);
        all := AllFail(all, insertComps, ToSet(success), ReservedReason);
        if model.Rigid? {
          return all, CompReserved;
        }
      } else {
        Pigeonhole(success, insertComps);
      }
      err := NoError;
    }

    /** The loop over the selected components; a rigid request ends at the first it cannot reserve. */
    method PickReservable(affected: seq<string>, model: Model, duration: int)
      returns (insertComps: seq<string>, failure: seq<Failure>, err: Error)
      requires tx == db && Selected(db, affected)
      ensures Distinct(insertComps) && ReasonsOk(db, affected, duration, failure)
      ensures err.NoError? <==>
          model.Flexible? || forall id :: id in affected ==> ReserveBar(db.comps[id], duration).None?
      ensures err.NoError? || Blames(db, affected, err)
      ensures err.NoError? ==>
        ToSet(insertComps) == (set id | id in affected && ReserveBar(db.comps[id], duration).None?)
      ensures err.NoError? ==> Ids(failure) == ToSet(affected) - ToSet(insertComps)
      ensures model.Rigid? ==> failure == []
      ensures forall f :: f in failure ==> f.id !in insertComps
    {
      insertComps, failure, err := [], [], NoError;
      for i := 0 to |affected|
        invariant Distinct(insertComps) && err.NoError?
        invariant ToSet(insertComps) == set id | id in affected[..i] && ReserveBar(db.comps[id], duration).None?
        invariant Ids(failure) == ToSet(affected[..i]) - ToSet(insertComps)
        invariant model.Rigid? ==> failure == [] && ToSet(insertComps) == ToSet(affected[..i])
        invariant forall f :: f in failure ==> f.id in affected && ReserveBar(db.comps[f.id], duration) == Some(f.what)
        invariant forall f :: f in failure ==> f.id !in insertComps
      {
        var id := affected[i];
        assert id in ToSet(affected) && id !in affected[..i];
        assert affected[..i + 1] == affected[..i] + [id];
        ToSetSnoc(affected[..i], id);
        var bar := ReserveBar(tx.comps[id], duration);
        if bar.Some? {
          if model.Rigid? {
            return [], [], match bar.value
              case DisabledReason => CompDisabled
              case UnlockedReason => CompUnlocked
              case _ => CompLocked;
          }
          IdsSnoc(failure, About(id, bar.value));
          failure := failure + [About(id, bar.value)];
        } else {
          ToSetSnoc(insertComps, id);
          insertComps := insertComps + [id];
        }
      }
      assert affected[..|affected|] == affected;
      if model.Rigid? {
        forall id | id in affected ensures ReserveBar(db.comps[id], duration).None? {
          assert id in ToSet(insertComps);
        }
      }
    }

    // ---- Releasing and renewing ----

    /** Success and failure per requested key, given the components the statement returned. */
    method AccountKeys(keys: seq<KeyPair>, found: seq<string>) returns (success: seq<string>, failure: seq<Failure>)
      ensures KeyReport(keys, found, success, failure)
      ensures forall f :: f in failure ==> f.what == NotFoundReason
    {
      if |keys| == |found| {
        return found, [];
      }
      success, failure := [], [];
      for i := 0 to |keys|
        invariant |success| + |failure| == i
        invariant ToSet(success) == Ids(keys[..i]) * ToSet(found)
        invariant Ids(failure) == Ids(keys[..i]) - ToSet(found)
        invariant forall f :: f in failure ==> f.what == NotFoundReason
      {
        var key := keys[i];
        assert keys[..i + 1] == keys[..i] + [key];
        IdsSnoc(keys[..i], key);
        if key.id !in found {
          IdsSnoc(failure, About(key.id, NotFoundReason));
          failure := failure + [About(key.id, NotFoundReason)];
        } else {
          ToSetSnoc(success, key.id);
          success := success + [key.id];
        }
      }
      assert keys[..|keys|] == keys;
    }

    /** Every request failed in the database. */
    method AllServerErrors(keys: seq<KeyPair>) returns (failure: seq<Failure>)
      ensures |failure| == |keys| && Ids(failure) == Ids(keys)
      ensures forall f :: f in failure ==> f.what == ServerErrorReason
    {
      failure := [];
      for i := 0 to |keys|
        invariant |failure| == i && Ids(failure) == Ids(keys[..i])
        invariant forall f :: f in failure ==> f.what == ServerErrorReason
      {
        assert keys[..i + 1] == keys[..i] + [keys[i]];
        IdsSnoc(keys[..i], keys[i]);
        IdsSnoc(failure, About(keys[i].id, ServerErrorReason));
        failure := failure + [About(keys[i].id, ServerErrorReason)];
      }
      assert keys[..|keys|] == keys;
    }

    /** deleteCompReservationsHelper: in flexible mode a failed statement is only reported, not returned. */
    method DeleteHelper(keys: seq<KeyPair>, model: Model, force: bool, ok: bool)
      returns (success: seq<string>, failure: seq<Failure>, err: Error, ghost gone: seq<string>)
      requires !aborted && (force ==> keys != [])
      modifies `tx, `aborted
      ensures var refused := !force && (HasEmptyKey(keys) || keys == []);
              var found := if force then Ids(keys) * old(tx).res.Keys else ByKey(old(tx), keys);
              && aborted == (!refused && !ok)
              && Distinct(gone) && ToSet(gone) == (if refused || !ok then {} else found)
              && tx == DropRes(old(tx), ToSet(gone))
              && err == (if model.Flexible? then NoError
                         else if refused then KeyRequired else if !ok then DbError
                         else if |keys| != |gone| then NotFound else NoError)
              && (err.NoError? ==> |success| + |failure| == |keys|)
              && (err.NoError? && !refused && ok ==> KeyReport(keys, gone, success, failure))
              && (err.NoError? && (refused || !ok) ==> Reported(success, failure, Ids(keys), {}))
              && (forall f :: f in failure ==> f.what == if refused || !ok then ServerErrorReason else NotFoundReason)
    {
      success, failure := [], [];
      var locks;
      locks, err := DeleteCompReservationsTx(keys, force, ok);
      gone := locks;
      if !err.NoError? {
        assert DropRes(old(tx), {}) == old(tx);
        if model.Rigid? {
          return;
        }
        failure := AllServerErrors(keys);
        err := NoError;
      } else if |keys| != |locks| && model.Rigid? {
        err := NotFound;
      } else {
        success, failure := AccountKeys(keys, locks);
      }
    }

    method DeleteCompReservations(keys: seq<KeyPair>, model: Model, c: Calls)
      returns (success: seq<string>, failure: seq<Failure>, err: Error)
      modifies this
      ensures db == if err.NoError? then Next(old(db), Release(keys, model)) else old(db)
      ensures err.NoError? ==> |success| + |failure| == |keys|
      ensures err.NoError? ==> forall f :: f in failure ==>
        f.what == if exists i :: 0 <= i < |keys| && keys[i].what.NoKey? then ServerErrorReason else NotFoundReason
      ensures err.NoError? && (HasEmptyKey(keys) || keys == []) ==> Reported(success, failure, Ids(keys), {})
      ensures err.NoError? && !HasEmptyKey(keys) && keys != [] ==>
        exists gone :: Distinct(gone) && ToSet(gone) == ByKey(old(db), keys) && KeyReport(keys, gone, success, failure)
      ensures err.NoError? && !HasEmptyKey(keys) && keys != [] && Safe(old(db)) && OwnKeys(keys) ==>
        Reported(success, failure, Ids(keys), ByKey(old(db), keys))
      ensures err.NoError? && model.Rigid? ==>
        failure == [] && ToSet(success) == ByKey(old(db), keys) && |ByKey(old(db), keys)| == |keys|
      ensures err.NoError? ==> db.comps == old(db).comps && db.res.Keys <= old(db).res.Keys
      ensures err.NoError? ==> forall id :: id in old(db).res ==>
        if id in db.res then db.res[id] == old(db).res[id]
          && ((exists i :: 0 <= i < |keys| && keys[i].what.NoKey?)
              || forall i :: 0 <= i < |keys| ==> keys[i].what != old(db).res[id].key)
        else exists i :: 0 <= i < |keys| && keys[i].what == old(db).res[id].key
      ensures err.NoError? && (exists i :: 0 <= i < |keys| && keys[i].what.NoKey?) ==> db == old(db)
      ensures c == ALL_FINE ==> (err.NoError? <==> model.Flexible? || Presentable(keys, ByKey(old(db), keys)))
      ensures c == ALL_FINE && !err.NoError? ==>
        err == if keys == [] || (exists i :: 0 <= i < |keys| && keys[i].what.NoKey?) then KeyRequired else NotFound
    {
      success, failure := [], [];
      if !c.begin {
        return [], [], DbError;
      }
      Begin();
      ghost var gone;
      success, failure, err, gone := DeleteHelper(keys, model, false, c.delete);
      SetSize(gone);
      ReleaseTarget(db, keys, model);
      if !err.NoError? {
        Rollback();
        return;
      }
      if KeyReport(keys, gone, success, failure) {
        OwnKeysReport(db, keys, gone, success, failure);
      }
      err := Commit(c.commit);
    }

    /** Without a key, for whatever components the filter selects. */
    method DeleteCompReservationsForce(affected: seq<string>, model: Model, c: Calls)
      returns (success: seq<string>, failure: seq<Failure>, err: Error)
      requires affected == [] || Selected(db, affected)
      modifies this
      ensures db == if err.NoError? then Next(old(db), ForceRelease(affected, model)) else old(db)
      ensures err.NoError? ==>
          Reported(success, failure, ToSet(affected), Target(old(db), ForceRelease(affected, model)))
      ensures err.NoError? && model.Rigid? ==> failure == [] && ToSet(success) == ToSet(affected)
      ensures err.NoError? ==> db.comps == old(db).comps && ReservationsLeft(old(db), db, ToSet(affected))
      ensures err.NoError? ==> forall id :: id in success <==> id in affected && id in old(db).res
      ensures c == ALL_FINE ==> (err.NoError? <==>
        affected != [] && (model.Flexible? || ToSet(affected) <= old(db).res.Keys))
      ensures c == ALL_FINE ==> err.NoError? || err.NotFound?
    {
      success, failure := [], [];
      if !c.begin || !c.select {
        return [], [], DbError;
      }
      Begin();
      if affected == [] {
        return [], [], NotFound;
      }
      ghost var gone;
      success, failure, err, gone := DeleteHelper(KeysFor(affected), model, true, c.delete);
      if c.delete {
        ForceTarget(db, affected, model, gone);
      }
      if !err.NoError? {
        Rollback();
        return;
      }
      if c.delete {
        KeyReportExact(KeysFor(affected), gone, success, failure);
      }
      err := Commit(c.commit);
      InToSet(success);
    }

    method DeleteCompReservationsExpired(now: int, c: Calls) returns (xnames: seq<string>, err: Error)
      modifies this
      ensures db == if err.NoError? then Next(old(db), Expire(now)) else old(db)
      ensures err.NoError? ==> ToSet(xnames) == Expired(old(db), now) && Distinct(xnames)
      ensures err.NoError? ==> db.comps == old(db).comps && ReservationsLeft(old(db), db, ToSet(xnames))
      ensures err.NoError? ==> forall id :: id in xnames <==>
        id in old(db).res && old(db).res[id].expires.Some? && old(db).res[id].expires.value <= now
      ensures c == ALL_FINE ==> err.NoError?
    {
      if !c.begin || !c.delete {
        return [], DbError;
      }
      Begin();
      xnames := Listing(Expired(tx, now));
      tx := DropRes(tx, ToSet(xnames));
      InToSet(xnames);
      err := Commit(c.commit);
    }

    method UpdateCompReservations(keys: seq<KeyPair>, model: Model, expires: int, c: Calls)
      returns (success: seq<string>, failure: seq<Failure>, err: Error)
      modifies this
      ensures db == if err.NoError? then Next(old(db), Renew(keys, model, expires)) else old(db)
      ensures err.NoError? ==> |success| + |failure| == |keys|
      ensures err.NoError? ==> forall f :: f in failure ==>
        f.what == if exists i :: 0 <= i < |keys| && keys[i].what.NoKey? then ServerErrorReason else NotFoundReason
      ensures err.NoError? && (HasEmptyKey(keys) || keys == []) ==> Reported(success, failure, Ids(keys), {})
      ensures err.NoError? && !HasEmptyKey(keys) && keys != [] ==>
        exists found :: Distinct(found) && ToSet(found) == ByKey(old(db), keys) * Expiring(old(db))
          && KeyReport(keys, found, success, failure)
      ensures err.NoError? && !HasEmptyKey(keys) && keys != [] && Safe(old(db)) && OwnKeys(keys) ==>
        Reported(success, failure, Ids(keys), ByKey(old(db), keys) * Expiring(old(db)))
      ensures err.NoError? && model.Rigid? ==>
        failure == [] && ToSet(success) == ByKey(old(db), keys) * Expiring(old(db)) && |ToSet(success)| == |keys|
      ensures err.NoError? ==> db.comps == old(db).comps && db.res.Keys == old(db).res.Keys
      ensures err.NoError? ==> forall id :: id in db.res ==>
        db.res[id] == old(db).res[id].(expires :=
          if old(db).res[id].expires.Some? && (forall i :: 0 <= i < |keys| ==> keys[i].what.RKey?)
            && (exists i :: 0 <= i < |keys| && keys[i].what == old(db).res[id].key)
          then Some(expires) else old(db).res[id].expires)
      ensures c == ALL_FINE ==> (err.NoError? <==>
        model.Flexible? || Presentable(keys, ByKey(old(db), keys) * Expiring(old(db))))
      ensures c == ALL_FINE && !err.NoError? ==>
        err == if keys == [] || (exists i :: 0 <= i < |keys| && keys[i].what.NoKey?) then KeyRequired else NotFound
    {
      success, failure := [], [];
      if !c.begin {
        return [], [], DbError;
      }
      Begin();
      var locks;
      locks, err := UpdateCompReservationsTx(keys, expires, c.update);
      SetSize(locks);
      RenewTarget(db, keys, model, expires);
      if !err.NoError? {
        if model.Rigid? {
          Rollback();
          return;
        }
        failure := AllServerErrors(keys);
      } else if |locks| != |keys| && model.Rigid? {
        Rollback();
        return [], [], NotFound;
      } else {
        success, failure := AccountKeys(keys, locks);
        OwnKeysReport(db, keys, locks, success, failure);
      }
      err := Commit(c.commit);
    }

    // ---- Locks ----

    method SetCompLocks(affected: seq<string>, model: Model, v: bool, c: Calls)
      returns (success: seq<string>, failure: seq<Failure>, err: Error)
      requires affected == [] || Selected(db, affected)
      modifies this
      ensures db == if err.NoError? then Next(old(db), Lock(affected, model, v)) else old(db)
      ensures err.NoError? ==> Reported(success, failure, ToSet(affected), Lockable(old(db), affected, v))
      ensures err.NoError? && model.Rigid? ==> failure == [] && ToSet(success) == ToSet(affected)
      ensures err.NoError? ==> db.res == old(db).res && FlagsAfter(old(db), db, ToSet(success), Some(v), None)
      ensures err.NoError? ==> forall id :: id in success <==>
        id in affected && id in old(db).comps && id !in old(db).res
          && old(db).comps[id].locked != v && !old(db).comps[id].disabled
      ensures err.NoError? ==> LockReasonsOk(old(db), v, failure)
      ensures c == ALL_FINE ==> (err.NoError? <==>
        if model.Rigid? then affected != [] && Lockable(old(db), affected, v) == ToSet(affected)
        else Lockable(old(db), affected, v) != {})
      ensures c == ALL_FINE && !err.NoError? ==> RightError(old(db), affected, err)
      // a flexible request that fails names all it selected and, if the flags bar every one, all that is reserved
      ensures c == ALL_FINE && model.Flexible? && affected != [] && !err.NoError? ==>
        Ids(failure) == ToSet(affected) + (if SomeUnbarred(old(db), affected, v) then {} else old(db).res.Keys)
      ensures c == ALL_FINE && model.Flexible? && affected != [] && !err.NoError? ==>
        (Ids(failure) <= ToSet(affected) <==> SomeUnbarred(old(db), affected, v) || old(db).res.Keys <= ToSet(affected))
    {
      success, failure := [], [];
      if !c.begin || !c.select {
        return [], [], DbError;
      }
      Begin();
      if affected == [] {
        return [], [], NotFound;
      }
      var lockKeys;
      lockKeys, failure, err := PickLockable(affected, model, v);
      LockTarget(db, affected, model, v, ToSet(lockKeys));
      if !err.NoError? {
        Rollback();
        ghost var id :| id in affected && LockBar(db.comps[id], v).Some?;
        assert id in ToSet(affected) && id !in Lockable(db, affected, v);
        return;
      }
      ghost var bars := failure;
      var affectedIds;
      affectedIds, failure, err := LeaveOutReserved(affected, lockKeys, failure, model, v, c.read);
      if !err.NoError? {
        Rollback();
        return;
      }
      if affectedIds == [] {
        Rollback();
        assert affected[0] in ToSet(affected);
        assert lockKeys != [] ==> lockKeys[0] in ToSet(lockKeys);
        assert ToSet(affected) - {} == ToSet(affected) + {};
        return [], failure, CompReserved;
      }
      assert affectedIds[0] in ToSet(affectedIds);
      if lockKeys != [] {
        LockReasons(db, affected, v, lockKeys, bars, failure);
      }
      success, err := UpdateLocked(affectedIds, v, c.update);
      if !err.NoError? {
        Rollback();
        return;
      }
      InToSet(success);
      err := Commit(c.commit);
    }

    /** Reserved components fail; a rigid request with one ends there. With nothing left to
        look up, the read returns every reservation, and so does the failure list. */
    method LeaveOutReserved(affected: seq<string>, lockKeys: seq<string>, failure: seq<Failure>,
        model: Model, v: bool, ok: bool)
      returns (affectedIds: seq<string>, all: seq<Failure>, err: Error)
      requires tx == db && !aborted && Selected(db, affected)
      requires ToSet(lockKeys) == (set id | id in affected && LockBar(db.comps[id], v).None?)
      requires Ids(failure) == ToSet(affected) - ToSet(lockKeys)
      requires model.Rigid? ==> lockKeys != []
      modifies `aborted
      ensures aborted == !ok
      ensures ok ==> (err.NoError? <==> model.Flexible? || Lockable(db, affected, v) == ToSet(lockKeys))
      ensures ok ==> err.NoError? || err.CompReserved?
      ensures err.NoError? ==> ok && Distinct(affectedIds) && ToSet(affectedIds) == Lockable(db, affected, v)
      ensures err.NoError? && affectedIds != [] ==> Ids(all) == ToSet(affected) - Lockable(db, affected, v)
      ensures err.NoError? && model.Rigid? ==> all == failure
      ensures ok && model.Flexible? && lockKeys == [] ==> Ids(all) == ToSet(affected) + db.res.Keys
      ensures forall f :: f in all && f !in failure ==> f.what == ReservedReason && (lockKeys == [] || f.id in lockKeys)
      ensures ok && model.Flexible? && lockKeys != [] ==> Ids(all) == ToSet(affected) - Lockable(db, affected, v)
    {
      all := failure;
      affectedIds := [];
      var reservations;
      reservations, err := GetCompReservationsTx(lockKeys, ok);
      if !err.NoError? {
        return;
      }
      LockTarget(db, affected, model, v, ToSet(lockKeys));
      if |reservations| > 0 {
        assert reservations[0] in ToSet(reservations);
        if model.Rigid? {
          return [], all, CompReserved;
        }
        all := AllFail(all, reservations, {}, ReservedReason);
        InToSet(reservations);
        InToSet(lockKeys);
      }
      affectedIds := Listing(ToSet(lockKeys) - ToSet(reservations));
      ghost var left := Lockable(db, affected, v);
      assert affectedIds != [] ==> affectedIds[0] in ToSet(affectedIds);
      assert reservations == [] ==> ToSet(reservations) == {};
      assert ToSet(reservations) - {} == ToSet(reservations);
      assert lockKeys != [] ==> ToSet(reservations) == ToSet(lockKeys) - left;
      PartsAgain(ToSet(affected), ToSet(lockKeys), left);
    }

    /** Every row asked for is there to update, so the source's accounting for missing rows never runs. */
    method UpdateLocked(ids: seq<string>, v: bool, ok: bool) returns (updated: seq<string>, err: Error)
      requires !aborted && Distinct(ids) && ids != [] && ToSet(ids) <= tx.comps.Keys
      modifies `tx, `aborted
      ensures aborted == !ok && err == if ok then NoError else DbError
      ensures ok ==> tx == SetLocked(old(tx), ToSet(ids), v) && ToSet(updated) == ToSet(ids) && |updated| == |ids|
    {
      updated, err := BulkUpdateTx(ids, false, v, ok);
      if ok {
        assert ToSet(ids) * old(tx).comps.Keys == ToSet(ids);
        SetSize(ids);
        SetSize(updated);
      }
    }

    method PickLockable(affected: seq<string>, model: Model, v: bool)
      returns (lockKeys: seq<string>, failure: seq<Failure>, err: Error)
      requires tx == db && Selected(db, affected)
      ensures err.NoError? <==> model.Flexible? || forall id :: id in affected ==> LockBar(db.comps[id], v).None?
      ensures err.NoError? || Blames(db, affected, err)
      ensures err.NoError? ==> ToSet(lockKeys) == (set id | id in affected && LockBar(db.comps[id], v).None?)
      ensures err.NoError? ==> Ids(failure) == ToSet(affected) - ToSet(lockKeys)
      ensures err.NoError? && model.Rigid? ==> failure == [] && lockKeys != []
      ensures forall f :: f in failure ==> f.id in db.comps && LockBar(db.comps[f.id], v) == Some(f.what)
    {
      lockKeys, failure, err := [], [], NoError;
      for i := 0 to |affected|
        invariant err.NoError?
        invariant ToSet(lockKeys) == set id | id in affected[..i] && LockBar(db.comps[id], v).None?
        invariant Ids(failure) == ToSet(affected[..i]) - ToSet(lockKeys)
        invariant model.Rigid? ==> failure == [] && lockKeys == affected[..i]
        invariant forall f :: f in failure ==> f.id in db.comps && LockBar(db.comps[f.id], v) == Some(f.what)
      {
        var id := affected[i];
        assert id in ToSet(affected) && id !in affected[..i];
        assert affected[..i + 1] == affected[..i] + [id];
        ToSetSnoc(affected[..i], id);
        var bar := LockBar(tx.comps[id], v);
        if bar.Some? {
          if model.Rigid? {
            return [], [], match bar.value
              case DisabledReason => CompDisabled
              case UnlockedReason => CompUnlocked
              case _ => CompLocked;
          }
          IdsSnoc(failure, About(id, bar.value));
          failure := failure + [About(id, bar.value)];
        } else {
          ToSetSnoc(lockKeys, id);
          lockKeys := lockKeys + [id];
        }
      }
      assert affected[..|affected|] == affected;
      if model.Rigid? {
        forall id | id in affected ensures LockBar(db.comps[id], v).None? {
          assert id in ToSet(lockKeys);
        }
      }
    }

    /** Disable drops the components' reservations first; Repair only clears the flag. */
    method SetCompDisabled(affected: seq<string>, model: Model, disable: bool, c: Calls)
      returns (success: seq<string>, err: Error)
      requires affected == [] || Selected(db, affected)
      modifies this
      ensures db == if !err.NoError? then old(db)
                    else Next(old(db), DisableOrRepair(affected, model, disable))
      ensures err.NoError? ==> ToSet(success) == ToSet(affected) && |success| == |affected|
      ensures err.NoError? ==> FlagsAfter(old(db), db, ToSet(affected), None, Some(disable))
      ensures err.NoError? ==> ReservationsLeft(old(db), db, if disable then ToSet(affected) else {})
      ensures c == ALL_FINE ==> err == if affected != [] then NoError else NotFound
    {
      success := [];
      if !c.begin || !c.select {
        return [], DbError;
      }
      Begin();
      if affected == [] {
        return [], NotFound;
      }
      if disable {
        var done, failed;
        ghost var gone;
        done, failed, err, gone := DeleteHelper(KeysFor(affected), model, true, c.delete);
        if !err.NoError? && !err.NotFound? {
          Rollback();
          return;
        }
        DisableTarget(db, affected, model);
      }
      success, err := BulkUpdateTx(affected, true, disable, c.update);
      if !err.NoError? {
        Rollback();
        return;
      }
      assert ToSet(affected) * db.comps.Keys == ToSet(affected);
      SetSize(affected);
      SetSize(success);
      err := Commit(c.commit);
      if err.NoError? {
        DisableRows(old(db), db, affected, model, disable);
      }
    }

    /** Adds a failure for every component not in `done`. */
    method AllFail(failure: seq<Failure>, ids: seq<string>, done: set<string>, reason: Reason) returns (r: seq<Failure>)
      ensures Ids(r) == Ids(failure) + (ToSet(ids) - done)
      ensures forall f :: f in r ==> f in failure || (f.id in ids && f.id !in done && f.what == reason)
    {
      r := failure;
      for i := 0 to |ids|
        invariant Ids(r) == Ids(failure) + (ToSet(ids[..i]) - done)
        invariant forall f :: f in r ==> f in failure || (f.id in ids && f.id !in done && f.what == reason)
      {
        assert ids[..i + 1] == ids[..i] + [ids[i]];
        if ids[i] !in done {
          IdsSnoc(r, About(ids[i], reason));
          r := r + [About(ids[i], reason)];
        }
      }
      assert ids[..|ids|] == ids;
    }
  }
}
