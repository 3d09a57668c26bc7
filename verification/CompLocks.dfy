/** Component locks and reservations: the tables, the statements of one transaction,
    and what each whole operation does to the tables when it commits. */
module CompLocks {
  import opened Options
  import opened Collect

  datatype Comp = Comp(locked: bool, disabled: bool)

  /** A reservation key holds the name of the component it was made for. */
  datatype RKey = NoKey | RKey(owner: string, serial: nat)

  datatype Reservation = Reservation(expires: Option<int>, key: RKey)

  datatype Tables = Tables(comps: map<string, Comp>, res: map<string, Reservation>)

  datatype Model = Rigid | Flexible

  datatype Error =
    | NoError | DbError | NotFound | CompDisabled | CompLocked | CompUnlocked | CompReserved | KeyRequired

  datatype Reason = NotFoundReason | LockedReason | UnlockedReason | DisabledReason | ReservedReason | ServerErrorReason

  /** Something said about one component. */
  datatype About<T> = About(id: string, what: T)

  /** Why the component failed. */
  type Failure = About<Reason>

  /** One requested component and the key given for it. */
  type KeyPair = About<RKey>

  function Ids<T>(s: seq<About<T>>): (r: set<string>)
    ensures forall x :: x in r <==> exists i :: 0 <= i < |s| && s[i].id == x
  {
    set i | 0 <= i < |s| :: s[i].id
  }

  // ---- Safety ----

  /** What every transaction must leave true. */
  ghost predicate Safe(t: Tables) {
    forall id :: id in t.res ==>
      && id in t.comps
      && !t.comps[id].disabled
      && (t.res[id].expires.None? <==> t.comps[id].locked)
      && t.res[id].key.RKey? && t.res[id].key.owner == id
  }

  // ---- The tables after a statement ----

  function NewReservation(id: string, duration: int, now: int, serial: nat): Reservation {
    Reservation(if duration > 0 then Some(now + duration) else None, RKey(id, serial))
  }

  /** INSERT ... ON CONFLICT DO NOTHING. */
  function InsertRes(t: Tables, ids: set<string>, duration: int, now: int, serial: nat): Tables {
    t.(res := map id | id in t.res.Keys + ids ::
                if id in t.res then t.res[id] else NewReservation(id, duration, now, serial))
  }

  function DropRes(t: Tables, ids: set<string>): Tables { t.(res := t.res - ids) }

  function ExtendRes(t: Tables, ids: set<string>, expires: int): Tables {
    t.(res := map id | id in t.res :: if id in ids then t.res[id].(expires := Some(expires)) else t.res[id])
  }

  function SetLocked(t: Tables, ids: set<string>, v: bool): Tables {
    t.(comps := map id | id in t.comps :: if id in ids then t.comps[id].(locked := v) else t.comps[id])
  }

  function SetDisabled(t: Tables, ids: set<string>, v: bool): Tables {
    t.(comps := map id | id in t.comps :: if id in ids then t.comps[id].(disabled := v) else t.comps[id])
  }

  /** The reservations whose key is among those given. */
  function ByKey(t: Tables, keys: seq<KeyPair>): (r: set<string>)
    ensures forall id :: id in r <==> id in t.res && exists i :: 0 <= i < |keys| && keys[i].what == t.res[id].key
  {
    set id | id in t.res && (exists i :: 0 <= i < |keys| && keys[i].what == t.res[id].key)
  }

  function Expiring(t: Tables): set<string> {
    set id | id in t.res && t.res[id].expires.Some?
  }

  function Expired(t: Tables, now: int): set<string> {
    set id | id in t.res && t.res[id].expires.Some? && t.res[id].expires.value <= now
  }

  // ---- Whole operations ----

  /** The components a filter selected: rows of the component table, each once. */
  predicate Selected(t: Tables, affected: seq<string>) {
    affected != [] && Distinct(affected) && ToSet(affected) <= t.comps.Keys
  }

  /** Why a component cannot be reserved, before looking at reservations. */
  function ReserveBar(c: Comp, duration: int): Option<Reason> {
    if c.disabled then Some(DisabledReason)
    else if duration == 0 && !c.locked then Some(UnlockedReason)
    else if duration != 0 && c.locked then Some(LockedReason)
    else None
  }

  predicate CanReserve(t: Tables, id: string, duration: int) {
    id in t.comps && ReserveBar(t.comps[id], duration).None? && id !in t.res
  }

  /** Why a component cannot be locked or unlocked; being so already outranks being disabled. */
  function LockBar(c: Comp, v: bool): Option<Reason> {
    if c.locked == v then Some(if v then LockedReason else UnlockedReason)
    else if c.disabled then Some(DisabledReason)
    else None
  }

  predicate CanLock(t: Tables, id: string, v: bool) {
    id in t.comps && LockBar(t.comps[id], v).None? && id !in t.res
  }

  predicate HasEmptyKey(keys: seq<KeyPair>) {
    exists i :: 0 <= i < |keys| && keys[i].what.NoKey?
  }

  datatype Op =
    | Reserve(affected: seq<string>, model: Model, duration: int, now: int, serial: nat)
    | Release(keys: seq<KeyPair>, model: Model)
    | ForceRelease(affected: seq<string>, model: Model)
    | Renew(keys: seq<KeyPair>, model: Model, expires: int)
    | Expire(now: int)
    | Lock(affected: seq<string>, model: Model, locked: bool)
    | Disable(affected: seq<string>, model: Model)
    | Repair(affected: seq<string>, model: Model)
    | AddComponent(id: string)
    | DropComponent(id: string)

  /** The components a committed Reserve, Release, ... changes; a rigid operation that would
      leave one of its targets out changes none. */
  function Target(t: Tables, op: Op): set<string> {
    match op
    case Reserve(affected, model, duration, _, _) =>
      var ok := set id | id in affected && CanReserve(t, id, duration);
      if Selected(t, affected) && (model.Flexible? || ok == ToSet(affected)) then ok else {}
    case Release(keys, model) =>
      var found := ByKey(t, keys);
      if HasEmptyKey(keys) || (model.Rigid? && |found| != |keys|) then {} else found
    case ForceRelease(affected, model) =>
      var found := ToSet(affected) * t.res.Keys;
      if Selected(t, affected) && (model.Flexible? || found == ToSet(affected)) then found else {}
    case Renew(keys, model, _) =>
      var found := ByKey(t, keys) * Expiring(t);
      if HasEmptyKey(keys) || (model.Rigid? && |found| != |keys|) then {} else found
    case Expire(now) => Expired(t, now)
    case Lock(affected, model, v) =>
      var ok := set id | id in affected && CanLock(t, id, v);
      if Selected(t, affected) && (model.Flexible? || ok == ToSet(affected)) then ok else {}
    case Disable(affected, _) => if Selected(t, affected) then ToSet(affected) else {}
    case Repair(affected, _) => if Selected(t, affected) then ToSet(affected) else {}
    case AddComponent(id) => if id in t.comps then {} else {id}
    case DropComponent(id) => {id}
  }

  function Next(t: Tables, op: Op): Tables {
    var ids := Target(t, op);
    match op
    case Reserve(_, _, duration, now, serial) => InsertRes(t, ids, duration, now, serial)
    case Release(_, _) => DropRes(t, ids)
    case ForceRelease(_, _) => DropRes(t, ids)
    case Renew(_, _, expires) => ExtendRes(t, ids, expires)
    case Expire(_) => DropRes(t, ids)
    case Lock(_, _, v) => SetLocked(t, ids, v)
    case Disable(_, _) => SetDisabled(DropRes(t, ids), ids, true)
    case Repair(_, _) => SetDisabled(t, ids, false)
    case AddComponent(id) => if ids == {} then t else t.(comps := t.comps[id := Comp(false, false)])
    case DropComponent(id) => Tables(t.comps - ids, t.res - ids)
  }

  // ---- What bars a component ----

  /** Why a component cannot be reserved: what outranks what. */
  lemma ReserveBarMeans(c: Comp, duration: int)
    ensures ReserveBar(c, duration).None? <==> !c.disabled && (c.locked <==> duration == 0)
    ensures ReserveBar(c, duration).Some? ==>
      ReserveBar(c, duration).value == if c.disabled then DisabledReason
        else if c.locked then LockedReason else UnlockedReason
  {
  }

  lemma LockBarMeans(c: Comp, v: bool)
    ensures LockBar(c, v).None? <==> c.locked != v && !c.disabled
    ensures LockBar(c, v).Some? ==>
      LockBar(c, v).value == if c.locked != v then DisabledReason else if v then LockedReason else UnlockedReason
  {
  }

  /** A reservation without expiry that is made for an unlocked component. */
  ghost predicate BadDuration(t: Tables, op: Op) {
    op.Reserve? && op.duration < 0 && Target(t, op) != {}
  }

  /** Every operation keeps the tables safe, except exactly a Reserve with a negative
      duration that reserves something. */
  lemma NextKeepsSafe(t: Tables, op: Op)
    requires Safe(t)
    ensures Safe(Next(t, op)) <==> !BadDuration(t, op)
  {
    var ids, t' := Target(t, op), Next(t, op);
    if op.Reserve? && ids != {} {
      var id :| id in ids;
      assert CanReserve(t, id, op.duration);
      assert t'.res[id] == NewReservation(id, op.duration, op.now, op.serial);
      forall x | x in ids ensures CanReserve(t, x, op.duration) {
      }
    }
    if op.Lock? {
      assert ids !! t.res.Keys;
    }
  }

  function Run(t: Tables, ops: seq<Op>): Tables {
    if ops == [] then t else Next(Run(t, ops[..|ops| - 1]), ops[|ops| - 1])
  }

  const EMPTY: Tables := Tables(map[], map[])

  /** Over every run whose reservations have non-negative durations: no reserved component is
      disabled, a lasting reservation is on a locked one and an expiring one on an unlocked one. */
  lemma {:induction false} RunsAreSafe(ops: seq<Op>)
    requires forall i :: 0 <= i < |ops| && ops[i].Reserve? ==> ops[i].duration >= 0
    ensures Safe(Run(EMPTY, ops))
  {
    if ops != [] {
      RunsAreSafe(ops[..|ops| - 1]);
      NextKeepsSafe(Run(EMPTY, ops[..|ops| - 1]), ops[|ops| - 1]);
    }
  }

  /** A negative duration makes a lasting reservation on an unlocked component. */
  lemma NegativeDurationIsUnsafe()
    ensures !Safe(Run(EMPTY, [AddComponent("x"), Reserve(["x"], Rigid, -1, 0, 0)]))
  {
    var ops := [AddComponent("x"), Reserve(["x"], Rigid, -1, 0, 0)];
    var t := Tables(map["x" := Comp(false, false)], map[]);
    assert ops[..1][..0] == [] && Run(EMPTY, ops[..1]) == t;
    assert ToSet(["x"]) == {"x"} && CanReserve(t, "x", -1);
    assert (set id | id in ["x"] && CanReserve(t, id, -1)) == {"x"};
    assert "x" in Target(t, ops[1]);
    NextKeepsSafe(t, ops[1]);
  }
}
