/** The group and partition operations as transactions. An INSERT of memberships goes row by row and
    fails as a whole on the first row the database refuses. */
module GroupStore {
  import opened Collect
  import opened Text
  import opened Groups

  datatype Error =
    | NoError | DbError | BadArg | DuplicateKey | ExclusiveGroup | ExclusivePartition | NoComponent | NoSuchGroup

  /** Which database calls of one operation succeed. */
  datatype Calls = Calls(begin: bool, group: bool, delete: bool, members: bool, commit: bool)

  const ALL_FINE := Calls(true, true, true, true, true)

  /** The error names a real reason why the rows are refused. */
  ghost predicate Refusal(s: State, g: GName, ns: string, ids: seq<string>, err: Error) {
    match err
    case DuplicateKey => !Distinct(ids) || exists id :: id in ids && Key(id, g) in s.members
    case ExclusivePartition => ns == PARTITION_NS &&
      exists id :: id in ids && Key(id, g) !in s.members && Taken(s, id, ns)
    case ExclusiveGroup => ns != PARTITION_NS && exists id :: id in ids && Key(id, g) !in s.members && Taken(s, id, ns)
    case NoComponent => (exists id :: id in ids && id !in s.comps) &&
      Distinct(ids) && forall id :: id in ids ==> !Taken(s, id, ns)
    case _ => false
  }

  class Store {
    var db: State
    var tx: State
    var aborted: bool

    constructor ()
      ensures db == EMPTY
    {
      db, tx, aborted := EMPTY, EMPTY, false;
    }

    method Begin()
      modifies `tx, `aborted
      ensures tx == db && !aborted
    {
      tx, aborted := db, false;
    }

    method Rollback()
      modifies `tx
      ensures tx == db
    {
      tx := db;
    }

    method Commit(ok: bool) returns (err: Error)
      modifies `db
      ensures err == if ok && !aborted then NoError else DbError
      ensures db == if err.NoError? then tx else old(db)
    {
      if !ok || aborted {
        return DbError;
      }
      db := tx;
      return NoError;
    }

    // ---- Statements ----

    /** All rows or none; unknown components are found last. */
    method InsertMembersTx(g: GName, ns: string, ids: seq<string>, ok: bool) returns (err: Error)
      requires !aborted
      modifies `tx, `aborted
      ensures aborted <==> !err.NoError?
      ensures ids == [] ==> err.NoError?
      ensures err.NoError? ==> CanJoin(old(tx), g, ns, ids)
      ensures ok && CanJoin(old(tx), g, ns, ids) ==> err.NoError?
      ensures !err.NoError? && !err.DbError? ==> Refusal(old(tx), g, ns, ids, err)
      ensures err.DbError? ==> !ok
      ensures tx == if err.NoError? then Joined(old(tx), g, ns, ids) else old(tx)
    {
      if ids == [] {
        assert Joined(tx, g, ns, ids).members == tx.members;
        return NoError;
      }
      if !ok {
        aborted := true;
        return DbError;
      }
      var rows;
      rows, err := InsertRows(g, ns, ids);
      if err.NoError? && exists id :: id in ids && id !in tx.comps {
        err := NoComponent;
      }
      if !err.NoError? {
        aborted := true;
        return;
      }
      tx := rows;
    }

    /** One row after the other; a primary key conflict is reported before one on the namespace. */
    method InsertRows(g: GName, ns: string, ids: seq<string>) returns (rows: State, err: Error)
      ensures err.NoError? <==>
          Distinct(ids) && forall id :: id in ids ==> Key(id, g) !in tx.members && !Taken(tx, id, ns)
      ensures err.NoError? ==> rows == Joined(tx, g, ns, ids)
      ensures !err.NoError? ==> Refusal(tx, g, ns, ids, err) && !err.NoComponent?
    {
      rows := tx;
      assert Joined(tx, g, ns, ids[..0]).members == tx.members;
      for i := 0 to |ids|
        invariant rows == Joined(tx, g, ns, ids[..i])
        invariant Distinct(ids[..i])
        invariant forall id :: id in ids[..i] ==> Key(id, g) !in tx.members && !Taken(tx, id, ns)
      {
        var id := ids[i];
        assert id in ids && ids[..i + 1] == ids[..i] + [id];
        if Key(id, g) in rows.members {
          assert id in ids[..i] ==> !Distinct(ids);
          return rows, DuplicateKey;
        }
        TakenAfter(tx, g, ns, ids[..i], id);
        if Taken(rows, id, ns) {
          return rows, if ns == PARTITION_NS then ExclusivePartition else ExclusiveGroup;
        }
        JoinedSnoc(tx, g, ns, ids[..i], id);
        rows := rows.(members := rows.members[Key(id, g) := ns]);
      }
      assert ids[..|ids|] == ids;
      err := NoError;
    }

    /** The row for a new, still empty group; a name already used is a duplicate key. */
    method InsertEmptyTx(g: GName, excl: string, nameOk: bool, ok: bool) returns (err: Error)
      requires !aborted
      modifies `tx, `aborted
      ensures err.NoError? <==> nameOk && ok && g !in old(tx).groups
      ensures err.BadArg? <==> !nameOk
      ensures err.DuplicateKey? <==> nameOk && ok && g in old(tx).groups
      ensures tx == if err.NoError? then old(tx).(groups := old(tx).groups[g := excl]) else old(tx)
      ensures err.NoError? ==> !aborted
      ensures err.NoError? || err.BadArg? || err.DbError? || err.DuplicateKey?
    {
      if !nameOk {
        return BadArg;
      }
      if !ok || g in tx.groups {
        aborted := true;
        return if ok then DuplicateKey else DbError;
      }
      tx := tx.(groups := tx.groups[g := excl]);
      return NoError;
    }

    // ---- Operations ----

    /** InsertGroup and InsertPartition: name and exclusive group are lower-cased and checked first;
        idsOk says whether the members are well-formed names. */
    method Insert(kind: Kind, name: string, exclusive: string, ids: seq<string>, nameOk: bool, idsOk: bool, c: Calls)
      returns (inserted: string, err: Error)
      requires kind.Partition? ==> exclusive == ""
      requires kind.Group? ==> (nameOk <==> ValidGroup(GName(kind, Lower(name)), Lower(exclusive)))
      modifies this
      ensures var op := Groups.Insert(GName(kind, Lower(name)), Lower(exclusive), ids);
        && db == (if err.NoError? then Next(old(db), op) else old(db))
        && (err.NoError? ==> Allowed(old(db), op) && inserted == Lower(name))
        && (c == ALL_FINE ==> (err.NoError? <==> nameOk && idsOk && Allowed(old(db), op)))
    {
      inserted := "";
      if !c.begin {
        return "", DbError;
      }
      Begin();
      var g, excl := GName(kind, Lower(name)), Lower(exclusive);
      if !idsOk {
        Rollback();
        return "", BadArg;
      }
      err := InsertEmptyTx(g, excl, nameOk, c.group);
      if !err.NoError? {
        Rollback();
        return;
      }
      assert ValidGroup(g, excl);
      var ns := Namespace(g, excl);
      SameTaken(db, tx);
      err := InsertMembersTx(g, ns, ids, c.members);
      if !err.NoError? {
        Rollback();
        return;
      }
      err := Commit(c.commit);
      if err.NoError? {
        inserted := Lower(name);
      }
    }

    /** AddGroupMember and AddPartitionMember. */
    method AddMember(kind: Kind, name: string, id: string, idOk: bool, c: Calls) returns (err: Error)
      modifies this
      ensures var op := Groups.AddMember(GName(kind, Lower(name)), id);
        && db == (if err.NoError? then Next(old(db), op) else old(db))
        && (err.NoError? ==> Allowed(old(db), op))
        && (c == ALL_FINE ==> (err.NoError? <==> idOk && Allowed(old(db), op)))
        && (c == ALL_FINE ==> (err.NoSuchGroup? <==> idOk && op.g !in old(db).groups))
    {
      if !idOk {
        return BadArg;
      }
      if !c.begin {
        return DbError;
      }
      Begin();
      var g := GName(kind, Lower(name));
      if !c.group || g !in tx.groups {
        Rollback();
        return if !c.group then DbError else NoSuchGroup;
      }
      err := InsertMembersTx(g, Namespace(g, tx.groups[g]), [id], c.members);
      if !err.NoError? {
        Rollback();
        return;
      }
      err := Commit(c.commit);
    }

    /** DeleteGroupMember and DeletePartitionMember. */
    method DeleteMember(kind: Kind, name: string, id: string, c: Calls) returns (didDelete: bool, err: Error)
      modifies this
      ensures var op := Groups.DeleteMember(GName(kind, Lower(name)), id);
        && db == (if err.NoError? then Next(old(db), op) else old(db))
        && (err.NoError? ==> Allowed(old(db), op) && (didDelete <==> id in MembersOf(old(db), op.g)))
        && (c == ALL_FINE ==> (err.NoError? <==> Allowed(old(db), op)))
    {
      didDelete := false;
      if !c.begin {
        return false, DbError;
      }
      Begin();
      var g := GName(kind, Lower(name));
      if !c.group || g !in tx.groups {
        Rollback();
        return false, if !c.group then DbError else NoSuchGroup;
      }
      if !c.delete {
        Rollback();
        return false, DbError;
      }
      didDelete := Key(id, g) in tx.members;
      tx := Left(tx, {Key(id, g)});
      err := Commit(c.commit);
    }

    /** Takes all members out and puts the given ones in. */
    method SetGroupMembers(name: string, ids: seq<string>, idsOk: bool, c: Calls) returns (err: Error)
      modifies this
      ensures var op := SetMembers(GName(Group, Lower(name)), ids);
        && db == (if err.NoError? then Next(old(db), op) else old(db))
        && (err.NoError? ==> Allowed(old(db), op))
        && (c == ALL_FINE ==> (err.NoError? <==> idsOk && Allowed(old(db), op)))
    {
      if !idsOk {
        return BadArg;
      }
      if !c.begin {
        return DbError;
      }
      Begin();
      var g := GName(Group, Lower(name));
      if !c.group {
        return DbError;
      }
      if g !in tx.groups {
        Rollback();
        return NoSuchGroup;
      }
      var ns := Namespace(g, tx.groups[g]);
      if !c.delete {
        Rollback();
        return DbError;
      }
      tx := Left(tx, AllKeys(tx, g));
      err := InsertMembersTx(g, ns, ids, c.members);
      if !err.NoError? {
        Rollback();
        return;
      }
      err := Commit(c.commit);
    }

    /** DeleteGroup and DeletePartition, one statement each; memberships go along. */
    method Delete(kind: Kind, name: string, ok: bool) returns (didDelete: bool, err: Error)
      modifies `db
      ensures err == if ok then NoError else DbError
      ensures db == if ok then Next(old(db), Groups.Delete(GName(kind, Lower(name)))) else old(db)
      ensures didDelete <==> ok && GName(kind, Lower(name)) in old(db).groups
    {
      if !ok {
        return false, DbError;
      }
      var g := GName(kind, Lower(name));
      didDelete := g in db.groups;
      db := DropGroup(db, g);
      return didDelete, NoError;
    }
  }

  lemma JoinedSnoc(s: State, g: GName, ns: string, ids: seq<string>, id: string)
    requires Key(id, g) !in s.members
    ensures Joined(s, g, ns, ids + [id]).members == Joined(s, g, ns, ids).members[Key(id, g) := ns]
  {
  }

  /** A component not yet joining is taken after other rows only if it was before. */
  lemma TakenAfter(s: State, g: GName, ns: string, ids: seq<string>, id: string)
    requires Key(id, g) !in Joined(s, g, ns, ids).members
    ensures Taken(Joined(s, g, ns, ids), id, ns) <==> Taken(s, id, ns)
  {
    var t := Joined(s, g, ns, ids);
    if k :| k in t.members && k.comp == id && t.members[k] == ns {
      assert k in s.members;
    }
    if k :| k in s.members && k.comp == id && s.members[k] == ns {
      assert k in t.members;
    }
  }
}
