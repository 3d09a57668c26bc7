/** Groups and partitions: memberships are rows with a namespace string, and one uniqueness
    constraint on (component, namespace) is all that keeps exclusive groups and partitions apart. */
module Groups {
  import opened Collect

  datatype Kind = Group | Partition

  /** What identifies a row of the group table: names are unique per kind. */
  datatype GName = GName(kind: Kind, name: string)

  datatype Key = Key(comp: string, group: GName)

  /** Per group its exclusive-group name, "" for none; per membership its namespace. */
  datatype State = State(comps: set<string>, groups: map<GName, string>, members: map<Key, string>)

  const EMPTY := State({}, map[], map[])

  // ---- Names and namespaces ----

  predicate FieldChar(c: char) {
    'a' <= c <= 'z' || '0' <= c <= '9' || c == '-' || c == ':' || c == '.' || c == '_'
  }

  predicate ValidField(f: string) { f != "" && forall i :: 0 <= i < |f| ==> FieldChar(f[i]) }

  predicate ValidGroup(g: GName, excl: string) {
    match g.kind
    case Group => ValidField(g.name) && (excl == "" || ValidField(excl))
    case Partition => excl == ""
  }

  const PARTITION_NS := "%%partition%%"

  function Namespace(g: GName, excl: string): string {
    if g.kind.Partition? then PARTITION_NS else if excl != "" then "%" + excl + "%" else g.name
  }

  /** Two groups a component must not be in at once, or one and the same. */
  predicate Clash(g: GName, excl: string, h: GName, hexcl: string) {
    || g == h
    || (g.kind.Partition? && h.kind.Partition?)
    || (g.kind.Group? && h.kind.Group? && excl != "" && excl == hexcl)
  }

  /** The namespace strings are equal exactly for groups that clash. */
  lemma NamespaceIsClash(g: GName, excl: string, h: GName, hexcl: string)
    requires ValidGroup(g, excl) && ValidGroup(h, hexcl) && (g == h ==> excl == hexcl)
    ensures Namespace(g, excl) == Namespace(h, hexcl) <==> Clash(g, excl, h, hexcl)
  {
    NamespaceShape(g, excl);
    NamespaceShape(h, hexcl);
    if Namespace(g, excl) == Namespace(h, hexcl) && excl != "" && hexcl != "" {
      assert excl == Namespace(g, excl)[1..|excl| + 1];
      assert hexcl == Namespace(h, hexcl)[1..|hexcl| + 1];
    }
  }

  /** How many '%' a namespace starts with tells what kind of group it is for. */
  lemma NamespaceShape(g: GName, excl: string)
    requires ValidGroup(g, excl)
    ensures var ns := Namespace(g, excl);
      && |ns| >= 1
      && (ns[0] == '%' <==> g.kind.Partition? || excl != "")
      && (ns[0] == '%' ==> |ns| >= 2 && (ns[1] == '%' <==> g.kind.Partition?))
  {
    if g.kind.Group? && excl != "" {
      assert Namespace(g, excl)[1] == excl[0];
    }
  }

  // ---- What the operations do ----

  function MembersOf(s: State, g: GName): (r: set<string>)
    ensures forall c :: c in r <==> Key(c, g) in s.members
  {
    set k | k in s.members && k.group == g :: k.comp
  }

  function Joined(s: State, g: GName, ns: string, ids: seq<string>): State {
    s.(members := map k | k in s.members.Keys + KeysOf(g, ids) :: if k in s.members then s.members[k] else ns)
  }

  function KeysOf(g: GName, ids: seq<string>): (r: set<Key>)
    ensures forall k :: k in r <==> k.group == g && k.comp in ids
  {
    set id | id in ids :: Key(id, g)
  }

  function Left(s: State, keys: set<Key>): State { s.(members := s.members - keys) }

  /** Deleting from the group or component table takes the memberships along. */
  function DropGroup(s: State, g: GName): State {
    State(s.comps, s.groups - {g}, map k | k in s.members && k.group != g :: s.members[k])
  }

  function DropComp(s: State, id: string): State {
    State(s.comps - {id}, s.groups, map k | k in s.members && k.comp != id :: s.members[k])
  }

  /** Some row has the component in the namespace already. */
  predicate Taken(s: State, id: string, ns: string) {
    exists k :: k in s.members && k.comp == id && s.members[k] == ns
  }

  /** When the database accepts the new rows. */
  predicate CanJoin(s: State, g: GName, ns: string, ids: seq<string>) {
    && Distinct(ids)
    && forall id :: id in ids ==> id in s.comps && Key(id, g) !in s.members && !Taken(s, id, ns)
  }

  datatype Op =
    | AddComponent(id: string)
    | DropComponent(id: string)
    | Insert(g: GName, excl: string, ids: seq<string>)
    | AddMember(g: GName, id: string)
    | DeleteMember(g: GName, id: string)
    | SetMembers(g: GName, ids: seq<string>)
    | Delete(g: GName)

  function Ns(s: State, g: GName): string {
    if g in s.groups then Namespace(g, s.groups[g]) else ""
  }

  /** When an operation goes through. */
  predicate Allowed(s: State, op: Op) {
    match op
    case Insert(g, excl, ids) => g !in s.groups && ValidGroup(g, excl) && CanJoin(s, g, Namespace(g, excl), ids)
    case AddMember(g, id) => g in s.groups && CanJoin(s, g, Ns(s, g), [id])
    case DeleteMember(g, _) => g in s.groups
    case SetMembers(g, ids) => g in s.groups && CanJoin(Left(s, AllKeys(s, g)), g, Ns(s, g), ids)
    case _ => true
  }

  function AllKeys(s: State, g: GName): set<Key> { set k | k in s.members && k.group == g }

  function Next(s: State, op: Op): State {
    if !Allowed(s, op) then s else
      match op
      case AddComponent(id) => s.(comps := s.comps + {id})
      case DropComponent(id) => DropComp(s, id)
      case Insert(g, excl, ids) => Joined(s.(groups := s.groups[g := excl]), g, Namespace(g, excl), ids)
      case AddMember(g, id) => Joined(s, g, Ns(s, g), [id])
      case DeleteMember(g, id) => Left(s, {Key(id, g)})
      case SetMembers(g, ids) => Joined(Left(s, AllKeys(s, g)), g, Ns(s, g), ids)
      case Delete(g) => DropGroup(s, g)
  }

  function Run(s: State, ops: seq<Op>): State {
    if ops == [] then s else Next(Run(s, ops[..|ops| - 1]), ops[|ops| - 1])
  }

  // ---- Exclusivity ----

  ghost predicate GroupsValid(s: State) { forall g :: g in s.groups ==> ValidGroup(g, s.groups[g]) }

  ghost predicate RowsValid(s: State) {
    forall k :: k in s.members ==>
      k.comp in s.comps && k.group in s.groups && s.members[k] == Namespace(k.group, s.groups[k.group])
  }

  /** The table's UNIQUE (component_id, group_namespace). */
  ghost predicate Unique(s: State) {
    forall j, k :: j in s.members && k in s.members && j.comp == k.comp && s.members[j] == s.members[k] ==> j == k
  }

  ghost predicate Inv(s: State) { GroupsValid(s) && RowsValid(s) && Unique(s) }

  lemma JoinedInv(s: State, g: GName, ids: seq<string>)
    requires Inv(s) && g in s.groups && CanJoin(s, g, Ns(s, g), ids)
    ensures Inv(Joined(s, g, Ns(s, g), ids))
  {
    var ns := Ns(s, g);
    forall k | k in s.members && k.comp in ids ensures s.members[k] != ns {
      assert s.members[k] == ns ==> Taken(s, k.comp, ns);
    }
  }

  lemma InvNext(s: State, op: Op)
    requires Inv(s)
    ensures Inv(Next(s, op))
  {
    if Allowed(s, op) {
      match op
      case Insert(g, excl, ids) =>
        var t := s.(groups := s.groups[g := excl]);
        assert Inv(t) && Ns(t, g) == Namespace(g, excl);
        assert CanJoin(t, g, Ns(t, g), ids) by { SameTaken(s, t); }
        JoinedInv(t, g, ids);
      case AddMember(g, id) => JoinedInv(s, g, [id]);
      case SetMembers(g, ids) => JoinedInv(Left(s, AllKeys(s, g)), g, ids);
      case _ =>
    }
  }

  lemma SameTaken(s: State, t: State)
    requires s.members == t.members
    ensures forall id, ns :: Taken(s, id, ns) <==> Taken(t, id, ns)
  {
  }

  lemma {:induction false} InvRun(ops: seq<Op>)
    ensures Inv(Run(EMPTY, ops))
  {
    if ops != [] {
      InvRun(ops[..|ops| - 1]);
      InvNext(Run(EMPTY, ops[..|ops| - 1]), ops[|ops| - 1]);
    }
  }

  /** In every run a component is in at most one partition, and in at most one group of each
      exclusive-group name. */
  lemma {:induction false} AtMostOne(ops: seq<Op>, c: string, g: GName, h: GName)
    requires var s := Run(EMPTY, ops); Key(c, g) in s.members && Key(c, h) in s.members && g != h
    ensures var s := Run(EMPTY, ops);
      && g in s.groups && h in s.groups
      && !(g.kind.Partition? && h.kind.Partition?)
      && !(g.kind.Group? && h.kind.Group? && s.groups[g] != "" && s.groups[g] == s.groups[h])
  {
    var s := Run(EMPTY, ops);
    InvRun(ops);
    assert Key(c, g).group in s.groups && Key(c, h).group in s.groups;
    NamespaceIsClash(g, s.groups[g], h, s.groups[h]);
  }

  /** The component is in a group that clashes with g; or, with `others`, in one other than g. */
  predicate Blocked(s: State, g: GName, id: string, others: bool)
    requires g in s.groups
  {
    exists h :: h in s.groups && Clash(g, s.groups[g], h, s.groups[h]) && Key(id, h) in s.members && (others ==> h != g)
  }

  lemma TakenIsBlocked(s: State, g: GName, id: string)
    requires Inv(s) && g in s.groups
    ensures Key(id, g) in s.members || Taken(s, id, Ns(s, g)) <==> Blocked(s, g, id, false)
  {
    if Taken(s, id, Ns(s, g)) {
      var k :| k in s.members && k.comp == id && s.members[k] == Ns(s, g);
      NamespaceIsClash(g, s.groups[g], k.group, s.groups[k.group]);
      assert k == Key(id, k.group);
    }
    if h :| h in s.groups && Clash(g, s.groups[g], h, s.groups[h]) && Key(id, h) in s.members {
      NamespaceIsClash(g, s.groups[g], h, s.groups[h]);
      assert s.members[Key(id, h)] == Ns(s, g);
    }
  }

  /** Nothing else is ruled out: over every run, components can join a group exactly when they are
      known, named once, and neither in it nor in a group that shuts it out: another partition, or one
      with the same exclusive-group name. */
  lemma JoinRule(ops: seq<Op>, g: GName, ids: seq<string>)
    requires g in Run(EMPTY, ops).groups
    ensures var s := Run(EMPTY, ops);
      CanJoin(s, g, Ns(s, g), ids) <==>
        Distinct(ids) && forall id :: id in ids ==> id in s.comps && !Blocked(s, g, id, false)
    ensures var s := Run(EMPTY, ops);
      CanJoin(s, g, Ns(s, g), ids) <==>
        && Distinct(ids) && (forall id :: id in ids ==> id in s.comps)
        && forall id, h :: id in ids && h in s.groups && Key(id, h) in s.members ==>
            h != g && !(g.kind.Partition? && h.kind.Partition?)
            && !(g.kind.Group? && h.kind.Group? && s.groups[g] != "" && s.groups[g] == s.groups[h])
  {
    InvRun(ops);
    forall id ensures var s := Run(EMPTY, ops);
      Key(id, g) in s.members || Taken(s, id, Ns(s, g)) <==> Blocked(s, g, id, false)
    {
      TakenIsBlocked(Run(EMPTY, ops), g, id);
    }
  }

  /** Setting the members installs exactly the given components or changes nothing, and touches no
      other group. */
  lemma {:induction false} SetInstallsExactly(ops: seq<Op>, g: GName, ids: seq<string>)
    requires g in Run(EMPTY, ops).groups
    ensures var s, t := Run(EMPTY, ops), Next(Run(EMPTY, ops), SetMembers(g, ids));
      && (if Allowed(s, SetMembers(g, ids)) then MembersOf(t, g) == ToSet(ids) else t == s)
      && (forall h :: h != g ==> MembersOf(t, h) == MembersOf(s, h))
      && t.groups == s.groups && t.comps == s.comps
  {
    var s, t := Run(EMPTY, ops), Next(Run(EMPTY, ops), SetMembers(g, ids));
    forall h | h != g ensures MembersOf(t, h) == MembersOf(s, h) {
      forall c ensures Key(c, h) in t.members <==> Key(c, h) in s.members {
      }
    }
    if Allowed(s, SetMembers(g, ids)) {
      forall c ensures c in MembersOf(t, g) <==> c in ids {
        assert Key(c, g) in t.members <==> c in ids;
      }
    }
  }

  /** It is refused exactly for an unknown or repeated component, or one in another group that
      clashes; being a member already is no obstacle. */
  lemma SetRule(ops: seq<Op>, g: GName, ids: seq<string>)
    requires g in Run(EMPTY, ops).groups
    ensures var s := Run(EMPTY, ops);
      Allowed(s, SetMembers(g, ids)) <==>
        Distinct(ids) && forall id :: id in ids ==> id in s.comps && !Blocked(s, g, id, true)
    ensures var s := Run(EMPTY, ops);
      Allowed(s, SetMembers(g, ids)) <==>
        && Distinct(ids) && (forall id :: id in ids ==> id in s.comps)
        && forall id, h :: id in ids && h in s.groups && h != g && Key(id, h) in s.members ==>
            !(g.kind.Partition? && h.kind.Partition?)
            && !(g.kind.Group? && h.kind.Group? && s.groups[g] != "" && s.groups[g] == s.groups[h])
  {
    InvRun(ops);
    forall id ensures var s := Run(EMPTY, ops);
      var t := Left(s, AllKeys(s, g));
      Key(id, g) in t.members || Taken(t, id, Ns(t, g)) <==> Blocked(s, g, id, true)
    {
      LeftIsBlocked(Run(EMPTY, ops), g, id);
    }
  }

  lemma LeftIsBlocked(s: State, g: GName, id: string)
    requires Inv(s) && g in s.groups
    ensures var t := Left(s, AllKeys(s, g));
      Key(id, g) in t.members || Taken(t, id, Ns(t, g)) <==> Blocked(s, g, id, true)
  {
    var t := Left(s, AllKeys(s, g));
    TakenIsBlocked(t, g, id);
    forall h ensures Key(id, h) in t.members <==> Key(id, h) in s.members && h != g {
    }
  }

  // ---- The other operations, by their members ----

  /** Every group other than g has the members it had; components and group names stay. */
  ghost predicate OnlyMembersOf(s: State, t: State, g: GName) {
    t.comps == s.comps && t.groups == s.groups
    && forall k: Key :: k.group != g ==>
        (k in t.members <==> k in s.members) && (k in s.members ==> t.members[k] == s.members[k])
  }

  /** Adding a member adds this one, unless it is unknown or shut out; then nothing changes. */
  lemma AddMemberMeans(ops: seq<Op>, g: GName, id: string)
    requires g in Run(EMPTY, ops).groups
    ensures var s, t := Run(EMPTY, ops), Next(Run(EMPTY, ops), AddMember(g, id));
      && OnlyMembersOf(s, t, g)
      && (if id in s.comps && forall h :: h in s.groups && Key(id, h) in s.members ==>
               h != g && !(g.kind.Partition? && h.kind.Partition?)
               && !(g.kind.Group? && h.kind.Group? && s.groups[g] != "" && s.groups[g] == s.groups[h])
          then MembersOf(t, g) == MembersOf(s, g) + {id} else t == s)
  {
    JoinRule(ops, g, [id]);
    var s, t := Run(EMPTY, ops), Next(Run(EMPTY, ops), AddMember(g, id));
    assert id in [id];
    if Allowed(s, AddMember(g, id)) {
      assert forall c :: Key(c, g) in t.members <==> Key(c, g) in s.members || c == id;
    }
  }

  /** Deleting a member takes out this one and no other. */
  lemma DeleteMemberMeans(s: State, g: GName, id: string)
    requires g in s.groups
    ensures var t := Next(s, DeleteMember(g, id));
      OnlyMembersOf(s, t, g) && MembersOf(t, g) == MembersOf(s, g) - {id}
  {
    var t := Next(s, DeleteMember(g, id));
    assert forall c :: Key(c, g) in t.members <==> Key(c, g) in s.members && c != id;
  }

  /** Deleting a group takes out its members and no other's. */
  lemma DeleteMeans(s: State, g: GName)
    ensures var t := Next(s, Delete(g));
      && t.comps == s.comps && t.groups == s.groups - {g} && MembersOf(t, g) == {}
      && forall h :: h != g ==> MembersOf(t, h) == MembersOf(s, h)
  {
    var t := Next(s, Delete(g));
    assert MembersOf(t, g) == {};
    forall h | h != g ensures MembersOf(t, h) == MembersOf(s, h) {
      assert forall c :: Key(c, h) in t.members <==> Key(c, h) in s.members;
    }
  }

  /** A new group comes with exactly the given members, or nothing changes: when there is such a group, a
      name is not valid, or a component is unknown, repeated or shut out. */
  lemma InsertMeans(ops: seq<Op>, g: GName, excl: string, ids: seq<string>)
    ensures var s, t := Run(EMPTY, ops), Next(Run(EMPTY, ops), Insert(g, excl, ids));
      if g !in s.groups && ValidGroup(g, excl) && Distinct(ids) && (forall id :: id in ids ==> id in s.comps)
         && (forall id, h :: id in ids && h in s.groups && Key(id, h) in s.members ==>
               !(g.kind.Partition? && h.kind.Partition?)
               && !(g.kind.Group? && h.kind.Group? && excl != "" && excl == s.groups[h]))
      then
        && t.comps == s.comps && t.groups == s.groups[g := excl] && MembersOf(t, g) == ToSet(ids)
        && forall h :: h != g ==> MembersOf(t, h) == MembersOf(s, h)
      else t == s
  {
    var s, t := Run(EMPTY, ops), Next(Run(EMPTY, ops), Insert(g, excl, ids));
    InvRun(ops);
    if g !in s.groups && ValidGroup(g, excl) {
      forall id ensures Taken(s, id, Namespace(g, excl)) <==> Blocked(s.(groups := s.groups[g := excl]), g, id, false) {
        NewGroupTaken(s, g, excl, id);
      }
    }
    if Allowed(s, Insert(g, excl, ids)) {
      assert forall c :: Key(c, g) in t.members <==> c in ids;
      forall h | h != g ensures MembersOf(t, h) == MembersOf(s, h) {
        assert forall c :: Key(c, h) in t.members <==> Key(c, h) in s.members;
      }
    }
  }

  lemma NewGroupTaken(s: State, g: GName, excl: string, id: string)
    requires Inv(s) && g !in s.groups && ValidGroup(g, excl)
    ensures Key(id, g) !in s.members
    ensures Taken(s, id, Namespace(g, excl)) <==> Blocked(s.(groups := s.groups[g := excl]), g, id, false)
  {
    var t := s.(groups := s.groups[g := excl]);
    assert Inv(t);
    SameTaken(s, t);
    TakenIsBlocked(t, g, id);
  }

  // ---- Filtering a member list by partition ----

  /** The rows the self-join finds for a component: its membership in g, and those in `and`, or in
      any partition when there is no `and`. */
  function JoinRows(s: State, c: string, g: GName, both: bool, and: GName): set<Key> {
    set k | k in s.members && k.comp == c &&
      (k.group == g || (if both then k.group == and else s.members[k] == PARTITION_NS))
  }

  function MembersFilter(s: State, g: GName, both: bool, and: GName): set<string> {
    set c | c in MembersOf(s, g) && |JoinRows(s, c, g, both, and)| == (if both then 2 else 1)
  }

  lemma PairSize<T>(x: T, y: T)
    ensures |{x, y}| == if x == y then 1 else 2
  {
    if x == y {
      assert {x, y} == {x};
    } else {
      assert {x, y} - {x} == {y};
    }
  }

  /** Counting rows selects exactly the members that are also in the other group, or exactly those
      that are in no other partition. */
  lemma FilterIsExact(ops: seq<Op>, g: GName, and: GName, c: string)
    ensures var s := Run(EMPTY, ops);
      && (g != and ==> (c in MembersFilter(s, g, true, and) <==> c in MembersOf(s, g) && c in MembersOf(s, and)))
      && (c in MembersFilter(s, g, false, and) <==>
            c in MembersOf(s, g) && forall p :: p in s.groups && p.kind.Partition? && p != g ==> c !in MembersOf(s, p))
  {
    var s := Run(EMPTY, ops);
    InvRun(ops);
    if c in MembersOf(s, g) {
      if g != and {
        FilterBoth(s, g, and, c);
      }
      FilterNone(s, g, and, c);
    }
  }

  lemma FilterBoth(s: State, g: GName, and: GName, c: string)
    requires g != and && Key(c, g) in s.members
    ensures |JoinRows(s, c, g, true, and)| == if Key(c, and) in s.members then 2 else 1
  {
    var rows := JoinRows(s, c, g, true, and);
    PairSize(Key(c, g), Key(c, and));
    if Key(c, and) in s.members {
      assert rows == {Key(c, g), Key(c, and)};
    } else {
      assert rows == {Key(c, g)};
    }
  }

  lemma FilterNone(s: State, g: GName, and: GName, c: string)
    requires Inv(s) && Key(c, g) in s.members
    ensures |JoinRows(s, c, g, false, and)| == 1 <==>
      forall p :: p in s.groups && p.kind.Partition? && p != g ==> Key(c, p) !in s.members
  {
    var rows := JoinRows(s, c, g, false, and);
    assert Key(c, g) in rows;
    if p :| p in s.groups && p.kind.Partition? && p != g && Key(c, p) in s.members {
      assert Key(c, p) in rows;
      PairSize(Key(c, g), Key(c, p));
      SubsetSize({Key(c, g), Key(c, p)}, rows);
    } else {
      forall k | k in rows ensures k == Key(c, g) {
        NamespaceShape(k.group, s.groups[k.group]);
      }
      assert rows == {Key(c, g)};
    }
  }
}
