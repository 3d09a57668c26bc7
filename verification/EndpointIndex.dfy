/** The two-level ComponentEndpoint cache: what a rebuild stores and what lookups then find. */
module EndpointIndex {
  import opened Options
  import opened Text

  datatype Endpoint = Endpoint(id: string, rfEndpointID: string, odataID: string)

  datatype Cache = Cache(vals: map<string, Endpoint>, keys: map<string, string>)

  const EMPTY_CACHE: Cache := Cache(map[], map[])
  const CHILDREN: string := "children"

  function UriKey(rf: string, uri: string): string { Lower(rf + ":" + uri) }

  function ChildrenKey(rf: string): string { rf + ":" + CHILDREN }

  /** One pass of the rebuild loop. */
  function AddEndpoint(c: Cache, e: Endpoint): Cache {
    var keys := c.keys[UriKey(e.rfEndpointID, e.odataID) := e.id];
    var key2 := ChildrenKey(e.rfEndpointID);
    Cache(c.vals[e.id := e], keys[key2 := if key2 in keys then keys[key2] + "," + e.id else e.id])
  }

  function Build(rows: seq<Endpoint>): Cache {
    if rows == [] then EMPTY_CACHE else AddEndpoint(Build(rows[..|rows| - 1]), rows[|rows| - 1])
  }

  /** A database read made while rebuilding. */
  datatype Reply = Rows(rows: seq<Endpoint>) | DbError

  class SyncMap {
    var valStore: map<string, Endpoint>
    var keyLookup: map<string, string>
    var syncNum: nat

    ghost function View(): Cache
      reads this
    {
      Cache(valStore, keyLookup)
    }

    constructor ()
      ensures View() == EMPTY_CACHE && syncNum == 0
    {
      valStore, keyLookup, syncNum := map[], map[], 0;
    }

    method LookupKey(queryKey: string) returns (value: string, num: nat)
      ensures num == syncNum
      ensures value == if queryKey in View().keys then View().keys[queryKey] else ""
    {
      num := syncNum;
      if queryKey !in keyLookup {
        return "", num;
      }
      value := keyLookup[queryKey];
    }

    method LookupValue(key: string) returns (value: Option<Endpoint>, num: nat)
      ensures num == syncNum
      ensures value == if key in View().vals then Some(View().vals[key]) else None
    {
      num := syncNum;
      if key !in valStore {
        return None, num;
      }
      value := Some(valStore[key]);
    }

    /** The build function: fills fresh maps row by row, or leaves the old ones on a read error. */
    method ComponentEndpointSMap(reply: Reply) returns (ok: bool)
      modifies `valStore, `keyLookup
      ensures ok == reply.Rows?
      ensures View() == if ok then Build(reply.rows) else old(View())
    {
      if reply.DbError? {
        return false;
      }
      valStore, keyLookup := map[], map[];
      var ceps := reply.rows;
      for i := 0 to |ceps|
        invariant View() == Build(ceps[..i])
      {
        assert ceps[..i + 1][..i] == ceps[..i];
        var cep := ceps[i];
        valStore := valStore[cep.id := cep];
        var key := cep.rfEndpointID + ":" + cep.odataID;
        keyLookup := keyLookup[Lower(key) := cep.id];
        var key2 := cep.rfEndpointID + ":" + CHILDREN;
        if key2 !in keyLookup {
          keyLookup := keyLookup[key2 := cep.id];
        } else {
          var current := keyLookup[key2];
          keyLookup := keyLookup[key2 := current + "," + cep.id];
        }
      }
      assert ceps[..|ceps|] == ceps;
      ok := true;
    }

    /** Rebuilds only if no rebuild has happened since the caller read num. */
    method TrySync(num: nat, reply: Reply) returns (didUpdate: bool, now: nat, failed: bool)
      modifies this
      ensures now == syncNum
      ensures (View(), syncNum) == TrySyncResult(old(View()), old(syncNum), num, reply)
      ensures didUpdate <==> old(syncNum) == num && reply.Rows?
      ensures failed <==> old(syncNum) == num && reply.DbError?
    {
      if syncNum != num {
        return false, syncNum, false;
      }
      var ok := ComponentEndpointSMap(reply);
      if !ok {
        return false, syncNum, true;
      }
      syncNum := syncNum + 1;
      return true, syncNum, false;
    }
  }

  /** The cache and its number after a call of TrySync that nothing interrupts. */
  function TrySyncResult(c: Cache, syncNum: nat, num: nat, reply: Reply): (Cache, nat) {
    if syncNum == num && reply.Rows? then (Build(reply.rows), syncNum + 1) else (c, syncNum)
  }

  // ---- What a rebuilt index answers ----

  function LastById(rows: seq<Endpoint>, id: string): (r: Option<Endpoint>)
    ensures r.None? <==> forall e :: e in rows ==> e.id != id
    ensures r.Some? ==> r.value.id == id
    ensures r.Some? ==> exists i :: 0 <= i < |rows| && rows[i] == r.value &&
                          forall j :: i < j < |rows| ==> rows[j].id != id
  {
    if rows == [] then None
    else if rows[|rows| - 1].id == id then Some(rows[|rows| - 1])
    else LastById(rows[..|rows| - 1], id)
  }

  predicate SamePair(e: Endpoint, rf: string, uri: string) {
    Lower(e.rfEndpointID) == Lower(rf) && Lower(e.odataID) == Lower(uri)
  }

  function LastByPair(rows: seq<Endpoint>, rf: string, uri: string): (r: Option<string>)
    ensures r.None? <==> forall e :: e in rows ==> !SamePair(e, rf, uri)
    ensures r.Some? ==> exists i :: 0 <= i < |rows| && SamePair(rows[i], rf, uri) && rows[i].id == r.value &&
                          forall j :: i < j < |rows| ==> !SamePair(rows[j], rf, uri)
  {
    if rows == [] then None
    else if SamePair(rows[|rows| - 1], rf, uri) then Some(rows[|rows| - 1].id)
    else LastByPair(rows[..|rows| - 1], rf, uri)
  }

  function ChildIds(rows: seq<Endpoint>, rf: string): (r: seq<string>)
    ensures forall x :: x in r <==> exists e :: e in rows && e.rfEndpointID == rf && e.id == x
  {
    if rows == [] then []
    else
      var e := rows[|rows| - 1];
      assert forall d :: d in rows <==> d in rows[..|rows| - 1] || d == e;
      ChildIds(rows[..|rows| - 1], rf) + if e.rfEndpointID == rf then [e.id] else []
  }

  /** Names the index can hold apart: no colon in an endpoint name and no OdataID reading "children". */
  ghost predicate PlainNames(rows: seq<Endpoint>) {
    forall e :: e in rows ==> ':' !in e.rfEndpointID && Lower(e.odataID) != CHILDREN
  }

  lemma UriKeyParts(rf: string, uri: string)
    ensures UriKey(rf, uri) == Lower(rf) + [':'] + Lower(uri)
  {
    LowerConcat(rf + ":", uri);
    LowerConcat(rf, ":");
    assert Lower(":") == [':'];
  }

  lemma UriKeysMeet(rf: string, uri: string, rf': string, uri': string)
    requires ':' !in rf && ':' !in rf'
    ensures UriKey(rf, uri) == UriKey(rf', uri') <==> Lower(rf) == Lower(rf') && Lower(uri) == Lower(uri')
  {
    UriKeyParts(rf, uri);
    UriKeyParts(rf', uri');
    LowerKeepsSeparators(rf, ':');
    LowerKeepsSeparators(rf', ':');
    if UriKey(rf, uri) == UriKey(rf', uri') {
      SeparatorInjective(Lower(rf), Lower(uri), Lower(rf'), Lower(uri'), ':');
    }
  }

  lemma UriKeyIsNoChildrenKey(rf: string, uri: string, parent: string)
    requires ':' !in rf && ':' !in parent && Lower(uri) != CHILDREN
    ensures UriKey(rf, uri) != ChildrenKey(parent)
  {
    UriKeyParts(rf, uri);
    LowerKeepsSeparators(rf, ':');
    if UriKey(rf, uri) == ChildrenKey(parent) {
      assert ChildrenKey(parent) == parent + [':'] + CHILDREN;
      SeparatorInjective(Lower(rf), Lower(uri), parent, CHILDREN, ':');
    }
  }

  lemma ChildrenKeysMeet(a: string, b: string)
    ensures ChildrenKey(a) == ChildrenKey(b) <==> a == b
  {
    assert ChildrenKey(a)[..|ChildrenKey(a)| - 9] == a;
    assert ChildrenKey(b)[..|ChildrenKey(b)| - 9] == b;
  }

  /** The value store holds exactly the stored IDs, each with its last row. */
  lemma {:induction false} ValuesExact(rows: seq<Endpoint>, id: string)
    ensures (id in Build(rows).vals) == LastById(rows, id).Some?
    ensures id in Build(rows).vals ==> Build(rows).vals[id] == LastById(rows, id).value
    ensures LastById(rows, id).Some? <==> exists e :: e in rows && e.id == id
    ensures LastById(rows, id).Some? ==> LastById(rows, id).value in rows && LastById(rows, id).value.id == id
  {
    if rows != [] {
      ValuesExact(rows[..|rows| - 1], id);
      assert rows[|rows| - 1] in rows;
      assert forall e :: e in rows <==> e in rows[..|rows| - 1] || e == rows[|rows| - 1];
    }
  }

  /** A pair, in any letter case, is found exactly when some row has it, and yields the last such row. */
  lemma {:induction false} UriExact(rows: seq<Endpoint>, rf: string, uri: string)
    requires PlainNames(rows) && ':' !in rf && Lower(uri) != CHILDREN
    ensures (UriKey(rf, uri) in Build(rows).keys) == LastByPair(rows, rf, uri).Some?
    ensures UriKey(rf, uri) in Build(rows).keys
        ==> Build(rows).keys[UriKey(rf, uri)] == LastByPair(rows, rf, uri).value
  {
    if rows != [] {
      var e := rows[|rows| - 1];
      assert e in rows;
      UriExact(rows[..|rows| - 1], rf, uri);
      UriKeysMeet(rf, uri, e.rfEndpointID, e.odataID);
      UriKeyIsNoChildrenKey(rf, uri, e.rfEndpointID);
    }
  }

  /** The children entry of a parent is the comma list of its rows' IDs in row order. */
  lemma {:induction false} ChildrenExact(rows: seq<Endpoint>, parent: string)
    requires PlainNames(rows) && ':' !in parent
    ensures (ChildrenKey(parent) in Build(rows).keys) == (ChildIds(rows, parent) != [])
    ensures ChildIds(rows, parent) != []
        ==> Build(rows).keys[ChildrenKey(parent)] == Join(ChildIds(rows, parent), ',')
  {
    if rows != [] {
      var e := rows[|rows| - 1];
      var before := rows[..|rows| - 1];
      assert e in rows;
      ChildrenExact(before, parent);
      UriKeyIsNoChildrenKey(e.rfEndpointID, e.odataID, parent);
      ChildrenKeysMeet(e.rfEndpointID, parent);
      if e.rfEndpointID != parent {
        assert ChildIds(rows, parent) == ChildIds(before, parent);
      } else if ChildIds(before, parent) != [] {
        JoinAppend(ChildIds(before, parent), e.id, ',');
      } else {
        assert ChildIds(rows, parent) == [e.id];
      }
    }
  }

  /** Splitting the children entry gives back the parent's IDs, provided no ID holds a comma. */
  lemma ChildrenSplit(rows: seq<Endpoint>, parent: string)
    requires PlainNames(rows) && ':' !in parent
    requires forall e :: e in rows ==> ',' !in e.id
    requires ChildrenKey(parent) in Build(rows).keys
    ensures Split(Build(rows).keys[ChildrenKey(parent)], ',') == ChildIds(rows, parent)
  {
    ChildrenExact(rows, parent);
    SplitJoin(ChildIds(rows, parent), ',');
  }
}
