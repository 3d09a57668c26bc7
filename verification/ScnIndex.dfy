/** The trigger-to-URL index and the cached subscription list: what each critical
    section does to both, and when they agree. */
module ScnIndex {
  import opened Collect
  import opened ScnUrls

  datatype TrigType = OnEnabled | OnRole | OnSubRole | OnSwStatus | OnState

  /** A trigger: its type and its lower-cased value. */
  type Key = (TrigType, string)

  /** What one cached subscription asks for: its URL and its triggers, repeats included. */
  datatype Holding = Holding(url: string, keys: seq<Key>)

  /** A trigger type that is not a key has a nil inner map: reading it is fine, writing into it panics. */
  type Index = map<TrigType, map<string, seq<ScnUrl>>>

  function Urls(idx: Index, k: Key): seq<ScnUrl> {
    if k.0 in idx && k.1 in idx[k.0] then idx[k.0][k.1] else []
  }

  function RefCount(idx: Index, k: Key, url: string): int { Count(Urls(idx, k), url) }

  function AddKey(idx: Index, k: Key, url: string): Index {
    var inner := if k.0 in idx then idx[k.0] else map[];
    idx[k.0 := inner[k.1 := AddUrl(Urls(idx, k), url)]]
  }

  function RemoveKey(idx: Index, k: Key, url: string): Index
    requires k.0 in idx
  {
    idx[k.0 := idx[k.0][k.1 := RemoveUrl(Urls(idx, k), url)]]
  }

  function AddKeys(idx: Index, ks: seq<Key>, url: string): Index {
    if ks == [] then idx else AddKey(AddKeys(idx, ks[..|ks| - 1], url), ks[|ks| - 1], url)
  }

  ghost predicate NoNilWrite(idx: Index, ks: seq<Key>) {
    forall k :: k in ks ==> k.0 in idx
  }

  function RemoveKeys(idx: Index, ks: seq<Key>, url: string): (r: Index)
    requires NoNilWrite(idx, ks)
    ensures r.Keys == idx.Keys
  {
    if ks == [] then idx else RemoveKey(RemoveKeys(idx, ks[..|ks| - 1], url), ks[|ks| - 1], url)
  }

  function Enter(idx: Index, h: Holding): Index { AddKeys(idx, h.keys, h.url) }

  function Withdraw(idx: Index, h: Holding): Index
    requires NoNilWrite(idx, h.keys)
  {
    RemoveKeys(idx, h.keys, h.url)
  }

  function EnterAll(idx: Index, hs: seq<Holding>): Index {
    if hs == [] then idx else Enter(EnterAll(idx, hs[..|hs| - 1]), hs[|hs| - 1])
  }

  // ---- Agreement ----

  /** The number of times the subscriptions for a URL hold a trigger. */
  function Total(hs: seq<Holding>, k: Key, url: string): nat {
    if hs == [] then 0 else Total(hs[..|hs| - 1], k, url) + Held(hs[|hs| - 1], k, url)
  }

  function Held(h: Holding, k: Key, url: string): nat {
    if h.url == url then multiset(h.keys)[k] else 0
  }

  /** The holdings of the cached list, in order, and the index. */
  datatype Cached = Cached(hs: seq<Holding>, idx: Index)

  ghost predicate IndexOk(idx: Index) {
    forall k: Key :: UrlsOk(Urls(idx, k))
  }

  /** The index can be cut down by any cached subscription without writing into a nil map. */
  ghost predicate Ok(s: Cached) {
    IndexOk(s.idx) && forall i :: 0 <= i < |s.hs| ==> NoNilWrite(s.idx, s.hs[i].keys)
  }

  ghost predicate Agree(s: Cached) {
    forall k: Key, u: string :: RefCount(s.idx, k, u) == Total(s.hs, k, u)
  }

  lemma UrlsAfterAdd(idx: Index, k: Key, url: string, j: Key)
    ensures Urls(AddKey(idx, k, url), j) == if j == k then AddUrl(Urls(idx, k), url) else Urls(idx, j)
  {
  }

  lemma AddKeyOk(idx: Index, k: Key, url: string)
    requires IndexOk(idx)
    ensures IndexOk(AddKey(idx, k, url))
  {
    AddCounts(Urls(idx, k), url, url);
    forall j: Key ensures UrlsOk(Urls(AddKey(idx, k, url), j)) {
      UrlsAfterAdd(idx, k, url, j);
    }
  }

  lemma AddKeyCounts(idx: Index, k: Key, url: string, k': Key, v: string)
    requires IndexOk(idx)
    ensures IndexOk(AddKey(idx, k, url))
    ensures RefCount(AddKey(idx, k, url), k', v) == RefCount(idx, k', v) + if k' == k && v == url then 1 else 0
  {
    AddKeyOk(idx, k, url);
    AddCounts(Urls(idx, k), url, v);
    UrlsAfterAdd(idx, k, url, k');
  }

  lemma {:induction false} AddKeysCount(idx: Index, ks: seq<Key>, url: string, k: Key, v: string)
    requires IndexOk(idx)
    ensures IndexOk(AddKeys(idx, ks, url))
    ensures RefCount(AddKeys(idx, ks, url), k, v) == RefCount(idx, k, v) + if v == url then multiset(ks)[k] else 0
  {
    if ks != [] {
      var n := |ks| - 1;
      AddKeysCount(idx, ks[..n], url, k, v);
      AddKeyCounts(AddKeys(idx, ks[..n], url), ks[n], url, k, v);
      MultisetSnoc(ks, k);
    }
  }

  lemma {:induction false} AddKeysDomain(idx: Index, ks: seq<Key>, url: string)
    ensures idx.Keys <= AddKeys(idx, ks, url).Keys && NoNilWrite(AddKeys(idx, ks, url), ks)
  {
    if ks != [] {
      AddKeysDomain(idx, ks[..|ks| - 1], url);
      assert forall k :: k in ks ==> k in ks[..|ks| - 1] || k == ks[|ks| - 1];
    }
  }

  lemma UrlsAfter(idx: Index, k: Key, l: seq<ScnUrl>, j: Key)
    requires k.0 in idx
    ensures Urls(idx[k.0 := idx[k.0][k.1 := l]], j) == if j == k then l else Urls(idx, j)
  {
  }

  lemma RemoveKeyOk(idx: Index, k: Key, url: string)
    requires IndexOk(idx) && k.0 in idx
    ensures IndexOk(RemoveKey(idx, k, url))
  {
    RemoveKeepsOk(Urls(idx, k), url);
    forall j: Key ensures UrlsOk(Urls(RemoveKey(idx, k, url), j)) {
      UrlsAfter(idx, k, RemoveUrl(Urls(idx, k), url), j);
    }
  }

  lemma RemoveKeyCounts(idx: Index, k: Key, url: string, k': Key, v: string)
    requires IndexOk(idx) && k.0 in idx
    ensures RefCount(RemoveKey(idx, k, url), k', v)
         == RefCount(idx, k', v) - if k' == k && v == url && RefCount(idx, k, url) > 0 then 1 else 0
  {
    RemoveCounts(Urls(idx, k), url, v);
    UrlsAfter(idx, k, RemoveUrl(Urls(idx, k), url), k');
  }

  lemma {:induction false} RemoveKeysOk(idx: Index, ks: seq<Key>, url: string)
    requires IndexOk(idx) && NoNilWrite(idx, ks)
    ensures IndexOk(RemoveKeys(idx, ks, url))
  {
    if ks != [] {
      RemoveKeysOk(idx, ks[..|ks| - 1], url);
      RemoveKeyOk(RemoveKeys(idx, ks[..|ks| - 1], url), ks[|ks| - 1], url);
    }
  }

  lemma MultisetSnoc(ks: seq<Key>, k: Key)
    requires ks != []
    ensures multiset(ks)[k] == multiset(ks[..|ks| - 1])[k] + if ks[|ks| - 1] == k then 1 else 0
  {
    assert ks == ks[..|ks| - 1] + [ks[|ks| - 1]];
  }

  function Less(a: int, b: int): int { if a < b then 0 else a - b }

  /** Removing a key list lowers each count by its occurrences, and never below zero. */
  lemma {:induction false} RemoveKeysCount(idx: Index, ks: seq<Key>, url: string, k: Key, v: string)
    requires IndexOk(idx) && NoNilWrite(idx, ks)
    ensures RefCount(RemoveKeys(idx, ks, url), k, v) ==
        Less(RefCount(idx, k, v), if v == url then multiset(ks)[k] else 0)
  {
    if ks == [] {
      CountListed(Urls(idx, k), v);
    } else {
      var n := |ks| - 1;
      var before := RemoveKeys(idx, ks[..n], url);
      RemoveKeysOk(idx, ks[..n], url);
      RemoveKeysCount(idx, ks[..n], url, k, v);
      RemoveKeyCounts(before, ks[n], url, k, v);
      MultisetSnoc(ks, k);
    }
  }

  lemma {:induction false} AddKeysConcat(idx: Index, a: seq<Key>, b: seq<Key>, url: string)
    ensures AddKeys(idx, a + b, url) == AddKeys(AddKeys(idx, a, url), b, url)
  {
    if b == [] {
      assert a + b == a;
    } else {
      assert (a + b)[..|a + b| - 1] == a + b[..|b| - 1];
      AddKeysConcat(idx, a, b[..|b| - 1], url);
    }
  }

  lemma NoNilConcat(idx: Index, a: seq<Key>, b: seq<Key>)
    ensures NoNilWrite(idx, a + b) <==> NoNilWrite(idx, a) && NoNilWrite(idx, b)
  {
    assert forall k :: k in a + b <==> k in a || k in b;
  }

  lemma {:induction false} RemoveKeysConcat(idx: Index, a: seq<Key>, b: seq<Key>, url: string)
    requires NoNilWrite(idx, a) && NoNilWrite(idx, b) && NoNilWrite(idx, a + b)
    ensures RemoveKeys(idx, a + b, url) == RemoveKeys(RemoveKeys(idx, a, url), b, url)
  {
    if b == [] {
      assert a + b == a;
    } else {
      var n := |b| - 1;
      assert (a + b)[..|a + b| - 1] == a + b[..n] && (a + b)[|a + b| - 1] == b[n];
      NoNilConcat(idx, a, b[..n]);
      RemoveKeysConcat(idx, a, b[..n], url);
    }
  }

  lemma {:induction false} TotalUpdate(hs: seq<Holding>, i: nat, h: Holding, k: Key, url: string)
    requires i < |hs|
    ensures Total(hs[i := h], k, url) == Total(hs, k, url) - Held(hs[i], k, url) + Held(h, k, url)
  {
    var n := |hs| - 1;
    if i < n {
      TotalUpdate(hs[..n], i, h, k, url);
      assert hs[i := h][..n] == hs[..n][i := h];
    } else {
      assert hs[i := h][..n] == hs[..n];
    }
  }

  lemma {:induction false} TotalDelete(hs: seq<Holding>, i: nat, k: Key, url: string)
    requires i < |hs|
    ensures Total(Cut(hs, i), k, url) == Total(hs, k, url) - Held(hs[i], k, url)
  {
    var n := |hs| - 1;
    var rest := Cut(hs, i);
    if i < n {
      TotalDelete(hs[..n], i, k, url);
      assert rest[..n - 1] == Cut(hs[..n], i);
    } else {
      assert rest == hs[..n];
    }
  }

  predicate Subscribes(h: Holding, k: Key, url: string) {
    h.url == url && k in h.keys
  }

  /** A total is positive exactly when some subscription for the URL holds the trigger. */
  lemma {:induction false} TotalPositive(hs: seq<Holding>, k: Key, url: string)
    ensures Total(hs, k, url) > 0 <==> exists i :: 0 <= i < |hs| && Subscribes(hs[i], k, url)
  {
    if hs != [] {
      var n := |hs| - 1;
      TotalPositive(hs[..n], k, url);
      assert Held(hs[n], k, url) > 0 <==> Subscribes(hs[n], k, url);
      if i :| 0 <= i < |hs| && Subscribes(hs[i], k, url) {
        assert i < n ==> Subscribes(hs[..n][i], k, url);
      }
    }
  }

  lemma SubsetNoNil(s: Cached, i: nat, ks: seq<Key>)
    requires Ok(s) && i < |s.hs| && multiset(ks) <= multiset(s.hs[i].keys)
    ensures NoNilWrite(s.idx, ks)
  {
    forall k | k in ks ensures k in s.hs[i].keys {
      assert multiset(ks)[k] > 0;
      assert multiset(s.hs[i].keys)[k] > 0;
    }
  }

  /** When index and list agree, what a cached subscription takes out of the index is there to take. */
  lemma TakeOut(s: Cached, i: nat, ks: seq<Key>, k: Key, v: string)
    requires Ok(s) && Agree(s) && i < |s.hs| && multiset(ks) <= multiset(s.hs[i].keys)
    requires NoNilWrite(s.idx, ks)
    ensures RefCount(RemoveKeys(s.idx, ks, s.hs[i].url), k, v)
         == Total(s.hs, k, v) - if v == s.hs[i].url then multiset(ks)[k] else 0
  {
    RemoveKeysCount(s.idx, ks, s.hs[i].url, k, v);
    TotalDelete(s.hs, i, k, v);
  }

  // ---- The moves the handlers make ----

  lemma EntryOk(s: Cached, i: nat, h: Holding, idx: Index)
    requires Ok(s) && i < |s.hs|
    requires IndexOk(idx) && s.idx.Keys <= idx.Keys && NoNilWrite(idx, h.keys)
    ensures Ok(Cached(s.hs[i := h], idx))
  {
  }

  lemma StillOk(s: Cached, h: Holding)
    requires Ok(s)
    ensures IndexOk(Enter(s.idx, h)) && s.idx.Keys <= Enter(s.idx, h).Keys && NoNilWrite(Enter(s.idx, h), h.keys)
    ensures NoNilWrite(s.idx, h.keys) ==> IndexOk(Withdraw(s.idx, h))
  {
    AddKeysDomain(s.idx, h.keys, h.url);
    AddKeysCount(s.idx, h.keys, h.url, (OnState, ""), "");
    if NoNilWrite(s.idx, h.keys) {
      RemoveKeysOk(s.idx, h.keys, h.url);
    }
  }

  /** A new subscription enters list and index. */
  lemma Appended(s: Cached, h: Holding)
    requires Ok(s)
    ensures var s' := Cached(s.hs + [h], Enter(s.idx, h)); Ok(s') && (Agree(s) ==> Agree(s'))
  {
    var s' := Cached(s.hs + [h], Enter(s.idx, h));
    StillOk(s, h);
    forall k: Key, v: string ensures Agree(s) ==> RefCount(s'.idx, k, v) == Total(s'.hs, k, v) {
      AddKeysCount(s.idx, h.keys, h.url, k, v);
      assert s'.hs[..|s.hs|] == s.hs;
    }
  }

  /** A subscription leaves list and index. */
  lemma Deleted(s: Cached, i: nat)
    requires Ok(s) && i < |s.hs|
    ensures var s' := Cached(Cut(s.hs, i), Withdraw(s.idx, s.hs[i])); Ok(s') && (Agree(s) ==> Agree(s'))
  {
    var s' := Cached(Cut(s.hs, i), Withdraw(s.idx, s.hs[i]));
    StillOk(s, s.hs[i]);
    assert forall j :: 0 <= j < |s'.hs| ==> s'.hs[j] == s.hs[if j < i then j else j + 1];
    if Agree(s) {
      forall k: Key, v: string ensures RefCount(s'.idx, k, v) == Total(s'.hs, k, v) {
        TakeOut(s, i, s.hs[i].keys, k, v);
        TotalDelete(s.hs, i, k, v);
      }
    }
  }

  /** Entry i gains the keys of d, as the index does. */
  lemma Grown(s: Cached, i: nat, d: Holding, h: Holding)
    requires Ok(s) && i < |s.hs| && d.url == h.url == s.hs[i].url
    requires multiset(s.hs[i].keys) + multiset(d.keys) == multiset(h.keys)
    ensures var s' := Cached(s.hs[i := h], Enter(s.idx, d)); Ok(s') && (Agree(s) ==> Agree(s'))
  {
    StillOk(s, d);
    forall k | k in h.keys ensures k.0 in Enter(s.idx, d) {
      assert multiset(h.keys)[k] > 0;
      assert k in s.hs[i].keys || k in d.keys;
    }
    EntryOk(s, i, h, Enter(s.idx, d));
    forall k: Key, v: string ensures Agree(s) ==> RefCount(Enter(s.idx, d), k, v) == Total(s.hs[i := h], k, v) {
      AddKeysCount(s.idx, d.keys, d.url, k, v);
      TotalUpdate(s.hs, i, h, k, v);
    }
  }

  /** Entry i loses the keys of d, as the index does. */
  lemma Shrunk(s: Cached, i: nat, d: Holding, h: Holding)
    requires Ok(s) && i < |s.hs| && d.url == h.url == s.hs[i].url
    requires multiset(h.keys) + multiset(d.keys) == multiset(s.hs[i].keys)
    ensures NoNilWrite(s.idx, d.keys)
    ensures var s' := Cached(s.hs[i := h], Withdraw(s.idx, d)); Ok(s') && (Agree(s) ==> Agree(s'))
  {
    SubsetNoNil(s, i, d.keys);
    SubsetNoNil(s, i, h.keys);
    StillOk(s, d);
    EntryOk(s, i, h, Withdraw(s.idx, d));
    if Agree(s) {
      forall k: Key, v: string ensures RefCount(Withdraw(s.idx, d), k, v) == Total(s.hs[i := h], k, v) {
        TakeOut(s, i, d.keys, k, v);
        TotalUpdate(s.hs, i, h, k, v);
      }
    }
  }

  ghost predicate SameHolding(a: Holding, b: Holding) {
    forall k: Key, v: string :: Held(a, k, v) == Held(b, k, v)
  }

  /** The index trades entry i for `given` while the list trades it for `kept`: they still
      agree exactly when the two ask for the same. */
  lemma Swapped(s: Cached, i: nat, given: Holding, kept: Holding)
    requires Ok(s) && i < |s.hs|
    requires forall k :: k in kept.keys ==> k in given.keys || k in s.hs[i].keys
    ensures var s' := Cached(s.hs[i := kept], Enter(Withdraw(s.idx, s.hs[i]), given));
            Ok(s') && (Agree(s) ==> (Agree(s') <==> SameHolding(given, kept)))
  {
    var cut := Cached(s.hs, Withdraw(s.idx, s.hs[i]));
    var s' := Cached(s.hs[i := kept], Enter(cut.idx, given));
    StillOk(s, s.hs[i]);
    StillOk(cut, given);
    EntryOk(s, i, kept, s'.idx);
    if Agree(s) {
      forall k: Key, v: string
        ensures RefCount(s'.idx, k, v) - Total(s'.hs, k, v) == Held(given, k, v) - Held(kept, k, v)
      {
        TakeOut(s, i, s.hs[i].keys, k, v);
        AddKeysCount(cut.idx, given.keys, given.url, k, v);
        TotalUpdate(s.hs, i, kept, k, v);
      }
      SwapCountsDecide(s', given, kept);
    }
  }

  lemma SwapCountsDecide(s: Cached, given: Holding, kept: Holding)
    requires forall k: Key, v: string ::
      RefCount(s.idx, k, v) - Total(s.hs, k, v) == Held(given, k, v) - Held(kept, k, v)
    ensures Agree(s) <==> SameHolding(given, kept)
  {
    if Agree(s) {
      forall k: Key, v: string ensures Held(given, k, v) == Held(kept, k, v) {
        assert RefCount(s.idx, k, v) == Total(s.hs, k, v);
      }
    }
  }

  /** Entry i loses some keys and the index does not. */
  lemma Curtailed(s: Cached, i: nat, h: Holding)
    requires Ok(s) && i < |s.hs| && multiset(h.keys) <= multiset(s.hs[i].keys)
    ensures var s' := Cached(s.hs[i := h], s.idx);
            Ok(s') && (Agree(s) ==> (Agree(s') <==> SameHolding(s.hs[i], h)))
  {
    var s' := Cached(s.hs[i := h], s.idx);
    SubsetNoNil(s, i, h.keys);
    if Agree(s) {
      forall k: Key, v: string
        ensures RefCount(s'.idx, k, v) - Total(s'.hs, k, v) == Held(s.hs[i], k, v) - Held(h, k, v)
      {
        assert RefCount(s.idx, k, v) == Total(s.hs, k, v);
        TotalUpdate(s.hs, i, h, k, v);
      }
      SwapCountsDecide(s', s.hs[i], h);
    }
  }

  /** Two holdings ask for the same exactly when their triggers are the same, repeats
      included, and their URLs are, unless there is no trigger at all. */
  lemma SameHoldingMeans(a: Holding, b: Holding)
    ensures SameHolding(a, b) <==> multiset(a.keys) == multiset(b.keys) && (a.url == b.url || a.keys == [])
  {
    var m, n := multiset(a.keys), multiset(b.keys);
    if SameHolding(a, b) {
      forall k: Key ensures m[k] == n[k] && (a.url != b.url ==> m[k] == 0) {
        assert Held(a, k, a.url) == Held(b, k, a.url);
        assert Held(a, k, b.url) == Held(b, k, b.url);
      }
      assert a.keys != [] ==> m[a.keys[0]] > 0;
    }
    if m == n && a.keys == [] {
      forall k: Key, v: string ensures Held(a, k, v) == Held(b, k, v) {
        assert m[k] == n[k] == 0;
      }
    }
  }

  lemma {:induction false} EnterAllCount(idx: Index, hs: seq<Holding>, k: Key, v: string)
    requires IndexOk(idx)
    ensures IndexOk(EnterAll(idx, hs))
    ensures RefCount(EnterAll(idx, hs), k, v) == RefCount(idx, k, v) + Total(hs, k, v)
  {
    if hs != [] {
      var n := |hs| - 1;
      EnterAllCount(idx, hs[..n], k, v);
      AddKeysCount(EnterAll(idx, hs[..n]), hs[n].keys, hs[n].url, k, v);
    }
  }

  /** A rebuilt index agrees with the list it is built from. */
  lemma {:induction false} Rebuilt(hs: seq<Holding>)
    ensures Ok(Cached(hs, EnterAll(map[], hs))) && Agree(Cached(hs, EnterAll(map[], hs)))
  {
    if hs != [] {
      var n := |hs| - 1;
      Rebuilt(hs[..n]);
      Appended(Cached(hs[..n], EnterAll(map[], hs[..n])), hs[n]);
      assert hs[..n] + [hs[n]] == hs;
    }
  }

  // ---- Taking out what was just put in ----

  function AddTimes(l: seq<ScnUrl>, url: string, n: nat): seq<ScnUrl> {
    if n == 0 then l else AddUrl(AddTimes(l, url, n - 1), url)
  }

  function RemoveTimes(l: seq<ScnUrl>, url: string, n: nat): seq<ScnUrl>
    decreases n
  {
    if n == 0 then l else RemoveTimes(RemoveUrl(l, url), url, n - 1)
  }

  lemma {:induction false} RemoveTimesSnoc(l: seq<ScnUrl>, url: string, n: nat)
    ensures RemoveTimes(l, url, n + 1) == RemoveUrl(RemoveTimes(l, url, n), url)
    decreases n
  {
    if n > 0 {
      RemoveTimesSnoc(RemoveUrl(l, url), url, n - 1);
    }
  }

  lemma {:induction false} AddTimesOk(l: seq<ScnUrl>, url: string, n: nat)
    requires UrlsOk(l)
    ensures UrlsOk(AddTimes(l, url, n))
  {
    if n > 0 {
      AddTimesOk(l, url, n - 1);
      AddCounts(AddTimes(l, url, n - 1), url, url);
    }
  }

  lemma UndoOne(l: seq<ScnUrl>, url: string, n: nat)
    requires UrlsOk(l) && n > 0
    ensures RemoveUrl(AddTimes(l, url, n), url) == AddTimes(l, url, n - 1)
  {
    AddTimesOk(l, url, n - 1);
    RemoveUndoesAdd(AddTimes(l, url, n - 1), url);
  }

  lemma RemoveTimesStep(l: seq<ScnUrl>, url: string, n: nat)
    requires n > 0
    ensures RemoveTimes(l, url, n) == RemoveTimes(RemoveUrl(l, url), url, n - 1)
  {
  }

  lemma {:induction false} RemoveTimesUndoes(l: seq<ScnUrl>, url: string, n: nat)
    requires UrlsOk(l)
    ensures RemoveTimes(AddTimes(l, url, n), url, n) == l
  {
    if n > 0 {
      RemoveTimesUndoes(l, url, n - 1);
      UndoOne(l, url, n);
      RemoveTimesStep(AddTimes(l, url, n), url, n);
    }
  }

  lemma {:induction false} AddKeysUrls(idx: Index, ks: seq<Key>, url: string, k: Key)
    ensures Urls(AddKeys(idx, ks, url), k) == AddTimes(Urls(idx, k), url, multiset(ks)[k])
  {
    if ks != [] {
      AddKeysUrls(idx, ks[..|ks| - 1], url, k);
      MultisetSnoc(ks, k);
    }
  }

  lemma {:induction false} RemoveKeysUrls(idx: Index, ks: seq<Key>, url: string, k: Key)
    requires NoNilWrite(idx, ks)
    ensures Urls(RemoveKeys(idx, ks, url), k) == RemoveTimes(Urls(idx, k), url, multiset(ks)[k])
  {
    if ks != [] {
      var n := |ks| - 1;
      var before := RemoveKeys(idx, ks[..n], url);
      RemoveKeysUrls(idx, ks[..n], url, k);
      UrlsAfter(before, ks[n], RemoveUrl(Urls(before, ks[n]), url), k);
      MultisetSnoc(ks, k);
      RemoveTimesSnoc(Urls(idx, k), url, multiset(ks[..n])[k]);
    }
  }

  /** Withdrawing a subscription right after entering it gives every URL list back, in order and counts. */
  lemma WithdrawUndoesEnter(idx: Index, h: Holding, k: Key)
    requires IndexOk(idx)
    ensures NoNilWrite(Enter(idx, h), h.keys)
    ensures Urls(Withdraw(Enter(idx, h), h), k) == Urls(idx, k)
  {
    AddKeysDomain(idx, h.keys, h.url);
    AddKeysUrls(idx, h.keys, h.url, k);
    RemoveKeysUrls(Enter(idx, h), h.keys, h.url, k);
    RemoveTimesUndoes(Urls(idx, k), h.url, multiset(h.keys)[k]);
  }

  // ---- Routing ----

  /** Whenever index and list agree, the URLs listed under a trigger are those of the
      cached subscriptions that hold it, each once. */
  lemma Routing(s: Cached, k: Key)
    requires Ok(s) && Agree(s)
    ensures Distinct(ScnUrls.Urls(Urls(s.idx, k)))
    ensures forall u :: u in ScnUrls.Urls(Urls(s.idx, k)) <==> exists i :: 0 <= i < |s.hs| && Subscribes(s.hs[i], k, u)
  {
    assert UrlsOk(Urls(s.idx, k));
    forall u ensures u in ScnUrls.Urls(Urls(s.idx, k)) <==> exists i :: 0 <= i < |s.hs| && Subscribes(s.hs[i], k, u) {
      CountListed(Urls(s.idx, k), u);
      TotalPositive(s.hs, k, u);
      assert RefCount(s.idx, k, u) == Total(s.hs, k, u);
    }
  }
}
