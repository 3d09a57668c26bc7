/** Reference-counted URL lists, edited in place on a backing array. */
module ScnUrls {

  datatype ScnUrl = ScnUrl(url: string, refCount: int)

  /** A slice starting at the front of its backing array; the cells from len on are spare capacity. */
  datatype Slice = Slice(buf: array<ScnUrl>, len: nat)

  predicate Fits(s: Slice) { s.len <= s.buf.Length }

  function Contents(s: Slice): seq<ScnUrl>
    requires Fits(s)
    reads s.buf
  {
    s.buf[..s.len]
  }

  /** The sequence without its element i. */
  function Cut<T>(s: seq<T>, i: nat): (r: seq<T>)
    requires i < |s|
    ensures |r| == |s| - 1
    ensures forall j :: 0 <= j < |r| ==> r[j] == s[if j < i then j else j + 1]
  {
    s[..i] + s[i + 1..]
  }

  predicate DistinctUrls(l: seq<ScnUrl>) {
    forall i, j :: 0 <= i < j < |l| ==> l[i].url != l[j].url
  }

  /** Unique URLs, each counted at least once. */
  predicate UrlsOk(l: seq<ScnUrl>) {
    DistinctUrls(l) && forall i :: 0 <= i < |l| ==> l[i].refCount >= 1
  }

  function Find(l: seq<ScnUrl>, url: string): (i: nat)
    ensures i <= |l|
    ensures forall j :: 0 <= j < i ==> l[j].url != url
    ensures i < |l| ==> l[i].url == url
  {
    if l == [] || l[0].url == url then 0 else 1 + Find(l[1..], url)
  }

  /** How many subscriptions the list counts for a URL. */
  function Count(l: seq<ScnUrl>, url: string): int {
    if Find(l, url) < |l| then l[Find(l, url)].refCount else 0
  }

  function AddUrl(l: seq<ScnUrl>, url: string): seq<ScnUrl> {
    var i := Find(l, url);
    if i < |l| then l[i := ScnUrl(url, l[i].refCount + 1)] else l + [ScnUrl(url, 1)]
  }

  function RemoveUrl(l: seq<ScnUrl>, url: string): seq<ScnUrl> {
    var i := Find(l, url);
    if i == |l| then l
    else if l[i].refCount <= 1 then Cut(l, i)
    else l[i := ScnUrl(url, l[i].refCount - 1)]
  }

  method AddScnUrl(urlList: Slice, urlIn: string) returns (r: Slice)
    requires Fits(urlList)
    modifies urlList.buf
    ensures Fits(r) && (r.buf == urlList.buf || fresh(r.buf))
    ensures Contents(r) == AddUrl(old(Contents(urlList)), urlIn)
  {
    r := urlList;
    for i := 0 to urlList.len
      invariant urlList.buf[..] == old(urlList.buf[..])
      invariant forall j :: 0 <= j < i ==> urlList.buf[j].url != urlIn
    {
      if urlIn == urlList.buf[i].url {
        urlList.buf[i] := ScnUrl(urlIn, urlList.buf[i].refCount + 1);
        return;
      }
    }
    r := Append(urlList, ScnUrl(urlIn, 1));
  }

  /** Go's append: uses spare capacity when there is some, else moves to a bigger array. */
  method Append(s: Slice, x: ScnUrl) returns (r: Slice)
    requires Fits(s)
    modifies s.buf
    ensures Fits(r) && (r.buf == s.buf || fresh(r.buf))
    ensures Contents(r) == old(Contents(s)) + [x]
  {
    if s.len < s.buf.Length {
      s.buf[s.len] := x;
      r := Slice(s.buf, s.len + 1);
    } else {
      var bigger := new ScnUrl[2 * s.len + 1](i => x);
      for i := 0 to s.len
        invariant bigger[..i] == s.buf[..i] && bigger[s.len] == x
        invariant s.buf[..] == old(s.buf[..])
      {
        bigger[i] := s.buf[i];
      }
      r := Slice(bigger, s.len + 1);
    }
  }

  /** Deletes cell i of the first n, shifting the rest down; cell n-1 keeps its old value. */
  method ShiftDown<T>(a: array<T>, i: nat, n: nat)
    requires i < n <= a.Length
    modifies a
    ensures forall m :: 0 <= m < i || n - 1 <= m < a.Length ==> a[m] == old(a[m])
    ensures forall m :: i <= m < n - 1 ==> a[m] == old(a[m + 1])
  {
    for k := i to n - 1
      invariant forall m :: 0 <= m < i ==> a[m] == old(a[m])
      invariant forall m :: i <= m < k ==> a[m] == old(a[m + 1])
      invariant forall m :: k <= m < a.Length ==> a[m] == old(a[m])
    {
      a[k] := a[k + 1];
    }
  }

  /** `append(s[:i], s[i+1:]...)`: the cells after i move down, the last one stays behind as it was. */
  method DeleteCell(s: Slice, i: nat) returns (r: Slice)
    requires Fits(s) && i < s.len
    modifies s.buf
    ensures r == Slice(s.buf, s.len - 1)
    ensures Contents(r) == Cut(old(Contents(s)), i)
    ensures forall j :: i < j < s.len ==> s.buf[j] == old(s.buf[if j < s.len - 1 then j + 1 else j])
  {
    ghost var cut := Cut(Contents(s), i);
    ShiftDown(s.buf, i, s.len);
    r := Slice(s.buf, s.len - 1);
    assert forall j :: 0 <= j < s.len - 1 ==> s.buf[j] == cut[j];
  }

  /** The loop ranges over the length the list had at the start while the list
      shrinks under it, so its last turns read a stale cell. */
  method RemoveScnUrl(urlList: Slice, urlIn: string) returns (r: Slice)
    requires Fits(urlList) && DistinctUrls(Contents(urlList))
    modifies urlList.buf
    ensures r.buf == urlList.buf && Fits(r)
    ensures Contents(r) == RemoveUrl(old(Contents(urlList)), urlIn)
  {
    r := urlList;
    ghost var was := Contents(urlList);
    ghost var f := Find(was, urlIn);
    for i := 0 to urlList.len
      invariant r.buf == urlList.buf && r.len <= urlList.len
      invariant i <= f ==> urlList.buf[..] == old(urlList.buf[..]) && r.len == urlList.len
      invariant f < i ==> Contents(r) == RemoveUrl(was, urlIn)
      invariant f < i ==> forall j :: i <= j < urlList.len ==> urlList.buf[j].url != urlIn
    {
      var url := urlList.buf[i];
      if url.url == urlIn {
        assert i == f && Contents(r) == was && url == was[i];
        assert forall j :: i < j < |was| ==> was[j].url != urlIn && urlList.buf[j] == was[j];
        if url.refCount <= 1 {
          r := DeleteCell(r, i);
        } else {
          r.buf[i] := ScnUrl(urlIn, url.refCount - 1);
        }
      }
    }
  }

  // ---- What the edits mean ----

  lemma FindIs(l: seq<ScnUrl>, url: string, i: nat)
    requires UrlsOk(l) && i < |l| && l[i].url == url
    ensures Find(l, url) == i
  {
  }

  /** Adding raises the count of the added URL by one and of no other. */
  lemma AddCounts(l: seq<ScnUrl>, url: string, v: string)
    requires UrlsOk(l)
    ensures UrlsOk(AddUrl(l, url))
    ensures Count(AddUrl(l, url), v) == Count(l, v) + if v == url then 1 else 0
  {
    var a := AddUrl(l, url);
    assert UrlsOk(a);
    if Find(l, v) < |l| {
      FindIs(a, v, Find(l, v));
    } else if v == url {
      FindIs(a, v, |l|);
    }
  }

  /** Adding puts a new URL behind the others, with count one, and leaves everything else in its place. */
  lemma AddKeepsOrder(l: seq<ScnUrl>, url: string)
    ensures Urls(AddUrl(l, url)) == if url in Urls(l) then Urls(l) else Urls(l) + [url]
    ensures forall i :: 0 <= i < |l| && l[i].url != url ==> AddUrl(l, url)[i] == l[i]
  {
    var i := Find(l, url);
    if i < |l| {
      assert Urls(l)[i] == url;
    }
  }

  /** The counts say which URLs are listed. */
  lemma CountListed(l: seq<ScnUrl>, url: string)
    requires UrlsOk(l)
    ensures Count(l, url) >= 0
    ensures Count(l, url) > 0 <==> url in Urls(l)
  {
    if Find(l, url) < |l| {
      assert Urls(l)[Find(l, url)] == url;
    }
  }

  lemma RemoveKeepsOk(l: seq<ScnUrl>, url: string)
    requires UrlsOk(l)
    ensures UrlsOk(RemoveUrl(l, url))
  {
    var a, f := RemoveUrl(l, url), Find(l, url);
    if f < |l| && l[f].refCount <= 1 {
      forall i, j | 0 <= i < j < |a| ensures a[i].url != a[j].url {
        assert a[i] == l[if i < f then i else i + 1] && a[j] == l[if j < f then j else j + 1];
      }
    }
  }

  /** Removing lowers the count of that URL by one, if it was listed, and of no other. */
  lemma RemoveCounts(l: seq<ScnUrl>, url: string, v: string)
    requires UrlsOk(l)
    ensures Count(RemoveUrl(l, url), v) == Count(l, v) - if v == url && Count(l, url) > 0 then 1 else 0
  {
    var a := RemoveUrl(l, url);
    var f, i := Find(l, url), Find(l, v);
    RemoveKeepsOk(l, url);
    if f == |l| {
      assert a == l;
    } else if l[f].refCount > 1 {
      if i < |l| {
        FindIs(a, v, i);
      }
    } else if i < |l| && v != url {
      FindIs(a, v, if f < i then i - 1 else i);
    } else {
      NotListed(a, v);
    }
  }

  lemma NotListed(l: seq<ScnUrl>, v: string)
    requires forall j :: 0 <= j < |l| ==> l[j].url != v
    ensures Count(l, v) == 0
  {
  }

  /** A removal keeps the order of the URLs and loses at most the removed one. */
  lemma RemoveKeepsOrder(l: seq<ScnUrl>, url: string)
    ensures var u, v := Urls(l), Urls(RemoveUrl(l, url));
            v == u || (Find(l, url) < |l| && v == Cut(u, Find(l, url)))
  {
  }

  function Urls(l: seq<ScnUrl>): (r: seq<string>)
    ensures |r| == |l|
  {
    seq(|l|, i requires 0 <= i < |l| => l[i].url)
  }

  /** Removing right after adding gives back the very same list. */
  lemma RemoveUndoesAdd(l: seq<ScnUrl>, url: string)
    requires UrlsOk(l)
    ensures RemoveUrl(AddUrl(l, url), url) == l
  {
    AddCounts(l, url, url);
    var i := Find(l, url);
    FindIs(AddUrl(l, url), url, i);
  }
}
