/** The "remove" patch of one trigger list. The cached list and the loop's copy of it
    share a backing array: the loop scans the copy, at its original length, while the
    list is cut down in place. */
module PatchRemove {
  import opened Collect
  import opened ScnUrls

  function RemoveFirst(s: seq<string>, v: string): seq<string>
    requires v in s
  {
    if s[0] == v then s[1..] else [s[0]] + RemoveFirst(s[1..], v)
  }

  /** The list with the first occurrence of each patch value taken out, in patch order. */
  function RemoveEach(s: seq<string>, patch: seq<string>): seq<string> {
    if patch == [] then s
    else
      var v := patch[|patch| - 1];
      var t := RemoveEach(s, patch[..|patch| - 1]);
      if v in t then RemoveFirst(t, v) else t
  }

  /** The patch values found in the list as it stands when their turn comes. */
  function Matched(s: seq<string>, patch: seq<string>): seq<string> {
    if patch == [] then []
    else
      var v := patch[|patch| - 1];
      var earlier := patch[..|patch| - 1];
      Matched(s, earlier) + if v in RemoveEach(s, earlier) then [v] else []
  }

  function Last(s: seq<string>): string
    requires s != []
  {
    s[|s| - 1]
  }

  /** The values left behind in the shared array, latest first: each cut leaves the value
      that was last in the list where it was. */
  function LeftBehind(s: seq<string>, patch: seq<string>): seq<string> {
    if patch == [] then []
    else
      var earlier := patch[..|patch| - 1];
      var t := RemoveEach(s, earlier);
      (if patch[|patch| - 1] in t then [Last(t)] else []) + LeftBehind(s, earlier)
  }

  /** No patch value is looked for again after it is used up and was left behind. */
  predicate PatchSafe(s: seq<string>, patch: seq<string>) {
    patch == [] ||
    var earlier, v := patch[..|patch| - 1], patch[|patch| - 1];
    PatchSafe(s, earlier) && (v in RemoveEach(s, earlier) || v !in LeftBehind(s, earlier))
  }

  /** How many patch values the loop gets through: all of them, or those before the one that panics. */
  function SafeLen(s: seq<string>, patch: seq<string>): (k: nat)
    ensures k <= |patch| && PatchSafe(s, patch[..k])
    ensures k < |patch| ==> !PatchSafe(s, patch[..k + 1])
  {
    assert patch[..|patch|] == patch;
    if PatchSafe(s, patch) then |patch|
    else
      var n := |patch| - 1;
      var k := SafeLen(s, patch[..n]);
      assert patch[..n][..k] == patch[..k];
      assert k < n ==> patch[..n][..k + 1] == patch[..k + 1];
      k
  }

  /** The list when the loop ends, by running through or by panicking. */
  function CutList(s: seq<string>, patch: seq<string>): seq<string> {
    RemoveEach(s, patch[..SafeLen(s, patch)])
  }

  lemma {:induction false} RemoveFirstAt(s: seq<string>, v: string, j: nat)
    requires j < |s| && s[j] == v && forall i :: 0 <= i < j ==> s[i] != v
    ensures RemoveFirst(s, v) == s[..j] + s[j + 1..]
  {
    if j > 0 {
      RemoveFirstAt(s[1..], v, j - 1);
    }
  }

  lemma EachSnoc(s: seq<string>, patch: seq<string>, k: nat)
    requires k < |patch|
    ensures patch[..k + 1] != [] && patch[..k + 1][|patch[..k + 1]| - 1] == patch[k]
    ensures patch[..k + 1][..|patch[..k + 1]| - 1] == patch[..k]
  {
  }

  lemma {:induction false} SafePrefix(s: seq<string>, patch: seq<string>, k: nat)
    requires k <= |patch| && PatchSafe(s, patch)
    ensures PatchSafe(s, patch[..k])
  {
    if k < |patch| {
      SafePrefix(s, patch[..|patch| - 1], k);
      assert patch[..|patch| - 1][..k] == patch[..k];
    } else {
      assert patch[..k] == patch;
    }
  }

  /** Cutting cell j out of the list t leaves the list's old last value just past its end. */
  method CutFirst(a: array<string>, j: nat, live: nat, ghost t: seq<string>, ghost tail: seq<string>)
    requires a[..] == t + tail && |t| == live && j < live && forall i :: 0 <= i < j ==> t[i] != t[j]
    modifies a
    ensures a[..] == RemoveFirst(t, t[j]) + ([Last(t)] + tail)
  {
    RemoveFirstAt(t, t[j], j);
    ghost var after := t[..j] + t[j + 1..] + ([Last(t)] + tail);
    assert forall i :: 0 <= i < |t| ==> a[i] == t[i];
    ShiftDown(a, j, live);
    assert |after| == a.Length && forall i :: 0 <= i < a.Length ==> a[i] == after[i];
  }

  /** The inner loop, for one patch value: scan the whole array, cut the first match. */
  method RemoveOne(a: array<string>, live: nat, v: string, ghost t: seq<string>, ghost tail: seq<string>)
    returns (now: nat, matched: bool, panicked: bool)
    requires a[..] == t + tail && |t| == live
    modifies a
    ensures matched <==> v in t
    ensures panicked <==> v !in t && v in tail
    ensures matched ==> now == live - 1 && a[..] == RemoveFirst(t, v) + ([Last(t)] + tail)
    ensures !matched ==> now == live && a[..] == t + tail
  {
    var j := 0;
    while j < a.Length && a[j] != v
      invariant j <= a.Length && forall i :: 0 <= i < j ==> (t + tail)[i] != v
    {
      j := j + 1;
    }
    assert forall i :: 0 <= i < |t| ==> t[i] == (t + tail)[i];
    assert forall i :: 0 <= i < |tail| ==> tail[i] == (t + tail)[live + i];
    if j == a.Length {
      return live, false, false;
    }
    if j >= live {
      assert tail[j - live] == v;
      return live, false, true;
    }
    assert t[j] == v;
    CutFirst(a, j, live, t, tail);
    return live - 1, true, false;
  }

  lemma SafeCut(s: seq<string>, patch: seq<string>, a: nat, b: nat)
    requires a <= b <= |patch|
    ensures PatchSafe(s, patch[..b]) ==> PatchSafe(s, patch[..a])
  {
    if PatchSafe(s, patch[..b]) {
      SafePrefix(s, patch[..b], a);
      assert patch[..b][..a] == patch[..a];
    }
  }

  lemma SafeLenIs(s: seq<string>, patch: seq<string>, k: nat)
    requires k <= |patch| && PatchSafe(s, patch[..k]) && (k < |patch| ==> !PatchSafe(s, patch[..k + 1]))
    ensures SafeLen(s, patch) == k && (PatchSafe(s, patch) <==> k == |patch|)
  {
    var m := SafeLen(s, patch);
    assert patch[..|patch|] == patch;
    if k < |patch| {
      SafeCut(s, patch, k + 1, |patch|);
      if k < m {
        SafeCut(s, patch, k + 1, m);
      }
    }
    if m < k {
      SafeCut(s, patch, m + 1, k);
    }
  }

  /** What the turn of patch value k does to the list, the values left behind, and those matched. */
  lemma Turn(s: seq<string>, patch: seq<string>, k: nat)
    requires k < |patch|
    ensures var t, v := RemoveEach(s, patch[..k]), patch[k];
      && RemoveEach(s, patch[..k + 1]) == (if v in t then RemoveFirst(t, v) else t)
      && LeftBehind(s, patch[..k + 1]) == (if v in t then [Last(t)] else []) + LeftBehind(s, patch[..k])
      && Matched(s, patch[..k + 1]) == Matched(s, patch[..k]) + (if v in t then [v] else [])
      && (PatchSafe(s, patch[..k + 1]) <==> PatchSafe(s, patch[..k]) && (v in t || v !in LeftBehind(s, patch[..k])))
  {
    EachSnoc(s, patch, k);
  }

  /** The source's two nested loops on the shared array, up to patch value k: the first that panics, if any. */
  method RemoveUpTo(a: array<string>, patch: seq<string>)
    returns (live: nat, removed: seq<string>, panicked: bool, ghost k: nat)
    modifies a
    ensures k <= |patch| && PatchSafe(old(a[..]), patch[..k])
    ensures if panicked then k < |patch| && !PatchSafe(old(a[..]), patch[..k + 1]) else k == |patch|
    ensures live == |RemoveEach(old(a[..]), patch[..k])|
    ensures a[..] == RemoveEach(old(a[..]), patch[..k]) + LeftBehind(old(a[..]), patch[..k])
    ensures removed == Matched(old(a[..]), patch[..k])
  {
    ghost var was := a[..];
    ghost var t, tail := a[..], [];
    live, removed, panicked, k := a.Length, [], false, 0;
    for i := 0 to |patch|
      invariant a[..] == t + tail && |t| == live && !panicked && k == i
      invariant t == RemoveEach(was, patch[..i]) && tail == LeftBehind(was, patch[..i])
      invariant removed == Matched(was, patch[..i]) && PatchSafe(was, patch[..i])
    {
      Turn(was, patch, i);
      var matched;
      live, matched, panicked := RemoveOne(a, live, patch[i], t, tail);
      if panicked {
        return;
      }
      if matched {
        removed := removed + [patch[i]];
        RemoveFirstConserves(t, patch[i]);
        t, tail := RemoveFirst(t, patch[i]), [Last(t)] + tail;
      }
      k := i + 1;
    }
  }

  /** `panicked` is Go's slice-bounds panic: a match at or past the end of the shrunken list. The list
      is then cut by the earlier patch values already. */
  method RemoveShared(a: array<string>, patch: seq<string>) returns (live: nat, removed: seq<string>, panicked: bool)
    modifies a
    ensures panicked <==> !PatchSafe(old(a[..]), patch)
    ensures live == |CutList(old(a[..]), patch)|
    ensures a[..] == CutList(old(a[..]), patch) + LeftBehind(old(a[..]), patch[..SafeLen(old(a[..]), patch)])
    ensures removed == Matched(old(a[..]), patch[..SafeLen(old(a[..]), patch)])
  {
    ghost var was, k := a[..], 0;
    live, removed, panicked, k := RemoveUpTo(a, patch);
    SafeLenIs(was, patch, k);
  }

  // ---- What the patch does ----

  lemma {:induction false} RemoveFirstConserves(s: seq<string>, v: string)
    requires v in s
    ensures multiset(RemoveFirst(s, v)) + multiset{v} == multiset(s)
    ensures |RemoveFirst(s, v)| == |s| - 1
  {
    assert s == [s[0]] + s[1..];
    if s[0] != v {
      RemoveFirstConserves(s[1..], v);
    }
  }

  /** Nothing is lost or invented: what is left and what was matched make up the old list. */
  lemma {:induction false} PatchConserves(s: seq<string>, patch: seq<string>)
    ensures multiset(RemoveEach(s, patch)) + multiset(Matched(s, patch)) == multiset(s)
  {
    if patch != [] {
      var earlier, v := patch[..|patch| - 1], patch[|patch| - 1];
      PatchConserves(s, earlier);
      if v in RemoveEach(s, earlier) {
        RemoveFirstConserves(RemoveEach(s, earlier), v);
      }
    }
  }

  lemma {:induction false} StillThere(s: seq<string>, patch: seq<string>, v: string)
    requires v !in patch
    ensures v in RemoveEach(s, patch) <==> v in s
  {
    PatchConserves(s, patch);
    MatchedFromPatch(s, patch);
    assert v !in Matched(s, patch);
    assert multiset(s)[v] == multiset(RemoveEach(s, patch))[v];
  }

  lemma {:induction false} MatchedFromPatch(s: seq<string>, patch: seq<string>)
    ensures forall v :: v in Matched(s, patch) ==> v in patch
    ensures forall v :: v in RemoveEach(s, patch) ==> v in s
  {
    if patch != [] {
      MatchedFromPatch(s, patch[..|patch| - 1]);
      PatchConserves(s, patch);
      forall v | v in RemoveEach(s, patch) ensures v in s {
        assert multiset(s)[v] > 0;
      }
    }
  }

  lemma {:induction false} LeftBehindFromList(s: seq<string>, patch: seq<string>)
    ensures forall v :: v in LeftBehind(s, patch) ==> v in s
  {
    if patch != [] {
      LeftBehindFromList(s, patch[..|patch| - 1]);
      MatchedFromPatch(s, patch[..|patch| - 1]);
    }
  }

  lemma {:induction false} EachCutIsLeftBehind(s: seq<string>, patch: seq<string>)
    ensures |RemoveEach(s, patch)| + |LeftBehind(s, patch)| == |s|
  {
    if patch != [] {
      var earlier, v := patch[..|patch| - 1], patch[|patch| - 1];
      EachCutIsLeftBehind(s, earlier);
      if v in RemoveEach(s, earlier) {
        RemoveFirstConserves(RemoveEach(s, earlier), v);
      }
    }
  }

  /** A patch that panics has cut the list before. */
  lemma PanicLeavesItCut(s: seq<string>, patch: seq<string>)
    requires !PatchSafe(s, patch)
    ensures |CutList(s, patch)| < |s|
  {
    var k := SafeLen(s, patch);
    assert patch[..|patch|] == patch;
    EachSnoc(s, patch, k);
    EachCutIsLeftBehind(s, patch[..k]);
    assert patch[k] in LeftBehind(s, patch[..k]);
  }

  /** Distinct patch values are always safe, and each takes out exactly the values the list held. */
  lemma {:induction false} DistinctIsSafe(s: seq<string>, patch: seq<string>)
    requires Distinct(patch)
    ensures PatchSafe(s, patch)
    ensures forall v :: v in Matched(s, patch) <==> v in patch && v in s
  {
    if patch != [] {
      var n := |patch| - 1;
      DistinctIsSafe(s, patch[..n]);
      StillThere(s, patch[..n], patch[n]);
      LeftBehindFromList(s, patch[..n]);
      assert patch == patch[..n] + [patch[n]];
    }
  }

  /** Whether the loop runs through, in terms of the list before each patch value. */
  lemma PatchSafeMeans(s: seq<string>, patch: seq<string>)
    ensures PatchSafe(s, patch) <==>
      forall k, m :: 0 <= m < k < |patch| && UsedUp(s, patch, k) ==> !LeavesBehind(s, patch, m, patch[k])
  {
    assert patch[..|patch|] == patch;
    SafeMeansUpTo(s, patch, |patch|);
    forall k | 0 <= k < |patch|
      ensures Trips(s, patch, k) <==>
          UsedUp(s, patch, k) && exists m :: 0 <= m < k && LeavesBehind(s, patch, m, patch[k])
    {
    }
  }

  /** Patch value k is looked for when it is used up and was left behind. */
  ghost predicate Trips(s: seq<string>, patch: seq<string>, k: nat)
    requires k < |patch|
  {
    UsedUp(s, patch, k) && SomeLeavesBehind(s, patch, k, patch[k])
  }

  lemma SafeStep(s: seq<string>, patch: seq<string>, k: nat)
    requires k < |patch|
    ensures PatchSafe(s, patch[..k + 1]) <==> PatchSafe(s, patch[..k]) && !Trips(s, patch, k)
  {
    EachSnoc(s, patch, k);
    LeftBehindMeans(s, patch, k, patch[k]);
  }

  lemma {:induction false} SafeMeansUpTo(s: seq<string>, patch: seq<string>, n: nat)
    requires n <= |patch|
    ensures PatchSafe(s, patch[..n]) <==> forall k :: 0 <= k < n ==> !Trips(s, patch, k)
  {
    if n > 0 {
      SafeMeansUpTo(s, patch, n - 1);
      SafeStep(s, patch, n - 1);
      if PatchSafe(s, patch[..n]) {
        forall k | 0 <= k < n ensures !Trips(s, patch, k) {
          assert k < n - 1 || k == n - 1;
        }
      }
    }
  }

  /** When its turn comes, patch value k is no longer (or never was) in the list. */
  ghost predicate UsedUp(s: seq<string>, patch: seq<string>, k: nat)
    requires k < |patch|
  {
    patch[k] !in RemoveEach(s, patch[..k])
  }

  /** Patch value m is cut out of a list whose last value is v. */
  ghost predicate LeavesBehind(s: seq<string>, patch: seq<string>, m: nat, v: string)
    requires m < |patch|
  {
    patch[m] in RemoveEach(s, patch[..m]) && Last(RemoveEach(s, patch[..m])) == v
  }

  lemma LeftBehindStep(s: seq<string>, patch: seq<string>, k: nat, v: string)
    requires k < |patch|
    ensures v in LeftBehind(s, patch[..k + 1]) <==> LeavesBehind(s, patch, k, v) || v in LeftBehind(s, patch[..k])
  {
    EachSnoc(s, patch, k);
  }

  ghost predicate SomeLeavesBehind(s: seq<string>, patch: seq<string>, k: nat, v: string)
    requires k <= |patch|
  {
    exists m :: 0 <= m < k && LeavesBehind(s, patch, m, v)
  }

  lemma SomeLeavesStep(s: seq<string>, patch: seq<string>, k: nat, v: string)
    requires k < |patch|
    ensures SomeLeavesBehind(s, patch, k + 1, v) <==> LeavesBehind(s, patch, k, v) || SomeLeavesBehind(s, patch, k, v)
  {
    if SomeLeavesBehind(s, patch, k + 1, v) {
      var m :| 0 <= m < k + 1 && LeavesBehind(s, patch, m, v);
      assert m == k || m < k;
    }
  }

  lemma {:induction false} LeftBehindMeans(s: seq<string>, patch: seq<string>, k: nat, v: string)
    requires k <= |patch|
    ensures v in LeftBehind(s, patch[..k]) <==> SomeLeavesBehind(s, patch, k, v)
  {
    if k > 0 {
      LeftBehindMeans(s, patch, k - 1, v);
      LeftBehindStep(s, patch, k - 1, v);
      SomeLeavesStep(s, patch, k - 1, v);
    }
  }

  /** A repeated patch value can panic: ["a", "b"] patched with "b" twice. */
  lemma RepeatedValuePanics()
    ensures !PatchSafe(["a", "b"], ["b", "b"])
  {
    var s, patch := ["a", "b"], ["b", "b"];
    assert patch[..1] == ["b"] && patch[..1][..0] == [];
    assert s[1..] == ["b"];
    assert RemoveEach(s, ["b"]) == ["a"];
    assert LeftBehind(s, ["b"]) == ["b"];
  }
}
