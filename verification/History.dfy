/** The hardware history: an append-only log of events per location, and the discovery that adds a
    Detected event only where it tells something new. */
module History {
  import opened Collect
  import opened Options

  datatype Kind = Added | Removed | Scanned | Detected

  datatype Event = Event(loc: string, fru: string, kind: Kind)

  /** A location as discovered, with the FRU found in it, if any. */
  datatype HwLoc = HwLoc(id: string, fru: Option<string>)

  type Log = seq<Event>

  // ---- What the log must not hold ----

  /** Events i and j are at one location, with nothing about it in between. */
  predicate Adjacent(log: Log, i: int, j: int) {
    0 <= i < j < |log| && log[i].loc == log[j].loc && forall k :: i < k < j ==> log[k].loc != log[j].loc
  }

  /** No location is reported to hold the same FRU twice in a row. */
  ghost predicate NoRepeats(log: Log) {
    forall i, j :: Adjacent(log, i, j) && log[j].kind.Detected? ==> log[i] != log[j]
  }

  /** Where the last event of the location is, or -1. */
  function LastAt(log: Log, loc: string): (r: int)
    ensures -1 <= r < |log|
    ensures r >= 0 ==> log[r].loc == loc
    ensures forall k :: r < k < |log| ==> log[k].loc != loc
  {
    if log == [] then -1
    else if log[|log| - 1].loc == loc then |log| - 1
    else LastAt(log[..|log| - 1], loc)
  }

  function Last(log: Log, loc: string): Option<Event> {
    var i := LastAt(log, loc);
    if i < 0 then None else Some(log[i])
  }

  lemma LastSnoc(log: Log, e: Event, loc: string)
    ensures Last(log + [e], loc) == if e.loc == loc then Some(e) else Last(log, loc)
  {
    assert (log + [e])[..|log|] == log;
  }

  lemma {:induction false} LastAppend(log: Log, more: Log, loc: string)
    ensures Last(log + more, loc) == if Last(more, loc).Some? then Last(more, loc) else Last(log, loc)
  {
    if more == [] {
      assert log + more == log;
    } else {
      var n := |more| - 1;
      assert log + more == (log + more[..n]) + [more[n]] && more == more[..n] + [more[n]];
      LastAppend(log, more[..n], loc);
      LastSnoc(log + more[..n], more[n], loc);
      LastSnoc(more[..n], more[n], loc);
    }
  }

  /** An event added at the end repeats exactly if it is Detected and is the location's last event again. */
  lemma NoRepeatsSnoc(log: Log, e: Event)
    ensures NoRepeats(log + [e]) <==> NoRepeats(log) && !(e.kind.Detected? && Last(log, e.loc) == Some(e))
  {
    var all, n, p := log + [e], |log|, LastAt(log, e.loc);
    assert forall k :: 0 <= k < n ==> all[k] == log[k];
    if NoRepeats(all) {
      forall i, j | Adjacent(log, i, j) && log[j].kind.Detected? ensures log[i] != log[j] {
        assert Adjacent(all, i, j);
      }
      if p >= 0 {
        assert Adjacent(all, p, n);
      }
    } else {
      var i, j :| Adjacent(all, i, j) && all[j].kind.Detected? && all[i] == all[j];
      if j < n {
        assert Adjacent(log, i, j);
      } else {
        assert all[i].loc == e.loc;
        assert i == p;
      }
    }
  }

  // ---- Generating events ----

  /** The FRU is news unless the location's last event detected this very FRU. */
  function News(log: Log, h: HwLoc): Option<Event> {
    if h.fru.None? then None else
      var e := Event(h.id, h.fru.value, Detected);
      if Last(log, h.id) == Some(e) then None else Some(e)
  }

  /** The events for all locations, each judged by the log before the call. */
  function AllNews(log: Log, hs: seq<HwLoc>): Log {
    if hs == [] then [] else
      var e := News(log, hs[|hs| - 1]);
      AllNews(log, hs[..|hs| - 1]) + (if e.Some? then [e.value] else [])
  }

  /** The populated locations all differ. */
  predicate DistinctLocs(hs: seq<HwLoc>) {
    forall i, j :: 0 <= i < j < |hs| && hs[i].fru.Some? && hs[j].fru.Some? ==> hs[i].id != hs[j].id
  }

  /** A new event comes from a populated location. */
  lemma {:induction false} NewsFrom(log: Log, hs: seq<HwLoc>, loc: string)
    requires forall i :: 0 <= i < |hs| && hs[i].fru.Some? ==> hs[i].id != loc
    ensures Last(AllNews(log, hs), loc).None?
  {
    if hs != [] {
      var n := |hs| - 1;
      NewsFrom(log, hs[..n], loc);
      assert hs[n].fru.Some? ==> hs[n].id != loc;
      var e := News(log, hs[n]);
      if e.Some? {
        LastSnoc(AllNews(log, hs[..n]), e.value, loc);
      }
    }
  }

  /** After a call every populated location's last event is the detection of its FRU. */
  lemma {:induction false} NewsAreCurrent(log: Log, hs: seq<HwLoc>, i: nat)
    requires DistinctLocs(hs) && i < |hs| && hs[i].fru.Some?
    ensures Last(log + AllNews(log, hs), hs[i].id) == Some(Event(hs[i].id, hs[i].fru.value, Detected))
  {
    var n := |hs| - 1;
    var before := AllNews(log, hs[..n]);
    var e := News(log, hs[n]);
    if i < n {
      NewsAreCurrent(log, hs[..n], i);
    } else {
      NewsFrom(log, hs[..n], hs[i].id);
      LastAppend(log, before, hs[i].id);
    }
    if e.Some? {
      LastSnoc(log + before, e.value, hs[i].id);
      assert log + AllNews(log, hs) == (log + before) + [e.value];
    } else {
      assert AllNews(log, hs) == before;
    }
  }

  lemma {:induction false} NothingNew(log: Log, hs: seq<HwLoc>)
    requires forall i :: 0 <= i < |hs| && hs[i].fru.Some? ==>
        Last(log, hs[i].id) == Some(Event(hs[i].id, hs[i].fru.value, Detected))
    ensures AllNews(log, hs) == []
  {
    if hs != [] {
      NothingNew(log, hs[..|hs| - 1]);
    }
  }

  /** Discovering the same again adds nothing. */
  lemma SecondRunAddsNothing(log: Log, hs: seq<HwLoc>)
    requires DistinctLocs(hs)
    ensures AllNews(log + AllNews(log, hs), hs) == []
  {
    forall i | 0 <= i < |hs| && hs[i].fru.Some?
      ensures Last(log + AllNews(log, hs), hs[i].id) == Some(Event(hs[i].id, hs[i].fru.value, Detected))
    {
      NewsAreCurrent(log, hs, i);
    }
    NothingNew(log + AllNews(log, hs), hs);
  }

  // ---- Exactly when a call repeats ----

  /** Entry j is news, and is the same news as the last entry before it that is news of its location. */
  predicate NewsAgain(log: Log, hs: seq<HwLoc>, i: int, j: int) {
    && 0 <= i < j < |hs|
    && News(log, hs[j]).Some? && News(log, hs[i]) == News(log, hs[j])
    && forall k :: i < k < j && hs[k].id == hs[j].id ==> News(log, hs[k]).None?
  }

  ghost predicate NoNewsAgain(log: Log, hs: seq<HwLoc>) {
    forall i, j :: !NewsAgain(log, hs, i, j)
  }

  /** The last entry that is news of the location, or -1. */
  function NewsAt(log: Log, hs: seq<HwLoc>, loc: string): (r: int)
    ensures -1 <= r < |hs|
    ensures r >= 0 ==> hs[r].id == loc && News(log, hs[r]).Some?
    ensures forall k :: r < k < |hs| && hs[k].id == loc ==> News(log, hs[k]).None?
  {
    if hs == [] then -1
    else if hs[|hs| - 1].id == loc && News(log, hs[|hs| - 1]).Some? then |hs| - 1
    else NewsAt(log, hs[..|hs| - 1], loc)
  }

  lemma {:induction false} LastOfNews(log: Log, hs: seq<HwLoc>, loc: string)
    ensures var i := NewsAt(log, hs, loc);
      Last(AllNews(log, hs), loc) == if i < 0 then None else News(log, hs[i])
  {
    if hs != [] {
      var n := |hs| - 1;
      LastOfNews(log, hs[..n], loc);
      var e := News(log, hs[n]);
      if e.Some? {
        LastSnoc(AllNews(log, hs[..n]), e.value, loc);
      } else {
        assert AllNews(log, hs) == AllNews(log, hs[..n]);
      }
    }
  }

  /** The last entry is the same news again exactly if its location's last news before it is that. */
  lemma NewsAgainLast(log: Log, hs: seq<HwLoc>)
    requires hs != [] && News(log, hs[|hs| - 1]).Some?
    ensures var n := |hs| - 1;
      (exists i :: NewsAgain(log, hs, i, n)) <==> Last(AllNews(log, hs[..n]), hs[n].id) == News(log, hs[n])
  {
    var n := |hs| - 1;
    var p := NewsAt(log, hs[..n], hs[n].id);
    LastOfNews(log, hs[..n], hs[n].id);
    if p >= 0 && News(log, hs[p]) == News(log, hs[n]) {
      assert NewsAgain(log, hs, p, n) by {
        forall k | p < k < n && hs[k].id == hs[n].id ensures News(log, hs[k]).None? {
          assert hs[..n][k] == hs[k];
        }
      }
    }
    if i :| NewsAgain(log, hs, i, n) {
      assert hs[i].id == hs[n].id && hs[..n][i] == hs[i];
      assert i == p;
    }
  }

  lemma NoNewsAgainSnoc(log: Log, hs: seq<HwLoc>)
    requires hs != []
    ensures var n := |hs| - 1;
      NoNewsAgain(log, hs) <==> NoNewsAgain(log, hs[..n]) && forall i :: !NewsAgain(log, hs, i, n)
  {
    var n := |hs| - 1;
    forall i, j | 0 <= i < j < n ensures NewsAgain(log, hs, i, j) <==> NewsAgain(log, hs[..n], i, j) {
      assert forall k :: i <= k <= j ==> hs[..n][k] == hs[k];
    }
    if i, j :| NewsAgain(log, hs[..n], i, j) {
      assert NewsAgain(log, hs, i, j);
    }
    if i, j :| NewsAgain(log, hs, i, j) {
      assert j < n ==> NewsAgain(log, hs[..n], i, j);
    }
  }

  /** Whatever the locations: a call leaves the log without repeats exactly if no entry is the same
      news as the last entry before it that is news of its location. */
  lemma {:induction false} GenerateRepeatsMeans(log: Log, hs: seq<HwLoc>)
    requires NoRepeats(log)
    ensures NoRepeats(log + AllNews(log, hs)) <==> NoNewsAgain(log, hs)
  {
    if hs == [] {
      assert log + [] == log;
    } else {
      var n := |hs| - 1;
      var before, e := AllNews(log, hs[..n]), News(log, hs[n]);
      GenerateRepeatsMeans(log, hs[..n]);
      NoNewsAgainSnoc(log, hs);
      if e.Some? {
        NewsAgainLast(log, hs);
        LastAppend(log, before, hs[n].id);
        NoRepeatsSnoc(log + before, e.value);
        assert log + AllNews(log, hs) == (log + before) + [e.value];
      } else {
        assert AllNews(log, hs) == before;
        assert forall i :: !NewsAgain(log, hs, i, n);
      }
    }
  }

  /** On distinct locations it never repeats. */
  lemma NewsKeepNoRepeats(log: Log, hs: seq<HwLoc>)
    requires NoRepeats(log) && DistinctLocs(hs)
    ensures NoNewsAgain(log, hs) && NoRepeats(log + AllNews(log, hs))
  {
    GenerateRepeatsMeans(log, hs);
  }

  /** What one entry makes news: its FRU, if it has one that the location's last event has not detected. */
  lemma NewsOfOne(log: Log, h: HwLoc)
    ensures AllNews(log, [h]) ==
      if h.fru.Some? && Last(log, h.id) != Some(Event(h.id, h.fru.value, Detected))
      then [Event(h.id, h.fru.value, Detected)] else []
  {
    assert [h][..0] == [];
  }

  /** The news of a list are those of its parts, in order. */
  lemma {:induction false} NewsConcat(log: Log, a: seq<HwLoc>, b: seq<HwLoc>)
    ensures AllNews(log, a + b) == AllNews(log, a) + AllNews(log, b)
  {
    if b == [] {
      assert a + b == a;
    } else {
      assert (a + b)[..|a + b| - 1] == a + b[..|b| - 1];
      NewsConcat(log, a, b[..|b| - 1]);
    }
  }

  /** Two calls that both read the log before either writes, on any locations: they repeat exactly
      when one call on both lists of locations would. */
  lemma OverlapRepeats(log: Log, a: seq<HwLoc>, b: seq<HwLoc>)
    requires NoRepeats(log)
    ensures NoRepeats(log + AllNews(log, a) + AllNews(log, b)) <==> NoNewsAgain(log, a + b)
  {
    NewsConcat(log, a, b);
    assert log + AllNews(log, a) + AllNews(log, b) == log + AllNews(log, a + b);
    GenerateRepeatsMeans(log, a + b);
  }

  /** In particular two calls with a location in common that is news, and that each list only once. */
  lemma SharedLocationRepeats(log: Log, a: seq<HwLoc>, b: seq<HwLoc>, i: nat, j: nat)
    requires NoRepeats(log) && DistinctLocs(a) && DistinctLocs(b)
    requires i < |a| && j < |b| && a[i] == b[j] && News(log, a[i]).Some?
    ensures !NoRepeats(log + AllNews(log, a) + AllNews(log, b))
  {
    var all, m := a + b, |a| + j;
    assert all[i] == a[i] && all[m] == b[j];
    forall k | i < k < m && all[k].id == all[m].id ensures News(log, all[k]).None? {
      assert k < |a| ==> all[k] == a[k];
      assert k >= |a| ==> all[k] == b[k - |a|];
    }
    assert NewsAgain(log, all, i, m);
    OverlapRepeats(log, a, b);
  }

  lemma {:induction false} SomeNews(log: Log, hs: seq<HwLoc>)
    ensures AllNews(log, hs) != [] <==> exists i :: 0 <= i < |hs| && News(log, hs[i]).Some?
  {
    if hs != [] {
      var n := |hs| - 1;
      SomeNews(log, hs[..n]);
      if i :| 0 <= i < |hs| && News(log, hs[i]).Some? {
        assert i < n ==> hs[..n][i] == hs[i];
      }
      if i :| 0 <= i < n && News(log, hs[..n][i]).Some? {
        assert hs[..n][i] == hs[i];
      }
    }
  }

  /** Two overlapping calls on the same distinct locations repeat whatever there is to add. */
  lemma SameCallTwice(log: Log, hs: seq<HwLoc>)
    requires NoRepeats(log) && DistinctLocs(hs)
    ensures NoRepeats(log + AllNews(log, hs) + AllNews(log, hs)) <==> AllNews(log, hs) == []
  {
    SomeNews(log, hs);
    if i :| 0 <= i < |hs| && News(log, hs[i]).Some? {
      SharedLocationRepeats(log, hs, hs, i, i);
    } else {
      assert log + [] + [] == log;
    }
  }

  /** A location given twice in a row with one FRU repeats, if it is news at all. */
  lemma RepeatedLocationRepeats(log: Log, hs: seq<HwLoc>, i: nat, j: nat)
    requires NoRepeats(log) && i < j < |hs| && hs[i] == hs[j] && hs[i].fru.Some?
    requires forall k :: i < k < j ==> hs[k].id != hs[j].id
    requires Last(log, hs[i].id) != Some(Event(hs[i].id, hs[i].fru.value, Detected))
    ensures !NoRepeats(log + AllNews(log, hs))
  {
    assert NewsAgain(log, hs, i, j);
    GenerateRepeatsMeans(log, hs);
  }

  // ---- Exactly when a deletion repeats ----

  function WithoutLoc(log: Log, loc: string): Log {
    if log == [] then [] else
      WithoutLoc(log[..|log| - 1], loc) + (if log[|log| - 1].loc == loc then [] else [log[|log| - 1]])
  }

  function WithoutFru(log: Log, fru: string): Log {
    if log == [] then [] else
      WithoutFru(log[..|log| - 1], fru) + (if log[|log| - 1].fru == fru then [] else [log[|log| - 1]])
  }

  lemma Regroup(a: Log, b: Log, c: Log)
    ensures (a + b) + c == a + (b + c)
  {
  }

  /** What a deletion leaves of a log is what it leaves of its parts, in order, */
  lemma {:induction false} WithoutLocConcat(log: Log, more: Log, loc: string)
    ensures WithoutLoc(log + more, loc) == WithoutLoc(log, loc) + WithoutLoc(more, loc)
  {
    if more == [] {
      assert log + more == log;
    } else {
      var n := |more| - 1;
      WithoutLocConcat(log, more[..n], loc);
      assert (log + more)[..|log + more| - 1] == log + more[..n];
      Regroup(WithoutLoc(log, loc), WithoutLoc(more[..n], loc), if more[n].loc == loc then [] else [more[n]]);
    }
  }

  lemma {:induction false} WithoutFruConcat(log: Log, more: Log, fru: string)
    ensures WithoutFru(log + more, fru) == WithoutFru(log, fru) + WithoutFru(more, fru)
  {
    if more == [] {
      assert log + more == log;
    } else {
      var n := |more| - 1;
      WithoutFruConcat(log, more[..n], fru);
      assert (log + more)[..|log + more| - 1] == log + more[..n];
      Regroup(WithoutFru(log, fru), WithoutFru(more[..n], fru), if more[n].fru == fru then [] else [more[n]]);
    }
  }

  /** down to single events: those of the location, or of the FRU, go, and the others stay. */
  lemma WithoutOne(e: Event, x: string)
    ensures WithoutLoc([e], x) == if e.loc == x then [] else [e]
    ensures WithoutFru([e], x) == if e.fru == x then [] else [e]
  {
    assert [e][..0] == [];
  }

  lemma {:induction false} LastWithout(log: Log, loc: string, other: string)
    ensures Last(WithoutLoc(log, loc), other) == if other == loc then None else Last(log, other)
  {
    if log != [] {
      var n := |log| - 1;
      LastWithout(log[..n], loc, other);
      assert log == log[..n] + [log[n]];
      LastSnoc(log[..n], log[n], other);
      if log[n].loc != loc {
        LastSnoc(WithoutLoc(log[..n], loc), log[n], other);
      } else {
        assert WithoutLoc(log, loc) == WithoutLoc(log[..n], loc);
      }
    }
  }

  lemma {:induction false} WithoutLocNoRepeats(log: Log, loc: string)
    requires NoRepeats(log)
    ensures NoRepeats(WithoutLoc(log, loc))
  {
    if log != [] {
      var n := |log| - 1;
      assert log == log[..n] + [log[n]];
      NoRepeatsSnoc(log[..n], log[n]);
      WithoutLocNoRepeats(log[..n], loc);
      if log[n].loc != loc {
        LastWithout(log[..n], loc, log[n].loc);
        NoRepeatsSnoc(WithoutLoc(log[..n], loc), log[n]);
      } else {
        assert WithoutLoc(log, loc) == WithoutLoc(log[..n], loc);
      }
    }
  }

  /** Two detections of one other FRU with nothing about their location in between but the FRU's events. */
  predicate HeldApart(log: Log, fru: string, i: int, j: int) {
    && 0 <= i < j < |log| && log[i] == log[j] && log[j].kind.Detected? && log[j].fru != fru
    && forall k :: i < k < j && log[k].loc == log[j].loc ==> log[k].fru == fru
  }

  ghost predicate NoneHeldApart(log: Log, fru: string) {
    forall i, j :: !HeldApart(log, fru, i, j)
  }

  /** Where the location's last event that is not the FRU's is, or -1. */
  function OtherAt(log: Log, loc: string, fru: string): (r: int)
    ensures -1 <= r < |log|
    ensures r >= 0 ==> log[r].loc == loc && log[r].fru != fru
    ensures forall k :: r < k < |log| && log[k].loc == loc ==> log[k].fru == fru
  {
    if log == [] then -1
    else if log[|log| - 1].loc == loc && log[|log| - 1].fru != fru then |log| - 1
    else OtherAt(log[..|log| - 1], loc, fru)
  }

  lemma {:induction false} LastWithoutFru(log: Log, loc: string, fru: string)
    ensures var i := OtherAt(log, loc, fru); Last(WithoutFru(log, fru), loc) == if i < 0 then None else Some(log[i])
  {
    if log != [] {
      var n := |log| - 1;
      LastWithoutFru(log[..n], loc, fru);
      if log[n].fru != fru {
        LastSnoc(WithoutFru(log[..n], fru), log[n], loc);
      } else {
        assert WithoutFru(log, fru) == WithoutFru(log[..n], fru);
      }
    }
  }

  lemma HeldApartLast(log: Log, fru: string)
    requires log != [] && log[|log| - 1].fru != fru && log[|log| - 1].kind.Detected?
    ensures var n := |log| - 1;
      (exists i :: HeldApart(log, fru, i, n)) <==> Last(WithoutFru(log[..n], fru), log[n].loc) == Some(log[n])
  {
    var n := |log| - 1;
    var p := OtherAt(log[..n], log[n].loc, fru);
    LastWithoutFru(log[..n], log[n].loc, fru);
    if p >= 0 && log[p] == log[n] {
      assert HeldApart(log, fru, p, n) by {
        forall k | p < k < n && log[k].loc == log[n].loc ensures log[k].fru == fru {
          assert log[..n][k] == log[k];
        }
      }
    }
    if i :| HeldApart(log, fru, i, n) {
      assert log[..n][i] == log[i];
      assert i == p;
    }
  }

  lemma NoneHeldApartSnoc(log: Log, fru: string)
    requires log != []
    ensures var n := |log| - 1;
      NoneHeldApart(log, fru) <==> NoneHeldApart(log[..n], fru) && forall i :: !HeldApart(log, fru, i, n)
  {
    var n := |log| - 1;
    forall i, j | 0 <= i < j < n ensures HeldApart(log, fru, i, j) <==> HeldApart(log[..n], fru, i, j) {
      assert forall k :: i <= k <= j ==> log[..n][k] == log[k];
    }
    if i, j :| HeldApart(log[..n], fru, i, j) {
      assert HeldApart(log, fru, i, j);
    }
    if i, j :| HeldApart(log, fru, i, j) {
      assert j < n ==> HeldApart(log[..n], fru, i, j);
    }
  }

  /** Deleting a FRU's history leaves no repeat exactly if its events do not hold two detections of one
      other FRU apart. */
  lemma {:induction false} DeletingAFruMeans(log: Log, fru: string)
    ensures NoRepeats(WithoutFru(log, fru)) <==> NoneHeldApart(log, fru)
  {
    if log != [] {
      var n := |log| - 1;
      DeletingAFruMeans(log[..n], fru);
      NoneHeldApartSnoc(log, fru);
      if log[n].fru == fru {
        assert WithoutFru(log, fru) == WithoutFru(log[..n], fru);
        assert forall i :: !HeldApart(log, fru, i, n);
      } else {
        NoRepeatsSnoc(WithoutFru(log[..n], fru), log[n]);
        if log[n].kind.Detected? {
          HeldApartLast(log, fru);
        } else {
          assert forall i :: !HeldApart(log, fru, i, n);
        }
      }
    }
  }

  /** A log without repeats that gets one: FRU b was in the slot between two detections of a. */
  lemma DeletingAFruCanRepeat(loc: string, a: string, b: string)
    requires a != b
    ensures var log := [Event(loc, a, Detected), Event(loc, b, Detected), Event(loc, a, Detected)];
      NoRepeats(log) && !NoRepeats(WithoutFru(log, b))
  {
    var log := [Event(loc, a, Detected), Event(loc, b, Detected), Event(loc, a, Detected)];
    assert !Adjacent(log, 0, 2) by {
      assert log[1].loc == log[2].loc;
    }
    assert HeldApart(log, b, 0, 2);
    DeletingAFruMeans(log, b);
  }

  // ---- Writing late ----

  /** When its turn comes, event j is not Detected and the same as its location's last one. */
  ghost predicate LandsAt(log: Log, more: Log, j: nat)
    requires j < |more|
  {
    more[j].kind.Detected? ==> Last(log + more[..j], more[j].loc) != Some(more[j])
  }

  ghost predicate Lands(log: Log, more: Log) { forall j :: 0 <= j < |more| ==> LandsAt(log, more, j) }

  lemma LandsSnoc(log: Log, more: Log)
    requires more != []
    ensures var n := |more| - 1; Lands(log, more) <==> Lands(log, more[..n]) && LandsAt(log, more, n)
  {
    var n := |more| - 1;
    forall j | 0 <= j < n ensures LandsAt(log, more[..n], j) <==> LandsAt(log, more, j) {
      assert more[..n][..j] == more[..j];
    }
  }

  /** Whatever happened to the log since they were made up: adding events leaves it without repeats
      exactly if they land. */
  lemma {:induction false} AppendMeans(log: Log, more: Log)
    requires NoRepeats(log)
    ensures NoRepeats(log + more) <==> Lands(log, more)
  {
    if more == [] {
      assert log + more == log;
    } else {
      var n := |more| - 1;
      AppendMeans(log, more[..n]);
      LandsSnoc(log, more);
      NoRepeatsSnoc(log + more[..n], more[n]);
      assert log + more == (log + more[..n]) + [more[n]];
    }
  }

  lemma {:induction false} SameLastSameNews(log: Log, later: Log, hs: seq<HwLoc>)
    requires forall i :: 0 <= i < |hs| && hs[i].fru.Some? ==> Last(later, hs[i].id) == Last(log, hs[i].id)
    ensures AllNews(later, hs) == AllNews(log, hs)
  {
    if hs != [] {
      SameLastSameNews(log, later, hs[..|hs| - 1]);
    }
  }

  /** A call on distinct locations may write however late, as long as the last event of none of its
      locations is another one by then. */
  lemma QuietLocationsLand(log: Log, later: Log, hs: seq<HwLoc>)
    requires NoRepeats(later) && DistinctLocs(hs)
    requires forall i :: 0 <= i < |hs| && hs[i].fru.Some? ==> Last(later, hs[i].id) == Last(log, hs[i].id)
    ensures Lands(later, AllNews(log, hs))
  {
    SameLastSameNews(log, later, hs);
    NewsKeepNoRepeats(later, hs);
    AppendMeans(later, AllNews(log, hs));
  }

  // ---- Every run ----

  /** The log, and what the calls that have read it are about to write. */
  datatype State = State(log: Log, calls: map<nat, Log>)

  /** A call reads and writes in two transactions; in between anything can happen. Record is an event
      added by other code. */
  datatype Step =
    | Read(call: nat, hs: seq<HwLoc>)
    | Write(call: nat, ok: bool)
    | Record(e: Event)
    | DeleteByLoc(loc: string)
    | DeleteByFru(fru: string)
    | DeleteAll

  /** One step; a step that is not enabled changes nothing. */
  function Next(s: State, a: Step): State {
    match a
    case Read(call, hs) => if call in s.calls then s else s.(calls := s.calls[call := AllNews(s.log, hs)])
    case Write(call, ok) =>
      if call !in s.calls then s
      else State(if ok then s.log + s.calls[call] else s.log, s.calls - {call})
    case Record(e) => s.(log := s.log + [e])
    case DeleteByLoc(loc) => s.(log := WithoutLoc(s.log, loc))
    case DeleteByFru(fru) => s.(log := WithoutFru(s.log, fru))
    case DeleteAll => s.(log := [])
  }

  const EMPTY := State([], map[])

  function Run(s: State, steps: seq<Step>): State {
    if steps == [] then s else Next(Run(s, steps[..|steps| - 1]), steps[|steps| - 1])
  }

  /** What can be asked of a step beforehand so that it leaves no repeat. */
  ghost predicate Harmless(s: State, a: Step) {
    match a
    case Write(call, ok) => call in s.calls && ok ==> Lands(s.log, s.calls[call])
    case Record(e) => e.kind.Detected? ==> Last(s.log, e.loc) != Some(e)
    case DeleteByFru(fru) => NoneHeldApart(s.log, fru)
    case _ => true
  }

  /** Exactly the harmless steps keep the log without repeats. */
  lemma NextNoRepeats(s: State, a: Step)
    requires NoRepeats(s.log)
    ensures NoRepeats(Next(s, a).log) <==> Harmless(s, a)
  {
    match a
    case Read(_, _) =>
    case Write(call, ok) =>
      if call in s.calls {
        AppendMeans(s.log, s.calls[call]);
      }
    case Record(e) => NoRepeatsSnoc(s.log, e);
    case DeleteByLoc(loc) => WithoutLocNoRepeats(s.log, loc);
    case DeleteByFru(fru) => DeletingAFruMeans(s.log, fru);
    case DeleteAll =>
  }

  /** Over every run of harmless steps, in whatever order calls read and write, no location is reported
      to hold the same FRU twice in a row. */
  lemma {:induction false} RunsHaveNoRepeats(steps: seq<Step>)
    requires forall i :: 0 <= i < |steps| ==> Harmless(Run(EMPTY, steps[..i]), steps[i])
    ensures NoRepeats(Run(EMPTY, steps).log)
  {
    if steps != [] {
      var before := steps[..|steps| - 1];
      forall i | 0 <= i < |before| ensures Harmless(Run(EMPTY, before[..i]), before[i]) {
        assert before[..i] == steps[..i];
      }
      RunsHaveNoRepeats(before);
      NextNoRepeats(Run(EMPTY, before), steps[|steps| - 1]);
    }
  }

  /** A call that writes right after it has read does what GenerateHWInvHist does on its own, and is
      harmless exactly if no entry is the same news again. */
  lemma AtOnce(s: State, call: nat, hs: seq<HwLoc>)
    requires call !in s.calls && NoRepeats(s.log)
    ensures var t := Next(s, Read(call, hs));
      && Next(t, Write(call, true)) == State(s.log + AllNews(s.log, hs), s.calls)
      && (Harmless(t, Write(call, true)) <==> NoNewsAgain(s.log, hs))
  {
    var t := Next(s, Read(call, hs));
    assert t.calls - {call} == s.calls;
    AppendMeans(s.log, AllNews(s.log, hs));
    GenerateRepeatsMeans(s.log, hs);
  }

  // ---- The store ----

  function Locs(log: Log): (r: seq<string>)
    ensures |r| == |log| && forall i :: 0 <= i < |log| ==> r[i] == log[i].loc
  {
    seq(|log|, i requires 0 <= i < |log| => log[i].loc)
  }

  class Store {
    var log: Log

    constructor ()
      ensures log == []
    {
      log := [];
    }

    /** The last event of each of the locations that has one; of all locations when none is given. */
    method GetHWInvHistLastEvents(ids: seq<string>, ok: bool) returns (lhs: Log, err: bool)
      ensures err == !ok
      ensures ok ==> forall e :: e in lhs <==> Last(log, e.loc) == Some(e) && (ids == [] || e.loc in ids)
      ensures ok ==> Distinct(lhs)
    {
      lhs, err := [], !ok;
      if err {
        return;
      }
      var locs := if ids == [] then Locs(log) else ids;
      for i := 0 to |locs|
        invariant Distinct(lhs)
        invariant forall e :: e in lhs ==> Last(log, e.loc) == Some(e) && e.loc in locs
        invariant forall k :: 0 <= k < i && Last(log, locs[k]).Some? ==> Last(log, locs[k]).value in lhs
      {
        var last := Last(log, locs[i]);
        if last.Some? && last.value !in lhs {
          lhs := lhs + [last.value];
        }
      }
      forall e: Event | Last(log, e.loc) == Some(e) && (ids == [] || e.loc in ids) ensures e in lhs {
        assert ids == [] ==> locs[LastAt(log, e.loc)] == e.loc;
        var k :| 0 <= k < |locs| && locs[k] == e.loc;
      }
    }

    /** All events or, when one has no FRU id or the store fails, none. */
    method InsertHWInvHists(hhs: Log, ok: bool) returns (err: bool)
      modifies this
      ensures err <==> hhs != [] && (!ok || exists e :: e in hhs && e.fru == "")
      ensures log == if err then old(log) else old(log) + hhs
    {
      if hhs == [] {
        return false;
      }
      for i := 0 to |hhs|
        invariant forall k :: 0 <= k < i ==> hhs[k].fru != ""
        invariant log == old(log)
      {
        if hhs[i].fru == "" {
          return true;
        }
      }
      if !ok {
        return true;
      }
      log := log + hhs;
      return false;
    }

    method GenerateHWInvHist(hwlocs: seq<HwLoc>, readOk: bool, insertOk: bool) returns (err: bool)
      modifies this
      ensures log == if err then old(log) else old(log) + AllNews(old(log), hwlocs)
      ensures var news := AllNews(old(log), hwlocs);
        err <==> !readOk || (news != [] && (!insertOk || exists e :: e in news && e.fru == ""))
    {
      var locIDs := [];
      for i := 0 to |hwlocs|
        invariant forall k :: 0 <= k < i && hwlocs[k].fru.Some? ==> hwlocs[k].id in locIDs
        invariant log == old(log)
      {
        if hwlocs[i].fru.Some? {
          locIDs := locIDs + [hwlocs[i].id];
        }
      }
      var lhs;
      lhs, err := GetHWInvHistLastEvents(locIDs, readOk);
      if err {
        return;
      }
      var lhsMap := LastByLoc(lhs);
      var hwhists := [];
      for i := 0 to |hwlocs|
        invariant hwhists == AllNews(log, hwlocs[..i])
        invariant log == old(log)
      {
        var h := hwlocs[i];
        assert hwlocs[..i + 1][..i] == hwlocs[..i];
        if h.fru.Some? {
          assert h.id in locIDs;
          MapIsLast(log, lhs, h.id);
          if h.id !in lhsMap || lhsMap[h.id].fru != h.fru.value || lhsMap[h.id].kind != Detected {
            hwhists := hwhists + [Event(h.id, h.fru.value, Detected)];
          }
        }
      }
      assert hwlocs[..|hwlocs|] == hwlocs;
      err := InsertHWInvHists(hwhists, insertOk);
      if hwhists == [] {
        assert log == old(log) + [];
      }
    }
  }

  function LastByLoc(lhs: Log): map<string, Event> {
    if lhs == [] then map[] else LastByLoc(lhs[..|lhs| - 1])[lhs[|lhs| - 1].loc := lhs[|lhs| - 1]]
  }

  lemma {:induction false} MapHolds(lhs: Log, loc: string)
    ensures loc in LastByLoc(lhs) <==> exists e :: e in lhs && e.loc == loc
    ensures loc in LastByLoc(lhs) ==> LastByLoc(lhs)[loc] in lhs && LastByLoc(lhs)[loc].loc == loc
  {
    if lhs != [] {
      var n := |lhs| - 1;
      MapHolds(lhs[..n], loc);
      if e :| e in lhs && e.loc == loc {
        assert e in lhs[..n] || e == lhs[n];
      }
    }
  }

  /** The map built from the last events answers as the log does. */
  lemma MapIsLast(log: Log, lhs: Log, loc: string)
    requires forall e :: e in lhs && e.loc == loc ==> Last(log, loc) == Some(e)
    requires forall e :: Last(log, loc) == Some(e) ==> e in lhs
    ensures if loc in LastByLoc(lhs) then Last(log, loc) == Some(LastByLoc(lhs)[loc]) else Last(log, loc) == None
  {
    MapHolds(lhs, loc);
    if Last(log, loc).Some? {
      assert Last(log, loc).value in lhs;
    }
  }
}
