/** Many goroutines sharing one SyncMap: each lookup call runs look, probe the
    database, sync, look again, for at most two rounds, while the database
    changes underneath. Every step below is one atomic action of one goroutine;
    the write lock is held from the version test to the end of a rebuild. */
module SyncProtocol {
  import opened Options
  import opened Text
  import opened EndpointIndex

  type Tid = nat

  /** What a call asks the cache for, and the endpoint name it probes the database with. */
  datatype Query = ById(ep: string) | ByUri(ep: string, uri: string) | Children(ep: string)

  datatype Answer = Miss | Endp(e: Endpoint) | Id(id: string) | Ids(ids: seq<string>)

  function Ask(c: Cache, q: Query): Answer {
    match q
    case ById(ep) => if ep in c.vals then Endp(c.vals[ep]) else Miss
    case ByUri(ep, uri) =>
      var k := UriKey(ep, uri);
      if k in c.keys && c.keys[k] != "" then Id(c.keys[k]) else Miss
    case Children(ep) =>
      var k := ChildrenKey(ep);
      if k in c.keys && c.keys[k] != "" then Ids(Split(c.keys[k], ',')) else Miss
  }

  /** The database test: a CabinetPDUController is looked for among parents, anything else among IDs. */
  predicate Probe(db: seq<Endpoint>, pdu: bool, ep: string) {
    if pdu then exists e :: e in db && e.rfEndpointID == ep
    else exists e :: e in db && e.id == ep
  }

  const SYNC_RETRIES := 3

  datatype Outcome = Returned | NotInDb | Failed

  datatype Pc =
    | Look                          // about to read the cache
    | Check(tries: nat)             // about to probe the database
    | Sync(tries: nat)              // about to call TrySync
    | Fetch(tries: nat)             // holds the lock, about to read the rows
    | Install(rows: seq<Endpoint>)  // holds the lock, about to store the new maps
    | Done(out: Outcome)

  /** One lookup call. `round` counts finished probes; `present` says that since the
      first successful probe the database has never stopped holding the answer. */
  datatype Call = Call(q: Query, pdu: bool, pc: Pc, round: nat, snum: nat, ans: Answer,
                       didUpdate: bool, present: bool)

  /** The shared state, with the history of installed caches and of who installed them. */
  datatype State = State(db: seq<Endpoint>, cache: Cache, syncNum: nat, writer: Option<Tid>,
                         calls: map<Tid, Call>, installed: seq<Cache>, winners: seq<Tid>)

  function Initial(db: seq<Endpoint>): State {
    State(db, EMPTY_CACHE, 0, None, map[], [EMPTY_CACHE], [])
  }

  datatype Step =
    | Spawn(t: Tid, q: Query, pdu: bool)
    | LookStep(t: Tid)
    | CheckOk(t: Tid)
    | CheckError(t: Tid, driver: bool)
    | SyncStep(t: Tid)
    | FetchOk(t: Tid)
    | FetchError(t: Tid)
    | InstallStep(t: Tid)
    | DbChange(rows: seq<Endpoint>)

  predicate Held(db: seq<Endpoint>, c: Call) {
    Probe(db, c.pdu, c.q.ep) && Ask(Build(db), c.q) != Miss
  }

  predicate Enabled(s: State, step: Step) {
    match step
    case Spawn(t, _, _) => t !in s.calls
    case DbChange(_) => true
    case LookStep(t) => t in s.calls && s.calls[t].pc.Look? && s.writer.None?
    case CheckOk(t) => t in s.calls && s.calls[t].pc.Check?
    case CheckError(t, _) => t in s.calls && s.calls[t].pc.Check?
    case SyncStep(t) => t in s.calls && s.calls[t].pc.Sync? && s.writer.None?
    case FetchOk(t) => t in s.calls && s.calls[t].pc.Fetch?
    case FetchError(t) => t in s.calls && s.calls[t].pc.Fetch?
    case InstallStep(t) => t in s.calls && s.calls[t].pc.Install?
  }

  /** A cache read, and what the two-round loop does with it. */
  function AfterLook(c: Call, cache: Cache, syncNum: nat): Call {
    var c' := c.(ans := Ask(cache, c.q), snum := syncNum);
    if c'.ans != Miss || c.round == 2 || c.didUpdate then c'.(pc := Done(Returned))
    else c'.(pc := Check(0))
  }

  function AfterCheck(c: Call, db: seq<Endpoint>): Call {
    if Probe(db, c.pdu, c.q.ep)
    then c.(pc := Sync(0), round := c.round + 1,
            present := Held(db, c) && (c.round == 0 || c.present))
    else c.(pc := Done(NotInDb))
  }

  function Apply(s: State, step: Step): State {
    if !Enabled(s, step) then s
    else match step
      case Spawn(t, q, pdu) =>
        s.(calls := s.calls[t := Call(q, pdu, Look, 0, 0, Miss, false, false)])
      case DbChange(rows) =>
        s.(db := rows,
           calls := map t | t in s.calls :: s.calls[t].(present := s.calls[t].present && Held(rows, s.calls[t])))
      case LookStep(t) =>
        s.(calls := s.calls[t := AfterLook(s.calls[t], s.cache, s.syncNum)])
      case CheckOk(t) =>
        s.(calls := s.calls[t := AfterCheck(s.calls[t], s.db)])
      case CheckError(t, driver) =>
        var n := s.calls[t].pc.tries + 1;
        var pc := if driver || n == SYNC_RETRIES then Done(Failed) else Check(n);
        s.(calls := s.calls[t := s.calls[t].(pc := pc)])
      case SyncStep(t) =>
        var c := s.calls[t];
        if s.syncNum != c.snum then s.(calls := s.calls[t := c.(pc := Look, didUpdate := false)])
        else s.(calls := s.calls[t := c.(pc := Fetch(c.pc.tries))], writer := Some(t))
      case FetchOk(t) =>
        s.(calls := s.calls[t := s.calls[t].(pc := Install(s.db))])
      case FetchError(t) =>
        var n := s.calls[t].pc.tries + 1;
        var pc := if n == SYNC_RETRIES then Done(Failed) else Sync(n);
        s.(calls := s.calls[t := s.calls[t].(pc := pc)], writer := None)
      case InstallStep(t) =>
        var cache := Build(s.calls[t].pc.rows);
        s.(calls := s.calls[t := s.calls[t].(pc := Look, didUpdate := true)], writer := None,
           cache := cache, syncNum := s.syncNum + 1,
           installed := s.installed + [cache], winners := s.winners + [t])
  }

  function Run(s: State, steps: seq<Step>): State {
    if steps == [] then s else Apply(Run(s, steps[..|steps| - 1]), steps[|steps| - 1])
  }

  // ---- Invariant ----

  ghost predicate LockOk(s: State) {
    && (s.writer.Some? ==> s.writer.value in s.calls)
    && forall t :: t in s.calls ==> (s.calls[t].pc.Fetch? || s.calls[t].pc.Install? <==> s.writer == Some(t))
  }

  ghost predicate HistoryOk(s: State) {
    && |s.installed| == s.syncNum + 1
    && |s.winners| == s.syncNum
    && s.cache == s.installed[s.syncNum]
    && s.installed[0] == EMPTY_CACHE
  }

  /** A rebuild may still install rows fetched before a call's first probe; SinceRead says
      that none is left once the call has read the cache a second time. */
  ghost predicate CallOk(s: State, t: Tid)
    requires t in s.calls
  {
    var c := s.calls[t];
    && c.snum <= s.syncNum && c.round <= 2
    && (c.round > 0 && c.present ==> Held(s.db, c))
    && (c.round == 0 && c.pc.Done? ==> c.ans != Miss || !c.pc.out.Returned?)
    && (c.pc.Fetch? || c.pc.Install? ==> c.snum == s.syncNum)
    && (c.pc.Sync? || c.pc.Fetch? || c.pc.Install? ==> 1 <= c.round <= 2 && !c.didUpdate)
    && (c.pc.Check? ==> c.round <= 1 && !c.didUpdate)
    && (c.pc.Look? && c.round == 0 ==> !c.didUpdate)
    && (c.pc.Install? && c.present ==> Ask(Build(c.pc.rows), c.q) != Miss)
    && (c.pc.Look? && c.didUpdate && c.present ==> Ask(s.cache, c.q) != Miss && FetchedSince(s, c))
    // after the second read, every rebuild started later, so it fetched the answer
    && (c.round == 2 || (c.round == 1 && c.pc.Check?) ==> c.present ==> SinceRead(s, c))
    && (c.round == 2 && c.pc.Look? && !c.didUpdate ==> c.snum < s.syncNum)
    && (c.pc.Done? && c.pc.out.Returned? && c.present ==> c.ans != Miss)
    && (c.pc.Done? && c.pc.out.NotInDb? ==> !c.present)
    && (c.round == 0 ==> !c.present)
    && (c.pc.Done? && c.pc.out.Returned? ==>
          c.snum < |s.installed| && c.ans == Ask(s.installed[c.snum], c.q))
  }

  /** No rows waiting to be installed lack the call's answer. */
  ghost predicate FetchedSince(s: State, c: Call) {
    forall w :: w in s.calls && s.calls[w].pc.Install? ==> Ask(Build(s.calls[w].pc.rows), c.q) != Miss
  }

  /** Nothing fetched or installed since the call last read the cache lacks its answer. */
  ghost predicate SinceRead(s: State, c: Call) {
    (c.snum < s.syncNum ==> Ask(s.cache, c.q) != Miss) && FetchedSince(s, c)
  }

  ghost predicate Inv(s: State) {
    LockOk(s) && HistoryOk(s) && forall t :: t in s.calls ==> CallOk(s, t)
  }

  function Actor(step: Step): Option<Tid> {
    if step.DbChange? then None else Some(step.t)
  }

  lemma LockAndHistoryKept(s: State, step: Step)
    requires LockOk(s) && HistoryOk(s)
    ensures LockOk(Apply(s, step)) && HistoryOk(Apply(s, step))
  {
  }

  lemma OtherCallKeptByDbChange(s: State, rows: seq<Endpoint>, t: Tid)
    requires Inv(s) && t in s.calls
    ensures t in Apply(s, DbChange(rows)).calls && CallOk(Apply(s, DbChange(rows)), t)
  {
    assert CallOk(s, t);
  }

  lemma OtherCallKeptByFetch(s: State, w: Tid, t: Tid)
    requires Inv(s) && t in s.calls && w != t && Enabled(s, FetchOk(w))
    ensures t in Apply(s, FetchOk(w)).calls && CallOk(Apply(s, FetchOk(w)), t)
  {
    assert CallOk(s, t);
  }

  lemma OtherCallKeptByInstall(s: State, w: Tid, t: Tid)
    requires Inv(s) && t in s.calls && w != t && Enabled(s, InstallStep(w))
    ensures t in Apply(s, InstallStep(w)).calls && CallOk(Apply(s, InstallStep(w)), t)
  {
    assert CallOk(s, t);
  }

  /** A step that touches neither the database nor the cache and fetches no rows. */
  ghost predicate Quiet(s: State, s': State) {
    && s'.db == s.db && s'.cache == s.cache && s'.syncNum == s.syncNum && s'.installed == s.installed
    && forall w :: w in s'.calls && s'.calls[w].pc.Install? ==> w in s.calls && s.calls[w] == s'.calls[w]
  }

  lemma OtherCallKeptQuietly(s: State, s': State, t: Tid)
    requires Inv(s) && Quiet(s, s') && t in s.calls && t in s'.calls && s'.calls[t] == s.calls[t]
    ensures CallOk(s', t)
  {
    assert CallOk(s, t);
  }

  lemma QuietStep(s: State, step: Step, t: Tid)
    requires Actor(step) != Some(t) && !step.DbChange? && !step.FetchOk? && !step.InstallStep? && t in s.calls
    ensures Quiet(s, Apply(s, step)) && t in Apply(s, step).calls && Apply(s, step).calls[t] == s.calls[t]
  {
  }

  lemma OtherCallKept(s: State, step: Step, t: Tid)
    requires Inv(s) && t in s.calls && Actor(step) != Some(t) && Enabled(s, step)
    ensures t in Apply(s, step).calls && CallOk(Apply(s, step), t)
  {
    if step.DbChange? {
      OtherCallKeptByDbChange(s, step.rows, t);
    } else if step.FetchOk? {
      OtherCallKeptByFetch(s, step.t, t);
    } else if step.InstallStep? {
      OtherCallKeptByInstall(s, step.t, t);
    } else {
      QuietStep(s, step, t);
      OtherCallKeptQuietly(s, Apply(s, step), t);
    }
  }

  lemma LookKept(s: State, t: Tid)
    requires Inv(s) && Enabled(s, LookStep(t))
    ensures CallOk(Apply(s, LookStep(t)), t)
  {
    assert CallOk(s, t);
  }

  lemma CheckKept(s: State, t: Tid)
    requires Inv(s) && Enabled(s, CheckOk(t))
    ensures CallOk(Apply(s, CheckOk(t)), t)
  {
    assert CallOk(s, t);
  }

  lemma SyncKept(s: State, t: Tid)
    requires Inv(s) && Enabled(s, SyncStep(t))
    ensures CallOk(Apply(s, SyncStep(t)), t)
  {
    assert CallOk(s, t);
  }

  lemma FetchKept(s: State, t: Tid)
    requires Inv(s) && Enabled(s, FetchOk(t))
    ensures CallOk(Apply(s, FetchOk(t)), t)
  {
    assert CallOk(s, t);
  }

  lemma InstallKept(s: State, t: Tid)
    requires Inv(s) && Enabled(s, InstallStep(t))
    ensures CallOk(Apply(s, InstallStep(t)), t)
  {
    assert CallOk(s, t);
  }

  lemma ErrorKept(s: State, step: Step, t: Tid)
    requires Inv(s) && Enabled(s, step) && (step.CheckError? || step.FetchError?) && step.t == t
    ensures CallOk(Apply(s, step), t)
  {
    assert CallOk(s, t);
  }

  lemma ActingCallKept(s: State, step: Step, t: Tid)
    requires Inv(s) && Actor(step) == Some(t) && Enabled(s, step)
    ensures t in Apply(s, step).calls && CallOk(Apply(s, step), t)
  {
    match step
    case LookStep(_) => LookKept(s, t);
    case CheckOk(_) => CheckKept(s, t);
    case SyncStep(_) => SyncKept(s, t);
    case FetchOk(_) => FetchKept(s, t);
    case InstallStep(_) => InstallKept(s, t);
    case CheckError(_, _) => ErrorKept(s, step, t);
    case FetchError(_) => ErrorKept(s, step, t);
    case Spawn(_, _, _) =>
  }

  lemma InvApply(s: State, step: Step)
    requires Inv(s)
    ensures Inv(Apply(s, step))
  {
    if Enabled(s, step) {
      LockAndHistoryKept(s, step);
      var s' := Apply(s, step);
      forall t | t in s'.calls
        ensures CallOk(s', t)
      {
        if Actor(step) == Some(t) {
          ActingCallKept(s, step, t);
        } else {
          OtherCallKept(s, step, t);
        }
      }
    }
  }

  function At(db: seq<Endpoint>, steps: seq<Step>, i: nat): State
    requires i <= |steps|
  {
    Run(Initial(db), steps[..i])
  }

  lemma AtNext(db: seq<Endpoint>, steps: seq<Step>, i: nat)
    requires i < |steps|
    ensures At(db, steps, i + 1) == Apply(At(db, steps, i), steps[i])
  {
    assert steps[..i + 1][..i] == steps[..i];
  }

  lemma {:induction false} InvAt(db: seq<Endpoint>, steps: seq<Step>, i: nat)
    requires i <= |steps|
    ensures Inv(At(db, steps, i))
  {
    if i > 0 {
      InvAt(db, steps, i - 1);
      AtNext(db, steps, i - 1);
      InvApply(At(db, steps, i - 1), steps[i - 1]);
    }
  }

  // ---- Two rounds suffice ----

  lemma FirstProbe(s: State, step: Step, t: Tid)
    requires t in s.calls && s.calls[t].round == 0
    requires t in Apply(s, step).calls && Apply(s, step).calls[t].round == 1
    ensures var c, c0 := Apply(s, step).calls[t], s.calls[t];
            c.present == Held(Apply(s, step).db, c0) && c.q == c0.q && c.pdu == c0.pdu
  {
  }

  lemma PresentKept(s: State, step: Step, t: Tid)
    requires t in s.calls && s.calls[t].round >= 1 && s.calls[t].present
    requires Held(Apply(s, step).db, s.calls[t])
    ensures t in Apply(s, step).calls
    ensures var c, c0 := Apply(s, step).calls[t], s.calls[t];
            c.present && c.round >= 1 && c.q == c0.q && c.pdu == c0.pdu
  {
  }

  lemma HeldSame(db: seq<Endpoint>, c: Call, c': Call)
    requires c.q == c'.q && c.pdu == c'.pdu
    ensures Held(db, c) == Held(db, c')
  {
  }

  /** The call has been asking c0's question since a probe, and knows that the answer is held. */
  ghost predicate Knows(s: State, t: Tid, c0: Call) {
    t in s.calls && s.calls[t].present && s.calls[t].round >= 1 && s.calls[t].q == c0.q && s.calls[t].pdu == c0.pdu
  }

  lemma KnowsStep(s: State, step: Step, t: Tid, c0: Call)
    requires Knows(s, t, c0) && Held(Apply(s, step).db, c0)
    ensures Knows(Apply(s, step), t, c0)
  {
    HeldSame(Apply(s, step).db, c0, s.calls[t]);
    PresentKept(s, step, t);
  }

  lemma KnowsFirst(s: State, step: Step, t: Tid)
    requires t in s.calls && s.calls[t].round == 0
    requires t in Apply(s, step).calls && Apply(s, step).calls[t].round == 1
    requires Held(Apply(s, step).db, s.calls[t])
    ensures Knows(Apply(s, step), t, s.calls[t])
  {
    FirstProbe(s, step, t);
  }

  lemma KnowsFirstAt(db: seq<Endpoint>, steps: seq<Step>, t: Tid, k: nat)
    requires k < |steps|
    requires t in At(db, steps, k).calls && At(db, steps, k).calls[t].round == 0
    requires t in At(db, steps, k + 1).calls && At(db, steps, k + 1).calls[t].round == 1
    requires Held(At(db, steps, k + 1).db, At(db, steps, k).calls[t])
    ensures Knows(At(db, steps, k + 1), t, At(db, steps, k).calls[t])
  {
    AtNext(db, steps, k);
    KnowsFirst(At(db, steps, k), steps[k], t);
  }

  lemma KnowsNextAt(db: seq<Endpoint>, steps: seq<Step>, t: Tid, i: nat, c0: Call)
    requires i < |steps| && Knows(At(db, steps, i), t, c0) && Held(At(db, steps, i + 1).db, c0)
    ensures Knows(At(db, steps, i + 1), t, c0)
  {
    AtNext(db, steps, i);
    KnowsStep(At(db, steps, i), steps[i], t, c0);
  }

  /** Once the answer is held at the first successful probe and ever after, the call keeps knowing it. */
  lemma {:induction false} PresentFrom(db: seq<Endpoint>, steps: seq<Step>, t: Tid, k: nat, i: nat)
    requires k < i <= |steps|
    requires t in At(db, steps, k).calls && At(db, steps, k).calls[t].round == 0
    requires t in At(db, steps, k + 1).calls && At(db, steps, k + 1).calls[t].round == 1
    requires forall j :: k < j <= i ==> Held(At(db, steps, j).db, At(db, steps, k).calls[t])
    ensures Knows(At(db, steps, i), t, At(db, steps, k).calls[t])
  {
    var before := i - 1;
    if before == k {
      KnowsFirstAt(db, steps, t, k);
    } else {
      PresentFrom(db, steps, t, k, before);
      KnowsNextAt(db, steps, t, before, At(db, steps, k).calls[t]);
    }
  }

  /** In every interleaving: if the answer stays in the database from the call's first
      successful probe on, a call that ends without a database error returns it: what is
      asked for, as some moment of the run has it. */
  lemma TwoRoundsSuffice(db: seq<Endpoint>, steps: seq<Step>, t: Tid, k: nat)
    requires k < |steps|
    requires t in At(db, steps, k).calls && At(db, steps, k).calls[t].round == 0
    requires t in At(db, steps, k + 1).calls && At(db, steps, k + 1).calls[t].round == 1
    requires forall j :: k < j <= |steps| ==> Held(At(db, steps, j).db, At(db, steps, k).calls[t])
    requires t in At(db, steps, |steps|).calls
    requires At(db, steps, |steps|).calls[t].pc.Done? && !At(db, steps, |steps|).calls[t].pc.out.Failed?
    ensures At(db, steps, |steps|).calls[t].pc.out.Returned?
    ensures At(db, steps, |steps|).calls[t].ans != Miss
    ensures var c := At(db, steps, |steps|).calls[t];
      && c.q == At(db, steps, k).calls[t].q
      && (c.q.ById? ==> c.ans.Endp? && c.ans.e.id == c.q.ep)
      && (AlwaysClear(db, steps, c.q) ==> AnsweredOnce(db, steps, c.q, c.ans))
  {
    PresentFrom(db, steps, t, k, |steps|);
    InvAt(db, steps, |steps|);
    assert CallOk(At(db, steps, |steps|), t);
    ReturnedWasStored(db, steps, t);
  }

  /** The names in the database are such that an index of it can answer the query: an ID is needed,
      and whatever could be mixed up in a key or in a comma list is not. */
  ghost predicate Clear(rows: seq<Endpoint>, q: Query) {
    q.ById? || (
      && PlainNames(rows) && ':' !in q.ep && (forall e :: e in rows ==> e.id != "")
      && (q.ByUri? ==> Lower(q.uri) != CHILDREN)
      && (q.Children? ==> forall e :: e in rows ==> ',' !in e.id))
  }

  ghost predicate AlwaysClear(db: seq<Endpoint>, steps: seq<Step>, q: Query) {
    forall i: nat :: i <= |steps| ==> Clear(At(db, steps, i).db, q)
  }

  /** The answer as the database itself gives it: the endpoint with the ID, the ID of an endpoint with
      the parent and URI in any letter case, or the IDs of all endpoints with the parent. */
  ghost predicate Answered(rows: seq<Endpoint>, q: Query, ans: Answer) {
    match q
    case ById(ep) => ans.Endp? && ans.e in rows && ans.e.id == ep
    case ByUri(ep, uri) => ans.Id? && exists e :: e in rows && SamePair(e, ep, uri) && e.id == ans.id
    case Children(ep) =>
      ans.Ids? && ans.ids == ChildIds(rows, ep)
      && forall id :: id in ans.ids <==> exists e :: e in rows && e.rfEndpointID == ep && e.id == id
  }

  ghost predicate AnsweredOnce(db: seq<Endpoint>, steps: seq<Step>, q: Query, ans: Answer) {
    exists i: nat :: i <= |steps| && Answered(At(db, steps, i).db, q, ans)
  }

  /** A pair, in any letter case, is answered with the ID of the last endpoint that has it. */
  lemma AskByUri(rows: seq<Endpoint>, ep: string, uri: string)
    requires Clear(rows, ByUri(ep, uri))
    ensures var last := LastByPair(rows, ep, uri);
      Ask(Build(rows), ByUri(ep, uri)) == if last.None? then Miss else Id(last.value)
    ensures Ask(Build(rows), ByUri(ep, uri)) == Miss <==> forall e :: e in rows ==> !SamePair(e, ep, uri)
  {
    UriExact(rows, ep, uri);
  }

  lemma AskById(rows: seq<Endpoint>, ep: string)
    ensures var last := LastById(rows, ep);
      Ask(Build(rows), ById(ep)) == if last.None? then Miss else Endp(last.value)
    ensures Ask(Build(rows), ById(ep)) == Miss <==> forall e :: e in rows ==> e.id != ep
  {
    ValuesExact(rows, ep);
  }

  lemma AskChildren(rows: seq<Endpoint>, ep: string)
    requires Clear(rows, Children(ep))
    ensures Ask(Build(rows), Children(ep)) == if ChildIds(rows, ep) == [] then Miss else Ids(ChildIds(rows, ep))
    ensures Ask(Build(rows), Children(ep)) == Miss <==> forall e :: e in rows ==> e.rfEndpointID != ep
  {
    ChildrenExact(rows, ep);
    var ids := ChildIds(rows, ep);
    if ids != [] {
      ChildrenSplit(rows, ep);
      assert ids[0] in ids;
    }
    forall e | e in rows && e.rfEndpointID == ep ensures e.id in ids {
    }
  }

  /** Whatever the index of a database answers is what the database itself gives. */
  lemma AskMeans(rows: seq<Endpoint>, q: Query)
    requires Clear(rows, q)
    ensures Ask(Build(rows), q) != Miss ==> Answered(rows, q, Ask(Build(rows), q))
  {
    match q
    case ById(ep) => AskById(rows, ep);
    case ByUri(ep, uri) => AskByUri(rows, ep, uri);
    case Children(ep) => AskChildren(rows, ep);
  }

  /** For a lookup by ID of anything but a CabinetPDUController, seeing the ID in the
      database is the same as the rebuilt cache answering. */
  lemma HeldById(db: seq<Endpoint>, c: Call)
    requires c.q.ById? && !c.pdu
    ensures Held(db, c) <==> exists e :: e in db && e.id == c.q.ep
    ensures Held(db, c) ==> Ask(Build(db), c.q).Endp?
    ensures Held(db, c) ==> Ask(Build(db), c.q).e.id == c.q.ep && Ask(Build(db), c.q).e in db
  {
    ValuesExact(db, c.q.ep);
  }

  /** A CabinetPDUController's children are answered as soon as the probe sees one of them. */
  lemma HeldChildrenOfPdu(db: seq<Endpoint>, c: Call)
    requires c.q.Children? && c.pdu
    requires PlainNames(db) && ':' !in c.q.ep
    requires forall e :: e in db ==> e.id != "" && ',' !in e.id
    ensures Held(db, c) <==> exists e :: e in db && e.rfEndpointID == c.q.ep
    ensures Held(db, c) ==> Ask(Build(db), c.q) == Ids(ChildIds(db, c.q.ep))
  {
    ChildrenExact(db, c.q.ep);
    var ids := ChildIds(db, c.q.ep);
    if e :| e in db && e.rfEndpointID == c.q.ep {
      assert e.id in ids;
      ChildrenSplit(db, c.q.ep);
      assert ids[0] in ids;
    }
  }

  /** Whatever a finished call returned is what the cache version it last read answers. */
  lemma ReturnedFromVersion(db: seq<Endpoint>, steps: seq<Step>, t: Tid)
    requires t in At(db, steps, |steps|).calls
    requires At(db, steps, |steps|).calls[t].pc == Done(Returned)
    ensures var s := At(db, steps, |steps|);
            s.calls[t].snum < |s.installed| && s.calls[t].ans == Ask(s.installed[s.calls[t].snum], s.calls[t].q)
  {
    InvAt(db, steps, |steps|);
    assert CallOk(At(db, steps, |steps|), t);
  }

  // ---- Versions ----

  lemma {:induction false} InstalledGrows(db: seq<Endpoint>, steps: seq<Step>, i: nat, j: nat)
    requires i <= j <= |steps|
    ensures At(db, steps, i).installed <= At(db, steps, j).installed
    ensures At(db, steps, i).syncNum <= At(db, steps, j).syncNum
    decreases j
  {
    if i < j {
      InstalledGrows(db, steps, i, j - 1);
      AtNext(db, steps, j - 1);
    }
  }

  predicate Rebuilds(s: State, step: Step) {
    step.InstallStep? && Enabled(s, step)
  }

  /** How many of the first n steps store freshly built maps. */
  function RebuildsBefore(db: seq<Endpoint>, steps: seq<Step>, n: nat): nat
    requires n <= |steps|
  {
    if n == 0 then 0
    else RebuildsBefore(db, steps, n - 1) + (if Rebuilds(At(db, steps, n - 1), steps[n - 1]) then 1 else 0)
  }

  lemma RebuildStep(s: State, step: Step)
    ensures Apply(s, step).syncNum == s.syncNum + (if Rebuilds(s, step) then 1 else 0)
  {
  }

  /** At every moment of a run the number is the number of successful rebuilds so far. */
  lemma {:induction false} SyncNumCountsRebuilds(db: seq<Endpoint>, steps: seq<Step>, n: nat)
    requires n <= |steps|
    ensures At(db, steps, n).syncNum == RebuildsBefore(db, steps, n)
  {
    if n > 0 {
      SyncNumCountsRebuilds(db, steps, n - 1);
      AtNext(db, steps, n - 1);
      RebuildStep(At(db, steps, n - 1), steps[n - 1]);
    }
  }

  // ---- Where cached data comes from ----

  /** The rows are what the database held at the start or after one of the first n steps. */
  ghost predicate WasStored(db: seq<Endpoint>, steps: seq<Step>, n: nat, rows: seq<Endpoint>)
    requires n <= |steps|
  {
    exists i: nat :: i <= n && At(db, steps, i).db == rows
  }

  /** A rebuild that is under way holds rows read at once or earlier. */
  lemma RowsFrom(s: State, step: Step, t: Tid)
    requires t in Apply(s, step).calls && Apply(s, step).calls[t].pc.Install?
    ensures var rows := Apply(s, step).calls[t].pc.rows;
      rows == s.db || (t in s.calls && s.calls[t].pc.Install? && s.calls[t].pc.rows == rows)
  {
  }

  lemma InstalledFrom(s: State, step: Step)
    ensures var v := Apply(s, step).installed;
      v == s.installed ||
        exists t :: t in s.calls && s.calls[t].pc.Install? && v == s.installed + [Build(s.calls[t].pc.rows)]
  {
    if step.InstallStep? && Enabled(s, step) {
      assert s.calls[step.t].pc.Install?;
    }
  }

  ghost predicate FetchedRows(db: seq<Endpoint>, steps: seq<Step>, n: nat, s: State)
    requires n <= |steps|
  {
    forall t :: t in s.calls && s.calls[t].pc.Install? ==> WasStored(db, steps, n, s.calls[t].pc.rows)
  }

  ghost predicate BuiltFromStored(db: seq<Endpoint>, steps: seq<Step>, n: nat, c: Cache)
    requires n <= |steps|
  {
    exists i: nat :: i <= n && c == Build(At(db, steps, i).db)
  }

  ghost predicate InstalledRows(db: seq<Endpoint>, steps: seq<Step>, n: nat, s: State)
    requires n <= |steps|
  {
    forall v :: 0 < v < |s.installed| ==> BuiltFromStored(db, steps, n, s.installed[v])
  }

  lemma StoredStays(db: seq<Endpoint>, steps: seq<Step>, n: nat)
    requires n < |steps|
    ensures forall rows :: WasStored(db, steps, n, rows) ==> WasStored(db, steps, n + 1, rows)
    ensures forall c :: BuiltFromStored(db, steps, n, c) ==> BuiltFromStored(db, steps, n + 1, c)
  {
    forall rows | WasStored(db, steps, n, rows) ensures WasStored(db, steps, n + 1, rows) {
      var i: nat :| i <= n && At(db, steps, i).db == rows;
      assert i <= n + 1;
    }
    forall c | BuiltFromStored(db, steps, n, c) ensures BuiltFromStored(db, steps, n + 1, c) {
      var i: nat :| i <= n && c == Build(At(db, steps, i).db);
      assert i <= n + 1;
    }
  }

  lemma FetchedStep(db: seq<Endpoint>, steps: seq<Step>, n: nat)
    requires n < |steps| && FetchedRows(db, steps, n, At(db, steps, n))
    ensures FetchedRows(db, steps, n + 1, Apply(At(db, steps, n), steps[n]))
  {
    var s, s' := At(db, steps, n), Apply(At(db, steps, n), steps[n]);
    StoredStays(db, steps, n);
    assert WasStored(db, steps, n, s.db);
    forall t | t in s'.calls && s'.calls[t].pc.Install? ensures WasStored(db, steps, n + 1, s'.calls[t].pc.rows) {
      RowsFrom(s, steps[n], t);
    }
  }

  lemma InstalledStep(db: seq<Endpoint>, steps: seq<Step>, n: nat)
    requires n < |steps| && FetchedRows(db, steps, n, At(db, steps, n)) && InstalledRows(db, steps, n, At(db, steps, n))
    ensures InstalledRows(db, steps, n + 1, Apply(At(db, steps, n), steps[n]))
  {
    var s, s' := At(db, steps, n), Apply(At(db, steps, n), steps[n]);
    StoredStays(db, steps, n);
    InstalledFrom(s, steps[n]);
    if s'.installed != s.installed {
      var t :| t in s.calls && s.calls[t].pc.Install? && s'.installed == s.installed + [Build(s.calls[t].pc.rows)];
      var i: nat :| i <= n && At(db, steps, i).db == s.calls[t].pc.rows;
      assert BuiltFromStored(db, steps, n, Build(s.calls[t].pc.rows));
    }
  }

  lemma {:induction false} Origins(db: seq<Endpoint>, steps: seq<Step>, n: nat)
    requires n <= |steps|
    ensures FetchedRows(db, steps, n, At(db, steps, n)) && InstalledRows(db, steps, n, At(db, steps, n))
  {
    if n > 0 {
      Origins(db, steps, n - 1);
      AtNext(db, steps, n - 1);
      FetchedStep(db, steps, n - 1);
      InstalledStep(db, steps, n - 1);
    }
  }

  /** Every version of the cache after the empty one is the index of the database as it was at some
      earlier moment of the run. */
  lemma VersionsWereStored(db: seq<Endpoint>, steps: seq<Step>, v: nat)
    requires 0 < v < |At(db, steps, |steps|).installed|
    ensures exists i: nat :: i <= |steps| && At(db, steps, |steps|).installed[v] == Build(At(db, steps, i).db)
  {
    Origins(db, steps, |steps|);
    assert BuiltFromStored(db, steps, |steps|, At(db, steps, |steps|).installed[v]);
  }

  /** A finished call never returns what was never stored: an endpoint is one the database held and has
      the ID asked for, and any answer is the database's own of some moment. */
  lemma ReturnedWasStored(db: seq<Endpoint>, steps: seq<Step>, t: Tid)
    requires var s := At(db, steps, |steps|);
      t in s.calls && s.calls[t].pc == Done(Returned) && s.calls[t].ans != Miss
    ensures var c := At(db, steps, |steps|).calls[t];
      && (c.q.ById? <==> c.ans.Endp?)
      && (c.ans.Endp? ==> exists i: nat :: i <= |steps| && c.ans.e in At(db, steps, i).db)
      && (c.ans.Endp? ==> c.ans.e.id == c.q.ep)
      && (AlwaysClear(db, steps, c.q) ==> AnsweredOnce(db, steps, c.q, c.ans))
  {
    var s := At(db, steps, |steps|);
    var c := s.calls[t];
    ReturnedFromVersion(db, steps, t);
    InvAt(db, steps, |steps|);
    assert Ask(EMPTY_CACHE, c.q) == Miss;
    VersionsWereStored(db, steps, c.snum);
    var i: nat :| i <= |steps| && s.installed[c.snum] == Build(At(db, steps, i).db);
    AskById(At(db, steps, i).db, c.q.ep);
    if AlwaysClear(db, steps, c.q) {
      AskMeans(At(db, steps, i).db, c.q);
    }
  }

  // ---- Calls that end without an answer ----

  /** What the database test looks for. */
  predicate Known(db: seq<Endpoint>, pdu: bool, ep: string) {
    exists e :: e in db && ep == if pdu then e.rfEndpointID else e.id
  }

  /** The test sends a call on exactly when the database knows the endpoint. */
  lemma CheckDecides(s: State, t: Tid)
    requires Enabled(s, CheckOk(t))
    ensures var c, c' := s.calls[t], Apply(s, CheckOk(t)).calls[t];
      if Known(s.db, c.pdu, c.q.ep) then c'.pc == Sync(0) else c'.pc == Done(NotInDb)
  {
  }

  ghost predicate UnknownOnce(db: seq<Endpoint>, steps: seq<Step>, n: nat, pdu: bool, ep: string)
    requires n <= |steps|
  {
    exists i: nat :: i <= n && !Known(At(db, steps, i).db, pdu, ep)
  }

  lemma EndsNotInDb(s: State, step: Step, t: Tid)
    requires t in Apply(s, step).calls && Apply(s, step).calls[t].pc == Done(NotInDb)
    ensures t in s.calls && s.calls[t].q == Apply(s, step).calls[t].q && s.calls[t].pdu == Apply(s, step).calls[t].pdu
    ensures s.calls[t].pc == Done(NotInDb) || !Known(s.db, s.calls[t].pdu, s.calls[t].q.ep)
  {
  }

  lemma {:induction false} NotInDbUpTo(db: seq<Endpoint>, steps: seq<Step>, t: Tid, n: nat)
    requires n <= |steps| && t in At(db, steps, n).calls && At(db, steps, n).calls[t].pc == Done(NotInDb)
    ensures var c := At(db, steps, n).calls[t]; UnknownOnce(db, steps, n, c.pdu, c.q.ep)
  {
    if n > 0 {
      AtNext(db, steps, n - 1);
      EndsNotInDb(At(db, steps, n - 1), steps[n - 1], t);
      if At(db, steps, n - 1).calls[t].pc == Done(NotInDb) {
        NotInDbUpTo(db, steps, t, n - 1);
      }
    }
  }

  /** A call that reports an endpoint as not in the database: at some moment it was not. */
  lemma NotInDbWasUnknown(db: seq<Endpoint>, steps: seq<Step>, t: Tid)
    requires t in At(db, steps, |steps|).calls && At(db, steps, |steps|).calls[t].pc == Done(NotInDb)
    ensures var c := At(db, steps, |steps|).calls[t];
      exists i: nat :: i <= |steps| && !Known(At(db, steps, i).db, c.pdu, c.q.ep)
  {
    NotInDbUpTo(db, steps, t, |steps|);
  }

  /** A failed read of the call that is worth another try. */
  predicate SoftError(s: State, step: Step, t: Tid) {
    Enabled(s, step) && (step == CheckError(t, false) || step == FetchError(t))
  }

  function SoftErrors(db: seq<Endpoint>, steps: seq<Step>, t: Tid, n: nat): nat
    requires n <= |steps|
  {
    if n == 0 then 0
    else SoftErrors(db, steps, t, n - 1) + (if SoftError(At(db, steps, n - 1), steps[n - 1], t) then 1 else 0)
  }

  /** The tries counted in the call are errors it had; failing takes three. */
  predicate TriesCounted(c: Call, errors: nat) {
    && (c.pc.Check? || c.pc.Sync? || c.pc.Fetch? ==> c.pc.tries <= errors)
    && (c.pc == Done(Failed) ==> errors >= 3)
  }

  lemma TriesStep(s: State, step: Step, t: Tid, errors: nat)
    requires t in s.calls ==> TriesCounted(s.calls[t], errors)
    requires step != CheckError(t, true) && t in Apply(s, step).calls
    ensures TriesCounted(Apply(s, step).calls[t], if SoftError(s, step, t) then errors + 1 else errors)
  {
  }

  lemma {:induction false} TriesAt(db: seq<Endpoint>, steps: seq<Step>, t: Tid, n: nat)
    requires n <= |steps| && CheckError(t, true) !in steps
    ensures t in At(db, steps, n).calls ==> TriesCounted(At(db, steps, n).calls[t], SoftErrors(db, steps, t, n))
  {
    if n > 0 {
      TriesAt(db, steps, t, n - 1);
      AtNext(db, steps, n - 1);
      if t in At(db, steps, n).calls {
        TriesStep(At(db, steps, n - 1), steps[n - 1], t, SoftErrors(db, steps, t, n - 1));
      }
    }
  }

  /** In every run a call survives two failed reads: without a driver error it fails only after three. */
  lemma SurvivesTwoErrors(db: seq<Endpoint>, steps: seq<Step>, t: Tid)
    requires CheckError(t, true) !in steps && SoftErrors(db, steps, t, |steps|) <= 2
    ensures t in At(db, steps, |steps|).calls ==> At(db, steps, |steps|).calls[t].pc != Done(Failed)
  {
    TriesAt(db, steps, t, |steps|);
  }

  /** Three failed reads of one kind in a row end it, and so does a driver error at once. */
  lemma ThreeErrorsFail(s: State, t: Tid)
    requires t in s.calls
    ensures s.calls[t].pc == Check(0) ==>
      var twice := Apply(Apply(s, CheckError(t, false)), CheckError(t, false));
      Apply(twice, CheckError(t, false)).calls[t].pc == Done(Failed)
    ensures s.calls[t].pc == Check(0) ==> Apply(s, CheckError(t, true)).calls[t].pc == Done(Failed)
    ensures s.calls[t].pc == Fetch(0) && s.calls[t].snum == s.syncNum ==>
      var once := Apply(Apply(s, FetchError(t)), SyncStep(t));
      Apply(Apply(Apply(once, FetchError(t)), SyncStep(t)), FetchError(t)).calls[t].pc == Done(Failed)
  {
  }

  // ---- Snapshots ----

  /** Two moments of a run with the same number have the same cache. */
  lemma SameNumberSameSnapshot(db: seq<Endpoint>, steps: seq<Step>, i: nat, j: nat)
    requires i <= |steps| && j <= |steps|
    requires At(db, steps, i).syncNum == At(db, steps, j).syncNum
    ensures At(db, steps, i).cache == At(db, steps, j).cache
  {
    InvAt(db, steps, i);
    InvAt(db, steps, j);
    if i <= j {
      InstalledGrows(db, steps, i, j);
    } else {
      InstalledGrows(db, steps, j, i);
    }
  }

  /** Of all calls of TrySync with one number, at most one rebuilds. */
  lemma OneRebuildPerNumber(db: seq<Endpoint>, steps: seq<Step>, i: nat, j: nat)
    requires i < j < |steps|
    requires Rebuilds(At(db, steps, i), steps[i]) && Rebuilds(At(db, steps, j), steps[j])
    ensures At(db, steps, i).calls[steps[i].t].snum < At(db, steps, j).calls[steps[j].t].snum
  {
    InvAt(db, steps, i);
    InvAt(db, steps, j);
    AtNext(db, steps, i);
    InstalledGrows(db, steps, i + 1, j);
    assert CallOk(At(db, steps, i), steps[i].t);
    assert CallOk(At(db, steps, j), steps[j].t);
  }

  /** The lock steps of one TrySync, run without interruption, do what SyncMap.TrySync does. */
  lemma UninterruptedTrySync(s: State, t: Tid)
    requires Enabled(s, SyncStep(t))
    ensures var s' := Run(s, [SyncStep(t), FetchOk(t), InstallStep(t)]);
            (s'.cache, s'.syncNum) == TrySyncResult(s.cache, s.syncNum, s.calls[t].snum, Rows(s.db))
            && s'.writer == s.writer && t in s'.calls
            && (s'.calls[t].didUpdate <==> s.syncNum == s.calls[t].snum)
  {
    var steps := [SyncStep(t), FetchOk(t), InstallStep(t)];
    assert steps[..2][..1] == steps[..1] && steps[..1][..0] == [];
    assert steps[..2][1] == FetchOk(t);
    assert Run(s, steps[..1]) == Apply(s, SyncStep(t));
    assert Run(s, steps[..2]) == Apply(Apply(s, SyncStep(t)), FetchOk(t));
    assert Run(s, steps) == Apply(Run(s, steps[..2]), InstallStep(t));
  }

  // ---- Progress ----

  /** An upper bound on the actions a call still takes. */
  function Remaining(c: Call): nat
    requires c.round <= 2
  {
    var inRound := match c.pc
      case Done(_) => 0
      case Check(tries) => if tries < 3 then 12 - tries else 9
      case Look => 13
      case Install(_) => 14
      case Fetch(tries) => if tries < 3 then 21 - 2 * tries else 15
      case Sync(tries) => if tries < 3 then 22 - 2 * tries else 16;
    if c.pc.Done? then 0 else (2 - c.round) * 30 + inRound
  }

  predicate TriesOk(c: Call) {
    c.round <= 2 && (c.pc.Check? || c.pc.Sync? || c.pc.Fetch? ==> c.pc.tries < SYNC_RETRIES)
  }

  lemma LookShrinks(c: Call, cache: Cache, syncNum: nat)
    requires TriesOk(c) && c.pc.Look?
    ensures var c' := AfterLook(c, cache, syncNum); TriesOk(c') && Remaining(c') < Remaining(c)
  {
  }

  lemma CheckShrinks(c: Call, db: seq<Endpoint>)
    requires TriesOk(c) && c.pc.Check? && c.round <= 1
    ensures var c' := AfterCheck(c, db); TriesOk(c') && Remaining(c') < Remaining(c)
  {
  }

  lemma LockedShrinks(s: State, step: Step)
    requires Enabled(s, step) && (step.SyncStep? || step.FetchOk? || step.InstallStep?)
    requires TriesOk(s.calls[step.t])
    ensures var c' := Apply(s, step).calls[step.t]; TriesOk(c') && Remaining(c') < Remaining(s.calls[step.t])
  {
  }

  lemma ErrorShrinks(s: State, step: Step)
    requires Enabled(s, step) && (step.CheckError? || step.FetchError?)
    requires TriesOk(s.calls[step.t])
    ensures var c' := Apply(s, step).calls[step.t]; TriesOk(c') && Remaining(c') < Remaining(s.calls[step.t])
  {
  }

  /** Every action of a call uses up some of its bound. */
  lemma ActionShrinks(s: State, step: Step)
    requires Inv(s) && Enabled(s, step) && !step.Spawn? && Actor(step).Some?
    requires TriesOk(s.calls[step.t])
    ensures TriesOk(Apply(s, step).calls[step.t])
    ensures Remaining(Apply(s, step).calls[step.t]) < Remaining(s.calls[step.t])
  {
    match step
    case LookStep(t) => LookShrinks(s.calls[t], s.cache, s.syncNum);
    case CheckOk(t) =>
      assert CallOk(s, t);
      CheckShrinks(s.calls[t], s.db);
    case CheckError(_, _) => ErrorShrinks(s, step);
    case FetchError(_) => ErrorShrinks(s, step);
    case _ => LockedShrinks(s, step);
  }

  /** The step is an action of the goroutine after its start. */
  predicate Acts(s: State, step: Step, t: Tid) {
    Enabled(s, step) && Actor(step) == Some(t) && !step.Spawn?
  }

  function ActionsBefore(db: seq<Endpoint>, steps: seq<Step>, t: Tid, n: nat): nat
    requires n <= |steps|
  {
    if n == 0 then 0
    else ActionsBefore(db, steps, t, n - 1) + (if Acts(At(db, steps, n - 1), steps[n - 1], t) then 1 else 0)
  }

  const FRESH_BOUND := 73

  /** The actions taken so far and those still possible; nothing happens before the call is started. */
  ghost predicate WithinBound(s: State, t: Tid, taken: nat) {
    if t in s.calls then TriesOk(s.calls[t]) && taken + Remaining(s.calls[t]) <= FRESH_BOUND else taken == 0
  }

  lemma OthersLeaveProgress(s: State, step: Step, t: Tid)
    requires Actor(step) != Some(t)
    ensures var s' := Apply(s, step);
      (t in s'.calls <==> t in s.calls)
      && (t in s.calls ==> s'.calls[t].pc == s.calls[t].pc && s'.calls[t].round == s.calls[t].round)
  {
  }

  lemma BoundStep(s: State, step: Step, t: Tid, taken: nat)
    requires Inv(s) && WithinBound(s, t, taken)
    ensures WithinBound(Apply(s, step), t, if Acts(s, step, t) then taken + 1 else taken)
  {
    if Acts(s, step, t) {
      ActionShrinks(s, step);
    } else if Actor(step) != Some(t) {
      OthersLeaveProgress(s, step, t);
    } else if Enabled(s, step) {
      assert step.Spawn? && Apply(s, step).calls[t] == Call(step.q, step.pdu, Look, 0, 0, Miss, false, false);
    }
  }

  lemma {:induction false} BoundAt(db: seq<Endpoint>, steps: seq<Step>, t: Tid, n: nat)
    requires n <= |steps|
    ensures WithinBound(At(db, steps, n), t, ActionsBefore(db, steps, t, n))
  {
    if n > 0 {
      BoundAt(db, steps, t, n - 1);
      InvAt(db, steps, n - 1);
      AtNext(db, steps, n - 1);
      BoundStep(At(db, steps, n - 1), steps[n - 1], t, ActionsBefore(db, steps, t, n - 1));
    }
  }

  /** In every run, however long, a goroutine's lookup takes at most as many actions as the bound of a
      fresh call says; so no call loops for ever. */
  lemma CallsEnd(db: seq<Endpoint>, steps: seq<Step>, t: Tid)
    ensures ActionsBefore(db, steps, t, |steps|) <= FRESH_BOUND
    ensures forall q, pdu :: Remaining(Call(q, pdu, Look, 0, 0, Miss, false, false)) == FRESH_BOUND
  {
    BoundAt(db, steps, t, |steps|);
  }

  /** A goroutine that holds the write lock can always go on, and whoever waits for it can once it is free. */
  lemma NobodyIsStuck(s: State, t: Tid)
    requires Inv(s) && t in s.calls && !s.calls[t].pc.Done?
    ensures var u := if s.writer.Some? then s.writer.value else t;
            exists step :: Actor(step) == Some(u) && !step.Spawn? && Enabled(s, step)
  {
    var u := if s.writer.Some? then s.writer.value else t;
    var step := match s.calls[u].pc
      case Look => LookStep(u)
      case Check(_) => CheckOk(u)
      case Sync(_) => SyncStep(u)
      case Fetch(_) => FetchOk(u)
      case Install(_) => InstallStep(u)
      case Done(_) => DbChange([]);
    assert Actor(step) == Some(u) && !step.Spawn? && Enabled(s, step);
  }
}
