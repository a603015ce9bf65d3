/**
 * The worker pool that resolves dependencies through a shared cache: a feeder hands jobs to
 * workers, each worker peeks at the cache under the lock, fetches outside it, and commits under it.
 */
module ResolvePool {
  import opened Options
  import opened Dependencies

  datatype VersionInfo = VersionInfo(
    version: string, date: string, infos: seq<string>, metadata: map<string, string>, err: Option<string>)

  datatype CacheEntry = CacheEntry(version: string, date: string, infos: seq<string>, metadata: map<string, string>)

  function ToEntry(vi: VersionInfo): (e: CacheEntry) {
    CacheEntry(vi.version, vi.date, vi.infos, vi.metadata)
  }

  function FromEntry(e: CacheEntry): (vi: VersionInfo) {
    VersionInfo(e.version, e.date, e.infos, e.metadata, None)
  }

  const NoInfo := VersionInfo("", "", [], map[], None)
  const NoResolver := VersionInfo("", "", [], map[], Some("no resolver configured for this dependency"))

  datatype ResolverEntry = ResolverEntry(matches: Dependency -> bool, resolve: Dependency -> VersionInfo, network: bool)

  /** What a run is given: the resolvers, the classifier, the offline override and the two modes. */
  datatype Config<!R> = Config(
    resolvers: seq<ResolverEntry>, classify: (Dependency, VersionInfo) -> R, skip: R -> R, freshMode: bool, offlineMode: bool)

  type Entries = map<string, CacheEntry>

  datatype Guard = Guard(entries: Entries, changed: bool)

  function Look(m: Entries, k: string): (e: Option<CacheEntry>) {
    if k in m then Some(m[k]) else None
  }

  // ---- one job ----

  function Matched(resolvers: seq<ResolverEntry>, dep: Dependency): (e: Option<ResolverEntry>) {
    if resolvers == [] then None
    else if resolvers[0].matches(dep) then Some(resolvers[0])
    else Matched(resolvers[1..], dep)
  }

  method MatchResolver(resolvers: seq<ResolverEntry>, dep: Dependency) returns (e: Option<ResolverEntry>)
    ensures e == Matched(resolvers, dep)
    ensures e.None? <==> forall i :: 0 <= i < |resolvers| ==> !resolvers[i].matches(dep)
  {
    var i := 0;
    while i < |resolvers|
      invariant 0 <= i <= |resolvers|
      invariant forall j :: 0 <= j < i ==> !resolvers[j].matches(dep)
      invariant Matched(resolvers, dep) == Matched(resolvers[i..], dep)
    {
      if resolvers[i].matches(dep) { return Some(resolvers[i]); }
      i := i + 1;
    }
    return None;
  }

  /** The offline mode answers network-backed dependencies without a job. */
  predicate Skips<R>(c: Config<R>, dep: Dependency) {
    var e := Matched(c.resolvers, dep);
    c.offlineMode && e.Some? && e.value.network
  }

  function SkippedResult<R>(c: Config<R>, dep: Dependency): (r: R) {
    c.skip(c.classify(dep, NoInfo))
  }

  function PeekResult<R>(c: Config<R>, entries: Entries, dep: Dependency): (r: Option<R>) {
    match Matched(c.resolvers, dep)
    case None => Some(c.classify(dep, NoResolver))
    case Some(e) =>
      if !e.network then Some(c.classify(dep, e.resolve(dep)))
      else if c.freshMode then None
      else
        match Look(entries, CacheKey(dep))
        case Some(cached) => Some(c.classify(dep, FromEntry(cached)))
        case None => None
  }

  function CommitGuard<R>(c: Config<R>, g: Guard, dep: Dependency, vi: VersionInfo): (h: Guard) {
    var key := CacheKey(dep);
    if vi.err.None? then Guard(g.entries[key := ToEntry(vi)], true)
    else if !c.freshMode || key !in g.entries then g
    else Guard(g.entries - {key}, true)
  }

  function Fetched<R>(c: Config<R>, dep: Dependency): (vi: VersionInfo) {
    match Matched(c.resolvers, dep)
    case None => NoResolver
    case Some(e) => e.resolve(dep)
  }

  /** One dependency resolved with nothing else running: its record and the guard after it. */
  function ResolveOne<R>(c: Config<R>, g: Guard, dep: Dependency): (r: (R, Guard)) {
    if Skips(c, dep) then (SkippedResult(c, dep), g)
    else
      match PeekResult(c, g.entries, dep)
      case Some(r) => (r, g)
      case None => (c.classify(dep, Fetched(c, dep)), CommitGuard(c, g, dep, Fetched(c, dep)))
  }

  /** The sequential reference: the dependencies one after the other. */
  function ResolveInOrder<R>(c: Config<R>, g: Guard, deps: seq<Dependency>): (r: (seq<R>, Guard)) {
    if deps == [] then ([], g)
    else
      var n := |deps| - 1;
      var before := ResolveInOrder(c, g, deps[..n]);
      var one := ResolveOne(c, before.1, deps[n]);
      (before.0 + [one.0], one.1)
  }

  /** The cache shared by the workers; each method is one lock region. */
  class CacheGuard {
    var changed: bool
    var entries: Entries

    ghost function Snapshot(): (g: Guard)
      reads this
    {
      Guard(entries, changed)
    }

    constructor (loaded: Option<Entries>)
      ensures Snapshot() == Guard(if loaded.Some? then loaded.value else map[], false)
    {
      entries := if loaded.Some? then loaded.value else map[];
      changed := false;
    }

    method Peek<R>(c: Config<R>, e: Option<ResolverEntry>, dep: Dependency) returns (r: Option<R>)
      requires e == Matched(c.resolvers, dep)
      ensures r == PeekResult(c, entries, dep)
    {
      if e.None? { return Some(c.classify(dep, NoResolver)); }
      if !e.value.network { return Some(c.classify(dep, e.value.resolve(dep))); }
      if c.freshMode { return None; }
      var key := CacheKey(dep);
      if key in entries { return Some(c.classify(dep, FromEntry(entries[key]))); }
      return None;
    }

    method Commit<R>(c: Config<R>, dep: Dependency, vi: VersionInfo) returns (r: R)
      modifies this
      ensures r == c.classify(dep, vi)
      ensures Snapshot() == CommitGuard(c, old(Snapshot()), dep, vi)
      ensures !changed ==> entries == old(entries)
    {
      r := c.classify(dep, vi);
      var key := CacheKey(dep);
      if vi.err.None? {
        entries := entries[key := ToEntry(vi)];
        changed := true;
        return;
      }
      if !c.freshMode { return; }
      if key !in entries { return; }
      entries := entries - {key};
      changed := true;
    }

    method ResolveJob<R>(c: Config<R>, e: Option<ResolverEntry>, dep: Dependency) returns (r: R)
      requires e == Matched(c.resolvers, dep) && !Skips(c, dep)
      modifies this
      ensures (r, Snapshot()) == ResolveOne(c, old(Snapshot()), dep)
    {
      var hit := Peek(c, e, dep);
      if hit.Some? { return hit.value; }
      var vi := e.value.resolve(dep);
      r := Commit(c, dep, vi);
    }
  }

  // ---- what each dependency comes to, whatever the schedule ----

  predicate Fetches<R>(c: Config<R>, e0: Entries, dep: Dependency) {
    !Skips(c, dep) && PeekResult(c, e0, dep).None?
  }

  function Outcome<R>(c: Config<R>, e0: Entries, dep: Dependency): (r: R) {
    ResolveOne(c, Guard(e0, false), dep).0
  }

  /** The entry left under the dependency's key. */
  function FinalEntry<R>(c: Config<R>, e0: Entries, dep: Dependency): (e: Option<CacheEntry>) {
    if !Fetches(c, e0, dep) then Look(e0, CacheKey(dep))
    else if Fetched(c, dep).err.None? then Some(ToEntry(Fetched(c, dep)))
    else None
  }

  predicate Touches<R>(c: Config<R>, e0: Entries, dep: Dependency) {
    Fetches(c, e0, dep) && (Fetched(c, dep).err.None? || CacheKey(dep) in e0)
  }

  ghost predicate KeysDistinct(deps: seq<Dependency>) {
    forall i, j :: 0 <= i < j < |deps| ==> CacheKey(deps[i]) != CacheKey(deps[j])
  }

  /** The guard once exactly the jobs in `done` have passed their lock regions, starting from `e0`. */
  ghost predicate GuardIs<R>(c: Config<R>, deps: seq<Dependency>, e0: Entries, done: set<nat>, g: Guard) {
    && (forall i :: 0 <= i < |deps| ==>
          Look(g.entries, CacheKey(deps[i])) ==
            (if i in done then FinalEntry(c, e0, deps[i]) else Look(e0, CacheKey(deps[i]))))
    && (forall k :: (forall i :: 0 <= i < |deps| ==> CacheKey(deps[i]) != k) ==> Look(g.entries, k) == Look(e0, k))
    && (g.changed <==> exists i :: i in done && i < |deps| && Touches(c, e0, deps[i]))
  }

  lemma LookDecides(m: Entries, n: Entries)
    requires forall k :: Look(m, k) == Look(n, k)
    ensures m == n
  {
    forall k ensures k in m <==> k in n { assert Look(m, k) == Look(n, k); }
    forall k | k in m ensures m[k] == n[k] { assert Look(m, k) == Look(n, k); }
    assert m.Keys == n.Keys;
  }

  lemma GuardUnique<R>(c: Config<R>, deps: seq<Dependency>, e0: Entries, done: set<nat>, g: Guard, h: Guard)
    requires GuardIs(c, deps, e0, done, g) && GuardIs(c, deps, e0, done, h)
    ensures g == h
  {
    hide FinalEntry, Touches;
    forall k ensures Look(g.entries, k) == Look(h.entries, k) {
      if i :| 0 <= i < |deps| && CacheKey(deps[i]) == k {
        assert Look(g.entries, CacheKey(deps[i])) == Look(h.entries, CacheKey(deps[i]));
      }
    }
    LookDecides(g.entries, h.entries);
  }

  /** A job that does not fetch passes without touching the guard. */
  lemma PassKeepsGuard<R>(c: Config<R>, deps: seq<Dependency>, e0: Entries, done: set<nat>, g: Guard, j: nat)
    requires GuardIs(c, deps, e0, done, g) && j < |deps| && !Fetches(c, e0, deps[j])
    ensures GuardIs(c, deps, e0, done + {j}, g)
  {
    hide Fetches, CacheKey;
    assert !Touches(c, e0, deps[j]) && FinalEntry(c, e0, deps[j]) == Look(e0, CacheKey(deps[j]));
  }

  lemma CommitLooks<R>(c: Config<R>, e0: Entries, g: Guard, dep: Dependency, k: string)
    requires Fetches(c, e0, dep) && Look(g.entries, CacheKey(dep)) == Look(e0, CacheKey(dep))
    ensures var h := CommitGuard(c, g, dep, Fetched(c, dep));
      && Look(h.entries, CacheKey(dep)) == FinalEntry(c, e0, dep)
      && (k != CacheKey(dep) ==> Look(h.entries, k) == Look(g.entries, k))
      && (h.changed <==> g.changed || Touches(c, e0, dep))
  {
    hide CacheKey, Fetched;
  }

  lemma CommitMovesGuard<R>(c: Config<R>, deps: seq<Dependency>, e0: Entries, done: set<nat>, g: Guard, j: nat)
    requires KeysDistinct(deps) && GuardIs(c, deps, e0, done, g)
    requires j < |deps| && j !in done && Fetches(c, e0, deps[j])
    ensures GuardIs(c, deps, e0, done + {j}, CommitGuard(c, g, deps[j], Fetched(c, deps[j])))
  {
    hide Look, CommitGuard, FinalEntry, Touches, Fetches, Fetched, CacheKey;
    var key, h := CacheKey(deps[j]), CommitGuard(c, g, deps[j], Fetched(c, deps[j]));
    assert Look(g.entries, key) == Look(e0, key);
    forall k ensures k != key ==> Look(h.entries, k) == Look(g.entries, k) {
      CommitLooks(c, e0, g, deps[j], k);
    }
    CommitLooks(c, e0, g, deps[j], key);
    forall i | 0 <= i < |deps| && i != j ensures CacheKey(deps[i]) != key {
      if i < j { assert CacheKey(deps[i]) != CacheKey(deps[j]); } else { assert CacheKey(deps[j]) != CacheKey(deps[i]); }
    }
  }

  lemma PeekSeesStart<R>(c: Config<R>, deps: seq<Dependency>, e0: Entries, done: set<nat>, g: Guard, j: nat)
    requires GuardIs(c, deps, e0, done, g) && j < |deps| && j !in done
    ensures PeekResult(c, g.entries, deps[j]) == PeekResult(c, e0, deps[j])
  {
    hide FinalEntry, Touches, CacheKey;
    assert Look(g.entries, CacheKey(deps[j])) == Look(e0, CacheKey(deps[j]));
  }

  lemma StepInOrder<R>(c: Config<R>, deps: seq<Dependency>, e0: Entries, done: set<nat>, g: Guard, j: nat)
    requires KeysDistinct(deps) && GuardIs(c, deps, e0, done, g) && j < |deps| && j !in done
    ensures ResolveOne(c, g, deps[j]).0 == Outcome(c, e0, deps[j])
    ensures GuardIs(c, deps, e0, done + {j}, ResolveOne(c, g, deps[j]).1)
  {
    hide GuardIs, CommitGuard, PeekResult, Fetched, KeysDistinct;
    PeekSeesStart(c, deps, e0, done, g, j);
    if Fetches(c, e0, deps[j]) {
      CommitMovesGuard(c, deps, e0, done, g, j);
    } else {
      PassKeepsGuard(c, deps, e0, done, g, j);
    }
  }

  ghost function Below(n: nat): (s: set<nat>)
    ensures forall i: nat :: i in s <==> i < n
  {
    if n == 0 then {} else Below(n - 1) + {n - 1}
  }

  lemma {:induction false} InOrderIsClosedForm<R>(c: Config<R>, deps: seq<Dependency>, e0: Entries, n: nat)
    requires KeysDistinct(deps) && n <= |deps|
    ensures var r := ResolveInOrder(c, Guard(e0, false), deps[..n]);
      && |r.0| == n && (forall i :: 0 <= i < n ==> r.0[i] == Outcome(c, e0, deps[i]))
      && GuardIs(c, deps, e0, Below(n), r.1)
  {
    hide ResolveOne, Outcome, FinalEntry, Touches, KeysDistinct, CacheKey;
    if n == 0 {
      assert Below(0) == {};
    } else {
      InOrderIsClosedForm(c, deps, e0, n - 1);
      assert deps[..n][..n - 1] == deps[..n - 1];
      assert Below(n - 1) + {n - 1} == Below(n);
      StepInOrder(c, deps, e0, Below(n - 1), ResolveInOrder(c, Guard(e0, false), deps[..n - 1]).1, n - 1);
    }
  }

  // ---- the pool ----

  /** What a worker is doing; the index names the dependency and its result slot. */
  datatype Worker<R> =
    | Idle
    | Peeking(job: nat)
    | Fetching(job: nat)
    | Committing(job: nat, vi: VersionInfo)
    | Storing(job: nat, result: R)

  datatype Pool<R> = Pool(guard: Guard, results: seq<Option<R>>, fed: nat, workers: seq<Worker<R>>)

  /** The feeder skips or hands over the next dependency; worker `w` makes its next move. */
  datatype Step = Skip | Feed(w: nat) | Move(w: nat)

  ghost predicate Enabled<R>(c: Config<R>, deps: seq<Dependency>, p: Pool<R>, s: Step) {
    match s
    case Skip => p.fed < |deps| && Skips(c, deps[p.fed])
    case Feed(w) => p.fed < |deps| && !Skips(c, deps[p.fed]) && w < |p.workers| && p.workers[w].Idle?
    case Move(w) => w < |p.workers| && !p.workers[w].Idle?
  }

  ghost predicate InRange<R>(deps: seq<Dependency>, p: Pool<R>) {
    && |p.results| == |deps| && p.fed <= |deps|
    && forall w :: 0 <= w < |p.workers| && !p.workers[w].Idle? ==> p.workers[w].job < p.fed
  }

  ghost function Moved<R>(c: Config<R>, deps: seq<Dependency>, p: Pool<R>, w: nat): (q: Pool<R>)
    requires InRange(deps, p) && w < |p.workers| && !p.workers[w].Idle?
  {
    var j := p.workers[w].job;
    match p.workers[w]
    case Peeking(_) =>
      (match PeekResult(c, p.guard.entries, deps[j])
       case Some(r) => p.(workers := p.workers[w := Storing(j, r)])
       case None => p.(workers := p.workers[w := Fetching(j)]))
    case Fetching(_) => p.(workers := p.workers[w := Committing(j, Fetched(c, deps[j]))])
    case Committing(_, vi) =>
      p.(workers := p.workers[w := Storing(j, c.classify(deps[j], vi))], guard := CommitGuard(c, p.guard, deps[j], vi))
    case Storing(_, r) => p.(workers := p.workers[w := Idle], results := p.results[j := Some(r)])
  }

  ghost function Next<R>(c: Config<R>, deps: seq<Dependency>, p: Pool<R>, s: Step): (q: Pool<R>)
    requires InRange(deps, p) && Enabled(c, deps, p, s)
  {
    match s
    case Skip => p.(fed := p.fed + 1, results := p.results[p.fed := Some(SkippedResult(c, deps[p.fed]))])
    case Feed(w) => p.(fed := p.fed + 1, workers := p.workers[w := Peeking(p.fed)])
    case Move(w) => Moved(c, deps, p, w)
  }

  ghost function Start<R>(deps: seq<Dependency>, e0: Entries, width: nat): (p: Pool<R>) {
    Pool(Guard(e0, false), seq(|deps|, _ => None), 0, seq(width, _ => Idle))
  }

  ghost predicate Final<R>(deps: seq<Dependency>, p: Pool<R>) {
    p.fed == |deps| && forall w :: 0 <= w < |p.workers| ==> p.workers[w].Idle?
  }

  /** The worker holds job `j` and has not yet passed its lock regions. */
  ghost predicate Pending<R>(x: Worker<R>, j: nat) {
    (x.Peeking? || x.Fetching? || x.Committing?) && x.job == j
  }

  ghost predicate Passed<R>(p: Pool<R>, j: nat) {
    j < p.fed && forall w :: 0 <= w < |p.workers| ==> !Pending(p.workers[w], j)
  }

  ghost function Done<R>(p: Pool<R>): (s: set<nat>)
    ensures forall j :: j in s <==> Passed(p, j)
  {
    set j | j in Below(p.fed) && Passed(p, j)
  }

  /** No two workers hold the same job, and a held job's slot is still empty. */
  ghost predicate Owned<R>(p: Pool<R>) {
    && (forall v, w :: 0 <= v < w < |p.workers| && !p.workers[v].Idle? && !p.workers[w].Idle? ==>
          p.workers[v].job != p.workers[w].job)
    && (forall w :: 0 <= w < |p.workers| && !p.workers[w].Idle? && p.workers[w].job < |p.results| ==>
          p.results[p.workers[w].job].None?)
    && (forall i :: p.fed <= i < |p.results| ==> p.results[i].None?)
  }

  ghost predicate Held<R>(p: Pool<R>, i: nat) {
    exists w :: 0 <= w < |p.workers| && !p.workers[w].Idle? && p.workers[w].job == i
  }

  /** Every dependency handed out is in a worker's hands or has its result. */
  ghost predicate NoneLost<R>(p: Pool<R>) {
    forall i :: 0 <= i < p.fed && i < |p.results| ==> p.results[i].Some? || Held(p, i)
  }

  ghost predicate WorkerSound<R>(c: Config<R>, deps: seq<Dependency>, e0: Entries, x: Worker<R>) {
    !x.Idle? ==>
      && x.job < |deps|
      && (x.Peeking? ==> !Skips(c, deps[x.job]))
      && (x.Fetching? ==> Fetches(c, e0, deps[x.job]))
      && (x.Committing? ==> Fetches(c, e0, deps[x.job]) && x.vi == Fetched(c, deps[x.job]))
      && (x.Storing? ==> x.result == Outcome(c, e0, deps[x.job]))
  }

  ghost predicate Sound<R>(c: Config<R>, deps: seq<Dependency>, e0: Entries, p: Pool<R>) {
    && (forall w :: 0 <= w < |p.workers| ==> WorkerSound(c, deps, e0, p.workers[w]))
    && (forall i :: 0 <= i < |deps| && i < |p.results| && p.results[i].Some? ==> p.results[i].value == Outcome(c, e0, deps[i]))
  }

  ghost predicate Inv<R>(c: Config<R>, deps: seq<Dependency>, e0: Entries, p: Pool<R>) {
    InRange(deps, p) && Owned(p) && NoneLost(p) && Sound(c, deps, e0, p) && GuardIs(c, deps, e0, Done(p), p.guard)
  }

  lemma StartHolds<R>(c: Config<R>, deps: seq<Dependency>, e0: Entries, width: nat)
    ensures Inv(c, deps, e0, Start<R>(deps, e0, width))
  {
    hide FinalEntry, Touches, CacheKey;
    assert Done(Start<R>(deps, e0, width)) == {};
  }

  /** One worker moves on with its job, or finishes it by filling its slot. */
  lemma MoveKeepsOwnership<R>(deps: seq<Dependency>, p: Pool<R>, w: nat, q: Pool<R>)
    requires InRange(deps, p) && Owned(p) && w < |p.workers| && !p.workers[w].Idle?
    requires q.fed == p.fed && |q.workers| == |p.workers| && (forall v :: 0 <= v < |p.workers| && v != w ==> q.workers[v] == p.workers[v])
    requires
      || (!q.workers[w].Idle? && q.workers[w].job == p.workers[w].job && q.results == p.results)
      || (q.workers[w].Idle? && exists r :: q.results == p.results[p.workers[w].job := Some(r)])
    ensures InRange(deps, q) && Owned(q)
  {
    var j := p.workers[w].job;
    forall v | 0 <= v < |q.workers| && !q.workers[v].Idle? ensures q.results[q.workers[v].job].None? {
      if v < w { assert !p.workers[v].Idle? && p.workers[v].job != j; }
      else if v > w { assert !p.workers[v].Idle? && p.workers[w].job != p.workers[v].job; }
    }
    assert forall u, v :: 0 <= u < v < |q.workers| && !q.workers[u].Idle? && !q.workers[v].Idle? ==>
        !p.workers[u].Idle? && !p.workers[v].Idle? && p.workers[u].job == q.workers[u].job && p.workers[v].job == q.workers[v].job;
  }

  lemma OwnershipKept<R>(c: Config<R>, deps: seq<Dependency>, p: Pool<R>, s: Step)
    requires InRange(deps, p) && Owned(p) && Enabled(c, deps, p, s)
    ensures var q := Next(c, deps, p, s); InRange(deps, q) && Owned(q)
  {
    hide PeekResult, CommitGuard, Fetched, SkippedResult, Skips;
    if s.Move? {
      MoveKeepsOwnership(deps, p, s.w, Next(c, deps, p, s));
    }
  }

  lemma NothingLost<R>(c: Config<R>, deps: seq<Dependency>, p: Pool<R>, s: Step)
    requires InRange(deps, p) && NoneLost(p) && Enabled(c, deps, p, s)
    ensures NoneLost(Next(c, deps, p, s))
  {
    hide PeekResult, CommitGuard, Fetched, SkippedResult, Skips, Owned;
    var q := Next(c, deps, p, s);
    forall i | 0 <= i < q.fed && i < |q.results| ensures q.results[i].Some? || Held(q, i) {
      if i < p.fed && Held(p, i) {
        var w :| 0 <= w < |p.workers| && !p.workers[w].Idle? && p.workers[w].job == i;
        assert q.results[i].Some? || (!q.workers[w].Idle? && q.workers[w].job == i);
      } else if s.Feed? && i == p.fed {
        assert q.workers[s.w].job == i;
      }
    }
  }

  lemma SoundnessKept<R>(c: Config<R>, deps: seq<Dependency>, e0: Entries, p: Pool<R>, s: Step)
    requires InRange(deps, p) && Sound(c, deps, e0, p) && GuardIs(c, deps, e0, Done(p), p.guard) && Enabled(c, deps, p, s)
    ensures Sound(c, deps, e0, Next(c, deps, p, s))
  {
    hide GuardIs, PeekResult, CommitGuard, Fetched, SkippedResult, Skips, Done;
    if s.Move? {
      var x := p.workers[s.w];
      assert WorkerSound(c, deps, e0, x);
      if x.Peeking? {
        assert Pending(x, x.job) && x.job !in Done(p);
        PeekSeesStart(c, deps, e0, Done(p), p.guard, x.job);
      }
    }
  }

  lemma DoneAfter<R>(c: Config<R>, deps: seq<Dependency>, p: Pool<R>, s: Step)
    requires InRange(deps, p) && Owned(p) && Enabled(c, deps, p, s)
    ensures var q := Next(c, deps, p, s);
      Done(q) == match s {
        case Skip => Done(p) + {p.fed}
        case Feed(_) => Done(p)
        case Move(w) =>
          if p.workers[w].Committing? || (p.workers[w].Peeking? && q.workers[w].Storing?)
          then Done(p) + {p.workers[w].job} else Done(p)
      }
  {
    hide PeekResult, CommitGuard, Fetched, SkippedResult, Skips, Done;
    var q := Next(c, deps, p, s);
    if s.Skip? {
      assert forall i :: Passed(q, i) <==> Passed(p, i) || i == p.fed;
    } else if s.Feed? {
      assert Pending(q.workers[s.w], p.fed);
      forall i ensures Passed(q, i) <==> Passed(p, i) {
        if i != p.fed {
          assert forall v :: 0 <= v < |p.workers| ==> (Pending(p.workers[v], i) <==> Pending(q.workers[v], i));
        }
      }
    } else {
      var j := p.workers[s.w].job;
      assert forall v :: 0 <= v < |p.workers| && v != s.w && !p.workers[v].Idle? ==> p.workers[v].job != j;
      forall i ensures Passed(q, i) <==> if i == j && q.workers[s.w].Storing? then true else Passed(p, i) {
        if i != j || !q.workers[s.w].Storing? {
          assert forall v :: 0 <= v < |p.workers| ==> (Pending(p.workers[v], i) <==> Pending(q.workers[v], i));
        }
      }
    }
  }

  lemma GuardKept<R>(c: Config<R>, deps: seq<Dependency>, e0: Entries, p: Pool<R>, s: Step)
    requires KeysDistinct(deps) && Inv(c, deps, e0, p) && Enabled(c, deps, p, s)
    ensures var q := Next(c, deps, p, s); GuardIs(c, deps, e0, Done(q), q.guard)
  {
    hide GuardIs, CommitGuard, Fetched, SkippedResult, Skips, Done, KeysDistinct;
    DoneAfter(c, deps, p, s);
    match s {
      case Skip => PassKeepsGuard(c, deps, e0, Done(p), p.guard, p.fed);
      case Feed(w) =>
      case Move(w) =>
        var x := p.workers[w];
        assert WorkerSound(c, deps, e0, x);
        if x.Committing? {
          assert Pending(x, x.job) && x.job !in Done(p);
          CommitMovesGuard(c, deps, e0, Done(p), p.guard, x.job);
        } else if x.Peeking? {
          assert Pending(x, x.job) && x.job !in Done(p);
          PeekSeesStart(c, deps, e0, Done(p), p.guard, x.job);
          if PeekResult(c, e0, deps[x.job]).Some? {
            PassKeepsGuard(c, deps, e0, Done(p), p.guard, x.job);
          }
        }
    }
  }

  lemma InvKept<R>(c: Config<R>, deps: seq<Dependency>, e0: Entries, p: Pool<R>, s: Step)
    requires KeysDistinct(deps) && Inv(c, deps, e0, p) && Enabled(c, deps, p, s)
    ensures Inv(c, deps, e0, Next(c, deps, p, s))
  {
    hide GuardIs, Next, Owned, NoneLost, Sound;
    OwnershipKept(c, deps, p, s);
    NothingLost(c, deps, p, s);
    SoundnessKept(c, deps, e0, p, s);
    GuardKept(c, deps, e0, p, s);
  }

  // ---- whole runs ----

  ghost predicate Run<R>(c: Config<R>, deps: seq<Dependency>, p: Pool<R>, steps: seq<Step>, q: Pool<R>)
    decreases |steps|
  {
    if steps == [] then p == q
    else InRange(deps, p) && Enabled(c, deps, p, steps[0]) && Run(c, deps, Next(c, deps, p, steps[0]), steps[1..], q)
  }

  lemma {:induction false} RunKeepsInv<R>(c: Config<R>, deps: seq<Dependency>, e0: Entries, p: Pool<R>, steps: seq<Step>, q: Pool<R>)
    requires KeysDistinct(deps) && Inv(c, deps, e0, p) && Run(c, deps, p, steps, q)
    ensures Inv(c, deps, e0, q)
    decreases |steps|
  {
    hide Inv, Next;
    if steps != [] {
      InvKept(c, deps, e0, p, steps[0]);
      RunKeepsInv(c, deps, e0, Next(c, deps, p, steps[0]), steps[1..], q);
    }
  }

  /** Every schedule of every width ends with the records and the guard of the sequential loop. */
  lemma EveryScheduleIsSequential<R>(
    c: Config<R>, deps: seq<Dependency>, e0: Entries, width: nat, steps: seq<Step>, q: Pool<R>)
    requires KeysDistinct(deps) && Run(c, deps, Start(deps, e0, width), steps, q) && Final(deps, q)
    ensures var (records, guard) := ResolveInOrder(c, Guard(e0, false), deps);
      && q.guard == guard
      && |q.results| == |records| == |deps|
      && forall i :: 0 <= i < |deps| ==> q.results[i] == Some(records[i])
  {
    hide GuardIs, Outcome, KeysDistinct, ResolveInOrder, Run, Done;
    StartHolds(c, deps, e0, width);
    RunKeepsInv(c, deps, e0, Start(deps, e0, width), steps, q);
    InOrderIsClosedForm(c, deps, e0, |deps|);
    assert deps[..|deps|] == deps;
    assert Done(q) == Below(|deps|);
    GuardUnique(c, deps, e0, Done(q), q.guard, ResolveInOrder(c, Guard(e0, false), deps).1);
    forall i | 0 <= i < |deps| ensures q.results[i] == Some(Outcome(c, e0, deps[i])) {
      assert !Held(q, i);
    }
  }

  lemma SeparatorFreeKeysDistinct(deps: seq<Dependency>)
    requires Distinct(deps) && forall d :: d in deps ==> SeparatorFree(Identity(d))
    ensures KeysDistinct(deps)
  {
    hide KeyText;
    forall i, j | 0 <= i < j < |deps| ensures CacheKey(deps[i]) != CacheKey(deps[j]) {
      if CacheKey(deps[i]) == CacheKey(deps[j]) {
        KeyIsUnambiguous(Identity(deps[i]), Identity(deps[j]));
      }
    }
  }

  /** The whole pipeline: extracted pins, deduplicated, then resolved by any pool under any schedule. */
  lemma DedupedPoolIsSequential<R>(
    c: Config<R>, pins: seq<Dependency>, e0: Entries, width: nat, steps: seq<Step>, q: Pool<R>)
    requires forall d :: d in pins ==> SeparatorFree(Identity(d))
    requires var deps := Firsts(pins); Run(c, deps, Start(deps, e0, width), steps, q) && Final(deps, q)
    ensures var (records, guard) := ResolveInOrder(c, Guard(e0, false), Firsts(pins));
      && q.guard == guard
      && |q.results| == |records| == |Firsts(pins)|
      && forall i :: 0 <= i < |records| ==> q.results[i] == Some(records[i])
  {
    hide SeparatorFree, ResolveInOrder, Run;
    FirstsAreDistinct(pins);
    FirstsAreFirst(pins);
    SeparatorFreeKeysDistinct(Firsts(pins));
    EveryScheduleIsSequential(c, Firsts(pins), e0, width, steps, q);
  }

  /** A slot that a step fills was empty, and no step changes a filled slot. */
  lemma SlotsFilledOnce<R>(c: Config<R>, deps: seq<Dependency>, e0: Entries, p: Pool<R>, s: Step, i: nat)
    requires KeysDistinct(deps) && Inv(c, deps, e0, p) && Enabled(c, deps, p, s) && i < |deps|
    ensures var q := Next(c, deps, p, s);
      && (p.results[i].Some? ==> q.results[i] == p.results[i])
      && (q.results[i] != p.results[i] ==> p.results[i].None? && q.results[i].Some?)
  {
    hide GuardIs, Sound, NoneLost, KeysDistinct, PeekResult, CommitGuard, Fetched, SkippedResult, Skips;
    if s.Move? {
      assert p.results[p.workers[s.w].job].None?;
    }
  }

  /**
   * What the cache holds after any schedule: a failed fetch leaves no entry under its key, a
   * successful one leaves exactly what was fetched, everything else is as it was, and an unset
   * flag means the whole map is as it was.
   */
  lemma CacheAfterRun<R>(
    c: Config<R>, deps: seq<Dependency>, e0: Entries, width: nat, steps: seq<Step>, q: Pool<R>, i: nat)
    requires KeysDistinct(deps) && Run(c, deps, Start(deps, e0, width), steps, q) && Final(deps, q) && i < |deps|
    ensures var key, got := CacheKey(deps[i]), Fetched(c, deps[i]);
      if !Fetches(c, e0, deps[i]) then Look(q.guard.entries, key) == Look(e0, key)
      else if got.err.Some? then key !in q.guard.entries
      else key in q.guard.entries && FromEntry(q.guard.entries[key]) == got
    ensures !q.guard.changed ==> q.guard.entries == e0
    ensures forall k :: (forall j :: 0 <= j < |deps| ==> CacheKey(deps[j]) != k) ==> Look(q.guard.entries, k) == Look(e0, k)
  {
    hide Run, Start, Done, PeekResult, Fetched, KeysDistinct, Skips, CacheKey, Owned, NoneLost, Sound;
    StartHolds(c, deps, e0, width);
    RunKeepsInv(c, deps, e0, Start(deps, e0, width), steps, q);
    assert i in Done(q);
    if !q.guard.changed {
      forall k ensures Look(q.guard.entries, k) == Look(e0, k) {
        if j :| 0 <= j < |deps| && CacheKey(deps[j]) == k {
          assert j in Done(q) && !Touches(c, e0, deps[j]);
        }
      }
      LookDecides(q.guard.entries, e0);
    }
  }

  /** A fresh run followed by a cached run against the same upstream reports the same records. */
  lemma CachedRunAgrees<R>(c: Config<R>, deps: seq<Dependency>, e0: Entries)
    requires KeysDistinct(deps) && c.freshMode && !c.offlineMode
    ensures var first := ResolveInOrder(c, Guard(e0, false), deps);
      var second := ResolveInOrder(c.(freshMode := false), Guard(first.1.entries, false), deps);
      first.0 == second.0 && first.1.entries == second.1.entries
  {
    hide PeekResult, ResolveOne, CommitGuard, KeysDistinct, CacheKey, ResolveInOrder, Outcome, FinalEntry, Touches, Fetched;
    var d := c.(freshMode := false);
    var first := ResolveInOrder(c, Guard(e0, false), deps);
    var e1 := first.1.entries;
    var second := ResolveInOrder(d, Guard(e1, false), deps);
    InOrderIsClosedForm(c, deps, e0, |deps|);
    InOrderIsClosedForm(d, deps, e1, |deps|);
    assert deps[..|deps|] == deps;
    forall i | 0 <= i < |deps|
      ensures Outcome(c, e0, deps[i]) == Outcome(d, e1, deps[i])
      ensures FinalEntry(d, e1, deps[i]) == Look(e1, CacheKey(deps[i]))
    {
      assert Look(e1, CacheKey(deps[i])) == FinalEntry(c, e0, deps[i]);
      ReplayOne(c, e0, e1, deps[i]);
    }
    forall k ensures Look(second.1.entries, k) == Look(e1, k) {
      if j :| 0 <= j < |deps| && CacheKey(deps[j]) == k {
        assert j in Below(|deps|) && Look(second.1.entries, CacheKey(deps[j])) == FinalEntry(d, e1, deps[j]);
      }
    }
    LookDecides(second.1.entries, e1);
  }

  lemma ReplayOne<R>(c: Config<R>, e0: Entries, e1: Entries, dep: Dependency)
    requires c.freshMode && !c.offlineMode && Look(e1, CacheKey(dep)) == FinalEntry(c, e0, dep)
    ensures var d := c.(freshMode := false);
      Outcome(c, e0, dep) == Outcome(d, e1, dep) && FinalEntry(d, e1, dep) == Look(e1, CacheKey(dep))
  {
    hide CacheKey;
  }

  // ---- progress ----

  ghost function Left<R>(x: Worker<R>): (n: nat) {
    match x
    case Idle => 0
    case Peeking(_) => 4
    case Fetching(_) => 3
    case Committing(_, _) => 2
    case Storing(_, _) => 1
  }

  ghost function LeftAll<R>(ws: seq<Worker<R>>): (n: nat) {
    if ws == [] then 0 else Left(ws[0]) + LeftAll(ws[1..])
  }

  ghost function Remaining<R>(deps: seq<Dependency>, p: Pool<R>): (n: nat)
    requires p.fed <= |deps|
  {
    5 * (|deps| - p.fed) + LeftAll(p.workers)
  }

  lemma {:induction false} LeftAllUpdate<R>(ws: seq<Worker<R>>, w: nat, x: Worker<R>)
    requires w < |ws|
    ensures LeftAll(ws[w := x]) == LeftAll(ws) - Left(ws[w]) + Left(x)
  {
    if w == 0 {
      assert ws[0 := x][1..] == ws[1..];
    } else {
      LeftAllUpdate(ws[1..], w - 1, x);
      assert ws[w := x][1..] == ws[1..][w - 1 := x];
    }
  }

  lemma StepsUseWork<R>(c: Config<R>, deps: seq<Dependency>, p: Pool<R>, s: Step)
    requires InRange(deps, p) && Enabled(c, deps, p, s)
    ensures var q := Next(c, deps, p, s); q.fed <= |deps| && Remaining(deps, q) < Remaining(deps, p)
  {
    hide PeekResult, CommitGuard, Fetched, SkippedResult, Skips, LeftAll;
    if !s.Skip? {
      LeftAllUpdate(p.workers, s.w, Next(c, deps, p, s).workers[s.w]);
    }
  }

  lemma {:induction false} RunIsShort<R>(c: Config<R>, deps: seq<Dependency>, p: Pool<R>, steps: seq<Step>, q: Pool<R>)
    requires InRange(deps, p) && InRange(deps, q) && Run(c, deps, p, steps, q)
    ensures |steps| + Remaining(deps, q) <= Remaining(deps, p)
    decreases |steps|
  {
    hide Remaining, Next, Enabled;
    if steps != [] {
      StepsUseWork(c, deps, p, steps[0]);
      var m := Next(c, deps, p, steps[0]);
      if |steps| > 1 { assert InRange(deps, m); } else { assert m == q; }
      RunIsShort(c, deps, m, steps[1..], q);
    }
  }

  lemma {:induction false} IdleMeansNothingLeft<R>(ws: seq<Worker<R>>)
    ensures LeftAll(ws) == 0 <==> forall w :: 0 <= w < |ws| ==> ws[w].Idle?
  {
    if ws != [] {
      IdleMeansNothingLeft(ws[1..]);
      assert forall w :: 0 < w < |ws| ==> ws[w] == ws[1..][w - 1];
      assert forall w :: 0 <= w < |ws[1..]| ==> ws[1..][w] == ws[w + 1];
    }
  }

  /**
   * The pool always ends: no run is longer than five steps per dependency, and a run that cannot
   * go on is final, or has no worker at all for a dependency that needs one.
   */
  lemma PoolTerminates<R>(c: Config<R>, deps: seq<Dependency>, e0: Entries, width: nat, steps: seq<Step>, q: Pool<R>)
    requires KeysDistinct(deps) && Run(c, deps, Start(deps, e0, width), steps, q)
    ensures |steps| <= 5 * |deps|
    ensures (forall s :: !Enabled(c, deps, q, s)) <==>
            Final(deps, q) || (|q.workers| == 0 && q.fed < |deps| && !Skips(c, deps[q.fed]))
  {
    hide Run, Owned, NoneLost, Sound, GuardIs, Skips, KeysDistinct, LeftAll;
    StartHolds(c, deps, e0, width);
    RunKeepsInv(c, deps, e0, Start(deps, e0, width), steps, q);
    IdleMeansNothingLeft(Start<R>(deps, e0, width).workers);
    RunIsShort(c, deps, Start(deps, e0, width), steps, q);
    if forall s :: !Enabled(c, deps, q, s) {
      forall w | 0 <= w < |q.workers| ensures q.workers[w].Idle? { assert !Enabled(c, deps, q, Move(w)); }
      assert !Enabled(c, deps, q, Skip);
      assert !Enabled(c, deps, q, Feed(0));
    }
  }
}
