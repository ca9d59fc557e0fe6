/**
The incremental scan.  A walk visits files; a file whose content hash is in the cache and whose last
parse is recent enough is skipped, any other file is parsed and its hash recorded first.  The scan's
components become a payload.  The scanner's analysis of one file is an abstract function of its path
and content.  The view of a list of payloads is, for each path, what the last of them that mentions it says:
all that the payloads can tell about the files as they are now.  What the controller's own readers see of
it is stated in `Readers`.
*/
module ScanCache {
  import opened Storage

  datatype Scanner = Scanner(hash: string -> string, analyse: (string, string) -> seq<string>)

  /** A file as walked: its path and the content that was read. */
  datatype Entry = Entry(path: string, content: string)

  /**
   What happened at one entry: whether the freshness query ran and the clock it read, and, if the file
   was parsed, the clock at the cache write; `stored` says that no write failed.
   */
  datatype Visit = Visit(entry: Entry, queryRan: bool, checkedAt: int, writtenAt: int, stored: bool)

  /** A skip: the query ran, this is not a forced full scan, and the row matches and is fresh. */
  predicate Skips(sc: Scanner, cache: map<string, Row>, v: Visit, full: bool, maxAge: int) {
    !full && v.queryRan && FreshIn(cache, v.entry.path, sc.hash(v.entry.content), v.checkedAt, maxAge)
  }

  function CacheAfter(sc: Scanner, cache: map<string, Row>, v: Visit, full: bool, maxAge: int): map<string, Row> {
    if Skips(sc, cache, v, full, maxAge) || !v.stored then cache
    else cache[v.entry.path := Row(sc.hash(v.entry.content), v.writtenAt)]
  }

  function Found(sc: Scanner, e: Entry): seq<Component> {
    if sc.analyse(e.path, e.content) == [] then [] else [Component(e.path, sc.analyse(e.path, e.content))]
  }

  function Reported(sc: Scanner, cache: map<string, Row>, v: Visit, full: bool, maxAge: int): seq<Component> {
    if Skips(sc, cache, v, full, maxAge) then [] else Found(sc, v.entry)
  }

  /** The cache and the components after a walk. */
  function WalkCache(sc: Scanner, cache: map<string, Row>, vs: seq<Visit>, full: bool, maxAge: int): map<string, Row> {
    if vs == [] then cache
    else CacheAfter(sc, WalkCache(sc, cache, vs[..|vs| - 1], full, maxAge), vs[|vs| - 1], full, maxAge)
  }

  function WalkReports(sc: Scanner, cache: map<string, Row>, vs: seq<Visit>, full: bool, maxAge: int): seq<Component> {
    if vs == [] then [] else
      var front := vs[..|vs| - 1];
      WalkReports(sc, cache, front, full, maxAge)
        + Reported(sc, WalkCache(sc, cache, front, full, maxAge), vs[|vs| - 1], full, maxAge)
  }

  function WalkSkips(sc: Scanner, cache: map<string, Row>, vs: seq<Visit>, full: bool, maxAge: int): nat {
    if vs == [] then 0 else
      var front := vs[..|vs| - 1];
      WalkSkips(sc, cache, front, full, maxAge)
        + if Skips(sc, WalkCache(sc, cache, front, full, maxAge), vs[|vs| - 1], full, maxAge) then 1 else 0
  }

  /** The visits are of these entries, in this order. */
  ghost predicate VisitsOf(vs: seq<Visit>, walk: seq<Entry>) {
    |vs| == |walk| && forall i :: 0 <= i < |vs| ==> vs[i].entry == walk[i]
  }

  function Paths(walk: seq<Entry>): seq<string> {
    seq(|walk|, i requires 0 <= i < |walk| => walk[i].path)
  }

  /** What a purge may leave of a cache after a walk: nothing changed, every walked path kept. */
  ghost predicate Purged(before: map<string, Row>, after: map<string, Row>, walked: seq<string>) {
    && (forall p :: p in after ==> p in before && after[p] == before[p])
    && (forall p :: p in before && p in walked ==> p in after)
  }

  /** One entry: skip it, or record its hash and then parse it. */
  method VisitEntry(store: OfflineStore, sc: Scanner, e: Entry, full: bool, maxAge: int)
    returns (skip: bool, found: seq<Component>, ghost v: Visit)
    modifies store`scanState
    ensures v.entry == e && skip == Skips(sc, old(store.scanState), v, full, maxAge)
    ensures store.scanState == CacheAfter(sc, old(store.scanState), v, full, maxAge)
    ensures found == Reported(sc, old(store.scanState), v, full, maxAge)
    ensures store.reliable ==> (full || v.queryRan) && v.stored
  {
    var hash := sc.hash(e.content);
    v := Visit(e, false, 0, 0, true);
    skip, found := false, [];
    if !full {
      var fresh_, now, ran := store.UnchangedAndFresh(e.path, hash, maxAge);
      skip := fresh_;
      v := v.(queryRan := ran, checkedAt := now);
    }
    if !skip {
      var stored, now := store.UpsertScanState(e.path, hash);
      v := v.(writtenAt := now, stored := stored);
      var algorithms := sc.analyse(e.path, e.content);
      if algorithms != [] {
        found := [Component(e.path, algorithms)];
      }
    }
  }

  /**
   The scan loop over the walked entries (all of them, those below a target, or those before a
   cancellation), followed by the purge.
   */
  method Scan(store: OfflineStore, sc: Scanner, walk: seq<Entry>, full: bool, maxAge: int)
    returns (components: seq<Component>, skipped: nat, ghost vs: seq<Visit>)
    modifies store`scanState
    ensures VisitsOf(vs, walk)
    ensures components == WalkReports(sc, old(store.scanState), vs, full, maxAge)
    ensures skipped == WalkSkips(sc, old(store.scanState), vs, full, maxAge)
    ensures Purged(WalkCache(sc, old(store.scanState), vs, full, maxAge), store.scanState, Paths(walk))
    ensures store.reliable ==> AllStored(vs)
  {
    ghost var cache0 := store.scanState;
    components, skipped, vs := [], 0, [];
    var currentPaths := [];
    for i := 0 to |walk|
      invariant |vs| == i && forall j :: 0 <= j < i ==> vs[j].entry == walk[j]
      invariant currentPaths == Paths(walk)[..i]
      invariant store.scanState == WalkCache(sc, cache0, vs, full, maxAge)
      invariant components == WalkReports(sc, cache0, vs, full, maxAge)
      invariant skipped == WalkSkips(sc, cache0, vs, full, maxAge)
      invariant store.reliable ==> AllStored(vs)
    {
      currentPaths := currentPaths + [walk[i].path];
      var skip, found, v := VisitEntry(store, sc, walk[i], full, maxAge);
      if skip {
        skipped := skipped + 1;
      }
      components := components + found;
      assert (vs + [v])[..|vs|] == vs;
      vs := vs + [v];
    }
    assert currentPaths == Paths(walk);
    var _, _ := store.PurgeStaleScanState(currentPaths);
  }

  // ---------------------------------------------------------------------------
  // The server's view
  // ---------------------------------------------------------------------------

  /** For each path, what the last component that mentions it says. */
  function Absorb(view: map<string, seq<string>>, cs: seq<Component>): map<string, seq<string>> {
    if cs == [] then view else Absorb(view, cs[..|cs| - 1])[cs[|cs| - 1].path := cs[|cs| - 1].algorithms]
  }

  lemma {:induction false} AbsorbConcat(view: map<string, seq<string>>, a: seq<Component>, b: seq<Component>)
    ensures Absorb(view, a + b) == Absorb(Absorb(view, a), b)
  {
    if b == [] {
      assert a + b == a;
    } else {
      AbsorbConcat(view, a, b[..|b| - 1]);
      assert (a + b)[..|a + b| - 1] == a + b[..|b| - 1];
    }
  }

  /** Equal hashes mean equal contents. */
  ghost predicate Injective(sc: Scanner) {
    forall c, d :: sc.hash(c) == sc.hash(d) ==> c == d
  }

  /** Every cached path whose analysis is not empty is in the view with that analysis. */
  ghost predicate Covered(sc: Scanner, cache: map<string, Row>, view: map<string, seq<string>>) {
    forall p, c :: p in cache && cache[p].hash == sc.hash(c) && sc.analyse(p, c) != [] ==>
      p in view && view[p] == sc.analyse(p, c)
  }

  /** One job: the visits of one scan, whether it was forced, and the cache its purge left. */
  datatype Job = Job(visits: seq<Visit>, full: bool, after: map<string, Row>)

  ghost predicate AllStored(vs: seq<Visit>) { forall i :: 0 <= i < |vs| ==> vs[i].stored }

  /** The same visits in a scan that skips nothing report everything. */
  function FullReports(sc: Scanner, vs: seq<Visit>): seq<Component> {
    if vs == [] then [] else FullReports(sc, vs[..|vs| - 1]) + Found(sc, vs[|vs| - 1].entry)
  }

  /** At a skip, the analysis of the content just read is what the view says already. */
  lemma SkipIsCovered(sc: Scanner, cache: map<string, Row>, view: map<string, seq<string>>, v: Visit, full: bool,
                      maxAge: int)
    requires Covered(sc, cache, view) && Skips(sc, cache, v, full, maxAge)
    ensures Absorb(view, Found(sc, v.entry)) == view
  {
    var e := v.entry;
    if sc.analyse(e.path, e.content) != [] {
      var cs := Found(sc, e);
      assert cs[..0] == [];
      assert Absorb(view, cs) == view[e.path := sc.analyse(e.path, e.content)];
    }
  }

  lemma VisitCovers(sc: Scanner, cache: map<string, Row>, view: map<string, seq<string>>, v: Visit, full: bool,
                    maxAge: int)
    requires Injective(sc) && Covered(sc, cache, view) && v.stored
    ensures Covered(sc, CacheAfter(sc, cache, v, full, maxAge), Absorb(view, Found(sc, v.entry)))
    ensures Absorb(view, Reported(sc, cache, v, full, maxAge)) == Absorb(view, Found(sc, v.entry))
  {
    if Skips(sc, cache, v, full, maxAge) {
      SkipIsCovered(sc, cache, view, v, full, maxAge);
      assert Absorb(view, []) == view;
    } else {
      var e := v.entry;
      var cs := Found(sc, e);
      assert cs != [] ==> cs[..0] == [];
      assert Absorb(view, []) == view;
      var view' := Absorb(view, cs);
      assert view' == if cs == [] then view else view[e.path := sc.analyse(e.path, e.content)];
    }
  }

  /** A forced scan passes over nothing. */
  lemma {:induction false} ForcedReportsAll(sc: Scanner, cache: map<string, Row>, vs: seq<Visit>, maxAge: int)
    ensures WalkReports(sc, cache, vs, true, maxAge) == FullReports(sc, vs)
    ensures WalkSkips(sc, cache, vs, true, maxAge) == 0
    decreases |vs|
  {
    if vs != [] {
      ForcedReportsAll(sc, cache, vs[..|vs| - 1], maxAge);
    }
  }

  /** Over one walk: the reports of the skipping scan and of the full scan lead to the same view. */
  lemma {:induction false} WalkCovers(sc: Scanner, cache: map<string, Row>, view: map<string, seq<string>>,
                                      vs: seq<Visit>, full: bool, maxAge: int)
    requires Injective(sc) && Covered(sc, cache, view) && AllStored(vs)
    ensures Covered(sc, WalkCache(sc, cache, vs, full, maxAge), Absorb(view, FullReports(sc, vs)))
    ensures Absorb(view, WalkReports(sc, cache, vs, full, maxAge)) == Absorb(view, FullReports(sc, vs))
    decreases |vs|
  {
    if vs != [] {
      var front, v := vs[..|vs| - 1], vs[|vs| - 1];
      WalkCovers(sc, cache, view, front, full, maxAge);
      var cache', view' := WalkCache(sc, cache, front, full, maxAge), Absorb(view, FullReports(sc, front));
      VisitCovers(sc, cache', view', v, full, maxAge);
      AbsorbConcat(view, WalkReports(sc, cache, front, full, maxAge), Reported(sc, cache', v, full, maxAge));
      AbsorbConcat(view, FullReports(sc, front), Found(sc, v.entry));
    }
  }

  lemma PurgeCovers(sc: Scanner, before: map<string, Row>, after: map<string, Row>, walked: seq<string>,
                    view: map<string, seq<string>>)
    requires Covered(sc, before, view) && Purged(before, after, walked)
    ensures Covered(sc, after, view)
  {
  }

  // ---------------------------------------------------------------------------
  // Runs of scans
  // ---------------------------------------------------------------------------

  function VisitedPaths(vs: seq<Visit>): seq<string> {
    seq(|vs|, i requires 0 <= i < |vs| => vs[i].entry.path)
  }

  /** Each job starts from the cache the previous one left; its purge is one a purge may do. */
  ghost predicate ValidRun(sc: Scanner, cache: map<string, Row>, jobs: seq<Job>, maxAge: int)
    decreases |jobs|
  {
    jobs == [] ||
    (Purged(WalkCache(sc, cache, jobs[0].visits, jobs[0].full, maxAge), jobs[0].after, VisitedPaths(jobs[0].visits))
     && ValidRun(sc, jobs[0].after, jobs[1..], maxAge))
  }

  /** The components of each job's payload, in the order the payloads are enqueued. */
  function Payloads(sc: Scanner, cache: map<string, Row>, jobs: seq<Job>, maxAge: int): seq<seq<Component>>
    decreases |jobs|
  {
    if jobs == [] then [] else
      [WalkReports(sc, cache, jobs[0].visits, jobs[0].full, maxAge)] + Payloads(sc, jobs[0].after, jobs[1..], maxAge)
  }

  function FullPayloads(sc: Scanner, jobs: seq<Job>): seq<seq<Component>> {
    if jobs == [] then [] else [FullReports(sc, jobs[0].visits)] + FullPayloads(sc, jobs[1..])
  }

  function AbsorbAll(view: map<string, seq<string>>, ps: seq<seq<Component>>): map<string, seq<string>>
    decreases |ps|
  {
    if ps == [] then view else AbsorbAll(Absorb(view, ps[0]), ps[1..])
  }

  /**
   Incremental scans lose nothing: in every run of full, targeted and cancelled scans, of files edited
   in any way between visits, the payloads give the view that those of scans without a cache would give,
   provided hashes do not collide, cache writes succeed, and every scan's payload is enqueued.
   */
  lemma {:induction false} IncrementalEqualsFull(sc: Scanner, cache: map<string, Row>, view: map<string, seq<string>>,
                                                 jobs: seq<Job>, maxAge: int)
    requires Injective(sc) && Covered(sc, cache, view) && ValidRun(sc, cache, jobs, maxAge)
    requires forall i :: 0 <= i < |jobs| ==> AllStored(jobs[i].visits)
    ensures AbsorbAll(view, Payloads(sc, cache, jobs, maxAge)) == AbsorbAll(view, FullPayloads(sc, jobs))
    decreases |jobs|
  {
    if jobs != [] {
      var j := jobs[0];
      WalkCovers(sc, cache, view, j.visits, j.full, maxAge);
      var view' := Absorb(view, FullReports(sc, j.visits));
      PurgeCovers(sc, WalkCache(sc, cache, j.visits, j.full, maxAge), j.after, VisitedPaths(j.visits), view');
      IncrementalEqualsFull(sc, j.after, view', jobs[1..], maxAge);
      var ps, fs := Payloads(sc, cache, jobs, maxAge), FullPayloads(sc, jobs);
      assert ps[1..] == Payloads(sc, j.after, jobs[1..], maxAge) && fs[1..] == FullPayloads(sc, jobs[1..]);
    }
  }

  /** From an empty cache the hypothesis on the start holds, whatever the view. */
  lemma EmptyCacheIsCovered(sc: Scanner, view: map<string, seq<string>>)
    ensures Covered(sc, map[], view)
  {
  }

  // ---------------------------------------------------------------------------
  // A skip is backed by a recent parse
  // ---------------------------------------------------------------------------

  /** The parses of a walk: every visit that was not skipped and whose cache write succeeded. */
  function WalkParses(sc: Scanner, cache: map<string, Row>, vs: seq<Visit>, full: bool, maxAge: int): seq<Visit> {
    if vs == [] then [] else
      var front, v := vs[..|vs| - 1], vs[|vs| - 1];
      WalkParses(sc, cache, front, full, maxAge) +
        if Skips(sc, WalkCache(sc, cache, front, full, maxAge), v, full, maxAge) || !v.stored then [] else [v]
  }

  function RunParses(sc: Scanner, cache: map<string, Row>, jobs: seq<Job>, maxAge: int): seq<Visit>
    decreases |jobs|
  {
    if jobs == [] then [] else
      WalkParses(sc, cache, jobs[0].visits, jobs[0].full, maxAge) + RunParses(sc, jobs[0].after, jobs[1..], maxAge)
  }

  ghost predicate BackedBy(sc: Scanner, p: string, row: Row, parses: seq<Visit>) {
    exists i :: 0 <= i < |parses| && parses[i].entry.path == p && sc.hash(parses[i].entry.content) == row.hash
                && parses[i].writtenAt == row.scannedAt
  }

  /** Every row was written by some parse: its hash is that content's, its time that parse's. */
  ghost predicate Backed(sc: Scanner, cache: map<string, Row>, parses: seq<Visit>) {
    forall p :: p in cache ==> BackedBy(sc, p, cache[p], parses)
  }

  lemma MoreParsesBack(sc: Scanner, cache: map<string, Row>, parses: seq<Visit>, more: seq<Visit>)
    requires Backed(sc, cache, parses)
    ensures Backed(sc, cache, parses + more)
  {
    forall p | p in cache
      ensures BackedBy(sc, p, cache[p], parses + more)
    {
      var i :| 0 <= i < |parses| && parses[i].entry.path == p && sc.hash(parses[i].entry.content) == cache[p].hash
               && parses[i].writtenAt == cache[p].scannedAt;
      assert (parses + more)[i] == parses[i];
    }
  }

  lemma {:induction false} WalkBacks(sc: Scanner, cache: map<string, Row>, parses: seq<Visit>, vs: seq<Visit>,
                                     full: bool, maxAge: int)
    requires Backed(sc, cache, parses)
    ensures Backed(sc, WalkCache(sc, cache, vs, full, maxAge), parses + WalkParses(sc, cache, vs, full, maxAge))
    decreases |vs|
  {
    if vs == [] {
      assert parses + [] == parses;
    } else {
      var front, v := vs[..|vs| - 1], vs[|vs| - 1];
      WalkBacks(sc, cache, parses, front, full, maxAge);
      var cache' := WalkCache(sc, cache, front, full, maxAge);
      var done := parses + WalkParses(sc, cache, front, full, maxAge);
      VisitBacks(sc, cache', done, v, full, maxAge);
      var more := if Skips(sc, cache', v, full, maxAge) || !v.stored then [] else [v];
      assert parses + WalkParses(sc, cache, vs, full, maxAge) == done + more;
    }
  }

  lemma VisitBacks(sc: Scanner, cache: map<string, Row>, parses: seq<Visit>, v: Visit, full: bool, maxAge: int)
    requires Backed(sc, cache, parses)
    ensures Backed(sc, CacheAfter(sc, cache, v, full, maxAge),
                   parses + if Skips(sc, cache, v, full, maxAge) || !v.stored then [] else [v])
  {
    if Skips(sc, cache, v, full, maxAge) || !v.stored {
      assert parses + [] == parses;
    } else {
      MoreParsesBack(sc, cache, parses, [v]);
      assert (parses + [v])[|parses|] == v;
    }
  }

  /**
   At every skip of every run, failed cache writes and lost payloads included, the same content of the
   same file was parsed less than the cache age before: skipping never refreshes the timestamp.
   */
  lemma {:induction false} SkipBackedByRecentParse(sc: Scanner, cache: map<string, Row>, parses: seq<Visit>, v: Visit,
                                                   full: bool, maxAge: int)
    returns (i: nat)
    requires Injective(sc) && Backed(sc, cache, parses) && Skips(sc, cache, v, full, maxAge)
    ensures i < |parses| && parses[i].entry == v.entry && v.checkedAt - parses[i].writtenAt < maxAge
  {
    var e := v.entry;
    assert BackedBy(sc, e.path, cache[e.path], parses);
    i :| 0 <= i < |parses| && parses[i].entry.path == e.path && sc.hash(parses[i].entry.content) == cache[e.path].hash
         && parses[i].writtenAt == cache[e.path].scannedAt;
  }

  lemma {:induction false} RunBacks(sc: Scanner, cache: map<string, Row>, parses: seq<Visit>, jobs: seq<Job>,
                                    maxAge: int)
    requires Backed(sc, cache, parses) && ValidRun(sc, cache, jobs, maxAge)
    ensures Backed(sc, if jobs == [] then cache else jobs[|jobs| - 1].after,
                   parses + RunParses(sc, cache, jobs, maxAge))
    decreases |jobs|
  {
    if jobs == [] {
      assert parses + [] == parses;
    } else {
      var j := jobs[0];
      var done := parses + WalkParses(sc, cache, j.visits, j.full, maxAge);
      WalkBacks(sc, cache, parses, j.visits, j.full, maxAge);
      assert Backed(sc, j.after, done);
      RunBacks(sc, j.after, done, jobs[1..], maxAge);
      assert parses + RunParses(sc, cache, jobs, maxAge) == done + RunParses(sc, j.after, jobs[1..], maxAge);
      assert jobs[1..] != [] ==> jobs[1..][|jobs[1..]| - 1] == jobs[|jobs| - 1];
    }
  }

  lemma {:induction false} RunPrefix(sc: Scanner, cache: map<string, Row>, jobs: seq<Job>, maxAge: int, n: nat)
    requires ValidRun(sc, cache, jobs, maxAge) && n <= |jobs|
    ensures ValidRun(sc, cache, jobs[..n], maxAge)
    decreases n
  {
    if n > 0 {
      RunPrefix(sc, jobs[0].after, jobs[1..], maxAge, n - 1);
      assert jobs[..n][1..] == jobs[1..][..n - 1];
    }
  }

  /** The cache a job of a run starts from, when the first job starts from an empty one. */
  function StartCache(jobs: seq<Job>, j: nat): map<string, Row>
    requires j < |jobs|
  {
    if j == 0 then map[] else jobs[j - 1].after
  }

  /**
   Skips rest on recent parses: in every run, whatever cache writes fail and payloads are lost, a file
   is skipped only if the same content of it was parsed before, less than the cache age ago.
   */
  lemma EverySkipIsRecent(sc: Scanner, jobs: seq<Job>, maxAge: int, j: nat, k: nat) returns (parse: Visit)
    requires Injective(sc) && ValidRun(sc, map[], jobs, maxAge) && j < |jobs| && k < |jobs[j].visits|
    requires var front := jobs[j].visits[..k];
             var cache := WalkCache(sc, StartCache(jobs, j), front, jobs[j].full, maxAge);
             Skips(sc, cache, jobs[j].visits[k], jobs[j].full, maxAge)
    ensures parse in RunParses(sc, map[], jobs[..j], maxAge)
                     + WalkParses(sc, StartCache(jobs, j), jobs[j].visits[..k], jobs[j].full, maxAge)
    ensures parse.entry == jobs[j].visits[k].entry && jobs[j].visits[k].checkedAt - parse.writtenAt < maxAge
  {
    var front, full := jobs[j].visits[..k], jobs[j].full;
    RunPrefix(sc, map[], jobs, maxAge, j);
    RunBacks(sc, map[], [], jobs[..j], maxAge);
    var before := RunParses(sc, map[], jobs[..j], maxAge);
    assert [] + before == before;
    WalkBacks(sc, StartCache(jobs, j), before, front, full, maxAge);
    var parses := before + WalkParses(sc, StartCache(jobs, j), front, full, maxAge);
    var cache := WalkCache(sc, StartCache(jobs, j), front, full, maxAge);
    var i := SkipBackedByRecentParse(sc, cache, parses, jobs[j].visits[k], full, maxAge);
    parse := parses[i];
  }

  // ---------------------------------------------------------------------------
  // Exactly when skipping is safe, and what breaks it
  // ---------------------------------------------------------------------------

  lemma OneVisit(sc: Scanner, cache: map<string, Row>, v: Visit, full: bool, maxAge: int)
    ensures WalkReports(sc, cache, [v], full, maxAge) == Reported(sc, cache, v, full, maxAge)
    ensures WalkCache(sc, cache, [v], full, maxAge) == CacheAfter(sc, cache, v, full, maxAge)
    ensures FullReports(sc, [v]) == Found(sc, v.entry)
  {
    assert [v][..0] == [];
    assert WalkCache(sc, cache, [v][..0], full, maxAge) == cache;
    assert WalkReports(sc, cache, [v][..0], full, maxAge) == [];
    assert FullReports(sc, [v][..0]) == [];
  }

  lemma AbsorbFound(sc: Scanner, view: map<string, seq<string>>, e: Entry)
    ensures Absorb(view, Found(sc, e))
            == if sc.analyse(e.path, e.content) == [] then view else view[e.path := sc.analyse(e.path, e.content)]
  {
    if sc.analyse(e.path, e.content) != [] {
      assert Found(sc, e)[..0] == [];
      assert Absorb(view, []) == view;
    }
  }

  /**
   From a cache and a view, every skipping walk does as well as a full one, exactly when the view covers the
   cache.
   */
  lemma SkippingIsSafeIff(sc: Scanner, cache: map<string, Row>, view: map<string, seq<string>>, maxAge: int)
    requires Injective(sc) && maxAge > 0
    ensures (forall vs :: AllStored(vs) ==>
              Absorb(view, WalkReports(sc, cache, vs, false, maxAge)) == Absorb(view, FullReports(sc, vs)))
            <==> Covered(sc, cache, view)
  {
    if Covered(sc, cache, view) {
      forall vs | AllStored(vs)
        ensures Absorb(view, WalkReports(sc, cache, vs, false, maxAge)) == Absorb(view, FullReports(sc, vs))
      {
        WalkCovers(sc, cache, view, vs, false, maxAge);
      }
    } else {
      var p, c :| p in cache && cache[p].hash == sc.hash(c) && sc.analyse(p, c) != []
                  && !(p in view && view[p] == sc.analyse(p, c));
      var v := Visit(Entry(p, c), true, cache[p].scannedAt, 0, true);
      OneVisit(sc, cache, v, false, maxAge);
      AbsorbFound(sc, view, v.entry);
      assert AllStored([v]) && Absorb(view, []) == view;
    }
  }

  /**
   A parsed file whose payload never reaches the queue leaves the cache covered exactly when the view knew its
   analysis already.
   */
  lemma LostPayloadUncoversIff(sc: Scanner, cache: map<string, Row>, view: map<string, seq<string>>, v: Visit,
                               full: bool, maxAge: int)
    requires Injective(sc) && Covered(sc, cache, view) && !Skips(sc, cache, v, full, maxAge) && v.stored
    ensures Covered(sc, CacheAfter(sc, cache, v, full, maxAge), view) <==> Absorb(view, Found(sc, v.entry)) == view
  {
    var e := v.entry;
    AbsorbFound(sc, view, e);
    var after := CacheAfter(sc, cache, v, full, maxAge);
    assert after[e.path].hash == sc.hash(e.content);
    if Absorb(view, Found(sc, e)) == view && sc.analyse(e.path, e.content) != [] {
      assert view[e.path] == sc.analyse(e.path, e.content) by {
        assert view[e.path := sc.analyse(e.path, e.content)][e.path] == sc.analyse(e.path, e.content);
      }
    }
  }

  /**
   A parsed file whose cache write fails leaves the cache covered exactly when the old row, if its content
   has an analysis, has the analysis just reported.
   */
  lemma FailedWriteUncoversIff(sc: Scanner, cache: map<string, Row>, view: map<string, seq<string>>, v: Visit,
                               full: bool, maxAge: int)
    requires Injective(sc) && Covered(sc, cache, view) && !Skips(sc, cache, v, full, maxAge) && !v.stored
    ensures var e := v.entry;
            Covered(sc, CacheAfter(sc, cache, v, full, maxAge), Absorb(view, Found(sc, e))) <==>
            (e.path in cache && Found(sc, e) != [] ==>
              forall c :: cache[e.path].hash == sc.hash(c) && sc.analyse(e.path, c) != [] ==>
                sc.analyse(e.path, c) == sc.analyse(e.path, e.content))
  {
    AbsorbFound(sc, view, v.entry);
  }

  /** Either loss lasts at most the cache age: once a row is that old, the next visit parses the file and reports it. */
  lemma LossIsBounded(sc: Scanner, cache: map<string, Row>, view: map<string, seq<string>>, v: Visit, full: bool,
                      maxAge: int)
    requires v.entry.path in cache && v.checkedAt - cache[v.entry.path].scannedAt >= maxAge
    ensures Absorb(view, Reported(sc, cache, v, full, maxAge)) == Absorb(view, Found(sc, v.entry))
    ensures sc.analyse(v.entry.path, v.entry.content) != [] ==>
      var after := Absorb(view, Reported(sc, cache, v, full, maxAge));
      v.entry.path in after && after[v.entry.path] == sc.analyse(v.entry.path, v.entry.content)
  {
    AbsorbFound(sc, view, v.entry);
  }

  /**
   The first scan of a file whose payload never reaches the queue: from then on the unchanged file is
   passed over at every visit until its row is as old as the cache age, and reported at any later one.
   */
  lemma LostPayloadDelaysAnalysis(sc: Scanner, e: Entry, written: int, t: int, maxAge: int)
    requires sc.analyse(e.path, e.content) != []
    ensures var first, second := Visit(e, true, written, written, true), Visit(e, true, t, t, true);
            var cache := WalkCache(sc, map[], [first], false, maxAge);
            && WalkReports(sc, map[], [first], false, maxAge) == Found(sc, e) != []
            && WalkReports(sc, cache, [second], false, maxAge) == if t - written < maxAge then [] else Found(sc, e)
  {
    var first, second := Visit(e, true, written, written, true), Visit(e, true, t, t, true);
    OneVisit(sc, map[], first, false, maxAge);
    OneVisit(sc, WalkCache(sc, map[], [first], false, maxAge), second, false, maxAge);
  }

  /**
   A cache write that fails: content A is parsed and cached, B is parsed but its write fails, and when A
   is back it is skipped, while the most recent payload that mentions the file reports B.
   */
  lemma FailedWriteLosesAnalysis(sc: Scanner, p: string, a: string, b: string, maxAge: int)
    requires sc.hash(a) != sc.hash(b) && maxAge > 0
    requires sc.analyse(p, a) != [] && sc.analyse(p, b) != [] && sc.analyse(p, a) != sc.analyse(p, b)
    ensures var first, second, third := Visit(Entry(p, a), true, 0, 0, true), Visit(Entry(p, b), true, 0, 0, false),
                                        Visit(Entry(p, a), true, 0, 0, true);
            var c1 := CacheAfter(sc, map[], first, false, maxAge);
            var c2 := CacheAfter(sc, c1, second, false, maxAge);
            var reports := Reported(sc, map[], first, false, maxAge) + Reported(sc, c1, second, false, maxAge)
                           + Reported(sc, c2, third, false, maxAge);
            Skips(sc, c2, third, false, maxAge) && Absorb(map[], reports) == map[p := sc.analyse(p, b)]
  {
    var ca, cb := Component(p, sc.analyse(p, a)), Component(p, sc.analyse(p, b));
    assert [ca] + [cb] + [] == [ca, cb];
    assert [ca, cb][..1] == [ca] && [ca][..0] == [];
    assert Absorb(map[], [ca]) == map[p := sc.analyse(p, a)];
  }
}
