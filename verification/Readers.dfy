/**
What the controller's readers make of incremental scans.  The findings table is never pruned by telemetry:
it holds whatever any payload ever said.  The component list, the component count and the configuration
checksum are read from a host's latest payload only, from which every skipped file is missing.
*/
module Readers {
  import opened Bytes
  import opened Commands
  import opened Delivery
  import opened EndToEnd
  import opened Migration
  import opened ScanCache
  import opened Storage

  // ---------------------------------------------------------------------------
  // Whatever was ever reported
  // ---------------------------------------------------------------------------

  function Elements(cs: seq<Component>): set<Component> { set c | c in cs }

  /** What any of the payloads says. */
  function Ever(ps: seq<seq<Component>>): set<Component> {
    if ps == [] then {} else Elements(ps[0]) + Ever(ps[1..])
  }

  /** Every cached path whose analysis is not empty was reported with that analysis at some time. */
  ghost predicate Remembered(sc: Scanner, cache: map<string, Row>, ever: set<Component>) {
    forall p, c :: p in cache && cache[p].hash == sc.hash(c) && sc.analyse(p, c) != [] ==>
      Component(p, sc.analyse(p, c)) in ever
  }

  lemma VisitRemembers(sc: Scanner, cache: map<string, Row>, ever: set<Component>, v: Visit, full: bool, maxAge: int)
    requires Injective(sc) && Remembered(sc, cache, ever)
    ensures Remembered(sc, CacheAfter(sc, cache, v, full, maxAge), ever + Elements(Found(sc, v.entry)))
    ensures ever + Elements(ScanCache.Reported(sc, cache, v, full, maxAge)) == ever + Elements(Found(sc, v.entry))
  {
  }

  lemma ElementsConcat(a: seq<Component>, b: seq<Component>)
    ensures Elements(a + b) == Elements(a) + Elements(b)
  {
  }

  lemma {:induction false} WalkRemembers(sc: Scanner, cache: map<string, Row>, ever: set<Component>, vs: seq<Visit>,
                                         full: bool, maxAge: int)
    requires Injective(sc) && Remembered(sc, cache, ever)
    ensures Remembered(sc, WalkCache(sc, cache, vs, full, maxAge), ever + Elements(FullReports(sc, vs)))
    ensures ever + Elements(WalkReports(sc, cache, vs, full, maxAge)) == ever + Elements(FullReports(sc, vs))
    decreases |vs|
  {
    if vs != [] {
      var front, v := vs[..|vs| - 1], vs[|vs| - 1];
      WalkRemembers(sc, cache, ever, front, full, maxAge);
      var cache', ever' := WalkCache(sc, cache, front, full, maxAge), ever + Elements(FullReports(sc, front));
      VisitRemembers(sc, cache', ever', v, full, maxAge);
      ElementsConcat(FullReports(sc, front), Found(sc, v.entry));
      ElementsConcat(WalkReports(sc, cache, front, full, maxAge), ScanCache.Reported(sc, cache', v, full, maxAge));
      assert ever' + Elements(Found(sc, v.entry)) == ever + Elements(FullReports(sc, vs));
    }
  }

  /**
   From a cache and from what was ever reported, every skipping walk adds what a full one would, exactly when
   what is cached was reported.
   */
  lemma SkippingAddsAllIff(sc: Scanner, cache: map<string, Row>, ever: set<Component>, maxAge: int)
    requires Injective(sc) && maxAge > 0
    ensures (forall vs :: ever + Elements(WalkReports(sc, cache, vs, false, maxAge))
                          == ever + Elements(FullReports(sc, vs)))
            <==> Remembered(sc, cache, ever)
  {
    if Remembered(sc, cache, ever) {
      forall vs
        ensures ever + Elements(WalkReports(sc, cache, vs, false, maxAge)) == ever + Elements(FullReports(sc, vs))
      {
        WalkRemembers(sc, cache, ever, vs, false, maxAge);
      }
    } else {
      var p, c :| p in cache && cache[p].hash == sc.hash(c) && sc.analyse(p, c) != []
                  && Component(p, sc.analyse(p, c)) !in ever;
      var v := Visit(Entry(p, c), true, cache[p].scannedAt, 0, true);
      OneVisit(sc, cache, v, false, maxAge);
      assert Component(p, sc.analyse(p, c)) in Elements(FullReports(sc, [v]));
      assert Component(p, sc.analyse(p, c)) !in ever + Elements(WalkReports(sc, cache, [v], false, maxAge));
    }
  }

  /**
   Coverage stays complete: in every run of full, targeted and cancelled scans, of files edited in any way,
   whatever cache writes fail, the payloads say altogether exactly what those of full scans would.
   */
  lemma {:induction false} EverIsFull(sc: Scanner, cache: map<string, Row>, ever: set<Component>, jobs: seq<Job>,
                                      maxAge: int)
    requires Injective(sc) && Remembered(sc, cache, ever) && ValidRun(sc, cache, jobs, maxAge)
    ensures ever + Ever(Payloads(sc, cache, jobs, maxAge)) == ever + Ever(FullPayloads(sc, jobs))
    decreases |jobs|
  {
    if jobs != [] {
      var j := jobs[0];
      WalkRemembers(sc, cache, ever, j.visits, j.full, maxAge);
      var ever' := ever + Elements(FullReports(sc, j.visits));
      EverIsFull(sc, j.after, ever', jobs[1..], maxAge);
      var ps, fs := Payloads(sc, cache, jobs, maxAge), FullPayloads(sc, jobs);
      assert ps[1..] == Payloads(sc, j.after, jobs[1..], maxAge) && fs[1..] == FullPayloads(sc, jobs[1..]);
      assert ever + Ever(ps) == ever' + Ever(ps[1..]) && ever + Ever(fs) == ever' + Ever(fs[1..]);
    }
  }

  lemma {:induction false} InEver(ps: seq<seq<Component>>, c: Component)
    ensures c in Ever(ps) <==> exists i :: 0 <= i < |ps| && c in ps[i]
  {
    if ps != [] {
      InEver(ps[1..], c);
      assert forall i :: 0 < i < |ps| ==> ps[i] == ps[1..][i - 1];
      if c in Ever(ps[1..]) {
        var i :| 0 <= i < |ps[1..]| && c in ps[1..][i];
        assert c in ps[i + 1];
      }
    }
  }

  ghost predicate InQueue(s: State, c: Component) { exists id :: id in s.queue && c in s.queue[id].payload.components }

  ghost predicate InTable(s: State, c: Component) {
    exists i :: 0 <= i < |s.inserted| && c in s.inserted[i].components
  }

  /** What full scans would have said is what the inserted and the queued payloads say, no more and no less. */
  ghost predicate Complete(sc: Scanner, jobs: seq<Job>, s: State) {
    && (forall c :: c in Ever(FullPayloads(sc, jobs)) ==> InQueue(s, c) || InTable(s, c))
    && (forall c :: InTable(s, c) ==> c in Ever(FullPayloads(sc, jobs)))
  }

  lemma WasLogged(steps: seq<Step>, i: nat) returns (j: nat)
    requires Runs(INIT, steps) && i < |After(INIT, steps).inserted|
    ensures j < |After(INIT, steps).log| && After(INIT, steps).log[j].payload == After(INIT, steps).inserted[i]
  {
    AtLeastOnce(steps);
    var s := After(INIT, steps);
    assert InLog(s, s.inserted[i]);
    var k :| 0 <= k < |s.log| && s.log[k].payload == s.inserted[i];
    j := k;
  }

  /**
   End to end, at every moment of every run, whatever the clock does, streams break and cache writes fail:
   all that full scans would have reported is inserted or still queued, and nothing else is inserted.
   */
  lemma RunIsComplete(sc: Scanner, jobs: seq<Job>, maxAge: int, steps: seq<Step>)
    requires Injective(sc) && ValidRun(sc, map[], jobs, maxAge)
    requires Runs(INIT, steps) && Carries(After(INIT, steps).log, Payloads(sc, map[], jobs, maxAge))
    ensures Complete(sc, jobs, After(INIT, steps))
  {
    var s, ps := After(INIT, steps), Payloads(sc, map[], jobs, maxAge);
    EverIsFull(sc, map[], {}, jobs, maxAge);
    assert {} + Ever(ps) == Ever(ps) && {} + Ever(FullPayloads(sc, jobs)) == Ever(FullPayloads(sc, jobs));
    forall c | c in Ever(FullPayloads(sc, jobs))
      ensures InQueue(s, c) || InTable(s, c)
    {
      InEver(ps, c);
      var i :| 0 <= i < |ps| && c in ps[i];
      StaysKnown(steps, i);
    }
    forall c | InTable(s, c)
      ensures c in Ever(FullPayloads(sc, jobs))
    {
      var i :| 0 <= i < |s.inserted| && c in s.inserted[i].components;
      var j := WasLogged(steps, i);
      assert c in ps[j];
      InEver(ps, c);
    }
  }

  // ---------------------------------------------------------------------------
  // The latest payload
  // ---------------------------------------------------------------------------

  /** Visit k is passed over although its file has an analysis. */
  ghost predicate Hidden(sc: Scanner, cache: map<string, Row>, vs: seq<Visit>, k: nat, full: bool, maxAge: int)
    requires k < |vs|
  {
    Skips(sc, WalkCache(sc, cache, vs[..k], full, maxAge), vs[k], full, maxAge)
    && sc.analyse(vs[k].entry.path, vs[k].entry.content) != []
  }

  ghost predicate NoneHidden(sc: Scanner, cache: map<string, Row>, vs: seq<Visit>, full: bool, maxAge: int) {
    forall k: nat :: k < |vs| ==> !Hidden(sc, cache, vs, k, full, maxAge)
  }

  lemma HiddenInFront(sc: Scanner, cache: map<string, Row>, vs: seq<Visit>, full: bool, maxAge: int)
    requires vs != []
    ensures NoneHidden(sc, cache, vs, full, maxAge) <==>
            NoneHidden(sc, cache, vs[..|vs| - 1], full, maxAge) && !Hidden(sc, cache, vs, |vs| - 1, full, maxAge)
  {
    var front := vs[..|vs| - 1];
    forall k: nat | k < |front|
      ensures Hidden(sc, cache, vs, k, full, maxAge) == Hidden(sc, cache, front, k, full, maxAge)
    {
      assert front[..k] == vs[..k];
    }
  }

  /**
   A reader of the latest payload sees the components that a full scan would report, and as many of them,
   exactly when the walk passed over no file that has an analysis.
   */
  lemma {:induction false} LatestIsFullIff(sc: Scanner, cache: map<string, Row>, vs: seq<Visit>, full: bool,
                                           maxAge: int)
    ensures |WalkReports(sc, cache, vs, full, maxAge)| <= |FullReports(sc, vs)|
    ensures WalkReports(sc, cache, vs, full, maxAge) == FullReports(sc, vs) <==>
            NoneHidden(sc, cache, vs, full, maxAge)
    ensures |WalkReports(sc, cache, vs, full, maxAge)| == |FullReports(sc, vs)| <==>
            NoneHidden(sc, cache, vs, full, maxAge)
    decreases |vs|
  {
    if vs != [] {
      LatestIsFullIff(sc, cache, vs[..|vs| - 1], full, maxAge);
      HiddenInFront(sc, cache, vs, full, maxAge);
    }
  }

  lemma {:induction false} PayloadAt(sc: Scanner, cache: map<string, Row>, jobs: seq<Job>, maxAge: int, i: nat)
    requires i < |jobs|
    ensures |Payloads(sc, cache, jobs, maxAge)| == |jobs|
    ensures Payloads(sc, cache, jobs, maxAge)[i] ==
            WalkReports(sc, if i == 0 then cache else jobs[i - 1].after, jobs[i].visits, jobs[i].full, maxAge)
    decreases |jobs|
  {
    PayloadsPrefix(sc, cache, jobs, maxAge, 0);
    if i > 0 {
      PayloadAt(sc, jobs[0].after, jobs[1..], maxAge, i - 1);
    }
  }

  /** In any run: the payload inserted last is a job's, and complete exactly when that job's walk hid nothing. */
  lemma LatestInsertedIsFullIff(sc: Scanner, jobs: seq<Job>, maxAge: int, steps: seq<Step>) returns (i: nat)
    requires Runs(INIT, steps) && Carries(After(INIT, steps).log, Payloads(sc, map[], jobs, maxAge))
    requires After(INIT, steps).inserted != []
    ensures var s := After(INIT, steps); var last := s.inserted[|s.inserted| - 1];
            && i < |jobs| && i < |s.log| && last == s.log[i].payload
            && (last.components == FullReports(sc, jobs[i].visits) <==>
                NoneHidden(sc, StartCache(jobs, i), jobs[i].visits, jobs[i].full, maxAge))
  {
    var s := After(INIT, steps);
    i := WasLogged(steps, |s.inserted| - 1);
    PayloadsPrefix(sc, map[], jobs, maxAge, 0);
    PayloadAt(sc, map[], jobs, maxAge, i);
    LatestIsFullIff(sc, StartCache(jobs, i), jobs[i].visits, jobs[i].full, maxAge);
  }

  // ---------------------------------------------------------------------------
  // The configuration checksum
  // ---------------------------------------------------------------------------

  /** Visit k is of this path, and its file is parsed and has an analysis: a component and its evidence. */
  ghost predicate Shown(sc: Scanner, cache: map<string, Row>, vs: seq<Visit>, k: nat, full: bool, maxAge: int,
                        path: string)
    requires k < |vs|
  {
    vs[k].entry.path == path
    && ScanCache.Reported(sc, WalkCache(sc, cache, vs[..k], full, maxAge), vs[k], full, maxAge) != []
  }

  /** The hash of the first evidence about a path in a walk's payload; empty if there is none. */
  function ReportedHash(sc: Scanner, cache: map<string, Row>, vs: seq<Visit>, full: bool, maxAge: int, path: string)
    : string
  {
    if vs == [] then "" else
      var front, v := vs[..|vs| - 1], vs[|vs| - 1];
      var before := ReportedHash(sc, cache, front, full, maxAge, path);
      var reported := ScanCache.Reported(sc, WalkCache(sc, cache, front, full, maxAge), v, full, maxAge);
      if before != "" then before
      else if v.entry.path == path && reported != [] then sc.hash(v.entry.content)
      else ""
  }

  lemma {:induction false} ReportedHashIs(sc: Scanner, cache: map<string, Row>, vs: seq<Visit>, full: bool, maxAge: int,
                                          path: string, k: nat)
    requires k < |vs| && forall i :: 0 <= i < |vs| && vs[i].entry.path == path ==> i == k
    requires vs[k].entry.path == path
    ensures ReportedHash(sc, cache, vs, full, maxAge, path) ==
            if Shown(sc, cache, vs, k, full, maxAge, path) then sc.hash(vs[k].entry.content) else ""
    decreases |vs|
  {
    var front := vs[..|vs| - 1];
    if k < |front| {
      ReportedHashIs(sc, cache, front, full, maxAge, path, k);
      assert front[..k] == vs[..k];
    } else {
      NotReported(sc, cache, front, full, maxAge, path);
    }
  }

  lemma {:induction false} NotReported(sc: Scanner, cache: map<string, Row>, vs: seq<Visit>, full: bool, maxAge: int,
                                       path: string)
    requires forall i :: 0 <= i < |vs| ==> vs[i].entry.path != path
    ensures ReportedHash(sc, cache, vs, full, maxAge, path) == ""
    decreases |vs|
  {
    if vs != [] {
      NotReported(sc, cache, vs[..|vs| - 1], full, maxAge, path);
    }
  }

  /**
   The drift check of a command built from the latest payload, for a configuration walked once: it stops the
   command exactly when the walk parsed the configuration, found something in it, and the file has since come
   to differ from what was read.  After a walk that skipped it, no drift is seen, whatever the file holds.
   */
  lemma DriftIsSeenIff(sc: Scanner, cache: map<string, Row>, vs: seq<Visit>, full: bool, maxAge: int, path: string,
                       k: nat, tools: Tools, original: seq<byte>)
    requires k < |vs| && vs[k].entry.path == path
    requires forall i :: 0 <= i < |vs| && vs[i].entry.path == path ==> i == k
    requires forall c :: sc.hash(c) != "" && !(CHECKSUM <= sc.hash(c))
    ensures Drifted(tools, original, BuildChecklist(ReportedHash(sc, cache, vs, full, maxAge, path))) <==>
            Shown(sc, cache, vs, k, full, maxAge, path) && tools.sha256Hex(original) != sc.hash(vs[k].entry.content)
  {
    ReportedHashIs(sc, cache, vs, full, maxAge, path, k);
    DriftedIff(tools, original, ReportedHash(sc, cache, vs, full, maxAge, path));
  }
}
