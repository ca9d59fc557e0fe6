/**
The incremental scan and the delivery together: whatever streams break and whatever is still queued,
the last word on each file among the payloads inserted is that of scans without a cache, up to some job.
*/
module EndToEnd {
  import opened Delivery
  import opened ScanCache
  import opened Storage

  /** Job i's payload is the i-th one ever enqueued. */
  ghost predicate Carries(log: seq<Queued>, components: seq<seq<Component>>) {
    |log| == |components| && forall i :: 0 <= i < |log| ==> log[i].payload.components == components[i]
  }

  function Components(ps: seq<Payload>): seq<seq<Component>> {
    seq(|ps|, i requires 0 <= i < |ps| => ps[i].components)
  }

  lemma {:induction false} PayloadsPrefix(sc: Scanner, cache: map<string, Row>, jobs: seq<Job>, maxAge: int, n: nat)
    requires n <= |jobs|
    ensures |Payloads(sc, cache, jobs, maxAge)| == |jobs|
    ensures Payloads(sc, cache, jobs[..n], maxAge) == Payloads(sc, cache, jobs, maxAge)[..n]
    decreases |jobs|
  {
    if jobs != [] {
      PayloadsPrefix(sc, jobs[0].after, jobs[1..], maxAge, if n == 0 then 0 else n - 1);
      if n > 0 {
        assert jobs[..n][1..] == jobs[1..][..n - 1];
      }
    }
  }

  lemma CarriedPrefix(log: seq<Queued>, components: seq<seq<Component>>, n: nat)
    requires Carries(log, components) && n <= |log|
    ensures Components(PayloadsOf(log[..n])) == components[..n]
  {
  }

  /**
   End to end: in every run of scans and of deliveries, at every moment, the inserted payloads give the view
   that full scans of the first n jobs give, and when the queue is empty n is every job so far.
   */
  lemma ViewIsAPrefix(sc: Scanner, jobs: seq<Job>, maxAge: int, steps: seq<Step>) returns (n: nat)
    requires Injective(sc) && ValidRun(sc, map[], jobs, maxAge)
    requires forall i :: 0 <= i < |jobs| ==> AllStored(jobs[i].visits)
    requires Runs(INIT, steps)
    requires var log := After(INIT, steps).log; Increasing(log) && Carries(log, Payloads(sc, map[], jobs, maxAge))
    ensures n <= |jobs| && (After(INIT, steps).queue == map[] ==> n == |jobs|)
    ensures AbsorbAll(map[], Components(After(INIT, steps).inserted)) == AbsorbAll(map[], FullPayloads(sc, jobs[..n]))
  {
    var s := After(INIT, steps);
    var _, inserted := InOrder(steps);
    n := inserted;
    PayloadsPrefix(sc, map[], jobs, maxAge, 0);
    PayloadsPrefix(sc, map[], jobs, maxAge, n);
    if s.queue == map[] {
      assert |PayloadsOf(s.log[..n])| == |PayloadsOf(s.log)|;
    }
    RunPrefix(sc, map[], jobs, maxAge, n);
    EmptyCacheIsCovered(sc, map[]);
    IncrementalEqualsFull(sc, map[], map[], jobs[..n], maxAge);
    CarriedPrefix(s.log, Payloads(sc, map[], jobs, maxAge), n);
  }

  // ---------------------------------------------------------------------------
  // Whatever the clock does
  // ---------------------------------------------------------------------------

  predicate Mentions(cs: seq<Component>, path: string) { exists i :: 0 <= i < |cs| && cs[i].path == path }

  /** A list that mentions a path says the same of it whatever came before; any other list says nothing of it. */
  lemma {:induction false} AbsorbSays(view: map<string, seq<string>>, cs: seq<Component>, path: string)
    ensures var after, alone := Absorb(view, cs), Absorb(map[], cs);
            if Mentions(cs, path) then path in after && path in alone && after[path] == alone[path]
            else (path in after <==> path in view) && (path in view ==> after[path] == view[path])
    decreases |cs|
  {
    if cs != [] {
      var n := |cs| - 1;
      AbsorbSays(view, cs[..n], path);
      assert forall i :: 0 <= i < n ==> cs[..n][i] == cs[i];
      assert Mentions(cs, path) <==> Mentions(cs[..n], path) || cs[n].path == path;
    }
  }

  ghost predicate NoneMentions(ps: seq<seq<Component>>, path: string) {
    forall j :: 0 <= j < |ps| ==> !Mentions(ps[j], path)
  }

  /** List i is the last that mentions the path. */
  ghost predicate LastWord(ps: seq<seq<Component>>, path: string, i: nat) {
    i < |ps| && Mentions(ps[i], path) && NoneMentions(ps[i + 1..], path)
  }

  /** What the view says of a path is what the last list that mentions it says. */
  lemma {:induction false} ViewIsLastWord(view: map<string, seq<string>>, ps: seq<seq<Component>>, path: string)
    returns (i: nat)
    ensures var after := AbsorbAll(view, ps);
            if i < |ps| then
              && LastWord(ps, path, i) && path in Absorb(map[], ps[i]) && path in after
              && after[path] == Absorb(map[], ps[i])[path]
            else
              && NoneMentions(ps, path) && (path in after <==> path in view)
              && (path in view ==> after[path] == view[path])
    decreases |ps|
  {
    i := 0;
    if ps != [] {
      AbsorbSays(view, ps[0], path);
      var k := ViewIsLastWord(Absorb(view, ps[0]), ps[1..], path);
      if k < |ps| - 1 {
        i := k + 1;
        assert ps[1..][k + 1..] == ps[i + 1..];
      } else if Mentions(ps[0], path) {
        assert ps[i + 1..] == ps[1..];
      } else {
        i := |ps|;
        forall j | 0 <= j < |ps|
          ensures !Mentions(ps[j], path)
        {
          assert j > 0 ==> ps[j] == ps[1..][j - 1];
        }
      }
    }
  }

  lemma StaysKnown(steps: seq<Step>, i: nat)
    requires Runs(INIT, steps) && i < |After(INIT, steps).log|
    ensures QueuedOrInserted(After(INIT, steps), After(INIT, steps).log[i].payload)
  {
    AtLeastOnce(steps);
  }

  /** The payload that last mentions a path carries its analysis, and is queued or was inserted. */
  ghost predicate Kept(s: State, path: string, analysis: seq<string>) {
    exists i: nat :: LastWord(Components(PayloadsOf(s.log)), path, i)
      && path in Absorb(map[], s.log[i].payload.components)
      && Absorb(map[], s.log[i].payload.components)[path] == analysis
      && QueuedOrInserted(s, s.log[i].payload)
  }

  /**
   Nothing is lost, whatever the clock does: at every moment of every run, for every path of which full
   scans would have reported something, the last payload that mentions the path carries exactly
   that, and is still queued or was inserted.
   */
  lemma NothingIsLost(sc: Scanner, jobs: seq<Job>, maxAge: int, steps: seq<Step>, path: string)
    requires Injective(sc) && ValidRun(sc, map[], jobs, maxAge)
    requires forall i :: 0 <= i < |jobs| ==> AllStored(jobs[i].visits)
    requires Runs(INIT, steps) && Carries(After(INIT, steps).log, Payloads(sc, map[], jobs, maxAge))
    ensures var full := AbsorbAll(map[], FullPayloads(sc, jobs));
            path in full ==> Kept(After(INIT, steps), path, full[path])
  {
    var s, ps := After(INIT, steps), Payloads(sc, map[], jobs, maxAge);
    EmptyCacheIsCovered(sc, map[]);
    IncrementalEqualsFull(sc, map[], map[], jobs, maxAge);
    assert Components(PayloadsOf(s.log)) == ps;
    var i := ViewIsLastWord(map[], ps, path);
    if i < |ps| {
      assert s.log[i].payload.components == ps[i];
      StaysKnown(steps, i);
      assert LastWord(Components(PayloadsOf(s.log)), path, i);
    }
  }
}
