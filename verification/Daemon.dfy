/**
The daemon loop: scan, enqueue, sync, again.  Each cycle is proved to be one job of the incremental scan
and a run of the delivery machine, so what the end-to-end theorems say holds of the loop itself.
*/
module Daemon {
  import opened Delivery
  import opened EndToEnd
  import opened Options
  import opened ScanCache
  import opened Storage
  import opened Sync
  import Readers

  /** The cache after the last job. */
  function EndCache(cache: map<string, Row>, jobs: seq<Job>): map<string, Row> {
    if jobs == [] then cache else jobs[|jobs| - 1].after
  }

  ghost predicate ValidJob(sc: Scanner, cache: map<string, Row>, job: Job, maxAge: int) {
    Purged(WalkCache(sc, cache, job.visits, job.full, maxAge), job.after, VisitedPaths(job.visits))
  }

  lemma EndCacheOfRest(cache: map<string, Row>, jobs: seq<Job>)
    requires jobs != []
    ensures EndCache(jobs[0].after, jobs[1..]) == EndCache(cache, jobs)
  {
  }

  lemma {:induction false} RunSnoc(sc: Scanner, cache: map<string, Row>, jobs: seq<Job>, job: Job, maxAge: int)
    requires ValidRun(sc, cache, jobs, maxAge) && ValidJob(sc, EndCache(cache, jobs), job, maxAge)
    ensures ValidRun(sc, cache, jobs + [job], maxAge)
    decreases |jobs|
  {
    var more := jobs + [job];
    if jobs == [] {
      assert more[1..] == [] && more[0] == job;
    } else {
      EndCacheOfRest(cache, jobs);
      RunSnoc(sc, jobs[0].after, jobs[1..], job, maxAge);
      assert more[1..] == jobs[1..] + [job] && more[0] == jobs[0];
    }
  }

  lemma {:induction false} PayloadsSnoc(sc: Scanner, cache: map<string, Row>, jobs: seq<Job>, job: Job, maxAge: int)
    ensures Payloads(sc, cache, jobs + [job], maxAge) ==
            Payloads(sc, cache, jobs, maxAge) + [WalkReports(sc, EndCache(cache, jobs), job.visits, job.full, maxAge)]
    decreases |jobs|
  {
    var more := jobs + [job];
    if jobs == [] {
      assert more[1..] == [] && more[0] == job;
      assert Payloads(sc, job.after, [], maxAge) == [];
    } else {
      EndCacheOfRest(cache, jobs);
      PayloadsSnoc(sc, jobs[0].after, jobs[1..], job, maxAge);
      assert more[1..] == jobs[1..] + [job] && more[0] == jobs[0];
    }
  }

  /** The two views of the walked paths. */
  lemma SamePaths(vs: seq<Visit>, walk: seq<Entry>)
    requires VisitsOf(vs, walk)
    ensures VisitedPaths(vs) == Paths(walk)
  {
  }

  /** The log grew by the payload of one walk. */
  ghost predicate Logged(sc: Scanner, cache: map<string, Row>, job: Job, maxAge: int, id: string, host: string,
                         before: State, after: State) {
    exists now ::
      after.log == before.log + [Queued(Payload(id, host, WalkReports(sc, cache, job.visits, job.full, maxAge)), now)]
  }

  /** One cycle; an enqueue that fails ends the daemon. */
  method Cycle(store: OfflineStore, controller: Controller, control: ScanControl, sc: Scanner, walk: seq<Entry>,
               maxAge: int, id: string, host: string, ghost s: State)
    returns (alive: bool, ghost job: Job, ghost steps: seq<Step>, ghost end: State)
    requires s.phase == Idle && s.queue == store.queue && s.inserted == controller.inserted && KeyedById(store.queue)
    requires FreshId(s, id)
    modifies store, controller, control
    ensures VisitsOf(job.visits, walk) && job.after == store.scanState && !job.full
    ensures ValidJob(sc, old(store.scanState), job, maxAge)
    ensures Leads(s, steps, end) && end.phase == Idle && end.queue == store.queue && end.inserted == controller.inserted
    ensures KeyedById(store.queue)
    ensures !alive ==> end == s
    ensures store.reliable ==> alive && AllStored(job.visits)
    ensures alive ==> Logged(sc, old(store.scanState), job, maxAge, id, host, s, end)
  {
    var components, _, vs := Scan(store, sc, walk, false, maxAge);
    SamePaths(vs, walk);
    job := Job(vs, false, store.scanState);
    steps, end := [], s;
    var p := Payload(id, host, components);
    var now;
    alive, now := store.EnqueuePayload(p);
    if !alive {
      return;
    }
    LeadsOn(s, [], s, Enqueue(p, now));
    ghost var queued := Apply(s, Enqueue(p, now));
    var commands: seq<Command> := *;

    ghost var batch, more, after;
    var summary: Option<Summary>;
    summary, batch, more, after := SyncOnce(store, controller, control, commands, queued);
    Compose(s, [Enqueue(p, now)], more);
    steps, end := [Enqueue(p, now)] + more, after;
    assert end.log == s.log + [Queued(p, now)];
  }

  /** The log of a run that started with nothing queued carries the jobs' payloads. */
  ghost predicate Tracks(sc: Scanner, jobs: seq<Job>, maxAge: int, cache: map<string, Row>, log: seq<Queued>) {
    && ValidRun(sc, map[], jobs, maxAge) && EndCache(map[], jobs) == cache
    && Carries(log, Payloads(sc, map[], jobs, maxAge))
  }

  lemma TracksOn(sc: Scanner, jobs: seq<Job>, job: Job, maxAge: int, cache: map<string, Row>, log: seq<Queued>,
                 p: Payload, now: int)
    requires Tracks(sc, jobs, maxAge, cache, log) && ValidJob(sc, cache, job, maxAge)
    requires p.components == WalkReports(sc, cache, job.visits, job.full, maxAge)
    ensures Tracks(sc, jobs + [job], maxAge, job.after, log + [Queued(p, now)])
  {
    RunSnoc(sc, map[], jobs, job, maxAge);
    PayloadsSnoc(sc, map[], jobs, job, maxAge);
  }

  ghost predicate Named(log: seq<Queued>, ids: seq<string>) {
    |log| <= |ids| && forall i :: 0 <= i < |log| ==> log[i].payload.id == ids[i]
  }

  lemma NextIdIsFresh(s: State, ids: seq<string>)
    requires Named(s.log, ids) && |s.log| < |ids| && forall i, j :: 0 <= i < j < |ids| ==> ids[i] != ids[j]
    ensures FreshId(s, ids[|s.log|])
  {
  }

  ghost predicate Walked(jobs: seq<Job>, walks: seq<seq<Entry>>) {
    |jobs| <= |walks| && forall i :: 0 <= i < |jobs| ==> VisitsOf(jobs[i].visits, walks[i])
  }

  lemma WalkedOn(jobs: seq<Job>, job: Job, walks: seq<seq<Entry>>)
    requires Walked(jobs, walks) && |jobs| < |walks| && VisitsOf(job.visits, walks[|jobs|])
    ensures Walked(jobs + [job], walks)
  {
  }

  lemma CycleOn(sc: Scanner, jobs: seq<Job>, job: Job, maxAge: int, cache: map<string, Row>, walks: seq<seq<Entry>>,
                ids: seq<string>, host: string, before: State, after: State)
    requires |jobs| == |before.log| < |walks| == |ids| && Tracks(sc, jobs, maxAge, cache, before.log)
    requires Named(before.log, ids) && Walked(jobs, walks)
    requires ValidJob(sc, cache, job, maxAge) && VisitsOf(job.visits, walks[|jobs|])
    requires Logged(sc, cache, job, maxAge, ids[|jobs|], host, before, after)
    ensures |after.log| == |jobs| + 1 && Tracks(sc, jobs + [job], maxAge, job.after, after.log)
    ensures Named(after.log, ids) && Walked(jobs + [job], walks)
  {
    var p := Payload(ids[|jobs|], host, WalkReports(sc, cache, job.visits, job.full, maxAge));
    var now :| after.log == before.log + [Queued(p, now)];
    TracksOn(sc, jobs, job, maxAge, cache, before.log, p, now);
    WalkedOn(jobs, job, walks);
  }

  ghost predicate JobsStored(jobs: seq<Job>) { forall i :: 0 <= i < |jobs| ==> AllStored(jobs[i].visits) }

  /** For every path full scans would have reported, the last payload about it is right, and queued or inserted. */
  ghost predicate Informed(sc: Scanner, jobs: seq<Job>, s: State) {
    var full := AbsorbAll(map[], FullPayloads(sc, jobs));
    forall path :: path in full ==> Kept(s, path, full[path])
  }

  lemma RunInforms(sc: Scanner, jobs: seq<Job>, maxAge: int, steps: seq<Step>, end: State)
    requires Leads(INIT, steps, end) && ValidRun(sc, map[], jobs, maxAge)
    requires Carries(end.log, Payloads(sc, map[], jobs, maxAge))
    ensures Injective(sc) ==> Readers.Complete(sc, jobs, end)
    ensures Injective(sc) && JobsStored(jobs) ==> Informed(sc, jobs, end)
  {
    if Injective(sc) {
      Readers.RunIsComplete(sc, jobs, maxAge, steps);
    }
    if Injective(sc) && JobsStored(jobs) {
      forall path | path in AbsorbAll(map[], FullPayloads(sc, jobs))
        ensures Kept(end, path, AbsorbAll(map[], FullPayloads(sc, jobs))[path])
      {
        NothingIsLost(sc, jobs, maxAge, steps, path);
      }
    }
  }

  /**
   The daemon from a fresh installation, over any walks, with fresh payload ids, until an enqueue fails.
   What it leaves is a run of jobs and of deliveries that the end-to-end theorems speak of.
   */
  method Loop(store: OfflineStore, controller: Controller, control: ScanControl, sc: Scanner, walks: seq<seq<Entry>>,
              ids: seq<string>, host: string, maxAge: int)
    returns (ghost jobs: seq<Job>, ghost steps: seq<Step>, ghost end: State)
    requires store.scanState == map[] && store.queue == map[] && controller.inserted == []
    requires |ids| == |walks| && forall i, j :: 0 <= i < j < |ids| ==> ids[i] != ids[j]
    modifies store, controller, control
    ensures Leads(INIT, steps, end) && end.queue == store.queue && end.inserted == controller.inserted
    ensures ValidRun(sc, map[], jobs, maxAge) && Carries(end.log, Payloads(sc, map[], jobs, maxAge))
    ensures Walked(jobs, walks)
    ensures Injective(sc) ==> Readers.Complete(sc, jobs, end)
    ensures Injective(sc) && JobsStored(jobs) ==> Informed(sc, jobs, end)
    ensures store.reliable ==> |jobs| == |walks| && JobsStored(jobs)
  {
    jobs, steps, end := [], [], INIT;
    for i := 0 to |walks|
      invariant Leads(INIT, steps, end) && end.phase == Idle && end.queue == store.queue
      invariant end.inserted == controller.inserted
      invariant KeyedById(store.queue)
      invariant |jobs| == i == |end.log| && Tracks(sc, jobs, maxAge, store.scanState, end.log)
      invariant Named(end.log, ids) && Walked(jobs, walks)
      invariant store.reliable ==> JobsStored(jobs)
    {
      ghost var cache := store.scanState;
      NextIdIsFresh(end, ids);
      var alive: bool;
      ghost var job, more, after;
      alive, job, more, after := Cycle(store, controller, control, sc, walks[i], maxAge, ids[i], host, end);
      if !alive {
        RunInforms(sc, jobs, maxAge, steps, end);
        return;
      }
      CycleOn(sc, jobs, job, maxAge, cache, walks, ids, host, end, after);
      Compose(INIT, steps, more);
      jobs, steps, end := jobs + [job], steps + more, after;
    }
    RunInforms(sc, jobs, maxAge, steps, end);
  }
}
