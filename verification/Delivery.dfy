/**
Delivery of telemetry: the agent's queue, the server's inserts, and any number of streams between
them that may break at any point.  The agent deletes a batch only after the server has ended the
stream without error and has accepted the reports; the server inserts a payload once, by its id.
*/
module Delivery {
  import opened Storage

  const BATCH := 256

  /** A stream as the server handles it: the batch, how many payloads it has inserted, and whether it ended well. */
  datatype Stream = Stream(batch: seq<Payload>, next: nat, ended: bool)

  /** Where the agent's sync stands. */
  datatype Phase = Idle | Streaming(stream: nat) | Reporting(batch: seq<Payload>) | Deleting(rest: seq<Payload>)

  /** `log` is every payload ever enqueued, with its creation second, in order. */
  datatype State = State(queue: map<string, Queued>, phase: Phase, streams: seq<Stream>, inserted: seq<Payload>,
                         log: seq<Queued>)

  const INIT := State(map[], Idle, [], [], [])

  datatype Step =
    | Enqueue(payload: Payload, now: int)  // a scan's payload is queued
    | Open(batch: seq<Payload>)            // sync: registered, batch loaded, stream opened
    | Insert(k: nat)                       // server: stream k's next payload is inserted
    | End(k: nat)                          // server: stream k is read to its end, without error
    | SeeEnd                               // agent: the command stream ended without error
    | Reported                             // agent: the reports, if any, were accepted
    | DeleteOne                            // agent: one row of the batch is deleted
    | Finish                               // agent: the batch is deleted
    | GiveUp                               // agent: any error, or a restart, at any point of a sync

  predicate InsertedId(inserted: seq<Payload>, id: string) { exists i :: 0 <= i < |inserted| && inserted[i].id == id }

  /** Ids are fresh when enqueued. */
  ghost predicate FreshId(s: State, id: string) { forall i :: 0 <= i < |s.log| ==> s.log[i].payload.id != id }

  ghost predicate Enabled(s: State, step: Step) {
    match step
    case Enqueue(p, _) => s.phase == Idle && FreshId(s, p.id)
    case Open(batch) => s.phase == Idle && OldestFirst(s.queue, batch, BATCH)
    case Insert(k) =>
      && k < |s.streams| && !s.streams[k].ended && s.streams[k].next < |s.streams[k].batch|
      && s.streams[k].batch[s.streams[k].next].hostUuid != ""  // the server ends the stream with an error otherwise
    case End(k) => k < |s.streams| && !s.streams[k].ended && s.streams[k].next == |s.streams[k].batch|
    case SeeEnd => s.phase.Streaming? && s.phase.stream < |s.streams| && s.streams[s.phase.stream].ended
    case Reported => s.phase.Reporting?
    case DeleteOne => s.phase.Deleting? && s.phase.rest != []
    case Finish => s.phase.Deleting? && s.phase.rest == []
    case GiveUp => true
  }

  ghost function Apply(s: State, step: Step): State
    requires Enabled(s, step)
  {
    match step
    case Enqueue(p, now) => s.(queue := s.queue[p.id := Queued(p, now)], log := s.log + [Queued(p, now)])
    case Open(batch) => s.(phase := Streaming(|s.streams|), streams := s.streams + [Stream(batch, 0, false)])
    case Insert(k) =>
      var t := s.streams[k];
      var p := t.batch[t.next];
      s.(streams := s.streams[k := t.(next := t.next + 1)],
         inserted := if InsertedId(s.inserted, p.id) then s.inserted else s.inserted + [p])
    case End(k) => s.(streams := s.streams[k := s.streams[k].(ended := true)])
    case SeeEnd => s.(phase := Reporting(s.streams[s.phase.stream].batch))
    case Reported => s.(phase := Deleting(s.phase.batch))
    case DeleteOne => s.(queue := s.queue - {s.phase.rest[0].id}, phase := Deleting(s.phase.rest[1..]))
    case Finish => s.(phase := Idle)
    case GiveUp => s.(phase := Idle)
  }

  ghost predicate Runs(s: State, steps: seq<Step>)
    decreases |steps|
  {
    steps == [] || (Enabled(s, steps[0]) && Runs(Apply(s, steps[0]), steps[1..]))
  }

  ghost function After(s: State, steps: seq<Step>): State
    requires Runs(s, steps)
    decreases |steps|
  {
    if steps == [] then s else After(Apply(s, steps[0]), steps[1..])
  }

  /** A run may take one more enabled step. */
  lemma {:induction false} Extend(s: State, steps: seq<Step>, step: Step)
    requires Runs(s, steps) && Enabled(After(s, steps), step)
    ensures Runs(s, steps + [step]) && After(s, steps + [step]) == Apply(After(s, steps), step)
    decreases |steps|
  {
    var more := steps + [step];
    if steps == [] {
      assert more[1..] == [] && more[0] == step;
    } else {
      Extend(Apply(s, steps[0]), steps[1..], step);
      assert more[1..] == steps[1..] + [step] && more[0] == steps[0];
    }
  }

  lemma {:induction false} Compose(s: State, a: seq<Step>, b: seq<Step>)
    requires Runs(s, a) && Runs(After(s, a), b)
    ensures Runs(s, a + b) && After(s, a + b) == After(After(s, a), b)
    decreases |b|
  {
    if b == [] {
      assert a + b == a;
    } else {
      Extend(s, a, b[0]);
      Compose(s, a + [b[0]], b[1..]);
      assert a + b == a + [b[0]] + b[1..];
    }
  }

  /** `steps` lead from one state to another. */
  ghost predicate Leads(s: State, steps: seq<Step>, s': State) {
    Runs(s, steps) && After(s, steps) == s'
  }

  lemma LeadsOn(s: State, steps: seq<Step>, at: State, step: Step)
    requires Leads(s, steps, at) && Enabled(at, step)
    ensures Leads(s, steps + [step], Apply(at, step))
  {
    Extend(s, steps, step);
  }

  // ---------------------------------------------------------------------------
  // At least once, for every interleaving
  // ---------------------------------------------------------------------------

  ghost predicate InLog(s: State, p: Payload) { exists i :: 0 <= i < |s.log| && s.log[i].payload == p }

  ghost predicate QueuedOrInserted(s: State, p: Payload) {
    (p.id in s.queue && s.queue[p.id].payload == p) || p in s.inserted
  }

  ghost predicate UniqueIds(log: seq<Queued>) {
    forall i, j :: 0 <= i < j < |log| ==> log[i].payload.id != log[j].payload.id
  }

  /** A stream holds logged payloads and has inserted those it has passed. */
  ghost predicate GoodStream(s: State, t: Stream) {
    && t.next <= |t.batch| && (t.ended ==> t.next == |t.batch|)
    && (forall i :: 0 <= i < |t.batch| ==> InLog(s, t.batch[i]))
    && (forall i :: 0 <= i < t.next ==> t.batch[i] in s.inserted)
  }

  ghost predicate AllInserted(s: State, ps: seq<Payload>) {
    forall i :: 0 <= i < |ps| ==> ps[i] in s.inserted && InLog(s, ps[i])
  }

  ghost predicate Inv(s: State) {
    && UniqueIds(s.log)
    && (forall i :: 0 <= i < |s.log| ==> QueuedOrInserted(s, s.log[i].payload))
    && (forall id :: id in s.queue ==> s.queue[id] in s.log && s.queue[id].payload.id == id)
    && (forall i :: 0 <= i < |s.inserted| ==> InLog(s, s.inserted[i]))
    && (forall k :: 0 <= k < |s.streams| ==> GoodStream(s, s.streams[k]))
    && (s.phase.Reporting? ==> AllInserted(s, s.phase.batch))
    && (s.phase.Deleting? ==> AllInserted(s, s.phase.rest))
  }

  /** An id names one logged payload. */
  lemma SameId(s: State, p: Payload, q: Payload)
    requires UniqueIds(s.log) && InLog(s, p) && InLog(s, q) && p.id == q.id
    ensures p == q
  {
    var i :| 0 <= i < |s.log| && s.log[i].payload == p;
    var j :| 0 <= j < |s.log| && s.log[j].payload == q;
  }

  lemma EnqueueKeepsInv(s: State, p: Payload, now: int)
    requires Inv(s) && Enabled(s, Enqueue(p, now))
    ensures Inv(Apply(s, Enqueue(p, now)))
  {
    var s' := Apply(s, Enqueue(p, now));
    assert s'.log[|s.log|].payload == p;
    forall q | InLog(s, q)
      ensures InLog(s', q) && q.id != p.id
    {
      var i :| 0 <= i < |s.log| && s.log[i].payload == q;
      assert s'.log[i].payload == q;
    }
    forall i | 0 <= i < |s'.log|
      ensures QueuedOrInserted(s', s'.log[i].payload)
    {
      if i < |s.log| {
        assert QueuedOrInserted(s, s.log[i].payload) && InLog(s, s.log[i].payload);
      }
    }
  }

  lemma OpenKeepsInv(s: State, batch: seq<Payload>)
    requires Inv(s) && Enabled(s, Open(batch))
    ensures Inv(Apply(s, Open(batch)))
  {
    var s' := Apply(s, Open(batch));
    forall i | 0 <= i < |batch|
      ensures InLog(s', batch[i])
    {
      var q := s.queue[batch[i].id];
      var j :| 0 <= j < |s.log| && s.log[j] == q;
      assert s'.log[j].payload == batch[i];
    }
    forall q | InLog(s, q)
      ensures InLog(s', q)
    {
      var i :| 0 <= i < |s.log| && s.log[i].payload == q;
      assert s'.log[i].payload == q;
    }
  }

  /** After an insert step the payload is there, and everything that was there still is. */
  lemma InsertAdds(s: State, k: nat)
    requires Inv(s) && Enabled(s, Insert(k))
    ensures var s', p := Apply(s, Insert(k)), s.streams[k].batch[s.streams[k].next];
            && p in s'.inserted && (forall q :: q in s.inserted ==> q in s'.inserted)
            && (forall i :: 0 <= i < |s'.inserted| ==> InLog(s, s'.inserted[i]))
  {
    var s', t := Apply(s, Insert(k)), s.streams[k];
    var p := t.batch[t.next];
    assert GoodStream(s, t);
    if InsertedId(s.inserted, p.id) {
      var i :| 0 <= i < |s.inserted| && s.inserted[i].id == p.id;
      SameId(s, s.inserted[i], p);
    } else {
      assert s'.inserted[|s.inserted|] == p;
    }
  }

  lemma InsertKeepsInv(s: State, k: nat)
    requires Inv(s) && Enabled(s, Insert(k))
    ensures Inv(Apply(s, Insert(k)))
  {
    var s' := Apply(s, Insert(k));
    InsertAdds(s, k);
    forall q
      ensures InLog(s', q) <==> InLog(s, q)
    {
      assert s'.log == s.log;
    }
    forall i | 0 <= i < |s'.streams|
      ensures GoodStream(s', s'.streams[i])
    {
      assert GoodStream(s, s.streams[i]);
    }
    forall i | 0 <= i < |s.log|
      ensures QueuedOrInserted(s', s'.log[i].payload)
    {
      assert QueuedOrInserted(s, s.log[i].payload);
    }
  }

  lemma DeleteKeepsInv(s: State)
    requires Inv(s) && Enabled(s, DeleteOne)
    ensures Inv(Apply(s, DeleteOne))
  {
    var s', gone := Apply(s, DeleteOne), s.phase.rest[0];
    assert gone in s.inserted && InLog(s, gone);
    forall q
      ensures InLog(s', q) <==> InLog(s, q)
    {
      assert s'.log == s.log;
    }
    forall i | 0 <= i < |s.log|
      ensures QueuedOrInserted(s', s.log[i].payload)
    {
      var p := s.log[i].payload;
      assert QueuedOrInserted(s, p);
      if p.id == gone.id {
        SameId(s, p, gone);
      }
    }
    forall j | 0 <= j < |s.streams|
      ensures GoodStream(s', s'.streams[j])
    {
      assert GoodStream(s, s.streams[j]);
    }
  }

  lemma AgentKeepsInv(s: State, step: Step)
    requires Inv(s) && Enabled(s, step) && (step.End? || step.SeeEnd? || step.Reported? || step.Finish? || step.GiveUp?)
    ensures Inv(Apply(s, step))
  {
    var s' := Apply(s, step);
    forall q
      ensures InLog(s', q) <==> InLog(s, q)
    {
      assert s'.log == s.log;
    }
    forall j | 0 <= j < |s.streams|
      ensures GoodStream(s', s'.streams[j])
    {
      assert GoodStream(s, s.streams[j]);
    }
    forall i | 0 <= i < |s.log|
      ensures QueuedOrInserted(s', s.log[i].payload)
    {
      assert QueuedOrInserted(s, s.log[i].payload);
    }
  }

  lemma StepKeepsInv(s: State, step: Step)
    requires Inv(s) && Enabled(s, step)
    ensures Inv(Apply(s, step))
  {
    match step
    case Enqueue(p, now) => EnqueueKeepsInv(s, p, now);
    case Open(batch) => OpenKeepsInv(s, batch);
    case Insert(k) => InsertKeepsInv(s, k);
    case DeleteOne => DeleteKeepsInv(s);
    case End(_) => AgentKeepsInv(s, step);
    case SeeEnd => AgentKeepsInv(s, step);
    case Reported => AgentKeepsInv(s, step);
    case Finish => AgentKeepsInv(s, step);
    case GiveUp => AgentKeepsInv(s, step);
  }

  lemma {:induction false} RunKeepsInv(s: State, steps: seq<Step>)
    requires Inv(s) && Runs(s, steps)
    ensures Inv(After(s, steps))
    decreases |steps|
  {
    if steps != [] {
      StepKeepsInv(s, steps[0]);
      RunKeepsInv(Apply(s, steps[0]), steps[1..]);
    }
  }

  /** At least once: after any run, every payload ever enqueued is still queued or was inserted by the server. */
  lemma AtLeastOnce(steps: seq<Step>)
    requires Runs(INIT, steps)
    ensures var s := After(INIT, steps);
            && (forall i :: 0 <= i < |s.log| ==> QueuedOrInserted(s, s.log[i].payload))
            && (forall i :: 0 <= i < |s.inserted| ==> InLog(s, s.inserted[i]))
  {
    RunKeepsInv(INIT, steps);
  }

  // ---------------------------------------------------------------------------
  // In order, when creation times increase strictly
  // ---------------------------------------------------------------------------

  ghost predicate Increasing(log: seq<Queued>) {
    forall i, j :: 0 <= i < j < |log| ==> log[i].createdAt < log[j].createdAt
  }

  function PayloadsOf(log: seq<Queued>): (ps: seq<Payload>)
    ensures |ps| == |log|
    ensures forall i :: 0 <= i < |log| ==> ps[i] == log[i].payload
  {
    seq(|log|, i requires 0 <= i < |log| => log[i].payload)
  }

  /** `ps` is the stretch of the log that starts at `a`. */
  ghost predicate Stretch(log: seq<Queued>, ps: seq<Payload>, a: nat) {
    a + |ps| <= |log| && forall i :: 0 <= i < |ps| ==> ps[i] == log[a + i].payload
  }

  ghost predicate StreamAt(log: seq<Queued>, t: Stream, a: nat, n: nat) {
    Stretch(log, t.batch, a) && t.next <= |t.batch| && a + t.next <= n
  }

  ghost predicate SomeStreamAt(log: seq<Queued>, t: Stream, n: nat) {
    exists a: nat :: StreamAt(log, t, a, n)
  }

  ghost predicate StreamsAt(log: seq<Queued>, streams: seq<Stream>, n: nat) {
    forall k :: 0 <= k < |streams| ==> SomeStreamAt(log, streams[k], n)
  }

  /** The queue holds the log from `d` on. */
  ghost predicate Suffix(queue: map<string, Queued>, log: seq<Queued>, d: nat) {
    forall i :: 0 <= i < |log| ==>
      (log[i].payload.id in queue <==> d <= i) && (d <= i ==> queue[log[i].payload.id] == log[i])
  }

  ghost predicate FromLog(queue: map<string, Queued>, log: seq<Queued>) {
    forall id :: id in queue ==> queue[id] in log && queue[id].payload.id == id
  }

  /** What the agent's sync is working on starts at `d`, and once the stream has ended it is inserted. */
  ghost predicate PhaseAt(log: seq<Queued>, streams: seq<Stream>, phase: Phase, d: nat, n: nat) {
    match phase
    case Idle => true
    case Streaming(k) => k < |streams| && StreamAt(log, streams[k], d, n)
    case Reporting(batch) => Stretch(log, batch, d) && d + |batch| <= n
    case Deleting(rest) => Stretch(log, rest, d) && d + |rest| <= n
  }

  /** The first d payloads are deleted, the first n are inserted, in order, and d <= n. */
  ghost predicate Fifo(s: State, d: nat, n: nat) {
    && d <= n <= |s.log|
    && s.inserted == PayloadsOf(s.log[..n])
    && Suffix(s.queue, s.log, d)
    && StreamsAt(s.log, s.streams, n)
    && PhaseAt(s.log, s.streams, s.phase, d, n)
  }

  lemma StretchGrows(log: seq<Queued>, more: Queued, ps: seq<Payload>, a: nat)
    requires Stretch(log, ps, a)
    ensures Stretch(log + [more], ps, a)
  {
  }

  lemma StreamsGrow(log: seq<Queued>, more: Queued, streams: seq<Stream>, n: nat)
    requires StreamsAt(log, streams, n)
    ensures StreamsAt(log + [more], streams, n)
  {
    forall k | 0 <= k < |streams|
      ensures SomeStreamAt(log + [more], streams[k], n)
    {
      assert SomeStreamAt(log, streams[k], n);
      var a: nat :| StreamAt(log, streams[k], a, n);
      StretchGrows(log, more, streams[k].batch, a);
      assert StreamAt(log + [more], streams[k], a, n);
    }
  }

  lemma EnqueueKeepsFifo(s: State, p: Payload, now: int, d: nat, n: nat)
    requires Fifo(s, d, n) && Enabled(s, Enqueue(p, now))
    ensures Fifo(Apply(s, Enqueue(p, now)), d, n)
  {
    var s' := Apply(s, Enqueue(p, now));
    assert s'.log[..n] == s.log[..n];
    StreamsGrow(s.log, Queued(p, now), s.streams, n);
  }

  /** Where a queued payload stands in the log. */
  lemma StandsInLog(queue: map<string, Queued>, log: seq<Queued>, d: nat, p: Payload) returns (x: nat)
    requires Suffix(queue, log, d) && FromLog(queue, log) && p.id in queue && queue[p.id].payload == p
    ensures d <= x < |log| && queue[p.id] == log[x] && log[x].payload == p
  {
    x :| x < |log| && log[x] == queue[p.id];
  }

  /** An entry older than a returned one, and still queued, was returned before it. */
  lemma OlderIsReturned(queue: map<string, Queued>, batch: seq<Payload>, i: nat, older: Queued) returns (j: nat)
    requires i < |batch| && OldestFirst(queue, batch, BATCH)
    requires older.payload.id in queue && queue[older.payload.id] == older
    requires batch[i].id in queue && older.createdAt < queue[batch[i].id].createdAt
    ensures j < i && batch[j].id == older.payload.id
  {
    j := ReturnedOrNewer(queue, batch, i, older.payload.id);
  }

  lemma ReturnedOrNewer(queue: map<string, Queued>, batch: seq<Payload>, i: nat, id: string) returns (j: nat)
    requires i < |batch| && OldestFirst(queue, batch, BATCH) && id in queue
    ensures j < |batch| && (batch[j].id == id || queue[batch[i].id].createdAt <= queue[id].createdAt)
  {
    if k: nat :| k < |batch| && batch[k].id == id {
      j := k;
    } else {
      j := i;
    }
  }

  /** The returned payload i is not before its place in the log, if the earlier ones are in theirs. */
  lemma NotBefore(log: seq<Queued>, d: nat, batch: seq<Payload>, i: nat, x: nat)
    requires i < |batch| && Stretch(log, batch[..i], d) && d <= x < |log| && log[x].payload == batch[i]
    requires forall j :: 0 <= j < i ==> batch[j].id != batch[i].id
    ensures d + i <= x
  {
    forall y: nat | d <= y < d + i
      ensures log[y].payload.id != batch[i].id
    {
      assert batch[..i][y - d] == log[y].payload;
    }
  }

  /** Nor after it, if an earlier entry there would have been returned before. */
  lemma NotAfter(log: seq<Queued>, d: nat, batch: seq<Payload>, i: nat, x: nat, j: nat)
    requires UniqueIds(log) && i < |batch| && Stretch(log, batch[..i], d) && x < |log|
    requires x > d + i ==> j < i && batch[j].id == log[d + i].payload.id
    ensures x <= d + i
  {
    forall y: nat | y < i
      ensures batch[y] == log[d + y].payload
    {
      assert batch[..i][y] == batch[y];
    }
  }

  /** What the ordered query returns is the stretch of the log that starts at the queue's head. */
  lemma {:induction false} BatchIsStretch(queue: map<string, Queued>, log: seq<Queued>, d: nat, batch: seq<Payload>,
                                          n: nat)
    requires Increasing(log) && UniqueIds(log) && Suffix(queue, log, d) && FromLog(queue, log)
    requires d <= |log| && n <= |batch| && OldestFirst(queue, batch, BATCH)
    ensures Stretch(log, batch[..n], d)
    decreases n
  {
    if n > 0 {
      var i := n - 1;
      BatchIsStretch(queue, log, d, batch, i);
      var x := StandsInLog(queue, log, d, batch[i]);
      NotBefore(log, d, batch, i, x);
      var j := 0;
      if x > d + i {
        j := OlderIsReturned(queue, batch, i, log[d + i]);
      }
      NotAfter(log, d, batch, i, x, j);
      StretchEnds(log, batch, d, i);
    }
  }

  lemma StretchEnds(log: seq<Queued>, batch: seq<Payload>, d: nat, i: nat)
    requires i < |batch| && Stretch(log, batch[..i], d) && d + i < |log| && batch[i] == log[d + i].payload
    ensures Stretch(log, batch[..i + 1], d)
  {
    assert forall j :: 0 <= j < i ==> batch[..i][j] == batch[j];
  }

  lemma OpenKeepsFifo(s: State, batch: seq<Payload>, d: nat, n: nat)
    requires Inv(s) && Increasing(s.log) && Fifo(s, d, n) && Enabled(s, Open(batch))
    ensures Fifo(Apply(s, Open(batch)), d, n)
  {
    BatchIsStretch(s.queue, s.log, d, batch, |batch|);
    assert batch[..|batch|] == batch;
    AnotherStream(s.log, s.streams, Stream(batch, 0, false), d, n);
  }

  lemma AnotherStream(log: seq<Queued>, streams: seq<Stream>, t: Stream, a: nat, n: nat)
    requires StreamsAt(log, streams, n) && StreamAt(log, t, a, n)
    ensures StreamsAt(log, streams + [t], n)
  {
    var all := streams + [t];
    forall k | 0 <= k < |all|
      ensures SomeStreamAt(log, all[k], n)
    {
      assert k < |streams| ==> SomeStreamAt(log, streams[k], n);
    }
  }

  /** Stream k may be replaced by one that is in place, and n may grow. */
  lemma StreamMoves(log: seq<Queued>, streams: seq<Stream>, k: nat, t: Stream, a: nat, n: nat, n': nat)
    requires StreamsAt(log, streams, n) && k < |streams| && n <= n' && StreamAt(log, t, a, n')
    ensures StreamsAt(log, streams[k := t], n')
  {
    var moved := streams[k := t];
    forall j | 0 <= j < |moved|
      ensures SomeStreamAt(log, moved[j], n')
    {
      assert SomeStreamAt(log, streams[j], n);
      var b: nat :| StreamAt(log, streams[j], b, n);
      assert StreamAt(log, streams[j], b, n');
    }
  }

  /** The server's insert of the log's entry m, when the first n are there and m <= n. */
  function InsertedAfter(inserted: seq<Payload>, p: Payload): seq<Payload> {
    if InsertedId(inserted, p.id) then inserted else inserted + [p]
  }

  lemma InsertsNext(log: seq<Queued>, n: nat, m: nat)
    requires UniqueIds(log) && m <= n <= |log| && m < |log|
    ensures InsertedAfter(PayloadsOf(log[..n]), log[m].payload) == PayloadsOf(log[..if m < n then n else n + 1])
  {
    var was, p := PayloadsOf(log[..n]), log[m].payload;
    if m < n {
      assert was[m] == p;
    } else {
      assert forall i :: 0 <= i < n ==> was[i] == log[i].payload;
      assert was + [p] == PayloadsOf(log[..n + 1]);
    }
  }

  /** If a stream's position is counted from two starts, its next payload is the same log entry. */
  lemma OneStart(log: seq<Queued>, t: Stream, a: nat, b: nat, n: nat)
    requires UniqueIds(log) && StreamAt(log, t, a, n) && StreamAt(log, t, b, n) && t.next < |t.batch|
    ensures a == b
  {
    assert log[a + t.next].payload == t.batch[t.next] == log[b + t.next].payload;
  }

  lemma PhaseAfterInsert(log: seq<Queued>, streams: seq<Stream>, phase: Phase, k: nat, t: Stream, d: nat, n: nat,
                         n': nat)
    requires PhaseAt(log, streams, phase, d, n) && n <= n' && k < |streams|
    requires phase == Streaming(k) ==> StreamAt(log, t, d, n')
    ensures PhaseAt(log, streams[k := t], phase, d, n')
  {
  }

  lemma InsertKeepsFifo(s: State, k: nat, d: nat, n: nat) returns (n': nat)
    requires UniqueIds(s.log) && Fifo(s, d, n) && Enabled(s, Insert(k))
    ensures Fifo(Apply(s, Insert(k)), d, n')
  {
    var t := s.streams[k];
    var t' := t.(next := t.next + 1);
    assert SomeStreamAt(s.log, t, n);
    var a: nat :| StreamAt(s.log, t, a, n);
    var m := a + t.next;
    n' := if m < n then n else n + 1;
    InsertsNext(s.log, n, m);
    StreamMoves(s.log, s.streams, k, t', a, n, n');
    if s.phase == Streaming(k) {
      OneStart(s.log, t, a, d, n);
    }
    PhaseAfterInsert(s.log, s.streams, s.phase, k, t', d, n, n');
    var inserted := InsertedAfter(s.inserted, t.batch[t.next]);
    assert Apply(s, Insert(k)) == s.(streams := s.streams[k := t'], inserted := inserted);
  }

  lemma SuffixShrinks(queue: map<string, Queued>, log: seq<Queued>, d: nat)
    requires UniqueIds(log) && Suffix(queue, log, d) && d < |log|
    ensures Suffix(queue - {log[d].payload.id}, log, d + 1)
  {
  }

  lemma DeleteKeepsFifo(s: State, d: nat, n: nat)
    requires UniqueIds(s.log) && Fifo(s, d, n) && Enabled(s, DeleteOne)
    ensures Fifo(Apply(s, DeleteOne), d + 1, n)
  {
    assert s.phase.rest[0] == s.log[d].payload;
    SuffixShrinks(s.queue, s.log, d);
  }

  lemma EndKeepsFifo(s: State, k: nat, d: nat, n: nat)
    requires Fifo(s, d, n) && Enabled(s, End(k))
    ensures Fifo(Apply(s, End(k)), d, n)
  {
    var t' := s.streams[k].(ended := true);
    assert SomeStreamAt(s.log, s.streams[k], n);
    var a: nat :| StreamAt(s.log, s.streams[k], a, n);
    assert StreamAt(s.log, t', a, n);
    StreamMoves(s.log, s.streams, k, t', a, n, n);
    PhaseAfterInsert(s.log, s.streams, s.phase, k, t', d, n, n);
  }

  lemma AgentKeepsFifo(s: State, step: Step, d: nat, n: nat)
    requires Fifo(s, d, n) && Enabled(s, step) && (step.SeeEnd? || step.Reported? || step.Finish? || step.GiveUp?)
    requires step.SeeEnd? ==> s.streams[s.phase.stream].next == |s.streams[s.phase.stream].batch|
    ensures Fifo(Apply(s, step), d, n)
  {
  }

  lemma StepKeepsFifo(s: State, step: Step, d: nat, n: nat) returns (d': nat, n': nat)
    requires Inv(s) && Fifo(s, d, n) && Enabled(s, step) && Increasing(s.log)
    ensures Fifo(Apply(s, step), d', n')
  {
    d', n' := d, n;
    match step
    case Enqueue(p, now) => EnqueueKeepsFifo(s, p, now, d, n);
    case Open(batch) => OpenKeepsFifo(s, batch, d, n);
    case Insert(k) => n' := InsertKeepsFifo(s, k, d, n);
    case End(k) => EndKeepsFifo(s, k, d, n);
    case DeleteOne =>
      DeleteKeepsFifo(s, d, n);
      d' := d + 1;
    case SeeEnd =>
      assert GoodStream(s, s.streams[s.phase.stream]);
      AgentKeepsFifo(s, step, d, n);
    case Reported => AgentKeepsFifo(s, step, d, n);
    case Finish => AgentKeepsFifo(s, step, d, n);
    case GiveUp => AgentKeepsFifo(s, step, d, n);
  }

  lemma {:induction false} LogGrows(s: State, steps: seq<Step>)
    requires Runs(s, steps)
    ensures |s.log| <= |After(s, steps).log| && After(s, steps).log[..|s.log|] == s.log
    decreases |steps|
  {
    if steps != [] {
      var s' := Apply(s, steps[0]);
      LogGrows(s', steps[1..]);
      assert s'.log[..|s.log|] == s.log;
      assert After(s, steps).log[..|s.log|] == After(s, steps).log[..|s'.log|][..|s.log|];
    }
  }

  lemma {:induction false} RunKeepsFifo(s: State, steps: seq<Step>, d: nat, n: nat) returns (d': nat, n': nat)
    requires Inv(s) && Fifo(s, d, n) && Runs(s, steps) && Increasing(After(s, steps).log)
    ensures Fifo(After(s, steps), d', n')
    decreases |steps|
  {
    if steps == [] {
      d', n' := d, n;
    } else {
      LogGrows(s, steps);
      var log := After(s, steps).log;
      assert forall i :: 0 <= i < |s.log| ==> s.log[i] == log[..|s.log|][i] == log[i];
      d', n' := StepKeepsFifo(s, steps[0], d, n);
      StepKeepsInv(s, steps[0]);
      d', n' := RunKeepsFifo(Apply(s, steps[0]), steps[1..], d', n');
    }
  }

  lemma EmptyQueueIsDelivered(s: State, d: nat, n: nat)
    requires Fifo(s, d, n)
    ensures s.queue == map[] ==> s.inserted == PayloadsOf(s.log)
  {
    assert n == |s.log| ==> s.log[..n] == s.log;
    assert d < |s.log| ==> s.log[d].payload.id in s.queue;
  }

  /**
   In order: with strictly increasing creation times, after any run the server has inserted a prefix of
   the enqueued payloads, in order and each once; the queue holds a suffix; together they cover the log.
   */
  lemma InOrder(steps: seq<Step>) returns (d: nat, n: nat)
    requires Runs(INIT, steps) && Increasing(After(INIT, steps).log)
    ensures var s := After(INIT, steps);
            && d <= n <= |s.log| && s.inserted == PayloadsOf(s.log[..n])
            && (forall i :: 0 <= i < |s.log| ==> (s.log[i].payload.id in s.queue <==> d <= i))
            && (s.queue == map[] ==> s.inserted == PayloadsOf(s.log))
  {
    d, n := RunKeepsFifo(INIT, steps, 0, 0);
    var s := After(INIT, steps);
    EmptyQueueIsDelivered(s, d, n);
  }

  // ---------------------------------------------------------------------------
  // Without that the order may be lost
  // ---------------------------------------------------------------------------

  /** The adjacent pairs decide whether the times increase. */
  lemma {:induction false} AdjacentDecide(log: seq<Queued>)
    requires forall i :: 0 <= i < |log| - 1 ==> log[i].createdAt < log[i + 1].createdAt
    ensures Increasing(log)
    decreases |log|
  {
    if |log| > 1 {
      var n := |log| - 1;
      AdjacentDecide(log[..n]);
      forall i, j | 0 <= i < j < |log|
        ensures log[i].createdAt < log[j].createdAt
      {
        assert j == n && i < n - 1 ==> log[..n][i].createdAt < log[..n][n - 1].createdAt;
        assert j < n ==> log[..n][i].createdAt < log[..n][j].createdAt;
      }
    }
  }

  ghost predicate AtRest(s: State) { s.phase == Idle && s.queue == map[] }

  /** A payload not heard of yet, about a named host. */
  ghost predicate Deliverable(s: State, q: Queued) {
    FreshId(s, q.payload.id) && !InsertedId(s.inserted, q.payload.id) && q.payload.hostUuid != ""
  }

  /** One payload, alone in the queue, is inserted. */
  lemma UploadOne(s: State, q: Queued) returns (steps: seq<Step>)
    requires AtRest(s) && Deliverable(s, q)
    ensures var streams := s.streams + [Stream([q.payload], 1, true)];
            Leads(s, steps, State(map[q.payload.id := q], Streaming(|s.streams|), streams,
                                  s.inserted + [q.payload], s.log + [q]))
  {
    var p, k := q.payload, |s.streams|;
    var queued := State(map[p.id := q], Idle, s.streams, s.inserted, s.log + [q]);
    LeadsOn(s, [], s, Enqueue(p, q.createdAt));
    assert Apply(s, Enqueue(p, q.createdAt)) == queued;
    assert queued.queue.Keys == {p.id};
    LeadsOn(s, [] + [Enqueue(p, q.createdAt)], queued, Open([p]));
    var streaming := queued.(phase := Streaming(k), streams := s.streams + [Stream([p], 0, false)]);
    var sent := streaming.(streams := s.streams + [Stream([p], 1, false)], inserted := s.inserted + [p]);
    LeadsOn(s, [] + [Enqueue(p, q.createdAt)] + [Open([p])], streaming, Insert(k));
    assert Apply(streaming, Insert(k)) == sent;
    LeadsOn(s, [] + [Enqueue(p, q.createdAt)] + [Open([p])] + [Insert(k)], sent, End(k));
    steps := [] + [Enqueue(p, q.createdAt)] + [Open([p])] + [Insert(k)] + [End(k)];
    assert Apply(sent, End(k)).streams == s.streams + [Stream([p], 1, true)];
  }

  /** Then it is deleted from the queue. */
  lemma DeliverOne(s: State, q: Queued) returns (steps: seq<Step>, s': State)
    requires AtRest(s) && Deliverable(s, q)
    ensures Leads(s, steps, s') && AtRest(s') && s'.inserted == s.inserted + [q.payload] && s'.log == s.log + [q]
  {
    var p, k := q.payload, |s.streams|;
    steps := UploadOne(s, q);
    var ended := State(map[p.id := q], Streaming(k), s.streams + [Stream([p], 1, true)], s.inserted + [p], s.log + [q]);
    var reporting := ended.(phase := Reporting([p]));
    var deleting, deleted := ended.(phase := Deleting([p])), ended.(phase := Deleting([]), queue := map[]);
    LeadsOn(s, steps, ended, SeeEnd);
    LeadsOn(s, steps + [SeeEnd], reporting, Reported);
    LeadsOn(s, steps + [SeeEnd] + [Reported], deleting, DeleteOne);
    assert map[p.id := q] - {p.id} == map[] && [p][1..] == [];
    assert Apply(deleting, DeleteOne) == deleted;
    LeadsOn(s, steps + [SeeEnd] + [Reported] + [DeleteOne], deleted, Finish);
    steps, s' := steps + [SeeEnd] + [Reported] + [DeleteOne] + [Finish], deleted.(phase := Idle);
  }

  /** A log of payloads that differ in id and name their host, as the daemon queues them. */
  ghost predicate Queueable(log: seq<Queued>) {
    UniqueIds(log) && forall i :: 0 <= i < |log| ==> log[i].payload.hostUuid != ""
  }

  /** When the first n payloads are inserted and nothing else is known, any later one can still be delivered. */
  lemma LaterIsDeliverable(s: State, log: seq<Queued>, n: nat, i: nat)
    requires Queueable(log) && n <= i < |log| && s.inserted == PayloadsOf(log[..n]) && s.log == log[..n]
    ensures Deliverable(s, log[i])
  {
    forall j | 0 <= j < n
      ensures s.log[j].payload.id != log[i].payload.id && s.inserted[j].id != log[i].payload.id
    {
      assert s.log[j] == log[j] && s.inserted[j] == log[j].payload;
    }
  }

  /** A log may be delivered one payload at a time. */
  lemma {:induction false} DeliverEach(log: seq<Queued>, n: nat) returns (steps: seq<Step>, s: State)
    requires Queueable(log) && n <= |log|
    ensures Leads(INIT, steps, s) && AtRest(s) && s.inserted == PayloadsOf(log[..n]) && s.log == log[..n]
    decreases n
  {
    if n == 0 {
      steps, s := [], INIT;
    } else {
      steps, s := DeliverEach(log, n - 1);
      var q := log[n - 1];
      assert log[..n] == log[..n - 1] + [q];
      LaterIsDeliverable(s, log, n - 1, n - 1);
      var more, s' := DeliverOne(s, q);
      Compose(INIT, steps, more);
      steps, s := steps + more, s';
    }
  }

  /**
   Two payloads, the second not younger by the clock: the query may return it first, and so the server inserts
   it first.
   */
  lemma Overtake(s: State, p: Queued, q: Queued) returns (steps: seq<Step>, s': State)
    requires AtRest(s) && Deliverable(s, p) && Deliverable(s, q) && p.payload.id != q.payload.id
    requires q.createdAt <= p.createdAt
    ensures Leads(s, steps, s') && s'.phase == Idle && s'.inserted == s.inserted + [q.payload]
    ensures s'.log == s.log + [p, q]
  {
    var k, batch := |s.streams|, [q.payload, p.payload];
    var one := s.(queue := map[p.payload.id := p], log := s.log + [p]);
    var two := s.(queue := map[p.payload.id := p, q.payload.id := q], log := s.log + [p, q]);
    LeadsOn(s, [], s, Enqueue(p.payload, p.createdAt));
    assert Apply(s, Enqueue(p.payload, p.createdAt)) == one;
    LeadsOn(s, [] + [Enqueue(p.payload, p.createdAt)], one, Enqueue(q.payload, q.createdAt));
    assert Apply(one, Enqueue(q.payload, q.createdAt)) == two;
    steps := [] + [Enqueue(p.payload, p.createdAt)] + [Enqueue(q.payload, q.createdAt)];
    OpensSwapped(two, p, q);
    LeadsOn(s, steps, two, Open(batch));
    var streaming := two.(phase := Streaming(k), streams := s.streams + [Stream(batch, 0, false)]);
    LeadsOn(s, steps + [Open(batch)], streaming, Insert(k));
    var sent := streaming.(streams := s.streams + [Stream(batch, 1, false)], inserted := s.inserted + [q.payload]);
    assert Apply(streaming, Insert(k)) == sent;
    LeadsOn(s, steps + [Open(batch)] + [Insert(k)], sent, GiveUp);
    steps, s' := steps + [Open(batch)] + [Insert(k)] + [GiveUp], sent.(phase := Idle);
  }

  lemma OpensSwapped(s: State, p: Queued, q: Queued)
    requires s.phase == Idle && s.queue == map[p.payload.id := p, q.payload.id := q]
    requires p.payload.id != q.payload.id && q.createdAt <= p.createdAt
    ensures Enabled(s, Open([q.payload, p.payload]))
  {
    assert s.queue.Keys == {p.payload.id, q.payload.id};
    var batch := [q.payload, p.payload];
    assert |batch| == |s.queue|;
    assert batch[0].id == q.payload.id && batch[1].id == p.payload.id;
  }

  /** Any further payloads may be queued. */
  lemma {:induction false} EnqueueEach(s: State, rest: seq<Queued>) returns (steps: seq<Step>, s': State)
    requires s.phase == Idle && UniqueIds(s.log + rest)
    ensures Leads(s, steps, s') && s'.inserted == s.inserted && s'.log == s.log + rest
    decreases |rest|
  {
    if rest == [] {
      steps, s' := [], s;
      assert s.log + rest == s.log;
    } else {
      var q := rest[0];
      assert (s.log + rest)[|s.log|] == q && forall i :: 0 <= i < |s.log| ==> (s.log + rest)[i] == s.log[i];
      LeadsOn(s, [], s, Enqueue(q.payload, q.createdAt));
      var next := Apply(s, Enqueue(q.payload, q.createdAt));
      assert next.log + rest[1..] == s.log + rest;
      var more;
      more, s' := EnqueueEach(next, rest[1..]);
      Compose(s, [] + [Enqueue(q.payload, q.createdAt)], more);
      steps := [] + [Enqueue(q.payload, q.createdAt)] + more;
    }
  }

  /**
   A log with two adjacent payloads whose times do not increase has a run that inserts the second before the
   first.
   */
  lemma OvertakingRun(log: seq<Queued>, i: nat) returns (steps: seq<Step>)
    requires Queueable(log) && i + 1 < |log| && log[i + 1].createdAt <= log[i].createdAt
    ensures Runs(INIT, steps) && After(INIT, steps).log == log
    ensures After(INIT, steps).inserted == PayloadsOf(log[..i]) + [log[i + 1].payload]
  {
    var s, more, s', rest, s'';
    steps, s := DeliverEach(log, i);
    LaterIsDeliverable(s, log, i, i);
    LaterIsDeliverable(s, log, i, i + 1);
    more, s' := Overtake(s, log[i], log[i + 1]);
    Compose(INIT, steps, more);
    assert s'.log + log[i + 2..] == log;
    rest, s'' := EnqueueEach(s', log[i + 2..]);
    Compose(INIT, steps + more, rest);
    steps := steps + more + rest;
  }

  /**
   The server inserts in the order of the log, whatever breaks and however steps interleave, exactly when
   the creation times increase strictly: a tie, or a clock that steps back, has a run that overtakes.
   */
  lemma InOrderIff(log: seq<Queued>)
    requires Queueable(log)
    ensures (forall steps :: Runs(INIT, steps) && After(INIT, steps).log == log ==>
              After(INIT, steps).inserted <= PayloadsOf(log))
            <==> Increasing(log)
  {
    if Increasing(log) {
      forall steps | Runs(INIT, steps) && After(INIT, steps).log == log
        ensures After(INIT, steps).inserted <= PayloadsOf(log)
      {
        var d, n := InOrder(steps);
        assert PayloadsOf(log[..n]) == PayloadsOf(log)[..n];
      }
    } else {
      if forall i :: 0 <= i < |log| - 1 ==> log[i].createdAt < log[i + 1].createdAt {
        AdjacentDecide(log);
      }
      var i: nat :| i + 1 < |log| && log[i + 1].createdAt <= log[i].createdAt;
      var steps := OvertakingRun(log, i);
      assert After(INIT, steps).inserted[i] == log[i + 1].payload != PayloadsOf(log)[i];
    }
  }
}
