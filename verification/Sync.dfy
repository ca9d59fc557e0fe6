/**
One sync of the agent with the controller: register, load a batch, stream it, handle the commands that
come back, report, delete the batch.  Any call may fail; the proof shows that every outcome is a run of
the delivery machine, and that a success removes exactly the loaded batch.
*/
module Sync {
  import opened Delivery
  import opened Options
  import opened Storage

  datatype Command = Command(id: string, targetService: string, profile: string, configPath: string)

  datatype Report = Report(commandId: string, success: bool)

  datatype Summary = Summary(uploaded: nat, commands: nat, scanRequested: bool)

  /** The cooperative flags of the scan loop. */
  datatype Control = Control(cancelled: bool, paused: bool, rootOverride: Option<string>)

  /** The scan verbs; any other command goes to the migration engine. */
  predicate IsScanVerb(c: Command) {
    c.targetService == "janus-agent"
    && c.profile in {"scan-now", "scan-target", "scan-pause", "scan-resume", "scan-cancel"}
  }

  function Steer(k: Control, c: Command): Control {
    if !IsScanVerb(c) then k
    else if c.profile == "scan-now" then k.(cancelled := false, paused := false)
    else if c.profile == "scan-target" then
      Control(false, false, if c.configPath == "" then k.rootOverride else Some(c.configPath))
    else if c.profile == "scan-pause" then k.(paused := true)
    else if c.profile == "scan-resume" then k.(paused := false)
    else k.(cancelled := true)
  }

  function SteerAll(k: Control, cs: seq<Command>): Control {
    if cs == [] then k else Steer(SteerAll(k, cs[..|cs| - 1]), cs[|cs| - 1])
  }

  /** A command to the agent itself with this verb. */
  predicate Verb(c: Command, name: string) { c.targetService == "janus-agent" && c.profile == name }

  predicate Starts(c: Command) { Verb(c, "scan-now") || Verb(c, "scan-target") }

  /** No command from i on is of this kind. */
  ghost predicate NoneFrom(cs: seq<Command>, i: nat, kind: Command -> bool) {
    forall j :: i <= j < |cs| ==> !kind(cs[j])
  }

  lemma NoneSnoc(cs: seq<Command>, i: nat, kind: Command -> bool)
    requires i < |cs|
    ensures NoneFrom(cs, i, kind) <==> NoneFrom(cs[..|cs| - 1], i, kind) && !kind(cs[|cs| - 1])
  {
    var front := cs[..|cs| - 1];
    assert forall j :: 0 <= j < |front| ==> front[j] == cs[j];
  }

  /** Command i is the last that sets a flag, and none that clears it comes after. */
  ghost predicate Stands(cs: seq<Command>, i: nat, sets: Command -> bool, clears: Command -> bool) {
    i < |cs| && sets(cs[i]) && NoneFrom(cs, i, clears)
  }

  /** A flag after commands that set or clear it is up if one that sets it stands, or it was up and none cleared it. */
  ghost predicate FlagIs(flag: bool, was: bool, cs: seq<Command>, sets: Command -> bool, clears: Command -> bool) {
    flag <==> (exists i :: Stands(cs, i, sets, clears)) || (was && NoneFrom(cs, 0, clears))
  }

  lemma FlagSnoc(before: bool, was: bool, cs: seq<Command>, sets: Command -> bool, clears: Command -> bool)
    requires cs != [] && FlagIs(before, was, cs[..|cs| - 1], sets, clears)
    requires !sets(cs[|cs| - 1]) || !clears(cs[|cs| - 1])
    ensures var last := cs[|cs| - 1];
            FlagIs(if sets(last) then true else if clears(last) then false else before, was, cs, sets, clears)
  {
    var front, n := cs[..|cs| - 1], |cs| - 1;
    NoneSnoc(cs, 0, clears);
    forall i: nat | i < n
      ensures Stands(cs, i, sets, clears) <==> Stands(front, i, sets, clears) && !clears(cs[n])
    {
      NoneSnoc(cs, i, clears);
    }
    assert Stands(cs, n, sets, clears) <==> sets(cs[n]) && !clears(cs[n]);
  }

  /** A cancellation stands until a later command starts a scan: nothing else clears it, not even the next scan. */
  lemma {:induction false} CancelStandsIff(k: Control, cs: seq<Command>)
    ensures FlagIs(SteerAll(k, cs).cancelled, k.cancelled, cs, c => Verb(c, "scan-cancel"), c => Starts(c))
    decreases |cs|
  {
    var sets, clears := (c: Command) => Verb(c, "scan-cancel"), (c: Command) => Starts(c);
    if cs != [] {
      var front := cs[..|cs| - 1];
      CancelStandsIff(k, front);
      FlagSnoc(SteerAll(k, front).cancelled, k.cancelled, cs, sets, clears);
    }
    assert FlagIs(SteerAll(k, cs).cancelled, k.cancelled, cs, sets, clears);
  }
  /** A pause stands until a later command resumes or starts a scan. */
  lemma {:induction false} PauseStandsIff(k: Control, cs: seq<Command>)
    ensures FlagIs(SteerAll(k, cs).paused, k.paused, cs, c => Verb(c, "scan-pause"),
                   c => Verb(c, "scan-resume") || Starts(c))
    decreases |cs|
  {
    var sets, clears := (c: Command) => Verb(c, "scan-pause"), (c: Command) => Verb(c, "scan-resume") || Starts(c);
    if cs != [] {
      var front := cs[..|cs| - 1];
      PauseStandsIff(k, front);
      FlagSnoc(SteerAll(k, front).paused, k.paused, cs, sets, clears);
    }
    assert FlagIs(SteerAll(k, cs).paused, k.paused, cs, sets, clears);
  }

  predicate Targets(c: Command) { Verb(c, "scan-target") && c.configPath != "" }

  /** The root of the next scan is that of the last targeted scan with a path, from i on. */
  lemma {:induction false} RootIsLastTarget(k: Control, cs: seq<Command>, i: nat)
    requires i < |cs| && Targets(cs[i]) && NoneFrom(cs, i + 1, c => Targets(c))
    ensures SteerAll(k, cs).rootOverride == Some(cs[i].configPath)
    decreases |cs|
  {
    var n := |cs| - 1;
    assert i < n ==> !Targets(cs[n]);
    if i < n {
      assert forall j :: 0 <= j < n ==> cs[..n][j] == cs[j];
      RootIsLastTarget(k, cs[..n], i);
    }
  }

  lemma {:induction false} RootStays(k: Control, cs: seq<Command>)
    requires NoneFrom(cs, 0, c => Targets(c))
    ensures SteerAll(k, cs).rootOverride == k.rootOverride
    decreases |cs|
  {
    if cs != [] {
      var n := |cs| - 1;
      assert !Targets(cs[n]);
      assert forall j :: 0 <= j < n ==> cs[..n][j] == cs[j];
      RootStays(k, cs[..n]);
    }
  }

  /** One report for each command, in order; the scan verbs always succeed. */
  predicate ReportsOn(reports: seq<Report>, commands: seq<Command>) {
    |reports| == |commands| && forall i :: 0 <= i < |commands| ==>
      && reports[i].commandId == commands[i].id
      && (commands[i].targetService == "janus-agent"
          && commands[i].profile in {"scan-now", "scan-target", "scan-pause", "scan-resume", "scan-cancel"} ==>
            reports[i].success)
  }

  class ScanControl {
    var control: Control

    constructor ()
      ensures control == Control(false, false, None)
    {
      control := Control(false, false, None);
    }

    /** A scan verb sets the flags. */
    method HandleScanVerb(c: Command) returns (starts: bool)
      requires IsScanVerb(c)
      modifies this
      ensures control == Steer(old(control), c) && starts == Starts(c)
    {
      starts := false;
      if c.profile == "scan-now" {
        control := control.(cancelled := false, paused := false);
        starts := true;
      } else if c.profile == "scan-target" {
        control := control.(cancelled := false, paused := false);
        if c.configPath != "" {
          control := control.(rootOverride := Some(c.configPath));
        }
        starts := true;
      } else if c.profile == "scan-pause" {
        control := control.(paused := true);
      } else if c.profile == "scan-resume" {
        control := control.(paused := false);
      } else {
        control := control.(cancelled := true);
      }
    }

    /** The receive loop: one report for each command, in order; the scan verbs set the flags. */
    method HandleCommands(commands: seq<Command>) returns (reports: seq<Report>, scanRequested: bool)
      modifies this
      ensures ReportsOn(reports, commands)
      ensures scanRequested <==> exists i :: 0 <= i < |commands| && Starts(commands[i])
      ensures control == SteerAll(old(control), commands)
    {
      reports, scanRequested := [], false;
      for i := 0 to |commands|
        invariant ReportsOn(reports, commands[..i])
        invariant scanRequested <==> exists j :: 0 <= j < i && Starts(commands[j])
        invariant control == SteerAll(old(control), commands[..i])
      {
        var c := commands[i];
        assert commands[..i + 1][..i] == commands[..i];
        var success: bool := *;  // of the migration engine, if the command goes there
        if IsScanVerb(c) {
          var starts := HandleScanVerb(c);
          scanRequested := scanRequested || starts;
          success := true;
        }
        reports := reports + [Report(c.id, success)];
      }
      assert commands[..|commands|] == commands;
    }
  }

  // ---------------------------------------------------------------------------
  // The controller's side
  // ---------------------------------------------------------------------------

  /** The state with its last stream at `next`, and these payloads inserted. */
  ghost function Served(s: State, next: nat, ended: bool, inserted: seq<Payload>): State
    requires s.streams != []
  {
    var k := |s.streams| - 1;
    s.(streams := s.streams[k := s.streams[k].(next := next, ended := ended)], inserted := inserted)
  }

  class Controller {
    /** It answers every call, and the network carries every answer. */
    const reliable: bool
    var inserted: seq<Payload>
    var reported: seq<Report>

    constructor (reliable: bool)
      ensures inserted == [] && reported == [] && this.reliable == reliable
    {
      this.reliable, inserted, reported := reliable, [], [];
    }

    method ReportMigrationStatus(reports: seq<Report>) returns (ok: bool)
      modifies this`reported
      ensures reliable ==> ok
      ensures ok ==> reported == old(reported) + reports
    {
      ok := Call();
      if ok {
        reported := reported + reports;
      }
    }

    /** One call to the controller. */
    method Call() returns (ok: bool)
      ensures reliable ==> ok
    {
      ok := *;
      ok := ok || reliable;
    }

    /** An insert keyed by id: an id that is there is left alone. */
    method InsertTelemetry(p: Payload) returns (ok: bool)
      modifies this`inserted
      ensures inserted == if ok then InsertedAfter(old(inserted), p) else old(inserted)
      ensures reliable ==> ok
    {
      ok := Call();
      if ok && forall i :: 0 <= i < |inserted| ==> inserted[i].id != p.id {
        inserted := inserted + [p];
      }
    }

    /** The server's side of a stream that has just been opened: a run of insert steps, and an end if all went well. */
    method StreamTelemetry(batch: seq<Payload>, ghost at: State)
      returns (ended: bool, ghost next: nat, ghost steps: seq<Step>, ghost served: State)
      requires at.inserted == inserted && at.streams != [] && at.streams[|at.streams| - 1] == Stream(batch, 0, false)
      modifies this`inserted
      ensures next <= |batch| && (ended ==> next == |batch|)
      ensures Leads(at, steps, served) && served == Served(at, next, ended, inserted)
      ensures reliable && (forall i :: 0 <= i < |batch| ==> batch[i].hostUuid != "") ==> ended
    {
      steps, served, ended, next := [], at, false, 0;
      ghost var k := |at.streams| - 1;
      assert at.streams[k := at.streams[k]] == at.streams;
      var i := 0;
      while i < |batch|
        invariant next == i <= |batch| && Leads(at, steps, served) && served == Served(at, next, false, inserted)
      {
        var whole := Call();  // the receive, the sends and the store calls for the commands
        if !whole || batch[i].hostUuid == "" {
          return;
        }
        var ok := InsertTelemetry(batch[i]);
        if !ok {
          return;
        }
        LeadsOn(at, steps, served, Insert(k));
        steps, served := steps + [Insert(k)], Apply(served, Insert(k));
        i, next := i + 1, next + 1;
      }
      var whole := Call();
      if !whole {
        return;
      }
      ended := true;
      LeadsOn(at, steps, served, End(k));
      steps, served := steps + [End(k)], Apply(served, End(k));
      assert served.streams == Served(at, next, true, inserted).streams;
    }
  }

  // ---------------------------------------------------------------------------
  // One sync
  // ---------------------------------------------------------------------------

  function Ids(batch: seq<Payload>): set<string> { set p | p in batch :: p.id }

  lemma {:induction false} IdsCount(batch: seq<Payload>)
    requires forall i, j :: 0 <= i < j < |batch| ==> batch[i].id != batch[j].id
    ensures |Ids(batch)| == |batch|
    decreases |batch|
  {
    if batch != [] {
      var n := |batch| - 1;
      IdsCount(batch[..n]);
      IdsSnoc(batch, n);
      assert batch[n].id !in Ids(batch[..n]);
      assert batch[..n + 1] == batch;
    }
  }

  lemma IdsSnoc(batch: seq<Payload>, i: nat)
    requires i < |batch|
    ensures Ids(batch[..i + 1]) == Ids(batch[..i]) + {batch[i].id}
  {
    assert batch[..i + 1] == batch[..i] + [batch[i]];
  }

  /** Deleting what the ordered query returned leaves the rest: nothing, or the queue's size less the limit. */
  lemma RemainingCount(queue: map<string, Queued>, batch: seq<Payload>, limit: nat)
    requires OldestFirst(queue, batch, limit)
    ensures |queue - Ids(batch)| == if |queue| <= limit then 0 else |queue| - limit
  {
    IdsCount(batch);
    assert Ids(batch) <= queue.Keys;
    assert (queue - Ids(batch)).Keys == queue.Keys - Ids(batch);
  }

  /** No payload is without the host it is about; the controller ends a stream at one that is. */
  ghost predicate HostsNamed(queue: map<string, Queued>) {
    forall id :: id in queue ==> queue[id].payload.hostUuid != ""
  }

  /** No row is added or changed. */
  ghost predicate Within(after: map<string, Queued>, before: map<string, Queued>) {
    forall id :: id in after ==> id in before && after[id] == before[id]
  }

  method DeleteBatch(store: OfflineStore, batch: seq<Payload>, ghost s: State)
    returns (ok: bool, ghost steps: seq<Step>)
    requires s.phase == Deleting(batch) && s.queue == store.queue
    modifies store`queue
    ensures Leads(s, steps, s.(phase := Idle, queue := store.queue))
    ensures Within(store.queue, old(store.queue))
    ensures ok ==> store.queue == old(store.queue) - Ids(batch)
    ensures store.reliable ==> ok
  {
    steps := [];
    ghost var at := s;
    ghost var queue0 := store.queue;
    var i := 0;
    while i < |batch|
      invariant i <= |batch| && Leads(s, steps, at) && at == s.(phase := Deleting(batch[i..]), queue := store.queue)
      invariant store.queue == queue0 - Ids(batch[..i])
    {
      ok := store.DeletePayload(batch[i].id);
      if !ok {
        LeadsOn(s, steps, at, GiveUp);
        steps := steps + [GiveUp];
        return;
      }
      IdsSnoc(batch, i);
      LeadsOn(s, steps, at, DeleteOne);
      steps, at := steps + [DeleteOne], Apply(at, DeleteOne);
      i := i + 1;
    }
    LeadsOn(s, steps, at, Finish);
    steps := steps + [Finish];
    assert batch[..i] == batch;
    ok := true;
  }

  /** The stream and what follows it, from the moment the batch is loaded. */
  method Exchange(store: OfflineStore, controller: Controller, control: ScanControl, batch: seq<Payload>,
                  commands: seq<Command>, ghost s: State)
    returns (ok: bool, reports: seq<Report>, scanRequested: bool, ghost steps: seq<Step>, ghost end: State)
    requires s.phase == Idle && s.queue == store.queue && s.inserted == controller.inserted
    requires OldestFirst(store.queue, batch, BATCH)
    modifies store`queue, controller, control
    ensures Leads(s, steps, end) && end == State(store.queue, Idle, end.streams, controller.inserted, s.log)
    ensures Within(store.queue, old(store.queue))
    ensures ok ==> store.queue == old(store.queue) - Ids(batch)
    ensures ok ==> ReportsOn(reports, commands) && controller.reported == old(controller.reported) + reports
    ensures ok ==> (scanRequested <==> exists i :: 0 <= i < |commands| && Starts(commands[i]))
    ensures store.reliable && controller.reliable && (forall i :: 0 <= i < |batch| ==> batch[i].hostUuid != "") ==> ok
    ensures ok ==> control.control == SteerAll(old(control.control), commands)
    ensures control.control == old(control.control) || control.control == SteerAll(old(control.control), commands)
  {
    ok, reports, scanRequested, steps, end := false, [], false, [], s;
    var accepted := controller.Call();
    if !accepted {
      return;
    }
    ghost var at := Apply(s, Open(batch));
    LeadsOn(s, [], s, Open(batch));
    var ended: bool;
    ghost var next, served, after;
    ended, next, served, after := controller.StreamTelemetry(batch, at);
    Compose(s, [Open(batch)], served);
    steps := [Open(batch)] + served;
    reports, scanRequested := control.HandleCommands(commands);
    ghost var k := |s.streams|;
    assert after.phase == Streaming(k) && after.streams[k] == Stream(batch, next, ended);
    LeadsOn(s, steps, after, GiveUp);
    if !ended {
      steps, end := steps + [GiveUp], Apply(after, GiveUp);
      return;
    }
    LeadsOn(s, steps, after, SeeEnd);
    steps, at := steps + [SeeEnd], Apply(after, SeeEnd);
    if reports != [] {
      var reported := controller.ReportMigrationStatus(reports);
      if !reported {
        LeadsOn(s, steps, at, GiveUp);
        steps, end := steps + [GiveUp], Apply(at, GiveUp);
        return;
      }
    }
    LeadsOn(s, steps, at, Reported);
    steps, at := steps + [Reported], Apply(at, Reported);
    ghost var deletes;
    ok, deletes := DeleteBatch(store, batch, at);
    Compose(s, steps, deletes);
    steps, end := steps + deletes, at.(phase := Idle, queue := store.queue);
  }

  /**
   The whole sync.  Every outcome is a run of the delivery machine, so nothing is lost however it ends;
   a success has removed exactly a batch of the oldest payloads; no outcome adds to the queue.
   */
  method SyncOnce(store: OfflineStore, controller: Controller, control: ScanControl, commands: seq<Command>,
                  ghost s: State)
    returns (summary: Option<Summary>, ghost batch: seq<Payload>, ghost steps: seq<Step>, ghost end: State)
    requires s.phase == Idle && s.queue == store.queue && s.inserted == controller.inserted && KeyedById(store.queue)
    modifies store`queue, controller, control
    ensures Leads(s, steps, end) && end == State(store.queue, Idle, end.streams, controller.inserted, s.log)
    ensures Within(store.queue, old(store.queue))
    ensures store.reliable && controller.reliable && HostsNamed(old(store.queue)) ==> summary.Some?
    ensures summary.Some? ==> control.control == SteerAll(old(control.control), commands)
    ensures summary.Some? ==>
      && OldestFirst(old(store.queue), batch, 256) && store.queue == old(store.queue) - Ids(batch)
      && summary.value.uploaded == |batch|
      && |store.queue| == (if |old(store.queue)| <= 256 then 0 else |old(store.queue)| - 256)
      && (summary.value.scanRequested <==> exists i :: 0 <= i < |commands| && Starts(commands[i]))
      && old(controller.reported) <= controller.reported
      && ReportsOn(controller.reported[|old(controller.reported)|..], commands)
      && summary.value.commands == |commands| + if summary.value.scanRequested then 1 else 0
  {
    summary, batch, steps, end := None, [], [], s;
    var registered := controller.Call();
    if !registered {
      return;
    }
    var loaded := store.PendingPayloads(BATCH);
    if loaded == None {
      return;
    }
    batch := loaded.value;
    var ok, reports, scanRequested;
    ok, reports, scanRequested, steps, end := Exchange(store, controller, control, loaded.value, commands, s);
    var audited := store.Statement();
    if !ok || !audited {
      return;
    }
    RemainingCount(old(store.queue), batch, BATCH);
    assert controller.reported[|old(controller.reported)|..] == reports;
    summary := Some(Summary(|loaded.value|, |reports| + if scanRequested then 1 else 0, scanRequested));
  }

  /** What is left of n pending payloads after k batches. */
  function Remaining(n: nat, k: nat): nat { if n <= 256 * k then 0 else n - 256 * k }

  /** Syncs with no scan between them: n pending payloads shrink to at most n less 256 for each success. */
  method Drain(store: OfflineStore, controller: Controller, control: ScanControl, attempts: nat, ghost s: State)
    returns (successes: nat, ghost steps: seq<Step>, ghost end: State)
    requires s.phase == Idle && s.queue == store.queue && s.inserted == controller.inserted && KeyedById(store.queue)
    modifies store`queue, controller, control
    ensures Leads(s, steps, end) && end.queue == store.queue && end.inserted == controller.inserted
    ensures |store.queue| <= Remaining(|old(store.queue)|, successes)
    ensures successes <= attempts
    ensures store.reliable && controller.reliable && HostsNamed(old(store.queue)) ==> successes == attempts
  {
    successes, steps, end := 0, [], s;
    for i := 0 to attempts
      invariant Leads(s, steps, end) && end.phase == Idle && end.queue == store.queue
      invariant end.inserted == controller.inserted
      invariant KeyedById(store.queue) && successes <= i
      invariant HostsNamed(old(store.queue)) ==> HostsNamed(store.queue)
      invariant store.reliable && controller.reliable && HostsNamed(old(store.queue)) ==> successes == i
      invariant |store.queue| <= Remaining(|old(store.queue)|, successes)
    {
      var commands: seq<Command> := *;
      ghost var before := store.queue;
      var summary: Option<Summary>;
      ghost var batch, more, after;
      summary, batch, more, after := SyncOnce(store, controller, control, commands, end);
      Compose(s, steps, more);
      steps, end := steps + more, after;
      KeysCount(store.queue, before);
      if summary.Some? {
        successes := successes + 1;
      }
    }
  }

  lemma KeysCount(a: map<string, Queued>, b: map<string, Queued>)
    requires Within(a, b)
    ensures |a| <= |b|
  {
    SubsetCount(a.Keys, b.Keys);
  }

  lemma SubsetCount<T>(a: set<T>, b: set<T>)
    requires a <= b
    ensures |a| <= |b|
  {
    assert b == a + (b - a);
  }
}
