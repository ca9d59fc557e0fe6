/**
The agent's offline store: the scan cache (path, content hash, time of the last parse) and the queue
of telemetry payloads.  Every statement on the database may fail, unless the store is reliable; a
failed statement changes nothing.
*/
module Storage {
  import opened Options

  /** One row of the scan cache. */
  datatype Row = Row(hash: string, scannedAt: int)

  datatype Component = Component(path: string, algorithms: seq<string>)

  datatype Payload = Payload(id: string, hostUuid: string, components: seq<Component>)

  /** One row of the queue, with the second it was created in. */
  datatype Queued = Queued(payload: Payload, createdAt: int)

  predicate FreshIn(state: map<string, Row>, path: string, hash: string, now: int, maxAge: int) {
    path in state && state[path].hash == hash && now - state[path].scannedAt < maxAge
  }

  /** `batch` is what a query ordered by creation time and limited to `limit` rows may return. */
  ghost predicate OldestFirst(queue: map<string, Queued>, batch: seq<Payload>, limit: nat) {
    && |batch| == (if |queue| < limit then |queue| else limit)
    && (forall i :: 0 <= i < |batch| ==> batch[i].id in queue && queue[batch[i].id].payload == batch[i])
    && (forall i, j :: 0 <= i < j < |batch| ==>
          batch[i].id != batch[j].id && queue[batch[i].id].createdAt <= queue[batch[j].id].createdAt)
    && (forall i, id :: 0 <= i < |batch| && id in queue && (forall j :: 0 <= j < |batch| ==> batch[j].id != id) ==>
          queue[batch[i].id].createdAt <= queue[id].createdAt)
  }

  ghost predicate KeyedById(queue: map<string, Queued>) { forall id :: id in queue ==> queue[id].payload.id == id }

  /** The query's rows so far: `out` oldest first, `rest` the rows still to come. */
  ghost predicate Taken(queue: map<string, Queued>, out: seq<Payload>, rest: map<string, Queued>) {
    && |out| + |rest| == |queue|
    && (forall id :: id in rest ==> id in queue && rest[id] == queue[id])
    && Ordered(queue, out, rest)
    && (forall id :: id in queue && (forall j :: 0 <= j < |out| ==> out[j].id != id) ==> id in rest)
  }

  ghost predicate Ordered(queue: map<string, Queued>, out: seq<Payload>, rest: map<string, Queued>)
    requires forall id :: id in rest ==> id in queue
  {
    && (forall i :: 0 <= i < |out| ==> out[i].id in queue && queue[out[i].id].payload == out[i] && out[i].id !in rest)
    && (forall i, j :: 0 <= i < j < |out| ==>
          out[i].id != out[j].id && queue[out[i].id].createdAt <= queue[out[j].id].createdAt)
    && (forall i, id :: 0 <= i < |out| && id in rest ==> queue[out[i].id].createdAt <= queue[id].createdAt)
  }

  lemma OrderNext(queue: map<string, Queued>, out: seq<Payload>, rest: map<string, Queued>, id: string)
    requires KeyedById(queue) && (forall x :: x in rest ==> x in queue && rest[x] == queue[x])
    requires Ordered(queue, out, rest)
    requires id in rest && forall x :: x in rest ==> rest[id].createdAt <= rest[x].createdAt
    ensures Ordered(queue, out + [rest[id].payload], rest - {id})
  {
  }

  lemma TakeNext(queue: map<string, Queued>, out: seq<Payload>, rest: map<string, Queued>, id: string)
    requires KeyedById(queue) && Taken(queue, out, rest)
    requires id in rest && forall x :: x in rest ==> rest[id].createdAt <= rest[x].createdAt
    ensures Taken(queue, out + [rest[id].payload], rest - {id})
  {
    var out', rest' := out + [rest[id].payload], rest - {id};
    assert |rest| == |rest'| + 1 by {
      assert rest.Keys == rest'.Keys + {id};
    }
    OrderNext(queue, out, rest, id);
    forall x | x in queue && (forall j :: 0 <= j < |out'| ==> out'[j].id != x)
      ensures x in rest'
    {
      assert out'[|out|].id == id;
      assert forall j :: 0 <= j < |out| ==> out'[j] == out[j];
    }
  }

  lemma TakenIsOldestFirst(queue: map<string, Queued>, out: seq<Payload>, rest: map<string, Queued>, limit: nat)
    requires Taken(queue, out, rest) && |out| <= limit && (|out| == limit || rest == map[])
    ensures OldestFirst(queue, out, limit)
  {
  }

  class OfflineStore {
    /** No statement fails. */
    const reliable: bool
    var scanState: map<string, Row>
    var queue: map<string, Queued>

    constructor (reliable: bool)
      ensures this.reliable == reliable && scanState == map[] && queue == map[]
    {
      this.reliable, scanState, queue := reliable, map[], map[];
    }

    /** Whether one statement succeeds. */
    method Statement() returns (ok: bool)
      ensures reliable ==> ok
    {
      ok := *;
      ok := ok || reliable;
    }

    /** Reads the clock and the row; `ran` says whether the query ran, and an error reads as not fresh. */
    method UnchangedAndFresh(path: string, hash: string, maxAge: int) returns (skip: bool, now: int, ghost ran: bool)
      ensures skip <==> ran && FreshIn(scanState, path, hash, now, maxAge)
      ensures reliable ==> ran
    {
      now := *;
      var ok := Statement();
      ran := ok;
      skip := ok && path in scanState && scanState[path].hash == hash && now - scanState[path].scannedAt < maxAge;
    }

    method UpsertScanState(path: string, hash: string) returns (ok: bool, now: int)
      modifies this`scanState
      ensures scanState == if ok then old(scanState)[path := Row(hash, now)] else old(scanState)
      ensures reliable ==> ok
    {
      now := *;
      ok := Statement();
      if ok {
        scanState := scanState[path := Row(hash, now)];
      }
    }

    /** Deletes the rows of paths that were not walked; an error part-way leaves the rest in place. */
    method PurgeStaleScanState(current: seq<string>) returns (ok: bool, deleted: nat)
      modifies this`scanState
      ensures scanState.Keys <= old(scanState).Keys && forall p :: p in scanState ==> scanState[p] == old(scanState)[p]
      ensures forall p :: p in old(scanState) && p in current ==> p in scanState
      ensures ok ==> forall p :: p in scanState ==> p in current
      ensures deleted == |old(scanState)| - |scanState|
      ensures reliable ==> ok
    {
      deleted := 0;
      var rest := scanState.Keys;
      while rest != {}
        invariant rest <= scanState.Keys <= old(scanState).Keys
        invariant forall p :: p in scanState ==> scanState[p] == old(scanState)[p]
        invariant forall p :: p in old(scanState) && p in current ==> p in scanState
        invariant forall p :: p in scanState && p !in rest ==> p in current
        invariant deleted == |old(scanState)| - |scanState|
        decreases |rest|
      {
        var path :| path in rest;
        rest := rest - {path};
        if path !in current {
          ok := Statement();
          if !ok {
            return;
          }
          ghost var before := scanState.Keys;
          scanState := scanState - {path};
          assert scanState.Keys == before - {path};
          deleted := deleted + 1;
        }
      }
      ok := true;
    }

    method EnqueuePayload(p: Payload) returns (ok: bool, now: int)
      modifies this`queue
      ensures queue == if ok then old(queue)[p.id := Queued(p, now)] else old(queue)
      ensures reliable ==> ok
    {
      now := *;
      ok := Statement();
      if ok {
        queue := queue[p.id := Queued(p, now)];
      }
    }

    method DeletePayload(id: string) returns (ok: bool)
      modifies this`queue
      ensures queue == if ok then old(queue) - {id} else old(queue)
      ensures reliable ==> ok
    {
      ok := Statement();
      if ok {
        queue := queue - {id};
      }
    }

    /**
     The oldest rows, at most `limit`, oldest first; ties in any order.  A row that does not decode fails the
     query.
     */
    method PendingPayloads(limit: nat) returns (batch: Option<seq<Payload>>)
      requires KeyedById(queue)
      ensures batch.Some? ==> OldestFirst(queue, batch.value, limit)
      ensures reliable ==> batch.Some?
    {
      var ok := Statement();
      if !ok {
        return None;
      }
      var out: seq<Payload> := [];
      var rest := queue;
      while |out| < limit && rest != map[]
        invariant |out| <= limit && Taken(queue, out, rest)
        decreases limit - |out|
      {
        var id := Oldest(rest);
        TakeNext(queue, out, rest, id);
        out := out + [rest[id].payload];
        rest := rest - {id};
      }
      TakenIsOldestFirst(queue, out, rest, limit);
      return Some(out);
    }

    method Oldest(rows: map<string, Queued>) returns (id: string)
      requires rows != map[]
      ensures id in rows && forall x :: x in rows ==> rows[id].createdAt <= rows[x].createdAt
    {
      id :| id in rows;
      var rest := rows.Keys - {id};
      while rest != {}
        invariant id in rows && rest <= rows.Keys
        invariant forall x :: x in rows && x !in rest ==> rows[id].createdAt <= rows[x].createdAt
        decreases |rest|
      {
        var x :| x in rest;
        rest := rest - {x};
        if rows[x].createdAt < rows[id].createdAt {
          id := x;
        }
      }
    }
  }
}
