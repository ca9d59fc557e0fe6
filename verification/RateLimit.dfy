/**
The per-client rate limiter.  A client's window opens with its first request, lasts one minute, and its
requests are counted; the table of windows is swept of expired ones when it has grown large.  The
limiter with the sweep decides as one that never evicts, and no client gets more than twice the limit,
less one, through in any minute.
*/
module RateLimit {
  import opened Options

  /** Times are in nanoseconds of a clock that does not go back. */
  const MINUTE := 60_000_000_000

  const SWEEP_ABOVE := 4096

  datatype Window = Window(count: nat, resetAt: int)

  datatype Request = Request(key: string, at: int)

  predicate Expired(w: Window, now: int) { now > w.resetAt }

  /** The window a request at `now` is counted in, with that request counted. */
  function Counted(w: Option<Window>, now: int): Window {
    if w == None || Expired(w.value, now) then Window(1, now + MINUTE)
    else Window(w.value.count + 1, w.value.resetAt)
  }

  /** The limiter without eviction: a client's window after a history. */
  function WindowOf(history: seq<Request>, key: string): Option<Window> {
    if history == [] then None else
      var front, last := history[..|history| - 1], history[|history| - 1];
      if last.key == key then Some(Counted(WindowOf(front, key), last.at)) else WindowOf(front, key)
  }

  /** Its decision on one more request. */
  predicate Admits(history: seq<Request>, max: int, r: Request) {
    Counted(WindowOf(history, r.key), r.at).count <= max
  }

  ghost predicate Ordered(history: seq<Request>) {
    forall i, j :: 0 <= i < j < |history| ==> history[i].at <= history[j].at
  }

  lemma Snoc(history: seq<Request>, r: Request, key: string)
    ensures WindowOf(history + [r], key) ==
            if r.key == key then Some(Counted(WindowOf(history, key), r.at)) else WindowOf(history, key)
  {
    assert (history + [r])[..|history|] == history;
  }

  /** A window that is not in the table is none, or one that has expired. */
  ghost predicate Agrees(clients: map<string, Window>, history: seq<Request>, now: int) {
    forall k :: if k in clients then WindowOf(history, k) == Some(clients[k])
                else WindowOf(history, k).Some? ==> Expired(WindowOf(history, k).value, now)
  }

  class Limiter {
    const max: int
    var clients: map<string, Window>
    ghost var history: seq<Request>
    ghost var clock: int

    ghost predicate Valid()
      reads this
    {
      Ordered(history) && (forall i :: 0 <= i < |history| ==> history[i].at <= clock) && Agrees(clients, history, clock)
    }

    constructor (max: int, now: int)
      ensures Valid() && this.max == max && history == [] && clock == now
    {
      this.max := max;
      clients, history, clock := map[], [], now;
    }

    method Sweep(now: int)
      modifies this`clients
      ensures forall k :: k in clients <==> k in old(clients) && !Expired(old(clients)[k], now)
      ensures forall k :: k in clients ==> clients[k] == old(clients)[k]
    {
      var rest := clients.Keys;
      while rest != {}
        invariant forall k :: k in clients ==> k in old(clients) && clients[k] == old(clients)[k]
        invariant forall k :: k in old(clients) && k !in clients ==> Expired(old(clients)[k], now)
        invariant forall k :: k in clients && k !in rest ==> !Expired(clients[k], now)
        invariant rest <= clients.Keys
        decreases |rest|
      {
        var k :| k in rest;
        rest := rest - {k};
        if Expired(clients[k], now) {
          clients := clients - {k};
        }
      }
    }

    /** The table once the request's window is in it. */
    static lemma StillAgrees(history: seq<Request>, table: map<string, Window>, key: string, now: int)
      requires Agrees(table, history, now)
      ensures Agrees(table[key := Counted(WindowOf(history, key), now)], history + [Request(key, now)], now)
    {
      forall k
        ensures WindowOf(history + [Request(key, now)], k)
                == if k == key then Some(Counted(WindowOf(history, key), now)) else WindowOf(history, k)
      {
        Snoc(history, Request(key, now), k);
      }
    }

    /** One request: the decision is that of the limiter without eviction, whatever was swept. */
    method Handle(key: string, now: int) returns (admitted: bool)
      requires Valid() && clock <= now
      modifies this
      ensures Valid() && clock == now && history == old(history) + [Request(key, now)]
      ensures admitted <==> Admits(old(history), max, Request(key, now))
      ensures |old(clients)| > 4096 ==> forall k :: k in clients ==> !Expired(clients[k], now)
    {
      if |clients| > SWEEP_ABOVE {
        Sweep(now);
      }
      assert Agrees(clients, history, now);
      var cw: Window;
      if key !in clients || Expired(clients[key], now) {
        cw := Window(0, now + MINUTE);
      } else {
        cw := clients[key];
      }
      cw := cw.(count := cw.count + 1);
      StillAgrees(history, clients, key, now);
      clients := clients[key := cw];
      admitted := cw.count <= max;
      assert cw == Counted(WindowOf(history, key), now);
      history, clock := history + [Request(key, now)], now;
    }
  }

  // ---------------------------------------------------------------------------
  // How many requests get through in a minute
  // ---------------------------------------------------------------------------

  /** Sixty seconds, both ends included. */
  predicate Within(t: int, lo: int) { lo <= t <= lo + 60_000_000_000 }

  /** The requests of one client admitted in the closed minute that starts at `lo`. */
  function Through(history: seq<Request>, max: int, key: string, lo: int): nat {
    if history == [] then 0 else
      var front, last := history[..|history| - 1], history[|history| - 1];
      Through(front, max, key, lo) + if last.key == key && Within(last.at, lo) && Admits(front, max, last) then 1 else 0
  }

  function Least(a: int, b: int): int { if a < b then a else b }

  /**
   What the last window says of the count: a window opened before `lo` spent its first request there;
   at most one window opens within the minute.
   */
  ghost predicate Bounded(w: Option<Window>, max: int, lo: int, through: int) {
    match w
    case None => through == 0
    case Some(w) =>
      var start := w.resetAt - MINUTE;
      w.count >= 1 &&
      if start < lo then through <= Least(w.count, max) - 1
      else if start <= lo + MINUTE then through <= max - 1 + Least(w.count, max)
      else through <= 2 * max - 1
  }

  lemma NoneYet(history: seq<Request>, max: int, key: string, lo: int)
    requires forall i :: 0 <= i < |history| ==> history[i].at < lo
    ensures Through(history, max, key, lo) == 0
  {
  }

  lemma {:induction false} OpenedByThen(history: seq<Request>, key: string, t: int)
    requires forall i :: 0 <= i < |history| ==> history[i].at <= t
    ensures WindowOf(history, key).Some? ==> WindowOf(history, key).value.resetAt - MINUTE <= t
    decreases |history|
  {
    if history != [] {
      OpenedByThen(history[..|history| - 1], key, t);
    }
  }

  lemma BoundedOn(w: Option<Window>, max: int, lo: int, through: int, t: int)
    requires max >= 1 && Bounded(w, max, lo, through) && (t < lo ==> through == 0)
    requires w.Some? ==> w.value.resetAt - MINUTE <= t
    ensures var more := if Within(t, lo) && Counted(w, t).count <= max then 1 else 0;
            Bounded(Some(Counted(w, t)), max, lo, through + more)
  {
  }

  lemma {:induction false} ThroughBounded(history: seq<Request>, max: int, key: string, lo: int)
    requires Ordered(history) && max >= 1
    ensures Bounded(WindowOf(history, key), max, lo, Through(history, max, key, lo))
    decreases |history|
  {
    if history != [] {
      var front, last := history[..|history| - 1], history[|history| - 1];
      ThroughBounded(front, max, key, lo);
      if last.key == key {
        if last.at < lo {
          NoneYet(front, max, key, lo);
        }
        OpenedByThen(front, key, last.at);
        BoundedOn(WindowOf(front, key), max, lo, Through(front, max, key, lo), last.at);
      }
    }
  }

  lemma {:induction false} NothingThrough(history: seq<Request>, max: int, key: string, lo: int)
    requires max <= 0
    ensures Through(history, max, key, lo) == 0
    decreases |history|
  {
    if history != [] {
      NothingThrough(history[..|history| - 1], max, key, lo);
    }
  }

  /**
   In any closed minute, whatever the other clients do, a client gets at most 2 max - 1 requests through; none
   if the limit is not positive.
   */
  lemma MinuteBound(history: seq<Request>, max: int, key: string, lo: int)
    requires Ordered(history)
    ensures Through(history, max, key, lo) <= if max <= 0 then 0 else 2 * max - 1
  {
    if max <= 0 {
      NothingThrough(history, max, key, lo);
    } else {
      ThroughBounded(history, max, key, lo);
    }
  }

  function Burst(key: string, t: int, n: nat): seq<Request> {
    seq(n, _ => Request(key, t))
  }

  /** n requests at once, inside a window with room for them, all get through. */
  lemma {:induction false} BurstThrough(history: seq<Request>, max: int, key: string, lo: int, t: int, n: nat)
    requires WindowOf(history, key).Some? && !Expired(WindowOf(history, key).value, t)
    requires WindowOf(history, key).value.count + n <= max && Within(t, lo)
    ensures WindowOf(history + Burst(key, t, n), key) ==
            Some(Window(WindowOf(history, key).value.count + n, WindowOf(history, key).value.resetAt))
    ensures Through(history + Burst(key, t, n), max, key, lo) == Through(history, max, key, lo) + n
    decreases n
  {
    if n == 0 {
      assert history + Burst(key, t, 0) == history;
    } else {
      BurstThrough(history, max, key, lo, t, n - 1);
      var before := history + Burst(key, t, n - 1);
      assert history + Burst(key, t, n) == before + [Request(key, t)];
      assert (before + [Request(key, t)])[..|before|] == before;
    }
  }

  lemma BurstOrdered(history: seq<Request>, key: string, t: int, n: nat)
    requires Ordered(history) && forall i :: 0 <= i < |history| ==> history[i].at <= t
    ensures Ordered(history + Burst(key, t, n)) && forall r :: r in history + Burst(key, t, n) ==> r.at <= t
  {
  }

  /** The request that opens a client's first window, before the minute that starts at `lo`. */
  lemma Opens(key: string, max: int, lo: int, at: int)
    requires at < lo
    ensures WindowOf([Request(key, at)], key) == Some(Window(1, at + MINUTE))
    ensures Through([Request(key, at)], max, key, lo) == 0
  {
    assert [Request(key, at)][..0] == [];
    assert WindowOf([], key) == None && Through([], max, key, lo) == 0;
  }

  /** The request that opens the next window gets through. */
  lemma Reopens(history: seq<Request>, max: int, key: string, lo: int, at: int)
    requires max >= 1 && Within(at, lo) && WindowOf(history, key).Some? && Expired(WindowOf(history, key).value, at)
    ensures WindowOf(history + [Request(key, at)], key) == Some(Window(1, at + MINUTE))
    ensures Through(history + [Request(key, at)], max, key, lo) == Through(history, max, key, lo) + 1
  {
    Snoc(history, Request(key, at), key);
    assert (history + [Request(key, at)])[..|history|] == history;
  }

  /** One request, the rest of its window's at the last moment, and a whole window's right after. */
  function TwoBursts(max: nat, key: string): seq<Request>
    requires max >= 1
  {
    [Request(key, 0)] + Burst(key, MINUTE, max - 1) + [Request(key, MINUTE + 1)] + Burst(key, MINUTE + 1, max - 1)
  }

  lemma TwoBurstsOrdered(max: nat, key: string)
    requires max >= 1
    ensures Ordered(TwoBursts(max, key))
  {
    BurstOrdered([Request(key, 0)], key, MINUTE, max - 1);
    var third := [Request(key, 0)] + Burst(key, MINUTE, max - 1) + [Request(key, MINUTE + 1)];
    BurstOrdered(third, key, MINUTE + 1, max - 1);
  }

  /** The bound is reached, for every positive limit. */
  lemma BoundIsReached(max: int, key: string) returns (history: seq<Request>)
    requires max >= 1
    ensures Ordered(history) && Through(history, max, key, 1) == 2 * max - 1
  {
    var first := [Request(key, 0)];
    var second := first + Burst(key, MINUTE, max - 1);
    var third := second + [Request(key, MINUTE + 1)];
    Opens(key, max, 1, 0);
    BurstThrough(first, max, key, 1, MINUTE, max - 1);
    Reopens(second, max, key, 1, MINUTE + 1);
    BurstThrough(third, max, key, 1, MINUTE + 1, max - 1);
    history := TwoBursts(max, key);
    TwoBurstsOrdered(max, key);
  }
}
