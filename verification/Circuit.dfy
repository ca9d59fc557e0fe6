/**
The webhook circuit breaker and its use when alerts are sent.  Its two tables are a summary of the
whole history of deliveries: a URL's circuit is open exactly when its last five deliveries all failed
and the latest of them is less than a minute old.
*/
module Circuit {
  /** Times are in seconds of a clock that does not go back. */
  const COOLDOWN := 60

  const THRESHOLD := 5

  const ATTEMPTS := 3

  /** A delivery that was recorded: where to, when, and whether it succeeded. */
  datatype Record = Record(url: string, at: int, ok: bool)

  /** The failures of a URL since its last success. */
  function Streak(history: seq<Record>, url: string): nat {
    if history == [] then 0 else
      var front, last := history[..|history| - 1], history[|history| - 1];
      if last.url != url then Streak(front, url) else if last.ok then 0 else Streak(front, url) + 1
  }

  /** The records of one URL. */
  function About(history: seq<Record>, url: string): seq<Record> {
    if history == [] then [] else
      var front, last := history[..|history| - 1], history[|history| - 1];
      About(front, url) + if last.url == url then [last] else []
  }

  /** At least n records, the last n of them failures. */
  predicate FailedLast(rs: seq<Record>, n: nat) {
    n <= |rs| && forall i :: |rs| - n <= i < |rs| ==> !rs[i].ok
  }

  predicate IsOpen(history: seq<Record>, url: string, now: int) {
    var rs := About(history, url);
    FailedLast(rs, 5) && now < rs[|rs| - 1].at + 60
  }

  lemma FailedSnoc(rs: seq<Record>, r: Record, n: nat)
    requires n > 0
    ensures FailedLast(rs + [r], n) <==> !r.ok && FailedLast(rs, n - 1)
  {
    var more := rs + [r];
    assert more[|rs|] == r;
    if FailedLast(more, n) {
      forall i | |rs| - (n - 1) <= i < |rs|
        ensures !rs[i].ok
      {
        assert rs[i] == more[i];
      }
    }
  }

  /** The streak is the number of failures at the end. */
  lemma {:induction false} StreakIsFailedLast(history: seq<Record>, url: string, n: nat)
    ensures n <= Streak(history, url) <==> FailedLast(About(history, url), n)
    decreases |history|
  {
    if history != [] {
      var front, last := history[..|history| - 1], history[|history| - 1];
      var before := About(front, url);
      StreakIsFailedLast(front, url, n);
      assert before + [] == before;
      if last.url == url && n > 0 {
        StreakIsFailedLast(front, url, n - 1);
        FailedSnoc(before, last, n);
      }
    }
  }

  lemma Snoc(history: seq<Record>, r: Record, url: string)
    ensures Streak(history + [r], url)
            == if r.url != url then Streak(history, url) else if r.ok then 0 else Streak(history, url) + 1
    ensures About(history + [r], url) == if r.url == url then About(history, url) + [r] else About(history, url)
  {
    assert (history + [r])[..|history|] == history;
  }

  /** What the two tables hold of one URL. */
  ghost predicate Summarises(failures: map<string, nat>, cooldownUntil: map<string, int>, history: seq<Record>,
                             url: string) {
    var rs := About(history, url);
    && (if url in failures then failures[url] else 0) == Streak(history, url)
    && (url in cooldownUntil <==> FailedLast(rs, THRESHOLD))
    && (url in cooldownUntil ==> cooldownUntil[url] == rs[|rs| - 1].at + COOLDOWN)
  }

  /** Attempts stop at the first success. */
  function AttemptsMade(answers: seq<bool>): nat
    requires |answers| == 3
  {
    if answers[0] then 1 else if answers[1] then 2 else 3
  }

  ghost predicate Reports(r: Record, url: string, answers: seq<bool>, attempts: nat)
    requires |answers| == 3
  {
    r.url == url && attempts == AttemptsMade(answers) && (r.ok <==> exists i :: 0 <= i < 3 && answers[i])
  }

  class WebhookCircuit {
    var failures: map<string, nat>
    var cooldownUntil: map<string, int>
    ghost var history: seq<Record>

    ghost predicate Valid()
      reads this
    {
      forall url :: Summarises(failures, cooldownUntil, history, url)
    }

    constructor ()
      ensures Valid() && history == []
    {
      failures, cooldownUntil, history := map[], map[], [];
    }

    method RecordFailure(url: string, now: int)
      requires Valid()
      modifies this
      ensures Valid() && history == old(history) + [Record(url, now, false)]
    {
      var count := (if url in failures then failures[url] else 0) + 1;
      failures := failures[url := count];
      if count >= THRESHOLD {
        cooldownUntil := cooldownUntil[url := now + COOLDOWN];
      }
      ghost var r := Record(url, now, false);
      forall u
        ensures Summarises(failures, cooldownUntil, history + [r], u)
      {
        assert Summarises(old(failures), old(cooldownUntil), history, u);
        Snoc(history, r, u);
        StreakIsFailedLast(history + [r], u, THRESHOLD);
      }
      history := history + [r];
    }

    method RecordSuccess(url: string, ghost now: int)
      requires Valid()
      modifies this
      ensures Valid() && history == old(history) + [Record(url, now, true)]
    {
      failures := failures - {url};
      cooldownUntil := cooldownUntil - {url};
      ghost var r := Record(url, now, true);
      forall u
        ensures Summarises(failures, cooldownUntil, history + [r], u)
      {
        assert Summarises(old(failures), old(cooldownUntil), history, u);
        Snoc(history, r, u);
        StreakIsFailedLast(history + [r], u, THRESHOLD);
      }
      history := history + [r];
    }

    /** Open exactly when the last five deliveries failed, the latest less than a minute ago. */
    method CheckOpen(url: string, now: int) returns (open: bool)
      requires Valid()
      ensures open <==> IsOpen(history, url, now)
    {
      assert Summarises(failures, cooldownUntil, history, url);
      open := url in cooldownUntil && now < cooldownUntil[url];
    }

    /** One event to one webhook; `answers` says for each attempt, should it be made, whether it succeeds. */
    method Deliver(url: string, answers: seq<bool>) returns (ok: bool, attempts: nat, now: int)
      requires |answers| == 3
      ensures ok <==> exists i :: 0 <= i < 3 && answers[i]
      ensures attempts == AttemptsMade(answers)
    {
      ok, attempts := false, 0;
      while attempts < ATTEMPTS && !ok
        invariant attempts <= ATTEMPTS && (ok ==> attempts > 0 && answers[attempts - 1])
        invariant forall i :: 0 <= i < (if ok then attempts - 1 else attempts) ==> !answers[i]
        decreases ATTEMPTS - attempts, !ok
      {
        ok := answers[attempts];
        attempts := attempts + 1;
      }
      now := *;
    }

    /**
     All events to one active webhook.  The circuit is asked once, before the first: when it is open nothing
     is sent or recorded; otherwise every event is tried until it succeeds or three times, and exactly one
     record is made for each, in order.
     */
    method Dispatch(url: string, answers: seq<seq<bool>>, now: int)
      returns (attempts: seq<nat>, ghost records: seq<Record>)
      requires Valid() && forall i :: 0 <= i < |answers| ==> |answers[i]| == 3
      modifies this
      ensures Valid() && history == old(history) + records
      ensures if IsOpen(old(history), url, now) then attempts == [] && records == []
              else
                && |attempts| == |records| == |answers|
                && forall i :: 0 <= i < |answers| ==> Reports(records[i], url, answers[i], attempts[i])
    {
      attempts, records := [], [];
      var open := CheckOpen(url, now);
      if open {
        return;
      }
      for i := 0 to |answers|
        invariant Valid() && history == old(history) + records && |records| == |attempts| == i
        invariant forall j :: 0 <= j < i ==> Reports(records[j], url, answers[j], attempts[j])
      {
        var ok, tries, at := Deliver(url, answers[i]);
        if ok {
          RecordSuccess(url, at);
        } else {
          RecordFailure(url, at);
        }
        attempts, records := attempts + [tries], records + [Record(url, at, ok)];
      }
    }
  }

  /** After the cooldown the circuit is half open: one failure opens it again at once, one success closes it. */
  lemma HalfOpen(history: seq<Record>, url: string, at: int, now: int)
    requires FailedLast(About(history, url), 5) && at <= now < at + 60
    ensures IsOpen(history + [Record(url, at, false)], url, now)
    ensures forall later :: !IsOpen(history + [Record(url, at, true)], url, later)
  {
    Snoc(history, Record(url, at, false), url);
    Snoc(history, Record(url, at, true), url);
    var rs := About(history, url) + [Record(url, at, true)];
    assert !FailedLast(rs, THRESHOLD) by {
      assert rs[|rs| - 1].ok;
    }
  }

  lemma {:induction false} OthersAreNotAbout(history: seq<Record>, more: seq<Record>, url: string)
    requires forall r :: r in more ==> r.url != url
    ensures About(history + more, url) == About(history, url)
    decreases |more|
  {
    if more == [] {
      assert history + more == history;
    } else {
      var n := |more| - 1;
      OthersAreNotAbout(history, more[..n], url);
      assert more[n] in more;
      assert (history + more)[..|history + more| - 1] == history + more[..n];
      assert About(history + more[..n], url) + [] == About(history + more[..n], url);
    }
  }

  /** Deliveries to other URLs never open or close a circuit. */
  lemma OthersDoNotMatter(history: seq<Record>, more: seq<Record>, url: string, now: int)
    requires forall r :: r in more ==> r.url != url
    ensures IsOpen(history + more, url, now) <==> IsOpen(history, url, now)
  {
    OthersAreNotAbout(history, more, url);
  }
}
