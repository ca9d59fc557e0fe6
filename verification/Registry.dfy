/**
The second transaction: Schannel policy values in the Windows registry.  All old values are read
before the first write; a failed write or handshake undoes the whole snapshot in reverse.
*/
module Registry {
  import opened Options
  import opened Text

  datatype Key = Key(path: string, name: string)

  /**
   A registry value: a DWORD, or a value of another type.  The query's output is searched for the name of
   the DWORD type; `scanned` is the number found behind it when that name occurs, 0 if none is.  It occurs
   in the output for a big-endian DWORD, whose type name begins with it, and for a text that holds it.
   */
  datatype RegValue = Dword(n: nat) | Other(text: string, scanned: Option<nat>)

  datatype Change = Change(key: Key, value: nat)

  /** One line of the snapshot; a value of another type is recorded as absent, or as what the search found. */
  datatype Saved = Saved(key: Key, existed: bool, value: nat)

  const SCHANNEL := "HKLM\\SYSTEM\\CURRENTCONTROLSET\\CONTROL\\SECURITYPROVIDERS\\SCHANNEL"

  predicate ValidChange(c: Change) {
    SCHANNEL <= Upper(c.key.path) && c.key.name in {"Enabled", "DisabledByDefault"} && c.value <= 1
  }

  /** A change that may be made: a switch under the Schannel key, turned on or off. */
  ghost predicate SchannelSwitch(c: Change) {
    && "HKLM\\SYSTEM\\CURRENTCONTROLSET\\CONTROL\\SECURITYPROVIDERS\\SCHANNEL" <= Upper(c.key.path)
    && (c.key.name == "Enabled" || c.key.name == "DisabledByDefault") && (c.value == 0 || c.value == 1)
  }

  function Snapshot(values: map<Key, RegValue>, k: Key): Saved {
    if k !in values then Saved(k, false, 0)
    else match values[k]
      case Dword(n) => Saved(k, true, n)
      case Other(_, scanned) => if scanned.Some? then Saved(k, true, scanned.value) else Saved(k, false, 0)
  }

  function SnapshotAll(values: map<Key, RegValue>, changes: seq<Change>): seq<Saved> {
    if changes == [] then [] else [Snapshot(values, changes[0].key)] + SnapshotAll(values, changes[1..])
  }

  function UndoOne(values: map<Key, RegValue>, item: Saved): map<Key, RegValue> {
    if item.existed then values[item.key := Dword(item.value)] else values - {item.key}
  }

  /** Undoing a snapshot, last line first. */
  function Undo(values: map<Key, RegValue>, items: seq<Saved>): map<Key, RegValue> {
    if items == [] then values else UndoOne(Undo(values, items[1..]), items[0])
  }

  function Written(values: map<Key, RegValue>, changes: seq<Change>): map<Key, RegValue>
    decreases |changes|
  {
    if changes == [] then values else Written(values[changes[0].key := Dword(changes[0].value)], changes[1..])
  }

  function SavedKeys(items: seq<Saved>): set<Key> { set s | s in items :: s.key }

  lemma SameKeys(changes: seq<Change>, items: seq<Saved>)
    requires |items| == |changes| && forall i :: 0 <= i < |changes| ==> items[i].key == changes[i].key
    ensures SavedKeys(items) == Keys(changes)
  {
    forall k | k in Keys(changes)
      ensures k in SavedKeys(items)
    {
      var i :| 0 <= i < |changes| && changes[i].key == k;
      assert items[i] in items;
    }
    forall k | k in SavedKeys(items)
      ensures k in Keys(changes)
    {
      var i :| 0 <= i < |items| && items[i].key == k;
      assert changes[i] in changes;
    }
  }

  function Keys(changes: seq<Change>): set<Key> { set c | c in changes :: c.key }

  ghost predicate SameOutside(v: map<Key, RegValue>, w: map<Key, RegValue>, keys: set<Key>) {
    forall k :: k !in keys ==> (k in v <==> k in w) && (k in v ==> v[k] == w[k])
  }

  /** What the undo leaves of a touched value: a DWORD is back; of another type, the number found, or nothing. */
  function Restored(v: RegValue): Option<RegValue> {
    match v
    case Dword(_) => Some(v)
    case Other(_, scanned) => if scanned.Some? then Some(Dword(scanned.value)) else None
  }

  function Value(values: map<Key, RegValue>, k: Key): Option<RegValue> {
    if k in values then Some(values[k]) else None
  }

  /** The undo, key by key: what was touched is restored as far as it was recorded, the rest is as before the undo. */
  lemma {:induction false} UndoAt(v0: map<Key, RegValue>, v: map<Key, RegValue>, changes: seq<Change>, k: Key)
    ensures var w := Undo(v, SnapshotAll(v0, changes));
            Value(w, k) == if k !in Keys(changes) then Value(v, k) else if k in v0 then Restored(v0[k]) else None
  {
    if changes != [] {
      UndoAt(v0, v, changes[1..], k);
      assert SnapshotAll(v0, changes)[1..] == SnapshotAll(v0, changes[1..]);
      assert changes == [changes[0]] + changes[1..];
      assert k in Keys(changes) <==> k == changes[0].key || k in Keys(changes[1..]);
    }
  }

  /**
   Whatever became of the touched keys, repeated keys included, undoing the snapshot restores every
   value and every absence exactly, if and only if no touched key held a value that is not a DWORD.
   */
  lemma UndoRestoresIff(v0: map<Key, RegValue>, v: map<Key, RegValue>, changes: seq<Change>)
    requires SameOutside(v, v0, Keys(changes))
    ensures Undo(v, SnapshotAll(v0, changes)) == v0 <==> forall k :: k in Keys(changes) && k in v0 ==> v0[k].Dword?
  {
    var w := Undo(v, SnapshotAll(v0, changes));
    forall k
      ensures Value(w, k) == if k !in Keys(changes) then Value(v, k) else if k in v0 then Restored(v0[k]) else None
    {
      UndoAt(v0, v, changes, k);
    }
    if forall k :: k in Keys(changes) && k in v0 ==> v0[k].Dword? {
      assert w.Keys == v0.Keys;
    }
  }

  datatype Outcome = DryRun | Applied | Failed

  class Hive {
    /** No command fails. */
    const reliable: bool
    var values: map<Key, RegValue>

    constructor (initial: map<Key, RegValue>, reliable: bool)
      ensures values == initial && this.reliable == reliable
    {
      this.reliable, values := reliable, initial;
    }

    /** Whether one command runs. */
    method Command() returns (ok: bool)
      ensures reliable ==> ok
    {
      ok := *;
      ok := ok || reliable;
    }

    /** `read` says whether the query ran; a query that did not run is recorded like an absent value. */
    method ReadDword(k: Key) returns (item: Saved, ghost read: bool)
      ensures read ==> item == Snapshot(values, k)
      ensures item.key == k && (reliable ==> read)
    {
      var ran := Command();
      read := ran;
      item := if ran then Snapshot(values, k) else Saved(k, false, 0);
    }

    /** A write that fails may still have taken effect. */
    method Add(k: Key, n: nat) returns (ok: bool)
      modifies this
      ensures values == old(values)[k := Dword(n)] || (!ok && values == old(values))
      ensures reliable ==> ok
    {
      ok := Command();
      var took := *;
      if ok || took {
        values := values[k := Dword(n)];
      }
    }

    /** `done` says whether the command ran; deleting an absent value leaves it absent. */
    method UndoOneItem(item: Saved) returns (ghost done: bool)
      modifies this
      ensures done ==> values == UndoOne(old(values), item)
      ensures SameOutside(values, old(values), {item.key})
      ensures reliable ==> done
    {
      var ran := Command();
      done := ran;
      if ran {
        values := if item.existed then values[item.key := Dword(item.value)] else values - {item.key};
      }
    }

    method SnapshotEach(changes: seq<Change>) returns (items: seq<Saved>, ghost allRead: bool)
      ensures allRead ==> items == SnapshotAll(values, changes)
      ensures |items| == |changes| && forall i :: 0 <= i < |changes| ==> items[i].key == changes[i].key
      ensures reliable ==> allRead
    {
      items, allRead := [], true;
      for j := 0 to |changes|
        invariant |items| == j && forall i :: 0 <= i < j ==> items[i].key == changes[i].key
        invariant reliable ==> allRead
        invariant allRead ==> items + SnapshotAll(values, changes[j..]) == SnapshotAll(values, changes)
      {
        var item, read := ReadDword(changes[j].key);
        assert changes[j..][1..] == changes[j + 1..];
        items := items + [item];
        allRead := allRead && read;
      }
    }

    method Rollback(items: seq<Saved>) returns (ghost allDone: bool)
      modifies this
      ensures allDone ==> values == Undo(old(values), items)
      ensures SameOutside(values, old(values), SavedKeys(items))
      ensures reliable ==> allDone
    {
      allDone := true;
      var i := |items|;
      while i > 0
        invariant 0 <= i <= |items|
        invariant reliable ==> allDone
        invariant allDone ==> values == Undo(old(values), items[i..])
        invariant SameOutside(values, old(values), SavedKeys(items))
      {
        i := i - 1;
        var done := UndoOneItem(items[i]);
        assert items[i..][1..] == items[i + 1..] && items[i] in items;
        allDone := allDone && done;
      }
    }

    /** Writes in order up to the first failure. */
    method WriteEach(changes: seq<Change>) returns (ok: bool)
      modifies this
      ensures ok ==> values == Written(old(values), changes)
      ensures SameOutside(values, old(values), Keys(changes))
      ensures reliable ==> ok
    {
      for j := 0 to |changes|
        invariant Written(old(values), changes) == Written(values, changes[j..])
        invariant SameOutside(values, old(values), Keys(changes))
      {
        assert changes[j] in changes && changes[j].key in Keys(changes);
        ok := Add(changes[j].key, changes[j].value);
        assert changes[j..][1..] == changes[j + 1..];
        if !ok {
          return;
        }
      }
      return true;
    }

    /** Snapshot, write, check, and undo on failure; `handshake` is how the TLS check ends, if it is made. */
    method Commit(changes: seq<Change>, checkTls: bool, handshake: bool) returns (ok: bool, ghost clean: bool)
      modifies this
      ensures ok ==> values == Written(old(values), changes) && (checkTls ==> handshake)
      ensures reliable ==> clean && ok == (checkTls ==> handshake)
      ensures !ok && clean ==>
        (values == old(values) <==> forall k :: k in Keys(changes) && k in old(values) ==> old(values)[k].Dword?)
      ensures SameOutside(values, old(values), Keys(changes))
    {
      ghost var v0 := values;
      var items, allRead := SnapshotEach(changes);
      SameKeys(changes, items);
      ok := WriteEach(changes);
      if ok && checkTls {
        ok := handshake;
      }
      clean := true;
      if !ok {
        UndoRestoresIff(v0, values, changes);
        var allDone := Rollback(items);
        clean := allRead && allDone;
      }
    }

    /**
     The transaction.  `clean` says that every query and every undo command ran.  A clean failure
     restores the registry exactly when no touched key held a value that is not a DWORD.
     */
    method ApplyPolicy(changes: seq<Change>, dryRun: bool, checkTls: bool, handshake: bool)
      returns (r: Outcome, ghost clean: bool)
      modifies this
      ensures r == Applied ==> !dryRun && values == Written(old(values), changes) && (checkTls ==> handshake)
      ensures changes != [] && (forall c :: c in changes ==> SchannelSwitch(c)) ==>
        (dryRun <==> r == DryRun) && (reliable && !dryRun ==> clean && (r == Applied <==> (checkTls ==> handshake)))
      ensures r == DryRun ==> values == old(values)
      ensures changes == [] || (exists c :: c in changes && !SchannelSwitch(c)) ==> r == Failed && values == old(values)
      ensures SameOutside(values, old(values), Keys(changes))
      ensures r == Failed && clean && changes != [] && (forall c :: c in changes ==> SchannelSwitch(c)) ==>
        (values == old(values) <==> forall k :: k in Keys(changes) && k in old(values) ==> old(values)[k].Dword?)
    {
      if changes == [] {
        return Failed, true;
      }
      for i := 0 to |changes|
        invariant forall j :: 0 <= j < i ==> ValidChange(changes[j])
      {
        if !ValidChange(changes[i]) {
          assert changes[i] in changes;
          return Failed, true;
        }
      }
      if dryRun {
        return DryRun, true;
      }
      var ok, done := Commit(changes, checkTls, handshake);
      return if ok then Applied else Failed, done;
    }
  }
}
