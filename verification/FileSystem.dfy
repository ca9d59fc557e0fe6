/**
A file system that may fail (unless it is reliable) or lose power between any two steps. `files` is what
running programs see; `durable` is what a directory sync has made permanent. After a crash each path shows one
of the two, and a file whose content was never synced may show any bytes. `past` records every step.
*/
module FileSystem {
  import opened Options
  import opened Bytes
  import opened Paths

  datatype File = File(bytes: seq<byte>, mode: nat, synced: bool)

  datatype Image = Image(files: map<Path, File>, durable: map<Path, File>)

  function Lookup(m: map<Path, File>, p: Path): Option<File> { if p in m then Some(m[p]) else None }

  ghost predicate Shows(f: Option<File>, o: Option<seq<byte>>) {
    if f.None? then o.None? else o.Some? && (f.value.synced ==> o.value == f.value.bytes)
  }

  /** `o` may be what is found at `p` after a crash at this point. */
  ghost predicate CrashOutcome(img: Image, p: Path, o: Option<seq<byte>>) {
    Shows(Lookup(img.files, p), o) || Shows(Lookup(img.durable, p), o)
  }

  /** Whatever happens at this point, `p` then holds one of these contents, whole. */
  ghost predicate SurelyOneOf(img: Image, p: Path, contents: set<seq<byte>>) {
    forall o :: CrashOutcome(img, p, o) ==> o.Some? && o.value in contents
  }

  /** The file an atomic write puts in place: all of the content, the source's mode, content synced. */
  function Replacement(files: map<Path, File>, contents: seq<byte>, source: Path): File {
    File(contents, if source in files then files[source].mode else 0, true)
  }

  /**
   What may be seen at any step of an atomic write to `path`: the old file or all of the new one, nothing else
   moved.
   */
  ghost predicate WriteStep(before: Image, img: Image, path: Path, temp: Path, new_: File) {
    && Lookup(img.files, path) in {Lookup(before.files, path), Some(new_)}
    && Lookup(img.durable, path) in {Lookup(before.durable, path), Some(new_)}
    && forall p :: p != path && p != temp ==>
         && Lookup(img.files, p) == Lookup(before.files, p)
         && Lookup(img.durable, p) in {Lookup(before.durable, p), Lookup(before.files, p)}
  }

  /** Nothing but the temporary file differs. */
  ghost predicate OnlyTempDiffers(before: Image, img: Image, temp: Path) {
    forall p :: p != temp ==>
      Lookup(img.files, p) == Lookup(before.files, p) && Lookup(img.durable, p) == Lookup(before.durable, p)
  }

  lemma TempStepIsWriteStep(before: Image, img: Image, path: Path, temp: Path, new_: File)
    requires OnlyTempDiffers(before, img, temp) && path != temp
    ensures WriteStep(before, img, path, temp, new_)
  {
  }

  lemma RenamedIsWriteStep(before: Image, filled: Image, img: Image, path: Path, temp: Path, new_: File)
    requires OnlyTempDiffers(before, filled, temp) && path != temp
    requires temp in filled.files && filled.files[temp] == new_
    requires img.files == filled.files[path := new_] - {temp}
    requires forall p :: Lookup(img.durable, p) in {Lookup(filled.durable, p), Lookup(img.files, p)}
    ensures WriteStep(before, img, path, temp, new_)
  {
    assert forall p :: p != path && p != temp ==> Lookup(img.files, p) == Lookup(before.files, p);
    assert Lookup(img.files, path) == Some(new_);
  }

  class Disk {
    /** No operation fails that could succeed. */
    const reliable: bool
    var files: map<Path, File>
    ghost var durable: map<Path, File>
    ghost var past: seq<Image>

    constructor (initial: map<Path, File>, reliable: bool)
      ensures this.reliable == reliable && files == initial && durable == initial && past == [Image(initial, initial)]
    {
      this.reliable, files, durable, past := reliable, initial, initial, [Image(initial, initial)];
    }

    /** Whether one operation succeeds. */
    method Attempt() returns (ok: bool)
      ensures reliable ==> ok
    {
      ok := *;
      ok := ok || reliable;
    }

    ghost function Present(): Image
      reads this
    {
      Image(files, durable)
    }

    ghost predicate Valid()
      reads this
    {
      past != [] && past[|past| - 1] == Present()
    }

    /** Making directories changes no file; it may fail. */
    method MakeDirectories(dir: seq<string>) returns (ok: bool)
      ensures reliable ==> ok
    {
      ok := Attempt();
    }

    method CreateNew(p: Path) returns (ok: bool)
      requires Valid()
      modifies this
      ensures Valid() && durable == old(durable)
      ensures ok ==> p !in old(files) && files == old(files)[p := File([], 0, false)]
      ensures if ok then past == old(past) + [Present()] else files == old(files) && past == old(past)
      ensures reliable && p !in old(files) ==> ok
    {
      ok := Attempt();
      ok := ok && p !in files;
      if ok {
        files := files[p := File([], 0, false)];
        past := past + [Present()];
      }
    }

    method ReadMode(p: Path) returns (mode: Option<nat>)
      ensures mode.Some? ==> p in files && mode.value == files[p].mode
      ensures reliable && p in files ==> mode.Some?
    {
      var ok := Attempt();
      mode := if ok && p in files then Some(files[p].mode) else None;
    }

    method Read(p: Path) returns (bytes: Option<seq<byte>>)
      ensures bytes.Some? ==> p in files && bytes.value == files[p].bytes
      ensures reliable && p in files ==> bytes.Some?
    {
      var ok := Attempt();
      bytes := if ok && p in files then Some(files[p].bytes) else None;
    }

    method SetMode(p: Path, mode: nat) returns (ok: bool)
      requires Valid() && p in files
      modifies this
      ensures Valid() && durable == old(durable)
      ensures if ok then files == old(files)[p := old(files)[p].(mode := mode)] && past == old(past) + [Present()]
              else files == old(files) && past == old(past)
      ensures reliable ==> ok
    {
      ok := Attempt();
      if ok {
        files := files[p := files[p].(mode := mode)];
        past := past + [Present()];
      }
    }

    /** Writing in place: content is no longer synced, and a failure leaves only a prefix. */
    method WriteAll(p: Path, contents: seq<byte>) returns (ok: bool)
      requires Valid() && p in files
      modifies this
      ensures Valid() && past == old(past) + [Present()]
      ensures p in files && files == old(files)[p := files[p]] && files[p].mode == old(files)[p].mode
      ensures !files[p].synced
      ensures files[p].bytes <= contents && (ok ==> files[p].bytes == contents)
      ensures durable ==
              if p in old(durable) then old(durable)[p := old(durable)[p].(synced := false)] else old(durable)
      ensures reliable ==> ok
    {
      ok := Attempt();
      var k :| 0 <= k <= |contents| && (ok ==> k == |contents|);
      files := files[p := File(contents[..k], files[p].mode, false)];
      durable := if p in durable then durable[p := durable[p].(synced := false)] else durable;
      past := past + [Present()];
    }

    method SyncFile(p: Path) returns (ok: bool)
      requires Valid() && p in files
      modifies this
      ensures Valid() && durable == old(durable)
      ensures if ok then files == old(files)[p := old(files)[p].(synced := true)] && past == old(past) + [Present()]
              else files == old(files) && past == old(past)
      ensures reliable ==> ok
    {
      ok := Attempt();
      if ok {
        files := files[p := files[p].(synced := true)];
        past := past + [Present()];
      }
    }

    /** Renaming replaces the target in one step; the step is not permanent until its directory is synced. */
    method Rename(from: Path, to: Path) returns (ok: bool)
      requires Valid() && from in files && from != to
      modifies this
      ensures Valid() && durable == old(durable)
      ensures if ok then files == old(files)[to := old(files)[from]] - {from} && past == old(past) + [Present()]
              else files == old(files) && past == old(past)
      ensures reliable ==> ok
    {
      ok := Attempt();
      if ok {
        files := files[to := files[from]] - {from};
        past := past + [Present()];
      }
    }

    method SyncDirectory(dir: seq<string>) returns (ok: bool)
      requires Valid()
      modifies this
      ensures Valid() && files == old(files)
      ensures if ok then past == old(past) + [Present()] else durable == old(durable) && past == old(past)
      ensures ok ==> forall p ::
        Lookup(durable, p) == if p.dir == dir then Lookup(files, p) else Lookup(old(durable), p)
      ensures reliable ==> ok
    {
      ok := Attempt();
      if ok {
        durable := (map p | p in durable && p.dir != dir :: durable[p])
                   + (map p | p in files && p.dir == dir :: files[p]);
        past := past + [Present()];
      }
    }

    method Remove(p: Path) returns (ok: bool)
      requires Valid()
      modifies this
      ensures Valid() && durable == old(durable)
      ensures if ok then p in old(files) && files == old(files) - {p} && past == old(past) + [Present()]
              else files == old(files) && past == old(past)
      ensures reliable && p in old(files) ==> ok
    {
      ok := Attempt();
      ok := ok && p in files;
      if ok {
        files := files - {p};
        past := past + [Present()];
      }
    }

    /** Every image recorded since `from` is one an atomic write of `path` may show. */
    ghost predicate OnlyWriteSteps(from: nat, before: Image, path: Path, temp: Path, new_: File)
      reads this
    {
      forall i :: from <= i < |past| ==> WriteStep(before, past[i], path, temp, new_)
    }

    /** Every image recorded since `from` differs from `before` in the temporary file only. */
    ghost predicate OnlyTempTouched(from: nat, before: Image, temp: Path)
      reads this
    {
      forall i :: from <= i < |past| ==> OnlyTempDiffers(before, past[i], temp)
    }

    /** The temporary file, complete: created new, the source's mode, all content written and synced. */
    method FillTemp(temp: Path, contents: seq<byte>, source: Path) returns (ok: bool)
      requires Valid() && source != temp
      modifies this
      ensures Valid() && old(past) <= past
      ensures OnlyTempTouched(|old(past)|, old(Present()), temp) && OnlyTempDiffers(old(Present()), Present(), temp)
      ensures temp in old(files) ==> !ok && files == old(files) && durable == old(durable) && past == old(past)
      ensures ok ==> source in old(files) && temp in files && files[temp] == Replacement(old(files), contents, source)
      ensures reliable && source in old(files) && temp !in old(files) ==> ok
    {
      var created := CreateNew(temp);
      if !created {
        return false;
      }
      var mode := ReadMode(source);
      if mode.None? {
        return false;
      }
      ok := SetMode(temp, mode.value);
      if !ok {
        return;
      }
      ok := WriteAndSync(temp, contents);
    }

    method WriteAndSync(temp: Path, contents: seq<byte>) returns (ok: bool)
      requires Valid() && temp in files
      modifies this
      ensures Valid() && old(past) <= past
      ensures OnlyTempTouched(|old(past)|, old(Present()), temp) && OnlyTempDiffers(old(Present()), Present(), temp)
      ensures ok ==> temp in files && files[temp] == File(contents, old(files)[temp].mode, true)
      ensures reliable ==> ok
    {
      ok := WriteAll(temp, contents);
      if ok {
        ok := SyncFile(temp);
      }
    }

    /** Puts the filled temporary file in place and makes that permanent. */
    method Publish(temp: Path, path: Path) returns (ok: bool)
      requires Valid() && temp in files && temp != path
      modifies this
      ensures Valid() && old(past) <= past
      ensures past == old(past) ==> files == old(files) && durable == old(durable)
      ensures past != old(past) ==> files == old(files)[path := old(files)[temp]] - {temp}
      ensures forall i :: |old(past)| <= i < |past| ==>
        past[i].files == files && forall p :: Lookup(past[i].durable, p) in {Lookup(old(durable), p), Lookup(files, p)}
      ensures ok ==> past != old(past) && Lookup(durable, path) == Lookup(files, path)
      ensures reliable ==> ok
    {
      ok := Rename(temp, path);
      if ok {
        ok := SyncDirectory(path.dir);
      }
    }

    /** The three phases below keep to write steps relative to the state `before` the whole write. */
    method PublishStep(temp: Path, path: Path, ghost before: Image, ghost new_: File) returns (ok: bool)
      requires Valid() && temp != path && OnlyTempDiffers(before, Present(), temp)
      requires temp in files && files[temp] == new_
      modifies this
      ensures Valid() && old(past) <= past
      ensures OnlyWriteSteps(|old(past)|, before, path, temp, new_) && WriteStep(before, Present(), path, temp, new_)
      ensures ok ==> temp !in files && Lookup(files, path) == Some(new_) && Lookup(durable, path) == Some(new_)
      ensures reliable ==> ok
    {
      ghost var filled := Present();
      ok := Publish(temp, path);
      TempStepIsWriteStep(before, filled, path, temp, new_);
      forall i | |old(past)| <= i < |past|
        ensures WriteStep(before, past[i], path, temp, new_)
      {
        RenamedIsWriteStep(before, filled, past[i], path, temp, new_);
      }
    }

    method FillStep(temp: Path, path: Path, contents: seq<byte>, source: Path) returns (ok: bool)
      requires Valid() && temp != path && source != temp
      modifies this
      ensures Valid() && old(past) <= past
      ensures OnlyWriteSteps(|old(past)|, old(Present()), path, temp, Replacement(old(files), contents, source))
      ensures OnlyTempDiffers(old(Present()), Present(), temp)
      ensures temp in old(files) ==> !ok && files == old(files)
      ensures ok ==> source in old(files) && temp in files && files[temp] == Replacement(old(files), contents, source)
      ensures reliable && source in old(files) && temp !in old(files) ==> ok
    {
      ghost var before := Present();
      ok := FillTemp(temp, contents, source);
      forall i | |old(past)| <= i < |past|
        ensures WriteStep(before, past[i], path, temp, Replacement(before.files, contents, source))
      {
        TempStepIsWriteStep(before, past[i], path, temp, Replacement(before.files, contents, source));
      }
    }

    method Discard(temp: Path, path: Path, ghost before: Image, ghost new_: File)
      requires Valid() && temp != path && WriteStep(before, Present(), path, temp, new_)
      modifies this
      ensures Valid() && old(past) <= past
      ensures OnlyWriteSteps(|old(past)|, before, path, temp, new_) && WriteStep(before, Present(), path, temp, new_)
      ensures files == old(files) || files == old(files) - {temp}
      ensures reliable ==> temp !in files
    {
      var _ := Remove(temp);
    }

    /**
     Replaces `path` through a temporary file in its directory.  At every step the path shows the old
     file or all of the new one; success means the new one, permanently, and no temporary file.  A
     file that already stood at the temporary path makes the write fail, and may be removed.
     */
    method AtomicWrite(path: Path, contents: seq<byte>, source: Path, uuid: string) returns (ok: bool)
      requires Valid() && source != TempPath(path, uuid)
      modifies this
      ensures Valid() && old(past) <= past
      ensures OnlyWriteSteps(|old(past)|, old(Present()), path, TempPath(path, uuid),
              Replacement(old(files), contents, source))
      ensures WriteStep(old(Present()), Present(), path, TempPath(path, uuid),
              Replacement(old(files), contents, source))
      ensures ok ==>
        && source in old(files) && TempPath(path, uuid) !in old(files) && TempPath(path, uuid) !in files
        && Lookup(files, path) == Lookup(durable, path) == Some(Replacement(old(files), contents, source))
      ensures TempPath(path, uuid) in old(files) ==>
        !ok && (files == old(files) || files == old(files) - {TempPath(path, uuid)})
      ensures reliable && source in old(files) && TempPath(path, uuid) !in old(files) ==> ok
      ensures reliable ==> TempPath(path, uuid) !in files
    {
      var temp := TempPath(path, uuid);
      TempIsTmp(path, uuid);
      ghost var before, new_ := Present(), Replacement(files, contents, source);
      var made := MakeDirectories(path.dir);
      if !made {
        return false;
      }
      ok := FillStep(temp, path, contents, source);
      if ok {
        ok := PublishStep(temp, path, before, new_);
      } else {
        TempStepIsWriteStep(before, Present(), path, temp, new_);
      }
      if !ok {
        Discard(temp, path, before, new_);
      }
    }
  }
}
