/**
File names as the migration engine sees them: which names may be mutated, and how the backup and the
temporary file are named.  The names keep the three kinds of file apart.
*/
module Paths {
  import opened Options
  import opened Text

  /** A file is named by its directory's components and its final component. */
  datatype Path = Path(dir: seq<string>, name: string)

  const ALLOWED_EXTENSIONS := {"conf", "config", "cnf", "json", "toml", "yaml", "yml", "xml", "ini", "properties"}
  const ALLOWED_NO_EXT_NAMES := {"sshd_config", "ssh_config"}

  /** Index just after the last `c`, 0 if there is none. */
  function AfterLast(s: string, c: char): (k: nat)
    ensures k <= |s| && c !in s[k..]
    ensures k > 0 ==> s[k - 1] == c
  {
    if s == [] then 0 else if s[|s| - 1] == c then |s| else
      var k := AfterLast(s[..|s| - 1], c);
      assert s[k..] == s[..|s| - 1][k..] + [s[|s| - 1]];
      k
  }

  /** The part of a file name after its last dot; none for names without a dot or with only a leading one. */
  function Extension(name: string): Option<string> {
    var k := AfterLast(name, '.');
    if name == ".." || k <= 1 then None else Some(name[k..])
  }

  predicate Admitted(p: Path) {
    var ext := Extension(p.name);
    if ext.Some? then Lower(ext.value) in ALLOWED_EXTENSIONS else p.name in ALLOWED_NO_EXT_NAMES
  }

  predicate SafeChar(c: char) {
    'a' <= c <= 'z' || 'A' <= c <= 'Z' || '0' <= c <= '9' || c == '.'
  }

  function SafeName(name: string): string {
    seq(|name|, i requires 0 <= i < |name| => if SafeChar(name[i]) then name[i] else '_')
  }

  function SplitAtSlashes(s: string): (parts: seq<string>)
    ensures parts != []
    ensures s == [] ==> parts == [[]]
  {
    var k := AfterLast(s, '/');
    if k == 0 then [s] else SplitAtSlashes(s[..k - 1]) + [s[k..]]
  }

  /** The command id may hold slashes; joining then descends below the backup directory. */
  function BackupPath(backupDir: seq<string>, config: Path, commandId: string): Path {
    var parts := SplitAtSlashes(SafeName(config.name) + "." + commandId + ".bak");
    Path(backupDir + parts[..|parts| - 1], parts[|parts| - 1])
  }

  function TempPath(p: Path, uuid: string): Path {
    Path(p.dir, "." + p.name + ".janus-" + uuid + ".tmp")
  }

  predicate EndsWith(s: string, suffix: string) {
    |s| >= |suffix| && s[|s| - |suffix|..] == suffix
  }

  lemma {:induction false} AfterLastIs(s: string, c: char, d: nat)
    requires d < |s| && s[d] == c && c !in s[d + 1..]
    ensures AfterLast(s, c) == d + 1
  {
    var k := AfterLast(s, c);
    forall j | 0 <= j <= d
      ensures c in s[j..]
    {
      assert s[j..][d - j] == c;
    }
    forall i | d < i < |s|
      ensures s[i] != c
    {
      assert s[i] == s[d + 1..][i - d - 1];
    }
  }

  lemma DottedSuffix(name: string, ext: string)
    requires EndsWith(name, "." + ext) && '.' !in ext
    ensures Extension(name) == if |name| == |ext| + 1 || name == ".." then None else Some(ext)
  {
    var d := |name| - |ext| - 1;
    var tail := "." + ext;
    assert name[d..] == tail;
    assert name[d] == tail[0] && name[d + 1..] == tail[1..] == ext;
    AfterLastIs(name, '.', d);
  }

  lemma SlashFreeSuffix(s: string, suffix: string)
    requires EndsWith(s, suffix) && '/' !in suffix
    ensures EndsWith(s[AfterLast(s, '/')..], suffix)
  {
    var k, b := AfterLast(s, '/'), |s| - |suffix|;
    forall i | b <= i < |s|
      ensures s[i] != '/'
    {
      assert s[i] == s[b..][i - b];
    }
    assert s[k..][b - k..] == s[b..];
  }

  lemma BackupEndsInBak(backupDir: seq<string>, config: Path, commandId: string)
    ensures EndsWith(BackupPath(backupDir, config, commandId).name, ".bak")
  {
    var s := SafeName(config.name) + "." + commandId + ".bak";
    assert s[|s| - 4..] == ".bak";
    SlashFreeSuffix(s, ".bak");
  }

  lemma NotConfigurationNames()
    ensures Lower("bak") == "bak" && Lower("tmp") == "tmp"
    ensures "bak" !in ALLOWED_EXTENSIONS && "tmp" !in ALLOWED_EXTENSIONS
    ensures forall s: string :: |s| < 10 ==> s !in ALLOWED_NO_EXT_NAMES
  {
  }

  lemma {:induction false} NoneAfter(s: string, c: char)
    requires c !in s
    ensures AfterLast(s, c) == 0
  {
    if s != [] {
      NoneAfter(s[..|s| - 1], c);
    }
  }

  /** Files with an ending, after something, are admitted by the ending; the case of letters does not matter. */
  lemma EndingIsAdmittedIff(dir: seq<string>, stem: string, ending: string)
    requires stem != "" && '.' !in ending && stem + "." + ending != ".."
    ensures Admitted(Path(dir, stem + "." + ending)) <==>
            Lower(ending) in {"conf", "config", "cnf", "json", "toml", "yaml", "yml", "xml", "ini", "properties"}
  {
    var name := stem + "." + ending;
    assert name[|stem|] == '.' && name[|stem| + 1..] == ending;
    AfterLastIs(name, '.', |stem|);
  }

  /** Hidden files without a further dot have no ending, and are never admitted. */
  lemma HiddenIsNotAdmitted(dir: seq<string>, rest: string)
    requires '.' !in rest
    ensures !Admitted(Path(dir, "." + rest))
  {
    assert ("." + rest)[1..] == rest;
    AfterLastIs("." + rest, '.', 0);
    assert ("." + rest)[0] == '.' && "sshd_config"[0] == 's' && "ssh_config"[0] == 's';
  }

  /** Files without a dot are admitted by their whole name. */
  lemma BareNameIsAdmittedIff(dir: seq<string>, name: string)
    requires '.' !in name
    ensures Admitted(Path(dir, name)) <==> name == "sshd_config" || name == "ssh_config"
  {
    NoneAfter(name, '.');
  }

  /** A command id without slashes puts the backup right into the backup directory. */
  lemma BackupStands(backupDir: seq<string>, config: Path, commandId: string)
    requires '/' !in commandId
    ensures BackupPath(backupDir, config, commandId) ==
            Path(backupDir, SafeName(config.name) + "." + commandId + ".bak")
    ensures forall i :: 0 <= i < |config.name| ==>
      var c := config.name[i];
      SafeName(config.name)[i] ==
        if c == '.' || '0' <= c <= '9' || 'a' <= c <= 'z' || 'A' <= c <= 'Z' then c else '_'
  {
    var s := SafeName(config.name) + "." + commandId + ".bak";
    assert forall i :: 0 <= i < |SafeName(config.name)| ==> SafeName(config.name)[i] != '/';
    NoneAfter(s, '/');
  }

  /** The temporary file is a hidden one next to the file it stands in for, named after it. */
  lemma TempIsBeside(p: Path, uuid: string)
    ensures var t := TempPath(p, uuid);
            t.dir == p.dir && |t.name| > |p.name| && t.name[..|p.name| + 1] == "." + p.name
  {
  }

  /** A backup path is never a configuration path the engine admits, whatever the command id holds. */
  lemma BackupNeverAdmitted(backupDir: seq<string>, config: Path, commandId: string)
    ensures !Admitted(BackupPath(backupDir, config, commandId))
  {
    BackupEndsInBak(backupDir, config, commandId);
    BakNotAdmitted(BackupPath(backupDir, config, commandId));
  }

  lemma BakNotAdmitted(p: Path)
    requires EndsWith(p.name, ".bak")
    ensures !Admitted(p)
  {
    NotConfigurationNames();
    assert "." + "bak" == ".bak";
    DottedSuffix(p.name, "bak");
  }

  lemma TempIsTmp(p: Path, uuid: string)
    ensures var name := TempPath(p, uuid).name;
            Extension(name) == Some("tmp") && EndsWith(name, ".tmp") && |name| > |p.name|
  {
    var name := TempPath(p, uuid).name;
    assert name[|name| - 4..] == ".tmp";
    assert "." + "tmp" == ".tmp";
    DottedSuffix(name, "tmp");
  }

  lemma TmpIsNotBak(s: string, t: string)
    requires EndsWith(s, ".tmp") && EndsWith(t, ".bak")
    ensures s != t
  {
    assert s[|s| - 3] == s[|s| - 4..][1] == 't';
    assert t[|t| - 3] == t[|t| - 4..][1] == 'b';
  }

  /** A temporary file is never an admitted configuration path, a backup path, or the file it stands in for. */
  lemma TempApart(p: Path, uuid: string, backupDir: seq<string>, config: Path, commandId: string)
    ensures !Admitted(TempPath(p, uuid))
    ensures TempPath(p, uuid) != BackupPath(backupDir, config, commandId)
    ensures TempPath(p, uuid) != p
  {
    TempIsTmp(p, uuid);
    NotConfigurationNames();
    BackupEndsInBak(backupDir, config, commandId);
    TmpIsNotBak(TempPath(p, uuid).name, BackupPath(backupDir, config, commandId).name);
  }

  // ---------------------------------------------------------------------------
  // When two commands share a backup
  // ---------------------------------------------------------------------------

  function JoinSlashes(parts: seq<string>): string
    requires parts != []
  {
    if |parts| == 1 then parts[0] else JoinSlashes(parts[..|parts| - 1]) + ("/" + parts[|parts| - 1])
  }

  lemma JoinLast(front: seq<string>, x: string)
    requires front != []
    ensures JoinSlashes(front + [x]) == JoinSlashes(front) + ("/" + x)
  {
    assert (front + [x])[..|front|] == front;
  }

  lemma CutAtSlash(s: string, k: nat)
    requires 0 < k <= |s| && s[k - 1] == '/'
    ensures s[..k - 1] + ("/" + s[k..]) == s
  {
  }

  lemma {:induction false} JoinUndoesSplit(s: string)
    ensures JoinSlashes(SplitAtSlashes(s)) == s
    decreases |s|
  {
    var k := AfterLast(s, '/');
    if k > 0 {
      JoinUndoesSplit(s[..k - 1]);
      JoinLast(SplitAtSlashes(s[..k - 1]), s[k..]);
      CutAtSlash(s, k);
    }
  }

  lemma SameDirectory(x: seq<string>, a: seq<string>, b: seq<string>)
    requires x + a == x + b
    ensures a == b
  {
    assert a == (x + a)[|x|..] && b == (x + b)[|x|..];
  }

  lemma SameStart(a: string, b: string, end: string)
    requires a + end == b + end
    ensures a == b
  {
    assert |a| == |b|;
    assert a == (a + end)[..|a|] && b == (b + end)[..|a|];
  }

  lemma SplitInjective(s: string, t: string)
    requires SplitAtSlashes(s) == SplitAtSlashes(t)
    ensures s == t
  {
    JoinUndoesSplit(s);
    JoinUndoesSplit(t);
  }

  lemma SameFile(backupDir: seq<string>, x: seq<string>, y: seq<string>)
    requires x != [] && y != []
    requires backupDir + x[..|x| - 1] == backupDir + y[..|y| - 1] && x[|x| - 1] == y[|y| - 1]
    ensures x == y
  {
    SameDirectory(backupDir, x[..|x| - 1], y[..|y| - 1]);
    assert x == x[..|x| - 1] + [x[|x| - 1]];
    assert y == y[..|y| - 1] + [y[|y| - 1]];
  }

  /** Two backups are one file exactly when file name, as made safe, and command id join to the same text. */
  lemma BackupsCoincideIff(backupDir: seq<string>, p: Path, id: string, q: Path, id': string)
    ensures BackupPath(backupDir, p, id) == BackupPath(backupDir, q, id')
            <==> SafeName(p.name) + "." + id == SafeName(q.name) + "." + id'
  {
    var a, b := SafeName(p.name) + "." + id, SafeName(q.name) + "." + id';
    if BackupPath(backupDir, p, id) == BackupPath(backupDir, q, id') {
      SameFile(backupDir, SplitAtSlashes(a + ".bak"), SplitAtSlashes(b + ".bak"));
      SplitInjective(a + ".bak", b + ".bak");
      SameStart(a, b, ".bak");
    }
  }

  /** With ids like the controller's, which hold no dot: exactly for one id and names that are made safe alike. */
  lemma DotFreeBackupsIff(backupDir: seq<string>, p: Path, id: string, q: Path, id': string)
    requires '.' !in id && '.' !in id'
    ensures BackupPath(backupDir, p, id) == BackupPath(backupDir, q, id')
            <==> SafeName(p.name) == SafeName(q.name) && id == id'
  {
    BackupsCoincideIff(backupDir, p, id, q, id');
    if SafeName(p.name) + "." + id == SafeName(q.name) + "." + id' {
      CutAtLastDot(SafeName(p.name), id, SafeName(q.name), id');
    }
  }

  lemma CutAtLastDot(u: string, a: string, v: string, b: string)
    requires '.' !in a && '.' !in b && u + "." + a == v + "." + b
    ensures u == v && a == b
  {
    var s, t := u + "." + a, v + "." + b;
    assert s[|u|] == '.' && t[|v|] == '.';
    assert forall i :: |u| < i < |s| ==> s[i] == a[i - |u| - 1];
    assert forall i :: |v| < i < |t| ==> t[i] == b[i - |v| - 1];
    assert u == s[..|u|] && v == t[..|v|];
    assert a == s[|u| + 1..] && b == t[|v| + 1..];
  }
}
