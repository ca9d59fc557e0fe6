/**
The migration transaction: gate, read, patch, back up, write, validate, reload, check TLS, and roll
back on failure.  Adapters, the handshake and every file-system step may fail; the patch engine, the
checksum and the cryptographic primitives are parameters.
*/
module Migration {
  import opened Options
  import opened Bytes
  import opened Paths
  import opened Text
  import opened FileSystem
  import opened Commands
  import Envelope

  datatype Config = Config(passive: bool, allowedServices: seq<string>, backupDir: seq<string>,
                           networkTargets: seq<string>, maxCommandAge: i64, trust: Envelope.Trust)

  /**
   The abstract parts: whether bytes are UTF-8 text, content hash (hex), and the patch engine, which may reject
   a patch.
   */
  datatype Tools = Tools(isText: seq<byte> -> bool, sha256Hex: seq<byte> -> string,
                         apply: (seq<byte>, string) -> Option<seq<byte>>)

  datatype Stage =
    | Passive | Signature | Stale | NotAllowed | Unsupported | WindowsOnly | ConfigPath
    | ReadConfig | Drift | Patch | BackupDir | Backup | Write
    | Validate | Reload | Tls | RollbackFailed(after: Stage) | RestoredNotReloaded(after: Stage)

  datatype Outcome = DryRun | Applied(backup: Path) | Failed(at: Stage)

  // ---------------------------------------------------------------------------
  // The gate
  // ---------------------------------------------------------------------------

  predicate TooOld(maxAge: i64, issuedAt: i64, now: i64) {
    maxAge > 0 && (issuedAt <= 0 || now - issuedAt > maxAge || now - issuedAt < -maxAge)
  }

  const FILE_SERVICES := {"nginx", "apache", "ssh"}
  const WINDOWS_SERVICES := {"windows-trust-store", "windows-schannel-policy"}

  /** The first reason to refuse, in the order the engine checks. */
  function Refusal(cfg: Config, cr: Envelope.Crypto, cmd: Command, directive: seq<byte>, now: i64): Option<Stage> {
    var service := Lower(cmd.targetService);
    if cfg.passive then Some(Passive)
    else if !Envelope.Verify(cr, cfg.trust, cmd, directive) then Some(Signature)
    else if TooOld(cfg.maxCommandAge, cmd.issuedAt, now) then Some(Stale)
    else if forall i :: 0 <= i < |cfg.allowedServices| ==> Lower(cfg.allowedServices[i]) != service then
      Some(NotAllowed)
    else if service !in FILE_SERVICES + WINDOWS_SERVICES then Some(Unsupported)
    else if service in WINDOWS_SERVICES then Some(WindowsOnly)
    else None
  }

  /** The gate in the words of the settings: active mode, a recent command, an allowed and supported service. */
  ghost predicate Gate(cfg: Config, cmd: Command, now: i64) {
    && !cfg.passive
    && (cfg.maxCommandAge > 0 ==>
          cmd.issuedAt > 0 && -cfg.maxCommandAge <= now - cmd.issuedAt <= cfg.maxCommandAge)
    && (exists s :: s in cfg.allowedServices && Lower(s) == Lower(cmd.targetService))
    && Lower(cmd.targetService) in {"nginx", "apache", "ssh"}
  }

  /** Exactly the commands that pass the gate and are verified are not refused. */
  lemma RefusalIff(cfg: Config, cr: Envelope.Crypto, cmd: Command, directive: seq<byte>, now: i64)
    ensures Refusal(cfg, cr, cmd, directive, now) == None <==>
            Gate(cfg, cmd, now) && Envelope.Verify(cr, cfg.trust, cmd, directive)
    ensures Refusal(cfg, cr, cmd, directive, now) == Some(Signature) <==>
            !cfg.passive && !Envelope.Verify(cr, cfg.trust, cmd, directive)
  {
    var service := Lower(cmd.targetService);
    FileServices(service);
    if s :| s in cfg.allowedServices && Lower(s) == service {
      var i :| 0 <= i < |cfg.allowedServices| && cfg.allowedServices[i] == s;
    }
  }

  lemma FileServices(service: string)
    ensures service in {"nginx", "apache", "ssh"} <==>
            service in FILE_SERVICES + WINDOWS_SERVICES && service !in WINDOWS_SERVICES
  {
    assert service in {"nginx", "apache", "ssh"} ==> service[0] != 'w';
    assert service in WINDOWS_SERVICES ==> service[0] == 'w';
  }

  /** A command that is not refused was signed, or reads what was signed for a mistakable one. */
  lemma AdmittedWasSigned(cfg: Config, cr: Envelope.Crypto, cmd: Command, directive: seq<byte>, now: i64,
                          log: set<Command>, known: set<string>)
    requires Refusal(cfg, cr, cmd, directive, now) == None
    requires Envelope.Tag(cr, cfg.trust, directive) in known && Envelope.OnlyLogged(cr, cfg.trust.key, log, known)
    ensures Envelope.Identified(log, cmd)
  {
    Envelope.AcceptedWasSigned(cr, cfg.trust, cmd, directive, log, known);
  }

  predicate Under(root: seq<string>, p: Path) { root <= p.dir + [p.name] }

  /** The path resolves, its type is allowed, and it lies under a root met before any that fails to resolve. */
  predicate Allowed(resolved: Option<Path>, roots: seq<Option<seq<string>>>) {
    && resolved.Some? && Admitted(resolved.value)
    && exists i :: 0 <= i < |roots| && roots[i].Some? && Under(roots[i].value, resolved.value)
                   && forall j :: 0 <= j < i ==> roots[j].Some?
  }

  /** Canonical path of an allowed type below an allowed root; each root is resolved in turn, and may fail to. */
  method CheckConfigPath(resolved: Option<Path>, roots: seq<Option<seq<string>>>) returns (p: Option<Path>)
    ensures p == if Allowed(resolved, roots) then resolved else None
  {
    if resolved.None? || !Admitted(resolved.value) {
      return None;
    }
    for i := 0 to |roots|
      invariant forall j :: 0 <= j < i ==> roots[j].Some? && !Under(roots[j].value, resolved.value)
    {
      if roots[i].None? {
        return None;
      }
      if Under(roots[i].value, resolved.value) {
        return resolved;
      }
    }
    return None;
  }

  // ---------------------------------------------------------------------------
  // Adapters
  // ---------------------------------------------------------------------------

  datatype Adapter = Adapter(program: string, args: seq<string>)

  function Validators(service: string, config: string): seq<Adapter> {
    if service == "nginx" then [Adapter("nginx", ["-t", "-c", config])]
    else if service == "apache" then
      [Adapter("apachectl", ["configtest"]), Adapter("apache2ctl", ["configtest"]), Adapter("httpd", ["-t"])]
    else if service == "ssh" then [Adapter("sshd", ["-t", "-f", config])]
    else []
  }

  function Reloaders(service: string): seq<Adapter> {
    if service == "nginx" then
      [Adapter("nginx", ["-s", "reload"]), Adapter("systemctl", ["reload", "nginx"]),
       Adapter("service", ["nginx", "reload"])]
    else if service == "apache" then
      [Adapter("apachectl", ["graceful"]), Adapter("apache2ctl", ["graceful"]),
       Adapter("systemctl", ["reload", "apache2"]), Adapter("systemctl", ["reload", "httpd"])]
    else if service == "ssh" then
      [Adapter("systemctl", ["reload", "sshd"]), Adapter("systemctl", ["reload", "ssh"]),
       Adapter("service", ["sshd", "reload"]), Adapter("service", ["ssh", "reload"])]
    else []
  }

  /** The candidates for one service and one configuration file. */
  datatype Adapters = Adapters(validators: seq<Adapter>, reloaders: seq<Adapter>)

  function AdaptersFor(service: string, config: string): Adapters {
    Adapters(Validators(service, config), Reloaders(service))
  }

  /** What the engine made happen around the service: adapters it ran, and the TLS check. */
  datatype Event = Ran(adapter: Adapter, ok: bool) | Probed(ok: bool)

  predicate Succeeded(t: seq<Event>) { t != [] && t[|t| - 1].ok }

  /** Candidates are tried in order, up to the first success or to the end. */
  predicate TriedUntil(cs: seq<Adapter>, t: seq<Event>) {
    && |t| <= |cs| && (forall i :: 0 <= i < |t| ==> t[i] == Ran(cs[i], t[i].ok))
    && (forall i :: 0 <= i < |t| - 1 ==> !t[i].ok)
    && (!Succeeded(t) ==> |t| == |cs|)
  }

  /** The managed service; `loaded` is the configuration it runs with. */
  class Service {
    var loaded: seq<byte>
    ghost var log: seq<Event>

    constructor (initial: seq<byte>)
      ensures loaded == initial && log == []
    {
      loaded, log := initial, [];
    }

    method RunValidator(a: Adapter) returns (ok: bool)
      modifies this`log
      ensures log == old(log) + [Ran(a, ok)]
    {
      ok := *;
      log := log + [Ran(a, ok)];
    }

    /** A reloader that succeeds has loaded the file; one that fails may have. */
    method RunReloader(a: Adapter, content: seq<byte>) returns (ok: bool)
      modifies this
      ensures log == old(log) + [Ran(a, ok)]
      ensures loaded == content || (!ok && loaded == old(loaded))
    {
      ok := *;
      var took := *;
      if ok || took {
        loaded := content;
      }
      log := log + [Ran(a, ok)];
    }

    method Handshake() returns (ok: bool)
      modifies this`log
      ensures log == old(log) + [Probed(ok)]
    {
      ok := *;
      log := log + [Probed(ok)];
    }

    method ValidateWith(candidates: seq<Adapter>) returns (ok: bool, ghost t: seq<Event>)
      modifies this`log
      ensures log == old(log) + t && TriedUntil(candidates, t) && ok == Succeeded(t)
    {
      t := [];
      for i := 0 to |candidates|
        invariant |t| == i && log == old(log) + t && forall j :: 0 <= j < i ==> t[j] == Ran(candidates[j], false)
      {
        ok := RunValidator(candidates[i]);
        t := t + [Ran(candidates[i], ok)];
        if ok {
          return;
        }
      }
      ok := false;
    }

    method ReloadWith(candidates: seq<Adapter>, content: seq<byte>) returns (ok: bool, ghost t: seq<Event>)
      modifies this
      ensures ok ==> loaded == content
      ensures loaded == content || loaded == old(loaded)
      ensures log == old(log) + t && TriedUntil(candidates, t) && ok == Succeeded(t)
    {
      t := [];
      for i := 0 to |candidates|
        invariant |t| == i && log == old(log) + t && forall j :: 0 <= j < i ==> t[j] == Ran(candidates[j], false)
        invariant loaded == content || loaded == old(loaded)
      {
        ok := RunReloader(candidates[i], content);
        t := t + [Ran(candidates[i], ok)];
        if ok {
          return;
        }
      }
      ok := false;
    }
  }

  // ---------------------------------------------------------------------------
  // What happened, and what is reported
  // ---------------------------------------------------------------------------

  /** The events of one transaction: validation, reload, TLS check, and the reload of the restored file. */
  datatype Trace = Trace(validated: seq<Event>, reloaded: seq<Event>, probed: seq<Event>, again: seq<Event>)

  const NOTHING := Trace([], [], [], [])

  function Events(t: Trace): seq<Event> { t.validated + t.reloaded + t.probed + t.again }

  predicate HasTlsTargets(targets: seq<string>) {
    exists i :: 0 <= i < |targets| && !EndsWith(targets[i], ":80")
  }

  /** Validate; if that succeeds reload; if that succeeds check TLS, where there is a TLS target. */
  predicate Launched(validated: seq<Event>, reloaded: seq<Event>, probed: seq<Event>, adapters: Adapters,
                     targets: seq<string>) {
    && TriedUntil(adapters.validators, validated)
    && (if Succeeded(validated) then TriedUntil(adapters.reloaders, reloaded) else reloaded == [])
    && (if Succeeded(reloaded) && targets != [] && HasTlsTargets(targets)
        then probed == [Probed(true)] || probed == [Probed(false)]
        else probed == [])
  }

  /** The first step that failed. */
  function Trouble(validated: seq<Event>, reloaded: seq<Event>, probed: seq<Event>): Option<Stage> {
    if !Succeeded(validated) then Some(Validate)
    else if !Succeeded(reloaded) then Some(Reload)
    else if probed == [Probed(false)] then Some(Tls)
    else None
  }

  /**
   After a failed reload or TLS check: the file is restored, the service reloads it, and the report says how
   far that came.
   */
  predicate Restored(why: Stage, reloaders: seq<Adapter>, again: seq<Event>, r: Outcome) {
    || (r == Failed(RollbackFailed(why)) && again == [])
    || (TriedUntil(reloaders, again) && r == Failed(if Succeeded(again) then why else RestoredNotReloaded(why)))
  }

  /** The outcome follows from the events. */
  predicate Story(t: Trace, adapters: Adapters, targets: seq<string>, r: Outcome) {
    && Launched(t.validated, t.reloaded, t.probed, adapters, targets)
    && match Trouble(t.validated, t.reloaded, t.probed)
       case None => t.again == [] && r.Applied?
       case Some(why) =>
         if why == Validate then t.again == [] && (r == Failed(Validate) || r == Failed(RollbackFailed(Validate)))
         else Restored(why, adapters.reloaders, t.again, r)
  }

  /** Failures before anything is validated. */
  predicate Early(stage: Stage) {
    !stage.Validate? && !stage.Reload? && !stage.Tls? && !stage.RollbackFailed? && !stage.RestoredNotReloaded?
  }

  predicate Late(r: Outcome) { r.Applied? || (r.Failed? && !Early(r.at)) }

  /**
   The failure that a first trouble comes to, given whether the file was restored and how the service then
   reloaded.
   */
  function FailureOf(why: Stage, restored: bool, again: seq<Event>): Stage {
    if !restored then RollbackFailed(why)
    else if why == Validate || Succeeded(again) then why
    else RestoredNotReloaded(why)
  }

  /**
   The events determine the report: a success exactly when no step failed, and otherwise, given whether
   the file was restored, exactly one failure.
   */
  lemma StoryDetermines(t: Trace, adapters: Adapters, targets: seq<string>, r: Outcome)
    requires Story(t, adapters, targets, r)
    ensures Late(r)
    ensures var trouble := Trouble(t.validated, t.reloaded, t.probed);
            && (r.Applied? <==> trouble == None)
            && (r.Failed? ==> r.at == FailureOf(trouble.value, !r.at.RollbackFailed?, t.again))
  {
  }

  predicate FromTransaction(r: Outcome) { Late(r) || (r.Failed? && (r.at.BackupDir? || r.at.Backup? || r.at.Write?)) }

  predicate Told(t: Trace, adapters: Adapters, targets: seq<string>, r: Outcome) {
    if Late(r) then Story(t, adapters, targets, r) else t == NOTHING
  }

  // ---------------------------------------------------------------------------
  // The write-ahead invariant
  // ---------------------------------------------------------------------------

  /** Whenever the configuration may be found changed, the backup is surely found holding the original. */
  ghost predicate WriteAhead(img: Image, config: Path, backup: Path, original: seq<byte>, patched: seq<byte>) {
    && SurelyOneOf(img, config, {original, patched})
    && ((exists o :: CrashOutcome(img, config, o) && o != Some(original)) ==> SurelyOneOf(img, backup, {original}))
  }

  /**
   The files a transaction is about: the configuration as first read, what of it is permanent (`rest`),
   the patched file, and the original as saved and restored.
   */
  datatype Plan = Plan(config: Path, backup: Path, before: File, rest: Option<File>, after: File, saved: File)

  ghost predicate Sound(p: Plan) {
    && p.config != p.backup
    && p.after == File(p.after.bytes, p.before.mode, true)
    && p.saved == File(p.before.bytes, p.before.mode, true)
  }

  /** The configuration is at rest: content and directory entry are permanent before the transaction starts. */
  ghost predicate AtRest(p: Plan) { p.before.synced && p.rest == Some(p.before) }

  ghost predicate Untouched(p: Plan, img: Image) {
    Lookup(img.files, p.config) == Some(p.before) && Lookup(img.durable, p.config) in {p.rest, Some(p.before)}
  }

  /** Once the backup is permanent: the configuration is the original or the patched file, the backup is in place. */
  ghost predicate Guarded(p: Plan, img: Image) {
    && Lookup(img.files, p.config) in {Some(p.before), Some(p.after), Some(p.saved)}
    && Lookup(img.durable, p.config) in {p.rest, Some(p.before), Some(p.after), Some(p.saved)}
    && Lookup(img.files, p.backup) == Lookup(img.durable, p.backup) == Some(p.saved)
  }

  lemma UntouchedIsSafe(p: Plan, img: Image)
    requires Sound(p) && AtRest(p) && Untouched(p, img)
    ensures WriteAhead(img, p.config, p.backup, p.before.bytes, p.after.bytes)
  {
  }

  lemma GuardedIsSafe(p: Plan, img: Image)
    requires Sound(p) && AtRest(p) && Guarded(p, img)
    ensures WriteAhead(img, p.config, p.backup, p.before.bytes, p.after.bytes)
  {
  }

  lemma GuardedStep(p: Plan, start: Image, img: Image, temp: Path, new_: File)
    requires Sound(p) && Guarded(p, start) && new_ in {p.after, p.saved} && temp != p.backup
    requires WriteStep(start, img, p.config, temp, new_)
    ensures Guarded(p, img)
  {
  }

  /** Files other than these are as they were. */
  ghost predicate Elsewhere(start: Image, img: Image, touched: set<Path>) {
    forall q :: q !in touched ==> Lookup(img.files, q) == Lookup(start.files, q)
  }

  lemma Through(start: Image, middle: Image, img: Image, first: set<Path>, second: set<Path>, touched: set<Path>)
    requires Elsewhere(start, middle, first) && Elsewhere(middle, img, second) && first + second <= touched
    ensures Elsewhere(start, img, touched)
  {
  }

  // ---------------------------------------------------------------------------
  // Rollback and the last phase
  // ---------------------------------------------------------------------------

  method WriteConfig(d: Disk, ghost p: Plan, config: Path, content: seq<byte>, source: Path, uuid: string)
    returns (ok: bool)
    requires d.Valid() && Sound(p) && Guarded(p, d.Present()) && config == p.config && source in {p.config, p.backup}
    requires Replacement(d.files, content, source) in {p.after, p.saved} && TempPath(config, uuid) != p.backup
    modifies d
    ensures d.Valid() && old(d.past) <= d.past && Guarded(p, d.Present())
    ensures forall i :: |old(d.past)| <= i < |d.past| ==>
      Guarded(p, d.past[i]) && Elsewhere(old(d.Present()), d.past[i], {config, TempPath(config, uuid)})
    ensures Elsewhere(old(d.Present()), d.Present(), {config, TempPath(config, uuid)})
    ensures ok ==>
      Lookup(d.files, config) == Lookup(d.durable, config) == Some(Replacement(old(d.files), content, source))
    ensures d.reliable && TempPath(config, uuid) !in old(d.files) ==> ok
    ensures d.reliable ==> TempPath(config, uuid) !in d.files
  {
    ghost var start, temp, new_ := d.Present(), TempPath(config, uuid), Replacement(d.files, content, source);
    TempIsTmp(config, uuid);
    ok := d.AtomicWrite(config, content, source, uuid);
    forall i | |old(d.past)| <= i < |d.past|
      ensures Guarded(p, d.past[i])
    {
      GuardedStep(p, start, d.past[i], temp, new_);
    }
    GuardedStep(p, start, d.Present(), temp, new_);
  }

  /** Reads the backup and puts it back, with the backup's mode, which is the original's. */
  method RollbackFile(d: Disk, ghost p: Plan, config: Path, backup: Path, uuid: string) returns (ok: bool)
    requires d.Valid() && Sound(p) && Guarded(p, d.Present()) && config == p.config && backup == p.backup
    requires TempPath(config, uuid) != p.backup
    modifies d
    ensures d.Valid() && old(d.past) <= d.past && Guarded(p, d.Present())
    ensures forall i :: |old(d.past)| <= i < |d.past| ==>
      Guarded(p, d.past[i]) && Elsewhere(old(d.Present()), d.past[i], {config, TempPath(config, uuid)})
    ensures Elsewhere(old(d.Present()), d.Present(), {config, TempPath(config, uuid)})
    ensures ok ==> Lookup(d.files, config) == Lookup(d.durable, config) == Some(p.saved)
    ensures d.reliable && TempPath(config, uuid) !in old(d.files) ==> ok
  {
    var original := d.Read(backup);
    if original.None? {
      return false;
    }
    ok := WriteConfig(d, p, config, original.value, backup, uuid);
  }

  /** After a failed reload or handshake: restore the file, then make the service load it. */
  method RestoreAndReload(d: Disk, s: Service, ghost p: Plan, config: Path, backup: Path, reloaders: seq<Adapter>,
                          uuid: string, why: Stage)
    returns (r: Outcome, ghost again: seq<Event>)
    requires d.Valid() && Sound(p) && Guarded(p, d.Present()) && config == p.config && backup == p.backup
    requires TempPath(config, uuid) != p.backup && (why == Reload || why == Tls)
    modifies d, s
    ensures d.Valid() && old(d.past) <= d.past && Guarded(p, d.Present())
    ensures forall i :: |old(d.past)| <= i < |d.past| ==>
      Guarded(p, d.past[i]) && Elsewhere(old(d.Present()), d.past[i], {config, TempPath(config, uuid)})
    ensures Elsewhere(old(d.Present()), d.Present(), {config, TempPath(config, uuid)})
    ensures s.log == old(s.log) + again && Restored(why, reloaders, again, r)
    ensures d.reliable && TempPath(config, uuid) !in old(d.files) ==> r != Failed(RollbackFailed(why))
    ensures r != Failed(RollbackFailed(why)) ==> Lookup(d.files, config) == Lookup(d.durable, config) == Some(p.saved)
    ensures r == Failed(why) ==> s.loaded == p.before.bytes
    ensures r == Failed(RollbackFailed(why)) ==> s.loaded == old(s.loaded)
    ensures r == Failed(RestoredNotReloaded(why)) ==> s.loaded == p.before.bytes || s.loaded == old(s.loaded)
  {
    var rolledBack := RollbackFile(d, p, config, backup, uuid);
    if !rolledBack {
      return Failed(RollbackFailed(why)), [];
    }
    var reloaded: bool;
    reloaded, again := s.ReloadWith(reloaders, d.files[config].bytes);
    r := Failed(if reloaded then why else RestoredNotReloaded(why));
  }

  lemma Assoc(x: seq<Event>, a: seq<Event>, b: seq<Event>, c: seq<Event>)
    ensures x + a + b + c == x + (a + b + c)
  {
  }

  /** Validate, reload, check TLS, up to the first failure; the file is not touched. */
  method Launch(s: Service, adapters: Adapters, content: seq<byte>, targets: seq<string>)
    returns (trouble: Option<Stage>, ghost validated: seq<Event>, ghost reloaded: seq<Event>, ghost probed: seq<Event>)
    modifies s
    ensures s.log == old(s.log) + (validated + reloaded + probed)
    ensures Launched(validated, reloaded, probed, adapters, targets) && trouble == Trouble(validated, reloaded, probed)
    ensures trouble == Some(Validate) ==> s.loaded == old(s.loaded)
    ensures trouble == Some(Reload) ==> s.loaded == content || s.loaded == old(s.loaded)
    ensures trouble == Some(Tls) || trouble == None ==> s.loaded == content
  {
    reloaded, probed := [], [];
    var ok: bool;
    ok, validated := s.ValidateWith(adapters.validators);
    if ok {
      ok, reloaded := s.ReloadWith(adapters.reloaders, content);
      trouble := if ok then None else Some(Reload);
      if ok && targets != [] && HasTlsTargets(targets) {
        ok := s.Handshake();
        probed := [Probed(ok)];
        trouble := if ok then None else Some(Tls);
      }
    } else {
      trouble := Some(Validate);
    }
    Assoc(old(s.log), validated, reloaded, probed);
  }

  /** Launch; any trouble rolls back. */
  method Settle(d: Disk, s: Service, ghost p: Plan, config: Path, backup: Path, adapters: Adapters,
                targets: seq<string>, uuid: string) returns (r: Outcome, ghost t: Trace)
    requires d.Valid() && Sound(p) && Guarded(p, d.Present()) && config == p.config && backup == p.backup
    requires Lookup(d.files, config) == Lookup(d.durable, config) == Some(p.after)
    requires TempPath(config, uuid) != p.backup
    modifies d, s
    ensures d.Valid() && old(d.past) <= d.past && Guarded(p, d.Present())
    ensures forall i :: |old(d.past)| <= i < |d.past| ==>
      Guarded(p, d.past[i]) && Elsewhere(old(d.Present()), d.past[i], {config, TempPath(config, uuid)})
    ensures Elsewhere(old(d.Present()), d.Present(), {config, TempPath(config, uuid)})
    ensures s.log == old(s.log) + Events(t) && Told(t, adapters, targets, r) && Late(r)
    ensures d.reliable && TempPath(config, uuid) !in old(d.files) ==> r.Applied? || !r.at.RollbackFailed?
    ensures Ends(r, d, s, p, old(s.loaded))
  {
    var trouble: Option<Stage>;
    ghost var validated, reloaded, probed, again;
    trouble, validated, reloaded, probed := Launch(s, adapters, d.files[config].bytes, targets);
    again := [];
    if trouble == None {
      r := Applied(backup);
    } else if trouble == Some(Validate) {
      var rolledBack := RollbackFile(d, p, config, backup, uuid);
      r := Failed(if rolledBack then Validate else RollbackFailed(Validate));
    } else {
      r, again := RestoreAndReload(d, s, p, config, backup, adapters.reloaders, uuid, trouble.value);
    }
    t := Trace(validated, reloaded, probed, again);
    Append(old(s.log), validated + reloaded + probed, again);
    StoryDetermines(t, adapters, targets, r);
  }

  lemma Append(x: seq<Event>, a: seq<Event>, b: seq<Event>)
    ensures (x + a) + b == x + (a + b)
  {
  }

  // ---------------------------------------------------------------------------
  // The whole transaction
  // ---------------------------------------------------------------------------

  /** Every leading repetition of the marker is dropped. */
  function TrimChecksum(s: string): string
    decreases |s|
  {
    if CHECKSUM <= s then TrimChecksum(s[|CHECKSUM|..]) else s
  }

  /** The first checklist entry that carries a checksum, without the marker; empty if there is none. */
  function ExpectedChecksum(checklist: seq<string>): string {
    if checklist == [] then "" else if CHECKSUM <= checklist[0] then TrimChecksum(checklist[0])
    else ExpectedChecksum(checklist[1..])
  }

  predicate Drifted(tools: Tools, original: seq<byte>, checklist: seq<string>) {
    ExpectedChecksum(checklist) != "" && tools.sha256Hex(original) != ExpectedChecksum(checklist)
  }

  /** Behind n markers the entry holds `h`, which starts with no further one. */
  predicate Marked(entry: string, n: nat, h: string) {
    if n == 0 then entry == h && !("checksum=" <= h) else "checksum=" <= entry && Marked(entry[9..], n - 1, h)
  }

  lemma {:induction false} TrimIsCarried(entry: string) returns (n: nat)
    ensures Marked(entry, n, TrimChecksum(entry)) && (n > 0 <==> "checksum=" <= entry)
    decreases |entry|
  {
    n := 0;
    if "checksum=" <= entry {
      n := TrimIsCarried(entry[9..]);
      n := n + 1;
    }
  }

  lemma {:induction false} CarriedIsTrim(entry: string, n: nat, h: string)
    requires Marked(entry, n, h)
    ensures h == TrimChecksum(entry)
    decreases n
  {
    if n > 0 {
      CarriedIsTrim(entry[9..], n - 1, h);
    }
  }

  /** Entry i is the first that is marked as a checksum. */
  ghost predicate FirstMarked(checklist: seq<string>, i: nat) {
    i < |checklist| && "checksum=" <= checklist[i] && forall j :: 0 <= j < i ==> !("checksum=" <= checklist[j])
  }

  /** The checksum of the first entry so marked, if it has one, is that of the file. */
  ghost predicate Agrees(tools: Tools, original: seq<byte>, checklist: seq<string>) {
    forall i: nat, n: nat, h :: FirstMarked(checklist, i) && Marked(checklist[i], n, h) ==>
      h == "" || tools.sha256Hex(original) == h
  }

  lemma {:induction false} FirstIsExpected(checklist: seq<string>, i: nat)
    requires FirstMarked(checklist, i)
    ensures ExpectedChecksum(checklist) == TrimChecksum(checklist[i])
    decreases |checklist|
  {
    if i > 0 {
      var rest := checklist[1..];
      assert forall j :: 0 <= j < |rest| ==> rest[j] == checklist[j + 1];
      FirstIsExpected(rest, i - 1);
    }
  }

  lemma {:induction false} NoneIsExpected(checklist: seq<string>)
    requires forall j :: 0 <= j < |checklist| ==> !("checksum=" <= checklist[j])
    ensures ExpectedChecksum(checklist) == ""
    decreases |checklist|
  {
    if checklist != [] {
      NoneIsExpected(checklist[1..]);
    }
  }

  lemma {:induction false} FindMarked(checklist: seq<string>, from: nat) returns (i: nat)
    requires from <= |checklist| && forall j :: 0 <= j < from ==> !("checksum=" <= checklist[j])
    ensures FirstMarked(checklist, i) ||
            (i == |checklist| && forall j :: 0 <= j < |checklist| ==> !("checksum=" <= checklist[j]))
    decreases |checklist| - from
  {
    if from == |checklist| || "checksum=" <= checklist[from] {
      i := from;
    } else {
      i := FindMarked(checklist, from + 1);
    }
  }

  /** A file has drifted exactly when it does not agree. */
  lemma DriftedOrAgrees(tools: Tools, original: seq<byte>, checklist: seq<string>)
    ensures Drifted(tools, original, checklist) <==> !Agrees(tools, original, checklist)
  {
    var first := FindMarked(checklist, 0);
    if first == |checklist| {
      NoneIsExpected(checklist);
    } else {
      FirstIsExpected(checklist, first);
      var n := TrimIsCarried(checklist[first]);
      forall i: nat, m: nat, h | FirstMarked(checklist, i) && Marked(checklist[i], m, h)
        ensures i == first && h == ExpectedChecksum(checklist)
      {
        CarriedIsTrim(checklist[i], m, h);
      }
      assert FirstMarked(checklist, first) && Marked(checklist[first], n, ExpectedChecksum(checklist));
    }
  }

  lemma NotPrefix(p: string, s: string, i: nat)
    requires i < |p| && i < |s| && p[i] != s[i]
    ensures !(p <= s)
  {
  }

  lemma SkipEntry(xs: seq<string>)
    requires xs != [] && !(CHECKSUM <= xs[0])
    ensures ExpectedChecksum(xs) == ExpectedChecksum(xs[1..])
  {
  }

  /** Of a checklist the server built, exactly a difference from a checksum it had counts as drift. */
  lemma DriftedIff(tools: Tools, original: seq<byte>, checksum: string)
    ensures Drifted(tools, original, BuildChecklist(checksum)) <==>
            TrimChecksum(checksum) != "" && tools.sha256Hex(original) != TrimChecksum(checksum)
  {
    var xs := BuildChecklist(checksum);
    NotPrefix(CHECKSUM, CHECKS[0], 1);
    NotPrefix(CHECKSUM, CHECKS[1], 0);
    NotPrefix(CHECKSUM, CHECKS[2], 0);
    NotPrefix(CHECKSUM, CHECKS[3], 0);
    SkipEntry(xs);
    SkipEntry(xs[1..]);
    SkipEntry(xs[2..]);
    SkipEntry(xs[3..]);
    assert xs[1..][1..] == xs[2..] && xs[2..][1..] == xs[3..] && xs[3..][1..] == xs[4..];
    if checksum != "" {
      assert xs[4..] == [CHECKSUM + checksum];
      assert (CHECKSUM + checksum)[|CHECKSUM|..] == checksum;
    }
  }

  method BackUp(d: Disk, ghost p: Plan, config: Path, backup: Path, original: seq<byte>, uuid: string)
    returns (ok: bool)
    requires d.Valid() && Sound(p) && Untouched(p, d.Present()) && config == p.config && backup == p.backup
    requires Lookup(d.durable, config) == p.rest && original == p.before.bytes && TempPath(backup, uuid) != config
    modifies d
    ensures d.Valid() && old(d.past) <= d.past
    ensures forall i :: |old(d.past)| <= i < |d.past| ==>
      Untouched(p, d.past[i]) && Elsewhere(old(d.Present()), d.past[i], {backup, TempPath(backup, uuid)})
    ensures Untouched(p, d.Present()) && Elsewhere(old(d.Present()), d.Present(), {backup, TempPath(backup, uuid)})
    ensures ok ==> Guarded(p, d.Present()) && Lookup(d.files, config) == Some(p.before)
    ensures d.reliable && TempPath(backup, uuid) !in old(d.files) ==> ok
    ensures d.reliable ==> TempPath(backup, uuid) !in d.files
  {
    ok := d.AtomicWrite(backup, original, config, uuid);
  }

  /** None of the three temporary names is taken. */
  ghost predicate FreshTemps(files: map<Path, File>, config: Path, backup: Path, uuids: seq<string>)
    requires |uuids| == 3
  {
    TempPath(backup, uuids[0]) !in files && TempPath(config, uuids[1]) !in files && TempPath(config, uuids[2]) !in files
  }

  /**
   The file system let the transaction through: it applied, or an adapter or the TLS check failed and the file
   was restored.
   */
  predicate Settled(r: Outcome) {
    Late(r) && (r.Failed? ==> !r.at.RollbackFailed?)
  }

  /** A free name stays free over a write that cleans up its own temporary file. */
  lemma StillFresh(before: Image, after: Image, path: Path, temp: Path, q: Path)
    requires Elsewhere(before, after, {path, temp}) && q != path
    ensures q !in before.files && temp !in after.files ==> q !in after.files
  {
    assert q != temp ==> Lookup(after.files, q) == Lookup(before.files, q);
  }

  /** Write the patched file and settle, with the backup in place. */
  method Change(d: Disk, s: Service, cfg: Config, ghost p: Plan, config: Path, backup: Path, adapters: Adapters,
                patched: seq<byte>, uuid1: string, uuid2: string) returns (r: Outcome, ghost t: Trace)
    requires d.Valid() && Sound(p) && Guarded(p, d.Present()) && config == p.config && backup == p.backup
    requires Lookup(d.files, config) == Some(p.before) && patched == p.after.bytes
    requires TempPath(config, uuid1) != backup && TempPath(config, uuid2) != backup
    modifies d, s
    ensures d.Valid() && old(d.past) <= d.past
    ensures forall i :: |old(d.past)| <= i < |d.past| ==>
      && Guarded(p, d.past[i])
      && Elsewhere(old(d.Present()), d.past[i], {config, TempPath(config, uuid1), TempPath(config, uuid2)})
    ensures Elsewhere(old(d.Present()), d.Present(), {config, TempPath(config, uuid1), TempPath(config, uuid2)})
    ensures Ends(r, d, s, p, old(s.loaded)) && (Late(r) || r == Failed(Write))
    ensures s.log == old(s.log) + Events(t) && Told(t, adapters, cfg.networkTargets, r)
    ensures d.reliable && TempPath(config, uuid1) !in old(d.files) && TempPath(config, uuid2) !in old(d.files) ==>
      Settled(r)
  {
    var written := WriteConfig(d, p, config, patched, config, uuid1);
    if written {
      TempIsTmp(config, uuid2);
      ghost var middle := d.Present();
      StillFresh(old(d.Present()), middle, config, TempPath(config, uuid1), TempPath(config, uuid2));
      ghost var temps := {config, TempPath(config, uuid1), TempPath(config, uuid2)};
      ghost var first := |d.past|;
      r, t := Settle(d, s, p, config, backup, adapters, cfg.networkTargets, uuid2);
      forall i | first <= i < |d.past|
        ensures Elsewhere(old(d.Present()), d.past[i], temps)
      {
        Through(old(d.Present()), middle, d.past[i], {config, TempPath(config, uuid1)},
                {config, TempPath(config, uuid2)}, temps);
      }
    } else {
      r, t := Failed(Write), NOTHING;
      assert Events(t) == [];
    }
  }

  /** The part of the transaction that changes files. */
  method Apply(d: Disk, s: Service, cfg: Config, ghost p: Plan, config: Path, backup: Path, adapters: Adapters,
               original: seq<byte>, patched: seq<byte>, uuids: seq<string>) returns (r: Outcome, ghost t: Trace)
    requires d.Valid() && Sound(p) && Untouched(p, d.Present()) && config == p.config && backup == p.backup
    requires |uuids| == 3
    requires Lookup(d.durable, config) == p.rest && original == p.before.bytes && patched == p.after.bytes
    requires TempPath(backup, uuids[0]) != config && TempPath(config, uuids[1]) != backup
    requires TempPath(config, uuids[2]) != backup
    modifies d, s
    ensures d.Valid() && old(d.past) <= d.past
    ensures forall i :: |old(d.past)| <= i < |d.past| ==> Untouched(p, d.past[i]) || Guarded(p, d.past[i])
    ensures forall i :: |old(d.past)| <= i < |d.past| ==>
      Elsewhere(old(d.Present()), d.past[i], Touched(config, backup, uuids))
    ensures Elsewhere(old(d.Present()), d.Present(), Touched(config, backup, uuids))
    ensures Ends(r, d, s, p, old(s.loaded))
    ensures s.log == old(s.log) + Events(t) && Told(t, adapters, cfg.networkTargets, r)
    ensures d.reliable && FreshTemps(old(d.files), config, backup, uuids) ==> Settled(r)
    ensures FromTransaction(r)
  {
    t := NOTHING;
    assert Events(t) == [];
    var made := d.MakeDirectories(cfg.backupDir);
    if !made {
      r := Failed(BackupDir);
      return;
    }
    ghost var start := d.Present();
    var saved := BackUp(d, p, config, backup, original, uuids[0]);
    if !saved {
      r := Failed(Backup);
      return;
    }
    ghost var middle := d.Present();
    StillFresh(start, middle, backup, TempPath(backup, uuids[0]), TempPath(config, uuids[1]));
    StillFresh(start, middle, backup, TempPath(backup, uuids[0]), TempPath(config, uuids[2]));
    r, t := Change(d, s, cfg, p, config, backup, adapters, patched, uuids[1], uuids[2]);
  }

  ghost function Touched(config: Path, backup: Path, uuids: seq<string>): set<Path>
    requires |uuids| == 3
  {
    {config, backup, TempPath(backup, uuids[0]), TempPath(config, uuids[1]), TempPath(config, uuids[2])}
  }

  /** What the service runs after a failure: only a reload that succeeded is sure to have changed it. */
  ghost predicate LoadedAfter(stage: Stage, loaded: seq<byte>, p: Plan, loadedBefore: seq<byte>) {
    && (stage.Write? || stage.Validate? || stage == RollbackFailed(Validate) ==> loaded == loadedBefore)
    && (stage.Reload? || stage.Tls? ==> loaded == p.before.bytes)
    && (stage == RollbackFailed(Tls) ==> loaded == p.after.bytes)
    && (stage == RollbackFailed(Reload) ==> loaded == p.after.bytes || loaded == loadedBefore)
    && (stage == RestoredNotReloaded(Tls) ==> loaded == p.before.bytes || loaded == p.after.bytes)
    && (stage == RestoredNotReloaded(Reload) ==>
          loaded == p.before.bytes || loaded == p.after.bytes || loaded == loadedBefore)
  }

  /** How each outcome leaves the configuration and the service. */
  ghost predicate Ends(r: Outcome, d: Disk, s: Service, p: Plan, loadedBefore: seq<byte>)
    reads d, s
  {
    match r
    case DryRun => false
    case Applied(backup) =>
      && backup == p.backup && Guarded(p, d.Present()) && s.loaded == p.after.bytes
      && Lookup(d.files, p.config) == Lookup(d.durable, p.config) == Some(p.after)
    case Failed(stage) =>
      if stage.BackupDir? || stage.Backup? then Untouched(p, d.Present()) && s.loaded == loadedBefore
      else
        && Guarded(p, d.Present())
        && LoadedAfter(stage, s.loaded, p, loadedBefore)
        && (stage != Write && !stage.RollbackFailed? ==>
              Lookup(d.files, p.config) == Lookup(d.durable, p.config) == Some(p.saved))
  }

  /** The plan of a transaction that starts in `start` and is to write `patched`. */
  ghost function PlanOf(start: Image, config: Path, backup: Path, patched: seq<byte>): Plan
    requires config in start.files
  {
    var f := start.files[config];
    Plan(config, backup, f, Lookup(start.durable, config), File(patched, f.mode, true), File(f.bytes, f.mode, true))
  }

  /**
   A second transaction with the same backup starts by saving the file the first one patched: the original is
   then saved nowhere.
   */
  lemma ReplayReplacesBackup(start: Image, config: Path, backup: Path, patched: seq<byte>, img: Image,
                             again: seq<byte>)
    requires config in start.files && Lookup(img.files, config) == Some(PlanOf(start, config, backup, patched).after)
    ensures PlanOf(start, config, backup, patched).saved.bytes == start.files[config].bytes
    ensures PlanOf(img, config, backup, again).saved.bytes == patched
  {
  }

  ghost function PlanFor(start: Image, cfg: Config, tools: Tools, cmd: Command, config: Path): Plan
    requires config in start.files && tools.apply(start.files[config].bytes, cmd.patch).Some?
  {
    PlanOf(start, config, BackupPath(cfg.backupDir, config, cmd.commandId),
           tools.apply(start.files[config].bytes, cmd.patch).value)
  }

  /** What a command past the gate comes to before any file is changed, in the order of the checks. */
  function Verdict(files: map<Path, File>, tools: Tools, cmd: Command, resolved: Option<Path>,
                   roots: seq<Option<seq<string>>>): Option<Outcome> {
    if !Allowed(resolved, roots) then Some(Failed(ConfigPath))
    else if resolved.value !in files || !tools.isText(files[resolved.value].bytes) then Some(Failed(ReadConfig))
    else if Drifted(tools, files[resolved.value].bytes, cmd.checklist) then Some(Failed(Drift))
    else if tools.apply(files[resolved.value].bytes, cmd.patch).None? then Some(Failed(Patch))
    else if cmd.dryRun then Some(DryRun)
    else None
  }

  /**
   The file to be changed, and what it must be: an admitted path under an allowed root, text, with the
   checksum the command names if it names one, and a patch that applies.
   */
  ghost predicate Changeable(files: map<Path, File>, tools: Tools, cmd: Command, resolved: Option<Path>,
                             roots: seq<Option<seq<string>>>) {
    && resolved.Some? && Admitted(resolved.value)
    && (exists i :: 0 <= i < |roots| && (forall j :: 0 <= j <= i ==> roots[j].Some?)
                    && roots[i].value <= resolved.value.dir + [resolved.value.name])
    && resolved.value in files && tools.isText(files[resolved.value].bytes)
    && Agrees(tools, files[resolved.value].bytes, cmd.checklist)
    && tools.apply(files[resolved.value].bytes, cmd.patch).Some?
  }

  /** The verdict lets exactly the changeable through, and a dry run ends there. */
  lemma VerdictIff(files: map<Path, File>, tools: Tools, cmd: Command, resolved: Option<Path>,
                   roots: seq<Option<seq<string>>>)
    ensures var v := Verdict(files, tools, cmd, resolved, roots);
            && (v == None <==> Changeable(files, tools, cmd, resolved, roots) && !cmd.dryRun)
            && (v == Some(DryRun) <==> Changeable(files, tools, cmd, resolved, roots) && cmd.dryRun)
            && (v.Some? && v != Some(DryRun) ==> v.value.Failed?)
  {
    if resolved.Some? && resolved.value in files {
      DriftedOrAgrees(tools, files[resolved.value].bytes, cmd.checklist);
    }
  }

  /** The path check, reading and patching; changes nothing.  A read that fails is the only way to miss the verdict. */
  method Decide(d: Disk, tools: Tools, cmd: Command, resolved: Option<Path>, roots: seq<Option<seq<string>>>)
    returns (done: Option<Outcome>, config: Path, original: seq<byte>, patched: seq<byte>)
    ensures done == Verdict(d.files, tools, cmd, resolved, roots) ||
            (!d.reliable && done == Some(Failed(ReadConfig))
              && Verdict(d.files, tools, cmd, resolved, roots) != Some(Failed(ConfigPath)))
    ensures done == None ==>
      && resolved == Some(config) && Admitted(config) && config in d.files && original == d.files[config].bytes
      && tools.apply(original, cmd.patch) == Some(patched)
  {
    config, original, patched := Path([], ""), [], [];
    var checked := CheckConfigPath(resolved, roots);
    if checked.None? {
      return Some(Failed(ConfigPath)), config, original, patched;
    }
    config := checked.value;
    var read := d.Read(config);
    if read.None? || !tools.isText(read.value) {
      return Some(Failed(ReadConfig)), config, original, patched;
    }
    original := read.value;
    if Drifted(tools, original, cmd.checklist) {
      return Some(Failed(Drift)), config, original, patched;
    }
    var applied := tools.apply(original, cmd.patch);
    if applied.None? {
      return Some(Failed(Patch)), config, original, patched;
    }
    patched := applied.value;
    done := if cmd.dryRun then Some(DryRun) else None;
  }

  /** The authorised part: names the backup and runs the transaction under the write-ahead invariant. */
  method Transact(d: Disk, s: Service, cfg: Config, cmd: Command, config: Path, original: seq<byte>, patched: seq<byte>,
                  adapters: Adapters, uuids: seq<string>) returns (r: Outcome, ghost t: Trace)
    requires d.Valid() && |uuids| == 3 && Admitted(config) && config in d.files && original == d.files[config].bytes
    modifies d, s
    ensures s.log == old(s.log) + Events(t) && Told(t, adapters, cfg.networkTargets, r)
    ensures d.reliable && FreshTemps(old(d.files), config, BackupPath(cfg.backupDir, config, cmd.commandId), uuids) ==>
      Settled(r)
    ensures FromTransaction(r)
    ensures d.Valid() && old(d.past) <= d.past
    ensures var p := PlanOf(old(d.Present()), config, BackupPath(cfg.backupDir, config, cmd.commandId), patched);
      && Ends(r, d, s, p, old(s.loaded))
      && (forall i :: |old(d.past)| <= i < |d.past| ==>
            Elsewhere(old(d.Present()), d.past[i], Touched(p.config, p.backup, uuids)))
      && (AtRest(p) ==> forall i :: |old(d.past)| <= i < |d.past| ==>
            WriteAhead(d.past[i], p.config, p.backup, p.before.bytes, p.after.bytes))
  {
    var backup := BackupPath(cfg.backupDir, config, cmd.commandId);
    ghost var p := PlanOf(d.Present(), config, backup, patched);
    BackupNeverAdmitted(cfg.backupDir, config, cmd.commandId);
    TempApart(backup, uuids[0], cfg.backupDir, config, cmd.commandId);
    TempApart(config, uuids[1], cfg.backupDir, config, cmd.commandId);
    TempApart(config, uuids[2], cfg.backupDir, config, cmd.commandId);
    r, t := Apply(d, s, cfg, p, config, backup, adapters, original, patched, uuids);
    forall i | |old(d.past)| <= i < |d.past| && AtRest(p)
      ensures WriteAhead(d.past[i], p.config, p.backup, p.before.bytes, p.after.bytes)
    {
      if Untouched(p, d.past[i]) {
        UntouchedIsSafe(p, d.past[i]);
      } else {
        GuardedIsSafe(p, d.past[i]);
      }
    }
  }

  /** The outcome is the verdict; without one, a file system that does not fail lets the transaction through. */
  ghost predicate Judged(files: map<Path, File>, cfg: Config, tools: Tools, cmd: Command, resolved: Option<Path>,
                         roots: seq<Option<seq<string>>>, uuids: seq<string>, reliable: bool, r: Outcome)
    requires |uuids| == 3
  {
    match Verdict(files, tools, cmd, resolved, roots)
    case Some(e) => r == e || (!reliable && e != Failed(ConfigPath) && r == Failed(ReadConfig))
    case None =>
      && (FromTransaction(r) || (!reliable && r == Failed(ReadConfig)))
      && var backup := BackupPath(cfg.backupDir, resolved.value, cmd.commandId);
         (reliable && FreshTemps(files, resolved.value, backup, uuids) ==> Settled(r))
  }

  /**
   What was done: nothing, unless the outcome is the transaction's; then what it says, under the write-ahead
   invariant.
   */
  ghost predicate Report(r: Outcome, start: Image, from: nat, loadedBefore: seq<byte>, d: Disk, s: Service, cfg: Config,
                         tools: Tools, cmd: Command, resolved: Option<Path>, roots: seq<Option<seq<string>>>,
                         uuids: seq<string>)
    requires |uuids| == 3
    reads d, s
  {
    if !FromTransaction(r) then |d.past| == from && d.Present() == start && s.loaded == loadedBefore
    else
      Verdict(start.files, tools, cmd, resolved, roots).None? &&
      var p := PlanFor(start, cfg, tools, cmd, resolved.value);
      && Ends(r, d, s, p, loadedBefore)
      && (forall i :: from <= i < |d.past| ==> Elsewhere(start, d.past[i], Touched(p.config, p.backup, uuids)))
      && (AtRest(p) ==> forall i :: from <= i < |d.past| ==>
            WriteAhead(d.past[i], p.config, p.backup, p.before.bytes, p.after.bytes))
  }

  /** After the gate: the checks, and the transaction itself unless they end the command or it is a dry run. */
  method Run(d: Disk, s: Service, cfg: Config, tools: Tools, cmd: Command, resolved: Option<Path>,
             roots: seq<Option<seq<string>>>, adapters: Adapters, uuids: seq<string>)
    returns (r: Outcome, ghost t: Trace)
    requires d.Valid() && |uuids| == 3
    modifies d, s
    ensures d.Valid() && old(d.past) <= d.past
    ensures s.log == old(s.log) + Events(t) && Told(t, adapters, cfg.networkTargets, r)
    ensures Judged(old(d.files), cfg, tools, cmd, resolved, roots, uuids, d.reliable, r)
    ensures Report(r, old(d.Present()), |old(d.past)|, old(s.loaded), d, s, cfg, tools, cmd, resolved, roots, uuids)
  {
    var done, config, original, patched := Decide(d, tools, cmd, resolved, roots);
    if done.Some? {
      r, t := done.value, NOTHING;
      assert Events(t) == [];
    } else {
      r, t := Transact(d, s, cfg, cmd, config, original, patched, adapters, uuids);
    }
  }

  /** The TLS check was made, and went well, exactly when some target is not on port 80. */
  ghost predicate TlsChecked(t: Trace, targets: seq<string>) {
    t.probed == if exists i :: 0 <= i < |targets| && !(|targets[i]| >= 3 && targets[i][|targets[i]| - 3..] == ":80")
                then [Probed(true)] else []
  }

  /** The service's own checker and then its own reloader were tried in the given order, each to a success. */
  ghost predicate Vouched(t: Trace, service: string, config: string) {
    && Succeeded(t.validated) && Succeeded(t.reloaded)
    && (service == "nginx" ==>
          && TriedUntil([Adapter("nginx", ["-t", "-c", config])], t.validated)
          && TriedUntil([Adapter("nginx", ["-s", "reload"]), Adapter("systemctl", ["reload", "nginx"]),
                         Adapter("service", ["nginx", "reload"])], t.reloaded))
    && (service == "apache" ==>
          && TriedUntil([Adapter("apachectl", ["configtest"]), Adapter("apache2ctl", ["configtest"]),
                         Adapter("httpd", ["-t"])], t.validated)
          && TriedUntil([Adapter("apachectl", ["graceful"]), Adapter("apache2ctl", ["graceful"]),
                         Adapter("systemctl", ["reload", "apache2"]), Adapter("systemctl", ["reload", "httpd"])],
                        t.reloaded))
    && (service == "ssh" ==>
          && TriedUntil([Adapter("sshd", ["-t", "-f", config])], t.validated)
          && TriedUntil([Adapter("systemctl", ["reload", "sshd"]), Adapter("systemctl", ["reload", "ssh"]),
                         Adapter("service", ["sshd", "reload"]), Adapter("service", ["ssh", "reload"])], t.reloaded))
  }

  lemma AppliedWasChecked(t: Trace, service: string, config: string, targets: seq<string>, r: Outcome)
    requires r.Applied? && Told(t, AdaptersFor(service, config), targets, r)
    ensures TlsChecked(t, targets)
    ensures Vouched(t, service, config)
  {
    SomeTlsTarget(targets);
    ServiceAdapters(service, config);
  }

  lemma SomeTlsTarget(targets: seq<string>)
    ensures targets != [] && HasTlsTargets(targets) <==>
            exists i :: 0 <= i < |targets| && !(|targets[i]| >= 3 && targets[i][|targets[i]| - 3..] == ":80")
  {
    assert forall i :: 0 <= i < |targets| ==>
        (EndsWith(targets[i], ":80") <==> |targets[i]| >= 3 && targets[i][|targets[i]| - 3..] == ":80");
  }

  /** A service's own names tell the tables of adapters apart. */
  lemma ServiceAdapters(service: string, config: string)
    ensures var a := AdaptersFor(service, config);
      && (service == "nginx" ==>
            && a.validators == [Adapter("nginx", ["-t", "-c", config])]
            && a.reloaders == [Adapter("nginx", ["-s", "reload"]), Adapter("systemctl", ["reload", "nginx"]),
                               Adapter("service", ["nginx", "reload"])])
      && (service == "apache" ==>
            && a.validators == [Adapter("apachectl", ["configtest"]), Adapter("apache2ctl", ["configtest"]),
                                Adapter("httpd", ["-t"])]
            && a.reloaders == [Adapter("apachectl", ["graceful"]), Adapter("apache2ctl", ["graceful"]),
                               Adapter("systemctl", ["reload", "apache2"]), Adapter("systemctl", ["reload", "httpd"])])
      && (service == "ssh" ==>
            && a.validators == [Adapter("sshd", ["-t", "-f", config])]
            && a.reloaders == [Adapter("systemctl", ["reload", "sshd"]), Adapter("systemctl", ["reload", "ssh"]),
                               Adapter("service", ["sshd", "reload"]), Adapter("service", ["ssh", "reload"])])
  {
    assert service == "apache" || service == "ssh" ==> service[0] != "nginx"[0];
    assert service == "ssh" ==> service[0] != "apache"[0];
  }

  /**
   One command, start to end.  No step is taken on the disk unless the command passes the gate and is
   ready; at every step the write-ahead invariant holds; each outcome leaves configuration and service
   as `Ends` says.  Whatever changes anything, runs an adapter or checks TLS is a command that is no dry
   run, passes the gate and is verified, and is about a changeable file; with an ideal keyed hash, it was signed.
   */
  method Execute(d: Disk, s: Service, cfg: Config, cr: Envelope.Crypto, tools: Tools, cmd: Command,
                 directive: seq<byte>, now: i64, resolved: Option<Path>, roots: seq<Option<seq<string>>>,
                 shown: string, uuids: seq<string>)
    returns (r: Outcome, ghost t: Trace)
    requires d.Valid() && |uuids| == 3
    modifies d, s
    ensures d.Valid() && old(d.past) <= d.past
    ensures s.log == old(s.log) + Events(t)
    ensures match Refusal(cfg, cr, cmd, directive, now)
      case Some(stage) =>
        && r == Failed(stage) && t == NOTHING
        && d.past == old(d.past) && d.Present() == old(d.Present()) && s.loaded == old(s.loaded)
      case None =>
        && Told(t, AdaptersFor(Lower(cmd.targetService), shown), cfg.networkTargets, r)
        && Judged(old(d.files), cfg, tools, cmd, resolved, roots, uuids, d.reliable, r)
        && Report(r, old(d.Present()), |old(d.past)|, old(s.loaded), d, s, cfg, tools, cmd, resolved, roots, uuids)
    ensures d.past != old(d.past) || d.Present() != old(d.Present()) || s.loaded != old(s.loaded) ||
            s.log != old(s.log) ==>
      && !cmd.dryRun && Gate(cfg, cmd, now) && Envelope.Verify(cr, cfg.trust, cmd, directive)
      && Changeable(old(d.files), tools, cmd, resolved, roots)
      && forall log: set<Command>, known: set<string> ::
        Envelope.Tag(cr, cfg.trust, directive) in known && Envelope.OnlyLogged(cr, cfg.trust.key, log, known) ==>
          Envelope.Identified(log, cmd)
    ensures cmd.dryRun ==> !r.Applied?
    ensures r == DryRun ==> cmd.dryRun && Gate(cfg, cmd, now) && Changeable(old(d.files), tools, cmd, resolved, roots)
    ensures d.reliable && Gate(cfg, cmd, now) && Envelope.Verify(cr, cfg.trust, cmd, directive) &&
            Changeable(old(d.files), tools, cmd, resolved, roots) ==>
      (r == DryRun <==> cmd.dryRun)
    ensures r.Applied? ==> TlsChecked(t, cfg.networkTargets) && Vouched(t, Lower(cmd.targetService), shown)
  {
    RefusalIff(cfg, cr, cmd, directive, now);
    VerdictIff(d.files, tools, cmd, resolved, roots);
    var refusal := Refusal(cfg, cr, cmd, directive, now);
    if refusal.Some? {
      r, t := Failed(refusal.value), NOTHING;
      assert Events(t) == [];
      return;
    }
    r, t := Run(d, s, cfg, tools, cmd, resolved, roots, AdaptersFor(Lower(cmd.targetService), shown), uuids);
    forall log: set<Command>, known: set<string> |
      Envelope.Tag(cr, cfg.trust, directive) in known && Envelope.OnlyLogged(cr, cfg.trust.key, log, known)
      ensures Envelope.Identified(log, cmd)
    {
      AdmittedWasSigned(cfg, cr, cmd, directive, now, log, known);
    }
    if r.Applied? {
      AppliedWasChecked(t, Lower(cmd.targetService), shown, cfg.networkTargets, r);
    }
  }
}
