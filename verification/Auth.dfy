/**
Dashboard sessions: tokens minted at login, checked on every request, and ended by a password change.
The token encoding, the keyed hash and the password hash are abstract functions; that no request carries
a valid hash of text the server never signed is the hypothesis `Unforged`.
*/
module Auth {
  import opened Options
  import opened Text

  /** Times are in nanoseconds since the epoch; tokens and cutoffs hold whole seconds. */
  const SECOND := 1_000_000_000
  const MINUTE := 60 * SECOND
  const HOUR := 60 * MINUTE
  const DEFAULT_TENANT := "default"
  const MIN_PASSWORD := 12
  const LONGEST_HASHED := 72  // no longer password is hashed, and no more of one is compared

  function Unix(t: nat): nat { t / SECOND }

  /** The configured lifetime, if it parses; 24 hours otherwise; never under 5 minutes or over 720 hours. */
  function Lifetime(configured: Option<int>): (ttl: nat)
    ensures 300_000_000_000 <= ttl <= 2_592_000_000_000_000
    ensures configured.Some? && 300_000_000_000 <= configured.value <= 2_592_000_000_000_000 ==>
      ttl == configured.value
    ensures configured == None ==> ttl == 86_400_000_000_000
    ensures configured.Some? && configured.value < 300_000_000_000 ==> ttl == 300_000_000_000
  {
    var ttl := if configured.Some? then configured.value else 24 * HOUR;
    if ttl < 5 * MINUTE then 5 * MINUTE else if ttl > 720 * HOUR then 720 * HOUR else ttl
  }

  datatype Claims = Claims(sub: string, role: string, tenant: string, iat: int, exp: int)

  /** `hash` is the password hash with a salt; `check` compares a stored hash with a password. */
  datatype Scheme = Scheme(header: string, encode: Claims -> string, decode: string -> Option<Claims>,
                           mac: string -> string, hash: (string, string) -> string, check: (string, string) -> bool)

  /** The part of a password that the hash reads. */
  function Read(password: string): string {
    if |password| <= LONGEST_HASHED then password else password[..LONGEST_HASHED]
  }

  /** The encodings use no dots, decoding undoes encoding, and a hash matches what reads as the password it is of. */
  ghost predicate Sound(sc: Scheme) {
    && '.' !in sc.header
    && (forall c :: '.' !in sc.encode(c) && sc.decode(sc.encode(c)) == Some(c))
    && (forall s :: '.' !in sc.mac(s))
    && (forall salt, p, q :: sc.check(sc.hash(salt, p), q) <==> Read(p) == Read(q))
  }

  function SigningInput(header: string, payload: string): string { header + ("." + payload) }

  function Token(sc: Scheme, c: Claims): string {
    sc.header + ("." + (sc.encode(c) + ("." + sc.mac(SigningInput(sc.header, sc.encode(c))))))
  }

  function Claimed(username: string, role: string, tenant: string, now: nat, ttl: nat): Claims {
    Claims(username, role, if tenant == "" then DEFAULT_TENANT else tenant, Unix(now), Unix(now + ttl))
  }

  function VerifyToken(sc: Scheme, token: string, now: nat): Option<Claims> {
    var parts := Split(token, '.');
    if |parts| != 3 then None
    else if parts[2] != sc.mac(SigningInput(parts[0], parts[1])) then None
    else
      var c := sc.decode(parts[1]);
      if c == None || Unix(now) > c.value.exp then None
      else Some(c.value.(tenant := if c.value.tenant == "" then DEFAULT_TENANT else c.value.tenant))
  }

  /** The token of an authorization header. */
  function Bearer(header: string): Option<string> {
    var parts := Split(header, ' ');
    if header == "" || |parts| != 2 || Lower(parts[0]) != "bearer" then None else Some(parts[1])
  }

  /** The token is what follows a scheme name, in any case, and one blank. */
  lemma BearerIff(header: string, token: string)
    ensures Bearer(header) == Some(token) <==>
            exists name :: header == name + ([' '] + token) && ' ' !in name && ' ' !in token && Lower(name) == "bearer"
  {
    if Bearer(header) == Some(token) {
      var parts := Split(header, ' ');
      var u := SplitTail(header, ' ');
      assert Split(u, ' ') == [parts[1]];
      assert u == Split(u, ' ')[0];
      assert header == parts[0] + ([' '] + token);
    }
    if name :| header == name + ([' '] + token) && ' ' !in name && ' ' !in token && Lower(name) == "bearer" {
      SplitHead(name, ' ', token);
      SplitOne(token, ' ');
    }
  }

  // ---------------------------------------------------------------------------
  // What was minted is what is accepted
  // ---------------------------------------------------------------------------

  /** What has happened: tokens minted, and password changes with their second. */
  datatype Event = Minted(claims: Claims) | Changed(user: string, at: nat)

  ghost predicate Unforged(sc: Scheme, log: seq<Event>, token: string) {
    var parts := Split(token, '.');
    |parts| == 3 && parts[2] == sc.mac(SigningInput(parts[0], parts[1])) ==>
      exists c :: Minted(c) in log && SigningInput(parts[0], parts[1]) == SigningInput(sc.header, sc.encode(c))
  }

  lemma TokenSplits(sc: Scheme, c: Claims)
    requires Sound(sc)
    ensures Split(Token(sc, c), '.') == [sc.header, sc.encode(c), sc.mac(SigningInput(sc.header, sc.encode(c)))]
  {
    SplitThree(sc.header, sc.encode(c), sc.mac(SigningInput(sc.header, sc.encode(c))), '.');
  }

  lemma SameInput(h: string, p: string, g: string, q: string)
    requires '.' !in h && '.' !in p && '.' !in g && '.' !in q && SigningInput(h, p) == SigningInput(g, q)
    ensures h == g && p == q
  {
    SplitHead(h, '.', p);
    SplitHead(g, '.', q);
    SplitOne(p, '.');
    SplitOne(q, '.');
    var parts := Split(SigningInput(h, p), '.');
    assert parts == [h] + [p] == [g] + [q];
    assert parts[0] == h && parts[1] == p;
  }

  /**
   A token is accepted exactly when it is, character for character, one that was minted with these claims, and
   has not expired.
   */
  lemma AcceptedIff(sc: Scheme, log: seq<Event>, token: string, now: nat, c: Claims)
    requires Sound(sc) && Unforged(sc, log, token)
    requires forall d :: Minted(d) in log ==> d.tenant != ""
    ensures VerifyToken(sc, token, now) == Some(c) <==> Minted(c) in log && token == Token(sc, c) && Unix(now) <= c.exp
  {
    var parts := Split(token, '.');
    if VerifyToken(sc, token, now) == Some(c) {
      var d :| Minted(d) in log && SigningInput(parts[0], parts[1]) == SigningInput(sc.header, sc.encode(d));
      SameInput(parts[0], parts[1], sc.header, sc.encode(d));
      ThreePieces(token, '.');
    }
    if Minted(c) in log && token == Token(sc, c) {
      TokenSplits(sc, c);
    }
  }

  // ---------------------------------------------------------------------------
  // Sessions
  // ---------------------------------------------------------------------------

  /** The second of a user's last password change, 0 if there is none. */
  function LastChange(log: seq<Event>, user: string): nat {
    if log == [] then 0 else
      var last := log[|log| - 1];
      if last.Changed? && last.user == user then last.at else LastChange(log[..|log| - 1], user)
  }

  /** A minted token still opens a session: not expired, and not older than its user's last password change. */
  predicate Live(log: seq<Event>, c: Claims, now: nat) {
    Unix(now) <= c.exp && LastChange(log, c.sub) <= c.iat
  }

  datatype Credential = Credential(username: string, hash: string, role: string, tenantId: string)

  datatype Override = Override(hash: string, at: nat)

  datatype Outcome = Done | Unauthorized | BadRequest | ServerError

  function Cutoff(revoked: map<string, nat>, user: string): nat { if user in revoked then revoked[user] else 0 }

  function SavedAt(overrides: map<string, Override>, user: string): nat {
    if user in overrides then Unix(overrides[user].at) else 0
  }

  /** The hash of a password is matched by that password only, or, at the full length, by what extends it. */
  lemma HashMatches(sc: Scheme, salt: string, password: string)
    requires Sound(sc) && |password| <= LONGEST_HASHED
    ensures forall q :: sc.check(sc.hash(salt, password), q) <==>
              q == password || (|password| == LONGEST_HASHED && password <= q)
  {
    forall q
      ensures sc.check(sc.hash(salt, password), q) <==>
              q == password || (|password| == LONGEST_HASHED && password <= q)
    {
      assert sc.check(sc.hash(salt, password), q) <==> Read(password) == Read(q);
    }
  }

  lemma LogSnoc(log: seq<Event>, e: Event, user: string)
    ensures LastChange(log + [e], user) == if e.Changed? && e.user == user then e.at else LastChange(log, user)
  {
    assert (log + [e])[..|log|] == log;
  }

  /** Everything logged happened by `now`. */
  ghost predicate Past(log: seq<Event>, now: nat) {
    && (forall c :: Minted(c) in log ==> c.tenant != "" && 0 <= c.iat <= now)
    && (forall u :: LastChange(log, u) <= now)
  }

  ghost predicate Saved(overrides: map<string, Override>, log: seq<Event>) {
    forall u :: SavedAt(overrides, u) == LastChange(log, u)
  }

  ghost predicate Known(revoked: map<string, nat>, log: seq<Event>) {
    forall u :: Cutoff(revoked, u) == LastChange(log, u)
  }

  /** The claims of a session, in whole seconds: who logged in, as what, where, when, and until when. */
  ghost predicate SessionOf(c: Claims, username: string, cred: Credential, loginAt: nat, ttl: nat) {
    && c.sub == username && c.role == cred.role
    && c.tenant == (if cred.tenantId == "" then "default" else cred.tenantId)
    && c.iat == loginAt / 1_000_000_000 && c.exp == (loginAt + ttl) / 1_000_000_000
  }

  /** A request with these claims is let through: not expired, and not older than the cutoff in memory. */
  predicate Passes(revoked: map<string, nat>, c: Claims, now: nat) {
    Unix(now) <= c.exp && Cutoff(revoked, c.sub) <= c.iat
  }

  /**
   A session: a request with the token of a login passes exactly until the lifetime is over, unless the
   user's cutoff is later than the second of the login, and the token stands for no other claims.
   */
  lemma SessionLaw(sc: Scheme, revoked: map<string, nat>, c: Claims, username: string, cred: Credential,
                   loginAt: nat, ttl: nat, now: nat)
    requires Sound(sc) && SessionOf(c, username, cred, loginAt, ttl)
    ensures Passes(revoked, c, now) <==>
            now / 1_000_000_000 <= (loginAt + ttl) / 1_000_000_000
            && (username in revoked ==> revoked[username] <= loginAt / 1_000_000_000)
    ensures forall d :: Token(sc, d) == Token(sc, c) <==> d == c
  {
    TokenSplits(sc, c);
    forall d | Token(sc, d) == Token(sc, c)
      ensures d == c
    {
      TokenSplits(sc, d);
      assert Split(Token(sc, d), '.')[1] == sc.encode(d) && Split(Token(sc, c), '.')[1] == sc.encode(c);
      assert sc.decode(sc.encode(d)) == Some(d) && sc.decode(sc.encode(c)) == Some(c);
    }
  }

  lemma MintedOn(log: seq<Event>, c: Claims, was: nat, now: nat)
    requires Past(log, was) && was <= now && c.tenant != "" && c.iat == now
    ensures Past(log + [Minted(c)], now) && forall u :: LastChange(log + [Minted(c)], u) == LastChange(log, u)
  {
    forall u
      ensures LastChange(log + [Minted(c)], u) == LastChange(log, u)
    {
      LogSnoc(log, Minted(c), u);
    }
  }

  lemma ChangedOn(overrides: map<string, Override>, log: seq<Event>, user: string, hash: string, was: nat, now: nat)
    requires Past(log, was) && was <= Unix(now) && Saved(overrides, log)
    ensures var more := log + [Changed(user, Unix(now))];
            && Past(more, Unix(now)) && Saved(overrides[user := Override(hash, now)], more)
            && forall revoked :: Known(revoked, log) ==> Known(revoked[user := Unix(now)], more)
  {
    var more := log + [Changed(user, Unix(now))];
    forall u
      ensures LastChange(more, u) == if u == user then Unix(now) else LastChange(log, u)
    {
      LogSnoc(log, Changed(user, Unix(now)), u);
    }
  }

  class Api {
    const scheme: Scheme
    const creds: seq<Credential>
    const ttl: nat
    const reliable: bool                  // no database call and no hashing fails
    var overrides: map<string, Override>  // in the database
    var revoked: map<string, nat>         // in memory
    ghost var log: seq<Event>
    ghost var clock: nat

    ghost predicate Consistent()
      reads this
    {
      Sound(scheme) && Past(log, Unix(clock)) && Saved(overrides, log)
    }

    ghost predicate Valid()
      reads this
    {
      Consistent() && Known(revoked, log)
    }

    constructor (scheme: Scheme, creds: seq<Credential>, configured: Option<int>, reliable: bool)
      requires Sound(scheme)
      ensures Valid() && log == [] && clock == 0 && this.scheme == scheme && this.creds == creds
      ensures ttl == Lifetime(configured) && this.reliable == reliable
    {
      this.scheme, this.creds, this.reliable, ttl := scheme, creds, reliable, Lifetime(configured);
      overrides, revoked, log, clock := map[], map[], [], 0;
    }

    /** One database call or hashing. */
    method Call() returns (ok: bool)
      ensures reliable ==> ok
    {
      ok := *;
      ok := ok || reliable;
    }

    /** The first credential with this name. */
    method Find(username: string) returns (k: nat)
      ensures k <= |creds| && (k < |creds| ==> creds[k].username == username)
      ensures forall i :: 0 <= i < k ==> creds[i].username != username
    {
      k := 0;
      while k < |creds| && creds[k].username != username
        invariant k <= |creds| && forall i :: 0 <= i < k ==> creds[i].username != username
      {
        k := k + 1;
      }
    }

    /** The saved hash, if the lookup works and there is one; otherwise the configured one. */
    method CurrentHash(username: string, configured: Option<string>) returns (hash: Option<string>, ghost ran: bool)
      ensures hash == if ran && username in overrides then Some(overrides[username].hash) else configured
      ensures reliable ==> ran
    {
      var ok := Call();
      ran := ok;
      hash := if ok && username in overrides then Some(overrides[username].hash) else configured;
    }

    /**
     A token is minted exactly when the first credential of that name exists and the password matches its
     current hash.
     */
    method Login(username: string, password: string, now: nat)
      returns (token: Option<string>, ghost k: nat, ghost ran: bool)
      requires Consistent() && clock <= now
      modifies this`log, this`clock
      ensures Consistent() && clock == now && (old(Valid()) ==> Valid())
      ensures k <= |creds| && forall i :: 0 <= i < k ==> creds[i].username != username
      ensures reliable && k < |creds| && creds[k].username == username ==> ran
      ensures token.Some? <==>
        (k < |creds| && creds[k].username == username &&
         scheme.check(if ran && username in overrides then overrides[username].hash else creds[k].hash, password))
      ensures token == None ==> log == old(log)
      ensures token.Some? ==>
        exists c :: SessionOf(c, username, creds[k], now, ttl) && token.value == Token(scheme, c)
          && log == old(log) + [Minted(c)]
    {
      clock, ran := now, false;
      var found := Find(username);
      k, token := found, None;
      assert Unix(old(clock)) <= Unix(now);
      if found == |creds| {
        return;
      }
      var hash: Option<string>;
      hash, ran := CurrentHash(username, Some(creds[found].hash));
      if scheme.check(hash.value, password) {
        var tenant := if creds[found].tenantId != "" then creds[found].tenantId else DEFAULT_TENANT;
        var c := Claimed(username, creds[found].role, tenant, now, ttl);
        token := Some(Token(scheme, c));
        MintedOn(log, c, Unix(old(clock)), Unix(now));
        log := log + [Minted(c)];
      }
    }

    /**
     A request is let through exactly with an unaltered minted token that passes the table in memory, and acts
     as its claims say.  While the table knows every change, those are the sessions that are still live.
     */
    method Authorize(header: string, now: nat) returns (who: Option<Claims>)
      requires Consistent() && clock <= now
      requires Bearer(header).Some? ==> Unforged(scheme, log, Bearer(header).value)
      modifies this`clock
      ensures Consistent() && clock == now && (old(Valid()) ==> Valid())
      ensures forall c :: who == Some(c) <==>
        (Minted(c) in log && Bearer(header) == Some(Token(scheme, c)) && Passes(revoked, c, now))
      ensures who.Some? ==>
        now / 1_000_000_000 <= who.value.exp
        && (who.value.sub in revoked ==> revoked[who.value.sub] <= who.value.iat)
      ensures old(Valid()) ==> forall c :: who == Some(c) <==>
        (Minted(c) in log && Bearer(header) == Some(Token(scheme, c)) && Live(log, c, now))
    {
      clock, who := now, None;
      assert Unix(old(clock)) <= Unix(now);
      var token := Bearer(header);
      if token == None {
        return;
      }
      var c := VerifyToken(scheme, token.value, now);
      forall d
        ensures VerifyToken(scheme, token.value, now) == Some(d) <==>
                Minted(d) in log && token.value == Token(scheme, d) && Unix(now) <= d.exp
      {
        AcceptedIff(scheme, log, token.value, now, d);
      }
      if c == None {
        return;
      }
      var cutoff := Cutoff(revoked, c.value.sub);
      if cutoff > 0 && c.value.iat < cutoff {
        return;
      }
      who := c;
    }

    /** Credential k is the first of this name. */
    predicate FirstNamed(k: nat, username: string) {
      k < |creds| && creds[k].username == username && forall i :: 0 <= i < k ==> creds[i].username != username
    }

    /** The configured hash of the first credential of this name. */
    function Configured(username: string, from: nat): Option<string>
      requires from <= |creds|
      decreases |creds| - from
    {
      if from == |creds| then None
      else if creds[from].username == username then Some(creds[from].hash)
      else Configured(username, from + 1)
    }

    lemma ConfiguredIs(username: string, from: nat, k: nat)
      requires from <= k <= |creds| && (k < |creds| ==> creds[k].username == username)
      requires forall i :: from <= i < k ==> creds[i].username != username
      ensures Configured(username, from) == if k < |creds| then Some(creds[k].hash) else None
      decreases k - from
    {
      if from < k {
        ConfiguredIs(username, from + 1, k);
      }
    }

    /** How a password change ends when nothing fails: whose password, is it the current one, is the new one fit. */
    function Expected(username: string, saved: map<string, Override>, current: string, next: string): Outcome {
      var hash := if username in saved then Some(saved[username].hash) else Configured(username, 0);
      if username == "" then Unauthorized
      else if hash == None then BadRequest
      else if !scheme.check(hash.value, current) then Unauthorized
      else if |next| < MIN_PASSWORD || next == current then BadRequest
      else if |next| > LONGEST_HASHED then ServerError
      else Done
    }

    /**
     A change goes through exactly for a named user whose current password is given, saved or else that of the
     first credential of the name, and for a new one of 12 to 72 characters.
     */
    lemma ExpectedIff(username: string, saved: map<string, Override>, current: string, next: string)
      ensures Expected(username, saved, current, next) == Done <==>
              && username != "" && 12 <= |next| <= 72 && next != current
              && (if username in saved then scheme.check(saved[username].hash, current)
                  else exists k: nat :: FirstNamed(k, username) && scheme.check(creds[k].hash, current))
    {
      var k := FirstFrom(username, 0);
      ConfiguredIs(username, 0, k);
      assert forall j: nat :: FirstNamed(j, username) ==> j == k;
      assert k < |creds| ==> FirstNamed(k, username);
    }

    lemma FirstFrom(username: string, from: nat) returns (k: nat)
      requires from <= |creds| && forall i :: 0 <= i < from ==> creds[i].username != username
      ensures k <= |creds| && (k < |creds| ==> creds[k].username == username)
      ensures forall i :: 0 <= i < k ==> creds[i].username != username
      decreases |creds| - from
    {
      if from == |creds| || creds[from].username == username {
        k := from;
      } else {
        k := FirstFrom(username, from + 1);
      }
    }

    /**
     The acting user's password.  `savedAt` is the database's clock at the update; a store call that fails
     changes nothing.  A saved hash matches the new password, and beyond its full length what extends it.
     */
    method ChangePassword(username: string, current: string, next: string, savedAt: nat)
      returns (r: Outcome, ghost ran: bool)
      requires Consistent() && clock <= savedAt
      modifies this`overrides, this`revoked, this`log, this`clock
      ensures Consistent() && clock == savedAt && (old(Valid()) ==> Valid())
      ensures revoked == if r == Done then old(revoked)[username := Unix(savedAt)] else old(revoked)
      ensures r == Done ==>
        && username in overrides && log == old(log) + [Changed(username, Unix(savedAt))]
        && overrides == old(overrides)[username := Override(overrides[username].hash, savedAt)]
        && (forall q :: scheme.check(overrides[username].hash, q) <==>
              q == next || (|next| == 72 && next <= q))
        && 12 <= |next| <= 72 && next != current
      ensures r == Done && ran && username in old(overrides) ==> scheme.check(old(overrides)[username].hash, current)
      ensures r != Done ==> log == old(log) && overrides == old(overrides)
      ensures reliable ==> r == Expected(username, old(overrides), current, next)
    {
      clock, ran := savedAt, false;
      assert Unix(old(clock)) <= Unix(savedAt);
      if username == "" {
        return Unauthorized, ran;
      }
      var k := Find(username);
      ConfiguredIs(username, 0, k);
      var hash: Option<string>;
      hash, ran := CurrentHash(username, if k < |creds| then Some(creds[k].hash) else None);
      if hash == None {
        return BadRequest, ran;
      }
      if !scheme.check(hash.value, current) {
        return Unauthorized, ran;
      }
      if |next| < MIN_PASSWORD || next == current {
        return BadRequest, ran;
      }
      var salt: string := *;
      var hashed := Call();
      var stored := Call();
      if !hashed || |next| > LONGEST_HASHED || !stored {
        return ServerError, ran;
      }
      ChangedOn(overrides, log, username, scheme.hash(salt, next), Unix(old(clock)), savedAt);
      var newHash := scheme.hash(salt, next);
      HashMatches(scheme, salt, next);
      overrides := overrides[username := Override(newHash, savedAt)];
      revoked := revoked[username := Unix(savedAt)];
      log := log + [Changed(username, Unix(savedAt))];
      r := Done;
    }

    /** A restart loses the table in memory and reads it back; if the read works, every decision is what it was. */
    method Restart() returns (ok: bool)
      requires Consistent()
      modifies this`revoked
      ensures Consistent() && (ok ==> Valid()) && (!ok ==> revoked == map[])
      ensures reliable ==> ok
    {
      revoked := map[];
      ok := Call();
      if ok {
        revoked := map u | u in overrides :: Unix(overrides[u].at);
      }
    }
  }

  /**
   Which ended sessions a table lets through: those it has no cutoff for later than their minting.  After a
   restart that could not read the saved changes, these are all that have not expired.
   */
  lemma RevivesIff(log: seq<Event>, revoked: map<string, nat>, c: Claims, now: nat)
    requires c.iat >= 0
    ensures Passes(revoked, c, now) && !Live(log, c, now) <==>
            Unix(now) <= c.exp && Cutoff(revoked, c.sub) <= c.iat < LastChange(log, c.sub)
    ensures revoked == map[] ==> (Passes(revoked, c, now) <==> Unix(now) <= c.exp)
  {
  }

  // ---------------------------------------------------------------------------
  // What a password change ends
  // ---------------------------------------------------------------------------

  lemma {:induction false} QuietChanges(log: seq<Event>, more: seq<Event>, user: string)
    requires forall e :: e in more && e.Changed? ==> e.user != user
    ensures LastChange(log + more, user) == LastChange(log, user)
    decreases |more|
  {
    if more == [] {
      assert log + more == log;
    } else {
      var n := |more| - 1;
      QuietChanges(log, more[..n], user);
      LogSnoc(log + more[..n], more[n], user);
      assert log + more == log + more[..n] + [more[n]];
    }
  }

  /**
   A password change ends the user's earlier sessions, except those minted in the very second of the
   change: a session minted before it is live afterwards exactly when it was minted in that second.
   */
  lemma ChangeEndsSessionsIff(log: seq<Event>, more: seq<Event>, c: Claims, at: nat, now: nat)
    requires c.iat <= at && Unix(now) <= c.exp
    requires forall e :: e in more && e.Changed? ==> e.user != c.sub
    ensures Live(log + [Changed(c.sub, at)] + more, c, now) <==> c.iat == at
  {
    QuietChanges(log + [Changed(c.sub, at)], more, c.sub);
    LogSnoc(log, Changed(c.sub, at), c.sub);
  }

  /** Other users' changes end nothing, and a session minted at or after the last change is live until it expires. */
  lemma OthersKeepSessions(log: seq<Event>, more: seq<Event>, c: Claims, now: nat)
    requires forall e :: e in more && e.Changed? ==> e.user != c.sub
    ensures Live(log + more, c, now) <==> Live(log, c, now)
  {
    QuietChanges(log, more, c.sub);
  }
}
