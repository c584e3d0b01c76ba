// Key lifecycle over whole runs with a clock that never goes back and tokens that cannot be forged.
module AuthnRuns {
  import opened AuthnModel
  import opened Common

  /** A key that was issued: the key itself, the token presented for it (none for a login), the user it
      stands for and when. */
  datatype Grant = Grant(key: Key, via: Option<Text>, user: Text, at: int)

  /** The repository, the clock and the history: grants, ids handed out, and ids revoked by their users. */
  datatype World = World(keys: Keys, now: int, grants: seq<Grant>, used: set<string>, revoked: set<string>)

  datatype Call =
    | Issuing(issuer: Text, key: Key, id: string)
    | Revoking(issuer: Text, id: string)
    | Identifying(token: Text)
    | Waiting(d: nat)

  predicate IsDerived(key: Key) {
    key.keyType == API_KEY || key.keyType == RECOVERY_KEY
  }

  /** A signed token can only be presented if it was issued. */
  ghost predicate Known(w: World, t: Text) {
    t.Signed? ==> exists g :: g in w.grants && g.key.secret == t
  }

  ghost predicate Allowed(w: World, c: Call) {
    match c
    case Issuing(issuer, _, id) => Known(w, issuer) && id !in w.used
    case Revoking(issuer, _) => Known(w, issuer)
    case Identifying(token) => Known(w, token)
    case Waiting(_) => true
  }

  function NewGrant(w: World, issuer: Text, key: Key, issued: Key): Grant {
    if IsDerived(key) && Login(issuer, w.now).Ok? then Grant(issued, Some(issuer), Login(issuer, w.now).value, w.now)
    else Grant(issued, None, issuer, w.now)
  }

  /** Somebody with a working login key names an API key of theirs. */
  predicate Revokes(w: World, issuer: Text, id: string) {
    Login(issuer, w.now).Ok? && exists g <- w.grants :: IsKeyOf(g, Login(issuer, w.now).value, id)
  }

  predicate IsKeyOf(g: Grant, user: Text, id: string) {
    g.key.keyType == API_KEY && g.key.id == id && g.user == user
  }

  function Next(w: World, c: Call): World {
    match c
    case Issuing(issuer, key, id) =>
      var (r, keys) := Issue(w.keys, issuer, key, id, w.now);
      if r.Err? then w.(used := w.used + {id})
      else w.(keys := keys, grants := w.grants + [NewGrant(w, issuer, key, r.value)], used := w.used + {id})
    case Revoking(issuer, id) =>
      w.(keys := Revoke(w.keys, issuer, id, w.now).1,
         revoked := w.revoked + if Revokes(w, issuer, id) then {id} else {})
    case Identifying(token) =>
      w.(keys := Identify(w.keys, token, w.now).1)
    case Waiting(d) => w.(now := w.now + d)
  }

  ghost predicate Moves(v: World, c: Call, w: World) {
    Allowed(v, c) && w == Next(v, c)
  }

  /** w can be reached from v. */
  ghost predicate Reaches(v: World, calls: seq<Call>, w: World)
    decreases |calls|
  {
    if calls == [] then w == v
    else
      var c := calls[|calls| - 1];
      exists u :: Moves(u, c, w) && Reaches(v, calls[..|calls| - 1], u)
  }

  predicate Initial(w: World) {
    w.keys == map[] && w.grants == [] && w.used == {} && w.revoked == {}
  }

  ghost predicate Reachable(w: World) {
    exists v, calls :: Initial(v) && Reaches(v, calls, w)
  }

  lemma ReachesNext(v: World, calls: seq<Call>, u: World, c: Call)
    requires Reaches(v, calls, u) && Allowed(u, c)
    ensures Reaches(v, calls + [c], Next(u, c))
  {
    var all := calls + [c];
    assert all[..|all| - 1] == calls && all[|all| - 1] == c;
    assert Moves(u, c, Next(u, c));
  }

  // ----- The invariant ------------------------------------------------------------------------------

  /** What a grant's key and token say. */
  ghost predicate GrantSound(w: World, g: Grant) {
    && g.key.issuedAt.At? && g.key.secret.Signed? && g.at <= w.now
    && g.key.secret == IssueToken(g.key.(secret := g.key.secret.claims.sub))
    && (g.via.None? ==>
          && !IsDerived(g.key) && g.key.issuer == ISSUER_NAME && g.key.secret.claims.sub == g.user
          && g.key.expiresAt == At(g.key.issuedAt.ns + LOGIN_DURATION))
    && (g.via.Some? ==> IsDerived(g.key) && LoginFor(w, g.via.value, g.user, g.at))
    && (g.key.keyType == RECOVERY_KEY ==>
          && g.key.issuer == ISSUER_NAME && g.key.secret.claims.sub == g.user
          && g.key.expiresAt == At(g.key.issuedAt.ns + RESET_DURATION))
    && (g.key.keyType == API_KEY ==> g.key.issuer == g.user && g.key.id in w.used)
  }

  /** t is a login key that was issued for the user and was valid at the time. */
  ghost predicate LoginFor(w: World, t: Text, user: Text, at: int) {
    && Login(t, at) == Ok(user)
    && exists g :: g in w.grants && g.key.secret == t && g.via.None? && g.key.keyType == USER_KEY && g.user == user
  }

  ghost predicate KeysSound(w: World) {
    && (forall id :: id in w.keys ==> id in w.used && id !in w.revoked && Granted(w, w.keys[id]) && w.keys[id].id == id)
    && (forall g :: g in w.grants && g.key.keyType == API_KEY ==> Stored(w, g))
    && w.revoked <= w.used
  }

  ghost predicate Granted(w: World, k: Key) {
    exists g :: g in w.grants && g.key == k && k.keyType == API_KEY
  }

  /** An API key stays in the repository until its user revokes it or it is found to have expired. */
  ghost predicate Stored(w: World, g: Grant) {
    if g.key.id in w.keys then w.keys[g.key.id] == g.key
    else g.key.id in w.revoked || Expired(g.key, w.now)
  }

  ghost predicate Inv(w: World) {
    (forall g :: g in w.grants ==> GrantSound(w, g)) && KeysSound(w)
  }

  lemma GrantKeeps(w: World, w': World, g: Grant)
    requires GrantSound(w, g) && w.now <= w'.now && w.used <= w'.used && w.grants <= w'.grants
    ensures GrantSound(w', g)
  {
    if g.via.Some? {
      var g0 :| g0 in w.grants && g0.key.secret == g.via.value && g0.via.None? && g0.key.keyType == USER_KEY
        && g0.user == g.user;
      assert g0 in w'.grants;
    }
  }

  /** A login key that is presented and works was issued, for the user it names. */
  lemma LoginIsGranted(w: World, t: Text, user: Text)
    requires Inv(w) && Known(w, t) && Login(t, w.now) == Ok(user)
    ensures LoginFor(w, t, user, w.now)
  {
    var g :| g in w.grants && g.key.secret == t;
    assert GrantSound(w, g);
  }

  lemma IssuingInv(w: World, issuer: Text, key: Key, id: string)
    requires Inv(w) && Allowed(w, Issuing(issuer, key, id))
    ensures Inv(Next(w, Issuing(issuer, key, id)))
  {
    var w' := Next(w, Issuing(issuer, key, id));
    var r := Issue(w.keys, issuer, key, id, w.now).0;
    forall g | g in w.grants ensures GrantSound(w', g) {
      GrantKeeps(w, w', g);
    }
    if r.Ok? {
      var g := NewGrant(w, issuer, key, r.value);
      assert w'.grants == w.grants + [g];
      if IsDerived(key) {
        LoginIsGranted(w, issuer, g.user);
      }
      NewGrantSound(w, w', issuer, key, id);
    }
    IssuingKeys(w, issuer, key, id);
  }

  lemma NewGrantSound(w: World, w': World, issuer: Text, key: Key, id: string)
    requires w' == Next(w, Issuing(issuer, key, id)) && Issue(w.keys, issuer, key, id, w.now).0.Ok?
    requires var g := NewGrant(w, issuer, key, Issue(w.keys, issuer, key, id, w.now).0.value);
             IsDerived(key) ==> LoginFor(w, issuer, g.user, w.now)
    ensures GrantSound(w', NewGrant(w, issuer, key, Issue(w.keys, issuer, key, id, w.now).0.value))
  {
    var g := NewGrant(w, issuer, key, Issue(w.keys, issuer, key, id, w.now).0.value);
    if IsDerived(key) {
      var g0 :| g0 in w.grants && g0.key.secret == issuer && g0.via.None? && g0.key.keyType == USER_KEY
        && g0.user == g.user;
      assert g0 in w'.grants;
    }
  }

  lemma IssuingKeys(w: World, issuer: Text, key: Key, id: string)
    requires Inv(w) && Allowed(w, Issuing(issuer, key, id))
    ensures KeysSound(Next(w, Issuing(issuer, key, id)))
  {
    var w' := Next(w, Issuing(issuer, key, id));
    var r := Issue(w.keys, issuer, key, id, w.now).0;
    if r.Ok? {
      KeysGrow(w, w', NewGrant(w, issuer, key, r.value), id);
    } else {
      KeysStay(w, w');
    }
  }

  lemma KeysStay(w: World, w': World)
    requires Inv(w) && w' == w.(used := w'.used) && w.used <= w'.used
    ensures KeysSound(w')
  {
    forall x | x in w'.keys ensures Granted(w', w'.keys[x]) {
      assert Granted(w, w.keys[x]);
    }
    forall g | g in w'.grants && g.key.keyType == API_KEY ensures Stored(w', g) {
      assert Stored(w, g);
    }
  }

  /** A new grant; an API key is stored under its new id. */
  lemma KeysGrow(w: World, w': World, g: Grant, id: string)
    requires Inv(w) && id !in w.used
    requires w' == w.(keys := if g.key.keyType == API_KEY then w.keys[id := g.key] else w.keys,
                      grants := w.grants + [g], used := w.used + {id})
    requires g.key.keyType == API_KEY ==> g.key.id == id
    ensures KeysSound(w')
  {
    assert w'.grants[|w.grants|] == g;
    forall x | x in w'.keys ensures Granted(w', w'.keys[x]) {
      if x in w.keys && x != id {
        var h :| h in w.grants && h.key == w.keys[x];
        assert h in w'.grants;
      }
    }
    forall h | h in w'.grants && h.key.keyType == API_KEY ensures Stored(w', h) {
      if h in w.grants {
        assert GrantSound(w, h) && Stored(w, h) && h.key.id != id;
      }
    }
  }

  /** Removing a key that is revoked or expired keeps the rest of the repository sound. */
  lemma RemoveKeeps(w: World, w': World, id: string)
    requires Inv(w) && w'.grants == w.grants && w'.used == w.used && w'.now == w.now
    requires w'.keys == w.keys - {id} && w.revoked <= w'.revoked <= w.revoked + {id} && id in w.used
    requires forall g :: g in w.grants && g.key.keyType == API_KEY && g.key.id == id ==>
               id in w'.revoked || Expired(g.key, w.now)
    ensures Inv(w')
  {
    forall g | g in w'.grants ensures GrantSound(w', g) {
      GrantKeeps(w, w', g);
    }
    forall x | x in w'.keys ensures Granted(w', w'.keys[x]) {
      assert Granted(w, w.keys[x]);
    }
    forall g | g in w'.grants && g.key.keyType == API_KEY ensures Stored(w', g) {
      assert Stored(w, g);
    }
  }

  lemma StoredIsGranted(w: World, id: string, g: Grant)
    requires Inv(w) && id in w.keys && g in w.grants && g.key.keyType == API_KEY && g.key.id == id
    ensures w.keys[id] == g.key
  {
    assert Stored(w, g);
  }

  /** Revoking removes the caller's key and no other. */
  lemma RevokeRemoves(w: World, issuer: Text, id: string)
    requires Inv(w)
    ensures Revoke(w.keys, issuer, id, w.now).1 == if Revokes(w, issuer, id) then w.keys - {id} else w.keys
  {
    if Login(issuer, w.now).Ok? {
      var user := Login(issuer, w.now).value;
      if exists g <- w.grants :: IsKeyOf(g, user, id) {
        var g :| g in w.grants && IsKeyOf(g, user, id);
        OwnRemoved(w, g);
      } else if id in w.keys {
        OthersStay(w, user, id);
      }
    }
  }

  lemma OwnRemoved(w: World, g: Grant)
    requires Inv(w) && g in w.grants && g.key.keyType == API_KEY
    ensures Remove(w.keys, g.user, g.key.id) == w.keys - {g.key.id}
  {
    assert GrantSound(w, g) && Stored(w, g);
    assert g.key.id !in w.keys ==> w.keys - {g.key.id} == w.keys;
  }

  lemma OthersStay(w: World, user: Text, id: string)
    requires Inv(w) && id in w.keys && !exists g <- w.grants :: IsKeyOf(g, user, id)
    ensures w.keys[id].issuer != user
  {
    var g :| g in w.grants && g.key == w.keys[id] && g.key.keyType == API_KEY;
    assert GrantSound(w, g) && !IsKeyOf(g, user, id);
  }

  lemma RevokingInv(w: World, issuer: Text, id: string)
    requires Inv(w)
    ensures Inv(Next(w, Revoking(issuer, id)))
  {
    var w' := Next(w, Revoking(issuer, id));
    RevokeRemoves(w, issuer, id);
    if Revokes(w, issuer, id) {
      var g :| g in w.grants && IsKeyOf(g, Login(issuer, w.now).value, id);
      assert GrantSound(w, g);
      RemoveKeeps(w, w', id);
    } else {
      assert w' == w by { assert w.revoked + {} == w.revoked; }
    }
  }

  lemma IdentifyingInv(w: World, token: Text)
    requires Inv(w)
    ensures Inv(Next(w, Identifying(token)))
  {
    var keys := Identify(w.keys, token, w.now).1;
    if keys != w.keys {
      ExpiredRemoved(w, token, keys);
    }
  }

  lemma RemovesExpired(keys: Keys, token: Text, now: int) returns (id: string)
    requires Identify(keys, token, now).1 != keys
    ensures id in keys && Expired(keys[id], now) && Identify(keys, token, now).1 == keys - {id}
  {
    id := Parse(token, now).value.id;
  }

  lemma ExpiredRemoved(w: World, token: Text, keys: Keys)
    requires Inv(w) && keys == Identify(w.keys, token, w.now).1 != w.keys
    ensures Inv(w.(keys := keys))
  {
    var id := RemovesExpired(w.keys, token, w.now);
    forall g | g in w.grants && g.key.keyType == API_KEY && g.key.id == id ensures Expired(g.key, w.now) {
      StoredIsGranted(w, id, g);
    }
    assert w.revoked <= w.revoked + {id};
    RemoveKeeps(w, w.(keys := keys), id);
  }

  lemma WaitingInv(w: World, d: nat)
    requires Inv(w)
    ensures Inv(Next(w, Waiting(d)))
  {
    var w' := Next(w, Waiting(d));
    forall g | g in w'.grants ensures GrantSound(w', g) {
      GrantKeeps(w, w', g);
    }
    forall x | x in w'.keys ensures Granted(w', w'.keys[x]) {
      assert Granted(w, w.keys[x]);
    }
    forall g | g in w'.grants && g.key.keyType == API_KEY ensures Stored(w', g) {
      assert Stored(w, g);
    }
  }

  lemma StepInv(w: World, c: Call)
    requires Inv(w) && Allowed(w, c)
    ensures Inv(Next(w, c))
  {
    match c
    case Issuing(issuer, key, id) => IssuingInv(w, issuer, key, id);
    case Revoking(issuer, id) => RevokingInv(w, issuer, id);
    case Identifying(token) => IdentifyingInv(w, token);
    case Waiting(d) => WaitingInv(w, d);
  }

  lemma {:induction false} ReachesInv(v: World, calls: seq<Call>, w: World)
    requires Inv(v) && Reaches(v, calls, w)
    ensures Inv(w)
    decreases |calls|
  {
    if calls != [] {
      var c := calls[|calls| - 1];
      var u :| Moves(u, c, w) && Reaches(v, calls[..|calls| - 1], u);
      ReachesInv(v, calls[..|calls| - 1], u);
      StepInv(u, c);
    }
  }

  lemma ReachableInv(w: World)
    requires Reachable(w)
    ensures Inv(w)
  {
    var v, calls :| Initial(v) && Reaches(v, calls, w);
    ReachesInv(v, calls, w);
  }

  // ----- What a token is good for -------------------------------------------------------------------

  /** Identify answers e only for a token that was issued for e: a login key, or a key derived through
      Issue from a login key that had been issued for e and was valid at the time. */
  lemma IdentifyIsGranted(w: World, t: Text, e: Text)
    requires Reachable(w) && Known(w, t) && Identify(w.keys, t, w.now).0 == Ok(e)
    ensures exists g :: g in w.grants && g.key.secret == t && g.user == e
              && (g.via.Some? ==> LoginFor(w, g.via.value, e, g.at))
  {
    ReachableInv(w);
    var g :| g in w.grants && g.key.secret == t;
    GrantUser(w, g, e);
  }

  lemma GrantUser(w: World, g: Grant, e: Text)
    requires GrantSound(w, g) && Identify(w.keys, g.key.secret, w.now).0 == Ok(e)
    ensures g.user == e && (g.via.Some? ==> LoginFor(w, g.via.value, e, g.at))
  {
  }

  lemma UnixAdd(ns: int, s: int)
    ensures Unix(ns + s * SECOND) == Unix(ns) + s
  {
  }

  /** A login key works for 36000 seconds from its issue and a recovery key for 300, to the second (at the
      epoch itself a claim counts as absent). */
  lemma TemporaryExact(w: World, g: Grant)
    requires Reachable(w) && g in w.grants && (g.key.keyType == USER_KEY || g.key.keyType == RECOVERY_KEY)
    ensures g.key.issuedAt.At?
    ensures var iat, now := Unix(g.key.issuedAt.ns), Unix(w.now);
            var exp := iat + if g.key.keyType == USER_KEY then 36000 else 300;
            Identify(w.keys, g.key.secret, w.now).0 == Ok(g.user) <==>
            (iat == 0 || iat <= now) && (exp == 0 || now <= exp)
    ensures Identify(w.keys, g.key.secret, w.now).1 == w.keys
  {
    ReachableInv(w);
    assert GrantSound(w, g);
    UnixAdd(g.key.issuedAt.ns, 36000);
    UnixAdd(g.key.issuedAt.ns, 300);
  }

  /** An API key works exactly from its issue until its expiry or until its user revokes it. One without
      an expiry never works, although it is meant to work for ever. */
  lemma ApiExact(w: World, g: Grant)
    requires Reachable(w) && g in w.grants && g.key.keyType == API_KEY
    ensures g.key.secret.Signed?
    ensures Identify(w.keys, g.key.secret, w.now).0 == Ok(g.user)
       <==> g.key.id !in w.revoked && g.key.expiresAt.At? && w.now <= g.key.expiresAt.ns
            && !Early(g.key.secret.claims, w.now)
  {
    ReachableInv(w);
    assert GrantSound(w, g) && Stored(w, g);
  }

  /** Issue succeeds exactly for a key with an issue time and, where one is needed, a working login key. Only an
      API key is stored, under the new id, and keeps the expiry that was asked for. */
  lemma IssueExact(w: World, issuer: Text, key: Key, id: string)
    requires Reachable(w) && Allowed(w, Issuing(issuer, key, id))
    ensures var (r, keys) := Issue(w.keys, issuer, key, id, w.now);
            && (r.Ok? <==> key.issuedAt.At? && (IsDerived(key) ==> Login(issuer, w.now).Ok?))
            && (r.Err? ==> keys == w.keys)
            && (r.Ok? ==>
                  && r.value.issuedAt == key.issuedAt && r.value.keyType == key.keyType && r.value.secret.Signed?
                  && keys == (if key.keyType == API_KEY then w.keys[id := r.value] else w.keys)
                  && (key.keyType == API_KEY ==> r.value.id == id && r.value.expiresAt == key.expiresAt))
  {
    ReachableInv(w);
    assert id !in w.keys;
  }

  /** A token is good for deriving and revoking keys exactly when it is a login key of a named user that was
      issued and has not run out. */
  lemma LoginExact(w: World, t: Text, user: Text)
    requires Reachable(w) && Known(w, t)
    ensures Login(t, w.now) == Ok(user) <==>
            && user != Plain("")
            && exists g :: g in w.grants && g.key.secret == t && g.key.keyType == USER_KEY && g.user == user
                           && Identify(w.keys, t, w.now).0 == Ok(user)
  {
    ReachableInv(w);
    if Login(t, w.now) == Ok(user) {
      LoginIsGranted(w, t, user);
      var g :| g in w.grants && g.key.secret == t && g.via.None? && g.key.keyType == USER_KEY && g.user == user;
      assert GrantSound(w, g);
    }
    forall g | g in w.grants && g.key.secret == t && g.key.keyType == USER_KEY && g.user == user
               && Identify(w.keys, t, w.now).0 == Ok(user) && user != Plain("")
      ensures Login(t, w.now) == Ok(user)
    {
      GrantLogsIn(w, g);
    }
  }

  lemma GrantLogsIn(w: World, g: Grant)
    requires Inv(w) && g in w.grants && g.key.keyType == USER_KEY && g.user != Plain("")
    requires Identify(w.keys, g.key.secret, w.now).0 == Ok(g.user)
    ensures Login(g.key.secret, w.now) == Ok(g.user)
  {
    assert GrantSound(w, g);
  }

  // ----- Revoking ------------------------------------------------------------------------------------

  /** The owner of an API key revokes it with any working login key of theirs: the call succeeds, and the key is
      refused directly afterwards and ever after. */
  lemma RevokeIsFinal(w: World, g: Grant, t: Text, calls: seq<Call>, w': World)
    requires Reachable(w) && g in w.grants && g.key.keyType == API_KEY
    requires Known(w, t) && Login(t, w.now) == Ok(g.user)
    requires Reaches(Next(w, Revoking(t, g.key.id)), calls, w')
    ensures Revoke(w.keys, t, g.key.id, w.now).0 == Ok(()) && Identify(w'.keys, g.key.secret, w'.now).0.Err?
  {
    ReachableInv(w);
    RevokeRemoves(w, t, g.key.id);
    assert IsKeyOf(g, g.user, g.key.id) && GrantSound(w, g);
    DeadForever(Next(w, Revoking(t, g.key.id)), g.key.secret, calls, w');
    DeadRefused(w', g.key.secret);
  }

  /** Nobody else can, and no other key goes: without a working login key the call fails, and with another user's,
      or another id, it changes nothing about the key. */
  lemma RevokeByOthers(w: World, g: Grant, t: Text, id: string)
    requires Reachable(w) && g in w.grants && g.key.keyType == API_KEY
    requires Login(t, w.now) != Ok(g.user) || id != g.key.id
    ensures var (r, keys) := Revoke(w.keys, t, id, w.now);
            && (r.Ok? <==> Login(t, w.now).Ok?)
            && (g.key.id in keys <==> g.key.id in w.keys)
            && Identify(keys, g.key.secret, w.now).0 == Identify(w.keys, g.key.secret, w.now).0
  {
    ReachableInv(w);
    assert GrantSound(w, g) && Stored(w, g);
    if Login(t, w.now).Ok? {
      RemoveOther(w.keys, Login(t, w.now).value, id, g.key.id);
    }
    SameAnswer(w.keys, Revoke(w.keys, t, id, w.now).1, g.key.secret, w.now);
  }

  lemma RemoveOther(keys: Keys, user: Text, id: string, x: string)
    requires id != x || (x in keys ==> keys[x].issuer != user)
    ensures x in Remove(keys, user, id) <==> x in keys
    ensures x in keys ==> Remove(keys, user, id)[x] == keys[x]
  {
  }

  /** Identify looks up one key at most. */
  lemma SameAnswer(keys: Keys, keys': Keys, t: Text, now: int)
    requires t.Signed? && var x := t.claims.id; (x in keys' <==> x in keys) && (x in keys ==> keys'[x] == keys[x])
    ensures Identify(keys', t, now).0 == Identify(keys, t, now).0
  {
  }

  /** A user logs in. */
  lemma LoggedIn(user: string, now: int, other: string) returns (w: World, g: Grant)
    requires user != ""
    ensures Reachable(w) && w.now == now && w.used == {other} && w.revoked == {} && w.keys == map[] && w.grants == [g]
    ensures Login(g.key.secret, now) == Ok(Plain(user))
  {
    var v := World(map[], now, [], {}, {});
    var key := Key("", USER_KEY, Plain(""), Plain(""), At(now), Zero);
    var c := Issuing(Plain(user), key, other);
    w := Next(v, c);
    g := w.grants[0];
    ReachesNext(v, [], v, c);
    UnixAdd(now, 36000);
  }

  /** An API key is issued without an expiry, as the documentation invites one to do. It is refused at
      once, although nobody has revoked it. */
  lemma NoExpiryRefused(user: string, now: int, id: string) returns (w: World, g: Grant)
    requires user != ""
    ensures Reachable(w) && w.now == now && g in w.grants && g.at == now && g.user == Plain(user)
    ensures g.key.keyType == API_KEY && g.key.expiresAt == Zero && w.revoked == {}
    ensures Identify(w.keys, g.key.secret, w.now).0 == Err(KeyExpired)
  {
    var u, login := LoggedIn(user, now, id + "'");
    var key := Key("", API_KEY, Plain(""), Plain(""), At(now), Zero);
    var c := Issuing(login.key.secret, key, id);
    assert |id + "'"| != |id|;
    assert login in u.grants;
    w := Next(u, c);
    var v, calls :| Initial(v) && Reaches(v, calls, u);
    ReachesNext(v, calls, u, c);
    g := w.grants[1];
  }

  // ----- Refusal is final ---------------------------------------------------------------------------

  /** A token that has run out, or whose API key is gone. */
  ghost predicate Dead(w: World, t: Text) {
    t.Signed? &&
    var c := t.claims;
    if c.keyType == API_KEY then c.id in w.used && (c.id in w.keys ==> w.keys[c.id].issuer != c.iss)
    else Late(c, w.now)
  }

  lemma DeadRefused(w: World, t: Text)
    requires Dead(w, t)
    ensures Identify(w.keys, t, w.now).0.Err?
  {
  }

  lemma RefusedIsDead(v: World, g: Grant)
    requires GrantSound(v, g)
    requires var e := Identify(v.keys, g.key.secret, v.now).0; e == Err(KeyExpired) || e == Err(NotFound)
    ensures Dead(Next(v, Identifying(g.key.secret)), g.key.secret)
  {
  }

  lemma DeadKept(w: World, t: Text, c: Call)
    requires Dead(w, t) && Allowed(w, c)
    ensures Dead(Next(w, c), t)
  {
    if c.Waiting? {
      assert Unix(w.now) <= Unix(w.now + c.d);
    }
  }

  lemma {:induction false} DeadForever(v: World, t: Text, calls: seq<Call>, w: World)
    requires Dead(v, t) && Reaches(v, calls, w)
    ensures Dead(w, t)
    decreases |calls|
  {
    if calls != [] {
      var c := calls[|calls| - 1];
      var u :| Moves(u, c, w) && Reaches(v, calls[..|calls| - 1], u);
      DeadForever(v, t, calls[..|calls| - 1], u);
      DeadKept(u, t, c);
    }
  }

  /** A token refused for expiry or because its key is revoked is never accepted again, whatever happens. */
  lemma RefusalIsFinal(v: World, t: Text, calls: seq<Call>, w: World)
    requires Reachable(v) && Known(v, t)
    requires Identify(v.keys, t, v.now).0 == Err(KeyExpired) || Identify(v.keys, t, v.now).0 == Err(NotFound)
    requires Reaches(Next(v, Identifying(t)), calls, w)
    ensures Identify(w.keys, t, w.now).0.Err?
  {
    ReachableInv(v);
    var g :| g in v.grants && g.key.secret == t;
    RefusedIsDead(v, g);
    DeadForever(Next(v, Identifying(t)), t, calls, w);
    DeadRefused(w, t);
  }
}
