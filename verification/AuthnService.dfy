// The authn service and its key repository as they run. The clock is read by the caller.
module AuthnService {
  import opened AuthnModel

  /** authn/mocks/keys.go: keys by id, visible to their issuer only. */
  class KeyRepository {
    var keys: Keys

    constructor ()
      ensures keys == map[]
    {
      keys := map[];
    }

    method Save(key: Key) returns (r: Result<string>)
      modifies this
      ensures r == if key.id in old(keys) then Err(Conflict) else Ok(key.id)
      ensures keys == if key.id in old(keys) then old(keys) else old(keys)[key.id := key]
    {
      if key.id in keys {
        return Err(Conflict);
      }
      keys := keys[key.id := key];
      r := Ok(key.id);
    }

    method Retrieve(issuer: Text, id: string) returns (r: Result<Key>)
      ensures r == AuthnModel.Retrieve(keys, issuer, id)
    {
      if id in keys && keys[id].issuer == issuer {
        return Ok(keys[id]);
      }
      r := Err(NotFound);
    }

    method Remove(issuer: Text, id: string)
      modifies this
      ensures keys == AuthnModel.Remove(old(keys), issuer, id)
    {
      if id in keys && keys[id].issuer == issuer {
        keys := keys - {id};
      }
    }
  }

  class Service {
    const repo: KeyRepository

    constructor (repo: KeyRepository)
      ensures this.repo == repo
    {
      this.repo := repo;
    }

    method Issue(issuer: Text, key: Key, id: string, now: int) returns (r: Result<Key>)
      modifies repo
      ensures (r, repo.keys) == AuthnModel.Issue(old(repo.keys), issuer, key, id, now)
    {
      if key.issuedAt.Zero? {
        return Err(InvalidKeyIssuedAt);
      }
      if key.keyType == API_KEY {
        r := UserKey(issuer, key, id, now);
      } else if key.keyType == RECOVERY_KEY {
        r := ResetKey(issuer, key, now);
      } else {
        r := LoginKey(issuer, key);
      }
    }

    method LoginKey(issuer: Text, key: Key) returns (r: Result<Key>)
      requires key.issuedAt.At?
      ensures r == Ok(AuthnModel.TempKey(LOGIN_DURATION, key.(secret := issuer)))
    {
      r := TempKey(LOGIN_DURATION, key.(secret := issuer));
    }

    method ResetKey(issuer: Text, key: Key, now: int) returns (r: Result<Key>)
      requires key.issuedAt.At?
      ensures r == match AuthnModel.Login(issuer, now)
                   case Err(e) => Err(e)
                   case Ok(email) => Ok(AuthnModel.TempKey(RESET_DURATION, key.(secret := email)))
    {
      var email := Login(issuer, now);
      if email.Err? {
        return Err(email.error);
      }
      r := TempKey(RESET_DURATION, key.(secret := email.value));
    }

    /** Fills the key field by field; the token takes the place of the subject. */
    method TempKey(duration: int, key: Key) returns (r: Result<Key>)
      requires key.issuedAt.At?
      ensures r == Ok(AuthnModel.TempKey(duration, key))
    {
      var k := key;
      k := k.(issuer := ISSUER_NAME);
      k := k.(expiresAt := Add(k.issuedAt, duration));
      var val := IssueToken(k);
      k := k.(secret := val);
      r := Ok(k);
    }

    method UserKey(issuer: Text, key: Key, id: string, now: int) returns (r: Result<Key>)
      requires key.issuedAt.At? && key.keyType == API_KEY
      modifies repo
      ensures (r, repo.keys) == AuthnModel.Issue(old(repo.keys), issuer, key, id, now)
    {
      var email := Login(issuer, now);
      if email.Err? {
        return Err(email.error);
      }
      var k := key;
      k := k.(issuer := email.value);
      k := k.(id := id);
      var value := IssueToken(k);
      k := k.(secret := value);
      var saved := repo.Save(k);
      if saved.Err? {
        return Err(saved.error);
      }
      r := Ok(k);
    }

    method Login(token: Text, now: int) returns (r: Result<Text>)
      ensures r == AuthnModel.Login(token, now)
    {
      var c := Parse(token, now);
      if c.Err? {
        return Err(c.error);
      }
      if c.value.keyType != USER_KEY {
        return Err(UnauthorizedAccess);
      }
      if c.value.secret == Plain("") {
        return Err(UnauthorizedAccess);
      }
      r := Ok(c.value.secret);
    }

    method Revoke(issuer: Text, id: string, now: int) returns (r: Result<()>)
      modifies repo
      ensures (r, repo.keys) == AuthnModel.Revoke(old(repo.keys), issuer, id, now)
    {
      var email := Login(issuer, now);
      if email.Err? {
        return Err(email.error);
      }
      repo.Remove(email.value, id);
      r := Ok(());
    }

    method Identify(token: Text, now: int) returns (r: Result<Text>)
      modifies repo
      ensures (r, repo.keys) == AuthnModel.Identify(old(repo.keys), token, now)
    {
      var c := Parse(token, now);
      if c.Err? {
        return Err(c.error);
      }
      if c.value.keyType == API_KEY {
        var k := repo.Retrieve(c.value.issuer, c.value.id);
        if k.Err? {
          return Err(k.error);
        }
        if Expired(k.value, now) {
          repo.Remove(c.value.issuer, c.value.id);
          return Err(KeyExpired);
        }
        return Ok(c.value.issuer);
      }
      if c.value.issuer != ISSUER_NAME {
        return Err(UnauthorizedAccess);
      }
      r := Ok(c.value.secret);
    }
  }
}
