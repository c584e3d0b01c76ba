// The things service as it runs: the database, the two caches and the event stream are updated in
// place; every method is tied to the call functions of ThingsModel.
module ThingsService {
  import opened Common
  import opened ThingsModel
  import opened ThingsRepository

  /** The three tables, with the uniqueness that the database itself enforces. */
  class Database {
    var things: map<Ref, Key>
    var channels: set<Ref>
    var connections: set<Conn>

    ghost function Repo(): Repo
      reads this
    {
      ThingsModel.Repo.Repo(things, channels, connections)
    }

    ghost predicate Valid()
      reads this
    {
      UniqueKeys(things)
    }

    constructor ()
      ensures Valid() && Repo() == ThingsModel.Repo.Repo(map[], {}, {})
    {
      things, channels, connections := map[], {}, {};
    }

    /** thingRepository.Save: inserts in a transaction that is rolled back on the first conflict. */
    method SaveThings(rows: seq<ThingRow>) returns (err: Option<Error>)
      requires Valid()
      modifies this`things
      ensures Valid()
      ensures var r := InsertThings(old(things), rows);
              if r.Some? then err == None && things == r.value else err == Some(Conflict) && things == old(things)
    {
      var tx := things;
      var i := 0;
      while i < |rows|
        invariant 0 <= i <= |rows|
        invariant things == old(things)
        invariant InsertThings(old(things), rows) == InsertThings(tx, rows[i..])
      {
        var row := rows[i];
        if row.ref in tx || row.key in tx.Values {
          return Some(Conflict);
        }
        assert rows[i..][1..] == rows[i + 1..];
        tx := tx[row.ref := row.key];
        i := i + 1;
      }
      InsertKeepsUnique(old(things), rows);
      things := tx;
      err := None;
    }

    method SaveChannels(rows: seq<Ref>) returns (err: Option<Error>)
      modifies this`channels
      ensures var r := InsertChannels(old(channels), rows);
              if r.Some? then err == None && channels == r.value else err == Some(Conflict) && channels == old(channels)
    {
      var tx := channels;
      var i := 0;
      while i < |rows|
        invariant 0 <= i <= |rows|
        invariant channels == old(channels)
        invariant InsertChannels(old(channels), rows) == InsertChannels(tx, rows[i..])
      {
        if rows[i] in tx {
          return Some(Conflict);
        }
        assert rows[i..][1..] == rows[i + 1..];
        tx := tx + {rows[i]};
        i := i + 1;
      }
      channels := tx;
      err := None;
    }

    method UpdateKey(owner: Owner, id: Id, key: Key) returns (err: Option<Error>)
      requires Valid()
      modifies this`things
      ensures Valid()
      ensures (err, Repo()) == UpdateKeyRepo(old(Repo()), owner, id, key)
    {
      var t := Ref(id, owner);
      if t !in things {
        return Some(NotFound);
      }
      if exists u | u in things :: u != t && things[u] == key {
        return Some(Conflict);
      }
      things := things[t := key];
      err := None;
    }

    method RetrieveByKey(key: Key) returns (id: Option<Id>)
      requires Valid()
      ensures id == ThingsModel.RetrieveByKey(Repo(), key)
    {
      if t :| t in things && things[t] == key {
        id := Some(t.id);
      } else {
        id := None;
      }
    }

    /** DELETE with its cascade. */
    method RemoveThing(owner: Owner, id: Id)
      requires Valid()
      modifies this
      ensures Valid() && Repo() == RemoveThingRepo(old(Repo()), owner, id)
    {
      var t := Ref(id, owner);
      if t in things {
        things := things - {t};
        connections := set c | c in connections && c.thing != t;
      }
      assert t !in old(things) ==> old(things) - {t} == old(things);
    }

    method RemoveChannel(owner: Owner, id: Id)
      modifies this`channels, this`connections
      ensures Repo() == RemoveChannelRepo(old(Repo()), owner, id)
    {
      var ch := Ref(id, owner);
      if ch in channels {
        channels := channels - {ch};
        connections := set c | c in connections && c.channel != ch;
      }
    }

    /** channelRepository.Connect: nested loops in one transaction, rolled back on the first failure. */
    method Connect(owner: Owner, chIDs: seq<Id>, thIDs: seq<Id>) returns (err: Option<Error>)
      modifies this`connections
      ensures (err, Repo()) == ConnectRepo(old(Repo()), owner, chIDs, thIDs)
    {
      ghost var repo, all := Repo(), InsertConnections(Repo(), connections, Product(owner, chIDs, thIDs));
      var tx := connections;
      var i := 0;
      while i < |chIDs|
        invariant 0 <= i <= |chIDs|
        invariant Repo() == repo
        invariant all == InsertConnections(repo, tx, Product(owner, chIDs[i..], thIDs))
      {
        var j := 0;
        ghost var rest := Product(owner, chIDs[i + 1..], thIDs);
        assert chIDs[i..][1..] == chIDs[i + 1..] && thIDs[0..] == thIDs;
        while j < |thIDs|
          invariant 0 <= j <= |thIDs|
          invariant Repo() == repo
          invariant all == InsertConnections(repo, tx, Row(owner, chIDs[i], thIDs[j..]) + rest)
        {
          var c := Conn(Ref(chIDs[i], owner), Ref(thIDs[j], owner));
          ghost var rows := Row(owner, chIDs[i], thIDs[j..]) + rest;
          assert rows[0] == c && rows[1..] == Row(owner, chIDs[i], thIDs[j + 1..]) + rest by {
            assert thIDs[j..][1..] == thIDs[j + 1..];
          }
          if c in tx {
            return Some(Conflict);
          }
          if c.channel !in channels || c.thing !in things {
            return Some(NotFound);
          }
          tx := tx + {c};
          j := j + 1;
        }
        assert Row(owner, chIDs[i], thIDs[j..]) + rest == rest;
        i := i + 1;
      }
      connections := tx;
      err := None;
    }

    method Disconnect(owner: Owner, chID: Id, thID: Id) returns (err: Option<Error>)
      modifies this`connections
      ensures (err, Repo()) == DisconnectRepo(old(Repo()), owner, chID, thID)
    {
      var c := Conn(Ref(chID, owner), Ref(thID, owner));
      if c !in connections {
        return Some(NotFound);
      }
      connections := connections - {c};
      err := None;
    }

    method HasThingByID(chID: Id, thID: Id) returns (connected: bool)
      ensures connected == Connected(Repo(), chID, thID)
    {
      connected := exists c | c in connections :: c.channel.id == chID && c.thing.id == thID;
    }

    method HasThing(chID: Id, key: Key) returns (id: Option<Id>)
      requires Valid()
      ensures id == ThingsModel.HasThing(Repo(), chID, key)
    {
      id := RetrieveByKey(key);
      if id.Some? {
        var connected := HasThingByID(chID, id.value);
        if !connected {
          id := None;
        }
      }
    }
  }

  /** things/redis/things.go: two families of keys, one for each direction. */
  class RedisThingCache {
    var ids: map<Key, Id>
    var keys: map<Id, Key>

    ghost function Value(): ThingCache
      reads this
    {
      ThingCache(ids, keys)
    }

    constructor ()
      ensures Value() == ThingCache(map[], map[])
    {
      ids, keys := map[], map[];
    }

    method Save(key: Key, id: Id)
      modifies this
      ensures Value() == CacheSave(old(Value()), key, id)
    {
      ids := ids[key := id];
      keys := keys[id := key];
    }

    method ID(key: Key) returns (id: Option<Id>)
      ensures id == if key in ids then Some(ids[key]) else None
    {
      id := if key in ids then Some(ids[key]) else None;
    }

    method Remove(id: Id)
      modifies this
      ensures Value() == CacheRemove(old(Value()), id)
    {
      if id in keys {
        var key := keys[id];
        ids := ids - {key};
        keys := keys - {id};
      }
    }
  }

  /** things/redis/channels.go: a set of thing ids per channel. */
  class RedisChannelCache {
    var members: ChannelCache

    constructor ()
      ensures members == map[]
    {
      members := map[];
    }

    method Connect(chID: Id, thID: Id)
      modifies this
      ensures members == CacheConnect(old(members), chID, thID)
    {
      members := members[chID := Members(members, chID) + {thID}];
    }

    method HasThing(chID: Id, thID: Id) returns (r: bool)
      ensures r == (thID in Members(members, chID))
    {
      r := chID in members && thID in members[chID];
    }

    method Disconnect(chID: Id, thID: Id)
      modifies this
      ensures members == CacheDisconnect(old(members), chID, thID)
    {
      if chID in members {
        members := members[chID := members[chID] - {thID}];
      }
    }

    method Remove(chID: Id)
      modifies this
      ensures members == old(members) - {chID}
    {
      members := members - {chID};
    }
  }

  /** The Redis stream. */
  class Stream {
    var log: seq<Event>

    constructor ()
      ensures log == []
    {
      log := [];
    }

    method XAdd(e: Event)
      modifies this
      ensures log == old(log) + [e]
    {
      log := log + [e];
    }
  }

  /** The things service behind its event store middleware. */
  class Service {
    const db: Database
    const things: RedisThingCache
    const channels: RedisChannelCache
    const stream: Stream

    ghost function State(): State
      reads this, db, things, channels, stream
    {
      ThingsModel.State.State(db.Repo(), things.Value(), channels.members, stream.log)
    }

    constructor ()
      ensures fresh(db) && fresh(things) && fresh(channels) && fresh(stream) && db.Valid()
      ensures State() == ThingsModel.State.State(ThingsModel.Repo.Repo(map[], {}, {}),
                                                 ThingCache(map[], map[]), map[], [])
    {
      db := new Database();
      things := new RedisThingCache();
      channels := new RedisChannelCache();
      stream := new Stream();
    }

    /** Fills in ids, owner and missing keys in a loop, saves, then announces every thing. */
    method CreateThings(who: Option<Owner>, keys: seq<Key>, ids: seq<Id>, newKeys: seq<Key>) returns (r: Reply)
      requires db.Valid() && |keys| == |ids| == |newKeys|
      modifies db, stream
      ensures db.Valid() && (State(), r) == Step(old(State()), Call.CreateThings(who, keys, ids, newKeys))
    {
      if who.None? {
        return Failed(UnauthorizedAccess);
      }
      ghost var whole := NewRows(who.value, keys, ids, newKeys);
      var rows: seq<ThingRow> := [];
      var i := 0;
      while i < |keys|
        invariant 0 <= i <= |keys| && rows == whole[..i]
      {
        rows := rows + [ThingRow(Ref(ids[i], who.value), if keys[i] == "" then newKeys[i] else keys[i])];
        i := i + 1;
      }
      assert rows == whole;
      var err := db.SaveThings(rows);
      if err.Some? {
        return Failed(err.value);
      }
      AnnounceThings(rows);
      r := Done;
    }

    method AnnounceThings(rows: seq<ThingRow>)
      modifies stream
      ensures stream.log == old(stream.log) + ThingEvents(rows)
    {
      var i := 0;
      ghost var events := ThingEvents(rows);
      while i < |rows|
        invariant 0 <= i <= |rows|
        invariant stream.log == old(stream.log) + events[..i]
      {
        stream.XAdd(CreateThing(rows[i].ref.id, rows[i].ref.owner));
        i := i + 1;
      }
      assert events[..i] == events;
    }

    method CreateChannels(who: Option<Owner>, ids: seq<Id>) returns (r: Reply)
      modifies db, stream
      ensures db.things == old(db.things) && (State(), r) == Step(old(State()), Call.CreateChannels(who, ids))
    {
      if who.None? {
        return Failed(UnauthorizedAccess);
      }
      ghost var whole := NewChannels(who.value, ids);
      var rows: seq<Ref> := [];
      var i := 0;
      while i < |ids|
        invariant 0 <= i <= |ids| && rows == whole[..i]
      {
        rows := rows + [Ref(ids[i], who.value)];
        i := i + 1;
      }
      assert rows == whole;
      var err := db.SaveChannels(rows);
      if err.Some? {
        return Failed(err.value);
      }
      AnnounceChannels(rows);
      r := Done;
    }

    method AnnounceChannels(rows: seq<Ref>)
      modifies stream
      ensures stream.log == old(stream.log) + ChannelEvents(rows)
    {
      var i := 0;
      ghost var events := ChannelEvents(rows);
      while i < |rows|
        invariant 0 <= i <= |rows|
        invariant stream.log == old(stream.log) + events[..i]
      {
        stream.XAdd(CreateChannel(rows[i].id, rows[i].owner));
        i := i + 1;
      }
      assert events[..i] == events;
    }

    /** No cache and no event: a replaced key may go on being served. */
    method UpdateKey(who: Option<Owner>, id: Id, key: Key) returns (r: Reply)
      requires db.Valid()
      modifies db
      ensures db.Valid() && (State(), r) == Step(old(State()), Call.UpdateKey(who, id, key))
    {
      if who.None? {
        return Failed(UnauthorizedAccess);
      }
      var err := db.UpdateKey(who.value, id, key);
      r := if err.Some? then Failed(err.value) else Done;
    }

    method RemoveThing(who: Option<Owner>, id: Id) returns (r: Reply)
      requires db.Valid()
      modifies db, things, stream
      ensures db.Valid() && (State(), r) == Step(old(State()), DeleteThing(who, id))
    {
      if who.None? {
        return Failed(UnauthorizedAccess);
      }
      things.Remove(id);
      db.RemoveThing(who.value, id);
      stream.XAdd(Event.RemoveThing(id));
      r := Done;
    }

    method RemoveChannel(who: Option<Owner>, id: Id) returns (r: Reply)
      modifies db, channels, stream
      ensures db.things == old(db.things) && (State(), r) == Step(old(State()), DeleteChannel(who, id))
    {
      if who.None? {
        return Failed(UnauthorizedAccess);
      }
      channels.Remove(id);
      db.RemoveChannel(who.value, id);
      stream.XAdd(Event.RemoveChannel(id));
      r := Done;
    }

    method Connect(who: Option<Owner>, chIDs: seq<Id>, thIDs: seq<Id>) returns (r: Reply)
      modifies db, stream
      ensures db.things == old(db.things) && (State(), r) == Step(old(State()), Call.Connect(who, chIDs, thIDs))
    {
      if who.None? {
        return Failed(UnauthorizedAccess);
      }
      var err := db.Connect(who.value, chIDs, thIDs);
      if err.Some? {
        return Failed(err.value);
      }
      AnnounceConnections(who.value, chIDs, thIDs);
      r := Done;
    }

    lemma NextPair(owner: Owner, chID: Id, thIDs: seq<Id>, j: nat, rest: seq<Conn>)
      requires j < |thIDs|
      ensures ConnectEvents(Row(owner, chID, thIDs[j..]) + rest)
           == [ConnectThing(chID, thIDs[j])] + ConnectEvents(Row(owner, chID, thIDs[j + 1..]) + rest)
    {
      var rows := Row(owner, chID, thIDs[j..]) + rest;
      assert thIDs[j..][1..] == thIDs[j + 1..];
      assert rows[1..] == Row(owner, chID, thIDs[j + 1..]) + rest;
    }

    /** The nested loops of the event store: one event per pair, in the order of the repository's loops. */
    method AnnounceConnections(ghost owner: Owner, chIDs: seq<Id>, thIDs: seq<Id>)
      modifies stream
      ensures stream.log == old(stream.log) + ConnectEvents(Product(owner, chIDs, thIDs))
    {
      ghost var whole := old(stream.log) + ConnectEvents(Product(owner, chIDs, thIDs));
      var i := 0;
      while i < |chIDs|
        invariant 0 <= i <= |chIDs|
        invariant stream.log + ConnectEvents(Product(owner, chIDs[i..], thIDs)) == whole
      {
        var j := 0;
        ghost var rest := Product(owner, chIDs[i + 1..], thIDs);
        assert chIDs[i..][1..] == chIDs[i + 1..] && thIDs[0..] == thIDs;
        while j < |thIDs|
          invariant 0 <= j <= |thIDs|
          invariant stream.log + ConnectEvents(Row(owner, chIDs[i], thIDs[j..]) + rest) == whole
        {
          NextPair(owner, chIDs[i], thIDs, j, rest);
          stream.XAdd(ConnectThing(chIDs[i], thIDs[j]));
          j := j + 1;
        }
        assert Row(owner, chIDs[i], thIDs[j..]) + rest == rest;
        i := i + 1;
      }
    }

    method Disconnect(who: Option<Owner>, chID: Id, thID: Id) returns (r: Reply)
      modifies db, channels, stream
      ensures db.things == old(db.things) && (State(), r) == Step(old(State()), Call.Disconnect(who, chID, thID))
    {
      if who.None? {
        return Failed(UnauthorizedAccess);
      }
      channels.Disconnect(chID, thID);
      var err := db.Disconnect(who.value, chID, thID);
      if err.Some? {
        return Failed(err.value);
      }
      stream.XAdd(DisconnectThing(chID, thID));
      r := Done;
    }

    /** The cached answer, if both caches have it. */
    method HasThing(chID: Id, key: Key) returns (id: Option<Id>)
      ensures id == if key in things.ids && things.ids[key] in Members(channels.members, chID)
                    then Some(things.ids[key]) else None
    {
      id := things.ID(key);
      if id.Some? {
        var connected := channels.HasThing(chID, id.value);
        if !connected {
          id := None;
        }
      }
    }

    method CanAccessByKey(chID: Id, key: Key) returns (r: Reply)
      requires db.Valid()
      modifies things, channels
      ensures (State(), r) == CanAccessByKeyCall(old(State()), chID, key)
    {
      var id := HasThing(chID, key);
      if id.Some? {
        return Answer(id.value);
      }
      id := db.HasThing(chID, key);
      if id.None? {
        return Failed(UnauthorizedAccess);
      }
      things.Save(key, id.value);
      channels.Connect(chID, id.value);
      r := Answer(id.value);
    }

    method CanAccessByID(chID: Id, thID: Id) returns (r: Reply)
      modifies channels
      ensures (State(), r) == CanAccessByIDCall(old(State()), chID, thID)
    {
      var connected := channels.HasThing(chID, thID);
      if connected {
        return Done;
      }
      connected := db.HasThingByID(chID, thID);
      if !connected {
        return Failed(UnauthorizedAccess);
      }
      channels.Connect(chID, thID);
      r := Done;
    }

    method Identify(key: Key) returns (r: Reply)
      requires db.Valid()
      modifies things
      ensures (State(), r) == IdentifyCall(old(State()), key)
    {
      var id := things.ID(key);
      if id.Some? {
        return Answer(id.value);
      }
      id := db.RetrieveByKey(key);
      if id.None? {
        return Failed(UnauthorizedAccess);
      }
      things.Save(key, id.value);
      r := Answer(id.value);
    }
  }
}
