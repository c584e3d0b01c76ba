// The bootstrap service over whole runs: two stores, its own database and the connections kept by the
// things service, driven by calls and by events. A step is a relation, as SDK calls may fail.
module BootstrapRuns {
  import opened Common
  import opened BootstrapModel

  // ----- The database by itself ---------------------------------------------------------------------

  /** Things have one config, and connections refer to a stored config and channel of one owner. */
  ghost predicate Sound(db: Db) {
    && (forall r, q :: r in db.configs && q in db.configs && r.id == q.id ==> r == q)
    && (forall c :: c in db.connections ==> ConnSound(db, c))
  }

  predicate ConnSound(db: Db, c: Conn) {
    && c.config in db.configs && c.channel.owner == c.config.owner
    && c.channel.id in db.channels && db.channels[c.channel.id] == c.channel.owner
  }

  predicate Used(db: Db, id: Id) {
    exists c <- db.connections :: c.channel.id == id
  }

  ghost predicate NoDangling(db: Db) {
    forall id :: id in db.channels ==> Used(db, id)
  }

  lemma UsedGrows(db: Db, db': Db)
    requires db.connections <= db'.connections
    ensures forall id :: Used(db, id) ==> Used(db', id)
  {
  }

  lemma InsertedChannels(db: Db, cfg: Ref, channels: seq<Id>, list: seq<Id>)
    requires Sound(db) && InsertChannels(db, cfg.owner, channels).Some?
    requires InsertConnections(InsertChannels(db, cfg.owner, channels).value, cfg, list).0.None?
    ensures var db' := InsertConnections(InsertChannels(db, cfg.owner, channels).value, cfg, list).1;
            && Sound(db') && db'.configs == db.configs
            && db'.channels.Keys == db.channels.Keys + SetOf(channels)
            && db'.connections == db.connections + Rows(cfg, list)
            && (forall id :: id in SetOf(list) ==> Used(db', id))
            && (forall id :: id in SetOf(channels) ==> (Used(db', id) <==> id in list))
  {
    var tx := InsertChannels(db, cfg.owner, channels).value;
    var db' := InsertConnections(tx, cfg, list).1;
    forall c | c in db'.connections ensures ConnSound(db', c) {
      if c !in db.connections {
        var id :| id in list && c == Conn(Ref(id, cfg.owner), cfg);
      }
    }
    forall id | id in SetOf(list) ensures Used(db', id) {
      assert Conn(Ref(id, cfg.owner), cfg) in Rows(cfg, list);
    }
    forall id | id in SetOf(channels) && Used(db', id) ensures id in list {
      var c :| c in db'.connections && c.channel.id == id;
      assert c !in db.connections;
    }
  }

  /** Save leaves no dangling channel if and only if every channel it inserts is in the connection list,
      as the service makes sure. */
  lemma SaveExact(db: Db, cfg: Ref, config: Config, channels: seq<Id>, list: seq<Id>)
    requires Sound(db) && NoDangling(db) && SaveConfig(db, cfg, config, channels, list).0.None?
    ensures var db' := SaveConfig(db, cfg, config, channels, list).1;
            && Sound(db') && (NoDangling(db') <==> SetOf(channels) <= SetOf(list))
            && db'.configs == db.configs[cfg := config] && db'.connections == db.connections + Rows(cfg, list)
  {
    var db0 := SaveIsInsert(db, cfg, config, channels, list);
    InsertedChannels(db0, cfg, channels, list);
    InsertedUsed(db, SaveConfig(db, cfg, config, channels, list).1, channels, list);
  }

  /** Save is an insertion into the database that has the new config. */
  lemma SaveIsInsert(db: Db, cfg: Ref, config: Config, channels: seq<Id>, list: seq<Id>) returns (db0: Db)
    requires SaveConfig(db, cfg, config, channels, list).0.None?
    ensures db0 == db.(configs := db.configs[cfg := config]) && cfg !in db.configs && (Sound(db) ==> Sound(db0))
    ensures InsertChannels(db0, cfg.owner, channels).Some?
    ensures SaveConfig(db, cfg, config, channels, list)
         == InsertConnections(InsertChannels(db0, cfg.owner, channels).value, cfg, list)
  {
    db0 := db.(configs := db.configs[cfg := config]);
    if Sound(db) {
      WithConfigSound(db, cfg, config);
    }
  }

  lemma WithConfigSound(db: Db, cfg: Ref, config: Config)
    requires Sound(db) && (forall r :: r in db.configs ==> r.id != cfg.id)
    ensures Sound(db.(configs := db.configs[cfg := config]))
  {
    var db0 := db.(configs := db.configs[cfg := config]);
    forall c | c in db0.connections ensures ConnSound(db0, c) {
      assert ConnSound(db, c);
    }
  }

  /** What an insertion into a database without dangling channels leaves dangling. */
  lemma InsertedUsed(db: Db, db': Db, channels: seq<Id>, list: seq<Id>)
    requires NoDangling(db) && db.connections <= db'.connections
    requires db'.channels.Keys == db.channels.Keys + SetOf(channels)
    requires forall id :: id in SetOf(channels) ==> (Used(db', id) <==> id in list)
    ensures NoDangling(db') <==> SetOf(channels) <= SetOf(list)
  {
    UsedGrows(db, db');
    if NoDangling(db') {
      forall id | id in SetOf(channels) ensures id in SetOf(list) {
        assert id in db'.channels;
      }
    }
  }

  lemma CleanupKeeps(db: Db)
    requires Sound(db)
    ensures Sound(Cleanup(db)) && NoDangling(Cleanup(db))
  {
    forall c | c in db.connections ensures ConnSound(Cleanup(db), c) {
      assert ConnSound(db, c);
    }
    forall id | id in Cleanup(db).channels ensures Used(Cleanup(db), id) {
      assert Used(db, id);
    }
  }

  /** The database without the connections of one config. */
  function Bare(db: Db, cfg: Ref): Db {
    db.(connections := set c | c in db.connections && c.config != cfg)
  }

  /** UpdateConnections is an insertion into the bare database, then a cleanup if anything was deleted. */
  lemma ReplaceIsInsert(db: Db, cfg: Ref, channels: seq<Id>, list: seq<Id>) returns (tx: Db)
    requires Sound(db) && list != [] && UpdateConnections(db, cfg, channels, list).0.None?
    ensures InsertChannels(Bare(db, cfg), cfg.owner, channels).Some?
    ensures (None, tx) == InsertConnections(InsertChannels(Bare(db, cfg), cfg.owner, channels).value, cfg, list)
    ensures UpdateConnections(db, cfg, channels, list).1 == if ChannelsOf(db, cfg) == {} then tx else Cleanup(tx)
  {
    var deleted := set c | c in db.connections && c.config == cfg && c.channel.owner == cfg.owner;
    var kept := Bare(db, cfg).connections;
    assert db.connections - deleted == kept by {
      assert forall c :: c in db.connections ==> ConnSound(db, c);
    }
    var db1 := InsertChannels(db, cfg.owner, channels).value;
    assert db1.(connections := kept) == InsertChannels(Bare(db, cfg), cfg.owner, channels).value;
    tx := InsertConnections(db1.(connections := kept), cfg, list).1;
    assert deleted == {} <==> ChannelsOf(db, cfg) == {} by {
      if ChannelsOf(db, cfg) != {} {
        var id :| id in ChannelsOf(db, cfg);
        var c :| c in db.connections && c.config == cfg && c.channel.id == id;
        assert ConnSound(db, c) && c in deleted;
      }
      if deleted != {} {
        var c :| c in deleted;
        assert c.channel.id in ChannelsOf(db, cfg);
      }
    }
  }

  lemma ReplaceKeeps(db: Db, cfg: Ref, channels: seq<Id>, list: seq<Id>)
    requires Sound(db) && list != [] && UpdateConnections(db, cfg, channels, list).0.None?
    ensures var db' := UpdateConnections(db, cfg, channels, list).1;
            && Sound(db') && db'.connections == Bare(db, cfg).connections + Rows(cfg, list)
            && (ChannelsOf(db, cfg) != {} ==> NoDangling(db'))
            && (ChannelsOf(db, cfg) == {} && NoDangling(db) ==> (NoDangling(db') <==> SetOf(channels) <= SetOf(list)))
  {
    var bare := Bare(db, cfg);
    var tx := ReplaceIsInsert(db, cfg, channels, list);
    assert forall c :: c in bare.connections ==> ConnSound(db, c);
    assert Sound(bare);
    InsertedChannels(bare, cfg, channels, list);
    CleanupKeeps(tx);
    if ChannelsOf(db, cfg) == {} && NoDangling(db) {
      NothingDeleted(db, cfg, channels, list, tx);
    }
  }

  lemma NothingDeleted(db: Db, cfg: Ref, channels: seq<Id>, list: seq<Id>, tx: Db)
    requires ChannelsOf(db, cfg) == {} && NoDangling(db)
    requires tx.connections == Bare(db, cfg).connections + Rows(cfg, list)
    requires tx.channels.Keys == db.channels.Keys + SetOf(channels)
    requires forall id :: id in SetOf(channels) ==> (Used(tx, id) <==> id in list)
    ensures NoDangling(tx) <==> SetOf(channels) <= SetOf(list)
  {
    forall c | c in db.connections ensures c in tx.connections {
      assert c.config == cfg ==> c.channel.id in ChannelsOf(db, cfg);
    }
    InsertedUsed(db, tx, channels, list);
  }

  /** UpdateConnections leaves the config with exactly the new list, every other config as it was, and no
      dangling channel, also where the cleanup is skipped: when nothing was deleted, the channels that it
      inserted must all be in the list. */
  lemma UpdateExact(db: Db, cfg: Ref, channels: seq<Id>, list: seq<Id>)
    requires Sound(db) && NoDangling(db) && UpdateConnections(db, cfg, channels, list).0.None?
    ensures var db' := UpdateConnections(db, cfg, channels, list).1;
            && Sound(db')
            && (NoDangling(db') <==> SetOf(channels) <= SetOf(list) || (list != [] && ChannelsOf(db, cfg) != {}))
            && ChannelsOf(db', cfg) == (if list == [] then ChannelsOf(db, cfg) else SetOf(list))
            && (forall r :: r != cfg ==> ChannelsOf(db', r) == ChannelsOf(db, r))
  {
    var db' := UpdateConnections(db, cfg, channels, list).1;
    if list == [] {
      EmptyListExact(db, cfg, channels);
    } else {
      ReplaceKeeps(db, cfg, channels, list);
      ReplacedChannels(db, db', cfg, list);
    }
  }

  lemma ReplacedChannels(db: Db, db': Db, cfg: Ref, list: seq<Id>)
    requires db'.connections == Bare(db, cfg).connections + Rows(cfg, list)
    ensures ChannelsOf(db', cfg) == SetOf(list)
    ensures forall r :: r != cfg ==> ChannelsOf(db', r) == ChannelsOf(db, r)
  {
    forall id | id in SetOf(list) ensures id in ChannelsOf(db', cfg) {
      assert Conn(Ref(id, cfg.owner), cfg) in db'.connections;
    }
    forall r | r != cfg ensures ChannelsOf(db', r) == ChannelsOf(db, r) {
      assert forall c: Conn :: c.config == r ==> (c in db'.connections <==> c in db.connections);
    }
  }

  lemma EmptyListExact(db: Db, cfg: Ref, channels: seq<Id>)
    requires Sound(db) && NoDangling(db) && UpdateConnections(db, cfg, channels, []).0.None?
    ensures var db' := UpdateConnections(db, cfg, channels, []).1;
            && Sound(db') && db'.connections == db.connections
            && (NoDangling(db') <==> SetOf(channels) == {})
  {
    var db' := UpdateConnections(db, cfg, channels, []).1;
    forall c | c in db'.connections ensures ConnSound(db', c) {
      assert ConnSound(db, c);
    }
    UsedGrows(db, db');
    forall id | Used(db', id) ensures id in db.channels {
      var c :| c in db'.connections && c.channel.id == id;
      assert ConnSound(db, c);
    }
    assert forall id :: id in SetOf(channels) ==> id in db'.channels && id !in db.channels;
  }

  lemma RemoveConfigsKeeps(db: Db, gone: set<Ref>)
    requires Sound(db)
    ensures Sound(RemoveConfigs(db, gone)) && NoDangling(RemoveConfigs(db, gone))
  {
    var bare := db.(configs := db.configs - gone, connections := set c | c in db.connections && c.config !in gone);
    forall c | c in bare.connections ensures ConnSound(bare, c) {
      assert ConnSound(db, c);
    }
    CleanupKeeps(bare);
  }

  /** No cleanup runs here, and none is needed: only connections of the removed channel go. */
  lemma RemoveChannelKeeps(db: Db, id: Id)
    requires Sound(db) && NoDangling(db)
    ensures Sound(RemoveChannel(db, id)) && NoDangling(RemoveChannel(db, id))
  {
    var db' := RemoveChannel(db, id);
    forall c | c in db'.connections ensures ConnSound(db', c) {
      assert ConnSound(db, c);
    }
    forall x | x in db'.channels ensures Used(db', x) {
      assert Used(db, x);
      var c :| c in db.connections && c.channel.id == x;
      assert c in db'.connections;
    }
  }

  /** A disconnect event deactivates the config of its thing and no other if and only if there was no such
      connection or every other config was inactive already. */
  lemma DisconnectThingExact(db: Db, channelID: Id, thingID: Id)
    ensures (forall r :: r in db.configs && r.id != thingID ==>
               DisconnectThing(db, channelID, thingID).configs[r] == db.configs[r])
       <==> (!(exists c <- db.connections :: c.config.id == thingID && c.channel.id == channelID)
             || forall r :: r in db.configs && r.id != thingID ==> db.configs[r].state == Inactive)
  {
    var db' := DisconnectThing(db, channelID, thingID);
    if exists c <- db.connections :: c.config.id == thingID && c.channel.id == channelID {
      if forall r :: r in db.configs && r.id != thingID ==> db'.configs[r] == db.configs[r] {
        forall r | r in db.configs && r.id != thingID ensures db.configs[r].state == Inactive {
          assert db'.configs[r] == db.configs[r].(state := Inactive);
        }
      }
    }
  }

  /** Lists that the connections table takes: no repetitions, and no channel stored for another owner. */
  ghost predicate Storable(db: Db, cfg: Ref, list: seq<Id>) {
    Distinct(list) && forall id :: id in list && id in db.channels ==> db.channels[id] == cfg.owner
  }

  /** With the channels that are not stored yet, UpdateConnections of a stored config succeeds if and only
      if the new list can be stored. */
  lemma StoresExact(db: Db, cfg: Ref, channels: seq<Id>, list: seq<Id>)
    requires cfg in db.configs && list != []
    requires Distinct(channels) && SetOf(channels) == SetOf(list) - ListExisting(db, cfg.owner, list)
    ensures UpdateConnections(db, cfg, channels, list).0.None? <==> Storable(db, cfg, list)
  {
    var tx := InsertChannels(db, cfg.owner, channels);
    assert tx.Some? <==> forall id :: id in list && id in db.channels ==> db.channels[id] == cfg.owner by {
      assert forall id :: id in channels <==> id in SetOf(channels);
      assert forall id :: id in list <==> id in SetOf(list);
    }
    if tx.Some? {
      var deleted := set c | c in db.connections && c.config == cfg && c.channel.owner == cfg.owner;
      var bare := tx.value.(connections := db.connections - deleted);
      assert Rows(cfg, list) * bare.connections == {};
      forall id | id in list ensures id in bare.channels && bare.channels[id] == cfg.owner {
        assert id in SetOf(list);
        assert id in SetOf(channels) || id in ListExisting(db, cfg.owner, list);
      }
    }
  }

  // ----- The service --------------------------------------------------------------------------------

  /** The bootstrap database and the (thing, channel) connections of the things service. */
  datatype World = World(db: Db, links: set<(Id, Id)>)

  /** The owner of each channel in the things service; an id is never handed out twice. */
  type Owners = Id -> Owner

  const START: World := World(Db(map[], map[], {}), {})

  datatype Call =
    | Add(cfg: Ref, config: Config, list: seq<Id>)
    | Update(cfg: Ref, list: seq<Id>)
    | Remove(cfg: Ref)
    | Change(cfg: Ref, state: State)
    | ThingRemoved(id: Id)
    | ChannelRemoved(id: Id)
    | ThingDisconnected(channelID: Id, thingID: Id)

  function LinksOf(thing: Id, channels: set<Id>): set<(Id, Id)> {
    set ch | ch in channels :: (thing, ch)
  }

  /** The channels that connectionChannels fetches: those of the list not stored for the owner yet. The
      things service shows an owner's own channels only. */
  ghost predicate Fetched(own: Owners, db: Db, owner: Owner, list: seq<Id>, channels: seq<Id>) {
    && Distinct(channels)
    && SetOf(channels) == SetOf(list) - ListExisting(db, owner, list)
    && forall id :: id in channels ==> own(id) == owner
  }

  /** The errors that stand for a failed SDK call; the repository's are others. */
  predicate SdkFailed(err: Option<Error>) {
    err == Some(Things) || err == Some(MalformedEntity)
  }

  ghost predicate AddStep(own: Owners, w: World, c: Call, err: Option<Error>, w': World)
    requires c.Add?
  {
    if err.Some? then w' == w
    else
      && w'.links == w.links
      && exists channels :: && Fetched(own, w.db, c.cfg.owner, c.list, channels)
                            && (None, w'.db) == SaveConfig(w.db, c.cfg, c.config.(state := Inactive), channels, c.list)
  }

  predicate IsActive(db: Db, cfg: Ref) {
    cfg in db.configs && db.configs[cfg].state == Active
  }

  /** The channels to disconnect from and to connect to: only an Active config is connected at all. */
  function ToCut(db: Db, cfg: Ref, list: seq<Id>): set<Id> {
    if IsActive(db, cfg) then ChannelsOf(db, cfg) - SetOf(list) else {}
  }

  function ToMake(db: Db, cfg: Ref, list: seq<Id>): seq<Id> {
    if IsActive(db, cfg) then Added(ChannelsOf(db, cfg), list) else []
  }

  /** Every one of the links was missing, and is made. */
  predicate Makes(links: set<(Id, Id)>, thing: Id, channels: seq<Id>, links': set<(Id, Id)>) {
    && Distinct(channels)
    && LinksOf(thing, SetOf(channels)) !! links
    && links' == links + LinksOf(thing, SetOf(channels))
  }

  /** One more link is made. */
  lemma MakesMore(links: set<(Id, Id)>, thing: Id, channels: seq<Id>, ch: Id, now: set<(Id, Id)>)
    requires Makes(links, thing, channels, now) && (thing, ch) !in now
    ensures Makes(links, thing, channels + [ch], now + {(thing, ch)})
  {
    assert SetOf(channels + [ch]) == SetOf(channels) + {ch};
    assert LinksOf(thing, SetOf(channels) + {ch}) == LinksOf(thing, SetOf(channels)) + {(thing, ch)};
    assert ch in SetOf(channels) ==> (thing, ch) in LinksOf(thing, SetOf(channels));
    forall i, j | 0 <= i < j < |channels + [ch]| ensures (channels + [ch])[i] != (channels + [ch])[j] {
      assert channels[i] in SetOf(channels);
    }
  }

  /** When an SDK call fails the repository is not called, but some links may be cut and some made. When
      none fails all are, and the rest is up to the repository. */
  ghost predicate UpdateStep(own: Owners, w: World, c: Call, err: Option<Error>, w': World)
    requires c.Update?
  {
    var cut, make := LinksOf(c.cfg.id, ToCut(w.db, c.cfg, c.list)), ToMake(w.db, c.cfg, c.list);
    if c.cfg !in w.db.configs then err == Some(NotFound) && w' == w
    else if SdkFailed(err) then
      w'.db == w.db && w.links - cut <= w'.links <= w.links + LinksOf(c.cfg.id, SetOf(make))
    else
      && Makes(w.links - cut, c.cfg.id, make, w'.links)
      && exists channels :: && Fetched(own, w.db, c.cfg.owner, c.list, channels)
                            && (err, w'.db) == UpdateConnections(w.db, c.cfg, channels, c.list)
  }

  ghost predicate ChangeStep(w: World, c: Call, err: Option<Error>, w': World)
    requires c.Change?
  {
    var all := LinksOf(c.cfg.id, ChannelsOf(w.db, c.cfg));
    if c.cfg !in w.db.configs then err == Some(NotFound) && w' == w
    else if w.db.configs[c.cfg].state == c.state then err == None && w' == w
    else if SdkFailed(err) then
      w'.db == w.db &&
      if c.state == Active then w.links <= w'.links <= w.links + all else w.links - all <= w'.links <= w.links
    else
      && (err, w'.db) == ChangeState(w.db, c.cfg, c.state)
      && if c.state == Active then all !! w.links && w'.links == w.links + all else w'.links == w.links - all
  }

  ghost predicate Step(own: Owners, w: World, c: Call, err: Option<Error>, w': World) {
    match c
    case Add(_, _, _) => AddStep(own, w, c, err, w')
    case Update(_, _) => UpdateStep(own, w, c, err, w')
    case Remove(cfg) => err == None && w' == w.(db := RemoveConfig(w.db, cfg))
    case Change(_, _) => ChangeStep(w, c, err, w')
    case ThingRemoved(id) => err == None && w' == World(RemoveThing(w.db, id), set l | l in w.links && l.0 != id)
    case ChannelRemoved(id) => err == None && w' == World(RemoveChannel(w.db, id), set l | l in w.links && l.1 != id)
    case ThingDisconnected(ch, th) => err == None && w' == World(DisconnectThing(w.db, ch, th), w.links - {(th, ch)})
  }

  /** Channels are stored for their owners. */
  ghost predicate Owned(own: Owners, db: Db) {
    forall id :: id in db.channels ==> db.channels[id] == own(id)
  }

  ghost predicate Inv(own: Owners, w: World) {
    Sound(w.db) && NoDangling(w.db) && Owned(own, w.db)
  }

  lemma AddInv(own: Owners, w: World, c: Call, err: Option<Error>, w': World)
    requires Inv(own, w) && c.Add? && Step(own, w, c, err, w')
    ensures Inv(own, w')
  {
    if err.None? {
      var channels :| Fetched(own, w.db, c.cfg.owner, c.list, channels)
        && (None, w'.db) == SaveConfig(w.db, c.cfg, c.config.(state := Inactive), channels, c.list);
      SaveExact(w.db, c.cfg, c.config.(state := Inactive), channels, c.list);
      SaveOwned(own, w.db, c.cfg, c.config.(state := Inactive), channels, c.list);
    }
  }

  lemma SaveOwned(own: Owners, db: Db, cfg: Ref, config: Config, channels: seq<Id>, list: seq<Id>)
    requires Owned(own, db) && (forall id :: id in channels ==> own(id) == cfg.owner)
    requires SaveConfig(db, cfg, config, channels, list).0.None?
    ensures Owned(own, SaveConfig(db, cfg, config, channels, list).1)
  {
    var db0 := SaveIsInsert(db, cfg, config, channels, list);
    InsertOwned(own, db0, cfg.owner, channels);
  }

  lemma InsertOwned(own: Owners, db: Db, owner: Owner, channels: seq<Id>)
    requires Owned(own, db) && (forall id :: id in channels ==> own(id) == owner)
    requires InsertChannels(db, owner, channels).Some?
    ensures Owned(own, InsertChannels(db, owner, channels).value)
  {
  }

  lemma UpdateInv(own: Owners, w: World, c: Call, err: Option<Error>, w': World)
    requires Inv(own, w) && c.Update? && Step(own, w, c, err, w')
    ensures Inv(own, w')
  {
    if err.None? {
      var channels :| Fetched(own, w.db, c.cfg.owner, c.list, channels)
        && (err, w'.db) == UpdateConnections(w.db, c.cfg, channels, c.list);
      UpdateExact(w.db, c.cfg, channels, c.list);
      UpdateOwned(own, w.db, c.cfg, channels, c.list);
    }
  }

  lemma UpdateOwned(own: Owners, db: Db, cfg: Ref, channels: seq<Id>, list: seq<Id>)
    requires Owned(own, db) && (forall id :: id in channels ==> own(id) == cfg.owner)
    ensures Owned(own, UpdateConnections(db, cfg, channels, list).1)
  {
    var tx := InsertChannels(db, cfg.owner, channels);
    if tx.Some? {
      InsertOwned(own, db, cfg.owner, channels);
      assert ReplaceConnections(tx.value, cfg, list).1.channels.Keys <= tx.value.channels.Keys;
    }
  }

  /** Every call and every event, successful or not, leaves every channel row referenced and every
      connection referring to stored rows. */
  lemma StepInv(own: Owners, w: World, c: Call, err: Option<Error>, w': World)
    requires Inv(own, w) && Step(own, w, c, err, w')
    ensures Inv(own, w')
  {
    match c
    case Add(_, _, _) => AddInv(own, w, c, err, w');
    case Update(_, _) => UpdateInv(own, w, c, err, w');
    case Remove(cfg) => RemoveConfigsKeeps(w.db, {cfg});
    case Change(cfg, state) => ConfigsKeep(w.db, w'.db);
    case ThingRemoved(id) => RemoveConfigsKeeps(w.db, set r | r in w.db.configs && r.id == id);
    case ChannelRemoved(id) => RemoveChannelKeeps(w.db, id);
    case ThingDisconnected(ch, th) => ConfigsKeep(w.db, w'.db);
  }

  lemma ConfigsKeep(db: Db, db': Db)
    requires Sound(db) && NoDangling(db)
    requires db'.connections == db.connections && db'.channels == db.channels && db'.configs.Keys == db.configs.Keys
    ensures Sound(db') && NoDangling(db')
  {
    forall c | c in db'.connections ensures ConnSound(db', c) {
      assert ConnSound(db, c);
    }
    forall id | id in db'.channels ensures Used(db', id) {
      assert Used(db, id);
    }
  }

  // ----- Active configs are connected ---------------------------------------------------------------

  ghost predicate ConfigLinked(w: World, cfg: Ref) {
    IsActive(w.db, cfg) ==> LinksOf(cfg.id, ChannelsOf(w.db, cfg)) <= w.links
  }

  /** The thing of every Active config is connected to all channels the config lists. */
  ghost predicate Linked(w: World) {
    forall cfg :: cfg in w.db.configs ==> ConfigLinked(w, cfg)
  }

  lemma LinksOfMember(thing: Id, channels: set<Id>, ch: Id)
    ensures (thing, ch) in LinksOf(thing, channels) <==> ch in channels
  {
  }

  /** An update with the empty list of an Active config that has channels. */
  ghost predicate Empties(db: Db, c: Call) {
    c.Update? && c.list == [] && IsActive(db, c.cfg) && ChannelsOf(db, c.cfg) != {}
  }

  /** When the thing is connected to the current channels, connecting it to the new ones can only succeed
      if the list has no repetitions: a channel connected already would be refused. */
  lemma MakesDistinct(links: set<(Id, Id)>, thing: Id, current: set<Id>, list: seq<Id>, links': set<(Id, Id)>)
    requires LinksOf(thing, current) <= links
    requires Makes(links - LinksOf(thing, current - SetOf(list)), thing, Added(current, list), links')
    ensures Distinct(list)
  {
    var add := Added(current, list);
    AddedSuperset(current, list);
    forall x | x in SetOf(add) ensures x !in current {
      LinksOfMember(thing, SetOf(add), x);
      LinksOfMember(thing, current, x);
      LinksOfMember(thing, current - SetOf(list), x);
    }
    AddedExact(current, list);
    AddedDistinct(current, list);
  }

  /** Once the channels are fetched and the SDK calls of an Active config have succeeded, the repository
      takes the new list. */
  lemma UpdateStores(own: Owners, w: World, c: Call, err: Option<Error>, w': World)
    requires Inv(own, w) && c.Update? && Step(own, w, c, err, w') && !SdkFailed(err)
    requires IsActive(w.db, c.cfg) && ConfigLinked(w, c.cfg) && c.list != []
    ensures err == None
  {
    var channels :| Fetched(own, w.db, c.cfg.owner, c.list, channels)
      && (err, w'.db) == UpdateConnections(w.db, c.cfg, channels, c.list);
    MakesDistinct(w.links, c.cfg.id, ChannelsOf(w.db, c.cfg), c.list, w'.links);
    forall id | id in c.list && id in w.db.channels ensures w.db.channels[id] == c.cfg.owner {
      assert id in SetOf(c.list);
      assert id in SetOf(channels) || id in ListExisting(w.db, c.cfg.owner, c.list);
    }
    StoresExact(w.db, c.cfg, channels, c.list);
  }

  /** What a successful update does to the channels that configs list. */
  lemma UpdatedChannels(own: Owners, w: World, c: Call, w': World)
    requires Inv(own, w) && c.Update? && Step(own, w, c, None, w')
    ensures w'.db.configs == w.db.configs
    ensures ChannelsOf(w'.db, c.cfg) == if c.list == [] then ChannelsOf(w.db, c.cfg) else SetOf(c.list)
    ensures forall r :: r != c.cfg ==> ChannelsOf(w'.db, r) == ChannelsOf(w.db, r)
  {
    var channels :| Fetched(own, w.db, c.cfg.owner, c.list, channels)
      && (None, w'.db) == UpdateConnections(w.db, c.cfg, channels, c.list);
    UpdateExact(w.db, c.cfg, channels, c.list);
    UpdateConfigs(w.db, c.cfg, channels, c.list);
  }

  lemma UpdateConfigs(db: Db, cfg: Ref, channels: seq<Id>, list: seq<Id>)
    requires UpdateConnections(db, cfg, channels, list).0.None?
    ensures UpdateConnections(db, cfg, channels, list).1.configs == db.configs
  {
  }

  /** The links after all SDK calls of an update hold the listed channels, and no others of the config. */
  lemma UpdatedLinks(links: set<(Id, Id)>, thing: Id, current: set<Id>, list: seq<Id>, links': set<(Id, Id)>)
    requires LinksOf(thing, current) <= links
    requires Makes(links - LinksOf(thing, current - SetOf(list)), thing, Added(current, list), links')
    ensures LinksOf(thing, SetOf(list)) <= links'
    ensures list == [] ==> (LinksOf(thing, current) <= links' <==> current == {})
  {
    AddedSuperset(current, list);
    forall l | l in LinksOf(thing, SetOf(list)) ensures l in links' {
      LinksOfMember(thing, current, l.1);
      LinksOfMember(thing, current - SetOf(list), l.1);
      LinksOfMember(thing, SetOf(Added(current, list)), l.1);
    }
    if list == [] && current != {} {
      var ch :| ch in current;
      LinksOfMember(thing, current, ch);
      LinksOfMember(thing, current - SetOf(list), ch);
    }
  }

  /** Links of other things do not matter to a config. */
  lemma OtherLinked(w: World, w': World, r: Ref, thing: Id)
    requires ConfigLinked(w, r) && r.id != thing && ChannelsOf(w'.db, r) == ChannelsOf(w.db, r)
    requires IsActive(w'.db, r) ==> IsActive(w.db, r)
    requires forall l :: l in w.links && l.0 != thing ==> l in w'.links
    ensures ConfigLinked(w', r)
  {
  }

  /** An update whose SDK calls all succeed, whatever the repository answers, leaves every Active config's
      thing connected to all its listed channels if and only if it does not empty an Active config: then
      the thing is disconnected from everything while the repository goes on listing it. */
  lemma UpdateLinkedExact(own: Owners, w: World, c: Call, err: Option<Error>, w': World)
    requires Inv(own, w) && Linked(w) && c.Update? && Step(own, w, c, err, w') && !SdkFailed(err)
    ensures Linked(w') <==> !Empties(w.db, c)
    ensures IsActive(w.db, c.cfg) ==> err == None
  {
    var cfg, list := c.cfg, c.list;
    if cfg in w.db.configs {
      if IsActive(w.db, cfg) {
        assert ConfigLinked(w, cfg);
        if list == [] {
          EmptyStores(own, w, c, err, w');
        } else {
          UpdateStores(own, w, c, err, w');
        }
        UpdatedLinks(w.links, cfg.id, ChannelsOf(w.db, cfg), list, w'.links);
      }
      if err == None {
        UpdatedChannels(own, w, c, w');
      }
      forall r | r in w'.db.configs && r != cfg ensures ConfigLinked(w', r) {
        assert ConfigLinked(w, r) && r.id != cfg.id;
        OtherLinked(w, w', r, cfg.id);
      }
      assert Linked(w') <==> ConfigLinked(w', cfg);
    }
  }

  lemma EmptyStores(own: Owners, w: World, c: Call, err: Option<Error>, w': World)
    requires Inv(own, w) && c.Update? && c.cfg in w.db.configs && c.list == []
    requires Step(own, w, c, err, w') && !SdkFailed(err)
    ensures err == None
  {
    var channels :| Fetched(own, w.db, c.cfg.owner, c.list, channels)
      && (err, w'.db) == UpdateConnections(w.db, c.cfg, channels, c.list);
    FirstIn(channels);
  }

  /** No SDK call of an update or a deactivation fails part-way: the links are as they were if one fails. */
  ghost predicate Undisturbed(w: World, c: Call, err: Option<Error>, w': World) {
    (c.Update? || (c.Change? && c.state == Inactive)) && SdkFailed(err) ==> w'.links == w.links
  }

  lemma AddLinked(own: Owners, w: World, c: Call, err: Option<Error>, w': World)
    requires Inv(own, w) && Linked(w) && c.Add? && Step(own, w, c, err, w')
    ensures Linked(w')
  {
    if err.None? {
      var config := c.config.(state := Inactive);
      var channels :| Fetched(own, w.db, c.cfg.owner, c.list, channels)
        && (None, w'.db) == SaveConfig(w.db, c.cfg, config, channels, c.list);
      SaveExact(w.db, c.cfg, config, channels, c.list);
      SaveLinked(w, w', c.cfg, config, c.list);
    }
  }

  lemma SaveLinked(w: World, w': World, cfg: Ref, config: Config, list: seq<Id>)
    requires Linked(w) && w'.links == w.links && config.state == Inactive
    requires w'.db.configs == w.db.configs[cfg := config]
    requires w'.db.connections == w.db.connections + Rows(cfg, list)
    ensures Linked(w')
  {
    forall r | r in w'.db.configs ensures ConfigLinked(w', r) {
      if r != cfg {
        assert ConfigLinked(w, r);
        assert forall x: Conn :: x.config == r ==> (x in w'.db.connections <==> x in w.db.connections);
        assert ChannelsOf(w'.db, r) == ChannelsOf(w.db, r);
      }
    }
  }

  /** Connections and links that only shrink together keep every Active config connected. */
  lemma ShrinkLinked(w: World, w': World)
    requires Linked(w)
    requires forall r :: r in w'.db.configs ==>
               r in w.db.configs && (w'.db.configs[r].state == Active ==> w.db.configs[r].state == Active)
    requires forall c :: c in w'.db.connections && IsActive(w'.db, c.config) ==>
               && c in w.db.connections
               && ((c.config.id, c.channel.id) in w.links ==> (c.config.id, c.channel.id) in w'.links)
    ensures Linked(w')
  {
    forall r | r in w'.db.configs ensures ConfigLinked(w', r) {
      assert ConfigLinked(w, r);
      if w'.db.configs[r].state == Active {
        forall l | l in LinksOf(r.id, ChannelsOf(w'.db, r)) ensures l in w'.links {
          var c :| c in w'.db.connections && c.config == r && c.channel.id == l.1;
          assert c.channel.id in ChannelsOf(w.db, r);
          LinksOfMember(r.id, ChannelsOf(w.db, r), l.1);
        }
      }
    }
  }

  lemma ChangeLinked(own: Owners, w: World, c: Call, err: Option<Error>, w': World)
    requires Inv(own, w) && Linked(w) && c.Change? && Step(own, w, c, err, w') && Undisturbed(w, c, err, w')
    ensures Linked(w')
  {
    forall r | r in w'.db.configs ensures ConfigLinked(w', r) {
      assert ConfigLinked(w, r);
      assert ChannelsOf(w'.db, r) == ChannelsOf(w.db, r);
      if r != c.cfg && c.cfg in w.db.configs {
        assert r.id != c.cfg.id;
      }
    }
  }

  /** The same for every call and event: when no SDK call fails part-way, Active configs stay connected
      unless all SDK calls of an update succeed and it empties one. */
  lemma StepLinkedExact(own: Owners, w: World, c: Call, err: Option<Error>, w': World)
    requires Inv(own, w) && Linked(w) && Step(own, w, c, err, w') && Undisturbed(w, c, err, w')
    ensures Linked(w') <==> !Empties(w.db, c) || SdkFailed(err)
  {
    match c
    case Add(_, _, _) => AddLinked(own, w, c, err, w');
    case Update(_, _) =>
      if SdkFailed(err) {
        forall r | r in w'.db.configs ensures ConfigLinked(w', r) {
          assert ConfigLinked(w, r);
        }
      } else {
        UpdateLinkedExact(own, w, c, err, w');
      }
    case Change(_, _) => ChangeLinked(own, w, c, err, w');
    case Remove(cfg) => ShrinkLinked(w, w');
    case ThingRemoved(id) => ShrinkLinked(w, w');
    case ChannelRemoved(id) =>
      forall x | x in w'.db.connections ensures x.channel.id != id {
        assert ConnSound(w.db, x);
      }
      ShrinkLinked(w, w');
    case ThingDisconnected(ch, th) =>
      if !(exists x <- w.db.connections :: x.config.id == th && x.channel.id == ch) {
        ShrinkLinked(w, w');
      }
  }

  // ----- A healthy things service --------------------------------------------------------------------

  /** Connecting channel by channel comes to a link that exists already. */
  ghost predicate Halts(links: set<(Id, Id)>, thing: Id, channels: seq<Id>, links': set<(Id, Id)>) {
    exists i :: 0 <= i < |channels| && HaltsAt(links, thing, channels, links', i)
  }

  predicate HaltsAt(links: set<(Id, Id)>, thing: Id, channels: seq<Id>, links': set<(Id, Id)>, i: nat)
    requires i < |channels|
  {
    Makes(links, thing, channels[..i], links') && (thing, channels[i]) in links'
  }

  /** Disconnecting works, connecting fails only for a link that exists already, and a channel that is not
      the caller's is found out before any link is changed. */
  ghost predicate Healthy(w: World, c: Call, err: Option<Error>, w': World) {
    && (err == Some(MalformedEntity) ==> w'.links == w.links)
    && (c.Change? && c.state == Inactive ==> !SdkFailed(err))
    && (c.Update? && err == Some(Things) ==>
          var cut := LinksOf(c.cfg.id, ToCut(w.db, c.cfg, c.list));
          Halts(w.links - cut, c.cfg.id, ToMake(w.db, c.cfg, c.list), w'.links))
  }

  /** A list that a connected thing can be connected to: no repetitions, and no new channel to which the
      thing is connected without the config listing it. */
  predicate Fresh(w: World, cfg: Ref, list: seq<Id>) {
    Distinct(list) && LinksOf(cfg.id, SetOf(list) - ChannelsOf(w.db, cfg)) !! w.links
  }

  /** An update that takes a channel from an Active config, with an empty list or one that is not fresh. */
  ghost predicate Strands(w: World, c: Call) {
    && c.Update? && IsActive(w.db, c.cfg)
    && ChannelsOf(w.db, c.cfg) - SetOf(c.list) != {}
    && (c.list == [] || !Fresh(w, c.cfg, c.list))
  }

  /** Connecting to the new channels can succeed exactly for a fresh list. */
  lemma MakesExact(links: set<(Id, Id)>, thing: Id, current: set<Id>, list: seq<Id>)
    requires LinksOf(thing, current) <= links
    ensures var add := Added(current, list);
            (Distinct(add) && LinksOf(thing, SetOf(add)) !! links - LinksOf(thing, current - SetOf(list)))
            <==> (Distinct(list) && LinksOf(thing, SetOf(list) - current) !! links)
  {
    var add, cut := Added(current, list), LinksOf(thing, current - SetOf(list));
    if Distinct(add) && LinksOf(thing, SetOf(add)) !! links - cut {
      MakesDistinct(links, thing, current, list, links - cut + LinksOf(thing, SetOf(add)));
    }
    if Distinct(list) {
      AddedKeepsDistinct(current, list);
      AddedExact(current, list);
      NewLinks(links, thing, current, list);
    }
  }

  lemma NewLinks(links: set<(Id, Id)>, thing: Id, current: set<Id>, list: seq<Id>)
    ensures LinksOf(thing, SetOf(list) - current) !! links - LinksOf(thing, current - SetOf(list))
       <==> LinksOf(thing, SetOf(list) - current) !! links
  {
    var added, cut := LinksOf(thing, SetOf(list) - current), LinksOf(thing, current - SetOf(list));
    forall l | l in added ensures l !in cut {
      LinksOfMember(thing, SetOf(list) - current, l.1);
      LinksOfMember(thing, current - SetOf(list), l.1);
    }
  }

  lemma HaltsOnlyIf(links: set<(Id, Id)>, thing: Id, channels: seq<Id>, links': set<(Id, Id)>)
    requires Halts(links, thing, channels, links')
    ensures !(Distinct(channels) && LinksOf(thing, SetOf(channels)) !! links)
    ensures links <= links' <= links + LinksOf(thing, SetOf(channels))
  {
    var i :| 0 <= i < |channels| && HaltsAt(links, thing, channels, links', i);
    var before := channels[..i];
    assert forall x :: x in SetOf(before) ==> x in SetOf(channels);
    LinksOfMember(thing, SetOf(channels), channels[i]);
    LinksOfMember(thing, SetOf(before), channels[i]);
    if (thing, channels[i]) !in links {
      var j :| 0 <= j < i && before[j] == channels[i];
      assert channels[j] == channels[i];
    }
  }

  /** Whatever else happens, a list that is not fresh makes an SDK call fail. */
  lemma StaleListRefused(own: Owners, w: World, c: Call, err: Option<Error>, w': World)
    requires c.Update? && Step(own, w, c, err, w') && IsActive(w.db, c.cfg) && ConfigLinked(w, c.cfg)
    requires !Fresh(w, c.cfg, c.list)
    ensures SdkFailed(err)
  {
    MakesExact(w.links, c.cfg.id, ChannelsOf(w.db, c.cfg), c.list);
  }

  /** The links of a config after connecting has come to a halt: those of the channels it keeps. */
  lemma HaltedLinks(links: set<(Id, Id)>, thing: Id, current: set<Id>, list: seq<Id>, links': set<(Id, Id)>)
    requires LinksOf(thing, current) <= links
    requires Halts(links - LinksOf(thing, current - SetOf(list)), thing, Added(current, list), links')
    ensures LinksOf(thing, current) <= links' <==> current - SetOf(list) == {}
  {
    var cut, add := LinksOf(thing, current - SetOf(list)), Added(current, list);
    HaltsOnlyIf(links - cut, thing, add, links');
    AddedSuperset(current, list);
    forall ch | ch in current ensures (thing, ch) in links' <==> ch in SetOf(list) {
      LinksOfMember(thing, current, ch);
      LinksOfMember(thing, current - SetOf(list), ch);
      LinksOfMember(thing, SetOf(add), ch);
    }
    if current - SetOf(list) != {} {
      var ch :| ch in current - SetOf(list);
      LinksOfMember(thing, current, ch);
    }
  }

  lemma HaltedExact(own: Owners, w: World, c: Call, w': World)
    requires Inv(own, w) && Linked(w) && c.Update? && Step(own, w, c, Some(Things), w')
    requires Healthy(w, c, Some(Things), w')
    ensures Linked(w') <==> !Strands(w, c)
  {
    var cfg, current := c.cfg, ChannelsOf(w.db, c.cfg);
    if IsActive(w.db, cfg) {
      assert ConfigLinked(w, cfg);
      HaltedLinks(w.links, cfg.id, current, c.list, w'.links);
      MakesExact(w.links, cfg.id, current, c.list);
      HaltsOnlyIf(w.links - LinksOf(cfg.id, current - SetOf(c.list)), cfg.id, Added(current, c.list), w'.links);
      forall r | r in w'.db.configs && r != cfg ensures ConfigLinked(w', r) {
        assert ConfigLinked(w, r) && r.id != cfg.id;
        OtherLinked(w, w', r, cfg.id);
      }
      assert Linked(w') <==> ConfigLinked(w', cfg);
    }
  }

  /** On a healthy things service an update leaves every Active config's thing connected to all its listed
      channels if and only if it strands none; the call can be told beforehand. An update that is refused
      for a channel that is not the caller's changes nothing. */
  lemma HealthyUpdateExact(own: Owners, w: World, c: Call, err: Option<Error>, w': World)
    requires Inv(own, w) && Linked(w) && c.Update? && Step(own, w, c, err, w') && Healthy(w, c, err, w')
    ensures Linked(w') <==> !Strands(w, c) || err == Some(MalformedEntity)
  {
    if err == Some(Things) {
      HaltedExact(own, w, c, w');
    } else if err == Some(MalformedEntity) {
      forall r | r in w'.db.configs ensures ConfigLinked(w', r) {
        assert ConfigLinked(w, r);
      }
    } else {
      UpdateLinkedExact(own, w, c, err, w');
      if IsActive(w.db, c.cfg) {
        assert ConfigLinked(w, c.cfg);
        MakesExact(w.links, c.cfg.id, ChannelsOf(w.db, c.cfg), c.list);
        assert ChannelsOf(w.db, c.cfg) - SetOf<Id>([]) == ChannelsOf(w.db, c.cfg);
      }
    }
  }

  /** The same for every call and event. */
  lemma HealthyStepExact(own: Owners, w: World, c: Call, err: Option<Error>, w': World)
    requires Inv(own, w) && Linked(w) && Step(own, w, c, err, w') && Healthy(w, c, err, w')
    ensures Linked(w') <==> !Strands(w, c) || err == Some(MalformedEntity)
  {
    if c.Update? {
      HealthyUpdateExact(own, w, c, err, w');
    } else {
      StepLinkedExact(own, w, c, err, w');
    }
  }

  // ----- Every run ----------------------------------------------------------------------------------

  /** A run: each world follows from the one before by a call with some outcome. */
  ghost predicate Run(own: Owners, ws: seq<World>, cs: seq<Call>, errs: seq<Option<Error>>) {
    && |ws| == |cs| + 1 == |errs| + 1 && ws[0] == START
    && forall i :: 0 <= i < |cs| ==> Step(own, ws[i], cs[i], errs[i], ws[i + 1])
  }

  lemma {:induction false} RunInv(own: Owners, ws: seq<World>, cs: seq<Call>, errs: seq<Option<Error>>, n: nat)
    requires Run(own, ws, cs, errs) && n < |ws|
    ensures Inv(own, ws[n])
  {
    if n > 0 {
      RunInv(own, ws, cs, errs, n - 1);
      StepInv(own, ws[n - 1], cs[n - 1], errs[n - 1], ws[n]);
    }
  }

  /** Over every run in which no SDK call fails part-way and no update empties an Active config, the thing
      of every Active config is connected to all the channels the config lists, after each call. */
  lemma {:induction false} RunLinked(own: Owners, ws: seq<World>, cs: seq<Call>, errs: seq<Option<Error>>, n: nat)
    requires Run(own, ws, cs, errs) && n < |ws|
    requires forall i :: 0 <= i < |cs| ==> Undisturbed(ws[i], cs[i], errs[i], ws[i + 1]) && !Empties(ws[i].db, cs[i])
    ensures Linked(ws[n])
  {
    if n > 0 {
      RunLinked(own, ws, cs, errs, n - 1);
      RunInv(own, ws, cs, errs, n - 1);
      StepLinkedExact(own, ws[n - 1], cs[n - 1], errs[n - 1], ws[n]);
    }
  }

  /** Over every run on a healthy things service in which no update strands an Active config, the thing of
      every Active config is connected to all the channels the config lists, after each call. */
  lemma {:induction false} HealthyRunLinked(own: Owners, ws: seq<World>, cs: seq<Call>, errs: seq<Option<Error>>,
                                            n: nat)
    requires Run(own, ws, cs, errs) && n < |ws|
    requires forall i :: 0 <= i < |cs| ==> Healthy(ws[i], cs[i], errs[i], ws[i + 1]) && !Strands(ws[i], cs[i])
    ensures Linked(ws[n])
  {
    if n > 0 {
      HealthyRunLinked(own, ws, cs, errs, n - 1);
      RunInv(own, ws, cs, errs, n - 1);
      HealthyStepExact(own, ws[n - 1], cs[n - 1], errs[n - 1], ws[n]);
    }
  }
}
