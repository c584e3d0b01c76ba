// The bootstrap service as it runs: loops that diff two channel lists and drive the things service
// through an SDK whose calls may fail at any point.
module BootstrapService {
  import opened Common
  import opened BootstrapModel
  import opened BootstrapCalls
  import opened BootstrapRuns

  /** The things service as seen through the SDK, with a record of the calls and their answers. Which calls fail
      is up to the environment. */
  class Sdk {
    const owners: Owners
    var links: set<(Id, Id)>
    ghost var calls: seq<SdkCall>

    constructor (owners: Owners)
      ensures this.owners == owners && links == {} && calls == []
    {
      this.owners, links, calls := owners, {}, [];
    }

    /** A connection that exists is refused as a conflict, which is not told from other failures. */
    method ConnectThing(thing: Id, channel: Id) returns (r: SdkResult)
      modifies this
      ensures r.Ok? ==> (thing, channel) !in old(links)
      ensures links == if r.Ok? then old(links) + {(thing, channel)} else old(links)
      ensures calls == old(calls) + [SdkCall(Make(thing, channel), r)]
    {
      if (thing, channel) in links {
        r := Failed;
      } else if * {
        links := links + {(thing, channel)};
        r := Ok;
      } else if * {
        r := Missing;
      } else {
        r := Failed;
      }
      calls := calls + [SdkCall(Make(thing, channel), r)];
    }

    /** Not found means that there is no such connection. */
    method DisconnectThing(thing: Id, channel: Id) returns (r: SdkResult)
      modifies this
      ensures links == if r.Ok? then old(links) - {(thing, channel)} else old(links)
      ensures r.Missing? ==> (thing, channel) !in links
      ensures calls == old(calls) + [SdkCall(Cut(thing, channel), r)]
    {
      if * {
        r := Failed;
      } else if (thing, channel) in links {
        links := links - {(thing, channel)};
        r := Ok;
      } else {
        r := Missing;
      }
      calls := calls + [SdkCall(Cut(thing, channel), r)];
    }

    /** Fetches the channel with the given id, if it is the caller's. */
    method Channel(id: Id, owner: Owner) returns (r: SdkResult)
      modifies this`calls
      ensures r.Ok? ==> owners(id) == owner
      ensures calls == old(calls) + [SdkCall(Fetch(id, owner), r)]
    {
      if owners(id) != owner {
        r := Missing;
      } else if * {
        r := Ok;
      } else {
        r := Failed;
      }
      calls := calls + [SdkCall(Fetch(id, owner), r)];
    }
  }

  class ConfigRepository {
    var configs: map<Ref, Config>
    var channels: map<Id, Owner>
    var connections: set<Conn>

    ghost function Db(): Db
      reads this
    {
      BootstrapModel.Db.Db(configs, channels, connections)
    }

    method Save(cfg: Ref, config: Config, newChannels: seq<Id>, list: seq<Id>) returns (err: Option<Error>)
      modifies this
      ensures (err, Db()) == SaveConfig(old(Db()), cfg, config, newChannels, list)
    {
      if exists r <- configs.Keys ::
           r.id == cfg.id || configs[r].key == config.key || configs[r].externalID == config.externalID {
        return Some(Conflict);
      }
      var withConfig := BootstrapModel.Db.Db(configs[cfg := config], channels, connections);
      var tx := InsertChannels(withConfig, cfg.owner, newChannels);
      if tx.None? {
        return Some(Conflict);
      }
      var e, done := InsertRows(tx.value, cfg, list);
      if e.Some? {
        return Some(Database);
      }
      configs, channels, connections := done.configs, done.channels, done.connections;
      err := None;
    }

    /** The state of a config and the channels it is connected to, in whatever order the query yields. */
    method RetrieveByID(cfg: Ref) returns (state: Option<State>, list: seq<Id>)
      ensures state == if cfg in configs then Some(configs[cfg].state) else None
      ensures state.Some? ==> SetOf(list) == ChannelsOf(Db(), cfg) && Distinct(list)
    {
      list := [];
      if cfg !in configs {
        return None, [];
      }
      state := Some(configs[cfg].state);
      list := AnyOrder(set c | c in connections && c.config == cfg :: c.channel.id);
    }

    method ListExisting(owner: Owner, ids: seq<Id>) returns (existing: seq<Id>)
      ensures SetOf(existing) == BootstrapModel.ListExisting(Db(), owner, ids)
    {
      existing := AnyOrder(set id | id in ids && id in channels && channels[id] == owner);
    }

    method UpdateConnections(cfg: Ref, newChannels: seq<Id>, list: seq<Id>) returns (err: Option<Error>)
      modifies this
      ensures (err, Db()) == BootstrapModel.UpdateConnections(old(Db()), cfg, newChannels, list)
    {
      var tx := InsertChannels(BootstrapModel.Db.Db(configs, channels, connections), cfg.owner, newChannels);
      if tx.None? {
        return Some(Conflict);
      }
      var db := tx.value;
      if list != [] {
        var deleted := set c | c in db.connections && c.config == cfg && c.channel.owner == cfg.owner;
        err, db := InsertRows(db.(connections := db.connections - deleted), cfg, list);
        if err.Some? {
          return;
        }
        if deleted != {} {
          db := Cleanup(db);
        }
      }
      configs, channels, connections := db.configs, db.channels, db.connections;
      err := None;
    }

    method RemoveConfig(cfg: Ref)
      modifies this
      ensures Db() == BootstrapModel.RemoveConfig(old(Db()), cfg)
    {
      Delete({cfg});
    }

    method RemoveThing(id: Id)
      modifies this
      ensures Db() == BootstrapModel.RemoveThing(old(Db()), id)
    {
      Delete(set r | r in configs && r.id == id);
    }

    /** DELETE with its cascade, then the cleanup query. */
    method Delete(gone: set<Ref>)
      modifies this
      ensures Db() == RemoveConfigs(old(Db()), gone)
    {
      configs := configs - gone;
      connections := set c | c in connections && c.config !in gone;
      channels := Cleanup(BootstrapModel.Db.Db(configs, channels, connections)).channels;
    }

    method RemoveChannel(id: Id)
      modifies this
      ensures Db() == BootstrapModel.RemoveChannel(old(Db()), id)
    {
      if id in channels {
        var ch := Ref(id, channels[id]);
        connections := set c | c in connections && c.channel != ch;
      }
      channels := channels - {id};
    }

    method ChangeState(cfg: Ref, state: State) returns (err: Option<Error>)
      modifies this
      ensures (err, Db()) == BootstrapModel.ChangeState(old(Db()), cfg, state)
    {
      if cfg !in configs {
        return Some(NotFound);
      }
      configs := configs[cfg := configs[cfg].(state := state)];
      err := None;
    }

    method DisconnectThing(channelID: Id, thingID: Id)
      modifies this
      ensures Db() == BootstrapModel.DisconnectThing(old(Db()), channelID, thingID)
    {
      if exists c <- connections :: c.config.id == thingID && c.channel.id == channelID {
        configs := map r | r in configs :: configs[r].(state := Inactive);
      }
    }
  }

  /** A query or a Go map may yield a set in any order. */
  method AnyOrder(s: set<Id>) returns (list: seq<Id>)
    ensures SetOf(list) == s && Distinct(list)
  {
    list := [];
    var rest := s;
    while rest != {}
      invariant rest <= s && SetOf(list) == s - rest && Distinct(list)
      decreases |rest|
    {
      var x :| x in rest;
      assert x !in SetOf(list);
      assert SetOf(list + [x]) == SetOf(list) + {x};
      list, rest := list + [x], rest - {x};
    }
  }

  /** insertConnections: builds the rows in a loop and inserts them with one statement. */
  method InsertRows(db: Db, cfg: Ref, list: seq<Id>) returns (err: Option<Error>, db': Db)
    ensures (err, db') == InsertConnections(db, cfg, list)
  {
    var conns: set<Conn> := {};
    var i := 0;
    while i < |list|
      invariant 0 <= i <= |list| && conns == Rows(cfg, list[..i])
    {
      assert SetOf(list[..i + 1]) == SetOf(list[..i]) + {list[i]};
      conns := conns + {Conn(Ref(list[i], cfg.owner), cfg)};
      i := i + 1;
    }
    assert list[..i] == list;
    if !Distinct(list) || conns * db.connections != {} {
      return Some(Database), db;
    }
    if exists id <- list :: !(id in db.channels && db.channels[id] == cfg.owner) {
      return Some(Database), db;
    }
    if list != [] && cfg !in db.configs {
      return Some(NotFound), db;
    }
    err, db' := None, db.(connections := db.connections + conns);
  }

  class Service {
    const configs: ConfigRepository
    const sdk: Sdk

    ghost function World(): World
      reads this, configs, sdk
    {
      BootstrapRuns.World.World(configs.Db(), sdk.links)
    }

    constructor (configs: ConfigRepository, sdk: Sdk)
      ensures this.configs == configs && this.sdk == sdk
    {
      this.configs, this.sdk := configs, sdk;
    }

    /** The two halves of the diff; what is removed comes out of a map, in any order. */
    method UpdateList(current: seq<Id>, connections: seq<Id>) returns (add: seq<Id>, remove: seq<Id>)
      ensures add == Added(SetOf(current), connections)
      ensures SetOf(remove) == SetOf(current) - SetOf(connections) && Distinct(remove)
    {
      var disconnect: set<Id> := {};
      var i := 0;
      while i < |current|
        invariant 0 <= i <= |current| && disconnect == SetOf(current[..i])
      {
        disconnect := disconnect + {current[i]};
        i := i + 1;
      }
      assert current[..i] == current;
      add := [];
      i := 0;
      while i < |connections|
        invariant 0 <= i <= |connections|
        invariant disconnect == SetOf(current) - SetOf(connections[..i])
        invariant add + Added(disconnect, connections[i..]) == Added(SetOf(current), connections)
      {
        var c := connections[i];
        assert SetOf(connections[..i + 1]) == SetOf(connections[..i]) + {c};
        assert connections[i..][1..] == connections[i + 1..];
        if c in disconnect {
          disconnect := disconnect - {c};
        } else {
          add := add + [c];
        }
        i := i + 1;
      }
      assert connections[..i] == connections;
      remove := AnyOrder(disconnect);
    }

    /** Fetches the listed channels that the repository does not have yet. */
    method ConnectionChannels(channels: seq<Id>, existing: seq<Id>, owner: Owner)
      returns (list: Option<seq<Id>>, ghost fetch: seq<Id>, ghost calls: seq<SdkCall>)
      modifies sdk`calls
      ensures Distinct(fetch) && SetOf(fetch) == SetOf(channels) - SetOf(existing)
      ensures sdk.calls == old(sdk.calls) + calls
      ensures Ran(sdk.owners, old(sdk.links), FetchAll(owner, fetch), calls, sdk.links)
      ensures list == if AllGood(calls) then Some(fetch) else None
    {
      var add: set<Id> := {};
      var i := 0;
      while i < |channels|
        invariant 0 <= i <= |channels| && add == SetOf(channels[..i])
      {
        add := add + {channels[i]};
        i := i + 1;
      }
      assert channels[..i] == channels;
      i := 0;
      while i < |existing|
        invariant 0 <= i <= |existing| && add == SetOf(channels) - SetOf(existing[..i])
      {
        assert SetOf(existing[..i + 1]) == SetOf(existing[..i]) + {existing[i]};
        add := add - {existing[i]};
        i := i + 1;
      }
      assert existing[..i] == existing;
      var order := AnyOrder(add);
      fetch, calls := order, [];
      i := 0;
      while i < |order|
        invariant 0 <= i <= |order| && sdk.links == old(sdk.links)
        invariant sdk.calls == old(sdk.calls) + calls
        invariant Begun(sdk.owners, old(sdk.links), FetchAll(owner, order), calls, sdk.links, i)
      {
        var r := sdk.Channel(order[i], owner);
        ghost var x := SdkCall(Fetch(order[i], owner), r);
        BegunNext(sdk.owners, sdk.links, FetchAll(owner, order), calls, sdk.links, i, x);
        Associate(old(sdk.calls), calls, [x]);
        calls := calls + [x];
        if !r.Ok? {
          return None, fetch, calls;
        }
        i := i + 1;
      }
      list := Some(order);
    }

    /** Disconnects channel by channel; one that is not connected counts as done. */
    method DisconnectAll(thing: Id, channels: seq<Id>) returns (ok: bool, ghost calls: seq<SdkCall>)
      modifies sdk
      ensures sdk.calls == old(sdk.calls) + calls
      ensures Ran(sdk.owners, old(sdk.links), CutAll(thing, channels), calls, sdk.links)
      ensures (ok <==> AllGood(calls))
    {
      calls := [];
      var i := 0;
      while i < |channels|
        invariant 0 <= i <= |channels|
        invariant sdk.calls == old(sdk.calls) + calls
        invariant Begun(sdk.owners, old(sdk.links), CutAll(thing, channels), calls, sdk.links, i)
      {
        ghost var now := sdk.links;
        var r := sdk.DisconnectThing(thing, channels[i]);
        ghost var x := SdkCall(Cut(thing, channels[i]), r);
        BegunNext(sdk.owners, old(sdk.links), CutAll(thing, channels), calls, now, i, x);
        Associate(old(sdk.calls), calls, [x]);
        calls := calls + [x];
        if r.Failed? {
          return false, calls;
        }
        i := i + 1;
      }
      ok := true;
    }

    /** Connects channel by channel; one that is connected already is an error. */
    method ConnectAll(thing: Id, channels: seq<Id>) returns (r: SdkResult, ghost calls: seq<SdkCall>)
      modifies sdk
      ensures sdk.calls == old(sdk.calls) + calls
      ensures Ran(sdk.owners, old(sdk.links), MakeAll(thing, channels), calls, sdk.links)
      ensures (r.Ok? <==> AllGood(calls))
      ensures !r.Ok? ==> calls[|calls| - 1].r == r
    {
      calls := [];
      var i := 0;
      while i < |channels|
        invariant 0 <= i <= |channels|
        invariant sdk.calls == old(sdk.calls) + calls
        invariant Begun(sdk.owners, old(sdk.links), MakeAll(thing, channels), calls, sdk.links, i)
      {
        ghost var now := sdk.links;
        r := sdk.ConnectThing(thing, channels[i]);
        ghost var x := SdkCall(Make(thing, channels[i]), r);
        BegunNext(sdk.owners, old(sdk.links), MakeAll(thing, channels), calls, now, i, x);
        Associate(old(sdk.calls), calls, [x]);
        calls := calls + [x];
        if !r.Ok? {
          return;
        }
        i := i + 1;
      }
      r := Ok;
    }

    /** A config for a thing the SDK has provided, with its id and key. */
    method Add(cfg: Ref, config: Config, toConnect: seq<Id>) returns (err: Option<Error>, ghost calls: seq<SdkCall>)
      modifies configs, sdk`calls
      ensures sdk.calls == old(sdk.calls) + calls
      ensures Called(sdk.owners, old(World()), Call.Add(cfg, config, toConnect), calls, err, World())
    {
      var existing := configs.ListExisting(cfg.owner, toConnect);
      var channels;
      ghost var fetch;
      channels, fetch, calls := ConnectionChannels(toConnect, existing, cfg.owner);
      ghost var w := old(World());
      if channels.None? {
        assert AddRan(sdk.owners, w, cfg, config, toConnect, fetch, calls, Some(MalformedEntity), World());
        return Some(MalformedEntity), calls;
      }
      err := configs.Save(cfg, config.(state := Inactive), channels.value, toConnect);
      assert AddRan(sdk.owners, w, cfg, config, toConnect, fetch, calls, err, World());
    }

    /** What to connect to and to disconnect from: only an Active config is connected at all. */
    method Diff(cfg: Ref, state: State, current: seq<Id>, connections: seq<Id>)
      returns (connect: seq<Id>, disconnect: seq<Id>)
      requires cfg in configs.configs && state == configs.configs[cfg].state
      requires SetOf(current) == ChannelsOf(configs.Db(), cfg)
      ensures connect == ToMake(configs.Db(), cfg, connections)
      ensures Distinct(disconnect) && SetOf(disconnect) == ToCut(configs.Db(), cfg, connections)
    {
      var add, remove := UpdateList(current, connections);
      connect, disconnect := [], [];
      if state == Active {
        connect, disconnect := add, remove;
      }
    }

    /** The two loops of an update over the SDK. */
    method Relink(thing: Id, disconnect: seq<Id>, connect: seq<Id>)
      returns (err: Option<Error>, ghost calls: seq<SdkCall>)
      modifies sdk
      ensures sdk.calls == old(sdk.calls) + calls
      ensures Ran(sdk.owners, old(sdk.links), CutAll(thing, disconnect) + MakeAll(thing, connect), calls, sdk.links)
      ensures err == Blamed(calls) && (err == None <==> AllGood(calls))
    {
      ghost var links, cutAll, makeAll := sdk.links, CutAll(thing, disconnect), MakeAll(thing, connect);
      var ok;
      ghost var makes;
      ok, calls := DisconnectAll(thing, disconnect);
      if !ok {
        RanFailed(sdk.owners, links, cutAll, makeAll, calls, sdk.links);
        return Some(Things), calls;
      }
      ghost var mid, cuts := sdk.links, calls;
      var r;
      r, makes := ConnectAll(thing, connect);
      Associate(old(sdk.calls), cuts, makes);
      calls := cuts + makes;
      if !r.Ok? {
        MakeFailed(sdk.owners, links, cutAll, thing, connect, cuts, makes, mid, sdk.links);
        return if r.Missing? then Some(MalformedEntity) else Some(Things), calls;
      }
      RanBoth(sdk.owners, links, cutAll, makeAll, cuts, makes, mid, sdk.links);
      GoodBoth(cuts, makes);
      err := None;
    }

    method UpdateConnections(cfg: Ref, connections: seq<Id>) returns (err: Option<Error>, ghost calls: seq<SdkCall>)
      modifies configs, sdk
      ensures sdk.calls == old(sdk.calls) + calls
      ensures Called(sdk.owners, old(World()), Update(cfg, connections), calls, err, World())
    {
      ghost var w := World();
      calls := [];
      var state, current := configs.RetrieveByID(cfg);
      if state.None? {
        return Some(NotFound), calls;
      }
      var connect, disconnect := Diff(cfg, state.value, current, connections);
      var existing := configs.ListExisting(cfg.owner, connections);
      var channels;
      ghost var fetch, more;
      channels, fetch, calls := ConnectionChannels(connections, existing, cfg.owner);
      if channels.None? {
        FetchFailed(sdk.owners, w, cfg, connections, fetch, disconnect, calls, World());
        return Some(MalformedEntity), calls;
      }
      FetchesKeep(w.links, calls);
      err, more := Relink(cfg.id, disconnect, connect);
      if err == None {
        err := configs.UpdateConnections(cfg, channels.value, connections);
      }
      Relinked(sdk.owners, w, cfg, connections, fetch, disconnect, calls, more, err, World());
      Associate(old(sdk.calls), calls, more);
      calls := calls + more;
    }

    method ChangeState(cfg: Ref, state: State) returns (err: Option<Error>, ghost calls: seq<SdkCall>)
      modifies configs, sdk
      ensures sdk.calls == old(sdk.calls) + calls
      ensures Called(sdk.owners, old(World()), Change(cfg, state), calls, err, World())
    {
      ghost var w := World();
      calls := [];
      var was, current := configs.RetrieveByID(cfg);
      if was.None? {
        return Some(NotFound), calls;
      }
      if was.value == state {
        return None, calls;
      }
      match state {
        case Active =>
          var r;
          r, calls := ConnectAll(cfg.id, current);
          if !r.Ok? {
            err := Some(Things);
            assert ChangeRan(sdk.owners, w, cfg, state, current, calls, err, World());
            return;
          }
        case Inactive =>
          var ok;
          ok, calls := DisconnectAll(cfg.id, current);
          if !ok {
            err := Some(Things);
            assert ChangeRan(sdk.owners, w, cfg, state, current, calls, err, World());
            return;
          }
      }
      err := configs.ChangeState(cfg, state);
      assert ChangeRan(sdk.owners, w, cfg, state, current, calls, err, World());
    }
  }
}
