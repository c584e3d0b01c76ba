// The bootstrap database and what each repository operation does to it.
module BootstrapModel {
  import opened Common

  type Id = string
  type Owner = string

  datatype Error = NotFound | Conflict | MalformedEntity | UnauthorizedAccess | Things | Database

  datatype State = Inactive | Active

  /** Primary key of configs (the id is the thing's) and, for channels, what connections refer to. */
  datatype Ref = Ref(id: Id, owner: Owner)

  datatype Config = Config(key: string, externalID: string, state: State)

  datatype Conn = Conn(channel: Ref, config: Ref)

  /** The tables of bootstrap/postgres/init.go; channel ids are UNIQUE, so they determine their owner. */
  datatype Db = Db(configs: map<Ref, Config>, channels: map<Id, Owner>, connections: set<Conn>)

  /** The channels a config is connected to. */
  function ChannelsOf(db: Db, cfg: Ref): set<Id> {
    set c | c in db.connections && c.config == cfg :: c.channel.id
  }

  /** INSERT of channels: UNIQUE mainflux_channel. */
  function InsertChannels(db: Db, owner: Owner, ids: seq<Id>): Option<Db> {
    if Distinct(ids) && forall id <- ids :: id !in db.channels
    then Some(db.(channels := map id | id in db.channels.Keys + SetOf(ids) ::
                                if id in db.channels then db.channels[id] else owner))
    else None
  }

  function Rows(cfg: Ref, ids: seq<Id>): set<Conn> {
    set id | id in ids :: Conn(Ref(id, cfg.owner), cfg)
  }

  /** INSERT of connections of one config: primary key, then the two foreign keys. */
  function InsertConnections(db: Db, cfg: Ref, ids: seq<Id>): (Option<Error>, Db) {
    if !Distinct(ids) || Rows(cfg, ids) * db.connections != {} then (Some(Database), db)
    else if exists id <- ids :: !(id in db.channels && db.channels[id] == cfg.owner) then (Some(Database), db)
    else if ids != [] && cfg !in db.configs then (Some(NotFound), db)
    else (None, db.(connections := db.connections + Rows(cfg, ids)))
  }

  /** cleanupQuery: drop the channels that no connection refers to. */
  function Cleanup(db: Db): Db {
    db.(channels := map id | id in db.channels && (exists c <- db.connections :: c.channel.id == id) :: db.channels[id])
  }

  function SaveConfig(db: Db, cfg: Ref, config: Config, channels: seq<Id>, connections: seq<Id>): (Option<Error>, Db) {
    if exists r <- db.configs.Keys ::
         r.id == cfg.id || db.configs[r].key == config.key || db.configs[r].externalID == config.externalID
    then (Some(Conflict), db)
    else
      match InsertChannels(db.(configs := db.configs[cfg := config]), cfg.owner, channels)
      case None => (Some(Conflict), db)
      case Some(tx) =>
        var (err, tx') := InsertConnections(tx, cfg, connections);
        if err.Some? then (Some(Database), db) else (None, tx')
  }

  /** The DELETE compares with one text value that is no channel id, so all rows of the config go; the
      dangling channels are cleaned up only if there were any. An empty list changes no connection. */
  function ReplaceConnections(db: Db, cfg: Ref, connections: seq<Id>): (Option<Error>, Db) {
    if connections == [] then (None, db) else
    var deleted := set c | c in db.connections && c.config == cfg && c.channel.owner == cfg.owner;
    var (err, tx) := InsertConnections(db.(connections := db.connections - deleted), cfg, connections);
    if err.Some? then (err, db)
    else if deleted == {} then (None, tx)
    else (None, Cleanup(tx))
  }

  function UpdateConnections(db: Db, cfg: Ref, channels: seq<Id>, connections: seq<Id>): (Option<Error>, Db) {
    match InsertChannels(db, cfg.owner, channels)
    case None => (Some(Conflict), db)
    case Some(tx) =>
      var (err, tx') := ReplaceConnections(tx, cfg, connections);
      if err.Some? then (err, db) else (None, tx')
  }

  function RemoveConfigs(db: Db, gone: set<Ref>): Db {
    Cleanup(db.(configs := db.configs - gone, connections := set c | c in db.connections && c.config !in gone))
  }

  function RemoveConfig(db: Db, cfg: Ref): Db {
    RemoveConfigs(db, {cfg})
  }

  /** The event handler for a removed thing: whoever owns the config. */
  function RemoveThing(db: Db, id: Id): Db {
    RemoveConfigs(db, set r | r in db.configs && r.id == id)
  }

  function RemoveChannel(db: Db, id: Id): Db {
    Db(db.configs, db.channels - {id},
       if id in db.channels then set c | c in db.connections && c.channel != Ref(id, db.channels[id])
       else db.connections)
  }

  function ChangeState(db: Db, cfg: Ref, state: State): (Option<Error>, Db) {
    if cfg !in db.configs then (Some(NotFound), db)
    else (None, db.(configs := db.configs[cfg := db.configs[cfg].(state := state)]))
  }

  /** The UPDATE's EXISTS does not mention the row that is updated, so all rows are. */
  function DisconnectThing(db: Db, channelID: Id, thingID: Id): Db {
    if exists c <- db.connections :: c.config.id == thingID && c.channel.id == channelID
    then db.(configs := map r | r in db.configs :: db.configs[r].(state := Inactive))
    else db
  }

  /** SELECT ... FROM channels WHERE owner = $1 AND mainflux_channel = ANY ($2). */
  function ListExisting(db: Db, owner: Owner, ids: seq<Id>): set<Id> {
    set id | id in ids && id in db.channels && db.channels[id] == owner
  }

  // ----- The diff of two channel lists --------------------------------------------------------------

  /** Elements to add, in list order: a current element is consumed by its first occurrence. */
  function Added(current: set<Id>, list: seq<Id>): seq<Id>
    decreases |list|
  {
    if list == [] then []
    else if list[0] in current then Added(current - {list[0]}, list[1..])
    else [list[0]] + Added(current, list[1..])
  }

  /** No current element occurs twice in the list. */
  ghost predicate Once(current: set<Id>, list: seq<Id>) {
    forall i, j :: 0 <= i < j < |list| && list[i] in current ==> list[i] != list[j]
  }

  lemma SetOfCons(x: Id, s: seq<Id>)
    ensures SetOf([x] + s) == {x} + SetOf(s)
  {
  }

  lemma {:induction false} AddedSuperset(current: set<Id>, list: seq<Id>)
    ensures SetOf(list) - current <= SetOf(Added(current, list)) <= SetOf(list)
    decreases |list|
  {
    if list != [] {
      var x, tail := list[0], list[1..];
      assert list == [x] + tail;
      SetOfCons(x, tail);
      if x in current {
        AddedSuperset(current - {x}, tail);
      } else {
        AddedSuperset(current, tail);
        SetOfCons(x, Added(current, tail));
      }
    }
  }

  /** updateList adds exactly the elements that are new if and only if no current element occurs twice in
      the new list; a repeated one would be connected again. */
  lemma {:induction false} AddedExact(current: set<Id>, list: seq<Id>)
    ensures SetOf(Added(current, list)) == SetOf(list) - current <==> Once(current, list)
    decreases |list|
  {
    if list != [] {
      var x, tail := list[0], list[1..];
      assert list == [x] + tail;
      SetOfCons(x, tail);
      if x in current {
        AddedExact(current - {x}, tail);
        AddedSuperset(current - {x}, tail);
        if x in tail {
          var j :| 0 <= j < |tail| && tail[j] == x;
          assert list[0] == list[j + 1];
          assert x in SetOf(Added(current, list));
        } else {
          OnceTail(current, list);
          assert SetOf(list) - current == SetOf(tail) - (current - {x});
        }
      } else {
        AddedExact(current, tail);
        SetOfCons(x, Added(current, tail));
        OnceTail(current, list);
        if Once(current, tail) {
          assert SetOf(list) - current == {x} + (SetOf(tail) - current);
        } else {
          AddedSuperset(current, tail);
          var y :| y in SetOf(Added(current, tail)) && y !in SetOf(tail) - current;
          assert y in SetOf(Added(current, list)) && y !in SetOf(list) - current;
        }
      }
    }
  }

  lemma OnceTail(current: set<Id>, list: seq<Id>)
    requires list != [] && (list[0] in current ==> list[0] !in list[1..])
    ensures Once(current, list) <==> Once(current - {list[0]}, list[1..])
    ensures list[0] !in current ==> (Once(current, list) <==> Once(current, list[1..]))
  {
    var x, tail := list[0], list[1..];
    assert forall i :: 0 <= i < |tail| ==> tail[i] == list[i + 1];
    if Once(current - {x}, tail) {
      forall i, j | 0 <= i < j < |list| && list[i] in current ensures list[i] != list[j] {
        if i == 0 {
          assert list[j] == tail[j - 1];
        } else {
          assert tail[i - 1] == list[i] && tail[j - 1] == list[j];
          assert tail[i - 1] in tail;
        }
      }
    }
  }

  /** When no current element repeats, the new ones repeat exactly as they do in the list. */
  lemma {:induction false} AddedDistinct(current: set<Id>, list: seq<Id>)
    requires Once(current, list) && Distinct(Added(current, list))
    ensures Distinct(list)
    decreases |list|
  {
    if list != [] {
      var x, tail := list[0], list[1..];
      if x in current {
        forall j | 0 <= j < |tail| ensures tail[j] != x {
          assert list[j + 1] == tail[j];
        }
        OnceTail(current, list);
        AddedDistinct(current - {x}, tail);
      } else {
        var rest := Added(current, tail);
        AddedSuperset(current, tail);
        forall j | 0 <= j < |rest| ensures rest[j] != x {
          assert Added(current, list)[j + 1] == rest[j] && Added(current, list)[0] == x;
        }
        assert x !in SetOf(rest) && x !in SetOf(tail);
        assert forall i, j :: 0 <= i < j < |rest| ==>
          rest[i] == Added(current, list)[i + 1] && rest[j] == Added(current, list)[j + 1];
        OnceTail(current, list);
        AddedDistinct(current, tail);
      }
      forall i, j | 0 <= i < j < |list| ensures list[i] != list[j] {
        assert list[j] == tail[j - 1];
        if i == 0 {
          assert tail[j - 1] in SetOf(tail);
        } else {
          assert list[i] == tail[i - 1];
        }
      }
    }
  }

  /** The new ones of a list without repetitions do not repeat. */
  lemma {:induction false} AddedKeepsDistinct(current: set<Id>, list: seq<Id>)
    requires Distinct(list)
    ensures Distinct(Added(current, list))
    decreases |list|
  {
    if list != [] {
      var x, tail := list[0], list[1..];
      assert forall i :: 0 <= i < |tail| ==> tail[i] == list[i + 1];
      if x in current {
        AddedKeepsDistinct(current - {x}, tail);
      } else {
        var rest := Added(current, tail);
        AddedKeepsDistinct(current, tail);
        AddedSuperset(current, tail);
        assert x !in SetOf(tail) && x !in SetOf(rest);
        forall i, j | 0 <= i < j < |rest| + 1 ensures ([x] + rest)[i] != ([x] + rest)[j] {
          assert rest[j - 1] in SetOf(rest);
        }
      }
    }
  }
}
