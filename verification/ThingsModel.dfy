// The state behind the things service: the Postgres tables, the two Redis caches and the event stream,
// and what each service call does to them.
module ThingsModel {
  import opened Common

  type Id = string
  type Owner = string
  type Key = string

  datatype Error = NotFound | Conflict | UnauthorizedAccess

  /** Primary key of the things and of the channels table. */
  datatype Ref = Ref(id: Id, owner: Owner)

  /** A row of the connections table; it is its own primary key. */
  datatype Conn = Conn(channel: Ref, thing: Ref)

  /** The tables of things/postgres/init.go; a thing row maps to its key. */
  datatype Repo = Repo(things: map<Ref, Key>, channels: set<Ref>, connections: set<Conn>)

  datatype ThingCache = ThingCache(ids: map<Key, Id>, keys: map<Id, Key>)

  type ChannelCache = map<Id, set<Id>>

  datatype Event =
    | CreateThing(id: Id, owner: Owner)
    | RemoveThing(id: Id)
    | CreateChannel(id: Id, owner: Owner)
    | RemoveChannel(id: Id)
    | ConnectThing(chanID: Id, thingID: Id)
    | DisconnectThing(chanID: Id, thingID: Id)

  datatype State = State(repo: Repo, things: ThingCache, channels: ChannelCache, log: seq<Event>)

  // ----- Postgres -----------------------------------------------------------------------------------

  datatype ThingRow = ThingRow(ref: Ref, key: Key)

  /** Inserting rows one by one into the things table: PRIMARY KEY (id, owner) and UNIQUE key. */
  function InsertThings(things: map<Ref, Key>, rows: seq<ThingRow>): Option<map<Ref, Key>>
    decreases |rows|
  {
    if rows == [] then Some(things)
    else if rows[0].ref in things || rows[0].key in things.Values then None
    else InsertThings(things[rows[0].ref := rows[0].key], rows[1..])
  }

  function InsertChannels(channels: set<Ref>, rows: seq<Ref>): Option<set<Ref>>
    decreases |rows|
  {
    if rows == [] then Some(channels)
    else if rows[0] in channels then None
    else InsertChannels(channels + {rows[0]}, rows[1..])
  }

  /** Inserting connections one by one: two foreign keys and the primary key. */
  function InsertConnections(repo: Repo, conns: set<Conn>, rows: seq<Conn>): (Option<Error>, set<Conn>)
    decreases |rows|
  {
    if rows == [] then (None, conns)
    else if rows[0] in conns then (Some(Conflict), conns)
    else if rows[0].channel !in repo.channels || rows[0].thing !in repo.things then (Some(NotFound), conns)
    else InsertConnections(repo, conns + {rows[0]}, rows[1..])
  }

  /** The rows of one channel with every thing of a list. */
  function Row(owner: Owner, chID: Id, thIDs: seq<Id>): seq<Conn> {
    if thIDs == [] then [] else [Conn(Ref(chID, owner), Ref(thIDs[0], owner))] + Row(owner, chID, thIDs[1..])
  }

  /** The product of two id lists in the order of the nested loops. */
  function Product(owner: Owner, chIDs: seq<Id>, thIDs: seq<Id>): seq<Conn> {
    if chIDs == [] then [] else Row(owner, chIDs[0], thIDs) + Product(owner, chIDs[1..], thIDs)
  }

  function ConnectRepo(repo: Repo, owner: Owner, chIDs: seq<Id>, thIDs: seq<Id>): (Option<Error>, Repo) {
    var (err, conns) := InsertConnections(repo, repo.connections, Product(owner, chIDs, thIDs));
    if err.Some? then (err, repo) else (None, repo.(connections := conns))
  }

  function DisconnectRepo(repo: Repo, owner: Owner, chID: Id, thID: Id): (Option<Error>, Repo) {
    var c := Conn(Ref(chID, owner), Ref(thID, owner));
    if c in repo.connections then (None, repo.(connections := repo.connections - {c})) else (Some(NotFound), repo)
  }

  /** DELETE with ON DELETE CASCADE on the connections. */
  function RemoveThingRepo(repo: Repo, owner: Owner, id: Id): Repo {
    var t := Ref(id, owner);
    Repo(repo.things - {t}, repo.channels,
         if t in repo.things then set c | c in repo.connections && c.thing != t else repo.connections)
  }

  function RemoveChannelRepo(repo: Repo, owner: Owner, id: Id): Repo {
    var ch := Ref(id, owner);
    Repo(repo.things, repo.channels - {ch},
         if ch in repo.channels then set c | c in repo.connections && c.channel != ch else repo.connections)
  }

  function UpdateKeyRepo(repo: Repo, owner: Owner, id: Id, key: Key): (Option<Error>, Repo) {
    var t := Ref(id, owner);
    if t !in repo.things then (Some(NotFound), repo)
    else if exists u | u in repo.things :: u != t && repo.things[u] == key then (Some(Conflict), repo)
    else (None, repo.(things := repo.things[t := key]))
  }

  /** SELECT id FROM things WHERE key = $1. */
  ghost function RetrieveByKey(repo: Repo, key: Key): (r: Option<Id>)
    ensures r.None? <==> key !in repo.things.Values
    ensures r.Some? ==> exists t :: t in repo.things && repo.things[t] == key && t.id == r.value
  {
    if key in repo.things.Values then
      var t :| t in repo.things && repo.things[t] == key;
      Some(t.id)
    else None
  }

  /** SELECT EXISTS ... FROM connections WHERE channel_id = $1 AND thing_id = $2. */
  predicate Connected(repo: Repo, chID: Id, thID: Id) {
    exists c | c in repo.connections :: c.channel.id == chID && c.thing.id == thID
  }

  ghost function HasThing(repo: Repo, chID: Id, key: Key): Option<Id> {
    match RetrieveByKey(repo, key)
    case None => None
    case Some(id) => if Connected(repo, chID, id) then Some(id) else None
  }

  // ----- Redis --------------------------------------------------------------------------------------

  function CacheSave(tc: ThingCache, key: Key, id: Id): ThingCache {
    ThingCache(tc.ids[key := id], tc.keys[id := key])
  }

  function CacheRemove(tc: ThingCache, id: Id): ThingCache {
    if id in tc.keys then ThingCache(tc.ids - {tc.keys[id]}, tc.keys - {id}) else tc
  }

  function Members(cc: ChannelCache, chID: Id): set<Id> {
    if chID in cc then cc[chID] else {}
  }

  function CacheConnect(cc: ChannelCache, chID: Id, thID: Id): ChannelCache {
    cc[chID := Members(cc, chID) + {thID}]
  }

  function CacheDisconnect(cc: ChannelCache, chID: Id, thID: Id): ChannelCache {
    if chID in cc then cc[chID := cc[chID] - {thID}] else cc
  }

  // ----- Service calls ------------------------------------------------------------------------------

  /** A call: `who` is the user the token identifies, if any; `ids` come from the identity provider. */
  datatype Call =
    | CreateThings(who: Option<Owner>, keys: seq<Key>, ids: seq<Id>, newKeys: seq<Key>)
    | UpdateKey(who: Option<Owner>, id: Id, key: Key)
    | DeleteThing(who: Option<Owner>, id: Id)
    | CreateChannels(who: Option<Owner>, ids: seq<Id>)
    | DeleteChannel(who: Option<Owner>, id: Id)
    | Connect(who: Option<Owner>, chIDs: seq<Id>, thIDs: seq<Id>)
    | Disconnect(who: Option<Owner>, chanID: Id, thingID: Id)
    | CanAccessByKey(chanID: Id, key: Key)
    | CanAccessByID(chanID: Id, thingID: Id)
    | Identify(key: Key)

  datatype Reply = Done | Answer(id: Id) | Failed(err: Error)

  /** The rows that CreateThings saves: a fresh id each, and a fresh key where none is given. */
  function NewRows(owner: Owner, keys: seq<Key>, ids: seq<Id>, newKeys: seq<Key>): (rows: seq<ThingRow>)
    requires |keys| == |ids| == |newKeys|
    ensures |rows| == |keys|
  {
    seq(|keys|, i requires 0 <= i < |keys| =>
      ThingRow(Ref(ids[i], owner), if keys[i] == "" then newKeys[i] else keys[i]))
  }

  function NewChannels(owner: Owner, ids: seq<Id>): seq<Ref> {
    seq(|ids|, i requires 0 <= i < |ids| => Ref(ids[i], owner))
  }

  function ThingEvents(rows: seq<ThingRow>): seq<Event> {
    seq(|rows|, i requires 0 <= i < |rows| => CreateThing(rows[i].ref.id, rows[i].ref.owner))
  }

  function ChannelEvents(rows: seq<Ref>): seq<Event> {
    seq(|rows|, i requires 0 <= i < |rows| => CreateChannel(rows[i].id, rows[i].owner))
  }

  function ConnectEvents(rows: seq<Conn>): seq<Event> {
    seq(|rows|, i requires 0 <= i < |rows| => ConnectThing(rows[i].channel.id, rows[i].thing.id))
  }

  /** The identity provider hands out one id and one key per thing. */
  predicate Supplied(c: Call) {
    c.CreateThings? ==> |c.keys| == |c.ids| == |c.newKeys|
  }

  // Each call maps the state before it to the state after it and the answer. Authentication comes first.

  function CreateThingsCall(st: State, owner: Owner, keys: seq<Key>, ids: seq<Id>, newKeys: seq<Key>): (State, Reply)
    requires |keys| == |ids| == |newKeys|
  {
    var rows := NewRows(owner, keys, ids, newKeys);
    match InsertThings(st.repo.things, rows)
    case None => (st, Failed(Conflict))
    case Some(ths) => (st.(repo := st.repo.(things := ths), log := st.log + ThingEvents(rows)), Done)
  }

  function UpdateKeyCall(st: State, owner: Owner, id: Id, key: Key): (State, Reply) {
    var (err, r) := UpdateKeyRepo(st.repo, owner, id, key);
    if err.Some? then (st, Failed(err.value)) else (st.(repo := r), Done)
  }

  /** The cache entry goes first; the repository then removes the row only if the caller owns it. */
  function DeleteThingCall(st: State, owner: Owner, id: Id): (State, Reply) {
    var repo, cache := RemoveThingRepo(st.repo, owner, id), CacheRemove(st.things, id);
    (State(repo, cache, st.channels, st.log + [RemoveThing(id)]), Done)
  }

  function CreateChannelsCall(st: State, owner: Owner, ids: seq<Id>): (State, Reply) {
    var rows := NewChannels(owner, ids);
    match InsertChannels(st.repo.channels, rows)
    case None => (st, Failed(Conflict))
    case Some(chs) => (st.(repo := st.repo.(channels := chs), log := st.log + ChannelEvents(rows)), Done)
  }

  function DeleteChannelCall(st: State, owner: Owner, id: Id): (State, Reply) {
    (State(RemoveChannelRepo(st.repo, owner, id), st.things, st.channels - {id}, st.log + [RemoveChannel(id)]), Done)
  }

  function ConnectCall(st: State, owner: Owner, chIDs: seq<Id>, thIDs: seq<Id>): (State, Reply) {
    var (err, r) := ConnectRepo(st.repo, owner, chIDs, thIDs);
    if err.Some? then (st, Failed(err.value))
    else (st.(repo := r, log := st.log + ConnectEvents(Product(owner, chIDs, thIDs))), Done)
  }

  /** The cache entry goes first, whatever the repository says afterwards. */
  function DisconnectCall(st: State, owner: Owner, chID: Id, thID: Id): (State, Reply) {
    var cc := CacheDisconnect(st.channels, chID, thID);
    var (err, r) := DisconnectRepo(st.repo, owner, chID, thID);
    if err.Some? then (st.(channels := cc), Failed(err.value))
    else (State(r, st.things, cc, st.log + [DisconnectThing(chID, thID)]), Done)
  }

  ghost function CanAccessByKeyCall(st: State, chID: Id, key: Key): (State, Reply) {
    if key in st.things.ids && st.things.ids[key] in Members(st.channels, chID)
    then (st, Answer(st.things.ids[key]))
    else
    match HasThing(st.repo, chID, key)
    case None => (st, Failed(UnauthorizedAccess))
    case Some(id) =>
      (st.(things := CacheSave(st.things, key, id), channels := CacheConnect(st.channels, chID, id)), Answer(id))
  }

  function CanAccessByIDCall(st: State, chID: Id, thID: Id): (State, Reply) {
    if thID in Members(st.channels, chID) then (st, Done)
    else if !Connected(st.repo, chID, thID) then (st, Failed(UnauthorizedAccess))
    else (st.(channels := CacheConnect(st.channels, chID, thID)), Done)
  }

  ghost function IdentifyCall(st: State, key: Key): (State, Reply) {
    if key in st.things.ids then (st, Answer(st.things.ids[key])) else
    match RetrieveByKey(st.repo, key)
    case None => (st, Failed(UnauthorizedAccess))
    case Some(id) => (st.(things := CacheSave(st.things, key, id)), Answer(id))
  }

  function Caller(c: Call): Option<Owner> {
    match c
    case CreateThings(who, _, _, _) => who
    case UpdateKey(who, _, _) => who
    case DeleteThing(who, _) => who
    case CreateChannels(who, _) => who
    case DeleteChannel(who, _) => who
    case Connect(who, _, _) => who
    case Disconnect(who, _, _) => who
    case _ => Some("")
  }

  ghost function Step(st: State, c: Call): (State, Reply)
    requires Supplied(c)
  {
    if Caller(c).None? then (st, Failed(UnauthorizedAccess)) else
    match c
    case CreateThings(who, keys, ids, newKeys) => CreateThingsCall(st, who.value, keys, ids, newKeys)
    case UpdateKey(who, id, key) => UpdateKeyCall(st, who.value, id, key)
    case DeleteThing(who, id) => DeleteThingCall(st, who.value, id)
    case CreateChannels(who, ids) => CreateChannelsCall(st, who.value, ids)
    case DeleteChannel(who, id) => DeleteChannelCall(st, who.value, id)
    case Connect(who, chIDs, thIDs) => ConnectCall(st, who.value, chIDs, thIDs)
    case Disconnect(who, chID, thID) => DisconnectCall(st, who.value, chID, thID)
    case CanAccessByKey(chID, key) => CanAccessByKeyCall(st, chID, key)
    case CanAccessByID(chID, thID) => CanAccessByIDCall(st, chID, thID)
    case Identify(key) => IdentifyCall(st, key)
  }
}
