// The things service over whole runs: the caches agree with the repository, and the event stream can
// rebuild it.
module ThingsRuns {
  import opened Common
  import opened ThingsModel
  import opened ThingsRepository

  /** A state with its history: the ids handed out so far and the keys that UpdateKey has replaced. */
  datatype World = World(st: State, used: set<Id>, replaced: set<Key>)

  const START: World := World(State(Repo(map[], {}, {}), ThingCache(map[], map[]), map[], []), {}, {})

  function NewIds(c: Call): seq<Id> {
    match c
    case CreateThings(_, _, ids, _) => ids
    case CreateChannels(_, ids) => ids
    case _ => []
  }

  /** The identity provider never repeats an id. */
  ghost predicate Allowed(w: World, c: Call) {
    && Supplied(c) && Distinct(NewIds(c))
    && forall id :: id in NewIds(c) ==> id !in w.used
  }

  /** The key that a successful UpdateKey replaces. */
  ghost function Replaces(w: World, c: Call): set<Key>
    requires Supplied(c)
  {
    if c.UpdateKey? && Step(w.st, c).1.Done? && w.st.repo.things[Ref(c.id, c.who.value)] != c.key
    then {w.st.repo.things[Ref(c.id, c.who.value)]} else {}
  }

  ghost function Next(w: World, c: Call): World
    requires Supplied(c)
  {
    World(Step(w.st, c).0, w.used + SetOf(NewIds(c)), w.replaced + Replaces(w, c))
  }

  ghost predicate Moves(v: World, c: Call, w: World) {
    Allowed(v, c) && w == Next(v, c)
  }

  /** The calls lead from v to w. */
  ghost predicate Reaches(v: World, calls: seq<Call>, w: World)
    decreases |calls|
  {
    if calls == [] then w == v
    else
      var c := calls[|calls| - 1];
      exists u :: Moves(u, c, w) && Reaches(v, calls[..|calls| - 1], u)
  }

  /** Every state the service can reach. */
  ghost predicate Reachable(w: World) {
    exists calls :: Reaches(START, calls, w)
  }

  lemma ReachesNext(v: World, calls: seq<Call>, u: World, c: Call)
    requires Reaches(v, calls, u) && Allowed(u, c)
    ensures Reaches(v, calls + [c], Next(u, c))
  {
    var all := calls + [c];
    assert all[..|all| - 1] == calls && all[|all| - 1] == c;
    assert Moves(u, c, Next(u, c));
  }

  lemma ReachableNext(u: World, c: Call)
    requires Reachable(u) && Allowed(u, c)
    ensures Reachable(Next(u, c))
  {
    var calls :| Reaches(START, calls, u);
    ReachesNext(START, calls, u, c);
  }

  ghost predicate Registered(repo: Repo, id: Id) {
    exists t :: t in repo.things && t.id == id
  }

  // ----- Agreement of the caches with the repository ------------------------------------------------

  /** A cached key that was never replaced is the key of the thing it names, in both directions. */
  ghost predicate KeysAgree(repo: Repo, tc: ThingCache, replaced: set<Key>) {
    forall k :: k in tc.ids && k !in replaced ==> KeyAgrees(repo, tc, k)
  }

  ghost predicate KeyAgrees(repo: Repo, tc: ThingCache, k: Key)
    requires k in tc.ids
  {
    && tc.ids[k] in tc.keys && tc.keys[tc.ids[k]] == k
    && exists t :: t in repo.things && t.id == tc.ids[k] && repo.things[t] == k
  }

  /** A member of a channel's cache is connected to it, or its thing is gone for good. */
  ghost predicate MembersAgree(repo: Repo, cc: ChannelCache, used: set<Id>) {
    forall ch, th :: th in Members(cc, ch) ==> th in used && (Connected(repo, ch, th) || !Registered(repo, th))
  }

  ghost predicate IdsUsed(repo: Repo, used: set<Id>) {
    && (forall t :: t in repo.things ==> t.id in used)
    && (forall t :: t in repo.channels ==> t.id in used)
  }

  ghost predicate Inv(w: World) {
    && Consistent(w.st.repo)
    && IdsUsed(w.st.repo, w.used)
    && KeysAgree(w.st.repo, w.st.things, w.replaced)
    && MembersAgree(w.st.repo, w.st.channels, w.used)
  }

  // ----- Creating -----------------------------------------------------------------------------------

  /** things' keeps the rows of things and adds rows under new ids only. */
  ghost predicate Grows(things: map<Ref, Key>, things': map<Ref, Key>, ids: set<Id>) {
    && (forall t :: t in things ==> t in things' && things'[t] == things[t])
    && (forall t :: t in things' && t !in things ==> t.id in ids)
  }

  lemma {:induction false} InsertGrows(things: map<Ref, Key>, rows: seq<ThingRow>, ids: set<Id>)
    requires InsertThings(things, rows).Some?
    requires forall i :: 0 <= i < |rows| ==> rows[i].ref.id in ids
    ensures Grows(things, InsertThings(things, rows).value, ids)
    decreases |rows|
  {
    if rows != [] {
      InsertGrows(things[rows[0].ref := rows[0].key], rows[1..], ids);
    }
  }

  /** Rows with ids that are new and pairwise different keep one owner per id. */
  lemma {:induction false} InsertOneOwner(things: map<Ref, Key>, rows: seq<ThingRow>, ids: seq<Id>)
    requires InsertThings(things, rows).Some? && OneOwner(things.Keys)
    requires |ids| == |rows| && Distinct(ids) && forall i :: 0 <= i < |rows| ==> rows[i].ref.id == ids[i]
    requires forall t :: t in things ==> t.id !in ids
    ensures OneOwner(InsertThings(things, rows).value.Keys)
    decreases |rows|
  {
    if rows != [] {
      var more := things[rows[0].ref := rows[0].key];
      assert ids == [ids[0]] + ids[1..];
      DistinctSplit([ids[0]], ids[1..]);
      assert rows[0].ref.id == ids[0] && ids[0] in ids;
      InsertOneOwner(more, rows[1..], ids[1..]);
    }
  }

  lemma {:induction false} InsertChannelsGrow(channels: set<Ref>, rows: seq<Ref>, ids: seq<Id>)
    requires InsertChannels(channels, rows).Some? && OneOwner(channels)
    requires |ids| == |rows| && Distinct(ids) && forall i :: 0 <= i < |rows| ==> rows[i].id == ids[i]
    requires forall t :: t in channels ==> t.id !in ids
    ensures var r := InsertChannels(channels, rows).value;
            OneOwner(r) && channels <= r && forall t :: t in r && t !in channels ==> t.id in ids
    decreases |rows|
  {
    if rows != [] {
      assert ids == [ids[0]] + ids[1..];
      DistinctSplit([ids[0]], ids[1..]);
      InsertChannelsGrow(channels + {rows[0]}, rows[1..], ids[1..]);
    }
  }

  lemma GrowthKeepsAgreement(repo: Repo, things': map<Ref, Key>, tc: ThingCache, cc: ChannelCache,
                             used: set<Id>, replaced: set<Key>, ids: set<Id>)
    requires KeysAgree(repo, tc, replaced) && MembersAgree(repo, cc, used)
    requires Grows(repo.things, things', ids) && ids !! used
    ensures KeysAgree(repo.(things := things'), tc, replaced) && MembersAgree(repo.(things := things'), cc, used + ids)
  {
    var repo' := repo.(things := things');
    forall k | k in tc.ids && k !in replaced ensures KeyAgrees(repo', tc, k) {
      assert KeyAgrees(repo, tc, k);
    }
    forall ch, th | th in Members(cc, ch) ensures Connected(repo', ch, th) || !Registered(repo', th) {
      assert th in used;
    }
  }

  lemma AddThings(repo: Repo, rows: seq<ThingRow>, tc: ThingCache, cc: ChannelCache,
                  used: set<Id>, replaced: set<Key>, ids: seq<Id>)
    requires Consistent(repo) && IdsUsed(repo, used) && KeysAgree(repo, tc, replaced) && MembersAgree(repo, cc, used)
    requires InsertThings(repo.things, rows).Some?
    requires |ids| == |rows| && Distinct(ids) && forall i :: 0 <= i < |rows| ==> rows[i].ref.id == ids[i]
    requires forall id :: id in ids ==> id !in used
    ensures var repo' := repo.(things := InsertThings(repo.things, rows).value);
            && Consistent(repo') && IdsUsed(repo', used + SetOf(ids))
            && KeysAgree(repo', tc, replaced) && MembersAgree(repo', cc, used + SetOf(ids))
  {
    assert forall i :: 0 <= i < |rows| ==> ids[i] in SetOf(ids);
    InsertGrows(repo.things, rows, SetOf(ids));
    InsertOneOwner(repo.things, rows, ids);
    InsertKeepsUnique(repo.things, rows);
    GrowthKeepsAgreement(repo, InsertThings(repo.things, rows).value, tc, cc, used, replaced, SetOf(ids));
  }

  // ----- Removing and updating ----------------------------------------------------------------------

  lemma RemoveThingKeeps(repo: Repo, owner: Owner, id: Id, tc: ThingCache, cc: ChannelCache,
                         used: set<Id>, replaced: set<Key>)
    requires Consistent(repo) && KeysAgree(repo, tc, replaced) && MembersAgree(repo, cc, used)
    ensures var repo' := RemoveThingRepo(repo, owner, id);
            && Consistent(repo') && KeysAgree(repo', CacheRemove(tc, id), replaced) && MembersAgree(repo', cc, used)
  {
    var repo', tc' := RemoveThingRepo(repo, owner, id), CacheRemove(tc, id);
    forall k | k in tc'.ids && k !in replaced ensures KeyAgrees(repo', tc', k) {
      KeyStays(repo, owner, id, tc, k);
    }
    forall ch, th | th in Members(cc, ch) ensures Connected(repo', ch, th) || !Registered(repo', th) {
      if Connected(repo, ch, th) {
        GoneOrConnected(repo, owner, id, ch, th);
      }
    }
  }

  lemma KeyStays(repo: Repo, owner: Owner, id: Id, tc: ThingCache, k: Key)
    requires k in CacheRemove(tc, id).ids && KeyAgrees(repo, tc, k)
    ensures KeyAgrees(RemoveThingRepo(repo, owner, id), CacheRemove(tc, id), k)
  {
    var repo' := RemoveThingRepo(repo, owner, id);
    var t :| t in repo.things && t.id == tc.ids[k] && repo.things[t] == k;
    assert t in repo'.things && repo'.things[t] == k;
  }

  lemma GoneOrConnected(repo: Repo, owner: Owner, id: Id, ch: Id, th: Id)
    requires Consistent(repo) && Connected(repo, ch, th)
    ensures var repo' := RemoveThingRepo(repo, owner, id); Connected(repo', ch, th) || !Registered(repo', th)
  {
    var repo', gone := RemoveThingRepo(repo, owner, id), Ref(id, owner);
    var c :| c in repo.connections && c.channel.id == ch && c.thing.id == th;
    if c.thing == gone && gone in repo.things {
      assert !Registered(repo', th);
    } else {
      assert c in repo'.connections;
    }
  }

  lemma RemoveChannelKeeps(repo: Repo, owner: Owner, id: Id, tc: ThingCache, cc: ChannelCache,
                           used: set<Id>, replaced: set<Key>)
    requires Consistent(repo) && KeysAgree(repo, tc, replaced) && MembersAgree(repo, cc, used)
    ensures var repo' := RemoveChannelRepo(repo, owner, id);
            && Consistent(repo') && KeysAgree(repo', tc, replaced) && MembersAgree(repo', cc - {id}, used)
  {
    var repo' := RemoveChannelRepo(repo, owner, id);
    forall k | k in tc.ids && k !in replaced ensures KeyAgrees(repo', tc, k) {
      assert KeyAgrees(repo, tc, k);
    }
    forall ch, th | th in Members(cc - {id}, ch)
      ensures th in used && (Connected(repo', ch, th) || !Registered(repo', th))
    {
      assert ch != id && th in Members(cc, ch);
      if Connected(repo, ch, th) {
        var c :| c in repo.connections && c.channel.id == ch && c.thing.id == th;
        assert c in repo'.connections;
      }
    }
  }

  lemma ConnectKeeps(repo: Repo, owner: Owner, chIDs: seq<Id>, thIDs: seq<Id>, tc: ThingCache, cc: ChannelCache,
                     used: set<Id>, replaced: set<Key>)
    requires Consistent(repo) && KeysAgree(repo, tc, replaced) && MembersAgree(repo, cc, used)
    ensures var repo' := ConnectRepo(repo, owner, chIDs, thIDs).1;
            && Consistent(repo') && KeysAgree(repo', tc, replaced) && MembersAgree(repo', cc, used)
  {
    var (err, repo') := ConnectRepo(repo, owner, chIDs, thIDs);
    ConnectExact(repo, owner, chIDs, thIDs);
    forall k | k in tc.ids && k !in replaced ensures KeyAgrees(repo', tc, k) {
      assert KeyAgrees(repo, tc, k);
    }
    forall ch, th | th in Members(cc, ch) ensures Connected(repo', ch, th) || !Registered(repo', th) {
      if Connected(repo, ch, th) {
        var c :| c in repo.connections && c.channel.id == ch && c.thing.id == th;
        assert c in repo'.connections;
      }
    }
  }

  lemma DisconnectKeeps(repo: Repo, owner: Owner, chID: Id, thID: Id, tc: ThingCache, cc: ChannelCache,
                        used: set<Id>, replaced: set<Key>)
    requires Consistent(repo) && KeysAgree(repo, tc, replaced) && MembersAgree(repo, cc, used)
    ensures var repo' := DisconnectRepo(repo, owner, chID, thID).1;
            && Consistent(repo') && KeysAgree(repo', tc, replaced)
            && MembersAgree(repo', CacheDisconnect(cc, chID, thID), used)
  {
    var repo', cc' := DisconnectRepo(repo, owner, chID, thID).1, CacheDisconnect(cc, chID, thID);
    forall k | k in tc.ids && k !in replaced ensures KeyAgrees(repo', tc, k) {
      assert KeyAgrees(repo, tc, k);
    }
    forall ch, th | th in Members(cc', ch) ensures th in used && (Connected(repo', ch, th) || !Registered(repo', th)) {
      assert th in Members(cc, ch);
      if Connected(repo, ch, th) {
        var c :| c in repo.connections && c.channel.id == ch && c.thing.id == th;
        assert c in repo'.connections;
      }
    }
  }

  lemma UpdateKeyKeeps(repo: Repo, owner: Owner, id: Id, key: Key, tc: ThingCache, cc: ChannelCache,
                       used: set<Id>, replaced: set<Key>)
    requires Consistent(repo) && KeysAgree(repo, tc, replaced) && MembersAgree(repo, cc, used)
    requires UpdateKeyRepo(repo, owner, id, key).0.None?
    ensures var repo', was := UpdateKeyRepo(repo, owner, id, key).1, repo.things[Ref(id, owner)];
            && Consistent(repo') && MembersAgree(repo', cc, used)
            && KeysAgree(repo', tc, replaced + if was != key then {was} else {})
  {
    var repo', t := UpdateKeyRepo(repo, owner, id, key).1, Ref(id, owner);
    var was := repo.things[t];
    forall k | k in tc.ids && k !in replaced && (k != was || was == key) ensures KeyAgrees(repo', tc, k) {
      assert KeyAgrees(repo, tc, k);
      var u :| u in repo.things && u.id == tc.ids[k] && repo.things[u] == k;
      assert u in repo'.things && repo'.things[u] == k;
    }
    forall ch, th | th in Members(cc, ch) ensures Connected(repo', ch, th) || !Registered(repo', th) {
      if Registered(repo', th) {
        assert Registered(repo, th);
      }
    }
  }

  // ----- Answering ----------------------------------------------------------------------------------

  /** Caching what the repository has just answered. */
  lemma SaveKeeps(repo: Repo, key: Key, id: Id, tc: ThingCache, replaced: set<Key>)
    requires Consistent(repo) && KeysAgree(repo, tc, replaced) && RetrieveByKey(repo, key) == Some(id)
    ensures KeysAgree(repo, CacheSave(tc, key, id), replaced)
  {
    var tc' := CacheSave(tc, key, id);
    var t :| t in repo.things && repo.things[t] == key && t.id == id;
    forall k | k in tc'.ids && k !in replaced ensures KeyAgrees(repo, tc', k) {
      if k != key {
        assert KeyAgrees(repo, tc, k);
      }
    }
  }

  lemma CacheConnectKeeps(repo: Repo, ch: Id, th: Id, cc: ChannelCache, used: set<Id>)
    requires Consistent(repo) && IdsUsed(repo, used) && MembersAgree(repo, cc, used) && Connected(repo, ch, th)
    ensures MembersAgree(repo, CacheConnect(cc, ch, th), used)
  {
    var cc' := CacheConnect(cc, ch, th);
    forall x, y | y in Members(cc', x) ensures y in used && (Connected(repo, x, y) || !Registered(repo, y)) {
      assert y in Members(cc, x) || (x == ch && y == th);
    }
  }

  // ----- Every run ----------------------------------------------------------------------------------

  lemma CreateInv(w: World, c: Call)
    requires Inv(w) && (c.CreateThings? || c.CreateChannels?) && Allowed(w, c)
    ensures Inv(Next(w, c))
  {
    var repo := w.st.repo;
    if c.who.Some? {
      if c.CreateThings? {
        var rows := NewRows(c.who.value, c.keys, c.ids, c.newKeys);
        if InsertThings(repo.things, rows).Some? {
          AddThings(repo, rows, w.st.things, w.st.channels, w.used, w.replaced, c.ids);
        }
      } else {
        var rows := NewChannels(c.who.value, c.ids);
        if InsertChannels(repo.channels, rows).Some? {
          InsertChannelsGrow(repo.channels, rows, c.ids);
          var chs := InsertChannels(repo.channels, rows).value;
          GrowthOfChannels(repo, chs, w.st.things, w.st.channels, w.used, w.replaced, c.ids);
        }
      }
    }
    UsedGrows(repo, w.st.channels, w.used, SetOf(NewIds(c)));
  }

  lemma UsedGrows(repo: Repo, cc: ChannelCache, used: set<Id>, ids: set<Id>)
    requires IdsUsed(repo, used) && MembersAgree(repo, cc, used)
    ensures IdsUsed(repo, used + ids) && MembersAgree(repo, cc, used + ids)
  {
  }

  lemma GrowthOfChannels(repo: Repo, channels: set<Ref>, tc: ThingCache, cc: ChannelCache,
                         used: set<Id>, replaced: set<Key>, ids: seq<Id>)
    requires Consistent(repo) && IdsUsed(repo, used) && KeysAgree(repo, tc, replaced) && MembersAgree(repo, cc, used)
    requires OneOwner(channels) && repo.channels <= channels
    requires forall t :: t in channels && t !in repo.channels ==> t.id in ids
    ensures var repo' := repo.(channels := channels);
            && Consistent(repo') && IdsUsed(repo', used + SetOf(ids))
            && KeysAgree(repo', tc, replaced) && MembersAgree(repo', cc, used + SetOf(ids))
  {
    forall k | k in tc.ids && k !in replaced ensures KeyAgrees(repo.(channels := channels), tc, k) {
      assert KeyAgrees(repo, tc, k);
    }
  }

  lemma AccessByKeyInv(w: World, chID: Id, key: Key)
    requires Inv(w)
    ensures Inv(w.(st := CanAccessByKeyCall(w.st, chID, key).0))
  {
    var r := HasThing(w.st.repo, chID, key);
    if r.Some? {
      SaveKeeps(w.st.repo, key, r.value, w.st.things, w.replaced);
      CacheConnectKeeps(w.st.repo, chID, r.value, w.st.channels, w.used);
    }
  }

  lemma AccessByIDInv(w: World, chID: Id, thID: Id)
    requires Inv(w)
    ensures Inv(w.(st := CanAccessByIDCall(w.st, chID, thID).0))
  {
    if Connected(w.st.repo, chID, thID) {
      CacheConnectKeeps(w.st.repo, chID, thID, w.st.channels, w.used);
    }
  }

  lemma IdentifyInv(w: World, key: Key)
    requires Inv(w)
    ensures Inv(w.(st := IdentifyCall(w.st, key).0))
  {
    var r := RetrieveByKey(w.st.repo, key);
    if r.Some? {
      SaveKeeps(w.st.repo, key, r.value, w.st.things, w.replaced);
    }
  }

  lemma RemoveInv(w: World, c: Call)
    requires Inv(w) && (c.DeleteThing? || c.DeleteChannel? || c.UpdateKey?)
    ensures Inv(Next(w, c))
  {
    var repo, tc, cc := w.st.repo, w.st.things, w.st.channels;
    assert w.used + {} == w.used && w.replaced + {} == w.replaced;
    match c
    case UpdateKey(who, id, key) =>
      if who.Some? && UpdateKeyRepo(repo, who.value, id, key).0.None? {
        UpdateKeyKeeps(repo, who.value, id, key, tc, cc, w.used, w.replaced);
      }
    case DeleteThing(who, id) =>
      if who.Some? {
        RemoveThingKeeps(repo, who.value, id, tc, cc, w.used, w.replaced);
      }
    case DeleteChannel(who, id) =>
      if who.Some? {
        RemoveChannelKeeps(repo, who.value, id, tc, cc, w.used, w.replaced);
      }
  }

  lemma ConnectInv(w: World, c: Call)
    requires Inv(w) && c.Connect?
    ensures Inv(Next(w, c))
  {
    assert w.used + {} == w.used && w.replaced + {} == w.replaced;
    if c.who.Some? {
      ConnectKeeps(w.st.repo, c.who.value, c.chIDs, c.thIDs, w.st.things, w.st.channels, w.used, w.replaced);
    }
  }

  lemma DisconnectInv(w: World, c: Call)
    requires Inv(w) && c.Disconnect?
    ensures Inv(Next(w, c))
  {
    assert w.used + {} == w.used && w.replaced + {} == w.replaced;
    if c.who.Some? {
      DisconnectKeeps(w.st.repo, c.who.value, c.chanID, c.thingID, w.st.things, w.st.channels, w.used, w.replaced);
    }
  }

  /** An answer changes caches only. */
  lemma AnswerNext(w: World, c: Call)
    requires c.CanAccessByKey? || c.CanAccessByID? || c.Identify?
    ensures Next(w, c) == w.(st := Step(w.st, c).0)
  {
    assert w.used + {} == w.used && w.replaced + {} == w.replaced;
  }

  lemma AnswerInv(w: World, c: Call)
    requires Inv(w) && (c.CanAccessByKey? || c.CanAccessByID? || c.Identify?)
    ensures Inv(Next(w, c))
  {
    AnswerNext(w, c);
    match c
    case CanAccessByKey(chID, key) => AccessByKeyInv(w, chID, key);
    case CanAccessByID(chID, thID) => AccessByIDInv(w, chID, thID);
    case Identify(key) => IdentifyInv(w, key);
  }

  /** Every call keeps the invariant. */
  lemma StepInv(w: World, c: Call)
    requires Inv(w) && Allowed(w, c)
    ensures Inv(Next(w, c))
  {
    if c.CreateThings? || c.CreateChannels? {
      CreateInv(w, c);
    } else if c.DeleteThing? || c.DeleteChannel? || c.UpdateKey? {
      RemoveInv(w, c);
    } else if c.Connect? {
      ConnectInv(w, c);
    } else if c.Disconnect? {
      DisconnectInv(w, c);
    } else {
      AnswerInv(w, c);
    }
  }

  lemma {:induction false} ReachesInv(v: World, calls: seq<Call>, w: World)
    requires Inv(v) && Reaches(v, calls, w)
    ensures Inv(w)
    decreases |calls|
  {
    if calls != [] {
      var before, c := calls[..|calls| - 1], calls[|calls| - 1];
      var u :| Moves(u, c, w) && Reaches(v, before, u);
      ReachesInv(v, before, u);
      StepInv(u, c);
    }
  }

  lemma ReachableInv(w: World)
    requires Reachable(w)
    ensures Inv(w)
  {
    var calls :| Reaches(START, calls, w);
    ReachesInv(START, calls, w);
  }

  /** In every reachable state each connection joins a stored channel and a stored thing of the same
      owner, and no two things share a key. */
  lemma ReachableConsistent(w: World)
    requires Reachable(w)
    ensures Consistent(w.st.repo)
  {
    ReachableInv(w);
  }

  lemma KeyDetermines(repo: Repo, t: Ref)
    requires UniqueKeys(repo.things) && t in repo.things
    ensures RetrieveByKey(repo, repo.things[t]) == Some(t.id)
  {
    assert repo.things[t] in repo.things.Values;
  }

  /** Over every run, UpdateKey included, Identify answers what the repository would for every key that
      UpdateKey has never replaced. */
  lemma IdentifyAgrees(w: World, key: Key)
    requires Reachable(w) && key !in w.replaced
    ensures IdentifyCall(w.st, key).1
         == match RetrieveByKey(w.st.repo, key) case None => Failed(UnauthorizedAccess) case Some(id) => Answer(id)
  {
    ReachableInv(w);
    if key in w.st.things.ids {
      assert KeyAgrees(w.st.repo, w.st.things, key);
      var t :| t in w.st.repo.things && t.id == w.st.things.ids[key] && w.st.repo.things[t] == key;
      KeyDetermines(w.st.repo, t);
    }
  }

  /** CanAccessByKey grants exactly what the repository would for every key never replaced. */
  lemma CanAccessByKeyAgrees(w: World, chID: Id, key: Key)
    requires Reachable(w) && key !in w.replaced
    ensures CanAccessByKeyCall(w.st, chID, key).1
         == match HasThing(w.st.repo, chID, key) case None => Failed(UnauthorizedAccess) case Some(id) => Answer(id)
  {
    ReachableInv(w);
    if key in w.st.things.ids {
      assert KeyAgrees(w.st.repo, w.st.things, key);
      var t :| t in w.st.repo.things && t.id == w.st.things.ids[key] && w.st.repo.things[t] == key;
      KeyDetermines(w.st.repo, t);
      assert Registered(w.st.repo, t.id);
    }
  }

  /** CanAccessByID grants exactly the current connections and what is cached for things already removed,
      so it agrees with the repository for every thing still registered. */
  lemma CanAccessByIDExact(w: World, chID: Id, thID: Id)
    requires Reachable(w)
    ensures CanAccessByIDCall(w.st, chID, thID).1.Done?
       <==> Connected(w.st.repo, chID, thID) || (thID in Members(w.st.channels, chID) && !Registered(w.st.repo, thID))
    ensures Registered(w.st.repo, thID) ==>
              (CanAccessByIDCall(w.st, chID, thID).1.Done? <==> Connected(w.st.repo, chID, thID))
  {
    ReachableInv(w);
  }
}
