// What each call of the things service brings about for its caller: when it succeeds, what the tables, the caches
// and the stream are afterwards, and who is let in or refused from then on.
module ThingsCalls {
  import opened Common
  import opened ThingsModel
  import opened ThingsRepository
  import opened ThingsRuns

  /** Without a valid token nothing happens. */
  lemma Unauthorized(st: State, c: Call)
    requires Supplied(c) && Caller(c).None?
    ensures Step(st, c) == (st, Failed(UnauthorizedAccess))
  {
  }

  /** The stream gains exactly these events, each once. */
  predicate Gains(log: seq<Event>, log': seq<Event>, events: set<Event>) {
    log <= log' && SetOf(log'[|log|..]) == events && Distinct(log'[|log|..])
  }

  // ----- Creating ------------------------------------------------------------------------------------

  function KeyFor(keys: seq<Key>, newKeys: seq<Key>, i: nat): Key
    requires i < |keys| == |newKeys|
  {
    if keys[i] == "" then newKeys[i] else keys[i]
  }

  /** Every id and key is new and none occurs twice. */
  ghost predicate MayCreate(repo: Repo, owner: Owner, keys: seq<Key>, ids: seq<Id>, newKeys: seq<Key>)
    requires |keys| == |ids| == |newKeys|
  {
    && Distinct(ids)
    && (forall i :: 0 <= i < |ids| ==>
          Ref(ids[i], owner) !in repo.things && KeyFor(keys, newKeys, i) !in repo.things.Values)
    && (forall i, j :: 0 <= i < j < |ids| ==> KeyFor(keys, newKeys, i) != KeyFor(keys, newKeys, j))
  }

  lemma InsertableIs(repo: Repo, owner: Owner, keys: seq<Key>, ids: seq<Id>, newKeys: seq<Key>)
    requires |keys| == |ids| == |newKeys|
    ensures Insertable(repo.things, NewRows(owner, keys, ids, newKeys)) <==> MayCreate(repo, owner, keys, ids, newKeys)
  {
    var rows := NewRows(owner, keys, ids, newKeys);
    assert forall i :: 0 <= i < |ids| ==> rows[i] == ThingRow(Ref(ids[i], owner), KeyFor(keys, newKeys, i));
    if MayCreate(repo, owner, keys, ids, newKeys) {
      assert forall i, j :: 0 <= i < j < |ids| ==> rows[i].key != rows[j].key && rows[i].ref != rows[j].ref;
    }
    if Insertable(repo.things, rows) {
      forall i, j | 0 <= i < j < |ids|
        ensures ids[i] != ids[j] && KeyFor(keys, newKeys, i) != KeyFor(keys, newKeys, j)
      {
        assert rows[i].ref != rows[j].ref;
      }
      forall i | 0 <= i < |ids|
        ensures Ref(ids[i], owner) !in repo.things && KeyFor(keys, newKeys, i) !in repo.things.Values
      {
        assert rows[i].ref !in repo.things;
      }
    }
  }

  /** All things are created or none; each has the given key, or else the new one, and an event of its own. */
  lemma CreateThingsStep(st: State, owner: Owner, keys: seq<Key>, ids: seq<Id>, newKeys: seq<Key>)
    requires |keys| == |ids| == |newKeys|
    ensures var (st', r) := Step(st, CreateThings(Some(owner), keys, ids, newKeys));
            && (r.Done? <==> MayCreate(st.repo, owner, keys, ids, newKeys))
            && (!r.Done? ==> st' == st && r == Failed(Conflict))
            && (r.Done? ==>
                  && st'.things == st.things && st'.channels == st.channels
                  && st'.repo == st.repo.(things := st'.repo.things)
                  && (forall t :: t in st'.repo.things <==> t in st.repo.things || (t.owner == owner && t.id in ids))
                  && (forall t :: t in st.repo.things ==> st'.repo.things[t] == st.repo.things[t])
                  && (forall i :: 0 <= i < |ids| ==>
                        st'.repo.things[Ref(ids[i], owner)] == KeyFor(keys, newKeys, i))
                  && st'.log == st.log + seq(|ids|, i requires 0 <= i < |ids| => CreateThing(ids[i], owner)))
  {
    var rows := NewRows(owner, keys, ids, newKeys);
    CreateThingsExact(st, owner, keys, ids, newKeys);
    InsertableIs(st.repo, owner, keys, ids, newKeys);
    assert ThingEvents(rows) == seq(|ids|, i requires 0 <= i < |ids| => CreateThing(ids[i], owner));
  }

  lemma {:induction false} InsertChannelsExact(channels: set<Ref>, rows: seq<Ref>)
    ensures InsertChannels(channels, rows).Some? <==> Distinct(rows) && SetOf(rows) !! channels
    ensures InsertChannels(channels, rows).Some? ==> InsertChannels(channels, rows).value == channels + SetOf(rows)
    decreases |rows|
  {
    if rows == [] {
      assert channels + SetOf(rows) == channels;
    } else {
      var first, tail := rows[0], rows[1..];
      assert rows == [first] + tail;
      DistinctSplit([first], tail);
      assert SetOf(rows) == {first} + SetOf(tail);
      InsertChannelsExact(channels + {first}, tail);
      assert channels + {first} + SetOf(tail) == channels + SetOf(rows);
    }
  }

  lemma CreateChannelsStep(st: State, owner: Owner, ids: seq<Id>)
    ensures var (st', r) := Step(st, CreateChannels(Some(owner), ids));
            && (r.Done? <==> Distinct(ids) && forall id :: id in ids ==> Ref(id, owner) !in st.repo.channels)
            && (!r.Done? ==> st' == st && r == Failed(Conflict))
            && (r.Done? ==>
                  && st'.things == st.things && st'.channels == st.channels
                  && st'.repo == st.repo.(channels := st.repo.channels + set id | id in ids :: Ref(id, owner))
                  && st'.log == st.log + seq(|ids|, i requires 0 <= i < |ids| => CreateChannel(ids[i], owner)))
  {
    var rows := NewChannels(owner, ids);
    InsertChannelsExact(st.repo.channels, rows);
    assert SetOf(rows) == set id | id in ids :: Ref(id, owner) by {
      forall id | id in ids ensures Ref(id, owner) in rows {
        var i :| 0 <= i < |ids| && ids[i] == id;
        assert rows[i] == Ref(id, owner);
      }
    }
    assert Distinct(rows) <==> Distinct(ids) by {
      assert forall i, j :: 0 <= i < j < |ids| ==> (rows[i] == rows[j] <==> ids[i] == ids[j]);
    }
    assert ChannelEvents(rows) == seq(|ids|, i requires 0 <= i < |ids| => CreateChannel(ids[i], owner));
  }

  // ----- Keys ----------------------------------------------------------------------------------------

  /** Exactly one key changes, in the table only; it must not be another thing's. */
  lemma UpdateKeyStep(st: State, owner: Owner, id: Id, key: Key)
    ensures var (st', r) := Step(st, UpdateKey(Some(owner), id, key));
            && (r == Failed(NotFound) <==> Ref(id, owner) !in st.repo.things)
            && (r == Failed(Conflict) <==>
                  && Ref(id, owner) in st.repo.things
                  && exists u :: u in st.repo.things && u != Ref(id, owner) && st.repo.things[u] == key)
            && r in {Done, Failed(NotFound), Failed(Conflict)}
            && st' == if r.Done? then st.(repo := st.repo.(things := st.repo.things[Ref(id, owner) := key])) else st
  {
  }

  /** Afterwards the new key is the thing's; every other thing keeps its own. */
  lemma UpdateKeyGrants(w: World, owner: Owner, id: Id, key: Key)
    requires Reachable(w) && Step(w.st, UpdateKey(Some(owner), id, key)).1.Done?
    ensures var st' := Step(w.st, UpdateKey(Some(owner), id, key)).0;
            && RetrieveByKey(st'.repo, key) == Some(id)
            && (key !in w.st.things.ids ==> Step(st', Identify(key)).1 == Answer(id))
            && (forall k :: k != key && k != w.st.repo.things[Ref(id, owner)] ==>
                  RetrieveByKey(st'.repo, k) == RetrieveByKey(w.st.repo, k))
  {
    ReachableConsistent(w);
    var t, things := Ref(id, owner), w.st.repo.things;
    var repo' := w.st.repo.(things := things[t := key]);
    assert repo'.things[t] == key && key in repo'.things.Values;
    forall k | k != key && k != things[t] ensures RetrieveByKey(repo', k) == RetrieveByKey(w.st.repo, k) {
      OtherKey(w.st.repo, t, key, k);
    }
  }

  lemma OtherKey(repo: Repo, t: Ref, key: Key, k: Key)
    requires UniqueKeys(repo.things) && t in repo.things && k != key && k != repo.things[t]
    ensures RetrieveByKey(repo.(things := repo.things[t := key]), k) == RetrieveByKey(repo, k)
  {
    var things' := repo.things[t := key];
    assert k in things'.Values <==> k in repo.things.Values by {
      if k in repo.things.Values {
        var u :| u in repo.things && repo.things[u] == k;
        assert things'[u] == k;
      }
    }
  }

  // ----- Connecting ----------------------------------------------------------------------------------

  function PairEvents(chIDs: seq<Id>, thIDs: seq<Id>): set<Event> {
    set ch, th | ch in chIDs && th in thIDs :: ConnectThing(ch, th)
  }

  lemma PairsAnnounced(owner: Owner, chIDs: seq<Id>, thIDs: seq<Id>)
    requires chIDs == [] || thIDs == [] || (Distinct(chIDs) && Distinct(thIDs))
    ensures var events := ConnectEvents(Product(owner, chIDs, thIDs));
            SetOf(events) == PairEvents(chIDs, thIDs) && Distinct(events)
  {
    var rows := Product(owner, chIDs, thIDs);
    var events := ConnectEvents(rows);
    forall ch, th | ch in chIDs && th in thIDs ensures ConnectThing(ch, th) in events {
      ProductMembers(owner, chIDs, thIDs, Conn(Ref(ch, owner), Ref(th, owner)));
      var i :| 0 <= i < |rows| && rows[i] == Conn(Ref(ch, owner), Ref(th, owner));
      assert events[i] == ConnectThing(ch, th);
    }
    forall i | 0 <= i < |rows| ensures rows[i].channel.id in chIDs && rows[i].thing.id in thIDs
                                       && rows[i].channel.owner == rows[i].thing.owner == owner {
      ProductMembers(owner, chIDs, thIDs, rows[i]);
    }
    if thIDs != [] {
      ProductDistinct(owner, chIDs, thIDs);
      forall i, j | 0 <= i < j < |rows| ensures events[i] != events[j] {
        assert rows[i] != rows[j];
      }
    }
  }

  /** Connect is all or nothing: it succeeds exactly when a list is empty or the caller may connect the lists,
      and then every channel of the one is connected to every thing of the other, with one event for each. */
  lemma ConnectStep(st: State, owner: Owner, chIDs: seq<Id>, thIDs: seq<Id>)
    ensures var (st', r) := Step(st, Connect(Some(owner), chIDs, thIDs));
            && (r.Done? <==> chIDs == [] || thIDs == [] || MayConnect(st.repo, owner, chIDs, thIDs))
            && (!r.Done? ==> st' == st)
            && (r.Done? ==>
                  && st'.things == st.things && st'.channels == st.channels
                  && st'.repo == st.repo.(connections := st.repo.connections + Pairs(owner, chIDs, thIDs))
                  && Gains(st.log, st'.log, PairEvents(chIDs, thIDs)))
  {
    ConnectExact(st.repo, owner, chIDs, thIDs);
    var (st', r) := Step(st, Connect(Some(owner), chIDs, thIDs));
    if r.Done? {
      PairsAnnounced(owner, chIDs, thIDs);
      assert st'.log[|st.log|..] == ConnectEvents(Product(owner, chIDs, thIDs));
    }
  }

  /** From then on each listed thing is let in to each listed channel, by its id and by its key; no other
      pair is connected or disconnected. */
  lemma ConnectGrants(w: World, owner: Owner, chIDs: seq<Id>, thIDs: seq<Id>, ch: Id, th: Id)
    requires Reachable(w) && Allowed(w, Connect(Some(owner), chIDs, thIDs))
    requires Step(w.st, Connect(Some(owner), chIDs, thIDs)).1.Done? && chIDs != [] && thIDs != []
    ensures var st' := Step(w.st, Connect(Some(owner), chIDs, thIDs)).0;
            && (Connected(st'.repo, ch, th) <==> Connected(w.st.repo, ch, th) || (ch in chIDs && th in thIDs))
            && (ch in chIDs && th in thIDs ==>
                  && Step(st', CanAccessByID(ch, th)).1 == Done
                  && Ref(th, owner) in st'.repo.things
                  && var k := st'.repo.things[Ref(th, owner)];
                     k !in w.replaced ==> Step(st', CanAccessByKey(ch, k)).1 == Answer(th))
  {
    var c := Connect(Some(owner), chIDs, thIDs);
    ConnectStep(w.st, owner, chIDs, thIDs);
    var st', made := Step(w.st, c).0, Conn(Ref(ch, owner), Ref(th, owner));
    if Connected(w.st.repo, ch, th) {
      var x :| x in w.st.repo.connections && x.channel.id == ch && x.thing.id == th;
      assert x in st'.repo.connections;
    }
    if ch in chIDs && th in thIDs {
      assert made in Pairs(owner, chIDs, thIDs) && made in st'.repo.connections;
      var k := st'.repo.things[Ref(th, owner)];
      if k !in w.replaced {
        ReachableNext(w, c);
        KeyGranted(Next(w, c), Ref(th, owner), ch);
      }
    }
  }

  /** A thing whose key was never replaced is let in by it exactly where it is connected. */
  lemma KeyGranted(w: World, t: Ref, ch: Id)
    requires Reachable(w) && t in w.st.repo.things && w.st.repo.things[t] !in w.replaced
    ensures Step(w.st, CanAccessByKey(ch, w.st.repo.things[t])).1
         == if Connected(w.st.repo, ch, t.id) then Answer(t.id) else Failed(UnauthorizedAccess)
  {
    ReachableConsistent(w);
    KeyDetermines(w.st.repo, t);
    CanAccessByKeyAgrees(w, ch, w.st.repo.things[t]);
  }

  // ----- Disconnecting and removing ------------------------------------------------------------------

  /** The one connection goes, or it is not found; the cached member goes in either case. */
  lemma DisconnectStep(st: State, owner: Owner, ch: Id, th: Id)
    ensures var (st', r) := Step(st, Disconnect(Some(owner), ch, th));
            var gone := Conn(Ref(ch, owner), Ref(th, owner));
            && r == (if gone in st.repo.connections then Done else Failed(NotFound))
            && st'.repo == st.repo.(connections := st.repo.connections - {gone})
            && st'.things == st.things
            && (forall x, y :: y in Members(st'.channels, x) <==> y in Members(st.channels, x) && (x, y) != (ch, th))
            && st'.log == if r.Done? then st.log + [DisconnectThing(ch, th)] else st.log
  {
    var gone := Conn(Ref(ch, owner), Ref(th, owner));
    if gone !in st.repo.connections {
      assert st.repo.connections - {gone} == st.repo.connections;
    }
  }

  /** From then on the thing is refused on that channel, by its id and by any key the table has for it that was
      never replaced. */
  lemma DisconnectRefuses(w: World, owner: Owner, ch: Id, th: Id)
    requires Reachable(w) && Step(w.st, Disconnect(Some(owner), ch, th)).1.Done?
    ensures var st' := Step(w.st, Disconnect(Some(owner), ch, th)).0;
            && Step(st', CanAccessByID(ch, th)).1 == Failed(UnauthorizedAccess)
            && Ref(th, owner) in st'.repo.things
            && var k := st'.repo.things[Ref(th, owner)];
               k !in w.replaced ==> Step(st', CanAccessByKey(ch, k)).1 == Failed(UnauthorizedAccess)
  {
    var c := Disconnect(Some(owner), ch, th);
    ReachableConsistent(w);
    DisconnectStep(w.st, owner, ch, th);
    ReachableNext(w, c);
    assert !Connected(Step(w.st, c).0.repo, ch, th);
    if w.st.repo.things[Ref(th, owner)] !in w.replaced {
      KeyGranted(Next(w, c), Ref(th, owner), ch);
    }
  }

  /** The owner's row goes with its connections; anybody's call takes the thing's last key out of the cache. */
  lemma DeleteThingStep(w: World, owner: Owner, id: Id)
    requires Reachable(w)
    ensures var (st', r) := Step(w.st, DeleteThing(Some(owner), id));
            var t, repo, keys := Ref(id, owner), w.st.repo, w.st.things.keys;
            && r == Done && st'.channels == w.st.channels && st'.log == w.st.log + [RemoveThing(id)]
            && st'.repo.things == repo.things - {t} && st'.repo.channels == repo.channels
            && (forall c :: c in st'.repo.connections <==> c in repo.connections && c.thing != t)
            && (forall k :: k in st'.things.ids <==> k in w.st.things.ids && !(id in keys && keys[id] == k))
            && (forall k :: k in st'.things.ids ==> st'.things.ids[k] == w.st.things.ids[k])
            && st'.things.keys == keys - {id}
  {
    ReachableConsistent(w);
  }

  /** From then on the thing is refused everywhere, by any key that was never replaced; its cached memberships
      stay. Other things keep their keys and connections. */
  lemma DeleteThingRefuses(w: World, t: Ref, ch: Id)
    requires Reachable(w) && t in w.st.repo.things
    ensures var st', k := Step(w.st, DeleteThing(Some(t.owner), t.id)).0, w.st.repo.things[t];
            && !Registered(st'.repo, t.id) && !Connected(st'.repo, ch, t.id)
            && RetrieveByKey(st'.repo, k).None?
            && (k !in w.replaced ==>
                  && Step(st', Identify(k)).1 == Failed(UnauthorizedAccess)
                  && Step(st', CanAccessByKey(ch, k)).1 == Failed(UnauthorizedAccess))
            && (Step(st', CanAccessByID(ch, t.id)).1 == Done <==> t.id in Members(w.st.channels, ch))
            && (forall u :: u in w.st.repo.things && u != t ==>
                  && u in st'.repo.things && st'.repo.things[u] == w.st.repo.things[u]
                  && (Connected(st'.repo, ch, u.id) <==> Connected(w.st.repo, ch, u.id)))
  {
    var c, k := DeleteThing(Some(t.owner), t.id), w.st.repo.things[t];
    ReachableConsistent(w);
    DeleteThingStep(w, t.owner, t.id);
    var st' := Step(w.st, c).0;
    GoneKey(w.st.repo.things, t);
    if k !in w.replaced {
      ReachableNext(w, c);
      UnknownRefused(Next(w, c), k, ch);
    }
    forall u | u in w.st.repo.things && u != t
      ensures Connected(st'.repo, ch, u.id) <==> Connected(w.st.repo, ch, u.id)
    {
      OtherConnected(w.st.repo, st'.repo, t, u, ch);
    }
  }

  lemma GoneKey(things: map<Ref, Key>, t: Ref)
    requires UniqueKeys(things) && t in things
    ensures things[t] !in (things - {t}).Values
  {
  }

  lemma UnknownRefused(w: World, key: Key, ch: Id)
    requires Reachable(w) && key !in w.replaced && key !in w.st.repo.things.Values
    ensures Step(w.st, Identify(key)).1 == Step(w.st, CanAccessByKey(ch, key)).1 == Failed(UnauthorizedAccess)
  {
    IdentifyAgrees(w, key);
    CanAccessByKeyAgrees(w, ch, key);
  }

  lemma OtherConnected(repo: Repo, repo': Repo, t: Ref, u: Ref, ch: Id)
    requires Consistent(repo) && t in repo.things && u in repo.things && u != t
    requires forall c :: c in repo'.connections <==> c in repo.connections && c.thing != t
    ensures Connected(repo', ch, u.id) <==> Connected(repo, ch, u.id)
  {
    if Connected(repo, ch, u.id) {
      var x :| x in repo.connections && x.channel.id == ch && x.thing.id == u.id;
      assert x in repo'.connections;
    }
  }

  /** The owner's row goes with its connections, and anybody's call drops the channel's cached members. */
  lemma DeleteChannelStep(w: World, owner: Owner, id: Id)
    requires Reachable(w)
    ensures var (st', r) := Step(w.st, DeleteChannel(Some(owner), id));
            var ch, repo := Ref(id, owner), w.st.repo;
            && r == Done && st'.things == w.st.things && st'.log == w.st.log + [RemoveChannel(id)]
            && st'.repo.channels == repo.channels - {ch} && st'.repo.things == repo.things
            && (forall c :: c in st'.repo.connections <==> c in repo.connections && c.channel != ch)
            && (forall x :: Members(st'.channels, x) == if x == id then {} else Members(w.st.channels, x))
  {
    ReachableConsistent(w);
  }

  /** From then on nobody is let in to the channel; other channels keep their connections. */
  lemma DeleteChannelRefuses(w: World, ch: Ref, th: Id, key: Key)
    requires Reachable(w) && ch in w.st.repo.channels
    ensures var st' := Step(w.st, DeleteChannel(Some(ch.owner), ch.id)).0;
            && Step(st', CanAccessByID(ch.id, th)).1 == Failed(UnauthorizedAccess)
            && Step(st', CanAccessByKey(ch.id, key)).1 == Failed(UnauthorizedAccess)
            && (forall x :: x != ch.id ==> (Connected(st'.repo, x, th) <==> Connected(w.st.repo, x, th)))
  {
    ReachableConsistent(w);
    DeleteChannelStep(w, ch.owner, ch.id);
    var st' := Step(w.st, DeleteChannel(Some(ch.owner), ch.id)).0;
    assert forall t :: !Connected(st'.repo, ch.id, t);
    forall x | x != ch.id ensures Connected(st'.repo, x, th) <==> Connected(w.st.repo, x, th) {
      if Connected(w.st.repo, x, th) {
        var c :| c in w.st.repo.connections && c.channel.id == x && c.thing.id == th;
        assert c in st'.repo.connections;
      }
    }
  }

  // ----- Asking --------------------------------------------------------------------------------------

  /** An answer is remembered: asked again, the caches give it without the repository. Nothing else in them
      changes, and a refusal changes nothing. */
  lemma CanAccessByKeyStep(st: State, ch: Id, key: Key)
    ensures var (st', r) := Step(st, CanAccessByKey(ch, key));
            && st'.repo == st.repo && st'.log == st.log && (r.Failed? ==> st' == st) && !r.Done?
            && (r.Answer? ==>
                  && key in st'.things.ids && st'.things.ids[key] == r.id && r.id in Members(st'.channels, ch)
                  && (st'.things == st.things || (st'.things.keys == st.things.keys[r.id := key]))
                  && (forall k :: k != key ==> (k in st'.things.ids <==> k in st.things.ids))
                  && (forall k :: k != key && k in st.things.ids ==> st'.things.ids[k] == st.things.ids[k])
                  && (forall x, y :: y in Members(st'.channels, x) <==>
                        y in Members(st.channels, x) || (x, y) == (ch, r.id)))
  {
  }

  lemma CanAccessByIDStep(st: State, ch: Id, th: Id)
    ensures var (st', r) := Step(st, CanAccessByID(ch, th));
            && st'.repo == st.repo && st'.things == st.things && st'.log == st.log
            && r == (if th in Members(st.channels, ch) || Connected(st.repo, ch, th) then Done
                     else Failed(UnauthorizedAccess))
            && (forall x, y :: y in Members(st'.channels, x) <==>
                  y in Members(st.channels, x) || (r.Done? && (x, y) == (ch, th)))
  {
  }

  lemma IdentifyStep(st: State, key: Key)
    ensures var (st', r) := Step(st, Identify(key));
            && st'.repo == st.repo && st'.channels == st.channels && st'.log == st.log
            && (r.Failed? ==> st' == st) && !r.Done?
            && (r.Answer? ==>
                  && key in st'.things.ids && st'.things.ids[key] == r.id
                  && (st'.things == st.things || st'.things.keys == st.things.keys[r.id := key])
                  && (forall k :: k != key ==> (k in st'.things.ids <==> k in st.things.ids))
                  && (forall k :: k != key && k in st.things.ids ==> st'.things.ids[k] == st.things.ids[k]))
  {
  }
}
