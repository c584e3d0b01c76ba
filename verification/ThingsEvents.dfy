// The event stream written by the things service: replaying it rebuilds the repository, but for the
// entities that somebody else has removed.
module ThingsEvents {
  import opened Common
  import opened ThingsModel
  import opened ThingsRepository
  import opened ThingsRuns

  /** What a consumer of the stream knows: who owns each thing and channel, and which are connected. */
  datatype View = View(things: map<Id, Owner>, channels: map<Id, Owner>, links: set<(Id, Id)>)

  const NOTHING: View := View(map[], map[], {})

  /** A consumer applies an event; removing an entity also drops its connections. */
  function Apply(v: View, e: Event): View {
    match e
    case CreateThing(id, owner) => v.(things := v.things[id := owner])
    case RemoveThing(id) => v.(things := v.things - {id}, links := set l | l in v.links && l.1 != id)
    case CreateChannel(id, owner) => v.(channels := v.channels[id := owner])
    case RemoveChannel(id) => v.(channels := v.channels - {id}, links := set l | l in v.links && l.0 != id)
    case ConnectThing(ch, th) => v.(links := v.links + {(ch, th)})
    case DisconnectThing(ch, th) => v.(links := v.links - {(ch, th)})
  }

  function Replay(v: View, log: seq<Event>): View
    decreases |log|
  {
    if log == [] then v else Replay(Apply(v, log[0]), log[1..])
  }

  lemma {:induction false} ReplayAppend(v: View, a: seq<Event>, b: seq<Event>)
    ensures Replay(v, a + b) == Replay(Replay(v, a), b)
    decreases |a|
  {
    if a == [] {
      assert a + b == b;
    } else {
      assert (a + b)[1..] == a[1..] + b;
      ReplayAppend(Apply(v, a[0]), a[1..], b);
    }
  }

  ghost predicate SameRefs(m: map<Id, Owner>, refs: set<Ref>) {
    forall t: Ref :: t in refs <==> t.id in m && m[t.id] == t.owner
  }

  ghost predicate SameLinks(links: set<(Id, Id)>, repo: Repo) {
    forall ch, th :: (ch, th) in links <==> Connected(repo, ch, th)
  }

  /** The view is exactly the repository, keys aside: keys are never sent over the stream. */
  ghost predicate Rebuilds(v: View, repo: Repo) {
    SameRefs(v.things, repo.things.Keys) && SameRefs(v.channels, repo.channels) && SameLinks(v.links, repo)
  }

  ghost predicate Foreigner(refs: set<Ref>, id: Id, who: Owner) {
    exists t :: t in refs && t.id == id && t.owner != who
  }

  /** A removal of somebody else's entity: the service removes nothing but announces it all the same. */
  ghost predicate Foreign(repo: Repo, c: Call) {
    || (c.DeleteThing? && c.who.Some? && Foreigner(repo.things.Keys, c.id, c.who.value))
    || (c.DeleteChannel? && c.who.Some? && Foreigner(repo.channels, c.id, c.who.value))
  }

  /** The things and channels whose removal was announced although they are still there. */
  datatype Lost = Lost(things: set<Id>, channels: set<Id>)

  const NONE_LOST: Lost := Lost({}, {})

  /** A removal by somebody else loses the entity; one by the owner removes it for the stream, too. */
  ghost function Lose(repo: Repo, c: Call, lost: Lost): Lost {
    if c.DeleteThing? && c.who.Some? then
      lost.(things := LoseOne(repo.things.Keys, c.id, c.who.value, lost.things))
    else if c.DeleteChannel? && c.who.Some? then
      lost.(channels := LoseOne(repo.channels, c.id, c.who.value, lost.channels))
    else lost
  }

  ghost function LoseOne(refs: set<Ref>, id: Id, who: Owner, lost: set<Id>): set<Id> {
    if Foreigner(refs, id, who) then lost + {id} else lost - {id}
  }

  function Visible(refs: set<Ref>, lost: set<Id>): set<Ref> {
    set t | t in refs && t.id !in lost
  }

  ghost predicate AllThere(refs: set<Ref>, lost: set<Id>) {
    forall id :: id in lost ==> exists t :: t in refs && t.id == id
  }

  /** The view shows exactly the things and channels that are not lost, no connection that is not there,
      and every connection of which neither side is lost. */
  ghost predicate Lacks(v: View, repo: Repo, lost: Lost) {
    && SameRefs(v.things, Visible(repo.things.Keys, lost.things)) && AllThere(repo.things.Keys, lost.things)
    && SameRefs(v.channels, Visible(repo.channels, lost.channels)) && AllThere(repo.channels, lost.channels)
    && LinksLack(v.links, repo, lost)
  }

  ghost predicate LinksLack(links: set<(Id, Id)>, repo: Repo, lost: Lost) {
    && (forall ch, th :: (ch, th) in links ==> Connected(repo, ch, th))
    && (forall ch, th :: Connected(repo, ch, th) && th !in lost.things && ch !in lost.channels ==> (ch, th) in links)
  }

  // ----- Replaying the events of one call ------------------------------------------------------------

  lemma KnownRef(m: map<Id, Owner>, refs: set<Ref>, id: Id)
    requires SameRefs(m, refs)
    ensures id in m ==> Ref(id, m[id]) in refs
  {
  }

  lemma {:induction false} CreateThingsReplay(v: View, things: map<Ref, Key>, rows: seq<ThingRow>, ids: seq<Id>)
    requires SameRefs(v.things, things.Keys) && InsertThings(things, rows).Some?
    requires |ids| == |rows| && Distinct(ids) && forall i :: 0 <= i < |rows| ==> rows[i].ref.id == ids[i]
    requires forall t :: t in things ==> t.id !in ids
    ensures var r := Replay(v, ThingEvents(rows));
            && SameRefs(r.things, InsertThings(things, rows).value.Keys)
            && r.channels == v.channels && r.links == v.links
    decreases |rows|
  {
    if rows != [] {
      var e := CreateThing(rows[0].ref.id, rows[0].ref.owner);
      assert ThingEvents(rows) == [e] + ThingEvents(rows[1..]);
      assert ids == [ids[0]] + ids[1..];
      DistinctSplit([ids[0]], ids[1..]);
      KnownRef(v.things, things.Keys, ids[0]);
      CreateThingsReplay(Apply(v, e), things[rows[0].ref := rows[0].key], rows[1..], ids[1..]);
    }
  }

  lemma {:induction false} CreateChannelsReplay(v: View, channels: set<Ref>, rows: seq<Ref>, ids: seq<Id>)
    requires SameRefs(v.channels, channels) && InsertChannels(channels, rows).Some?
    requires |ids| == |rows| && Distinct(ids) && forall i :: 0 <= i < |rows| ==> rows[i].id == ids[i]
    requires forall t :: t in channels ==> t.id !in ids
    ensures var r := Replay(v, ChannelEvents(rows));
            && SameRefs(r.channels, InsertChannels(channels, rows).value)
            && r.things == v.things && r.links == v.links
    decreases |rows|
  {
    if rows != [] {
      var e := CreateChannel(rows[0].id, rows[0].owner);
      assert ChannelEvents(rows) == [e] + ChannelEvents(rows[1..]);
      assert ids == [ids[0]] + ids[1..];
      DistinctSplit([ids[0]], ids[1..]);
      KnownRef(v.channels, channels, ids[0]);
      CreateChannelsReplay(Apply(v, e), channels + {rows[0]}, rows[1..], ids[1..]);
    }
  }

  lemma {:induction false} ConnectReplay(v: View, rows: seq<Conn>)
    ensures Replay(v, ConnectEvents(rows)) == v.(links := v.links + set c | c in rows :: (c.channel.id, c.thing.id))
    decreases |rows|
  {
    if rows == [] {
      assert v.links + {} == v.links;
    } else {
      var e := ConnectThing(rows[0].channel.id, rows[0].thing.id);
      assert ConnectEvents(rows) == [e] + ConnectEvents(rows[1..]);
      ConnectReplay(Apply(v, e), rows[1..]);
      assert rows == [rows[0]] + rows[1..];
      assert (set c | c in rows :: (c.channel.id, c.thing.id))
          == {(rows[0].channel.id, rows[0].thing.id)} + set c | c in rows[1..] :: (c.channel.id, c.thing.id);
    }
  }

  // ----- One call ------------------------------------------------------------------------------------

  lemma SameConnected(repo: Repo, repo': Repo)
    requires repo'.connections == repo.connections
    ensures forall ch, th :: Connected(repo', ch, th) <==> Connected(repo, ch, th)
  {
  }

  /** What is visible after a removal is what was, without the entity that was named. */
  lemma RemovedVisible(refs: set<Ref>, id: Id, who: Owner, lost: set<Id>)
    requires OneOwner(refs) && AllThere(refs, lost)
    ensures var refs', lost' := refs - {Ref(id, who)}, LoseOne(refs, id, who, lost);
            && Visible(refs', lost') == (set t | t in Visible(refs, lost) && t.id != id)
            && AllThere(refs', lost')
  {
    var refs', lost' := refs - {Ref(id, who)}, LoseOne(refs, id, who, lost);
    forall t ensures t in Visible(refs', lost') <==> t in Visible(refs, lost) && t.id != id {
    }
    forall x | x in lost' ensures exists t :: t in refs' && t.id == x {
      if x == id {
        var t :| t in refs && t.id == id && t.owner != who;
        assert t in refs';
      } else {
        var t :| t in refs && t.id == x;
        assert t in refs';
      }
    }
  }

  /** Inserting into a part of the table. */
  lemma InsertThingsShown(things: map<Ref, Key>, shown: map<Ref, Key>, rows: seq<ThingRow>)
    requires InsertThings(things, rows).Some?
    requires forall t :: t in shown ==> t in things && shown[t] == things[t]
    ensures InsertThings(things, rows) == Some(things + Table(rows))
    ensures InsertThings(shown, rows) == Some(shown + Table(rows))
  {
    InsertThingsExact(things, rows);
    InsertThingsExact(shown, rows);
    forall k | k in shown.Values ensures k in things.Values {
      var t :| t in shown && shown[t] == k;
      assert things[t] == k;
    }
  }

  lemma NotLost(refs: set<Ref>, lost: set<Id>, ids: seq<Id>)
    requires AllThere(refs, lost) && forall t :: t in refs ==> t.id !in ids
    ensures forall id :: id in ids ==> id !in lost
  {
  }

  lemma TableIds(rows: seq<ThingRow>, ids: seq<Id>)
    requires |ids| == |rows| && forall i :: 0 <= i < |rows| ==> rows[i].ref.id == ids[i]
    ensures forall t :: t in Table(rows) ==> t.id in ids
  {
    forall t | t in Table(rows) ensures t.id in ids {
      TableRefs(rows, t);
    }
  }

  lemma CreateThingsLacks(repo: Repo, rows: seq<ThingRow>, ids: seq<Id>, v: View, lost: Lost)
    requires Lacks(v, repo, lost) && InsertThings(repo.things, rows).Some?
    requires |ids| == |rows| && Distinct(ids) && forall i :: 0 <= i < |rows| ==> rows[i].ref.id == ids[i]
    requires forall t :: t in repo.things ==> t.id !in ids
    ensures Lacks(Replay(v, ThingEvents(rows)), repo.(things := InsertThings(repo.things, rows).value), lost)
  {
    var things := repo.things;
    var shown := map t | t in things && t.id !in lost.things :: things[t];
    assert shown.Keys == Visible(things.Keys, lost.things);
    InsertThingsShown(things, shown, rows);
    CreateThingsReplay(v, shown, rows, ids);
    NotLost(things.Keys, lost.things, ids);
    TableIds(rows, ids);
    assert Visible((things + Table(rows)).Keys, lost.things) == (shown + Table(rows)).Keys;
    SameConnected(repo, repo.(things := things + Table(rows)));
  }

  lemma {:induction false} InsertChannelsShown(channels: set<Ref>, shown: set<Ref>, rows: seq<Ref>)
    requires InsertChannels(channels, rows).Some? && shown <= channels
    ensures InsertChannels(channels, rows).value == channels + SetOf(rows)
    ensures InsertChannels(shown, rows) == Some(shown + SetOf(rows))
    decreases |rows|
  {
    if rows == [] {
      assert channels + SetOf(rows) == channels && shown + SetOf(rows) == shown;
    } else {
      var tail := rows[1..];
      assert rows == [rows[0]] + tail;
      InsertChannelsShown(channels + {rows[0]}, shown + {rows[0]}, tail);
      assert SetOf(rows) == {rows[0]} + SetOf(tail);
      assert channels + {rows[0]} + SetOf(tail) == channels + SetOf(rows);
      assert shown + {rows[0]} + SetOf(tail) == shown + SetOf(rows);
    }
  }

  lemma CreateChannelsLacks(repo: Repo, rows: seq<Ref>, ids: seq<Id>, v: View, lost: Lost)
    requires Lacks(v, repo, lost) && InsertChannels(repo.channels, rows).Some?
    requires |ids| == |rows| && Distinct(ids) && forall i :: 0 <= i < |rows| ==> rows[i].id == ids[i]
    requires forall t :: t in repo.channels ==> t.id !in ids
    ensures Lacks(Replay(v, ChannelEvents(rows)), repo.(channels := InsertChannels(repo.channels, rows).value), lost)
  {
    var channels := repo.channels;
    var shown := Visible(channels, lost.channels);
    InsertChannelsShown(channels, shown, rows);
    CreateChannelsReplay(v, shown, rows, ids);
    NotLost(channels, lost.channels, ids);
    assert forall t :: t in SetOf(rows) ==> t.id in ids;
    assert Visible(channels + SetOf(rows), lost.channels) == shown + SetOf(rows);
    SameConnected(repo, repo.(channels := channels + SetOf(rows)));
  }

  lemma ConnectLacks(v: View, repo: Repo, owner: Owner, chIDs: seq<Id>, thIDs: seq<Id>, lost: Lost)
    requires Lacks(v, repo, lost) && ConnectRepo(repo, owner, chIDs, thIDs).0.None?
    ensures var events := ConnectEvents(Product(owner, chIDs, thIDs));
            Lacks(Replay(v, events), ConnectRepo(repo, owner, chIDs, thIDs).1, lost)
  {
    var rows, repo' := Product(owner, chIDs, thIDs), ConnectRepo(repo, owner, chIDs, thIDs).1;
    ConnectReplay(v, rows);
    InsertConnectionsExact(repo, repo.connections, rows);
    assert repo' == repo.(connections := InsertConnections(repo, repo.connections, rows).1);
    assert forall c :: c in repo'.connections <==> c in repo.connections || c in rows;
    var added := set c | c in rows :: (c.channel.id, c.thing.id);
    forall ch, th ensures Connected(repo', ch, th) <==> Connected(repo, ch, th) || (ch, th) in added {
      if (ch, th) in added {
        var c :| c in rows && (c.channel.id, c.thing.id) == (ch, th);
        assert c in repo'.connections;
      }
      if Connected(repo, ch, th) {
        var c :| c in repo.connections && c.channel.id == ch && c.thing.id == th;
        assert c in repo'.connections;
      }
    }
  }

  lemma DisconnectLacks(v: View, repo: Repo, owner: Owner, ch: Id, th: Id, lost: Lost)
    requires Consistent(repo) && Lacks(v, repo, lost) && DisconnectRepo(repo, owner, ch, th).0.None?
    ensures Lacks(Apply(v, DisconnectThing(ch, th)), DisconnectRepo(repo, owner, ch, th).1, lost)
  {
    var repo', gone := DisconnectRepo(repo, owner, ch, th).1, Conn(Ref(ch, owner), Ref(th, owner));
    forall x, y ensures Connected(repo', x, y) <==> Connected(repo, x, y) && (x, y) != (ch, th) {
      if Connected(repo, x, y) {
        var c :| c in repo.connections && c.channel.id == x && c.thing.id == y;
        if (x, y) == (ch, th) {
          assert c == gone;
        } else {
          assert c in repo'.connections;
        }
      }
    }
  }

  /** After a removal only connections of the entity named are gone, and if any are left it is lost. */
  lemma ThingLinksLeft(repo: Repo, owner: Owner, id: Id)
    requires Consistent(repo)
    ensures var repo' := RemoveThingRepo(repo, owner, id);
            && (forall x, y :: Connected(repo', x, y) ==> Connected(repo, x, y))
            && (forall x, y :: Connected(repo, x, y) && y != id ==> Connected(repo', x, y))
            && (forall x :: Connected(repo', x, id) ==> Foreigner(repo.things.Keys, id, owner))
  {
    var repo', gone := RemoveThingRepo(repo, owner, id), Ref(id, owner);
    forall x, y | Connected(repo, x, y) && y != id ensures Connected(repo', x, y) {
      var c :| c in repo.connections && c.channel.id == x && c.thing.id == y;
      assert c in repo'.connections;
    }
    forall x | Connected(repo', x, id) ensures Foreigner(repo.things.Keys, id, owner) {
      var c :| c in repo'.connections && c.channel.id == x && c.thing.id == id;
      assert c.thing in repo.things && c.thing != gone;
    }
  }

  lemma DeleteThingLacks(v: View, repo: Repo, owner: Owner, id: Id, lost: Lost)
    requires Consistent(repo) && Lacks(v, repo, lost)
    ensures Lacks(Apply(v, RemoveThing(id)), RemoveThingRepo(repo, owner, id),
                  lost.(things := LoseOne(repo.things.Keys, id, owner, lost.things)))
  {
    var repo' := RemoveThingRepo(repo, owner, id);
    RemovedVisible(repo.things.Keys, id, owner, lost.things);
    assert repo'.things.Keys == repo.things.Keys - {Ref(id, owner)};
    ThingLinksLeft(repo, owner, id);
  }

  lemma ChannelLinksLeft(repo: Repo, owner: Owner, id: Id)
    requires Consistent(repo)
    ensures var repo' := RemoveChannelRepo(repo, owner, id);
            && (forall x, y :: Connected(repo', x, y) ==> Connected(repo, x, y))
            && (forall x, y :: Connected(repo, x, y) && x != id ==> Connected(repo', x, y))
            && (forall y :: Connected(repo', id, y) ==> Foreigner(repo.channels, id, owner))
  {
    var repo', gone := RemoveChannelRepo(repo, owner, id), Ref(id, owner);
    forall x, y | Connected(repo, x, y) && x != id ensures Connected(repo', x, y) {
      var c :| c in repo.connections && c.channel.id == x && c.thing.id == y;
      assert c in repo'.connections;
    }
    forall y | Connected(repo', id, y) ensures Foreigner(repo.channels, id, owner) {
      var c :| c in repo'.connections && c.channel.id == id && c.thing.id == y;
      assert c.channel in repo.channels && c.channel != gone;
    }
  }

  lemma DeleteChannelLacks(v: View, repo: Repo, owner: Owner, id: Id, lost: Lost)
    requires Consistent(repo) && Lacks(v, repo, lost)
    ensures Lacks(Apply(v, RemoveChannel(id)), RemoveChannelRepo(repo, owner, id),
                  lost.(channels := LoseOne(repo.channels, id, owner, lost.channels)))
  {
    RemovedVisible(repo.channels, id, owner, lost.channels);
    ChannelLinksLeft(repo, owner, id);
  }

  lemma ThingsCreatedLacks(w: World, c: Call, lost: Lost)
    requires Inv(w) && Allowed(w, c) && Lacks(Replay(NOTHING, w.st.log), w.st.repo, lost) && c.CreateThings?
    ensures Lacks(Replay(NOTHING, Next(w, c).st.log), Next(w, c).st.repo, lost)
  {
    if c.who.Some? {
      var rows := NewRows(c.who.value, c.keys, c.ids, c.newKeys);
      if InsertThings(w.st.repo.things, rows).Some? {
        ReplayAppend(NOTHING, w.st.log, ThingEvents(rows));
        CreateThingsLacks(w.st.repo, rows, c.ids, Replay(NOTHING, w.st.log), lost);
      }
    }
  }

  lemma ChannelsCreatedLacks(w: World, c: Call, lost: Lost)
    requires Inv(w) && Allowed(w, c) && Lacks(Replay(NOTHING, w.st.log), w.st.repo, lost) && c.CreateChannels?
    ensures Lacks(Replay(NOTHING, Next(w, c).st.log), Next(w, c).st.repo, lost)
  {
    if c.who.Some? {
      var rows := NewChannels(c.who.value, c.ids);
      if InsertChannels(w.st.repo.channels, rows).Some? {
        ReplayAppend(NOTHING, w.st.log, ChannelEvents(rows));
        CreateChannelsLacks(w.st.repo, rows, c.ids, Replay(NOTHING, w.st.log), lost);
      }
    }
  }

  lemma DeleteLacks(w: World, c: Call, lost: Lost)
    requires Inv(w) && Allowed(w, c) && Lacks(Replay(NOTHING, w.st.log), w.st.repo, lost)
    requires c.DeleteThing? || c.DeleteChannel?
    ensures Lacks(Replay(NOTHING, Next(w, c).st.log), Next(w, c).st.repo, Lose(w.st.repo, c, lost))
  {
    var v := Replay(NOTHING, w.st.log);
    if c.who.Some? {
      if c.DeleteThing? {
        ApplyLast(w.st.log, RemoveThing(c.id));
        DeleteThingLacks(v, w.st.repo, c.who.value, c.id, lost);
      } else {
        ApplyLast(w.st.log, RemoveChannel(c.id));
        DeleteChannelLacks(v, w.st.repo, c.who.value, c.id, lost);
      }
    }
  }

  lemma ConnectedLacks(w: World, c: Call, lost: Lost)
    requires Lacks(Replay(NOTHING, w.st.log), w.st.repo, lost) && c.Connect?
    ensures Lacks(Replay(NOTHING, Next(w, c).st.log), Next(w, c).st.repo, lost)
  {
    if c.who.Some? && ConnectRepo(w.st.repo, c.who.value, c.chIDs, c.thIDs).0.None? {
      ReplayAppend(NOTHING, w.st.log, ConnectEvents(Product(c.who.value, c.chIDs, c.thIDs)));
      ConnectLacks(Replay(NOTHING, w.st.log), w.st.repo, c.who.value, c.chIDs, c.thIDs, lost);
    }
  }

  lemma DisconnectedLacks(w: World, c: Call, lost: Lost)
    requires Consistent(w.st.repo) && Lacks(Replay(NOTHING, w.st.log), w.st.repo, lost) && c.Disconnect?
    ensures Lacks(Replay(NOTHING, Next(w, c).st.log), Next(w, c).st.repo, lost)
  {
    if c.who.Some? && DisconnectRepo(w.st.repo, c.who.value, c.chanID, c.thingID).0.None? {
      ApplyLast(w.st.log, DisconnectThing(c.chanID, c.thingID));
      DisconnectLacks(Replay(NOTHING, w.st.log), w.st.repo, c.who.value, c.chanID, c.thingID, lost);
    }
  }

  /** The calls that announce nothing change neither things nor channels nor connections. */
  lemma QuietKeeps(w: World, c: Call)
    requires Supplied(c) && (c.UpdateKey? || c.CanAccessByKey? || c.CanAccessByID? || c.Identify?)
    ensures Next(w, c).st.log == w.st.log
    ensures var repo, repo' := w.st.repo, Next(w, c).st.repo;
            && repo'.things.Keys == repo.things.Keys
            && repo'.channels == repo.channels
            && repo'.connections == repo.connections
  {
    if c.UpdateKey? && c.who.Some? {
      UpdateKeyRefs(w.st.repo, c.who.value, c.id, c.key);
    }
  }

  lemma QuietLacks(w: World, c: Call, lost: Lost)
    requires Supplied(c) && (c.UpdateKey? || c.CanAccessByKey? || c.CanAccessByID? || c.Identify?)
    requires Lacks(Replay(NOTHING, w.st.log), w.st.repo, lost)
    ensures Lacks(Replay(NOTHING, Next(w, c).st.log), Next(w, c).st.repo, lost)
  {
    QuietKeeps(w, c);
    SameConnected(w.st.repo, Next(w, c).st.repo);
  }

  lemma UpdateKeyRefs(repo: Repo, owner: Owner, id: Id, key: Key)
    ensures var repo' := UpdateKeyRepo(repo, owner, id, key).1;
            && repo'.things.Keys == repo.things.Keys
            && repo'.channels == repo.channels
            && repo'.connections == repo.connections
  {
  }

  lemma ApplyLast(log: seq<Event>, e: Event)
    ensures Replay(NOTHING, log + [e]) == Apply(Replay(NOTHING, log), e)
  {
    ReplayAppend(NOTHING, log, [e]);
  }

  /** Every call, foreign removals included, keeps account of what the stream lacks. */
  lemma StepLacks(w: World, c: Call, lost: Lost)
    requires Inv(w) && Allowed(w, c) && Lacks(Replay(NOTHING, w.st.log), w.st.repo, lost)
    ensures Lacks(Replay(NOTHING, Next(w, c).st.log), Next(w, c).st.repo, Lose(w.st.repo, c, lost))
  {
    match c
    case CreateThings(_, _, _, _) => ThingsCreatedLacks(w, c, lost);
    case CreateChannels(_, _) => ChannelsCreatedLacks(w, c, lost);
    case DeleteThing(_, _) => DeleteLacks(w, c, lost);
    case DeleteChannel(_, _) => DeleteLacks(w, c, lost);
    case Connect(_, _, _) => ConnectedLacks(w, c, lost);
    case Disconnect(_, _, _) => DisconnectedLacks(w, c, lost);
    case _ => QuietLacks(w, c, lost);
  }

  /** The view is complete if and only if nothing is lost. */
  lemma CompleteExact(v: View, repo: Repo, lost: Lost)
    requires Lacks(v, repo, lost)
    ensures Rebuilds(v, repo) <==> lost == NONE_LOST
  {
    if lost == NONE_LOST {
      assert Visible(repo.things.Keys, {}) == repo.things.Keys && Visible(repo.channels, {}) == repo.channels;
    } else if lost.things != {} {
      var id :| id in lost.things;
      var t :| t in repo.things && t.id == id;
      NotShown(v.things, repo.things.Keys, lost.things, t);
    } else {
      var id :| id in lost.channels;
      var t :| t in repo.channels && t.id == id;
      NotShown(v.channels, repo.channels, lost.channels, t);
    }
  }

  lemma NotShown(m: map<Id, Owner>, refs: set<Ref>, lost: set<Id>, t: Ref)
    requires SameRefs(m, Visible(refs, lost)) && t in refs && t.id in lost
    ensures !SameRefs(m, refs)
  {
    assert t !in Visible(refs, lost);
    assert !(t.id in m && m[t.id] == t.owner);
  }

  /** A call keeps the stream complete if and only if it is not the removal of somebody else's entity. */
  lemma StepRebuilds(w: World, c: Call)
    requires Inv(w) && Allowed(w, c)
    requires Rebuilds(Replay(NOTHING, w.st.log), w.st.repo)
    ensures Rebuilds(Replay(NOTHING, Next(w, c).st.log), Next(w, c).st.repo) <==> !Foreign(w.st.repo, c)
  {
    NothingLost(Replay(NOTHING, w.st.log), w.st.repo);
    StepLacks(w, c, NONE_LOST);
    CompleteExact(Replay(NOTHING, Next(w, c).st.log), Next(w, c).st.repo, Lose(w.st.repo, c, NONE_LOST));
  }

  lemma NothingLost(v: View, repo: Repo)
    requires Rebuilds(v, repo)
    ensures Lacks(v, repo, NONE_LOST)
  {
    assert Visible(repo.things.Keys, {}) == repo.things.Keys && Visible(repo.channels, {}) == repo.channels;
  }

  // ----- Every run -----------------------------------------------------------------------------------

  /** The calls lead to w, and these are the entities lost on the way and not removed by their owners. */
  ghost predicate Loses(calls: seq<Call>, w: World, lost: Lost)
    decreases |calls|
  {
    if calls == [] then w == START && lost == NONE_LOST
    else
      var c := calls[|calls| - 1];
      exists v, before :: Moves(v, c, w) && lost == Lose(v.st.repo, c, before)
                          && Loses(calls[..|calls| - 1], v, before)
  }

  lemma {:induction false} EveryRunLoses(calls: seq<Call>, w: World) returns (lost: Lost)
    requires Reaches(START, calls, w)
    ensures Loses(calls, w, lost)
    decreases |calls|
  {
    if calls == [] {
      lost := NONE_LOST;
    } else {
      var c := calls[|calls| - 1];
      var v :| Moves(v, c, w) && Reaches(START, calls[..|calls| - 1], v);
      var before := EveryRunLoses(calls[..|calls| - 1], v);
      lost := Lose(v.st.repo, c, before);
    }
  }

  lemma {:induction false} RunLacks(calls: seq<Call>, w: World, lost: Lost)
    requires Loses(calls, w, lost)
    ensures Inv(w) && Lacks(Replay(NOTHING, w.st.log), w.st.repo, lost)
    decreases |calls|
  {
    if calls != [] {
      var c := calls[|calls| - 1];
      var v, before :| Moves(v, c, w) && lost == Lose(v.st.repo, c, before) && Loses(calls[..|calls| - 1], v, before);
      RunLacks(calls[..|calls| - 1], v, before);
      StepInv(v, c);
      StepLacks(v, c, before);
    }
  }

  /** Over every run, replaying the stream shows exactly the things and channels that nobody else has
      removed, and the connections between them; so it rebuilds the tables if and only if nothing that
      still exists has been removed by somebody else. */
  lemma StreamExact(calls: seq<Call>, w: World, lost: Lost)
    requires Loses(calls, w, lost)
    ensures Lacks(Replay(NOTHING, w.st.log), w.st.repo, lost)
    ensures Rebuilds(Replay(NOTHING, w.st.log), w.st.repo) <==> lost == NONE_LOST
  {
    RunLacks(calls, w, lost);
    CompleteExact(Replay(NOTHING, w.st.log), w.st.repo, lost);
  }

  /** Runs in which every removal is issued by the owner, or names nothing that exists. */
  ghost predicate OwnerRun(calls: seq<Call>, w: World)
    decreases |calls|
  {
    if calls == [] then w == START
    else
      var c := calls[|calls| - 1];
      exists v :: Moves(v, c, w) && !Foreign(v.st.repo, c) && OwnerRun(calls[..|calls| - 1], v)
  }

  ghost predicate OwnerReachable(w: World) {
    exists calls :: OwnerRun(calls, w)
  }

  lemma {:induction false} RunRebuilds(calls: seq<Call>, w: World)
    requires OwnerRun(calls, w)
    ensures Inv(w) && Rebuilds(Replay(NOTHING, w.st.log), w.st.repo)
    decreases |calls|
  {
    if calls != [] {
      var before, c := calls[..|calls| - 1], calls[|calls| - 1];
      var v :| Moves(v, c, w) && !Foreign(v.st.repo, c) && OwnerRun(before, v);
      RunRebuilds(before, v);
      StepInv(v, c);
      StepRebuilds(v, c);
    }
  }

  /** In every state of such a run, replaying the whole stream rebuilds exactly the repository's things,
      channels and connections. */
  lemma StreamRebuilds(w: World)
    requires OwnerReachable(w)
    ensures Rebuilds(Replay(NOTHING, w.st.log), w.st.repo)
  {
    var calls :| OwnerRun(calls, w);
    RunRebuilds(calls, w);
  }
}
