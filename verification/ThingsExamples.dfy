// Reachable states in which the things service is not what it is meant to be: a replaced key that is
// served after its thing is gone, and an event stream that misleads.
module ThingsExamples {
  import opened Common
  import opened ThingsModel
  import opened ThingsRepository
  import opened ThingsRuns
  import opened ThingsEvents
  import opened ThingsStale

  /** One more call in a run. */
  lemma Calls(w: World, c: Call, st: State) returns (w': World)
    requires Reachable(w) && Allowed(w, c) && Step(w.st, c).0 == st
    ensures Reachable(w') && w' == Next(w, c) && w'.st == st && w'.used == w.used + SetOf(NewIds(c))
    ensures w.replaced <= w'.replaced && (!c.UpdateKey? ==> w'.replaced == w.replaced)
  {
    ReachableNext(w, c);
    w' := Next(w, c);
  }

  function CreateOne(t: Ref, k: Key): Call {
    CreateThings(Some(t.owner), [k], [t.id], [k])
  }

  lemma CreatesOne(st: State, t: Ref, k: Key)
    requires k != "" && t !in st.repo.things && k !in st.repo.things.Values
    requires forall u :: u in st.repo.things ==> u.id != t.id
    ensures Step(st, CreateOne(t, k)).0 == st.(repo := st.repo.(things := st.repo.things[t := k]),
                                               log := st.log + [CreateThing(t.id, t.owner)])
  {
    var rows := NewRows(t.owner, [k], [t.id], [k]);
    assert rows == [ThingRow(t, k)] && rows[1..] == [];
    assert InsertThings(st.repo.things, rows) == InsertThings(st.repo.things[t := k], rows[1..]);
    assert ThingEvents(rows) == [CreateThing(t.id, t.owner)];
  }

  /** One owner with one thing. */
  lemma OneThing(th: Ref, k: Key) returns (w: World)
    requires k != ""
    ensures Reachable(w) && OwnerReachable(w) && w.used == {th.id} && w.replaced == {}
    ensures w.st == State(Repo(map[th := k], {}, {}), ThingCache(map[], map[]), map[], [CreateThing(th.id, th.owner)])
  {
    assert Reaches(START, [], START);
    var c, log := CreateOne(th, k), [CreateThing(th.id, th.owner)];
    CreatesOne(START.st, th, k);
    assert [] + log == log;
    w := Calls(START, c, State(Repo(map[th := k], {}, {}), ThingCache(map[], map[]), map[], log));
    OwnersFirst(c, w);
  }

  lemma OwnersFirst(c: Call, w: World)
    requires Moves(START, c, w) && !Foreign(START.st.repo, c)
    ensures OwnerReachable(w)
  {
    var calls := [c];
    assert OwnerRun([], START) && calls[..|calls| - 1] == [];
    assert OwnerRun(calls, w);
  }

  /** The owner has a channel, too. */
  lemma OneChannel(th: Ref, ch: Ref, k: Key) returns (w: World)
    requires k != "" && th.owner == ch.owner && th.id != ch.id
    ensures Reachable(w) && w.used == {th.id, ch.id}
    ensures w.st.things == ThingCache(map[], map[]) && w.st.channels == map[] && w.replaced == {}
    ensures w.st.repo == Repo(map[th := k], {ch}, {})
  {
    var w1 := OneThing(th, k);
    var create := CreateChannels(Some(ch.owner), [ch.id]);
    CreatesChannel(w1.st, ch);
    w := Calls(w1, create, Step(w1.st, create).0);
    assert w.used == {th.id, ch.id};
  }

  lemma CreatesChannel(st: State, ch: Ref)
    requires st.repo.channels == {}
    ensures var st' := Step(st, CreateChannels(Some(ch.owner), [ch.id])).0;
            st'.repo == st.repo.(channels := {ch}) && st'.things == st.things && st'.channels == st.channels
  {
    var rows := NewChannels(ch.owner, [ch.id]);
    assert rows == [ch] && rows[1..] == [] && {} + {ch} == {ch};
    assert InsertChannels({}, rows) == InsertChannels({} + {ch}, rows[1..]);
  }

  /** The thing is connected to the channel. */
  lemma OneConnection(th: Ref, ch: Ref, k: Key) returns (w: World)
    requires k != "" && th.owner == ch.owner && th.id != ch.id
    ensures Reachable(w) && w.used == {th.id, ch.id}
    ensures w.st.things == ThingCache(map[], map[]) && w.st.channels == map[] && w.replaced == {}
    ensures w.st.repo == Repo(map[th := k], {ch}, {Conn(ch, th)})
  {
    var w1 := OneChannel(th, ch, k);
    var connect := Connect(Some(ch.owner), [ch.id], [th.id]);
    ConnectsOne(w1.st.repo, ch, th);
    w := Calls(w1, connect, Step(w1.st, connect).0);
  }

  lemma ConnectsOne(repo: Repo, ch: Ref, th: Ref)
    requires ch.owner == th.owner && th in repo.things && ch in repo.channels && repo.connections == {}
    ensures ConnectRepo(repo, ch.owner, [ch.id], [th.id]) == (None, repo.(connections := {Conn(ch, th)}))
  {
    ConnectExact(repo, ch.owner, [ch.id], [th.id]);
    assert repo.connections + Pairs(ch.owner, [ch.id], [th.id]) == {Conn(ch, th)};
  }

  /** The thing has used its channel. */
  lemma ChannelUsed(th: Ref, ch: Ref, k: Key) returns (w: World)
    requires k != "" && th.owner == ch.owner && th.id != ch.id
    ensures Reachable(w) && w.used == {th.id, ch.id} && w.st.repo == Repo(map[th := k], {ch}, {Conn(ch, th)})
    ensures w.st.things == ThingCache(map[k := th.id], map[th.id := k]) && w.st.channels == map[ch.id := {th.id}]
  {
    var w1 := OneConnection(th, ch, k);
    OnlyThing(w1.st.repo, th, k);
    assert Conn(ch, th) in w1.st.repo.connections;
    assert Members(w1.st.channels, ch.id) + {th.id} == {th.id};
    w := Calls(w1, CanAccessByKey(ch.id, k), CanAccessByKeyCall(w1.st, ch.id, k).0);
  }

  /** Its key is replaced. */
  lemma KeyReplaced(th: Ref, ch: Ref, k: Key, m: Key) returns (w: World)
    requires k != "" && k != m && th.owner == ch.owner && th.id != ch.id
    ensures Reachable(w) && w.used == {th.id, ch.id} && k in w.replaced
    ensures w.st.repo == Repo(map[th := m], {ch}, {Conn(ch, th)})
    ensures w.st.things == ThingCache(map[k := th.id], map[th.id := k]) && w.st.channels == map[ch.id := {th.id}]
  {
    var w1 := ChannelUsed(th, ch, k);
    var update := UpdateKey(Some(th.owner), th.id, m);
    w := Calls(w1, update, w1.st.(repo := w1.st.repo.(things := map[th := m])));
  }

  /** Another thing, perhaps of another owner, is created with the old key. The state can be reached, and
      Identify and CanAccessByKey take the new thing for the old one. */
  lemma RegivenKeyMisleads(th: Ref, ch: Ref, k: Key, m: Key, other: Ref) returns (w: World)
    requires k != "" && k != m && th.owner == ch.owner && th.id != ch.id && other.id !in {th.id, ch.id}
    ensures Reachable(w) && RetrieveByKey(w.st.repo, k) == Some(other.id)
    ensures IdentifyCall(w.st, k).1 == Answer(th.id) && CanAccessByKeyCall(w.st, ch.id, k).1 == Answer(th.id)
    ensures HasThing(w.st.repo, ch.id, k).None?
  {
    var w1 := KeyReplaced(th, ch, k, m);
    CreatesOne(w1.st, other, k);
    w := Calls(w1, CreateOne(other, k), Step(w1.st, CreateOne(other, k)).0);
    KeyOfOther(w.st.repo, th, m, other, k);
    assert forall c :: c in w.st.repo.connections ==> c.thing.id == th.id;
  }

  lemma KeyOfOther(repo: Repo, th: Ref, m: Key, other: Ref, k: Key)
    requires repo.things == map[th := m][other := k] && m != k
    ensures RetrieveByKey(repo, k) == Some(other.id)
  {
    assert repo.things[other] == k;
    assert k in repo.things.Values;
  }

  /** The new key has been used. */
  lemma NewKeyUsed(th: Ref, ch: Ref, k: Key, m: Key) returns (w: World)
    requires k != "" && k != m && th.owner == ch.owner && th.id != ch.id
    ensures Reachable(w) && k in w.replaced && w.st.repo == Repo(map[th := m], {ch}, {Conn(ch, th)})
    ensures w.st.things == ThingCache(map[k := th.id, m := th.id], map[th.id := m])
    ensures w.st.channels == map[ch.id := {th.id}]
  {
    var w1 := KeyReplaced(th, ch, k, m);
    OnlyThing(w1.st.repo, th, m);
    var things := CacheSave(w1.st.things, m, th.id);
    assert things == ThingCache(map[k := th.id, m := th.id], map[th.id := m]);
    w := Calls(w1, Identify(m), w1.st.(things := things));
  }

  /** And then the thing is removed. The state can be reached, and the old key still opens the channel, as
      does the thing's id. */
  lemma RemovedThingServed(th: Ref, ch: Ref, k: Key, m: Key) returns (w: World)
    requires k != "" && k != m && th.owner == ch.owner && th.id != ch.id
    ensures Reachable(w) && k in w.replaced && w.st.repo.things == map[] && w.st.repo.connections == {}
    ensures RetrieveByKey(w.st.repo, k).None? && Orphaned(w.st.things, k)
    ensures IdentifyCall(w.st, k).1 == Answer(th.id) && CanAccessByKeyCall(w.st, ch.id, k).1 == Answer(th.id)
    ensures CanAccessByIDCall(w.st, ch.id, th.id).1 == Done && !Connected(w.st.repo, ch.id, th.id)
  {
    var w1 := NewKeyUsed(th, ch, k, m);
    var delete := DeleteThing(Some(th.owner), th.id);
    w := Calls(w1, delete, DeleteThingCall(w1.st, th.owner, th.id).0);
    assert w.st.things == ThingCache(map[k := th.id], map[]);
  }

  lemma OnlyThing(repo: Repo, th: Ref, key: Key)
    requires repo.things == map[th := key]
    ensures RetrieveByKey(repo, key) == Some(th.id)
  {
    assert repo.things[th] == key;
    assert key in repo.things.Values;
  }

  /** Somebody else removes the thing. Nothing is removed, but the stream says so and is wrong from then
      on. */
  lemma ForeignRemovalBreaks(th: Ref, k: Key, other: Owner) returns (w: World, c: Call)
    requires k != "" && other != th.owner
    ensures OwnerReachable(w) && Allowed(w, c) && Foreign(w.st.repo, c)
    ensures Rebuilds(Replay(NOTHING, w.st.log), w.st.repo)
    ensures Next(w, c).st.repo == w.st.repo && !Rebuilds(Replay(NOTHING, Next(w, c).st.log), Next(w, c).st.repo)
  {
    w := OneThing(th, k);
    c := DeleteThing(Some(other), th.id);
    StreamRebuilds(w);
    ForeignRemoval(w, th, other);
  }

  lemma ForeignRemoval(w: World, th: Ref, other: Owner)
    requires Reachable(w) && th in w.st.repo.things && other != th.owner && Ref(th.id, other) !in w.st.repo.things
    requires Rebuilds(Replay(NOTHING, w.st.log), w.st.repo)
    ensures var c := DeleteThing(Some(other), th.id);
            && Allowed(w, c) && Foreign(w.st.repo, c) && Next(w, c).st.repo == w.st.repo
            && !Rebuilds(Replay(NOTHING, Next(w, c).st.log), Next(w, c).st.repo)
  {
    var c := DeleteThing(Some(other), th.id);
    ReachableInv(w);
    assert Foreigner(w.st.repo.things.Keys, th.id, other);
    StepRebuilds(w, c);
    assert w.st.repo.things - {Ref(th.id, other)} == w.st.repo.things;
  }
}
