// What becomes of a cached key, also when it has been replaced or given to another thing: UpdateKey does
// not touch the cache, and a key leaves it only with the thing it was last cached for.
module ThingsStale {
  import opened Common
  import opened ThingsModel
  import opened ThingsRepository
  import opened ThingsRuns

  /** The replaced key is refused afterwards, as the repository would refuse it, exactly when the caches
      have no answer: Identify asks for the key, CanAccessByKey also for the channel's member. */
  lemma ReplacedKeyExact(w: World, who: Owner, id: Id, key: Key, chID: Id)
    requires Reachable(w)
    requires UpdateKeyCall(w.st, who, id, key).1.Done? && w.st.repo.things[Ref(id, who)] != key
    ensures var was, st', ids := w.st.repo.things[Ref(id, who)], UpdateKeyCall(w.st, who, id, key).0, w.st.things.ids;
            && RetrieveByKey(st'.repo, was).None?
            && (IdentifyCall(st', was).1 == Failed(UnauthorizedAccess) <==> was !in ids)
            && (CanAccessByKeyCall(st', chID, was).1 == Failed(UnauthorizedAccess) <==>
                !(was in ids && ids[was] in Members(w.st.channels, chID)))
  {
    ReachableInv(w);
    var was, st' := w.st.repo.things[Ref(id, who)], UpdateKeyCall(w.st, who, id, key).0;
    assert was !in st'.repo.things.Values;
  }

  // ----- One call ------------------------------------------------------------------------------------

  /** A removal, by anyone with a valid token, that takes the key out of the cache. */
  predicate Evicts(tc: ThingCache, c: Call, key: Key) {
    c.DeleteThing? && c.who.Some? && c.id in tc.keys && tc.keys[c.id] == key
  }

  /** A request for a channel that the cached thing is no known member of, but the key's thing in the
      repository is: the key is cached anew. */
  ghost predicate Rebinds(st: State, c: Call, key: Key) {
    && c.CanAccessByKey? && c.key == key
    && key in st.things.ids && st.things.ids[key] !in Members(st.channels, c.chanID)
    && HasThing(st.repo, c.chanID, key).Some?
  }

  ghost predicate Interrupts(st: State, c: Call, key: Key) {
    Evicts(st.things, c, key) || Rebinds(st, c, key)
  }

  /** What one call does to a cached key, whatever the repository says about it: an eviction takes it
      out, a rebinding gives it the repository's thing, and any other call leaves it as it is. */
  lemma CachedStep(w: World, c: Call, key: Key)
    requires Allowed(w, c) && key in w.st.things.ids
    ensures var ids, ids' := w.st.things.ids, Next(w, c).st.things.ids;
            && (key in ids' <==> !Evicts(w.st.things, c, key))
            && (Rebinds(w.st, c, key) ==> Some(ids'[key]) == HasThing(w.st.repo, c.chanID, key))
            && (!Interrupts(w.st, c, key) ==> ids'[key] == ids[key])
  {
  }

  /** A key gets into the cache only by a request that finds its thing in the repository. */
  lemma UncachedStep(w: World, c: Call, key: Key)
    requires Allowed(w, c) && key !in w.st.things.ids
    ensures var ids' := Next(w, c).st.things.ids;
            && (key in ids' <==>
                  || (c.Identify? && c.key == key && RetrieveByKey(w.st.repo, key).Some?)
                  || (c.CanAccessByKey? && c.key == key && HasThing(w.st.repo, c.chanID, key).Some?))
            && (key in ids' ==> RetrieveByKey(w.st.repo, key) == Some(ids'[key]))
  {
  }

  // ----- Every run -----------------------------------------------------------------------------------

  /** The calls lead from v to w and none of them interrupts the key. */
  ghost predicate Steady(v: World, calls: seq<Call>, w: World, key: Key)
    decreases |calls|
  {
    if calls == [] then w == v
    else
      var c := calls[|calls| - 1];
      exists u :: Moves(u, c, w) && !Interrupts(u.st, c, key) && Steady(v, calls[..|calls| - 1], u, key)
  }

  lemma {:induction false} SteadyKeeps(v: World, calls: seq<Call>, w: World, key: Key)
    requires Steady(v, calls, w, key) && key in v.st.things.ids
    ensures key in w.st.things.ids && w.st.things.ids[key] == v.st.things.ids[key]
    decreases |calls|
  {
    if calls != [] {
      var c := calls[|calls| - 1];
      var u :| Moves(u, c, w) && !Interrupts(u.st, c, key) && Steady(v, calls[..|calls| - 1], u, key);
      SteadyKeeps(v, calls[..|calls| - 1], u, key);
      CachedStep(u, c, key);
    }
  }

  /** The calls lead from v to w, and the one at index n is the first to interrupt the key, in u. */
  ghost predicate Broken(v: World, calls: seq<Call>, w: World, key: Key, n: nat, u: World) {
    && n < |calls|
    && Steady(v, calls[..n], u, key)
    && Allowed(u, calls[n]) && Interrupts(u.st, calls[n], key)
    && Reaches(Next(u, calls[n]), calls[n + 1..], w)
  }

  lemma {:induction false} FirstInterruption(v: World, calls: seq<Call>, w: World, key: Key) returns (n: nat, u: World)
    requires Reaches(v, calls, w) && !Steady(v, calls, w, key)
    ensures Broken(v, calls, w, key, n, u)
    decreases |calls|
  {
    var before, c, x := LastCall(v, calls, w);
    if Steady(v, before, x, key) {
      n, u := |before|, x;
      SteadyOrBroken(v, before, x, key, c);
    } else {
      n, u := FirstInterruption(v, before, x, key);
      BrokenNext(v, before, x, key, n, u, c);
    }
  }

  lemma LastCall(v: World, calls: seq<Call>, w: World) returns (before: seq<Call>, c: Call, x: World)
    requires Reaches(v, calls, w) && calls != []
    ensures calls == before + [c] && Allowed(x, c) && w == Next(x, c) && Reaches(v, before, x)
  {
    var last := |calls| - 1;
    before, c := calls[..last], calls[last];
    x :| Moves(x, c, w) && Reaches(v, before, x);
  }

  lemma SteadyOrBroken(v: World, calls: seq<Call>, x: World, key: Key, c: Call)
    requires Steady(v, calls, x, key) && Allowed(x, c)
    ensures if Interrupts(x.st, c, key) then Broken(v, calls + [c], Next(x, c), key, |calls|, x)
            else Steady(v, calls + [c], Next(x, c), key)
  {
    var all := calls + [c];
    assert all[|all| - 1] == c && all[..|all| - 1] == calls && all[|calls| + 1..] == [];
    if !Interrupts(x.st, c, key) {
      assert Moves(x, c, Next(x, c));
    }
  }

  lemma BrokenNext(v: World, calls: seq<Call>, x: World, key: Key, n: nat, u: World, c: Call)
    requires Broken(v, calls, x, key, n, u) && Allowed(x, c)
    ensures Broken(v, calls + [c], Next(x, c), key, n, u)
  {
    var all := calls + [c];
    ReachesNext(Next(u, calls[n]), calls[n + 1..], x, c);
    assert all[n] == calls[n] && all[..n] == calls[..n] && all[n + 1..] == calls[n + 1..] + [c];
  }

  /** Over every run: as long as no call interrupts a cached key, Identify answers the thing it was cached
      for, and CanAccessByKey does where that thing is a cached member and otherwise asks the repository;
      and if they do not, there was a first interruption. */
  lemma StaleKeyExact(v: World, calls: seq<Call>, w: World, key: Key, chID: Id)
    requires Reaches(v, calls, w) && key in v.st.things.ids
    ensures Steady(v, calls, w, key) ==>
              && IdentifyCall(w.st, key).1 == Answer(v.st.things.ids[key])
              && CanAccessByKeyCall(w.st, chID, key).1 ==
                   if v.st.things.ids[key] in Members(w.st.channels, chID) then Answer(v.st.things.ids[key])
                   else Granted(HasThing(w.st.repo, chID, key))
    ensures !Steady(v, calls, w, key) ==> exists n, u :: Broken(v, calls, w, key, n, u)
  {
    if Steady(v, calls, w, key) {
      SteadyKeeps(v, calls, w, key);
    } else {
      var n, u := FirstInterruption(v, calls, w, key);
    }
  }

  /** The repository's answer as the service passes it on. */
  function Granted(id: Option<Id>): Reply {
    match id
    case None => Failed(UnauthorizedAccess)
    case Some(id) => Answer(id)
  }

  // ----- Keys that no thing has ----------------------------------------------------------------------

  /** A call that gives the key to a thing. */
  predicate Gives(c: Call, key: Key) {
    || (c.CreateThings? && (key in c.keys || key in c.newKeys))
    || (c.UpdateKey? && c.key == key)
  }

  lemma {:induction false} InsertedKeys(things: map<Ref, Key>, rows: seq<ThingRow>, key: Key)
    requires InsertThings(things, rows).Some? && key !in things.Values
    requires forall i :: 0 <= i < |rows| ==> rows[i].key != key
    ensures key !in InsertThings(things, rows).value.Values
    decreases |rows|
  {
    if rows != [] {
      AddValue(things, rows[0].ref, rows[0].key);
      InsertedKeys(things[rows[0].ref := rows[0].key], rows[1..], key);
    }
  }

  /** A key that no thing has stays so until a call gives it to one. */
  lemma StaysUnknown(w: World, c: Call, key: Key)
    requires Allowed(w, c) && key !in w.st.repo.things.Values && !Gives(c, key)
    ensures key !in Next(w, c).st.repo.things.Values
  {
    var repo := w.st.repo;
    if c.CreateThings? && c.who.Some? {
      var rows := NewRows(c.who.value, c.keys, c.ids, c.newKeys);
      if InsertThings(repo.things, rows).Some? {
        forall i | 0 <= i < |rows| ensures rows[i].key != key {
          assert c.keys[i] in c.keys && c.newKeys[i] in c.newKeys;
        }
        InsertedKeys(repo.things, rows, key);
      }
    } else if c.DeleteThing? && c.who.Some? {
      var things := repo.things - {Ref(c.id, c.who.value)};
      assert forall t :: t in things ==> things[t] == repo.things[t];
    }
  }

  ghost predicate NeverGiven(calls: seq<Call>, key: Key) {
    forall c :: c in calls ==> !Gives(c, key)
  }

  lemma NeverGivenBefore(calls: seq<Call>, key: Key)
    requires calls != [] && NeverGiven(calls, key)
    ensures NeverGiven(calls[..|calls| - 1], key) && !Gives(calls[|calls| - 1], key)
  {
    assert forall c :: c in calls[..|calls| - 1] ==> c in calls;
  }

  lemma {:induction false} StaysUnknownRun(v: World, calls: seq<Call>, w: World, key: Key)
    requires Reaches(v, calls, w) && key !in v.st.repo.things.Values && NeverGiven(calls, key)
    ensures key !in w.st.repo.things.Values
    decreases |calls|
  {
    if calls != [] {
      var c := calls[|calls| - 1];
      var u :| Moves(u, c, w) && Reaches(v, calls[..|calls| - 1], u);
      NeverGivenBefore(calls, key);
      StaysUnknownRun(v, calls[..|calls| - 1], u, key);
      StaysUnknown(u, c, key);
    }
  }

  /** Such a key is never cached anew: it is cached only if it has been all along. */
  lemma {:induction false} CachedSteady(v: World, calls: seq<Call>, w: World, key: Key)
    requires Reaches(v, calls, w) && key !in v.st.repo.things.Values && NeverGiven(calls, key)
    requires key in w.st.things.ids
    ensures Steady(v, calls, w, key) && key in v.st.things.ids
    decreases |calls|
  {
    if calls != [] {
      var c := calls[|calls| - 1];
      var u :| Moves(u, c, w) && Reaches(v, calls[..|calls| - 1], u);
      NeverGivenBefore(calls, key);
      StaysUnknownRun(v, calls[..|calls| - 1], u, key);
      assert RetrieveByKey(u.st.repo, key).None?;
      if key in u.st.things.ids {
        CachedStep(u, c, key);
      } else {
        UncachedStep(u, c, key);
      }
      CachedSteady(v, calls[..|calls| - 1], u, key);
    }
  }

  /** Over every run from a state in which no thing has the key, as after UpdateKey has replaced it, and
      in which no call gives it to a thing: the key is answered, with the thing it was cached for, if and
      only if it was cached at the start and no call has removed a thing that it was the last key to be
      cached for; by CanAccessByKey only where the thing is a cached member. Otherwise it is refused. */
  lemma UnknownKeyExact(v: World, calls: seq<Call>, w: World, key: Key, chID: Id)
    requires Reaches(v, calls, w) && key !in v.st.repo.things.Values && NeverGiven(calls, key)
    ensures var ids, alive := v.st.things.ids, key in v.st.things.ids && Steady(v, calls, w, key);
            && IdentifyCall(w.st, key).1 == (if alive then Answer(ids[key]) else Failed(UnauthorizedAccess))
            && CanAccessByKeyCall(w.st, chID, key).1 ==
                 if alive && ids[key] in Members(w.st.channels, chID) then Answer(ids[key])
                 else Failed(UnauthorizedAccess)
  {
    StaysUnknownRun(v, calls, w, key);
    assert RetrieveByKey(w.st.repo, key).None?;
    if key in w.st.things.ids {
      CachedSteady(v, calls, w, key);
    }
    if key in v.st.things.ids && Steady(v, calls, w, key) {
      SteadyKeeps(v, calls, w, key);
    }
  }

  /** No thing has this key as the last one cached for it. */
  predicate Orphaned(tc: ThingCache, key: Key) {
    key in tc.ids && forall id :: id in tc.keys ==> tc.keys[id] != key
  }

  lemma OrphanedStep(w: World, c: Call, key: Key)
    requires Allowed(w, c) && key !in w.st.repo.things.Values && Orphaned(w.st.things, key)
    ensures Orphaned(Next(w, c).st.things, key) && !Interrupts(w.st, c, key)
  {
    CachedStep(w, c, key);
    assert RetrieveByKey(w.st.repo, key).None?;
    assert forall ch :: HasThing(w.st.repo, ch, key).None?;
  }

  lemma {:induction false} OrphanedSteady(v: World, calls: seq<Call>, w: World, key: Key)
    requires Reaches(v, calls, w) && key !in v.st.repo.things.Values && NeverGiven(calls, key)
    requires Orphaned(v.st.things, key)
    ensures Orphaned(w.st.things, key) && Steady(v, calls, w, key)
    decreases |calls|
  {
    if calls != [] {
      var c := calls[|calls| - 1];
      var u :| Moves(u, c, w) && Reaches(v, calls[..|calls| - 1], u);
      NeverGivenBefore(calls, key);
      OrphanedSteady(v, calls[..|calls| - 1], u, key);
      StaysUnknownRun(v, calls[..|calls| - 1], u, key);
      OrphanedStep(u, c, key);
    }
  }

  /** The key is answered, whatever is called, until it is given to a thing again. */
  ghost predicate Undying(v: World, key: Key) {
    forall calls, w :: Reaches(v, calls, w) && NeverGiven(calls, key) ==> Answered(v, w, key)
  }

  ghost predicate Answered(v: World, w: World, key: Key) {
    key in v.st.things.ids && IdentifyCall(w.st, key).1 == Answer(v.st.things.ids[key])
  }

  /** A cached key that no thing has any more goes on being answered for ever, also after its thing is
      removed, if and only if another key has been cached for that thing since. */
  lemma UndyingExact(v: World, key: Key)
    requires key !in v.st.repo.things.Values && key in v.st.things.ids
    ensures Undying(v, key) <==> Orphaned(v.st.things, key)
  {
    if Orphaned(v.st.things, key) {
      forall calls, w | Reaches(v, calls, w) && NeverGiven(calls, key) ensures Answered(v, w, key) {
        OrphanedSteady(v, calls, w, key);
        SteadyKeeps(v, calls, w, key);
      }
    } else {
      var id :| id in v.st.things.keys && v.st.things.keys[id] == key;
      var c := DeleteThing(Some(""), id);
      ReachesNext(v, [], v, c);
      assert [] + [c] == [c];
      CachedStep(v, c, key);
      StaysUnknown(v, c, key);
      assert RetrieveByKey(Next(v, c).st.repo, key).None?;
      assert !Answered(v, Next(v, c), key);
      assert Reaches(v, [c], Next(v, c)) && NeverGiven([c], key);
    }
  }
}
