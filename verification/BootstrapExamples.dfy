// Runs of the bootstrap service that end in a state it should not be in.
module BootstrapExamples {
  import opened Common
  import opened BootstrapCalls
  import opened BootstrapModel
  import opened BootstrapRuns

  lemma PlansOfOne(owner: Owner, thing: Id, ch: Id)
    ensures FetchAll(owner, [ch]) == [Fetch(ch, owner)]
    ensures CutAll(thing, [ch]) == [Cut(thing, ch)] && MakeAll(thing, [ch]) == [Make(thing, ch)]
    ensures FetchAll(owner, []) == CutAll(thing, []) == MakeAll(thing, []) == []
  {
  }

  lemma ThreeCalls(own: Owners, w1: World, w2: World, w3: World, c1: Call, c2: Call, c3: Call,
                   made1: seq<SdkCall>, made2: seq<SdkCall>, made3: seq<SdkCall>, err: Option<Error>)
    returns (ws: seq<World>, cs: seq<Call>, made: seq<seq<SdkCall>>)
    requires Called(own, START, c1, made1, None, w1) && Called(own, w1, c2, made2, None, w2)
    requires Called(own, w2, c3, made3, err, w3)
    ensures ws == [START, w1, w2, w3] && cs == [c1, c2, c3] && made == [made1, made2, made3]
    ensures CalledRun(own, ws, cs, made, [None, None, err])
  {
    CalledNext(own, [START], [], [], [], c1, made1, None, w1);
    CalledNext(own, [START, w1], [c1], [made1], [None], c2, made2, None, w2);
    CalledNext(own, [START, w1, w2], [c1, c2], [made1, made2], [None, None], c3, made3, err, w3);
    ws, cs, made := [START, w1, w2, w3], [c1, c2, c3], [made1, made2, made3];
  }

  /** The database after the first config has been added with one channel. */
  function Added1(cfg: Ref, config: Config, ch: Id): Db {
    Db(map[cfg := config], map[ch := cfg.owner], {Conn(Ref(ch, cfg.owner), cfg)})
  }

  lemma SavesFirst(own: Owners, cfg: Ref, config: Config, ch: Id)
    requires own(ch) == cfg.owner
    ensures Called(own, START, Add(cfg, config, [ch]), Fetches1(cfg, ch), None,
                   World(Added1(cfg, config.(state := Inactive), ch), {}))
  {
    var inactive := config.(state := Inactive);
    var tx := InsertChannels(START.db.(configs := map[cfg := inactive]), cfg.owner, [ch]);
    assert tx.value.channels == map[ch := cfg.owner];
    assert Rows(cfg, [ch]) == {Conn(Ref(ch, cfg.owner), cfg)};
    assert tx.value == Db(map[cfg := inactive], map[ch := cfg.owner], {});
    assert {} + Rows(cfg, [ch]) == Rows(cfg, [ch]);
    assert InsertConnections(tx.value, cfg, [ch]) == (None, Added1(cfg, inactive, ch));
    assert START.db.configs[cfg := inactive] == map[cfg := inactive];
    assert SaveConfig(START.db, cfg, inactive, [ch], [ch]) == (None, Added1(cfg, inactive, ch));
    PlansOfOne(cfg.owner, cfg.id, ch);
    OneCall(own, {}, SdkCall(Fetch(ch, cfg.owner), Ok));
    assert AddRan(own, START, cfg, config, [ch], [ch], Fetches1(cfg, ch), None, World(Added1(cfg, inactive, ch), {}));
  }

  function Fetches1(cfg: Ref, ch: Id): seq<SdkCall> {
    [SdkCall(Fetch(ch, cfg.owner), Ok)]
  }

  lemma Activates(own: Owners, cfg: Ref, config: Config, ch: Id)
    requires config.state == Inactive
    ensures Called(own, World(Added1(cfg, config, ch), {}), Change(cfg, Active), [SdkCall(Make(cfg.id, ch), Ok)], None,
                   World(Added1(cfg, config.(state := Active), ch), {(cfg.id, ch)}))
  {
    var db, db' := Added1(cfg, config, ch), Added1(cfg, config.(state := Active), ch);
    OneChannel(cfg, config, ch);
    PlansOfOne(cfg.owner, cfg.id, ch);
    OneCall(own, {}, SdkCall(Make(cfg.id, ch), Ok));
    assert db.configs[cfg := config.(state := Active)] == db'.configs;
    assert {} + {(cfg.id, ch)} == {(cfg.id, ch)};
    assert ChangeRan(own, World(db, {}), cfg, Active, [ch], [SdkCall(Make(cfg.id, ch), Ok)], None,
                     World(db', {(cfg.id, ch)}));
  }

  lemma OneChannel(cfg: Ref, config: Config, ch: Id)
    ensures ChannelsOf(Added1(cfg, config, ch), cfg) == {ch}
  {
    assert Conn(Ref(ch, cfg.owner), cfg) in Added1(cfg, config, ch).connections;
  }

  /** A run of three successful calls, none of whose SDK calls fails, after which an Active config lists a
      channel that its thing is not connected to. */
  lemma EmptyListDisconnects(own: Owners, cfg: Ref, config: Config, ch: Id)
    returns (ws: seq<World>, cs: seq<Call>, made: seq<seq<SdkCall>>)
    requires own(ch) == cfg.owner
    ensures cs == [Add(cfg, config, [ch]), Change(cfg, Active), Update(cfg, [])]
    ensures CalledRun(own, ws, cs, made, [None, None, None]) && Linked(ws[2]) && Empties(ws[2].db, cs[2])
    ensures forall i :: 0 <= i < 3 ==> AllGood(made[i])
    ensures ChannelsOf(ws[3].db, cfg) == {ch} && ws[3].links == {} && !Linked(ws[3])
  {
    var inactive, active := config.(state := Inactive), config.(state := Active);
    var w1, w2 := World(Added1(cfg, inactive, ch), {}), World(Added1(cfg, active, ch), {(cfg.id, ch)});
    var w3 := World(w2.db, {});
    SavesFirst(own, cfg, config, ch);
    Activates(own, cfg, inactive, ch);
    OneLinked(cfg, active, ch);
    Disconnects(own, cfg, active, ch);
    var c1, c2, c3 := Add(cfg, config, [ch]), Change(cfg, Active), Update(cfg, []);
    var made1, made2, made3 := Fetches1(cfg, ch), [SdkCall(Make(cfg.id, ch), Ok)], [SdkCall(Cut(cfg.id, ch), Ok)];
    ws, cs, made := ThreeCalls(own, w1, w2, w3, c1, c2, c3, made1, made2, made3, None);
  }

  lemma OneLinked(cfg: Ref, config: Config, ch: Id)
    requires config.state == Active
    ensures var db := Added1(cfg, config, ch);
            && ChannelsOf(db, cfg) == {ch} && Linked(World(db, {(cfg.id, ch)})) && !Linked(World(db, {}))
  {
    var db := Added1(cfg, config, ch);
    OneChannel(cfg, config, ch);
    LinksOfMember(cfg.id, {ch}, ch);
    assert LinksOf(cfg.id, {ch}) == {(cfg.id, ch)};
    assert !ConfigLinked(World(db, {}), cfg);
  }

  lemma Disconnects(own: Owners, cfg: Ref, config: Config, ch: Id)
    requires config.state == Active
    ensures var db := Added1(cfg, config, ch);
            Called(own, World(db, {(cfg.id, ch)}), Update(cfg, []), [SdkCall(Cut(cfg.id, ch), Ok)], None, World(db, {}))
  {
    var db := Added1(cfg, config, ch);
    OneChannel(cfg, config, ch);
    assert {ch} - SetOf<Id>([]) == {ch} && LinksOf(cfg.id, {ch}) == {(cfg.id, ch)};
    assert LinksOf(cfg.id, SetOf<Id>([])) == {};
    assert ToMake(db, cfg, []) == [];
    assert InsertChannels(db, cfg.owner, []).value.channels == db.channels;
    PlansOfOne(cfg.owner, cfg.id, ch);
    var links, x := {(cfg.id, ch)}, SdkCall(Cut(cfg.id, ch), Ok);
    OneCall(own, links, x);
    assert links - {(cfg.id, ch)} == {};
    assert UpdatePlan(db, cfg, [], [], [ch]) == [x.req];
    assert UpdateRan(own, World(db, links), cfg, [], [], [ch], [x], None, World(db, {}));
  }

  /** One config in the database, with two channels. */
  function AddedPair(cfg: Ref, config: Config, a: Id, b: Id): Db {
    Db(map[cfg := config], map[a := cfg.owner, b := cfg.owner],
       {Conn(Ref(a, cfg.owner), cfg), Conn(Ref(b, cfg.owner), cfg)})
  }

  lemma PairChannels(cfg: Ref, config: Config, a: Id, b: Id)
    ensures ChannelsOf(AddedPair(cfg, config, a, b), cfg) == {a, b}
    ensures LinksOf(cfg.id, {a, b}) == {(cfg.id, a), (cfg.id, b)}
  {
    var db := AddedPair(cfg, config, a, b);
    assert Conn(Ref(a, cfg.owner), cfg) in db.connections && Conn(Ref(b, cfg.owner), cfg) in db.connections;
  }

  lemma PairLinked(cfg: Ref, config: Config, a: Id, b: Id)
    requires a != b && config.state == Active
    ensures var db := AddedPair(cfg, config, a, b);
            && ChannelsOf(db, cfg) == {a, b} && Linked(World(db, {(cfg.id, a), (cfg.id, b)}))
            && !Linked(World(db, {(cfg.id, a)}))
  {
    PairChannels(cfg, config, a, b);
    assert !ConfigLinked(World(AddedPair(cfg, config, a, b), {(cfg.id, a)}), cfg);
  }

  lemma SavesPair(own: Owners, cfg: Ref, config: Config, a: Id, b: Id)
    requires a != b && own(a) == own(b) == cfg.owner
    ensures Called(own, START, Add(cfg, config, [a, b]), FetchesPair(cfg, a, b), None,
                   World(AddedPair(cfg, config.(state := Inactive), a, b), {}))
  {
    var inactive, list := config.(state := Inactive), [a, b];
    assert START.db.configs[cfg := inactive] == map[cfg := inactive];
    var db0 := START.db.(configs := START.db.configs[cfg := inactive]);
    assert db0 == Db(map[cfg := inactive], map[], {});
    var tx := InsertChannels(db0, cfg.owner, list);
    assert tx.value.channels == map[a := cfg.owner, b := cfg.owner];
    assert Rows(cfg, list) == {Conn(Ref(a, cfg.owner), cfg), Conn(Ref(b, cfg.owner), cfg)} by {
      assert a in list && b in list;
    }
    assert tx.value == Db(map[cfg := inactive], map[a := cfg.owner, b := cfg.owner], {});
    assert {} + Rows(cfg, list) == Rows(cfg, list);
    assert InsertConnections(tx.value, cfg, list) == (None, AddedPair(cfg, inactive, a, b));
    assert SaveConfig(START.db, cfg, inactive, list, list) == (None, AddedPair(cfg, inactive, a, b));
    PairRan(own, {}, Fetch(a, cfg.owner), Fetch(b, cfg.owner));
    assert FetchAll(cfg.owner, list) == [Fetch(a, cfg.owner), Fetch(b, cfg.owner)];
    assert AddRan(own, START, cfg, config, list, list, FetchesPair(cfg, a, b), None,
                  World(AddedPair(cfg, inactive, a, b), {}));
  }

  function FetchesPair(cfg: Ref, a: Id, b: Id): seq<SdkCall> {
    [SdkCall(Fetch(a, cfg.owner), Ok), SdkCall(Fetch(b, cfg.owner), Ok)]
  }

  function MakesPair(cfg: Ref, a: Id, b: Id): seq<SdkCall> {
    [SdkCall(Make(cfg.id, a), Ok), SdkCall(Make(cfg.id, b), Ok)]
  }

  /** Two requests that go well. */
  lemma PairRan(own: Owners, links: set<(Id, Id)>, p: Request, q: Request)
    requires var x, y := SdkCall(p, Ok), SdkCall(q, Ok);
             Possible(own, links, x) && Possible(own, Apply(links, x), y)
    ensures var x, y := SdkCall(p, Ok), SdkCall(q, Ok);
            Ran(own, links, [p, q], [x, y], Apply(Apply(links, x), y)) && AllGood([x, y])
  {
    var x, y := SdkCall(p, Ok), SdkCall(q, Ok);
    OneCall(own, links, x);
    OneCall(own, Apply(links, x), y);
    RanBoth(own, links, [p], [q], [x], [y], Apply(links, x), Apply(Apply(links, x), y));
    assert [p] + [q] == [p, q] && [x] + [y] == [x, y];
  }

  lemma ActivatesPair(own: Owners, cfg: Ref, config: Config, a: Id, b: Id)
    requires a != b && config.state == Inactive
    ensures Called(own, World(AddedPair(cfg, config, a, b), {}), Change(cfg, Active), MakesPair(cfg, a, b), None,
                   World(AddedPair(cfg, config.(state := Active), a, b), {(cfg.id, a), (cfg.id, b)}))
  {
    PairChannels(cfg, config, a, b);
    var w, active := World(AddedPair(cfg, config, a, b), {}), config.(state := Active);
    assert w.db.configs[cfg := active] == map[cfg := active];
    PairRan(own, {}, Make(cfg.id, a), Make(cfg.id, b));
    assert MakeAll(cfg.id, [a, b]) == [Make(cfg.id, a), Make(cfg.id, b)];
    assert {} + {(cfg.id, a)} + {(cfg.id, b)} == {(cfg.id, a), (cfg.id, b)};
    assert SetOf([a, b]) == {a, b};
    assert ChangeRan(own, w, cfg, Active, [a, b], MakesPair(cfg, a, b), None,
                     World(AddedPair(cfg, active, a, b), {(cfg.id, a), (cfg.id, b)}));
  }

  /** Disconnecting b works, connecting a again does not. */
  function RepeatCalls(cfg: Ref, a: Id, b: Id): seq<SdkCall> {
    [SdkCall(Cut(cfg.id, b), Ok), SdkCall(Make(cfg.id, a), Failed)]
  }

  lemma RepeatedDiff(cfg: Ref, config: Config, a: Id, b: Id)
    requires a != b && config.state == Active
    ensures var db := AddedPair(cfg, config, a, b);
            && ToFetch(db, cfg.owner, [a, a], [])
            && SetOf([b]) == ToCut(db, cfg, [a, a]) == {b} && ToMake(db, cfg, [a, a]) == [a]
  {
    var db, list := AddedPair(cfg, config, a, b), [a, a];
    PairChannels(cfg, config, a, b);
    assert SetOf(list) == {a} by {
      assert a in list;
    }
    assert {a, b} - SetOf(list) == {b} && SetOf([b]) == {b};
    assert list[1..] == [a] && Added({a, b} - {a}, [a]) == [a] + Added({a, b} - {a}, []);
    assert a in ListExisting(db, cfg.owner, list);
  }

  lemma RepeatedCalled(own: Owners, cfg: Ref, config: Config, a: Id, b: Id)
    requires a != b && config.state == Active
    ensures var db := AddedPair(cfg, config, a, b);
            var w, w' := World(db, {(cfg.id, a), (cfg.id, b)}), World(db, {(cfg.id, a)});
            && Called(own, w, Update(cfg, [a, a]), RepeatCalls(cfg, a, b), Some(Things), w')
            && HealthyCalls(own, w.links, RepeatCalls(cfg, a, b)) && Strands(w, Update(cfg, [a, a]))
  {
    var db, links, kept := AddedPair(cfg, config, a, b), {(cfg.id, a), (cfg.id, b)}, {(cfg.id, a)};
    var x, y := SdkCall(Cut(cfg.id, b), Ok), SdkCall(Make(cfg.id, a), Failed);
    RepeatedDiff(cfg, config, a, b);
    assert links - {(cfg.id, b)} == kept;
    OneCall(own, links, x);
    OneCall(own, kept, y);
    RanBoth(own, links, [x.req], [y.req], [x], [y], kept, kept);
    GoodBoth([x], [y]);
    assert [x] + [y] == [x, y];
    HealthyPair(own, links, x, y);
    assert CutAll(cfg.id, [b]) == [x.req] && MakeAll(cfg.id, [a]) == [y.req] && FetchAll(cfg.owner, []) == [];
    assert UpdatePlan(db, cfg, [a, a], [], [b]) == [x.req] + [y.req];
    assert UpdateRan(own, World(db, links), cfg, [a, a], [], [b], [x, y], Some(Things), World(db, kept));
    assert b in ChannelsOf(db, cfg) - SetOf([a, a]);
    assert [a, a][0] == [a, a][1];
  }

  lemma HealthyPair(own: Owners, links: set<(Id, Id)>, x: SdkCall, y: SdkCall)
    requires HealthyCall(own, links, x) && HealthyCall(own, Apply(links, x), y)
    ensures HealthyCalls(own, links, [x, y])
  {
    var calls := [x, y];
    assert calls[..0] == [] && calls[..1] == [x] && [x][..0] == [];
    assert After(links, [x]) == Apply(links, x);
  }

  /** A run on a healthy things service that ends in an error and leaves an Active config with a channel
      its thing is not connected to: the new list has a repetition. */
  lemma RepeatedListStrands(own: Owners, cfg: Ref, config: Config, a: Id, b: Id)
    returns (ws: seq<World>, cs: seq<Call>, made: seq<seq<SdkCall>>)
    requires a != b && own(a) == own(b) == cfg.owner
    ensures cs == [Add(cfg, config, [a, b]), Change(cfg, Active), Update(cfg, [a, a])]
    ensures CalledRun(own, ws, cs, made, [None, None, Some(Things)]) && Linked(ws[2])
    ensures HealthyCalls(own, ws[2].links, made[2]) && Strands(ws[2], cs[2])
    ensures ChannelsOf(ws[3].db, cfg) == {a, b} && ws[3].links == {(cfg.id, a)} && !Linked(ws[3])
  {
    var inactive, active := config.(state := Inactive), config.(state := Active);
    var db := AddedPair(cfg, active, a, b);
    var w1 := World(AddedPair(cfg, inactive, a, b), {});
    var w2, w3 := World(db, {(cfg.id, a), (cfg.id, b)}), World(db, {(cfg.id, a)});
    SavesPair(own, cfg, config, a, b);
    ActivatesPair(own, cfg, inactive, a, b);
    RepeatedCalled(own, cfg, active, a, b);
    PairLinked(cfg, active, a, b);
    var c1, c2, c3 := Add(cfg, config, [a, b]), Change(cfg, Active), Update(cfg, [a, a]);
    ws, cs, made := ThreeCalls(own, w1, w2, w3, c1, c2, c3, FetchesPair(cfg, a, b), MakesPair(cfg, a, b),
                               RepeatCalls(cfg, a, b), Some(Things));
  }

  /** Two configs in the database, the second Active and with no channel. */
  function Added2(first: Ref, c1: Config, ch: Id, second: Ref, c2: Config): Db {
    Db(map[first := c1, second := c2], map[ch := first.owner], {Conn(Ref(ch, first.owner), first)})
  }

  /** A run after which a config is inactive that nobody has touched: a disconnect event for the first
      config's thing deactivates the second config. */
  lemma DisconnectDeactivatesOther(own: Owners, first: Ref, c1: Config, ch: Id, second: Ref, c2: Config)
    returns (ws: seq<World>, cs: seq<Call>, made: seq<seq<SdkCall>>)
    requires own(ch) == first.owner && first.id != second.id
    requires c1.key != c2.key && c1.externalID != c2.externalID
    ensures cs == [Add(first, c1, [ch]), Add(second, c2, []), Change(second, Active), ThingDisconnected(ch, first.id)]
    ensures CalledRun(own, ws, cs, made, [None, None, None, None])
    ensures IsActive(ws[3].db, second) && !IsActive(ws[4].db, second) && second in ws[4].db.configs
  {
    var i1, i2, a2 := c1.(state := Inactive), c2.(state := Inactive), c2.(state := Active);
    var w1, w2 := World(Added1(first, i1, ch), {}), World(Added2(first, i1, ch, second, i2), {});
    var w3 := World(Added2(first, i1, ch, second, a2), {});
    SavesFirst(own, first, c1, ch);
    SavesSecond(own, first, i1, ch, second, c2);
    ActivatesSecond(own, first, i1, ch, second, i2);
    var w4 := DeactivatesSecond(own, first, i1, ch, second, a2);
    ws, cs, made := ThreeCalls(own, w1, w2, w3, Add(first, c1, [ch]), Add(second, c2, []), Change(second, Active),
                               Fetches1(first, ch), [], [], None);
    CalledNext(own, ws, cs, made, [None, None, None], ThingDisconnected(ch, first.id), [], None, w4);
    ws, cs, made := ws + [w4], cs + [ThingDisconnected(ch, first.id)], made + [[]];
  }

  lemma DeactivatesSecond(own: Owners, first: Ref, c1: Config, ch: Id, second: Ref, c2: Config) returns (w': World)
    requires first.id != second.id && c2.state == Active
    ensures var w := World(Added2(first, c1, ch, second, c2), {});
            && Called(own, w, ThingDisconnected(ch, first.id), [], None, w')
            && IsActive(w.db, second) && !IsActive(w'.db, second) && second in w'.db.configs
  {
    var w := World(Added2(first, c1, ch, second, c2), {});
    assert Conn(Ref(ch, first.owner), first) in w.db.connections;
    w' := World(DisconnectThing(w.db, ch, first.id), w.links - {(first.id, ch)});
  }

  lemma SavesSecond(own: Owners, first: Ref, c1: Config, ch: Id, second: Ref, c2: Config)
    requires first.id != second.id && c1.key != c2.key && c1.externalID != c2.externalID
    ensures Called(own, World(Added1(first, c1, ch), {}), Add(second, c2, []), [], None,
                   World(Added2(first, c1, ch, second, c2.(state := Inactive)), {}))
  {
    var db, inactive := Added1(first, c1, ch), c2.(state := Inactive);
    var tx := InsertChannels(db.(configs := db.configs[second := inactive]), second.owner, []);
    assert tx.value.channels == db.channels;
    assert Rows(second, []) == {} && db.connections + {} == db.connections;
    assert db.configs[second := inactive] == map[first := c1, second := inactive];
    assert SaveConfig(db, second, inactive, [], []) == (None, Added2(first, c1, ch, second, inactive));
    NoCall(own, {});
    assert FetchAll(second.owner, []) == [];
    var db' := Added2(first, c1, ch, second, inactive);
    assert AddRan(own, World(db, {}), second, c2, [], [], [], None, World(db', {}));
  }

  lemma ActivatesSecond(own: Owners, first: Ref, c1: Config, ch: Id, second: Ref, c2: Config)
    requires first.id != second.id && c2.state == Inactive
    ensures Called(own, World(Added2(first, c1, ch, second, c2), {}), Change(second, Active), [], None,
                   World(Added2(first, c1, ch, second, c2.(state := Active)), {}))
  {
    var db := Added2(first, c1, ch, second, c2);
    assert ChannelsOf(db, second) == {} && LinksOf(second.id, {}) == {};
    var active := c2.(state := Active);
    assert db.configs[second := active] == map[first := c1, second := active];
    NoCall(own, {});
    assert MakeAll(second.id, []) == [];
    var db' := Added2(first, c1, ch, second, active);
    assert ChangeRan(own, World(db, {}), second, Active, [], [], None, World(db', {}));
  }
}
