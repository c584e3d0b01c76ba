// The bootstrap service's calls together with the SDK calls they make: which are made, in which order, which one
// fails, and what the caller is told. Each is a step of BootstrapRuns.
module BootstrapCalls {
  import opened Common
  import opened BootstrapModel
  import opened BootstrapRuns

  // ----- The record of SDK calls ---------------------------------------------------------------------

  datatype SdkResult = Ok | Missing | Failed

  datatype Request =
    | Fetch(id: Id, owner: Owner)
    | Cut(thing: Id, channel: Id)
    | Make(thing: Id, channel: Id)

  datatype SdkCall = SdkCall(req: Request, r: SdkResult)

  /** A disconnection that is not there counts as done. */
  predicate Good(x: SdkCall) {
    if x.req.Cut? then !x.r.Failed? else x.r.Ok?
  }

  predicate AllGood(calls: seq<SdkCall>) {
    forall i :: 0 <= i < |calls| ==> Good(calls[i])
  }

  function Apply(links: set<(Id, Id)>, x: SdkCall): set<(Id, Id)> {
    if !x.r.Ok? then links
    else match x.req
      case Fetch(_, _) => links
      case Cut(thing, channel) => links - {(thing, channel)}
      case Make(thing, channel) => links + {(thing, channel)}
  }

  function After(links: set<(Id, Id)>, calls: seq<SdkCall>): set<(Id, Id)>
    decreases |calls|
  {
    if calls == [] then links else Apply(After(links, calls[..|calls| - 1]), calls[|calls| - 1])
  }

  /** The things service shows a channel to its owner only, and knows which connections exist. */
  predicate Possible(own: Owners, links: set<(Id, Id)>, x: SdkCall) {
    match x.req
    case Fetch(id, owner) => x.r.Ok? ==> own(id) == owner
    case Cut(thing, channel) => x.r.Missing? ==> (thing, channel) !in links
    case Make(thing, channel) => x.r.Ok? ==> (thing, channel) !in links
  }

  predicate AllPossible(own: Owners, links: set<(Id, Id)>, calls: seq<SdkCall>) {
    forall i :: 0 <= i < |calls| ==> Possible(own, After(links, calls[..i]), calls[i])
  }

  /** The calls go through the plan up to the first failure. */
  predicate Follows(plan: seq<Request>, calls: seq<SdkCall>) {
    && |calls| <= |plan|
    && (forall i :: 0 <= i < |calls| ==> calls[i].req == plan[i])
    && (forall i :: 0 <= i < |calls| - 1 ==> Good(calls[i]))
    && (AllGood(calls) ==> |calls| == |plan|)
  }

  ghost predicate Ran(own: Owners, links: set<(Id, Id)>, plan: seq<Request>, calls: seq<SdkCall>,
                      links': set<(Id, Id)>) {
    Follows(plan, calls) && AllPossible(own, links, calls) && links' == After(links, calls)
  }

  function FetchAll(owner: Owner, ids: seq<Id>): seq<Request> {
    seq(|ids|, i requires 0 <= i < |ids| => Fetch(ids[i], owner))
  }

  function CutAll(thing: Id, channels: seq<Id>): seq<Request> {
    seq(|channels|, i requires 0 <= i < |channels| => Cut(thing, channels[i]))
  }

  function MakeAll(thing: Id, channels: seq<Id>): seq<Request> {
    seq(|channels|, i requires 0 <= i < |channels| => Make(thing, channels[i]))
  }

  /** A channel is refused exactly when it is not the caller's, disconnecting does not fail, and connecting fails
      only for a link that exists. */
  ghost predicate HealthyCalls(own: Owners, links: set<(Id, Id)>, calls: seq<SdkCall>) {
    forall i :: 0 <= i < |calls| ==> HealthyCall(own, After(links, calls[..i]), calls[i])
  }

  predicate HealthyCall(own: Owners, links: set<(Id, Id)>, x: SdkCall) {
    match x.req
    case Fetch(id, owner) => x.r.Ok? <==> own(id) == owner
    case Cut(_, _) => !x.r.Failed?
    case Make(thing, channel) => x.r.Ok? || (x.r.Failed? && (thing, channel) in links)
  }

  // ----- The calls of the service --------------------------------------------------------------------

  /** What the caller of an update is told about the call that failed. */
  function Blamed(calls: seq<SdkCall>): Option<Error> {
    if AllGood(calls) then None
    else
      var last := calls[|calls| - 1];
      match last.req
      case Fetch(_, _) => Some(MalformedEntity)
      case Cut(_, _) => Some(Things)
      case Make(_, _) => if last.r.Missing? then Some(MalformedEntity) else Some(Things)
  }

  /** The listed channels that the table does not have for the owner, in any order. */
  predicate ToFetch(db: Db, owner: Owner, list: seq<Id>, fetch: seq<Id>) {
    Distinct(fetch) && SetOf(fetch) == SetOf(list) - ListExisting(db, owner, list)
  }

  /** Fetch what is new, then cut, then make; only an Active config is cut and made. */
  function UpdatePlan(db: Db, cfg: Ref, list: seq<Id>, fetch: seq<Id>, cut: seq<Id>): seq<Request> {
    FetchAll(cfg.owner, fetch) + (CutAll(cfg.id, cut) + MakeAll(cfg.id, ToMake(db, cfg, list)))
  }

  ghost predicate UpdateRan(own: Owners, w: World, cfg: Ref, list: seq<Id>, fetch: seq<Id>, cut: seq<Id>,
                            calls: seq<SdkCall>, err: Option<Error>, w': World) {
    && ToFetch(w.db, cfg.owner, list, fetch) && Distinct(cut) && SetOf(cut) == ToCut(w.db, cfg, list)
    && Ran(own, w.links, UpdatePlan(w.db, cfg, list, fetch, cut), calls, w'.links)
    && (err, w'.db) == if AllGood(calls) then UpdateConnections(w.db, cfg, fetch, list) else (Blamed(calls), w.db)
  }

  ghost predicate AddRan(own: Owners, w: World, cfg: Ref, config: Config, list: seq<Id>, fetch: seq<Id>,
                         calls: seq<SdkCall>, err: Option<Error>, w': World) {
    && ToFetch(w.db, cfg.owner, list, fetch)
    && Ran(own, w.links, FetchAll(cfg.owner, fetch), calls, w'.links)
    && (err, w'.db) == if AllGood(calls) then SaveConfig(w.db, cfg, config.(state := Inactive), fetch, list)
                       else (Some(MalformedEntity), w.db)
  }

  function ChangePlan(cfg: Ref, state: State, order: seq<Id>): seq<Request> {
    if state == Active then MakeAll(cfg.id, order) else CutAll(cfg.id, order)
  }

  ghost predicate ChangeRan(own: Owners, w: World, cfg: Ref, state: State, order: seq<Id>,
                            calls: seq<SdkCall>, err: Option<Error>, w': World) {
    && Distinct(order) && SetOf(order) == ChannelsOf(w.db, cfg)
    && Ran(own, w.links, ChangePlan(cfg, state, order), calls, w'.links)
    && (err, w'.db) == if AllGood(calls) then ChangeState(w.db, cfg, state) else (Some(Things), w.db)
  }

  ghost predicate UpdateCalled(own: Owners, w: World, cfg: Ref, list: seq<Id>, calls: seq<SdkCall>,
                               err: Option<Error>, w': World) {
    if cfg !in w.db.configs then calls == [] && err == Some(NotFound) && w' == w
    else exists fetch, cut :: UpdateRan(own, w, cfg, list, fetch, cut, calls, err, w')
  }

  ghost predicate Called(own: Owners, w: World, c: Call, calls: seq<SdkCall>, err: Option<Error>, w': World) {
    match c
    case Add(cfg, config, list) => exists fetch :: AddRan(own, w, cfg, config, list, fetch, calls, err, w')
    case Update(cfg, list) => UpdateCalled(own, w, cfg, list, calls, err, w')
    case Change(cfg, state) =>
      if cfg !in w.db.configs then calls == [] && err == Some(NotFound) && w' == w
      else if w.db.configs[cfg].state == state then calls == [] && err == None && w' == w
      else exists order :: ChangeRan(own, w, cfg, state, order, calls, err, w')
    case _ => calls == [] && Step(own, w, c, err, w')
  }

  /** A run: each world follows from the one before by a call, with the SDK calls it makes and its outcome. */
  ghost predicate CalledRun(own: Owners, ws: seq<World>, cs: seq<Call>, made: seq<seq<SdkCall>>,
                            errs: seq<Option<Error>>) {
    && |ws| == |cs| + 1 == |made| + 1 == |errs| + 1 && ws[0] == START
    && forall i :: 0 <= i < |cs| ==> Called(own, ws[i], cs[i], made[i], errs[i], ws[i + 1])
  }

  lemma CalledNext(own: Owners, ws: seq<World>, cs: seq<Call>, made: seq<seq<SdkCall>>, errs: seq<Option<Error>>,
                   c: Call, calls: seq<SdkCall>, err: Option<Error>, w: World)
    requires CalledRun(own, ws, cs, made, errs) && Called(own, ws[|ws| - 1], c, calls, err, w)
    ensures CalledRun(own, ws + [w], cs + [c], made + [calls], errs + [err])
  {
    var ws', cs', made', errs' := ws + [w], cs + [c], made + [calls], errs + [err];
    forall i | 0 <= i < |cs'| ensures Called(own, ws'[i], cs'[i], made'[i], errs'[i], ws'[i + 1]) {
      assert ws'[i] == ws[i];
      if i < |cs| {
        assert cs'[i] == cs[i] && made'[i] == made[i] && errs'[i] == errs[i] && ws'[i + 1] == ws[i + 1];
      }
    }
  }

  // ----- Plans in parts ------------------------------------------------------------------------------

  lemma {:induction false} AfterBoth(links: set<(Id, Id)>, a: seq<SdkCall>, b: seq<SdkCall>)
    ensures After(links, a + b) == After(After(links, a), b)
    decreases |b|
  {
    if b == [] {
      assert a + b == a;
    } else {
      var front := b[..|b| - 1];
      assert (a + b)[..|a + b| - 1] == a + front;
      AfterBoth(links, a, front);
    }
  }

  /** A plan of one request. */
  lemma OneCall(own: Owners, links: set<(Id, Id)>, x: SdkCall)
    requires Possible(own, links, x)
    ensures Ran(own, links, [x.req], [x], Apply(links, x)) && (AllGood([x]) <==> Good(x))
    ensures HealthyCalls(own, links, [x]) <==> HealthyCall(own, links, x)
  {
    var calls := [x];
    assert calls[..0] == [];
  }

  lemma NoCall(own: Owners, links: set<(Id, Id)>)
    ensures Ran(own, links, [], [], links) && AllGood([]) && HealthyCalls(own, links, [])
  {
  }

  lemma RanNext(own: Owners, links: set<(Id, Id)>, calls: seq<SdkCall>, x: SdkCall)
    requires AllPossible(own, links, calls) && Possible(own, After(links, calls), x)
    ensures AllPossible(own, links, calls + [x]) && After(links, calls + [x]) == Apply(After(links, calls), x)
  {
    var all := calls + [x];
    assert all[..|all| - 1] == calls;
    forall i | 0 <= i < |all| ensures Possible(own, After(links, all[..i]), all[i]) {
      if i < |calls| {
        assert all[..i] == calls[..i];
      } else {
        assert all[..i] == calls;
      }
    }
  }

  lemma PossibleBoth(own: Owners, links: set<(Id, Id)>, a: seq<SdkCall>, b: seq<SdkCall>)
    ensures AllPossible(own, links, a + b) <==> AllPossible(own, links, a) && AllPossible(own, After(links, a), b)
  {
    forall i | 0 <= i < |a| ensures (a + b)[..i] == a[..i] && (a + b)[i] == a[i] {
    }
    forall i | 0 <= i < |b|
      ensures After(links, (a + b)[..|a| + i]) == After(After(links, a), b[..i]) && (a + b)[|a| + i] == b[i]
    {
      assert (a + b)[..|a| + i] == a + b[..i];
      AfterBoth(links, a, b[..i]);
    }
    if AllPossible(own, links, a + b) {
      forall i | 0 <= i < |b| ensures Possible(own, After(After(links, a), b[..i]), b[i]) {
        assert Possible(own, After(links, (a + b)[..|a| + i]), (a + b)[|a| + i]);
      }
    }
  }

  lemma GoodBoth(a: seq<SdkCall>, b: seq<SdkCall>)
    ensures AllGood(a + b) <==> AllGood(a) && AllGood(b)
    ensures b != [] && AllGood(a) ==> Blamed(a + b) == Blamed(b)
    ensures b == [] ==> a + b == a
  {
    assert forall i :: 0 <= i < |a| ==> (a + b)[i] == a[i];
    assert forall i :: 0 <= i < |b| ==> (a + b)[|a| + i] == b[i];
  }

  lemma FollowsBoth(p: seq<Request>, q: seq<Request>, a: seq<SdkCall>, b: seq<SdkCall>)
    requires Follows(p, a) && AllGood(a) && Follows(q, b)
    ensures Follows(p + q, a + b)
  {
    GoodBoth(a, b);
  }

  lemma FollowsFirst(p: seq<Request>, q: seq<Request>, a: seq<SdkCall>, b: seq<SdkCall>)
    requires Follows(p + q, a + b) && (b != [] ==> |a| == |p|) && |a| <= |p|
    ensures Follows(p, a)
  {
    GoodBoth(a, b);
    assert forall i :: 0 <= i < |a| ==> (a + b)[i] == a[i] && (p + q)[i] == p[i];
  }

  lemma FollowsSecond(p: seq<Request>, q: seq<Request>, a: seq<SdkCall>, b: seq<SdkCall>)
    requires Follows(p + q, a + b) && |a| == |p|
    ensures if AllGood(a) then Follows(q, b) else b == []
  {
    GoodBoth(a, b);
    forall i | 0 <= i < |b| ensures b[i].req == q[i] && (i < |b| - 1 ==> Good(b[i])) {
      assert (a + b)[|a| + i] == b[i] && (p + q)[|a| + i] == q[i];
    }
    if b != [] {
      forall i | 0 <= i < |a| ensures Good(a[i]) {
        assert (a + b)[i] == a[i];
      }
    }
  }

  /** After a part that went well comes the rest. */
  lemma RanBoth(own: Owners, links: set<(Id, Id)>, p: seq<Request>, q: seq<Request>, a: seq<SdkCall>, b: seq<SdkCall>,
                mid: set<(Id, Id)>, links': set<(Id, Id)>)
    requires Ran(own, links, p, a, mid) && AllGood(a) && Ran(own, mid, q, b, links')
    ensures Ran(own, links, p + q, a + b, links')
  {
    AfterBoth(links, a, b);
    PossibleBoth(own, links, a, b);
    FollowsBoth(p, q, a, b);
  }

  /** A part that fails is the end. */
  lemma RanFailed(own: Owners, links: set<(Id, Id)>, p: seq<Request>, q: seq<Request>, a: seq<SdkCall>,
                  links': set<(Id, Id)>)
    requires Ran(own, links, p, a, links') && !AllGood(a)
    ensures Ran(own, links, p + q, a, links')
  {
  }

  /** And the other way round: a run of a plan in two parts. */
  lemma RanSplit(own: Owners, links: set<(Id, Id)>, p: seq<Request>, q: seq<Request>, calls: seq<SdkCall>,
                 links': set<(Id, Id)>)
    returns (a: seq<SdkCall>, b: seq<SdkCall>)
    requires Ran(own, links, p + q, calls, links')
    ensures calls == a + b && Ran(own, links, p, a, After(links, a))
    ensures if AllGood(a) then Ran(own, After(links, a), q, b, links') && Blamed(calls) == Blamed(b)
            else b == [] && links' == After(links, a)
  {
    var n := if |calls| < |p| then |calls| else |p|;
    a, b := calls[..n], calls[n..];
    assert calls == a + b;
    AfterBoth(links, a, b);
    PossibleBoth(own, links, a, b);
    FollowsFirst(p, q, a, b);
    GoodBoth(a, b);
    if n == |p| {
      FollowsSecond(p, q, a, b);
    }
  }

  // ----- Plans call by call --------------------------------------------------------------------------

  /** The first i requests of the plan have been made, and went well. */
  ghost predicate Begun(own: Owners, links: set<(Id, Id)>, plan: seq<Request>, calls: seq<SdkCall>,
                        now: set<(Id, Id)>, i: nat) {
    && |calls| == i <= |plan| && AllGood(calls)
    && (forall j :: 0 <= j < i ==> calls[j].req == plan[j])
    && AllPossible(own, links, calls) && now == After(links, calls)
  }

  lemma BegunNext(own: Owners, links: set<(Id, Id)>, plan: seq<Request>, calls: seq<SdkCall>,
                  now: set<(Id, Id)>, i: nat, x: SdkCall)
    requires Begun(own, links, plan, calls, now, i) && i < |plan| && x.req == plan[i] && Possible(own, now, x)
    ensures if Good(x) then Begun(own, links, plan, calls + [x], Apply(now, x), i + 1)
            else Ran(own, links, plan, calls + [x], Apply(now, x)) && !AllGood(calls + [x])
  {
    RanNext(own, links, calls, x);
    GoodBoth(calls, [x]);
  }

  lemma BegunAll(own: Owners, links: set<(Id, Id)>, plan: seq<Request>, calls: seq<SdkCall>, now: set<(Id, Id)>)
    requires Begun(own, links, plan, calls, now, |plan|)
    ensures Ran(own, links, plan, calls, now) && AllGood(calls)
  {
  }

  /** The cuts of an update and then its makes, of which the last failed. */
  lemma MakeFailed(own: Owners, links: set<(Id, Id)>, p: seq<Request>, thing: Id, make: seq<Id>,
                   a: seq<SdkCall>, b: seq<SdkCall>, mid: set<(Id, Id)>, links': set<(Id, Id)>)
    requires Ran(own, links, p, a, mid) && AllGood(a)
    requires Ran(own, mid, MakeAll(thing, make), b, links') && !AllGood(b)
    ensures Ran(own, links, p + MakeAll(thing, make), a + b, links') && !AllGood(a + b)
    ensures Blamed(a + b) == if b[|b| - 1].r.Missing? then Some(MalformedEntity) else Some(Things)
  {
    RanBoth(own, links, p, MakeAll(thing, make), a, b, mid, links');
    GoodBoth(a, b);
  }

  /** An update that stops at its fetches. */
  lemma FetchFailed(own: Owners, w: World, cfg: Ref, list: seq<Id>, fetch: seq<Id>, cut: seq<Id>,
                    calls: seq<SdkCall>, w': World)
    requires cfg in w.db.configs && ToFetch(w.db, cfg.owner, list, fetch)
    requires Distinct(cut) && SetOf(cut) == ToCut(w.db, cfg, list)
    requires Ran(own, w.links, FetchAll(cfg.owner, fetch), calls, w'.links) && !AllGood(calls) && w'.db == w.db
    ensures UpdateCalled(own, w, cfg, list, calls, Some(MalformedEntity), w')
  {
    RanFailed(own, w.links, FetchAll(cfg.owner, fetch), CutAll(cfg.id, cut) + MakeAll(cfg.id, ToMake(w.db, cfg, list)),
              calls, w'.links);
    assert UpdateRan(own, w, cfg, list, fetch, cut, calls, Some(MalformedEntity), w');
  }

  /** And one that goes on. */
  lemma Relinked(own: Owners, w: World, cfg: Ref, list: seq<Id>, fetch: seq<Id>, cut: seq<Id>,
                 fetches: seq<SdkCall>, more: seq<SdkCall>, err: Option<Error>, w': World)
    requires cfg in w.db.configs && ToFetch(w.db, cfg.owner, list, fetch)
    requires Distinct(cut) && SetOf(cut) == ToCut(w.db, cfg, list)
    requires Ran(own, w.links, FetchAll(cfg.owner, fetch), fetches, w.links) && AllGood(fetches)
    requires Ran(own, w.links, CutAll(cfg.id, cut) + MakeAll(cfg.id, ToMake(w.db, cfg, list)), more, w'.links)
    requires (err, w'.db) == if AllGood(more) then UpdateConnections(w.db, cfg, fetch, list) else (Blamed(more), w.db)
    ensures UpdateCalled(own, w, cfg, list, fetches + more, err, w')
  {
    RanBoth(own, w.links, FetchAll(cfg.owner, fetch), CutAll(cfg.id, cut) + MakeAll(cfg.id, ToMake(w.db, cfg, list)),
            fetches, more, w.links, w'.links);
    GoodBoth(fetches, more);
    assert UpdateRan(own, w, cfg, list, fetch, cut, fetches + more, err, w');
  }

  // ----- What the calls do to the links --------------------------------------------------------------

  /** How many calls went well. */
  function Reached(calls: seq<SdkCall>): nat {
    if AllGood(calls) then |calls| else |calls| - 1
  }

  lemma BadKeeps(links: set<(Id, Id)>, x: SdkCall)
    requires !Good(x)
    ensures Apply(links, x) == links
  {
  }

  lemma {:induction false} FetchesKeep(links: set<(Id, Id)>, calls: seq<SdkCall>)
    requires forall i :: 0 <= i < |calls| ==> calls[i].req.Fetch?
    ensures After(links, calls) == links
    decreases |calls|
  {
    if calls != [] {
      FetchesKeep(links, calls[..|calls| - 1]);
    }
  }

  lemma CutOne(links: set<(Id, Id)>, thing: Id, done: seq<Id>, ch: Id)
    ensures links - LinksOf(thing, SetOf(done)) - {(thing, ch)} == links - LinksOf(thing, SetOf(done + [ch]))
  {
    assert SetOf(done + [ch]) == SetOf(done) + {ch};
    assert LinksOf(thing, SetOf(done) + {ch}) == LinksOf(thing, SetOf(done)) + {(thing, ch)};
  }

  lemma {:induction false} CutsFront(own: Owners, links: set<(Id, Id)>, thing: Id, channels: seq<Id>,
                                     calls: seq<SdkCall>, n: nat)
    requires Follows(CutAll(thing, channels), calls) && AllPossible(own, links, calls) && n <= Reached(calls)
    ensures After(links, calls[..n]) == links - LinksOf(thing, SetOf(channels[..n]))
  {
    if n == 0 {
      assert LinksOf(thing, SetOf(channels[..0])) == {};
    } else {
      var x := calls[n - 1];
      CutsFront(own, links, thing, channels, calls, n - 1);
      assert calls[..n][..n - 1] == calls[..n - 1] && calls[..n][n - 1] == x;
      assert channels[..n] == channels[..n - 1] + [channels[n - 1]];
      CutOne(links, thing, channels[..n - 1], channels[n - 1]);
      assert Good(x) && Possible(own, After(links, calls[..n - 1]), x);
    }
  }

  lemma {:induction false} MakesFront(own: Owners, links: set<(Id, Id)>, thing: Id, channels: seq<Id>,
                                      calls: seq<SdkCall>, n: nat)
    requires Follows(MakeAll(thing, channels), calls) && AllPossible(own, links, calls) && n <= Reached(calls)
    ensures Makes(links, thing, channels[..n], After(links, calls[..n]))
  {
    if n == 0 {
      assert LinksOf(thing, SetOf(channels[..0])) == {};
    } else {
      var x := calls[n - 1];
      MakesFront(own, links, thing, channels, calls, n - 1);
      assert calls[..n][..n - 1] == calls[..n - 1] && calls[..n][n - 1] == x;
      assert channels[..n] == channels[..n - 1] + [channels[n - 1]];
      assert Good(x) && Possible(own, After(links, calls[..n - 1]), x);
      MakesMore(links, thing, channels[..n - 1], channels[n - 1], After(links, calls[..n - 1]));
    }
  }

  /** The call that fails changes nothing. */
  lemma ReachedAll(links: set<(Id, Id)>, plan: seq<Request>, calls: seq<SdkCall>)
    requires Follows(plan, calls)
    ensures Reached(calls) <= |calls| && After(links, calls) == After(links, calls[..Reached(calls)])
  {
    if AllGood(calls) {
      assert calls[..|calls|] == calls;
    } else {
      BadKeeps(After(links, calls[..|calls| - 1]), calls[|calls| - 1]);
    }
  }

  lemma CutsDo(own: Owners, links: set<(Id, Id)>, thing: Id, channels: seq<Id>, calls: seq<SdkCall>,
               links': set<(Id, Id)>)
    requires Ran(own, links, CutAll(thing, channels), calls, links')
    ensures links' == links - LinksOf(thing, SetOf(channels[..Reached(calls)]))
    ensures links - LinksOf(thing, SetOf(channels)) <= links' <= links
    ensures AllGood(calls) ==> links' == links - LinksOf(thing, SetOf(channels))
  {
    ReachedAll(links, CutAll(thing, channels), calls);
    CutsFront(own, links, thing, channels, calls, Reached(calls));
    LinksGrow(thing, channels, Reached(calls));
  }

  lemma MakesDo(own: Owners, links: set<(Id, Id)>, thing: Id, channels: seq<Id>, calls: seq<SdkCall>,
                links': set<(Id, Id)>)
    requires Ran(own, links, MakeAll(thing, channels), calls, links')
    ensures Makes(links, thing, channels[..Reached(calls)], links')
    ensures links <= links' <= links + LinksOf(thing, SetOf(channels))
    ensures AllGood(calls) ==> Makes(links, thing, channels, links')
  {
    ReachedAll(links, MakeAll(thing, channels), calls);
    MakesFront(own, links, thing, channels, calls, Reached(calls));
    LinksGrow(thing, channels, Reached(calls));
  }

  lemma LinksGrow(thing: Id, channels: seq<Id>, n: nat)
    requires n <= |channels|
    ensures LinksOf(thing, SetOf(channels[..n])) <= LinksOf(thing, SetOf(channels))
    ensures n == |channels| ==> channels[..n] == channels
  {
    assert forall x :: x in SetOf(channels[..n]) ==> x in SetOf(channels);
  }

  // ----- Every call is a step ------------------------------------------------------------------------

  /** The part of an update that comes to the links: cuts, then makes. */
  ghost predicate Links(own: Owners, links: set<(Id, Id)>, thing: Id, cut: seq<Id>, make: seq<Id>,
                        cuts: seq<SdkCall>, makes: seq<SdkCall>, links': set<(Id, Id)>) {
    && Ran(own, links, CutAll(thing, cut), cuts, After(links, cuts))
    && if AllGood(cuts) then Ran(own, After(links, cuts), MakeAll(thing, make), makes, links')
       else makes == [] && links' == After(links, cuts)
  }

  /** The three parts of an update. */
  lemma UpdateParts(own: Owners, w: World, cfg: Ref, list: seq<Id>, fetch: seq<Id>, cut: seq<Id>,
                    calls: seq<SdkCall>, err: Option<Error>, w': World)
    returns (fetches: seq<SdkCall>, cuts: seq<SdkCall>, makes: seq<SdkCall>)
    requires UpdateRan(own, w, cfg, list, fetch, cut, calls, err, w')
    ensures calls == fetches + (cuts + makes) && Ran(own, w.links, FetchAll(cfg.owner, fetch), fetches, w.links)
    ensures if AllGood(fetches) then Links(own, w.links, cfg.id, cut, ToMake(w.db, cfg, list), cuts, makes, w'.links)
            else cuts == makes == [] && w'.links == w.links
    ensures Blamed(calls) == if !AllGood(fetches) then Blamed(fetches)
                             else if !AllGood(cuts) then Blamed(cuts) else Blamed(makes)
    ensures AllGood(calls) <==> AllGood(fetches) && AllGood(cuts) && AllGood(makes)
  {
    var cutAll, makeAll := CutAll(cfg.id, cut), MakeAll(cfg.id, ToMake(w.db, cfg, list));
    var rest;
    fetches, rest := RanSplit(own, w.links, FetchAll(cfg.owner, fetch), cutAll + makeAll, calls, w'.links);
    FetchesKeep(w.links, fetches);
    cuts, makes := [], [];
    if AllGood(fetches) {
      cuts, makes := RanSplit(own, w.links, cutAll, makeAll, rest, w'.links);
    }
    GoodBoth(fetches, cuts + makes);
    GoodBoth(cuts, makes);
  }

  lemma FetchOwned(own: Owners, links: set<(Id, Id)>, owner: Owner, fetch: seq<Id>, calls: seq<SdkCall>,
                   links': set<(Id, Id)>)
    requires Ran(own, links, FetchAll(owner, fetch), calls, links') && AllGood(calls)
    ensures forall id :: id in fetch ==> own(id) == owner
  {
    forall id | id in fetch ensures own(id) == owner {
      var i :| 0 <= i < |fetch| && fetch[i] == id;
      assert Good(calls[i]) && Possible(own, After(links, calls[..i]), calls[i]);
    }
  }

  lemma BlamedSdk(plan: seq<Request>, calls: seq<SdkCall>)
    requires Follows(plan, calls) && !AllGood(calls)
    ensures SdkFailed(Blamed(calls))
  {
  }

  lemma RepositoryError(db: Db, cfg: Ref, channels: seq<Id>, list: seq<Id>)
    ensures !SdkFailed(UpdateConnections(db, cfg, channels, list).0)
  {
  }

  lemma UpdateIsStep(own: Owners, w: World, cfg: Ref, list: seq<Id>, fetch: seq<Id>, cut: seq<Id>,
                     calls: seq<SdkCall>, err: Option<Error>, w': World)
    requires cfg in w.db.configs && UpdateRan(own, w, cfg, list, fetch, cut, calls, err, w')
    ensures UpdateStep(own, w, Update(cfg, list), err, w')
  {
    var fetches, cuts, makes := UpdateParts(own, w, cfg, list, fetch, cut, calls, err, w');
    var make := ToMake(w.db, cfg, list);
    if AllGood(fetches) {
      CutsDo(own, w.links, cfg.id, cut, cuts, After(w.links, cuts));
      if AllGood(cuts) {
        MakesDo(own, After(w.links, cuts), cfg.id, make, makes, w'.links);
      }
    }
    if AllGood(calls) {
      FetchOwned(own, w.links, cfg.owner, fetch, fetches, w.links);
      RepositoryError(w.db, cfg, fetch, list);
      assert Fetched(own, w.db, cfg.owner, list, fetch);
    } else {
      BlamedSdk(UpdatePlan(w.db, cfg, list, fetch, cut), calls);
    }
  }

  lemma AddIsStep(own: Owners, w: World, cfg: Ref, config: Config, list: seq<Id>, fetch: seq<Id>,
                  calls: seq<SdkCall>, err: Option<Error>, w': World)
    requires AddRan(own, w, cfg, config, list, fetch, calls, err, w')
    ensures AddStep(own, w, Add(cfg, config, list), err, w')
  {
    FetchesKeep(w.links, calls);
    if AllGood(calls) {
      FetchOwned(own, w.links, cfg.owner, fetch, calls, w'.links);
      assert Fetched(own, w.db, cfg.owner, list, fetch);
    }
  }

  lemma ChangeIsStep(own: Owners, w: World, cfg: Ref, state: State, order: seq<Id>,
                     calls: seq<SdkCall>, err: Option<Error>, w': World)
    requires cfg in w.db.configs && w.db.configs[cfg].state != state
    requires ChangeRan(own, w, cfg, state, order, calls, err, w')
    ensures ChangeStep(w, Change(cfg, state), err, w')
  {
    if state == Active {
      MakesDo(own, w.links, cfg.id, order, calls, w'.links);
    } else {
      CutsDo(own, w.links, cfg.id, order, calls, w'.links);
    }
  }

  /** Whatever SDK calls fail, what a call does is a step of the runs; so everything proved of those holds. */
  lemma CalledIsStep(own: Owners, w: World, c: Call, calls: seq<SdkCall>, err: Option<Error>, w': World)
    requires Called(own, w, c, calls, err, w')
    ensures Step(own, w, c, err, w')
  {
    match c
    case Add(cfg, config, list) =>
      var fetch :| AddRan(own, w, cfg, config, list, fetch, calls, err, w');
      AddIsStep(own, w, cfg, config, list, fetch, calls, err, w');
    case Update(cfg, list) =>
      if cfg in w.db.configs {
        var fetch, cut :| UpdateRan(own, w, cfg, list, fetch, cut, calls, err, w');
        UpdateIsStep(own, w, cfg, list, fetch, cut, calls, err, w');
      }
    case Change(cfg, state) =>
      if cfg in w.db.configs && w.db.configs[cfg].state != state {
        var order :| ChangeRan(own, w, cfg, state, order, calls, err, w');
        ChangeIsStep(own, w, cfg, state, order, calls, err, w');
      }
    case _ =>
  }

  // ----- Who is to blame -----------------------------------------------------------------------------

  /** The last call that an update made, and what the caller is told about it: a listed channel, new to the
      table, could not be fetched; the thing could not be disconnected from a channel taken off the list; or
      it could not be connected to a listed one, which was there or not. */
  predicate Explains(db: Db, cfg: Ref, list: seq<Id>, x: SdkCall, err: Option<Error>) {
    match x.req
    case Fetch(id, owner) =>
      && id in list && id !in ListExisting(db, cfg.owner, list) && owner == cfg.owner
      && err == Some(MalformedEntity)
    case Cut(thing, ch) =>
      && IsActive(db, cfg) && thing == cfg.id && ch in ChannelsOf(db, cfg) && ch !in list
      && err == Some(Things)
    case Make(thing, ch) =>
      && IsActive(db, cfg) && thing == cfg.id && ch in list
      && err == if x.r.Missing? then Some(MalformedEntity) else Some(Things)
  }

  /** An update reports a failure of the things service if and only if an SDK call has failed. That was the last
      one made, the error tells which, and the table is left alone. */
  lemma UpdateBlames(own: Owners, w: World, cfg: Ref, list: seq<Id>, calls: seq<SdkCall>, err: Option<Error>, w': World)
    requires Called(own, w, Update(cfg, list), calls, err, w')
    ensures SdkFailed(err) <==> !AllGood(calls)
    ensures SdkFailed(err) ==>
              && calls != [] && AllGood(calls[..|calls| - 1]) && !Good(calls[|calls| - 1])
              && Explains(w.db, cfg, list, calls[|calls| - 1], err) && w'.db == w.db
  {
    if cfg in w.db.configs {
      var fetch, cut :| UpdateRan(own, w, cfg, list, fetch, cut, calls, err, w');
      RepositoryError(w.db, cfg, fetch, list);
      if !AllGood(calls) {
        LastFails(w.db, cfg, list, fetch, cut, calls);
      }
    }
  }

  lemma LastFails(db: Db, cfg: Ref, list: seq<Id>, fetch: seq<Id>, cut: seq<Id>, calls: seq<SdkCall>)
    requires ToFetch(db, cfg.owner, list, fetch) && SetOf(cut) == ToCut(db, cfg, list)
    requires Follows(UpdatePlan(db, cfg, list, fetch, cut), calls) && !AllGood(calls)
    ensures calls != [] && AllGood(calls[..|calls| - 1]) && !Good(calls[|calls| - 1])
    ensures Explains(db, cfg, list, calls[|calls| - 1], Blamed(calls)) && SdkFailed(Blamed(calls))
  {
    var n, make := |calls| - 1, ToMake(db, cfg, list);
    assert calls[n].req == UpdatePlan(db, cfg, list, fetch, cut)[n];
    AddedSuperset(ChannelsOf(db, cfg), list);
    if n < |fetch| {
      assert fetch[n] in SetOf(fetch);
    } else if n < |fetch| + |cut| {
      assert cut[n - |fetch|] in SetOf(cut);
    } else {
      assert make[n - |fetch| - |cut|] in SetOf(make);
    }
  }

  // ----- What a call brings about when no SDK call fails ----------------------------------------------

  lemma AllMade(own: Owners, w: World, cfg: Ref, list: seq<Id>, fetch: seq<Id>, cut: seq<Id>,
                calls: seq<SdkCall>, err: Option<Error>, w': World)
    requires UpdateRan(own, w, cfg, list, fetch, cut, calls, err, w') && AllGood(calls)
    ensures Makes(w.links - LinksOf(cfg.id, ToCut(w.db, cfg, list)), cfg.id, ToMake(w.db, cfg, list), w'.links)
  {
    var fetches, cuts, makes := UpdateParts(own, w, cfg, list, fetch, cut, calls, err, w');
    CutsDo(own, w.links, cfg.id, cut, cuts, After(w.links, cuts));
    MakesDo(own, After(w.links, cuts), cfg.id, ToMake(w.db, cfg, list), makes, w'.links);
  }

  /** When none fails, an update succeeds if and only if the list is empty or can be stored. Then the config has
      exactly the new list, unless it is empty, and nothing else in the table changes. Of the links those of an
      Active config are made to fit: taken off and added as the list says, each once. */
  lemma UpdateDone(own: Owners, w: World, cfg: Ref, list: seq<Id>, calls: seq<SdkCall>, err: Option<Error>, w': World)
    requires Inv(own, w) && cfg in w.db.configs && Called(own, w, Update(cfg, list), calls, err, w') && AllGood(calls)
    ensures err == None <==> list == [] || Storable(w.db, cfg, list)
    ensures err != None ==> w'.db == w.db
    ensures err == None ==>
              && w'.db.configs == w.db.configs
              && ChannelsOf(w'.db, cfg) == (if list == [] then ChannelsOf(w.db, cfg) else SetOf(list))
              && forall r :: r != cfg ==> ChannelsOf(w'.db, r) == ChannelsOf(w.db, r)
    ensures !IsActive(w.db, cfg) ==> w'.links == w.links
    ensures IsActive(w.db, cfg) ==>
              Makes(w.links - LinksOf(cfg.id, ChannelsOf(w.db, cfg) - SetOf(list)), cfg.id,
                    Added(ChannelsOf(w.db, cfg), list), w'.links)
  {
    var fetch, cut :| UpdateRan(own, w, cfg, list, fetch, cut, calls, err, w');
    AllMade(own, w, cfg, list, fetch, cut, calls, err, w');
    if !IsActive(w.db, cfg) {
      assert LinksOf(cfg.id, {}) == {};
    }
    if list == [] {
      FirstIn(fetch);
    } else {
      StoresExact(w.db, cfg, fetch, list);
    }
    if err == None {
      UpdateExact(w.db, cfg, fetch, list);
      UpdateConfigs(w.db, cfg, fetch, list);
    }
  }

  /** No config of the thing, with the key or with the external id yet. */
  predicate Unused(db: Db, cfg: Ref, config: Config) {
    forall r <- db.configs.Keys ::
      r.id != cfg.id && db.configs[r].key != config.key && db.configs[r].externalID != config.externalID
  }

  lemma SaveStores(db: Db, cfg: Ref, config: Config, fetch: seq<Id>, list: seq<Id>)
    requires Sound(db) && ToFetch(db, cfg.owner, list, fetch)
    ensures SaveConfig(db, cfg, config, fetch, list).0 == None <==> Unused(db, cfg, config) && Storable(db, cfg, list)
  {
    if Unused(db, cfg, config) {
      var db0 := db.(configs := db.configs[cfg := config]);
      FetchInserts(db, cfg.owner, fetch, list);
      var tx := InsertChannels(db0, cfg.owner, fetch);
      if tx.Some? {
        RowsNew(db, cfg, list);
        forall id | id in list ensures id in tx.value.channels && tx.value.channels[id] == cfg.owner {
          assert id in SetOf(list);
          assert id in SetOf(fetch) || id in ListExisting(db, cfg.owner, list);
        }
      }
    }
  }

  lemma FetchInserts(db: Db, owner: Owner, fetch: seq<Id>, list: seq<Id>)
    requires ToFetch(db, owner, list, fetch)
    ensures (forall id <- fetch :: id !in db.channels)
       <==> forall id :: id in list && id in db.channels ==> db.channels[id] == owner
  {
    assert forall id :: id in fetch <==> id in SetOf(fetch);
    assert forall id :: id in list <==> id in SetOf(list);
  }

  lemma RowsNew(db: Db, cfg: Ref, list: seq<Id>)
    requires Sound(db) && cfg !in db.configs
    ensures Rows(cfg, list) * db.connections == {}
  {
    forall c | c in Rows(cfg, list) ensures c !in db.connections {
      assert c in db.connections ==> ConnSound(db, c);
    }
  }

  /** When no channel is refused, a config is added if and only if it is new and its list can be stored; it is
      Inactive, and has exactly that list. No link changes, whatever the outcome. */
  lemma AddDone(own: Owners, w: World, cfg: Ref, config: Config, list: seq<Id>, calls: seq<SdkCall>,
                err: Option<Error>, w': World)
    requires Inv(own, w) && Called(own, w, Add(cfg, config, list), calls, err, w')
    ensures w'.links == w.links && (err != None ==> w'.db == w.db)
    ensures err == Some(MalformedEntity) <==> !AllGood(calls)
    ensures AllGood(calls) ==> (err == None <==> Unused(w.db, cfg, config) && Storable(w.db, cfg, list))
    ensures err == None ==>
              && w'.db.configs == w.db.configs[cfg := config.(state := Inactive)]
              && ChannelsOf(w'.db, cfg) == SetOf(list)
              && forall r :: r != cfg ==> ChannelsOf(w'.db, r) == ChannelsOf(w.db, r)
  {
    var fetch :| AddRan(own, w, cfg, config, list, fetch, calls, err, w');
    var inactive := config.(state := Inactive);
    FetchesKeep(w.links, calls);
    if AllGood(calls) {
      SaveStores(w.db, cfg, inactive, fetch, list);
      if err == None {
        SaveExact(w.db, cfg, inactive, fetch, list);
        AddedChannels(w.db, w'.db, cfg, list);
      }
    }
  }

  lemma AddedChannels(db: Db, db': Db, cfg: Ref, list: seq<Id>)
    requires Sound(db) && cfg !in db.configs && db'.connections == db.connections + Rows(cfg, list)
    ensures ChannelsOf(db', cfg) == SetOf(list)
    ensures forall r :: r != cfg ==> ChannelsOf(db', r) == ChannelsOf(db, r)
  {
    assert Bare(db, cfg).connections == db.connections by {
      assert forall c :: c in db.connections ==> ConnSound(db, c);
    }
    ReplacedChannels(db, db', cfg, list);
  }

  /** When none fails, the config gets its new state and the thing the links that go with it. When one does, the
      caller is told that the things service failed, and the state stays. */
  lemma ChangeDone(own: Owners, w: World, cfg: Ref, state: State, calls: seq<SdkCall>, err: Option<Error>, w': World)
    requires cfg in w.db.configs && Called(own, w, Change(cfg, state), calls, err, w')
    ensures err == (if AllGood(calls) then None else Some(Things))
    ensures var config := w.db.configs[cfg];
            w'.db == if err == None then w.db.(configs := w.db.configs[cfg := config.(state := state)]) else w.db
    ensures var all := LinksOf(cfg.id, ChannelsOf(w.db, cfg));
            err == None && w.db.configs[cfg].state != state ==>
              if state == Active then all !! w.links && w'.links == w.links + all else w'.links == w.links - all
    ensures forall x :: x in calls ==> x.req.thing == cfg.id && x.req.channel in ChannelsOf(w.db, cfg)
                                       && if state == Active then x.req.Make? else x.req.Cut?
  {
    var config := w.db.configs[cfg];
    if config.state == state {
      assert w.db.configs[cfg := config.(state := state)] == w.db.configs;
    } else {
      var order :| ChangeRan(own, w, cfg, state, order, calls, err, w');
      ChangeIsStep(own, w, cfg, state, order, calls, err, w');
      forall x | x in calls
        ensures x.req.thing == cfg.id && x.req.channel in ChannelsOf(w.db, cfg)
                && if state == Active then x.req.Make? else x.req.Cut?
      {
        var i :| 0 <= i < |calls| && calls[i] == x;
        assert x.req == ChangePlan(cfg, state, order)[i] && order[i] in SetOf(order);
      }
    }
  }

  // ----- A healthy things service --------------------------------------------------------------------

  /** A listed channel that the table does not have and that is not the caller's. */
  predicate Refused(own: Owners, db: Db, cfg: Ref, list: seq<Id>) {
    exists id <- list :: id !in ListExisting(db, cfg.owner, list) && own(id) != cfg.owner
  }

  lemma HealthyLast(own: Owners, links: set<(Id, Id)>, a: seq<SdkCall>, b: seq<SdkCall>)
    requires HealthyCalls(own, links, a + b)
    ensures HealthyCalls(own, links, a) && HealthyCalls(own, After(links, a), b)
  {
    var all := a + b;
    forall i | 0 <= i < |a| ensures HealthyCall(own, After(links, a[..i]), a[i]) {
      assert all[..i] == a[..i] && all[i] == a[i];
    }
    forall i | 0 <= i < |b| ensures HealthyCall(own, After(After(links, a), b[..i]), b[i]) {
      assert all[..|a| + i] == a + b[..i] && all[|a| + i] == b[i];
      AfterBoth(links, a, b[..i]);
    }
  }

  /** Connecting that fails has come to a link that exists. */
  lemma MakesHalt(own: Owners, links: set<(Id, Id)>, thing: Id, channels: seq<Id>, calls: seq<SdkCall>,
                  links': set<(Id, Id)>)
    requires Ran(own, links, MakeAll(thing, channels), calls, links') && !AllGood(calls)
    requires HealthyCalls(own, links, calls)
    ensures Halts(links, thing, channels, links') && Blamed(calls) == Some(Things)
  {
    var n := |calls| - 1;
    MakesDo(own, links, thing, channels, calls, links');
    assert HealthyCall(own, After(links, calls[..n]), calls[n]) && !Good(calls[n]);
    BadKeeps(After(links, calls[..n]), calls[n]);
    assert HaltsAt(links, thing, channels, links', n);
  }

  lemma UpdateHealthy(own: Owners, w: World, cfg: Ref, list: seq<Id>, fetch: seq<Id>, cut: seq<Id>,
                      calls: seq<SdkCall>, err: Option<Error>, w': World)
    requires UpdateRan(own, w, cfg, list, fetch, cut, calls, err, w') && HealthyCalls(own, w.links, calls)
    ensures Healthy(w, Update(cfg, list), err, w')
    ensures err == Some(MalformedEntity) <==> exists id <- fetch :: own(id) != cfg.owner
  {
    var fetches, cuts, makes := UpdateParts(own, w, cfg, list, fetch, cut, calls, err, w');
    var make, mid := ToMake(w.db, cfg, list), After(w.links, cuts);
    HealthyLast(own, w.links, fetches, cuts + makes);
    RepositoryError(w.db, cfg, fetch, list);
    if AllGood(fetches) {
      FetchOwned(own, w.links, cfg.owner, fetch, fetches, w.links);
      HealthyLast(own, w.links, cuts, makes);
      assert forall i :: 0 <= i < |cuts| ==> HealthyCall(own, After(w.links, cuts[..i]), cuts[i]);
      assert AllGood(cuts);
      CutsDo(own, w.links, cfg.id, cut, cuts, mid);
      if !AllGood(makes) {
        MakesHalt(own, mid, cfg.id, make, makes, w'.links);
      }
    } else {
      var n := |fetches| - 1;
      assert HealthyCall(own, After(w.links, fetches[..n]), fetches[n]) && !Good(fetches[n]);
      assert fetches[n].req == FetchAll(cfg.owner, fetch)[n] && fetch[n] in fetch;
    }
  }

  /** On a healthy things service everything about an update can be told beforehand: the answer, and whether it
      leaves every Active config's thing connected to all the channels that the config lists. */
  lemma HealthyUpdate(own: Owners, w: World, cfg: Ref, list: seq<Id>, calls: seq<SdkCall>, err: Option<Error>,
                      w': World)
    requires Inv(own, w) && Linked(w) && Called(own, w, Update(cfg, list), calls, err, w')
    requires HealthyCalls(own, w.links, calls)
    ensures err == Some(NotFound) <==> cfg !in w.db.configs
    ensures err == Some(MalformedEntity) <==> cfg in w.db.configs && Refused(own, w.db, cfg, list)
    ensures err == Some(Things) <==>
              IsActive(w.db, cfg) && !Refused(own, w.db, cfg, list) && !Fresh(w, cfg, list)
    ensures err == None <==>
              && cfg in w.db.configs && !Refused(own, w.db, cfg, list)
              && Distinct(list) && (IsActive(w.db, cfg) ==> Fresh(w, cfg, list))
    ensures Linked(w') <==> !Strands(w, Update(cfg, list)) || Refused(own, w.db, cfg, list)
  {
    CalledIsStep(own, w, Update(cfg, list), calls, err, w');
    if cfg in w.db.configs {
      var fetch, cut :| UpdateRan(own, w, cfg, list, fetch, cut, calls, err, w');
      UpdateHealthy(own, w, cfg, list, fetch, cut, calls, err, w');
      RefusedIs(own, w.db, cfg, list, fetch);
      HealthyUpdateExact(own, w, Update(cfg, list), err, w');
      HealthyAnswer(own, w, cfg, list, fetch, cut, calls, err, w');
    }
  }

  lemma RefusedIs(own: Owners, db: Db, cfg: Ref, list: seq<Id>, fetch: seq<Id>)
    requires ToFetch(db, cfg.owner, list, fetch)
    ensures (exists id <- fetch :: own(id) != cfg.owner) <==> Refused(own, db, cfg, list)
  {
    assert forall id :: id in fetch <==> id in SetOf(fetch);
    assert forall id :: id in list <==> id in SetOf(list);
  }

  /** What is not refused can be stored if it has no repetitions. */
  lemma NotRefused(own: Owners, db: Db, cfg: Ref, list: seq<Id>)
    requires Owned(own, db) && !Refused(own, db, cfg, list)
    ensures Storable(db, cfg, list) <==> Distinct(list)
  {
    forall id | id in list && id in db.channels ensures db.channels[id] == cfg.owner {
      assert id !in ListExisting(db, cfg.owner, list) ==> own(id) == cfg.owner;
    }
  }

  lemma HealthyAnswer(own: Owners, w: World, cfg: Ref, list: seq<Id>, fetch: seq<Id>, cut: seq<Id>,
                      calls: seq<SdkCall>, err: Option<Error>, w': World)
    requires Inv(own, w) && Linked(w) && cfg in w.db.configs && Called(own, w, Update(cfg, list), calls, err, w')
    requires UpdateRan(own, w, cfg, list, fetch, cut, calls, err, w') && Healthy(w, Update(cfg, list), err, w')
    requires err == Some(MalformedEntity) <==> Refused(own, w.db, cfg, list)
    ensures err != Some(NotFound)
    ensures err == Some(Things) <==> IsActive(w.db, cfg) && !Refused(own, w.db, cfg, list) && !Fresh(w, cfg, list)
    ensures err == None <==>
              !Refused(own, w.db, cfg, list) && Distinct(list) && (IsActive(w.db, cfg) ==> Fresh(w, cfg, list))
  {
    CalledIsStep(own, w, Update(cfg, list), calls, err, w');
    UpdateBlames(own, w, cfg, list, calls, err, w');
    StoredError(w.db, cfg, fetch, list);
    if IsActive(w.db, cfg) {
      assert ConfigLinked(w, cfg);
      if err == Some(Things) {
        MakesExact(w.links, cfg.id, ChannelsOf(w.db, cfg), list);
        HaltsOnlyIf(w.links - LinksOf(cfg.id, ToCut(w.db, cfg, list)), cfg.id, ToMake(w.db, cfg, list), w'.links);
      } else if !Fresh(w, cfg, list) {
        StaleListRefused(own, w, Update(cfg, list), err, w');
      }
    } else if err == Some(Things) {
      LastFails(w.db, cfg, list, fetch, cut, calls);
    }
    if !SdkFailed(err) {
      UpdateDone(own, w, cfg, list, calls, err, w');
      NotRefused(own, w.db, cfg, list);
    }
  }

  lemma StoredError(db: Db, cfg: Ref, channels: seq<Id>, list: seq<Id>)
    requires cfg in db.configs
    ensures UpdateConnections(db, cfg, channels, list).0 != Some(NotFound)
  {
  }

  lemma ChangeHealthy(own: Owners, w: World, cfg: Ref, state: State, order: seq<Id>,
                      calls: seq<SdkCall>, err: Option<Error>, w': World)
    requires ChangeRan(own, w, cfg, state, order, calls, err, w') && HealthyCalls(own, w.links, calls)
    ensures Healthy(w, Change(cfg, state), err, w')
  {
    if state == Inactive {
      forall i | 0 <= i < |calls| ensures Good(calls[i]) {
        assert HealthyCall(own, After(w.links, calls[..i]), calls[i]);
      }
    }
  }

  /** What a healthy things service means for the step as a whole. */
  lemma HealthyIs(own: Owners, w: World, c: Call, calls: seq<SdkCall>, err: Option<Error>, w': World)
    requires Called(own, w, c, calls, err, w') && HealthyCalls(own, w.links, calls)
    ensures Healthy(w, c, err, w')
  {
    match c
    case Add(cfg, config, list) =>
      var fetch :| AddRan(own, w, cfg, config, list, fetch, calls, err, w');
      FetchesKeep(w.links, calls);
    case Update(cfg, list) =>
      if cfg in w.db.configs {
        var fetch, cut :| UpdateRan(own, w, cfg, list, fetch, cut, calls, err, w');
        UpdateHealthy(own, w, cfg, list, fetch, cut, calls, err, w');
      }
    case Change(cfg, state) =>
      if cfg in w.db.configs && w.db.configs[cfg].state != state {
        var order :| ChangeRan(own, w, cfg, state, order, calls, err, w');
        ChangeHealthy(own, w, cfg, state, order, calls, err, w');
      }
    case _ =>
  }

  /** Over every run on a healthy things service in which no update strands an Active config, the thing of every
      Active config is connected to all the channels the config lists, after each call. */
  lemma HealthyCallsLinked(own: Owners, ws: seq<World>, cs: seq<Call>, made: seq<seq<SdkCall>>,
                           errs: seq<Option<Error>>, n: nat)
    requires CalledRun(own, ws, cs, made, errs) && n < |ws|
    requires forall i :: 0 <= i < |cs| ==> HealthyCalls(own, ws[i].links, made[i]) && !Strands(ws[i], cs[i])
    ensures Linked(ws[n])
  {
    forall i | 0 <= i < |cs|
      ensures Step(own, ws[i], cs[i], errs[i], ws[i + 1]) && Healthy(ws[i], cs[i], errs[i], ws[i + 1])
    {
      CalledIsStep(own, ws[i], cs[i], made[i], errs[i], ws[i + 1]);
      HealthyIs(own, ws[i], cs[i], made[i], errs[i], ws[i + 1]);
    }
    HealthyRunLinked(own, ws, cs, errs, n);
  }

  // ----- Removals and events -------------------------------------------------------------------------

  /** Removing configs takes out their connections, and then exactly the channels that nothing refers to any more. */
  lemma RemovedConfigs(db: Db, gone: set<Ref>)
    requires Sound(db)
    ensures var db' := RemoveConfigs(db, gone);
            && db'.configs == db.configs - gone
            && (forall c :: c in db'.connections <==> c in db.connections && c.config !in gone)
            && (forall id :: id in db'.channels <==> exists c :: c in db'.connections && c.channel.id == id)
            && (forall id :: id in db'.channels ==> id in db.channels && db'.channels[id] == db.channels[id])
  {
    var db' := RemoveConfigs(db, gone);
    forall c | c in db'.connections ensures c.channel.id in db'.channels {
      assert ConnSound(db, c);
    }
  }

  /** The caller's config, and nobody else's, is removed. */
  lemma RemoveDone(own: Owners, w: World, cfg: Ref, err: Option<Error>, w': World)
    requires Inv(own, w) && Called(own, w, Remove(cfg), [], err, w')
    ensures err == None && w'.links == w.links && w'.db.configs == w.db.configs - {cfg}
    ensures ChannelsOf(w'.db, cfg) == {} && forall r :: r != cfg ==> ChannelsOf(w'.db, r) == ChannelsOf(w.db, r)
  {
    RemovedConfigs(w.db, {cfg});
    forall r | r != cfg ensures ChannelsOf(w'.db, r) == ChannelsOf(w.db, r) {
      assert forall c: Conn :: c.config == r ==> (c in w'.db.connections <==> c in w.db.connections);
    }
  }

  /** A removed thing takes its config along, whoever owns it, and its links. */
  lemma ThingRemovedDone(own: Owners, w: World, id: Id, err: Option<Error>, w': World)
    requires Inv(own, w) && Called(own, w, ThingRemoved(id), [], err, w')
    ensures forall r :: r in w'.db.configs <==> r in w.db.configs && r.id != id
    ensures forall r :: r in w'.db.configs ==> w'.db.configs[r] == w.db.configs[r]
    ensures forall r :: ChannelsOf(w'.db, r) == if r.id == id then {} else ChannelsOf(w.db, r)
    ensures forall l :: l in w'.links <==> l in w.links && l.0 != id
  {
    var gone := set r | r in w.db.configs && r.id == id;
    RemovedConfigs(w.db, gone);
    forall r ensures ChannelsOf(w'.db, r) == if r.id == id then {} else ChannelsOf(w.db, r) {
      assert forall c :: c in w.db.connections ==> ConnSound(w.db, c);
      assert forall c: Conn :: c.config == r ==> (c in w'.db.connections <==> c in w.db.connections && r.id != id);
    }
  }

  /** A removed channel leaves every list, and every link to it goes. */
  lemma ChannelRemovedDone(own: Owners, w: World, id: Id, err: Option<Error>, w': World)
    requires Inv(own, w) && Called(own, w, ChannelRemoved(id), [], err, w')
    ensures w'.db.configs == w.db.configs && w'.db.channels == w.db.channels - {id}
    ensures forall r :: ChannelsOf(w'.db, r) == ChannelsOf(w.db, r) - {id}
    ensures forall l :: l in w'.links <==> l in w.links && l.1 != id
  {
    forall r ensures ChannelsOf(w'.db, r) == ChannelsOf(w.db, r) - {id} {
      forall x | x in ChannelsOf(w.db, r) - {id} ensures x in ChannelsOf(w'.db, r) {
        var c :| c in w.db.connections && c.config == r && c.channel.id == x;
        assert c in w'.db.connections;
      }
      forall x | x in ChannelsOf(w'.db, r) ensures x != id && x in ChannelsOf(w.db, r) {
        var c :| c in w'.db.connections && c.config == r && c.channel.id == x;
        assert ConnSound(w.db, c);
      }
    }
  }

  /** A disconnected thing's config, with every other one, becomes Inactive if it lists the channel; lists stay. */
  lemma ThingDisconnectedDone(own: Owners, w: World, ch: Id, th: Id, err: Option<Error>, w': World)
    requires Sound(w.db) && Called(own, w, ThingDisconnected(ch, th), [], err, w')
    ensures w'.db.connections == w.db.connections && w'.db.channels == w.db.channels
    ensures w'.db.configs.Keys == w.db.configs.Keys && w'.links == w.links - {(th, ch)}
    ensures forall r :: r in w.db.configs ==>
              w'.db.configs[r] == if exists q <- w.db.configs.Keys :: q.id == th && ch in ChannelsOf(w.db, q)
                                  then w.db.configs[r].(state := Inactive) else w.db.configs[r]
  {
    if exists c <- w.db.connections :: c.config.id == th && c.channel.id == ch {
      var c :| c in w.db.connections && c.config.id == th && c.channel.id == ch;
      assert ConnSound(w.db, c) && ch in ChannelsOf(w.db, c.config);
    }
  }
}
