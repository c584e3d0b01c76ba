// coap/adapter.go and the steps of coap/api/transport.go that change its observer table, as a state
// machine over whole runs. An observer is any handle; each is handed to Subscribe once, new.
module CoapObservers {
  import opened Common

  /** A registered observer: the id it was registered under and how often its Cancel channel, and its
      Messages channel, have been closed. */
  datatype Record = Record(id: string, cancels: nat, drains: nat)

  /** obs is the service's table; observers are all ever registered. */
  datatype State<H(==)> = State(obs: map<string, H>, observers: map<H, Record>)

  /** What can happen, in any order. Request is a GET that is not an acknowledgement, with its Observe
      option, whether it is a reset, the observer that NewObserver would give it and whether the broker
      accepts the subscription. PingTimeout is a ping goroutine giving an id up, whoever holds the id
      by then. Cancelled is the cancel goroutine of an observer waking up. */
  datatype Event<H(==)> =
    | Request(id: string, observe: Option<nat>, reset: bool, o: H, brokerOk: bool)
    | PingTimeout(id: string)
    | Cancelled(h: H)

  function Close<H(==)>(observers: map<H, Record>, o: H): map<H, Record> {
    if o in observers then observers[o := observers[o].(cancels := observers[o].cancels + 1)] else observers
  }

  /** put: the observer that held the id is cancelled. */
  function Put<H(==)>(s: State<H>, id: string, o: H): State<H> {
    var closed := if id in s.obs then Close(s.observers, s.obs[id]) else s.observers;
    State(s.obs[id := o], closed[o := Record(id, 0, 0)])
  }

  /** remove */
  function Remove<H(==)>(s: State<H>, id: string): State<H> {
    if id in s.obs then State(s.obs - {id}, Close(s.observers, s.obs[id])) else s
  }

  function Subscribe<H(==)>(s: State<H>, id: string, o: H, brokerOk: bool): State<H> {
    if brokerOk then Put(s, id, o) else s
  }

  /** observe: a reset or option 1 removes, option 0 subscribes; one request may do both. */
  function Observe<H(==)>(s: State<H>, id: string, observe: Option<nat>, reset: bool, o: H, brokerOk: bool): State<H> {
    var t := if observe == Some(1) || reset then Remove(s, id) else s;
    if observe == Some(0) then Subscribe(t, id, o, brokerOk) else t
  }

  /** cancel: waits for Cancel to be closed, then closes Messages; there is one such goroutine for each
      observer, so it runs to its end once. */
  function Drain<H(==)>(s: State<H>, o: H): State<H> {
    if o in s.observers && s.observers[o].cancels > 0 && s.observers[o].drains == 0
    then s.(observers := s.observers[o := s.observers[o].(drains := 1)])
    else s
  }

  function Step<H(==)>(s: State<H>, e: Event<H>): State<H> {
    match e
    case Request(id, observe, reset, o, brokerOk) => Observe(s, id, observe, reset, o, brokerOk)
    case PingTimeout(id) => Remove(s, id)
    case Cancelled(h) => Drain(s, h)
  }

  /** Each subscription brings a new observer. */
  predicate Fresh<H(==)>(s: State<H>, e: Event<H>) {
    e.Request? && e.observe == Some(0) ==> e.o !in s.observers
  }

  function Run<H(==)>(s: State<H>, events: seq<Event<H>>): State<H> {
    if events == [] then s else Step(Run(s, events[..|events| - 1]), events[|events| - 1])
  }

  ghost predicate AllFresh<H>(s: State<H>, events: seq<Event<H>>) {
    events == [] ||
    (AllFresh(s, events[..|events| - 1]) && Fresh(Run(s, events[..|events| - 1]), events[|events| - 1]))
  }

  function Start<H(==)>(): State<H> {
    State(map[], map[])
  }

  // ----- The invariant -------------------------------------------------------------------------------

  /** Every table entry is a registered observer under its own id, not yet cancelled; every other
      registered observer has been cancelled exactly once; Messages is closed at most once and only
      after Cancel. */
  ghost predicate Sound<H>(s: State<H>) {
    && (forall id :: id in s.obs ==> s.obs[id] in s.observers && s.observers[s.obs[id]].id == id)
    && (forall o :: o in s.observers ==> RecordSound(s, o))
  }

  ghost predicate RecordSound<H>(s: State<H>, o: H)
    requires o in s.observers
  {
    var r := s.observers[o];
    && r.cancels == (if Holds(s, r.id, o) then 0 else 1)
    && r.drains <= r.cancels
  }

  predicate Holds<H(==)>(s: State<H>, id: string, o: H) {
    id in s.obs && s.obs[id] == o
  }

  /** The observer under an id can still be cancelled. */
  lemma HolderOpen<H>(s: State<H>, id: string)
    requires Sound(s) && id in s.obs
    ensures s.obs[id] in s.observers && s.observers[s.obs[id]].cancels == 0
  {
    assert s.obs[id] in s.observers;
    assert RecordSound(s, s.obs[id]);
  }

  lemma RemoveSound<H>(s: State<H>, id: string)
    requires Sound(s)
    ensures Sound(Remove(s, id))
  {
    var t := Remove(s, id);
    forall o | o in t.observers ensures RecordSound(t, o) {
      assert RecordSound(s, o);
    }
  }

  lemma PutSound<H>(s: State<H>, id: string, o: H)
    requires Sound(s) && o !in s.observers
    ensures Sound(Put(s, id, o))
  {
    var t := Put(s, id, o);
    forall p | p in t.observers ensures RecordSound(t, p) {
      assert p != o ==> RecordSound(s, p);
    }
  }

  lemma DrainSound<H>(s: State<H>, o: H)
    requires Sound(s)
    ensures Sound(Drain(s, o))
  {
    var t := Drain(s, o);
    forall p | p in t.observers ensures RecordSound(t, p) {
      assert RecordSound(s, p);
    }
  }

  lemma StepSound<H>(s: State<H>, e: Event<H>)
    requires Sound(s) && Fresh(s, e)
    ensures Sound(Step(s, e))
  {
    match e
    case PingTimeout(id) => RemoveSound(s, id);
    case Cancelled(h) => DrainSound(s, h);
    case Request(id, observe, reset, o, brokerOk) =>
      RemoveSound(s, id);
      var t := if observe == Some(1) || reset then Remove(s, id) else s;
      if observe == Some(0) {
        PutSound(t, id, o);
      }
  }

  lemma {:induction false} RunSound<H>(s: State<H>, events: seq<Event<H>>)
    requires Sound(s) && AllFresh(s, events)
    ensures Sound(Run(s, events))
  {
    if events != [] {
      RunSound(s, events[..|events| - 1]);
      StepSound(Run(s, events[..|events| - 1]), events[|events| - 1]);
    }
  }

  /** Over every run from the empty table, each registered observer's Cancel channel is closed at most
      once, and has been closed if and only if the observer is no longer in the table; so no close
      panics, and at most one registered observer of an id is still open. */
  lemma ClosedExactlyOnLeaving<H>(events: seq<Event<H>>, o: H)
    requires AllFresh(Start<H>(), events) && o in Run(Start<H>(), events).observers
    ensures var s := Run(Start<H>(), events);
            && s.observers[o].cancels <= 1
            && s.observers[o].drains <= s.observers[o].cancels
            && (s.observers[o].cancels == 0 <==> o in s.obs.Values)
            && (s.observers[o].cancels == 0 ==> OnlyOpen(s, o))
  {
    var s := Run(Start<H>(), events);
    RunSound(Start<H>(), events);
    InTable(s, o);
    assert RecordSound(s, o);
    if s.observers[o].cancels == 0 {
      forall p | p in s.observers && s.observers[p].id == s.observers[o].id && p != o
        ensures s.observers[p].cancels != 0
      {
        assert RecordSound(s, p);
      }
    }
  }

  /** No other registered observer of o's id is open. */
  ghost predicate OnlyOpen<H>(s: State<H>, o: H)
    requires o in s.observers
  {
    forall p :: p in s.observers && s.observers[p].id == s.observers[o].id && p != o ==> s.observers[p].cancels != 0
  }

  /** In one step a Cancel channel is closed exactly when its observer leaves the table. */
  lemma CancelledByLeaving<H>(s: State<H>, e: Event<H>, o: H)
    requires Sound(s) && Fresh(s, e) && o in s.observers
    ensures o in Step(s, e).observers
    ensures Step(s, e).observers[o].cancels ==
            s.observers[o].cancels + if o in s.obs.Values && o !in Step(s, e).obs.Values then 1 else 0
  {
    StepSound(s, e);
    var t := Step(s, e);
    assert RecordSound(s, o) && RecordSound(t, o);
    InTable(s, o);
    InTable(t, o);
  }

  lemma InTable<H>(s: State<H>, o: H)
    requires Sound(s) && o in s.observers
    ensures o in s.obs.Values <==> Holds(s, s.observers[o].id, o)
  {
    if o in s.obs.Values {
      var id :| id in s.obs && s.obs[id] == o;
      assert s.observers[s.obs[id]].id == id;
    }
  }

  // ----- What each event brings about ----------------------------------------------------------------

  /** The entries of other ids, and the records of their observers, are as they were. */
  ghost predicate OthersStay<H>(s: State<H>, t: State<H>, id: string) {
    && (forall x :: x != id ==> (x in t.obs <==> x in s.obs) && (x in s.obs ==> t.obs[x] == s.obs[x]))
    && (forall o :: o in s.observers ==> o in t.observers && t.observers[o].id == s.observers[o].id)
    && (forall o :: o in s.observers ==> t.observers[o].drains == s.observers[o].drains)
    && (forall o :: o in s.observers && s.observers[o].id != id ==> t.observers[o] == s.observers[o])
  }

  ghost predicate Keeps<H>(s: State<H>, t: State<H>, id: string) {
    OthersStay(s, t, id) && t.observers.Keys == s.observers.Keys
  }

  /** A timeout, a request to deregister, or a reset that does not subscribe. */
  predicate GivesUp<H(==)>(e: Event<H>, id: string) {
    || e == PingTimeout(id)
    || (e.Request? && e.id == id && (e.observe == Some(1) || (e.reset && e.observe != Some(0))))
  }

  /** Afterwards the id is not in the table, and every observer ever registered for it has been cancelled once. */
  lemma GivenUp<H>(s: State<H>, e: Event<H>, id: string)
    requires Sound(s) && GivesUp(e, id)
    ensures var t := Step(s, e);
            && id !in t.obs && Keeps(s, t, id)
            && (forall o :: o in t.observers && t.observers[o].id == id ==> t.observers[o].cancels == 1)
  {
    StepSound(s, e);
    var t := Step(s, e);
    forall o | o in t.observers && t.observers[o].id == id ensures t.observers[o].cancels == 1 {
      assert RecordSound(t, o);
    }
  }

  /** An accepted subscription leaves its observer the only open one of the id, whatever was there. */
  lemma SubscribeReplaces<H>(s: State<H>, id: string, o: H, reset: bool)
    requires Sound(s) && o !in s.observers
    ensures var t := Step(s, Request(id, Some(0), reset, o, true));
            && Holds(t, id, o) && OthersStay(s, t, id) && t.observers.Keys == s.observers.Keys + {o}
            && t.observers[o] == Record(id, 0, 0)
            && (forall p :: p in t.observers && t.observers[p].id == id && p != o ==> t.observers[p].cancels == 1)
  {
    StepSound(s, Request(id, Some(0), reset, o, true));
    var t := Step(s, Request(id, Some(0), reset, o, true));
    forall p | p in t.observers && t.observers[p].id == id && p != o ensures t.observers[p].cancels == 1 {
      assert RecordSound(t, p);
    }
  }

  /** A subscription that the broker refuses changes nothing, unless the request was a reset, too: then the id
      is given up. */
  lemma SubscribeRefused<H>(s: State<H>, id: string, o: H, reset: bool)
    requires Sound(s)
    ensures var t := Step(s, Request(id, Some(0), reset, o, false));
            && (!reset ==> t == s)
            && (reset ==>
                  && id !in t.obs && Keeps(s, t, id)
                  && (forall p :: p in t.observers && t.observers[p].id == id ==> t.observers[p].cancels == 1))
  {
    GivenUp(s, PingTimeout(id), id);
  }

  /** Any other request changes nothing. */
  lemma RequestIgnored<H>(s: State<H>, id: string, observe: Option<nat>, o: H, brokerOk: bool)
    requires observe != Some(0) && observe != Some(1)
    ensures Step(s, Request(id, observe, false, o, brokerOk)) == s
  {
  }

  /** A cancelled observer is drained once; nothing else changes. */
  lemma CancelledDrains<H>(s: State<H>, o: H)
    requires Sound(s) && o in s.observers
    ensures var t := Step(s, Cancelled(o));
            && t.obs == s.obs && t.observers.Keys == s.observers.Keys
            && (forall p :: p in s.observers && p != o ==> t.observers[p] == s.observers[p])
            && t.observers[o] == s.observers[o].(drains := s.observers[o].cancels)
  {
    assert RecordSound(s, o);
  }

  // ----- Message ids ---------------------------------------------------------------------------------

  const ID_SPACE: nat := 0x1_0000

  /** The id that the n-th call of LoadMessageID gives, from a counter at start. */
  function MessageId(start: nat, n: nat): nat {
    (start + n) % ID_SPACE
  }

  /** One more call. */
  lemma MessageIdNext(start: nat, n: nat)
    ensures MessageId(MessageId(start, n), 1) == MessageId(start, n + 1)
  {
  }

  /** Two notifications of an observer carry the same id if and only if they are a multiple of 65536
      calls apart; so the last 65536 are all different. */
  lemma MessageIdRepeats(start: nat, i: nat, j: nat)
    requires i <= j
    ensures MessageId(start, i) == MessageId(start, j) <==> (j - i) % ID_SPACE == 0
  {
    var a, b := start + i, start + j;
    assert a == ID_SPACE * (a / ID_SPACE) + a % ID_SPACE;
    assert b == ID_SPACE * (b / ID_SPACE) + b % ID_SPACE;
    if a % ID_SPACE == b % ID_SPACE {
      assert b - a == ID_SPACE * (b / ID_SPACE - a / ID_SPACE);
    }
  }
}
