// coap/observer.go, coap/adapter.go and the ping loop of coap/api/transport.go as they stand: observers
// whose fields change, and a table that is reassigned. Every method is tied to CoapObservers.Step.
module CoapService {
  import opened Common
  import M = CoapObservers

  const MAX_RETRANSMIT: nat := 4

  class Observer {
    var expired: bool
    var msgID: nat

    // Whether the Cancel and Messages channels have been closed.
    var cancelled: bool
    var drained: bool

    constructor ()
      ensures !expired && msgID == 0 && !cancelled && !drained
    {
      expired, msgID, cancelled, drained := false, 0, false, false;
    }

    method StoreExpired(val: bool)
      modifies this`expired
      ensures expired == val
    {
      expired := val;
    }

    method LoadMessageID() returns (id: nat)
      modifies this`msgID
      ensures id == msgID == M.MessageId(old(msgID), 1)
    {
      msgID := (msgID + 1) % M.ID_SPACE;
      id := msgID;
    }

    /** close(o.Cancel), which panics when the channel is closed already. */
    method CloseCancel()
      requires !cancelled
      modifies this`cancelled
      ensures cancelled
    {
      cancelled := true;
    }

    /** The pings of one tick; acked[i] tells whether the client had acknowledged by the end of the
        i-th wait. */
    method Transmit(acked: seq<bool>)
      requires expired && |acked| == MAX_RETRANSMIT
      modifies this`expired, this`msgID
      ensures expired <==> true !in acked
      ensures msgID == M.MessageId(old(msgID), Pings(acked))
    {
      var i := 0;
      while i < MAX_RETRANSMIT
        invariant 0 <= i <= MAX_RETRANSMIT
        invariant expired && true !in acked[..i]
        invariant msgID == if i == 0 then old(msgID) else M.MessageId(old(msgID), i)
        invariant Pings(acked) == i + Pings(acked[i..])
      {
        assert acked[i..][0] == acked[i] && acked[i..][1..] == acked[i + 1..];
        assert acked[..i + 1] == acked[..i] + [acked[i]];
        M.MessageIdNext(old(msgID), i);
        var id := LoadMessageID();
        if acked[i] {
          StoreExpired(false);
        }
        if !expired {
          return;
        }
        i := i + 1;
      }
      assert acked[..MAX_RETRANSMIT] == acked;
    }

    /** The body of the cancel goroutine once Cancel is closed. */
    method Drain()
      requires cancelled && !drained
      modifies this`drained, this`expired
      ensures drained && expired
    {
      drained := true;
      StoreExpired(true);
    }
  }

  function Times(b: bool): nat {
    if b then 1 else 0
  }

  class AdapterService {
    var obs: map<string, Observer>

    // Every observer ever put into the table, with its id.
    ghost var registered: map<Observer, string>

    ghost function Abstract(): M.State<Observer>
      reads this, registered.Keys
    {
      M.State(obs, map o | o in registered :: M.Record(registered[o], Times(o.cancelled), Times(o.drained)))
    }

    ghost predicate Valid()
      reads this, registered.Keys
    {
      M.Sound(Abstract())
    }

    constructor ()
      ensures Valid() && Abstract() == M.Start() && fresh(registered.Keys)
    {
      obs, registered := map[], map[];
    }

    method Get(obsID: string) returns (o: Observer?)
      ensures if obsID in obs then o == obs[obsID] else o == null
    {
      o := if obsID in obs then obs[obsID] else null;
    }

    /** close(val.Cancel) for the observer found under an id. */
    method CloseFound(obsID: string)
      requires Valid() && obsID in obs
      modifies registered.Keys
      ensures Abstract() == old(Abstract()).(observers := M.Close(old(Abstract()).observers, obs[obsID]))
      ensures forall p :: p in registered ==> p.expired == old(p.expired) && p.msgID == old(p.msgID)
    {
      ghost var before := Abstract();
      M.HolderOpen(before, obsID);
      obs[obsID].CloseCancel();
      assert Abstract().observers == M.Close(before.observers, obs[obsID]);
    }

    /** svc.obs[obsID] = o, for an observer that was never in the table. */
    method Enter(obsID: string, o: Observer)
      requires o !in registered && !o.cancelled && !o.drained
      modifies this
      ensures registered == old(registered)[o := obsID]
      ensures Abstract() == M.State(old(Abstract()).obs[obsID := o],
                                    old(Abstract()).observers[o := M.Record(obsID, 0, 0)])
    {
      ghost var observers := Abstract().observers;
      obs := obs[obsID := o];
      registered := registered[o := obsID];
      assert Abstract().observers == observers[o := M.Record(obsID, 0, 0)];
    }

    method Put(obsID: string, o: Observer)
      requires Valid() && o !in registered && !o.cancelled && !o.drained
      modifies this, registered.Keys
      ensures Valid() && Abstract() == M.Put(old(Abstract()), obsID, o)
      ensures registered == old(registered)[o := obsID]
      ensures forall p :: p in old(registered) ==> p.expired == old(p.expired) && p.msgID == old(p.msgID)
    {
      M.PutSound(Abstract(), obsID, o);
      ghost var after := M.Put(Abstract(), obsID, o);
      if obsID in obs {
        CloseFound(obsID);
      }
      Enter(obsID, o);
      assert Abstract() == after;
      assert M.Sound(Abstract());
    }

    /** delete(svc.obs, obsID) */
    method Leave(obsID: string)
      modifies this`obs
      ensures Abstract() == old(Abstract()).(obs := old(Abstract()).obs - {obsID})
    {
      ghost var observers := Abstract().observers;
      obs := obs - {obsID};
      assert Abstract().observers == observers;
    }

    method Remove(obsID: string)
      requires Valid()
      modifies this`obs, registered.Keys
      ensures Valid() && Abstract() == M.Remove(old(Abstract()), obsID)
      ensures forall p :: p in registered ==> p.expired == old(p.expired) && p.msgID == old(p.msgID)
    {
      M.RemoveSound(Abstract(), obsID);
      ghost var after := M.Remove(Abstract(), obsID);
      if obsID in obs {
        CloseFound(obsID);
        Leave(obsID);
      }
      assert Abstract() == after;
      assert M.Sound(Abstract());
    }

    /** brokerOk: whether the broker took the subscription. */
    method Subscribe(obsID: string, o: Observer, brokerOk: bool) returns (ok: bool)
      requires Valid() && o !in registered && !o.cancelled && !o.drained
      modifies this, registered.Keys
      ensures Valid() && Abstract() == M.Subscribe(old(Abstract()), obsID, o, brokerOk)
      ensures ok == brokerOk
      ensures registered == if ok then old(registered)[o := obsID] else old(registered)
    {
      if !brokerOk {
        return false;
      }
      Put(obsID, o);
      ok := true;
    }

    method Unsubscribe(obsID: string)
      requires Valid()
      modifies this`obs, registered.Keys
      ensures Valid() && Abstract() == M.Remove(old(Abstract()), obsID)
      ensures forall p :: p in registered ==> p.expired == old(p.expired) && p.msgID == old(p.msgID)
    {
      Remove(obsID);
    }

    /** listenResponses, for one acknowledgement. */
    method Acknowledge(obsID: string)
      requires Valid()
      modifies registered.Keys
      ensures Valid() && Abstract() == old(Abstract())
      ensures forall p :: p in registered ==>
                p.expired == (old(p.expired) && !M.Holds(old(Abstract()), obsID, p)) && p.msgID == old(p.msgID)
    {
      ghost var before := Abstract();
      var val := Get(obsID);
      if val != null {
        assert before.obs[obsID] in before.observers;
        val.StoreExpired(false);
      }
      assert Abstract() == before;
    }

    /** The part of observe after authorization: reset and the Observe option decide. */
    method Observe(obsID: string, observe: Option<nat>, reset: bool, brokerOk: bool)
      returns (ok: bool, ghost o: Observer)
      requires Valid()
      modifies this, registered.Keys
      ensures Valid() && fresh(o)
      ensures Abstract() == M.Step(old(Abstract()), M.Request(obsID, observe, reset, o, brokerOk))
      ensures ok == (observe == Some(0) ==> brokerOk)
    {
      ok := true;
      var observer := new Observer();
      o := observer;
      if observe == Some(1) || reset {
        Unsubscribe(obsID);
      }
      if observe == Some(0) {
        ok := Subscribe(obsID, observer, brokerOk);
      }
    }

    /** The cancel goroutine of a registered observer. */
    method Cancel(o: Observer)
      requires Valid() && o in registered && o.cancelled && !o.drained
      modifies o
      ensures Valid() && Abstract() == M.Step(old(Abstract()), M.Cancelled(o)) && o.expired
    {
      ghost var before := Abstract();
      M.DrainSound(before, o);
      o.Drain();
      assert Abstract() == M.Drain(before, o);
    }

    /** One tick of the ping goroutine of o, with acked as in Transmit. It goes on only when
        some wait saw an acknowledgement; otherwise the id is given up, except when the observer had
        expired before the tick. */
    method Ping(obsID: string, o: Observer, acked: seq<bool>) returns (goOn: bool)
      requires Valid() && o in registered && |acked| == MAX_RETRANSMIT
      modifies this`obs, registered.Keys
      ensures Valid()
      ensures goOn <==> !old(o.expired) && true in acked
      ensures Abstract() == if !old(o.expired) && true !in acked
                            then M.Step(old(Abstract()), M.PingTimeout(obsID)) else old(Abstract())
      ensures o.expired <==> !goOn
      ensures o.msgID == if old(o.expired) then old(o.msgID) else M.MessageId(old(o.msgID), Pings(acked))
    {
      if o.expired {
        return false;
      }
      ghost var before := Abstract();
      o.StoreExpired(true);
      assert Abstract() == before;
      o.Transmit(acked);
      assert Abstract() == before;
      if o.expired {
        Unsubscribe(obsID);
        return false;
      }
      goOn := true;
    }
  }

  /** How many pings are sent. */
  function Pings(acked: seq<bool>): (n: nat) {
    if acked == [] then 0 else if acked[0] then 1 else 1 + Pings(acked[1..])
  }

  /** Pings go on up to and with the first that is acknowledged. */
  lemma {:induction false} PingsExact(acked: seq<bool>)
    ensures Pings(acked) <= |acked| && true !in acked[..if Pings(acked) > 0 then Pings(acked) - 1 else 0]
    ensures if true in acked then Pings(acked) > 0 && acked[Pings(acked) - 1] else Pings(acked) == |acked|
  {
    if acked != [] && !acked[0] {
      var rest := acked[1..];
      PingsExact(rest);
      assert acked == [acked[0]] + rest;
      if Pings(rest) > 0 {
        assert acked[..Pings(rest)] == [acked[0]] + rest[..Pings(rest) - 1];
      }
    }
  }
}
