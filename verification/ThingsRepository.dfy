// What the tables guarantee by themselves: all-or-nothing saves and connects, and the constraints that
// hold in every state.
module ThingsRepository {
  import opened Common
  import opened ThingsModel

  ghost predicate UniqueKeys(things: map<Ref, Key>) {
    forall t, u :: t in things && u in things && things[t] == things[u] ==> t == u
  }

  /** Ids come from the identity provider, so an id belongs to one owner. */
  ghost predicate OneOwner(refs: set<Ref>) {
    forall t, u :: t in refs && u in refs && t.id == u.id ==> t == u
  }

  /** Keys are unique, and a connection joins a stored channel and a stored thing of one owner. */
  ghost predicate Consistent(repo: Repo) {
    && UniqueKeys(repo.things) && OneOwner(repo.things.Keys) && OneOwner(repo.channels)
    && forall c :: c in repo.connections ==>
         c.channel in repo.channels && c.thing in repo.things && c.channel.owner == c.thing.owner
  }

  // ----- Saving things ------------------------------------------------------------------------------

  /** When rows can be saved: no id or key occurs twice or is stored already. */
  ghost predicate Insertable(things: map<Ref, Key>, rows: seq<ThingRow>) {
    && (forall i :: 0 <= i < |rows| ==> rows[i].ref !in things && rows[i].key !in things.Values)
    && (forall i, j :: 0 <= i < j < |rows| ==> rows[i].ref != rows[j].ref && rows[i].key != rows[j].key)
  }

  /** The rows as a table. */
  function Table(rows: seq<ThingRow>): map<Ref, Key> {
    if rows == [] then map[] else map[rows[0].ref := rows[0].key] + Table(rows[1..])
  }

  lemma AddValue(things: map<Ref, Key>, t: Ref, k: Key)
    requires t !in things
    ensures things[t := k].Values == things.Values + {k}
  {
    var more := things[t := k];
    assert more[t] == k;
    forall u | u in things ensures things[u] in more.Values {
      assert more[u] == things[u];
    }
  }

  lemma InsertableTail(things: map<Ref, Key>, rows: seq<ThingRow>)
    requires rows != [] && rows[0].ref !in things && rows[0].key !in things.Values
    ensures Insertable(things, rows) <==> Insertable(things[rows[0].ref := rows[0].key], rows[1..])
  {
    var more, tail := things[rows[0].ref := rows[0].key], rows[1..];
    AddValue(things, rows[0].ref, rows[0].key);
    if Insertable(more, tail) {
      forall i | 0 <= i < |rows|
        ensures rows[i].ref !in things && rows[i].key !in things.Values
        ensures i > 0 ==> rows[i].ref != rows[0].ref && rows[i].key != rows[0].key
      {
        if i > 0 {
          assert tail[i - 1] == rows[i];
        }
      }
      forall i, j | 0 <= i < j < |rows| ensures rows[i].ref != rows[j].ref && rows[i].key != rows[j].key {
        if i > 0 {
          assert tail[i - 1] == rows[i] && tail[j - 1] == rows[j];
        }
      }
    }
  }

  /** CreateThings is all or nothing: it succeeds exactly when every row is new, and then adds exactly
      the rows. */
  lemma {:induction false} InsertThingsExact(things: map<Ref, Key>, rows: seq<ThingRow>)
    ensures InsertThings(things, rows) == if Insertable(things, rows) then Some(things + Table(rows)) else None
    decreases |rows|
  {
    if rows == [] {
      assert things + Table(rows) == things;
    } else if rows[0].ref !in things && rows[0].key !in things.Values {
      var more := things[rows[0].ref := rows[0].key];
      InsertableTail(things, rows);
      InsertThingsExact(more, rows[1..]);
      assert things + Table(rows) == more + Table(rows[1..]);
    }
  }

  lemma {:induction false} TableRefs(rows: seq<ThingRow>, t: Ref)
    ensures t in Table(rows) <==> exists i :: 0 <= i < |rows| && rows[i].ref == t
    decreases |rows|
  {
    if rows != [] {
      TableRefs(rows[1..], t);
      forall i | 0 <= i < |rows| && rows[i].ref == t ensures t in Table(rows) {
        assert i > 0 ==> rows[1..][i - 1] == rows[i];
      }
    }
  }

  lemma {:induction false} TableAt(rows: seq<ThingRow>, i: nat)
    requires i < |rows| && forall j, k :: 0 <= j < k < |rows| ==> rows[j].ref != rows[k].ref
    ensures rows[i].ref in Table(rows) && Table(rows)[rows[i].ref] == rows[i].key
    decreases |rows|
  {
    TableRefs(rows, rows[i].ref);
    if i > 0 {
      TableAt(rows[1..], i - 1);
    } else {
      TableRefs(rows[1..], rows[0].ref);
    }
  }

  /** CreateThings adds exactly one thing of the caller for each id, with the given key or, where none is
      given, the new one; or it changes nothing. */
  lemma CreateThingsExact(st: State, owner: Owner, keys: seq<Key>, ids: seq<Id>, newKeys: seq<Key>)
    requires |keys| == |ids| == |newKeys|
    ensures var (st', r) := CreateThingsCall(st, owner, keys, ids, newKeys);
            && (r.Done? <==> Insertable(st.repo.things, NewRows(owner, keys, ids, newKeys)))
            && (!r.Done? ==> st' == st)
            && (r.Done? ==>
                  && (forall t :: t in st'.repo.things <==> t in st.repo.things || (t.owner == owner && t.id in ids))
                  && (forall t :: t in st.repo.things ==> st'.repo.things[t] == st.repo.things[t])
                  && (forall i :: 0 <= i < |ids| ==>
                        st'.repo.things[Ref(ids[i], owner)] == if keys[i] == "" then newKeys[i] else keys[i]))
  {
    var rows, things := NewRows(owner, keys, ids, newKeys), st.repo.things;
    InsertThingsExact(things, rows);
    if Insertable(things, rows) {
      forall t ensures t in Table(rows) <==> t.owner == owner && t.id in ids {
        TableRefs(rows, t);
        if t.owner == owner && t.id in ids {
          var i :| 0 <= i < |ids| && ids[i] == t.id;
          assert rows[i].ref == t;
        }
      }
      forall i | 0 <= i < |ids|
        ensures Table(rows)[Ref(ids[i], owner)] == if keys[i] == "" then newKeys[i] else keys[i]
      {
        TableAt(rows, i);
      }
      forall t | t in things ensures t !in Table(rows) {
        TableRefs(rows, t);
      }
    }
  }

  lemma {:induction false} InsertKeepsUnique(things: map<Ref, Key>, rows: seq<ThingRow>)
    requires UniqueKeys(things) && InsertThings(things, rows).Some?
    ensures UniqueKeys(InsertThings(things, rows).value)
    decreases |rows|
  {
    if rows != [] {
      var more := things[rows[0].ref := rows[0].key];
      forall t, u | t in more && u in more && more[t] == more[u] ensures t == u {
        assert t in things ==> things[t] in things.Values;
        assert u in things ==> things[u] in things.Values;
      }
      InsertKeepsUnique(more, rows[1..]);
    }
  }

  // ----- Connecting ---------------------------------------------------------------------------------

  ghost predicate Connectable(repo: Repo, conns: set<Conn>, rows: seq<Conn>) {
    && Distinct(rows)
    && forall c :: c in rows ==> c !in conns && c.channel in repo.channels && c.thing in repo.things
  }

  lemma {:induction false} InsertConnectionsExact(repo: Repo, conns: set<Conn>, rows: seq<Conn>)
    ensures var (err, r) := InsertConnections(repo, conns, rows);
            (err.None? <==> Connectable(repo, conns, rows)) && (err.None? ==> r == conns + SetOf(rows))
    decreases |rows|
  {
    if rows == [] {
      assert conns + SetOf(rows) == conns;
    } else {
      var c, tail := rows[0], rows[1..];
      InsertConnectionsExact(repo, conns + {c}, tail);
      assert rows == [c] + tail;
      assert SetOf(rows) == {c} + SetOf(tail);
      if c !in conns && c.channel in repo.channels && c.thing in repo.things {
        if Connectable(repo, conns + {c}, tail) {
          DistinctCons(c, tail);
        }
        if Connectable(repo, conns, rows) {
          forall d | d in tail ensures d != c {
            var i :| 0 <= i < |tail| && tail[i] == d;
            assert rows[i + 1] == d && rows[0] == c;
          }
          assert Distinct(tail) by {
            forall i, j | 0 <= i < j < |tail| ensures tail[i] != tail[j] {
              assert rows[i + 1] == tail[i] && rows[j + 1] == tail[j];
            }
          }
        }
      }
    }
  }

  lemma DistinctCons<T>(c: T, tail: seq<T>)
    requires Distinct(tail) && c !in tail
    ensures Distinct([c] + tail)
  {
    var s := [c] + tail;
    forall i, j | 0 <= i < j < |s| ensures s[i] != s[j] {
      assert s[j] == tail[j - 1];
      if i > 0 {
        assert s[i] == tail[i - 1];
      }
    }
  }

  lemma {:induction false} RowMembers(owner: Owner, chID: Id, thIDs: seq<Id>, c: Conn)
    ensures c in Row(owner, chID, thIDs)
       <==> c.channel == Ref(chID, owner) && c.thing.owner == owner && c.thing.id in thIDs
    decreases |thIDs|
  {
    if thIDs != [] {
      RowMembers(owner, chID, thIDs[1..], c);
      assert thIDs == [thIDs[0]] + thIDs[1..];
    }
  }

  /** The nested loops visit exactly the pairs of the two lists. */
  lemma {:induction false} ProductMembers(owner: Owner, chIDs: seq<Id>, thIDs: seq<Id>, c: Conn)
    ensures c in Product(owner, chIDs, thIDs)
       <==> c.channel.owner == owner && c.thing.owner == owner && c.channel.id in chIDs && c.thing.id in thIDs
    decreases |chIDs|
  {
    if chIDs != [] {
      RowMembers(owner, chIDs[0], thIDs, c);
      ProductMembers(owner, chIDs[1..], thIDs, c);
      assert chIDs == [chIDs[0]] + chIDs[1..];
    }
  }

  lemma {:induction false} RowDistinct(owner: Owner, chID: Id, thIDs: seq<Id>)
    ensures Distinct(Row(owner, chID, thIDs)) <==> Distinct(thIDs)
    decreases |thIDs|
  {
    if thIDs != [] {
      var tail := thIDs[1..];
      var c := Conn(Ref(chID, owner), Ref(thIDs[0], owner));
      RowDistinct(owner, chID, tail);
      RowMembers(owner, chID, tail, c);
      DistinctSplit([c], Row(owner, chID, tail));
      DistinctSplit([thIDs[0]], tail);
      assert thIDs == [thIDs[0]] + tail;
    }
  }

  /** A concatenation is duplicate-free exactly when its parts are and have nothing in common. */
  lemma DistinctSplit<T>(a: seq<T>, b: seq<T>)
    ensures Distinct(a + b) <==> Distinct(a) && Distinct(b) && forall x :: x in a ==> x !in b
  {
    var s := a + b;
    assert forall i :: 0 <= i < |a| ==> s[i] == a[i];
    assert forall i :: 0 <= i < |b| ==> s[|a| + i] == b[i];
    if Distinct(s) {
      forall i, j | 0 <= i < |a| && 0 <= j < |b| ensures a[i] != b[j] {
        assert s[i] != s[|a| + j];
      }
      forall i, j | 0 <= i < j < |b| ensures b[i] != b[j] {
        assert s[|a| + i] == b[i] && s[|a| + j] == b[j];
      }
    }
    if Distinct(a) && Distinct(b) && forall x :: x in a ==> x !in b {
      forall i, j | 0 <= i < j < |s| ensures s[i] != s[j] {
        if i >= |a| {
          assert b[i - |a|] != b[j - |a|];
        } else if j >= |a| {
          assert a[i] in a && b[j - |a|] in b;
        } else {
          assert a[i] != a[j];
        }
      }
    }
  }

  lemma {:induction false} ProductDistinct(owner: Owner, chIDs: seq<Id>, thIDs: seq<Id>)
    requires thIDs != []
    ensures Distinct(Product(owner, chIDs, thIDs)) <==> Distinct(chIDs) && (chIDs != [] ==> Distinct(thIDs))
    decreases |chIDs|
  {
    if chIDs != [] {
      var ch, tail := chIDs[0], chIDs[1..];
      var row, rest := Row(owner, ch, thIDs), Product(owner, tail, thIDs);
      ProductDistinct(owner, tail, thIDs);
      RowDistinct(owner, ch, thIDs);
      DistinctSplit(row, rest);
      DistinctSplit([ch], tail);
      assert chIDs == [ch] + tail;
      forall c ensures c in row ==> (c in rest <==> ch in tail) {
        RowMembers(owner, ch, thIDs, c);
        ProductMembers(owner, tail, thIDs, c);
      }
      var first := Conn(Ref(ch, owner), Ref(thIDs[0], owner));
      RowMembers(owner, ch, thIDs, first);
    }
  }

  function Pairs(owner: Owner, chIDs: seq<Id>, thIDs: seq<Id>): set<Conn> {
    set ch, th | ch in chIDs && th in thIDs :: Conn(Ref(ch, owner), Ref(th, owner))
  }

  lemma ProductIsPairs(owner: Owner, chIDs: seq<Id>, thIDs: seq<Id>)
    ensures SetOf(Product(owner, chIDs, thIDs)) == Pairs(owner, chIDs, thIDs)
  {
    forall c ensures c in Product(owner, chIDs, thIDs) <==> c in Pairs(owner, chIDs, thIDs) {
      ProductMembers(owner, chIDs, thIDs, c);
      if c in Product(owner, chIDs, thIDs) {
        assert c == Conn(Ref(c.channel.id, owner), Ref(c.thing.id, owner));
      }
    }
  }

  /** When a caller may connect two nonempty lists: no repetitions, every id stored for the caller, and
      no pair connected yet. */
  ghost predicate MayConnect(repo: Repo, owner: Owner, chIDs: seq<Id>, thIDs: seq<Id>) {
    && Distinct(chIDs) && Distinct(thIDs)
    && (forall ch :: ch in chIDs ==> Ref(ch, owner) in repo.channels)
    && (forall th :: th in thIDs ==> Ref(th, owner) in repo.things)
    && Pairs(owner, chIDs, thIDs) !! repo.connections
  }

  /** Connect is all or nothing over the product of the two id lists: it succeeds exactly when one of
      them is empty or the caller may connect them, and then adds exactly the pairs. Otherwise nothing
      changes. */
  lemma ConnectExact(repo: Repo, owner: Owner, chIDs: seq<Id>, thIDs: seq<Id>)
    ensures var (err, r) := ConnectRepo(repo, owner, chIDs, thIDs);
            && (err.None? <==> chIDs == [] || thIDs == [] || MayConnect(repo, owner, chIDs, thIDs))
            && r == if err.None? then repo.(connections := repo.connections + Pairs(owner, chIDs, thIDs)) else repo
  {
    var rows := Product(owner, chIDs, thIDs);
    InsertConnectionsExact(repo, repo.connections, rows);
    ProductIsPairs(owner, chIDs, thIDs);
    assert forall c :: c in rows <==> c in SetOf(rows);
    if chIDs == [] || thIDs == [] {
      assert Pairs(owner, chIDs, thIDs) == {};
      assert repo.connections + {} == repo.connections;
      FirstIn(rows);
    } else {
      ConnectableIsMayConnect(repo, owner, chIDs, thIDs);
      var may, could := MayConnect(repo, owner, chIDs, thIDs), Connectable(repo, repo.connections, rows);
      assert may == could;
      assert could == InsertConnections(repo, repo.connections, rows).0.None?;
    }
  }

  lemma ConnectableIsMayConnect(repo: Repo, owner: Owner, chIDs: seq<Id>, thIDs: seq<Id>)
    requires chIDs != [] && thIDs != []
    ensures Connectable(repo, repo.connections, Product(owner, chIDs, thIDs)) <==> MayConnect(repo, owner, chIDs, thIDs)
  {
    var rows, pairs := Product(owner, chIDs, thIDs), Pairs(owner, chIDs, thIDs);
    ProductDistinct(owner, chIDs, thIDs);
    ProductIsPairs(owner, chIDs, thIDs);
    assert forall c :: c in rows <==> c in SetOf(rows);
    assert chIDs[0] in chIDs && thIDs[0] in thIDs;
    if Connectable(repo, repo.connections, rows) {
      forall ch | ch in chIDs ensures Ref(ch, owner) in repo.channels {
        assert Conn(Ref(ch, owner), Ref(thIDs[0], owner)) in pairs;
      }
      forall th | th in thIDs ensures Ref(th, owner) in repo.things {
        assert Conn(Ref(chIDs[0], owner), Ref(th, owner)) in pairs;
      }
    }
  }
}
