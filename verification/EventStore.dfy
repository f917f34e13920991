/** The event store: one event under two keys, by height and by contract, and the contract ids. */
module EventStores {
  import opened Prelude
  import opened Keys
  import opened SortedKeys

  datatype EventData = EventData(pluginName: Bytes, address: Bytes, blockHeight: uint64, body: Bytes)

  /** Go contracts go by their plugin name, EVM contracts by their address. */
  function ContractName(e: EventData): Bytes {
    if e.pluginName == [] then e.address else e.pluginName
  }

  /** Block height and index within the batch. */
  datatype Position = Position(height: nat, index: nat)

  const MAX_EVENTS: nat := 0x1_0000

  predicate InBounds(p: Position) { p.height <= MAX_UINT64 && p.index < MAX_EVENTS }

  predicate Before(p: Position, q: Position) {
    p.height < q.height || (p.height == q.height && p.index < q.index)
  }

  /** Values are contract ids or marshalled events. */
  datatype Value = Number(bytes: Bytes) | Data(event: EventData)

  type Db = map<Bytes, Value>

  /*** Keys ***/

  function Tail(p: Position): Bytes { BigEndian(p.height, 8) + [0] + BigEndian(p.index, 2) }

  function HeightKey(p: Position): Bytes { [1, 0] + Tail(p) }

  function ContractStart(id: nat, height: nat): Bytes {
    [3, 0] + (BigEndian(id, 8) + ([0] + BigEndian(height, 8)))
  }

  function ContractKey(id: nat, p: Position): Bytes { [3, 0] + (BigEndian(id, 8) + ([0] + Tail(p))) }

  function NameKey(name: Bytes): Bytes { [2, 0] + name }

  /** "contract-id" under its own prefix. */
  const LAST_ID_KEY: Bytes := [5, 0] + [99, 111, 110, 116, 114, 97, 99, 116, 45, 105, 100]

  lemma TailOrder(p: Position, q: Position)
    requires InBounds(p) && InBounds(q)
    ensures Before(p, q) ==> Less(Tail(p), Tail(q))
    ensures Tail(p) == Tail(q) <==> p == q
  {
    Pow256Values();
    HeightThenIndex(p, q);
    HeightThenIndex(q, p);
    LessIsStrict(Tail(p), Tail(q));
  }

  lemma HeightThenIndex(p: Position, q: Position)
    requires InBounds(p) && InBounds(q)
    ensures Before(p, q) ==> Less(Tail(p), Tail(q))
  {
    Pow256Values();
    var x, y := [0] + BigEndian(p.index, 2), [0] + BigEndian(q.index, 2);
    assert Tail(p) == BigEndian(p.height, 8) + x && Tail(q) == BigEndian(q.height, 8) + y;
    if p.height < q.height {
      BigEndianOrders(p.height, q.height, 8, x, y);
    } else if Before(p, q) {
      BigEndianOrders(p.index, q.index, 2, [], []);
      assert BigEndian(p.index, 2) + [] == BigEndian(p.index, 2) && BigEndian(q.index, 2) + [] == BigEndian(q.index, 2);
      LessBehindPrefix([0], BigEndian(p.index, 2), BigEndian(q.index, 2));
      LessBehindPrefix(BigEndian(p.height, 8), x, y);
    }
  }

  /** A position lies below a height exactly when its key does, with or without an index behind the height. */
  lemma TailBound(p: Position, height: nat)
    requires InBounds(p) && height <= MAX_UINT64
    ensures Less(Tail(p), BigEndian(height, 8)) <==> p.height < height
    ensures Less(Tail(p), Tail(Position(height, 0))) <==> p.height < height
  {
    Pow256Values();
    var x := [0] + BigEndian(p.index, 2);
    var b := BigEndian(height, 8);
    assert Tail(p) == BigEndian(p.height, 8) + x && b + [] == b;
    TailOrder(p, Position(height, 0));
    TailOrder(Position(height, 0), p);
    LessIsStrict(Tail(p), Tail(Position(height, 0)));
    if p.height < height {
      BigEndianOrders(p.height, height, 8, x, []);
    } else if p.height == height {
      ExtensionIsAbove(b, x);
      LessIsStrict(b, Tail(p));
    } else {
      BigEndianOrders(height, p.height, 8, [], x);
      LessIsStrict(b, Tail(p));
    }
  }

  lemma HeightKeyInRange(p: Position, from: nat, to: nat)
    requires InBounds(p) && from <= MAX_UINT64 && to < MAX_UINT64
    ensures InRange(HeightKey(p), HeightKey(Position(from, 0)), Some(HeightKey(Position(to + 1, 0))))
       <==> from <= p.height <= to
  {
    TailBound(p, from);
    TailBound(p, to + 1);
    LessBehindPrefix([1, 0], Tail(p), Tail(Position(from, 0)));
    LessBehindPrefix([1, 0], Tail(p), Tail(Position(to + 1, 0)));
  }

  lemma ContractKeyInRange(id': nat, p: Position, id: nat, from: nat, to: nat)
    requires id <= MAX_UINT64 && id' <= MAX_UINT64 && InBounds(p) && from <= MAX_UINT64 && to < MAX_UINT64
    ensures InRange(ContractKey(id', p), ContractStart(id, from), Some(ContractStart(id, to + 1)))
       <==> id' == id && from <= p.height <= to
  {
    ContractKeyAgainst(id', p, id, from);
    ContractKeyAgainst(id', p, id, to + 1);
  }

  lemma ContractKeyAgainst(id': nat, p: Position, id: nat, height: nat)
    requires id <= MAX_UINT64 && id' <= MAX_UINT64 && InBounds(p) && height <= MAX_UINT64
    ensures Less(ContractKey(id', p), ContractStart(id, height)) <==> id' < id || (id' == id && p.height < height)
  {
    Pow256Values();
    var x, y := [0] + Tail(p), [0] + BigEndian(height, 8);
    LessBehindPrefix([3, 0], BigEndian(id', 8) + x, BigEndian(id, 8) + y);
    if id' < id {
      BigEndianOrders(id', id, 8, x, y);
    } else if id < id' {
      BigEndianOrders(id, id', 8, y, x);
      LessIsStrict(BigEndian(id', 8) + x, BigEndian(id, 8) + y);
    } else {
      LessBehindPrefix(BigEndian(id, 8), x, y);
      LessBehindPrefix([0], Tail(p), BigEndian(height, 8));
      TailBound(p, height);
    }
  }

  lemma ContractKeysDiffer(id: nat, p: Position, id': nat, p': Position)
    requires id <= MAX_UINT64 && id' <= MAX_UINT64 && InBounds(p) && InBounds(p')
    ensures ContractKey(id, p) == ContractKey(id', p') <==> id == id' && p == p'
  {
    Pow256Values();
    BigEndianRoundTrip(id, 8);
    BigEndianRoundTrip(id', 8);
    TailOrder(p, p');
    if ContractKey(id, p) == ContractKey(id', p') {
      SamePieces([3, 0], BigEndian(id, 8) + ([0] + Tail(p)), [3, 0], BigEndian(id', 8) + ([0] + Tail(p')));
      SamePieces(BigEndian(id, 8), [0] + Tail(p), BigEndian(id', 8), [0] + Tail(p'));
      SamePieces([0], Tail(p), [0], Tail(p'));
    }
  }

  lemma SamePieces(a: Bytes, x: Bytes, b: Bytes, y: Bytes)
    requires |a| == |b| && a + x == b + y
    ensures a == b && x == y
  {
    assert (a + x)[..|a|] == a && (b + y)[..|a|] == b;
    assert (a + x)[|a|..] == x && (b + y)[|a|..] == y;
  }

  lemma ContractKeysOrder(id: nat, p: Position, q: Position)
    requires InBounds(p) && InBounds(q) && Before(p, q)
    ensures Less(ContractKey(id, p), ContractKey(id, q))
  {
    TailOrder(p, q);
    LessBehindPrefix([0], Tail(p), Tail(q));
    LessBehindPrefix(BigEndian(id, 8), [0] + Tail(p), [0] + Tail(q));
    LessBehindPrefix([3, 0], BigEndian(id, 8) + ([0] + Tail(p)), BigEndian(id, 8) + ([0] + Tail(q)));
  }

  lemma HeightKeysDiffer(p: Position, q: Position)
    requires InBounds(p) && InBounds(q)
    ensures HeightKey(p) == HeightKey(q) <==> p == q
    ensures Before(p, q) ==> Less(HeightKey(p), HeightKey(q))
  {
    TailOrder(p, q);
    LessBehindPrefix([1, 0], Tail(p), Tail(q));
    assert HeightKey(p)[2..] == Tail(p) && HeightKey(q)[2..] == Tail(q);
  }

  /** Keys whose first byte differs from that of both bounds are out of range. */
  lemma OtherFamily(k: Bytes, start: Bytes, end: Bytes, b: byte)
    requires k != [] && start != [] && end != [] && start[0] == end[0] == b
    ensures k[0] != b ==> !InRange(k, start, Some(end))
  {
  }

  /*** What the database holds ***/

  /** The events by position, the id of every contract seen, and the last id given out. */
  datatype Log = Log(events: map<Position, EventData>, ids: map<Bytes, nat>, last: nat)

  predicate IdsOk(l: Log) {
    && l.last <= MAX_UINT64
    && (forall n | n in l.ids :: 1 <= l.ids[n] <= l.last)
    && (forall m, n | m in l.ids && n in l.ids && m != n :: l.ids[m] != l.ids[n])
  }

  /** A name has an entry exactly when it has an id. */
  ghost predicate NameOk(db: Db, l: Log, n: Bytes) {
    if n in l.ids then NameKey(n) in db && db[NameKey(n)] == Number(BigEndian(l.ids[n], 8)) else NameKey(n) !in db
  }

  ghost predicate NamesOk(db: Db, l: Log) {
    && (forall n {:trigger NameOk(db, l, n)} :: NameOk(db, l, n))
    && (if l.last == 0 then LAST_ID_KEY !in db
        else LAST_ID_KEY in db && db[LAST_ID_KEY] == Number(BigEndian(l.last, 8)))
  }

  /** Both entries of an event. */
  ghost predicate Indexed(db: Db, l: Log, p: Position)
    requires p in l.events
  {
    var e := l.events[p];
    && InBounds(p) && ContractName(e) in l.ids
    && HeightKey(p) in db && db[HeightKey(p)] == Data(e)
    && ContractKey(l.ids[ContractName(e)], p) in db && db[ContractKey(l.ids[ContractName(e)], p)] == Data(e)
  }

  /** The key of an event under the name `n` in the contract index. */
  predicate EntryOf(l: Log, k: Bytes, n: Bytes, p: Position) {
    p in l.events && n in l.ids && k == ContractKey(l.ids[n], p)
  }

  /** A key of the height index belongs to an event; one of the contract index at least to the position of one. */
  ghost predicate Placed(db: Db, l: Log, k: Bytes)
    requires k in db
  {
    && k != []
    && (k[0] == 1 ==> exists p | p in l.events :: k == HeightKey(p))
    && (k[0] == 3 ==> db[k].Data? && exists n, p :: EntryOf(l, k, n, p))
  }

  /** A key of the contract index belongs to the event at its position. */
  ghost predicate Owned(l: Log, k: Bytes) {
    k != [] && k[0] == 3 ==> exists p | p in l.events :: EntryOf(l, k, ContractName(l.events[p]), p)
  }

  ghost predicate AllIndexed(db: Db, l: Log) {
    forall p {:trigger Indexed(db, l, p)} | p in l.events :: Indexed(db, l, p)
  }

  ghost predicate AllPlaced(db: Db, l: Log) {
    forall k {:trigger Placed(db, l, k)} | k in db :: Placed(db, l, k)
  }

  ghost predicate AllOwned(db: Db, l: Log) {
    forall k {:trigger Owned(l, k)} | k in db :: Owned(l, k)
  }

  /** Every event is in both indexes, and the height index holds nothing else. */
  ghost predicate Covers(db: Db, l: Log) {
    IdsOk(l) && NamesOk(db, l) && AllIndexed(db, l) && AllPlaced(db, l)
  }

  /** Neither index holds anything else. */
  ghost predicate Holds(db: Db, l: Log) {
    Covers(db, l) && AllOwned(db, l)
  }

  /** The contract index still lists, under the name `n`, an event that lost its position to another contract. */
  predicate Stranded(db: Db, l: Log, n: Bytes, p: Position) {
    p in l.events && n in l.ids && ContractKey(l.ids[n], p) in db && ContractName(l.events[p]) != n
  }

  /** The indexes agree exactly when no event is stranded. */
  lemma AgreeIffNoneStranded(db: Db, l: Log)
    requires Covers(db, l)
    ensures Holds(db, l) <==> forall n, p :: !Stranded(db, l, n, p)
  {
    if Holds(db, l) {
      forall n, p | Stranded(db, l, n, p)
        ensures false
      {
        OwnedIffNotStranded(db, l, n, p);
      }
    }
    if forall n, p :: !Stranded(db, l, n, p) {
      forall k | k in db
        ensures Owned(l, k)
      {
        assert Placed(db, l, k);
        if k[0] == 3 {
          var n, p :| EntryOf(l, k, n, p);
          OwnedIffNotStranded(db, l, n, p);
        }
      }
    }
  }

  lemma OwnedIffNotStranded(db: Db, l: Log, n: Bytes, p: Position)
    requires Covers(db, l) && p in l.events && n in l.ids && ContractKey(l.ids[n], p) in db
    ensures Owned(l, ContractKey(l.ids[n], p)) <==> !Stranded(db, l, n, p)
  {
    var k := ContractKey(l.ids[n], p);
    FamiliesDiffer(p, l.ids[n], p, []);
    assert EntryOf(l, k, n, p);
    if Owned(l, k) {
      var q :| q in l.events && EntryOf(l, k, ContractName(l.events[q]), q);
      EntryUnique(db, l, k, n, p, ContractName(l.events[q]), q);
    }
  }

  /** A key of the contract index stands for one name and one position. */
  lemma EntryUnique(db: Db, l: Log, k: Bytes, n: Bytes, p: Position, n': Bytes, p': Position)
    requires IdsOk(l) && AllIndexed(db, l) && EntryOf(l, k, n, p) && EntryOf(l, k, n', p')
    ensures n == n' && p == p'
  {
    assert Indexed(db, l, p) && Indexed(db, l, p');
    ContractKeysDiffer(l.ids[n], p, l.ids[n'], p');
  }

  /*** Writing ***/

  lemma FamiliesDiffer(p: Position, id: nat, q: Position, n: Bytes)
    ensures HeightKey(p)[0] == 1 && ContractKey(id, q)[0] == 3 && NameKey(n)[0] == 2 && LAST_ID_KEY[0] == 5
  {
  }

  function EventPut(db: Db, id: nat, p: Position, e: EventData): Db {
    db[HeightKey(p) := Data(e)][ContractKey(id, p) := Data(e)]
  }

  /** Nothing is at the position yet, or an event of the same contract. */
  predicate Vacant(before: map<Position, EventData>, p: Position, e: EventData) {
    p in before ==> ContractName(before[p]) == ContractName(e)
  }

  /** The log with an event at a position. */
  function WithEvent(l: Log, p: Position, e: EventData): Log { l.(events := l.events[p := e]) }

  /**
   * Writing an event under the id of its contract keeps every event in both indexes, and keeps the indexes in
   * agreement exactly when it does not take the position of another contract's event: that one would stay in the
   * contract index alone. Nothing written later brings them back into agreement.
   */
  lemma PutKeepsHolds(db: Db, l: Log, p: Position, e: EventData)
    requires Covers(db, l) && InBounds(p) && ContractName(e) in l.ids
    ensures var db' := EventPut(db, l.ids[ContractName(e)], p, e);
      && Covers(db', WithEvent(l, p, e))
      && (Holds(db', WithEvent(l, p, e)) <==> Holds(db, l) && Vacant(l.events, p, e))
  {
    PutKeepsCovers(db, l, p, e);
    if !Vacant(l.events, p, e) {
      StrandedEvent(db, l, p, e);
    } else {
      var db', l' := EventPut(db, l.ids[ContractName(e)], p, e), WithEvent(l, p, e);
      forall k | k in db
        ensures Owned(l, k) <==> Owned(l', k)
      {
        OwnedThroughPut(db, l, p, e, k);
      }
      forall k | k in db' && k !in db
        ensures Owned(l', k)
      {
        NewKeyOwned(l, p, e, k);
      }
    }
  }

  lemma NewKeyOwned(l: Log, p: Position, e: EventData, k: Bytes)
    requires ContractName(e) in l.ids && (k == HeightKey(p) || k == ContractKey(l.ids[ContractName(e)], p))
    ensures Owned(WithEvent(l, p, e), k)
  {
    FamiliesDiffer(p, 0, p, []);
    if k == ContractKey(l.ids[ContractName(e)], p) {
      assert EntryOf(WithEvent(l, p, e), k, ContractName(e), p);
    }
  }

  lemma OwnedThroughPut(db: Db, l: Log, p: Position, e: EventData, k: Bytes)
    requires Covers(db, l) && InBounds(p) && ContractName(e) in l.ids && Vacant(l.events, p, e) && k in db
    requires AllIndexed(EventPut(db, l.ids[ContractName(e)], p, e), WithEvent(l, p, e))
    ensures Owned(l, k) <==> Owned(WithEvent(l, p, e), k)
  {
    var l' := WithEvent(l, p, e);
    assert Placed(db, l, k);
    if k[0] == 3 {
      var n, q :| EntryOf(l, k, n, q);
      assert EntryOf(l', k, n, q);
      if Owned(l, k) {
        var x :| x in l.events && EntryOf(l, k, ContractName(l.events[x]), x);
        assert EntryOf(l', k, ContractName(l'.events[x]), x);
      }
      if Owned(l', k) {
        var x :| x in l'.events && EntryOf(l', k, ContractName(l'.events[x]), x);
        EntryUnique(EventPut(db, l.ids[ContractName(e)], p, e), l', k, n, q, ContractName(l'.events[x]), x);
        assert EntryOf(l, k, ContractName(l.events[q]), q);
      }
    }
  }

  lemma StrandedEvent(db: Db, l: Log, p: Position, e: EventData)
    requires Covers(db, l) && InBounds(p) && ContractName(e) in l.ids && !Vacant(l.events, p, e)
    ensures !Holds(EventPut(db, l.ids[ContractName(e)], p, e), WithEvent(l, p, e))
  {
    var db', l' := EventPut(db, l.ids[ContractName(e)], p, e), WithEvent(l, p, e);
    assert Indexed(db, l, p);
    var n := ContractName(l.events[p]);
    var k := ContractKey(l.ids[n], p);
    FamiliesDiffer(p, l.ids[n], p, []);
    if Holds(db', l') {
      assert k in db' && Owned(l', k);
      var q :| q in l'.events && EntryOf(l', k, ContractName(l'.events[q]), q);
      assert EntryOf(l', k, n, p);
      EntryUnique(db', l', k, n, p, ContractName(l'.events[q]), q);
    }
  }

  lemma PutKeepsCovers(db: Db, l: Log, p: Position, e: EventData)
    requires Covers(db, l) && InBounds(p) && ContractName(e) in l.ids
    ensures Covers(EventPut(db, l.ids[ContractName(e)], p, e), WithEvent(l, p, e))
  {
    var id := l.ids[ContractName(e)];
    var db', l' := EventPut(db, id, p, e), WithEvent(l, p, e);
    EventsKeepNames(db, l, p, e);
    forall q {:trigger Indexed(db', l', q)} | q in l'.events
      ensures Indexed(db', l', q)
    {
      if q != p { OthersStayIndexed(db, l, p, e, q); }
    }
    forall k {:trigger Placed(db', l', k)} | k in db'
      ensures Placed(db', l', k)
    {
      if k != HeightKey(p) && k != ContractKey(id, p) {
        assert Placed(db, l, k);
        PlacedGrows(db, l, db', l', k);
      } else {
        FamiliesDiffer(p, id, p, []);
        assert k[0] == 3 ==> EntryOf(l', k, ContractName(e), p);
      }
    }
  }

  lemma EventsKeepNames(db: Db, l: Log, p: Position, e: EventData)
    requires NamesOk(db, l) && ContractName(e) in l.ids
    ensures NamesOk(EventPut(db, l.ids[ContractName(e)], p, e), WithEvent(l, p, e))
  {
    var id := l.ids[ContractName(e)];
    var db', l' := EventPut(db, id, p, e), WithEvent(l, p, e);
    forall n
      ensures NameOk(db', l', n)
    {
      assert NameOk(db, l, n);
      NamesAreNoEvents(n, p, id);
    }
    NamesAreNoEvents([], p, id);
  }

  lemma OthersStayIndexed(db: Db, l: Log, p: Position, e: EventData, q: Position)
    requires Covers(db, l) && InBounds(p) && ContractName(e) in l.ids && q in l.events && q != p
    ensures Indexed(EventPut(db, l.ids[ContractName(e)], p, e), WithEvent(l, p, e), q)
  {
    assert Indexed(db, l, q);
    HeightKeysDiffer(p, q);
    ContractKeysDiffer(l.ids[ContractName(e)], p, l.ids[ContractName(l.events[q])], q);
  }

  lemma PlacedGrows(db: Db, l: Log, db': Db, l': Log, k: Bytes)
    requires k in db && k in db' && db[k] == db'[k] && Placed(db, l, k)
    requires forall p | p in l.events :: p in l'.events
    requires forall n | n in l.ids :: n in l'.ids && l'.ids[n] == l.ids[n]
    ensures Placed(db', l', k)
  {
    if k[0] == 3 {
      var n, p :| EntryOf(l, k, n, p);
      assert EntryOf(l', k, n, p);
    }
  }

  function NamedDb(db: Db, name: Bytes, id: nat): Db {
    db[LAST_ID_KEY := Number(BigEndian(id, 8))][NameKey(name) := Number(BigEndian(id, 8))]
  }

  /** The log with one more name, under the next id. */
  function WithName(l: Log, name: Bytes): Log { Log(l.events, l.ids[name := l.last + 1], l.last + 1) }

  /** A new name gets the next id, and changes nothing about the events. */
  lemma NameKeepsHolds(db: Db, l: Log, name: Bytes)
    requires Covers(db, l) && name !in l.ids && l.last < MAX_UINT64
    ensures var db' := NamedDb(db, name, l.last + 1);
      Covers(db', WithName(l, name)) && (Holds(db', WithName(l, name)) <==> Holds(db, l))
  {
    var db', l' := NamedDb(db, name, l.last + 1), WithName(l, name);
    NewNameKeepsNames(db, l, name);
    forall p {:trigger Indexed(db', l', p)} | p in l'.events
      ensures Indexed(db', l', p)
    {
      NewNameKeepsIndexed(db, l, name, p);
    }
    FamiliesDiffer(Position(0, 0), 0, Position(0, 0), name);
    forall k {:trigger Placed(db', l', k)} | k in db'
      ensures Placed(db', l', k)
    {
      if k != LAST_ID_KEY && k != NameKey(name) {
        assert Placed(db, l, k);
        PlacedGrows(db, l, db', l', k);
      }
    }
    forall k
      ensures Owned(l, k) <==> Owned(l', k)
    {
      OwnedThroughName(db, l, name, k);
    }
  }

  lemma OwnedThroughName(db: Db, l: Log, name: Bytes, k: Bytes)
    requires AllIndexed(db, l) && name !in l.ids
    ensures Owned(l, k) <==> Owned(WithName(l, name), k)
  {
    var l' := WithName(l, name);
    forall p | p in l.events
      ensures EntryOf(l, k, ContractName(l.events[p]), p) <==> EntryOf(l', k, ContractName(l'.events[p]), p)
    {
      assert Indexed(db, l, p);
    }
  }

  lemma NewNameKeepsIndexed(db: Db, l: Log, name: Bytes, p: Position)
    requires p in l.events && Indexed(db, l, p) && name !in l.ids
    ensures Indexed(NamedDb(db, name, l.last + 1), WithName(l, name), p)
  {
    NamesAreNoEvents(name, p, l.ids[ContractName(l.events[p])]);
  }

  lemma NamesAreNoEvents(name: Bytes, p: Position, id: nat)
    ensures HeightKey(p) != LAST_ID_KEY && HeightKey(p) != NameKey(name)
    ensures ContractKey(id, p) != LAST_ID_KEY && ContractKey(id, p) != NameKey(name)
  {
    FamiliesDiffer(p, id, p, name);
  }

  lemma NewNameKeepsNames(db: Db, l: Log, name: Bytes)
    requires NamesOk(db, l) && name !in l.ids
    ensures NamesOk(NamedDb(db, name, l.last + 1), WithName(l, name))
  {
    var db', l' := NamedDb(db, name, l.last + 1), WithName(l, name);
    NamesAreNoCounter(name);
    forall n
      ensures NameOk(db', l', n)
    {
      assert NameOk(db, l, n);
      NamesAreNoCounter(n);
      NameKeysDiffer(n, name);
    }
  }

  lemma NamesAreNoCounter(n: Bytes)
    ensures NameKey(n) != LAST_ID_KEY
  {
    assert NameKey(n)[0] != LAST_ID_KEY[0];
  }

  lemma NameKeysDiffer(m: Bytes, n: Bytes)
    ensures NameKey(m) == NameKey(n) <==> m == n
  {
    assert NameKey(m)[2..] == m && NameKey(n)[2..] == n;
  }

  /*** The store ***/

  function BytesToUint64(db: Db, key: Bytes): nat {
    if key in db && db[key].Number? then FromBigEndian(db[key].bytes) else 0
  }

  datatype Filter = Filter(fromBlock: uint64, toBlock: uint64, contract: Bytes)

  /** What a filter asks for. */
  ghost predicate Wanted(l: Log, f: Filter, p: Position) {
    && p in l.events && f.fromBlock <= p.height <= f.toBlock
    && var e := l.events[p];
    || f.contract == []
    || (if e.pluginName != [] then e.pluginName == f.contract else e.address == f.contract)
  }

  ghost predicate Ordered(positions: seq<Position>) {
    forall i, j | 0 <= i < j < |positions| :: Before(positions[i], positions[j])
  }

  /** The result lists the events at the given positions, in their order. */
  ghost predicate Lists(positions: seq<Position>, result: seq<EventData>, l: Log) {
    && |positions| == |result| && Ordered(positions)
    && (forall i | 0 <= i < |positions| :: positions[i] in l.events && result[i] == l.events[positions[i]])
  }

  ghost predicate AllWanted(positions: seq<Position>, l: Log, f: Filter) {
    forall p :: p in positions <==> Wanted(l, f, p)
  }

  /** The result lists exactly the events the filter asks for, in order of height and index. */
  ghost predicate Selects(result: seq<EventData>, l: Log, f: Filter) {
    exists positions :: Lists(positions, result, l) && AllWanted(positions, l, f)
  }

  lemma {:induction false} OrderedIsUnique(a: seq<Position>, b: seq<Position>)
    requires Ordered(a) && Ordered(b) && forall p :: p in a <==> p in b
    ensures a == b
  {
    assert forall i | 0 <= i < |a| :: a[i] in b;
    assert forall i | 0 <= i < |b| :: b[i] in a;
    if a != [] && b != [] {
      assert a[0] in b && b[0] in a;
      forall p
        ensures p in a[1..] <==> p in b[1..]
      {
        assert p in a <==> p == a[0] || p in a[1..];
        assert p in b <==> p == b[0] || p in b[1..];
      }
      OrderedIsUnique(a[1..], b[1..]);
    }
  }

  /** There is only one right answer to a filter. */
  lemma SelectionIsUnique(a: seq<EventData>, b: seq<EventData>, l: Log, f: Filter)
    requires Selects(a, l, f) && Selects(b, l, f)
    ensures a == b
  {
    var ps :| Lists(ps, a, l) && AllWanted(ps, l, f);
    var qs :| Lists(qs, b, l) && AllWanted(qs, l, f);
    OrderedIsUnique(ps, qs);
  }

  /** The empty answer is right exactly when there is nothing to find. */
  lemma EmptySelection(l: Log, f: Filter)
    ensures Selects([], l, f) <==> !exists p :: Wanted(l, f, p)
  {
    if Selects([], l, f) {
      var ps :| Lists(ps, [], l) && AllWanted(ps, l, f);
    }
    if !exists p :: Wanted(l, f, p) {
      assert Lists([], [], l) && AllWanted([], l, f);
    }
  }

  /** The events of one contract, in the order given. */
  function OfContract(events: seq<EventData>, c: Bytes): seq<EventData> {
    if events == [] then []
    else
      var last := events[|events| - 1];
      OfContract(events[..|events| - 1], c) + if ContractName(last) == c then [last] else []
  }

  lemma {:induction false} ContractPositions(ps: seq<Position>, events: seq<EventData>, l: Log, c: Bytes)
    returns (qs: seq<Position>)
    requires Lists(ps, events, l)
    ensures Lists(qs, OfContract(events, c), l)
    ensures forall p :: p in qs <==> p in ps && ContractName(l.events[p]) == c
  {
    if events == [] {
      qs := [];
    } else {
      var init, last := ps[..|ps| - 1], ps[|ps| - 1];
      qs := ContractPositions(init, events[..|events| - 1], l, c);
      assert forall p :: p in ps <==> p in init || p == last;
      if ContractName(l.events[last]) == c {
        qs := qs + [last];
      }
    }
  }

  lemma WantedByContract(l: Log, f: Filter, p: Position)
    requires f.contract != []
    ensures Wanted(l, f, p) <==> Wanted(l, f.(contract := []), p) && ContractName(l.events[p]) == f.contract
  {
  }

  /** The two indexes agree: asking for a contract gives its part of what asking for the heights gives. */
  lemma IndexesAgree(byHeight: seq<EventData>, byContract: seq<EventData>, l: Log, f: Filter)
    requires f.contract != [] && Selects(byHeight, l, f.(contract := [])) && Selects(byContract, l, f)
    ensures byContract == OfContract(byHeight, f.contract)
  {
    var ps :| Lists(ps, byHeight, l) && AllWanted(ps, l, f.(contract := []));
    var qs := ContractPositions(ps, byHeight, l, f.contract);
    forall p
      ensures p in qs <==> Wanted(l, f, p)
    {
      assert p in ps <==> Wanted(l, f.(contract := []), p);
      WantedByContract(l, f, p);
    }
    assert AllWanted(qs, l, f);
    SelectionIsUnique(byContract, OfContract(byHeight, f.contract), l, f);
  }

  /** The event of a batch that is filed at a position. */
  predicate InBatch(events: seq<EventData>, p: Position) {
    p.index < |events| && events[p.index].blockHeight == p.height
  }

  /** All events from before, and those of the batch, each at its height and its place in the batch. */
  ghost predicate Adds(before: map<Position, EventData>, events: seq<EventData>, after: map<Position, EventData>) {
    && (forall p :: p in after <==> p in before || InBatch(events, p))
    && (forall p | p in before :: after[p] == before[p])
    && (forall p | InBatch(events, p) :: after[p] == events[p.index])
    && |after| == |before| + |events|
  }

  /** The id read under a name is 0 exactly when the name is new; writing a known one back changes nothing. */
  lemma IdOfName(db: Db, l: Log, name: Bytes)
    requires IdsOk(l) && NamesOk(db, l)
    ensures BytesToUint64(db, NameKey(name)) == if name in l.ids then l.ids[name] else 0
    ensures name in l.ids ==> db[NameKey(name) := Number(BigEndian(l.ids[name], 8))] == db
  {
    Pow256Values();
    assert NameOk(db, l, name);
    if name in l.ids { BigEndianRoundTrip(l.ids[name], 8); }
  }

  /** Where an event of a batch goes: its index is cut to 16 bits. */
  function PositionOf(events: seq<EventData>, i: nat): (p: Position)
    requires i < |events|
    ensures InBounds(p)
  {
    Position(events[i].blockHeight, i % MAX_EVENTS)
  }

  /** The log with the first `k` events of a batch written to it. */
  function Extended(before: map<Position, EventData>, events: seq<EventData>, k: nat): map<Position, EventData>
    requires k <= |events|
  {
    if k == 0 then before else Extended(before, events, k - 1)[PositionOf(events, k - 1) := events[k - 1]]
  }

  /** Events that meet at one position, in the batch or from before, are of one contract. */
  predicate Compatible(before: map<Position, EventData>, events: seq<EventData>, k: nat)
    requires k <= |events|
  {
    && (forall i | 0 <= i < k :: Vacant(before, PositionOf(events, i), events[i]))
    && (forall i, j | 0 <= i < j < k && PositionOf(events, i) == PositionOf(events, j) ::
          ContractName(events[i]) == ContractName(events[j]))
  }

  /** No event of the batch shares its height with an earlier batch, and the batch fits the 16-bit index. */
  predicate OwnHeights(before: map<Position, EventData>, events: seq<EventData>) {
    && |events| <= MAX_EVENTS
    && forall i, p | 0 <= i < |events| && p in before :: p.height != events[i].blockHeight
  }

  lemma OwnHeightsFit(before: map<Position, EventData>, events: seq<EventData>)
    requires OwnHeights(before, events)
    ensures Compatible(before, events, |events|)
  {
  }

  /** The event at a position is one of those that meet there; if they are compatible, they are all of its contract. */
  lemma {:induction false} MeetingEvents(before: map<Position, EventData>, events: seq<EventData>, k: nat, p: Position)
    requires k <= |events| && Compatible(before, events, k)
    ensures var after := Extended(before, events, k);
      && (p in after <==> p in before || exists i | 0 <= i < k :: PositionOf(events, i) == p)
      && (p in before ==> ContractName(after[p]) == ContractName(before[p]))
      && (forall i | 0 <= i < k && PositionOf(events, i) == p :: ContractName(after[p]) == ContractName(events[i]))
  {
    if k > 0 { MeetingEvents(before, events, k - 1, p); }
  }

  /** Each write of a compatible batch finds its position vacant, and the first that does not ends it. */
  lemma CompatibleStep(before: map<Position, EventData>, events: seq<EventData>, k: nat)
    requires k < |events| && Compatible(before, events, k)
    ensures Compatible(before, events, k + 1) <==>
            Vacant(Extended(before, events, k), PositionOf(events, k), events[k])
  {
    MeetingEvents(before, events, k, PositionOf(events, k));
  }

  class KVEventStore {
    var db: Db
    ghost var log: Log

    /** Every saved event is in both indexes, and the height index holds nothing else. */
    ghost predicate Valid()
      reads this
    {
      Covers(db, log)
    }

    /** Neither index holds anything else. */
    ghost predicate Agrees()
      reads this
    {
      Holds(db, log)
    }

    constructor ()
      ensures Valid() && Agrees() && log == Log(map[], map[], 0)
    {
      db, log := map[], Log(map[], map[], 0);
    }

    /** Ids are stable: a known name keeps its id, a new one gets a fresh one. */
    method GetContractID(name: Bytes) returns (id: nat)
      requires Valid() && (name in log.ids || log.last < MAX_UINT64)
      modifies this
      ensures Valid() && (Agrees() <==> old(Agrees())) && name in log.ids && id == log.ids[name]
      ensures log == if name in old(log.ids) then old(log) else WithName(old(log), name)
      ensures db == if name in old(log.ids) then old(db) else NamedDb(old(db), name, id)
    {
      id := BytesToUint64(db, NameKey(name));
      IdOfName(db, log, name);
      if id == 0 {
        NameKeepsHolds(db, log, name);
        id := NextContractID();
        log := WithName(log, name);
      }
      db := db[NameKey(name) := Number(BigEndian(id, 8))];
    }

    method NextContractID() returns (id: nat)
      requires Valid()
      modifies this`db
      ensures id == (if log.last == MAX_UINT64 then 0 else log.last + 1)
      ensures db == old(db)[LAST_ID_KEY := Number(BigEndian(id, 8))]
    {
      Pow256Values();
      BigEndianRoundTrip(log.last, 8);
      id := BytesToUint64(db, LAST_ID_KEY);
      id := if id == MAX_UINT64 then 0 else id + 1;
      db := db[LAST_ID_KEY := Number(BigEndian(id, 8))];
    }

    /**
     * Save a batch: every event is filed under its height and index, and under its contract. Later events
     * replace earlier ones at their position; the indexes stay in agreement exactly if all that meet at a
     * position are of one contract. A batch with heights of its own that fits the 16-bit index replaces nothing.
     */
    method BatchSaveEvents(events: seq<EventData>)
      requires Valid() && log.last + |events| <= MAX_UINT64
      modifies this
      ensures Valid() && log.events == Extended(old(log.events), events, |events|)
      ensures Agrees() <==> old(Agrees()) && Compatible(old(log.events), events, |events|)
      ensures OwnHeights(old(log.events), events) ==>
                Adds(old(log.events), events, log.events) && (Agrees() <==> old(Agrees()))
      ensures forall n | n in old(log.ids) :: n in log.ids && log.ids[n] == old(log.ids)[n]
    {
      var ids := ResolveContracts(events);
      BatchPutWrites(db, log, events, ids, |events|);
      db := WriteEvents(db, events, ids);
      log := WithBatch(log, events, |events|);
      if OwnHeights(old(log.events), events) {
        OwnHeightsFit(old(log.events), events);
        ExtendedAdds(old(log.events), events);
      }
    }

    /** The ids of the contracts of a batch, given out as needed. */
    method ResolveContracts(events: seq<EventData>) returns (ids: seq<nat>)
      requires Valid() && log.last + |events| <= MAX_UINT64
      modifies this
      ensures Valid() && (Agrees() <==> old(Agrees())) && log.events == old(log.events)
      ensures forall n | n in old(log.ids) :: n in log.ids && log.ids[n] == old(log.ids)[n]
      ensures Resolved(events, ids, log.ids, |events|)
    {
      ids := [];
      for i := 0 to |events|
        invariant Valid() && (Agrees() <==> old(Agrees()))
        invariant log.events == old(log.events) && log.last <= old(log.last) + i
        invariant forall n | n in old(log.ids) :: n in log.ids && log.ids[n] == old(log.ids)[n]
        invariant Resolved(events, ids, log.ids, i)
      {
        var id := GetContractID(ContractName(events[i]));
        ids := ids + [id];
      }
    }

    /**
     * The events a filter asks for, in order of height and index; nothing if it asks for all heights up to the
     * last 64-bit number, past which the end of the range wraps around. By contract, nothing asked for is missing,
     * and the answer is right exactly if the contract has no stranded event between the heights.
     */
    method FilterEvents(f: Filter) returns (result: seq<EventData>)
      requires Valid() && (f.contract == [] || f.contract in log.ids || log.last < MAX_UINT64)
      modifies this
      ensures Valid() && (Agrees() <==> old(Agrees())) && log.events == old(log.events)
      ensures forall n | n in old(log.ids) :: n in log.ids && log.ids[n] == old(log.ids)[n]
      ensures f.toBlock < MAX_UINT64 ==> (Selects(result, log, f) <==> NoneStranded(old(db), old(log), f))
      ensures f.toBlock < MAX_UINT64 && Agrees() ==> Selects(result, log, f)
      ensures f.toBlock < MAX_UINT64 ==> forall p | Wanted(log, f, p) :: log.events[p] in result
      ensures f.toBlock == MAX_UINT64 ==> result == []
    {
      AgreeIffNoneStranded(db, log);
      var start, end;
      ghost var id := 0;
      var next := if f.toBlock == MAX_UINT64 then 0 else f.toBlock + 1;
      if f.contract != [] {
        NewNameNotStranded(db, log, f);
        var cid := GetContractID(f.contract);
        id := cid;
        start, end := ContractStart(cid, f.fromBlock), ContractStart(cid, next);
      } else {
        start, end := HeightKey(Position(f.fromBlock, 0)), HeightKey(Position(next, 0));
      }
      if f.toBlock == MAX_UINT64 {
        WrappedRange(f, id);
      }
      result := Scan(db, log, f, id, start, end);
    }
  }

  /** The first `k` events have their contract's id. */
  predicate Resolved(events: seq<EventData>, ids: seq<nat>, known: map<Bytes, nat>, k: nat)
    requires k <= |events|
  {
    |ids| == k && forall j | 0 <= j < k :: ContractName(events[j]) in known && known[ContractName(events[j])] == ids[j]
  }

  /** The database with the first `k` events of a batch written to it. */
  function BatchPut(db: Db, events: seq<EventData>, ids: seq<nat>, k: nat): Db
    requires k <= |events| == |ids|
  {
    if k == 0 then db
    else EventPut(BatchPut(db, events, ids, k - 1), ids[k - 1], PositionOf(events, k - 1), events[k - 1])
  }

  /** Write the batch, event by event. */
  method WriteEvents(db: Db, events: seq<EventData>, ids: seq<nat>) returns (r: Db)
    requires |events| == |ids|
    ensures r == BatchPut(db, events, ids, |events|)
  {
    r := db;
    for i := 0 to |events|
      invariant r == BatchPut(db, events, ids, i)
    {
      r := EventPut(r, ids[i], PositionOf(events, i), events[i]);
    }
  }

  lemma {:induction false} BatchPutWrites(db: Db, l: Log, events: seq<EventData>, ids: seq<nat>, k: nat)
    requires Covers(db, l) && k <= |events| && Resolved(events, ids, l.ids, |events|)
    ensures BatchWritten(db, BatchPut(db, events, ids, k), l, events, k)
  {
    if k == 0 {
      BatchStarts(db, l, events);
    } else {
      BatchPutWrites(db, l, events, ids, k - 1);
      PutInBatch(db, BatchPut(db, events, ids, k - 1), BatchPut(db, events, ids, k), l, events, k);
    }
  }

  function WithBatch(l: Log, events: seq<EventData>, k: nat): Log
    requires k <= |events|
  {
    l.(events := Extended(l.events, events, k))
  }

  /** `r` is what the first `k` events of a batch make of `db`. */
  ghost predicate BatchWritten(db: Db, r: Db, l: Log, events: seq<EventData>, k: nat)
    requires k <= |events|
  {
    && Covers(r, WithBatch(l, events, k))
    && (Holds(r, WithBatch(l, events, k)) <==> Holds(db, l) && Compatible(l.events, events, k))
  }

  lemma BatchStarts(db: Db, l: Log, events: seq<EventData>)
    requires Covers(db, l)
    ensures BatchWritten(db, db, l, events, 0)
  {
    assert WithBatch(l, events, 0) == l;
  }

  lemma PutInBatch(db: Db, r: Db, r': Db, l: Log, events: seq<EventData>, k: nat)
    requires 0 < k <= |events| && BatchWritten(db, r, l, events, k - 1) && ContractName(events[k - 1]) in l.ids
    requires r' == EventPut(r, l.ids[ContractName(events[k - 1])], PositionOf(events, k - 1), events[k - 1])
    ensures BatchWritten(db, r', l, events, k)
  {
    PutKeepsHolds(r, WithBatch(l, events, k - 1), PositionOf(events, k - 1), events[k - 1]);
    if Compatible(l.events, events, k - 1) {
      CompatibleStep(l.events, events, k - 1);
    } else {
      assert !Compatible(l.events, events, k);
    }
  }

  /** Read off the events between two keys. */
  method Scan(db: Db, ghost l: Log, f: Filter, ghost id: nat, start: Bytes, end: Bytes)
    returns (result: seq<EventData>)
    requires Covers(db, l) && FilterReady(l, f, id)
    requires f.toBlock < MAX_UINT64 ==> start == FilterStart(f, id) && end == FilterEnd(f, id)
    requires f.toBlock == MAX_UINT64 ==> !Less(start, end)
    ensures f.toBlock < MAX_UINT64 ==> (Selects(result, l, f) <==> NoneStranded(db, l, f))
    ensures f.toBlock < MAX_UINT64 ==> forall p | Wanted(l, f, p) :: l.events[p] in result
    ensures f.toBlock == MAX_UINT64 ==> result == []
  {
    var ks := Iterate(db.Keys, start, Some(end));
    if f.toBlock == MAX_UINT64 {
      NothingInside(ks, start, end);
    } else {
      forall k | k in ks
        ensures db[k].Data?
      {
        DataInRange(db, l, f, id, k);
      }
    }
    result := [];
    for i := 0 to |ks|
      invariant |result| == i && forall j | 0 <= j < i :: Data(result[j]) == db[ks[j]]
    {
      assert ks[i] in ks;
      result := result + [db[ks[i]].event];
    }
    if f.toBlock < MAX_UINT64 {
      ReadsWanted(db, l, f, id, ks, result);
      if RangeOwned(l, f, ks) { ReadsOnlyWanted(db, l, f, id, ks, result); }
      if Selects(result, l, f) { SelectedAreOwned(db, l, f, id, ks, result); }
      OwnedIffNoneStranded(db, l, f, id, ks);
    }
  }

  /** The keys in the range of a filter, and what is stored under them. */
  ghost predicate ReadOff(db: Db, f: Filter, id: nat, ks: seq<Bytes>, result: seq<EventData>)
    requires f.toBlock < MAX_UINT64
  {
    && Ascending(ks) && |result| == |ks|
    && (forall k :: k in ks <==> k in db && InRange(k, FilterStart(f, id), Some(FilterEnd(f, id))))
    && (forall j | 0 <= j < |ks| :: ks[j] in db && db[ks[j]] == Data(result[j]))
  }

  /** No event of the contract is stranded between the heights of the filter. */
  ghost predicate NoneStranded(db: Db, l: Log, f: Filter) {
    f.contract == [] || forall p: Position | f.fromBlock <= p.height <= f.toBlock :: !Stranded(db, l, f.contract, p)
  }

  ghost predicate RangeOwned(l: Log, f: Filter, ks: seq<Bytes>) {
    f.contract == [] || forall k | k in ks :: Owned(l, k)
  }

  lemma OwnedIffNoneStranded(db: Db, l: Log, f: Filter, id: nat, ks: seq<Bytes>)
    requires Covers(db, l) && FilterReady(l, f, id) && f.toBlock < MAX_UINT64
    requires forall k :: k in ks <==> k in db && InRange(k, FilterStart(f, id), Some(FilterEnd(f, id)))
    ensures RangeOwned(l, f, ks) <==> NoneStranded(db, l, f)
  {
    if f.contract != [] {
      forall p: Position | f.fromBlock <= p.height <= f.toBlock && Stranded(db, l, f.contract, p)
        ensures ContractKey(id, p) in ks && !Owned(l, ContractKey(id, p))
      {
        assert Indexed(db, l, p);
        ContractKeyInRange(id, p, id, f.fromBlock, f.toBlock);
        OwnedIffNotStranded(db, l, f.contract, p);
      }
      forall k | k in ks && !Owned(l, k)
        ensures !NoneStranded(db, l, f)
      {
        StrandedBehind(db, l, f, id, k);
      }
    }
  }

  /** Behind a key in range that nobody owns is a stranded event of the contract. */
  lemma StrandedBehind(db: Db, l: Log, f: Filter, id: nat, k: Bytes)
    requires Covers(db, l) && FilterReady(l, f, id) && f.contract != [] && f.toBlock < MAX_UINT64
    requires k in db && InRange(k, FilterStart(f, id), Some(FilterEnd(f, id))) && !Owned(l, k)
    ensures !NoneStranded(db, l, f)
  {
    assert Placed(db, l, k);
    var n, p :| EntryOf(l, k, n, p);
    assert Indexed(db, l, p);
    ContractKeyInRange(l.ids[n], p, id, f.fromBlock, f.toBlock);
    OwnedIffNotStranded(db, l, n, p);
    assert n == f.contract;
  }

  /** A name that is new has no events, stranded or not. */
  lemma NewNameNotStranded(db: Db, l: Log, f: Filter)
    requires Covers(db, l) && (f.contract in l.ids || l.last < MAX_UINT64)
    ensures f.contract !in l.ids ==>
              && NoneStranded(db, l, f)
              && NoneStranded(NamedDb(db, f.contract, l.last + 1), WithName(l, f.contract), f)
  {
    if f.contract !in l.ids {
      var db', l' := NamedDb(db, f.contract, l.last + 1), WithName(l, f.contract);
      forall p | Stranded(db', l', f.contract, p)
        ensures false
      {
        var k := ContractKey(l.last + 1, p);
        NamesAreNoEvents(f.contract, p, l.last + 1);
        FamiliesDiffer(p, l.last + 1, p, []);
        assert Indexed(db, l, p);
        assert Placed(db, l, k);
        var n, q :| EntryOf(l, k, n, q);
        assert Indexed(db, l, q);
        ContractKeysDiffer(l.ids[n], q, l.last + 1, p);
      }
    }
  }

  /** The keys of the positions of a right answer. */
  function KeysFor(f: Filter, id: nat, positions: seq<Position>): (ks: seq<Bytes>)
    ensures |ks| == |positions|
  {
    seq(|positions|, i requires 0 <= i < |positions| => KeyFor(f, id, positions[i]))
  }

  /** A right answer by contract is as long as the range, so the range holds nothing else: every key is owned. */
  lemma SelectedAreOwned(db: Db, l: Log, f: Filter, id: nat, ks: seq<Bytes>, result: seq<EventData>)
    requires Covers(db, l) && FilterReady(l, f, id) && f.toBlock < MAX_UINT64 && ReadOff(db, f, id, ks, result)
    requires Selects(result, l, f)
    ensures RangeOwned(l, f, ks)
  {
    if f.contract != [] {
      var ps :| Lists(ps, result, l) && AllWanted(ps, l, f);
      WantedKeys(db, l, f, id, ps);
      forall k | k in KeysFor(f, id, ps)
        ensures k in ks
      {
        var i :| 0 <= i < |ps| && KeyFor(f, id, ps[i]) == k;
        assert ps[i] in ps;
        Reached(db, l, f, id, ps[i]);
      }
      AscendingFits(KeysFor(f, id, ps), ks);
    }
  }

  lemma WantedKeys(db: Db, l: Log, f: Filter, id: nat, ps: seq<Position>)
    requires Covers(db, l) && FilterReady(l, f, id) && f.contract != [] && Ordered(ps) && AllWanted(ps, l, f)
    ensures Ascending(KeysFor(f, id, ps)) && forall k | k in KeysFor(f, id, ps) :: Owned(l, k)
  {
    forall i, j | 0 <= i < j < |ps|
      ensures Less(KeyFor(f, id, ps[i]), KeyFor(f, id, ps[j]))
    {
      assert ps[i] in ps && ps[j] in ps;
      assert Indexed(db, l, ps[i]) && Indexed(db, l, ps[j]);
      ContractKeysOrder(id, ps[i], ps[j]);
    }
    forall k | k in KeysFor(f, id, ps)
      ensures Owned(l, k)
    {
      var i :| 0 <= i < |ps| && KeyFor(f, id, ps[i]) == k;
      assert ps[i] in ps;
      assert EntryOf(l, k, ContractName(l.events[ps[i]]), ps[i]);
    }
  }

  lemma ReadsWanted(db: Db, l: Log, f: Filter, id: nat, ks: seq<Bytes>, result: seq<EventData>)
    requires Covers(db, l) && FilterReady(l, f, id) && f.toBlock < MAX_UINT64 && ReadOff(db, f, id, ks, result)
    ensures forall p | Wanted(l, f, p) :: l.events[p] in result
  {
    forall p | Wanted(l, f, p)
      ensures l.events[p] in result
    {
      Reached(db, l, f, id, p);
      var j :| 0 <= j < |ks| && ks[j] == KeyFor(f, id, p);
      assert result[j] == l.events[p];
    }
  }

  lemma ReadsOnlyWanted(db: Db, l: Log, f: Filter, id: nat, ks: seq<Bytes>, result: seq<EventData>)
    requires Covers(db, l) && FilterReady(l, f, id) && f.toBlock < MAX_UINT64 && ReadOff(db, f, id, ks, result)
    requires RangeOwned(l, f, ks)
    ensures Selects(result, l, f)
  {
    var positions := LocateAll(db, l, f, id, ks);
    InOrder(db, l, f, id, ks, positions);
    forall p | Wanted(l, f, p)
      ensures p in positions
    {
      Reached(db, l, f, id, p);
      var j :| 0 <= j < |ks| && ks[j] == KeyFor(f, id, p);
      SameKey(db, l, f, id, p, positions[j]);
    }
    assert forall j | 0 <= j < |ks| :: db[ks[j]] == Data(result[j]);
    assert Lists(positions, result, l) && AllWanted(positions, l, f);
  }

  lemma {:induction false} LocateAll(db: Db, l: Log, f: Filter, id: nat, ks: seq<Bytes>)
    returns (positions: seq<Position>)
    requires Covers(db, l) && FilterReady(l, f, id) && f.toBlock < MAX_UINT64 && RangeOwned(l, f, ks)
    requires forall k | k in ks :: k in db && InRange(k, FilterStart(f, id), Some(FilterEnd(f, id)))
    ensures |positions| == |ks|
    ensures forall j | 0 <= j < |ks| ::
              && Wanted(l, f, positions[j]) && ks[j] == KeyFor(f, id, positions[j])
              && ks[j] in db && db[ks[j]] == Data(l.events[positions[j]])
  {
    positions := [];
    if ks != [] {
      var init := LocateAll(db, l, f, id, ks[..|ks| - 1]);
      var last := Locate(db, l, f, id, ks[|ks| - 1]);
      positions := init + [last];
    }
  }

  /** What is in range is an event. */
  lemma DataInRange(db: Db, l: Log, f: Filter, id: nat, k: Bytes)
    requires Covers(db, l) && FilterReady(l, f, id) && f.toBlock < MAX_UINT64
    requires k in db && InRange(k, FilterStart(f, id), Some(FilterEnd(f, id)))
    ensures db[k].Data?
  {
    assert Placed(db, l, k);
    if f.contract != [] {
      OtherFamily(k, FilterStart(f, id), FilterEnd(f, id), 3);
    } else {
      var p := Locate(db, l, f, id, k);
    }
  }

  /** A range whose end does not lie above its start is empty. */
  lemma NothingInside(ks: seq<Bytes>, start: Bytes, end: Bytes)
    requires !Less(start, end) && forall k | k in ks :: InRange(k, start, Some(end))
    ensures ks == []
  {
    if ks != [] {
      var k := ks[0];
      assert k in ks;
      LessIsTotal(start, end);
      if start != end { LessIsTransitive(k, end, start); }
    }
  }

  /** The end of a range that wraps around does not lie above its start. */
  lemma WrappedRange(f: Filter, id: nat)
    ensures !Less(HeightKey(Position(f.fromBlock, 0)), HeightKey(Position(0, 0)))
    ensures !Less(ContractStart(id, f.fromBlock), ContractStart(id, 0))
  {
    Pow256Values();
    TailBound(Position(f.fromBlock, 0), 0);
    LessBehindPrefix([1, 0], Tail(Position(f.fromBlock, 0)), Tail(Position(0, 0)));
    var x, y := BigEndian(f.fromBlock, 8), BigEndian(0, 8);
    assert x + [] == x && y + [] == y;
    if f.fromBlock > 0 { BigEndianOrders(0, f.fromBlock, 8, [], []); }
    LessIsStrict(x, y);
    LessIsStrict(x, x);
    LessBehindPrefix([0], x, y);
    LessBehindPrefix(BigEndian(id, 8), [0] + x, [0] + y);
    LessBehindPrefix([3, 0], BigEndian(id, 8) + ([0] + x), BigEndian(id, 8) + ([0] + y));
  }

  /** Nothing is lost: a batch with heights of its own adds its events to those of before. */
  lemma {:induction false} ExtendedAt(before: map<Position, EventData>, events: seq<EventData>, k: nat, p: Position)
    requires k <= |events| && OwnHeights(before, events)
    ensures var after := Extended(before, events, k);
      && (p in after <==> p in before || (p.index < k && InBatch(events, p)))
      && (p in before ==> after[p] == before[p])
      && (p.index < k && InBatch(events, p) ==> after[p] == events[p.index])
  {
    if k > 0 { ExtendedAt(before, events, k - 1, p); }
  }

  lemma ExtendedIsNew(before: map<Position, EventData>, events: seq<EventData>, k: nat)
    requires k < |events| && OwnHeights(before, events)
    ensures PositionOf(events, k) !in Extended(before, events, k)
  {
    assert PositionOf(events, k) == Position(events[k].blockHeight, k);
    ExtendedAt(before, events, k, PositionOf(events, k));
  }

  lemma OneMore(m: map<Position, EventData>, p: Position, e: EventData)
    requires p !in m
    ensures |m[p := e]| == |m| + 1
  {
    assert m[p := e].Keys == m.Keys + {p};
  }

  lemma {:induction false} ExtendedSize(before: map<Position, EventData>, events: seq<EventData>, k: nat)
    requires k <= |events| && OwnHeights(before, events)
    ensures |Extended(before, events, k)| == |before| + k
  {
    if k > 0 {
      ExtendedSize(before, events, k - 1);
      ExtendedIsNew(before, events, k - 1);
      OneMore(Extended(before, events, k - 1), PositionOf(events, k - 1), events[k - 1]);
    }
  }

  lemma ExtendedAdds(before: map<Position, EventData>, events: seq<EventData>)
    requires OwnHeights(before, events)
    ensures Adds(before, events, Extended(before, events, |events|))
  {
    ExtendedSize(before, events, |events|);
    forall p
      ensures var after := Extended(before, events, |events|);
        && (p in after <==> p in before || InBatch(events, p))
        && (p in before ==> after[p] == before[p])
        && (InBatch(events, p) ==> after[p] == events[p.index])
    {
      ExtendedAt(before, events, |events|, p);
    }
  }

  /** The key a filter finds a position by. */
  function KeyFor(f: Filter, id: nat, p: Position): Bytes {
    if f.contract != [] then ContractKey(id, p) else HeightKey(p)
  }

  ghost predicate FilterReady(l: Log, f: Filter, id: nat) {
    && id <= MAX_UINT64
    && (f.contract != [] ==> f.contract in l.ids && l.ids[f.contract] == id)
  }

  function FilterStart(f: Filter, id: nat): Bytes {
    if f.contract != [] then ContractStart(id, f.fromBlock) else HeightKey(Position(f.fromBlock, 0))
  }

  function FilterEnd(f: Filter, id: nat): Bytes
    requires f.toBlock < MAX_UINT64
  {
    if f.contract != [] then ContractStart(id, f.toBlock + 1) else HeightKey(Position(f.toBlock + 1, 0))
  }

  /** A key in the range of a filter belongs to an event it asks for. */
  lemma Locate(db: Db, l: Log, f: Filter, id: nat, k: Bytes) returns (p: Position)
    requires Covers(db, l) && FilterReady(l, f, id) && f.toBlock < MAX_UINT64 && (f.contract == [] || Owned(l, k))
    requires k in db && InRange(k, FilterStart(f, id), Some(FilterEnd(f, id)))
    ensures Wanted(l, f, p) && k == KeyFor(f, id, p) && db[k] == Data(l.events[p])
  {
    if f.contract != [] {
      p := LocateByContract(db, l, f, id, k);
    } else {
      p := LocateByHeight(db, l, f, k);
    }
  }

  lemma LocateByContract(db: Db, l: Log, f: Filter, id: nat, k: Bytes) returns (p: Position)
    requires Covers(db, l) && f.toBlock < MAX_UINT64 && id <= MAX_UINT64 && k in db && Owned(l, k)
    requires f.contract in l.ids && l.ids[f.contract] == id
    requires InRange(k, ContractStart(id, f.fromBlock), Some(ContractStart(id, f.toBlock + 1)))
    ensures p in l.events && f.fromBlock <= p.height <= f.toBlock && ContractName(l.events[p]) == f.contract
    ensures k == ContractKey(id, p) && db[k] == Data(l.events[p])
  {
    assert Placed(db, l, k);
    OtherFamily(k, ContractStart(id, f.fromBlock), ContractStart(id, f.toBlock + 1), 3);
    p :| p in l.events && EntryOf(l, k, ContractName(l.events[p]), p);
    assert Indexed(db, l, p);
    ContractKeyInRange(l.ids[ContractName(l.events[p])], p, id, f.fromBlock, f.toBlock);
  }

  lemma LocateByHeight(db: Db, l: Log, f: Filter, k: Bytes) returns (p: Position)
    requires Covers(db, l) && f.toBlock < MAX_UINT64 && k in db
    requires InRange(k, HeightKey(Position(f.fromBlock, 0)), Some(HeightKey(Position(f.toBlock + 1, 0))))
    ensures p in l.events && f.fromBlock <= p.height <= f.toBlock
    ensures k == HeightKey(p) && db[k] == Data(l.events[p])
  {
    assert Placed(db, l, k);
    OtherFamily(k, HeightKey(Position(f.fromBlock, 0)), HeightKey(Position(f.toBlock + 1, 0)), 1);
    p :| p in l.events && k == HeightKey(p);
    assert Indexed(db, l, p);
    HeightKeyInRange(p, f.fromBlock, f.toBlock);
  }

  /** Every event a filter asks for is in its range. */
  lemma Reached(db: Db, l: Log, f: Filter, id: nat, p: Position)
    requires Covers(db, l) && FilterReady(l, f, id) && f.toBlock < MAX_UINT64 && Wanted(l, f, p)
    ensures KeyFor(f, id, p) in db && db[KeyFor(f, id, p)] == Data(l.events[p])
    ensures InRange(KeyFor(f, id, p), FilterStart(f, id), Some(FilterEnd(f, id)))
  {
    assert Indexed(db, l, p);
    if f.contract != [] {
      ContractKeyInRange(id, p, id, f.fromBlock, f.toBlock);
    } else {
      HeightKeyInRange(p, f.fromBlock, f.toBlock);
    }
  }

  lemma SameKey(db: Db, l: Log, f: Filter, id: nat, p: Position, q: Position)
    requires Covers(db, l) && id <= MAX_UINT64 && p in l.events && q in l.events && KeyFor(f, id, p) == KeyFor(f, id, q)
    ensures p == q
  {
    assert Indexed(db, l, p) && Indexed(db, l, q);
    ContractKeysDiffer(id, p, id, q);
    HeightKeysDiffer(p, q);
  }

  /** Ascending keys are ascending positions. */
  lemma InOrder(db: Db, l: Log, f: Filter, id: nat, ks: seq<Bytes>, positions: seq<Position>)
    requires Covers(db, l) && id <= MAX_UINT64 && Ascending(ks) && |positions| == |ks|
    requires forall i | 0 <= i < |ks| :: positions[i] in l.events && ks[i] == KeyFor(f, id, positions[i])
    ensures Ordered(positions)
  {
    forall i, j | 0 <= i < j < |positions|
      ensures Before(positions[i], positions[j])
    {
      var p, q := positions[i], positions[j];
      assert Indexed(db, l, p) && Indexed(db, l, q);
      LessIsStrict(ks[i], ks[j]);
      LessIsStrict(ks[i], ks[i]);
      if Before(q, p) {
        ContractKeysOrder(id, q, p);
        HeightKeysDiffer(q, p);
      }
    }
  }
}
