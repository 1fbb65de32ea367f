/** The store of active morphs: an insertion-ordered dict and a Redis hash with an order list. */
module MorphStore {
  import opened Wrappers
  import opened MorphModel

  type Table = map<RequestId, Context>
  type Ids = set<RequestId>

  // ---- Sequences of keys ----

  // The keys of s that are in ks, in order
  function Keep(s: seq<RequestId>, ks: Ids): seq<RequestId> {
    if s == [] then []
    else
      var front := Keep(s[..|s| - 1], ks);
      if s[|s| - 1] in ks then front + [s[|s| - 1]] else front
  }

  // s without k: what lrem with count 0 leaves
  function Without(s: seq<RequestId>, k: RequestId): seq<RequestId> {
    if s == [] then []
    else
      var front := Without(s[..|s| - 1], k);
      if s[|s| - 1] != k then front + [s[|s| - 1]] else front
  }

  // The first occurrence of every key
  function Dedup(s: seq<RequestId>): seq<RequestId> {
    if s == [] then []
    else
      var front := Dedup(s[..|s| - 1]);
      if s[|s| - 1] in s[..|s| - 1] then front else front + [s[|s| - 1]]
  }

  ghost predicate Distinct(s: seq<RequestId>) {
    s == [] || (s[|s| - 1] !in s[..|s| - 1] && Distinct(s[..|s| - 1]))
  }

  function KeySet(s: seq<RequestId>): Ids { set k | k in s }

  // ---- Eviction, on the keys alone ----

  function EvictKey(live: Ids, term: Ids, k: RequestId, max: int): Ids {
    if |live| > max && k in live && k in term then live - {k} else live
  }

  // The keys still live after the eviction loop has gone through todo; term are the terminal ones.
  function Sweep(todo: seq<RequestId>, live: Ids, term: Ids, max: int): Ids {
    if todo == [] then live else EvictKey(Sweep(todo[..|todo| - 1], live, term, max), term, todo[|todo| - 1], max)
  }

  function Finished(h: Table): Ids { set k | k in h && Terminal(h[k].state) }

  function Restrict(h: Table, ks: Ids): Table { map k | k in h && k in ks :: h[k] }

  function Survivors(todo: seq<RequestId>, h: Table, max: int): Ids { Sweep(todo, h.Keys, Finished(h), max) }

  // ---- The insertion-ordered dict ----

  datatype Dict = Dict(keys: seq<RequestId>, vals: Table)

  ghost predicate ValidDict(d: Dict) { Distinct(d.keys) && KeySet(d.keys) == d.vals.Keys }

  function Put(d: Dict, c: Context): Dict {
    Dict(if c.requestId in d.vals then d.keys else d.keys + [c.requestId], d.vals[c.requestId := c])
  }

  function DictEvict(d: Dict, max: int): Dict {
    var live := Survivors(d.keys, d.vals, max);
    Dict(Keep(d.keys, live), Restrict(d.vals, live))
  }

  // ---- The eviction loop, step by step ----

  // After i keys of todo, the loop has left the table h.
  ghost predicate SweptTable(todo: seq<RequestId>, i: nat, start: Table, max: int, h: Table)
    requires i <= |todo|
  {
    h.Keys == Survivors(todo[..i], start, max) && h == Restrict(start, h.Keys)
  }

  // The same, with the key list it has left
  ghost predicate Swept(todo: seq<RequestId>, i: nat, start: Table, max: int, h: Table, keys: seq<RequestId>)
    requires i <= |todo|
  {
    SweptTable(todo, i, start, max, h) && keys == Keep(todo, h.Keys)
  }

  lemma {:induction false} KeepAll(s: seq<RequestId>, ks: Ids)
    requires KeySet(s) <= ks
    ensures Keep(s, ks) == s
  {
    if s == [] {
    } else {
      assert s == s[..|s| - 1] + [s[|s| - 1]];
      forall k | k in s ensures k in ks { assert k in KeySet(s); }
      KeepAll(s[..|s| - 1], ks);
    }
  }

  lemma SweptFirst(todo: seq<RequestId>, start: Table, max: int)
    requires KeySet(todo) <= start.Keys
    ensures Swept(todo, 0, start, max, start, todo)
  {
    KeepAll(todo, start.Keys);
    assert todo[..0] == [];
  }

  lemma SweptLast(todo: seq<RequestId>, start: Table, max: int, h: Table, keys: seq<RequestId>)
    requires Swept(todo, |todo|, start, max, h, keys)
    ensures var live := Survivors(todo, start, max); h == Restrict(start, live) && keys == Keep(todo, live)
  {
    assert todo[..|todo|] == todo;
  }

  lemma WithoutSnoc(s: seq<RequestId>, x: RequestId, k: RequestId)
    ensures Without(s + [x], k) == if x != k then Without(s, k) + [x] else Without(s, k)
  {
    assert (s + [x])[..|s|] == s;
  }

  lemma {:induction false} WithoutKept(s: seq<RequestId>, ks: Ids, k: RequestId)
    ensures Without(Keep(s, ks), k) == Keep(s, ks - {k})
  {
    if s == [] {
    } else {
      var front, last := s[..|s| - 1], s[|s| - 1];
      WithoutKept(front, ks, k);
      WithoutSnoc(Keep(front, ks), last, k);
    }
  }

  lemma SweepSnoc(s: seq<RequestId>, x: RequestId, live: Ids, term: Ids, max: int)
    ensures Sweep(s + [x], live, term, max) == EvictKey(Sweep(s, live, term, max), term, x, max)
  {
    assert (s + [x])[..|s|] == s;
  }

  lemma TableNext(todo: seq<RequestId>, i: nat, start: Table, max: int, h: Table)
    requires i < |todo| && SweptTable(todo, i, start, max, h) && |h| > max
    ensures var k := todo[i]; SweptTable(todo, i + 1, start, max, if k in h && Terminal(h[k].state) then h - {k} else h)
  {
    var k := todo[i];
    assert todo[..i + 1] == todo[..i] + [k];
    SweepSnoc(todo[..i], k, start.Keys, Finished(start), max);
    assert (h - {k}).Keys == h.Keys - {k};
    assert k in h ==> h[k] == start[k];
    assert h - {k} == Restrict(start, h.Keys - {k});
  }

  lemma SweptNext(todo: seq<RequestId>, i: nat, start: Table, max: int, h: Table, keys: seq<RequestId>)
    requires i < |todo| && Swept(todo, i, start, max, h, keys) && |h| > max
    ensures todo[i] in h && Terminal(h[todo[i]].state) ==>
              Swept(todo, i + 1, start, max, h - {todo[i]}, Without(keys, todo[i]))
    ensures !(todo[i] in h && Terminal(h[todo[i]].state)) ==> Swept(todo, i + 1, start, max, h, keys)
  {
    TableNext(todo, i, start, max, h);
    WithoutKept(todo, h.Keys, todo[i]);
    assert (h - {todo[i]}).Keys == h.Keys - {todo[i]};
  }

  // Once the table is small enough the rest of the loop does nothing.
  lemma SweepStops(todo: seq<RequestId>, i: nat, start: Table, max: int, h: Table, keys: seq<RequestId>)
    requires i <= |todo| && Swept(todo, i, start, max, h, keys) && |h| <= max
    ensures Swept(todo, |todo|, start, max, h, keys)
    ensures todo[..|todo|] == todo
    decreases |todo| - i
  {
    if i < |todo| {
      assert todo[..i + 1] == todo[..i] + [todo[i]];
      SweepSnoc(todo[..i], todo[i], start.Keys, Finished(start), max);
      SweepStops(todo, i + 1, start, max, h, keys);
    }
  }

  // ---- The calls of a client ----

  datatype Op = Add(c: Context) | Save(c: Context) | Get(id: RequestId) | Contains(id: RequestId)
              | All | Count | Clear | Evict(max: int)

  datatype Obs = Nothing | Found(c: Option<Context>) | Yes(b: bool) | Number(n: nat) | Contexts(s: set<Context>)

  function DictStep(d: Dict, op: Op): (Dict, Obs) {
    match op
    case Add(c) => (Put(d, c), Nothing)
    case Save(c) => (Put(d, c), Nothing)
    case Get(id) => (d, Found(if id in d.vals then Some(d.vals[id]) else None))
    case Contains(id) => (d, Yes(id in d.vals))
    case All => (d, Contexts(d.vals.Values))
    case Count => (d, Number(|d.vals|))
    case Clear => (Dict([], map[]), Number(|d.vals|))
    case Evict(max) => (DictEvict(d, max), Nothing)
  }

  class InMemoryMorphStore {
    var items: Dict

    constructor ()
      ensures items == Dict([], map[])
    {
      items := Dict([], map[]);
    }

    method Add(c: Context)
      modifies this
      ensures items == DictStep(old(items), Op.Add(c)).0
    {
      items := Put(items, c);
    }

    method Save(c: Context)
      modifies this
      ensures items == DictStep(old(items), Op.Save(c)).0
    {
      items := Put(items, c);
    }

    method Get(id: RequestId) returns (c: Option<Context>)
      ensures Found(c) == DictStep(items, Op.Get(id)).1
    {
      c := if id in items.vals then Some(items.vals[id]) else None;
    }

    method Contains(id: RequestId) returns (b: bool)
      ensures Yes(b) == DictStep(items, Op.Contains(id)).1
    {
      b := id in items.vals;
    }

    method All() returns (s: set<Context>)
      ensures Contexts(s) == DictStep(items, Op.All).1
    {
      s := items.vals.Values;
    }

    method Count() returns (n: nat)
      ensures Number(n) == DictStep(items, Op.Count).1
    {
      n := |items.vals|;
    }

    method Clear() returns (n: nat)
      modifies this
      ensures (items, Number(n)) == DictStep(old(items), Op.Clear)
    {
      n := |items.vals|;
      items := Dict([], map[]);
    }

    method Pop(k: RequestId)
      modifies this
      ensures items.keys == Without(old(items).keys, k) && items.vals == old(items).vals - {k}
    {
      items := Dict(Without(items.keys, k), items.vals - {k});
    }

    // One turn of the eviction loop
    method PopIfTerminal(k: RequestId)
      modifies this
      ensures items == if k in old(items).vals && Terminal(old(items).vals[k].state)
                       then Dict(Without(old(items).keys, k), old(items).vals - {k}) else old(items)
    {
      if k in items.vals && Terminal(items.vals[k].state) { Pop(k); }
    }

    method EvictTerminal(max: int)
      requires KeySet(items.keys) == items.vals.Keys
      modifies this
      ensures items == DictStep(old(items), Op.Evict(max)).0
    {
      var todo, start := items.keys, items.vals;
      SweptFirst(todo, start, max);
      var i := 0;
      while i < |todo|
        invariant 0 <= i <= |todo|
        invariant Swept(todo, i, start, max, items.vals, items.keys)
      {
        if |items.vals| <= max {
          SweepStops(todo, i, start, max, items.vals, items.keys);
          return;
        }
        SweptNext(todo, i, start, max, items.vals, items.keys);
        PopIfTerminal(todo[i]);
        i := i + 1;
      }
      SweptLast(todo, start, max, items.vals, items.keys);
    }
  }

  // ---- The Redis hash and order list ----

  datatype Redis = Redis(hash: Table, order: seq<RequestId>)

  // Every entry of the order list is in the hash; not every field of the hash need be in the list.
  ghost predicate ValidRedis(r: Redis) { KeySet(r.order) <= r.hash.Keys }

  // The keys that the eviction loop takes off the order list: those it evicts, and the stale ones it meets
  function Dropped(todo: seq<RequestId>, live: Ids, term: Ids, max: int): Ids {
    if todo == [] then {}
    else
      var front, k := todo[..|todo| - 1], todo[|todo| - 1];
      var before, gone := Sweep(front, live, term, max), Dropped(front, live, term, max);
      if |before| > max && (k !in before || k in term) then gone + {k} else gone
  }

  // A stale key leaves the order list, and a terminal one the hash too.
  function Visited(r: Redis, k: RequestId): Redis {
    if k !in r.hash then r.(order := Without(r.order, k))
    else if Terminal(r.hash[k].state) then Redis(r.hash - {k}, Without(r.order, k))
    else r
  }

  function RedisEvict(r: Redis, max: int): Redis {
    var gone := Dropped(r.order, r.hash.Keys, Finished(r.hash), max);
    Redis(Restrict(r.hash, Survivors(r.order, r.hash, max)), Keep(r.order, KeySet(r.order) - gone))
  }

  // ---- The eviction loop on the order list ----

  ghost predicate SweptOrder(todo: seq<RequestId>, i: nat, start: Table, max: int, order: seq<RequestId>)
    requires i <= |todo|
  {
    order == Keep(todo, KeySet(todo) - Dropped(todo[..i], start.Keys, Finished(start), max))
  }

  // The same for Redis, whose order list may hold stale keys
  ghost predicate OrderSwept(todo: seq<RequestId>, i: nat, start: Table, max: int, r: Redis)
    requires i <= |todo|
  {
    SweptTable(todo, i, start, max, r.hash) && SweptOrder(todo, i, start, max, r.order)
  }

  lemma OrderFirst(todo: seq<RequestId>, start: Table, max: int)
    ensures OrderSwept(todo, 0, start, max, Redis(start, todo))
  {
    KeepAll(todo, KeySet(todo));
    assert todo[..0] == [] && KeySet(todo) - {} == KeySet(todo);
  }

  function RedisStep(r: Redis, op: Op): (Redis, Obs) {
    match op
    case Add(c) => (Redis(r.hash[c.requestId := c], r.order + [c.requestId]), Nothing)
    case Save(c) => (Redis(r.hash[c.requestId := c], r.order), Nothing)
    case Get(id) => (r, Found(if id in r.hash then Some(r.hash[id]) else None))
    case Contains(id) => (r, Yes(id in r.hash))
    case All => (r, Contexts(r.hash.Values))
    case Count => (r, Number(|r.hash|))
    case Clear => (Redis(map[], []), Number(|r.hash|))
    case Evict(max) => (RedisEvict(r, max), Nothing)
  }

  lemma OrderLast(todo: seq<RequestId>, start: Table, max: int, r: Redis)
    requires OrderSwept(todo, |todo|, start, max, r)
    ensures r == RedisStep(Redis(start, todo), Op.Evict(max)).0
  {
    assert todo[..|todo|] == todo;
  }

  lemma DroppedSnoc(s: seq<RequestId>, x: RequestId, live: Ids, term: Ids, max: int)
    ensures var before, gone := Sweep(s, live, term, max), Dropped(s, live, term, max);
            Dropped(s + [x], live, term, max) ==
            if |before| > max && (x !in before || x in term) then gone + {x} else gone
  {
    assert (s + [x])[..|s|] == s;
  }

  lemma ListNext(todo: seq<RequestId>, i: nat, start: Table, max: int, live: Ids, order: seq<RequestId>)
    requires i < |todo| && SweptOrder(todo, i, start, max, order) && |live| > max
             && live == Survivors(todo[..i], start, max)
    ensures var k := todo[i];
            SweptOrder(todo, i + 1, start, max, if k !in live || k in Finished(start) then Without(order, k) else order)
  {
    var k, gone := todo[i], Dropped(todo[..i], start.Keys, Finished(start), max);
    assert todo[..i + 1] == todo[..i] + [k];
    DroppedSnoc(todo[..i], k, start.Keys, Finished(start), max);
    WithoutKept(todo, KeySet(todo) - gone, k);
    assert KeySet(todo) - gone - {k} == KeySet(todo) - (gone + {k});
  }

  lemma OrderNext(todo: seq<RequestId>, i: nat, start: Table, max: int, r: Redis)
    requires i < |todo| && OrderSwept(todo, i, start, max, r) && |r.hash| > max
    ensures OrderSwept(todo, i + 1, start, max, Visited(r, todo[i]))
  {
    var k := todo[i];
    TableNext(todo, i, start, max, r.hash);
    assert k in r.hash ==> (k in Finished(start) <==> Terminal(r.hash[k].state));
    ListNext(todo, i, start, max, r.hash.Keys, r.order);
  }

  lemma OrderStops(todo: seq<RequestId>, i: nat, start: Table, max: int, r: Redis)
    requires i <= |todo| && OrderSwept(todo, i, start, max, r) && |r.hash| <= max
    ensures r == RedisStep(Redis(start, todo), Op.Evict(max)).0
    decreases |todo| - i
  {
    if i < |todo| {
      assert todo[..i + 1] == todo[..i] + [todo[i]];
      SweepSnoc(todo[..i], todo[i], start.Keys, Finished(start), max);
      DroppedSnoc(todo[..i], todo[i], start.Keys, Finished(start), max);
      OrderStops(todo, i + 1, start, max, r);
    } else {
      OrderLast(todo, start, max, r);
    }
  }

  class RedisMorphStore {
    var db: Redis

    constructor ()
      ensures db == Redis(map[], [])
    {
      db := Redis(map[], []);
    }

    method Add(c: Context)
      modifies this
      ensures db == RedisStep(old(db), Op.Add(c)).0
      ensures db == Redis(old(db).hash[c.requestId := c], old(db).order + [c.requestId])
    {
      db := db.(hash := db.hash[c.requestId := c]);
      db := db.(order := db.order + [c.requestId]);
    }

    method Save(c: Context)
      modifies this
      ensures db == RedisStep(old(db), Op.Save(c)).0
      ensures db == Redis(old(db).hash[c.requestId := c], old(db).order)
    {
      db := db.(hash := db.hash[c.requestId := c]);
    }

    method Get(id: RequestId) returns (c: Option<Context>)
      ensures Found(c) == RedisStep(db, Op.Get(id)).1
    {
      c := if id in db.hash then Some(db.hash[id]) else None;
    }

    method Contains(id: RequestId) returns (b: bool)
      ensures Yes(b) == RedisStep(db, Op.Contains(id)).1
    {
      b := id in db.hash;
    }

    method All() returns (s: set<Context>)
      ensures Contexts(s) == RedisStep(db, Op.All).1
    {
      s := db.hash.Values;
    }

    method Count() returns (n: nat)
      ensures Number(n) == RedisStep(db, Op.Count).1
    {
      n := |db.hash|;
    }

    method Clear() returns (n: nat)
      modifies this
      ensures (db, Number(n)) == RedisStep(old(db), Op.Clear)
    {
      n := |db.hash|;
      db := Redis(map[], []);
    }

    // One turn of the eviction loop
    method Visit(id: RequestId)
      modifies this
      ensures db == Visited(old(db), id)
    {
      if id !in db.hash {
        db := db.(order := Without(db.order, id));
      } else if Terminal(db.hash[id].state) {
        db := db.(hash := db.hash - {id});
        db := db.(order := Without(db.order, id));
      }
    }

    method EvictTerminal(max: int)
      modifies this
      ensures db == RedisStep(old(db), Op.Evict(max)).0
    {
      var todo, start := db.order, db.hash;
      OrderFirst(todo, start, max);
      if |db.hash| <= max {
        OrderStops(todo, 0, start, max, db);
        return;
      }
      var i := 0;
      while i < |todo|
        invariant 0 <= i <= |todo|
        invariant OrderSwept(todo, i, start, max, db)
      {
        if |db.hash| <= max {
          OrderStops(todo, i, start, max, db);
          return;
        }
        OrderNext(todo, i, start, max, db);
        Visit(todo[i]);
        i := i + 1;
      }
      OrderLast(todo, start, max, db);
    }
  }

  // ---- Eviction and the order list ----

  lemma {:induction false} KeepMembers(s: seq<RequestId>, ks: Ids)
    ensures KeySet(Keep(s, ks)) == KeySet(s) * ks
  {
    if s == [] {
    } else {
      KeepMembers(s[..|s| - 1], ks);
      assert KeySet(s) == KeySet(s[..|s| - 1]) + {s[|s| - 1]};
      if s[|s| - 1] in ks { assert KeySet(Keep(s, ks)) == KeySet(Keep(s[..|s| - 1], ks)) + {s[|s| - 1]}; }
    }
  }

  lemma {:induction false} DedupMembers(s: seq<RequestId>)
    ensures KeySet(Dedup(s)) == KeySet(s)
  {
    if s == [] {
    } else {
      var front, k := s[..|s| - 1], s[|s| - 1];
      DedupMembers(front);
      assert KeySet(s) == KeySet(front) + {k};
      if k !in front {
        assert KeySet(Dedup(s)) == KeySet(Dedup(front)) + {k};
      } else {
        assert k in KeySet(front);
      }
    }
  }

  lemma DedupSnoc(s: seq<RequestId>, x: RequestId)
    ensures Dedup(s + [x]) == if x in s then Dedup(s) else Dedup(s) + [x]
  {
    assert (s + [x])[..|s|] == s;
  }

  lemma KeepSnoc(s: seq<RequestId>, x: RequestId, ks: Ids)
    ensures Keep(s + [x], ks) == if x in ks then Keep(s, ks) + [x] else Keep(s, ks)
  {
    assert (s + [x])[..|s|] == s;
  }

  lemma {:induction false} KeepSame(s: seq<RequestId>, ks: Ids, ls: Ids)
    requires KeySet(s) * ks == KeySet(s) * ls
    ensures Keep(s, ks) == Keep(s, ls)
  {
    if s == [] {
    } else {
      var front, k := s[..|s| - 1], s[|s| - 1];
      assert KeySet(s) == KeySet(front) + {k};
      assert k in KeySet(s) * ks <==> k in KeySet(s) * ls;
      assert KeySet(front) * ks == KeySet(front) * (KeySet(s) * ks);
      assert KeySet(front) * ls == KeySet(front) * (KeySet(s) * ls);
      KeepSame(front, ks, ls);
    }
  }

  lemma {:induction false} SweepShrinks(todo: seq<RequestId>, live: Ids, term: Ids, max: int)
    ensures Sweep(todo, live, term, max) <= live
  {
    if todo == [] {
    } else {
      SweepShrinks(todo[..|todo| - 1], live, term, max);
    }
  }

  // Without stale keys, exactly the evicted ones are dropped.
  lemma {:induction false} DropsTheEvicted(todo: seq<RequestId>, live: Ids, term: Ids, max: int)
    requires KeySet(todo) <= live
    ensures Dropped(todo, live, term, max) == live - Sweep(todo, live, term, max)
  {
    if todo == [] {
    } else {
      var front, k := todo[..|todo| - 1], todo[|todo| - 1];
      assert KeySet(todo) == KeySet(front) + {k};
      DropsTheEvicted(front, live, term, max);
      SweepShrinks(front, live, term, max);
    }
  }

  lemma ValidEvict(r: Redis, max: int)
    requires ValidRedis(r)
    ensures var live := Survivors(r.order, r.hash, max);
            RedisEvict(r, max) == Redis(Restrict(r.hash, live), Keep(r.order, live))
  {
    var live := Survivors(r.order, r.hash, max);
    DropsTheEvicted(r.order, r.hash.Keys, Finished(r.hash), max);
    SweepShrinks(r.order, r.hash.Keys, Finished(r.hash), max);
    KeepSame(r.order, KeySet(r.order) - (r.hash.Keys - live), live);
  }

  lemma {:induction false} KeptOrDropped(todo: seq<RequestId>, live: Ids, term: Ids, max: int)
    requires |Sweep(todo, live, term, max)| > max
    ensures KeySet(todo) <= Dropped(todo, live, term, max) + Sweep(todo, live, term, max)
  {
    if todo == [] {
    } else {
      var front, k := todo[..|todo| - 1], todo[|todo| - 1];
      assert KeySet(todo) == KeySet(front) + {k};
      KeptOrDropped(front, live, term, max);
    }
  }

  ghost predicate NoTerminalListed(r: Redis) {
    forall k | k in KeySet(r.order) && k in r.hash :: !Terminal(r.hash[k].state)
  }

  lemma {:induction false} TerminalsDropped(todo: seq<RequestId>, live: Ids, term: Ids, max: int)
    requires |Sweep(todo, live, term, max)| > max
    ensures KeySet(todo) * term <= Dropped(todo, live, term, max)
  {
    if todo == [] {
    } else {
      var front, k := todo[..|todo| - 1], todo[|todo| - 1];
      assert KeySet(todo) == KeySet(front) + {k};
      TerminalsDropped(front, live, term, max);
    }
  }

  // An eviction that cannot get the hash below the bound has gone through the whole order list, and leaves no stale
  // key in it, whatever was in it before.
  lemma FullSweepRepairsOrder(r: Redis, max: int)
    requires |RedisEvict(r, max).hash| > max
    ensures ValidRedis(RedisEvict(r, max)) && NoTerminalListed(RedisEvict(r, max))
  {
    var live := Survivors(r.order, r.hash, max);
    var gone := Dropped(r.order, r.hash.Keys, Finished(r.hash), max);
    SweepShrinks(r.order, r.hash.Keys, Finished(r.hash), max);
    assert Restrict(r.hash, live).Keys == live;
    KeptOrDropped(r.order, r.hash.Keys, Finished(r.hash), max);
    KeepMembers(r.order, KeySet(r.order) - gone);
    TerminalsDropped(r.order, r.hash.Keys, Finished(r.hash), max);
  }

  // A key met before is not evicted when it is met again.
  lemma {:induction false} SweepAgain(todo: seq<RequestId>, live: Ids, term: Ids, max: int, k: RequestId)
    requires k in todo
    ensures EvictKey(Sweep(todo, live, term, max), term, k, max) == Sweep(todo, live, term, max)
  {
    var front := todo[..|todo| - 1];
    if todo[|todo| - 1] != k {
      assert k in front;
      SweepAgain(front, live, term, max, k);
    }
  }

  // So duplicates in the list do not matter.
  lemma {:induction false} SweepDedup(todo: seq<RequestId>, live: Ids, term: Ids, max: int)
    ensures Sweep(Dedup(todo), live, term, max) == Sweep(todo, live, term, max)
  {
    if todo == [] {
    } else {
      var front, last := todo[..|todo| - 1], todo[|todo| - 1];
      SweepDedup(front, live, term, max);
      if last in front {
        SweepAgain(front, live, term, max, last);
      } else {
        SweepSnoc(Dedup(front), last, live, term, max);
      }
    }
  }

  lemma {:induction false} KeepDedup(s: seq<RequestId>, ks: Ids)
    ensures Keep(Dedup(s), ks) == Dedup(Keep(s, ks))
  {
    if s == [] {
    } else {
      var front, last := s[..|s| - 1], s[|s| - 1];
      KeepDedup(front, ks);
      KeepSnoc(Dedup(front), last, ks);
      DedupSnoc(Keep(front, ks), last);
      KeepMembers(front, ks);
      assert last in Keep(front, ks) <==> last in KeySet(Keep(front, ks));
      assert last in front <==> last in KeySet(front);
    }
  }

  // ---- What eviction does, without the loop ----

  function Min(a: int, b: int): int { if a <= b then a else b }

  // How many of the terminal keys t must go from a store of this size
  function EvictCount(t: seq<RequestId>, size: nat, max: int): nat { Min(|t|, if size <= max then 0 else size - max) }

  // The loop has evicted the oldest of these terminal keys: as many as the excess over max, or all of them.
  ghost predicate EvictsOldest(after: Ids, t: seq<RequestId>, live: Ids, max: int) {
    var n := EvictCount(t, |live|, max);
    after == live - KeySet(t[..n]) && |after| == |live| - n
  }

  lemma OneMoreEvicted(before: Ids, t: seq<RequestId>, live: Ids, term: Ids, max: int, k: RequestId)
    requires EvictsOldest(before, t, live, max) && k !in t && k in live * term
    ensures EvictsOldest(EvictKey(before, term, k, max), t + [k], live, max)
  {
    var n := EvictCount(t, |live|, max);
    assert k in before by { assert k !in t[..n]; }
    if |before| > max {
      assert t[..n] == t && (t + [k])[..n + 1] == t + [k];
      assert KeySet(t + [k]) == KeySet(t) + {k};
    } else {
      assert (t + [k])[..n] == t[..n];
    }
  }

  lemma {:induction false} NotKept(s: seq<RequestId>, ks: Ids, k: RequestId)
    requires k !in s
    ensures k !in Keep(s, ks)
  {
    if s == [] {
    } else {
      NotKept(s[..|s| - 1], ks, k);
    }
  }

  lemma {:induction false} SweepEvicts(todo: seq<RequestId>, live: Ids, term: Ids, max: int)
    requires Distinct(todo)
    ensures EvictsOldest(Sweep(todo, live, term, max), Keep(todo, live * term), live, max)
  {
    if todo == [] {
      assert KeySet([]) == {};
    } else {
      var front, k := todo[..|todo| - 1], todo[|todo| - 1];
      SweepEvicts(front, live, term, max);
      if k in live * term {
        NotKept(front, live * term, k);
        OneMoreEvicted(Sweep(front, live, term, max), Keep(front, live * term), live, term, max, k);
      }
    }
  }

  // The keys evicted from d, oldest first
  function Evicted(d: Dict, max: int): seq<RequestId> {
    var t := Keep(d.keys, Finished(d.vals));
    t[..EvictCount(t, |d.vals|, max)]
  }

  ghost predicate NoTerminal(h: Table) { forall k | k in h :: !Terminal(h[k].state) }

  lemma DistinctSnoc(s: seq<RequestId>, x: RequestId)
    requires Distinct(s) && x !in s
    ensures Distinct(s + [x])
  {
    assert (s + [x])[..|s|] == s;
  }

  lemma {:induction false} KeepDistinct(s: seq<RequestId>, ks: Ids)
    requires Distinct(s)
    ensures Distinct(Keep(s, ks))
  {
    if s == [] {
    } else {
      var front, k := s[..|s| - 1], s[|s| - 1];
      KeepDistinct(front, ks);
      NotKept(front, ks, k);
      DistinctSnoc(Keep(front, ks), k);
    }
  }

  // Eviction removes exactly the oldest n terminal entries, n = min(#terminal, max(0, size - max)), and keeps
  // all others unchanged and in order, so it ends with size <= max or with no terminal entry.
  lemma EvictionIsExact(d: Dict, max: int)
    requires ValidDict(d)
    ensures ValidDict(DictEvict(d, max))
    ensures DictEvict(d, max).vals == Restrict(d.vals, d.vals.Keys - KeySet(Evicted(d, max)))
    ensures DictEvict(d, max).keys == Keep(d.keys, d.vals.Keys - KeySet(Evicted(d, max)))
    ensures |DictEvict(d, max).vals| == |d.vals| - |Evicted(d, max)|
    ensures |DictEvict(d, max).vals| <= max || NoTerminal(DictEvict(d, max).vals)
  {
    var live := Survivors(d.keys, d.vals, max);
    SweepEvicts(d.keys, d.vals.Keys, Finished(d.vals), max);
    assert d.vals.Keys * Finished(d.vals) == Finished(d.vals);
    assert Restrict(d.vals, live).Keys == live;
    KeepDistinct(d.keys, live);
    KeepMembers(d.keys, live);
    KeepMembers(d.keys, Finished(d.vals));
    var t := Keep(d.keys, Finished(d.vals));
    if |live| > max {
      assert Evicted(d, max) == t;
      forall k | k in live ensures !Terminal(d.vals[k].state) { assert k !in KeySet(t); }
    }
  }

  lemma {:induction false} DistinctCount(s: seq<RequestId>)
    requires Distinct(s)
    ensures |KeySet(s)| == |s|
  {
    if s == [] {
    } else {
      var front, k := s[..|s| - 1], s[|s| - 1];
      DistinctCount(front);
      assert KeySet(s) == KeySet(front) + {k};
    }
  }

  // As many go as the store exceeds its bound, or all the finished ones.
  lemma EvictedIsExcess(d: Dict, max: int)
    requires ValidDict(d)
    ensures var excess, finished := |d.vals| - max, |Finished(d.vals)|;
            |Evicted(d, max)| == if excess <= 0 then 0 else if excess <= finished then excess else finished
  {
    var t := Keep(d.keys, Finished(d.vals));
    KeepMembers(d.keys, Finished(d.vals));
    KeepDistinct(d.keys, Finished(d.vals));
    DistinctCount(t);
    assert KeySet(d.keys) * Finished(d.vals) == Finished(d.vals);
  }

  // ---- The two backends, as seen by a client ----

  function DictRun(d: Dict, ops: seq<Op>): seq<Obs>
    decreases |ops|
  {
    if ops == [] then [] else var (d', o) := DictStep(d, ops[0]); [o] + DictRun(d', ops[1..])
  }

  function RedisRun(r: Redis, ops: seq<Op>): seq<Obs>
    decreases |ops|
  {
    if ops == [] then [] else var (r', o) := RedisStep(r, ops[0]); [o] + RedisRun(r', ops[1..])
  }

  // The one thing a caller must not do: save a context that is not in the store.
  predicate AbsentSave(d: Dict, op: Op) { op.Save? && op.c.requestId !in d.vals }

  predicate Disciplined(d: Dict, ops: seq<Op>)
    decreases |ops|
  {
    ops == [] || (!AbsentSave(d, ops[0]) && Disciplined(DictStep(d, ops[0]).0, ops[1..]))
  }

  // The order list, without its duplicates, is the dict's insertion order.
  ghost predicate Sim(d: Dict, r: Redis) {
    d.vals == r.hash && d.keys == Dedup(r.order) && KeySet(r.order) == r.hash.Keys
  }

  lemma SimAdd(d: Dict, r: Redis, c: Context)
    requires Sim(d, r)
    ensures Sim(Put(d, c), Redis(r.hash[c.requestId := c], r.order + [c.requestId]))
  {
    DedupSnoc(r.order, c.requestId);
    assert c.requestId in r.order <==> c.requestId in KeySet(r.order);
    assert KeySet(r.order + [c.requestId]) == KeySet(r.order) + {c.requestId};
  }

  lemma SimEvict(d: Dict, r: Redis, max: int)
    requires Sim(d, r)
    ensures Sim(DictEvict(d, max), RedisEvict(r, max))
  {
    var live := Survivors(r.order, r.hash, max);
    SweepDedup(r.order, r.hash.Keys, Finished(r.hash), max);
    ValidEvict(r, max);
    KeepDedup(r.order, live);
    SweepShrinks(r.order, r.hash.Keys, Finished(r.hash), max);
    KeepMembers(r.order, live);
    assert Restrict(r.hash, live).Keys == live;
  }

  lemma SimStep(d: Dict, r: Redis, op: Op)
    requires Sim(d, r) && !AbsentSave(d, op)
    ensures Sim(DictStep(d, op).0, RedisStep(r, op).0) && DictStep(d, op).1 == RedisStep(r, op).1
  {
    match op
    case Add(c) => SimAdd(d, r, c);
    case Evict(max) => SimEvict(d, r, max);
    case Save(c) => assert r.hash[c.requestId := c].Keys == r.hash.Keys;
    case _ =>
  }

  // Refinement: whatever sequence of calls a client makes, as long as it saves only present contexts (adding
  // a present one is harmless), it cannot tell the backends apart.
  lemma {:induction false} BackendsAgree(d: Dict, r: Redis, ops: seq<Op>)
    requires Sim(d, r) && Disciplined(d, ops)
    ensures DictRun(d, ops) == RedisRun(r, ops)
    decreases |ops|
  {
    if ops == [] {
    } else {
      SimStep(d, r, ops[0]);
      BackendsAgree(DictStep(d, ops[0]).0, RedisStep(r, ops[0]).0, ops[1..]);
    }
  }

  // The calls that expose an absent save of c: finish c, evict everything terminal, look for c.
  function Probe(c: Context): seq<Op> { [Save(c.(state := Idle)), Evict(0), Contains(c.requestId)] }

  lemma {:induction false} SweepSpares(todo: seq<RequestId>, live: Ids, term: Ids, max: int, k: RequestId)
    requires k in live && k !in todo
    ensures k in Sweep(todo, live, term, max)
  {
    if todo == [] {
    } else {
      SweepSpares(todo[..|todo| - 1], live, term, max, k);
    }
  }

  // A saved, then finished, absent context is evicted from the dict, but survives in Redis: it is not in the order
  // list.
  lemma AbsentSaveSurvives(d: Dict, r: Redis, c: Context)
    requires Sim(d, r) && AbsentSave(d, Save(c))
    ensures var done := c.(state := Idle);
            && c.requestId !in DictEvict(Put(Put(d, c), done), 0).vals
            && c.requestId in RedisEvict(Redis(r.hash[c.requestId := c][c.requestId := done], r.order), 0).hash
  {
    var k, done := c.requestId, c.(state := Idle);
    var d2, h2 := Put(Put(d, c), done), r.hash[c.requestId := c][c.requestId := done];
    assert d2.keys == d.keys + [k] && d2.vals.Keys == d.vals.Keys + {k};
    SweepAgain(d2.keys, d2.vals.Keys, Finished(d2.vals), 0, k);
    assert k !in KeySet(r.order);
    SweepSpares(r.order, h2.Keys, Finished(h2), 0, k);
  }

  lemma DisciplinedCons(d: Dict, op: Op, tail: seq<Op>)
    requires !AbsentSave(d, op) && Disciplined(DictStep(d, op).0, tail)
    ensures Disciplined(d, [op] + tail)
  {
    assert ([op] + tail)[1..] == tail;
  }

  lemma ProbeIsDisciplined(d: Dict, c: Context)
    requires c.requestId in d.vals
    ensures Disciplined(d, Probe(c))
  {
    var save, evict, look := Save(c.(state := Idle)), Evict(0), Contains(c.requestId);
    var d2 := DictStep(d, save).0;
    DisciplinedCons(DictStep(d2, evict).0, look, []);
    DisciplinedCons(d2, evict, [look]);
    DisciplinedCons(d, save, [evict, look]);
    assert [look] + [] == [look] && [evict] + [look] == [evict, look] && [save] + [evict, look] == Probe(c);
  }

  // A difference in the i-th answer is still there, one place later, after a call in front.
  lemma RunsDiffer(d: Dict, r: Redis, op: Op, tail: seq<Op>, i: nat)
    requires var d', r' := DictStep(d, op).0, RedisStep(r, op).0;
             && i < |tail| && i < |DictRun(d', tail)| && i < |RedisRun(r', tail)|
             && DictRun(d', tail)[i] != RedisRun(r', tail)[i]
    ensures i + 1 < |DictRun(d, [op] + tail)| && i + 1 < |RedisRun(r, [op] + tail)|
    ensures DictRun(d, [op] + tail)[i + 1] != RedisRun(r, [op] + tail)[i + 1]
  {
    assert ([op] + tail)[1..] == tail;
  }

  lemma AbsentSaveShows(d: Dict, r: Redis, c: Context)
    requires Sim(d, r) && AbsentSave(d, Save(c))
    ensures Disciplined(Put(d, c), Probe(c))
    ensures DictRun(d, [Save(c)] + Probe(c)) != RedisRun(r, [Save(c)] + Probe(c))
  {
    var save, evict, look := Save(c.(state := Idle)), Evict(0), Contains(c.requestId);
    var d1, r1 := DictStep(d, Save(c)).0, RedisStep(r, Save(c)).0;
    var d2, r2 := DictStep(d1, save).0, RedisStep(r1, save).0;
    ProbeIsDisciplined(d1, c);
    AbsentSaveSurvives(d, r, c);
    RunsDiffer(d2, r2, evict, [look], 0);
    RunsDiffer(d1, r1, save, [evict, look], 1);
    assert [save] + [evict, look] == Probe(c) && [evict] + [look] == [evict, look];
    RunsDiffer(d, r, Save(c), Probe(c), 2);
  }

  lemma {:induction false} RunLength(d: Dict, r: Redis, ops: seq<Op>)
    ensures |DictRun(d, ops)| == |RedisRun(r, ops)| == |ops|
    decreases |ops|
  {
    if ops == [] {
    } else {
      RunLength(DictStep(d, ops[0]).0, RedisStep(r, ops[0]).0, ops[1..]);
    }
  }

  // Exactness: from agreeing states, a call keeps the backends indistinguishable under every disciplined
  // continuation if and only if it is not an absent save.
  lemma AgreementExactlyWithoutAbsentSave(d: Dict, r: Redis, op: Op)
    requires Sim(d, r)
    ensures (forall tail | Disciplined(DictStep(d, op).0, tail) :: DictRun(d, [op] + tail) == RedisRun(r, [op] + tail))
            <==> !AbsentSave(d, op)
  {
    if AbsentSave(d, op) {
      AbsentSaveShows(d, r, op.c);
    } else {
      forall tail | Disciplined(DictStep(d, op).0, tail) ensures DictRun(d, [op] + tail) == RedisRun(r, [op] + tail) {
        assert ([op] + tail)[1..] == tail;
        BackendsAgree(d, r, [op] + tail);
      }
    }
  }

  // ---- Receiving a signal: reject a known request, else add its idle context and evict down to the bound ----

  function Receive(d: Dict, c: Context, maxActive: int): (Dict, bool) {
    if c.requestId in d.vals then (d, false)
    else
      var added := Put(d, c);
      (if |added.vals| > maxActive then DictEvict(added, maxActive) else added, true)
  }

  lemma PutNew(d: Dict, c: Context)
    requires ValidDict(d) && c.requestId !in d.vals
    ensures ValidDict(Put(d, c)) && |Put(d, c).vals| == |d.vals| + 1
  {
    var k := c.requestId;
    assert k !in KeySet(d.keys);
    DistinctSnoc(d.keys, k);
    assert KeySet(d.keys + [k]) == KeySet(d.keys) + {k};
    assert Put(d, c).vals.Keys == d.vals.Keys + {k};
  }

  lemma EvictionSparesInFlight(d: Dict, max: int)
    requires ValidDict(d)
    ensures forall k | k in d.vals && !Terminal(d.vals[k].state) ::
              k in DictEvict(d, max).vals && DictEvict(d, max).vals[k] == d.vals[k]
  {
    EvictionIsExact(d, max);
    KeepMembers(d.keys, Finished(d.vals));
    var t := Keep(d.keys, Finished(d.vals));
    forall k | k in d.vals && !Terminal(d.vals[k].state) ensures k !in KeySet(Evicted(d, max)) {
      assert k !in KeySet(t);
    }
  }

  // A signal is accepted exactly when its request is new; an in-flight morph is never lost, and the store ends
  // within the bound or full of in-flight morphs.
  lemma ReceiveKeepsInFlight(d: Dict, c: Context, maxActive: int)
    requires ValidDict(d) && c.state == Idle
    ensures Receive(d, c, maxActive).1 <==> c.requestId !in d.vals
    ensures c.requestId in d.vals ==> Receive(d, c, maxActive).0 == d
    ensures c.requestId !in d.vals ==> var e := Receive(d, c, maxActive).0;
              && ValidDict(e) && (|e.vals| <= maxActive || NoTerminal(e.vals))
              && forall k | k in d.vals && !Terminal(d.vals[k].state) :: k in e.vals && e.vals[k] == d.vals[k]
  {
    if c.requestId !in d.vals {
      var added, e := Put(d, c), Receive(d, c, maxActive).0;
      PutNew(d, c);
      if |added.vals| > maxActive {
        EvictionIsExact(added, maxActive);
        EvictionSparesInFlight(added, maxActive);
      }
      forall k | k in d.vals && !Terminal(d.vals[k].state) ensures k in e.vals && e.vals[k] == d.vals[k] {
        assert k in added.vals && added.vals[k] == d.vals[k];
      }
    }
  }

  // The terminal keys once c is added: the old ones, as many as there are, and then c's
  lemma NewcomerIsLastTerminal(d: Dict, c: Context)
    requires ValidDict(d) && c.state == Idle && c.requestId !in d.vals
    ensures var t, added := Keep(d.keys, Finished(d.vals)), Put(d, c);
            && Keep(added.keys, Finished(added.vals)) == t + [c.requestId] && |t| == |Finished(d.vals)|
            && c.requestId !in t
  {
    var k := c.requestId;
    assert k !in KeySet(d.keys);
    assert Finished(Put(d, c).vals) == Finished(d.vals) + {k};
    KeepSnoc(d.keys, k, Finished(d.vals) + {k});
    KeepSame(d.keys, Finished(d.vals) + {k}, Finished(d.vals));
    KeepMembers(d.keys, Finished(d.vals));
    KeepDistinct(d.keys, Finished(d.vals));
    DistinctCount(Keep(d.keys, Finished(d.vals)));
    assert KeySet(d.keys) * Finished(d.vals) == Finished(d.vals);
    NotKept(d.keys, Finished(d.vals), k);
  }

  lemma EvictedIfAll(t: seq<RequestId>, k: RequestId, n: nat)
    requires n <= |t| + 1 && k !in t
    ensures k in KeySet((t + [k])[..n]) <==> n == |t| + 1
  {
    if n <= |t| {
      assert (t + [k])[..n] == t[..n];
    } else {
      assert (t + [k])[..n] == t + [k];
    }
  }

  // A new context is still idle, so eviction can take it: it stays exactly if the finished morphs outnumber the excess
  // over the bound. If not, the first transition of its run is an absent save: the one call that makes the backends
  // drift apart.
  lemma NewcomerStaysExactly(d: Dict, c: Context, maxActive: int)
    requires ValidDict(d) && c.state == Idle && c.requestId !in d.vals
    ensures var e := Receive(d, c, maxActive).0; var stays := |Finished(d.vals)| > |d.vals| - maxActive;
            (c.requestId in e.vals <==> stays) && (AbsentSave(e, Save(c.(state := Detecting))) <==> !stays)
  {
    var added, k := Put(d, c), c.requestId;
    PutNew(d, c);
    if |added.vals| > maxActive {
      EvictionIsExact(added, maxActive);
      NewcomerIsLastTerminal(d, c);
      var t := Keep(d.keys, Finished(d.vals));
      EvictedIfAll(t, k, EvictCount(t + [k], |added.vals|, maxActive));
    }
  }

  lemma EvictionLeaves(d: Dict, max: int, rest: Ids)
    requires ValidDict(d) && d.vals.Keys - KeySet(Evicted(d, max)) == rest
    ensures DictEvict(d, max) == Dict(Keep(d.keys, rest), Restrict(d.vals, rest))
  {
    EvictionIsExact(d, max);
  }

  lemma OnlyNewcomerTerminal(h: Table, c: Context)
    requires c.state == Idle && NoTerminal(h)
    ensures Finished(h[c.requestId := c]) == {c.requestId}
  {}

  lemma {:induction false} KeepNone(s: seq<RequestId>, ks: Ids)
    requires KeySet(s) !! ks
    ensures Keep(s, ks) == []
  {
    if s == [] {
    } else {
      var front, k := s[..|s| - 1], s[|s| - 1];
      assert KeySet(s) == KeySet(front) + {k};
      KeepNone(front, ks);
    }
  }

  lemma OnlyNewcomerEvicted(d: Dict, c: Context)
    requires ValidDict(d) && c.state == Idle && c.requestId !in d.vals && NoTerminal(d.vals)
    ensures Evicted(Put(d, c), |d.vals|) == [c.requestId]
  {
    var k := c.requestId;
    PutNew(d, c);
    OnlyNewcomerTerminal(d.vals, c);
    assert k !in KeySet(d.keys);
    KeepSnoc(d.keys, k, {k});
    KeepNone(d.keys, {k});
  }

  lemma RestrictUndoesPut(h: Table, c: Context)
    requires c.requestId !in h
    ensures Restrict(h[c.requestId := c], h.Keys) == h
  {}

  lemma NewcomerLeaves(d: Dict, c: Context)
    requires ValidDict(d) && c.state == Idle && c.requestId !in d.vals && NoTerminal(d.vals)
    ensures DictEvict(Put(d, c), |d.vals|) == d
  {
    var added, k := Put(d, c), c.requestId;
    var e := DictEvict(added, |d.vals|);
    assert e == Dict(Keep(added.keys, d.vals.Keys), Restrict(added.vals, d.vals.Keys)) by {
      PutNew(d, c);
      OnlyNewcomerEvicted(d, c);
      assert KeySet([k]) == {k} && added.vals.Keys - {k} == d.vals.Keys;
      EvictionLeaves(added, |d.vals|, d.vals.Keys);
    }
    assert e.keys == d.keys by {
      KeepAll(d.keys, d.vals.Keys);
      KeepSnoc(d.keys, k, d.vals.Keys);
    }
    RestrictUndoesPut(d.vals, c);
  }

  // So when the bound is already full of in-flight morphs, receiving a signal changes nothing.
  lemma FullStoreEvictsTheNewcomer(d: Dict, c: Context, maxActive: nat)
    requires ValidDict(d) && c.state == Idle && c.requestId !in d.vals && |d.vals| == maxActive && NoTerminal(d.vals)
    ensures Receive(d, c, maxActive) == (d, true)
            && AbsentSave(Receive(d, c, maxActive).0, Save(c.(state := Detecting)))
  {
    PutNew(d, c);
    NewcomerLeaves(d, c);
  }

  // ---- What a client is told ----

  // A context is found under its id once it is added or saved, other ids are not affected, and what is contained,
  // counted and listed is what is found.
  lemma StoreTellsWhatItHolds(d: Dict, c: Context, id: RequestId)
    requires ValidDict(d)
    ensures var after := DictStep(d, Add(c)).0; after == DictStep(d, Save(c)).0
    ensures var after := DictStep(d, Add(c)).0;
            DictStep(after, Get(id)).1 == if id == c.requestId then Found(Some(c)) else DictStep(d, Get(id)).1
    ensures DictStep(d, Contains(id)).1 == Yes(DictStep(d, Get(id)).1 != Found(None))
    ensures DictStep(d, Count).1 == Number(|set k | k in d.keys && DictStep(d, Get(k)).1 != Found(None)|)
    ensures DictStep(d, All).1 == Contexts(set k | k in d.keys :: d.vals[k])
    ensures DictStep(d, Clear).1 == DictStep(d, Count).1 && DictStep(DictStep(d, Clear).0, Get(id)).1 == Found(None)
  {
    assert forall k :: k in d.keys <==> k in d.vals by { assert forall k :: k in KeySet(d.keys) <==> k in d.keys; }
    assert (set k | k in d.keys && DictStep(d, Get(k)).1 != Found(None)) == d.vals.Keys;
    assert (set k | k in d.keys :: d.vals[k]) == d.vals.Values;
  }
}
