/** The hash table of kv_ftl.c as a value: slots chained through `next`, no deletions, keys of one length. */
module KvModel {
  import opened Counting

  type Key = seq<bv8>

  /** `struct mapping_entry`; a slot with offset -1 is free. */
  datatype Entry = Entry(key: Key, offset: int, next: int, length: nat)

  const FREE: Entry := Entry([], -1, -1, 0)

  /** The table, and for the proofs the order in which the slots were filled. */
  datatype Table = Table(slots: seq<Entry>, rank: seq<nat>, count: nat)

  predicate Occupied(t: Table, s: nat) {
    s < |t.slots| && t.slots[s].offset != -1
  }

  /** A slot links to a slot that was filled after it. */
  ghost predicate LinkOk(t: Table, s: nat)
    requires |t.rank| == |t.slots| && s < |t.slots|
  {
    && t.slots[s].offset >= -1
    && (t.slots[s].offset == -1 ==> t.slots[s].next == -1)
    && (t.slots[s].offset != -1 ==> t.rank[s] < t.count)
    && (t.slots[s].next != -1 ==>
          0 <= t.slots[s].next && Occupied(t, t.slots[s].next) && t.rank[t.slots[s].next] > t.rank[s])
  }

  ghost predicate Linked(t: Table) {
    |t.rank| == |t.slots| && forall s: nat :: s < |t.slots| ==> LinkOk(t, s)
  }

  /** Following the links from `s` leads to `x`. */
  ghost predicate Reaches(t: Table, s: nat, x: nat): (r: bool)
    requires Linked(t)
    ensures r ==> Occupied(t, s) && Occupied(t, x) && t.rank[s] <= t.rank[x] < t.count
    decreases if Occupied(t, s) then t.count - t.rank[s] else 0
  {
    && Occupied(t, s)
    && (assert LinkOk(t, s); s == x || (t.slots[s].next != -1 && Reaches(t, t.slots[s].next, x)))
  }

  function Home(hash: Key -> nat, n: nat, key: Key): nat
    requires n > 0
  {
    hash(key) % n
  }

  /** Where a stored value lies. */
  datatype Extent = Extent(offset: nat, length: nat)

  /** Slot `s` holds `key`, which the map takes to the slot's extent, and is reachable from the key's home. */
  ghost predicate Holds(t: Table, m: map<Key, Extent>, hash: Key -> nat, s: nat, key: Key)
    requires Linked(t)
  {
    && Occupied(t, s) && t.slots[s].key == key && key in m && t.slots[s].offset >= 0
    && m[key] == Extent(t.slots[s].offset, t.slots[s].length)
    && Reaches(t, Home(hash, |t.slots|, key), s)
  }

  /** The table stands for the map: the occupied slots hold its keys, each key once. */
  ghost predicate Refines(t: Table, m: map<Key, Extent>, hash: Key -> nat, keyLen: nat) {
    && Linked(t) && |t.slots| > 0
    && (forall s: nat :: Occupied(t, s) ==> |t.slots[s].key| == keyLen && Holds(t, m, hash, s, t.slots[s].key))
    && (forall key :: key in m ==> exists s :: Holds(t, m, hash, s, key))
    && (forall s: nat, u: nat :: Occupied(t, s) && Occupied(t, u) && t.slots[s].key == t.slots[u].key ==> s == u)
  }

  lemma HoldsSlot(t: Table, m: map<Key, Extent>, hash: Key -> nat, keyLen: nat, s: nat)
    requires Refines(t, m, hash, keyLen) && Occupied(t, s)
    ensures Linked(t) && |t.rank| == |t.slots| && |t.slots[s].key| == keyLen
    ensures Holds(t, m, hash, s, t.slots[s].key) && t.slots[s].key in m
  {
  }

  // ---------- chains ----------

  /** One more link at the end. */
  lemma {:induction false} ReachesNext(t: Table, s: nat, x: nat)
    requires Linked(t) && Reaches(t, s, x) && t.slots[x].next != -1
    ensures t.slots[x].next >= 0 && Reaches(t, s, t.slots[x].next)
    decreases t.count - t.rank[s]
  {
    assert LinkOk(t, s) && LinkOk(t, x);
    if s != x {
      ReachesNext(t, t.slots[s].next, x);
    }
  }

  /** From a slot on the way, the rest of the way remains. */
  lemma ReachesFromNext(t: Table, s: nat, x: nat)
    requires Linked(t) && Reaches(t, s, x) && s != x
    ensures LinkOk(t, s) && t.slots[s].next != -1 && Reaches(t, t.slots[s].next, x)
  {
  }

  // ---------- inserting ----------

  /** The table after `entry` was put into the free slot `s` and linked behind `tail` (-1: into its home). */
  function Inserted(t: Table, s: nat, tail: int, entry: Entry): Table
    requires s < |t.slots| == |t.rank| && -1 <= tail < |t.slots|
  {
    var filled := t.slots[s := entry.(next := t.slots[s].next)];
    Table(if tail == -1 then filled else filled[tail := filled[tail].(next := s)], t.rank[s := t.count], t.count + 1)
  }

  ghost predicate InsertPoint(t: Table, s: nat, tail: int, entry: Entry) {
    && Linked(t) && s < |t.slots| && !Occupied(t, s) && entry.offset >= 0
    && (tail == -1 || (0 <= tail && Occupied(t, tail) && t.slots[tail].next == -1))
  }

  lemma InsertedLinked(t: Table, s: nat, tail: int, entry: Entry)
    requires InsertPoint(t, s, tail, entry)
    ensures |t.rank| == |t.slots| && tail < |t.slots| && Linked(Inserted(t, s, tail, entry))
  {
    var r := Inserted(t, s, tail, entry);
    forall u: nat | u < |r.slots|
      ensures LinkOk(r, u)
    {
      assert LinkOk(t, u) && LinkOk(t, s);
    }
  }

  /** An insertion never breaks a chain, also where chains have merged. */
  lemma {:induction false} InsertedReaches(t: Table, s: nat, tail: int, entry: Entry, u: nat, x: nat)
    requires InsertPoint(t, s, tail, entry) && Linked(Inserted(t, s, tail, entry)) && Reaches(t, u, x)
    ensures Reaches(Inserted(t, s, tail, entry), u, x)
    decreases t.count - t.rank[u]
  {
    assert LinkOk(t, u);
    if u != x {
      InsertedReaches(t, s, tail, entry, t.slots[u].next, x);
    }
  }

  /** The new slot is reachable from the home of its key. */
  lemma InsertedIsReached(t: Table, s: nat, tail: int, entry: Entry, home: nat)
    requires InsertPoint(t, s, tail, entry) && Linked(Inserted(t, s, tail, entry))
    requires if tail == -1 then home == s else Reaches(t, home, tail)
    ensures Reaches(Inserted(t, s, tail, entry), home, s)
  {
    if tail != -1 {
      InsertedReaches(t, s, tail, entry, home, tail);
      ReachesNext(Inserted(t, s, tail, entry), home, tail);
    }
  }

  lemma InsertedHolds(t: Table, m: map<Key, Extent>, hash: Key -> nat, s: nat, tail: int, entry: Entry, u: nat, key: Key)
    requires InsertPoint(t, s, tail, entry) && Linked(Inserted(t, s, tail, entry))
    requires Holds(t, m, hash, u, key) && key != entry.key
    ensures Holds(Inserted(t, s, tail, entry), m[entry.key := Extent(entry.offset, entry.length)], hash, u, key)
  {
    InsertedReaches(t, s, tail, entry, Home(hash, |t.slots|, key), u);
  }

  /** What an insertion of a new key requires: the point is the end of the chain of the key's home. */
  ghost predicate NewKeyAt(t: Table, m: map<Key, Extent>, hash: Key -> nat, keyLen: nat, s: nat, tail: int, entry: Entry) {
    && Refines(t, m, hash, keyLen) && InsertPoint(t, s, tail, entry)
    && entry.key !in m && |entry.key| == keyLen
    && var home := Home(hash, |t.slots|, entry.key);
    if tail == -1 then home == s else Reaches(t, home, tail)
  }

  lemma InsertedSlot(t: Table, m: map<Key, Extent>, hash: Key -> nat, keyLen: nat, s: nat, tail: int, entry: Entry, u: nat)
    requires NewKeyAt(t, m, hash, keyLen, s, tail, entry) && Linked(Inserted(t, s, tail, entry))
    requires Occupied(Inserted(t, s, tail, entry), u)
    ensures var r := Inserted(t, s, tail, entry);
      && |r.slots[u].key| == keyLen
      && Holds(r, m[entry.key := Extent(entry.offset, entry.length)], hash, u, r.slots[u].key)
      && (u != s ==> Occupied(t, u) && r.slots[u].key == t.slots[u].key && t.slots[u].key in m)
  {
    if u == s {
      InsertedIsReached(t, s, tail, entry, Home(hash, |t.slots|, entry.key));
    } else {
      assert Holds(t, m, hash, u, t.slots[u].key);
      InsertedHolds(t, m, hash, s, tail, entry, u, t.slots[u].key);
    }
    hide Reaches, LinkOk;
  }

  lemma InsertedKey(t: Table, m: map<Key, Extent>, hash: Key -> nat, keyLen: nat, s: nat, tail: int, entry: Entry, key: Key)
    returns (u: nat)
    requires NewKeyAt(t, m, hash, keyLen, s, tail, entry) && Linked(Inserted(t, s, tail, entry))
    requires key in m || key == entry.key
    ensures Holds(Inserted(t, s, tail, entry), m[entry.key := Extent(entry.offset, entry.length)], hash, u, key)
  {
    hide Reaches, LinkOk;
    if key == entry.key {
      u := s;
      InsertedSlot(t, m, hash, keyLen, s, tail, entry, s);
    } else {
      u :| Holds(t, m, hash, u, key);
      InsertedHolds(t, m, hash, s, tail, entry, u, key);
    }
  }

  /** Inserting a new key refines extending the map. */
  lemma InsertRefines(t: Table, m: map<Key, Extent>, hash: Key -> nat, keyLen: nat, s: nat, tail: int, entry: Entry)
    requires NewKeyAt(t, m, hash, keyLen, s, tail, entry)
    ensures Refines(Inserted(t, s, tail, entry), m[entry.key := Extent(entry.offset, entry.length)], hash, keyLen)
  {
    hide Holds, Linked, LinkOk, Reaches;
    InsertedLinked(t, s, tail, entry);
    var r, n := Inserted(t, s, tail, entry), m[entry.key := Extent(entry.offset, entry.length)];
    forall u: nat | Occupied(r, u)
      ensures |r.slots[u].key| == keyLen && Holds(r, n, hash, u, r.slots[u].key)
      ensures u != s ==> Occupied(t, u) && r.slots[u].key == t.slots[u].key && t.slots[u].key in m
    {
      InsertedSlot(t, m, hash, keyLen, s, tail, entry, u);
    }
    forall key | key in n
      ensures exists u :: Holds(r, n, hash, u, key)
    {
      var u := InsertedKey(t, m, hash, keyLen, s, tail, entry, key);
    }
  }

  // ---------- updating ----------

  function WithLength(t: Table, s: nat, length: nat): Table
    requires s < |t.slots|
  {
    t.(slots := t.slots[s := t.slots[s].(length := length)])
  }

  lemma {:induction false} SameLinks(t: Table, s: nat, length: nat, u: nat, x: nat)
    requires Linked(t) && Occupied(t, s) && Linked(WithLength(t, s, length)) && Reaches(t, u, x)
    ensures Reaches(WithLength(t, s, length), u, x)
    decreases t.count - t.rank[u]
  {
    assert LinkOk(t, u);
    if u != x {
      SameLinks(t, s, length, t.slots[u].next, x);
    }
  }

  lemma UpdatedLinked(t: Table, s: nat, length: nat)
    requires Linked(t) && Occupied(t, s)
    ensures Linked(WithLength(t, s, length))
  {
    var r := WithLength(t, s, length);
    forall u: nat | u < |r.slots|
      ensures LinkOk(r, u)
    {
      assert LinkOk(t, u);
    }
  }

  lemma UpdatedHolds(t: Table, m: map<Key, Extent>, hash: Key -> nat, keyLen: nat, s: nat, length: nat, u: nat, key: Key)
    requires Refines(t, m, hash, keyLen) && Occupied(t, s) && Linked(WithLength(t, s, length)) && t.slots[s].key in m
    requires Holds(t, m, hash, u, key)
    ensures Holds(WithLength(t, s, length), m[t.slots[s].key := m[t.slots[s].key].(length := length)], hash, u, key)
  {
    SameLinks(t, s, length, Home(hash, |t.slots|, key), u);
  }

  /** Changing the length of a stored key refines the same change of the map. */
  lemma UpdateRefines(t: Table, m: map<Key, Extent>, hash: Key -> nat, keyLen: nat, s: nat, length: nat)
    requires Refines(t, m, hash, keyLen) && Occupied(t, s)
    ensures t.slots[s].key in m
    ensures Refines(WithLength(t, s, length), m[t.slots[s].key := m[t.slots[s].key].(length := length)], hash, keyLen)
  {
    hide Linked, Holds;
    var k := t.slots[s].key;
    HoldsSlot(t, m, hash, keyLen, s);
    UpdatedLinked(t, s, length);
    var r, n := WithLength(t, s, length), m[k := m[k].(length := length)];
    forall u: nat | Occupied(r, u)
      ensures |r.slots[u].key| == keyLen && Holds(r, n, hash, u, r.slots[u].key)
    {
      HoldsSlot(t, m, hash, keyLen, u);
      UpdatedHolds(t, m, hash, keyLen, s, length, u, t.slots[u].key);
    }
    forall key | key in n
      ensures exists u :: Holds(r, n, hash, u, key)
    {
      var u :| Holds(t, m, hash, u, key);
      UpdatedHolds(t, m, hash, keyLen, s, length, u, key);
    }
  }

  // ---------- searching ----------

  /** Wherever the key may be, the search from `s` gets there. */
  ghost predicate Searching(t: Table, m: map<Key, Extent>, hash: Key -> nat, key: Key, s: nat)
    requires Linked(t)
  {
    forall x: nat :: Holds(t, m, hash, x, key) ==> Reaches(t, s, x)
  }

  lemma SearchStarts(t: Table, m: map<Key, Extent>, hash: Key -> nat, keyLen: nat, key: Key)
    requires Refines(t, m, hash, keyLen)
    ensures Linked(t) && |t.rank| == |t.slots| > 0 && Home(hash, |t.slots|, key) < |t.slots|
    ensures Searching(t, m, hash, key, Home(hash, |t.slots|, key))
  {
  }

  /** At a free slot the search has failed; at another it has found the key or goes on behind the slot. */
  lemma SearchStep(t: Table, m: map<Key, Extent>, hash: Key -> nat, keyLen: nat, key: Key, s: nat)
    requires Refines(t, m, hash, keyLen) && s < |t.slots| && Searching(t, m, hash, key, s)
    ensures !Occupied(t, s) ==> key !in m
    ensures Occupied(t, s) ==> |t.slots[s].key| == keyLen && t.rank[s] < t.count
    ensures Occupied(t, s) && t.slots[s].key == key ==> Holds(t, m, hash, s, key) && key in m
    ensures Occupied(t, s) && t.slots[s].key != key ==>
      var next := t.slots[s].next;
      if next == -1 then key !in m
      else 0 <= next < |t.slots| && Searching(t, m, hash, key, next) && t.rank[s] < t.rank[next]
  {
    assert LinkOk(t, s);
    assert Occupied(t, s) ==> Holds(t, m, hash, s, t.slots[s].key);
    if Occupied(t, s) && t.slots[s].key != key && t.slots[s].next != -1 {
      var next: nat := t.slots[s].next;
      forall x: nat | Holds(t, m, hash, x, key)
        ensures Reaches(t, next, x)
      {
        ReachesFromNext(t, s, x);
      }
    }
  }

  lemma OnItself(t: Table, s: nat)
    requires Linked(t) && Occupied(t, s)
    ensures Reaches(t, s, s)
  {
    assert LinkOk(t, s);
  }

  /** Following a chain to its end. */
  lemma TailStep(t: Table, original: nat, tail: nat)
    requires Linked(t) && Reaches(t, original, tail)
    ensures tail < |t.slots| == |t.rank| && t.slots[tail].offset != -1 && t.rank[tail] < t.count
    ensures var next := t.slots[tail].next;
      next != -1 ==> 0 <= next && Reaches(t, original, next) && t.rank[tail] < t.rank[next]
  {
    assert LinkOk(t, tail);
    if t.slots[tail].next != -1 {
      ReachesNext(t, original, tail);
    }
  }

  // ---------- room ----------

  /** As long as the map has fewer keys than there are slots, some slot is free. */
  lemma FreeSlotExists(t: Table, m: map<Key, Extent>, hash: Key -> nat, keyLen: nat)
    requires Refines(t, m, hash, keyLen) && |m| < |t.slots|
    ensures exists s: nat :: s < |t.slots| && !Occupied(t, s)
  {
    hide Linked, Holds;
    if forall s: nat :: s < |t.slots| ==> Occupied(t, s) {
      var keys := seq(|t.slots|, s requires 0 <= s < |t.slots| => t.slots[s].key);
      assert NoDup(keys);
      NoDupSize(keys);
      forall key | key in Elements(keys)
        ensures key in m.Keys
      {
        var s :| 0 <= s < |keys| && keys[s] == key;
        HoldsSlot(t, m, hash, keyLen, s);
      }
      SubsetSize(Elements(keys), m.Keys);
      assert false;
    }
  }

  lemma {:induction false} ElementsSize<T>(s: seq<T>)
    ensures |Elements(s)| <= |s|
  {
    if s == [] {
      assert Elements(s) == {};
    } else {
      var rest, last := s[..|s| - 1], s[|s| - 1];
      ElementsSize(rest);
      assert s == rest + [last];
      assert Elements(s) == Elements(rest) + {last};
    }
  }

  /** Every key has a slot, and the free slot `f` is not among them. */
  lemma KeysBesides(t: Table, m: map<Key, Extent>, hash: Key -> nat, keyLen: nat, f: nat)
    requires Refines(t, m, hash, keyLen) && f < |t.slots| && !Occupied(t, f)
    ensures |m| < |t.slots|
  {
    hide Refines, Linked, Holds, Occupied;
    var others := KeysBut(t, f);
    forall key | key in m.Keys
      ensures key in Elements(others)
    {
      KeyHasSlot(t, m, hash, keyLen, f, key);
    }
    SubsetSize(m.Keys, Elements(others));
    ElementsSize(others);
  }

  ghost function KeysBut(t: Table, f: nat): (keys: seq<Key>)
    requires f < |t.slots|
    ensures |keys| == |t.slots| - 1
    ensures forall i :: 0 <= i < |keys| ==> keys[i] == t.slots[if i < f then i else i + 1].key
  {
    seq(|t.slots| - 1, i requires 0 <= i < |t.slots| - 1 => t.slots[if i < f then i else i + 1].key)
  }

  lemma KeyHasSlot(t: Table, m: map<Key, Extent>, hash: Key -> nat, keyLen: nat, f: nat, key: Key)
    requires Refines(t, m, hash, keyLen) && f < |t.slots| && !Occupied(t, f) && key in m
    ensures key in KeysBut(t, f)
  {
    hide Refines;
    var s := KeySlot(t, m, hash, keyLen, key);
    assert KeysBut(t, f)[if s < f then s else s - 1] == key;
  }

  lemma KeySlot(t: Table, m: map<Key, Extent>, hash: Key -> nat, keyLen: nat, key: Key) returns (s: nat)
    requires Refines(t, m, hash, keyLen) && key in m
    ensures s < |t.slots| && Occupied(t, s) && t.slots[s].key == key
  {
    hide Linked, Reaches, Occupied;
    s :| Holds(t, m, hash, s, key);
    SlotInRange(t, s);
  }

  lemma SlotInRange(t: Table, s: nat)
    requires Occupied(t, s)
    ensures s < |t.slots|
  {
  }

  /** Some slot is free if and only if the map has fewer keys than there are slots: with as many keys the probing loop
      of `find_next_slot` finds no slot and goes on for ever. */
  lemma FreeSlotExact(t: Table, m: map<Key, Extent>, hash: Key -> nat, keyLen: nat)
    requires Refines(t, m, hash, keyLen)
    ensures (exists s: nat :: s < |t.slots| && !Occupied(t, s)) <==> |m| < |t.slots|
  {
    hide Refines;
    if |m| < |t.slots| {
      FreeSlotExists(t, m, hash, keyLen);
    }
    if s: nat :| s < |t.slots| && !Occupied(t, s) {
      KeysBesides(t, m, hash, keyLen, s);
    }
  }
}
