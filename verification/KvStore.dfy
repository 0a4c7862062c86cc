/** The values of kv_ftl.c: the storage with its append-only allocator, and what a store leaves of the values
    that are already there. */
module KvStore {
  import opened KvModel

  type Bytes = seq<bv8>

  const SMALL_LENGTH: nat := 1024

  /** The mapping as a map, the length every key was inserted with, the allocator's `latest` and the storage. */
  datatype State = State(slots: nat, index: map<Key, Extent>, room: map<Key, nat>, latest: nat, storage: Bytes)

  function InitState(slots: nat, size: nat): State {
    State(slots, map[], map[], 0, seq(size, _ => 0))
  }

  // ---------- stores ----------

  function WriteAt(storage: Bytes, offset: nat, v: Bytes): (r: Bytes)
    requires offset + |v| <= |storage|
    ensures |r| == |storage|
  {
    storage[..offset] + v + storage[offset + |v|..]
  }

  /** Copied bytes can be read back, and bytes elsewhere stay. */
  lemma WrittenSlice(storage: Bytes, offset: nat, v: Bytes, from: nat, to: nat)
    requires offset + |v| <= |storage| && from <= to <= |storage|
    ensures WriteAt(storage, offset, v)[offset..offset + |v|] == v
    ensures to <= offset || offset + |v| <= from || from == to || v == [] ==>
      WriteAt(storage, offset, v)[from..to] == storage[from..to]
  {
  }

  lemma WrittenByte(storage: Bytes, offset: nat, v: Bytes, i: nat)
    requires offset + |v| <= |storage| && offset <= i < offset + |v|
    ensures WriteAt(storage, offset, v)[i] == v[i - offset]
  {
  }

  /** A slice of a slice. */
  lemma SubSlice(a: Bytes, from: nat, lo: nat, hi: nat, to: nat)
    requires from <= lo <= hi <= to <= |a|
    ensures a[from..to][lo - from..hi - from] == a[lo..hi]
  {
    var b := a[from..to];
    forall i | 0 <= i < hi - lo
      ensures b[lo - from..hi - from][i] == a[lo..hi][i]
    {
      assert b[lo - from + i] == a[lo + i];
    }
  }

  lemma JoinSlices(a: Bytes, from: nat, mid: nat, to: nat)
    requires from <= mid <= to <= |a|
    ensures a[from..to] == a[from..mid] + a[mid..to]
  {
  }

  /** A length change is recorded only between small values. */
  function NewLength(was: nat, length: nat): nat {
    if length != was && length <= SMALL_LENGTH && was <= SMALL_LENGTH then length else was
  }

  /** The copy stays in the storage, and a new key has a free slot and an offset that the source accepts. */
  predicate Storable(s: State, key: Key, v: Bytes) {
    if key in s.index then s.index[key].offset + |v| <= |s.storage|
    else |s.index| < s.slots && s.latest < |s.storage| && s.latest + |v| <= |s.storage|
  }

  /** The store command: a new key is put behind everything allocated so far, a stored one is overwritten where
      it lies. */
  function Stored(s: State, key: Key, v: Bytes): State
    requires Storable(s, key, v)
  {
    if key in s.index then
      var e := s.index[key];
      s.(index := s.index[key := e.(length := NewLength(e.length, |v|))], storage := WriteAt(s.storage, e.offset, v))
    else
      State(s.slots, s.index[key := Extent(s.latest, |v|)], s.room[key := |v|], s.latest + |v|,
            WriteAt(s.storage, s.latest, v))
  }

  // ---------- what every store keeps ----------

  ghost predicate Apart(a: Extent, roomA: nat, b: Extent, roomB: nat) {
    a.offset + roomA <= b.offset || b.offset + roomB <= a.offset
  }

  /** Every key owns the stretch it was inserted with, and no two stretches overlap. */
  ghost predicate Layout(index: map<Key, Extent>, room: map<Key, nat>, latest: nat) {
    && room.Keys == index.Keys
    && (forall k :: k in index ==> index[k].offset + room[k] <= latest)
    && (forall j, k :: j in index && k in index && j != k ==> Apart(index[j], room[j], index[k], room[k]))
  }

  ghost predicate InBounds(e: Extent, n: nat) {
    e.offset + e.length <= n
  }

  ghost predicate StateOk(s: State) {
    && Layout(s.index, s.room, s.latest) && s.latest <= |s.storage|
    && forall k :: k in s.index ==> InBounds(s.index[k], |s.storage|)
  }

  /** Every value lies in the stretch of its key. */
  ghost predicate Fits(s: State) {
    s.room.Keys == s.index.Keys && forall k :: k in s.index ==> s.index[k].length <= s.room[k]
  }

  lemma InitOk(slots: nat, size: nat)
    ensures StateOk(InitState(slots, size)) && Fits(InitState(slots, size))
  {
  }

  lemma UpdatedLayout(index: map<Key, Extent>, room: map<Key, nat>, latest: nat, key: Key, length: nat)
    requires Layout(index, room, latest) && key in index
    ensures Layout(index[key := index[key].(length := length)], room, latest)
  {
    var n := index[key := index[key].(length := length)];
    forall j, k | j in n && k in n && j != k
      ensures Apart(n[j], room[j], n[k], room[k])
    {
      assert Apart(index[j], room[j], index[k], room[k]);
    }
  }

  lemma UpdatedOk(s: State, key: Key, v: Bytes)
    requires StateOk(s) && Storable(s, key, v) && key in s.index
    ensures StateOk(Stored(s, key, v))
  {
    hide WriteAt, Layout;
    UpdatedLayout(s.index, s.room, s.latest, key, NewLength(s.index[key].length, |v|));
  }

  lemma InsertedOk(s: State, key: Key, v: Bytes)
    requires StateOk(s) && Storable(s, key, v) && key !in s.index
    ensures StateOk(Stored(s, key, v))
  {
    hide WriteAt;
  }

  lemma StoredOk(s: State, key: Key, v: Bytes)
    requires StateOk(s) && Storable(s, key, v)
    ensures StateOk(Stored(s, key, v))
  {
    if key in s.index {
      UpdatedOk(s, key, v);
    } else {
      InsertedOk(s, key, v);
    }
    hide Stored, StateOk;
  }

  /** An update no longer than the stretch of its key leaves every value in its stretch. */
  lemma StoredFits(s: State, key: Key, v: Bytes)
    requires StateOk(s) && Fits(s) && Storable(s, key, v) && (key in s.index ==> |v| <= s.room[key])
    ensures Fits(Stored(s, key, v))
  {
  }

  // ---------- values ----------

  lemma Bounded(s: State, key: Key)
    requires StateOk(s) && key in s.index
    ensures s.index[key].offset + s.index[key].length <= |s.storage|
  {
    assert InBounds(s.index[key], |s.storage|);
  }

  ghost function ValueOf(s: State, key: Key): Bytes
    requires StateOk(s) && key in s.index
  {
    assert InBounds(s.index[key], |s.storage|);
    s.storage[s.index[key].offset..s.index[key].offset + s.index[key].length]
  }

  /** What becomes of a stored value. */
  function Overwritten(was: Bytes, v: Bytes): (r: Bytes)
    ensures |r| == if |was| <= 1024 && |v| <= 1024 then |v| else |was|
    ensures forall i :: 0 <= i < |r| ==> r[i] == if i < |v| then v[i] else was[i]
  {
    if NewLength(|was|, |v|) == |v| then v
    else if |v| >= |was| then v[..|was|] else v + was[|v|..]
  }

  /** The stored key has its new value: for a new key the bytes of the command, for another what the recorded
      length leaves of them. */
  lemma StoredValue(s: State, key: Key, v: Bytes)
    requires StateOk(s) && Storable(s, key, v)
    ensures StateOk(Stored(s, key, v)) && key in Stored(s, key, v).index
    ensures ValueOf(Stored(s, key, v), key) == if key in s.index then Overwritten(ValueOf(s, key), v) else v
  {
    StoredOk(s, key, v);
    hide StateOk, WriteAt;
    if key in s.index {
      OverwrittenValue(s, key, v);
    } else {
      WrittenSlice(s.storage, s.latest, v, 0, 0);
    }
  }

  lemma OverwrittenValue(s: State, key: Key, v: Bytes)
    requires StateOk(s) && Storable(s, key, v) && key in s.index && StateOk(Stored(s, key, v))
    ensures ValueOf(Stored(s, key, v), key) == Overwritten(ValueOf(s, key), v)
  {
    hide StateOk, WriteAt, Meets;
    Bounded(s, key);
    var offset, was := s.index[key].offset, ValueOf(s, key);
    var r := WriteAt(s.storage, offset, v);
    WrittenSlice(s.storage, offset, v, 0, 0);
    if NewLength(|was|, |v|) == |v| {
      assert Overwritten(was, v) == v;
    } else if |v| >= |was| {
      SubSlice(r, offset, offset, offset + |was|, offset + |v|);
    } else {
      WrittenSlice(s.storage, offset, v, offset + |v|, offset + |was|);
      JoinSlices(r, offset, offset + |v|, offset + |was|);
      SubSlice(s.storage, offset, offset + |v|, offset + |was|, offset + |was|);
    }
  }

  /** What a store does, byte by byte: the copy goes behind everything allocated or to the offset of the key, and the
      recorded length changes only if the old and the new one are at most 1024. */
  lemma StoreExact(s: State, key: Key, v: Bytes)
    requires StateOk(s) && Storable(s, key, v)
    ensures var t := Stored(s, key, v);
      var at := if key in s.index then s.index[key].offset else s.latest;
      && |t.storage| == |s.storage| && t.slots == s.slots && at + |v| <= |s.storage|
      && (forall i :: 0 <= i < |s.storage| ==> t.storage[i] == if at <= i < at + |v| then v[i - at] else s.storage[i])
      && (forall k :: k in t.index <==> k in s.index || k == key)
      && (forall k :: k in s.index && k != key ==>
            t.index[k] == s.index[k] && k in s.room && k in t.room && t.room[k] == s.room[k])
      && t.index[key].offset == at && key in t.room
      && (key !in s.index ==> t.index[key].length == t.room[key] == |v| && t.latest == s.latest + |v|)
      && (key in s.index ==>
            && t.room[key] == s.room[key] && t.latest == s.latest
            && t.index[key].length == if s.index[key].length <= 1024 && |v| <= 1024 then |v| else s.index[key].length)
  {
    hide Apart, InBounds;
  }

  /** The bytes of a copy and of an extent have a byte in common. */
  predicate Meets(offset: nat, length: nat, e: Extent) {
    length > 0 && e.length > 0 && offset < e.offset + e.length && e.offset < offset + length
  }

  /** The first byte a store copies to. */
  function TargetOf(s: State, key: Key): nat {
    if key in s.index then s.index[key].offset else s.latest
  }

  /** Storing `v` under `key` leaves the value of `k`. */
  ghost predicate KeepsValue(s: State, key: Key, v: Bytes, k: Key)
    requires StateOk(s) && Storable(s, key, v) && k in s.index
  {
    var t := Stored(s, key, v);
    StateOk(t) && k in t.index && ValueOf(t, k) == ValueOf(s, k)
  }

  /** A store leaves the value of a key it does not reach. */
  lemma StoredKeepsOther(s: State, key: Key, v: Bytes, k: Key)
    requires StateOk(s) && Storable(s, key, v) && k in s.index && k != key
    requires !Meets(TargetOf(s, key), |v|, s.index[k])
    ensures KeepsValue(s, key, v, k)
  {
    hide StateOk, WriteAt, NewLength;
    StoredOk(s, key, v);
    Bounded(s, k);
    WrittenSlice(s.storage, TargetOf(s, key), v, s.index[k].offset, s.index[k].offset + s.index[k].length);
  }

  /** A store that puts another byte into the value of `k` changes it. */
  lemma ChangedByte(s: State, key: Key, v: Bytes, k: Key, i: nat)
    requires StateOk(s) && Storable(s, key, v) && key in s.index && k in s.index && k != key
    requires var offset, e := s.index[key].offset, s.index[k];
      && offset <= i < offset + |v| && e.offset <= i < e.offset + e.length <= |s.storage|
      && v[i - offset] != s.storage[i]
    ensures !KeepsValue(s, key, v, k)
  {
    hide StateOk, WriteAt;
    var offset, e := s.index[key].offset, s.index[k];
    WrittenByte(s.storage, offset, v, i);
    var t := Stored(s, key, v);
    assert t.storage[e.offset..e.offset + e.length][i - e.offset] == v[i - offset];
    assert s.storage[e.offset..e.offset + e.length][i - e.offset] == s.storage[i];
  }

  /** Some bytes of any given length change the value of a key that the store reaches: one byte in common is
      replaced by another. */
  lemma StoredChangesOther(s: State, key: Key, length: nat, k: Key) returns (v: Bytes)
    requires StateOk(s) && key in s.index && k in s.index && k != key
    requires s.index[key].offset + length <= |s.storage| && Meets(s.index[key].offset, length, s.index[k])
    ensures |v| == length && Storable(s, key, v) && !KeepsValue(s, key, v, k)
  {
    hide StateOk, KeepsValue;
    Bounded(s, k);
    var offset, e := s.index[key].offset, s.index[k];
    var i := if offset >= e.offset then offset else e.offset;
    v := s.storage[offset..offset + length][i - offset := if s.storage[i] == 0 then 1 else 0];
    ChangedByte(s, key, v, k, i);
  }

  /** Storing any `length` bytes under `key` leaves the values of all other keys. */
  ghost predicate KeepsOthers(s: State, key: Key, length: nat)
    requires StateOk(s)
  {
    forall v: Bytes, k :: |v| == length && Storable(s, key, v) && k in s.index && k != key ==> KeepsValue(s, key, v, k)
  }

  /** An update of a given length is safe for the other keys if and only if no other key has a byte in what it
      overwrites. */
  lemma UpdateKeepsOthersExact(s: State, key: Key, length: nat)
    requires StateOk(s) && key in s.index && s.index[key].offset + length <= |s.storage|
    ensures KeepsOthers(s, key, length)
      <==> forall k :: k in s.index && k != key ==> !Meets(s.index[key].offset, length, s.index[k])
  {
    hide StateOk, KeepsValue, Meets;
    if forall k :: k in s.index && k != key ==> !Meets(s.index[key].offset, length, s.index[k]) {
      forall v: Bytes, k | |v| == length && Storable(s, key, v) && k in s.index && k != key
        ensures KeepsValue(s, key, v, k)
      {
        StoredKeepsOther(s, key, v, k);
      }
    } else {
      var k :| k in s.index && k != key && Meets(s.index[key].offset, length, s.index[k]);
      var v := StoredChangesOther(s, key, length, k);
    }
  }

  /** While every value lies in its stretch, only the bytes behind the stretch of the key matter, so an update no
      longer than the stretch is always safe. */
  lemma UpdateBeyondStretch(s: State, key: Key, length: nat)
    requires StateOk(s) && Fits(s) && key in s.index && s.index[key].offset + length <= |s.storage|
    ensures length <= s.room[key] ==> KeepsOthers(s, key, length)
    ensures length > s.room[key] ==>
      (KeepsOthers(s, key, length)
       <==> forall k :: k in s.index && k != key ==>
              !Meets(s.index[key].offset + s.room[key], length - s.room[key], s.index[k]))
  {
    UpdateKeepsOthersExact(s, key, length);
    forall k | k in s.index && k != key
      ensures Meets(s.index[key].offset, length, s.index[k])
        <==> length > s.room[key] && Meets(s.index[key].offset + s.room[key], length - s.room[key], s.index[k])
    {
      assert Apart(s.index[key], s.room[key], s.index[k], s.room[k]);
    }
    hide StateOk, Fits, Meets, KeepsOthers;
  }

  /** Inserting a key never changes another value while every value lies in its stretch. */
  lemma InsertKeepsOthers(s: State, key: Key, length: nat)
    requires StateOk(s) && Fits(s) && key !in s.index
    ensures KeepsOthers(s, key, length)
  {
    hide KeepsValue;
    forall v: Bytes, k | |v| == length && Storable(s, key, v) && k in s.index && k != key
      ensures KeepsValue(s, key, v, k)
    {
      StoredKeepsOther(s, key, v, k);
    }
  }

  // ---------- runs ----------

  datatype Put = Put(key: Key, value: Bytes)

  predicate Possible(s: State, puts: seq<Put>)
    decreases |puts|
  {
    puts == [] ||
    (Storable(s, puts[0].key, puts[0].value) && Possible(Stored(s, puts[0].key, puts[0].value), puts[1..]))
  }

  function PutAll(s: State, puts: seq<Put>): State
    requires Possible(s, puts)
    decreases |puts|
  {
    if puts == [] then s else PutAll(Stored(s, puts[0].key, puts[0].value), puts[1..])
  }

  /** No update of the run outgrows the stretch of its key. */
  predicate Fitting(s: State, puts: seq<Put>)
    requires Possible(s, puts)
    decreases |puts|
  {
    puts == [] ||
    var key, v := puts[0].key, puts[0].value;
    (key in s.index ==> key in s.room && |v| <= s.room[key]) && Fitting(Stored(s, key, v), puts[1..])
  }

  /** The map that the stores build. */
  function Updated(values: map<Key, Bytes>, put: Put): map<Key, Bytes> {
    values[put.key := if put.key in values then Overwritten(values[put.key], put.value) else put.value]
  }

  function MapAfter(values: map<Key, Bytes>, puts: seq<Put>): map<Key, Bytes>
    decreases |puts|
  {
    if puts == [] then values else MapAfter(Updated(values, puts[0]), puts[1..])
  }

  /** The storage holds the values of the map. */
  ghost predicate Represents(s: State, values: map<Key, Bytes>) {
    && StateOk(s) && values.Keys == s.index.Keys
    && forall k :: k in s.index ==> ValueOf(s, k) == values[k]
  }

  lemma RepresentsOk(s: State, values: map<Key, Bytes>)
    requires Represents(s, values)
    ensures StateOk(s)
  {
  }

  lemma StoredRepresents(s: State, values: map<Key, Bytes>, put: Put)
    requires Represents(s, values) && Fits(s) && Storable(s, put.key, put.value)
    requires put.key in s.index ==> |put.value| <= s.room[put.key]
    ensures Represents(Stored(s, put.key, put.value), Updated(values, put)) && Fits(Stored(s, put.key, put.value))
  {
    hide StateOk, WriteAt, ValueOf, Overwritten, NewLength, Fits;
    var t := Stored(s, put.key, put.value);
    StoredFits(s, put.key, put.value);
    StoredValue(s, put.key, put.value);
    if put.key in s.index {
      UpdateBeyondStretch(s, put.key, |put.value|);
    } else {
      InsertKeepsOthers(s, put.key, |put.value|);
    }
    assert t.index.Keys == Updated(values, put).Keys;
    forall k | k in t.index
      ensures ValueOf(t, k) == Updated(values, put)[k]
    {
    }
  }

  /** Over every run of stores in which no update outgrows the stretch of its key, the storage holds exactly the
      map that the stores build. */
  lemma {:induction false} RunRepresents(s: State, values: map<Key, Bytes>, puts: seq<Put>)
    requires Represents(s, values) && Fits(s) && Possible(s, puts) && Fitting(s, puts)
    ensures Represents(PutAll(s, puts), MapAfter(values, puts))
    decreases |puts|
  {
    if puts != [] {
      StoredRepresents(s, values, puts[0]);
      hide Represents, Fits, Stored, Storable, Updated;
      RunRepresents(Stored(s, puts[0].key, puts[0].value), Updated(values, puts[0]), puts[1..]);
    }
  }

  /** The device after two keys have been stored into an empty one. */
  lemma TwoInserts(slots: nat, size: nat, a: Key, b: Key, x: Bytes, y: Bytes)
    requires a != b && slots >= 2 && |x| > 0 && |y| > 0 && |x| + |y| <= size
    ensures var s := InitState(slots, size);
      && Storable(s, a, x) && Storable(Stored(s, a, x), b, y)
      && var s2 := Stored(Stored(s, a, x), b, y);
      && s2.index == map[a := Extent(0, |x|), b := Extent(|x|, |y|)]
      && Represents(s2, map[a := x, b := y]) && Fits(s2)
  {
    hide StateOk, Fits, ValueOf, Overwritten, WriteAt;
    var s := InitState(slots, size);
    InitOk(slots, size);
    StoredRepresents(s, map[], Put(a, x));
    StoredRepresents(Stored(s, a, x), map[a := x], Put(b, y));
    assert Updated(map[], Put(a, x)) == map[a := x];
    assert Updated(map[a := x], Put(b, y)) == map[a := x, b := y];
  }

  /** An update that outgrows its stretch: in an empty device `x` and `y` are stored under two keys; storing
      bytes of both lengths under the first then replaces the value of the second. */
  lemma GrowingUpdateOverwrites(slots: nat, size: nat, a: Key, b: Key, x: Bytes, y: Bytes, v: Bytes)
    requires a != b && slots >= 2 && |x| > 0 && |y| > 0 && |v| == |x| + |y| <= size
    ensures var s := InitState(slots, size);
      && Storable(s, a, x) && Storable(Stored(s, a, x), b, y)
      && var s2 := Stored(Stored(s, a, x), b, y);
      && Represents(s2, map[a := x, b := y]) && Storable(s2, a, v)
      && var t := Stored(s2, a, v);
      && StateOk(t) && b in t.index && ValueOf(t, b) == v[|x|..]
  {
    hide Represents, Fits, Overwritten, StateOk, WriteAt;
    TwoInserts(slots, size, a, b, x, y);
    var s2 := Stored(Stored(InitState(slots, size), a, x), b, y);
    RepresentsOk(s2, map[a := x, b := y]);
    StoredOk(s2, a, v);
    WrittenSlice(s2.storage, 0, v, 0, 0);
    SubSlice(WriteAt(s2.storage, 0, v), 0, |x|, |v|, |v|);
  }
}
