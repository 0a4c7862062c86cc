/** The mapping table and the store and retrieve commands of kv_ftl.c, over the append-only allocator. */
module KvFtl {
  import opened KvModel
  import opened KvStore

  /** How many slots a probe that starts at `from` has passed when it comes to `to`. */
  function StepsTo(n: nat, from: nat, to: nat): nat
    requires from < n && to < n
  {
    if from <= to then to - from else to + n - from
  }

  /** `kv_mapping_table`. */
  class MappingTable {
    const slots: array<Entry>
    const hash: Key -> nat
    const keyLen: nat
    ghost var rank: seq<nat>
    ghost var count: nat
    ghost var index: map<Key, Extent>

    ghost function Tab(): Table
      reads this, slots
    {
      Table(slots[..], rank, count)
    }

    ghost predicate Valid()
      reads this, slots
    {
      Refines(Tab(), index, hash, keyLen)
    }

    constructor (hashSlots: nat, hash: Key -> nat, keyLen: nat)
      requires hashSlots > 0
      ensures Valid() && fresh(slots) && index == map[]
      ensures slots.Length == hashSlots && this.hash == hash && this.keyLen == keyLen
    {
      slots := new Entry[hashSlots](_ => FREE);
      this.hash := hash;
      this.keyLen := keyLen;
      rank := seq(hashSlots, _ => 0);
      count := 0;
      index := map[];
      new;
      forall s: nat | s < |Tab().slots|
        ensures LinkOk(Tab(), s)
      {
      }
    }

    /** `get_hash_slot`. */
    function HashSlot(key: Key): nat
      requires slots.Length > 0
    {
      Home(hash, slots.Length, key)
    }

    /** The chain search of `get_mapping_entry` and `update_mapping_entry`: -1 when the key is absent. */
    method FindSlot(key: Key) returns (found: int)
      requires Valid() && |key| == keyLen
      ensures found == -1 <==> key !in index
      ensures found != -1 ==> 0 <= found < slots.Length && Holds(Tab(), index, hash, found, key)
    {
      hide Refines, Linked, LinkOk, Reaches, Holds, Searching;
      ghost var t := Tab();
      SearchStarts(t, index, hash, keyLen, key);
      found := -1;
      var slot := HashSlot(key);
      while slots[slot].offset != -1
        invariant 0 <= slot < slots.Length && Searching(t, index, hash, key, slot)
        decreases count - rank[slot]
      {
        SearchStep(t, index, hash, keyLen, key, slot);
        if slots[slot].key[..|key|] == key {
          found := slot;
          return;
        }
        slot := slots[slot].next;
        if slot == -1 {
          return;
        }
      }
      SearchStep(t, index, hash, keyLen, key, slot);
    }

    /** `get_mapping_entry`: the offset is -1 when the key is absent. */
    method GetMappingEntry(key: Key) returns (entry: Entry)
      requires Valid() && |key| == keyLen
      ensures key !in index ==> entry.offset == -1
      ensures key in index ==> entry.key == key && entry.offset == index[key].offset && entry.length == index[key].length
    {
      entry := FREE;
      var slot := FindSlot(key);
      if slot != -1 {
        entry := slots[slot];
      }
    }

    /** `find_next_slot`: the tail of the chain and the first free slot behind it. The probing ends because
        some slot is free. */
    method FindNextSlot(original: nat) returns (slot: nat, prev: nat)
      requires Valid() && Occupied(Tab(), original)
      requires exists s: nat :: s < slots.Length && !Occupied(Tab(), s)
      ensures slot < slots.Length && !Occupied(Tab(), slot)
      ensures Reaches(Tab(), original, prev) && Tab().slots[prev].next == -1
      ensures forall u: nat :: u < slots.Length && StepsTo(slots.Length, prev, u) < StepsTo(slots.Length, prev, slot) ==>
        Occupied(Tab(), u)
    {
      hide Refines, Linked, LinkOk, Reaches, Holds;
      ghost var t := Tab();
      SearchStarts(t, index, hash, keyLen, []);
      OnItself(t, original);
      var tail: int := original;
      prev := original;
      while slots[tail].offset != -1
        invariant 0 <= tail < slots.Length && Reaches(t, original, tail)
        decreases count - rank[tail]
      {
        TailStep(t, original, tail);
        prev := tail;
        tail := slots[tail].next;
        if tail == -1 {
          break;
        }
      }
      TailStep(t, original, prev);
      slot := prev;
      ghost var free: nat :| free < slots.Length && !Occupied(Tab(), free);
      while slots[slot].offset != -1
        invariant slot < slots.Length && StepsTo(slots.Length, prev, slot) <= StepsTo(slots.Length, prev, free)
        invariant forall u: nat :: u < slots.Length && StepsTo(slots.Length, prev, u) < StepsTo(slots.Length, prev, slot) ==>
          Occupied(Tab(), u)
        decreases if slot <= free then free - slot else free - slot + slots.Length
      {
        slot := slot + 1;
        if slot >= slots.Length {
          slot := 0;
        }
      }
    }

    /** `new_mapping_entry`. */
    method NewMappingEntry(key: Key, length: nat, offset: nat)
      requires Valid() && |key| == keyLen && key !in index && |index| < slots.Length
      modifies this, slots
      ensures Valid() && index == old(index)[key := Extent(offset, length)]
    {
      hide Refines, Linked, LinkOk, Reaches, Holds;
      ghost var t := Tab();
      SearchStarts(t, index, hash, keyLen, key);
      FreeSlotExists(t, index, hash, keyLen);
      var slot := HashSlot(key);
      var prev := -1;
      if slots[slot].offset != -1 {
        slot, prev := FindNextSlot(slot);
      }
      ghost var entry := Entry(key, offset, -1, length);
      InsertRefines(t, index, hash, keyLen, slot, prev, entry);
      slots[slot] := slots[slot].(key := key);
      slots[slot] := slots[slot].(offset := offset);
      slots[slot] := slots[slot].(length := length);
      if prev != -1 {
        slots[prev] := slots[prev].(next := slot);
      }
      rank, count, index := rank[slot := count], count + 1, index[key := Extent(offset, length)];
      assert Tab() == Inserted(t, slot, prev, entry);
    }

    /** `update_mapping_entry`: 1 when the key is absent. */
    method UpdateMappingEntry(key: Key, length: nat) returns (r: nat)
      requires Valid() && |key| == keyLen
      modifies this, slots
      ensures Valid()
      ensures r == if key in old(index) then 0 else 1
      ensures index == if r == 0 then old(index)[key := old(index)[key].(length := length)] else old(index)
    {
      var slot := FindSlot(key);
      if slot == -1 {
        return 1;
      }
      ghost var t := Tab();
      UpdateRefines(t, index, hash, keyLen, slot, length);
      slots[slot] := slots[slot].(length := length);
      index := index[key := index[key].(length := length)];
      assert Tab() == WithLength(t, slot, length);
      r := 0;
    }
  }

  // ---------- the device ----------

  datatype Status = KvSuccess | KvErrKeyNotExist

  class KvSsd {
    const table: MappingTable
    const storage: array<bv8>
    var latest: nat
    ghost var room: map<Key, nat>

    ghost function St(): State
      reads this, table, storage
    {
      State(table.slots.Length, table.index, room, latest, storage[..])
    }

    ghost predicate Valid()
      reads this, table, table.slots, storage
    {
      storage as object != table.slots as object && table.Valid() && StateOk(St())
    }

    constructor (hashSlots: nat, hash: Key -> nat, keyLen: nat, size: nat)
      requires hashSlots > 0
      ensures Valid() && fresh(table) && fresh(table.slots) && fresh(storage)
      ensures St() == InitState(hashSlots, size) && table.keyLen == keyLen
    {
      table := new MappingTable(hashSlots, hash, keyLen);
      storage := new bv8[size](_ => 0);
      latest := 0;
      room := map[];
      new;
      assert storage[..] == InitState(hashSlots, size).storage;
      InitOk(hashSlots, size);
    }

    /** `append_only_allocate`. */
    method AllocateMem(length: nat) returns (offset: nat)
      modifies this`latest
      ensures offset == old(latest) && latest == old(latest) + length
    {
      offset := latest;
      latest := latest + length;
    }

    /** `memcpy` to the storage. */
    method CopyIn(offset: nat, v: Bytes)
      requires offset + |v| <= storage.Length
      modifies storage
      ensures storage[..] == WriteAt(old(storage[..]), offset, v)
    {
      var i := 0;
      while i < |v|
        invariant 0 <= i <= |v|
        invariant storage[..] == WriteAt(old(storage[..]), offset, v[..i])
      {
        storage[offset + i] := v[i];
        i := i + 1;
      }
      assert v[..i] == v;
    }

    /** The store command, for updates of any length: the value goes where the key already is, also where that
        reaches beyond the stretch the key was inserted with. */
    method Store(key: Key, v: Bytes)
      requires Valid() && |key| == table.keyLen && Storable(St(), key, v)
      modifies this, table, table.slots, storage
      ensures Valid() && St() == Stored(old(St()), key, v)
    {
      hide StateOk, WriteAt, Refines;
      StoredOk(St(), key, v);
      var entry := table.GetMappingEntry(key);
      ghost var t := table.Tab();
      if entry.offset == -1 {
        var offset := AllocateMem(|v|);
        CopyIn(offset, v);
        assert table.Tab() == t;
        table.NewMappingEntry(key, |v|, offset);
        room := room[key := |v|];
      } else {
        assert table.index == table.index[key := table.index[key].(length := entry.length)];
        CopyIn(entry.offset, v);
        assert table.Tab() == t;
        if |v| != entry.length && |v| <= SMALL_LENGTH && entry.length <= SMALL_LENGTH {
          var r := table.UpdateMappingEntry(key, |v|);
        }
      }
    }

    /** The retrieve command into a buffer of `length` bytes. */
    method Retrieve(key: Key, length: nat) returns (status: Status, v: Bytes)
      requires Valid() && |key| == table.keyLen
      ensures status == if key in St().index then KvSuccess else KvErrKeyNotExist
      ensures key !in St().index ==> v == []
      ensures key in St().index ==>
        var value := ValueOf(St(), key); v == if length < |value| then value[..length] else value
    {
      hide Refines, StateOk;
      var entry := table.GetMappingEntry(key);
      if entry.offset == -1 {
        return KvErrKeyNotExist, [];
      }
      var n := if entry.length < length then entry.length else length;
      status := KvSuccess;
      Bounded(St(), key);
      v := storage[entry.offset..entry.offset + n];
      SubSlice(storage[..], entry.offset, entry.offset, entry.offset + n, entry.offset + entry.length);
    }

    /** The exist command. */
    method Exist(key: Key) returns (status: Status)
      requires Valid() && |key| == table.keyLen
      ensures status == if key in St().index then KvSuccess else KvErrKeyNotExist
    {
      var entry := table.GetMappingEntry(key);
      status := if entry.offset == -1 then KvErrKeyNotExist else KvSuccess;
    }
  }
}
