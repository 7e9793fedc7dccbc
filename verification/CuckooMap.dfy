/** The cuckoo map: a finite map of fixed capacity over bucket, entry and free-index arrays
    (apps/cuckoo-map/cuckoo_map.h:71-115, 226-254, 271-347, 377-484, 486-566). */
module CuckooMap {
  import opened Basics
  import opened CuckooPath
  import opened CuckooTable

  /** kMaxCuckooPath */
  const MAX_PATH: nat := 3

  /** The stack of free entry indices; slot 0 of the array is never used. */
  class EntryStack {
    var head: nat
    const size: nat
    const stck: array<nat>

    ghost predicate Valid()
      reads this
    {
      stck.Length == size + 1 && head <= size
    }

    ghost function Items(): seq<nat>
      reads this, stck
      requires Valid()
    {
      stck[1..head + 1]
    }

    constructor (n: nat)
      ensures Valid() && size == n && Items() == [] && fresh(stck)
    {
      size, head := n, 0;
      stck := new nat[n + 1](_ => 0);
    }

    method Push(entry: nat) returns (ok: bool)
      requires Valid()
      modifies this, stck
      ensures Valid() && (ok <==> old(head) < size)
      ensures Items() == if ok then old(Items()) + [entry] else old(Items())
    {
      if head >= size {
        return false;
      }
      head := head + 1;
      stck[head] := entry;
      return true;
    }

    /** Top and Pop together. */
    method Pop() returns (r: Option<nat>)
      requires Valid()
      modifies this
      ensures Valid() && (r.None? <==> old(Items()) == [])
      ensures r.None? ==> Items() == []
      ensures r.Some? ==> old(Items()) == Items() + [r.value]
    {
      if head == 0 {
        return None;
      }
      r := Some(stck[head]);
      head := head - 1;
    }
  }

  class CuckooMap<K(==), V> {
    const hasher: K -> bv32
    const buckets: array<Bucket>
    const entries: array<Entry<K, V>>
    const free: EntryStack
    var num: nat
    ghost var where: map<nat, (nat, nat)>
    ghost var index: map<K, nat>

    ghost function Tab(): Table
      reads this, buckets
    {
      Table(buckets[..], where)
    }

    ghost predicate Shaped()
      reads this, buckets, entries, free, free.stck
    {
      free.Valid() && free.size == entries.Length && Shape(Tab())
    }

    ghost predicate Valid()
      reads this, buckets, entries, free, free.stck
    {
      && Shaped() && CuckooTable.Valid(Tab(), entries[..], hasher) && Indexed(entries[..], where, index)
      && Partition(where, free.Items(), entries.Length) && num == |where|
    }

    /** The map it stands for. */
    ghost function Contents(): map<K, V>
      reads this, buckets, entries, free, free.stck
      requires Valid()
    {
      ContentsOf(entries[..], index, where)
    }

    /** There is an entry for every slot. */
    predicate Roomy() {
      SLOTS * buckets.Length <= entries.Length
    }

    /** Indices do not run out before slots do: there is an entry for every slot, or at least one is free. */
    predicate Spare()
      reads this
    {
      Roomy() || num < entries.Length
    }

    /** An empty map; every index is free (Create and Clear). */
    constructor (hasher: K -> bv32, nEntries: nat, nBuckets: nat)
      requires 0 < nBuckets
      ensures Valid() && Contents() == map[] && this.hasher == hasher
      ensures buckets.Length == nBuckets && entries.Length == nEntries
    {
      this.hasher, num, where, index := hasher, 0, map[], map[];
      buckets := new Bucket[nBuckets](_ => Bucket([0, 0, 0, 0], [0, 0, 0, 0]));
      entries := new Entry<K, V>[nEntries](_ => NoEntry);
      free := new EntryStack(nEntries);
      new;
      FillFree(free);
      assert forall x :: 0 <= x < nEntries ==> x in free.Items();
    }

    /** Create refuses sizes of zero, bucket numbers that are not powers of two and fewer entries than buckets. */
    static method Create(hasher: K -> bv32, nEntries: nat, nBuckets: nat) returns (c: Option<CuckooMap<K, V>>)
      ensures c.None? <==> nEntries == 0 || !IsPowerOfTwo(nBuckets) || nEntries < nBuckets
      ensures c.Some? ==> fresh(c.value) && c.value.Valid() && c.value.Contents() == map[] && c.value.hasher == hasher
    {
      if nEntries == 0 || !IsPowerOfTwo(nBuckets) || nEntries < nBuckets {
        return None;
      }
      var m := new CuckooMap(hasher, nEntries, nBuckets);
      return Some(m);
    }

    /** First empty slot of a bucket, or -1 if it is full. */
    method FindEmptySlot(b: nat) returns (j: int)
      requires Shape(Tab()) && b < buckets.Length
      ensures j == FirstEmpty(Tab(), b, 0)
      ensures -1 <= j < SLOTS && (j == -1 <==> Full(Tab(), b)) && (j >= 0 ==> !Used(Tab(), b, j))
    {
      for i := 0 to SLOTS
        invariant FirstEmpty(Tab(), b, 0) == FirstEmpty(Tab(), b, i)
      {
        if buckets[b].hash[i] == 0 {
          return i;
        }
      }
      return -1;
    }

    /** Slot of the bucket that holds this key, or -1. */
    method FindSlot(b: nat, primary: bv32, key: K) returns (j: int)
      requires Valid() && b < buckets.Length && primary == Hash(hasher, key)
      ensures -1 <= j < SLOTS
      ensures j >= 0 ==> key in index && where[index[key]] == (b, j) && buckets[b].idx[j] == index[key]
      ensures j == -1 && key in index ==> where[index[key]].0 != b
    {
      hide Hash, HashSecondary, IndexOf, CuckooTable.Valid, Partition;
      if key in index {
        KeyAtHome(Tab(), entries[..], hasher, index, key);
      }
      for i := 0 to SLOTS
        invariant key in index ==> forall k :: 0 <= k < i ==> where[index[key]] != (b, k)
      {
        SlotKey(Tab(), entries[..], hasher, index, b, i, key);
        if buckets[b].hash[i] == primary && entries[buckets[b].idx[i]].key == key {
          return i;
        }
      }
      return -1;
    }

    method FindWithHash(primary: bv32, key: K) returns (r: Option<nat>)
      requires Valid() && primary == Hash(hasher, key)
      ensures r == if key in index then Some(index[key]) else None
    {
      hide Hash, HashSecondary, IndexOf, CuckooTable.Valid, Partition;
      if key in index {
        KeyAtHome(Tab(), entries[..], hasher, index, key);
      }
      var j := FindSlot(IndexOf(primary, buckets.Length), primary, key);
      if j >= 0 {
        return Some(buckets[IndexOf(primary, buckets.Length)].idx[j]);
      }
      var second := IndexOf(HashSecondary(primary), buckets.Length);
      j := FindSlot(second, primary, key);
      if j >= 0 {
        return Some(buckets[second].idx[j]);
      }
      return None;
    }

    method Find(key: K) returns (r: Option<V>)
      requires Valid()
      ensures r == if key in Contents() then Some(Contents()[key]) else None
    {
      var idx := FindWithHash(Hash(hasher, key), key);
      if idx.None? {
        return None;
      }
      return Some(entries[idx.value].val);
    }

    method Count() returns (n: nat)
      requires Valid()
      ensures n == |Contents()|
    {
      CountIs();
      n := num;
    }

    lemma CountIs()
      requires Valid()
      ensures num == |Contents()|
    {
      assert Contents().Keys == index.Keys;
    }

    /** MakeSpace from depth 0, with a path of at most four: nothing has changed, or the slot returned is empty and the
        table still valid, with the same live entries. */
    method MakeSpace(at: nat, path: nat) returns (r: int)
      requires Shaped() && CuckooTable.Valid(Tab(), entries[..], hasher) && at < buckets.Length && Full(Tab(), at)
      requires path <= 4
      modifies buckets, this`where
      ensures Shaped() && CuckooTable.Valid(Tab(), entries[..], hasher) && -1 <= r < SLOTS
      ensures (Tab(), r) == MakeRoom(old(Tab()), at, path)
      ensures r == -1 ==> Tab() == old(Tab())
      ensures r >= 0 ==> !Used(Tab(), at, r) && where.Keys == old(where).Keys
      ensures r >= 0 <==> Reaches(old(Tab()), at, path)
    {
      hide CuckooTable.Valid, Full, MakeRoom, Reaches;
      RoomExactly(Tab(), at, path);
      RoomMeans(Tab(), entries[..], hasher, at, path);
      r := MakeSpaceAt(at, 0, path);
    }

    /** The recursion, for any bound on the path, does what the function of the table does. */
    method MakeSpaceAt(at: nat, depth: nat, path: nat) returns (r: int)
      requires Shaped() && CuckooTable.Valid(Tab(), entries[..], hasher) && at < buckets.Length && Full(Tab(), at)
      modifies buckets, this`where
      ensures Shaped() && -1 <= r < SLOTS
      ensures (Tab(), r) == MakeRoom(old(Tab()), at, if depth < path then path - depth else 0)
      ensures r == -1 ==> Tab() == old(Tab())
      decreases path - depth
    {
      hide CuckooTable.Valid, Full, FirstEmpty, CuckooPath.AltOf, Move, MakeRoom, TrySlots, Hash, HashSecondary;
      hide IndexOf;
      ghost var t, levels := Tab(), if depth < path then path - depth else 0;
      RoomLoop(t, at, levels);
      if depth >= path {
        return -1;
      }
      for i := 0 to SLOTS
        invariant Shaped() && Tab() == t && MakeRoom(t, at, levels) == TrySlots(t, at, i, levels)
      {
        UsedSlot(t, at, i);
        TryNext(t, at, i, levels);
        var alt := AltOf(at, i);
        var j := FindEmptySlot(alt);
        if j == -1 {
          j := MakeSpaceAt(alt, depth + 1, path);
        }
        if j >= 0 {
          MoveSlot(at, i, alt, j);
          return i;
        }
      }
      return -1;
    }

    /** The other bucket of the entry in a used slot. hash_values only ever holds primary hashes, so it is the secondary
        one; the other two outcomes of the source's test do not occur. */
    method AltOf(at: nat, i: nat) returns (alt: nat)
      requires Shaped() && CuckooTable.Valid(Tab(), entries[..], hasher)
      requires at < buckets.Length && i < SLOTS && Used(Tab(), at, i)
      ensures alt == CuckooPath.AltOf(Tab(), at, i)
      ensures alt == IndexOf(HashSecondary(buckets[at].hash[i]), buckets.Length)
    {
      hide Hash, HashSecondary, IndexOf, Remainder;
      assert Sound(Tab(), entries[..], hasher, at, i);
      var idx := buckets[at].idx[i];
      var pri := Hash(hasher, entries[idx].key);
      assert pri == buckets[at].hash[i];
      alt := OtherBucket(buckets[at].hash[i], pri, buckets.Length);
    }

    method MoveSlot(a: nat, i: nat, b: nat, j: nat)
      requires Shape(Tab()) && a < buckets.Length && b < buckets.Length && i < SLOTS && j < SLOTS
      modifies buckets, this`where
      ensures Tab() == Move(old(Tab()), a, i, b, j)
    {
      var h, x := buckets[a].hash[i], buckets[a].idx[i];
      if h != 0 {
        where := where[x := (b, j)];
      }
      buckets[b] := Bucket(buckets[b].hash[j := h], buckets[b].idx[j := x]);
      buckets[a] := buckets[a].(hash := buckets[a].hash[i := 0]);
    }

    /** Adding a new key to one of its buckets fails exactly if the bucket is full or no index is free. */
    method AddToBucket(b: nat, key: K, value: V) returns (ok: bool)
      requires Valid() && b < buckets.Length && key !in index && Home(Tab(), Hash(hasher, key), b)
      modifies this, buckets, entries, free
      ensures Valid() && (ok <==> !old(Full(Tab(), b)) && old(free.Items()) != [])
      ensures Contents() == if ok then old(Contents())[key := value] else old(Contents())
      ensures !ok ==> Unchanged(old(Tab()), old(entries[..]), old(free.Items()), old(index), old(num))
      ensures ok ==> Put(old(Tab()), Tab(), b, Hash(hasher, key))
    {
      hide Hash, HashSecondary, IndexOf, CuckooTable.Valid, Partition, Indexed;
      var j := FindEmptySlot(b);
      if j == -1 {
        return false;
      }
      ghost var t, es := Tab(), entries[..];
      var x := free.Pop();
      if x.None? {
        return false;
      }
      FillIndex(es, where, index, free.Items(), x.value, (b, j), key, value);
      FillKeeps(t, es, hasher, b, j, x.value, key, value);
      where, index := where[x.value := (b, j)], index[key := x.value];
      buckets[b] := Bucket(buckets[b].hash[j := Hash(hasher, key)], buckets[b].idx[j := x.value]);
      entries[x.value] := Entry(key, value);
      num := num + 1;
      assert Tab() == Fill(t, b, j, Hash(hasher, key), x.value);
      assert entries[..] == es[x.value := Entry(key, value)];
      FilledPut(t, Tab(), b, j, Hash(hasher, key), x.value);
      return true;
    }

    ghost predicate Unchanged(t: Table, es: seq<Entry<K, V>>, items: seq<nat>, ix: map<K, nat>, n: nat)
      reads this, buckets, entries, free, free.stck
    {
      free.Valid() && Tab() == t && entries[..] == es && free.Items() == items && index == ix && num == n
    }

    /** An empty slot means a free index. */
    lemma HasFree(b: nat)
      requires Valid() && Spare() && b < buckets.Length && !Full(Tab(), b)
      ensures free.Items() != []
    {
      if Roomy() {
        var i :| 0 <= i < SLOTS && !Used(Tab(), b, i);
        SpareSlot(Tab(), entries[..], hasher, b, i);
      }
    }

    /** A new key: into its primary bucket, its secondary one, or a slot freed in either; one retry is enough. It fails
        exactly if both buckets are full and no path of at most three moves frees a slot in either. */
    method AddEntry(key: K, value: V) returns (ok: bool)
      requires Valid() && Spare() && key !in index
      modifies this, buckets, entries, free
      ensures Valid()
      ensures Contents() == if ok then old(Contents())[key := value] else old(Contents())
      ensures !ok ==> Unchanged(old(Tab()), old(entries[..]), old(free.Items()), old(index), old(num))
      ensures ok <==> Admits(old(Tab()), Hash(hasher, key))
      ensures ok ==> Added(old(Tab()), Tab(), Hash(hasher, key))
    {
      hide Hash, HashSecondary, IndexOf, CuckooTable.Valid, Partition, Indexed, MakeRoom, Full, Reaches, Put;
      var primary := IndexOf(Hash(hasher, key), buckets.Length);
      var secondary := IndexOf(HashSecondary(Hash(hasher, key)), buckets.Length);
      ghost var spaced := false;
      while true
        invariant Valid() && Spare() && index == old(index) && Contents() == old(Contents())
        invariant spaced ==> !Full(Tab(), primary) || !Full(Tab(), secondary)
        invariant spaced ==> Admits(old(Tab()), Hash(hasher, key)) && Tab() == Roomed(old(Tab()), Hash(hasher, key))
        invariant !spaced ==> Unchanged(old(Tab()), old(entries[..]), old(free.Items()), old(index), old(num))
        decreases !spaced
      {
        if !Full(Tab(), primary) {
          HasFree(primary);
        }
        ok := AddToBucket(primary, key, value);
        if ok {
          return;
        }
        if !Full(Tab(), secondary) {
          HasFree(secondary);
        }
        ok := AddToBucket(secondary, key, value);
        if ok {
          return;
        }
        ghost var was := where;
        BothFull(Tab(), Hash(hasher, key));
        var r := MakeSpace(primary, MAX_PATH);
        if r >= 0 {
          NotFull(Tab(), primary, r);
        } else {
          r := MakeSpace(secondary, MAX_PATH);
          if r == -1 {
            return false;
          }
          NotFull(Tab(), secondary, r);
        }
        MovedIndex(entries[..], was, where, index, free.Items());
        spaced := true;
      }
    }

    /** Insert or update. A new key is refused exactly if the table does not admit it. */
    method Insert(key: K, value: V) returns (ok: bool)
      requires Valid() && (key in Contents() || Spare())
      modifies this, buckets, entries, free
      ensures Valid() && (ok <==> key in old(Contents()) || Admits(old(Tab()), Hash(hasher, key)))
      ensures ok ==> (if key in old(Contents()) then Tab() == old(Tab())
                      else Added(old(Tab()), Tab(), Hash(hasher, key)))
      ensures Contents() == if ok then old(Contents())[key := value] else old(Contents())
      ensures !ok ==> Unchanged(old(Tab()), old(entries[..]), old(free.Items()), old(index), old(num))
    {
      hide Hash, HashSecondary, IndexOf, CuckooTable.Valid, Partition;
      var idx := FindWithHash(Hash(hasher, key), key);
      if idx.Some? {
        ghost var es := entries[..];
        RevalueKeeps(Tab(), es, hasher, index, key, value);
        entries[idx.value] := Entry(key, value);
        assert entries[..] == es[index[key] := Entry(key, value)];
        return true;
      }
      ok := AddEntry(key, value);
    }

    method RemoveFromBucket(b: nat, primary: bv32, key: K) returns (ok: bool)
      requires Valid() && b < buckets.Length && primary == Hash(hasher, key)
      modifies this, buckets, entries, free, free.stck
      ensures Valid() && (ok <==> key in old(index) && old(where[index[key]].0) == b)
      ensures Contents() == if ok then old(Contents()) - {key} else old(Contents())
      ensures !ok ==> index == old(index) && Tab() == old(Tab())
      ensures ok ==> Cleared(old(Tab()), Tab())
    {
      hide Hash, HashSecondary, IndexOf, CuckooTable.Valid, Partition, Indexed;
      var j := FindSlot(b, primary, key);
      if j == -1 {
        return false;
      }
      ghost var t, es := Tab(), entries[..];
      var x := buckets[b].idx[j];
      EraseIndex(es, where, index, free.Items(), key);
      EraseKeeps(t, es, hasher, b, j, x);
      EraseSlot(b, j, x, key);
      ClearedBy(t, Tab(), x);
      return true;
    }

    /** The slot is emptied, the entry cleared and its index pushed on the stack. */
    method EraseSlot(b: nat, j: nat, x: nat, ghost key: K)
      requires Shaped() && Slot(Tab(), b, j) && x < entries.Length && num > 0 && |free.Items()| < entries.Length
      modifies this, buckets, entries, free, free.stck
      ensures Shaped() && Tab() == Erase(old(Tab()), b, j, x) && entries[..] == old(entries[..])[x := NoEntry]
      ensures free.Items() == old(free.Items()) + [x] && index == old(index) - {key} && num == old(num) - 1
    {
      ghost var t, es := Tab(), entries[..];
      buckets[b] := buckets[b].(hash := buckets[b].hash[j := 0]);
      entries[x] := NoEntry;
      var _ := free.Push(x);
      where, index := where - {x}, index - {key};
      num := num - 1;
      assert Tab() == Erase(t, b, j, x);
      assert entries[..] == es[x := NoEntry];
    }

    method Remove(key: K) returns (ok: bool)
      requires Valid()
      modifies this, buckets, entries, free, free.stck
      ensures Valid() && (ok <==> key in old(Contents())) && Contents() == old(Contents()) - {key}
      ensures if ok then Cleared(old(Tab()), Tab()) else Tab() == old(Tab())
    {
      hide Hash, HashSecondary, IndexOf, CuckooTable.Valid, Partition, Cleared;
      var pri := Hash(hasher, key);
      if key in index {
        KeyAtHome(Tab(), entries[..], hasher, index, key);
      }
      ok := RemoveFromBucket(IndexOf(pri, buckets.Length), pri, key);
      if !ok {
        ok := RemoveFromBucket(IndexOf(HashSecondary(pri), buckets.Length), pri, key);
      }
    }
  }

  function IsPowerOfTwo(n: nat): bool {
    n == 1 || (n > 1 && n % 2 == 0 && IsPowerOfTwo(n / 2))
  }

  /** A new key with this hash finds room: one of its buckets has an empty slot, or a path of at most three moves
      frees a slot in one of them. */
  ghost predicate Admits(t: Table, h: bv32)
    requires Shape(t) && |t.buckets| > 0
  {
    var first, second := IndexOf(h, |t.buckets|), IndexOf(HashSecondary(h), |t.buckets|);
    || !Full(t, first) || !Full(t, second)
    || Reaches(t, first, 3) || Reaches(t, second, 3)
  }

  /** The table with room made, first for the primary bucket, then for the secondary one. */
  ghost function Roomed(t: Table, h: bv32): (r: Table)
    requires Shape(t) && |t.buckets| > 0
    ensures Shape(r) && |r.buckets| == |t.buckets|
  {
    var first, second := IndexOf(h, |t.buckets|), IndexOf(HashSecondary(h), |t.buckets|);
    if !Full(t, first) || !Full(t, second) then t
    else if MakeRoom(t, first, MAX_PATH).1 >= 0 then MakeRoom(t, first, MAX_PATH).0
    else MakeRoom(t, second, MAX_PATH).0
  }

  /** The hash sits in the first empty slot of the bucket, under some index that was free; nothing else has changed. */
  ghost predicate Put(t: Table, r: Table, b: nat, h: bv32)
    requires Shape(t) && b < |t.buckets|
  {
    var j := FirstEmpty(t, b, 0);
    j >= 0 && exists x :: x !in t.where && r == Fill(t, b, j, h, x)
  }

  /** A key has been added: room was made if need be, and the primary bucket was preferred. */
  ghost predicate Added(t: Table, r: Table, h: bv32)
    requires Shape(t) && |t.buckets| > 0
  {
    var first, second, m := IndexOf(h, |t.buckets|), IndexOf(HashSecondary(h), |t.buckets|), Roomed(t, h);
    Put(m, r, if Full(m, first) then second else first, h)
  }

  /** One used slot has been emptied, nothing else has changed. */
  ghost predicate Cleared(t: Table, r: Table)
    requires Shape(t)
  {
    exists x :: x in t.where && Slot(t, t.where[x].0, t.where[x].1) && r == Erase(t, t.where[x].0, t.where[x].1, x)
  }

  lemma ClearedBy(t: Table, r: Table, x: nat)
    requires Shape(t) && x in t.where && Slot(t, t.where[x].0, t.where[x].1)
    requires r == Erase(t, t.where[x].0, t.where[x].1, x)
    ensures Cleared(t, r)
  {
  }

  lemma FilledPut(t: Table, r: Table, b: nat, j: nat, h: bv32, x: nat)
    requires Shape(t) && b < |t.buckets| && j == FirstEmpty(t, b, 0) && x !in t.where && r == Fill(t, b, j, h, x)
    ensures Put(t, r, b, h)
  {
  }

  lemma BothFull(t: Table, h: bv32)
    requires Shape(t) && |t.buckets| > 0
    requires Full(t, IndexOf(h, |t.buckets|)) && Full(t, IndexOf(HashSecondary(h), |t.buckets|))
    ensures var first, second := IndexOf(h, |t.buckets|), IndexOf(HashSecondary(h), |t.buckets|);
            && (Admits(t, h) <==> Reaches(t, first, MAX_PATH) || Reaches(t, second, MAX_PATH))
            && Roomed(t, h) == if MakeRoom(t, first, MAX_PATH).1 >= 0 then MakeRoom(t, first, MAX_PATH).0
                               else MakeRoom(t, second, MAX_PATH).0
  {
    hide HashSecondary, IndexOf, MakeRoom, Reaches;
  }

  lemma NotFull(t: Table, b: nat, i: nat)
    requires Shape(t) && Slot(t, b, i) && !Used(t, b, i)
    ensures !Full(t, b)
  {
  }

  lemma UsedSlot(t: Table, b: nat, i: nat)
    requires Shape(t) && Slot(t, b, i) && Full(t, b)
    ensures Used(t, b, i)
  {
  }

  /** One turn of the loop of MakeSpace. */
  lemma TryNext(t: Table, at: nat, i: nat, levels: nat)
    requires Shape(t) && at < |t.buckets| && i < SLOTS && levels > 0
    ensures var alt := CuckooPath.AltOf(t, at, i);
            var j := FirstEmpty(t, alt, 0);
            var m := if j == -1 then MakeRoom(t, alt, levels - 1) else (t, j);
            TrySlots(t, at, i, levels) == if m.1 >= 0 then (Move(m.0, at, i, alt, m.1), i)
              else TrySlots(t, at, i + 1, levels)
  {
  }

  lemma RoomLoop(t: Table, at: nat, levels: nat)
    requires Shape(t) && at < |t.buckets|
    ensures MakeRoom(t, at, levels) == if levels == 0 then (t, -1) else TrySlots(t, at, 0, levels)
    ensures levels > 0 ==> TrySlots(t, at, SLOTS, levels) == (t, -1)
  {
  }

  lemma RoomMeans<K, V>(t: Table, es: seq<Entry<K, V>>, hasher: K -> bv32, at: nat, levels: nat)
    requires CuckooTable.Valid(t, es, hasher) && at < |t.buckets| && Full(t, at) && levels <= 4
    ensures var r := MakeRoom(t, at, levels);
            CuckooTable.Valid(r.0, es, hasher) && r.0.where.Keys == t.where.Keys && (r.1 >= 0 ==> !Used(r.0, at, r.1))
  {
    hide CuckooTable.Valid, FirstEmpty, Move;
    RoomSafe(t, es, hasher, at, levels);
  }

  /** The loop of Clear: all indices are pushed, 0 last. */
  method FillFree(free: EntryStack)
    requires free.Valid() && free.Items() == []
    modifies free, free.stck
    ensures free.Valid() && |free.Items()| == free.size
    ensures forall k :: 0 <= k < free.size ==> free.Items()[k] == free.size - 1 - k
    ensures forall x :: 0 <= x < free.size ==> x in free.Items()
  {
    var i := free.size;
    while i > 0
      invariant free.Valid() && 0 <= i <= free.size && |free.Items()| == free.size - i
      invariant forall k :: 0 <= k < |free.Items()| ==> free.Items()[k] == free.size - 1 - k
    {
      i := i - 1;
      var _ := free.Push(i);
    }
    forall x | 0 <= x < free.size ensures x in free.Items() {
      assert free.Items()[free.size - 1 - x] == x;
    }
  }

  // Whole sequences of operations.

  datatype Op<K, V> = Insert(key: K, val: V) | Remove(key: K) | Find(key: K)

  /** What an operation returned. */
  datatype Reply<V> = Done(ok: bool) | Found(r: Option<V>)

  /** The map after an operation that returned this. */
  ghost function After<K, V>(m: map<K, V>, op: Op<K, V>, reply: Reply<V>): map<K, V> {
    match op
    case Insert(k, v) => if reply == Done(true) then m[k := v] else m
    case Remove(k) => m - {k}
    case Find(k) => m
  }

  /** The map at some time, and the table that stands for it. */
  datatype Snap<!K, V> = Snap(m: map<K, V>, t: Table)

  ghost predicate Stands<K(!new), V(!new)>(hasher: K -> bv32, s: Snap<K, V>) {
    exists es: seq<Entry<K, V>>, ix: map<K, nat> :: StandsBy(hasher, s, es, ix)
  }

  ghost predicate StandsBy<K, V>(hasher: K -> bv32, s: Snap<K, V>, es: seq<Entry<K, V>>, ix: map<K, nat>) {
    && |s.t.buckets| > 0 && CuckooTable.Valid(s.t, es, hasher) && Indexed(es, s.t.where, ix)
    && s.m == ContentsOf(es, ix, s.t.where)
  }

  /** The replies of a finite map, except that a new key is refused exactly if the table does not admit it. */
  ghost predicate Legal<K, V>(hasher: K -> bv32, s: Snap<K, V>, op: Op<K, V>, reply: Reply<V>) {
    && Shape(s.t) && |s.t.buckets| > 0
    && match op
       case Insert(k, v) => reply == Done(k in s.m || Admits(s.t, Hash(hasher, k)))
       case Remove(k) => reply == Done(k in s.m)
       case Find(k) => reply == Found(if k in s.m then Some(s.m[k]) else None)
  }

  /** What the operation does to the table. */
  ghost predicate Changes<K, V>(hasher: K -> bv32, s: Snap<K, V>, op: Op<K, V>, reply: Reply<V>, t: Table) {
    && Shape(s.t) && |s.t.buckets| > 0
    && match op
       case Insert(k, v) => if k !in s.m && reply == Done(true) then Added(s.t, t, Hash(hasher, k)) else t == s.t
       case Remove(k) => if k in s.m then Cleared(s.t, t) else t == s.t
       case Find(k) => t == s.t
  }

  ghost predicate Follows<K(!new), V(!new)>(hasher: K -> bv32, s: Snap<K, V>, op: Op<K, V>, reply: Reply<V>,
                                            z: Snap<K, V>) {
    && Stands(hasher, z) && Legal(hasher, s, op, reply)
    && z.m == After(s.m, op, reply) && Changes(hasher, s, op, reply, z.t)
  }

  ghost predicate Refines<K(!new), V(!new)>(hasher: K -> bv32, snaps: seq<Snap<K, V>>, ops: seq<Op<K, V>>,
                                            replies: seq<Reply<V>>) {
    && |snaps| == |ops| + 1 && |replies| == |ops| && Stands(hasher, snaps[0])
    && forall i :: 0 <= i < |ops| ==> Follows(hasher, snaps[i], ops[i], replies[i], snaps[i + 1])
  }

  lemma RefinesSnoc<K(!new), V(!new)>(hasher: K -> bv32, snaps: seq<Snap<K, V>>, ops: seq<Op<K, V>>,
                                      replies: seq<Reply<V>>, op: Op<K, V>, reply: Reply<V>, z: Snap<K, V>)
    requires Refines(hasher, snaps, ops, replies) && Follows(hasher, snaps[|ops|], op, reply, z)
    ensures Refines(hasher, snaps + [z], ops + [op], replies + [reply])
  {
    hide Follows, Stands;
    var ss, os, rs := snaps + [z], ops + [op], replies + [reply];
    forall i | 0 <= i < |os| ensures Follows(hasher, ss[i], os[i], rs[i], ss[i + 1]) {
      assert i < |ops| ==> ss[i] == snaps[i] && ss[i + 1] == snaps[i + 1] && os[i] == ops[i] && rs[i] == replies[i];
    }
  }

  /** Over any sequence of operations the replies are those of a finite map in which a new key is refused exactly if the
      table of the moment does not admit it; the tables follow one another as the operations say. */
  method Perform<K(==, !new), V(!new)>(c: CuckooMap<K, V>, ops: seq<Op<K, V>>)
    returns (replies: seq<Reply<V>>, ghost snaps: seq<Snap<K, V>>)
    requires c.Valid() && (c.Roomy() || |c.Contents()| + Inserts(ops) <= c.entries.Length)
    modifies c, c.buckets, c.entries, c.free, c.free.stck
    ensures c.Valid() && Refines(c.hasher, snaps, ops, replies)
    ensures snaps[0] == Snap(old(c.Contents()), old(c.Tab())) && snaps[|ops|] == Snap(c.Contents(), c.Tab())
  {
    hide Refines, Follows, CuckooMap.Valid, CuckooMap.Contents, CuckooMap.Tab;
    replies, snaps := [], [Snap(c.Contents(), c.Tab())];
    StandsFor(c);
    RefinesNone(c.hasher, snaps[0]);
    for i := 0 to |ops|
      invariant c.Valid() && Refines(c.hasher, snaps, ops[..i], replies)
      invariant |snaps| == i + 1 && snaps[i] == Snap(c.Contents(), c.Tab())
      invariant snaps[0] == Snap(old(c.Contents()), old(c.Tab()))
      invariant c.Roomy() || |c.Contents()| + Inserts(ops[i..]) <= c.entries.Length
    {
      assert ops[i..][0] == ops[i] && ops[i..][1..] == ops[i + 1..];
      var reply := PerformOne(c, ops[i]);
      var z := Snap(c.Contents(), c.Tab());
      RefinesSnoc(c.hasher, snaps, ops[..i], replies, ops[i], reply, z);
      assert ops[..i + 1] == ops[..i] + [ops[i]];
      replies, snaps := replies + [reply], snaps + [z];
    }
    assert ops[..|ops|] == ops;
  }

  lemma StandsFor<K(!new), V(!new)>(c: CuckooMap<K, V>)
    requires c.Valid()
    ensures Stands(c.hasher, Snap(c.Contents(), c.Tab())) && Shape(c.Tab()) && |c.Tab().buckets| > 0
  {
    assert StandsBy(c.hasher, Snap(c.Contents(), c.Tab()), c.entries[..], c.index);
  }

  function Inserts<K, V>(ops: seq<Op<K, V>>): nat {
    if ops == [] then 0 else (if ops[0].Insert? then 1 else 0) + Inserts(ops[1..])
  }

  lemma RefinesNone<K(!new), V(!new)>(hasher: K -> bv32, s: Snap<K, V>)
    requires Stands(hasher, s)
    ensures Refines(hasher, [s], [], [])
  {
  }

  method PerformOne<K(==, !new), V(!new)>(c: CuckooMap<K, V>, op: Op<K, V>) returns (reply: Reply<V>)
    requires c.Valid() && (op.Insert? ==> c.Roomy() || |c.Contents()| < c.entries.Length)
    modifies c, c.buckets, c.entries, c.free, c.free.stck
    ensures c.Valid() && |c.Contents()| <= |old(c.Contents())| + if op.Insert? then 1 else 0
    ensures Follows(c.hasher, Snap(old(c.Contents()), old(c.Tab())), op, reply, Snap(c.Contents(), c.Tab()))
  {
    hide CuckooMap.Valid, CuckooMap.Contents, CuckooMap.Tab, Stands, Hash, Admits, Added, Cleared;
    ghost var s := Snap(c.Contents(), c.Tab());
    StandsFor(c);
    c.CountIs();
    match op
    case Insert(k, v) =>
      var ok := c.Insert(k, v);
      reply := Done(ok);
      StandsFor(c);
    case Remove(k) =>
      var ok := c.Remove(k);
      reply := Done(ok);
      StandsFor(c);
    case Find(k) =>
      var r := c.Find(k);
      reply := Found(r);
  }

  /** A key that is refused has only crowded buckets: each of their four slots holds another key that has its home
      there. */
  lemma RefusedIsCrowded<K(!new), V(!new)>(hasher: K -> bv32, s: Snap<K, V>, es: seq<Entry<K, V>>, ix: map<K, nat>,
                                           h: bv32, b: nat, i: nat)
    requires StandsBy(hasher, s, es, ix) && !Admits(s.t, h) && i < SLOTS
    requires b == IndexOf(h, |s.t.buckets|) || b == IndexOf(HashSecondary(h), |s.t.buckets|)
    ensures exists k :: k in s.m && Home(s.t, Hash(hasher, k), b) && ix[k] in s.t.where && s.t.where[ix[k]] == (b, i)
  {
    hide Hash, HashSecondary, IndexOf;
    assert Full(s.t, b) && Slot(s.t, b, i);
    assert Sound(s.t, es, hasher, b, i) && Used(s.t, b, i);
    assert es[s.t.buckets[b].idx[i]].key in s.m;
  }
}
