/** The bucket table of the cuckoo map as a value: where each entry sits, and what moving entries between buckets
    keeps (apps/cuckoo-map/cuckoo_map.h:352-371, 486-510, 515-577). */
module CuckooTable {

  const SLOTS: nat := 4

  /** hash_values and entry_indices; hash 0 marks an empty slot. */
  datatype Bucket = Bucket(hash: seq<bv32>, idx: seq<nat>)

  datatype Entry<K, V> = NoEntry | Entry(key: K, val: V)

  /** Primary hash value, never zero. */
  function Hash<K>(hasher: K -> bv32, key: K): (h: bv32)
    ensures h != 0
  {
    hasher(key) | 0x8000_0000
  }

  function HashSecondary(primary: bv32): bv32 {
    primary ^ (((primary >> 12) + 1) * 0x5bd1e995)
  }

  /** The bucket of a hash value among n. The source masks with n - 1, n being a power of two, which is the
      remainder by n. */
  function IndexOf(h: bv32, n: nat): (b: nat)
    requires n > 0
    ensures b < n
  {
    Remainder(h as nat, n)
  }

  function Remainder(x: nat, n: nat): (r: nat)
    requires n > 0
    ensures r < n
  {
    x % n
  }

  /** The bucket array, and for every live entry the slot it sits in. */
  datatype Table = Table(buckets: seq<Bucket>, where: map<nat, (nat, nat)>)

  predicate Shape(t: Table) {
    && |t.buckets| > 0
    && forall b :: 0 <= b < |t.buckets| ==> |t.buckets[b].hash| == SLOTS && |t.buckets[b].idx| == SLOTS
  }

  predicate Slot(t: Table, b: int, i: int) {
    0 <= b < |t.buckets| && 0 <= i < SLOTS
  }

  predicate Used(t: Table, b: nat, i: nat)
    requires Shape(t) && Slot(t, b, i)
  {
    t.buckets[b].hash[i] != 0
  }

  predicate Full(t: Table, b: nat)
    requires Shape(t) && b < |t.buckets|
  {
    forall i :: 0 <= i < SLOTS ==> Used(t, b, i)
  }

  /** A bucket where a hash value may be kept. */
  predicate Home(t: Table, h: bv32, b: nat)
    requires Shape(t)
  {
    b == IndexOf(h, |t.buckets|) || b == IndexOf(HashSecondary(h), |t.buckets|)
  }

  /** A used slot names a live entry, holds the primary hash of its key and is one of its two homes. */
  ghost predicate Sound<K, V>(t: Table, es: seq<Entry<K, V>>, hasher: K -> bv32, b: nat, i: nat)
    requires Shape(t) && Slot(t, b, i)
  {
    Used(t, b, i) ==>
      var x, h := t.buckets[b].idx[i], t.buckets[b].hash[i];
      x < |es| && es[x].Entry? && h == Hash(hasher, es[x].key) && Home(t, h, b) && x in t.where && t.where[x] == (b, i)
  }

  ghost predicate Located(t: Table, x: nat)
    requires Shape(t) && x in t.where
  {
    Slot(t, t.where[x].0, t.where[x].1) && Used(t, t.where[x].0, t.where[x].1) &&
        t.buckets[t.where[x].0].idx[t.where[x].1] == x
  }

  ghost predicate Valid<K, V>(t: Table, es: seq<Entry<K, V>>, hasher: K -> bv32) {
    && Shape(t)
    && (forall b, i :: Slot(t, b, i) ==> Sound(t, es, hasher, b, i))
    && (forall x :: x in t.where ==> Located(t, x))
  }

  /** The move at the end of a step of MakeSpace: slot (a, i) goes to (b, j), whatever it holds by then. */
  function Move(t: Table, a: nat, i: nat, b: nat, j: nat): (r: Table)
    requires Shape(t) && Slot(t, a, i) && Slot(t, b, j)
    ensures Shape(r) && |r.buckets| == |t.buckets|
  {
    var h, x := t.buckets[a].hash[i], t.buckets[a].idx[i];
    var filled := t.buckets[b := Bucket(t.buckets[b].hash[j := h], t.buckets[b].idx[j := x])];
    var cleared := filled[a := filled[a].(hash := filled[a].hash[i := 0])];
    Table(cleared, if h != 0 then t.where[x := (b, j)] else t.where)
  }

  lemma MoveAt(t: Table, a: nat, i: nat, b: nat, j: nat, c: nat, k: nat)
    requires Shape(t) && Slot(t, a, i) && Slot(t, b, j) && Slot(t, c, k)
    ensures var r := Move(t, a, i, b, j);
            && Slot(r, c, k)
            && r.buckets[c].hash[k] == (if (c, k) == (a, i) then 0
                                        else if (c, k) == (b, j) then t.buckets[a].hash[i] else t.buckets[c].hash[k])
            && ((c, k) != (b, j) ==> r.buckets[c].idx[k] == t.buckets[c].idx[k])
            && (r.buckets[b].idx[j] == t.buckets[a].idx[i])
  {
  }

  /** Moving whatever slot (a, i) holds into an empty slot of one of its homes keeps the table valid, loses no
      entry, and leaves (a, i) empty. An already empty slot may be "moved" too: that happens when the
      recursion has freed the very slot to be moved. */
  lemma MoveKeeps<K, V>(t: Table, es: seq<Entry<K, V>>, hasher: K -> bv32, a: nat, i: nat, b: nat, j: nat)
    requires Valid(t, es, hasher) && Slot(t, a, i) && Slot(t, b, j) && !Used(t, b, j)
    requires Used(t, a, i) ==> Home(t, t.buckets[a].hash[i], b)
    ensures Valid(Move(t, a, i, b, j), es, hasher) && Move(t, a, i, b, j).where.Keys == t.where.Keys
    ensures !Used(Move(t, a, i, b, j), a, i)
  {
    hide Hash, HashSecondary, IndexOf;
    var r := Move(t, a, i, b, j);
    assert Sound(t, es, hasher, a, i);
    forall c, k | Slot(r, c, k) ensures Sound(r, es, hasher, c, k) {
      MoveAt(t, a, i, b, j, c, k);
      assert Sound(t, es, hasher, c, k);
    }
    forall x | x in r.where ensures Located(r, x) {
      assert Located(t, x);
      MoveAt(t, a, i, b, j, t.where[x].0, t.where[x].1);
      MoveAt(t, a, i, b, j, b, j);
    }
    MoveAt(t, a, i, b, j, a, i);
  }

  // Counting slots.

  function AllSlots(n: nat): set<(nat, nat)> {
    set b: nat, i: nat | b < n && i < SLOTS :: (b, i)
  }

  lemma {:induction false} AllSlotsCount(n: nat)
    ensures |AllSlots(n)| == SLOTS * n
  {
    if n > 0 {
      AllSlotsCount(n - 1);
      assert AllSlots(n) == AllSlots(n - 1) + {(n - 1, 0), (n - 1, 1), (n - 1, 2), (n - 1, 3)};
    } else {
      assert AllSlots(0) == {};
    }
  }

  lemma {:induction false} InjectiveCount(m: map<nat, (nat, nat)>, s: set<(nat, nat)>)
    requires forall x :: x in m ==> m[x] in s
    requires forall x, y :: x in m && y in m && m[x] == m[y] ==> x == y
    ensures |m| <= |s|
    decreases |s|
  {
    if x :| x in m {
      var rest := m - {x};
      InjectiveCount(rest, s - {m[x]});
      assert m.Keys == rest.Keys + {x};
      assert |m| == |m.Keys| == |rest.Keys| + 1;
    }
  }

  /** While a slot is empty there are fewer live entries than slots. */
  lemma SpareSlot<K, V>(t: Table, es: seq<Entry<K, V>>, hasher: K -> bv32, b: nat, i: nat)
    requires Valid(t, es, hasher) && Slot(t, b, i) && !Used(t, b, i)
    ensures |t.where| < SLOTS * |t.buckets|
  {
    var all := AllSlots(|t.buckets|);
    AllSlotsCount(|t.buckets|);
    hide Sound;
    forall x | x in t.where ensures t.where[x] in all - {(b, i)} {
      assert Located(t, x);
    }
    forall x, y | x in t.where && y in t.where && t.where[x] == t.where[y] ensures x == y {
      assert Located(t, x) && Located(t, y);
    }
    InjectiveCount(t.where, all - {(b, i)});
  }

  // Keys and free indices.

  /** Keys and live entries correspond one to one. */
  ghost predicate Indexed<K, V>(es: seq<Entry<K, V>>, where: map<nat, (nat, nat)>, index: map<K, nat>) {
    && (forall x :: x in where ==> x < |es| && es[x].Entry? && es[x].key in index && index[es[x].key] == x)
    && (forall k :: k in index ==> index[k] in where && index[k] < |es| && es[index[k]].Entry? && es[index[k]].key == k)
    && |index| == |where|
  }

  /** Live and free indices partition the entries, without repeats. */
  ghost predicate Partition(where: map<nat, (nat, nat)>, free: seq<nat>, n: nat) {
    && (forall x :: x in where ==> x < n && x !in free)
    && (forall x :: 0 <= x < n ==> x in where || x in free)
    && (forall k :: 0 <= k < |free| ==> free[k] < n)
    && (forall i, j :: 0 <= i < j < |free| ==> free[i] != free[j])
    && |where| + |free| == n
  }

  ghost function ContentsOf<K, V>(es: seq<Entry<K, V>>, index: map<K, nat>, where: map<nat, (nat, nat)>): map<K, V>
    requires Indexed(es, where, index)
  {
    map k | k in index :: es[index[k]].val
  }

  /** A used slot matches a key exactly if the key is stored there. */
  lemma SlotKey<K, V>(t: Table, es: seq<Entry<K, V>>, hasher: K -> bv32, index: map<K, nat>, b: nat, i: nat, key: K)
    requires Valid(t, es, hasher) && Indexed(es, t.where, index) && Slot(t, b, i)
    ensures t.buckets[b].hash[i] == Hash(hasher, key) ==> t.buckets[b].idx[i] < |es| && es[t.buckets[b].idx[i]].Entry?
    ensures t.buckets[b].hash[i] == Hash(hasher, key) && es[t.buckets[b].idx[i]].key == key <==>
            key in index && t.where[index[key]] == (b, i)
    ensures key in index && t.where[index[key]] == (b, i) ==> t.buckets[b].idx[i] == index[key] && Used(t, b, i)
  {
    hide HashSecondary, IndexOf;
    assert Sound(t, es, hasher, b, i);
    if key in index {
      assert Located(t, index[key]);
    }
  }

  /** A stored key is in one of its two buckets. */
  lemma KeyAtHome<K, V>(t: Table, es: seq<Entry<K, V>>, hasher: K -> bv32, index: map<K, nat>, key: K)
    requires Valid(t, es, hasher) && Indexed(es, t.where, index) && key in index
    ensures Located(t, index[key]) && Home(t, Hash(hasher, key), t.where[index[key]].0)
  {
    hide Hash, HashSecondary, IndexOf;
    assert Located(t, index[key]);
    assert Sound(t, es, hasher, t.where[index[key]].0, t.where[index[key]].1);
  }

  /** A new value for a stored key. */
  lemma RevalueKeeps<K, V>(t: Table, es: seq<Entry<K, V>>, hasher: K -> bv32, index: map<K, nat>, key: K, val: V)
    requires Valid(t, es, hasher) && Indexed(es, t.where, index) && key in index
    ensures var r := es[index[key] := Entry(key, val)];
            && Valid(t, r, hasher) && Indexed(r, t.where, index)
            && ContentsOf(r, index, t.where) == ContentsOf(es, index, t.where)[key := val]
  {
    RevalueValid(t, es, hasher, index[key], key, val);
    RevalueIndexed(es, t.where, index, key, val);
  }

  lemma RevalueIndexed<K, V>(es: seq<Entry<K, V>>, where: map<nat, (nat, nat)>, index: map<K, nat>, key: K, val: V)
    requires Indexed(es, where, index) && key in index
    ensures var r := es[index[key] := Entry(key, val)];
            Indexed(r, where, index) && ContentsOf(r, index, where) == ContentsOf(es, index, where)[key := val]
  {
    var r := es[index[key] := Entry(key, val)];
    assert Indexed(r, where, index);
    var c, d := ContentsOf(r, index, where), ContentsOf(es, index, where)[key := val];
    assert c.Keys == d.Keys;
    forall k | k in c ensures c[k] == d[k] {
      if k != key {
        assert index[k] != index[key];
      }
    }
  }

  lemma RevalueValid<K, V>(t: Table, es: seq<Entry<K, V>>, hasher: K -> bv32, x: nat, key: K, val: V)
    requires Valid(t, es, hasher) && x < |es| && es[x].Entry? && es[x].key == key
    ensures Valid(t, es[x := Entry(key, val)], hasher)
  {
    hide Hash, HashSecondary, IndexOf;
    forall b, i | Slot(t, b, i) ensures Sound(t, es[x := Entry(key, val)], hasher, b, i) {
      assert Sound(t, es, hasher, b, i);
    }
  }

  /** Entries changing places leave keys, values and free indices alone. */
  lemma MovedIndex<K, V>(es: seq<Entry<K, V>>, was: map<nat, (nat, nat)>, where: map<nat, (nat, nat)>,
                         index: map<K, nat>, free: seq<nat>)
    requires Indexed(es, was, index) && Partition(was, free, |es|) && was.Keys == where.Keys
    ensures |where| == |was| && Indexed(es, where, index) && Partition(where, free, |es|)
    ensures ContentsOf(es, index, where) == ContentsOf(es, index, was)
  {
    assert |was| == |was.Keys| == |where.Keys| == |where|;
    assert forall x :: x in where <==> x in was.Keys;
  }

  function Fill(t: Table, b: nat, j: nat, h: bv32, x: nat): (r: Table)
    requires Shape(t) && Slot(t, b, j)
    ensures Shape(r) && |r.buckets| == |t.buckets|
  {
    Table(t.buckets[b := Bucket(t.buckets[b].hash[j := h], t.buckets[b].idx[j := x])], t.where[x := (b, j)])
  }

  /** A new key takes the top free index and an empty slot of one of its homes. */
  lemma FillKeeps<K, V>(t: Table, es: seq<Entry<K, V>>, hasher: K -> bv32, b: nat, j: nat, x: nat, key: K, val: V)
    requires Valid(t, es, hasher) && Slot(t, b, j) && !Used(t, b, j) && x < |es| && x !in t.where
    requires Home(t, Hash(hasher, key), b)
    ensures Valid(Fill(t, b, j, Hash(hasher, key), x), es[x := Entry(key, val)], hasher)
  {
    var h := Hash(hasher, key);
    hide Hash, HashSecondary, IndexOf;
    var r, rs := Fill(t, b, j, h, x), es[x := Entry(key, val)];
    forall c, k | Slot(r, c, k) ensures Sound(r, rs, hasher, c, k) {
      assert Sound(t, es, hasher, c, k);
    }
    forall y | y in r.where ensures Located(r, y) {
      if y != x {
        assert Located(t, y);
      }
    }
  }

  lemma FillIndex<K, V>(es: seq<Entry<K, V>>, where: map<nat, (nat, nat)>, index: map<K, nat>, free: seq<nat>, x: nat,
                        at: (nat, nat), key: K, val: V)
    requires Indexed(es, where, index) && Partition(where, free + [x], |es|) && key !in index
    ensures x < |es| && x !in where
    ensures var rs, w, ix := es[x := Entry(key, val)], where[x := at], index[key := x];
            && Indexed(rs, w, ix) && Partition(w, free, |rs|)
            && ContentsOf(rs, ix, w) == ContentsOf(es, index, where)[key := val]
  {
    FillPartition(where, free, x, |es|, at);
    hide Partition;
    var rs, w, ix := es[x := Entry(key, val)], where[x := at], index[key := x];
    FillIndexed(es, where, index, x, at, key, val);
    var c, d := ContentsOf(rs, ix, w), ContentsOf(es, index, where)[key := val];
    assert c.Keys == d.Keys;
    assert forall k :: k in c ==> c[k] == d[k];
  }

  lemma FillIndexed<K, V>(es: seq<Entry<K, V>>, where: map<nat, (nat, nat)>, index: map<K, nat>, x: nat, at: (nat, nat),
                          key: K, val: V)
    requires Indexed(es, where, index) && x < |es| && x !in where && key !in index
    ensures Indexed(es[x := Entry(key, val)], where[x := at], index[key := x])
  {
  }

  lemma FillPartition(where: map<nat, (nat, nat)>, free: seq<nat>, x: nat, n: nat, at: (nat, nat))
    requires Partition(where, free + [x], n)
    ensures x < n && x !in where && Partition(where[x := at], free, n)
  {
    assert (free + [x])[|free|] == x && x in free + [x];
    assert forall k :: 0 <= k < |free| ==> (free + [x])[k] == free[k] && free[k] in free + [x];
  }

  function Erase(t: Table, b: nat, j: nat, x: nat): (r: Table)
    requires Shape(t) && Slot(t, b, j)
    ensures Shape(r) && |r.buckets| == |t.buckets|
  {
    Table(t.buckets[b := t.buckets[b].(hash := t.buckets[b].hash[j := 0])], t.where - {x})
  }

  lemma EraseKeeps<K, V>(t: Table, es: seq<Entry<K, V>>, hasher: K -> bv32, b: nat, j: nat, x: nat)
    requires Valid(t, es, hasher) && x in t.where && t.where[x] == (b, j) && x < |es|
    ensures Slot(t, b, j) && Valid(Erase(t, b, j, x), es[x := NoEntry], hasher)
  {
    hide Hash, HashSecondary, IndexOf;
    assert Located(t, x);
    var r, rs := Erase(t, b, j, x), es[x := NoEntry];
    forall c, k | Slot(r, c, k) ensures Sound(r, rs, hasher, c, k) {
      assert Sound(t, es, hasher, c, k);
    }
    forall y | y in r.where ensures Located(r, y) {
      assert Located(t, y);
    }
  }

  lemma EraseIndex<K, V>(es: seq<Entry<K, V>>, where: map<nat, (nat, nat)>, index: map<K, nat>, free: seq<nat>, key: K)
    requires Indexed(es, where, index) && Partition(where, free, |es|) && key in index
    ensures |free| < |es| && index[key] < |es| && index[key] in where
    ensures var x := index[key];
            var rs, w, ix := es[x := NoEntry], where - {x}, index - {key};
            && Indexed(rs, w, ix) && Partition(w, free + [x], |rs|)
            && ContentsOf(rs, ix, w) == ContentsOf(es, index, where) - {key}
  {
    var x := index[key];
    assert where == (where - {x})[x := where[x]] && index == (index - {key})[key := x];
    ErasePartition(where, free, |es|, x);
    hide Partition;
  }

  lemma ErasePartition(where: map<nat, (nat, nat)>, free: seq<nat>, n: nat, x: nat)
    requires Partition(where, free, n) && x in where
    ensures Partition(where - {x}, free + [x], n) && |free| < n
  {
    var w, next := where - {x}, free + [x];
    assert where == w[x := where[x]];
    assert next[|free|] == x;
    forall y | 0 <= y < n ensures y in w || y in next {
      if y in free {
        var k :| 0 <= k < |free| && free[k] == y;
        assert next[k] == y;
      }
    }
  }
}
