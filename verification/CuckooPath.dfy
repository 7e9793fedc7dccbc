/** Making an empty slot in a full bucket, as a function of the table and of the number of levels left, and how deep
    the recursion may go (apps/cuckoo-map/cuckoo_map.h:356-360, 487-494, 515-555). */
module CuckooPath {
  import opened CuckooTable

  /** First empty slot of a bucket, or -1. */
  function FirstEmpty(t: Table, b: nat, i: nat): (j: int)
    requires Shape(t) && b < |t.buckets| && i <= SLOTS
    ensures -1 <= j < SLOTS && (j >= 0 ==> i <= j && !Used(t, b, j))
    ensures j == -1 <==> forall k :: i <= k < SLOTS ==> Used(t, b, k)
    decreases SLOTS - i
  {
    if i == SLOTS then -1 else if !Used(t, b, i) then i else FirstEmpty(t, b, i + 1)
  }

  /** The secondary bucket of what a slot holds. */
  function AltOf(t: Table, b: nat, i: nat): (alt: nat)
    requires Shape(t) && Slot(t, b, i)
    ensures alt < |t.buckets|
  {
    IndexOf(HashSecondary(t.buckets[b].hash[i]), |t.buckets|)
  }

  /** MakeSpace with `levels` levels of recursion left: the table after it and the slot freed, or -1. */
  function MakeRoom(t: Table, at: nat, levels: nat): (r: (Table, int))
    requires Shape(t) && at < |t.buckets|
    ensures Shape(r.0) && |r.0.buckets| == |t.buckets| && -1 <= r.1 < SLOTS && (r.1 == -1 ==> r.0 == t)
    ensures r.1 >= 0 ==> levels > 0
    decreases levels, SLOTS + 1
  {
    if levels == 0 then (t, -1) else TrySlots(t, at, 0, levels)
  }

  /** The loop from slot i on. */
  function TrySlots(t: Table, at: nat, i: nat, levels: nat): (r: (Table, int))
    requires Shape(t) && at < |t.buckets| && i <= SLOTS && levels > 0
    ensures Shape(r.0) && |r.0.buckets| == |t.buckets| && -1 <= r.1 < SLOTS && (r.1 == -1 ==> r.0 == t)
    decreases levels, SLOTS - i
  {
    if i == SLOTS then (t, -1)
    else
      var alt := AltOf(t, at, i);
      var j := FirstEmpty(t, alt, 0);
      var m := if j == -1 then MakeRoom(t, alt, levels - 1) else (t, j);
      if m.1 >= 0 then (Move(m.0, at, i, alt, m.1), i) else TrySlots(m.0, at, i + 1, levels)
  }

  // When a slot can be freed.

  /** A chain of used slots from bucket `at`, each in the secondary bucket of what the one before holds; the secondary
      bucket of the last has an empty slot. */
  ghost predicate Chain(t: Table, at: nat, slots: seq<(nat, nat)>)
    requires Shape(t)
  {
    && slots != [] && slots[0].0 == at
    && (forall k :: 0 <= k < |slots| ==> Slot(t, slots[k].0, slots[k].1) && Used(t, slots[k].0, slots[k].1))
    && (forall k :: 0 <= k < |slots| - 1 ==> slots[k + 1].0 == AltOf(t, slots[k].0, slots[k].1))
    && !Full(t, AltOf(t, slots[|slots| - 1].0, slots[|slots| - 1].1))
  }

  ghost predicate Reaches(t: Table, at: nat, levels: nat)
    requires Shape(t)
  {
    exists slots :: |slots| <= levels && Chain(t, at, slots)
  }

  /** The entry in the slot could move, at once or after making room where it would go. */
  ghost predicate Movable(t: Table, at: nat, i: nat, levels: nat)
    requires Shape(t) && Slot(t, at, i)
  {
    !Full(t, AltOf(t, at, i)) || (levels > 0 && Reaches(t, AltOf(t, at, i), levels - 1))
  }

  lemma ReachesBy(t: Table, at: nat, i: nat, levels: nat)
    requires Shape(t) && Slot(t, at, i) && Used(t, at, i) && levels > 0 && Movable(t, at, i, levels)
    ensures Reaches(t, at, levels)
  {
    hide HashSecondary, IndexOf, AltOf, Full;
    if !Full(t, AltOf(t, at, i)) {
      assert Chain(t, at, [(at, i)]);
    } else {
      var rest: seq<(nat, nat)> :| |rest| <= levels - 1 && Chain(t, AltOf(t, at, i), rest);
      var slots := [(at, i)] + rest;
      forall k | 0 <= k < |slots| - 1 ensures slots[k + 1].0 == AltOf(t, slots[k].0, slots[k].1) {
        assert k > 0 ==> slots[k] == rest[k - 1] && slots[k + 1] == rest[k];
      }
      assert Chain(t, at, slots);
    }
  }

  lemma ReachesFrom(t: Table, at: nat, levels: nat) returns (i: nat)
    requires Shape(t) && at < |t.buckets| && Reaches(t, at, levels)
    ensures Slot(t, at, i) && levels > 0 && Movable(t, at, i, levels)
  {
    hide HashSecondary, IndexOf, AltOf, Full;
    var slots: seq<(nat, nat)> :| |slots| <= levels && Chain(t, at, slots);
    i := slots[0].1;
    if |slots| > 1 {
      var rest := slots[1..];
      assert forall k :: 0 <= k < |rest| ==> rest[k] == slots[k + 1];
      assert Chain(t, AltOf(t, at, i), rest);
    }
  }

  /** MakeSpace finds a slot to free exactly if there is such a chain, no longer than the path allowed. */
  lemma {:induction false} RoomExactly(t: Table, at: nat, levels: nat)
    requires Shape(t) && at < |t.buckets| && Full(t, at)
    ensures MakeRoom(t, at, levels).1 >= 0 <==> Reaches(t, at, levels)
    decreases levels, SLOTS + 1
  {
    hide HashSecondary, IndexOf, AltOf, Reaches, TrySlots;
    if levels > 0 {
      TryExactly(t, at, 0, levels);
      if Reaches(t, at, levels) {
        var i := ReachesFrom(t, at, levels);
      }
      if i: nat :| i < SLOTS && Movable(t, at, i, levels) {
        ReachesBy(t, at, i, levels);
      }
    } else if Reaches(t, at, levels) {
      var i := ReachesFrom(t, at, levels);
    }
  }

  lemma EmptyTells(t: Table, b: nat)
    requires Shape(t) && b < |t.buckets|
    ensures FirstEmpty(t, b, 0) == -1 <==> Full(t, b)
  {
  }

  lemma NoLevels(t: Table, at: nat)
    requires Shape(t)
    ensures !Reaches(t, at, 0)
  {
  }

  lemma {:induction false} TryExactly(t: Table, at: nat, i: nat, levels: nat)
    requires Shape(t) && at < |t.buckets| && Full(t, at) && i <= SLOTS && levels > 0
    ensures TrySlots(t, at, i, levels).1 >= 0 <==> exists k: nat :: i <= k < SLOTS && Movable(t, at, k, levels)
    decreases levels, SLOTS - i
  {
    hide HashSecondary, IndexOf, AltOf, Reaches, Move, MakeRoom, Full;
    if i < SLOTS {
      var alt := AltOf(t, at, i);
      EmptyTells(t, alt);
      if FirstEmpty(t, alt, 0) == -1 {
        RoomExactly(t, alt, levels - 1);
        NoLevels(t, alt);
      }
      TryExactly(t, at, i + 1, levels);
      assert TrySlots(t, at, i, levels).1 >= 0 <==>
             Movable(t, at, i, levels) || TrySlots(t, at, i + 1, levels).1 >= 0;
    }
  }

  /** Once all indices are taken no key can be added, but AddEntry calls MakeSpace all the same, even on a bucket that
      is not full. An entry in slot 0 whose other bucket has room is then moved for nothing, and a failed insertion
      leaves another table behind. */
  lemma MovedForNothing(t: Table, at: nat, levels: nat)
    requires Shape(t) && at < |t.buckets| && levels > 0 && Used(t, at, 0) && !Full(t, AltOf(t, at, 0))
    ensures var r := MakeRoom(t, at, levels); r.1 == 0 && !Used(r.0, at, 0) && r.0 != t
  {
    hide HashSecondary, IndexOf;
    var alt := AltOf(t, at, 0);
    var j := FirstEmpty(t, alt, 0);
    MoveAt(t, at, 0, alt, j, at, 0);
    assert MakeRoom(t, at, levels) == TrySlots(t, at, 0, levels) == (Move(t, at, 0, alt, j), 0);
  }

  /** Which bucket the source takes for the other one, by comparing the hash kept in a slot with the primary and the
      secondary hash of the key: the secondary, the primary, or neither. */
  function OtherBucket(kept: bv32, pri: bv32, n: nat): (alt: int)
    requires n > 0
  {
    if pri == kept then IndexOf(HashSecondary(pri), n)
    else if HashSecondary(pri) == kept then IndexOf(pri, n)
    else -1
  }

  // How deep is safe.

  predicate SameSlot(t: Table, r: Table, b: nat, i: nat)
    requires Shape(t) && Shape(r) && Slot(t, b, i) && Slot(r, b, i)
  {
    r.buckets[b].hash[i] == t.buckets[b].hash[i] && r.buckets[b].idx[i] == t.buckets[b].idx[i]
  }

  /** The secondary bucket of the slot had room to begin with. */
  predicate Loose(t: Table, b: nat, i: nat)
    requires Shape(t) && Slot(t, b, i)
  {
    !Full(t, AltOf(t, b, i))
  }

  /** The slot now holds something that was in bucket `at`. */
  predicate From(t: Table, r: Table, at: nat, b: nat, i: nat)
    requires Shape(t) && Shape(r) && Slot(r, b, i) && at < |t.buckets|
  {
    exists k :: 0 <= k < SLOTS && r.buckets[b].hash[i] == t.buckets[at].hash[k]
  }

  /** What making room in bucket `at` may do to a slot of a bucket that was full. With one level only a loose slot is
      emptied; with two, slots may be emptied and loose ones refilled from `at`; with three, also the others may be
      refilled from `at`, and loose slots are beyond control. */
  ghost predicate Kept(t: Table, r: Table, at: nat, b: nat, i: nat, levels: nat)
    requires Shape(t) && Shape(r) && Slot(t, b, i) && Slot(r, b, i) && at < |t.buckets|
  {
    || SameSlot(t, r, b, i)
    || (r.buckets[b].hash[i] == 0 && (levels == 1 ==> Loose(t, b, i)))
    || (levels >= 2 && From(t, r, at, b, i) && (levels == 2 ==> Loose(t, b, i)))
    || (levels >= 3 && Loose(t, b, i))
  }

  ghost predicate AllKept(t: Table, r: Table, at: nat, levels: nat)
    requires Shape(t) && Shape(r) && |t.buckets| == |r.buckets| && at < |t.buckets|
  {
    forall b, i :: Slot(t, b, i) && Full(t, b) ==> Kept(t, r, at, b, i, levels)
  }

  /** A slot whose secondary bucket has room moves there. */
  lemma DirectKept(t: Table, a: nat, i: nat, b: nat, j: nat, levels: nat)
    requires Shape(t) && Slot(t, a, i) && Slot(t, b, j) && !Used(t, b, j) && b == AltOf(t, a, i) && levels > 0
    ensures AllKept(t, Move(t, a, i, b, j), a, levels)
  {
    hide HashSecondary, IndexOf;
    var r := Move(t, a, i, b, j);
    forall c, k | Slot(t, c, k) && Full(t, c) ensures Kept(t, r, a, c, k, levels) {
      MoveAt(t, a, i, b, j, c, k);
    }
  }

  /** A slot whose secondary bucket is full still holds, after at most three levels below, what it held, or nothing, or
      something that bucket is a home of. */
  lemma TargetIsHome<K, V>(t: Table, m: Table, es: seq<Entry<K, V>>, hasher: K -> bv32, a: nat, i: nat, b: nat,
                           levels: nat)
    requires Valid(t, es, hasher) && Shape(m) && |t.buckets| == |m.buckets| && Slot(t, a, i) && b == AltOf(t, a, i)
    requires Full(t, a) && Full(t, b) && 0 < levels <= 3 && AllKept(t, m, b, levels)
    ensures Used(m, a, i) ==> Home(m, m.buckets[a].hash[i], b)
    ensures levels <= 2 ==> SameSlot(t, m, a, i) || !Used(m, a, i)
  {
    hide HashSecondary, IndexOf, Hash;
    assert Kept(t, m, b, a, i, levels) && !Loose(t, a, i);
    if Used(m, a, i) && !SameSlot(t, m, a, i) {
      var k :| 0 <= k < SLOTS && m.buckets[a].hash[i] == t.buckets[b].hash[k];
      assert Sound(t, es, hasher, b, k);
    }
  }

  /** One level up. */
  lemma MovedKept(t: Table, m: Table, a: nat, i: nat, b: nat, j: nat, levels: nat)
    requires Shape(t) && Shape(m) && |t.buckets| == |m.buckets| && Slot(t, a, i) && Slot(t, b, j) && b == AltOf(t, a, i)
    requires Full(t, a) && Full(t, b) && 0 < levels <= 2 && AllKept(t, m, b, levels) && !Used(m, b, j)
    requires SameSlot(t, m, a, i) || !Used(m, a, i)
    ensures AllKept(t, Move(m, a, i, b, j), a, levels + 1)
  {
    hide HashSecondary, IndexOf, AltOf;
    var r := Move(m, a, i, b, j);
    forall c, k | Slot(t, c, k) && Full(t, c) ensures Kept(t, r, a, c, k, levels + 1) {
      MoveAt(m, a, i, b, j, c, k);
      assert Kept(t, m, b, c, k, levels);
      if (c, k) == (b, j) && (a, i) != (b, j) {
        assert Used(t, b, j) && !SameSlot(t, m, b, j);
        assert SameSlot(t, m, a, i) ==> r.buckets[b].hash[j] == t.buckets[a].hash[i];
      }
    }
  }

  /** What making room promises: the slot is empty, every entry is still in one of its buckets, none is lost, and the
      buckets still open further up are disturbed only as far as the levels allow. */
  ghost predicate Safe<K, V>(t: Table, r: (Table, int), es: seq<Entry<K, V>>, hasher: K -> bv32, at: nat, levels: nat)
    requires Shape(t) && Shape(r.0) && |r.0.buckets| == |t.buckets| && at < |t.buckets| && -1 <= r.1 < SLOTS
  {
    if r.1 == -1 then r.0 == t
    else
      && Valid(r.0, es, hasher) && r.0.where.Keys == t.where.Keys && !Used(r.0, at, r.1)
      && (levels <= 3 ==> AllKept(t, r.0, at, levels))
  }

  /** Up to four levels are safe, even when the recursion comes back to buckets still open further up, and when the two
      buckets of an entry coincide. */
  lemma {:induction false} RoomSafe<K, V>(t: Table, es: seq<Entry<K, V>>, hasher: K -> bv32, at: nat, levels: nat)
    requires Valid(t, es, hasher) && at < |t.buckets| && Full(t, at) && levels <= 4
    ensures Safe(t, MakeRoom(t, at, levels), es, hasher, at, levels)
    decreases levels, SLOTS + 1
  {
    if levels > 0 {
      TrySafe(t, es, hasher, at, 0, levels);
    }
  }

  lemma {:induction false} TrySafe<K, V>(t: Table, es: seq<Entry<K, V>>, hasher: K -> bv32, at: nat, i: nat,
                                         levels: nat)
    requires Shape(t) && at < |t.buckets| && Full(t, at) && 0 < levels <= 4 && i <= SLOTS && Valid(t, es, hasher)
    ensures Safe(t, TrySlots(t, at, i, levels), es, hasher, at, levels)
    decreases levels, SLOTS - i
  {
    hide Valid, AllKept, Move, AltOf, Full, Safe, MakeRoom, FirstEmpty;
    ValidShape(t, es, hasher);
    if i == SLOTS {
      NothingSafe(t, es, hasher, at, levels);
    } else {
      var alt := AltOf(t, at, i);
      var j := FirstEmpty(t, alt, 0);
      if j >= 0 {
        DirectSafe(t, es, hasher, at, i, alt, j, levels);
      } else {
        FullBucket(t, alt);
        RoomSafe(t, es, hasher, alt, levels - 1);
        var m := MakeRoom(t, alt, levels - 1);
        if m.1 >= 0 {
          DeeperSafe(t, m, es, hasher, at, i, alt, levels);
        } else {
          TrySafe(t, es, hasher, at, i + 1, levels);
        }
      }
    }
  }

  lemma ValidShape<K, V>(t: Table, es: seq<Entry<K, V>>, hasher: K -> bv32)
    requires Valid(t, es, hasher)
    ensures Shape(t)
  {
  }

  lemma NothingSafe<K, V>(t: Table, es: seq<Entry<K, V>>, hasher: K -> bv32, at: nat, levels: nat)
    requires Shape(t) && at < |t.buckets|
    ensures Safe(t, (t, -1), es, hasher, at, levels)
  {
  }

  lemma FullBucket(t: Table, b: nat)
    requires Shape(t) && b < |t.buckets| && FirstEmpty(t, b, 0) == -1
    ensures Full(t, b)
  {
  }

  lemma DirectSafe<K, V>(t: Table, es: seq<Entry<K, V>>, hasher: K -> bv32, a: nat, i: nat, b: nat, j: nat, levels: nat)
    requires Valid(t, es, hasher) && Slot(t, a, i) && Slot(t, b, j) && !Used(t, b, j) && b == AltOf(t, a, i)
    requires 0 < levels
    ensures Safe(t, (Move(t, a, i, b, j), i), es, hasher, a, levels)
  {
    hide HashSecondary, IndexOf, Move, AllKept, Sound, Located;
    MoveKeeps(t, es, hasher, a, i, b, j);
    DirectKept(t, a, i, b, j, levels);
  }

  lemma DeeperSafe<K, V>(t: Table, m: (Table, int), es: seq<Entry<K, V>>, hasher: K -> bv32, a: nat, i: nat, b: nat,
                         levels: nat)
    requires Shape(t) && Slot(t, a, i) && b < |t.buckets| && Full(t, a) && Full(t, b) && 1 < levels <= 4
    requires Shape(m.0) && |m.0.buckets| == |t.buckets| && 0 <= m.1 < SLOTS
    requires Valid(t, es, hasher) && Safe(t, m, es, hasher, b, levels - 1) && b == AltOf(t, a, i)
    ensures Safe(t, (Move(m.0, a, i, b, m.1), i), es, hasher, a, levels)
  {
    hide HashSecondary, IndexOf, Move, AllKept, Sound, Located, AltOf;
    TargetIsHome(t, m.0, es, hasher, a, i, b, levels - 1);
    MoveKeeps(m.0, es, hasher, a, i, b, m.1);
    if levels <= 3 {
      MovedKept(t, m.0, a, i, b, m.1, levels - 1);
    }
  }

  // Five levels are too many.

  /** The recursion runs in a circle: slot 0 of bucket a belongs into b, that of b into c, that of c into a again, whose
      slot 0 still belongs into b, where slot 1 can go to d. */
  ghost predicate Circle(t: Table, a: nat, b: nat, c: nat, d: nat) {
    && Shape(t) && a < |t.buckets| && b < |t.buckets| && c < |t.buckets| && d < |t.buckets|
    && a != b && b != c && a != c && Full(t, a) && Full(t, b) && Full(t, c) && !Full(t, d)
    && AltOf(t, a, 0) == b && AltOf(t, b, 0) == c && AltOf(t, c, 0) == a && AltOf(t, b, 1) == d
  }

  /** The five moves of MakeSpace on such a table, the deepest first. */
  lemma CircleMoves(t: Table, a: nat, b: nat, c: nat, d: nat) returns (j: nat)
    requires Circle(t, a, b, c, d)
    ensures j < SLOTS && !Used(t, d, j)
    ensures MakeRoom(t, a, 5) ==
            (Move(Move(Move(Move(Move(t, b, 1, d, j), a, 0, b, 1), c, 0, a, 0), b, 0, c, 0), a, 0, b, 0), 0)
  {
    hide HashSecondary, IndexOf, Move, AltOf;
    j := FirstEmpty(t, d, 0);
    assert FirstEmpty(t, a, 0) == FirstEmpty(t, b, 0) == FirstEmpty(t, c, 0) == -1;
    assert MakeRoom(t, c, 0) == (t, -1);
    var m1 := Move(t, b, 1, d, j);
    assert TrySlots(t, b, 1, 1) == (m1, 1);
    assert MakeRoom(t, b, 1) == TrySlots(t, b, 0, 1) == (m1, 1);
    var m2 := Move(m1, a, 0, b, 1);
    assert MakeRoom(t, a, 2) == TrySlots(t, a, 0, 2) == (m2, 0);
    var m3 := Move(m2, c, 0, a, 0);
    assert MakeRoom(t, c, 3) == TrySlots(t, c, 0, 3) == (m3, 0);
    var m4 := Move(m3, b, 0, c, 0);
    assert MakeRoom(t, b, 4) == TrySlots(t, b, 0, 4) == (m4, 0);
    assert MakeRoom(t, a, 5) == TrySlots(t, a, 0, 5) == (Move(m4, a, 0, b, 0), 0);
  }

  /** With five levels the entry that was in slot 0 of c ends up in bucket b, which is neither of its homes. */
  lemma FiveDeepLoses<K, V>(t: Table, es: seq<Entry<K, V>>, hasher: K -> bv32, a: nat, b: nat, c: nat, d: nat)
    requires Valid(t, es, hasher) && Circle(t, a, b, c, d)
    ensures var r := MakeRoom(t, a, 5).0; var x := t.buckets[c].idx[0];
            && x in t.where && x in r.where && r.where[x] == (b, 0) && r.buckets[b].idx[0] == x
            && Used(r, b, 0) && !Home(t, r.buckets[b].hash[0], b) && !Valid(r, es, hasher)
  {
    hide HashSecondary, IndexOf, Hash, MakeRoom, Move;
    assert Sound(t, es, hasher, c, 0);
    CircleResult(t, a, b, c, d);
    assert !Sound(MakeRoom(t, a, 5).0, es, hasher, b, 0);
  }

  lemma CircleResult(t: Table, a: nat, b: nat, c: nat, d: nat)
    requires Circle(t, a, b, c, d)
    ensures var r := MakeRoom(t, a, 5).0; var x := t.buckets[c].idx[0];
            r.buckets[b].hash[0] == t.buckets[c].hash[0] && r.buckets[b].idx[0] == x && x in r.where &&
                r.where[x] == (b, 0)
  {
    hide HashSecondary, IndexOf, AltOf, MakeRoom, FirstEmpty;
    assert Used(t, c, 0);
    var j := CircleMoves(t, a, b, c, d);
    var m1 := Move(t, b, 1, d, j);
    MoveAt(t, b, 1, d, j, c, 0);
    var m2 := Move(m1, a, 0, b, 1);
    MoveAt(m1, a, 0, b, 1, c, 0);
    var m3 := Move(m2, c, 0, a, 0);
    MoveAt(m2, c, 0, a, 0, a, 0);
    var m4 := Move(m3, b, 0, c, 0);
    MoveAt(m3, b, 0, c, 0, a, 0);
    MoveAt(m4, a, 0, b, 0, b, 0);
    assert m4.buckets[a].hash[0] == t.buckets[c].hash[0] && m4.buckets[a].idx[0] == t.buckets[c].idx[0];
  }

  // Such a table exists: four buckets, numbered like a, b, c and d; entries 4 b to 4 b + 3 in bucket b.

  function HashAt(x: nat): bv32 {
    if x < 4 then 0x8000_0000 else if x == 4 then 0x8000_2001 else if x < 8 then 0x8000_1001 else 0x8000_1002
  }

  function Example(): Table {
    Table([Bucket([0x8000_0000, 0x8000_0000, 0x8000_0000, 0x8000_0000], [0, 1, 2, 3]),
           Bucket([0x8000_2001, 0x8000_1001, 0x8000_1001, 0x8000_1001], [4, 5, 6, 7]),
           Bucket([0x8000_1002, 0x8000_1002, 0x8000_1002, 0x8000_1002], [8, 9, 10, 11]),
           Bucket([0, 0, 0, 0], [0, 0, 0, 0])],
          map x: nat | x < 12 :: (x / 4, x % 4))
  }

  function ExampleEntries(): seq<Entry<nat, nat>> { seq(12, x => Entry(x, 0)) }

  lemma ExampleHomes()
    ensures IndexOf(0x8000_0000, 4) == 0 && IndexOf(HashSecondary(0x8000_0000), 4) == 1
    ensures IndexOf(0x8000_2001, 4) == 1 && IndexOf(HashSecondary(0x8000_2001), 4) == 2
    ensures IndexOf(0x8000_1001, 4) == 1 && IndexOf(HashSecondary(0x8000_1001), 4) == 3
    ensures IndexOf(0x8000_1002, 4) == 2 && IndexOf(HashSecondary(0x8000_1002), 4) == 0
  {
    assert HashSecondary(0x8000_0000) == 0x2879_e995 && HashSecondary(0x8000_2001) == 0xe01d_9cbe;
    assert HashSecondary(0x8000_1001) == 0x844b_c32b && HashSecondary(0x8000_1002) == 0x844b_c328;
  }

  lemma ExampleValid()
    ensures Valid(Example(), ExampleEntries(), HashAt)
  {
    var t, es := Example(), ExampleEntries();
    hide Sound, Located;
    forall b, i | Slot(t, b, i) ensures Sound(t, es, HashAt, b, i) {
      ExampleSound(b, i);
    }
    forall x | x in t.where ensures Located(t, x) {
      ExampleLocated(x);
    }
  }

  lemma ExampleSound(b: nat, i: nat)
    requires b < 4 && i < 4
    ensures Sound(Example(), ExampleEntries(), HashAt, b, i)
  {
    hide HashSecondary, IndexOf, Hash;
    ExampleHomes();
    HashesKept();
    var x := 4 * b + i;
    assert b == 0 || b == 1 || b == 2 || b == 3;
    assert i == 0 || i == 1 || i == 2 || i == 3;
    assert b < 3 ==> Example().buckets[b].idx[i] == x && Example().buckets[b].hash[i] == HashAt(x);
  }

  lemma ExampleLocated(x: nat)
    requires x < 12
    ensures Located(Example(), x)
  {
    var b, i := x / 4, x % 4;
    assert b == 0 || b == 1 || b == 2;
    assert i == 0 || i == 1 || i == 2 || i == 3;
  }

  lemma ExampleCircle()
    ensures Circle(Example(), 0, 1, 2, 3)
  {
    hide HashSecondary, IndexOf;
    ExampleHomes();
    var t := Example();
    assert !Used(t, 3, 0);
  }

  lemma HashesKept()
    ensures forall x: nat :: Hash(HashAt, x) == HashAt(x)
  {
  }

  /** So a path of five is not safe, while a path of four is (RoomSafe). */
  lemma PathFiveUnsafe()
    ensures var t, es := Example(), ExampleEntries();
            Valid(t, es, HashAt) && Full(t, 0) && !Valid(MakeRoom(t, 0, 5).0, es, HashAt)
  {
    hide HashSecondary, IndexOf, Hash, MakeRoom, Valid;
    ExampleValid();
    ExampleCircle();
    FiveDeepLoses(Example(), ExampleEntries(), HashAt, 0, 1, 2, 3);
  }
}
