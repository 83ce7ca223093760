/**
  The Robin Hood hash map.  A displaced entry is stored with a distance that can be too
  large, because the two distances that insert swaps are equal by then; the invariant
  holds all the same with "at least" in place of "equal to".
  */
module RobinHood {
  import opened Options

  datatype Entry<K, V> = Empty | Full(key: K, value: V, dist: nat)

  // ---------------------------------------------------------- the ring of slots

  /** hash: the remainder of the hash value by the capacity. */
  function Home(hash: nat, n: nat): (r: nat)
    requires n > 0
    ensures r < n
  {
    if hash < n then hash else Home(hash - n, n)
  }

  lemma {:induction false} HomeIsRemainder(hash: nat, n: nat)
    requires n > 0
    ensures Home(hash, n) == hash % n
  {
    if hash >= n {
      HomeIsRemainder(hash - n, n);
      assert hash % n == (hash - n) % n by {
        var q, r := (hash - n) / n, (hash - n) % n;
        assert hash == (q + 1) * n + r;
        RemainderIs(hash, q + 1, r, n);
      }
    }
  }

  lemma RemainderIs(x: nat, q: nat, r: nat, n: nat)
    requires n > 0 && r < n && x == q * n + r
    ensures x % n == r
  {
    var d := x / n - q;
    assert x == (q + d) * n + x % n;
    assert r - x % n == d * n;
    AtLeastOnce(d, n);
  }

  lemma AtLeastOnce(d: int, n: nat)
    ensures d >= 1 ==> d * n >= n
    ensures d <= -1 ==> d * n <= 0 - n
  {
  }

  /** The slot at the distance from the home slot, at most once around. */
  function Slot(n: nat, home: nat, dist: nat): (i: nat)
    requires home < n && dist <= n
    ensures i < n
  {
    if home + dist < n then home + dist else home + dist - n
  }

  /** How far the slot is from the home slot. */
  function Away(n: nat, home: nat, i: nat): (d: nat)
    requires home < n && i < n
    ensures d < n && Slot(n, home, d) == i
  {
    if i >= home then i - home else i + n - home
  }

  function Next(n: nat, i: nat): nat
    requires i < n
  {
    if i + 1 < n then i + 1 else 0
  }

  // -------------------------------------------------------------- the invariant

  ghost predicate KeysDiffer<K, V>(t: seq<Entry<K, V>>) {
    forall i, j :: 0 <= i < j < |t| && t[i].Full? && t[j].Full? ==> t[i].key != t[j].key
  }

  /** The slots on the way of a key, up to the distance, are full and store at least their distance. */
  ghost predicate Paved<K, V>(t: seq<Entry<K, V>>, home: nat, dist: nat)
    requires home < |t| && dist <= |t|
  {
    forall j :: 0 <= j < dist ==> var e := t[Slot(|t|, home, j)]; e.Full? && e.dist >= j
  }

  ghost predicate Placed<K, V>(t: seq<Entry<K, V>>, hash: K -> nat, i: nat)
    requires |t| > 0 && i < |t| && t[i].Full?
  {
    var home := Home(hash(t[i].key), |t|);
    Away(|t|, home, i) <= t[i].dist < |t| && Paved(t, home, Away(|t|, home, i))
  }

  ghost predicate Table<K, V>(t: seq<Entry<K, V>>, hash: K -> nat) {
    |t| > 0 && KeysDiffer(t) && forall i :: 0 <= i < |t| && t[i].Full? ==> Placed(t, hash, i)
  }

  ghost predicate Absent<K, V>(t: seq<Entry<K, V>>, key: K) {
    forall i :: 0 <= i < |t| && t[i].Full? ==> t[i].key != key
  }

  /** A search that has come to an empty slot, or to one that stores less, cannot succeed any more. */
  lemma SearchIsOver<K, V>(t: seq<Entry<K, V>>, hash: K -> nat, key: K, dist: nat)
    requires Table(t, hash) && dist <= |t|
    requires var home := Home(hash(key), |t|);
             && (forall j :: 0 <= j < dist ==> t[Slot(|t|, home, j)].Full? && t[Slot(|t|, home, j)].key != key)
             && var e := t[Slot(|t|, home, dist)];
             && (e.Full? ==> e.dist < dist && (dist < |t| ==> e.key != key))
    ensures Absent(t, key)
  {
    forall i | 0 <= i < |t| && t[i].Full? ensures t[i].key != key {
      assert Placed(t, hash, i);
      var home := Home(hash(t[i].key), |t|);
      assert t[Slot(|t|, home, Away(|t|, home, i))] == t[i];
    }
  }

  /** An entry goes into an empty slot, or takes the place of one that stores less. */
  lemma PutKeepsTable<K, V>(t: seq<Entry<K, V>>, hash: K -> nat, i: nat, e: Entry<K, V>)
    requires Table(t, hash) && i < |t| && e.Full? && Absent(t, e.key)
    requires t[i].Full? ==> t[i].dist < e.dist
    requires var home := Home(hash(e.key), |t|); Away(|t|, home, i) <= e.dist < |t| && Paved(t, home, Away(|t|, home, i))
    ensures Table(t[i := e], hash)
  {
    var r := t[i := e];
    forall k | 0 <= k < |r| && r[k].Full? ensures Placed(r, hash, k) {
      var home := Home(hash(r[k].key), |t|);
      if k != i { assert Placed(t, hash, k); }
      forall j | 0 <= j < Away(|t|, home, k) ensures r[Slot(|t|, home, j)].Full? && r[Slot(|t|, home, j)].dist >= j {
        assert t[Slot(|t|, home, j)].Full? && t[Slot(|t|, home, j)].dist >= j;
      }
    }
  }

  /** The way of the displaced entry is paved up to the slot behind. */
  lemma DisplacedIsPaved<K, V>(t: seq<Entry<K, V>>, hash: K -> nat, i: nat, e: Entry<K, V>)
    requires Table(t, hash) && i < |t| && t[i].Full? && e.Full? && t[i].dist < e.dist
    ensures var home := Home(hash(t[i].key), |t|); Paved(t[i := e], home, Away(|t|, home, i) + 1)
  {
    var home := Home(hash(t[i].key), |t|);
    assert Placed(t, hash, i);
    forall j | 0 <= j < Away(|t|, home, i) + 1
      ensures t[i := e][Slot(|t|, home, j)].Full? && t[i := e][Slot(|t|, home, j)].dist >= j
    {
      if j < Away(|t|, home, i) { assert t[Slot(|t|, home, j)].Full?; }
    }
  }

  // --------------------------------------------------------------- the contents

  /** The table and the entry in hand, if there is one, hold exactly the map. */
  ghost predicate Holds<K, V>(t: seq<Entry<K, V>>, hand: Entry<K, V>, m: map<K, V>) {
    && (forall i :: 0 <= i < |t| && t[i].Full? ==> t[i].key in m && m[t[i].key] == t[i].value)
    && (hand.Full? ==> Absent(t, hand.key) && hand.key in m && m[hand.key] == hand.value)
    && (forall k :: k in m ==> (hand.Full? && hand.key == k) || !Absent(t, k))
  }

  lemma PutHolds<K, V>(t: seq<Entry<K, V>>, hand: Entry<K, V>, m: map<K, V>, i: nat)
    requires KeysDiffer(t) && Holds(t, hand, m) && hand.Full? && i < |t|
    ensures Holds(t[i := hand], t[i], m)
  {
    var r := t[i := hand];
    forall k | k in m ensures (t[i].Full? && t[i].key == k) || !Absent(r, k) {
      if hand.key == k {
        assert r[i].key == k;
      } else {
        var j :| 0 <= j < |t| && t[j].Full? && t[j].key == k;
        if j != i { assert r[j].key == k; }
      }
    }
  }

  /** A new distance for the entry in hand. */
  lemma CarryHolds<K, V>(t: seq<Entry<K, V>>, hand: Entry<K, V>, m: map<K, V>, dist: nat)
    requires Holds(t, hand, m) && hand.Full?
    ensures Holds(t, hand.(dist := dist), m)
  {
  }

  lemma UpdateHolds<K, V>(t: seq<Entry<K, V>>, m: map<K, V>, i: nat, value: V)
    requires KeysDiffer(t) && Holds(t, Empty, m) && i < |t| && t[i].Full?
    ensures Holds(t[i := t[i].(value := value)], Empty, m[t[i].key := value])
    ensures t[i].key in m
  {
    var r := t[i := t[i].(value := value)];
    forall k | k in m ensures !Absent(r, k) {
      var j :| 0 <= j < |t| && t[j].Full? && t[j].key == k;
      assert r[j].key == k;
    }
  }

  lemma UpdateKeepsTable<K, V>(t: seq<Entry<K, V>>, hash: K -> nat, i: nat, value: V)
    requires Table(t, hash) && i < |t| && t[i].Full?
    ensures Table(t[i := t[i].(value := value)], hash)
  {
    var r := t[i := t[i].(value := value)];
    forall k | 0 <= k < |r| && r[k].Full? ensures Placed(r, hash, k) {
      assert Placed(t, hash, k);
      var home := Home(hash(r[k].key), |t|);
      forall j | 0 <= j < Away(|t|, home, k) ensures r[Slot(|t|, home, j)].Full? && r[Slot(|t|, home, j)].dist >= j {
        assert t[Slot(|t|, home, j)].Full? && t[Slot(|t|, home, j)].dist >= j;
      }
    }
  }

  ghost function KeysOf<K, V>(t: seq<Entry<K, V>>): set<K> {
    if t == [] then {} else KeysOf(t[..|t| - 1]) + if t[|t| - 1].Full? then {t[|t| - 1].key} else {}
  }

  ghost function FullCount<K, V>(t: seq<Entry<K, V>>): (n: nat)
    ensures n <= |t|
    ensures n == |t| <==> forall i :: 0 <= i < |t| ==> t[i].Full?
  {
    if t == [] then 0
    else
      var front := t[..|t| - 1];
      assert forall i :: 0 <= i < |front| ==> front[i] == t[i];
      FullCount(front) + if t[|t| - 1].Full? then 1 else 0
  }

  lemma {:induction false} KeysCount<K, V>(t: seq<Entry<K, V>>)
    requires KeysDiffer(t)
    ensures |KeysOf(t)| == FullCount(t)
    ensures forall k :: k in KeysOf(t) <==> !Absent(t, k)
  {
    if t != [] {
      var front, last := t[..|t| - 1], t[|t| - 1];
      KeysCount(front);
      assert forall i :: 0 <= i < |front| ==> front[i] == t[i];
      if last.Full? { assert Absent(front, last.key); }
      forall k ensures k in KeysOf(t) <==> !Absent(t, k) {
        if last.Full? && last.key == k { assert t[|t| - 1].key == k; }
        if !Absent(front, k) {
          var i :| 0 <= i < |front| && front[i].Full? && front[i].key == k;
          assert t[i].key == k;
        }
      }
    }
  }

  lemma HeldKeys<K, V>(t: seq<Entry<K, V>>, m: map<K, V>, k: K)
    requires Holds(t, Empty, m)
    ensures k in m <==> !Absent(t, k)
  {
    if !Absent(t, k) { var i :| 0 <= i < |t| && t[i].Full? && t[i].key == k; }
  }

  lemma SameSize<K>(a: set<K>, b: set<K>)
    requires forall k :: k in a <==> k in b
    ensures |a| == |b|
  {
    assert a == b;
  }

  /** The map has as many keys as the table has full slots. */
  lemma SizeIsFullCount<K, V>(t: seq<Entry<K, V>>, m: map<K, V>)
    requires KeysDiffer(t) && Holds(t, Empty, m)
    ensures |m| == FullCount(t)
  {
    KeysCount(t);
    forall k ensures k in KeysOf(t) <==> k in m.Keys { HeldKeys(t, m, k); }
    SameSize(KeysOf(t), m.Keys);
  }

  // -------------------------------------------------------------------- the map

  class RobinHoodHashMap<K(==,!new), V(!new)> {
    const hash: K -> nat
    var table: array<Entry<K, V>>
    var size: nat
    ghost var contents: map<K, V>

    ghost predicate Valid()
      reads this, table
    {
      && Table(table[..], hash)
      && Holds(table[..], Empty, contents)
      && size == |contents| <= table.Length
    }

    constructor (hash: K -> nat, capacity: nat)
      requires capacity > 0
      ensures Valid() && contents == map[] && this.hash == hash && table.Length == capacity && fresh(table)
    {
      this.hash := hash;
      table := new Entry<K, V>[capacity](_ => Empty);
      size, contents := 0, map[];
    }

    /** find: the value, if there is one. */
    method Find(key: K) returns (found: Option<V>)
      requires Valid()
      ensures found == if key in contents then Some(contents[key]) else None
    {
      ghost var home := Home(hash(key), table.Length);
      var idx, dist := Home(hash(key), table.Length), 0;
      while table[idx].Full?
        invariant dist <= table.Length && idx == Slot(table.Length, home, dist)
        invariant forall j :: 0 <= j < dist ==> table[Slot(table.Length, home, j)].Full? && table[Slot(table.Length, home, j)].key != key
        decreases table.Length - dist
      {
        if table[idx].key == key {
          return Some(table[idx].value);
        }
        if table[idx].dist < dist { break; }
        assert Placed(table[..], hash, idx);
        idx := Next(table.Length, idx);
        dist := dist + 1;
      }
      SearchIsOver(table[..], hash, key, dist);
      HeldKeys(table[..], contents, key);
      return None;
    }

    /** The entry in hand goes into an empty slot. */
    method Fill(idx: nat, hand: Entry<K, V>, ghost m: map<K, V>)
      requires Table(table[..], hash) && idx < table.Length && table[idx].Empty? && hand.Full? && hand.dist < table.Length
      requires InHand(table[..], hash, hand, idx) && Holds(table[..], hand, m)
      requires size + 1 == |m| <= table.Length
      modifies this`size, this`contents, table
      ensures Valid() && contents == m
    {
      PutKeepsTable(table[..], hash, idx, hand);
      PutHolds(table[..], hand, m, idx);
      ghost var t := table[..][idx := hand];
      table[idx] := hand;
      size := size + 1;
      contents := m;
      assert table[..] == t;
    }

    /** The key is there already. */
    method Update(idx: nat, value: V)
      requires Valid() && idx < table.Length && table[idx].Full?
      modifies this`contents, table
      ensures Valid() && contents == old(contents)[old(table[idx].key) := value]
    {
      UpdateHolds(table[..], contents, idx, value);
      UpdateKeepsTable(table[..], hash, idx, value);
      ghost var t := table[..][idx := table[idx].(value := value)];
      contents := contents[table[idx].key := value];
      table[idx] := table[idx].(value := value);
      assert table[..] == t;
    }

    /** One round of the loop below at a full slot with another key. */
    method Round(key: K, value: V, idx: nat, hand: Entry<K, V>, dist: nat,
                 ghost m: map<K, V>, ghost e: nat, ghost swapped: bool, ghost at: nat)
      returns (next: Entry<K, V>, ghost swapped': bool, ghost at': nat)
      requires Walking(table[..], hash, key, value, m, hand, dist, idx, e, swapped, at)
      requires table[idx].Full? && table[idx].key != key
      modifies table
      ensures Walking(table[..], hash, key, value, m, next, dist + 1, Next(table.Length, idx), e, swapped', at')
    {
      ghost var t, home := table[..], Home(hash(key), table.Length);
      if table[idx].dist < dist {
        SwappedWalking(t, hash, key, value, m, hand, dist, idx, e, swapped, at);
        next := table[idx].(dist := dist + 1);
        table[idx] := hand;
        assert table[..] == t[idx := hand];
        swapped', at' := true, if swapped then at else dist;
      } else {
        StepOver(t, hash, hand, idx);
        StepOnWay(t, home, dist, idx, e);
        StepCarries(t, home, key, value, m, hand, dist, swapped, at, e);
        next, swapped', at' := hand.(dist := dist + 1), swapped, at;
      }
    }

    /** The end of the loop below: at an empty slot, or at the key. */
    method Arrive(key: K, value: V, idx: nat, hand: Entry<K, V>, ghost dist: nat,
                  ghost m: map<K, V>, ghost e: nat, ghost swapped: bool, ghost at: nat)
      requires Walking(table[..], hash, key, value, m, hand, dist, idx, e, swapped, at)
      requires contents == m && size == |m| < table.Length && (table[idx].Empty? || table[idx].key == key)
      modifies this`size, this`contents, table
      ensures Valid() && contents == m[key := value]
    {
      if table[idx].Empty? {
        WalkedIn(table[..], hash, key, value, m, hand, dist, idx, e, swapped, at);
        Fill(idx, hand, m[key := value]);
      } else {
        WalkedHome(table[..], hash, key, value, m, hand, dist, idx, e, swapped, at);
        Update(idx, value);
      }
    }

    /** The loop of insert; there is an empty slot. */
    method Place(key: K, value: V)
      requires Valid() && size < table.Length
      modifies this`size, this`contents, table
      ensures Valid() && contents == old(contents)[key := value]
    {
      ghost var m := contents;
      ghost var e := EmptySlot(table[..], contents);
      ghost var swapped, at := false, 0;
      var hand := Full(key, value, 0);
      var idx, dist := Home(hash(key), table.Length), 0;
      while true
        invariant Walking(table[..], hash, key, value, m, hand, dist, idx, e, swapped, at)
        invariant contents == m && size == |m| < table.Length
        decreases table.Length - dist
      {
        if table[idx].Empty? || table[idx].key == key {
          Arrive(key, value, idx, hand, dist, m, e, swapped, at);
          return;
        }
        hand, swapped, at := Round(key, value, idx, hand, dist, m, e, swapped, at);
        idx := Next(table.Length, idx);
        dist := dist + 1;
      }
    }

    /** A new table without entries. */
    method StartOver(newCapacity: nat)
      requires newCapacity > 0
      modifies this
      ensures Valid() && fresh(table) && table.Length == newCapacity && size == 0 && contents == map[]
    {
      table := new Entry<K, V>[newCapacity](_ => Empty);
      size, contents := 0, map[];
    }

    /**
      resize_table: all entries move into a larger table.  It comes back here through insert
      only if the new table is three quarters full before the last entry moves; insert
      itself never asks for such a table.
      */
    method ResizeTable(newCapacity: nat)
      requires Valid()
      modifies this, table
      ensures Valid() && contents == old(contents)
      ensures newCapacity <= old(table.Length) ==> table == old(table)
      ensures newCapacity > old(table.Length) ==> fresh(table) && table.Length >= newCapacity
      ensures newCapacity > old(table.Length) ==> (table.Length == newCapacity <==> Roomy(old(size), newCapacity))
      decreases if Roomy(size, newCapacity) then 1 else 3, 0
    {
      if newCapacity <= table.Length { return; }
      var oldTable := table;
      ghost var t, m, roomy := table[..], contents, Roomy(size, newCapacity);
      StartOver(newCapacity);
      for i := 0 to oldTable.Length
        invariant Valid() && fresh(table) && table.Length >= newCapacity
        invariant (roomy ==> table.Length == newCapacity) && (table.Length == newCapacity ==> Roomy(size, newCapacity))
        invariant oldTable[..] == t && oldTable != table
        invariant Moved(t, i, m, contents)
      {
        MovedOne(t, i, m, contents);
        if oldTable[i].Full? {
          MovedFewer(t, i, m, contents);
          Move(oldTable[i], t, i, m, newCapacity);
        }
      }
      MovedAll(t, m, contents);
    }

    /** One entry moves. */
    method Move(entry: Entry<K, V>, ghost t: seq<Entry<K, V>>, ghost i: nat, ghost m: map<K, V>, ghost newCapacity: nat)
      requires Valid() && Moved(t, i, m, contents) && i < |t| && entry == t[i] && entry.Full?
      requires table.Length >= newCapacity && (table.Length == newCapacity ==> Roomy(size, newCapacity))
      modifies this, table
      ensures Valid() && Moved(t, i + 1, m, contents)
      ensures (table == old(table) || fresh(table)) && table.Length >= newCapacity
      ensures old(table.Length) == newCapacity && Roomy(|m|, newCapacity) ==> table.Length == newCapacity
      ensures table.Length == newCapacity ==> Roomy(size, newCapacity)
      decreases if 4 * size >= 3 * table.Length then 2 else 0, 1
    {
      MovedOne(t, i, m, contents);
      MovedFewer(t, i, m, contents);
      Insert(entry.key, entry.value);
    }

    /** insert; the table grows first if three quarters of it are full. */
    method Insert(key: K, value: V)
      requires Valid()
      modifies this, table
      ensures Valid() && contents == old(contents)[key := value]
      ensures 4 * old(size) < 3 * old(table.Length) ==> table == old(table)
      ensures 4 * old(size) >= 3 * old(table.Length) ==> fresh(table) && table.Length == 2 * old(table.Length)
      decreases if 4 * size >= 3 * table.Length then 2 else 0, 0
    {
      if 4 * size >= 3 * table.Length {
        ResizeTable(table.Length * 2);
      }
      Place(key, value);
    }
  }

  /** The first entries of the old table are in the new map, and nothing else is. */
  ghost predicate Moved<K(!new), V>(t: seq<Entry<K, V>>, i: nat, m: map<K, V>, now: map<K, V>) {
    && KeysDiffer(t) && Holds(t, Empty, m) && i <= |t|
    && (forall k :: k in now <==> !Absent(t[..i], k))
    && (forall k :: k in now ==> k in m && now[k] == m[k])
  }

  lemma SubsetSize<K>(a: set<K>, b: set<K>)
    requires forall k :: k in a ==> k in b
    ensures |a| <= |b|
  {
    assert b == a + (b - a);
  }

  /** So many entries find room in the table without letting it grow. */
  predicate Roomy(size: nat, capacity: nat) {
    size == 0 || 4 * (size - 1) < 3 * capacity
  }

  lemma MovedFewer<K(!new), V>(t: seq<Entry<K, V>>, i: nat, m: map<K, V>, now: map<K, V>)
    requires Moved(t, i, m, now) && i < |t| && t[i].Full?
    ensures |now| < |m|
  {
    HeldKeys(t, m, t[i].key);
    assert t[i].key !in now by {
      assert Absent(t[..i], t[i].key);
    }
    assert now.Keys + {t[i].key} <= m.Keys;
    SubsetSize(now.Keys + {t[i].key}, m.Keys);
  }

  lemma MovedOne<K(!new), V>(t: seq<Entry<K, V>>, i: nat, m: map<K, V>, now: map<K, V>)
    requires Moved(t, i, m, now) && i < |t|
    ensures Moved(t, i + 1, m, if t[i].Full? then now[t[i].key := t[i].value] else now)
  {
    var next := if t[i].Full? then now[t[i].key := t[i].value] else now;
    forall k ensures k in next <==> !Absent(t[..i + 1], k) {
      if k in next {
        if t[i].Full? && t[i].key == k {
          assert t[..i + 1][i].key == k;
        } else {
          var j :| 0 <= j < i && t[..i][j].Full? && t[..i][j].key == k;
          assert t[..i + 1][j].key == k;
        }
      }
      if !Absent(t[..i + 1], k) {
        var j :| 0 <= j < i + 1 && t[..i + 1][j].Full? && t[..i + 1][j].key == k;
        if j < i { assert t[..i][j].key == k; }
      }
    }
  }

  lemma MovedAll<K(!new), V>(t: seq<Entry<K, V>>, m: map<K, V>, now: map<K, V>)
    requires Moved(t, |t|, m, now)
    ensures now == m
  {
    assert t[..|t|] == t;
    forall k ensures k in now <==> k in m { HeldKeys(t, m, k); }
    SameMap(now, m);
  }

  lemma SameMap<K, V>(a: map<K, V>, b: map<K, V>)
    requires forall k :: k in a <==> k in b
    requires forall k :: k in a ==> a[k] == b[k]
    ensures a == b
  {
  }

  /** The constructor throws for capacity 0. */
  method Create<K(==,!new), V(!new)>(hash: K -> nat, initialCapacity: nat) returns (m: RobinHoodHashMap?<K, V>)
    ensures m == null <==> initialCapacity == 0
    ensures m != null ==> fresh(m) && fresh(m.table) && m.Valid() && m.contents == map[] && m.hash == hash
  {
    if initialCapacity == 0 { return null; }
    m := new RobinHoodHashMap(hash, initialCapacity);
  }

  /** The state of the walk through the slots, dist slots behind the key's home. */
  ghost predicate Walking<K, V>(t: seq<Entry<K, V>>, hash: K -> nat, key: K, value: V, m: map<K, V>, hand: Entry<K, V>,
                                dist: nat, idx: nat, e: nat, swapped: bool, at: nat)
  {
    && Table(t, hash) && hand.Full? && hand.dist == dist
    && OnWay(t, Home(hash(key), |t|), dist, idx, e) && InHand(t, hash, hand, idx)
    && Carries(t, Home(hash(key), |t|), key, value, m, hand, dist, swapped, at)
  }

  /** The entry in hand takes the place of one that stores less, which is now in hand. */
  lemma SwappedInHand<K, V>(t: seq<Entry<K, V>>, hash: K -> nat, m: map<K, V>, idx: nat, hand: Entry<K, V>, dist: nat)
    requires Table(t, hash) && idx < |t| && t[idx].Full? && hand.Full? && t[idx].dist < hand.dist == dist < |t|
    requires InHand(t, hash, hand, idx) && Holds(t, hand, m)
    ensures var r, displaced := t[idx := hand], t[idx].(dist := dist + 1);
      Table(r, hash) && Holds(r, displaced, m) && InHand(r, hash, displaced, Next(|t|, idx))
  {
    PutKeepsTable(t, hash, idx, hand);
    PutHolds(t, hand, m, idx);
    DisplacedIsPaved(t, hash, idx, hand);
    AwayNext(|t|, Home(hash(t[idx].key), |t|), idx);
    assert Placed(t, hash, idx);
  }

  lemma SwappedWalking<K, V>(t: seq<Entry<K, V>>, hash: K -> nat, key: K, value: V, m: map<K, V>, hand: Entry<K, V>,
                             dist: nat, idx: nat, e: nat, swapped: bool, at: nat)
    requires Walking(t, hash, key, value, m, hand, dist, idx, e, swapped, at)
    requires t[idx].Full? && t[idx].key != key && t[idx].dist < dist
    ensures Walking(t[idx := hand], hash, key, value, m, t[idx].(dist := dist + 1), dist + 1, Next(|t|, idx), e, true,
                    if swapped then at else dist)
  {
    var home, next := Home(hash(key), |t|), t[idx].(dist := dist + 1);
    if !swapped { SearchIsOver(t, hash, key, dist); }
    TakeInHand(t, home, key, value, m, hand, dist, swapped, at);
    SwappedInHand(t, hash, m[key := value], idx, hand, dist);
    SwappedOnWay(t, home, dist, idx, e, hand);
    SwappedCarries(t, home, key, value, m, hand, next, dist, swapped, at, e);
  }

  lemma WalkedIn<K, V>(t: seq<Entry<K, V>>, hash: K -> nat, key: K, value: V, m: map<K, V>, hand: Entry<K, V>,
                       dist: nat, idx: nat, e: nat, swapped: bool, at: nat)
    requires Walking(t, hash, key, value, m, hand, dist, idx, e, swapped, at) && t[idx].Empty?
    ensures Holds(t, hand, m[key := value]) && |m[key := value]| == |m| + 1 && hand.dist < |t|
  {
    if !swapped { SearchIsOver(t, hash, key, dist); }
    TakeInHand(t, Home(hash(key), |t|), key, value, m, hand, dist, swapped, at);
  }

  lemma WalkedHome<K, V>(t: seq<Entry<K, V>>, hash: K -> nat, key: K, value: V, m: map<K, V>, hand: Entry<K, V>,
                         dist: nat, idx: nat, e: nat, swapped: bool, at: nat)
    requires Walking(t, hash, key, value, m, hand, dist, idx, e, swapped, at) && t[idx].Full? && t[idx].key == key
    ensures Holds(t, Empty, m)
  {
    NotSwapped(t, Home(hash(key), |t|), key, value, m, hand, dist, swapped, at);
  }

  /** The walk has come over full slots only, and the empty slot e is not behind it. */
  ghost predicate OnWay<K, V>(t: seq<Entry<K, V>>, home: nat, dist: nat, idx: nat, e: nat) {
    && home < |t| && e < |t| && t[e].Empty?
    && dist <= Away(|t|, home, e) && idx == Slot(|t|, home, dist)
    && forall j :: 0 <= j < dist ==> t[Slot(|t|, home, j)].Full?
  }

  lemma StepOnWay<K, V>(t: seq<Entry<K, V>>, home: nat, dist: nat, idx: nat, e: nat)
    requires OnWay(t, home, dist, idx, e) && t[idx].Full?
    ensures OnWay(t, home, dist + 1, Next(|t|, idx), e)
  {
  }

  lemma SwappedOnWay<K, V>(t: seq<Entry<K, V>>, home: nat, dist: nat, idx: nat, e: nat, hand: Entry<K, V>)
    requires OnWay(t, home, dist, idx, e) && t[idx].Full? && hand.Full?
    ensures OnWay(t[idx := hand], home, dist + 1, Next(|t|, idx), e)
  {
    StepOnWay(t, home, dist, idx, e);
  }

  /**
    What the walk carries: first the new entry, and the key has not been met; after a swap
    a displaced one, and the new entry sits at the distance at.
    */
  ghost predicate Carries<K, V>(t: seq<Entry<K, V>>, home: nat, key: K, value: V, m: map<K, V>, hand: Entry<K, V>,
                                dist: nat, swapped: bool, at: nat)
  {
    && home < |t| && dist < |t|
    && if swapped then
      key !in m && Holds(t, hand, m[key := value]) && at < dist &&
      t[Slot(|t|, home, at)].Full? && t[Slot(|t|, home, at)].key == key
    else
      hand == Full(key, value, dist) && Holds(t, Empty, m) &&
      forall j :: 0 <= j < dist ==> t[Slot(|t|, home, j)].Full? && t[Slot(|t|, home, j)].key != key
  }

  lemma StepCarries<K, V>(t: seq<Entry<K, V>>, home: nat, key: K, value: V, m: map<K, V>, hand: Entry<K, V>,
                          dist: nat, swapped: bool, at: nat, e: nat)
    requires Carries(t, home, key, value, m, hand, dist, swapped, at) && hand.Full?
    requires OnWay(t, home, dist, Slot(|t|, home, dist), e) && t[Slot(|t|, home, dist)].Full? && t[Slot(|t|, home, dist)].key != key
    ensures Carries(t, home, key, value, m, hand.(dist := dist + 1), dist + 1, swapped, at)
  {
    StepOnWay(t, home, dist, Slot(|t|, home, dist), e);
    if swapped { CarryHolds(t, hand, m[key := value], dist + 1); }
  }

  lemma SwappedCarries<K, V>(t: seq<Entry<K, V>>, home: nat, key: K, value: V, m: map<K, V>,
                             hand: Entry<K, V>, displaced: Entry<K, V>, dist: nat, swapped: bool, at: nat, e: nat)
    requires Carries(t, home, key, value, m, hand, dist, swapped, at) && hand.Full? && key !in m
    requires OnWay(t, home, dist, Slot(|t|, home, dist), e) && t[Slot(|t|, home, dist)].Full?
    requires Holds(t[Slot(|t|, home, dist) := hand], displaced, m[key := value])
    ensures Carries(t[Slot(|t|, home, dist) := hand], home, key, value, m, displaced, dist + 1, true, if swapped then at else dist)
  {
    StepOnWay(t, home, dist, Slot(|t|, home, dist), e);
  }

  /** Once an entry has been displaced, the key is not met again. */
  lemma NotSwapped<K, V>(t: seq<Entry<K, V>>, home: nat, key: K, value: V, m: map<K, V>, hand: Entry<K, V>,
                         dist: nat, swapped: bool, at: nat)
    requires KeysDiffer(t) && Carries(t, home, key, value, m, hand, dist, swapped, at)
    requires t[Slot(|t|, home, dist)].Full? && t[Slot(|t|, home, dist)].key == key
    ensures !swapped
  {
  }

  /** The entry in hand could go into the slot: its way is paved, and its distance is not too small. */
  ghost predicate InHand<K, V>(t: seq<Entry<K, V>>, hash: K -> nat, hand: Entry<K, V>, idx: nat)
    requires hand.Full? && idx < |t|
  {
    var home := Home(hash(hand.key), |t|);
    Away(|t|, home, idx) <= hand.dist && Paved(t, home, Away(|t|, home, idx))
  }

  lemma EmptySlot<K, V>(t: seq<Entry<K, V>>, m: map<K, V>) returns (e: nat)
    requires KeysDiffer(t) && Holds(t, Empty, m) && |m| < |t|
    ensures e < |t| && t[e].Empty?
  {
    SizeIsFullCount(t, m);
    e :| 0 <= e < |t| && !t[e].Full?;
  }

  /** The key is not in the table: table and hand hold the new map. */
  lemma TakeInHand<K, V>(t: seq<Entry<K, V>>, home: nat, key: K, value: V, m: map<K, V>, hand: Entry<K, V>,
                         dist: nat, swapped: bool, at: nat)
    requires KeysDiffer(t) && Carries(t, home, key, value, m, hand, dist, swapped, at) && (!swapped ==> Absent(t, key))
    ensures Holds(t, hand, m[key := value]) && key !in m && |m[key := value]| == |m| + 1
  {
    if !swapped { HeldKeys(t, m, key); }
    assert m[key := value].Keys == m.Keys + {key};
  }

  lemma AwayNext(n: nat, home: nat, idx: nat)
    requires home < n && idx < n
    ensures Away(n, home, Next(n, idx)) == if Away(n, home, idx) + 1 == n then 0 else Away(n, home, idx) + 1
  {
  }

  /** A slot that stores enough is passed. */
  lemma StepOver<K, V>(t: seq<Entry<K, V>>, hash: K -> nat, hand: Entry<K, V>, idx: nat)
    requires hand.Full? && idx < |t| && InHand(t, hash, hand, idx) && t[idx].Full? && t[idx].dist >= hand.dist
    ensures InHand(t, hash, hand.(dist := hand.dist + 1), Next(|t|, idx))
  {
    var home := Home(hash(hand.key), |t|);
    AwayNext(|t|, home, idx);
    assert Slot(|t|, home, Away(|t|, home, idx)) == idx;
  }
}
