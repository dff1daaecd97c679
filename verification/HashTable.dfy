/**
 * The open-addressing hash map of hashmap_open.c: linear probing with cyclic
 * wrap, growth by rehashing into a larger array, and removal that leaves no
 * tombstone behind.
 */
module HashTable {
  import opened Wrappers

  /** A C string, without its terminating NUL. */
  type Key = seq<byte>

  datatype Entry = Entry(key: Key, value: nat)

  type Slots = seq<Option<Entry>>

  const LOAD_FACTOR := 0.5
  const INITIAL_SIZE: nat := 100
  const MULTIPLIER := 2.0

  // ---------------------------------------------------------------- hashing

  /** A signed char widened to 64 bits. */
  function SignExtend(c: byte): bv64 {
    if c < 128 then c as bv64 else (c as int + 0xFFFF_FFFF_FFFF_FF00) as bv64
  }

  /** One character of the djb2 hash: times 33, exclusive-or the character. */
  function HashStep(h: bv64, c: byte): bv64 {
    ((h << 5) + h) ^ SignExtend(c)
  }

  function HashOf(key: Key): bv64 {
    if key == [] then 5381
    else HashStep(HashOf(key[..|key| - 1]), key[|key| - 1])
  }

  lemma HashSnoc(str: Key, i: nat)
    requires i < |str|
    ensures HashOf(str[..i + 1]) == HashStep(HashOf(str[..i]), str[i])
  {
    assert str[..i + 1][..i] == str[..i];
  }

  method HashCode(str: Key) returns (hash: bv64)
    ensures hash == HashOf(str)
  {
    hash := 5381;
    for i := 0 to |str|
      invariant hash == HashOf(str[..i])
    {
      HashSnoc(str, i);
      hash := HashStep(hash, str[i]);
    }
    assert str[..|str|] == str;
  }

  /** The slot where the search for a key starts. */
  function Home(key: Key, n: nat): (h: nat)
    requires n > 0
    ensures h < n
  {
    HashOf(key) as int % n
  }

  // ------------------------------------------------------- the slot array

  /** The number of filled slots. */
  ghost function Filled(d: Slots): (n: nat)
    ensures n <= |d|
  {
    if d == [] then 0 else Filled(d[..|d| - 1]) + if d[|d| - 1].Some? then 1 else 0
  }

  ghost predicate Holds(d: Slots, j: nat, key: Key) {
    j < |d| && d[j].Some? && d[j].value.key == key
  }

  /** Slot j is where a search for the key that starts at its home first meets it. */
  ghost predicate MetAt(d: Slots, key: Key, j: nat) {
    Holds(d, j, key) && forall i: nat | i < |d| && OnPath(Home(key, |d|), j, i) :: !Holds(d, i, key)
  }

  ghost predicate Stored(d: Slots, key: Key) {
    exists j: nat :: Holds(d, j, key)
  }

  /** No key is stored twice. */
  ghost predicate Distinct(d: Slots) {
    forall i: nat, j: nat | i < |d| && j < |d| && d[i].Some? && d[j].Some? ::
      d[i].value.key == d[j].value.key ==> i == j
  }

  /** The key-to-value map an array of slots stands for. */
  ghost function Contents(d: Slots): map<Key, nat> {
    if d == [] then map[]
    else
      var rest := Contents(d[..|d| - 1]);
      match d[|d| - 1]
      case None => rest
      case Some(e) => rest[e.key := e.value]
  }

  /** Slot i lies on the cyclic probe path that starts at h and stops short of j. */
  ghost predicate OnPath(h: nat, j: nat, i: nat) {
    if h <= j then h <= i < j else h <= i || i < j
  }

  ghost predicate PathFull(d: Slots, h: nat, j: nat) {
    forall i: nat | i < |d| && OnPath(h, j, i) :: d[i].Some?
  }

  /** Every stored key can be reached from its home without crossing an empty slot. */
  ghost predicate WellProbed(d: Slots) {
    forall j: nat | j < |d| && d[j].Some? :: PathFull(d, Home(d[j].value.key, |d|), j)
  }

  /** Slot s is the first empty slot on the probe path of the key. */
  ghost predicate LandsAt(d: Slots, key: Key, s: nat) {
    s < |d| && d[s].None? && PathFull(d, Home(key, |d|), s)
  }

  /** The entry first met under the key has been taken out, and nothing else. */
  ghost predicate TookOut(d: Slots, key: Key, e: Entry, d': Slots) {
    exists s: nat :: MetAt(d, key, s) && d[s] == Some(e) && d' == d[s := None]
  }

  ghost predicate Landed(d: Slots, e: Entry, d': Slots) {
    exists s: nat :: LandsAt(d, e.key, s) && d' == d[s := Some(e)]
  }

  function Next(index: nat, n: nat): (r: nat)
    requires index < n
    ensures r < n
  {
    if index + 1 >= n then 0 else index + 1
  }

  /** How many slots remain before a probe that started at h comes back to it. */
  function Left(h: nat, index: nat, n: nat): int {
    if index >= h then n - (index - h) else h - index
  }

  // ----------------------------------------------------- lemmas on the slots

  lemma {:induction false} ContentsIff(d: Slots, key: Key)
    requires Distinct(d)
    ensures key in Contents(d) <==> Stored(d, key)
    ensures forall j: nat | Holds(d, j, key) :: key in Contents(d) && Contents(d)[key] == d[j].value.value
  {
    if d != [] {
      var n := |d| - 1;
      var p := d[..n];
      ContentsIff(p, key);
      assert forall j: nat | j < n :: Holds(p, j, key) <==> Holds(d, j, key);
      assert Stored(d, key) <==> Stored(p, key) || Holds(d, n, key);
    }
  }

  lemma {:induction false} FillCount(d: Slots, s: nat, e: Entry)
    requires s < |d| && d[s].None?
    ensures Filled(d[s := Some(e)]) == Filled(d) + 1
  {
    var n, d' := |d| - 1, d[s := Some(e)];
    if s == n {
      assert d'[..n] == d[..n];
    } else {
      assert d'[..n] == d[..n][s := Some(e)];
      FillCount(d[..n], s, e);
    }
  }

  /** Filling an empty slot with an absent key adds exactly that entry. */
  lemma {:induction false} Fill(d: Slots, s: nat, e: Entry)
    requires Distinct(d) && s < |d| && d[s].None? && !Stored(d, e.key)
    ensures Distinct(d[s := Some(e)])
    ensures Contents(d[s := Some(e)]) == Contents(d)[e.key := e.value]
  {
    var n, d' := |d| - 1, d[s := Some(e)];
    var p := d[..n];
    assert forall j: nat | j < |d| && d[j].Some? :: Holds(d, j, d[j].value.key);
    if s == n {
      assert d'[..n] == p;
    } else {
      assert d'[..n] == p[s := Some(e)];
      assert forall j: nat | Holds(p, j, e.key) :: Holds(d, j, e.key);
      Fill(p, s, e);
    }
  }

  lemma EmptyCount(d: Slots, s: nat)
    requires s < |d| && d[s].Some?
    ensures Filled(d[s := None]) == Filled(d) - 1
  {
    assert d[s := None][s := d[s]] == d;
    FillCount(d[s := None], s, d[s].value);
  }

  /** Emptying a slot removes exactly its entry. */
  lemma Empty(d: Slots, s: nat)
    requires Distinct(d) && s < |d| && d[s].Some?
    ensures Distinct(d[s := None]) && !Stored(d[s := None], d[s].value.key)
    ensures Contents(d[s := None]) == Contents(d) - {d[s].value.key}
  {
    var d', e := d[s := None], d[s].value;
    assert d'[s := Some(e)] == d;
    assert forall j: nat | Holds(d', j, e.key) :: Holds(d, j, e.key) && j != s;
    Fill(d', s, e);
    ContentsIff(d', e.key);
  }

  /** Taking out the entry met under a key. */
  lemma TakenOut(d: Slots, key: Key, s: nat)
    requires Holds(d, s, key)
    ensures Filled(d[s := None]) == Filled(d) - 1
    ensures Distinct(d) ==> Distinct(d[s := None]) && Contents(d[s := None]) == Contents(d) - {key}
    ensures Distinct(d) ==> key in Contents(d) && d[s].value == Entry(key, Contents(d)[key])
  {
    EmptyCount(d, s);
    if Distinct(d) {
      Empty(d, s);
      ContentsIff(d, key);
    }
  }

  lemma NotStored(d: Slots, key: Key)
    ensures Distinct(d) ==> (key in Contents(d) <==> Stored(d, key))
  {
    if Distinct(d) {
      ContentsIff(d, key);
    }
  }

  lemma {:induction false} NothingStored(d: Slots)
    requires forall j: nat | j < |d| :: d[j].None?
    ensures Filled(d) == 0 && Contents(d) == map[]
  {
    if d != [] {
      NothingStored(d[..|d| - 1]);
    }
  }

  /** An array is full exactly when no slot is empty. */
  lemma {:induction false} FullIff(d: Slots)
    ensures Filled(d) == |d| <==> forall j: nat | j < |d| :: d[j].Some?
  {
    if d != [] {
      var n := |d| - 1;
      FullIff(d[..n]);
      assert forall j: nat | j < n :: d[..n][j] == d[j];
    }
  }

  /** A key lands in one place only. */
  lemma LandingUnique(d: Slots, key: Key, s: nat, s': nat)
    requires LandsAt(d, key, s) && LandsAt(d, key, s')
    ensures s == s'
  {
  }

  /**
   * A landing keeps every stored key reachable. It keeps the keys distinct if and only if the new
   * one was absent, and then adds exactly the new entry.
   */
  lemma Landing(d: Slots, s: nat, e: Entry)
    requires LandsAt(d, e.key, s)
    ensures Landed(d, e, d[s := Some(e)]) && Filled(d[s := Some(e)]) == Filled(d) + 1
    ensures WellProbed(d) ==> WellProbed(d[s := Some(e)])
    ensures Distinct(d) ==> (Distinct(d[s := Some(e)]) <==> e.key !in Contents(d))
    ensures Distinct(d) && e.key !in Contents(d) ==> Contents(d[s := Some(e)]) == Contents(d)[e.key := e.value]
  {
    FillCount(d, s, e);
    if WellProbed(d) {
      LandingKeepsProbed(d, s, e);
    }
    if Distinct(d) {
      ContentsIff(d, e.key);
      if e.key in Contents(d) {
        TwiceStored(d, s, e);
      } else {
        Fill(d, s, e);
      }
    }
  }

  lemma TwiceStored(d: Slots, s: nat, e: Entry)
    requires s < |d| && d[s].None? && Stored(d, e.key)
    ensures !Distinct(d[s := Some(e)])
  {
    var d' := d[s := Some(e)];
    var j: nat :| Holds(d, j, e.key);
    assert d'[j].value.key == d'[s].value.key && j != s;
  }

  lemma LandingKeepsProbed(d: Slots, s: nat, e: Entry)
    requires WellProbed(d) && LandsAt(d, e.key, s)
    ensures WellProbed(d[s := Some(e)])
  {
  }

  /** Taking a reachable key out and landing it again refills the very same slot. */
  lemma Refill(d: Slots, s: nat, e: Entry, d': Slots)
    requires WellProbed(d) && s < |d| && d[s].Some? && d[s].value.key == e.key
    requires Landed(d[s := None], e, d')
    ensures d' == d[s := Some(e)] && WellProbed(d')
  {
    var d1 := d[s := None];
    var t: nat :| LandsAt(d1, e.key, t) && d' == d1[t := Some(e)];
    assert LandsAt(d1, e.key, s);
    LandingUnique(d1, e.key, s, t);
  }

  // ------------------------------------------------------------- growing

  function Limit(n: nat, loadFactor: real): (limit: int) {
    (loadFactor * n as real).Floor
  }

  function Grown(n: nat, multiplier: real): (n': int) {
    (n as real * multiplier).Floor
  }

  /** Limit and grown size are the whole parts of the products. */
  lemma WholeParts(n: nat, loadFactor: real, multiplier: real)
    ensures Limit(n, loadFactor) as real <= loadFactor * n as real < Limit(n, loadFactor) as real + 1.0
    ensures Grown(n, multiplier) as real <= multiplier * n as real < Grown(n, multiplier) as real + 1.0
  {
  }

  lemma Scale(a: real, b: real, x: real)
    requires x >= 0.0
    ensures a <= b ==> a * x <= b * x
    ensures a < b && x > 0.0 ==> a * x < b * x
  {
    if a <= b {
      assert (b - a) * x >= 0.0;
    }
    if a < b && x > 0.0 {
      assert (b - a) * x > 0.0;
    }
  }

  /** Only a load factor of 1 lets the limit reach the array size. */
  lemma LimitBelowSize(n: nat, loadFactor: real)
    requires n > 0 && 0.0 <= loadFactor <= 1.0
    ensures 0 <= Limit(n, loadFactor) <= n
    ensures Limit(n, loadFactor) < n <==> loadFactor < 1.0
  {
    Scale(0.0, loadFactor, n as real);
    Scale(loadFactor, 1.0, n as real);
  }

  function ArrSize(limit: nat): nat {
    if limit >= INITIAL_SIZE then limit else INITIAL_SIZE
  }

  lemma HalfOfInitial()
    ensures Limit(INITIAL_SIZE, LOAD_FACTOR) == 50
  {
  }

  /**
   * The size beyond which a map is rebuilt is the one asked for, from the initial size on, only
   * with a load factor of 1; below it only by coincidence, and below 50 never.
   */
  lemma LimitAsAskedIff(limit: nat, loadFactor: real)
    requires LOAD_FACTOR <= loadFactor <= 1.0
    ensures Limit(ArrSize(limit), loadFactor) == limit <==>
            if limit < 50 then false
            else if limit < INITIAL_SIZE then limit as real <= 100.0 * loadFactor < limit as real + 1.0
            else loadFactor == 1.0
  {
    if limit >= INITIAL_SIZE {
      LimitBelowSize(limit, loadFactor);
    }
  }

  /** The call createHashmap(2, 0.5, 2) gets the limit 50. */
  lemma LimitNotAsAsked()
    ensures Limit(ArrSize(2), LOAD_FACTOR) == 50
  {
    HalfOfInitial();
  }

  /** The limit of the grown array is at least the size of the old one. */
  lemma GrownLimit(n: nat, loadFactor: real, multiplier: real)
    requires loadFactor >= LOAD_FACTOR && multiplier >= MULTIPLIER
    ensures Grown(n, multiplier) >= 2 * n
    ensures Limit(Grown(n, multiplier), loadFactor) >= n
  {
    Scale(MULTIPLIER, multiplier, n as real);
    Scale(LOAD_FACTOR, loadFactor, Grown(n, multiplier) as real);
  }

  // --------------------------------------------------------------- the map

  class Hashmap {
    var data: array<Option<Entry>>
    var size: nat
    var limit: nat
    const loadFactor: real
    const multiplier: real

    /** What holds of a map between any two operations. */
    ghost predicate Sized()
      reads this, data
    {
      && data.Length >= INITIAL_SIZE
      && LOAD_FACTOR <= loadFactor <= 1.0
      && multiplier >= MULTIPLIER
      && limit <= data.Length
      && (limit < data.Length <==> loadFactor < 1.0)
      && size == Filled(data[..])
      && size <= limit + 1
    }

    /** The same of a map in which no key has been put that was stored already. */
    ghost predicate Consistent()
      reads this, data
    {
      Sized() && Distinct(data[..])
    }

    /** A consistent map in which every stored key can still be reached from its home. */
    ghost predicate Valid()
      reads this, data
    {
      Consistent() && WellProbed(data[..])
    }

    /** The probe loop of raw_put stops exactly when there is an empty slot to stop at. */
    ghost predicate CanPut()
      reads this, data
    {
      size <= limit ==> size < data.Length
    }

    constructor (limit: nat, loadFactor: real, multiplier: real)
      ensures Valid() && fresh(data)
      ensures size == 0 && Contents(data[..]) == map[] && forall j | 0 <= j < data.Length :: data[j].None?
      ensures data.Length == ArrSize(limit) == if limit >= 100 then limit else 100
      ensures this.limit == Limit(data.Length, this.loadFactor)
      ensures this.loadFactor == if 0.5 <= loadFactor <= 1.0 then loadFactor else 0.5
      ensures this.multiplier == if multiplier >= 2.0 then multiplier else 2.0
    {
      var arrSize := if limit >= INITIAL_SIZE then limit else INITIAL_SIZE;
      var lf := if loadFactor >= LOAD_FACTOR && loadFactor <= 1.0 then loadFactor else LOAD_FACTOR;
      LimitBelowSize(arrSize, lf);
      this.loadFactor := lf;
      this.limit := Limit(arrSize, lf);
      size := 0;
      this.multiplier := if multiplier >= MULTIPLIER then multiplier else MULTIPLIER;
      data := new Option<Entry>[arrSize](_ => None);
      new;
      NothingStored(data[..]);
    }

    /** The value first met under a key, or None. Gives up at once when the home slot is empty. */
    method Get(key: Key) returns (retVal: Option<nat>)
      requires Sized()
      ensures retVal.Some? <==> data[Home(key, data.Length)].Some? && Stored(data[..], key)
      ensures retVal.Some? ==> exists j: nat :: MetAt(data[..], key, j) && data[j].value.value == retVal.value
      ensures Distinct(data[..]) && retVal.Some? ==> key in Contents(data[..])
      ensures Distinct(data[..]) && retVal.Some? ==> retVal.value == Contents(data[..])[key]
      ensures Distinct(data[..]) && retVal.None? ==> data[Home(key, data.Length)].None? || key !in Contents(data[..])
    {
      ghost var d := data[..];
      if Distinct(d) {
        ContentsIff(d, key);
      }
      var hash := HashCode(key);
      var index: nat := hash as int % data.Length;
      var initIndex := index;
      retVal := None;
      if data[index].Some? {
        if data[index].value.key == key {
          retVal := Some(data[index].value.value);
          assert MetAt(d, key, index);
        } else {
          var found := true;
          while data[index].None? || data[index].value.key != key
            invariant index < data.Length
            invariant forall i: nat | i < |d| && OnPath(initIndex, index, i) :: !Holds(d, i, key)
            decreases Left(initIndex, index, data.Length)
          {
            index := index + 1;
            if index >= data.Length {
              index := 0;
            }
            if index == initIndex {
              assert forall i: nat | i < |d| :: !Holds(d, i, key);
              found := false;
              break;
            }
          }
          if found {
            retVal := Some(data[index].value.value);
            assert MetAt(d, key, index);
          } else {
            retVal := None;
          }
        }
      }
    }

    /** Takes out the entry first met under a key, wherever it is stored, and leaves its slot empty. */
    method Xremove(key: Key) returns (retVal: Option<Entry>)
      requires Sized()
      modifies this`size, data
      ensures Sized() && data == old(data) && limit == old(limit)
      ensures retVal.Some? <==> old(Stored(data[..], key))
      ensures retVal.Some? ==> TookOut(old(data[..]), key, retVal.value, data[..]) && size == old(size) - 1
      ensures retVal.None? ==> data[..] == old(data[..]) && size == old(size)
      ensures old(Distinct(data[..])) ==> Distinct(data[..]) && (retVal.Some? <==> key in old(Contents(data[..])))
      ensures old(Distinct(data[..])) && retVal.Some? ==> retVal.value == Entry(key, old(Contents(data[..]))[key])
      ensures old(Distinct(data[..])) && retVal.Some? ==> Contents(data[..]) == old(Contents(data[..])) - {key}
    {
      hide Contents, Filled, Distinct, HashOf;
      ghost var d := data[..];
      NotStored(d, key);
      var hash := HashCode(key);
      var index: nat := hash as int % data.Length;
      var initIndex := index;
      retVal := None;
      if data[index].Some? && data[index].value.key == key {
        assert MetAt(d, key, index);
        TakenOut(d, key, index);
        retVal := Some(data[index].value);
        data[index] := None;
        assert data[..] == d[index := None];
        size := size - 1;
      } else {
        var found := true;
        while data[index].None? || data[index].value.key != key
          invariant index < data.Length && data[..] == d && size == old(size)
          invariant forall i: nat | i < |d| && OnPath(initIndex, index, i) :: !Holds(d, i, key)
          decreases Left(initIndex, index, data.Length)
        {
          index := index + 1;
          if index >= data.Length {
            index := 0;
          }
          if index == initIndex {
            assert forall i: nat | i < |d| :: !Holds(d, i, key);
            found := false;
            break;
          }
        }
        if found {
          assert MetAt(d, key, index);
          TakenOut(d, key, index);
          retVal := Some(data[index].value);
          data[index] := None;
          assert data[..] == d[index := None];
          size := size - 1;
        } else {
          retVal := None;
        }
      }
    }
  }

  /**
   * Stores an entry, growing the map first when it is over its limit. The code does not look
   * for the key: the keys stay distinct if and only if it was absent.
   */
  method RawPut(map0: Hashmap, e: Entry) returns (m: Hashmap)
    requires map0.Sized() && map0.CanPut()
    modifies map0, map0.data
    ensures m.Sized() && m.size == old(map0.size) + 1
    ensures m.loadFactor == map0.loadFactor && m.multiplier == map0.multiplier
    ensures old(Distinct(map0.data[..])) ==> (Distinct(m.data[..]) <==> e.key !in old(Contents(map0.data[..])))
    ensures old(Distinct(map0.data[..])) && e.key !in old(Contents(map0.data[..])) ==>
              Contents(m.data[..]) == old(Contents(map0.data[..]))[e.key := e.value]
    ensures old(map0.size <= map0.limit) ==>
              m == map0 && m.data == old(map0.data) && m.limit == old(map0.limit) &&
              Landed(old(map0.data[..]), e, m.data[..])
    ensures old(map0.size > map0.limit) ==>
              fresh(m) && fresh(m.data) && WellProbed(m.data[..]) && m.data.Length >= 2 * old(map0.data.Length)
    ensures old(WellProbed(map0.data[..])) ==> WellProbed(m.data[..])
    decreases if map0.size > map0.limit then 2 else 0
  {
    hide Contents, Filled, HashOf, Distinct, WellProbed, Limit;
    var d := map0.data;
    ghost var was := d[..];
    var hash := HashCode(e.key);
    var index: nat := hash as int % d.Length;
    if map0.size <= map0.limit {
      ghost var home := index;
      if d[index].None? {
        d[index] := Some(e);
      } else {
        FullIff(was);
        while d[index].Some?
          invariant index < d.Length && d[..] == was
          invariant PathFull(was, home, index)
          decreases Left(home, index, d.Length)
        {
          index := index + 1;
          if index >= d.Length {
            index := 0;
          }
        }
        d[index] := Some(e);
      }
      assert d[..] == was[index := Some(e)];
      Landing(was, index, e);
      map0.size := map0.size + 1;
      m := map0;
    } else {
      m := RehashUp(map0, e);
    }
  }

  /** Moves every entry of an over-full map, and one new entry, into a larger map. */
  method RehashUp(map0: Hashmap, e: Entry) returns (newMap: Hashmap)
    requires map0.Sized() && map0.size > map0.limit
    ensures newMap.Sized() && WellProbed(newMap.data[..]) && fresh(newMap) && fresh(newMap.data)
    ensures Distinct(map0.data[..]) ==> (Distinct(newMap.data[..]) <==> e.key !in Contents(map0.data[..]))
    ensures Distinct(map0.data[..]) && e.key !in Contents(map0.data[..]) ==>
              Contents(newMap.data[..]) == Contents(map0.data[..])[e.key := e.value]
    ensures newMap.size == map0.size + 1
    ensures newMap.data.Length == Grown(map0.data.Length, map0.multiplier) >= 2 * map0.data.Length
    ensures newMap.limit == Limit(newMap.data.Length, newMap.loadFactor)
    ensures newMap.loadFactor == map0.loadFactor && newMap.multiplier == map0.multiplier
    decreases 1
  {
    ghost var d := map0.data[..];
    GrownLimit(|d|, map0.loadFactor, map0.multiplier);
    newMap := new Hashmap(Grown(map0.data.Length, map0.multiplier), map0.loadFactor, map0.multiplier);
    ghost var limit := newMap.limit;
    for i := 0 to map0.data.Length
      invariant fresh(newMap) && fresh(newMap.data) && newMap.Sized() && WellProbed(newMap.data[..])
      invariant newMap.data.Length == Grown(map0.data.Length, map0.multiplier)
      invariant newMap.loadFactor == map0.loadFactor && newMap.multiplier == map0.multiplier
      invariant newMap.limit == limit >= map0.data.Length
      invariant Distinct(d) ==> Distinct(newMap.data[..]) && Contents(newMap.data[..]) == Contents(d[..i])
      invariant newMap.size == Filled(d[..i]) <= map0.size
    {
      NextSlot(d, i);
      FilledPrefix(d, i + 1);
      if map0.data[i].Some? {
        newMap := RawPut(newMap, map0.data[i].value);
      }
    }
    assert d[..|d|] == d;
    assert newMap.size == map0.size;
    newMap := RawPut(newMap, e);
  }

  /** What one more slot adds to a prefix of the array. */
  lemma {:induction false} NextSlot(d: Slots, i: nat)
    requires i < |d|
    ensures Filled(d[..i + 1]) == Filled(d[..i]) + (if d[i].Some? then 1 else 0)
    ensures d[i].None? ==> Contents(d[..i + 1]) == Contents(d[..i])
    ensures Distinct(d) && d[i].Some? ==> d[i].value.key !in Contents(d[..i])
    ensures d[i].Some? ==> Contents(d[..i + 1]) == Contents(d[..i])[d[i].value.key := d[i].value.value]
  {
    assert d[..i + 1][..i] == d[..i];
    if Distinct(d) && d[i].Some? {
      ContentsIff(d[..i], d[i].value.key);
    }
  }

  lemma {:induction false} FilledPrefix(d: Slots, i: nat)
    requires i <= |d|
    ensures Filled(d[..i]) <= Filled(d)
  {
    if i < |d| {
      FilledPrefix(d[..|d| - 1], i);
      assert d[..|d| - 1][..i] == d[..i];
    } else {
      assert d[..i] == d;
    }
  }

  method Put(map0: Hashmap, key: Key, value: nat) returns (m: Hashmap)
    requires map0.Sized() && map0.CanPut()
    modifies map0, map0.data
    ensures m.Sized() && m.size == old(map0.size) + 1
    ensures m.loadFactor == map0.loadFactor && m.multiplier == map0.multiplier
    ensures (m == map0 || fresh(m)) && (m.data == old(map0.data) || fresh(m.data))
    ensures old(Distinct(map0.data[..])) ==> (Distinct(m.data[..]) <==> key !in old(Contents(map0.data[..])))
    ensures old(Distinct(map0.data[..])) && key !in old(Contents(map0.data[..])) ==>
              Contents(m.data[..]) == old(Contents(map0.data[..]))[key := value]
    ensures old(map0.size <= map0.limit) ==>
              m == map0 && m.data == old(map0.data) && m.limit == old(map0.limit) &&
              Landed(old(map0.data[..]), Entry(key, value), m.data[..])
    ensures old(WellProbed(map0.data[..])) ==> WellProbed(m.data[..])
  {
    m := RawPut(map0, Entry(key, value));
  }

  // ---------------------------------------------- what get can and cannot see

  /** What get reports as present: a stored key whose home slot is not empty. */
  ghost predicate Visible(d: Slots, key: Key)
    requires |d| > 0
  {
    d[Home(key, |d|)].Some? && Stored(d, key)
  }

  /** In a well-probed map get finds a key exactly when the key is stored. */
  lemma GetFindsStored(d: Slots, key: Key)
    requires |d| > 0 && WellProbed(d)
    ensures Visible(d, key) <==> Stored(d, key)
  {
    if Stored(d, key) {
      var j: nat :| Holds(d, j, key);
      var h := Home(key, |d|);
      assert OnPath(h, j, h) || h == j;
    }
  }

  /** Emptying a slot hides exactly those other keys that have it as their home. */
  lemma XremoveHidesExactly(d: Slots, s: nat, other: Key)
    requires WellProbed(d) && Distinct(d) && s < |d| && d[s].Some?
    requires Stored(d, other) && other != d[s].value.key
    ensures Stored(d[s := None], other)
    ensures Visible(d[s := None], other) <==> Home(other, |d|) != s
  {
    var d' := d[s := None];
    var j: nat :| Holds(d, j, other);
    assert Holds(d', j, other);
    GetFindsStored(d, other);
  }

  /** The one-letter keys "4" and "P" collide in a table of the initial size. */
  lemma SameHome()
    ensures Home([0x34], INITIAL_SIZE) == Home([0x50], INITIAL_SIZE) == 53
  {
    var a: Key, b: Key := [0x34], [0x50];
    assert a[..0] == [] && b[..0] == [];
    assert HashOf(a) == HashStep(5381, 0x34) == 177553;
    assert HashOf(b) == HashStep(5381, 0x50) == 177653;
  }

  /** Two one-letter keys with the same home: removing the first makes get miss the second. */
  lemma XremoveAloneLosesAKey()
    ensures exists d: Slots, s: nat, other: Key ::
              && |d| == INITIAL_SIZE && Distinct(d) && WellProbed(d)
              && s < |d| && d[s].Some? && Visible(d, other) && other != d[s].value.key
              && Stored(d[s := None], other) && !Visible(d[s := None], other)
  {
    var a: Key, b: Key := [0x34], [0x50];
    SameHome();
    var d: Slots := seq(100, i => if i == 53 then Some(Entry(a, 1)) else if i == 54 then Some(Entry(b, 1)) else None);
    assert Holds(d, 54, b);
    XremoveHidesExactly(d, 53, b);
    GetFindsStored(d, b);
  }

  /** In an empty table a key lands at its home. */
  lemma LandsHome(d: Slots, e: Entry, d': Slots)
    requires |d| > 0 && (forall j: nat | j < |d| :: d[j].None?) && Landed(d, e, d')
    ensures d' == d[Home(e.key, |d|) := Some(e)]
  {
    var h := Home(e.key, |d|);
    var s: nat :| LandsAt(d, e.key, s) && d' == d[s := Some(e)];
    assert s != h ==> OnPath(h, s, h);
  }

  /** A byte above 127 counts as a negative number. */
  lemma SignedHash()
    ensures HashOf([0xE0]) == 0xFFFF_FFFF_FFFD_4A45 && Home([0xE0], INITIAL_SIZE) == 21
    ensures HashOf([0x80]) == 0xFFFFFFFFFFFD4A25 && HashOf([0x7F]) == 0x2B5DA
  {
    var key: Key := [0xE0];
    assert key[..0] == [];
    assert HashOf(key) == HashStep(5381, 0xE0);
    var least: Key, most: Key := [0x80], [0x7F];
    assert least[..0] == [] && most[..0] == [];
    assert HashOf(least) == HashStep(5381, 0x80) && HashOf(most) == HashStep(5381, 0x7F);
  }

  /** The same by calls alone: after put, put and xremove get does not find a key that is stored. */
  method LoseAKey() returns (m: Hashmap, retVal: Option<nat>)
    ensures m.Consistent() && [0x50] in Contents(m.data[..]) && retVal == None
  {
    hide Contents, Filled, HashOf, Limit, WellProbed, Home;
    var a: Key, b: Key := [0x34], [0x50];
    m := new Hashmap(INITIAL_SIZE, LOAD_FACTOR, MULTIPLIER);
    ghost var d0 := m.data[..];
    HalfOfInitial();
    SameHome();
    m := Put(m, a, 1);
    LandsHome(d0, Entry(a, 1), m.data[..]);
    m := Put(m, b, 1);
    ghost var d := m.data[..];
    assert Holds(d, 53, a);
    var e := m.Xremove(a);
    ghost var s: nat :| Holds(d, s, a) && m.data[..] == d[s := None];
    assert s == 53;
    retVal := m.Get(b);
  }

  /** Putting a stored key again has no effect on get: the old entry is still met first. */
  lemma SecondPutUnseen(d: Slots, e: Entry, j: nat, d': Slots)
    requires WellProbed(d) && MetAt(d, e.key, j) && Landed(d, e, d')
    ensures MetAt(d', e.key, j) && d'[j] == d[j]
  {
    var s: nat :| LandsAt(d, e.key, s) && d' == d[s := Some(e)];
    assert PathFull(d, Home(e.key, |d|), j);
  }

  // -------------------------------------------------------- ending the probe

  /** The slot a probe reaches after i steps. */
  function After(h: nat, i: nat, n: nat): (r: nat)
    requires h < n
    ensures r < n
  {
    if i == 0 then h else Next(After(h, i - 1, n), n)
  }

  lemma {:induction false} AfterReaches(h: nat, i: nat, n: nat)
    requires h < n && i < n
    ensures After(h, i, n) == if h + i < n then h + i else h + i - n
  {
    if i > 0 {
      AfterReaches(h, i - 1, n);
    }
  }

  /** How far along the ring j lies from h. */
  function Distance(h: nat, j: nat, n: nat): int {
    if h <= j then j - h else j + n - h
  }

  /** The slots on the path to j are those a probe from h visits before it comes to j. */
  lemma OnPathIff(h: nat, j: nat, i: nat, n: nat)
    requires h < n && j < n && i < n
    ensures OnPath(h, j, i) <==> exists k: nat :: k < Distance(h, j, n) && After(h, k, n) == i
  {
    var k := Distance(h, i, n);
    AfterReaches(h, k, n);
    forall k: nat | k < Distance(h, j, n) ensures After(h, k, n) == if h + k < n then h + k else h + k - n {
      AfterReaches(h, k, n);
    }
  }

  /** The probe loop of raw_put ends if and only if the table is not full. */
  lemma ProbeEndsIffNotFull(d: Slots, h: nat)
    requires h < |d|
    ensures (exists i: nat :: d[After(h, i, |d|)].None?) <==> Filled(d) < |d|
  {
    FullIff(d);
    if Filled(d) < |d| {
      var f: nat :| f < |d| && d[f].None?;
      var i := if h <= f then f - h else f + |d| - h;
      AfterReaches(h, i, |d|);
      assert d[After(h, i, |d|)].None?;
    }
  }

  /** With a load factor below 1 there is always room; with 1 only until the table is full. */
  lemma RoomForAnother(m: Hashmap)
    requires m.Sized()
    ensures m.CanPut() <==> m.loadFactor < 1.0 || m.size < m.data.Length
  {
  }

  /** A map that createHashmap and a hundred puts lead to, in which no probe for a free slot ends. */
  method FullTable() returns (m: Hashmap)
    ensures m.Consistent() && m.loadFactor == 1.0 && !m.CanPut()
    ensures forall key, i: nat :: m.data[After(Home(key, m.data.Length), i, m.data.Length)].Some?
  {
    hide Contents, Filled, HashOf, Home, After;
    m := new Hashmap(INITIAL_SIZE, 1.0, MULTIPLIER);
    var key: Key := [];
    while |key| < INITIAL_SIZE
      invariant |key| <= INITIAL_SIZE == m.data.Length && fresh(m) && fresh(m.data)
      invariant m.Consistent() && m.loadFactor == 1.0 && m.size == |key|
      invariant forall k | k in Contents(m.data[..]) :: |k| < |key|
    {
      m := Put(m, key, 1);
      key := key + [1];
    }
    FullIff(m.data[..]);
  }
}
