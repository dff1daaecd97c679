/**
 * The chained hash maps of 17_log_reader/main.c. url_map and ref_map differ only in what an
 * update does to a value, so the one class serves both.
 */
module ChainMap {
  import opened Wrappers
  import opened LogTally

  /** The djb2 hash: times 33, plus the character as a signed number, modulo 2^64. */
  function HashOf(str: Text): (h: size_t) {
    if str == [] then 5381
    else
      (33 * HashOf(str[..|str| - 1]) + Signed(str[|str| - 1])) % SIZE_MODULUS
  }

  lemma HashSnoc(str: Text, i: nat)
    requires i < |str|
    ensures HashOf(str[..i + 1]) == (33 * HashOf(str[..i]) + Signed(str[i])) % SIZE_MODULUS
  {
    assert str[..i + 1][..i] == str[..i];
  }

  /** A char as the int it is widened to. */
  function Signed(c: byte): int {
    if c < 128 then c as int else c as int - 256
  }

  /** The hash loop, in 64-bit arithmetic. */
  method Hash(str: Text) returns (h: size_t)
    ensures h == HashOf(str)
  {
    hide HashOf;
    EmptyHash();
    h := 5381;
    for i := 0 to |str|
      invariant h == HashOf(str[..i])
    {
      HashSnoc(str, i);
      h := (33 * h + Signed(str[i])) % SIZE_MODULUS;
    }
    assert str[..|str|] == str;
  }

  lemma EmptyHash()
    ensures HashOf([]) == 5381
  {
  }

  /** The polynomial in 33 that the characters are the coefficients of. */
  function Polynomial(str: Text): int {
    if str == [] then 5381 else 33 * Polynomial(str[..|str| - 1]) + Signed(str[|str| - 1])
  }

  lemma TimesModulo(x: int, c: int)
    ensures (33 * (x % SIZE_MODULUS) + c) % SIZE_MODULUS == (33 * x + c) % SIZE_MODULUS
  {
    var q := x / SIZE_MODULUS;
    assert 33 * x + c == 33 * (x % SIZE_MODULUS) + c + 33 * q * SIZE_MODULUS;
    ModuloMultiple(33 * (x % SIZE_MODULUS) + c, 33 * q);
  }

  lemma ModuloMultiple(x: int, q: int)
    ensures (x + q * SIZE_MODULUS) % SIZE_MODULUS == x % SIZE_MODULUS
  {
  }

  /** The hash is the polynomial modulo 2^64. */
  lemma {:induction false} HashIs(str: Text)
    ensures HashOf(str) == Polynomial(str) % 0x1_0000_0000_0000_0000
  {
    if str != [] {
      HashIs(str[..|str| - 1]);
      TimesModulo(Polynomial(str[..|str| - 1]), Signed(str[|str| - 1]));
    }
  }

  /** One character: bytes above 127 are negative. */
  lemma HashOfOne(c: byte)
    ensures HashOf([c]) == 177573 + if c <= 0x7F then c as int else c as int - 0x100
  {
    var key: Text := [c];
    assert key[..0] == [];
  }

  function BucketOf(key: Text, size: nat): (h: nat)
    requires size > 0
    ensures h < size
  {
    HashOf(key) % size
  }

  lemma BucketIs(key: Text, size: nat)
    requires size > 0
    ensures BucketOf(key, size) == HashOf(key) % size
  {
  }

  class Entry<V> {
    const key: Text
    const next: Entry?<V>
    var value: V

    constructor (key: Text, value: V, next: Entry?<V>)
      ensures this.key == key && this.value == value && this.next == next
    {
      this.key, this.value, this.next := key, value, next;
    }
  }

  /** The entries reached from a bucket's head pointer, in order. */
  ghost predicate Chain<V>(head: Entry?<V>, nodes: seq<Entry<V>>) {
    if nodes == [] then head == null else head == nodes[0] && Chain(nodes[0].next, nodes[1..])
  }

  ghost predicate DistinctKeys<V>(nodes: seq<Entry<V>>) {
    forall i, j | 0 <= i < j < |nodes| :: nodes[i].key != nodes[j].key
  }

  ghost predicate KeyIn<V>(nodes: seq<Entry<V>>, key: Text) {
    exists e | e in nodes :: e.key == key
  }

  /** Every key with a value has an entry in its bucket. */
  ghost predicate Covers<V>(chains: seq<seq<Entry<V>>>, keys: set<Text>) {
    |chains| > 0 && forall key | key in keys :: KeyIn(chains[BucketOf(key, |chains|)], key)
  }

  lemma CoversAfterPrepend<V>(chains: seq<seq<Entry<V>>>, keys: set<Text>, e: Entry<V>)
    requires Covers(chains, keys)
    ensures var h := BucketOf(e.key, |chains|);
            Covers(chains[h := [e] + chains[h]], keys + {e.key})
  {
    hide BucketOf;
    var h := BucketOf(e.key, |chains|);
    var after := chains[h := [e] + chains[h]];
    forall key | key in keys + {e.key} ensures KeyIn(after[BucketOf(key, |after|)], key) {
      if key == e.key {
        assert e in after[h];
      } else {
        var x :| x in chains[BucketOf(key, |chains|)] && x.key == key;
        assert x in after[BucketOf(key, |chains|)];
      }
    }
  }

  lemma NotKeyIn<V>(nodes: seq<Entry<V>>, key: Text)
    requires !KeyIn(nodes, key)
    ensures forall e | e in nodes :: e.key != key
  {
  }

  class HashMap<V> {
    const buckets: array<Entry?<V>>
    ghost var chains: seq<seq<Entry<V>>>
    ghost var entries: set<Entry<V>>
    ghost var contents: map<Text, V>

    /** Bucket h holds exactly the keys that hash to h, each once. */
    ghost predicate Shaped()
      reads this, buckets
    {
      && |chains| == buckets.Length > 0
      && forall h | 0 <= h < |chains| ::
        && Chain(buckets[h], chains[h]) && DistinctKeys(chains[h])
        && forall e | e in chains[h] :: e in entries && BucketOf(e.key, |chains|) == h
    }

    ghost predicate Valid()
      reads this, buckets, entries
    {
      && Shaped()
      && (forall e | e in entries ::
            BucketOf(e.key, |chains|) < |chains| && e in chains[BucketOf(e.key, |chains|)] &&
            e.key in contents && contents[e.key] == e.value)
      && Covers(chains, contents.Keys)
    }

    constructor (size: nat)
      requires size > 0
      ensures Valid() && contents == map[] && buckets.Length == size && fresh(buckets) && entries == {}
    {
      buckets := new Entry?<V>[size](_ => null);
      chains := seq(size, _ => []);
      entries, contents := {}, map[];
    }

    /** Walks a chain to the entry of the key, or to its end. */
    method Find(key: Text, h: nat) returns (e: Entry?<V>)
      requires Shaped() && h < buckets.Length
      ensures e != null ==> e in chains[h] && e.key == key
      ensures e == null ==> !KeyIn(chains[h], key)
    {
      hide BucketOf, HashOf;
      e := buckets[h];
      ghost var rest := chains[h];
      while e != null
        invariant Chain(e, rest) && (forall x | x in rest :: x in chains[h])
        invariant KeyIn(chains[h], key) ==> KeyIn(rest, key)
        decreases |rest|
      {
        if e.key == key {
          return;
        }
        assert rest == [e] + rest[1..];
        e := e.next;
        rest := rest[1..];
      }
    }

    /** Puts a new entry in front of its chain. */
    method Prepend(key: Text, value: V, h: nat)
      requires Valid() && h == BucketOf(key, buckets.Length) && !KeyIn(chains[h], key)
      modifies this, buckets
      ensures Valid() && fresh(entries - old(entries)) && old(entries) <= entries
      ensures contents == old(contents)[key := value]
      ensures chains[h] != [] && chains == old(chains)[h := [chains[h][0]] + old(chains)[h]]
    {
      hide BucketOf, HashOf, KeyIn, Covers;
      assert Shaped();
      NotKeyIn(chains[h], key);
      var newE := new Entry(key, value, buckets[h]);
      ghost var was, now := chains[h], [newE] + chains[h];
      assert now[1..] == was;
      chains := chains[h := now];
      entries := entries + {newE};
      contents := contents[key := value];
      buckets[h] := newE;
      assert Chain(newE, now) && DistinctKeys(now);
      assert forall i | 0 <= i < |chains| && i != h :: chains[i] == old(chains)[i] && buckets[i] == old(buckets[i]);
      CoversAfterPrepend(old(chains), old(contents).Keys, newE);
      assert contents.Keys == old(contents).Keys + {key};
    }

    /** Changes the value of an entry in place; no other entry has its key. */
    method Assign(e: Entry<V>, value: V)
      requires Valid() && e in entries
      modifies this`contents, e
      ensures Valid() && entries == old(entries) && chains == old(chains)
      ensures contents == old(contents)[e.key := value]
    {
      hide BucketOf, HashOf, Chain, KeyIn, Covers;
      assert forall x | x in entries && x.key == e.key :: x == e;
      e.value := value;
      contents := contents[e.key := value];
      assert contents.Keys == old(contents).Keys;
    }

    /** Changes the value of the key in place, or puts a new entry in front of its chain. */
    method Update(key: Text, onHit: V -> V, onMiss: V)
      requires Valid()
      modifies this, buckets, entries
      ensures Valid() && fresh(entries - old(entries)) && old(entries) <= entries
      ensures contents == old(contents)[key := if key in old(contents) then onHit(old(contents)[key]) else onMiss]
    {
      hide BucketOf, HashOf, Chain, DistinctKeys;
      var hash := Hash(key);
      var h := hash % buckets.Length;
      BucketIs(key, buckets.Length);
      var e := Find(key, h);
      if e != null {
        Assign(e, onHit(e.value));
      } else {
        Prepend(key, onMiss, h);
      }
    }

    /** Lists the entries, bucket by bucket. */
    method Collect() returns (arr: seq<Entry<V>>)
      requires Valid()
      ensures DistinctKeys(arr)
      ensures forall e | e in arr :: e.key in contents && e.value == contents[e.key]
      ensures forall key | key in contents :: KeyIn(arr, key)
    {
      hide BucketOf, HashOf, KeyIn, DistinctKeys;
      arr := [];
      for i := 0 to buckets.Length
        invariant arr == Flatten(chains[..i])
      {
        var e := buckets[i];
        ghost var rest := chains[i];
        while e != null
          invariant Chain(e, rest) && arr + rest == Flatten(chains[..i]) + chains[i]
          decreases |rest|
        {
          assert arr + rest == (arr + [rest[0]]) + rest[1..];
          arr := arr + [e];
          e := e.next;
          rest := rest[1..];
        }
        assert chains[..i + 1][..i] == chains[..i];
        assert arr == Flatten(chains[..i + 1]);
      }
      assert chains[..|chains|] == chains;
      forall e | e in arr ensures e in entries {
        var h := ListedFrom(chains, e);
      }
      EachKeyOnce(chains);
      Covered(chains, contents.Keys);
    }
  }

  ghost function Flatten<V>(chains: seq<seq<Entry<V>>>): seq<Entry<V>> {
    if chains == [] then [] else Flatten(chains[..|chains| - 1]) + chains[|chains| - 1]
  }

  lemma {:induction false} Listed<V>(chains: seq<seq<Entry<V>>>, h: nat)
    requires h < |chains|
    ensures forall e | e in chains[h] :: e in Flatten(chains)
  {
    if h < |chains| - 1 {
      Listed(chains[..|chains| - 1], h);
    }
  }

  lemma {:induction false} ListedFrom<V>(chains: seq<seq<Entry<V>>>, e: Entry<V>) returns (h: nat)
    requires e in Flatten(chains)
    ensures h < |chains| && e in chains[h]
  {
    h := |chains| - 1;
    if e !in chains[h] {
      h := ListedFrom(chains[..h], e);
    }
  }

  /** Chains of distinct keys, each key in the chain it hashes to, list every key once. */
  lemma {:induction false} EachKeyOnce<V>(chains: seq<seq<Entry<V>>>, size: nat := |chains|)
    requires |chains| <= size && size > 0
    requires forall h, e | 0 <= h < |chains| && e in chains[h] :: BucketOf(e.key, size) == h
    requires forall h | 0 <= h < |chains| :: DistinctKeys(chains[h])
    ensures DistinctKeys(Flatten(chains))
  {
    hide BucketOf;
    if chains != [] {
      var n := |chains| - 1;
      var p := chains[..n];
      EachKeyOnce(p, size);
      forall e, x | e in Flatten(p) && x in chains[n] ensures e.key != x.key {
        var h := ListedFrom(p, e);
        assert BucketOf(e.key, size) == h && BucketOf(x.key, size) == n;
      }
    }
  }

  lemma Covered<V>(chains: seq<seq<Entry<V>>>, keys: set<Text>)
    requires Covers(chains, keys)
    ensures forall key | key in keys :: KeyIn(Flatten(chains), key)
  {
    hide BucketOf, Flatten;
    forall key | key in keys ensures KeyIn(Flatten(chains), key) {
      Listed(chains, BucketOf(key, |chains|));
      var e :| e in chains[BucketOf(key, |chains|)] && e.key == key;
      assert e in Flatten(chains);
    }
  }

  /** url_map_add: a line without bytes leaves no trace. */
  method UrlMapAdd(urls: HashMap<size_t>, key: Text, bytes: size_t)
    requires urls.Valid()
    modifies urls, urls.buckets, urls.entries
    ensures urls.Valid() && fresh(urls.entries - old(urls.entries))
    ensures forall t: Tally | t.urls == old(urls.contents) ::
              urls.contents == if bytes == 0 then t.urls else Apply(t, AddUrl(key, bytes)).urls
  {
    hide HashMap.Valid;
    if bytes == 0 {
      return;
    }
    urls.Update(key, v => Plus(v, bytes), bytes);
  }

  /** ref_map_inc. */
  method RefMapInc(refs: HashMap<nat>, key: Text)
    requires refs.Valid()
    modifies refs, refs.buckets, refs.entries
    ensures refs.Valid() && fresh(refs.entries - old(refs.entries))
    ensures forall t: Tally | t.refs == old(refs.contents) :: refs.contents == Apply(t, IncRef(key)).refs
  {
    hide HashMap.Valid;
    refs.Update(key, v => v + 1, 1);
  }
}
