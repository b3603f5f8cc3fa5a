/**
 The string map of gguf-tools/deepseek4-quantize.c:352-394: built once from a list of keys, looked up by linear probing.
 Unlike the tokenizer's table it stores a repeated key again, and a lookup finds the first of them.
 */
module NameMap {
  import opened ByteEncoding
  import opened StrTable

  /** The slot of key number v, which sits dist[v] probes from its hash. */
  function Home(keys: seq<Key>, hash: Key -> nat, dist: seq<nat>, v: nat, cap: nat): (i: nat)
    requires v < |dist| <= |keys| && cap > 0
    ensures i < cap
  {
    Slot(hash(keys[v]), dist[v], cap)
  }

  /** Key v is where it belongs, and no slot before that on its path is free. */
  ghost predicate Stored(slots: seq<Entry>, keys: seq<Key>, hash: Key -> nat, dist: seq<nat>, v: nat)
    requires v < |dist| <= |keys| && |slots| > 0
  {
    && dist[v] < |slots|
    && slots[Home(keys, hash, dist, v, |slots|)] == Entry(true, keys[v], v)
    && forall j: nat :: j < dist[v] ==> slots[Slot(hash(keys[v]), j, |slots|)].used
  }

  /** The first |dist| keys are stored, nothing else is, and equal keys lie in the order in which they came. */
  ghost predicate Holding(slots: seq<Entry>, keys: seq<Key>, hash: Key -> nat, dist: seq<nat>) {
    && |dist| <= |keys| && |slots| > 0
    && (forall v :: 0 <= v < |dist| ==> Stored(slots, keys, hash, dist, v))
    && (forall i :: 0 <= i < |slots| && slots[i].used ==>
          0 <= slots[i].value < |dist| && Home(keys, hash, dist, slots[i].value, |slots|) == i)
    && (forall u, v :: 0 <= u < v < |dist| && keys[u] == keys[v] ==> dist[u] < dist[v])
  }

  lemma SlotInjective(h: nat, a: nat, b: nat, cap: nat)
    requires a < b < cap
    ensures Slot(h, a, cap) != Slot(h, b, cap)
  {
    var qa, qb := (h + a) / cap, (h + b) / cap;
    if Slot(h, a, cap) == Slot(h, b, cap) {
      assert h + a == cap * qa + (h + a) % cap && h + b == cap * qb + (h + b) % cap;
      TooClose(qb - qa, cap, b - a);
    }
  }

  lemma TooClose(d: int, cap: nat, x: nat)
    requires 0 < x < cap
    ensures x != cap * d
  {
    if d >= 1 { assert cap * (d - 1) >= 0; }
    if d <= 0 { assert cap * (0 - d) >= 0; }
  }

  ghost function Elements(s: seq<nat>): (r: set<nat>)
    ensures |r| <= |s| && forall i :: 0 <= i < |s| ==> s[i] in r
  {
    if |s| == 0 then {} else Elements(s[..|s| - 1]) + {s[|s| - 1]}
  }

  ghost function Homes(keys: seq<Key>, hash: Key -> nat, dist: seq<nat>, cap: nat): (r: seq<nat>)
    requires |dist| <= |keys| && cap > 0
    ensures |r| == |dist| && forall v :: 0 <= v < |dist| ==> r[v] == Home(keys, hash, dist, v, cap)
  {
    seq(|dist|, v requires 0 <= v < |dist| => Home(keys, hash, dist, v, cap))
  }

  lemma UsedIsTaken(slots: seq<Entry>, keys: seq<Key>, hash: Key -> nat, dist: seq<nat>, i: nat)
    requires Holding(slots, keys, hash, dist) && i < |slots|
    ensures slots[i].used ==> i in Elements(Homes(keys, hash, dist, |slots|))
  {
    hide Slot, Stored;
    if slots[i].used { assert Homes(keys, hash, dist, |slots|)[slots[i].value] == i; }
  }

  /** Fewer keys than slots leave a slot free, and every probe path meets it. */
  lemma FreeOnPath(slots: seq<Entry>, keys: seq<Key>, hash: Key -> nat, dist: seq<nat>, h: nat) returns (e: nat)
    requires Holding(slots, keys, hash, dist) && |dist| < |slots|
    ensures e < |slots| && !slots[Slot(h, e, |slots|)].used
  {
    hide Slot, Stored;
    var homes := Homes(keys, hash, dist, |slots|);
    var all := Range(|slots|);
    var taken := Elements(homes);
    if all <= taken { SubsetSize(all, taken); }
    var i: nat :| i in all && i !in taken;
    UsedIsTaken(slots, keys, hash, dist, i);
    e := SlotReaches(h, i, |slots|);
  }

  /** Storing the next key in the first free slot of its path. */
  lemma StoreNext(slots: seq<Entry>, keys: seq<Key>, hash: Key -> nat, dist: seq<nat>, d: nat)
    requires Holding(slots, keys, hash, dist) && |dist| < |keys| && d < |slots|
    requires !slots[Slot(hash(keys[|dist|]), d, |slots|)].used
    requires forall j: nat :: j < d ==> slots[Slot(hash(keys[|dist|]), j, |slots|)].used
    ensures var n := |dist|;
      Holding(slots[Slot(hash(keys[n]), d, |slots|) := Entry(true, keys[n], n)], keys, hash, dist + [d])
  {
    var n, cap := |dist|, |slots|;
    var at := Slot(hash(keys[n]), d, cap);
    var slots', dist' := slots[at := Entry(true, keys[n], n)], dist + [d];
    forall v | 0 <= v < n
      ensures Stored(slots', keys, hash, dist', v)
      ensures keys[v] == keys[n] ==> dist[v] < d
    {
      assert Stored(slots, keys, hash, dist, v);
      assert Home(keys, hash, dist', v, cap) == Home(keys, hash, dist, v, cap);
    }
    assert Home(keys, hash, dist', n, cap) == at;
    assert Stored(slots', keys, hash, dist', n);
    forall i | 0 <= i < cap && slots'[i].used
      ensures 0 <= slots'[i].value < n + 1 && Home(keys, hash, dist', slots'[i].value, cap) == i
    {
      if i != at { assert Home(keys, hash, dist', slots[i].value, cap) == Home(keys, hash, dist, slots[i].value, cap); }
    }
  }

  /** The first slot on the path of a key that holds it holds the first such key. */
  lemma FoundIsFirst(slots: seq<Entry>, keys: seq<Key>, hash: Key -> nat, dist: seq<nat>, key: Key, d: nat)
    requires Holding(slots, keys, hash, dist) && |dist| == |keys| && d < |slots|
    requires var s := slots[Slot(hash(key), d, |slots|)]; s.used && s.key == key
    requires forall j: nat :: j < d ==>
               slots[Slot(hash(key), j, |slots|)].used && slots[Slot(hash(key), j, |slots|)].key != key
    ensures var v := slots[Slot(hash(key), d, |slots|)].value;
      0 <= v < |keys| && keys[v] == key && forall u :: 0 <= u < v ==> keys[u] != key
  {
    var cap := |slots|;
    var at := Slot(hash(key), d, cap);
    var v := slots[at].value;
    assert Home(keys, hash, dist, v, cap) == at && Stored(slots, keys, hash, dist, v);
    assert keys[v] == key && dist[v] < cap;
    if d < dist[v] { SlotInjective(hash(key), d, dist[v], cap); }
    forall u | 0 <= u < v
      ensures keys[u] != key
    {
      assert Stored(slots, keys, hash, dist, u);
    }
  }

  /** A path that is searched up to a free slot does not hold the key. */
  lemma AbsentAtFree(slots: seq<Entry>, keys: seq<Key>, hash: Key -> nat, dist: seq<nat>, key: Key, d: nat)
    requires Holding(slots, keys, hash, dist) && |dist| == |keys|
    requires !slots[Slot(hash(key), d, |slots|)].used
    requires forall j: nat :: j < d ==>
               slots[Slot(hash(key), j, |slots|)].used && slots[Slot(hash(key), j, |slots|)].key != key
    ensures key !in keys
  {
    forall u | 0 <= u < |keys|
      ensures keys[u] != key
    {
      assert Stored(slots, keys, hash, dist, u);
    }
  }

  class StringMap {
    const hash: Key -> nat
    const keys: seq<Key>
    var slots: array<Entry>
    ghost var dist: seq<nat>

    ghost predicate Valid()
      reads this, slots
    {
      Holding(slots[..], keys, hash, dist) && |dist| == |keys| < slots.Length
    }

    /** hmap_build */
    constructor (hash: Key -> nat, keys: seq<Key>)
      ensures Valid() && fresh(slots) && this.hash == hash && this.keys == keys
    {
      var cap, k := NextPow2(|keys| * 3);
      this.hash, this.keys := hash, keys;
      slots := new Entry[cap](_ => Entry(false, [], 0));
      dist := [];
      new;
      for i := 0 to |keys|
        invariant fresh(slots) && slots.Length > |keys| && |dist| == i
        invariant Holding(slots[..], keys, hash, dist)
      {
        var p, d := FreeSlotFor(keys[i]);
        StoreNext(slots[..], keys, hash, dist, d);
        ghost var was := slots[..];
        slots[p] := Entry(true, keys[i], i);
        assert slots[..] == was[p := Entry(true, keys[i], i)];
        dist := dist + [d];
      }
    }

    /** The probing loop of hmap_build: the first free slot. */
    method FreeSlotFor(key: Key) returns (p: nat, ghost d: nat)
      requires Holding(slots[..], keys, hash, dist) && |dist| < slots.Length
      ensures d < slots.Length && p == Slot(hash(key), d, slots.Length) && !slots[p].used
      ensures forall j: nat :: j < d ==> slots[Slot(hash(key), j, slots.Length)].used
    {
      hide Holding;
      p := hash(key) % slots.Length;
      d := 0;
      ghost var e := FreeOnPath(slots[..], keys, hash, dist, hash(key));
      while slots[p].used
        invariant d <= e && p == Slot(hash(key), d, slots.Length)
        invariant forall j: nat :: j < d ==> slots[Slot(hash(key), j, slots.Length)].used
        decreases e - d
      {
        SlotStep(hash(key), d, slots.Length);
        p := (p + 1) % slots.Length;
        d := d + 1;
      }
    }

    /** hmap_get: the first position of the key in the list, or -1. */
    method Get(key: Key) returns (r: int)
      requires Valid()
      ensures r == -1 <==> key !in keys
      ensures r != -1 ==> 0 <= r < |keys| && keys[r] == key && forall u :: 0 <= u < r ==> keys[u] != key
    {
      var p := hash(key) % slots.Length;
      ghost var d: nat := 0;
      ghost var e := FreeOnPath(slots[..], keys, hash, dist, hash(key));
      assert Holding(slots[..], keys, hash, dist);
      hide Holding;
      while slots[p].used
        invariant d <= e && p == Slot(hash(key), d, slots.Length)
        invariant forall j: nat :: j < d ==>
          slots[Slot(hash(key), j, slots.Length)].used && slots[Slot(hash(key), j, slots.Length)].key != key
        decreases e - d
      {
        if slots[p].key == key {
          FoundIsFirst(slots[..], keys, hash, dist, key, d);
          return slots[p].value;
        }
        SlotStep(hash(key), d, slots.Length);
        p := (p + 1) % slots.Length;
        d := d + 1;
      }
      AbsentAtFree(slots[..], keys, hash, dist, key, d);
      return -1;
    }
  }
}
