/**
 The open-addressed string table of src/tokenizer/ds4_tokenizer.c.  The hash function is a
 parameter: nothing about its values matters, only that equal keys hash alike.
 */
module StrTable {
  import opened ByteEncoding

  type Key = seq<byte>

  datatype Entry = Entry(used: bool, key: Key, value: int)

  function Pow2(k: nat): nat {
    if k == 0 then 1 else 2 * Pow2(k - 1)
  }

  /** The least power of two that is at least n. */
  method NextPow2(n: nat) returns (p: nat, ghost k: nat)
    ensures p == Pow2(k) && n <= p
    ensures k > 0 ==> Pow2(k - 1) < n
  {
    p, k := 1, 0;
    while p < n
      invariant p == Pow2(k)
      invariant k > 0 ==> Pow2(k - 1) < n
      decreases n - p
    {
      p := 2 * p;
      k := k + 1;
    }
  }

  /** The slot reached after d probes from the hash h, in a table of cap slots (the source masks with cap - 1). */
  function Slot(h: nat, d: nat, cap: nat): (i: nat)
    requires cap > 0
    ensures i < cap
  {
    (h + d) % cap
  }

  /** Quotient and remainder are unique. */
  lemma ModUnique(x: nat, q: int, r: nat, cap: nat)
    requires r < cap && x == cap * q + r
    ensures x % cap == r
  {
    var diff := x / cap - q;
    assert cap * diff == r - x % cap by {
      assert x == cap * (x / cap) + x % cap;
      assert cap * diff == cap * (x / cap) - cap * q;
    }
    assert diff >= 1 ==> cap * diff >= cap;
    assert diff <= -1 ==> cap * diff + cap <= 0;
  }

  lemma SlotStep(h: nat, d: nat, cap: nat)
    requires cap > 0
    ensures Slot(h, d + 1, cap) == (Slot(h, d, cap) + 1) % cap
  {
    var m := h + d;
    var q, r := m / cap, m % cap;
    assert m == cap * q + r;
    if r + 1 < cap {
      ModUnique(m + 1, q, r + 1, cap);
    } else {
      assert cap * (q + 1) == cap * q + cap;
      ModUnique(m + 1, q + 1, 0, cap);
    }
  }

  /** Every slot lies on the probe path of every hash. */
  lemma SlotReaches(h: nat, target: nat, cap: nat) returns (d: nat)
    requires target < cap
    ensures d < cap && Slot(h, d, cap) == target
  {
    var q, r := h / cap, h % cap;
    assert h == cap * q + r;
    if r <= target {
      d := target - r;
      ModUnique(h + d, q, target, cap);
    } else {
      d := target + cap - r;
      assert cap * (q + 1) == cap * q + cap;
      ModUnique(h + d, q + 1, target, cap);
    }
  }

  ghost function Range(n: nat): (r: set<nat>)
    ensures forall i: nat :: i in r <==> i < n
    ensures |r| == n
  {
    if n == 0 then {} else Range(n - 1) + {n - 1}
  }

  /** A table holding fewer keys than slots has a free slot. */
  lemma FreeSlot(home: map<Key, nat>, cap: nat) returns (i: nat)
    requires |home| < cap
    ensures i < cap && i !in home.Values
  {
    ValuesSize(home);
    var all := Range(cap);
    if all <= home.Values {
      SubsetSize(all, home.Values);
    }
    i :| i in all && i !in home.Values;
  }

  lemma {:induction false} SubsetSize(a: set<nat>, b: set<nat>)
    requires a <= b
    ensures |a| <= |b|
  {
    if a != {} {
      var x :| x in a;
      SubsetSize(a - {x}, b - {x});
    }
  }

  lemma {:induction false} ValuesSize(m: map<Key, nat>)
    ensures |m.Values| <= |m|
    decreases |m|
  {
    if m.Keys != {} {
      var k :| k in m.Keys;
      var rest := m - {k};
      assert rest.Keys == m.Keys - {k};
      ValuesSize(rest);
      assert m.Values <= rest.Values + {m[k]} by {
        forall v | v in m.Values ensures v in rest.Values + {m[k]} {
          var x :| x in m && m[x] == v;
          if x != k { assert x in rest && rest[x] == v; }
        }
      }
      SubsetSize(m.Values, rest.Values + {m[k]});
    }
  }

  // ---- when an array of slots represents a map ---------------------------------

  /**
   slots represents contents: key k sits dist[k] probes from its hash, every slot it probes
   before that is taken, and no other slot is.
   */
  ghost predicate Represents(slots: seq<Entry>, hash: Key -> nat, contents: map<Key, int>, dist: map<Key, nat>) {
    && |slots| > 0
    && dist.Keys == contents.Keys
    && (forall k :: k in contents ==>
          slots[Slot(hash(k), dist[k], |slots|)] == Entry(true, k, contents[k]))
    && (forall k, j: nat :: k in contents && j < dist[k] ==> slots[Slot(hash(k), j, |slots|)].used)
    && (forall i :: 0 <= i < |slots| && slots[i].used ==>
          slots[i].key in contents && Slot(hash(slots[i].key), dist[slots[i].key], |slots|) == i)
  }

  /** The first d slots probed for k are taken by other keys. */
  ghost predicate Searched(slots: seq<Entry>, hash: Key -> nat, k: Key, d: nat)
    requires |slots| > 0
  {
    forall j: nat :: j < d ==> slots[Slot(hash(k), j, |slots|)].used && slots[Slot(hash(k), j, |slots|)].key != k
  }

  /** An empty slot on the probe path of k. */
  lemma EmptyOnPath(slots: seq<Entry>, hash: Key -> nat, contents: map<Key, int>, dist: map<Key, nat>, k: Key)
    returns (e: nat)
    requires Represents(slots, hash, contents, dist) && |contents| < |slots|
    ensures !slots[Slot(hash(k), e, |slots|)].used
  {
    var home := map key | key in dist :: Slot(hash(key), dist[key], |slots|);
    assert home.Keys == contents.Keys;
    assert |home| == |contents| by { assert |home.Keys| == |contents.Keys|; }
    var i := FreeSlot(home, |slots|);
    e := SlotReaches(hash(k), i, |slots|);
    assert forall key :: key in home ==> home[key] in home.Values;
  }

  /** A key whose probe path has been searched up to an empty slot is not in the table. */
  lemma AbsentAtEmpty(slots: seq<Entry>, hash: Key -> nat, contents: map<Key, int>, dist: map<Key, nat>, k: Key, d: nat)
    requires Represents(slots, hash, contents, dist)
    requires !slots[Slot(hash(k), d, |slots|)].used
    requires Searched(slots, hash, k, d)
    ensures k !in contents
  {
  }

  lemma FillEmpty(slots: seq<Entry>, hash: Key -> nat, contents: map<Key, int>, dist: map<Key, nat>, k: Key, d: nat,
                  v: int)
    requires Represents(slots, hash, contents, dist)
    requires !slots[Slot(hash(k), d, |slots|)].used
    requires Searched(slots, hash, k, d)
    ensures k !in contents
    ensures Represents(slots[Slot(hash(k), d, |slots|) := Entry(true, k, v)], hash, contents[k := v], dist[k := d])
  {
    AbsentAtEmpty(slots, hash, contents, dist, k, d);
  }

  lemma Overwrite(slots: seq<Entry>, hash: Key -> nat, contents: map<Key, int>, dist: map<Key, nat>, i: nat, v: int)
    requires Represents(slots, hash, contents, dist)
    requires i < |slots| && slots[i].used
    ensures Represents(slots[i := slots[i].(value := v)], hash, contents[slots[i].key := v], dist)
  {
  }

  class StrI32Table {
    const hash: Key -> nat
    const expected: nat
    var entry: array<Entry>
    var used: nat
    ghost var contents: map<Key, int>
    ghost var dist: map<Key, nat>

    ghost predicate Valid()
      reads this, entry
    {
      && Represents(entry[..], hash, contents, dist)
      && used == |contents| <= expected < entry.Length
    }

    /** table_init */
    constructor (hash: Key -> nat, expected: nat)
      ensures Valid() && fresh(entry) && contents == map[]
      ensures this.hash == hash && this.expected == expected
    {
      var cap, k := NextPow2(expected * 2 + 16);
      this.hash, this.expected := hash, expected;
      used, contents, dist := 0, map[], map[];
      entry := new Entry[cap](_ => Entry(false, [], 0));
    }

    /** The probing loop of table_put and table_get: stops at the key's slot, or at the first free one. */
    method Probe(key: Key) returns (i: nat, ghost d: nat)
      requires Valid()
      ensures i < entry.Length && i == Slot(hash(key), d, entry.Length)
      ensures entry[i].used ==> key in contents && entry[i] == Entry(true, key, contents[key])
      ensures !entry[i].used ==> key !in contents && Searched(entry[..], hash, key, d)
    {
      i := hash(key) % entry.Length;
      d := 0;
      ghost var e := EmptyOnPath(entry[..], hash, contents, dist, key);
      while entry[i].used && entry[i].key != key
        invariant i < entry.Length && i == Slot(hash(key), d, entry.Length)
        invariant d <= e
        invariant Searched(entry[..], hash, key, d)
        decreases e - d
      {
        SlotStep(hash(key), d, entry.Length);
        i := (i + 1) % entry.Length;
        d := d + 1;
      }
      if !entry[i].used {
        AbsentAtEmpty(entry[..], hash, contents, dist, key, d);
      }
    }

    /** table_put: bind key to value, replacing an earlier binding. */
    method Put(key: Key, value: int)
      requires Valid() && (key in contents || |contents| < expected)
      modifies this`used, this`contents, this`dist, entry
      ensures Valid() && contents == old(contents)[key := value]
    {
      hide Represents, Slot, Searched;
      var i, d := Probe(key);
      ghost var slots := entry[..];
      if entry[i].used {
        Overwrite(slots, hash, contents, dist, i, value);
        entry[i] := entry[i].(value := value);
        assert entry[..] == slots[i := slots[i].(value := value)];
      } else {
        FillEmpty(slots, hash, contents, dist, key, d, value);
        entry[i] := Entry(true, key, value);
        assert entry[..] == slots[i := Entry(true, key, value)];
        used := used + 1;
        dist := dist[key := d];
      }
      contents := contents[key := value];
    }

    /** table_get: the last value put for the key, if any. */
    method Get(key: Key) returns (value: Option<int>)
      requires Valid()
      ensures value == if key in contents then Some(contents[key]) else None
    {
      var i, d := Probe(key);
      return if entry[i].used then Some(entry[i].value) else None;
    }
  }
}
