/** The chained hash table: removed items stay in their chain as tombstones. */
module Dict {
  import opened Options

  type Key = string
  type Data = nat

  datatype Phase = Valid | Removed

  datatype Item = Item(key: Key, data: Data, phase: Phase)

  datatype Err = Ok | Conflict | Fail

  /** Counters are unsigned words. */
  const WORD: nat := 0x1_0000_0000_0000_0000

  function Wrap(x: int): (r: nat)
    ensures r < WORD && (0 <= x < WORD ==> r == x)
  {
    x % WORD
  }

  /** The first item of the key in a chain, newest first, or the length of the chain. */
  function Find(chain: seq<Item>, key: Key): (i: nat)
    ensures i <= |chain|
    ensures i < |chain| ==> chain[i].key == key
    ensures forall j :: 0 <= j < i ==> chain[j].key != key
  {
    if chain == [] || chain[0].key == key then 0 else 1 + Find(chain[1..], key)
  }

  function Lookup(chain: seq<Item>, key: Key): Option<Data> {
    var i := Find(chain, key);
    if i < |chain| && chain[i].phase.Valid? then Some(chain[i].data) else None
  }

  predicate Occurs(chain: seq<Item>, key: Key) {
    Find(chain, key) < |chain|
  }

  /** Only the first item of a key can be valid. */
  ghost predicate ChainOk(chain: seq<Item>) {
    forall i, j :: 0 <= i < j < |chain| && chain[i].key == chain[j].key ==> !chain[j].phase.Valid?
  }

  lemma {:induction false} FindIs(chain: seq<Item>, key: Key, i: nat)
    requires i <= |chain| && (forall j :: 0 <= j < i ==> chain[j].key != key)
    requires i < |chain| ==> chain[i].key == key
    ensures Find(chain, key) == i
  {
  }

  /** A new item in front decides its key and no other. */
  lemma Pushed(chain: seq<Item>, item: Item, key: Key)
    ensures Lookup([item] + chain, key)
            == if key != item.key then Lookup(chain, key) else if item.phase.Valid? then Some(item.data) else None
    ensures Occurs([item] + chain, key) <==> key == item.key || Occurs(chain, key)
    ensures ChainOk(chain) && Lookup(chain, item.key).None? ==> ChainOk([item] + chain)
  {
    var more := [item] + chain;
    if key == item.key {
      FindIs(more, key, 0);
    } else {
      var i := Find(chain, key);
      FindIs(more, key, i + 1);
    }
    if ChainOk(chain) && Lookup(chain, item.key).None? {
      var f := Find(chain, item.key);
      forall i, j | 0 <= i < j < |more| && more[i].key == more[j].key
        ensures !more[j].phase.Valid?
      {
        if i == 0 {
          assert j - 1 >= f;
          if j - 1 > f {
            assert chain[f].key == chain[j - 1].key;
          }
        } else {
          assert more[i] == chain[i - 1] && more[j] == chain[j - 1];
        }
      }
    }
  }

  function Buried(chain: seq<Item>, key: Key): seq<Item>
    requires Occurs(chain, key)
  {
    var i := Find(chain, key);
    chain[i := chain[i].(phase := Removed)]
  }

  lemma BuriedIs(chain: seq<Item>, key: Key)
    requires Occurs(chain, key)
    ensures var i := Find(chain, key);
            i < |chain| && Buried(chain, key) == chain[i := chain[i].(phase := Removed)]
  {
  }

  /** Burying the first item of a key removes the key and touches no other. */
  lemma BuriedLookup(chain: seq<Item>, key: Key, other: Key)
    requires Occurs(chain, key)
    ensures Lookup(Buried(chain, key), other) == if other == key then None else Lookup(chain, other)
    ensures Occurs(Buried(chain, key), other) <==> Occurs(chain, other)
    ensures ChainOk(chain) ==> ChainOk(Buried(chain, key))
  {
    FindIs(Buried(chain, key), other, Find(chain, other));
  }

  // ---------------------------------------------------------------- the table

  type Table = seq<seq<Item>>

  function Slot(hash: Key -> nat, n: nat, key: Key): (h: nat)
    requires n > 0
    ensures h < n
  {
    hash(key) % n
  }

  function Held(m: map<Key, Data>, key: Key): Option<Data> {
    if key in m then Some(m[key]) else None
  }

  ghost predicate KeyOk(chain: seq<Item>, key: Key, contents: map<Key, Data>, known: set<Key>) {
    && Lookup(chain, key) == Held(contents, key)
    && (key in known <==> Occurs(chain, key))
    && (key in contents ==> key in known)
  }

  /** The table holds `contents`, and an item of each key in `known`. */
  ghost predicate TableOk(t: Table, hash: Key -> nat, contents: map<Key, Data>, known: set<Key>) {
    && |t| > 0
    && (forall b :: 0 <= b < |t| ==> ChainOk(t[b]))
    && (forall k :: KeyOk(t[Slot(hash, |t|, k)], k, contents, known))
  }

  lemma SetKeeps(t: Table, hash: Key -> nat, contents: map<Key, Data>, known: set<Key>, key: Key, data: Data)
    requires TableOk(t, hash, contents, known) && key !in contents
    ensures var h := Slot(hash, |t|, key);
            TableOk(t[h := [Item(key, data, Valid)] + t[h]], hash, contents[key := data], known + {key})
  {
    hide Slot, Lookup, Occurs, ChainOk;
    var h, item := Slot(hash, |t|, key), Item(key, data, Valid);
    var t' := t[h := [item] + t[h]];
    assert KeyOk(t[h], key, contents, known);
    Pushed(t[h], item, key);
    forall k
      ensures KeyOk(t'[Slot(hash, |t'|, k)], k, contents[key := data], known + {key})
    {
      assert KeyOk(t[Slot(hash, |t|, k)], k, contents, known);
      Pushed(t[h], item, k);
    }
  }

  lemma RemoveKeeps(t: Table, hash: Key -> nat, contents: map<Key, Data>, known: set<Key>, key: Key)
    requires TableOk(t, hash, contents, known) && Occurs(t[Slot(hash, |t|, key)], key)
    ensures var h := Slot(hash, |t|, key);
            TableOk(t[h := Buried(t[h], key)], hash, contents - {key}, known)
  {
    hide Slot, Lookup, Occurs, ChainOk, Buried;
    var h := Slot(hash, |t|, key);
    var t' := t[h := Buried(t[h], key)];
    BuriedLookup(t[h], key, key);
    forall k
      ensures KeyOk(t'[Slot(hash, |t'|, k)], k, contents - {key}, known)
    {
      assert KeyOk(t[Slot(hash, |t|, k)], k, contents, known);
      BuriedLookup(t[h], key, k);
    }
  }

  lemma EmptyTable(t: Table, hash: Key -> nat)
    requires |t| > 0 && forall b :: 0 <= b < |t| ==> t[b] == []
    ensures TableOk(t, hash, map[], {})
  {
  }

  class Dict {
    const hash: Key -> nat
    /** The chain of each bucket, newest item first. */
    const buckets: array<seq<Item>>
    var numKeys: nat
    var numItems: nat

    /** What the dict holds, the keys added since the last reset, and how far the key counter has fallen
        behind. */
    ghost var contents: map<Key, Data>
    ghost var known: set<Key>
    ghost var behind: int

    ghost predicate Ok()
      reads this, buckets
    {
      TableOk(buckets[..], hash, contents, known) && numKeys == Wrap(|contents| - behind)
    }

    constructor (hash: Key -> nat, size: nat)
      requires size > 0
      ensures Ok() && fresh(buckets) && this.hash == hash && buckets.Length == size
      ensures contents == map[] && known == {} && behind == 0 && numItems == 0
    {
      this.hash := hash;
      buckets := new seq<Item>[size](_ => []);
      numKeys, numItems := 0, 0;
      contents, known, behind := map[], {}, 0;
      new;
      EmptyTable(buckets[..], hash);
    }

    /** The walk over one chain. */
    method FindItem(key: Key) returns (h: nat, i: nat)
      requires Ok()
      ensures buckets.Length > 0 && h == Slot(hash, buckets.Length, key) && i == Find(buckets[h], key)
      ensures i < |buckets[h]| <==> key in known
      ensures key in contents <==> i < |buckets[h]| && buckets[h][i].phase.Valid?
      ensures key in contents ==> buckets[h][i].data == contents[key]
    {
      h := Slot(hash, buckets.Length, key);
      assert KeyOk(buckets[..][h], key, contents, known);
      var chain := buckets[h];
      i := 0;
      while i < |chain| && chain[i].key != key
        invariant 0 <= i <= |chain|
        invariant forall j :: 0 <= j < i ==> chain[j].key != key
      {
        i := i + 1;
      }
      FindIs(chain, key, i);
    }

    method Get(key: Key) returns (r: Option<Data>)
      requires Ok()
      ensures r == if key in contents then Some(contents[key]) else None
    {
      hide TableOk, ChainOk;
      var h, i := FindItem(key);
      if i < |buckets[h]| {
        if buckets[h][i].phase.Removed? {
          return None;
        }
        return Some(buckets[h][i].data);
      }
      r := None;
    }

    /** Conflicts exactly on present keys; a removed key can be added again. */
    method Set(key: Key, data: Data) returns (err: Err)
      requires Ok()
      modifies this, buckets
      ensures Ok()
      ensures err == if key in old(contents) then Conflict else Err.Ok
      ensures err.Ok? ==> contents == old(contents)[key := data] && known == old(known) + {key}
      ensures err.Ok? ==> numItems == Wrap(old(numItems) + 1) && behind == old(behind)
      ensures !err.Ok? ==> contents == old(contents) && known == old(known) && behind == old(behind)
      ensures !err.Ok? ==> numItems == old(numItems) && numKeys == old(numKeys)
    {
      hide TableOk, ChainOk, Wrap, Slot;
      var h, i := FindItem(key);
      if i < |buckets[h]| {
        if buckets[h][i].phase.Valid? {
          return Conflict;
        }
      }
      ghost var t := buckets[..];
      SetKeeps(t, hash, contents, known, key, data);
      buckets[h] := [Item(key, data, Valid)] + buckets[h];
      assert buckets[..] == t[h := [Item(key, data, Valid)] + t[h]];
      WrapStep(|contents| - behind, 1);
      numKeys := Wrap(numKeys + 1);
      numItems := Wrap(numItems + 1);
      contents, known := contents[key := data], known + {key};
      err := Err.Ok;
    }

    method Bury(key: Key, h: nat, i: nat)
      requires TableOk(buckets[..], hash, contents, known)
      requires buckets.Length > 0 && h == Slot(hash, buckets.Length, key) && i == Find(buckets[h], key)
      requires i < |buckets[h]|
      modifies buckets
      ensures TableOk(buckets[..], hash, contents - {key}, known)
    {
      hide TableOk, Slot, Buried;
      ghost var t := buckets[..];
      RemoveKeeps(t, hash, contents, known, key);
      BuriedIs(t[h], key);
      buckets[h] := buckets[h][i := buckets[h][i].(phase := Removed)];
      assert buckets[..] == t[h := Buried(t[h], key)];
    }

    /** Fails only on a key never added.  Removing a key that is gone already succeeds and lowers the
        counter once more. */
    method Remove(key: Key) returns (err: Err)
      requires Ok()
      modifies this, buckets
      ensures Ok()
      ensures err == if key in old(known) then Err.Ok else Fail
      ensures contents == old(contents) - {key} && known == old(known) && numItems == old(numItems)
      ensures behind == old(behind) + if key in old(known) && key !in old(contents) then 1 else 0
    {
      hide TableOk, Wrap, Slot, Find, Occurs, Lookup, ChainOk, KeyOk, Held, Buried;
      var h, i := FindItem(key);
      if i == |buckets[h]| {
        RemovedSize(contents, key);
        return Fail;
      }
      CountLowered(contents, behind, key);
      Bury(key, h, i);
      numKeys := Wrap(numKeys - 1);
      behind := behind + if key in contents then 0 else 1;
      contents := contents - {key};
      err := Err.Ok;
    }

    /** Empties the buckets and leaves the counters. */
    method Reset()
      requires Ok()
      modifies this, buckets
      ensures Ok() && contents == map[] && known == {}
      ensures numKeys == old(numKeys) && numItems == old(numItems)
      ensures behind == old(behind) - |old(contents)|
    {
      ghost var count := |contents| - behind;
      assert buckets.Length > 0 && numKeys == Wrap(count);
      hide TableOk, Wrap;
      var i := 0;
      while i < buckets.Length
        invariant 0 <= i <= buckets.Length
        invariant forall b :: 0 <= b < i ==> buckets[b] == []
        invariant unchanged(this)
      {
        buckets[i] := [];
        i := i + 1;
      }
      EmptyTable(buckets[..], hash);
      behind := behind - |contents|;
      contents, known := map[], {};
    }
  }

  lemma WrapStep(x: int, d: int)
    ensures Wrap(Wrap(x) + d) == Wrap(x + d)
  {
    assert Wrap(x) == x - WORD * (x / WORD);
    ModShift(Wrap(x) + d, x / WORD);
  }

  lemma ModShift(x: int, k: int)
    ensures (x + WORD * k) % WORD == x % WORD
  {
  }

  lemma CountLowered(m: map<Key, Data>, behind: int, key: Key)
    ensures Wrap(Wrap(|m| - behind) - 1) == Wrap(|m - {key}| - (behind + if key in m then 0 else 1))
  {
    hide Wrap;
    WrapStep(|m| - behind, -1);
    RemovedSize(m, key);
  }

  lemma RemovedSize(m: map<Key, Data>, key: Key)
    ensures |m - {key}| == |m| - if key in m then 1 else 0
    ensures key !in m ==> m - {key} == m
  {
    assert (m - {key}).Keys == m.Keys - {key};
    if key !in m {
      assert m - {key} == m;
    } else {
      assert m.Keys == (m - {key}).Keys + {key};
    }
  }

  /** The counter of keys is right just when it is not behind, give or take whole words: in particular
      after any run in which only present keys were removed and nothing was reset. */
  lemma CounterRight(d: Dict)
    requires d.Ok() && |d.contents| < WORD
    ensures d.numKeys == |d.contents| <==> d.behind % WORD == 0
  {
    hide TableOk;
    WrapEqual(|d.contents|, d.behind);
  }

  lemma WrapEqual(x: nat, d: int)
    requires x < WORD
    ensures Wrap(x - d) == x <==> d % WORD == 0
  {
    ModShift(x - d % WORD, -(d / WORD));
    assert x - d == x - d % WORD + WORD * (-(d / WORD));
  }
}
