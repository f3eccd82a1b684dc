/**
 * The chained hash table of `dict.c`: buckets of linked entries, a power-of-two size and a
 * rehash when it is full. The ghost map `M` is what the table stands for.
 */
module Dict {
  const INITIAL_SIZE: nat := 4
  const LONG_MAX: nat := 0x7FFF_FFFF_FFFF_FFFF

  // More buckets than this do not fit a 64-bit address space, so their allocation fails.
  const MAX_TABLE: nat := 0x1FFF_FFFF_FFFF_FFFF

  // A table with fewer entries than this can always take one more.
  const MOST: nat := 0x1000_0000_0000_0000

  function Pow2(k: nat): (p: nat)
    ensures p > 0
  {
    if k == 0 then 1 else 2 * Pow2(k - 1)
  }

  ghost predicate IsPow2(n: nat) { exists k: nat :: n == Pow2(k) }

  lemma DoublePow2(n: nat)
    requires IsPow2(n)
    ensures IsPow2(2 * n)
  {
    var k: nat :| n == Pow2(k);
    assert 2 * n == Pow2(k + 1);
  }

  /** Bitwise and. */
  function And(a: nat, b: nat): nat
    decreases a
  {
    if a == 0 || b == 0 then 0 else 2 * And(a / 2, b / 2) + a % 2 * (b % 2)
  }

  /** The mask of a power of two keeps the remainder. */
  lemma MaskIsRemainder(a: nat, k: nat)
    ensures And(a, Pow2(k) - 1) == a % Pow2(k)
  {
    hide Pow2, And;
    var p := Pow2(k);
    Division(a, p);
    MaskKeeps(a / p, a % p, k);
  }

  lemma Division(a: nat, p: nat)
    requires p > 0
    ensures a == a / p * p + a % p
  {
  }

  lemma {:induction false} MaskKeeps(q: nat, r: nat, k: nat)
    requires r < Pow2(k)
    ensures And(q * Pow2(k) + r, Pow2(k) - 1) == r
  {
    if k > 0 {
      var p := Pow2(k - 1);
      var a := q * Pow2(k) + r;
      assert q * (2 * p) == 2 * (q * p);
      assert a / 2 == q * p + r / 2 && a % 2 == r % 2;
      MaskKeeps(q, r / 2, k - 1);
      assert (2 * p - 1) / 2 == p - 1 && (2 * p - 1) % 2 == 1;
    } else {
      assert Pow2(0) == 1 && And(q + r, 0) == 0;
    }
  }

  /** `_dictNextPower`: the least power of two from the initial size on that holds `size`. */
  method NextPower(size: nat) returns (i: nat)
    ensures size >= LONG_MAX ==> i == LONG_MAX
    ensures size < LONG_MAX ==> IsPow2(i) && i >= size && i >= INITIAL_SIZE
    ensures size < LONG_MAX && i > INITIAL_SIZE ==> i / 2 < size
  {
    i := INITIAL_SIZE;
    assert INITIAL_SIZE == Pow2(2);
    if size >= LONG_MAX {
      return LONG_MAX;
    }
    while i < size
      invariant IsPow2(i) && i >= INITIAL_SIZE && (i > INITIAL_SIZE ==> i / 2 < size)
      decreases size - i
    {
      DoublePow2(i);
      i := 2 * i;
    }
  }

  lemma {:induction false} Pow2Exact(j: nat, k: nat)
    requires Pow2(j) / 2 < Pow2(k) <= Pow2(j)
    ensures Pow2(j) == Pow2(k)
  {
    if j > 0 && k > 0 {
      Pow2Exact(j - 1, k - 1);
    }
  }

  class Entry<K, V> {
    const key: K
    var val: V
    var next: Entry?<K, V>

    constructor (key: K, val: V, next: Entry?<K, V>)
      ensures this.key == key && this.val == val && this.next == next
    {
      this.key, this.val, this.next := key, val, next;
    }
  }

  ghost function At<K, V>(chain: seq<Entry<K, V>>, j: nat): Entry?<K, V>
  {
    if j < |chain| then chain[j] else null
  }

  ghost predicate NextOk<K, V>(chain: seq<Entry<K, V>>, j: nat)
    requires j < |chain|
    reads chain`next
  {
    chain[j].next == At(chain, j + 1)
  }

  /** The entries of `chain`, in order, are what the links from `head` run through. */
  ghost predicate Linked<K, V>(head: Entry?<K, V>, chain: seq<Entry<K, V>>)
    reads chain`next
  {
    head == At(chain, 0) && forall j :: 0 <= j < |chain| ==> NextOk(chain, j)
  }

  ghost predicate Distinct<T>(s: seq<T>) { forall j, k :: 0 <= j < k < |s| ==> s[j] != s[k] }

  lemma LinkedCons<K, V>(entry: Entry<K, V>, chain: seq<Entry<K, V>>)
    requires Linked(entry.next, chain)
    ensures Linked(entry, [entry] + chain)
  {
    var all := [entry] + chain;
    forall j | 0 <= j < |all|
      ensures NextOk(all, j)
    {
      if j > 0 {
        assert all[j] == chain[j - 1] && NextOk(chain, j - 1);
      }
    }
  }

  function Without<T>(s: seq<T>, j: nat): seq<T>
    requires j < |s|
  {
    s[..j] + s[j + 1..]
  }

  lemma WithoutElements<T>(s: seq<T>, j: nat)
    requires j < |s| && Distinct(s)
    ensures Distinct(Without(s, j)) && s[j] !in Without(s, j)
    ensures forall e <- s :: e != s[j] ==> e in Without(s, j)
    ensures forall e <- Without(s, j) :: e in s
  {
    var r := Without(s, j);
    forall e <- s | e != s[j]
      ensures e in r
    {
      var k :| 0 <= k < |s| && s[k] == e;
      assert r[if k < j then k else k - 1] == e;
    }
  }

  // The search loop of dictFind, dictDelete and _dictKeyIndex.
  method SearchChain<K(==), V>(head: Entry?<K, V>, key: K, ghost chain: seq<Entry<K, V>>)
    returns (de: Entry?<K, V>, prev: Entry?<K, V>, ghost j: nat)
    requires Linked(head, chain)
    ensures de == null ==> forall e <- chain :: e.key != key
    ensures de != null ==> j < |chain| && chain[j] == de && de.key == key
    ensures de != null ==> prev == if j == 0 then null else chain[j - 1]
  {
    de, prev, j := head, null, 0;
    while de != null
      invariant j <= |chain|
      invariant de == At(chain, j)
      invariant prev == if j == 0 then null else chain[j - 1]
      invariant forall k :: 0 <= k < j ==> chain[k].key != key
      decreases |chain| - j
    {
      if de.key == key {
        return;
      }
      assert NextOk(chain, j);
      prev, de, j := de, de.next, j + 1;
    }
  }

  class Dict<K(==), V> {
    const hash: K -> nat
    var table: array?<Entry?<K, V>>
    var size: nat
    var sizemask: int
    var used: nat

    ghost var M: map<K, V>
    ghost var chains: seq<seq<Entry<K, V>>>
    ghost var entries: set<Entry<K, V>>

    // The mask keeps the remainder, for the size is a power of two.
    function Slot(key: K, n: nat): (h: nat)
      requires n > 0
      ensures h < n
    {
      hash(key) % n
    }

    /** Chain `i` of a table with `n` buckets holds exactly the entries of `es` that hash there. */
    ghost predicate Bucket(chain: seq<Entry<K, V>>, i: nat, n: nat, es: set<Entry<K, V>>)
      requires n > 0
    {
      Distinct(chain) &&
      (forall e <- chain :: e in es && Slot(e.key, n) == i) &&
      forall e <- es :: Slot(e.key, n) == i ==> e in chain
    }

    ghost predicate Placed(cs: seq<seq<Entry<K, V>>>, es: set<Entry<K, V>>)
    {
      forall i :: 0 <= i < |cs| ==> Bucket(cs[i], i, |cs|, es)
    }

    ghost predicate OneEntryPerKey(es: set<Entry<K, V>>)
    {
      forall e <- es, f <- es :: e.key == f.key ==> e == f
    }

    ghost predicate Layout()
      reads this
    {
      |chains| == size && sizemask == size - 1 && (size == 0 <==> table == null) &&
      OneEntryPerKey(entries) && Placed(chains, entries) &&
      (table != null ==> table.Length == size && IsPow2(size) && INITIAL_SIZE <= size <= MAX_TABLE)
    }

    ghost predicate Shape()
      reads this
    {
      Layout() && used == |entries| && used <= size
    }

    ghost predicate Links()
      requires Shape()
      reads this, table, entries
    {
      forall i :: 0 <= i < size ==> LinksAt(i)
    }

    ghost predicate LinksAt(i: nat)
      requires Shape() && i < size
      reads this, table, entries
    {
      assert Bucket(chains[i], i, size, entries);
      Linked(table[i], chains[i])
    }

    /** The table stands for the map `M`. */
    ghost predicate Represents()
      reads this, entries`val
    {
      Covers(M, entries) && forall e <- entries :: e.key in M && M[e.key] == e.val
    }

    /** The keys of `m` are the keys of the entries. */
    ghost predicate Covers(m: map<K, V>, es: set<Entry<K, V>>)
    {
      (forall e <- es :: e.key in m) && forall k <- m :: exists e :: e in es && e.key == k
    }

    lemma CoversInsert(m: map<K, V>, es: set<Entry<K, V>>, e: Entry<K, V>, val: V)
      requires Covers(m, es)
      ensures Covers(m[e.key := val], es + {e})
    {
      var m' := m[e.key := val];
      forall k | k in m'
        ensures exists f :: f in es + {e} && f.key == k
      {
        if k == e.key {
          assert e in es + {e};
        } else {
          var f :| f in es && f.key == k;
          assert f in es + {e};
        }
      }
    }

    lemma OneKeyInsert(es: set<Entry<K, V>>, e: Entry<K, V>)
      requires OneEntryPerKey(es) && forall f <- es :: f.key != e.key
      ensures OneEntryPerKey(es + {e})
    {
    }

    lemma OneKeyRemove(es: set<Entry<K, V>>, e: Entry<K, V>)
      requires OneEntryPerKey(es) && e in es
      ensures OneEntryPerKey(es - {e}) && forall f <- es - {e} :: f.key != e.key
    {
    }

    lemma CoversRemove(m: map<K, V>, es: set<Entry<K, V>>, e: Entry<K, V>)
      requires Covers(m, es) && OneEntryPerKey(es) && e in es
      ensures Covers(m - {e.key}, es - {e})
    {
      var m' := m - {e.key};
      forall k | k in m'
        ensures exists f :: f in es - {e} && f.key == k
      {
        var f :| f in es && f.key == k;
        assert f in es - {e};
      }
    }

    ghost predicate Valid()
      reads this, table, entries
    {
      Shape() && Represents() && Links()
    }

    // ----- Placement of entries, which does not depend on the links

    lemma PlacedInsert(cs: seq<seq<Entry<K, V>>>, es: set<Entry<K, V>>, e: Entry<K, V>)
      requires |cs| > 0 && Placed(cs, es) && e !in es
      ensures var h := Slot(e.key, |cs|);
              Placed(cs[h := [e] + cs[h]], es + {e})
    {
      var h := Slot(e.key, |cs|);
      var cs' := cs[h := [e] + cs[h]];
      forall i | 0 <= i < |cs|
        ensures Bucket(cs'[i], i, |cs|, es + {e})
      {
        assert Bucket(cs[i], i, |cs|, es);
      }
    }

    lemma PlacedRemove(cs: seq<seq<Entry<K, V>>>, es: set<Entry<K, V>>, h: nat, j: nat)
      requires Placed(cs, es) && h < |cs| && j < |cs[h]|
      ensures Placed(cs[h := Without(cs[h], j)], es - {cs[h][j]})
    {
      var e, cs' := cs[h][j], cs[h := Without(cs[h], j)];
      assert Bucket(cs[h], h, |cs|, es);
      WithoutElements(cs[h], j);
      assert e in cs[h];
      forall i | 0 <= i < |cs|
        ensures Bucket(cs'[i], i, |cs|, es - {e})
      {
        assert Bucket(cs[i], i, |cs|, es);
      }
    }

    lemma InOneBucket(cs: seq<seq<Entry<K, V>>>, es: set<Entry<K, V>>, e: Entry<K, V>, i: nat)
      requires Placed(cs, es) && i < |cs|
      ensures e in cs[i] <==> e in es && Slot(e.key, |cs|) == i
    {
      assert Bucket(cs[i], i, |cs|, es);
    }

    /** An entry is in the bucket that the mask picks from the hash of its key, and in no other. */
    lemma BucketOfHash(e: Entry<K, V>, i: nat)
      requires Valid() && e in entries && i < size
      ensures e in chains[i] <==> And(hash(e.key), sizemask) == i
    {
      InOneBucket(chains, entries, e, i);
      var k: nat :| size == Pow2(k);
      MaskIsRemainder(hash(e.key), k);
    }

    lemma Elsewhere(cs: seq<seq<Entry<K, V>>>, es: set<Entry<K, V>>, h: nat, e: Entry<K, V>)
      requires Placed(cs, es) && h < |cs| && e in cs[h]
      ensures forall i :: 0 <= i < |cs| && i != h ==> e !in cs[i]
    {
      forall i | 0 <= i < |cs| && i != h
        ensures e !in cs[i]
      {
        InOneBucket(cs, es, e, i);
        InOneBucket(cs, es, e, h);
      }
    }

    constructor (hash: K -> nat)
      ensures Valid() && M == map[] && this.hash == hash && size == 0 && entries == {} && table == null
    {
      this.hash := hash;
      table, size, sizemask, used := null, 0, -1, 0;
      M, chains, entries := map[], [], {};
    }

    method Search(key: K) returns (de: Entry?<K, V>, prev: Entry?<K, V>, ghost j: nat)
      requires Valid() && size > 0
      ensures de == null <==> key !in M
      ensures de != null ==> de in entries && de.key == key && M[key] == de.val
      ensures de != null ==> j < |chains[Slot(key, size)]| && chains[Slot(key, size)][j] == de
      ensures de != null ==> prev == if j == 0 then null else chains[Slot(key, size)][j - 1]
    {
      var h := Slot(key, size);
      assert LinksAt(h) && Bucket(chains[h], h, size, entries);
      de, prev, j := SearchChain(table[h], key, chains[h]);
    }

    method Find(key: K) returns (de: Entry?<K, V>)
      requires Valid()
      ensures de != null <==> key in M
      ensures de != null ==> de in entries && de.key == key && de.val == M[key]
    {
      if size == 0 {
        return null;
      }
      var prev;
      ghost var j;
      de, prev, j := Search(key);
    }

    /** Whether an insertion finds a free place without another allocation, or can get one. */
    predicate HasRoom()
      reads this
    {
      used < size || size * 2 <= MAX_TABLE
    }

    /** There is a table for as many entries as there are keys. */
    lemma SizeIsCount()
      requires Valid()
      ensures used == |M| && (used < MOST ==> HasRoom())
    {
      CountKeys(entries, M.Keys);
    }

    lemma {:induction false} CountKeys(es: set<Entry<K, V>>, ks: set<K>)
      requires OneEntryPerKey(es) && forall e <- es :: e.key in ks
      requires forall k <- ks :: exists e :: e in es && e.key == k
      ensures |es| == |ks|
      decreases es
    {
      if es != {} {
        var e :| e in es;
        CountKeys(es - {e}, ks - {e.key});
      } else {
        assert ks == {};
      }
    }

    method Add(key: K, val: V) returns (ok: bool)
      requires Valid()
      modifies this, table, entries
      ensures Valid() && fresh(entries - old(entries)) && (table == old(table) || fresh(table))
      ensures ok <==> key !in old(M) && old(HasRoom())
      ensures M == if ok then old(M)[key := val] else old(M)
    {
      var index := KeyIndex(key);
      if index == -1 {
        return false;
      }
      Insert(index, key, val);
      ok := true;
    }

    // The insertion of dictAdd at the head of a bucket.
    method Insert(index: nat, key: K, val: V)
      requires Valid() && size > 0 && index == Slot(key, size) && key !in M && used < size
      modifies this, table
      ensures Valid() && fresh(entries - old(entries)) && M == old(M)[key := val] && table == old(table)
    {
      assert LinksAt(index);
      var entry := new Entry(key, val, table[index]);
      LinkedCons(entry, chains[index]);
      table[index] := entry;
      Record(index, entry);
      assert forall i :: 0 <= i < size ==> LinksAt(i) by {
        forall i | 0 <= i < size
          ensures LinksAt(i)
        {
          assert old(LinksAt(i));
        }
      }
    }

    // The bookkeeping of an insertion.
    method Record(index: nat, entry: Entry<K, V>)
      requires Shape() && Represents() && size > 0 && index == Slot(entry.key, size)
      requires entry !in entries && entry.key !in M && used < size
      modifies this`used, this`chains, this`entries, this`M
      ensures Shape() && Represents() && M == old(M)[entry.key := entry.val] && entries == old(entries) + {entry}
      ensures chains == old(chains)[index := [entry] + old(chains)[index]]
    {
      PlacedInsert(chains, entries, entry);
      CoversInsert(M, entries, entry, entry.val);
      OneKeyInsert(entries, entry);
      used := used + 1;
      chains := chains[index := [entry] + chains[index]];
      entries := entries + {entry};
      M := M[entry.key := entry.val];
    }

    // _dictKeyIndex
    method KeyIndex(key: K) returns (index: int)
      requires Valid()
      modifies this, entries
      ensures Valid() && M == old(M) && entries == old(entries) && (table == old(table) || fresh(table))
      ensures index == -1 <==> key in M || !old(HasRoom())
      ensures index != -1 ==> size > 0 && index == Slot(key, size) && used < size
    {
      var room := ExpandIfNeeded();
      if !room {
        return -1;
      }
      var he, prev;
      ghost var j;
      he, prev, j := Search(key);
      if he != null {
        return -1;
      }
      return Slot(key, size);
    }

    method Replace(key: K, val: V) returns (added: bool)
      requires Valid()
      modifies this, table, entries
      ensures Valid() && fresh(entries - old(entries)) && (table == old(table) || fresh(table))
      ensures added <==> key !in old(M) && old(HasRoom())
      ensures M == if key in old(M) || old(HasRoom()) then old(M)[key := val] else old(M)
    {
      added := Add(key, val);
      if added {
        return;
      }
      var entry := Find(key);
      if entry == null {
        return;
      }
      Overwrite(entry, val);
    }

    // dictSetHashVal on an existing entry
    method Overwrite(entry: Entry<K, V>, val: V)
      requires Valid() && entry in entries
      modifies this`M, entry`val
      ensures Valid() && M == old(M)[entry.key := val]
    {
      entry.val := val;
      M := M[entry.key := val];
      forall i | 0 <= i < size
        ensures LinksAt(i)
      {
        assert old(LinksAt(i));
      }
    }

    method Delete(key: K) returns (ok: bool)
      requires Valid()
      modifies this, table, entries
      ensures Valid() && ok == (key in old(M)) && M == old(M) - {key}
      ensures size == old(size) && table == old(table) && (!ok ==> chains == old(chains))
      ensures ok ==> exists j :: 0 <= j < |old(chains)[Slot(key, size)]| &&
                       old(chains)[Slot(key, size)][j].key == key &&
                       chains == old(chains)[Slot(key, size) := Without(old(chains)[Slot(key, size)], j)] &&
                       entries == old(entries) - {old(chains)[Slot(key, size)][j]}
    {
      if size == 0 {
        return false;
      }
      var h := Slot(key, size);
      var de, prev;
      ghost var j;
      de, prev, j := Search(key);
      if de == null {
        return false;
      }
      RemoveEntry(h, de, prev, j);
      ok := true;
    }

    method RemoveEntry(h: nat, de: Entry<K, V>, prev: Entry?<K, V>, ghost j: nat)
      requires Valid() && size > 0 && h == Slot(de.key, size)
      requires j < |chains[h]| && chains[h][j] == de && prev == if j == 0 then null else chains[h][j - 1]
      modifies this, table, entries
      ensures Valid() && M == old(M) - {de.key} && entries == old(entries) - {de}
      ensures size == old(size) && table == old(table) && chains == old(chains)[h := Without(old(chains)[h], j)]
    {
      hide Represents, OneEntryPerKey;
      assert LinksAt(h) && Bucket(chains[h], h, size, entries);
      assert de in entries && (prev != null ==> prev in chains[h]);
      if prev != null {
        Elsewhere(chains, entries, h, prev);
      }
      Unlink(h, de, prev, chains[h], j);
      Forget(h, de, j);
      assert forall i :: 0 <= i < size ==> LinksAt(i) by {
        forall i | 0 <= i < size
          ensures LinksAt(i)
        {
          assert old(LinksAt(i));
        }
      }
    }

    // The bookkeeping of a removal; the links no longer run through `de`.
    method Forget(h: nat, de: Entry<K, V>, ghost j: nat)
      requires Shape() && Represents() && h < size && j < |chains[h]| && chains[h][j] == de && de in entries
      modifies this`used, this`chains, this`entries, this`M
      ensures Shape() && Represents() && M == old(M) - {de.key} && entries == old(entries) - {de}
      ensures chains == old(chains)[h := Without(old(chains)[h], j)]
    {
      PlacedRemove(chains, entries, h, j);
      CoversRemove(M, entries, de);
      OneKeyRemove(entries, de);
      used := used - 1;
      chains := chains[h := Without(chains[h], j)];
      entries := entries - {de};
      M := M - {de.key};
    }

    // The pointer update of dictDelete.
    method Unlink(h: nat, de: Entry<K, V>, prev: Entry?<K, V>, ghost chain: seq<Entry<K, V>>, ghost j: nat)
      requires table != null && h < table.Length && Linked(table[h], chain) && Distinct(chain)
      requires j < |chain| && chain[j] == de && prev == if j == 0 then null else chain[j - 1]
      modifies table, {prev}`next
      ensures Linked(table[h], Without(chain, j))
      ensures forall i :: 0 <= i < table.Length && i != h ==> table[i] == old(table[i])
    {
      ghost var rest := Without(chain, j);
      assert NextOk(chain, j);
      if prev != null {
        prev.next := de.next;
      } else {
        table[h] := de.next;
      }
      forall k | 0 <= k < |rest|
        ensures NextOk(rest, k)
      {
        ghost var c := if k < j then k else k + 1;
        assert rest[k] == chain[c] && old(NextOk(chain, c));
        assert k + 1 < |rest| ==> rest[k + 1] == chain[if k + 1 < j then k + 1 else k + 2];
        if c + 1 != j && j > 0 {
          assert chain[c] != chain[j - 1];
        }
      }
    }

    method ExpandIfNeeded() returns (ok: bool)
      requires Valid()
      modifies this, entries
      ensures Valid() && ok == old(HasRoom()) && M == old(M) && entries == old(entries)
      ensures table == old(table) || fresh(table)
      ensures ok ==> used < size
    {
      if size == 0 {
        assert INITIAL_SIZE == Pow2(2);
        ok := Expand(INITIAL_SIZE);
      } else if used == size {
        DoublePow2(size);
        ok := Expand(size * 2);
      } else {
        ok := true;
      }
    }

    /** `dictExpand`: every entry is linked into the bucket of the new size; the map is the same. */
    method Expand(newsize: nat) returns (ok: bool)
      requires Valid() && newsize < LONG_MAX
      modifies this, entries
      ensures Valid() && M == old(M) && entries == old(entries)
      ensures table == old(table) || fresh(table)
      ensures ok ==> IsPow2(size) && size >= newsize && size <= MAX_TABLE
      ensures IsPow2(newsize) && newsize >= INITIAL_SIZE && used <= newsize ==>
                ok == (newsize <= MAX_TABLE) && (ok ==> size == newsize)
      ensures !ok ==> size == old(size)
    {
      var realsize := NextPower(newsize);
      if IsPow2(newsize) && newsize >= INITIAL_SIZE {
        PowerIsExact(realsize, newsize);
      }
      if used > newsize {
        return false;
      }
      if realsize > MAX_TABLE {
        return false;
      }
      var t := new Entry?<K, V>[realsize](_ => null);
      var count := used;
      ghost var cs := Rehash(t);
      assert Represents();
      Install(t, count, cs);
      ok := true;
    }

    // The new table takes the place of the old one.
    method Install(t: array<Entry?<K, V>>, count: nat, ghost cs: seq<seq<Entry<K, V>>>)
      requires Filled(t, cs, entries) && IsPow2(t.Length) && INITIAL_SIZE <= t.Length <= MAX_TABLE
      requires count == |entries| <= t.Length && OneEntryPerKey(entries) && Represents()
      modifies this`table, this`size, this`sizemask, this`used, this`chains
      ensures Valid() && table == t && size == t.Length
    {
      table, size, sizemask, used := t, t.Length, t.Length - 1, count;
      chains := cs;
      forall i | 0 <= i < size
        ensures LinksAt(i)
      {
        assert FilledAt(t, cs, entries, i);
      }
    }

    // The copying loops of dictExpand.
    method Rehash(t: array<Entry?<K, V>>) returns (ghost cs: seq<seq<Entry<K, V>>>)
      requires Valid() && t != table && t.Length > 0 && forall i :: 0 <= i < t.Length ==> t[i] == null
      modifies t, this`used, entries
      ensures Filled(t, cs, entries) && used == 0
      ensures forall e <- entries :: e.val == old(e.val)
    {
      cs := seq(t.Length, _ => []);
      forall a | 0 <= a < size
        ensures Linked(table[a], chains[a])
      {
        assert LinksAt(a);
      }
      var i := 0;
      while i < size && used > 0
        invariant 0 <= i <= size && Filled(t, cs, Below(i))
        invariant used == |entries| - |Below(i)|
        invariant forall a :: i <= a < size ==> table[a] == old(table[a]) && Linked(table[a], chains[a])
        invariant forall e <- entries :: e.val == old(e.val)
      {
        cs := RehashBucket(t, i, cs);
        i := i + 1;
      }
      BelowAll(i);
    }

    method RehashBucket(t: array<Entry?<K, V>>, i: nat, ghost cs: seq<seq<Entry<K, V>>>)
      returns (ghost cs': seq<seq<Entry<K, V>>>)
      requires Layout() && t != table && i < size && Filled(t, cs, Below(i)) && used == |entries| - |Below(i)|
      requires forall a :: i <= a < size ==> Linked(table[a], chains[a])
      modifies t, this`used, chains[i]
      ensures Filled(t, cs', Below(i + 1)) && used == |entries| - |Below(i + 1)|
      ensures forall a :: i < a < size ==> Linked(table[a], chains[a])
      ensures forall e <- chains[i] :: e.val == old(e.val)
    {
      BelowStep(i);
      assert forall a :: i < a < size ==> forall e <- chains[a] :: e !in chains[i];
      cs' := MoveChain(t, table[i], chains[i], cs, Below(i));
      forall a | i < a < size
        ensures Linked(table[a], chains[a])
      {
        ghost var chain := chains[a];
        assert old(Linked(table[a], chains[a]));
        forall j | 0 <= j < |chain|
          ensures NextOk(chain, j)
        {
          assert chain[j] in chain && old(NextOk(chain, j));
        }
      }
    }

    /** The entries of the buckets before bucket `i`. */
    ghost function Below(i: nat): set<Entry<K, V>>
      requires Layout() && i <= size
      reads this
    {
      set e | e in entries && size > 0 && Slot(e.key, size) < i
    }

    lemma BelowStep(i: nat)
      requires Layout() && i < size
      ensures Distinct(chains[i]) && Below(i + 1) == Below(i) + Elements(chains[i])
      ensures |Below(i + 1)| == |Below(i)| + |chains[i]| && |Below(i + 1)| <= |entries|
      ensures forall a :: i < a < size ==> forall e <- chains[a] :: e !in Elements(chains[i])
    {
      assert Bucket(chains[i], i, size, entries);
      var here := Elements(chains[i]);
      DistinctCount(chains[i]);
      SubsetCount(Below(i + 1), entries);
      assert Below(i) !! here && Below(i + 1) == Below(i) + here;
      forall a | i < a < size
        ensures forall e <- chains[a] :: e !in here
      {
        assert Bucket(chains[a], a, size, entries);
      }
    }

    lemma BelowAll(i: nat)
      requires Layout() && |entries| <= size && i <= size && (i == size || |Below(i)| == |entries|)
      ensures Below(i) == entries
    {
      SubsetCount(Below(i), entries);
      assert |entries - Below(i)| == 0 ==> entries == Below(i);
    }

    /** A bucket array whose chains hold exactly the entries `es`. */
    ghost predicate Filled(t: array<Entry?<K, V>>, cs: seq<seq<Entry<K, V>>>, es: set<Entry<K, V>>)
      reads t, es
    {
      |cs| == t.Length && t.Length > 0 && Placed(cs, es) && forall i :: 0 <= i < |cs| ==> FilledAt(t, cs, es, i)
    }

    ghost predicate FilledAt(t: array<Entry?<K, V>>, cs: seq<seq<Entry<K, V>>>, es: set<Entry<K, V>>, i: nat)
      requires |cs| == t.Length && i < |cs| && Placed(cs, es)
      reads t, es
    {
      assert Bucket(cs[i], i, |cs|, es);
      Linked(t[i], cs[i])
    }

    // One chain of the old table, entry by entry.
    method MoveChain(t: array<Entry?<K, V>>, head: Entry?<K, V>, ghost chain: seq<Entry<K, V>>,
                     ghost cs: seq<seq<Entry<K, V>>>, ghost moved: set<Entry<K, V>>)
      returns (ghost cs': seq<seq<Entry<K, V>>>)
      requires Filled(t, cs, moved) && Linked(head, chain) && Distinct(chain) && Elements(chain) !! moved
      requires |chain| <= used
      modifies t, this`used, chain
      ensures Filled(t, cs', moved + Elements(chain))
      ensures used == old(used) - |chain| && forall e <- chain :: e.val == old(e.val)
    {
      cs' := cs;
      var he := head;
      ghost var k := 0;
      ghost var m: set<Entry<K, V>> := moved;
      while he != null
        invariant k <= |chain| && he == At(chain, k)
        invariant Filled(t, cs', m) && m == moved + Elements(chain[..k])
        invariant forall j :: k <= j < |chain| ==> NextOk(chain, j)
        invariant used == old(used) - k && forall e <- chain :: e.val == old(e.val)
        decreases |chain| - k
      {
        var nextHe := he.next;
        assert NextOk(chain, k) && forall j :: k < j < |chain| ==> chain[j] != chain[k];
        assert chain[..k + 1] == chain[..k] + [chain[k]] && chain[k] in chain;
        label Before:
        cs' := MoveEntry(t, he, cs', m);
        forall j | k < j < |chain|
          ensures NextOk(chain, j)
        {
          assert old@Before(NextOk(chain, j));
        }
        used := used - 1;
        he, k, m := nextHe, k + 1, m + {he};
      }
      assert chain[..k] == chain;
    }

    method MoveEntry(t: array<Entry?<K, V>>, he: Entry<K, V>,
                     ghost cs: seq<seq<Entry<K, V>>>, ghost moved: set<Entry<K, V>>)
      returns (ghost cs': seq<seq<Entry<K, V>>>)
      requires Filled(t, cs, moved) && he !in moved
      modifies t, he`next
      ensures Filled(t, cs', moved + {he})
    {
      var h := Slot(he.key, t.Length);
      assert FilledAt(t, cs, moved, h) && Bucket(cs[h], h, |cs|, moved);
      PlacedInsert(cs, moved, he);
      he.next := t[h];
      LinkedCons(he, cs[h]);
      t[h] := he;
      cs' := cs[h := [he] + cs[h]];
      forall i | 0 <= i < |cs'|
        ensures FilledAt(t, cs', moved + {he}, i)
      {
        assert old(FilledAt(t, cs, moved, i));
      }
    }
  }

  ghost function Elements<T>(s: seq<T>): set<T> { set e | e in s }

  lemma {:induction false} DistinctCount<T>(s: seq<T>)
    requires Distinct(s)
    ensures |Elements(s)| == |s|
  {
    if s != [] {
      DistinctCount(s[1..]);
      assert Elements(s) == {s[0]} + Elements(s[1..]);
    }
  }

  lemma {:induction false} SubsetCount<T>(a: set<T>, b: set<T>)
    requires a <= b
    ensures |a| <= |b| && |b - a| == |b| - |a|
  {
    assert b == a + (b - a);
  }

  lemma PowerIsExact(i: nat, n: nat)
    requires IsPow2(i) && IsPow2(n) && i >= n >= INITIAL_SIZE && (i > INITIAL_SIZE ==> i / 2 < n)
    ensures i == n
  {
    var j: nat :| i == Pow2(j);
    var k: nat :| n == Pow2(k);
    if i > INITIAL_SIZE {
      Pow2Exact(j, k);
    }
  }
}
