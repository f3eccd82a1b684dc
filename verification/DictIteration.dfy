/** The iterator of `dict.c`, which survives deletion of the entry it has just returned. */
module DictIteration {
  import opened Dict

  function Flatten<T>(cs: seq<seq<T>>): seq<T>
  {
    if cs == [] then [] else cs[0] + Flatten(cs[1..])
  }

  lemma {:induction false} FlattenElements<T>(cs: seq<seq<T>>, e: T)
    ensures e in Flatten(cs) <==> exists i :: 0 <= i < |cs| && e in cs[i]
  {
    if cs != [] {
      FlattenElements(cs[1..], e);
      forall i | 0 < i < |cs| && e in cs[i]
        ensures e in Flatten(cs[1..])
      {
        assert e in cs[1..][i - 1];
      }
      if e !in cs[0] && e in Flatten(cs[1..]) {
        var i :| 0 <= i < |cs[1..]| && e in cs[1..][i];
        assert e in cs[i + 1];
      }
    }
  }

  lemma {:induction false} FlattenDistinct<T>(cs: seq<seq<T>>)
    requires forall i :: 0 <= i < |cs| ==> Distinct(cs[i])
    requires forall i, j :: 0 <= i < j < |cs| ==> forall e <- cs[i] :: e !in cs[j]
    ensures Distinct(Flatten(cs))
  {
    if cs != [] {
      FlattenDistinct(cs[1..]);
      forall e <- cs[0]
        ensures e !in Flatten(cs[1..])
      {
        FlattenElements(cs[1..], e);
      }
      DistinctAppend(cs[0], Flatten(cs[1..]));
    }
  }

  lemma DistinctAppend<T>(a: seq<T>, b: seq<T>)
    requires Distinct(a) && Distinct(b) && forall e <- a :: e !in b
    ensures Distinct(a + b)
  {
    var s := a + b;
    forall j, k | 0 <= j < k < |s|
      ensures s[j] != s[k]
    {
      if j < |a| <= k {
        assert a[j] in a && b[k - |a|] in b;
      }
    }
  }

  /** What the links of a bucket say. */
  lemma BucketHead<K, V>(d: Dict<K, V>, i: nat)
    requires d.Valid() && i < d.size
    ensures d.table[i] == At(d.chains[i], 0)
  {
    assert d.LinksAt(i);
  }

  lemma BucketNext<K, V>(d: Dict<K, V>, i: nat, j: nat)
    requires d.Valid() && i < d.size && j < |d.chains[i]|
    ensures d.chains[i][j] in d.entries && d.Slot(d.chains[i][j].key, d.size) == i
    ensures d.chains[i][j].next == At(d.chains[i], j + 1)
    ensures forall k :: 0 <= k < |d.chains[i]| && d.chains[i][k] == d.chains[i][j] ==> k == j
  {
    assert d.LinksAt(i) && d.Bucket(d.chains[i], i, d.size, d.entries);
    assert NextOk(d.chains[i], j) && d.chains[i][j] in d.chains[i];
  }

  /** An entry is in the chain of its bucket, once, and no other entry of the table has its key. */
  lemma Located<K, V>(d: Dict<K, V>, e: Entry<K, V>, i: nat)
    requires d.Valid() && e in d.entries && i < d.size && d.Slot(e.key, d.size) == i
    ensures e in d.chains[i] && e.key in d.M
    ensures forall j, k | 0 <= j < |d.chains[i]| && 0 <= k < |d.chains[i]| ::
              d.chains[i][j].key == e.key == d.chains[i][k].key ==> j == k
    ensures forall j :: 0 <= j < |d.chains[i]| && d.chains[i][j].key == e.key ==> d.chains[i][j] == e
  {
    assert d.Bucket(d.chains[i], i, d.size, d.entries);
    d.InOneBucket(d.chains, d.entries, e, i);
  }

  lemma FlattenFrom<T>(cs: seq<seq<T>>, i: nat)
    requires i < |cs|
    ensures Flatten(cs[i..]) == cs[i] + Flatten(cs[i + 1..])
  {
    assert cs[i..][1..] == cs[i + 1..];
  }

  lemma WithoutTail<T>(s: seq<T>, j: nat)
    requires j < |s|
    ensures |Without(s, j)| == |s| - 1 && Without(s, j)[j..] == s[j + 1..]
  {
  }

  /** The chains list every entry of the table exactly once. */
  lemma ChainsListEntries<K, V>(d: Dict<K, V>)
    requires d.Valid()
    ensures Distinct(Flatten(d.chains))
    ensures Elements(Flatten(d.chains)) == d.entries
  {
    assert forall i :: 0 <= i < |d.chains| ==> d.Bucket(d.chains[i], i, |d.chains|, d.entries);
    FlattenDistinct(d.chains);
    var order := Flatten(d.chains);
    forall e <- order
      ensures e in d.entries
    {
      FlattenElements(d.chains, e);
    }
    forall e <- d.entries
      ensures e in order
    {
      FlattenElements(d.chains, e);
      d.InOneBucket(d.chains, d.entries, e, d.Slot(e.key, d.size));
    }
    assert Elements(order) == d.entries;
  }

  class DictIterator<K(==), V> {
    const ht: Dict<K, V>
    var index: int
    var entry: Entry?<K, V>
    var nextEntry: Entry?<K, V>

    // The entries still to be visited, and how many of them are in the current bucket.
    ghost var todo: seq<Entry<K, V>>
    ghost var left: nat

    /** The part of the current bucket that is still to be visited. */
    ghost function Rest(): seq<Entry<K, V>>
      requires 0 <= index < |ht.chains| && left <= |ht.chains[index]|
      reads `index, `left, ht`chains
    {
      ht.chains[index][|ht.chains[index]| - left..]
    }

    ghost predicate Between()
      requires ht.Shape()
      reads `index, `todo, ht
    {
      -1 <= index && todo == (if index + 1 <= ht.size then Flatten(ht.chains[index + 1..]) else [])
    }

    /** The next entry of the current bucket, if any, has been reached. */
    ghost predicate Arrived()
      reads `index, `left, `entry, `todo, ht`chains
    {
      0 <= index < |ht.chains| && left <= |ht.chains[index]| && entry == At(Rest(), 0) &&
      todo == Rest() + Flatten(ht.chains[index + 1..])
    }

    ghost predicate InBucket()
      requires ht.Shape()
      reads this, ht
    {
      0 <= index < ht.size && left <= |ht.chains[index]| && nextEntry == At(Rest(), 0) &&
      todo == Rest() + Flatten(ht.chains[index + 1..]) &&
      entry != null && ht.Slot(entry.key, ht.size) == index &&
      (entry in ht.chains[index] ==>
        left < |ht.chains[index]| && ht.chains[index][|ht.chains[index]| - left - 1] == entry)
    }

    ghost predicate Valid()
      reads this, ht, ht.table, ht.entries
    {
      ht.Valid() && if entry == null then Between() else InBucket()
    }

    constructor (ht: Dict<K, V>)
      requires ht.Valid()
      ensures Valid() && this.ht == ht && todo == Flatten(ht.chains) && entry == null
    {
      hide Dict.Links, Dict.Represents, Dict.Placed, Dict.OneEntryPerKey, Dict.Layout, Flatten;
      this.ht := ht;
      index, entry, nextEntry := -1, null, null;
      todo, left := Flatten(ht.chains), 0;
      new;
      assert ht.chains[0..] == ht.chains;
      assert Between();
    }

    /** `dictNext` returns the entries to be visited one after the other, and then nothing. */
    method Next() returns (e: Entry?<K, V>)
      requires Valid()
      modifies this
      ensures Valid() && e == entry
      ensures if old(todo) == [] then e == null && todo == [] else e == old(todo)[0] && todo == old(todo)[1..]
      ensures e != null ==> e in ht.entries
    {
      hide Dict.Links, Dict.Represents;
      while true
        invariant Valid() && todo == old(todo)
        decreases ht.size - index, entry != null
      {
        if entry == null {
          if index + 1 >= ht.size {
            Finish();
            return null;
          }
          EnterBucket();
          if entry == null {
            NothingLeft();
          }
        } else {
          FollowNext();
        }
        if entry != null {
          Take();
          return entry;
        }
      }
    }

    method Finish()
      requires Valid() && entry == null && index + 1 >= ht.size
      modifies this`index
      ensures Valid() && todo == []
    {
      index := index + 1;
      assert ht.Valid();
      assert Between();
    }

    method FollowNext()
      requires Valid() && entry != null
      modifies this`entry
      ensures ht.Valid() && Arrived() && (entry == null ==> Between())
    {
      hide Dict.Links, Dict.Represents;
      entry := nextEntry;
      assert Arrived();
      assert ht.Valid();
      if entry == null {
        NothingLeft();
      }
    }

    lemma NothingLeft()
      requires ht.Shape() && Arrived() && entry == null
      ensures Between()
    {
      assert Rest() == [];
    }

    method EnterBucket()
      requires ht.Valid() && Between() && index + 1 < ht.size
      modifies this`index, this`entry, this`left
      ensures ht.Valid() && index == old(index) + 1 && Arrived()
    {
      hide Dict.Links, Dict.Represents, Dict.Placed, Dict.OneEntryPerKey, Flatten;
      index := index + 1;
      FlattenFrom(ht.chains, index);
      BucketHead(ht, index);
      left := |ht.chains[index]|;
      assert Rest() == ht.chains[index];
      entry := ht.table[index];
      assert ht.Valid();
    }

    // The iterator moves past the entry, which is the first one still to be visited.
    method Take()
      requires ht.Valid() && Arrived() && entry != null
      modifies this`nextEntry, this`left, this`todo
      ensures Valid() && entry in ht.entries && old(todo) != [] && entry == old(todo)[0] && todo == old(todo)[1..]
    {
      hide Dict.Links, Dict.Represents;
      ghost var chain := ht.chains[index];
      ghost var j := |chain| - left;
      BucketNext(ht, index, j);
      nextEntry := entry.next;
      left := left - 1;
      todo := todo[1..];
      assert Rest() == chain[j + 1..];
    }

    /** The entry just returned may be given another value. */
    method SetReturned(val: V)
      requires Valid() && entry != null && entry in ht.entries
      modifies ht`M, entry`val
      ensures Valid() && todo == old(todo) && entry == old(entry) && ht.M == old(ht.M)[entry.key := val]
    {
      hide Dict.Links, Dict.Represents, Dict.Placed, Dict.OneEntryPerKey, Flatten;
      ht.Overwrite(entry, val);
    }

    /** The entry just returned may be deleted: what is still to be visited stays the same. */
    method DeleteReturned()
      requires Valid() && entry != null && entry in ht.entries
      modifies ht, ht.table, ht.entries
      ensures Valid() && todo == old(todo) && entry !in ht.entries && ht.M == old(ht.M) - {old(entry.key)}
      ensures ht.entries == old(ht.entries) - {entry} && ht.table == old(ht.table)
    {
      hide Dict.Links, Dict.Represents, Flatten, Without;
      ghost var chain := ht.chains[index];
      ghost var j := |chain| - left - 1;
      Located(ht, entry, index);
      WithoutTail(chain, j);
      var _ := ht.Delete(entry.key);
      assert ht.chains[index] == Without(chain, j);
      assert ht.Valid();
    }
  }

  /** A whole iteration in which entries are deleted as they are returned, as `drop` says: every
      entry of the table is visited exactly once, in the order of the chains. */
  method VisitAll<K(==), V>(d: Dict<K, V>, drop: K -> bool) returns (visited: seq<Entry<K, V>>)
    requires d.Valid()
    modifies d, d.table, d.entries
    ensures d.Valid() && visited == Flatten(old(d.chains))
    ensures Distinct(visited) && Elements(visited) == old(d.entries)
    ensures d.entries == old(d.entries) - Dropped(visited, drop)
  {
    hide Dict.Links, Dict.Represents, Dict.Placed, Dict.OneEntryPerKey;
    ChainsListEntries(d);
    ghost var order, all := Flatten(d.chains), d.entries;
    visited := [];
    var it := new DictIterator(d);
    var more := true;
    while more
      invariant fresh(it) && it.ht == d && d.table == old(d.table) && d.entries <= all
      invariant Halfway(it, visited, order, all, drop)
      invariant !more ==> visited == order
      decreases more, |it.todo|
    {
      var e := VisitOne(it, drop, visited, order, all);
      if e == null {
        more := false;
      } else {
        var entry: Entry<K, V> := e;
        visited := visited + [entry];
      }
    }
  }

  /** What has been visited and what is still to be visited make up the original order, and exactly
      the visited entries that `drop` selects are gone. */
  ghost predicate Halfway<K, V>(it: DictIterator<K, V>, visited: seq<Entry<K, V>>, order: seq<Entry<K, V>>,
      all: set<Entry<K, V>>, drop: K -> bool)
    reads it, it.ht, it.ht.table, it.ht.entries
  {
    it.Valid() && visited + it.todo == order && it.ht.entries == all - Dropped(visited, drop)
  }

  lemma Advance<T>(done: seq<T>, todo: seq<T>, all: seq<T>)
    requires done + todo == all && todo != []
    ensures done + [todo[0]] + todo[1..] == all
  {
  }

  method VisitOne<K(==), V>(it: DictIterator<K, V>, drop: K -> bool, ghost visited: seq<Entry<K, V>>,
      ghost order: seq<Entry<K, V>>, ghost all: set<Entry<K, V>>) returns (e: Entry?<K, V>)
    requires Halfway(it, visited, order, all, drop)
    modifies it, it.ht, it.ht.table, it.ht.entries
    ensures it.ht.table == old(it.ht.table) && it.ht.entries <= old(it.ht.entries)
    ensures e == null ==> Halfway(it, visited, order, all, drop) && visited == order
    ensures e != null ==> |it.todo| < old(|it.todo|) && Halfway(it, visited + [e as Entry<K, V>], order, all, drop)
  {
    hide Dict.Links, Dict.Represents;
    ghost var todo := it.todo;
    e := it.Next();
    if e != null {
      var entry: Entry<K, V> := e;
      DroppedSnoc(visited, entry, drop);
      Advance(visited, todo, order);
      if drop(entry.key) {
        it.DeleteReturned();
      }
    }
  }

  ghost function Dropped<K, V>(visited: seq<Entry<K, V>>, drop: K -> bool): set<Entry<K, V>>
  {
    set e | e in visited && drop(e.key)
  }

  lemma DroppedSnoc<K, V>(visited: seq<Entry<K, V>>, e: Entry<K, V>, drop: K -> bool)
    ensures Dropped(visited + [e], drop) == Dropped(visited, drop) + if drop(e.key) then {e} else {}
  {
  }
}
