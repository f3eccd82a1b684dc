/** The subscriptions of a context as entries of the hash table of `dict.c`. */
module Subscriptions {
  import opened Wrappers
  import opened AsyncMatcher
  import opened Dict
  import D = Dict
  import opened DictIteration

  type Table = Dict<Topic, Subscription>

  /** The table has grown by new entries only, and its array is the same or a new one. */
  twostate predicate Grew(d: Table)
    reads d
  {
    (d.table == old(d.table) || fresh(d.table)) && fresh(d.entries - old(d.entries))
  }

  method Lookup(d: Table, t: Topic) returns (r: Option<Subscription>)
    requires d.Valid()
    ensures r == if t in d.M then Some(d.M[t]) else None
  {
    hide Dict.Valid;
    var de := d.Find(t);
    r := if de == null then None else Some(de.val);
  }

  /** Without room for a new topic nothing is stored. */
  method Store(d: Table, t: Topic, s: Subscription)
    requires d.Valid()
    modifies d, d.table, d.entries
    ensures d.Valid() && Grew(d)
    ensures d.M == old(d.M)[t := s] || (d.M == old(d.M) && t !in d.M && |d.M| >= MOST)
  {
    d.SizeIsCount();
    hide Dict.Valid;
    var _ := d.Replace(t, s);
  }

  /** Changes the entry of a topic in place. */
  method Update(d: Table, t: Topic, s: Subscription)
    requires d.Valid() && t in d.M
    modifies d`M, d.entries`val
    ensures d.Valid() && d.M == old(d.M)[t := s]
  {
    hide Dict.Valid;
    var de := d.Find(t);
    d.Overwrite(de, s);
  }

  method Remove(d: Table, t: Topic)
    requires d.Valid() && t in d.M
    modifies d, d.table, d.entries
    ensures d.Valid() && d.M == old(d.M) - {t} && Grew(d)
  {
    hide Dict.Valid;
    var _ := d.Delete(t);
  }

  method IsEmpty(d: Table) returns (empty: bool)
    requires d.Valid()
    ensures empty == (d.M == map[])
  {
    d.SizeIsCount();
    empty := d.used == 0;
  }

  // ----- Walking the table

  ghost function KeysOf(es: seq<Entry<Topic, Subscription>>): set<Topic> { set e | e in es :: e.key }

  ghost predicate DistinctKeys(es: seq<Entry<Topic, Subscription>>)
  {
    forall i, j :: 0 <= i < j < |es| ==> es[i].key != es[j].key
  }

  lemma FirstKey(es: seq<Entry<Topic, Subscription>>)
    requires es != [] && DistinctKeys(es)
    ensures DistinctKeys(es[1..]) && KeysOf(es[1..]) == KeysOf(es) - {es[0].key} && es[0].key in KeysOf(es)
  {
    assert es[0] in es;
    forall k
      ensures k in KeysOf(es[1..]) <==> k in KeysOf(es) && k != es[0].key
    {
      if k in KeysOf(es) && k != es[0].key {
        var e :| e in es && e.key == k;
        assert e in es[1..];
      }
      if k in KeysOf(es[1..]) {
        var i :| 0 <= i < |es[1..]| && es[1..][i].key == k;
        assert es[i + 1].key == k && es[i + 1] in es;
      }
    }
  }

  /** The chains list every key of the table once. */
  lemma ChainsListKeys(d: Table)
    requires d.Valid()
    ensures DistinctKeys(Flatten(d.chains)) && KeysOf(Flatten(d.chains)) == d.M.Keys
    ensures forall e <- Flatten(d.chains) :: e in d.entries
  {
    ChainsListEntries(d);
    var es := Flatten(d.chains);
    assert forall e :: e in es <==> e in D.Elements(es);
    forall k
      ensures k in KeysOf(es) <==> k in d.M
    {
      if k in d.M {
        var e :| e in d.entries && e.key == k;
        assert e in es;
      }
    }
  }

  lemma EntryOf(d: Table, e: Entry<Topic, Subscription>)
    requires d.Valid() && e in d.entries
    ensures e.key in d.M && d.M[e.key] == e.val
  {
  }

  // Of the topics walked so far, exactly those to be unsubscribed from are marked.
  ghost predicate Walked(subs: map<Topic, Subscription>, pattern: bool, todo: set<Topic>, marked: set<Topic>)
  {
    marked == OfVariant(Unsent(subs), pattern) - todo
  }

  lemma WalkOne(subs: map<Topic, Subscription>, pattern: bool, todo: set<Topic>, marked: set<Topic>, t: Topic)
    requires Walked(subs, pattern, todo, marked) && t in todo && t in subs
    ensures var now := MarkSent(subs, marked);
            t in now && now.Keys == subs.Keys &&
            if t.pattern == pattern && !now[t].sent
            then Walked(subs, pattern, todo - {t}, marked + {t}) &&
                 MarkSent(subs, marked + {t}) == now[t := now[t].(sent := true)]
            else Walked(subs, pattern, todo - {t}, marked)
  {
  }

  lemma WalkEnds(subs: map<Topic, Subscription>, pattern: bool)
    ensures MarkSent(subs, {}) == subs && Walked(subs, pattern, subs.Keys, {})
    ensures forall marked :: Walked(subs, pattern, {}, marked) ==> marked == OfVariant(Unsent(subs), pattern)
  {
  }

  /** The walk of an unsubscription from everything. */
  method MarkEvery(d: Table, pattern: bool) returns (none: bool)
    requires d.Valid()
    modifies d`M, d.entries`val
    ensures d.Valid() && (none <==> OfVariant(Unsent(old(d.M)), pattern) == {})
    ensures d.M == if none then old(d.M) else MarkSent(old(d.M), OfVariant(Unsent(old(d.M)), pattern))
  {
    hide MarkSent, Walked, OfVariant, Unsent, Dict.Valid, Flatten, KeysOf, DistinctKeys;
    ghost var subs, marked: set<Topic> := d.M, {};
    none := true;
    ChainsListKeys(d);
    WalkEnds(subs, pattern);
    var it := new DictIterator(d);
    var more := true;
    while more
      invariant fresh(it) && it.ht == d && it.Valid() && d.entries == old(d.entries)
      invariant DistinctKeys(it.todo) && KeysOf(it.todo) <= subs.Keys
      invariant d.M == MarkSent(subs, marked) && (none <==> marked == {})
      invariant Walked(subs, pattern, KeysOf(it.todo), marked)
      invariant !more ==> KeysOf(it.todo) == {}
      decreases more, |it.todo|
    {
      ghost var todo := it.todo;
      var de := it.Next();
      if de == null {
        NoKeys();
        more := false;
      } else {
        var e: Entry<Topic, Subscription> := de;
        EntryOf(d, e);
        FirstKey(todo);
        WalkOne(subs, pattern, KeysOf(todo), marked, e.key);
        if e.key.pattern == pattern && !e.val.sent {
          it.SetReturned(e.val.(sent := true));
          marked := marked + {e.key};
          none := false;
        }
      }
    }
  }

  lemma NoKeys()
    ensures KeysOf([]) == {} && DistinctKeys([])
  {
  }

  /** All entries of the table. */
  method Snapshot(d: Table) returns (m: map<Topic, Subscription>)
    requires d.Valid()
    ensures m == d.M
  {
    hide Dict.Valid, Flatten, KeysOf, DistinctKeys;
    ChainsListKeys(d);
    m := map[];
    var it := new DictIterator(d);
    var more := true;
    while more
      invariant fresh(it) && it.ht == d && it.Valid()
      invariant DistinctKeys(it.todo) && KeysOf(it.todo) <= d.M.Keys
      invariant m.Keys == d.M.Keys - KeysOf(it.todo) && forall t <- m :: m[t] == d.M[t]
      invariant !more ==> KeysOf(it.todo) == {}
      decreases more, |it.todo|
    {
      ghost var todo := it.todo;
      var de := it.Next();
      if de == null {
        NoKeys();
        more := false;
      } else {
        var e: Entry<Topic, Subscription> := de;
        EntryOf(d, e);
        FirstKey(todo);
        m := m[e.key := e.val];
      }
    }
  }
}
