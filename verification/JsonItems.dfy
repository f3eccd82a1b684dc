/** The linked items of `cJSON.c`, and the trees that they show. */
module JsonItems {
  import opened Json

  datatype Kind = IsFalse | IsTrue | IsNull | IsInt | IsDouble | IsString | IsArray | IsObject

  class Item {
    var next: Item?
    var prev: Item?
    var child: Item?
    var kind: Kind
    var valueString: string
    var valueInt: int
    var valueDouble: real
    var sign: int
    var name: string

    // The chain of children, and all items below this one.
    ghost var items: seq<Item>
    ghost var below: set<Item>

    /** `cJSON_New_Item` */
    constructor ()
      ensures next == null && prev == null && child == null && name == "" && items == [] && below == {}
    {
      next, prev, child := null, null, null;
      kind, valueString, valueInt, valueDouble, sign, name := IsFalse, "", 0, 0.0, 0, "";
      items, below := [], {};
    }
  }

  ghost function At(items: seq<Item>, i: int): Item?
  {
    if 0 <= i < |items| then items[i] else null
  }

  ghost predicate Linked(it: Item, before: Item?, after: Item?)
    reads it`next, it`prev
  {
    it.next == after && it.prev == before
  }

  /** The children of `it` form a chain, and all that is below them is below `it`. */
  ghost predicate Holds(it: Item)
    reads it`child, it`items, it`below, it.below
  {
    it.child == At(it.items, 0) &&
    forall i :: 0 <= i < |it.items| ==>
      it.items[i] in it.below && it.items[i].below <= it.below &&
      Linked(it.items[i], At(it.items, i - 1), At(it.items, i + 1))
  }

  /** `it` and what is below it are the tree `v`. The links of `it` to its siblings do not matter. */
  ghost predicate Shows(it: Item, v: Value)
    reads it`child, it`kind, it`valueString, it`valueInt, it`valueDouble, it`sign, it`items, it`below, it.below
    decreases v
  {
    match v
    case Null => it.kind == IsNull
    case False => it.kind == IsFalse
    case True => it.kind == IsTrue
    case Int(sign, value) => it.kind == IsInt && it.sign == sign && it.valueInt == value
    case Double(d) => it.kind == IsDouble && it.valueDouble == d
    case String(s) => it.kind == IsString && it.valueString == s
    case Array(vs) =>
      it.kind == IsArray && Holds(it) && |it.items| == |vs| &&
      forall i :: 0 <= i < |vs| ==> Shows(it.items[i], vs[i])
    case Object(ms) =>
      it.kind == IsObject && Holds(it) && |it.items| == |ms| &&
      forall i :: 0 <= i < |ms| ==> it.items[i].name == ms[i].name && Shows(it.items[i], ms[i].value)
  }

  /** The children of an array, one by one. */
  lemma ShowsItem(it: Item, vs: seq<Value>, i: nat)
    requires Shows(it, Array(vs)) && Storable(Array(vs)) && i <= |vs|
    ensures it.kind == IsArray && |it.items| == |vs| && it.child == At(it.items, 0)
    ensures i < |vs| ==> Shows(it.items[i], vs[i]) && Storable(vs[i]) && it.items[i].next == At(it.items, i + 1)
  {
    assert i < |vs| ==> vs[i] in vs;
  }

  /** The children of an object, one by one. */
  lemma ShowsMember(it: Item, ms: seq<Member>, i: nat)
    requires Shows(it, Object(ms)) && Storable(Object(ms)) && i <= |ms|
    ensures it.kind == IsObject && |it.items| == |ms| && it.child == At(it.items, 0)
    ensures i < |ms| ==> Shows(it.items[i], ms[i].value) && it.items[i].name == ms[i].name &&
                         NulFree(ms[i].name) && Storable(ms[i].value) && it.items[i].next == At(it.items, i + 1)
  {
    assert i < |ms| ==> ms[i] in ms;
  }
}
