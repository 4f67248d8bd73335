/** Nested objects as Go has them: maps and arrays that are shared by reference and written in place. The
    writes are proved against the value functions of `Paths`, and say who sees a write. */
module Sharing {
  import opened Prelude
  import opened Json
  import Paths
  import Text

  /** What a field or an array place holds: a scalar, or a reference to a map or an array. */
  datatype Item = Leaf(value: Value) | Ref(node: Node)

  predicate Scalar(v: Value) { !v.Obj? && !v.Arr? }

  /** The maps and arrays of an item. */
  ghost function Foot(x: Item): set<Node>
    reads if x.Ref? then {x.node} else {}
  {
    if x.Ref? then x.node.repr else {}
  }

  /** A scalar, or a tree of its own. */
  ghost predicate Whole(x: Item)
    reads if x.Ref? then {x.node} + x.node.repr else {}
    decreases Foot(x), 3
  {
    match x
    case Leaf(v) => Scalar(v)
    case Ref(c) => c.Valid()
  }

  /** The value that an item stands for. */
  ghost function ValueOf(x: Item): Value
    requires Whole(x)
    reads if x.Ref? then {x.node} + x.node.repr else {}
    decreases Foot(x), 3
  {
    match x
    case Leaf(v) => v
    case Ref(c) => c.Tree()
  }

  twostate predicate Untouched(n: Node)
    reads n
  {
    unchanged(n)
  }

  /** An item whose maps and arrays are untouched stands for the same value. */
  twostate lemma ItemKept(x: Item)
    requires old(Whole(x)) && forall n | n in old(Foot(x)) :: Untouched(n)
    ensures Whole(x) && Foot(x) == old(Foot(x)) && ValueOf(x) == old(ValueOf(x))
  {
    if x.Ref? {
      x.node.Kept();
    }
  }

  /** A map or an array. */
  class Node {
    const isArray: bool
    var fields: map<string, Item>
    var items: seq<Item>
    ghost var repr: set<Node>

    /** A tree: what is below each field or place is its own. */
    ghost predicate Valid()
      reads this, repr
      decreases repr, 2
    {
      && this in repr
      && (if isArray then fields == map[] else items == [])
      && FieldsApart() && ItemsApart()
    }

    ghost predicate FieldsApart()
      requires this in repr
      reads this, repr
      decreases repr, 1
    {
      && (forall k | k in fields :: Below(fields[k]))
      && (forall j, k | j in fields && k in fields && j != k && fields[j].Ref? && fields[k].Ref? ::
            fields[j].node.repr !! fields[k].node.repr)
    }

    ghost predicate ItemsApart()
      requires this in repr
      reads this, repr
      decreases repr, 1
    {
      && (forall k | 0 <= k < |items| :: Below(items[k]))
      && (forall j, k | 0 <= j < k < |items| && items[j].Ref? && items[k].Ref? ::
            items[j].node.repr !! items[k].node.repr)
    }

    ghost predicate Below(x: Item)
      requires this in repr
      reads this, repr
      decreases repr, 0
    {
      && (x.Ref? ==> x.node in repr && x.node.repr <= repr && this !in x.node.repr)
      && Whole(x)
    }

    ghost function Tree(): Value
      requires Valid()
      reads this, repr
      decreases repr, 2
    {
      if isArray then Arr(Elements(|items|)) else Obj(Contents())
    }

    /** The object that a map stands for. */
    ghost function Contents(): (o: Object)
      requires Valid()
      reads this, repr
      ensures o.Keys == fields.Keys
      decreases repr, 1
    {
      assert FieldsApart();
      map k | k in fields :: ItemValue(fields[k])
    }

    /** The first n values of an array. */
    ghost function Elements(n: nat): (s: seq<Value>)
      requires Valid() && n <= |items|
      reads this, repr
      ensures |s| == n && forall k | 0 <= k < n :: Below(items[k]) && s[k] == ItemValue(items[k])
      decreases repr, 1, n
    {
      assert ItemsApart();
      if n == 0 then [] else Elements(n - 1) + [ItemValue(items[n - 1])]
    }

    ghost function ItemValue(x: Item): Value
      requires this in repr && Below(x)
      reads this, repr
      decreases repr, 0
    {
      ValueOf(x)
    }

    lemma Field(key: string)
      requires Valid() && key in fields
      ensures Below(fields[key]) && Contents()[key] == ValueOf(fields[key])
    {}

    /** A tree whose own maps and arrays are untouched stands for the same value. */
    twostate lemma Kept()
      requires old(Valid()) && forall n | n in old(repr) :: Untouched(n)
      ensures Valid() && repr == old(repr) && Tree() == old(Tree())
      ensures Contents() == old(Contents())
    {
    }

    /** The other fields are separate trees, and stand for these values. */
    ghost predicate Others(key: string, o: Object)
      requires this in repr
      reads this, repr
    {
      && (forall k | k in fields && k != key :: k in o && Below(fields[k]) && ValueOf(fields[k]) == o[k])
      && (forall j, k | j in fields && k in fields && j != k && j != key && k != key
                        && fields[j].Ref? && fields[k].Ref? :: fields[j].node.repr !! fields[k].node.repr)
    }

    /** With one more tree they make a map. */
    lemma Rebuild(o: Object, key: string)
      requires !isArray && items == [] && this in repr && key in fields && o.Keys + {key} == fields.Keys
      requires Others(key, o) && Below(fields[key])
      requires forall k | k in fields && k != key && fields[k].Ref? && fields[key].Ref? ::
                 fields[k].node.repr !! fields[key].node.repr
      ensures Valid() && Contents() == o[key := ValueOf(fields[key])]
    {}

    /** The nodes below a field. */
    ghost function Under(key: string): (nodes: set<Node>)
      requires Valid()
      reads this, repr
      ensures nodes <= repr && this !in nodes
      ensures forall k | k in fields && k != key :: Foot(fields[k]) !! nodes
    {
      if key in fields then
        assert FieldsApart() && Below(fields[key]);
        Foot(fields[key])
      else {}
    }

    /** After a write to one field or below it, the others are what they were. */
    twostate lemma OthersStay(key: string)
      requires old(Valid()) && this in repr && old(repr) <= repr && forall k | k in fields && k != key ::
                 k in old(fields) && fields[k] == old(fields[k])
      requires forall n | n in old(repr) && n != this && n !in old(Under(key)) :: Untouched(n)
      ensures Others(key, old(Contents()))
      ensures forall k | k in fields && k != key ::
                Foot(fields[k]) == old(Foot(fields[k])) && Foot(fields[k]) <= old(repr)
    {
      forall k | k in fields && k != key
        ensures Below(fields[k]) && ValueOf(fields[k]) == old(Contents())[k] && Foot(fields[k]) == old(Foot(fields[k]))
        ensures Foot(fields[k]) <= old(repr)
      {
        assert old(Below(fields[k])) && old(Foot(fields[k]) !! Under(key));
        forall n | n in old(Foot(fields[k])) ensures Untouched(n) {
          assert n in old(repr) && n != this && n !in old(Under(key));
        }
        ItemKept(fields[k]);
      }
      assert old(FieldsApart());
    }

    constructor (isArray: bool)
      ensures Valid() && repr == {this} && this.isArray == isArray
      ensures Contents() == map[] && items == []
    {
      this.isArray := isArray;
      fields, items := map[], [];
      repr := {this};
    }

    /** A separate item under a key, in place of what was there. */
    method Put(key: string, x: Item)
      requires Valid() && !isArray && Whole(x) && Foot(x) !! repr
      modifies this
      ensures Valid() && repr == old(repr) + old(Foot(x)) && fields == old(fields)[key := x]
      ensures Contents() == old(Contents())[key := old(ValueOf(x))]
    {
      ghost var o := Contents();
      fields := fields[key := x];
      repr := repr + Foot(x);
      OthersStay(key);
      ItemKept(x);
      Rebuild(o, key);
    }

    /** The loop of the strict setPayloadPath, one segment a call. */
    method SetBelow(parts: Paths.Parts, x: Item) returns (err: Option<Paths.PathError>)
      requires Valid() && !isArray && Whole(x) && Foot(x) !! repr
      modifies repr
      ensures Valid() && old(repr) <= repr && fresh(repr - old(repr) - old(Foot(x)))
      ensures (Contents(), err) == Paths.SetBelow(old(Contents()), parts, old(ValueOf(x)))
      ensures |parts| > 1 && parts[0] in old(fields) ==> fields == old(fields)
      ensures |parts| == 1 || parts[0] !in old(fields) ==> forall n | n in old(repr) && n != this :: Untouched(n)
      decreases |parts|, 0
    {
      var key := parts[0];
      if |parts| == 1 {
        Put(key, x);
        return None;
      }
      if Text.Blank(key) {
        return Some(Paths.InvalidSegment);
      }
      if key !in fields {
        err := WriteNew(key, parts[1..], x);
        return;
      }
      Field(key);
      if fields[key].Leaf? || fields[key].node.isArray {
        return Some(Paths.CrossesNonObject(key));
      }
      err := WriteChild(key, parts[1..], x);
    }

    /** Write below a new map, which is attached last: no one else sees it before. */
    method WriteNew(key: string, parts: Paths.Parts, x: Item) returns (err: Option<Paths.PathError>)
      requires Valid() && !isArray && Whole(x) && Foot(x) !! repr && key !in fields
      modifies this
      ensures Valid() && old(repr) <= repr && fresh(repr - old(repr) - old(Foot(x)))
      ensures var (child', e) := Paths.SetBelow(map[], parts, old(ValueOf(x)));
              Contents() == old(Contents())[key := Obj(child')] && err == e
      decreases |parts|, 2
    {
      var child := new Node(false);
      err := child.SetBelow(parts, x);
      Put(key, Ref(child));
    }

    /** Write into the map of a field. */
    method WriteChild(key: string, parts: Paths.Parts, x: Item) returns (err: Option<Paths.PathError>)
      requires Valid() && !isArray && Whole(x) && Foot(x) !! repr
      requires key in fields && fields[key].Ref? && !fields[key].node.isArray
      modifies repr
      ensures Valid() && old(repr) <= repr && fresh(repr - old(repr) - old(Foot(x)))
      ensures var (child', e) := Paths.SetBelow(Paths.Child(old(Contents()), key), parts, old(ValueOf(x)));
              err == e && Contents() == old(Contents())[key := Obj(child')]
      ensures fields == old(fields)
      ensures forall n | n in old(repr) && n != this && n !in old(Under(key)) :: Untouched(n)
      decreases |parts|, 1
    {
      var child := fields[key].node;
      ghost var o := Contents();
      Field(key);
      err := child.SetBelow(parts, x);
      repr := repr + child.repr;
      OthersStay(key);
      Rebuild(o, key);
    }

    /** The loop of the overwriting setPayloadPath, one segment a call. */
    method ForceBelow(parts: Paths.Parts, x: Item)
      requires Valid() && !isArray && Whole(x) && Foot(x) !! repr
      modifies repr
      ensures Valid() && old(repr) <= repr && fresh(repr - old(repr) - old(Foot(x)))
      ensures Contents() == Paths.ForceParts(old(Contents()), parts, old(ValueOf(x)))
      decreases |parts|, 0
    {
      var key := parts[0];
      if |parts| == 1 {
        Put(key, x);
        return;
      }
      if key in fields { Field(key); }
      if key in fields && fields[key].Ref? && !fields[key].node.isArray {
        ForceChild(key, parts[1..], x);
      } else {
        ForceNew(key, parts[1..], x);
      }
    }

    /** Write below a new map, in place of whatever is there. */
    method ForceNew(key: string, parts: Paths.Parts, x: Item)
      requires Valid() && !isArray && Whole(x) && Foot(x) !! repr
      modifies this
      ensures Valid() && old(repr) <= repr && fresh(repr - old(repr) - old(Foot(x)))
      ensures Contents() == old(Contents())[key := Obj(Paths.ForceParts(map[], parts, old(ValueOf(x))))]
      decreases |parts|, 2
    {
      var child := new Node(false);
      child.ForceBelow(parts, x);
      Put(key, Ref(child));
    }

    method ForceChild(key: string, parts: Paths.Parts, x: Item)
      requires Valid() && !isArray && Whole(x) && Foot(x) !! repr
      requires key in fields && fields[key].Ref? && !fields[key].node.isArray
      modifies repr
      ensures Valid() && old(repr) <= repr && fresh(repr - old(repr) - old(Foot(x)))
      ensures Contents() == old(Contents())[key := Obj(Paths.ForceParts(Paths.Child(old(Contents()), key), parts,
                                                                        old(ValueOf(x))))]
      decreases |parts|, 1
    {
      var child := fields[key].node;
      ghost var o := Contents();
      Field(key);
      child.ForceBelow(parts, x);
      repr := repr + child.repr;
      OthersStay(key);
      Rebuild(o, key);
    }

    /** setPayloadPath of the handlers. */
    method SetPayloadPath(path: string, x: Item) returns (err: Option<Paths.PathError>)
      requires Valid() && !isArray && Whole(x) && Foot(x) !! repr
      modifies repr
      ensures Valid() && old(repr) <= repr && fresh(repr - old(repr) - old(Foot(x)))
      ensures (Contents(), err) == Paths.SetPath(old(Contents()), path, old(ValueOf(x)))
    {
      var parts := Paths.Segments(path);
      if Text.Blank(parts[0]) {
        return Some(Paths.TargetRequired);
      }
      err := SetBelow(parts, x);
    }

    /** setPayloadPath of the triggers. */
    method ForcePayloadPath(path: string, x: Item)
      requires Valid() && !isArray && Whole(x) && Foot(x) !! repr
      modifies repr
      ensures Valid() && old(repr) <= repr && fresh(repr - old(repr) - old(Foot(x)))
      ensures Contents() == Paths.ForcePath(old(Contents()), path, old(ValueOf(x)))
    {
      var trimmed := Text.TrimSpace(path);
      if trimmed == "" {
        return;
      }
      ForceBelow(Paths.Segments(trimmed), x);
    }

    /** The map of a snapshot: its own top level, and what is below the top level of the original. */
    method Snapshot() returns (s: Node)
      requires Valid() && !isArray
      ensures s.Valid() && !s.isArray && fresh(s) && s.fields == fields && s.repr == repr - {this} + {s}
      ensures s.Contents() == Contents()
    {
      s := new Node(false);
      s.fields := fields;
      s.repr := repr - {this} + {s};
      forall k | k in fields ensures s.Below(fields[k]) && s.ItemValue(fields[k]) == ItemValue(fields[k]) {
        assert Below(fields[k]);
        ItemKept(fields[k]);
      }
    }
  }

  /** A write to the original after a snapshot: the snapshot stays as it was when the write concerns a
      top-level field or a new one, and shows the write when it goes below a field that was there. */
  method WriteAfterSnapshot(n: Node, parts: Paths.Parts, x: Item) returns (s: Node, err: Option<Paths.PathError>)
    requires n.Valid() && !n.isArray && Whole(x) && Foot(x) !! n.repr
    modifies n.repr
    ensures n.Valid() && (n.Contents(), err) == Paths.SetBelow(old(n.Contents()), parts, old(ValueOf(x)))
    ensures s.Valid()
    ensures s.Contents() == if |parts| == 1 || parts[0] !in old(n.Contents()) then old(n.Contents()) else n.Contents()
  {
    s := n.Snapshot();
    if |parts| == 1 || parts[0] !in n.fields {
      err := WriteOnTop(n, parts, x, s);
    } else {
      err := WriteInside(n, parts, x, s);
    }
  }

  /** The same for a message that is restored from a snapshot and then written to. */
  method WriteAfterRestore(s: Node, parts: Paths.Parts, x: Item) returns (m: Node, err: Option<Paths.PathError>)
    requires s.Valid() && !s.isArray && Whole(x) && Foot(x) !! s.repr
    modifies s.repr
    ensures m.Valid() && fresh(m) && (m.Contents(), err) == Paths.SetBelow(old(s.Contents()), parts, old(ValueOf(x)))
    ensures s.Valid()
    ensures s.Contents() == if |parts| == 1 || parts[0] !in old(s.Contents()) then old(s.Contents()) else m.Contents()
  {
    m := s.Snapshot();
    if |parts| == 1 || parts[0] !in m.fields {
      err := WriteOnTop(m, parts, x, s);
    } else {
      err := WriteInside(m, parts, x, s);
    }
  }

  /** A write below a field that a snapshot shares. */
  method WriteInside(n: Node, parts: Paths.Parts, x: Item, s: Node) returns (err: Option<Paths.PathError>)
    requires n.Valid() && !n.isArray && Whole(x) && Foot(x) !! n.repr && |parts| > 1 && parts[0] in n.fields
    requires s.Valid() && !s.isArray && s !in n.repr && s.fields == n.fields && (Foot(x) !! s.repr)
    modifies n.repr, s`repr
    ensures n.Valid() && (n.Contents(), err) == Paths.SetBelow(old(n.Contents()), parts, old(ValueOf(x)))
    ensures s.Valid() && s.Contents() == n.Contents()
  {
    err := n.SetBelow(parts, x);
    s.repr := n.repr - {n} + {s};
    SameFields(n, s);
  }

  /** A write that leaves what is below the top level alone. */
  method WriteOnTop(n: Node, parts: Paths.Parts, x: Item, ghost s: Node) returns (err: Option<Paths.PathError>)
    requires n.Valid() && !n.isArray && Whole(x) && Foot(x) !! n.repr && (|parts| == 1 || parts[0] !in n.fields)
    requires s.Valid() && s !in n.repr && s.repr <= n.repr - {n} + {s}
    modifies n.repr
    ensures n.Valid() && (n.Contents(), err) == Paths.SetBelow(old(n.Contents()), parts, old(ValueOf(x)))
    ensures s.Valid() && s.Contents() == old(s.Contents())
  {
    err := n.SetBelow(parts, x);
    s.Kept();
  }

  /** Two maps with the same fields, one of them a tree. */
  lemma SameFields(n: Node, s: Node)
    requires n.Valid() && !n.isArray && !s.isArray && s !in n.repr && s.items == []
    requires s.fields == n.fields && s.repr == n.repr - {n} + {s}
    ensures s.Valid() && s.Contents() == n.Contents()
  {
    assert n.FieldsApart();
    forall k | k in n.fields ensures s.Below(s.fields[k]) && s.ItemValue(s.fields[k]) == n.ItemValue(n.fields[k]) {
      assert n.Below(n.fields[k]);
    }
  }

  // ----- A map that two items share -----

  /** Two maps hold the same map under a key, and nothing else in common. */
  ghost predicate Share(a: Node, b: Node, key: string, c: Node)
    reads a, a.repr, b, b.repr, c, c.repr
  {
    && a.Valid() && b.Valid() && c.Valid() && !a.isArray && !b.isArray && !c.isArray
    && key in a.fields && key in b.fields && a.fields[key] == b.fields[key] == Ref(c)
    && a.repr * b.repr <= c.repr && a != b
  }

  /** A write below a key, as the map under the key sees it. */
  method WriteUnder(a: Node, key: string, c: Node, parts: Paths.Parts, x: Item) returns (err: Option<Paths.PathError>)
    requires a.Valid() && !a.isArray && key in a.fields && a.fields[key] == Ref(c) && c.Valid() && !c.isArray
    requires Whole(x) && Foot(x) !! a.repr
    modifies a.repr
    ensures a.Valid() && a.fields == old(a.fields) && c.Valid() && c.repr <= a.repr && a !in c.repr
    ensures fresh(a.repr - old(a.repr) - old(Foot(x)))
    ensures c.Contents() == Paths.SetBelow(old(c.Contents()), parts, old(ValueOf(x))).0
    ensures a.Contents() == old(a.Contents())[key := Obj(c.Contents())]
    ensures forall n | n in old(a.repr) && n != a && n !in old(c.repr) :: Untouched(n)
  {
    a.Field(key);
    err := a.WriteChild(key, parts, x);
    a.Field(key);
  }

  /** A write below the key in one of them shows in the other. */
  method WriteShared(a: Node, b: Node, key: string, c: Node, parts: Paths.Parts, x: Item)
    returns (err: Option<Paths.PathError>)
    requires Share(a, b, key, c) && Whole(x) && Foot(x) !! a.repr && Foot(x) !! b.repr
    modifies a.repr, b`repr
    ensures a.Valid() && b.Valid() && c.Valid()
    ensures c.Contents() == Paths.SetBelow(old(c.Contents()), parts, old(ValueOf(x))).0
    ensures a.Contents() == old(a.Contents())[key := Obj(c.Contents())]
    ensures b.Contents() == old(b.Contents())[key := Obj(c.Contents())]
  {
    ghost var o := b.Contents();
    b.Field(key);
    assert b !in a.repr;
    err := WriteUnder(a, key, c, parts, x);
    label written:
    b.repr := b.repr + c.repr;
    a.Kept@written();
    c.Kept@written();
    b.OthersStay(key);
    b.Rebuild(o, key);
  }

  /** The same map into two. */
  method PutBoth(a: Node, b: Node, c: Node, key: string)
    requires a.Valid() && b.Valid() && c.Valid() && !a.isArray && !b.isArray && !c.isArray
    requires a.repr !! b.repr !! c.repr
    modifies a, b
    ensures Share(a, b, key, c) && a.repr == old(a.repr) + old(c.repr) && b.repr == old(b.repr) + old(c.repr)
    ensures c.repr == old(c.repr) && c.Contents() == old(c.Contents())
    ensures a.Contents() == old(a.Contents())[key := Obj(c.Contents())]
    ensures b.Contents() == old(b.Contents())[key := Obj(c.Contents())]
  {
    a.Put(key, Ref(c));
    label attached:
    b.Put(key, Ref(c));
    a.Kept@attached();
    c.Kept();
  }

  lemma PutTwice(o: Object, key: string, v: Value, u: Value)
    ensures o[key := v][key := u] == o[key := u]
  {}

  /** An object literal of a "set" is written by reference: two items that it is written to share it, with
      the configuration that it comes from. A later write below it in one item changes all three. */
  method LiteralIsShared(a: Node, b: Node, literal: Node, key: string, parts: Paths.Parts, x: Item)
    returns (err: Option<Paths.PathError>)
    requires a.Valid() && b.Valid() && literal.Valid() && !a.isArray && !b.isArray && !literal.isArray && Whole(x)
    requires a.repr !! b.repr !! literal.repr
    requires Foot(x) !! a.repr && Foot(x) !! b.repr && Foot(x) !! literal.repr
    modifies a.repr, b, literal.repr
    ensures a.Valid() && b.Valid() && literal.Valid()
    ensures literal.Contents() == Paths.SetBelow(old(literal.Contents()), parts, old(ValueOf(x))).0
    ensures a.Contents() == old(a.Contents())[key := Obj(literal.Contents())]
    ensures b.Contents() == old(b.Contents())[key := Obj(literal.Contents())]
  {
    ghost var first, second := a.Contents(), b.Contents();
    PutBoth(a, b, literal, key);
    ItemKept(x);
    err := WriteShared(a, b, key, literal, parts, x);
    PutTwice(first, key, Obj(old(literal.Contents())), Obj(literal.Contents()));
    PutTwice(second, key, Obj(old(literal.Contents())), Obj(literal.Contents()));
  }
}
