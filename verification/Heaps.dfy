/** The store that the array handlers work on: reads, writes in place and deep copies, proved against what
    references stand for. */
module Heaps {
  import opened Prelude
  import opened Json
  import opened References
  import Paths
  import Text

  /** New cells only. */
  predicate Above(n: nat, cool: set<nat>, places: map<Path, nat>) {
    (forall a | a in cool :: n <= a) && forall p | p in places :: n <= places[p]
  }

  /** What a copy leaves: a skeleton of the value in new cells only, with a place at each hot path. */
  predicate Copied(s: Store, s': Store, cool: set<nat>, places: map<Path, nat>, q: Path, y: Ref, v: Value,
                   written: set<Path>)
  {
    && s <= s' && Placed(s', cool, places) && Above(|s|, cool, places)
    && (forall p | p in places :: q <= p && Hot(written, p))
    && Skel(s', cool, places, q, y, v, written)
  }

  /** Some fields of a map have been copied. */
  predicate FieldsCopied(s: Store, s': Store, cool: set<nat>, places: map<Path, nat>, q: Path,
                         copied: map<string, Ref>, o: Object, written: set<Path>)
  {
    && s <= s' && Placed(s', cool, places) && Above(|s|, cool, places)
    && (forall p | p in places :: |p| > |q| && q <= p && p[|q|] in copied && Hot(written, p))
    && FieldSkels(s', cool, places, q, copied, o, written)
  }

  lemma NothingCopied(s: Store, q: Path, o: Object, written: set<Path>)
    ensures FieldsCopied(s, s, {}, map[], q, map[], o, written)
  {}

  predicate FieldSkels(s: Store, cool: set<nat>, places: map<Path, nat>, q: Path, copied: map<string, Ref>, o: Object,
                       written: set<Path>)
  {
    copied.Keys <= o.Keys && forall k | k in copied :: Skel(s, cool, places, q + [k], copied[k], o[k], written)
  }

  lemma MergePlaced(s1: Store, s2: Store, cool: set<nat>, places: map<Path, nat>, cool1: set<nat>,
                    places1: map<Path, nat>)
    requires Placed(s1, cool, places) && |s1| <= |s2| && Placed(s2, cool1, places1) && Above(|s1|, cool1, places1)
    ensures Placed(s2, cool + cool1, places + places1)
  {}

  /** What was copied stays, the places of another field aside. */
  lemma FieldsStay(s1: Store, s2: Store, cool: set<nat>, places: map<Path, nat>, cool1: set<nat>,
                   places1: map<Path, nat>, q: Path, copied: map<string, Ref>, o: Object, written: set<Path>, k: string)
    requires FieldSkels(s1, cool, places, q, copied, o, written) && s1 <= s2 && Placed(s1, cool, places)
    requires k !in copied && forall p | p in places1 :: q + [k] <= p
    ensures FieldSkels(s2, cool + cool1, places + places1, q, copied, o, written)
  {
    forall j | j in copied ensures Skel(s2, cool + cool1, places + places1, q + [j], copied[j], o[j], written) {
      forall p | q + [j] <= p ensures p !in places1 {
        assert p[|q|] == (q + [j])[|q|] == j;
        assert !(q + [k] <= p) by { assert (q + [k])[|q|] == k; }
      }
      SkelApart(s1, s2, cool, cool + cool1, places, places + places1, q + [j], copied[j], o[j], written);
    }
  }

  lemma OneMoreField(s: Store, s1: Store, s2: Store, cool: set<nat>, places: map<Path, nat>, cool1: set<nat>,
                     places1: map<Path, nat>, q: Path, copied: map<string, Ref>, o: Object, written: set<Path>,
                     k: string, y: Ref)
    requires FieldsCopied(s, s1, cool, places, q, copied, o, written) && k in o && k !in copied
    requires Copied(s1, s2, cool1, places1, q + [k], y, o[k], written)
    ensures FieldsCopied(s, s2, cool + cool1, places + places1, q, copied[k := y], o, written)
  {
    MergePlaced(s1, s2, cool, places, cool1, places1);
    FieldsStay(s1, s2, cool, places, cool1, places1, q, copied, o, written, k);
    forall p | p in places1 ensures |p| > |q| && q <= p && p[|q|] == k {
      assert p[|q|] == (q + [k])[|q|] && q == (q + [k])[..|q|] == p[..|q|];
    }
    SkelApart(s2, s2, cool1, cool + cool1, places1, places + places1, q + [k], y, o[k], written);
  }

  /** The map of the copied fields comes last: a place if the path is hot, else one more cool cell. */
  lemma HotMapCopied(s: Store, s1: Store, cool: set<nat>, places: map<Path, nat>, q: Path, copied: map<string, Ref>,
                     o: Object, written: set<Path>)
    requires FieldsCopied(s, s1, cool, places, q, copied, o, written) && copied.Keys == o.Keys && Hot(written, q)
    ensures Copied(s, s1 + [MapCell(copied)], cool, places[q := |s1|], q, At(|s1|), Obj(o), written)
  {
    var s2, places' := s1 + [MapCell(copied)], places[q := |s1|];
    OneMorePlace(s, s1, cool, places, q, copied, o, written);
    forall k | k in o ensures Skel(s2, cool, places', q + [k], copied[k], o[k], written) {
      FieldBelow(s1, s2, cool, places, places', q, copied, o, written, k);
    }
  }

  lemma OneMorePlace(s: Store, s1: Store, cool: set<nat>, places: map<Path, nat>, q: Path, copied: map<string, Ref>,
                     o: Object, written: set<Path>)
    requires FieldsCopied(s, s1, cool, places, q, copied, o, written) && Hot(written, q)
    ensures Placed(s1 + [MapCell(copied)], cool, places[q := |s1|]) && Above(|s|, cool, places[q := |s1|])
    ensures forall p | p in places[q := |s1|] :: q <= p && Hot(written, p)
    ensures q !in places
  {}

  lemma FieldBelow(s1: Store, s2: Store, cool: set<nat>, places: map<Path, nat>, places': map<Path, nat>, q: Path,
                   copied: map<string, Ref>, o: Object, written: set<Path>, k: string)
    requires FieldSkels(s1, cool, places, q, copied, o, written) && s1 <= s2 && Placed(s1, cool, places)
    requires (forall p | p in places :: p in places' && places'[p] == places[p]) && k in copied
    ensures Skel(s2, cool, places', q + [k], copied[k], o[k], written)
  {
    SkelApart(s1, s2, cool, cool, places, places', q + [k], copied[k], o[k], written);
  }

  lemma CoolMapCopied(s: Store, s1: Store, cool: set<nat>, places: map<Path, nat>, q: Path, copied: map<string, Ref>,
                      o: Object, written: set<Path>)
    requires FieldsCopied(s, s1, cool, places, q, copied, o, written) && copied.Keys == o.Keys && !Hot(written, q)
    ensures Copied(s, s1 + [MapCell(copied)], cool + {|s1|}, places, q, At(|s1|), Obj(o), written)
  {
    var s2, a := s1 + [MapCell(copied)], |s1|;
    forall k | k in o ensures Stands(s2, cool + {a}, copied[k], o[k]) {
      HotAbove(written, q, [k]);
      StandsStays(s1, s2, cool, cool + {a}, copied[k], o[k]);
    }
  }

  /** Some places of an array have been copied. */
  predicate ItemsCopied(s: Store, s': Store, cool: set<nat>, copied: seq<Ref>, items: seq<Value>) {
    && s <= s' && |copied| <= |items| && (forall a | a in cool :: |s| <= a < |s'|)
    && forall i | 0 <= i < |copied| :: Stands(s', cool, copied[i], items[i])
  }

  lemma OneMoreItem(s: Store, s1: Store, s2: Store, cool: set<nat>, cool1: set<nat>, places1: map<Path, nat>,
                    copied: seq<Ref>, items: seq<Value>, y: Ref)
    requires ItemsCopied(s, s1, cool, copied, items) && |copied| < |items|
    requires Copied(s1, s2, cool1, places1, [], y, items[|copied|], {})
    ensures ItemsCopied(s, s2, cool + cool1, copied + [y], items)
  {
    forall i | 0 <= i < |copied| ensures Stands(s2, cool + cool1, copied[i], items[i]) {
      StandsStays(s1, s2, cool, cool + cool1, copied[i], items[i]);
    }
    StandsStays(s2, s2, cool1, cool + cool1, y, items[|copied|]);
  }

  lemma ArrayCopied(s: Store, s1: Store, cool: set<nat>, q: Path, copied: seq<Ref>, items: seq<Value>,
                    written: set<Path>)
    requires ItemsCopied(s, s1, cool, copied, items) && |copied| == |items|
    ensures Copied(s, s1 + [ArrCell(copied)], cool + {|s1|}, map[], q, At(|s1|), Arr(items), written)
  {
    var s2 := s1 + [ArrCell(copied)];
    forall i | 0 <= i < |items| ensures Stands(s2, cool + {|s1|}, copied[i], items[i]) {
      StandsStays(s1, s2, cool, cool + {|s1|}, copied[i], items[i]);
    }
  }

  class Heap {
    var store: Store

    constructor ()
      ensures store == []
    {
      store := [];
    }

    method New(cell: Cell) returns (a: nat)
      modifies this
      ensures a == |old(store)| && store == old(store) + [cell]
    {
      a := |store|;
      store := store + [cell];
    }

    /** The loop of getMapPath. */
    method GetPath(x: Ref, parts: Path) returns (found: Option<Ref>)
      ensures found == GetRef(store, x, parts)
    {
      var current := x;
      for i := 0 to |parts|
        invariant GetRef(store, x, parts) == GetRef(store, current, parts[i..])
      {
        if !IsMap(store, current) || parts[i] !in store[current.addr].fields {
          return None;
        }
        current := store[current.addr].fields[parts[i]];
        assert parts[i..][1..] == parts[i + 1..];
      }
      found := Some(current);
    }

    /** The loop of Message.GetPath. */
    method Follow(x: Ref, parts: Path) returns (found: Option<Ref>)
      ensures found == FollowRef(store, x, parts)
    {
      var current := x;
      for i := 0 to |parts|
        invariant FollowRef(store, x, parts) == FollowRef(store, current, parts[i..])
      {
        assert parts[i..][1..] == parts[i + 1..];
        if IsMap(store, current) {
          if parts[i] !in store[current.addr].fields {
            return None;
          }
          current := store[current.addr].fields[parts[i]];
        } else if IsArr(store, current) {
          var index := Paths.ParseIndex(parts[i]);
          if index.None? || index.value < 0 || index.value >= |store[current.addr].items| {
            return None;
          }
          current := store[current.addr].items[index.value];
        } else {
          return None;
        }
      }
      found := Some(current);
    }

    /** The loop of setPayloadPath. */
    method SetPath(a: nat, path: string, x: Ref) returns (err: Option<Paths.PathError>)
      requires IsMap(store, At(a))
      modifies this
      ensures (store, err) == SetPathRef(old(store), a, path, x)
    {
      var parts := Paths.Segments(path);
      if Text.Blank(parts[0]) {
        return Some(Paths.TargetRequired);
      }
      var current: nat := a;
      for i := 0 to |parts| - 1
        invariant IsMap(store, At(current))
        invariant SetRef(old(store), a, parts, x) == SetRef(store, current, parts[i..], x)
      {
        var part := parts[i];
        assert parts[i..][1..] == parts[i + 1..];
        if Text.Blank(part) {
          return Some(Paths.InvalidSegment);
        }
        if part !in store[current].fields {
          var child := |store|;
          store := store[current := MapCell(store[current].fields[part := At(child)])] + [MapCell(map[])];
          current := child;
        } else {
          var next := store[current].fields[part];
          if !IsMap(store, next) {
            return Some(Paths.CrossesNonObject(part));
          }
          current := next.addr;
        }
      }
      store := store[current := MapCell(store[current].fields[parts[|parts| - 1] := x])];
      err := None;
    }

    /** copyTransformValue: new maps and arrays all the way down. */
    method Copy(x: Ref, ghost from: set<nat>, ghost v: Value, ghost q: Path, ghost written: set<Path>)
      returns (y: Ref, ghost cool: set<nat>, ghost places: map<Path, nat>)
      requires Stands(store, from, x, v)
      modifies this
      ensures Copied(old(store), store, cool, places, q, y, v, written)
      decreases v, 1
    {
      cool, places := {}, map[];
      if IsMap(store, x) {
        y, cool, places := CopyMap(x, from, v, q, written);
      } else if IsArr(store, x) {
        y, cool := CopyArray(x, from, v, q, written);
      } else {
        y := x;
      }
    }

    method CopyMap(x: Ref, ghost from: set<nat>, ghost v: Value, ghost q: Path, ghost written: set<Path>)
      returns (y: Ref, ghost cool: set<nat>, ghost places: map<Path, nat>)
      requires Stands(store, from, x, v) && IsMap(store, x)
      modifies this
      ensures Copied(old(store), store, cool, places, q, y, v, written)
      decreases v, 0, 1
    {
      var copied;
      copied, cool, places := CopyFields(x, from, v, q, written);
      ghost var s1 := store;
      var a := New(MapCell(copied));
      y := At(a);
      if Hot(written, q) {
        HotMapCopied(old(store), s1, cool, places, q, copied, v.fields, written);
        places := places[q := a];
      } else {
        CoolMapCopied(old(store), s1, cool, places, q, copied, v.fields, written);
        cool := cool + {a};
      }
    }

    method CopyFields(x: Ref, ghost from: set<nat>, ghost v: Value, ghost q: Path, ghost written: set<Path>)
      returns (copied: map<string, Ref>, ghost cool: set<nat>, ghost places: map<Path, nat>)
      requires Stands(store, from, x, v) && IsMap(store, x)
      modifies this
      ensures FieldsCopied(old(store), store, cool, places, q, copied, v.fields, written)
      ensures copied.Keys == v.fields.Keys
      decreases v, 0, 0
    {
      cool, places, copied := {}, map[], map[];
      var fields := store[x.addr].fields;
      NothingCopied(store, q, v.fields, written);
      while fields.Keys - copied.Keys != {}
        invariant FieldsCopied(old(store), store, cool, places, q, copied, v.fields, written)
        decreases fields.Keys - copied.Keys
      {
        var key :| key in fields.Keys - copied.Keys;
        var item;
        item, cool, places := CopyField(fields[key], old(store), from, v.fields, q, written, cool, places, copied, key);
        copied := copied[key := item];
      }
      assert forall k | k in fields && k !in copied :: k in fields.Keys - copied.Keys;
    }

    method CopyField(x: Ref, ghost s: Store, ghost from: set<nat>, ghost o: Object, ghost q: Path,
                     ghost written: set<Path>, ghost before: set<nat>, ghost placesBefore: map<Path, nat>,
                     ghost copied: map<string, Ref>, ghost key: string)
      returns (item: Ref, ghost cool: set<nat>, ghost places: map<Path, nat>)
      requires key in o && key !in copied && Stands(s, from, x, o[key])
      requires FieldsCopied(s, store, before, placesBefore, q, copied, o, written)
      modifies this
      ensures FieldsCopied(s, store, cool, places, q, copied[key := item], o, written)
      decreases o[key], 2
    {
      StandsStays(s, store, from, from, x, o[key]);
      item, cool, places := Copy(x, from, o[key], q + [key], written);
      OneMoreField(s, old(store), store, before, placesBefore, cool, places, q, copied, o, written, key, item);
      cool, places := before + cool, placesBefore + places;
    }

    method CopyArray(x: Ref, ghost from: set<nat>, ghost v: Value, ghost q: Path, ghost written: set<Path>)
      returns (y: Ref, ghost cool: set<nat>)
      requires Stands(store, from, x, v) && IsArr(store, x)
      modifies this
      ensures Copied(old(store), store, cool, map[], q, y, v, written)
      decreases v, 0
    {
      cool := {};
      var items := store[x.addr].items;
      var copied := [];
      for index := 0 to |items|
        invariant |copied| == index && ItemsCopied(old(store), store, cool, copied, v.items)
      {
        StandsStays(old(store), store, from, from, items[index], v.items[index]);
        ghost var s1 := store;
        ghost var cool1, places1;
        var item;
        item, cool1, places1 := Copy(items[index], from, v.items[index], [], {});
        OneMoreItem(old(store), s1, store, cool, cool1, places1, copied, v.items, item);
        cool, copied := cool + cool1, copied + [item];
      }
      ArrayCopied(old(store), store, cool, q, copied, v.items, written);
      var a := New(ArrCell(copied));
      y, cool := At(a), cool + {a};
    }
  }
}
