/** What array_transform guarantees although it writes by reference, when its configuration is calm, and exactly
    when a write through a shared map is seen elsewhere or makes a cycle. */
module ReferenceLaws {
  import opened Prelude
  import opened Json
  import opened References
  import opened Aliasing
  import opened Transforms
  import opened ArrayTransform
  import opened Conditions
  import L = TransformLaws
  import Paths
  import Text

  // ----- Configurations that are calm on every payload -----

  /** An object literal or a `from` is written only where no write passes below, and `from` reads only where no
      write passes. */
  predicate PlainWrite(w: Reach, value: Value, k: string) {
    value.Obj? ==>
      && !Hot(w.own, SegmentsOf(k))
      && (From(value).Some? ==> ReadsCool(w, SegmentsOf(From(value).value)))
  }

  predicate PlainUpdate(w: Reach, update: Value) {
    HasSet(update) ==> forall k | k in update.fields["set"].fields :: PlainWrite(w, update.fields["set"].fields[k], k)
  }

  /** Every "set" object of the configuration, nested ones included. */
  predicate Plain(root: set<Path>, outer: set<Path>, params: Value)
    requires params.Obj?
    decreases params, 1
  {
    var w, updates := Reach(root, outer, Written(params.fields)), Entries(params.fields, "updates");
    && (forall i | 0 <= i < |updates| :: PlainUpdate(w, updates[i]))
    && ("nested" in params.fields ==> PlainNested(root, w.own, params.fields["nested"]))
  }

  predicate PlainNested(root: set<Path>, outer: set<Path>, list: Value)
    decreases list, 0
  {
    list.Arr? ==> forall j | 0 <= j < |list.items| && HasSource(list.items[j]) :: Plain(root, outer, list.items[j])
  }

  lemma {:induction false} PlainSetIsCalm(w: Reach, payload: Object, item: Object, set_: Object, order: seq<string>)
    requires forall k | k in set_ :: PlainWrite(w, set_[k], k)
    ensures CalmSet(w, payload, item, set_, order)
    decreases |order|
  {
    if order != [] {
      if order[0] !in set_ {
        PlainSetIsCalm(w, payload, item, set_, order[1..]);
      } else {
        assert PlainWrite(w, set_[order[0]], order[0]);
        var written := Write(item, order[0], Resolve(Seen(payload, item), set_[order[0]]));
        if written.Ok? {
          PlainSetIsCalm(w, payload, written.value, set_, order[1..]);
        }
      }
    }
  }

  lemma {:induction false} PlainUpdatesAreCalm(c: Context, ord: Orders, site: seq<nat>, w: Reach, payload: Object,
                                               item: Object, updates: seq<Value>, n: nat)
    requires n <= |updates| && forall i | 0 <= i < |updates| :: PlainUpdate(w, updates[i])
    ensures CalmUpdates(c, ord, site, w, payload, item, updates, n)
    decreases |updates| - n
  {
    if n < |updates| {
      if HasSet(updates[n]) {
        var set_ := updates[n].fields["set"].fields;
        PlainSetIsCalm(w, payload, item, set_, ord(site + [0, n], set_));
      }
      var first := Update(c, ord, site, payload, item, updates[n], n);
      if first.Ok? {
        PlainUpdatesAreCalm(c, ord, site, w, payload, first.value, updates, n + 1);
      }
    }
  }

  /** A plain configuration is calm on every payload, for all items and iteration orders. */
  lemma {:induction false} PlainIsCalm(c: Context, ord: Orders, site: seq<nat>, root: set<Path>, outer: set<Path>,
                                       items: seq<Value>, params: Value, parent: Value)
    requires params.Obj? && Plain(root, outer, params)
    ensures CalmItems(c, ord, site, root, outer, items, params, parent)
    decreases params, 3
  {
    forall k: nat | k < |items| ensures CalmItem(c, ord, site + [k], root, outer, items[k], k, params, parent) {
      if items[k].Obj? {
        PlainItemIsCalm(c, ord, site + [k], Reach(root, outer, Written(params.fields)),
                        ItemPayload(c, items[k], k, parent), items[k].fields, params);
      }
    }
  }

  lemma {:induction false} PlainItemIsCalm(c: Context, ord: Orders, site: seq<nat>, w: Reach, payload: Object,
                                           item: Object, params: Value)
    requires params.Obj? && Plain(w.root, w.parent, params) && w.own == Written(params.fields)
    ensures CalmUpdated(c, ord, site, w, payload, item, params)
    decreases params, 2
  {
    PlainUpdatesAreCalm(c, ord, site, w, payload, item, Entries(params.fields, "updates"), 0);
    var updated := ApplyUpdates(c, ord, site, payload, item, params.fields);
    if updated.Ok? && "nested" in params.fields && params.fields["nested"].Arr? {
      PlainNestedIsCalm(c, ord, site, w, updated.value, params.fields["nested"], 0);
    }
  }

  lemma {:induction false} PlainNestedIsCalm(c: Context, ord: Orders, site: seq<nat>, w: Reach, item: Object,
                                             list: Value, n: nat)
    requires list.Arr? && n <= |list.items| && PlainNested(w.root, w.own, list)
    ensures CalmNested(c, ord, site, w, item, list, n)
    decreases list, |list.items| - n
  {
    if n < |list.items| {
      var cfg := list.items[n];
      if HasSource(cfg) {
        var raw := Paths.GetPath(item, Source(cfg.fields));
        if raw.Some? && raw.value.Arr? {
          PlainIsCalm(c, ord, site + [1, n], w.root, w.own, raw.value.items, cfg, Obj(item));
        }
      }
      var first := NestedOne(c, ord, site + [1, n], item, cfg, n);
      if first.Ok? {
        PlainNestedIsCalm(c, ord, site, w, first.value, list, n + 1);
      }
    }
  }

  // ----- What calm runs keep -----

  /** After a calm call the source reads as before, if it is disjoint from the target and is not hidden by the
      counter: what is found there stands for the value that was there, whatever the outcome. */
  lemma SourceReadsAsBefore(s: Store, cool: set<nat>, places: map<Path, nat>, root: nat, c: Context, ord: Orders,
                            params: Object)
    requires var source := Param(params, "source");
             var target := TargetOf(params, source);
             && !Text.Blank(source) && Paths.Disjoint(SegmentsOf(target), SegmentsOf(source))
             && SegmentsOf(source)[0] != target + "_transformed_count"
             && Payload(s, cool, places, root, HandleTransform(c, ord, params).payload, target)
    ensures var source := Param(params, "source");
            var found := FollowRef(s, At(root), SegmentsOf(source));
            match Paths.MessagePath(c.payload, source)
            case None => found == None
            case Some(v) => found.Some? && Stands(s, cool + Cells(places), found.value, v)
  {
    var source := Param(params, "source");
    var payload' := HandleTransform(c, ord, params).payload;
    L.SourceSurvives(c, ord, params);
    SkelStands(s, cool, places, [], At(root), Obj(payload'), {SegmentsOf(TargetOf(params, source))});
    FollowStands(s, cool + Cells(places), At(root), Obj(payload'), SegmentsOf(source));
  }

  /** Two calm runs over the same values, in any two iteration orders: both fail, or the items of both stand for
      the same values. */
  lemma ResultsIgnoreOrder(
    s1: Store, cool1: set<nat>, res1: Result<seq<Ref>, Problem>, s2: Store, cool2: set<nat>,
    res2: Result<seq<Ref>, Problem>, c: Context, a: Orders, b: Orders, site: seq<nat>, values: seq<Value>,
    params: Value, parent: Value)
    requires L.Fair(a) && L.Fair(b) && params.Obj? && L.AllIndependent(params)
    requires Delivers(s1, cool1, res1, Transform(c, a, site, values, params, parent))
    requires Delivers(s2, cool2, res2, Transform(c, b, site, values, params, parent))
    ensures res1.Ok? <==> res2.Ok?
    ensures res1.Ok? ==> exists vs :: AllStand(s1, cool1, res1.value, vs) && AllStand(s2, cool2, res2.value, vs)
  {
    L.TransformIgnoresOrder(c, a, b, site, values, params, parent);
    if res1.Ok? {
      assert AllStand(s1, cool1, res1.value, Transform(c, a, site, values, params, parent).value);
    }
  }

  // ----- Exactly when a write into a shared map is seen -----

  /** The cells of a store. */
  function All(s: Store): (cells: set<nat>)
    ensures forall a: nat :: a in cells <==> a < |s|
  {
    if s == [] then {} else All(s[..|s| - 1]) + {|s| - 1}
  }

  /** Of the old cells only one map has changed, in one field. */
  predicate FieldPut(s: Store, s': Store, b: nat, k: string, x: Ref) {
    && |s| <= |s'| && IsMap(s, At(b)) && s'[b] == MapCell(s[b].fields[k := x])
    && forall a: nat | a < |s| && a != b :: s'[a] == s[a]
  }

  /** A write into an empty map leaves the other cells alone. */
  lemma {:induction false} KeepsOthers(s: Store, a: nat, parts: Paths.Parts, x: Ref)
    requires a < |s| && s[a] == MapCell(map[])
    ensures var s' := SetRef(s, a, parts, x).0; |s| <= |s'| && forall c: nat | c < |s| && c != a :: s'[c] == s[c]
    decreases |parts|
  {
    if |parts| > 1 && !Text.Blank(parts[0]) {
      KeepsOthers(s[a := MapCell(s[a].fields[parts[0] := At(|s|)])] + [MapCell(map[])], |s|, parts[1..], x);
    }
  }

  /** The strict write does this, whatever its path: it puts the value, or the first of the maps that it makes. */
  lemma {:induction false} WritePutsOneField(s: Store, a: nat, parts: Paths.Parts, x: Ref)
    returns (b: nat, k: string, y: Ref)
    requires IsMap(s, At(a)) && SetRef(s, a, parts, x).1.None?
    ensures FieldPut(s, SetRef(s, a, parts, x).0, b, k, y) && (y == x || y == At(|s|))
    decreases |parts|
  {
    b, k := a, parts[0];
    var fields := s[a].fields;
    if |parts| == 1 {
      y := x;
    } else if parts[0] !in fields {
      y := At(|s|);
      KeepsOthers(s[a := MapCell(fields[parts[0] := y])] + [MapCell(map[])], |s|, parts[1..], x);
    } else {
      b, k, y := WritePutsOneField(s, fields[parts[0]].addr, parts[1..], x);
    }
  }

  /** The reference stands for this value, and does not lead to the cell. */
  predicate Avoids(s: Store, y: Ref, v: Value, b: nat) { Stands(s, All(s) - {b}, y, v) }

  lemma Unaffected(s: Store, s': Store, b: nat, k: string, x: Ref, y: Ref, v: Value)
    requires FieldPut(s, s', b, k, x) && Avoids(s, y, v, b)
    ensures Stands(s', All(s'), y, v)
  {
    StandsStays(s, s', All(s) - {b}, All(s'), y, v);
  }

  /** Writing what is there already changes no value. */
  lemma {:induction false} SameWritten(s: Store, s': Store, b: nat, k: string, x: Ref, u: Value, y: Ref, v: Value)
    requires FieldPut(s, s', b, k, x) && Stands(s, All(s), y, v) && Stands(s', All(s'), x, u)
    requires k in s[b].fields && Stands(s, All(s), s[b].fields[k], u)
    ensures Stands(s', All(s'), y, v)
    decreases v
  {
    match v
    case Obj(o) =>
      forall j | j in o ensures Stands(s', All(s'), s'[y.addr].fields[j], o[j]) {
        if y.addr == b && j == k {
          StandsForOne(s, All(s), All(s), s[b].fields[k], u, o[k]);
        } else {
          SameWritten(s, s', b, k, x, u, s[y.addr].fields[j], o[j]);
        }
      }
    case Arr(items) =>
      forall i | 0 <= i < |items| ensures Stands(s', All(s'), s'[y.addr].items[i], items[i]) {
        SameWritten(s, s', b, k, x, u, s[y.addr].items[i], items[i]);
      }
    case _ =>
  }

  /** A reference that leads to a map finds its value there, in both stores. */
  lemma {:induction false} LeadsTo(s: Store, s': Store, b: nat, k: string, x: Ref, y: Ref, v: Value, v': Value)
    returns (w: Value, w': Value)
    requires FieldPut(s, s', b, k, x)
    requires Stands(s, All(s), y, v) && Stands(s', All(s'), y, v') && !Avoids(s, y, v, b)
    ensures Stands(s, All(s), At(b), w) && Stands(s', All(s'), At(b), w') && (v == v' ==> w == w')
    ensures if y == At(b) then v' == w' else v' decreases to w'
    decreases v
  {
    if y == At(b) {
      w, w' := v, v';
    } else {
      match v
      case Obj(o) =>
        var j :| j in o && !Avoids(s, s[y.addr].fields[j], o[j], b);
        assert Stands(s', All(s'), s[y.addr].fields[j], v'.fields[j]);
        w, w' := LeadsTo(s, s', b, k, x, s[y.addr].fields[j], o[j], v'.fields[j]);
      case Arr(items) =>
        var i :| 0 <= i < |items| && !Avoids(s, s[y.addr].items[i], items[i], b);
        assert Stands(s', All(s'), s[y.addr].items[i], v'.items[i]);
        w, w' := LeadsTo(s, s', b, k, x, s[y.addr].items[i], items[i], v'.items[i]);
      case _ =>
        assert false;
    }
  }

  /** A write into a map changes what a reference stands for exactly when the reference leads to that map and the
      value is a new one. */
  lemma WriteIsSeen(s: Store, s': Store, b: nat, k: string, x: Ref, u: Value, y: Ref, v: Value)
    requires FieldPut(s, s', b, k, x) && Stands(s, All(s), y, v) && Stands(s', All(s'), x, u)
    ensures Stands(s', All(s'), y, v)
            <==> Avoids(s, y, v, b) || (k in s[b].fields && Stands(s, All(s), s[b].fields[k], u))
  {
    if Avoids(s, y, v, b) {
      Unaffected(s, s', b, k, x, y, v);
    } else if k in s[b].fields && Stands(s, All(s), s[b].fields[k], u) {
      SameWritten(s, s', b, k, x, u, y, v);
    } else if Stands(s', All(s'), y, v) {
      var w, w' := LeadsTo(s, s', b, k, x, y, v, v);
      StandsForOne(s', All(s'), All(s'), x, u, w'.fields[k]);
      assert Stands(s, All(s), s[b].fields[k], w.fields[k]);
    }
  }

  // ----- Exactly when a write makes a cycle -----

  /** copyTransformValue returns on the reference. */
  least predicate CopyReturns(s: Store, x: Ref) {
    match x
    case Scalar(v) => true
    case At(a) =>
      && a < |s|
      && match s[a]
         case MapCell(fields) => forall k | k in fields :: CopyReturns(s, fields[k])
         case ArrCell(items) => forall i | 0 <= i < |items| :: CopyReturns(s, items[i])
  }

  /** The scalars of a store hold no objects or arrays. */
  predicate Scalars(s: Store) { forall a: nat | a < |s| :: CellScalars(s[a]) }

  predicate CellScalars(c: Cell) {
    match c
    case MapCell(fields) => forall k | k in fields :: ScalarRef(fields[k])
    case ArrCell(items) => forall i | 0 <= i < |items| :: ScalarRef(items[i])
  }

  predicate ScalarRef(x: Ref) { x.Scalar? ==> !x.value.Obj? && !x.value.Arr? }

  lemma {:induction false} StandsIsCopied(s: Store, cool: set<nat>, x: Ref, v: Value)
    requires Stands(s, cool, x, v)
    ensures CopyReturns(s, x)
    decreases v
  {
    match v
    case Obj(o) =>
      forall k | k in o ensures CopyReturns(s, s[x.addr].fields[k]) {
        StandsIsCopied(s, cool, s[x.addr].fields[k], o[k]);
      }
    case Arr(items) =>
      forall i | 0 <= i < |items| ensures CopyReturns(s, s[x.addr].items[i]) {
        StandsIsCopied(s, cool, s[x.addr].items[i], items[i]);
      }
    case _ =>
  }

  ghost predicate HasValue(s: Store, x: Ref) { exists v :: Stands(s, All(s), x, v) }

  least lemma CopiedHasValue(s: Store, x: Ref)
    requires CopyReturns(s, x) && Scalars(s) && ScalarRef(x)
    ensures HasValue(s, x)
  {
    match x
    case Scalar(v) =>
      assert Stands(s, All(s), x, v);
    case At(a) =>
      assert CellScalars(s[a]);
      match s[a]
      case MapCell(fields) =>
        forall k | k in fields ensures HasValue(s, fields[k]) {
          CopiedHasValue(s, fields[k]);
        }
        var o := FieldValues(s, fields);
        assert Stands(s, All(s), x, Obj(o));
      case ArrCell(items) =>
        forall i | 0 <= i < |items| ensures HasValue(s, items[i]) {
          CopiedHasValue(s, items[i]);
        }
        var values := ItemValues(s, items);
        assert Stands(s, All(s), x, Arr(values));
  }

  ghost function ValueAt(s: Store, x: Ref): (v: Value)
    requires HasValue(s, x)
    ensures Stands(s, All(s), x, v)
  {
    var v :| Stands(s, All(s), x, v);
    v
  }

  lemma FieldValues(s: Store, fields: map<string, Ref>) returns (o: Object)
    requires forall k | k in fields :: HasValue(s, fields[k])
    ensures o.Keys == fields.Keys && forall k | k in o :: Stands(s, All(s), fields[k], o[k])
  {
    o := map k | k in fields :: ValueAt(s, fields[k]);
  }

  lemma ItemValues(s: Store, items: seq<Ref>) returns (values: seq<Value>)
    requires forall i | 0 <= i < |items| :: HasValue(s, items[i])
    ensures |values| == |items| && forall i | 0 <= i < |items| :: Stands(s, All(s), items[i], values[i])
  {
    values := seq(|items|, i requires 0 <= i < |items| => ValueAt(s, items[i]));
  }

  /** What is inside the value of a map does not lead back to the map. */
  lemma {:induction false} InsideAvoids(s: Store, b: nat, w: Value, y: Ref, v: Value)
    requires Stands(s, All(s), At(b), w) && Stands(s, All(s), y, v) && (w decreases to v)
    ensures Avoids(s, y, v, b)
    decreases v
  {
    if y == At(b) {
      StandsForOne(s, All(s), All(s), y, v, w);
    }
    match v
    case Obj(o) =>
      forall k | k in o ensures Avoids(s, s[y.addr].fields[k], o[k], b) {
        InsideAvoids(s, b, w, s[y.addr].fields[k], o[k]);
      }
    case Arr(items) =>
      forall i | 0 <= i < |items| ensures Avoids(s, s[y.addr].items[i], items[i], b) {
        InsideAvoids(s, b, w, s[y.addr].items[i], items[i]);
      }
    case _ =>
  }

  /** When a map that could be copied is written to, it can be copied again exactly when the written value does not
      lead back to it; otherwise copyTransformValue never returns. */
  lemma CopyReturnsExactly(s: Store, s': Store, b: nat, k: string, x: Ref, o: Object, u: Value)
    requires Scalars(s') && Stands(s, All(s), At(b), Obj(o)) && Stands(s, All(s), x, u) && FieldPut(s, s', b, k, x)
    ensures CopyReturns(s', At(b)) <==> Avoids(s, x, u, b)
  {
    if Avoids(s, x, u, b) {
      Unaffected(s, s', b, k, x, x, u);
      forall j | j in o[k := u] ensures Stands(s', All(s'), s'[b].fields[j], o[k := u][j]) {
        if j != k {
          InsideAvoids(s, b, Obj(o), s[b].fields[j], o[j]);
          Unaffected(s, s', b, k, x, s[b].fields[j], o[j]);
        }
      }
      StandsIsCopied(s', All(s'), At(b), Obj(o[k := u]));
    } else if CopyReturns(s', At(b)) {
      CopiedHasValue(s', At(b));
      var v' :| Stands(s', All(s'), At(b), v');
      var w, w' := LeadsTo(s, s', b, k, x, x, u, v'.fields[k]);
      StandsForOne(s', All(s'), All(s'), At(b), v', w');
    }
  }

  // ----- Configurations that are not calm -----

  /** An item gets a map of the payload by `from`, and then a write below it. Whoever reads that field of the map
      through the payload, a source or a `from`, finds the written value: the read before the write and the read
      after it agree exactly when it was there already. */
  lemma SharedMapIsWritten(s: Store, root: nat, item: nat, b: nat, j: string, p: string, k: string, x: Ref)
    requires IsMap(s, At(root)) && IsMap(s, At(item)) && IsMap(s, At(b)) && !Text.Blank(p)
    requires root != item && root != b && item != b && j in s[root].fields && s[root].fields[j] == At(b)
    ensures IsMap(SetRef(s, item, [p], At(b)).0, At(item))
    ensures var s1 := SetRef(s, item, [p], At(b)).0;
            var s2 := SetRef(s1, item, [p, k], x).0;
            var before, after := GetRef(s1, At(root), [j, k]), GetRef(s2, At(root), [j, k]);
            && after == Some(x) && FollowRef(s2, At(root), [j, k]) == Some(x)
            && (before == after <==> k in s[b].fields && s[b].fields[k] == x)
  {
    var s1 := SetRef(s, item, [p], At(b)).0;
    assert [p, k][1..] == [k] && [j, k][1..] == [k] && [k][1..] == [];
    assert SetRef(s1, b, [k], x).0 == s1[b := MapCell(s1[b].fields[k := x])];
    var s2 := SetRef(s1, item, [p, k], x).0;
    assert s2 == SetRef(s1, b, [k], x).0;
    assert GetRef(s2, At(b), [k]) == FollowRef(s2, At(b), [k]) == Some(x);
    assert GetRef(s1, At(root), [j, k]) == GetRef(s1, At(b), [k]);
    assert GetRef(s1, At(b), [k]) == if k in s[b].fields then Some(s[b].fields[k]) else None;
  }

  /** An array with an item that holds a map is written into that map: the parent of a nested transform, or an object
      of the payload above the target. From then on no copy of the map or of the item returns. */
  lemma HolderIsWrittenInto(s: Store, s': Store, b: nat, k: string, r: nat, i: nat, item: nat, p: string, o: Object,
                            u: Value)
    requires Scalars(s') && FieldPut(s, s', b, k, At(r))
    requires Stands(s, All(s), At(b), Obj(o)) && Stands(s, All(s), At(r), u)
    requires IsArr(s, At(r)) && i < |s[r].items| && s[r].items[i] == At(item)
    requires IsMap(s, At(item)) && p in s[item].fields && s[item].fields[p] == At(b)
    ensures !CopyReturns(s', At(b)) && !CopyReturns(s', At(item))
  {
    var v := u.items[i];
    assert Avoids(s, At(r), u, b) ==> Avoids(s, At(item), v, b);
    assert Stands(s, All(s), At(item), v);
    assert Avoids(s, At(item), v, b) ==> Avoids(s, At(b), v.fields[p], b);
    CopyReturnsExactly(s, s', b, k, At(r), o, u);
    if item == b {
      InsideAvoids(s, b, Obj(o), At(b), o[p]);
    }
  }
}
