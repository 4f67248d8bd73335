/** The array_transform and filter_array handlers: loops over items, updates and nested arrays. The transform
    works on references: what a calm configuration leaves stands for what `Transforms` computes on values. */
module ArrayTransform {
  import opened Prelude
  import opened Json
  import opened Conditions
  import opened References
  import opened Aliasing
  import opened Heaps
  import opened Transforms
  import opened WorkingItems
  import Messages
  import Paths
  import Text

  // ----- Updates -----

  /** Cells that are older than the item stay. */
  lemma OlderStays(d: Desk, s: Store, s': Store, x: Ref, v: Value)
    requires BaseStays(d.base, s, s') && Fits(d.scene, s'[..d.base])
    requires Stands(s, d.scene.cool, x, v)
    ensures Stands(s', d.scene.cool, x, v)
  {
    forall a | a in d.scene.cool && a < |s| ensures s'[a] == s[a] {
      assert a in Near(d.scene) && s'[a] == s'[..d.base][a] && s[a] == s[..d.base][a];
    }
    StandsStays(s, s', d.scene.cool, d.scene.cool, x, v);
  }

  lemma Skips(payload: Object, item: Object, set_: Object, order: seq<string>)
    requires order != []
    ensures WriteAll(payload, item, set_, order)
            == if order[0] !in set_ then WriteAll(payload, item, set_, order[1..])
               else var r := Write(item, order[0], Resolve(Seen(payload, item), set_[order[0]]));
                 if r.Err? then r else WriteAll(payload, r.value, set_, order[1..])
  {}

  /** One path of a "set" object. */
  method WriteOne(item: WorkingItem, path: string, value: Value, literal: Ref) returns (err: Option<Problem>)
    requires item.Valid() && Stands(item.heap.store, item.desk.scene.cool, literal, value)
    requires SegmentsOf(path) in item.desk.written
    requires CalmWrite(item.desk.Reach(), value, path, Resolve(Seen(item.desk.Payload(), item.fields), value))
    modifies item.heap, item
    ensures item.Valid() && BaseStays(item.desk.base, old(item.heap.store), item.heap.store)
    ensures Agrees(Write(old(item.fields), path, Resolve(Seen(item.desk.Payload(), old(item.fields)), value)), err,
                   item.fields)
  {
    var x := item.Resolve(value, literal);
    err := item.SetPath(path, x, Resolve(Seen(item.desk.Payload(), item.fields), value));
  }

  predicate AllWritten(set_: Object, written: set<Path>) { forall k | k in set_ :: SegmentsOf(k) in written }

  /** The loop over the paths of a "set" object. */
  method ApplySet(item: WorkingItem, set_: Object, literals: Ref, order: seq<string>) returns (err: Option<Problem>)
    requires item.Valid() && Stands(item.heap.store, item.desk.scene.cool, literals, Obj(set_))
    requires AllWritten(set_, item.desk.written)
    requires CalmSet(item.desk.Reach(), item.desk.Payload(), item.fields, set_, order)
    modifies item.heap, item
    ensures item.Valid() && BaseStays(item.desk.base, old(item.heap.store), item.heap.store)
    ensures Agrees(WriteAll(item.desk.Payload(), old(item.fields), set_, order), err, item.fields)
  {
    ghost var payload, w, goal := item.desk.Payload(), item.desk.Reach(),
                                  WriteAll(item.desk.Payload(), item.fields, set_, order);
    assert order[0..] == order;
    for i := 0 to |order|
      invariant item.Valid() && BaseStays(item.desk.base, old(item.heap.store), item.heap.store)
      invariant goal == WriteAll(payload, item.fields, set_, order[i..])
      invariant CalmSet(w, payload, item.fields, set_, order[i..])
    {
      var path := order[i];
      assert order[i..][0] == path && order[i..][1..] == order[i + 1..];
      Skips(payload, item.fields, set_, order[i..]);
      if path in set_ {
        OlderStays(item.desk, old(item.heap.store), item.heap.store, literals, Obj(set_));
        err := WriteOne(item, path, set_[path], item.heap.store[literals.addr].fields[path]);
        if err.Some? {
          return;
        }
      }
    }
    assert order[|order|..] == [];
    err := None;
  }

  method ApplyUpdate(c: Context, ord: Orders, site: seq<nat>, item: WorkingItem, update: Value, config: Ref, index: nat)
    returns (err: Option<Problem>)
    requires item.Valid() && c == item.desk.context && Stands(item.heap.store, item.desk.scene.cool, config, update)
    requires HasSet(update) ==> AllWritten(update.fields["set"].fields, item.desk.written)
    requires CalmUpdate(c, ord, site, item.desk.Reach(), item.desk.Payload(), item.fields, update, index)
    modifies item.heap, item
    ensures item.Valid() && BaseStays(item.desk.base, old(item.heap.store), item.heap.store)
    ensures Agrees(Update(c, ord, site, item.desk.Payload(), old(item.fields), update, index), err, item.fields)
  {
    if !update.Obj? {
      return Some(UpdateNotAnObject(index));
    }
    if "when" in update.fields {
      var matched := item.Judge(c, update.fields["when"]);
      if matched.Err? {
        return Some(matched.error);
      }
      if !matched.value {
        return None;
      }
    }
    if "set" !in update.fields || !update.fields["set"].Obj? {
      return Some(SetNotAnObject(index));
    }
    var set_ := update.fields["set"].fields;
    err := ApplySet(item, set_, item.heap.store[config.addr].fields["set"], ord(site + [0, index], set_));
  }

  predicate EachWritten(updates: seq<Value>, written: set<Path>) {
    forall i | 0 <= i < |updates| && HasSet(updates[i]) :: AllWritten(updates[i].fields["set"].fields, written)
  }

  lemma UpdatesAreWritten(params: Object)
    ensures EachWritten(Entries(params, "updates"), Written(params))
  {}

  method ApplyArrayUpdates(c: Context, ord: Orders, site: seq<nat>, item: WorkingItem, params: Object, config: Ref)
    returns (err: Option<Problem>)
    requires item.Valid() && c == item.desk.context && item.desk.written == Written(params)
    requires Stands(item.heap.store, item.desk.scene.cool, config, Obj(params))
    requires var updates := Entries(params, "updates");
             CalmUpdates(c, ord, site, item.desk.Reach(), item.desk.Payload(), item.fields, updates, 0)
    modifies item.heap, item
    ensures item.Valid() && BaseStays(item.desk.base, old(item.heap.store), item.heap.store)
    ensures Agrees(ApplyUpdates(c, ord, site, item.desk.Payload(), old(item.fields), params), err, item.fields)
  {
    if "updates" !in params {
      return None;
    }
    if !params["updates"].Arr? {
      return Some(UpdatesNotAList);
    }
    UpdatesAreWritten(params);
    err := ApplyEach(c, ord, site, item, params["updates"].items, item.heap.store[config.addr].fields["updates"]);
  }

  method ApplyEach(c: Context, ord: Orders, site: seq<nat>, item: WorkingItem, updates: seq<Value>, list: Ref)
    returns (err: Option<Problem>)
    requires item.Valid() && c == item.desk.context && Stands(item.heap.store, item.desk.scene.cool, list, Arr(updates))
    requires EachWritten(updates, item.desk.written)
    requires CalmUpdates(c, ord, site, item.desk.Reach(), item.desk.Payload(), item.fields, updates, 0)
    modifies item.heap, item
    ensures item.Valid() && BaseStays(item.desk.base, old(item.heap.store), item.heap.store)
    ensures Agrees(Updates(c, ord, site, item.desk.Payload(), old(item.fields), updates, 0), err, item.fields)
  {
    ghost var payload, s, w := item.desk.Payload(), item.heap.store, item.desk.Reach();
    ghost var goal := Updates(c, ord, site, payload, item.fields, updates, 0);
    for index := 0 to |updates|
      invariant item.Valid() && BaseStays(item.desk.base, s, item.heap.store)
      invariant goal == Updates(c, ord, site, payload, item.fields, updates, index)
      invariant CalmUpdates(c, ord, site, w, payload, item.fields, updates, index)
    {
      OlderStays(item.desk, s, item.heap.store, list, Arr(updates));
      err := ApplyUpdate(c, ord, site, item, updates[index], item.heap.store[list.addr].items[index], index);
      if err.Some? {
        return;
      }
    }
    err := None;
  }

  // ----- Items -----

  /** Cells are added, and what leads through cool cells stays. */
  predicate Grown(s: Store, s': Store, cool: set<nat>, cool': set<nat>) {
    s <= s' && cool <= cool' && forall a | a in cool' :: a in cool || |s| <= a < |s'|
  }

  predicate AllStand(s: Store, cool: set<nat>, xs: seq<Ref>, vs: seq<Value>) {
    |xs| == |vs| && forall k | 0 <= k < |xs| :: Stands(s, cool, xs[k], vs[k])
  }

  /** The items of a result stand for the values of the other, or both have the same problem. */
  predicate Delivers(s: Store, cool: set<nat>, res: Result<seq<Ref>, Problem>, goal: Result<seq<Value>, Problem>) {
    if goal.Ok? then res.Ok? && AllStand(s, cool, res.value, goal.value) else res == Err(goal.error)
  }

  predicate DeliversOne(s: Store, cool: set<nat>, res: Result<Option<Ref>, Problem>, goal: Kept<Problem>) {
    if goal.Err? then res == Err(goal.error)
    else if goal.value.None? then res == Ok(None)
    else res.Ok? && res.value.Some? && Stands(s, cool, res.value.value, goal.value.value)
  }

  lemma AllStay(s: Store, s': Store, cool: set<nat>, cool': set<nat>, xs: seq<Ref>, vs: seq<Value>)
    requires AllStand(s, cool, xs, vs) && s <= s' && cool <= cool'
    ensures AllStand(s', cool', xs, vs)
  {
    forall k | 0 <= k < |xs| ensures Stands(s', cool', xs[k], vs[k]) {
      StandsStays(s, s', cool, cool', xs[k], vs[k]);
    }
  }

  lemma {:induction false} CollectFails<E>(rs: seq<Kept<E>>, n: nat)
    requires n <= |rs| && Collect(rs[..n]).Err?
    ensures Collect(rs) == Collect(rs[..n])
    decreases |rs|
  {
    if n < |rs| {
      assert rs[..|rs| - 1][..n] == rs[..n];
      CollectFails(rs[..|rs| - 1], n);
    } else {
      assert rs[..n] == rs;
    }
  }

  /** What a transform needs to find on the heap. */
  predicate Ready(s: Store, sc: Scene, c: Context, root: nat, parent: Ref, params: Value, config: Ref) {
    && Fits(sc, s) && sc.root == root && sc.parent == parent && sc.payload == c.payload
    && params.Obj? && Stands(s, sc.cool, config, params)
  }

  lemma ReadyLater(s: Store, s': Store, sc: Scene, c: Context, root: nat, parent: Ref, params: Value, config: Ref)
    requires Ready(s, sc, c, root, parent, params, config) && s <= s'
    ensures Ready(s', sc, c, root, parent, params, config)
  {
    FitsLater(sc, s, s');
    StandsStays(s, s', sc.cool, sc.cool, config, params);
  }

  /** The loop over the items. params is the configuration, and config leads to it: its literals are written by
      reference. The scene says what is around the items, values what they stand for. */
  method TransformArrayItems(
    heap: Heap, c: Context, ord: Orders, site: seq<nat>, root: nat, items: seq<Ref>, params: Value, config: Ref,
    parent: Ref, ghost sc: Scene, ghost values: seq<Value>)
    returns (res: Result<seq<Ref>, Problem>, ghost cool: set<nat>)
    requires Ready(heap.store, sc, c, root, parent, params, config) && AllStand(heap.store, sc.cool, items, values)
    requires CalmItems(c, ord, site, sc.rootWritten, sc.parentWritten, values, params, sc.parentValue)
    modifies heap
    ensures Grown(old(heap.store), heap.store, sc.cool, cool)
    ensures Delivers(heap.store, cool, res, Transform(c, ord, site, values, params, sc.parentValue))
    decreases params, 3
  {
    ghost var rs := seq(|values|, k requires 0 <= k < |values| =>
                          TransformItem(c, ord, site + [k], values[k], k, params, sc.parentValue));
    ghost var s := heap.store;
    ghost var kept: seq<Value> := [];
    var filtered: seq<Ref> := [];
    cool := sc.cool;
    for index := 0 to |items|
      invariant Grown(s, heap.store, sc.cool, cool)
      invariant Collect(rs[..index]) == Ok(kept) && AllStand(heap.store, cool, filtered, kept)
    {
      assert rs[..index + 1][..index] == rs[..index];
      ghost var s1 := heap.store;
      ghost var cool1;
      var one;
      one, cool1 := TransformNext(heap, c, ord, site, root, items, index, params, config, parent, sc, values, s);
      AllStay(s1, heap.store, cool, cool + cool1, filtered, kept);
      if one.Err? {
        CollectFails(rs, index + 1);
        return Err(one.error), cool + cool1;
      }
      if one.value.Some? {
        ghost var value := rs[index].value.value;
        StandsStays(heap.store, heap.store, cool1, cool + cool1, one.value.value, value);
        filtered, kept := filtered + [one.value.value], kept + [value];
      }
      cool := cool + cool1;
    }
    assert rs[..|rs|] == rs;
    res := Ok(filtered);
  }

  /** One round of the loop; s is the store before it. */
  method TransformNext(
    heap: Heap, c: Context, ord: Orders, site: seq<nat>, root: nat, items: seq<Ref>, index: nat, params: Value,
    config: Ref, parent: Ref, ghost sc: Scene, ghost values: seq<Value>, ghost s: Store)
    returns (res: Result<Option<Ref>, Problem>, ghost cool: set<nat>)
    requires Ready(s, sc, c, root, parent, params, config) && AllStand(s, sc.cool, items, values)
    requires s <= heap.store && index < |items|
    requires CalmItems(c, ord, site, sc.rootWritten, sc.parentWritten, values, params, sc.parentValue)
    modifies heap
    ensures Grown(old(heap.store), heap.store, sc.cool, cool)
    ensures DeliversOne(heap.store, cool, res,
                        TransformItem(c, ord, site + [index], values[index], index, params, sc.parentValue))
    decreases params, 3, 0
  {
    ReadyLater(s, heap.store, sc, c, root, parent, params, config);
    StandsStays(s, heap.store, sc.cool, sc.cool, items[index], values[index]);
    assert CalmItem(c, ord, site + [index], sc.rootWritten, sc.parentWritten, values[index], index, params,
                    sc.parentValue);
    res, cool := TransformOne(heap, c, ord, site + [index], root, items[index], index, params, config, parent, sc,
                              values[index]);
  }

  /** The copy of an item is seen in its payload, and stands for the item. */
  lemma CopySeen(s: Store, s1: Store, s2: Store, sc: Scene, c: Context, cool: set<nat>, places: map<Path, nat>,
                 written: set<Path>, y: Ref, index: nat, value: Value)
    requires Fits(sc, s) && sc.payload == c.payload && Copied(s, s1, cool, places, [], y, value, written)
    requires IsMap(s1, At(sc.root)) && s2 == s1 + [MapCell(SeenFields(s1[sc.root].fields, y, index, sc.parent, c))]
    ensures Stands(s2, Near(sc) + cool + Cells(places) + {|s1|}, At(|s1|),
                   Obj(ItemPayload(c, value, index, sc.parentValue)))
  {
    var all := Near(sc) + cool + Cells(places) + {|s1|};
    FitsLater(sc, s, s2);
    SkelStands(s1, cool, places, [], y, value, written);
    StandsStays(s1, s2, cool + Cells(places), all, y, value);
    SeenStands(sc, c, s2, all, |s1|, y, index, value);
  }

  /** Work on the copy can begin. */
  lemma WorkBegins(s: Store, s1: Store, s2: Store, sc: Scene, c: Context, cool: set<nat>, places: map<Path, nat>,
                   written: set<Path>, a: nat, index: nat, value: Value)
    requires Fits(sc, s) && sc.payload == c.payload && value.Obj?
    requires Copied(s, s1, cool, places, [], At(a), value, written)
    requires IsMap(s1, At(sc.root)) && s2 == s1 + [MapCell(SeenFields(s1[sc.root].fields, At(a), index, sc.parent, c))]
    ensures Working(Desk(sc, c, |s|, written, index, value, a, |s1|), s2, value.fields, sc.cool + cool, places)
  {
    assert s2[..|s|] == s;
    assert forall a | a in sc.cool :: a in Near(sc);
    RootIsMap(sc, s);
    SkelApart(s1, s2, cool, sc.cool + cool, places, places, [], At(a), value, written);
  }

  /** The copy of an item and the payload that it is seen in. */
  method Prepare(heap: Heap, c: Context, root: nat, item: Ref, index: nat, parent: Ref, ghost sc: Scene,
                 ghost value: Value, ghost written: set<Path>)
    returns (copy: Ref, seen: nat, ghost all: set<nat>, ghost cool: set<nat>, ghost places: map<Path, nat>)
    requires Fits(sc, heap.store) && sc.root == root && sc.parent == parent && sc.payload == c.payload
    requires Stands(heap.store, sc.cool, item, value)
    modifies heap
    ensures Grown(old(heap.store), heap.store, sc.cool, cool)
    ensures Stands(heap.store, all, At(seen), Obj(ItemPayload(c, value, index, sc.parentValue)))
    ensures !value.Obj? ==> Stands(heap.store, cool, copy, value)
    ensures value.Obj? ==>
              && IsMap(heap.store, copy)
              && Working(Desk(sc, c, |old(heap.store)|, written, index, value, copy.addr, seen), heap.store,
                         value.fields, cool, places)
  {
    ghost var s := heap.store;
    copy, cool, places := heap.Copy(item, sc.cool, value, [], written);
    ghost var s1 := heap.store;
    FitsLater(sc, s, s1);
    RootIsMap(sc, s1);
    seen := heap.New(MapCell(SeenFields(heap.store[root].fields, copy, index, parent, c)));
    all := Near(sc) + cool + Cells(places) + {seen};
    CopySeen(s, s1, heap.store, sc, c, cool, places, written, copy, index, value);
    if value.Obj? {
      WorkBegins(s, s1, heap.store, sc, c, cool, places, written, copy.addr, index, value);
    } else {
      StandsStays(s1, heap.store, cool, sc.cool + cool, copy, value);
    }
    cool := sc.cool + cool;
  }

  /** The body of the loop: filter, then update a copy of the item. */
  method TransformOne(
    heap: Heap, c: Context, ord: Orders, site: seq<nat>, root: nat, item: Ref, index: nat, params: Value, config: Ref,
    parent: Ref, ghost sc: Scene, ghost value: Value)
    returns (res: Result<Option<Ref>, Problem>, ghost cool: set<nat>)
    requires Ready(heap.store, sc, c, root, parent, params, config) && Stands(heap.store, sc.cool, item, value)
    requires CalmItem(c, ord, site, sc.rootWritten, sc.parentWritten, value, index, params, sc.parentValue)
    modifies heap
    ensures Grown(old(heap.store), heap.store, sc.cool, cool)
    ensures DeliversOne(heap.store, cool, res, TransformItem(c, ord, site, value, index, params, sc.parentValue))
    decreases params, 2
  {
    ghost var s := heap.store;
    ghost var places;
    var copy, seen, keep;
    copy, seen, keep, cool, places := Consider(heap, c, root, item, index, params, parent, sc, value);
    if keep.Err? {
      return Err(keep.error), cool;
    }
    if !keep.value {
      return Ok(None), cool;
    }
    if !IsMap(heap.store, copy) {
      return Ok(Some(copy)), cool;
    }
    StandsStays(s, heap.store, sc.cool, sc.cool, config, params);
    ghost var desk := Desk(sc, c, |s|, Written(params.fields), index, value, copy.addr, seen);
    var err;
    err, cool := UpdateItem(heap, c, ord, site, root, copy.addr, seen, params, config, desk, value.fields, cool,
                            places, s);
    res := if err.Some? then Err(err.value) else Ok(Some(copy));
  }

  /** Copy an item, and see if it is kept. */
  method Consider(heap: Heap, c: Context, root: nat, item: Ref, index: nat, params: Value, parent: Ref, ghost sc: Scene,
                  ghost value: Value)
    returns (copy: Ref, seen: nat, keep: Result<bool, Problem>, ghost cool: set<nat>, ghost places: map<Path, nat>)
    requires Fits(sc, heap.store) && sc.root == root && sc.parent == parent && sc.payload == c.payload
    requires params.Obj? && Stands(heap.store, sc.cool, item, value)
    modifies heap
    ensures Grown(old(heap.store), heap.store, sc.cool, cool)
    ensures keep == Keeps(c, ItemPayload(c, value, index, sc.parentValue), params.fields)
    ensures !value.Obj? ==> Stands(heap.store, cool, copy, value)
    ensures value.Obj? ==>
              && IsMap(heap.store, copy)
              && Working(Desk(sc, c, |old(heap.store)|, Written(params.fields), index, value, copy.addr, seen),
                         heap.store, value.fields, cool, places)
  {
    ghost var all;
    copy, seen, all, cool, places := Prepare(heap, c, root, item, index, parent, sc, value, Written(params.fields));
    var payload := ReadRef(heap.store, At(seen), all, Obj(ItemPayload(c, value, index, sc.parentValue)));
    keep := Keeps(c, payload.fields, params.fields);
  }

  lemma ItemDelivered(d: Desk, s: Store, s1: Store, s2: Store, fields: Object, cool: set<nat>, places: map<Path, nat>)
    requires s <= s1 && d.base == |s| && BaseStays(d.base, s1, s2) && Working(d, s2, fields, cool, places)
    ensures Grown(s, s2, d.scene.cool, cool + Cells(places))
    ensures Stands(s2, cool + Cells(places), At(d.addr), Obj(fields))
  {
    assert s == s1[..d.base] == s2[..d.base];
    SkelStands(s2, cool, places, [], At(d.addr), Obj(fields), d.written);
  }

  /** Updates and nested transforms, on an item that is kept. */
  method UpdateItem(
    heap: Heap, c: Context, ord: Orders, site: seq<nat>, root: nat, addr: nat, seen: nat, params: Value, config: Ref,
    ghost desk: Desk, ghost fields: Object, ghost cool0: set<nat>, ghost places: map<Path, nat>, ghost s: Store)
    returns (err: Option<Problem>, ghost cool: set<nat>)
    requires Working(desk, heap.store, fields, cool0, places) && addr == desk.addr && seen == desk.seen
    requires c == desk.context && root == desk.scene.root && s <= heap.store && desk.base == |s|
    requires params.Obj? && Stands(heap.store, desk.scene.cool, config, params)
    requires desk.written == Written(params.fields)
    requires CalmUpdated(c, ord, site, desk.Reach(), desk.Payload(), fields, params)
    modifies heap
    ensures Grown(s, heap.store, desk.scene.cool, cool)
    ensures var goal := Updated(c, ord, site, desk.Payload(), fields, params);
            if goal.Err? then err == Some(goal.error)
            else err.None? && Stands(heap.store, cool, At(addr), Obj(goal.value))
    decreases params, 2, 0
  {
    var item := new WorkingItem(heap, addr, seen, desk, fields, cool0, places);
    ghost var s1 := heap.store;
    err := ApplyArrayUpdates(c, ord, site, item, params.fields, config);
    if err.None? {
      OlderStays(desk, s1, heap.store, config, params);
      err := ApplyNestedTransforms(c, ord, site, root, item, params, config);
    }
    ItemDelivered(desk, s, s1, heap.store, item.fields, item.cool, item.places);
    cool := item.cool + Cells(item.places);
  }

  // ----- Nested transforms -----

  predicate NestedWritten(list: seq<Value>, written: set<Path>) {
    forall j | 0 <= j < |list| && HasSource(list[j]) :: TargetWritten(list[j], written)
  }

  predicate TargetWritten(cfg: Value, written: set<Path>)
    requires HasSource(cfg)
  {
    SegmentsOf(TargetOf(cfg.fields, Source(cfg.fields))) in written
  }

  lemma NestedAreWritten(params: Object)
    ensures NestedWritten(Entries(params, "nested"), Written(params))
  {}

  method ApplyNestedTransforms(c: Context, ord: Orders, site: seq<nat>, root: nat, item: WorkingItem, params: Value,
                               config: Ref)
    returns (err: Option<Problem>)
    requires item.Valid() && c == item.desk.context && root == item.desk.scene.root
    requires params.Obj? && Stands(item.heap.store, item.desk.scene.cool, config, params)
    requires item.desk.written == Written(params.fields)
    requires "nested" in params.fields && params.fields["nested"].Arr? ==>
               CalmNested(c, ord, site, item.desk.Reach(), item.fields, params.fields["nested"], 0)
    modifies item.heap, item
    ensures item.Valid() && BaseStays(item.desk.base, old(item.heap.store), item.heap.store)
    ensures Agrees(ApplyNested(c, ord, site, old(item.fields), params), err, item.fields)
    decreases params, 1
  {
    if "nested" !in params.fields {
      return None;
    }
    var list := params.fields["nested"];
    if !list.Arr? {
      return Some(NestedNotAList);
    }
    NestedAreWritten(params.fields);
    err := ApplyEachNested(c, ord, site, root, item, list, item.heap.store[config.addr].fields["nested"]);
  }

  method ApplyEachNested(c: Context, ord: Orders, site: seq<nat>, root: nat, item: WorkingItem, list: Value,
                         config: Ref)
    returns (err: Option<Problem>)
    requires item.Valid() && c == item.desk.context && root == item.desk.scene.root
    requires list.Arr? && Stands(item.heap.store, item.desk.scene.cool, config, list)
    requires NestedWritten(list.items, item.desk.written)
    requires CalmNested(c, ord, site, item.desk.Reach(), item.fields, list, 0)
    modifies item.heap, item
    ensures item.Valid() && BaseStays(item.desk.base, old(item.heap.store), item.heap.store)
    ensures Agrees(Nested(c, ord, site, old(item.fields), list, 0), err, item.fields)
    decreases list, 5
  {
    ghost var s, w, goal := item.heap.store, item.desk.Reach(), Nested(c, ord, site, item.fields, list, 0);
    for index := 0 to |list.items|
      invariant item.Valid() && BaseStays(item.desk.base, s, item.heap.store)
      invariant goal == Nested(c, ord, site, item.fields, list, index)
      invariant CalmNested(c, ord, site, w, item.fields, list, index)
    {
      OlderStays(item.desk, s, item.heap.store, config, list);
      err := ApplyNestedTransform(c, ord, site + [1, index], root, item, list.items[index],
                                  item.heap.store[config.addr].items[index], index);
      if err.Some? {
        return;
      }
    }
    err := None;
  }

  method ApplyNestedTransform(c: Context, ord: Orders, site: seq<nat>, root: nat, item: WorkingItem, cfg: Value,
                              config: Ref, index: nat)
    returns (err: Option<Problem>)
    requires item.Valid() && c == item.desk.context && root == item.desk.scene.root
    requires Stands(item.heap.store, item.desk.scene.cool, config, cfg)
    requires HasSource(cfg) ==> TargetWritten(cfg, item.desk.written)
    requires CalmNestedOne(c, ord, site, item.desk.Reach(), item.fields, cfg)
    modifies item.heap, item
    ensures item.Valid() && BaseStays(item.desk.base, old(item.heap.store), item.heap.store)
    ensures Agrees(NestedOne(c, ord, site, old(item.fields), cfg, index), err, item.fields)
    decreases cfg, 4
  {
    if !cfg.Obj? {
      return Some(NestedNotAnObject(index));
    }
    var source := Source(cfg.fields);
    if Text.Blank(source) {
      return Some(NestedWithoutSource(index));
    }
    var parts := Paths.Segments(source);
    FoundInSkel(item.heap.store, item.cool, item.cool, item.places, At(item.addr), Obj(item.fields),
                item.desk.written, parts);
    var raw := item.heap.GetPath(At(item.addr), parts);
    if raw.None? {
      return None;
    }
    if !IsArr(item.heap.store, raw.value) {
      return Some(NestedNotAnArray(index));
    }
    ghost var elements := Paths.GetPath(item.fields, source).value;
    err := TransformNested(c, ord, site, root, item, raw.value, elements, cfg, config);
  }

  lemma InnerReady(d: Desk, s: Store, fields: Object, cool: set<nat>, places: map<Path, nat>, raw: Ref, elements: Value,
                   cfg: Value, config: Ref)
    requires Working(d, s, fields, cool, places) && cfg.Obj? && Stands(s, d.scene.cool, config, cfg)
    requires elements.Arr? && Stands(s, cool, raw, elements)
    ensures Ready(s, d.Inner(fields, cool, places), d.context, d.scene.root, At(d.addr), cfg, config)
    ensures AllStand(s, cool, s[raw.addr].items, elements.items)
  {
    InnerFits(d, s, fields, cool, places);
    StandsStays(s, s, d.scene.cool, cool, config, cfg);
  }

  /** Transform an array of the item, and write the result back. */
  method TransformNested(c: Context, ord: Orders, site: seq<nat>, root: nat, item: WorkingItem, raw: Ref,
                         ghost elements: Value, cfg: Value, config: Ref)
    returns (err: Option<Problem>)
    requires item.Valid() && c == item.desk.context && root == item.desk.scene.root
    requires HasSource(cfg) && TargetWritten(cfg, item.desk.written)
    requires Stands(item.heap.store, item.desk.scene.cool, config, cfg)
    requires elements.Arr? && Stands(item.heap.store, item.cool, raw, elements)
    requires CalmItems(c, ord, site, item.desk.scene.rootWritten, item.desk.written, elements.items, cfg,
                       Obj(item.fields))
    modifies item.heap, item
    ensures item.Valid() && BaseStays(item.desk.base, old(item.heap.store), item.heap.store)
    ensures Agrees(Taken(old(item.fields), TargetOf(cfg.fields, Source(cfg.fields)),
                         Transform(c, ord, site, elements.items, cfg, Obj(old(item.fields)))), err, item.fields)
    decreases cfg, 4, 1
  {
    ghost var s := item.heap.store;
    ghost var cool;
    var done;
    done, cool := TransformInner(c, ord, site, root, item, raw, elements, cfg, config);
    err := WriteBack(item, TargetOf(cfg.fields, Source(cfg.fields)), done, s, cool,
                     Transform(c, ord, site, elements.items, cfg, Obj(item.fields)));
  }

  /** The items of an array of the item, which they see as their parent. */
  method TransformInner(c: Context, ord: Orders, site: seq<nat>, root: nat, item: WorkingItem, raw: Ref,
                        ghost elements: Value, cfg: Value, config: Ref)
    returns (done: Result<seq<Ref>, Problem>, ghost cool: set<nat>)
    requires item.Valid() && c == item.desk.context && root == item.desk.scene.root && HasSource(cfg)
    requires Stands(item.heap.store, item.desk.scene.cool, config, cfg)
    requires elements.Arr? && Stands(item.heap.store, item.cool, raw, elements)
    requires CalmItems(c, ord, site, item.desk.scene.rootWritten, item.desk.written, elements.items, cfg,
                       Obj(item.fields))
    modifies item.heap
    ensures Grown(old(item.heap.store), item.heap.store, item.cool, cool)
    ensures Delivers(item.heap.store, cool, done, Transform(c, ord, site, elements.items, cfg, Obj(item.fields)))
    decreases cfg, 4, 0
  {
    ghost var s := item.heap.store;
    InnerReady(item.desk, s, item.fields, item.cool, item.places, raw, elements, cfg, config);
    done, cool := TransformArrayItems(item.heap, c, ord, site, root, item.heap.store[raw.addr].items, cfg, config,
                                      At(item.addr), item.desk.Inner(item.fields, item.cool, item.places),
                                      elements.items);
  }

  /** The result of an inner transform, as the item takes it. */
  function Taken(item: Object, path: string, done: Result<seq<Value>, Problem>): Result<Object, Problem> {
    match done
    case Err(e) => Err(e)
    case Ok(values) => Write(item, path, Arr(values))
  }

  /** Write a new array into the item, if there is one. */
  method WriteBack(item: WorkingItem, path: string, done: Result<seq<Ref>, Problem>, ghost s: Store,
                   ghost cool: set<nat>, ghost goal: Result<seq<Value>, Problem>)
    returns (err: Option<Problem>)
    requires item.addr == item.desk.addr && item.seen == item.desk.seen && SegmentsOf(path) in item.desk.written
    requires Working(item.desk, s, item.fields, item.cool, item.places)
    requires Grown(s, item.heap.store, item.cool, cool) && Delivers(item.heap.store, cool, done, goal)
    modifies item.heap, item
    ensures item.Valid() && BaseStays(item.desk.base, s, item.heap.store)
    ensures Agrees(Taken(old(item.fields), path, goal), err, item.fields)
  {
    ghost var s1 := item.heap.store;
    if done.Err? {
      item.Grow(s, cool);
      return Some(done.error);
    }
    var a := item.heap.New(ArrCell(done.value));
    AllStay(s1, item.heap.store, cool, cool + {a}, done.value, goal.value);
    item.Grow(s, cool + {a});
    err := item.SetPath(path, At(a), Arr(goal.value));
  }

  // ----- The handlers -----

  /** The payload of a message on the heap: apart from the maps on the path of the target, which are cells of their
      own, any of its parts may be shared. */
  predicate Payload(s: Store, cool: set<nat>, places: map<Path, nat>, root: nat, payload: Object, target: string) {
    Placed(s, cool, places) && Skel(s, cool, places, [], At(root), Obj(payload), {SegmentsOf(target)})
  }

  /** Only the maps on the path of the target are changed in place. */
  predicate OthersStay(s: Store, s': Store, places: map<Path, nat>) {
    |s| <= |s'| && forall a: nat | a < |s| && (forall p | p in places :: places[p] != a) :: s'[a] == s[a]
  }

  class ArrayTransformHandler {
    const host: Host

    constructor (host: Host)
      ensures this.host == host
    {
      this.host := host;
    }

    method Handle(heap: Heap, root: nat, headers: map<string, string>, params: Object, config: Ref, ord: Orders,
                  today: string, monthEnd: string, ghost payload: Object, ghost cool0: set<nat>,
                  ghost places0: map<Path, nat>)
      returns (err: Option<Failed>, ghost cool: set<nat>, ghost places: map<Path, nat>)
      requires Payload(heap.store, cool0, places0, root, payload, TargetOf(params, Param(params, "source")))
      requires Stands(heap.store, cool0, config, Obj(params))
      requires CalmHandler(Context(host, payload, headers, today, monthEnd), ord, params)
      modifies heap
      ensures var outcome := HandleTransform(Context(host, payload, headers, today, monthEnd), ord, params);
              && err == outcome.err
              && Payload(heap.store, cool, places, root, outcome.payload, TargetOf(params, Param(params, "source")))
      ensures OthersStay(old(heap.store), heap.store, places0)
    {
      cool, places := cool0, places0;
      var source := Param(params, "source");
      if Text.Blank(source) {
        err := Some(SourceRequired);
        return;
      }
      var target := TargetOf(params, source);
      ghost var c := Context(host, payload, headers, today, monthEnd);
      FollowedInSkel(heap.store, cool, places, [], At(root), Obj(payload), {SegmentsOf(target)},
                     Paths.Segments(source));
      var raw := heap.Follow(At(root), Paths.Segments(source));
      if raw.None? {
        err := Some(SourceMissing(source));
        return;
      }
      if !IsArr(heap.store, raw.value) {
        err := Some(SourceNotAnArray(source));
        return;
      }
      ghost var s, items := heap.store, Paths.MessagePath(payload, source).value.items;
      var done;
      done, cool := TransformSource(heap, root, heap.store[raw.value.addr].items, headers, params, config, ord, today,
                                    monthEnd, target, payload, cool, places, items);
      if done.Err? {
        err := Some(ItemFailed(done.error));
        return;
      }
      err, cool, places := StoreResult(heap, root, target, done.value, payload, cool, places,
                                       Transform(c, ord, [], items, Obj(params), Null).value);
    }

    /** The items of the source, with the message's own payload around them. */
    method TransformSource(
      heap: Heap, root: nat, items: seq<Ref>, headers: map<string, string>, params: Object, config: Ref, ord: Orders,
      today: string, monthEnd: string, ghost target: string, ghost payload: Object, ghost cool0: set<nat>,
      ghost places: map<Path, nat>, ghost values: seq<Value>)
      returns (done: Result<seq<Ref>, Problem>, ghost cool: set<nat>)
      requires Payload(heap.store, cool0, places, root, payload, target)
      requires Stands(heap.store, cool0, config, Obj(params)) && AllStand(heap.store, cool0, items, values)
      requires CalmItems(Context(host, payload, headers, today, monthEnd), ord, [], {SegmentsOf(target)}, {}, values,
                         Obj(params), Null)
      modifies heap
      ensures Payload(heap.store, cool, places, root, payload, target)
      ensures OthersStay(old(heap.store), heap.store, places)
      ensures Delivers(heap.store, cool, done, Transform(Context(host, payload, headers, today, monthEnd), ord, [],
                                                         values, Obj(params), Null))
    {
      ghost var s, sc := heap.store, Outermost(root, payload, places, target, cool0);
      SkelStands(s, cool0, places, [], At(root), Obj(payload), {SegmentsOf(target)});
      var fields := ReadRef(heap.store, At(root), cool0 + Cells(places), Obj(payload));
      var c := Context(host, fields.fields, headers, today, monthEnd);
      PayloadReady(s, c, cool0, places, root, payload, target, Obj(params), config);
      done, cool := TransformArrayItems(heap, c, ord, [], root, items, Obj(params), config, Scalar(Null), sc, values);
      PayloadGrows(s, heap.store, cool0, cool, places, root, payload, target);
    }
  }

  lemma PayloadReady(s: Store, c: Context, cool: set<nat>, places: map<Path, nat>, root: nat, payload: Object,
                     target: string, params: Value, config: Ref)
    requires Payload(s, cool, places, root, payload, target) && c.payload == payload
    requires params.Obj? && Stands(s, cool, config, params)
    ensures Ready(s, Outermost(root, payload, places, target, cool), c, root, Scalar(Null), params, config)
  {
    forall a | a in Near(Outermost(root, payload, places, target, cool)) ensures a < |s| {
      if a in Cells(places) {}
    }
  }

  predicate CalmHandler(c: Context, ord: Orders, params: Object) {
    var source := Param(params, "source");
    var raw := Paths.MessagePath(c.payload, source);
    raw.Some? && raw.value.Arr? ==>
      CalmItems(c, ord, [], {SegmentsOf(TargetOf(params, source))}, {}, raw.value.items, Obj(params), Null)
  }

  function Outermost(root: nat, payload: Object, places: map<Path, nat>, target: string, cool: set<nat>): Scene {
    Scene(root, payload, places, {SegmentsOf(target)}, Scalar(Null), Null, map[], {}, cool)
  }

  lemma PayloadGrows(s: Store, s': Store, cool: set<nat>, cool': set<nat>, places: map<Path, nat>, root: nat,
                     payload: Object, target: string)
    requires Payload(s, cool, places, root, payload, target) && Grown(s, s', cool, cool')
    ensures Payload(s', cool', places, root, payload, target) && OthersStay(s, s', places)
  {
    SkelApart(s, s', cool, cool', places, places, [], At(root), Obj(payload), {SegmentsOf(target)});
  }

  /** The array is written to the target, and its length to the counter. */
  method StoreResult(heap: Heap, root: nat, target: string, done: seq<Ref>, ghost payload: Object,
                     ghost cool0: set<nat>, ghost places0: map<Path, nat>, ghost values: seq<Value>)
    returns (err: Option<Failed>, ghost cool: set<nat>, ghost places: map<Path, nat>)
    requires Payload(heap.store, cool0, places0, root, payload, target) && AllStand(heap.store, cool0, done, values)
    modifies heap
    ensures var outcome := StoreTransformed(payload, target, values);
            err == outcome.err && Payload(heap.store, cool, places, root, outcome.payload, target)
    ensures OthersStay(old(heap.store), heap.store, places0)
  {
    ghost var s := heap.store;
    RootIsPlaced(s, cool0, places0, root, payload, target);
    var a := heap.New(ArrCell(done));
    cool := cool0 + {a};
    AllStay(s, heap.store, cool0, cool, done, values);
    PayloadGrows(s, heap.store, cool0, cool, places0, root, payload, target);
    places := PayloadWritten(heap.store, cool, places0, root, payload, target, At(a), Arr(values));
    var e := heap.SetPath(root, target, At(a));
    if e.Some? {
      return Some(TargetFailed(e.value)), cool, places;
    }
    CounterWritten(heap.store, cool, places, root, Paths.SetPath(payload, target, Arr(values)).0, target,
                   target + "_transformed_count", Count(|values|));
    heap.store := heap.store[root := MapCell(heap.store[root].fields[target + "_transformed_count" :=
                                                                       Scalar(Count(|done|))])];
    err := None;
  }

  lemma RootIsPlaced(s: Store, cool: set<nat>, places: map<Path, nat>, root: nat, payload: Object, target: string)
    requires Payload(s, cool, places, root, payload, target)
    ensures [] in places && places[[]] == root && IsMap(s, At(root))
  {
    assert [] < SegmentsOf(target) && SegmentsOf(target) in {SegmentsOf(target)};
  }

  lemma PayloadWritten(s: Store, cool: set<nat>, places: map<Path, nat>, root: nat, payload: Object, target: string,
                       x: Ref, v: Value)
    returns (places': map<Path, nat>)
    requires Payload(s, cool, places, root, payload, target) && Stands(s, cool, x, v) && !v.Obj?
    ensures IsMap(s, At(root)) && SetPathRef(s, root, target, x).1 == Paths.SetPath(payload, target, v).1
    ensures var s' := SetPathRef(s, root, target, x).0;
            && Payload(s', cool, places', root, Paths.SetPath(payload, target, v).0, target)
            && OthersStay(s, s', places)
  {
    places' := places;
    var parts := Paths.Segments(target);
    assert [] < parts && parts in {SegmentsOf(target)};
    if !Text.Blank(parts[0]) {
      assert [] + parts == parts && [] + parts[..|parts| - 1] == parts[..|parts| - 1] < parts;
      places' := SetSkel(s, cool, places, [], root, payload, {SegmentsOf(target)}, parts, x, v);
    }
  }

  lemma CounterWritten(s: Store, cool: set<nat>, places: map<Path, nat>, root: nat, payload: Object, target: string,
                       key: string, v: Value)
    requires Payload(s, cool, places, root, payload, target) && v.Num?
    ensures IsMap(s, At(root))
    ensures Payload(s[root := MapCell(s[root].fields[key := Scalar(v)])], cool, places, root, payload[key := v], target)
  {
    assert [] < SegmentsOf(target) && SegmentsOf(target) in {SegmentsOf(target)};
    LastSegment(s, cool, places, [], root, payload, {SegmentsOf(target)}, key, Scalar(v), v);
  }

  class FilterArrayHandler {
    const host: Host

    constructor (host: Host)
      ensures this.host == host
    {
      this.host := host;
    }

    method Handle(msg: Messages.Message, params: Object) returns (err: Option<Failed>)
      modifies msg`payload
      ensures Outcome(msg.payload, err) == HandleFilter(Context(host, old(msg.payload), msg.headers, "", ""), params)
    {
      var source := Source(params);
      if Text.Blank(source) {
        return Some(SourceRequired);
      }
      var raw := Paths.MessagePath(msg.payload, source);
      if raw.None? {
        return Some(SourceMissing(source));
      }
      if !raw.value.Arr? {
        return Some(SourceNotAnArray(source));
      }
      var items := raw.value.items;
      var filtered := FilterItems(Context(host, msg.payload, msg.headers, "", ""), items, params);
      if filtered.Err? {
        return Some(filtered.error);
      }
      var target := TargetOf(params, source);
      var (payload', e) := Paths.SetPath(msg.payload, target, Arr(filtered.value));
      msg.payload := payload';
      if e.Some? {
        return Some(TargetFailed(e.value));
      }
      msg.Set(target + "_filtered_count", Count(|filtered.value|));
      msg.Set(target + "_removed_count", Count(|items| - |filtered.value|));
      err := None;
    }
  }

  method FilterItems(c: Context, items: seq<Value>, params: Object) returns (res: Result<seq<Value>, Failed>)
    ensures res == Filter(c, items, params)
  {
    ghost var rs := seq(|items|, k requires 0 <= k < |items| => FilterItem(c, items[k], k, params));
    var filtered: seq<Value> := [];
    for index := 0 to |items|
      invariant Collect(rs[..index]) == Ok(filtered)
    {
      assert rs[..index + 1][..index] == rs[..index];
      var matched := Matches(c, items[index], index, params);
      assert rs[index] == FilterItem(c, items[index], index, params);
      if matched.Err? {
        CollectFails(rs, index + 1);
        return Err(matched.error);
      }
      if matched.value {
        filtered := filtered + [items[index]];
      }
    }
    assert rs[..|rs|] == rs;
    res := Ok(filtered);
  }
}
