/** What array_transform does to references: which of its writes are safe although Go writes maps and arrays
    by reference, and what the updates of an item read. */
module Aliasing {
  import opened Prelude
  import opened Json
  import opened References
  import opened Transforms
  import Paths
  import Text

  // ----- The paths that a configuration writes to -----

  function Entries(params: Object, key: string): seq<Value> {
    if key in params && params[key].Arr? then params[key].items else []
  }

  predicate HasSet(update: Value) { update.Obj? && "set" in update.fields && update.fields["set"].Obj? }

  predicate HasSource(cfg: Value) { cfg.Obj? && !Text.Blank(Source(cfg.fields)) }

  /** The paths of the updates and the targets of the nested transforms, inside an item. */
  function Written(params: Object): set<Path> {
    var updates, nested := Entries(params, "updates"), Entries(params, "nested");
    (set i, k | 0 <= i < |updates| && HasSet(updates[i]) && k in updates[i].fields["set"].fields :: SegmentsOf(k))
    + (set j | 0 <= j < |nested| && HasSource(nested[j]) ::
         SegmentsOf(TargetOf(nested[j].fields, Source(nested[j].fields))))
  }

  function SegmentsOf(path: string): Path { Paths.Segments(path) }

  // ----- Calm writes -----

  /** The paths that are written to: in the payload, in the outer item, and in the item itself. */
  datatype Reach = Reach(root: set<Path>, parent: set<Path>, own: set<Path>)

  /** What is read there is no map that a write passes through. */
  predicate ReadsCool(w: Reach, parts: Paths.Parts) {
    if parts[0] == "item" then !Hot(w.own, parts[1..])
    else if parts[0] == "parent" then !Hot(w.parent, parts[1..])
    else !Hot(w.root, parts)
  }

  /** An object is written only where no write passes below, and only from where none does. */
  predicate CalmWrite(w: Reach, value: Value, k: string, v: Value) {
    v.Obj? ==>
      && !Hot(w.own, Paths.Segments(k))
      && (From(value).Some? ==> ReadsCool(w, Paths.Segments(From(value).value)))
  }

  predicate CalmSet(w: Reach, payload: Object, item: Object, set_: Object, order: seq<string>)
    decreases |order|
  {
    order == [] ||
    if order[0] !in set_ then CalmSet(w, payload, item, set_, order[1..])
    else
      var v := Resolve(Seen(payload, item), set_[order[0]]);
      && CalmWrite(w, set_[order[0]], order[0], v)
      && (Write(item, order[0], v).Ok? ==> CalmSet(w, payload, Write(item, order[0], v).value, set_, order[1..]))
  }

  predicate CalmUpdate(c: Context, ord: Orders, site: seq<nat>, w: Reach, payload: Object, item: Object, update: Value,
                       index: nat)
  {
    && HasSet(update)
    && ("when" in update.fields ==> Condition(c, Seen(payload, item), update.fields["when"]) == Ok(true)) ==>
      CalmSet(w, payload, item, update.fields["set"].fields, ord(site + [0, index], update.fields["set"].fields))
  }

  /** The updates from a position on. */
  predicate CalmUpdates(c: Context, ord: Orders, site: seq<nat>, w: Reach, payload: Object, item: Object,
                        updates: seq<Value>, n: nat)
    requires n <= |updates|
    decreases |updates| - n
  {
    n < |updates| ==>
      && CalmUpdate(c, ord, site, w, payload, item, updates[n], n)
      && var first := Update(c, ord, site, payload, item, updates[n], n);
         first.Ok? ==> CalmUpdates(c, ord, site, w, payload, first.value, updates, n + 1)
  }

  /** All writes to an item and, in turn, to the items of its arrays. */
  predicate CalmItem(c: Context, ord: Orders, site: seq<nat>, root: set<Path>, outer: set<Path>, item: Value,
                     index: nat, params: Value, parent: Value)
    requires params.Obj?
    decreases params, 2
  {
    var payload := ItemPayload(c, item, index, parent);
    item.Obj? && Keeps(c, payload, params.fields) == Ok(true) ==>
      CalmUpdated(c, ord, site, Reach(root, outer, Written(params.fields)), payload, item.fields, params)
  }

  predicate CalmUpdated(c: Context, ord: Orders, site: seq<nat>, w: Reach, payload: Object, item: Object, params: Value)
    requires params.Obj?
    decreases params, 1
  {
    && CalmUpdates(c, ord, site, w, payload, item, Entries(params.fields, "updates"), 0)
    && var updated := ApplyUpdates(c, ord, site, payload, item, params.fields);
       updated.Ok? && "nested" in params.fields && params.fields["nested"].Arr? ==>
         CalmNested(c, ord, site, w, updated.value, params.fields["nested"], 0)
  }

  /** The nested transforms from a position on. */
  predicate CalmNested(c: Context, ord: Orders, site: seq<nat>, w: Reach, item: Object, list: Value, n: nat)
    requires list.Arr? && n <= |list.items|
    decreases list, |list.items| - n
  {
    n < |list.items| ==>
      && CalmNestedOne(c, ord, site + [1, n], w, item, list.items[n])
      && var first := NestedOne(c, ord, site + [1, n], item, list.items[n], n);
         first.Ok? ==> CalmNested(c, ord, site, w, first.value, list, n + 1)
  }

  predicate CalmNestedOne(c: Context, ord: Orders, site: seq<nat>, w: Reach, item: Object, cfg: Value)
    decreases cfg, 4
  {
    HasSource(cfg) ==>
      match Paths.GetPath(item, Source(cfg.fields))
      case None => true
      case Some(raw) => raw.Arr? ==> CalmItems(c, ord, site, w.root, w.own, raw.items, cfg, Obj(item))
  }

  predicate CalmItems(c: Context, ord: Orders, site: seq<nat>, root: set<Path>, outer: set<Path>, items: seq<Value>,
                      params: Value, parent: Value)
    requires params.Obj?
    decreases params, 3
  {
    forall k: nat | k < |items| :: CalmItem(c, ord, site + [k], root, outer, items[k], k, params, parent)
  }

  // ----- What the updates of an item read -----

  /** The cells around an item: the payload, the outer item or null, and the cells that values written by
      reference may lead through. */
  datatype Scene = Scene(
    root: nat, payload: Object, rootPlaces: map<Path, nat>, rootWritten: set<Path>,
    parent: Ref, parentValue: Value, parentPlaces: map<Path, nat>, parentWritten: set<Path>, cool: set<nat>)

  /** All cells around an item. */
  function Near(sc: Scene): set<nat> { sc.cool + Cells(sc.rootPlaces) + Cells(sc.parentPlaces) }

  predicate Fits(sc: Scene, s: Store) {
    && Skel(s, sc.cool, sc.rootPlaces, [], At(sc.root), Obj(sc.payload), sc.rootWritten)
    && Skel(s, sc.cool, sc.parentPlaces, [], sc.parent, sc.parentValue, sc.parentWritten)
    && forall a | a in Near(sc) :: a < |s|
  }

  /** Old cells stay, new ones may come. */
  lemma FitsLater(sc: Scene, s: Store, s': Store)
    requires Fits(sc, s) && s <= s'
    ensures Fits(sc, s')
  {
    SkelApart(s, s', sc.cool, sc.cool, sc.rootPlaces, sc.rootPlaces, [], At(sc.root), Obj(sc.payload), sc.rootWritten);
    SkelApart(s, s', sc.cool, sc.cool, sc.parentPlaces, sc.parentPlaces, [], sc.parent, sc.parentValue,
              sc.parentWritten);
  }

  /** arrayTransformPayload: the fields of the payload, and what an item adds to them. */
  function SeenFields(fields: map<string, Ref>, item: Ref, index: nat, parent: Ref, c: Context): map<string, Ref> {
    fields["item" := item]["index" := Scalar(Num(index as real))]["parent" := parent]["today" := Scalar(Str(c.today))]
          ["end_of_current_month_plus_2" := Scalar(Str(c.monthEnd))]
  }

  predicate Faces(sc: Scene, c: Context, s: Store, seen: nat, item: Ref, index: nat) {
    && c.payload == sc.payload && IsMap(s, At(sc.root)) && seen < |s|
    && s[seen] == MapCell(SeenFields(s[sc.root].fields, item, index, sc.parent, c))
  }

  lemma RootIsMap(sc: Scene, s: Store)
    requires Fits(sc, s)
    ensures IsMap(s, At(sc.root)) && s[sc.root].fields.Keys == sc.payload.Keys
  {}

  /** What is found on a path is what the value has there; and a part of it that may be written by reference
      leads through cool cells. */
  predicate Found(s: Store, cool: set<nat>, found: Option<Ref>, v: Option<Value>, safe: bool) {
    match v
    case None => found == None
    case Some(u) => found.Some? && (!u.Obj? || safe ==> Stands(s, cool, found.value, u))
                    && (IsArr(s, found.value) <==> u.Arr?)
  }

  lemma FoundInSkel(s: Store, cool: set<nat>, cool': set<nat>, places: map<Path, nat>, x: Ref, v: Value,
                    written: set<Path>, parts: Path)
    requires Skel(s, cool, places, [], x, v, written) && cool <= cool'
    ensures Found(s, cool', GetRef(s, x, parts), Paths.Walk(v, parts), !Hot(written, parts))
  {
    SkelRead(s, cool, places, [], x, v, written, parts);
    assert [] + parts == parts;
    var found := Paths.Walk(v, parts);
    if found.Some? && (!found.value.Obj? || !Hot(written, parts)) {
      StandsStays(s, s, cool, cool', GetRef(s, x, parts).value, found.value);
    }
  }

  /** The same on a path of Message.GetPath, through arrays too. */
  lemma {:induction false} FollowedInSkel(s: Store, cool: set<nat>, places: map<Path, nat>, q: Path, x: Ref, v: Value,
                                          written: set<Path>, parts: Path)
    requires Skel(s, cool, places, q, x, v, written)
    ensures Found(s, cool, FollowRef(s, x, parts), Paths.Follow(v, parts), false)
    decreases |parts|
  {
    if !(v.Obj? && Hot(written, q)) {
      FollowStands(s, cool, x, v, parts);
    } else if parts != [] && parts[0] in v.fields {
      var k := parts[0];
      FollowedInSkel(s, cool, places, q + [k], s[x.addr].fields[k], v.fields[k], written, parts[1..]);
    }
  }

  /** What conditions see: the payload of the item. */
  lemma SeenStands(sc: Scene, c: Context, s: Store, all: set<nat>, seen: nat, x: Ref, index: nat, item: Value)
    requires Fits(sc, s) && Faces(sc, c, s, seen, x, index) && Near(sc) <= all && seen in all
    requires Stands(s, all, x, item)
    ensures Stands(s, all, At(seen), Obj(ItemPayload(c, item, index, sc.parentValue)))
  {
    SkelStands(s, sc.cool, sc.rootPlaces, [], At(sc.root), Obj(sc.payload), sc.rootWritten);
    SkelStands(s, sc.cool, sc.parentPlaces, [], sc.parent, sc.parentValue, sc.parentWritten);
    StandsStays(s, s, sc.cool + Cells(sc.parentPlaces), all, sc.parent, sc.parentValue);
    StandsStays(s, s, sc.cool + Cells(sc.rootPlaces), all, At(sc.root), Obj(sc.payload));
    var payload := ItemPayload(c, item, index, sc.parentValue);
    forall k | k in payload ensures Stands(s, all, s[seen].fields[k], payload[k]) {
      if k !in {"item", "index", "parent", "today", "end_of_current_month_plus_2"} {
        assert Stands(s, all, s[sc.root].fields[k], sc.payload[k]);
      }
    }
  }

  /** An item as the updates see it. */
  predicate Item(s: Store, cool: set<nat>, places: map<Path, nat>, a: nat, o: Object, written: set<Path>) {
    Placed(s, cool, places) && Skel(s, cool, places, [], At(a), Obj(o), written)
  }

  /** Where a path leads in the payload that the updates see: into the item, the outer item, a scalar, or the
      payload of the message. */
  lemma SeenWalk(c: Context, item: Value, index: nat, parent: Value, o: Object, parts: Paths.Parts)
    ensures var payload := Seen(ItemPayload(c, item, index, parent), o);
            Paths.Walk(Obj(payload), parts)
            == if parts[0] == "item" then Paths.Walk(Obj(o), parts[1..])
               else if parts[0] == "parent" then Paths.Walk(parent, parts[1..])
               else if parts[0] in {"index", "today", "end_of_current_month_plus_2"} then
                 Paths.Walk(payload[parts[0]], parts[1..])
               else Paths.Walk(Obj(c.payload), parts)
  {}

  lemma SeenGet(sc: Scene, c: Context, s: Store, seen: nat, a: nat, index: nat, parts: Paths.Parts)
    requires Faces(sc, c, s, seen, At(a), index)
    ensures GetRef(s, At(seen), parts)
            == if parts[0] == "item" then GetRef(s, At(a), parts[1..])
               else if parts[0] == "parent" then GetRef(s, sc.parent, parts[1..])
               else if parts[0] in {"index", "today", "end_of_current_month_plus_2"} then
                 GetRef(s, s[seen].fields[parts[0]], parts[1..])
               else GetRef(s, At(sc.root), parts)
  {}

  lemma ReadsFound(sc: Scene, c: Context, s: Store, cool: set<nat>, places: map<Path, nat>, a: nat, o: Object,
                   written: set<Path>, seen: nat, index: nat, item: Value, path: string)
    requires Fits(sc, s) && Faces(sc, c, s, seen, At(a), index) && sc.cool <= cool
    requires Skel(s, cool, places, [], At(a), Obj(o), written) && !Text.Blank(path)
    ensures Found(s, cool, GetRef(s, At(seen), Paths.Segments(path)),
                  Paths.GetPath(Seen(ItemPayload(c, item, index, sc.parentValue), o), path),
                  ReadsCool(Reach(sc.rootWritten, sc.parentWritten, written), Paths.Segments(path)))
  {
    var parts := Paths.Segments(path);
    var key, rest := parts[0], parts[1..];
    SeenWalk(c, item, index, sc.parentValue, o, parts);
    SeenGet(sc, c, s, seen, a, index, parts);
    if key == "item" {
      FoundInSkel(s, cool, cool, places, At(a), Obj(o), written, rest);
    } else if key == "parent" {
      FoundInSkel(s, sc.cool, cool, sc.parentPlaces, sc.parent, sc.parentValue, sc.parentWritten, rest);
    } else if key in {"index", "today", "end_of_current_month_plus_2"} {
      ScalarFound(s, cool, s[seen].fields[key], Seen(ItemPayload(c, item, index, sc.parentValue), o)[key], rest);
    } else {
      FoundInSkel(s, sc.cool, cool, sc.rootPlaces, At(sc.root), Obj(sc.payload), sc.rootWritten, parts);
    }
  }

  lemma ScalarFound(s: Store, cool: set<nat>, x: Ref, v: Value, parts: Path)
    requires x == Scalar(v) && (v.Num? || v.Str?)
    ensures Found(s, cool, GetRef(s, x, parts), Paths.Walk(v, parts), false)
  {}
}
