/** The item that a transform updates: a copy on the heap, into which the updates write by reference. */
module WorkingItems {
  import opened Prelude
  import opened Json
  import opened References
  import opened Aliasing
  import opened Heaps
  import opened Transforms
  import Paths
  import Text

  /** What is fixed about a working item: where it is, which payload it is seen through, and the first cell that is
      its own. */
  datatype Desk = Desk(scene: Scene, context: Context, base: nat, written: set<Path>, index: nat, item: Value,
                       addr: nat, seen: nat)
  {
    function Payload(): Object { ItemPayload(context, item, index, scene.parentValue) }

    function Reach(): Aliasing.Reach { Aliasing.Reach(scene.rootWritten, scene.parentWritten, written) }

    function Inner(fields: Object, cool: set<nat>, places: map<Path, nat>): Scene {
      Scene(scene.root, scene.payload, scene.rootPlaces, scene.rootWritten, At(addr), Obj(fields), places, written,
            cool)
    }
  }

  /** The item stands for these fields, and only its own cells are written to. */
  predicate Working(d: Desk, s: Store, fields: Object, cool: set<nat>, places: map<Path, nat>) {
    && d.base <= |s| && Fits(d.scene, s[..d.base])
    && Item(s, cool, places, d.addr, fields, d.written)
    && d.scene.cool <= cool && (forall a | a in cool :: a in d.scene.cool || d.base <= a)
    && (forall p | p in places :: d.base <= places[p] && places[p] != d.seen)
    && d.base <= d.seen && Faces(d.scene, d.context, s, d.seen, At(d.addr), d.index)
  }

  predicate BaseStays(n: nat, s: Store, s': Store) { n <= |s| <= |s'| && s'[..n] == s[..n] }

  lemma SceneFits(d: Desk, s: Store, fields: Object, cool: set<nat>, places: map<Path, nat>)
    requires Working(d, s, fields, cool, places)
    ensures Fits(d.scene, s)
  {
    FitsLater(d.scene, s[..d.base], s);
  }

  /** What a write into the item keeps. */
  lemma WriteKeeps(d: Desk, s: Store, s': Store, fields: Object, fields': Object, cool: set<nat>,
                   places: map<Path, nat>, places': map<Path, nat>)
    requires Working(d, s, fields, cool, places)
    requires Wrote(s, s', cool, places, places', [], d.addr, fields', d.written)
    ensures Working(d, s', fields', cool, places') && BaseStays(d.base, s, s')
  {
    assert forall c: nat | c < |s| && (c < d.base || c == d.seen) :: s'[c] == s[c];
    assert s'[..d.base] == s[..d.base];
    assert d.scene.root < d.base;
  }

  /** A write into the item, of a value whose way is cool, does to the cells what it does to the fields. */
  lemma WriteWorks(d: Desk, s: Store, fields: Object, cool: set<nat>, places: map<Path, nat>, path: string, x: Ref,
                   v: Value)
    returns (places': map<Path, nat>)
    requires Working(d, s, fields, cool, places) && Stands(s, cool, x, v)
    requires SegmentsOf(path) in d.written && (v.Obj? ==> !Hot(d.written, SegmentsOf(path)))
    ensures IsMap(s, At(d.addr)) && SetPathRef(s, d.addr, path, x).1 == Paths.SetPath(fields, path, v).1
    ensures var s' := SetPathRef(s, d.addr, path, x).0;
            Working(d, s', Paths.SetPath(fields, path, v).0, cool, places') && BaseStays(d.base, s, s')
  {
    places' := places;
    var parts := Paths.Segments(path);
    if !Text.Blank(parts[0]) {
      assert [] + parts == parts && [] + parts[..|parts| - 1] == parts[..|parts| - 1];
      assert [] < parts && parts[..|parts| - 1] < parts;
      places' := SetSkel(s, cool, places, [], d.addr, fields, d.written, parts, x, v);
      WriteKeeps(d, s, SetPathRef(s, d.addr, path, x).0, fields, Paths.SetPath(fields, path, v).0, cool, places,
                 places');
    }
  }

  /** New cells around the item. */
  lemma WorkGrows(d: Desk, s: Store, s': Store, fields: Object, cool: set<nat>, cool': set<nat>,
                  places: map<Path, nat>)
    requires Working(d, s, fields, cool, places) && s <= s' && cool <= cool'
    requires forall a | a in cool' :: a in cool || |s| <= a < |s'|
    ensures Working(d, s', fields, cool', places) && BaseStays(d.base, s, s')
  {
    SkelApart(s, s', cool, cool', places, places, [], At(d.addr), Obj(fields), d.written);
    assert s'[..d.base] == s[..d.base];
  }

  /** All cells that conditions may lead through. */
  function AllCells(d: Desk, cool: set<nat>, places: map<Path, nat>): set<nat> {
    Near(d.scene) + cool + Cells(places) + {d.seen}
  }

  lemma ItemStands(d: Desk, s: Store, fields: Object, cool: set<nat>, places: map<Path, nat>)
    requires Working(d, s, fields, cool, places)
    ensures Stands(s, AllCells(d, cool, places), At(d.addr), Obj(fields))
  {
    SkelStands(s, cool, places, [], At(d.addr), Obj(fields), d.written);
    StandsStays(s, s, cool + Cells(places), AllCells(d, cool, places), At(d.addr), Obj(fields));
  }

  lemma WorkingSeen(d: Desk, s: Store, fields: Object, cool: set<nat>, places: map<Path, nat>)
    requires Working(d, s, fields, cool, places)
    ensures Stands(s, AllCells(d, cool, places), At(d.seen), Obj(Seen(d.Payload(), fields)))
  {
    var all := AllCells(d, cool, places);
    SceneFits(d, s, fields, cool, places);
    ItemStands(d, s, fields, cool, places);
    SeenStands(d.scene, d.context, s, all, d.seen, At(d.addr), d.index, Obj(fields));
    assert ItemPayload(d.context, Obj(fields), d.index, d.scene.parentValue) == Seen(d.Payload(), fields);
  }

  /** The items of a nested transform are seen from the item as their parent. */
  lemma InnerFits(d: Desk, s: Store, fields: Object, cool: set<nat>, places: map<Path, nat>)
    requires Working(d, s, fields, cool, places)
    ensures Fits(d.Inner(fields, cool, places), s)
  {
    SceneFits(d, s, fields, cool, places);
    var sc := d.Inner(fields, cool, places);
    forall a | a in Near(sc) ensures a < |s| {
      if a in Cells(d.scene.rootPlaces) { assert a in Near(d.scene); }
    }
    SkelApart(s, s, d.scene.cool, cool, d.scene.rootPlaces, d.scene.rootPlaces, [], At(d.scene.root),
              Obj(d.scene.payload), d.scene.rootWritten);
  }

  class WorkingItem {
    const heap: Heap
    const addr: nat
    const seen: nat
    ghost const desk: Desk
    ghost var fields: Object
    ghost var cool: set<nat>
    ghost var places: map<Path, nat>

    ghost predicate Valid()
      reads this, heap
    {
      addr == desk.addr && seen == desk.seen && Working(desk, heap.store, fields, cool, places)
    }

    constructor (heap: Heap, addr: nat, seen: nat, ghost desk: Desk, ghost fields: Object, ghost cool: set<nat>,
                 ghost places: map<Path, nat>)
      requires addr == desk.addr && seen == desk.seen && Working(desk, heap.store, fields, cool, places)
      ensures Valid() && this.heap == heap && this.addr == addr && this.seen == seen && this.desk == desk
      ensures this.fields == fields && this.cool == cool && this.places == places
    {
      this.heap, this.addr, this.seen, this.desk := heap, addr, seen, desk;
      this.fields, this.cool, this.places := fields, cool, places;
    }

    /** evaluateArrayTransformCondition, on the payload as the item stands now. */
    method Judge(c: Context, condition: Value) returns (res: Result<bool, Problem>)
      requires Valid() && c == desk.context
      ensures res == Condition(c, Seen(desk.Payload(), fields), condition)
    {
      ghost var all, payload := AllCells(desk, cool, places), Obj(Seen(desk.Payload(), fields));
      WorkingSeen(desk, heap.store, fields, cool, places);
      var value := ReadRef(heap.store, At(seen), all, payload);
      res := Condition(c, value.fields, condition);
    }

    /** resolveTransformValue: what `from` finds, by reference, or the literal, by reference. */
    method Resolve(value: Value, literal: Ref) returns (x: Ref)
      requires Valid() && Stands(heap.store, desk.scene.cool, literal, value)
      requires var v := Transforms.Resolve(Seen(desk.Payload(), fields), value);
               v.Obj? && From(value).Some? ==> ReadsCool(desk.Reach(), Paths.Segments(From(value).value))
      ensures Stands(heap.store, cool, x, Transforms.Resolve(Seen(desk.Payload(), fields), value))
    {
      var from := From(value);
      if from.None? {
        StandsStays(heap.store, heap.store, desk.scene.cool, cool, literal, value);
        return literal;
      }
      if Text.Blank(from.value) {
        return Scalar(Null);
      }
      SceneFits(desk, heap.store, fields, cool, places);
      ReadsFound(desk.scene, desk.context, heap.store, cool, places, addr, fields, desk.written, seen, desk.index,
                 desk.item, from.value);
      var found := heap.GetPath(At(seen), Paths.Segments(from.value));
      x := found.Or(Scalar(Null));
    }

    /** setPayloadPath on the map of the item. */
    method SetPath(path: string, x: Ref, ghost v: Value) returns (err: Option<Problem>)
      requires Valid() && Stands(heap.store, cool, x, v)
      requires SegmentsOf(path) in desk.written && (v.Obj? ==> !Hot(desk.written, SegmentsOf(path)))
      modifies heap, this
      ensures Valid() && BaseStays(desk.base, old(heap.store), heap.store)
      ensures Agrees(Write(old(fields), path, v), err, fields)
    {
      places := WriteWorks(desk, heap.store, fields, cool, places, path, x, v);
      var e := heap.SetPath(addr, path, x);
      fields := Paths.SetPath(fields, path, v).0;
      err := if e.Some? then Some(BadWrite(path, e.value)) else None;
    }

    /** New cells, some of which values may lead through. */
    ghost method Grow(s: Store, cool': set<nat>)
      requires addr == desk.addr && seen == desk.seen && Working(desk, s, fields, cool, places)
      requires s <= heap.store && cool <= cool' && forall a | a in cool' :: a in cool || |s| <= a < |heap.store|
      modifies this`cool
      ensures Valid() && cool == cool'
    {
      WorkGrows(desk, s, heap.store, fields, cool, cool', places);
      cool := cool';
    }
  }

  /** A method that may have written half of its result before failing. */
  ghost predicate Agrees(r: Result<Object, Problem>, err: Option<Problem>, fields: Object) {
    if r.Ok? then err.None? && fields == r.value else err == Some(r.error)
  }
}
