/** What array_transform and filter_array guarantee. */
module TransformLaws {
  import opened Prelude
  import opened Json
  import opened Paths
  import opened Conditions
  import opened Transforms
  import Text

  // ----- Filtering keeps order -----

  /** The positions of the kept values. */
  predicate Picks<E>(rs: seq<Kept<E>>, kept: seq<Value>, at: seq<nat>) {
    && |at| == |kept|
    && (forall j, k | 0 <= j < k < |at| :: at[j] < at[k])
    && (forall k | 0 <= k < |at| :: at[k] < |rs| && rs[at[k]] == Ok(Some(kept[k])))
    && (forall i: nat | i < |rs| && i !in at :: rs[i] == Ok(None))
  }

  /** Collecting succeeds exactly when no item has a problem, and then returns every kept value once,
      in the order of the items. */
  lemma {:induction false} CollectPicks<E>(rs: seq<Kept<E>>) returns (at: seq<nat>)
    ensures Collect(rs).Ok? <==> AllOk(rs)
    ensures Collect(rs).Ok? ==> Picks(rs, Collect(rs).value, at)
  {
    at := [];
    if rs != [] {
      var last := |rs| - 1;
      at := CollectPicks(rs[..last]);
      AllOkStep(rs);
      if Collect(rs).Ok? && rs[last].value.Some? {
        at := at + [last];
      }
    }
  }

  predicate AllOk<E>(rs: seq<Kept<E>>) { forall i | 0 <= i < |rs| :: rs[i].Ok? }

  lemma AllOkStep<E>(rs: seq<Kept<E>>)
    requires rs != []
    ensures AllOk(rs) <==> AllOk(rs[..|rs| - 1]) && rs[|rs| - 1].Ok?
  {
    var front := rs[..|rs| - 1];
    assert forall i | 0 <= i < |front| :: front[i] == rs[i];
  }

  // ----- The order of the paths of a "set" object -----

  /** Which paths "from" may read while path is written to the item. */
  predicate Unread(path: string, from: string) {
    || Text.Blank(from)
    || Segments(from)[0] != "item"
    || Disjoint(Segments(path), Segments(from)[1..])
  }

  /** No path begins with another one, and no value is read from where a path writes. */
  predicate Independent(set_: Object) {
    && (forall p, q | p in set_ && q in set_ && p != q :: Disjoint(Segments(p), Segments(q)))
    && (forall p, k | p in set_ && k in set_ && From(set_[k]).Some? :: Unread(p, From(set_[k]).value))
  }

  predicate IsOrder(order: seq<string>, names: set<string>) {
    && (forall j, k | 0 <= j < k < |order| :: order[j] != order[k])
    && names == set k | k in order
  }

  /** Write fixed values in an order. */
  function Puts(item: Object, vals: Object, order: seq<string>): Option<Object>
    requires forall k | k in order :: k in vals
    decreases |order|
  {
    if order == [] then Some(item)
    else
      assert order[0] in order;
      match AsOption(Write(item, order[0], vals[order[0]]))
      case None => None
      case Some(item') => assert forall k | k in order[1..] :: k in order; Puts(item', vals, order[1..])
  }

  function AsOption<T, E>(r: Result<T, E>): Option<T> { if r.Ok? then Some(r.value) else None }

  /** Two writes, one after the other. */
  function Two(item: Object, p: string, v: Value, q: string, u: Value): Option<Object> {
    match AsOption(Write(item, p, v))
    case None => None
    case Some(item') => AsOption(Write(item', q, u))
  }

  lemma BelowSwap(o: Object, p: Parts, v: Value, q: Parts, u: Value)
    requires Disjoint(p, q)
    ensures var a, b := SetBelow(o, p, v), SetBelow(o, q, u);
            var ab, ba := SetBelow(a.0, q, u), SetBelow(b.0, p, v);
            && (a.1.None? && ab.1.None? <==> b.1.None? && ba.1.None?)
            && (a.1.None? && ab.1.None? ==> ab.0 == ba.0)
  {
    if SetBelow(o, p, v).1.None? { SuccessIsIndependent(o, p, v, q, u); }
    if SetBelow(o, q, u).1.None? { DisjointIsSymmetric(p, q); SuccessIsIndependent(o, q, u, p, v); }
    if SetBelow(o, p, v).1.None? && SetBelow(o, q, u).1.None? { WritesCommute(o, p, v, q, u); }
  }

  lemma WriteIsBelow(item: Object, p: string, v: Value)
    ensures AsOption(Write(item, p, v))
            == if Text.Blank(Segments(p)[0]) || SetBelow(item, Segments(p), v).1.Some? then None
               else Some(SetBelow(item, Segments(p), v).0)
  {}

  lemma WritesSwap(item: Object, p: string, v: Value, q: string, u: Value)
    requires Disjoint(Segments(p), Segments(q))
    ensures Two(item, p, v, q, u) == Two(item, q, u, p, v)
  {
    var ps, qs := Segments(p), Segments(q);
    BelowSwap(item, ps, v, qs, u);
    WriteIsBelow(item, p, v);
    WriteIsBelow(item, q, u);
    WriteIsBelow(SetBelow(item, ps, v).0, q, u);
    WriteIsBelow(SetBelow(item, qs, u).0, p, v);
  }

  lemma DisjointIsSymmetric(p: seq<string>, q: seq<string>)
    requires Disjoint(p, q)
    ensures Disjoint(q, p)
  {}

  predicate Apart(names: set<string>) {
    forall p, q | p in names && q in names && p != q :: Disjoint(Segments(p), Segments(q))
  }

  /** Any write can be moved to the front. */
  lemma {:induction false} MoveToFront(item: Object, vals: Object, pre: seq<string>, x: string, post: seq<string>)
    requires x in vals && x !in pre && Apart(vals.Keys)
    requires (forall k | k in pre :: k in vals) && (forall k | k in post :: k in vals)
    ensures Puts(item, vals, pre + [x] + post) == Puts(item, vals, [x] + (pre + post))
    decreases |pre|
  {
    if pre == [] {
      assert pre + [x] + post == [x] + (pre + post);
    } else {
      var y, rest := pre[0], pre[1..];
      assert y in pre && forall k | k in rest :: k in pre;
      Rotations(y, rest, x, post);
      assert pre == [y] + rest;
      PutsStep(item, vals, y, rest + [x] + post);
      PutsStep(item, vals, y, [x] + (rest + post));
      var w := AsOption(Write(item, y, vals[y]));
      if w.Some? {
        MoveToFront(w.value, vals, rest, x, post);
      }
      SwapHeads(item, vals, y, x, rest + post);
    }
  }

  lemma Rotations(y: string, rest: seq<string>, x: string, post: seq<string>)
    ensures ([y] + rest) + [x] + post == [y] + (rest + [x] + post)
    ensures [y] + ([x] + (rest + post)) == [y, x] + (rest + post)
    ensures [x] + (([y] + rest) + post) == [x, y] + (rest + post)
  {}

  lemma PutsStep(item: Object, vals: Object, y: string, rest: seq<string>)
    requires y in vals && forall k | k in rest :: k in vals
    ensures Puts(item, vals, [y] + rest)
            == match AsOption(Write(item, y, vals[y]))
               case None => None
               case Some(item') => Puts(item', vals, rest)
  {
    assert ([y] + rest)[1..] == rest;
  }

  lemma SwapHeads(item: Object, vals: Object, x: string, y: string, rest: seq<string>)
    requires x in vals && y in vals && x != y && Apart(vals.Keys)
    requires forall k | k in rest :: k in vals
    ensures Puts(item, vals, [x, y] + rest) == Puts(item, vals, [y, x] + rest)
  {
    TwoPuts(item, vals, x, y, rest);
    TwoPuts(item, vals, y, x, rest);
    WritesSwap(item, x, vals[x], y, vals[y]);
  }

  lemma TwoPuts(item: Object, vals: Object, x: string, y: string, rest: seq<string>)
    requires x in vals && y in vals && forall k | k in rest :: k in vals
    ensures Puts(item, vals, [x, y] + rest)
            == match Two(item, x, vals[x], y, vals[y])
               case None => None
               case Some(item') => Puts(item', vals, rest)
  {
    assert ([x, y] + rest)[1..] == [y] + rest && ([y] + rest)[1..] == rest;
  }

  /** Any name can come first. */
  lemma OneFirst(item: Object, vals: Object, names: set<string>, order: seq<string>, x: string)
    returns (rest: seq<string>)
    requires names <= vals.Keys && Apart(vals.Keys) && IsOrder(order, names) && x in names
    ensures IsOrder(rest, names - {x}) && (forall k | k in rest :: k in vals) && (forall k | k in order :: k in vals)
    ensures Puts(item, vals, order) == Puts(item, vals, [x] + rest)
  {
    var i :| 0 <= i < |order| && order[i] == x;
    var pre, post := order[..i], order[i + 1..];
    assert order == pre + [x] + post;
    RestIsOrder(pre, x, post, names);
    MoveToFront(item, vals, pre, x, post);
    rest := pre + post;
  }

  lemma {:induction false} PutsIgnoreOrder(item: Object, vals: Object, names: set<string>, a: seq<string>,
                                           b: seq<string>)
    requires names <= vals.Keys && Apart(vals.Keys) && IsOrder(a, names) && IsOrder(b, names)
    ensures (forall k | k in a :: k in vals) && (forall k | k in b :: k in vals)
    ensures Puts(item, vals, a) == Puts(item, vals, b)
    decreases |names|
  {
    if names == {} {
      if a != [] { HasNames(a); }
      if b != [] { HasNames(b); }
    } else {
      var x :| x in names;
      var c := OneFirst(item, vals, names, a, x);
      var d := OneFirst(item, vals, names, b, x);
      PutsStep(item, vals, x, c);
      PutsStep(item, vals, x, d);
      var w := AsOption(Write(item, x, vals[x]));
      if w.Some? {
        PutsIgnoreOrder(w.value, vals, names - {x}, c, d);
      }
    }
  }

  lemma HasNames(order: seq<string>)
    requires order != []
    ensures (set k | k in order) != {}
  {
    var names := set k | k in order;
    assert order[0] in order;
    assert order[0] in names;
  }

  lemma RestIsOrder(pre: seq<string>, x: string, post: seq<string>, names: set<string>)
    requires IsOrder(pre + [x] + post, names)
    ensures IsOrder(pre + post, names - {x}) && x in names && x !in pre
    ensures forall k | k in pre :: k in names
    ensures forall k | k in post :: k in names
  {
    var order, rest := pre + [x] + post, pre + post;
    assert order[|pre|] == x;
    assert forall k :: k in order <==> k == x || k in pre || k in post;
    forall k ensures k in rest ==> k != x {
      if k in rest {
        var j :| 0 <= j < |rest| && rest[j] == k;
        assert k == order[if j < |pre| then j else j + 1];
      }
    }
    assert forall k :: k in rest <==> k in pre || k in post;
    forall j, k | 0 <= j < k < |rest| ensures rest[j] != rest[k] {
      assert rest[j] == order[if j < |pre| then j else j + 1];
      assert rest[k] == order[if k < |pre| then k else k + 1];
    }
  }

  /** The values that a "set" object stands for, on an item. */
  function Values(payload: Object, item: Object, set_: Object): (vals: Object)
    ensures vals.Keys == set_.Keys
  {
    map k | k in set_ :: Resolve(Seen(payload, item), set_[k])
  }

  /** A walk that starts elsewhere, or goes on alike below, does not see a field change. */
  lemma WalkPastChange(o: Object, key: string, x: Value, y: Value, parts: seq<string>)
    requires parts != [] && (parts[0] == key ==> Walk(x, parts[1..]) == Walk(y, parts[1..]))
    ensures Walk(Obj(o[key := x]), parts) == Walk(Obj(o[key := y]), parts)
  {}

  lemma GetPastWrite(payload: Object, item: Object, path: string, v: Value, from: string)
    requires Write(item, path, v).Ok? && Unread(path, from)
    ensures GetPath(Seen(payload, Write(item, path, v).value), from) == GetPath(Seen(payload, item), from)
  {
    if !Text.Blank(from) {
      var parts, item' := Segments(from), Write(item, path, v).value;
      if parts[0] == "item" {
        WriteIsBelow(item, path, v);
        StrictFrame(item, Segments(path), v, parts[1..]);
      }
      WalkPastChange(payload, "item", Obj(item'), Obj(item), parts);
    }
  }

  /** A value that is not read from path does not change when path is written. */
  lemma ResolveIsStable(payload: Object, item: Object, path: string, v: Value, value: Value)
    requires Write(item, path, v).Ok? && (From(value).Some? ==> Unread(path, From(value).value))
    ensures Resolve(Seen(payload, Write(item, path, v).value), value) == Resolve(Seen(payload, item), value)
  {
    if From(value).Some? {
      GetPastWrite(payload, item, path, v, From(value).value);
    }
  }

  lemma ValuesAreStable(payload: Object, item: Object, set_: Object, path: string, v: Value)
    requires Independent(set_) && path in set_ && Write(item, path, v).Ok?
    ensures Values(payload, Write(item, path, v).value, set_) == Values(payload, item, set_)
  {
    forall k | k in set_
      ensures Resolve(Seen(payload, Write(item, path, v).value), set_[k]) == Resolve(Seen(payload, item), set_[k])
    {
      ResolveIsStable(payload, item, path, v, set_[k]);
    }
  }

  /** Writing an independent "set" object is writing the values it stands for at the start. */
  lemma {:induction false} WriteAllIsPuts(payload: Object, item: Object, set_: Object, order: seq<string>)
    requires Independent(set_) && forall k | k in order :: k in set_
    ensures AsOption(WriteAll(payload, item, set_, order)) == Puts(item, Values(payload, item, set_), order)
    decreases |order|
  {
    if order != [] {
      var k, vals := order[0], Values(payload, item, set_);
      assert k in order && forall j | j in order[1..] :: j in order;
      var w := Write(item, k, vals[k]);
      assert order == [k] + order[1..];
      PutsStep(item, vals, k, order[1..]);
      if w.Ok? {
        ValuesAreStable(payload, item, set_, k, vals[k]);
        WriteAllIsPuts(payload, w.value, set_, order[1..]);
      }
    }
  }

  /** Both succeed with the same result, or both fail; which problem is met first may differ. */
  predicate Same<T(==)>(a: Result<T, Problem>, b: Result<T, Problem>) { AsOption(a) == AsOption(b) }

  lemma WriteAllIgnoresOrder(payload: Object, item: Object, set_: Object, a: seq<string>, b: seq<string>)
    requires Independent(set_) && IsOrder(a, set_.Keys) && IsOrder(b, set_.Keys)
    ensures Same(WriteAll(payload, item, set_, a), WriteAll(payload, item, set_, b))
  {
    OrderNames(a, set_.Keys);
    OrderNames(b, set_.Keys);
    WriteAllIsPuts(payload, item, set_, a);
    WriteAllIsPuts(payload, item, set_, b);
    PutsIgnoreOrder(item, Values(payload, item, set_), set_.Keys, a, b);
  }

  lemma OrderNames(order: seq<string>, names: set<string>)
    requires IsOrder(order, names)
    ensures forall k | k in order :: k in names
  {}

  /** After a scalar is written to a path, no longer path can be written. */
  lemma {:induction false} ScalarBlocks(o: Object, p: Parts, v: Value, q: Parts, u: Value)
    requires p < q && !v.Obj? && SetBelow(o, p, v).1.None?
    ensures SetBelow(SetBelow(o, p, v).0, q, u).1.Some?
    decreases |p|
  {
    assert p[0] == q[0];
    if |p| > 1 {
      assert p[1..] < q[1..];
      ScalarBlocks(Child(o, p[0]), p[1..], v, q[1..], u);
    }
  }

  /** Every value is a literal, and not an object. */
  predicate Scalars(set_: Object) { forall k | k in set_ :: !set_[k].Obj? }

  /** Writing the paths gives one result, whatever their order. */
  ghost predicate OrderFree(payload: Object, item: Object, set_: Object) {
    forall a, b | IsOrder(a, set_.Keys) && IsOrder(b, set_.Keys) ::
      Same(WriteAll(payload, item, set_, a), WriteAll(payload, item, set_, b))
  }

  /** No order succeeds. */
  ghost predicate NeverSucceeds(payload: Object, item: Object, set_: Object) {
    forall a | IsOrder(a, set_.Keys) :: WriteAll(payload, item, set_, a).Err?
  }

  /** A "set" object of scalars does not depend on the order of its paths exactly when no path begins
      with another one, or no order succeeds. */
  lemma ScalarsOrderFree(payload: Object, item: Object, set_: Object)
    requires Scalars(set_)
    ensures OrderFree(payload, item, set_) <==> Apart(set_.Keys) || NeverSucceeds(payload, item, set_)
  {
    if Apart(set_.Keys) {
      forall a, b | IsOrder(a, set_.Keys) && IsOrder(b, set_.Keys)
        ensures Same(WriteAll(payload, item, set_, a), WriteAll(payload, item, set_, b))
      {
        WriteAllIgnoresOrder(payload, item, set_, a, b);
      }
    } else if !NeverSucceeds(payload, item, set_) {
      var a :| IsOrder(a, set_.Keys) && WriteAll(payload, item, set_, a).Ok?;
      var p, q :| p in set_ && q in set_ && p != q && !Disjoint(Segments(p), Segments(q));
      var b := PrefixFirst(payload, item, set_, a, p, q);
      assert !Same(WriteAll(payload, item, set_, a), WriteAll(payload, item, set_, b));
    }
  }

  /** An order that fails: a path, then one that begins with it, then the others. */
  lemma PrefixFirst(payload: Object, item: Object, set_: Object, a: seq<string>, p: string, q: string)
    returns (b: seq<string>)
    requires Scalars(set_) && IsOrder(a, set_.Keys)
    requires p in set_ && q in set_ && p != q && !Disjoint(Segments(p), Segments(q))
    ensures IsOrder(b, set_.Keys) && WriteAll(payload, item, set_, b).Err?
  {
    var x, y := if Segments(p) <= Segments(q) then p else q, if Segments(p) <= Segments(q) then q else p;
    DifferentSegments(x, y);
    var rest := TwoFirst(a, x, y, set_.Keys);
    b := [x] + ([y] + rest);
    BlockedFails(payload, item, set_, x, y, rest);
  }

  lemma DifferentSegments(x: string, y: string)
    requires x != y
    ensures Segments(x) != Segments(y)
  {
    Text.JoinSplit(x, '.');
    Text.JoinSplit(y, '.');
  }

  /** Two names can come first. */
  lemma TwoFirst(order: seq<string>, x: string, y: string, names: set<string>) returns (rest: seq<string>)
    requires IsOrder(order, names) && x in names && y in names && x != y
    ensures IsOrder([x] + ([y] + rest), names)
  {
    rest := Drop(order, x, names);
    rest := Drop(rest, y, names - {x});
    Put(y, rest, names - {x});
    Put(x, [y] + rest, names);
  }

  /** An order without one of its names. */
  lemma Drop(order: seq<string>, x: string, names: set<string>) returns (rest: seq<string>)
    requires IsOrder(order, names) && x in names
    ensures IsOrder(rest, names - {x})
  {
    var i :| 0 <= i < |order| && order[i] == x;
    assert order == order[..i] + [x] + order[i + 1..];
    RestIsOrder(order[..i], x, order[i + 1..], names);
    rest := order[..i] + order[i + 1..];
  }

  lemma Put(x: string, rest: seq<string>, names: set<string>)
    requires IsOrder(rest, names - {x}) && x in names
    ensures IsOrder([x] + rest, names)
  {
    var order := [x] + rest;
    var left := set k | k in rest;
    assert forall k :: k in left <==> k in rest;
    assert forall k :: k in order <==> k == x || k in left;
    assert names == set k | k in order;
    assert forall j | 0 < j < |order| :: order[j] == rest[j - 1] && rest[j - 1] in left;
  }

  lemma BlockedFails(payload: Object, item: Object, set_: Object, x: string, y: string, rest: seq<string>)
    requires x in set_ && y in set_ && Segments(x) < Segments(y) && !set_[x].Obj?
    ensures WriteAll(payload, item, set_, [x] + ([y] + rest)).Err?
  {
    assert ([x] + ([y] + rest))[1..] == [y] + rest;
    var first := Write(item, x, set_[x]);
    if first.Ok? {
      ScalarBlocks(item, Segments(x), set_[x], Segments(y), Resolve(Seen(payload, first.value), set_[y]));
    }
  }

  // ----- Values that are read from the item -----

  /** Writing a value to a path does not change what another value stands for. */
  predicate Unmoved(payload: Object, item: Object, path: string, v: Value, other: Value) {
    Write(item, path, v).Ok? ==>
      Resolve(Seen(payload, Write(item, path, v).value), other) == Resolve(Seen(payload, item), other)
  }

  predicate PairsUnmoved(payload: Object, item: Object, set_: Object, vals: Object, names: set<string>)
    requires names <= set_.Keys && names <= vals.Keys
  {
    forall p, k | p in names && k in names && p != k :: Unmoved(payload, item, p, vals[p], set_[k])
  }

  lemma {:induction false} WalkOn(v: Value, p: seq<string>, q: seq<string>)
    ensures Walk(v, p + q) == match Walk(v, p) case None => None case Some(u) => Walk(u, q)
    decreases |p|
  {
    if p == [] {
      assert p + q == q;
    } else if v.Obj? && p[0] in v.fields {
      assert (p + q)[1..] == p[1..] + q;
      WalkOn(v.fields[p[0]], p[1..], q);
    }
  }

  /** Writing what is there already changes nothing. */
  lemma {:induction false} WriteAgain(o: Object, parts: Parts, v: Value)
    requires Walk(Obj(o), parts) == Some(v)
    ensures SetBelow(o, parts, v).0 == o
    decreases |parts|
  {
    if |parts| == 1 {
      assert parts[1..] == [];
      assert o[parts[0] := v] == o;
    } else if o[parts[0]].Obj? {
      WriteAgain(o[parts[0]].fields, parts[1..], v);
      assert o[parts[0] := o[parts[0]]] == o;
    }
  }

  function Read(item: Object, r: seq<string>): Value { Walk(Obj(item), r).Or(Null) }

  /** A read that neither of two writes moves is not moved by the second after the first. */
  lemma ReadStays(o: Object, p: Parts, v: Value, q: Parts, u: Value, r: seq<string>)
    requires Disjoint(p, q) && SetBelow(o, p, v).1.None? && SetBelow(o, q, u).1.None?
    requires Read(SetBelow(o, p, v).0, r) == Read(o, r) == Read(SetBelow(o, q, u).0, r)
    ensures Read(SetBelow(SetBelow(o, p, v).0, q, u).0, r) == Read(o, r)
  {
    var op, oq := SetBelow(o, p, v).0, SetBelow(o, q, u).0;
    SuccessIsIndependent(o, p, v, q, u);
    if Disjoint(q, r) {
      StrictFrame(op, q, u, r);
    } else if q <= r {
      var rest := r[|q|..];
      assert r == q + rest;
      StrictReadBack(op, q, u);
      StrictReadBack(o, q, u);
      WalkOn(Obj(SetBelow(op, q, u).0), q, rest);
      WalkOn(Obj(oq), q, rest);
    } else {
      var rest := q[|r|..];
      assert q == r + rest;
      StrictReadBack(o, q, u);
      WalkOn(Obj(oq), r, rest);
      WalkOn(Obj(o), r, rest);
      HasDeeper(oq, r, rest, u);
      DisjointIsSymmetric(p, q);
      StrictFrame(o, p, v, q);
      WriteAgain(op, q, u);
    }
  }

  lemma HasDeeper(o: Object, r: seq<string>, rest: seq<string>, u: Value)
    requires Walk(Obj(o), r + rest) == Some(u) && rest != []
    ensures Walk(Obj(o), r).Some? && Walk(Obj(o), r).value.Obj?
  {
    WalkOn(Obj(o), r, rest);
  }

  /** What a value stands for, by where it is read from. */
  function ReadBy(payload: Object, item: Object, value: Value): Value {
    if From(value).None? then value
    else if Text.Blank(From(value).value) then Null
    else
      var parts := Segments(From(value).value);
      if parts[0] == "item" then Read(item, parts[1..]) else Walk(Obj(payload), parts).Or(Null)
  }

  lemma ResolveReads(payload: Object, item: Object, value: Value)
    ensures Resolve(Seen(payload, item), value) == ReadBy(payload, item, value)
  {}

  lemma TwoUnmoved(payload: Object, item: Object, p: string, v: Value, q: string, u: Value, other: Value)
    requires Disjoint(Segments(p), Segments(q)) && Write(item, p, v).Ok?
    requires Unmoved(payload, item, p, v, other) && Unmoved(payload, item, q, u, other)
    ensures Unmoved(payload, Write(item, p, v).value, q, u, other)
  {
    var ps, qs, item1 := Segments(p), Segments(q), Write(item, p, v).value;
    WriteIsBelow(item, p, v);
    WriteIsBelow(item, q, u);
    WriteIsBelow(item1, q, u);
    if Write(item1, q, u).Ok? {
      SuccessIsIndependent(item, ps, v, qs, u);
      ResolveReads(payload, item, other);
      ResolveReads(payload, item1, other);
      ResolveReads(payload, Write(item, q, u).value, other);
      ResolveReads(payload, Write(item1, q, u).value, other);
      if From(other).Some? && !Text.Blank(From(other).value) && Segments(From(other).value)[0] == "item" {
        ReadStays(item, ps, v, qs, u, Segments(From(other).value)[1..]);
      }
    }
  }

  /** If no path begins another and the values do not move each other, then writing the paths is writing the values
      that they stand for at the start. */
  lemma {:induction false} UnmovedIsPuts(payload: Object, item: Object, set_: Object, vals: Object, order: seq<string>,
                                         names: set<string>)
    requires vals.Keys == set_.Keys && names <= set_.Keys && Apart(set_.Keys) && IsOrder(order, names)
    requires forall k | k in names :: vals[k] == Resolve(Seen(payload, item), set_[k])
    requires PairsUnmoved(payload, item, set_, vals, names)
    ensures forall k | k in order :: k in vals
    ensures AsOption(WriteAll(payload, item, set_, order)) == Puts(item, vals, order)
    decreases |order|
  {
    OrderNames(order, names);
    if order != [] {
      var x, rest := order[0], order[1..];
      assert x in order && order == [x] + rest;
      TailOrder(x, rest, names);
      PutsStep(item, vals, x, rest);
      WriteAllStep(payload, item, set_, x, rest);
      var w := Write(item, x, vals[x]);
      if w.Ok? {
        forall k | k in names - {x} ensures vals[k] == Resolve(Seen(payload, w.value), set_[k]) {
          assert Unmoved(payload, item, x, vals[x], set_[k]);
        }
        forall q, k | q in names - {x} && k in names - {x} && q != k
          ensures Unmoved(payload, w.value, q, vals[q], set_[k])
        {
          TwoUnmoved(payload, item, x, vals[x], q, vals[q], set_[k]);
        }
        UnmovedIsPuts(payload, w.value, set_, vals, rest, names - {x});
      }
    }
  }

  lemma TailOrder(x: string, rest: seq<string>, names: set<string>)
    requires IsOrder([x] + rest, names)
    ensures IsOrder(rest, names - {x}) && forall k | k in rest :: k in names
  {
    assert [x] + rest == [] + [x] + rest && rest == [] + rest;
    RestIsOrder([], x, rest, names);
  }

  lemma WriteAllStep(payload: Object, item: Object, set_: Object, k: string, rest: seq<string>)
    requires k in set_
    ensures var w := Write(item, k, Resolve(Seen(payload, item), set_[k]));
            WriteAll(payload, item, set_, [k] + rest)
            == if w.Ok? then WriteAll(payload, w.value, set_, rest) else Err(w.error)
  {
    assert ([k] + rest)[1..] == rest;
  }

  /** What is written stays, when the paths that are written later are disjoint. */
  lemma {:induction false} WrittenStays(payload: Object, item: Object, set_: Object, order: seq<string>, k: string)
    requires forall j | j in order :: j in set_ && Disjoint(Segments(j), Segments(k))
    requires WriteAll(payload, item, set_, order).Ok?
    ensures Walk(Obj(WriteAll(payload, item, set_, order).value), Segments(k)) == Walk(Obj(item), Segments(k))
    decreases |order|
  {
    if order != [] {
      var x, rest := order[0], order[1..];
      assert x in order && order == [x] + rest && forall j | j in rest :: j in order;
      WriteAllStep(payload, item, set_, x, rest);
      var v := Resolve(Seen(payload, item), set_[x]);
      WriteIsBelow(item, x, v);
      StrictFrame(item, Segments(x), v, Segments(k));
      WrittenStays(payload, Write(item, x, v).value, set_, rest, k);
    }
  }

  /** The first of an order holds at the end what it stood for at the start. */
  lemma FirstHolds(payload: Object, item: Object, set_: Object, k: string, rest: seq<string>)
    requires k in set_ && Apart(set_.Keys) && IsOrder([k] + rest, set_.Keys)
    requires WriteAll(payload, item, set_, [k] + rest).Ok?
    ensures Walk(Obj(WriteAll(payload, item, set_, [k] + rest).value), Segments(k))
            == Some(Resolve(Seen(payload, item), set_[k]))
  {
    var v := Resolve(Seen(payload, item), set_[k]);
    WriteAllStep(payload, item, set_, k, rest);
    WriteIsBelow(item, k, v);
    StrictReadBack(item, Segments(k), v);
    TailOrder(k, rest, set_.Keys);
    forall j | j in rest ensures j in set_ && Disjoint(Segments(j), Segments(k)) {
      assert j in set_.Keys - {k} by { OrderNames(rest, set_.Keys - {k}); }
    }
    WrittenStays(payload, Write(item, k, v).value, set_, rest, k);
  }

  /** If no path begins another, all orders agree exactly when no order succeeds or no write moves the value of
      another path, on the item as it was. */
  lemma ReadsOrderFree(payload: Object, item: Object, set_: Object)
    requires Apart(set_.Keys)
    ensures OrderFree(payload, item, set_) <==>
            || NeverSucceeds(payload, item, set_)
            || PairsUnmoved(payload, item, set_, Values(payload, item, set_), set_.Keys)
  {
    var vals := Values(payload, item, set_);
    if PairsUnmoved(payload, item, set_, vals, set_.Keys) {
      forall a, b | IsOrder(a, set_.Keys) && IsOrder(b, set_.Keys)
        ensures Same(WriteAll(payload, item, set_, a), WriteAll(payload, item, set_, b))
      {
        UnmovedIsPuts(payload, item, set_, vals, a, set_.Keys);
        UnmovedIsPuts(payload, item, set_, vals, b, set_.Keys);
        PutsIgnoreOrder(item, vals, set_.Keys, a, b);
      }
    } else if OrderFree(payload, item, set_) && !NeverSucceeds(payload, item, set_) {
      var a :| IsOrder(a, set_.Keys) && WriteAll(payload, item, set_, a).Ok?;
      var p, k :| p in set_ && k in set_ && p != k && !Unmoved(payload, item, p, vals[p], set_[k]);
      AgreesOnMoved(payload, item, set_, a, p, k);
    }
  }

  lemma AgreesOnMoved(payload: Object, item: Object, set_: Object, a: seq<string>, p: string, k: string)
    requires Apart(set_.Keys) && OrderFree(payload, item, set_) && p in set_ && k in set_ && p != k
    requires IsOrder(a, set_.Keys) && WriteAll(payload, item, set_, a).Ok?
    ensures Unmoved(payload, item, p, Values(payload, item, set_)[p], set_[k])
    ensures Write(item, p, Resolve(Seen(payload, item), set_[p])).Ok?
  {
    var rest := TwoFirst(a, p, k, set_.Keys);
    var others := TwoFirst(a, k, p, set_.Keys);
    AnyOrder(payload, item, set_, a, [k] + ([p] + others));
    AnyOrder(payload, item, set_, a, [p] + ([k] + rest));
    FirstHolds(payload, item, set_, k, [p] + others);
    SecondHolds(payload, item, set_, p, k, rest);
  }

  lemma AnyOrder(payload: Object, item: Object, set_: Object, a: seq<string>, b: seq<string>)
    requires OrderFree(payload, item, set_) && IsOrder(a, set_.Keys) && IsOrder(b, set_.Keys)
    requires WriteAll(payload, item, set_, a).Ok?
    ensures WriteAll(payload, item, set_, b) == WriteAll(payload, item, set_, a)
  {
    assert Same(WriteAll(payload, item, set_, a), WriteAll(payload, item, set_, b));
  }

  lemma SecondHolds(payload: Object, item: Object, set_: Object, p: string, k: string, rest: seq<string>)
    requires p in set_ && k in set_ && p != k && Apart(set_.Keys) && IsOrder([p] + ([k] + rest), set_.Keys)
    requires WriteAll(payload, item, set_, [p] + ([k] + rest)).Ok?
    ensures var first := Write(item, p, Resolve(Seen(payload, item), set_[p]));
            && first.Ok?
            && Walk(Obj(WriteAll(payload, item, set_, [p] + ([k] + rest)).value), Segments(k))
               == Some(Resolve(Seen(payload, first.value), set_[k]))
  {
    WriteAllStep(payload, item, set_, p, [k] + rest);
    var item1 := Write(item, p, Resolve(Seen(payload, item), set_[p])).value;
    var v := Resolve(Seen(payload, item1), set_[k]);
    WriteAllStep(payload, item1, set_, k, rest);
    WriteIsBelow(item1, k, v);
    StrictReadBack(item1, Segments(k), v);
    TailOrder(p, [k] + rest, set_.Keys);
    TailOrder(k, rest, set_.Keys - {p});
    forall j | j in rest ensures j in set_ && Disjoint(Segments(j), Segments(k)) {
      assert j in set_.Keys - {p} - {k} by { OrderNames(rest, set_.Keys - {p} - {k}); }
    }
    WrittenStays(payload, Write(item1, k, v).value, set_, rest, k);
  }

  /** In particular a value that is read from where a literal is written: the orders differ unless no order succeeds
      or the item already holds the literal there. */
  lemma ReadOfWrittenPath(payload: Object, item: Object, set_: Object, p: string, q: string, from: string)
    requires Apart(set_.Keys) && p in set_ && q in set_ && p != q && From(set_[p]).None?
    requires From(set_[q]) == Some(from) && !Text.Blank(from) && Segments(from) == ["item"] + Segments(p)
    requires OrderFree(payload, item, set_)
    ensures NeverSucceeds(payload, item, set_) || Read(item, Segments(p)) == set_[p]
  {
    if !NeverSucceeds(payload, item, set_) {
      var a :| IsOrder(a, set_.Keys) && WriteAll(payload, item, set_, a).Ok?;
      AgreesOnMoved(payload, item, set_, a, p, q);
      LiteralIsRead(payload, item, p, set_[p], set_[q], from);
    }
  }

  lemma LiteralIsRead(payload: Object, item: Object, p: string, v: Value, other: Value, from: string)
    requires From(other) == Some(from) && !Text.Blank(from) && Segments(from) == ["item"] + Segments(p)
    requires Write(item, p, v).Ok?
    ensures Resolve(Seen(payload, Write(item, p, v).value), other) == v
    ensures Resolve(Seen(payload, item), other) == Read(item, Segments(p))
  {
    WriteIsBelow(item, p, v);
    StrictReadBack(item, Segments(p), v);
    assert Segments(from)[1..] == Segments(p);
    ResolveReads(payload, item, other);
    ResolveReads(payload, Write(item, p, v).value, other);
  }

  // ----- The whole transform -----

  predicate IndependentUpdate(update: Value) {
    update.Obj? && "set" in update.fields && update.fields["set"].Obj? ==> Independent(update.fields["set"].fields)
  }

  /** Every "set" object of the configuration, nested ones included, is independent. */
  predicate AllIndependent(params: Value)
    requires params.Obj?
    decreases params, 1
  {
    && ("updates" in params.fields && params.fields["updates"].Arr? ==>
          forall i | 0 <= i < |params.fields["updates"].items| :: IndependentUpdate(params.fields["updates"].items[i]))
    && ("nested" in params.fields && params.fields["nested"].Arr? ==> NestedIndependent(params.fields["nested"]))
  }

  predicate NestedIndependent(list: Value)
    requires list.Arr?
    decreases list, 0
  {
    forall i | 0 <= i < |list.items| && list.items[i].Obj? :: AllIndependent(list.items[i])
  }

  /** Each iteration visits each path once. */
  ghost predicate Fair(ord: Orders) { forall site, set_ :: IsOrder(ord(site, set_), set_.Keys) }

  lemma UpdateIgnoresOrder(c: Context, a: Orders, b: Orders, site: seq<nat>, payload: Object, item: Object,
                           update: Value, index: nat)
    requires Fair(a) && Fair(b) && IndependentUpdate(update)
    ensures Same(Update(c, a, site, payload, item, update, index), Update(c, b, site, payload, item, update, index))
  {
    if update.Obj? && "set" in update.fields && update.fields["set"].Obj? {
      var set_, at := update.fields["set"].fields, site + [0, index];
      assert IsOrder(a(at, set_), set_.Keys) && IsOrder(b(at, set_), set_.Keys);
      WriteAllIgnoresOrder(payload, item, set_, a(at, set_), b(at, set_));
    }
  }

  lemma {:induction false} UpdatesIgnoreOrder(
    c: Context, a: Orders, b: Orders, site: seq<nat>, payload: Object, item: Object, updates: seq<Value>, n: nat)
    requires Fair(a) && Fair(b) && n <= |updates| && forall i | 0 <= i < |updates| :: IndependentUpdate(updates[i])
    ensures Same(Updates(c, a, site, payload, item, updates, n), Updates(c, b, site, payload, item, updates, n))
    decreases |updates| - n
  {
    if n < |updates| {
      UpdateIgnoresOrder(c, a, b, site, payload, item, updates[n], n);
      var first := Update(c, a, site, payload, item, updates[n], n);
      if first.Ok? {
        UpdatesIgnoreOrder(c, a, b, site, payload, first.value, updates, n + 1);
      }
    }
  }

  lemma ApplyUpdatesIgnoresOrder(
    c: Context, a: Orders, b: Orders, site: seq<nat>, payload: Object, item: Object, params: Value)
    requires Fair(a) && Fair(b) && params.Obj? && AllIndependent(params)
    ensures Same(ApplyUpdates(c, a, site, payload, item, params.fields),
                 ApplyUpdates(c, b, site, payload, item, params.fields))
  {
    if "updates" in params.fields && params.fields["updates"].Arr? {
      var updates := params.fields["updates"].items;
      UpdatesIgnoreOrder(c, a, b, site, payload, item, updates, 0);
    }
  }

  lemma {:induction false} CollectSame(xs: seq<Kept<Problem>>, ys: seq<Kept<Problem>>)
    requires |xs| == |ys| && forall i | 0 <= i < |xs| :: Same(xs[i], ys[i])
    ensures Same(Collect(xs), Collect(ys))
  {
    if xs != [] {
      var last := |xs| - 1;
      CollectSame(xs[..last], ys[..last]);
      assert Same(xs[last], ys[last]);
    }
  }

  /** The result of a transform does not depend on the order in which Go iterates any of its maps. */
  lemma {:induction false} TransformIgnoresOrder(
    c: Context, a: Orders, b: Orders, site: seq<nat>, items: seq<Value>, params: Value, parent: Value)
    requires Fair(a) && Fair(b) && params.Obj? && AllIndependent(params)
    ensures Same(Transform(c, a, site, items, params, parent), Transform(c, b, site, items, params, parent))
    decreases params, 3
  {
    var xs := seq(|items|, k requires 0 <= k < |items| => TransformItem(c, a, site + [k], items[k], k, params, parent));
    var ys := seq(|items|, k requires 0 <= k < |items| => TransformItem(c, b, site + [k], items[k], k, params, parent));
    forall k | 0 <= k < |items| ensures Same(xs[k], ys[k]) {
      ItemIgnoresOrder(c, a, b, site + [k], items[k], k, params, parent);
    }
    CollectSame(xs, ys);
  }

  lemma {:induction false} ItemIgnoresOrder(
    c: Context, a: Orders, b: Orders, site: seq<nat>, item: Value, index: nat, params: Value, parent: Value)
    requires Fair(a) && Fair(b) && params.Obj? && AllIndependent(params)
    ensures Same(TransformItem(c, a, site, item, index, params, parent),
                 TransformItem(c, b, site, item, index, params, parent))
    decreases params, 2
  {
    var payload := ItemPayload(c, item, index, parent);
    if Keeps(c, payload, params.fields) == Ok(true) && item.Obj? {
      ApplyUpdatesIgnoresOrder(c, a, b, site, payload, item.fields, params);
      var updated := ApplyUpdates(c, a, site, payload, item.fields, params.fields);
      if updated.Ok? {
        ApplyNestedIgnoresOrder(c, a, b, site, updated.value, params);
      }
    }
  }

  lemma {:induction false} ApplyNestedIgnoresOrder(c: Context, a: Orders, b: Orders, site: seq<nat>, item: Object,
                                                   params: Value)
    requires Fair(a) && Fair(b) && params.Obj? && AllIndependent(params)
    ensures Same(ApplyNested(c, a, site, item, params), ApplyNested(c, b, site, item, params))
    decreases params, 1
  {
    if "nested" in params.fields && params.fields["nested"].Arr? {
      var list := params.fields["nested"];
      NestedIgnoresOrder(c, a, b, site, item, list, 0);
    }
  }

  lemma {:induction false} NestedIgnoresOrder(c: Context, a: Orders, b: Orders, site: seq<nat>, item: Object,
                                              list: Value, n: nat)
    requires Fair(a) && Fair(b) && list.Arr? && n <= |list.items| && NestedIndependent(list)
    ensures Same(Nested(c, a, site, item, list, n), Nested(c, b, site, item, list, n))
    decreases list, |list.items| - n
  {
    if n < |list.items| {
      NestedOneIgnoresOrder(c, a, b, site + [1, n], item, list.items[n], n);
      var first := NestedOne(c, a, site + [1, n], item, list.items[n], n);
      if first.Ok? {
        NestedIgnoresOrder(c, a, b, site, first.value, list, n + 1);
      }
    }
  }

  lemma {:induction false} NestedOneIgnoresOrder(c: Context, a: Orders, b: Orders, site: seq<nat>, item: Object,
                                                 cfg: Value, index: nat)
    requires Fair(a) && Fair(b) && (cfg.Obj? ==> AllIndependent(cfg))
    ensures Same(NestedOne(c, a, site, item, cfg, index), NestedOne(c, b, site, item, cfg, index))
    decreases cfg, 4
  {
    if cfg.Obj? {
      var raw := GetPath(item, Source(cfg.fields));
      if raw.Some? && raw.value.Arr? {
        TransformIgnoresOrder(c, a, b, site, raw.value.items, cfg, Obj(item));
      }
    }
  }

  // ----- The payload after the handlers -----

  /** A source that is disjoint from the target and is not hidden by the counter reads as before, whatever
      the outcome. */
  lemma SourceSurvives(c: Context, ord: Orders, params: Object)
    requires var source := Param(params, "source");
             var target := TargetOf(params, source);
             !Text.Blank(source) && Disjoint(Segments(target), Segments(source))
             && Segments(source)[0] != target + "_transformed_count"
    ensures MessagePath(HandleTransform(c, ord, params).payload, Param(params, "source"))
            == MessagePath(c.payload, Param(params, "source"))
  {
    var source := Param(params, "source");
    var target := TargetOf(params, source);
    var raw := MessagePath(c.payload, source);
    if raw.Some? && raw.value.Arr? {
      var res := Transform(c, ord, [], raw.value.items, Obj(params), Null);
      if res.Ok? { StoreKeeps(c.payload, target, res.value, source); }
    }
  }

  lemma StoreKeeps(payload: Object, target: string, done: seq<Value>, path: string)
    requires path != "" && Disjoint(Segments(target), Segments(path))
    requires Segments(path)[0] != target + "_transformed_count"
    ensures MessagePath(StoreTransformed(payload, target, done).payload, path) == MessagePath(payload, path)
  {
    StrictFollowFrame(payload, Segments(target), Arr(done), Segments(path));
  }

  /** On success the target reads as the transformed items, and the counter as their number. */
  lemma ResultIsReadBack(payload: Object, target: string, done: seq<Value>)
    requires StoreTransformed(payload, target, done).err.None? && !Text.Blank(target)
    ensures var payload' := StoreTransformed(payload, target, done).payload;
            && GetPath(payload', target) == Some(Arr(done))
            && payload'[target + "_transformed_count"] == Count(|done|)
  {
    var parts := Segments(target);
    StrictReadBack(payload, parts, Arr(done));
    FirstSegmentIsShort(target);
  }

  lemma FirstSegmentIsShort(path: string)
    ensures |Segments(path)[0]| <= |path|
  {}

  lemma {:induction false} FewPicks(at: seq<nat>, n: nat)
    requires (forall j, k | 0 <= j < k < |at| :: at[j] < at[k]) && forall k | 0 <= k < |at| :: at[k] < n
    ensures |at| <= n
  {
    if at != [] {
      FewPicks(at[..|at| - 1], at[|at| - 1]);
    }
  }
}
