/** Maps and arrays as Go has them: cells of a store, held by reference. A reference stands for a JSON value
    when what it leads to unfolds to that value; shared cells are allowed, cycles unfold to nothing. */
module References {
  import opened Prelude
  import opened Json
  import Paths
  import Text

  datatype Ref = Scalar(value: Value) | At(addr: nat)

  datatype Cell = MapCell(fields: map<string, Ref>) | ArrCell(items: seq<Ref>)

  type Store = seq<Cell>

  type Path = seq<string>

  predicate IsMap(s: Store, x: Ref) { x.At? && x.addr < |s| && s[x.addr].MapCell? }

  predicate IsArr(s: Store, x: Ref) { x.At? && x.addr < |s| && s[x.addr].ArrCell? }

  /** The reference leads to this value, and through these cells only. */
  predicate Stands(s: Store, cool: set<nat>, x: Ref, v: Value)
    decreases v
  {
    match v
    case Obj(o) =>
      && IsMap(s, x) && x.addr in cool && s[x.addr].fields.Keys == o.Keys
      && forall k | k in o :: Stands(s, cool, s[x.addr].fields[k], o[k])
    case Arr(items) =>
      && IsArr(s, x) && x.addr in cool && |s[x.addr].items| == |items|
      && forall i | 0 <= i < |items| :: Stands(s, cool, s[x.addr].items[i], items[i])
    case _ => x == Scalar(v)
  }

  /** A reference stands for one value at most. */
  lemma {:induction false} StandsForOne(s: Store, a: set<nat>, b: set<nat>, x: Ref, v: Value, w: Value)
    requires Stands(s, a, x, v) && Stands(s, b, x, w)
    ensures v == w
    decreases v
  {
    match v
    case Obj(o) =>
      forall k | k in o ensures o[k] == w.fields[k] {
        StandsForOne(s, a, b, s[x.addr].fields[k], o[k], w.fields[k]);
      }
      assert o == w.fields;
    case Arr(items) =>
      forall i | 0 <= i < |items| ensures items[i] == w.items[i] {
        StandsForOne(s, a, b, s[x.addr].items[i], items[i], w.items[i]);
      }
      assert items == w.items;
    case _ =>
  }

  /** These cells are the same in both stores. */
  predicate SameCells(s: Store, s': Store, cool: set<nat>) {
    |s| <= |s'| && forall a | a in cool && a < |s| :: s'[a] == s[a]
  }

  /** A value stays when the cells on its way do. */
  lemma {:induction false} StandsStays(s: Store, s': Store, cool: set<nat>, cool': set<nat>, x: Ref, v: Value)
    requires Stands(s, cool, x, v) && SameCells(s, s', cool) && cool <= cool'
    ensures Stands(s', cool', x, v)
    decreases v
  {
    match v
    case Obj(o) =>
      forall k | k in o ensures Stands(s', cool', s[x.addr].fields[k], o[k]) {
        StandsStays(s, s', cool, cool', s[x.addr].fields[k], o[k]);
      }
    case Arr(items) =>
      forall i | 0 <= i < |items| ensures Stands(s', cool', s[x.addr].items[i], items[i]) {
        StandsStays(s, s', cool, cool', s[x.addr].items[i], items[i]);
      }
    case _ =>
  }

  // ----- Reading -----

  /** The value that a reference stands for. */
  function ReadRef(s: Store, x: Ref, ghost cool: set<nat>, ghost v: Value): (r: Value)
    requires Stands(s, cool, x, v)
    ensures r == v
    decreases v
  {
    match x
    case Scalar(u) => u
    case At(a) =>
      match s[a]
      case MapCell(fields) => Obj(map k | k in fields :: ReadRef(s, fields[k], cool, v.fields[k]))
      case ArrCell(items) =>
        Arr(seq(|items|, i requires 0 <= i < |items| => ReadRef(s, items[i], cool, v.items[i])))
  }

  /** getMapPath below its first map. */
  function GetRef(s: Store, x: Ref, parts: Path): Option<Ref>
    decreases |parts|
  {
    if parts == [] then Some(x)
    else if IsMap(s, x) && parts[0] in s[x.addr].fields then GetRef(s, s[x.addr].fields[parts[0]], parts[1..])
    else None
  }

  /** Message.GetPath below the payload, through arrays too. */
  function FollowRef(s: Store, x: Ref, parts: Path): Option<Ref>
    decreases |parts|
  {
    if parts == [] then Some(x)
    else if IsMap(s, x) then
      (if parts[0] in s[x.addr].fields then FollowRef(s, s[x.addr].fields[parts[0]], parts[1..]) else None)
    else if IsArr(s, x) then
      var i := Paths.ParseIndex(parts[0]);
      if i.Some? && 0 <= i.value < |s[x.addr].items| then FollowRef(s, s[x.addr].items[i.value], parts[1..]) else None
    else None
  }

  lemma {:induction false} FollowStands(s: Store, cool: set<nat>, x: Ref, v: Value, parts: Path)
    requires Stands(s, cool, x, v)
    ensures match Paths.Follow(v, parts)
            case None => FollowRef(s, x, parts) == None
            case Some(u) => FollowRef(s, x, parts).Some? && Stands(s, cool, FollowRef(s, x, parts).value, u)
    decreases |parts|
  {
    if parts != [] {
      if v.Obj? && parts[0] in v.fields {
        FollowStands(s, cool, s[x.addr].fields[parts[0]], v.fields[parts[0]], parts[1..]);
      } else if v.Arr? {
        var i := Paths.ParseIndex(parts[0]);
        if i.Some? && 0 <= i.value < |v.items| {
          FollowStands(s, cool, s[x.addr].items[i.value], v.items[i.value], parts[1..]);
        }
      }
    }
  }

  // ----- Writing -----

  /** The strict write below the first segment: from one map to the next, new maps where there are none. */
  function SetRef(s: Store, a: nat, parts: Paths.Parts, x: Ref): (res: (Store, Option<Paths.PathError>))
    requires IsMap(s, At(a))
    ensures |s| <= |res.0|
    decreases |parts|
  {
    var fields := s[a].fields;
    if |parts| == 1 then (s[a := MapCell(fields[parts[0] := x])], None)
    else if Text.Blank(parts[0]) then (s, Some(Paths.InvalidSegment))
    else if parts[0] !in fields then
      SetRef(s[a := MapCell(fields[parts[0] := At(|s|)])] + [MapCell(map[])], |s|, parts[1..], x)
    else if !IsMap(s, fields[parts[0]]) then (s, Some(Paths.CrossesNonObject(parts[0])))
    else SetRef(s, fields[parts[0]].addr, parts[1..], x)
  }

  /** setPayloadPath */
  function SetPathRef(s: Store, a: nat, path: string, x: Ref): (res: (Store, Option<Paths.PathError>))
    requires IsMap(s, At(a))
    ensures |s| <= |res.0|
  {
    var parts := Paths.Segments(path);
    if Text.Blank(parts[0]) then (s, Some(Paths.TargetRequired)) else SetRef(s, a, parts, x)
  }

  // ----- The places that are written to -----

  /** The path leads to a map that some written path passes through. */
  predicate Hot(written: set<Path>, q: Path) { exists w :: w in written && q < w }

  lemma HotAbove(written: set<Path>, q: Path, r: Path)
    ensures Hot(written, q + r) ==> Hot(written, q)
  {
    if Hot(written, q + r) {
      var w :| w in written && q + r < w;
      assert q == (q + r)[..|q|] == w[..|q|];
    }
  }

  /** Like Stands, but the map at each hot path is the cell of that path. */
  predicate Skel(s: Store, cool: set<nat>, places: map<Path, nat>, q: Path, x: Ref, v: Value, written: set<Path>)
    decreases v
  {
    if v.Obj? && Hot(written, q) then
      && q in places && x == At(places[q]) && IsMap(s, x) && s[x.addr].fields.Keys == v.fields.Keys
      && forall k | k in v.fields :: Skel(s, cool, places, q + [k], s[x.addr].fields[k], v.fields[k], written)
    else Stands(s, cool, x, v)
  }

  function Cells(places: map<Path, nat>): set<nat> { set p | p in places :: places[p] }

  /** What a reference stands for, hot places included. */
  lemma {:induction false} SkelStands(s: Store, cool: set<nat>, places: map<Path, nat>, q: Path, x: Ref, v: Value,
                                      written: set<Path>)
    requires Skel(s, cool, places, q, x, v, written)
    ensures Stands(s, cool + Cells(places), x, v)
    decreases v
  {
    if v.Obj? && Hot(written, q) {
      forall k | k in v.fields ensures Stands(s, cool + Cells(places), s[x.addr].fields[k], v.fields[k]) {
        SkelStands(s, cool, places, q + [k], s[x.addr].fields[k], v.fields[k], written);
      }
    } else {
      StandsStays(s, s, cool, cool + Cells(places), x, v);
    }
  }

  /** Reading along a path: what is found is found in the value too. */
  lemma {:induction false} SkelRead(s: Store, cool: set<nat>, places: map<Path, nat>, q: Path, x: Ref, v: Value,
                                    written: set<Path>, parts: Path)
    requires Skel(s, cool, places, q, x, v, written)
    ensures match Paths.Walk(v, parts)
            case None => GetRef(s, x, parts) == None
            case Some(u) => GetRef(s, x, parts).Some?
                            && Skel(s, cool, places, q + parts, GetRef(s, x, parts).value, u, written)
    decreases |parts|
  {
    if parts == [] {
      assert q + parts == q;
    } else if v.Obj? && parts[0] in v.fields {
      var k := parts[0];
      assert q + parts == (q + [k]) + parts[1..];
      if !Hot(written, q) {
        HotAbove(written, q, [k]);
        assert Stands(s, cool, s[x.addr].fields[k], v.fields[k]);
      }
      SkelRead(s, cool, places, q + [k], s[x.addr].fields[k], v.fields[k], written, parts[1..]);
    }
  }

  // ----- A write along hot places -----

  /** The places are cells of the store, each of its own, and none of them is cool. */
  predicate Placed(s: Store, cool: set<nat>, places: map<Path, nat>) {
    && (forall p, q | p in places && q in places && places[p] == places[q] :: p == q)
    && (forall p | p in places :: places[p] < |s| && places[p] !in cool)
    && forall c | c in cool :: c < |s|
  }

  /** Of the old cells only those of the places at or below a path have changed. */
  predicate ChangedBelow(s: Store, s': Store, places: map<Path, nat>, q: Path) {
    && |s| <= |s'|
    && forall c: nat | c < |s| && (forall p | p in places && q <= p :: places[p] != c) :: s'[c] == s[c]
  }

  /** Only places below a path are new, and their cells are. */
  predicate PlacesGrow(places: map<Path, nat>, places': map<Path, nat>, q: Path, n: nat) {
    && (forall p | p in places && !(q <= p) :: p in places' && places'[p] == places[p])
    && (forall p | p in places' :: (p in places && places'[p] == places[p]) || (q <= p && places'[p] >= n))
    && forall p | p in places :: p in places'
  }

  /** A part of a skeleton that a change does not touch. */
  lemma {:induction false} SkelApart(s: Store, s': Store, cool: set<nat>, cool': set<nat>, places: map<Path, nat>,
                                     places': map<Path, nat>, q: Path, x: Ref, v: Value, written: set<Path>)
    requires Skel(s, cool, places, q, x, v, written) && SameCells(s, s', cool) && cool <= cool'
    requires forall p | p in places && q <= p ::
               p in places' && places'[p] == places[p] && (places[p] < |s| ==> s'[places[p]] == s[places[p]])
    ensures Skel(s', cool', places', q, x, v, written)
    decreases v
  {
    if v.Obj? && Hot(written, q) {
      forall k | k in v.fields ensures Skel(s', cool', places', q + [k], s[x.addr].fields[k], v.fields[k], written) {
        SkelApart(s, s', cool, cool', places, places', q + [k], s[x.addr].fields[k], v.fields[k], written);
      }
    } else {
      StandsStays(s, s', cool, cool', x, v);
    }
  }

  /** What a write at a path leaves, before the field in question is looked at. */
  predicate Around(s: Store, s': Store, cool: set<nat>, places: map<Path, nat>, places': map<Path, nat>, q: Path,
                   a: nat, k: string)
  {
    && |s| <= |s'| && PlacesGrow(places, places', q + [k], |s|)
    && forall c: nat | c < |s| && c != a && (forall p | p in places && q + [k] <= p :: places[p] != c) :: s'[c] == s[c]
  }

  /** The skeleton of a map, from one field that is known to be in order and the others that are not touched. */
  lemma OneFieldChanged(s: Store, s': Store, cool: set<nat>, places: map<Path, nat>, places': map<Path, nat>, q: Path,
                        a: nat, o: Object, written: set<Path>, k: string, y: Ref, u: Value)
    requires Placed(s, cool, places) && Hot(written, q) && Skel(s, cool, places, q, At(a), Obj(o), written)
    requires Around(s, s', cool, places, places', q, a, k) && s'[a] == MapCell(s[a].fields[k := y])
    requires Skel(s', cool, places', q + [k], y, u, written)
    ensures Skel(s', cool, places', q, At(a), Obj(o[k := u]), written)
  {
    assert !(q + [k] <= q);
    forall j | j in o[k := u] ensures Skel(s', cool, places', q + [j], s'[a].fields[j], o[k := u][j], written) {
      if j != k {
        OtherField(s, s', cool, places, places', q, a, o, written, k, j);
      }
    }
  }

  lemma OtherField(s: Store, s': Store, cool: set<nat>, places: map<Path, nat>, places': map<Path, nat>, q: Path,
                   a: nat, o: Object, written: set<Path>, k: string, j: string)
    requires Placed(s, cool, places) && Hot(written, q) && Skel(s, cool, places, q, At(a), Obj(o), written)
    requires Around(s, s', cool, places, places', q, a, k) && j in o && j != k
    ensures Skel(s', cool, places', q + [j], s[a].fields[j], o[j], written)
  {
    forall p | p in places && q + [j] <= p
      ensures p in places' && places'[p] == places[p] < |s| && s'[places[p]] == s[places[p]]
    {
      assert p[|q|] == (q + [j])[|q|] == j;
      assert !(q + [k] <= p) by { assert (q + [k])[|q|] == k; }
    }
    SkelApart(s, s', cool, cool, places, places', q + [j], s[a].fields[j], o[j], written);
  }

  /** What a write leaves: the skeleton of the value with the write done, and old cells changed only below
      the path. */
  predicate Wrote(s: Store, s': Store, cool: set<nat>, places: map<Path, nat>, places': map<Path, nat>, q: Path, a: nat,
                  o': Object, written: set<Path>)
  {
    && Skel(s', cool, places', q, At(a), Obj(o'), written) && Placed(s', cool, places')
    && PlacesGrow(places, places', q, |s|) && ChangedBelow(s, s', places, q)
  }

  /** A write along hot places, of a value whose own way is cool, does to the cells what it does to the value. */
  lemma {:induction false} SetSkel(s: Store, cool: set<nat>, places: map<Path, nat>, q: Path, a: nat, o: Object,
                                   written: set<Path>, parts: Paths.Parts, x: Ref, v: Value)
    returns (places': map<Path, nat>)
    requires Placed(s, cool, places) && Skel(s, cool, places, q, At(a), Obj(o), written)
    requires Hot(written, q) && Hot(written, q + parts[..|parts| - 1])
    requires Stands(s, cool, x, v) && (v.Obj? ==> !Hot(written, q + parts))
    ensures IsMap(s, At(a)) && SetRef(s, a, parts, x).1 == Paths.SetBelow(o, parts, v).1
    ensures Wrote(s, SetRef(s, a, parts, x).0, cool, places, places', q, a, Paths.SetBelow(o, parts, v).0, written)
    decreases |parts|
  {
    places' := places;
    var k := parts[0];
    if |parts| == 1 {
      assert parts == [k];
      LastSegment(s, cool, places, q, a, o, written, k, x, v);
    } else if !Text.Blank(k) {
      Onwards(written, q, parts);
      var rest := parts[1..];
      if k !in o {
        var b, s1 := |s|, s[a := MapCell(s[a].fields[k := At(|s|)])] + [MapCell(map[])];
        var places1 := places[q + [k] := b];
        NewMap(s, s1, cool, places, places1, q, a, o, written, k, b, x, v);
        places' := SetSkel(s1, cool, places1, q + [k], b, map[], written, rest, x, v);
        NewChild(s, s1, SetRef(s1, b, rest, x).0, cool, places, places1, places', q, a, o, written, k, b,
                 Paths.SetBelow(map[], rest, v).0);
      } else if o[k].Obj? {
        var b := places[q + [k]];
        places' := SetSkel(s, cool, places, q + [k], b, o[k].fields, written, rest, x, v);
        OldChild(s, SetRef(s, b, rest, x).0, cool, places, places', q, a, o, written, k, b,
                 Paths.SetBelow(o[k].fields, rest, v).0);
      }
    }
  }

  lemma Onwards(written: set<Path>, q: Path, parts: Paths.Parts)
    requires |parts| > 1 && Hot(written, q + parts[..|parts| - 1])
    ensures Hot(written, q + [parts[0]])
    ensures Hot(written, (q + [parts[0]]) + parts[1..][..|parts[1..]| - 1])
    ensures (q + [parts[0]]) + parts[1..] == q + parts
  {
    var front := parts[..|parts| - 1];
    assert q + front == (q + [parts[0]]) + front[1..];
    assert front[1..] == parts[1..][..|parts[1..]| - 1];
    HotAbove(written, q + [parts[0]], front[1..]);
  }

  lemma LastSegment(s: Store, cool: set<nat>, places: map<Path, nat>, q: Path, a: nat, o: Object, written: set<Path>,
                    k: string, x: Ref, v: Value)
    requires Placed(s, cool, places) && Skel(s, cool, places, q, At(a), Obj(o), written) && Hot(written, q)
    requires Stands(s, cool, x, v) && (v.Obj? ==> !Hot(written, q + [k]))
    ensures Wrote(s, s[a := MapCell(s[a].fields[k := x])], cool, places, places, q, a, o[k := v], written)
  {
    var s' := s[a := MapCell(s[a].fields[k := x])];
    StandsStays(s, s', cool, cool, x, v);
    OneFieldChanged(s, s', cool, places, places, q, a, o, written, k, x, v);
  }

  lemma NewMap(s: Store, s1: Store, cool: set<nat>, places: map<Path, nat>, places1: map<Path, nat>, q: Path, a: nat,
               o: Object, written: set<Path>, k: string, b: nat, x: Ref, v: Value)
    requires Placed(s, cool, places) && Skel(s, cool, places, q, At(a), Obj(o), written) && Hot(written, q)
    requires Hot(written, q + [k]) && b == |s| && k !in o && Stands(s, cool, x, v)
    requires s1 == s[a := MapCell(s[a].fields[k := At(b)])] + [MapCell(map[])] && places1 == places[q + [k] := b]
    ensures Placed(s1, cool, places1) && Skel(s1, cool, places1, q + [k], At(b), Obj(map[]), written)
    ensures Stands(s1, cool, x, v)
  {
    StandsStays(s, s1, cool, cool, x, v);
  }

  lemma NewChild(s: Store, s1: Store, s2: Store, cool: set<nat>, places: map<Path, nat>, places1: map<Path, nat>,
                 places2: map<Path, nat>, q: Path, a: nat, o: Object, written: set<Path>, k: string, b: nat,
                 child: Object)
    requires Placed(s, cool, places) && Skel(s, cool, places, q, At(a), Obj(o), written) && Hot(written, q)
    requires Hot(written, q + [k]) && b == |s| && k !in o
    requires s1 == s[a := MapCell(s[a].fields[k := At(b)])] + [MapCell(map[])] && places1 == places[q + [k] := b]
    requires Wrote(s1, s2, cool, places1, places2, q + [k], b, child, written)
    ensures Wrote(s, s2, cool, places, places2, q, a, o[k := Obj(child)], written)
  {
    assert !(q + [k] <= q);
    assert places1[q] == a && s2[a] == s1[a];
    NewChildGrows(s, s1, s2, cool, places, places1, places2, q, a, k, b);
    OneFieldChanged(s, s2, cool, places, places2, q, a, o, written, k, At(b), Obj(child));
  }

  lemma NewChildGrows(s: Store, s1: Store, s2: Store, cool: set<nat>, places: map<Path, nat>, places1: map<Path, nat>,
                      places2: map<Path, nat>, q: Path, a: nat, k: string, b: nat)
    requires b == |s| && a < |s| && q in places && places[q] == a && |s1| == |s| + 1 && places1 == places[q + [k] := b]
    requires forall c: nat | c < |s| && c != a :: s1[c] == s[c]
    requires PlacesGrow(places1, places2, q + [k], |s1|) && ChangedBelow(s1, s2, places1, q + [k])
    ensures PlacesGrow(places, places2, q, |s|) && ChangedBelow(s, s2, places, q)
    ensures Around(s, s2, cool, places, places2, q, a, k)
  {}

  lemma OldChild(s: Store, s2: Store, cool: set<nat>, places: map<Path, nat>, places2: map<Path, nat>, q: Path, a: nat,
                 o: Object, written: set<Path>, k: string, b: nat, child: Object)
    requires Placed(s, cool, places) && Skel(s, cool, places, q, At(a), Obj(o), written) && Hot(written, q)
    requires Hot(written, q + [k]) && k in o && o[k].Obj? && s[a].fields[k] == At(b)
    requires Wrote(s, s2, cool, places, places2, q + [k], b, child, written)
    ensures Wrote(s, s2, cool, places, places2, q, a, o[k := Obj(child)], written)
  {
    assert !(q + [k] <= q);
    assert places[q] == a && s2[a] == s[a];
    assert s[a].fields[k := At(b)] == s[a].fields;
    OneFieldChanged(s, s2, cool, places, places2, q, a, o, written, k, At(b), Obj(child));
  }
}
