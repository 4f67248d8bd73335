/** Dotted paths into JSON objects: the strict write of the handlers, the overwriting write of the
    triggers, and the reads. Objects are values here, so two places never share a nested object. */
module Paths {
  import opened Prelude
  import opened Json
  import Text

  function Child(o: Object, key: string): Object { if key in o && o[key].Obj? then o[key].fields else map[] }

  type Parts = p: seq<string> | |p| >= 1 witness [""]

  function Segments(path: string): Parts { Text.Split(path, '.') }

  /** Follow object fields only. */
  function Walk(v: Value, parts: seq<string>): Option<Value> {
    if parts == [] then Some(v)
    else if v.Obj? && parts[0] in v.fields then Walk(v.fields[parts[0]], parts[1..])
    else None
  }

  /** getMapPath and valueFromPath. */
  function GetPath(values: Object, path: string): Option<Value> {
    if Text.Blank(path) then None else Walk(Obj(values), Segments(path))
  }

  /** strconv.Atoi, as far as an index goes: an optional sign and decimal digits. */
  function ParseIndex(s: string): Option<int> {
    if s == "" then None
    else if s[0] == '-' then (if Digits(s[1..]) then Some(-DigitValue(s[1..])) else None)
    else if s[0] == '+' then (if Digits(s[1..]) then Some(DigitValue(s[1..])) else None)
    else if Digits(s) then Some(DigitValue(s)) else None
  }

  predicate Digits(s: string) { s != "" && forall k | 0 <= k < |s| :: '0' <= s[k] <= '9' }

  function DigitValue(s: string): int
    requires forall k | 0 <= k < |s| :: '0' <= s[k] <= '9'
    decreases |s|
  {
    if s == "" then 0 else DigitValue(s[..|s| - 1]) * 10 + (s[|s| - 1] - '0') as int
  }

  /** Follow object fields and array indexes. */
  function Follow(v: Value, parts: seq<string>): Option<Value> {
    if parts == [] then Some(v)
    else match v
         case Obj(o) => if parts[0] in o then Follow(o[parts[0]], parts[1..]) else None
         case Arr(items) =>
           var i := ParseIndex(parts[0]);
           if i.Some? && 0 <= i.value < |items| then Follow(items[i.value], parts[1..]) else None
         case _ => None
  }

  /** Message.GetPath */
  function MessagePath(payload: Object, path: string): Option<Value> {
    if path == "" then None else Follow(Obj(payload), Segments(path))
  }

  /** What is found through objects alone is found by the message too. */
  lemma {:induction false} WalkIsFollowed(v: Value, parts: seq<string>)
    ensures Walk(v, parts).Some? ==> Follow(v, parts) == Walk(v, parts)
    decreases |parts|
  {
    if parts != [] && v.Obj? && parts[0] in v.fields {
      WalkIsFollowed(v.fields[parts[0]], parts[1..]);
    }
  }

  datatype PathError = TargetRequired | InvalidSegment | CrossesNonObject(part: string)

  /** The strict write below the first segment: the object after the loop, and the error if it
      stopped early. */
  function SetBelow(o: Object, parts: Parts, value: Value): (Object, Option<PathError>)
    decreases |parts|
  {
    if |parts| == 1 then (o[parts[0] := value], None)
    else if Text.Blank(parts[0]) then (o, Some(InvalidSegment))
    else if parts[0] in o && !o[parts[0]].Obj? then (o, Some(CrossesNonObject(parts[0])))
    else
      var (child', e) := SetBelow(Child(o, parts[0]), parts[1..], value);
      (o[parts[0] := Obj(child')], e)
  }

  function SetParts(o: Object, parts: Parts, value: Value): (Object, Option<PathError>) {
    if Text.Blank(parts[0]) then (o, Some(TargetRequired)) else SetBelow(o, parts, value)
  }

  /** setPayloadPath of the handlers. */
  function SetPath(o: Object, path: string, value: Value): (Object, Option<PathError>) {
    SetParts(o, Segments(path), value)
  }

  /** The overwriting write: whatever is in the way becomes an object. */
  function ForceParts(o: Object, parts: Parts, value: Value): Object
    decreases |parts|
  {
    if |parts| == 1 then o[parts[0] := value]
    else
      var child := Child(o, parts[0]);
      o[parts[0] := Obj(ForceParts(child, parts[1..], value))]
  }

  /** setPayloadPath of the triggers. */
  function ForcePath(o: Object, path: string, value: Value): Object {
    var trimmed := Text.TrimSpace(path);
    if trimmed == "" then o else ForceParts(o, Segments(trimmed), value)
  }

  /** Neither path begins with the other. */
  predicate Disjoint(p: seq<string>, q: seq<string>) { !(p <= q) && !(q <= p) }

  lemma DisjointTails(p: seq<string>, q: seq<string>)
    requires p != [] && q != [] && p[0] == q[0] && Disjoint(p, q)
    ensures |p| > 1 && |q| > 1 && Disjoint(p[1..], q[1..])
  {
    assert p == [p[0]] + p[1..] && q == [q[0]] + q[1..];
  }

  // ----- Lens laws of the strict write -----

  /** What was written is read back. */
  lemma {:induction false} StrictReadBack(o: Object, parts: Parts, value: Value)
    ensures var (o', e) := SetBelow(o, parts, value); e.None? ==> Walk(Obj(o'), parts) == Some(value)
    decreases |parts|
  {
    if |parts| == 1 {
      assert parts[1..] == [];
    } else {
      var child := Child(o, parts[0]);
      StrictReadBack(child, parts[1..], value);
    }
  }

  /** Every disjoint path reads as before, even when the write fails half way. */
  lemma {:induction false} StrictFrame(o: Object, parts: Parts, value: Value, q: seq<string>)
    requires Disjoint(parts, q)
    ensures Walk(Obj(SetBelow(o, parts, value).0), q) == Walk(Obj(o), q)
    decreases |parts|
  {
    if q != [] && q[0] == parts[0] {
      DisjointTails(parts, q);
      var child := Child(o, parts[0]);
      StrictFrame(child, parts[1..], value, q[1..]);
      if parts[0] !in o { NothingBelow(q[1..]); }
    }
  }

  /** The same for what the message reads, through arrays too. */
  lemma {:induction false} StrictFollowFrame(o: Object, parts: Parts, value: Value, q: seq<string>)
    requires Disjoint(parts, q)
    ensures Follow(Obj(SetBelow(o, parts, value).0), q) == Follow(Obj(o), q)
    decreases |parts|
  {
    if q != [] && q[0] == parts[0] {
      DisjointTails(parts, q);
      StrictFollowFrame(Child(o, parts[0]), parts[1..], value, q[1..]);
    }
  }

  lemma NothingBelow(q: seq<string>)
    requires q != []
    ensures Walk(Obj(map[]), q) == None
  {}

  /** The segments that the loop steps through are not blank. */
  predicate Named(parts: Parts) { forall k | 0 <= k < |parts| - 1 :: !Text.Blank(parts[k]) }

  /** No proper prefix of the path ends at something other than an object. */
  predicate Open(v: Value, parts: Parts) {
    forall k | 1 <= k < |parts| :: var at := Walk(v, parts[..k]); at.Some? ==> at.value.Obj?
  }

  lemma OpenStep(o: Object, parts: Parts)
    requires |parts| > 1
    ensures Open(Obj(o), parts) <==>
            parts[0] !in o || (o[parts[0]].Obj? && Open(o[parts[0]], parts[1..]))
  {
    var v := Obj(o);
    assert forall k | 1 <= k < |parts| :: parts[..k][0] == parts[0] && parts[..k][1..] == parts[1..][..k - 1];
    if parts[0] in o {
      var child := o[parts[0]];
      assert Walk(v, parts[..1]) == Some(child) by { assert parts[..1][1..] == []; }
      if Open(v, parts) {
        forall k | 1 <= k < |parts| - 1
          ensures var at := Walk(child, parts[1..][..k]); at.Some? ==> at.value.Obj?
        {
          assert Walk(v, parts[..k + 1]) == Walk(child, parts[1..][..k]);
        }
      }
      if child.Obj? && Open(child, parts[1..]) {
        forall k | 1 <= k < |parts|
          ensures var at := Walk(v, parts[..k]); at.Some? ==> at.value.Obj?
        {
          assert Walk(v, parts[..k]) == Walk(child, parts[1..][..k - 1]);
          if k == 1 { assert parts[1..][..0] == []; }
        }
      }
    }
  }

  lemma OpenEmpty(parts: Parts)
    ensures Open(Obj(map[]), parts)
  {
    forall k | 1 <= k < |parts| ensures Walk(Obj(map[]), parts[..k]) == None {
      NothingBelow(parts[..k]);
    }
  }

  /** The write succeeds exactly when every segment it steps through is named and no prefix of the
      path is something other than an object. */
  lemma {:induction false} StrictWriteSucceeds(o: Object, parts: Parts, value: Value)
    ensures SetBelow(o, parts, value).1.None? <==> Named(parts) && Open(Obj(o), parts)
    decreases |parts|
  {
    if |parts| > 1 {
      OpenStep(o, parts);
      var child := Child(o, parts[0]);
      StrictWriteSucceeds(child, parts[1..], value);
      if parts[0] !in o { OpenEmpty(parts[1..]); }
      NamedStep(parts);
    }
  }

  lemma NamedStep(parts: Parts)
    requires |parts| > 1
    ensures Named(parts) <==> !Text.Blank(parts[0]) && Named(parts[1..])
  {
    if !Text.Blank(parts[0]) && Named(parts[1..]) {
      forall k | 0 <= k < |parts| - 1 ensures !Text.Blank(parts[k]) {
        if k > 0 { assert parts[k] == parts[1..][k - 1]; }
      }
    }
    if Named(parts) {
      forall k | 0 <= k < |parts| - 2 ensures !Text.Blank(parts[1..][k]) { assert parts[1..][k] == parts[k + 1]; }
    }
  }

  /** A write that fails by crossing something other than an object changes nothing. */
  lemma {:induction false} CrossingChangesNothing(o: Object, parts: Parts, value: Value)
    ensures var (o', e) := SetBelow(o, parts, value); e.Some? && e.value.CrossesNonObject? ==> o' == o
    decreases |parts|
  {
    if |parts| > 1 && !Text.Blank(parts[0]) {
      if parts[0] in o && o[parts[0]].Obj? {
        CrossingChangesNothing(o[parts[0]].fields, parts[1..], value);
      } else if parts[0] !in o {
        FreshNeverCrosses(parts[1..], value);
      }
    }
  }

  lemma {:induction false} FreshNeverCrosses(parts: Parts, value: Value)
    ensures var e := SetBelow(map[], parts, value).1; e.Some? ==> !e.value.CrossesNonObject?
    decreases |parts|
  {
    if |parts| > 1 && !Text.Blank(parts[0]) {
      FreshNeverCrosses(parts[1..], value);
    }
  }

  /** The first blank segment before the last one. */
  function FirstBlank(parts: Parts): (k: nat)
    ensures k < |parts|
    decreases |parts|
  {
    if |parts| == 1 || Text.Blank(parts[0]) then 0 else 1 + FirstBlank(parts[1..])
  }

  /** A write that fails on a blank segment leaves the objects it created behind: it changes
      nothing exactly when everything before the blank segment was there already. */
  lemma {:induction false} BlankSegmentLeavesTraces(o: Object, parts: Parts, value: Value)
    requires SetBelow(o, parts, value).1 == Some(InvalidSegment)
    ensures SetBelow(o, parts, value).0 == o <==> Walk(Obj(o), parts[..FirstBlank(parts)]).Some?
    decreases |parts|
  {
    var k := FirstBlank(parts);
    if Text.Blank(parts[0]) {
      assert parts[..k] == [];
    } else {
      assert parts[..k][1..] == parts[1..][..k - 1];
      if parts[0] in o {
        BlankSegmentLeavesTraces(o[parts[0]].fields, parts[1..], value);
        var child' := SetBelow(o[parts[0]].fields, parts[1..], value).0;
        assert o[parts[0] := Obj(child')] == o <==> child' == o[parts[0]].fields;
      } else {
        assert parts[0] in SetBelow(o, parts, value).0;
      }
    }
  }

  /** A concrete trace: writing "a. .b" into the empty object fails and leaves {a: {}} behind. */
  lemma FailedWriteCanChange(value: Value)
    ensures SetParts(map[], ["a", " ", "b"], value) == (map["a" := Obj(map[])], Some(InvalidSegment))
  {
    var parts: Parts := ["a", " ", "b"];
    assert !Text.Blank("a") by { assert Text.TrimLeft("a") == "a"; assert Text.TrimRight("a") == "a"; }
    assert Text.Blank(" ") by { assert " "[1..] == ""; assert Text.TrimLeft(" ") == ""; }
    assert parts[1..] == [" ", "b"];
    assert SetBelow(map[], parts[1..], value) == (map[], Some(InvalidSegment));
  }

  /** What a successful write stores in the field of the first segment. */
  function NewField(o: Object, parts: Parts, value: Value): Value {
    if |parts| == 1 then value else Obj(SetBelow(Child(o, parts[0]), parts[1..], value).0)
  }

  /** A write looks at and changes only the field of its first segment. */
  lemma WriteIsLocal(o: Object, parts: Parts, value: Value, k: string, x: Value)
    requires SetBelow(o, parts, value).1.None?
    ensures SetBelow(o, parts, value).0 == o[parts[0] := NewField(o, parts, value)]
    ensures k != parts[0] ==> SetBelow(o[k := x], parts, value).1.None?
                              && NewField(o[k := x], parts, value) == NewField(o, parts, value)
  {}

  /** A write of a longer path is a write into the object of its first segment. */
  lemma LongWrite(o: Object, p: Parts, v: Value)
    requires |p| > 1
    ensures var (child', e) := SetBelow(Child(o, p[0]), p[1..], v);
            && (SetBelow(o, p, v).1.None? <==>
                  !Text.Blank(p[0]) && (p[0] in o ==> o[p[0]].Obj?) && e.None?)
            && (SetBelow(o, p, v).1.None? ==> SetBelow(o, p, v).0 == o[p[0] := Obj(child')])
  {}

  /** The same, when the first segment holds an object already. */
  lemma WriteInto(o: Object, child: Object, q: Parts, u: Value)
    requires |q| > 1
    ensures var (child', e) := SetBelow(child, q[1..], u);
            var (o', e') := SetBelow(o[q[0] := Obj(child)], q, u);
            && (e'.None? <==> !Text.Blank(q[0]) && e.None?)
            && (e'.None? ==> o' == o[q[0] := Obj(child')])
  {
    var o1 := o[q[0] := Obj(child)];
    LongWrite(o1, q, u);
    var child' := SetBelow(child, q[1..], u).0;
    assert Child(o1, q[0]) == child;
    assert o1[q[0] := Obj(child')] == o[q[0] := Obj(child')];
  }

  /** Two writes to disjoint paths can be swapped, provided that each succeeds on its own. */
  lemma {:induction false} WritesCommute(o: Object, p: Parts, v: Value, q: Parts, u: Value)
    requires Disjoint(p, q)
    requires SetBelow(o, p, v).1.None? && SetBelow(o, q, u).1.None?
    ensures SetBelow(SetBelow(o, p, v).0, q, u).1.None?
    ensures SetBelow(SetBelow(o, q, u).0, p, v).1.None?
    ensures SetBelow(SetBelow(o, p, v).0, q, u).0 == SetBelow(SetBelow(o, q, u).0, p, v).0
    decreases |p|
  {
    if p[0] == q[0] {
      DisjointTails(p, q);
      LongWrite(o, p, v);
      LongWrite(o, q, u);
      WritesCommute(Child(o, p[0]), p[1..], v, q[1..], u);
      SameHead(o, p, v, q, u);
      SameHead(o, q, u, p, v);
    } else {
      DistinctHeadsCommute(o, p, v, q, u);
    }
  }

  lemma SameHead(o: Object, p: Parts, v: Value, q: Parts, u: Value)
    requires p[0] == q[0] && |p| > 1 && |q| > 1
    requires SetBelow(o, p, v).1.None? && SetBelow(o, q, u).1.None?
    requires SetBelow(SetBelow(Child(o, p[0]), p[1..], v).0, q[1..], u).1.None?
    ensures SetBelow(SetBelow(o, p, v).0, q, u).1.None?
    ensures SetBelow(SetBelow(o, p, v).0, q, u).0
            == o[p[0] := Obj(SetBelow(SetBelow(Child(o, p[0]), p[1..], v).0, q[1..], u).0)]
  {
    LongWrite(o, p, v);
    LongWrite(o, q, u);
    WriteInto(o, SetBelow(Child(o, p[0]), p[1..], v).0, q, u);
  }

  lemma DistinctHeadsCommute(o: Object, p: Parts, v: Value, q: Parts, u: Value)
    requires p[0] != q[0]
    requires SetBelow(o, p, v).1.None? && SetBelow(o, q, u).1.None?
    ensures SetBelow(SetBelow(o, p, v).0, q, u).1.None?
    ensures SetBelow(SetBelow(o, q, u).0, p, v).1.None?
    ensures SetBelow(SetBelow(o, p, v).0, q, u).0 == SetBelow(SetBelow(o, q, u).0, p, v).0
  {
    DistinctHeads(o, p, v, q, u);
    DistinctHeads(o, q, u, p, v);
    var x, y := NewField(o, p, v), NewField(o, q, u);
    assert o[p[0] := x][q[0] := y] == o[q[0] := y][p[0] := x];
  }

  lemma DistinctHeads(o: Object, p: Parts, v: Value, q: Parts, u: Value)
    requires p[0] != q[0]
    requires SetBelow(o, p, v).1.None? && SetBelow(o, q, u).1.None?
    ensures SetBelow(SetBelow(o, p, v).0, q, u)
            == (o[p[0] := NewField(o, p, v)][q[0] := NewField(o, q, u)], None)
  {
    var x := NewField(o, p, v);
    WriteIsLocal(o, p, v, q[0], Null);
    WriteIsLocal(o, q, u, p[0], x);
    WriteIsLocal(o[p[0] := x], q, u, "", Null);
  }

  /** Whether a write succeeds does not depend on a successful write to a disjoint path. */
  lemma {:induction false} SuccessIsIndependent(o: Object, p: Parts, v: Value, q: Parts, u: Value)
    requires Disjoint(p, q) && SetBelow(o, p, v).1.None?
    ensures SetBelow(SetBelow(o, p, v).0, q, u).1.None? <==> SetBelow(o, q, u).1.None?
    decreases |p|
  {
    if p[0] == q[0] {
      DisjointTails(p, q);
      LongWrite(o, p, v);
      LongWrite(o, q, u);
      SuccessIsIndependent(Child(o, p[0]), p[1..], v, q[1..], u);
      WriteInto(o, SetBelow(Child(o, p[0]), p[1..], v).0, q, u);
    } else {
      WriteIsLocal(o, p, v, "", Null);
      SuccessIsLocal(o, q, u, p[0], NewField(o, p, v));
    }
  }

  lemma SuccessIsLocal(o: Object, q: Parts, u: Value, k: string, x: Value)
    requires k != q[0]
    ensures SetBelow(o[k := x], q, u).1.None? <==> SetBelow(o, q, u).1.None?
  {}

  // ----- The overwriting write -----

  lemma {:induction false} ForceReadBack(o: Object, parts: Parts, value: Value)
    ensures Walk(Obj(ForceParts(o, parts, value)), parts) == Some(value)
    decreases |parts|
  {
    if |parts| == 1 {
      assert parts[1..] == [];
    } else {
      var child := Child(o, parts[0]);
      ForceReadBack(child, parts[1..], value);
    }
  }

  lemma {:induction false} ForceFrame(o: Object, parts: Parts, value: Value, q: seq<string>)
    requires Disjoint(parts, q)
    ensures Walk(Obj(ForceParts(o, parts, value)), q) == Walk(Obj(o), q)
    decreases |parts|
  {
    if q != [] && q[0] == parts[0] {
      DisjointTails(parts, q);
      var child := Child(o, parts[0]);
      ForceFrame(child, parts[1..], value, q[1..]);
      if !(parts[0] in o && o[parts[0]].Obj?) { NothingBelow(q[1..]); }
    }
  }

  /** Where the strict write succeeds, the overwriting write does the same. */
  lemma {:induction false} ForceAgreesWithStrict(o: Object, parts: Parts, value: Value)
    requires SetBelow(o, parts, value).1.None?
    ensures ForceParts(o, parts, value) == SetBelow(o, parts, value).0
    decreases |parts|
  {
    if |parts| > 1 {
      var child := Child(o, parts[0]);
      ForceAgreesWithStrict(child, parts[1..], value);
    }
  }

  // ----- Paths as texts -----

  /** Segments joined by dots lead through themselves, for reading, for the message and for both writes. A blank path
      leads nowhere; the overwriting write, and no other, trims its path. */
  lemma JoinedPathsLead(o: Object, parts: Parts, value: Value)
    requires forall p | p in parts :: '.' !in p
    ensures var path := Text.Join(parts, '.');
            && GetPath(o, path) == (if Text.Blank(path) then None else Walk(Obj(o), parts))
            && MessagePath(o, path) == (if parts == [""] then None else Follow(Obj(o), parts))
            && SetPath(o, path, value) == SetParts(o, parts, value)
            && forall padded | Text.TrimSpace(padded) == path ::
                 ForcePath(o, padded, value) == if parts == [""] then o else ForceParts(o, parts, value)
  {
    Text.SplitJoin(parts, '.');
    if Text.Join(parts, '.') == "" {
      assert |parts| == 1;
    }
  }

  // ----- Arrays on a path -----

  lemma {:induction false} DigitsOfItoa(n: nat)
    ensures Digits(Text.Itoa(n)) && DigitValue(Text.Itoa(n)) == n
  {
    var s := Text.Itoa(n);
    if n < 10 {
      assert s[..|s| - 1] == "";
    } else {
      DigitsOfItoa(n / 10);
      assert s[..|s| - 1] == Text.Itoa(n / 10);
    }
  }

  lemma {:induction false} ZeroInFront(digits: string)
    requires Digits(digits)
    ensures Digits("0" + digits) && DigitValue("0" + digits) == DigitValue(digits)
    decreases |digits|
  {
    var s := "0" + digits;
    if |digits| == 1 {
      assert s[..1] == "0" && "0"[..0] == "";
      assert digits[..0] == "";
    } else {
      assert s[..|s| - 1] == "0" + digits[..|digits| - 1];
      ZeroInFront(digits[..|digits| - 1]);
    }
  }

  lemma SignIsRead(sign: string, digits: string)
    requires sign in {"", "+", "-"} && Digits(digits)
    ensures ParseIndex(sign + digits) == Some(if sign == "-" then -DigitValue(digits) else DigitValue(digits))
  {
    if sign == "" {
      assert sign + digits == digits;
    } else {
      assert (sign + digits)[1..] == digits;
    }
  }

  /** The index in decimal, with zeros in front. */
  function Padded(zeros: nat, i: nat): string { if zeros == 0 then Text.Itoa(i) else "0" + Padded(zeros - 1, i) }

  lemma {:induction false} PaddedDigits(zeros: nat, i: nat)
    ensures Digits(Padded(zeros, i)) && DigitValue(Padded(zeros, i)) == i
  {
    if zeros == 0 {
      DigitsOfItoa(i);
    } else {
      PaddedDigits(zeros - 1, i);
      ZeroInFront(Padded(zeros - 1, i));
    }
  }

  /** The message finds the items of an array by their index in decimal, with or without zeros in front and a sign, and
      nothing past them; below zero there is nothing. */
  lemma IndexIsFollowed(items: seq<Value>, sign: string, zeros: nat, i: nat, rest: seq<string>)
    requires sign in {"", "+", "-"}
    ensures Follow(Arr(items), [sign + Padded(zeros, i)] + rest)
            == if i < |items| && (sign == "-" ==> i == 0) then Follow(items[i], rest) else None
  {
    PaddedDigits(zeros, i);
    SignIsRead(sign, Padded(zeros, i));
    Onwards(items, sign + Padded(zeros, i), rest);
  }

  lemma Onwards(items: seq<Value>, s: string, rest: seq<string>)
    ensures var i := ParseIndex(s);
            Follow(Arr(items), [s] + rest)
            == if i.Some? && 0 <= i.value < |items| then Follow(items[i.value], rest) else None
  {
    assert ([s] + rest)[1..] == rest;
  }

  /** Every other text finds nothing in an array. */
  lemma OnlyIndexesAreFollowed(items: seq<Value>, s: string, rest: seq<string>)
    requires Follow(Arr(items), [s] + rest).Some?
    ensures s != "" && (s[0] in "+-" || '0' <= s[0] <= '9') && forall c | c in s[1..] :: '0' <= c <= '9'
  {
    assert ([s] + rest)[0] == s;
    assert s[0] in s;
  }

  lemma FieldIsFollowed(o: Object, key: string, rest: seq<string>)
    ensures Follow(Obj(o), [key] + rest) == if key in o then Follow(o[key], rest) else None
    ensures Walk(Obj(o), [key] + rest) == if key in o then Walk(o[key], rest) else None
  {
    assert ([key] + rest)[1..] == rest;
  }
}
