/** Which items the array handlers keep and which updates they write, in terms of the conditions and expressions of
    their configuration. */
module FilterLaws {
  import opened Prelude
  import opened Json
  import opened Conditions
  import opened Transforms
  import L = TransformLaws
  import Paths
  import Text

  // ----- What a configured condition says -----

  /** Every entry of the list is a condition that evaluates to true. */
  predicate AllHold(h: Host, payload: Object, list: seq<Value>) {
    forall v | v in list :: v.Obj? && Evaluate(h, payload, v.fields) == Ok(true)
  }

  /** Some entry does, and every entry is a condition. */
  predicate AnyHolds(h: Host, payload: Object, list: seq<Value>) {
    AllObjects(list) && exists v | v in list :: v.Obj? && Evaluate(h, payload, v.fields) == Ok(true)
  }

  predicate AllObjects(list: seq<Value>) { forall v | v in list :: v.Obj? }

  /** All of "all", else some of "any", else the object itself as a condition. */
  predicate ObjectHolds(h: Host, payload: Object, o: Object) {
    if "all" in o then o["all"].Arr? && AllHold(h, payload, o["all"].items)
    else if "any" in o then o["any"].Arr? && AnyHolds(h, payload, o["any"].items)
    else Evaluate(h, payload, o) == Ok(true)
  }

  /** The object can be judged: its list is one of conditions, or its condition evaluates. */
  predicate ObjectJudged(h: Host, payload: Object, o: Object) {
    if "all" in o then o["all"].Arr? && AllObjects(o["all"].items)
    else if "any" in o then o["any"].Arr? && AllObjects(o["any"].items)
    else Evaluate(h, payload, o).Ok?
  }

  predicate ExprHolds(c: Context, payload: Object, expr: string) {
    c.host.cel(expr, payload, c.headers) == Ok(true)
  }

  /** A condition of array_transform: an expression, an object with one, a list of conditions, or an object. */
  predicate Holds(c: Context, payload: Object, condition: Value) {
    match condition
    case Str(expr) => ExprHolds(c, payload, expr)
    case Obj(o) =>
      if !Text.Blank(Param(o, "expr")) then ExprHolds(c, payload, Param(o, "expr"))
      else ObjectHolds(c.host, payload, o)
    case Arr(list) => AllHold(c.host, payload, list)
    case _ => false
  }

  predicate Judged(c: Context, payload: Object, condition: Value) {
    match condition
    case Str(expr) => c.host.cel(expr, payload, c.headers).Ok?
    case Obj(o) =>
      if !Text.Blank(Param(o, "expr")) then c.host.cel(Param(o, "expr"), payload, c.headers).Ok?
      else ObjectJudged(c.host, payload, o)
    case Arr(list) => AllObjects(list)
    case _ => false
  }

  lemma {:induction false} ListedObjects(items: seq<Value>)
    ensures Objects(items).Ok? <==> AllObjects(items)
    ensures Objects(items).Ok? ==>
              |Objects(items).value| == |items|
              && forall k | 0 <= k < |items| :: Obj(Objects(items).value[k]) == items[k]
  {
    if items != [] {
      var last := |items| - 1;
      ListedObjects(items[..last]);
      assert forall v :: v in items <==> v in items[..last] || v == items[last];
    }
  }

  lemma JudgesList(h: Host, payload: Object, list: seq<Value>)
    requires AllObjects(list)
    ensures var cs := ConditionList(Arr(list));
            && cs.Ok?
            && var rs := Judge(o => Evaluate(h, payload, o), cs.value);
            (All(rs) <==> AllHold(h, payload, list)) && (Any(rs) <==> AnyHolds(h, payload, list))
  {
    ListedObjects(list);
    var cs := ConditionList(Arr(list)).value;
    var rs := Judge(o => Evaluate(h, payload, o), cs);
    assert forall k | 0 <= k < |list| :: list[k] in list && rs[k] == Evaluate(h, payload, list[k].fields);
    if Any(rs) {
      var k :| 0 <= k < |rs| && rs[k] == Ok(true);
      assert list[k] in list;
    }
    if AnyHolds(h, payload, list) {
      var v :| v in list && v.Obj? && Evaluate(h, payload, v.fields) == Ok(true);
      var k :| 0 <= k < |list| && list[k] == v;
      assert rs[k] == Ok(true);
    }
  }

  /** The verdict of an assertion object. */
  lemma VerdictMeans(h: Host, payload: Object, o: Object)
    ensures Assert(h, payload, o).Ok? <==> ObjectJudged(h, payload, o)
    ensures Assert(h, payload, o).Ok? ==> (Assert(h, payload, o).value.0 <==> ObjectHolds(h, payload, o))
  {
    if "all" in o {
      if o["all"].Arr? {
        ListedObjects(o["all"].items);
        if AllObjects(o["all"].items) { JudgesList(h, payload, o["all"].items); }
      }
    } else if "any" in o && o["any"].Arr? {
      ListedObjects(o["any"].items);
      if AllObjects(o["any"].items) { JudgesList(h, payload, o["any"].items); }
    }
  }

  /** The list of conditions of an assertion object that has one. */
  function Listed(o: Object): Option<seq<Value>> {
    if "all" in o then (if o["all"].Arr? then Some(o["all"].items) else None)
    else if "any" in o && o["any"].Arr? then Some(o["any"].items)
    else None
  }

  /** A verdict that is true reports no failure. One that is false reports exactly the conditions of the list that do
      not evaluate to true, or the only condition. */
  lemma VerdictReports(h: Host, payload: Object, o: Object)
    requires Assert(h, payload, o).Ok?
    ensures var (passed, failures) := Assert(h, payload, o).value;
            && (passed ==> failures == [])
            && (!passed && Listed(o).None? ==> failures == [Failure(0, None)])
            && (!passed && Listed(o).Some? ==>
                  forall k: nat :: Reported(failures, k) <==>
                    k < |Listed(o).value| && Listed(o).value[k].Obj?
                    && Evaluate(h, payload, Listed(o).value[k].fields) != Ok(true))
  {
    if Listed(o).Some? {
      ListedObjects(Listed(o).value);
      FailuresAreComplete(Judge(c => Evaluate(h, payload, c), Objects(Listed(o).value).value));
    }
  }

  lemma ListMeans(h: Host, payload: Object, list: seq<Value>)
    ensures Passed(Assert(h, payload, map["all" := Arr(list)])).Ok? <==> AllObjects(list)
    ensures Passed(Assert(h, payload, map["all" := Arr(list)])) == Ok(true) <==> AllHold(h, payload, list)
  {
    VerdictMeans(h, payload, map["all" := Arr(list)]);
  }

  /** A condition of array_transform is true exactly when it holds, and has a problem exactly when it cannot be
      judged. */
  lemma ConditionMeans(c: Context, payload: Object, condition: Value)
    ensures Condition(c, payload, condition) == Ok(true) <==> Holds(c, payload, condition)
    ensures Condition(c, payload, condition).Ok? <==> Judged(c, payload, condition)
  {
    match condition
    case Obj(o) => VerdictMeans(c.host, payload, o);
    case Arr(list) => ListMeans(c.host, payload, list);
    case _ =>
  }

  // ----- filter_array -----

  /** The payload with an item and its index. */
  function WithItem(c: Context, item: Value, index: nat): Object {
    c.payload + map["item" := item, "index" := Num(index as real)]
  }

  /** `expr` if there is one, else `where`: an object, or a list of conditions that must all be true. */
  predicate Wanted(c: Context, payload: Object, params: Object) {
    if !Text.Blank(Param(params, "expr")) then ExprHolds(c, payload, Param(params, "expr"))
    else
      && "where" in params
      && match params["where"]
         case Obj(o) => ObjectHolds(c.host, payload, o)
         case Arr(list) => AllHold(c.host, payload, list)
         case _ => false
  }

  predicate Filterable(c: Context, payload: Object, params: Object) {
    if !Text.Blank(Param(params, "expr")) then c.host.cel(Param(params, "expr"), payload, c.headers).Ok?
    else
      && "where" in params
      && match params["where"]
         case Obj(o) => ObjectJudged(c.host, payload, o)
         case Arr(list) => AllObjects(list)
         case _ => false
  }

  lemma MatchMeans(c: Context, item: Value, index: nat, params: Object)
    ensures Matches(c, item, index, params) == Ok(true) <==> Wanted(c, WithItem(c, item, index), params)
    ensures Matches(c, item, index, params).Ok? <==> Filterable(c, WithItem(c, item, index), params)
  {
    var payload := WithItem(c, item, index);
    assert payload == c.payload["item" := item]["index" := Count(index)];
    if Text.Blank(Param(params, "expr")) && "where" in params {
      match params["where"]
      case Obj(o) => VerdictMeans(c.host, payload, o);
      case Arr(list) => ListMeans(c.host, payload, list);
      case _ =>
    }
  }

  /** filter_array has no problem exactly when its condition can be judged on every item; it then keeps exactly the
      items on which the condition holds, each once and in order. */
  lemma FilterIsExact(c: Context, items: seq<Value>, params: Object) returns (at: seq<nat>)
    ensures Filter(c, items, params).Ok? <==>
            forall i | 0 <= i < |items| :: Filterable(c, WithItem(c, items[i], i), params)
    ensures Filter(c, items, params).Ok? ==>
              var kept := Filter(c, items, params).value;
              && |at| == |kept| <= |items|
              && (forall j, k | 0 <= j < k < |at| :: at[j] < at[k])
              && (forall k | 0 <= k < |at| :: at[k] < |items| && kept[k] == items[at[k]])
              && (forall i: nat | i < |items| :: i in at <==> Wanted(c, WithItem(c, items[i], i), params))
  {
    var rs := seq(|items|, k requires 0 <= k < |items| => FilterItem(c, items[k], k, params));
    at := L.CollectPicks(rs);
    forall i: nat | i < |items|
      ensures rs[i].Ok? <==> Filterable(c, WithItem(c, items[i], i), params)
      ensures rs[i] == Ok(Some(items[i])) <==> Wanted(c, WithItem(c, items[i], i), params)
    {
      MatchMeans(c, items[i], i, params);
    }
    if Collect(rs).Ok? { L.FewPicks(at, |items|); }
  }

  // ----- array_transform -----

  /** The payload that an item is seen in. */
  function Surrounded(c: Context, item: Value, index: nat, parent: Value): Object {
    c.payload + map["item" := item, "index" := Num(index as real), "parent" := parent, "today" := Str(c.today),
                    "end_of_current_month_plus_2" := Str(c.monthEnd)]
  }

  /** `filters` if there are any, else `where`; without either every item is kept. */
  predicate Selected(c: Context, payload: Object, params: Object) {
    if "filters" in params then Holds(c, payload, params["filters"])
    else "where" in params ==> Holds(c, payload, params["where"])
  }

  predicate Selectable(c: Context, payload: Object, params: Object) {
    if "filters" in params then Judged(c, payload, params["filters"])
    else "where" in params ==> Judged(c, payload, params["where"])
  }

  lemma KeepMeans(c: Context, item: Value, index: nat, params: Object, parent: Value)
    ensures ItemPayload(c, item, index, parent) == Surrounded(c, item, index, parent)
    ensures Keeps(c, Surrounded(c, item, index, parent), params) == Ok(true)
            <==> Selected(c, Surrounded(c, item, index, parent), params)
    ensures Keeps(c, Surrounded(c, item, index, parent), params).Ok?
            <==> Selectable(c, Surrounded(c, item, index, parent), params)
  {
    var payload := Surrounded(c, item, index, parent);
    if "filters" in params {
      ConditionMeans(c, payload, params["filters"]);
    } else if "where" in params {
      ConditionMeans(c, payload, params["where"]);
    }
  }

  /** What becomes of one item. */
  lemma ItemMeans(c: Context, ord: Orders, site: seq<nat>, item: Value, index: nat, params: Value, parent: Value)
    requires params.Obj? && TransformItem(c, ord, site, item, index, params, parent).Ok?
    ensures var res := TransformItem(c, ord, site, item, index, params, parent).value;
            && (res.Some? <==> Selected(c, Surrounded(c, item, index, parent), params.fields))
            && (res.Some? ==>
                  && (res.value.Obj? <==> item.Obj?)
                  && (!item.Obj? || ("updates" !in params.fields && "nested" !in params.fields) ==> res.value == item))
  {
    KeepMeans(c, item, index, params.fields, parent);
    if item.Obj? && "updates" !in params.fields && "nested" !in params.fields {
      var payload := ItemPayload(c, item, index, parent);
      assert ApplyNested(c, ord, site, item.fields, params) == Ok(item.fields);
      assert Updated(c, ord, site, payload, item.fields, params) == Ok(item.fields);
    }
  }

  /** When array_transform has no problem, it keeps exactly the items that its filters select, each once and in order;
      items that are no objects, and all items if there is nothing to update, are kept as they are. */
  lemma TransformKeepsSelected(c: Context, ord: Orders, site: seq<nat>, items: seq<Value>, params: Value, parent: Value)
    returns (at: seq<nat>)
    requires params.Obj? && Transform(c, ord, site, items, params, parent).Ok?
    ensures var kept := Transform(c, ord, site, items, params, parent).value;
            && |at| == |kept|
            && (forall j, k | 0 <= j < k < |at| :: at[j] < at[k])
            && (forall k | 0 <= k < |at| ::
                  && at[k] < |items| && (kept[k].Obj? <==> items[at[k]].Obj?)
                  && (!items[at[k]].Obj? || ("updates" !in params.fields && "nested" !in params.fields) ==>
                        kept[k] == items[at[k]]))
            && (forall i: nat | i < |items| ::
                  i in at <==> Selected(c, Surrounded(c, items[i], i, parent), params.fields))
  {
    var rs := seq(|items|, k requires 0 <= k < |items| =>
                    TransformItem(c, ord, site + [k], items[k], k, params, parent));
    at := L.CollectPicks(rs);
    forall i: nat | i < |items|
      ensures rs[i].Ok? && (rs[i].value.Some? <==> Selected(c, Surrounded(c, items[i], i, parent), params.fields))
      ensures rs[i].value.Some? ==>
                && (rs[i].value.value.Obj? <==> items[i].Obj?)
                && (!items[i].Obj? || ("updates" !in params.fields && "nested" !in params.fields) ==>
                      rs[i].value.value == items[i])
    {
      assert rs[i].Ok?;
      ItemMeans(c, ord, site + [i], items[i], i, params, parent);
    }
  }

  /** An update writes its "set" object exactly when it has no `when` or its `when` holds on the payload with the item
      as written so far; otherwise it leaves the item alone. */
  lemma UpdateMeans(c: Context, ord: Orders, site: seq<nat>, payload: Object, item: Object, update: Value, index: nat)
    requires update.Obj?
    ensures var now, res := payload + map["item" := Obj(item)], Update(c, ord, site, payload, item, update, index);
            var applies := "when" in update.fields ==> Holds(c, now, update.fields["when"]);
            && ("when" in update.fields && !Judged(c, now, update.fields["when"]) ==> res.Err?)
            && ("when" in update.fields && Judged(c, now, update.fields["when"]) && !applies ==> res == Ok(item))
            && (applies && ("set" !in update.fields || !update.fields["set"].Obj?) ==>
                  res == Err(SetNotAnObject(index)))
            && (applies && "set" in update.fields && update.fields["set"].Obj? ==>
                  var set_ := update.fields["set"].fields;
                  res == WriteAll(payload, item, set_, ord(site + [0, index], set_)))
  {
    var now := payload + map["item" := Obj(item)];
    assert now == Seen(payload, item);
    if "when" in update.fields {
      ConditionMeans(c, now, update.fields["when"]);
    }
  }

  // ----- The handlers -----

  /** Where a handler finds its items, or why not. */
  predicate SourceReads(c: Context, source: string, o: Outcome) {
    var found := Paths.MessagePath(c.payload, source);
    && (Text.Blank(source) ==> o == Outcome(c.payload, Some(SourceRequired)))
    && (!Text.Blank(source) && found.None? ==> o == Outcome(c.payload, Some(SourceMissing(source))))
    && (!Text.Blank(source) && found.Some? && !found.value.Arr? ==>
          o == Outcome(c.payload, Some(SourceNotAnArray(source))))
  }

  /** The first text that is not blank, else the second. */
  function Either(first: string, second: string): string { if Text.Blank(first) then second else first }

  predicate HasItems(c: Context, source: string) {
    && !Text.Blank(source)
    && var found := Paths.MessagePath(c.payload, source); found.Some? && found.value.Arr?
  }

  /** filter_array, from its parameters to the payload. */
  lemma FilterOutcome(c: Context, params: Object)
    ensures var source := Either(Param(params, "source"), Param(params, "field"));
            var target, o := Either(Param(params, "target"), source), HandleFilter(c, params);
            && SourceReads(c, source, o)
            && (HasItems(c, source) ==>
                  var items := Paths.MessagePath(c.payload, source).value.items;
                  var kept := Filter(c, items, params);
                  && (kept.Err? ==> o == Outcome(c.payload, Some(kept.error)))
                  && (kept.Ok? && o.err.None? ==>
                        && Paths.GetPath(o.payload, target) == Some(Arr(kept.value))
                        && o.payload[target + "_filtered_count"] == Num(|kept.value| as real)
                        && o.payload[target + "_removed_count"] == Num((|items| - |kept.value|) as real)))
  {
    var source := Either(Param(params, "source"), Param(params, "field"));
    if HasItems(c, source) {
      var items := Paths.MessagePath(c.payload, source).value.items;
      var kept := Filter(c, items, params);
      if kept.Ok? && HandleFilter(c, params).err.None? {
        FilterStored(c.payload, Either(Param(params, "target"), source), kept.value, |items|);
      }
    }
  }

  lemma FilterStored(payload: Object, target: string, kept: seq<Value>, total: nat)
    requires StoreFiltered(payload, target, kept, total).err.None? && !Text.Blank(target)
    ensures var payload' := StoreFiltered(payload, target, kept, total).payload;
            && Paths.GetPath(payload', target) == Some(Arr(kept))
            && target + "_filtered_count" in payload' && target + "_removed_count" in payload'
            && payload'[target + "_filtered_count"] == Num(|kept| as real)
            && payload'[target + "_removed_count"] == Num((total - |kept|) as real)
  {
    Paths.StrictReadBack(payload, Paths.Segments(target), Arr(kept));
    L.FirstSegmentIsShort(target);
    assert (target + "_filtered_count")[|target| + 1] == 'f' && (target + "_removed_count")[|target| + 1] == 'r';
  }

  /** array_transform, from its parameters to the payload. */
  lemma TransformOutcome(c: Context, ord: Orders, params: Object)
    ensures var source := Param(params, "source");
            var target, o := Either(Param(params, "target"), source), HandleTransform(c, ord, params);
            && SourceReads(c, source, o)
            && (HasItems(c, source) ==>
                  var items := Paths.MessagePath(c.payload, source).value.items;
                  var done := Transform(c, ord, [], items, Obj(params), Null);
                  && (done.Err? ==> o == Outcome(c.payload, Some(ItemFailed(done.error))))
                  && (done.Ok? && o.err.None? ==>
                        && Paths.GetPath(o.payload, target) == Some(Arr(done.value))
                        && target + "_transformed_count" in o.payload
                        && o.payload[target + "_transformed_count"] == Num(|done.value| as real)))
  {
    var source := Param(params, "source");
    if HasItems(c, source) {
      var done := Transform(c, ord, [], Paths.MessagePath(c.payload, source).value.items, Obj(params), Null);
      var target := Either(Param(params, "target"), source);
      if done.Ok? && HandleTransform(c, ord, params).err.None? { L.ResultIsReadBack(c.payload, target, done.value); }
    }
  }

  /** A nested transform reads the array at its source, with the item as the parent of its items, and writes the result
      to its target; an item without that array is left alone. */
  lemma NestedMeans(c: Context, ord: Orders, site: seq<nat>, item: Object, cfg: Value, index: nat)
    requires cfg.Obj?
    ensures var source := Either(Param(cfg.fields, "source"), Param(cfg.fields, "field"));
            var target, res := Either(Param(cfg.fields, "target"), source), NestedOne(c, ord, site, item, cfg, index);
            var found := Paths.GetPath(item, source);
            && (Text.Blank(source) ==> res == Err(NestedWithoutSource(index)))
            && (!Text.Blank(source) && found.None? ==> res == Ok(item))
            && (found.Some? && !found.value.Arr? ==> res == Err(NestedNotAnArray(index)))
            && (found.Some? && found.value.Arr? ==>
                  var done := Transform(c, ord, site, found.value.items, cfg, Obj(item));
                  && (done.Err? ==> res == Err(done.error))
                  && (done.Ok? && res.Ok? ==>
                        && Paths.GetPath(res.value, target) == Some(Arr(done.value))
                        && forall p | Paths.Disjoint(Paths.Segments(target), p) ::
                             Paths.Walk(Obj(res.value), p) == Paths.Walk(Obj(item), p)))
  {
    var source := Either(Param(cfg.fields, "source"), Param(cfg.fields, "field"));
    var target, found := Either(Param(cfg.fields, "target"), source), Paths.GetPath(item, source);
    if found.Some? && found.value.Arr? {
      var done := Transform(c, ord, site, found.value.items, cfg, Obj(item));
      if done.Ok? { WrittenReads(item, target, Arr(done.value)); }
    }
  }

  lemma WrittenReads(item: Object, path: string, v: Value)
    requires !Text.Blank(path)
    ensures Write(item, path, v).Ok? ==> Paths.GetPath(Write(item, path, v).value, path) == Some(v)
    ensures Write(item, path, v).Ok? ==> forall p | Paths.Disjoint(Paths.Segments(path), p) ::
              Paths.Walk(Obj(Write(item, path, v).value), p) == Paths.Walk(Obj(item), p)
  {
    var parts := Paths.Segments(path);
    Paths.StrictReadBack(item, parts, v);
    forall p | Paths.Disjoint(parts, p)
      ensures Paths.Walk(Obj(Paths.SetBelow(item, parts, v).0), p) == Paths.Walk(Obj(item), p)
    {
      Paths.StrictFrame(item, parts, v, p);
    }
  }

  // ----- Values -----

  /** The value of a path in a "set" object: what a `from` finds in the payload, its item as written so far, or null;
      any other value stands for itself. */
  lemma ValueMeans(payload: Object, item: Object, value: Value)
    ensures var now, stands := payload + map["item" := Obj(item)], Resolve(Seen(payload, item), value);
            if value.Obj? && "from" in value.fields && value.fields["from"].Str? then
              match Paths.GetPath(now, value.fields["from"].s)
              case Some(v) => stands == v
              case None => stands == Null
            else stands == value
  {
    assert payload + map["item" := Obj(item)] == Seen(payload, item);
  }

  /** Writing a "set" object in an order: the first path of the order that it has, and then the others, each value
      read from the item as written so far. */
  lemma WritesInOrder(payload: Object, item: Object, set_: Object, path: string, rest: seq<string>)
    ensures WriteAll(payload, item, set_, []) == Ok(item)
    ensures path !in set_ ==> WriteAll(payload, item, set_, [path] + rest) == WriteAll(payload, item, set_, rest)
    ensures path in set_ ==>
              var (item', e) := Paths.SetPath(item, path, Resolve(Seen(payload, item), set_[path]));
              WriteAll(payload, item, set_, [path] + rest)
              == if e.Some? then Err(BadWrite(path, e.value)) else WriteAll(payload, item', set_, rest)
  {
    assert ([path] + rest)[1..] == rest;
  }
}
