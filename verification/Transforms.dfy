/** What array_transform computes: each item is kept or dropped by a filter, updated, and has its own
    arrays transformed in turn. */
module Transforms {
  import opened Prelude
  import opened Json
  import opened Conditions
  import Paths
  import Text

  datatype Context = Context(
    host: Host, payload: Object, headers: map<string, string>, today: string, monthEnd: string)

  /** The order in which the paths of a "set" object are visited, at each place of a run: Go iterates
      maps in any order, a new one each time. */
  type Orders = (seq<nat>, Object) -> seq<string>

  datatype Problem =
    | BadCondition | NotABool(reason: string) | Undecided(fault: Conditions.Fault)
    | UpdatesNotAList | UpdateNotAnObject(index: nat) | SetNotAnObject(index: nat)
    | NestedNotAList | NestedNotAnObject(index: nat) | NestedWithoutSource(index: nat) | NestedNotAnArray(index: nat)
    | BadWrite(path: string, error: Paths.PathError)

  // ----- Conditions and values -----

  /** arrayTransformPayload */
  function ItemPayload(c: Context, item: Value, index: nat, parent: Value): Object {
    c.payload["item" := item]["index" := Num(index as real)]["parent" := parent]["today" := Str(c.today)]
             ["end_of_current_month_plus_2" := Str(c.monthEnd)]
  }

  function Passed(v: Verdict): Result<bool, Problem> {
    match v
    case Err(e) => Err(Undecided(e))
    case Ok(p) => Ok(p.0)
  }

  function CEL(c: Context, payload: Object, expr: string): Result<bool, Problem> {
    match c.host.cel(expr, payload, c.headers)
    case Err(e) => Err(NotABool(e))
    case Ok(b) => Ok(b)
  }

  /** evaluateArrayTransformCondition */
  function Condition(c: Context, payload: Object, condition: Value): Result<bool, Problem> {
    match condition
    case Str(expr) => CEL(c, payload, expr)
    case Obj(o) =>
      if !Text.Blank(Param(o, "expr")) then CEL(c, payload, Param(o, "expr")) else Passed(Assert(c.host, payload, o))
    case Arr(items) => Passed(Assert(c.host, payload, map["all" := Arr(items)]))
    case _ => Err(BadCondition)
  }

  /** evaluateArrayTransformFilters */
  function Keeps(c: Context, payload: Object, params: Object): Result<bool, Problem> {
    if "filters" in params then Condition(c, payload, params["filters"])
    else if "where" in params then Condition(c, payload, params["where"])
    else Ok(true)
  }

  /** The path that a value is read from, if it is not a literal. */
  function From(value: Value): Option<string> {
    if value.Obj? && "from" in value.fields && value.fields["from"].Str? then Some(value.fields["from"].s) else None
  }

  /** resolveTransformValue */
  function Resolve(payload: Object, value: Value): Value {
    match From(value)
    case Some(path) => Paths.GetPath(payload, path).Or(Null)
    case None => value
  }

  // ----- Updates -----

  function Write(item: Object, path: string, value: Value): Result<Object, Problem> {
    var (item', e) := Paths.SetPath(item, path, value);
    match e
    case Some(error) => Err(BadWrite(path, error))
    case None => Ok(item')
  }

  /** The payload that updates read: its item is the working item, as written so far. */
  function Seen(payload: Object, item: Object): Object { payload["item" := Obj(item)] }

  /** Write the paths of a "set" object in an order; names outside the object do not count. */
  function WriteAll(payload: Object, item: Object, set_: Object, order: seq<string>): Result<Object, Problem>
    decreases |order|
  {
    if order == [] then Ok(item)
    else if order[0] !in set_ then WriteAll(payload, item, set_, order[1..])
    else match Write(item, order[0], Resolve(Seen(payload, item), set_[order[0]]))
         case Err(e) => Err(e)
         case Ok(item') => WriteAll(payload, item', set_, order[1..])
  }

  function Update(c: Context, ord: Orders, site: seq<nat>, payload: Object, item: Object, update: Value, index: nat)
    : Result<Object, Problem>
  {
    if !update.Obj? then Err(UpdateNotAnObject(index))
    else
      var when := if "when" in update.fields then Condition(c, Seen(payload, item), update.fields["when"])
                  else Ok(true);
      match when
      case Err(e) => Err(e)
      case Ok(false) => Ok(item)
      case Ok(true) =>
        if "set" in update.fields && update.fields["set"].Obj? then
          var set_ := update.fields["set"].fields;
          WriteAll(payload, item, set_, ord(site + [0, index], set_))
        else Err(SetNotAnObject(index))
  }

  /** The updates from a position on, one after the other. */
  function Updates(c: Context, ord: Orders, site: seq<nat>, payload: Object, item: Object, updates: seq<Value>, n: nat)
    : Result<Object, Problem>
    requires n <= |updates|
    decreases |updates| - n
  {
    if n == |updates| then Ok(item)
    else match Update(c, ord, site, payload, item, updates[n], n)
         case Err(e) => Err(e)
         case Ok(item') => Updates(c, ord, site, payload, item', updates, n + 1)
  }

  function ApplyUpdates(c: Context, ord: Orders, site: seq<nat>, payload: Object, item: Object, params: Object)
    : Result<Object, Problem>
  {
    if "updates" !in params then Ok(item)
    else if !params["updates"].Arr? then Err(UpdatesNotAList)
    else Updates(c, ord, site, payload, item, params["updates"].items, 0)
  }

  // ----- Items -----

  type Kept<E> = Result<Option<Value>, E>

  /** Keep the values that were kept, in order; the first problem wins. */
  function Collect<E>(rs: seq<Kept<E>>): Result<seq<Value>, E> {
    if rs == [] then Ok([])
    else match Collect(rs[..|rs| - 1])
         case Err(e) => Err(e)
         case Ok(front) =>
           match rs[|rs| - 1]
           case Err(e) => Err(e)
           case Ok(None) => Ok(front)
           case Ok(Some(v)) => Ok(front + [v])
  }

  /** transformArrayItems: what becomes of each item does not depend on the other items. */
  function Transform(c: Context, ord: Orders, site: seq<nat>, items: seq<Value>, params: Value, parent: Value)
    : Result<seq<Value>, Problem>
    requires params.Obj?
    decreases params, 3
  {
    Collect(seq(|items|, k requires 0 <= k < |items| => TransformItem(c, ord, site + [k], items[k], k, params, parent)))
  }

  function TransformItem(
    c: Context, ord: Orders, site: seq<nat>, item: Value, index: nat, params: Value, parent: Value): Kept<Problem>
    requires params.Obj?
    decreases params, 2
  {
    var payload := ItemPayload(c, item, index, parent);
    match Keeps(c, payload, params.fields)
    case Err(e) => Err(e)
    case Ok(false) => Ok(None)
    case Ok(true) =>
      if !item.Obj? then Ok(Some(item))
      else match Updated(c, ord, site, payload, item.fields, params)
           case Err(e) => Err(e)
           case Ok(done) => Ok(Some(Obj(done)))
  }

  /** An item that is kept: its updates, then its nested transforms. */
  function Updated(c: Context, ord: Orders, site: seq<nat>, payload: Object, item: Object, params: Value)
    : Result<Object, Problem>
    requires params.Obj?
    decreases params, 1, 1
  {
    match ApplyUpdates(c, ord, site, payload, item, params.fields)
    case Err(e) => Err(e)
    case Ok(updated) => ApplyNested(c, ord, site, updated, params)
  }

  function ApplyNested(c: Context, ord: Orders, site: seq<nat>, item: Object, params: Value): Result<Object, Problem>
    requires params.Obj?
    decreases params, 1, 0
  {
    if "nested" !in params.fields then Ok(item)
    else
      var list := params.fields["nested"];
      if !list.Arr? then Err(NestedNotAList) else Nested(c, ord, site, item, list, 0)
  }

  /** The nested transforms from a position on, one after the other. */
  function Nested(c: Context, ord: Orders, site: seq<nat>, item: Object, list: Value, n: nat): Result<Object, Problem>
    requires list.Arr? && n <= |list.items|
    decreases list, |list.items| - n
  {
    if n == |list.items| then Ok(item)
    else match NestedOne(c, ord, site + [1, n], item, list.items[n], n)
         case Err(e) => Err(e)
         case Ok(item') => Nested(c, ord, site, item', list, n + 1)
  }

  function Source(cfg: Object): string {
    if Text.Blank(Param(cfg, "source")) then Param(cfg, "field") else Param(cfg, "source")
  }

  function TargetOf(cfg: Object, source: string): string {
    if Text.Blank(Param(cfg, "target")) then source else Param(cfg, "target")
  }

  function NestedOne(c: Context, ord: Orders, site: seq<nat>, item: Object, cfg: Value, index: nat): Result<Object,
                     Problem>
    decreases cfg, 4
  {
    if !cfg.Obj? then Err(NestedNotAnObject(index))
    else
      var source := Source(cfg.fields);
      if Text.Blank(source) then Err(NestedWithoutSource(index))
      else match Paths.GetPath(item, source)
           case None => Ok(item)
           case Some(raw) =>
             if !raw.Arr? then Err(NestedNotAnArray(index))
             else match Transform(c, ord, site, raw.items, cfg, Obj(item))
                  case Err(e) => Err(e)
                  case Ok(done) => Write(item, TargetOf(cfg.fields, source), Arr(done))
  }

  // ----- The handlers -----

  datatype Failed = SourceRequired | SourceMissing(source: string) | SourceNotAnArray(source: string)
                  | ItemFailed(problem: Problem) | TargetFailed(error: Paths.PathError)
                  | WhereRequired | WhereInvalid

  /** What a handler leaves: the payload, and its error if there is one. */
  datatype Outcome = Outcome(payload: Object, err: Option<Failed>)

  function Count(n: int): Value { Num(n as real) }

  /** ArrayTransformHandler.Handle. A write that fails leaves what it has created. */
  function HandleTransform(c: Context, ord: Orders, params: Object): Outcome {
    var source := Param(params, "source");
    if Text.Blank(source) then Outcome(c.payload, Some(SourceRequired))
    else match Paths.MessagePath(c.payload, source)
         case None => Outcome(c.payload, Some(SourceMissing(source)))
         case Some(raw) =>
           if !raw.Arr? then Outcome(c.payload, Some(SourceNotAnArray(source)))
           else match Transform(c, ord, [], raw.items, Obj(params), Null)
                case Err(e) => Outcome(c.payload, Some(ItemFailed(e)))
                case Ok(done) => StoreTransformed(c.payload, TargetOf(params, source), done)
  }

  function StoreTransformed(payload: Object, target: string, done: seq<Value>): Outcome {
    var (payload', e) := Paths.SetPath(payload, target, Arr(done));
    match e
    case Some(error) => Outcome(payload', Some(TargetFailed(error)))
    case None => Outcome(payload'[target + "_transformed_count" := Count(|done|)], None)
  }

  /** evaluateFilterArrayItem */
  function Matches(c: Context, item: Value, index: nat, params: Object): Result<bool, Failed> {
    var payload := c.payload["item" := item]["index" := Count(index)];
    if !Text.Blank(Param(params, "expr")) then AsFailed(CEL(c, payload, Param(params, "expr")))
    else if "where" !in params then Err(WhereRequired)
    else match params["where"]
         case Obj(o) => AsFailed(Passed(Assert(c.host, payload, o)))
         case Arr(items) => AsFailed(Passed(Assert(c.host, payload, map["all" := Arr(items)])))
         case _ => Err(WhereInvalid)
  }

  function AsFailed(r: Result<bool, Problem>): Result<bool, Failed> {
    match r
    case Err(e) => Err(ItemFailed(e))
    case Ok(b) => Ok(b)
  }

  function FilterItem(c: Context, item: Value, index: nat, params: Object): Kept<Failed> {
    match Matches(c, item, index, params)
    case Err(e) => Err(e)
    case Ok(b) => Ok(if b then Some(item) else None)
  }

  function Filter(c: Context, items: seq<Value>, params: Object): Result<seq<Value>, Failed> {
    Collect(seq(|items|, k requires 0 <= k < |items| => FilterItem(c, items[k], k, params)))
  }

  /** FilterArrayHandler.Handle */
  function HandleFilter(c: Context, params: Object): Outcome {
    var source := Source(params);
    if Text.Blank(source) then Outcome(c.payload, Some(SourceRequired))
    else match Paths.MessagePath(c.payload, source)
         case None => Outcome(c.payload, Some(SourceMissing(source)))
         case Some(raw) =>
           if !raw.Arr? then Outcome(c.payload, Some(SourceNotAnArray(source)))
           else match Filter(c, raw.items, params)
                case Err(e) => Outcome(c.payload, Some(e))
                case Ok(kept) => StoreFiltered(c.payload, TargetOf(params, source), kept, |raw.items|)
  }

  function StoreFiltered(payload: Object, target: string, kept: seq<Value>, total: nat): Outcome {
    var (payload', e) := Paths.SetPath(payload, target, Arr(kept));
    match e
    case Some(error) => Outcome(payload', Some(TargetFailed(error)))
    case None => Outcome(payload'[target + "_filtered_count" := Count(|kept|)]
                                 [target + "_removed_count" := Count(total - |kept|)], None)
  }
}
