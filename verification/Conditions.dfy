/** The conditions of the assert, jump_if and filter handlers, over a payload. */
module Conditions {
  import opened Prelude
  import opened Json
  import Paths
  import Text

  /** Library calls that stay abstract: strconv.ParseFloat on trimmed text, fmt.Sprintf("%v"), and the
      evaluation of a CEL expression, which may fail. */
  datatype Host = Host(
    parse: string -> Option<real>,
    show: Value -> string,
    cel: (string, Object, map<string, string>) -> Result<bool, string>)

  datatype Fault =
    | NotAPath | FieldRequired | FieldMissing(field: string) | NotNumeric | NotCountable(field: string)
    | NoComparison | NotAList | NotAnObject(index: nat)
  {
    function Reason(): string {
      match this
      case NotAPath => "exists must be a field path"
      case FieldRequired => "field is required"
      case FieldMissing(f) => "field " + f + " not found"
      case NotNumeric => "value is not numeric"
      case NotCountable(f) => "field " + f + " is not countable"
      case NoComparison => "no supported comparison configured"
      case NotAList => "conditions must be a list"
      case NotAnObject(i) => "condition " + Text.Itoa(i) + " must be an object"
    }
  }

  /** A string parameter, empty when it is absent or no string. */
  function Param(params: Object, key: string): string {
    if key in params && params[key].Str? then params[key].s else ""
  }

  function ToFloat(h: Host, v: Value): Option<real> {
    match v
    case Num(n) => Some(n)
    case Str(s) => h.parse(Text.TrimSpace(s))
    case _ => None
  }

  predicate ValuesEqual(h: Host, a: Value, b: Value) {
    if ToFloat(h, a).Some? && ToFloat(h, b).Some? then ToFloat(h, a) == ToFloat(h, b)
    else h.show(a) == h.show(b) || a == b
  }

  function CompareNumbers(h: Host, a: Value, b: Value, cmp: (real, real) -> bool): Result<bool, Fault> {
    match ToFloat(h, a)
    case None => Err(NotNumeric)
    case Some(x) => match ToFloat(h, b)
                    case None => Err(NotNumeric)
                    case Some(y) => Ok(cmp(x, y))
  }

  /** The number of bytes of a text in UTF-8. */
  function ByteLength(s: string): nat {
    if s == "" then 0
    else (if s[0] < '\U{80}' then 1 else if s[0] < '\U{800}' then 2 else if s[0] < '\U{10000}' then 3 else 4)
         + ByteLength(s[1..])
  }

  function CollectionLength(v: Value): Option<nat> {
    match v
    case Arr(items) => Some(|items|)
    case Obj(fields) => Some(|fields|)
    case Str(s) => Some(ByteLength(s))
    case _ => None
  }

  function CompareLength(h: Host, v: Value, field: string, limit: Value,
                         cmp: (real, real) -> bool): Result<bool, Fault> {
    match CollectionLength(v)
    case None => Err(NotCountable(field))
    case Some(n) => match ToFloat(h, limit)
                    case None => Err(NotNumeric)
                    case Some(y) => Ok(cmp(n as real, y))
  }

  /** The comparison of a field that exists. */
  function Comparison(h: Host, left: Value, field: string, config: Object): Result<bool, Fault> {
    if "equals" in config then Ok(ValuesEqual(h, left, config["equals"]))
    else if "not_equals" in config then Ok(!ValuesEqual(h, left, config["not_equals"]))
    else if "less_than" in config then CompareNumbers(h, left, config["less_than"], (a, b) => a < b)
    else if "less_than_or_equal" in config then CompareNumbers(h, left, config["less_than_or_equal"], (a, b) => a <= b)
    else if "greater_than" in config then CompareNumbers(h, left, config["greater_than"], (a, b) => a > b)
    else if "greater_than_or_equal" in config then
      CompareNumbers(h, left, config["greater_than_or_equal"], (a, b) => a >= b)
    else if "min_items" in config then CompareLength(h, left, field, config["min_items"], (a, b) => a >= b)
    else if "max_items" in config then CompareLength(h, left, field, config["max_items"], (a, b) => a <= b)
    else Err(NoComparison)
  }

  /** evaluateConditionConfig */
  function Evaluate(h: Host, payload: Object, config: Object): Result<bool, Fault> {
    if "exists" in config then
      var raw := config["exists"];
      var field := if raw.Str? then raw.s else Param(config, "field");
      if Text.Blank(field) then Err(NotAPath)
      else
        var found := Paths.MessagePath(payload, field).Some?;
        Ok(if raw.Bool? then found == raw.b else found)
    else
      var field := Param(config, "field");
      if Text.Blank(field) then Err(FieldRequired)
      else match Paths.MessagePath(payload, field)
           case None => Err(FieldMissing(field))
           case Some(left) => Comparison(h, left, field, config)
  }

  // ----- Lists of conditions -----

  /** A condition that did not hold, by its index, with the reason if it could not be evaluated. */
  datatype Failure = Failure(index: nat, reason: Option<Fault>)

  type Judgment = Result<bool, Fault>

  function Judge(judge: Object -> Judgment, conditions: seq<Object>): (r: seq<Judgment>)
    ensures |r| == |conditions|
  {
    seq(|conditions|, i requires 0 <= i < |conditions| => judge(conditions[i]))
  }

  /** The judgments that are not true, in order. */
  function Failures(rs: seq<Judgment>): seq<Failure> {
    if rs == [] then []
    else
      var last := |rs| - 1;
      Failures(rs[..last])
      + match rs[last]
        case Ok(true) => []
        case Ok(false) => [Failure(last, None)]
        case Err(e) => [Failure(last, Some(e))]
  }

  predicate All(rs: seq<Judgment>) { forall k | 0 <= k < |rs| :: rs[k] == Ok(true) }

  predicate Any(rs: seq<Judgment>) { exists k | 0 <= k < |rs| :: rs[k] == Ok(true) }

  predicate Reported(fs: seq<Failure>, k: nat) { exists f | f in fs :: f.index == k }

  lemma {:induction false} FailuresAreCounted(rs: seq<Judgment>)
    ensures |Failures(rs)| <= |rs|
    ensures Failures(rs) == [] <==> All(rs)
    ensures |Failures(rs)| == |rs| <==> !Any(rs)
  {
    if rs != [] {
      var last := |rs| - 1;
      FailuresAreCounted(rs[..last]);
      assert All(rs) <==> All(rs[..last]) && rs[last] == Ok(true);
      assert Any(rs) <==> Any(rs[..last]) || rs[last] == Ok(true);
    }
  }

  lemma {:induction false} FailuresAreExact(rs: seq<Judgment>, k: nat)
    ensures Reported(Failures(rs), k) <==> k < |rs| && rs[k] != Ok(true)
  {
    if rs != [] {
      var last := |rs| - 1;
      FailuresAreExact(rs[..last], k);
      var front, all := Failures(rs[..last]), Failures(rs);
      if rs[last] == Ok(true) {
        assert all == front;
      } else {
        assert all == front + [all[|front|]] && all[|front|].index == last;
        assert all[|front|] in all;
        if Reported(front, k) {
          var f :| f in front && f.index == k;
          assert f in all;
        }
      }
    }
  }

  /** The failures report exactly the judgments that are not true: none when all are, and as many as
      there are judgments when not any is. */
  lemma FailuresAreComplete(rs: seq<Judgment>)
    ensures forall k: nat :: Reported(Failures(rs), k) <==> k < |rs| && rs[k] != Ok(true)
    ensures Failures(rs) == [] <==> All(rs)
    ensures |Failures(rs)| == |rs| <==> !Any(rs)
  {
    FailuresAreCounted(rs);
    forall k: nat ensures Reported(Failures(rs), k) <==> k < |rs| && rs[k] != Ok(true) {
      FailuresAreExact(rs, k);
    }
  }

  function ConditionList(v: Value): Result<seq<Object>, Fault> {
    if !v.Arr? then Err(NotAList) else Objects(v.items)
  }

  /** The items as objects, or the index of the first that is none. */
  function Objects(items: seq<Value>): Result<seq<Object>, Fault> {
    if items == [] then Ok([])
    else
      var last := |items| - 1;
      match Objects(items[..last])
      case Err(e) => Err(e)
      case Ok(front) => if items[last].Obj? then Ok(front + [items[last].fields]) else Err(NotAnObject(last))
  }

  type Verdict = Result<(bool, seq<Failure>), Fault>

  /** evaluateAssertConfig: all of the conditions of "all", else some condition of "any", else the
      configuration itself as a condition. */
  function Assert(h: Host, payload: Object, params: Object): Verdict {
    if "all" in params then
      match ConditionList(params["all"])
      case Err(e) => Err(e)
      case Ok(cs) =>
        var rs := Judge(c => Evaluate(h, payload, c), cs);
        Ok((All(rs), Failures(rs)))
    else if "any" in params then
      match ConditionList(params["any"])
      case Err(e) => Err(e)
      case Ok(cs) =>
        var rs := Judge(c => Evaluate(h, payload, c), cs);
        if Any(rs) then Ok((true, [])) else Ok((false, Failures(rs)))
    else match Evaluate(h, payload, params)
         case Err(e) => Err(e)
         case Ok(b) => Ok((b, if b then [] else [Failure(0, None)]))
  }

  method ListConditions(v: Value) returns (res: Result<seq<Object>, Fault>)
    ensures res == ConditionList(v)
  {
    if !v.Arr? {
      return Err(NotAList);
    }
    var conditions: seq<Object> := [];
    for index := 0 to |v.items|
      invariant Objects(v.items[..index]) == Ok(conditions)
    {
      assert v.items[..index + 1][..index] == v.items[..index];
      if !v.items[index].Obj? {
        ObjectsFail(v.items, index + 1);
        return Err(NotAnObject(index));
      }
      conditions := conditions + [v.items[index].fields];
    }
    assert v.items[..|v.items|] == v.items;
    res := Ok(conditions);
  }

  lemma {:induction false} ObjectsFail(items: seq<Value>, n: nat)
    requires n <= |items| && Objects(items[..n]).Err?
    ensures Objects(items) == Objects(items[..n])
    decreases |items|
  {
    if n < |items| {
      assert items[..|items| - 1][..n] == items[..n];
      ObjectsFail(items[..|items| - 1], n);
    } else {
      assert items[..n] == items;
    }
  }

  method EvaluateAll(judge: Object -> Judgment, conditions: seq<Object>) returns (passed: bool, failures: seq<Failure>)
    ensures failures == Failures(Judge(judge, conditions))
    ensures passed == All(Judge(judge, conditions))
  {
    ghost var rs := Judge(judge, conditions);
    failures := [];
    for index := 0 to |conditions|
      invariant failures == Failures(rs[..index])
    {
      assert rs[..index + 1][..index] == rs[..index];
      var judgment := judge(conditions[index]);
      assert judgment == rs[index];
      match judgment {
        case Err(e) => failures := failures + [Failure(index, Some(e))];
        case Ok(matched) => if !matched { failures := failures + [Failure(index, None)]; }
      }
    }
    assert rs[..|rs|] == rs;
    FailuresAreComplete(rs);
    passed := |failures| == 0;
  }

  method EvaluateAny(judge: Object -> Judgment, conditions: seq<Object>) returns (passed: bool, failures: seq<Failure>)
    ensures passed == Any(Judge(judge, conditions))
    ensures failures == if passed then [] else Failures(Judge(judge, conditions))
  {
    ghost var rs := Judge(judge, conditions);
    failures := [];
    for index := 0 to |conditions|
      invariant failures == Failures(rs[..index])
      invariant forall j | 0 <= j < index :: rs[j] != Ok(true)
    {
      assert rs[..index + 1][..index] == rs[..index];
      var judgment := judge(conditions[index]);
      assert judgment == rs[index];
      match judgment {
        case Err(e) => failures := failures + [Failure(index, Some(e))];
        case Ok(matched) =>
          if matched {
            return true, [];
          }
          failures := failures + [Failure(index, None)];
      }
    }
    assert rs[..|rs|] == rs;
    passed := false;
  }

  method EvaluateAssert(h: Host, payload: Object, params: Object) returns (res: Verdict)
    ensures res == Assert(h, payload, params)
  {
    if "all" in params {
      var conditions := ListConditions(params["all"]);
      if conditions.Err? {
        return Err(conditions.error);
      }
      var passed, failures := EvaluateAll(c => Evaluate(h, payload, c), conditions.value);
      return Ok((passed, failures));
    }
    if "any" in params {
      var conditions := ListConditions(params["any"]);
      if conditions.Err? {
        return Err(conditions.error);
      }
      var passed, failures := EvaluateAny(c => Evaluate(h, payload, c), conditions.value);
      return Ok((passed, failures));
    }
    match Evaluate(h, payload, params) {
      case Err(e) => res := Err(e);
      case Ok(b) => res := Ok((b, if b then [] else [Failure(0, None)]));
    }
  }

  // ----- What a single condition says -----

  /** A condition on a field, with one operator. */
  function On(field: string, operator: string, limit: Value): Object { map["field" := Str(field)][operator := limit] }

  /** The field is there. */
  predicate Has(payload: Object, field: string, left: Value) {
    !Text.Blank(field) && Paths.MessagePath(payload, field) == Some(left)
  }

  /** On numbers, and on texts that are numbers, the operators compare the numbers. */
  lemma NumbersAreEqual(h: Host, payload: Object, field: string, left: Value, limit: Value, x: real, y: real)
    requires Has(payload, field, left) && ToFloat(h, left) == Some(x) && ToFloat(h, limit) == Some(y)
    ensures Evaluate(h, payload, On(field, "equals", limit)) == Ok(x == y)
    ensures Evaluate(h, payload, On(field, "not_equals", limit)) == Ok(x != y)
  {}

  lemma NumbersAreLess(h: Host, payload: Object, field: string, left: Value, limit: Value, x: real, y: real)
    requires Has(payload, field, left) && ToFloat(h, left) == Some(x) && ToFloat(h, limit) == Some(y)
    ensures Evaluate(h, payload, On(field, "less_than", limit)) == Ok(x < y)
    ensures Evaluate(h, payload, On(field, "less_than_or_equal", limit)) == Ok(x <= y)
  {
    OneOperator(h, payload, field, left, "less_than", limit);
    OneOperator(h, payload, field, left, "less_than_or_equal", limit);
  }

  lemma NumbersAreGreater(h: Host, payload: Object, field: string, left: Value, limit: Value, x: real, y: real)
    requires Has(payload, field, left) && ToFloat(h, left) == Some(x) && ToFloat(h, limit) == Some(y)
    ensures Evaluate(h, payload, On(field, "greater_than", limit)) == Ok(y < x)
    ensures Evaluate(h, payload, On(field, "greater_than_or_equal", limit)) == Ok(y <= x)
  {
    OneOperator(h, payload, field, left, "greater_than", limit);
    OneOperator(h, payload, field, left, "greater_than_or_equal", limit);
  }

  lemma OneOperator(h: Host, payload: Object, field: string, left: Value, operator: string, limit: Value)
    requires Has(payload, field, left) && operator !in {"exists", "field"}
    ensures var config := On(field, operator, limit);
            && Evaluate(h, payload, config) == Comparison(h, left, field, config)
            && config[operator] == limit && forall k | k in config :: k == operator || k == "field"
  {}

  const ORDERINGS: set<string> := {"less_than", "less_than_or_equal", "greater_than", "greater_than_or_equal"}

  /** Other values are equal when they are the same or print alike, and cannot be ordered. */
  lemma OthersAreEqual(h: Host, payload: Object, field: string, left: Value, limit: Value)
    requires Has(payload, field, left) && (ToFloat(h, left).None? || ToFloat(h, limit).None?)
    ensures Evaluate(h, payload, On(field, "equals", limit)) == Ok(left == limit || h.show(left) == h.show(limit))
    ensures Evaluate(h, payload, On(field, "not_equals", limit)) == Ok(left != limit && h.show(left) != h.show(limit))
  {}

  lemma OthersAreNotOrdered(h: Host, payload: Object, field: string, left: Value, limit: Value, operator: string)
    requires Has(payload, field, left) && (ToFloat(h, left).None? || ToFloat(h, limit).None?) && operator in ORDERINGS
    ensures Evaluate(h, payload, On(field, operator, limit)) == Err(NotNumeric)
  {}

  /** Which values are numbers: numbers, and texts that parse as one when trimmed. */
  lemma NumbersAreRead(h: Host, v: Value, x: real)
    ensures ToFloat(h, v) == Some(x) <==> v == Num(x) || (v.Str? && h.parse(Text.TrimSpace(v.s)) == Some(x))
  {}

  /** The number of items, of fields, or of bytes of a text. */
  predicate Counts(left: Value, n: nat) {
    match left
    case Arr(items) => n == |items|
    case Obj(fields) => n == |fields|
    case Str(s) => n == ByteLength(s)
    case _ => false
  }

  /** How many code points fit into n bytes of UTF-8: the first byte holds 7 bits, or 7 - n, and each further one 6. */
  function Room(n: nat): nat {
    match n
    case 1 => 128
    case 2 => 32 * 64
    case 3 => 16 * 64 * 64
    case 4 => 8 * 64 * 64 * 64
    case _ => 0
  }

  /** A character takes the fewest bytes that it fits into, and a text the bytes of its parts. */
  lemma {:induction false} BytesAreCounted(c: char, n: nat, s: string, t: string)
    ensures ByteLength([c]) == n <==> c as int < Room(n) && (n > 1 ==> Room(n - 1) <= c as int)
    ensures ByteLength(s + t) == ByteLength(s) + ByteLength(t)
  {
    assert [c][1..] == "";
    if s == "" {
      assert s + t == t;
    } else {
      assert (s + t)[1..] == s[1..] + t;
      BytesAreCounted(c, n, s[1..], t);
    }
  }

  lemma {:induction false} PlainTextIsCounted(s: string)
    requires forall c | c in s :: c < '\U{80}'
    ensures ByteLength(s) == |s|
  {
    if s != "" {
      assert s[0] in s && forall c | c in s[1..] :: c in s;
      PlainTextIsCounted(s[1..]);
    }
  }

  lemma AtLeast(h: Host, payload: Object, field: string, left: Value, limit: Value, n: nat, y: real)
    requires Has(payload, field, left) && Counts(left, n) && ToFloat(h, limit) == Some(y)
    ensures Evaluate(h, payload, On(field, "min_items", limit)) == Ok(y <= n as real)
  {
    assert CollectionLength(left) == Some(n);
  }

  lemma AtMost(h: Host, payload: Object, field: string, left: Value, limit: Value, n: nat, y: real)
    requires Has(payload, field, left) && Counts(left, n) && ToFloat(h, limit) == Some(y)
    ensures Evaluate(h, payload, On(field, "max_items", limit)) == Ok(n as real <= y)
  {
    assert CollectionLength(left) == Some(n);
  }

  lemma LengthsAreCompared(h: Host, payload: Object, field: string, left: Value, limit: Value, n: nat, y: real)
    requires Has(payload, field, left) && Counts(left, n) && ToFloat(h, limit) == Some(y)
    ensures Evaluate(h, payload, On(field, "min_items", limit)) == Ok(y <= n as real)
    ensures Evaluate(h, payload, On(field, "max_items", limit)) == Ok(n as real <= y)
  {
    AtLeast(h, payload, field, left, limit, n, y);
    AtMost(h, payload, field, left, limit, n, y);
  }

  /** A value that has no length is a problem, and so is a limit that is no number. */
  lemma OthersAreNotCounted(h: Host, payload: Object, field: string, left: Value, limit: Value, operator: string)
    requires Has(payload, field, left) && (forall n: nat :: !Counts(left, n)) && operator in {"min_items", "max_items"}
    ensures Evaluate(h, payload, On(field, operator, limit)) == Err(NotCountable(field))
  {
    match left
    case Arr(items) => assert Counts(left, |items|);
    case Obj(fields) => assert Counts(left, |fields|);
    case Str(s) => assert Counts(left, ByteLength(s));
    case _ =>
  }

  lemma LimitsAreNumbers(h: Host, payload: Object, field: string, left: Value, limit: Value, n: nat, operator: string)
    requires Has(payload, field, left) && Counts(left, n) && ToFloat(h, limit).None?
    requires operator in {"min_items", "max_items"}
    ensures Evaluate(h, payload, On(field, operator, limit)) == Err(NotNumeric)
  {
    assert CollectionLength(left) == Some(n);
  }

  /** The operators, in the order in which they are looked for. */
  const OPERATORS: seq<string> := [
    "equals", "not_equals", "less_than", "less_than_or_equal", "greater_than", "greater_than_or_equal", "min_items",
    "max_items"]

  /** Of several operators the first decides. */
  lemma FirstOperatorDecides(h: Host, left: Value, field: string, config: Object, i: nat)
    requires i < |OPERATORS| && OPERATORS[i] in config && forall j | 0 <= j < i :: OPERATORS[j] !in config
    ensures Comparison(h, left, field, config)
            == Comparison(h, left, field, map[OPERATORS[i] := config[OPERATORS[i]]])
  {
    assert i > 0 ==> OPERATORS[0] !in config;
    assert i > 1 ==> OPERATORS[1] !in config;
    assert i > 2 ==> OPERATORS[2] !in config;
    assert i > 3 ==> OPERATORS[3] !in config;
    assert i > 4 ==> OPERATORS[4] !in config;
    assert i > 5 ==> OPERATORS[5] !in config;
    assert i > 6 ==> OPERATORS[6] !in config;
  }

  /** A condition that cannot be evaluated: without a field, on a field that is missing, or without an operator. */
  lemma MissingFields(h: Host, payload: Object, config: Object)
    requires "exists" !in config
    ensures var field := Param(config, "field");
            && (Text.Blank(field) ==> Evaluate(h, payload, config) == Err(FieldRequired))
            && (!Text.Blank(field) && Paths.MessagePath(payload, field).None? ==>
                  Evaluate(h, payload, config) == Err(FieldMissing(field)))
            && (!Text.Blank(field) && Paths.MessagePath(payload, field).Some?
                && (forall k | 0 <= k < |OPERATORS| :: OPERATORS[k] !in config) ==>
                  Evaluate(h, payload, config) == Err(NoComparison))
  {
    assert forall k | 0 <= k < |OPERATORS| :: OPERATORS[k] in OPERATORS;
    assert OPERATORS[0] == "equals" && OPERATORS[1] == "not_equals" && OPERATORS[2] == "less_than";
    assert OPERATORS[3] == "less_than_or_equal" && OPERATORS[4] == "greater_than";
    assert OPERATORS[5] == "greater_than_or_equal" && OPERATORS[6] == "min_items" && OPERATORS[7] == "max_items";
  }

  /** `exists` names the field, or says whether the field should be there. */
  lemma ExistsMeans(h: Host, payload: Object, field: string, expected: bool)
    requires !Text.Blank(field)
    ensures Evaluate(h, payload, map["exists" := Str(field)]) == Ok(Paths.MessagePath(payload, field).Some?)
    ensures Evaluate(h, payload, map["exists" := Bool(expected)]["field" := Str(field)])
            == Ok(Paths.MessagePath(payload, field).Some? == expected)
    ensures Evaluate(h, payload, map["exists" := Bool(expected)]) == Err(NotAPath)
  {
    assert Text.TrimSpace("") == "";
  }
}
