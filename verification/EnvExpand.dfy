/** Environment references in configuration files: ${NAME} and ${NAME:-fallback}. */
module EnvExpand {
  import opened Prelude
  import Text

  /** The environment: an unset name is empty. */
  type Env = string -> string

  /** The value of the expression of a reference. */
  type Eval = string -> string

  /** Where ":-" first begins in a key, or |key|. */
  function CutAt(key: string): (i: nat)
    ensures i <= |key|
    ensures i < |key| ==> i + 1 < |key| && key[i] == ':' && key[i + 1] == '-'
    ensures forall k | 0 <= k < i && k + 1 < |key| :: !(key[k] == ':' && key[k + 1] == '-')
  {
    if |key| < 2 then |key|
    else if key[0] == ':' && key[1] == '-' then 0
    else 1 + CutAt(key[1..])
  }

  /** expandEnvExpression */
  function Evaluate(env: Env, key: string): string {
    var i := CutAt(key);
    if i == |key| then env(key)
    else
      var value := Text.TrimSpace(env(key[..i]));
      if value != "" then value else key[i + 2..]
  }

  /** A closed reference begins here. */
  predicate Opens(s: string) { |s| >= 2 && s[0] == '$' && s[1] == '{' && '}' in s[2..] }

  /** The expression of the reference at the start, up to the first closing brace. */
  function Expr(s: string): (e: string)
    requires Opens(s)
    ensures '}' !in e && |e| + 3 <= |s| && s[..|e| + 3] == "${" + e + "}"
  {
    var e := s[2..2 + Text.IndexOf(s[2..], '}')];
    assert e == s[2..][..Text.IndexOf(s[2..], '}')];
    e
  }

  function Expand(eval: Eval, s: string): string {
    if s == "" then ""
    else if Opens(s) then eval(Expr(s)) + Expand(eval, s[|Expr(s)| + 3..])
    else [s[0]] + Expand(eval, s[1..])
  }

  /** How far the reference that opens at index i reaches: past its closing brace, or i if none does. */
  function Past(input: string, i: nat): (j: nat)
    requires i < |input|
    ensures i <= j <= |input|
  {
    if input[i] != '$' || i + 1 >= |input| || input[i + 1] != '{' then i
    else
      var end := Text.IndexOf(input[i + 2..], '}');
      if end == |input[i + 2..]| then i else i + end + 3
  }

  /** What the scan sees at index i, and where it goes on. */
  lemma ScanAt(eval: Eval, input: string, i: nat)
    requires i < |input|
    ensures var j := Past(input, i);
            if j == i then Expand(eval, input[i..]) == [input[i]] + Expand(eval, input[i + 1..])
            else i + 3 <= j && Expand(eval, input[i..]) == eval(input[i + 2..j - 1]) + Expand(eval, input[j..])
  {
    var rest, j := input[i..], Past(input, i);
    assert rest[1..] == input[i + 1..];
    OpensAt(input, i);
    if j > i {
      assert rest[|Expr(rest)| + 3..] == input[j..];
    }
  }

  lemma OpensAt(input: string, i: nat)
    requires i < |input|
    ensures Opens(input[i..]) <==> Past(input, i) > i
    ensures Past(input, i) > i ==> i + 3 <= Past(input, i) && Expr(input[i..]) == input[i + 2..Past(input, i) - 1]
  {
    var rest := input[i..];
    if |rest| >= 2 && rest[0] == '$' && rest[1] == '{' {
      assert rest[2..] == input[i + 2..];
      var end := Text.IndexOf(rest[2..], '}');
      if end < |rest[2..]| {
        assert rest[2..][end] == '}';
        assert rest[2..2 + end] == input[i + 2..i + 2 + end];
      } else {
        assert rest[2..][..end] == rest[2..];
      }
    }
  }

  /** What the scan has written, with what is still to come. */
  ghost predicate Follows(eval: Eval, out: string, input: string, i: nat, goal: string)
    requires i <= |input|
  {
    out + Expand(eval, input[i..]) == goal
  }

  lemma Begin(eval: Eval, input: string)
    ensures Follows(eval, "", input, 0, Expand(eval, input))
  {
    assert input[0..] == input;
    assert "" + Expand(eval, input) == Expand(eval, input);
  }

  lemma Finish(eval: Eval, out: string, input: string, goal: string)
    requires Follows(eval, out, input, |input|, goal)
    ensures out == goal
  {
    assert input[|input|..] == "" && out + "" == out;
  }

  lemma WriteOn(eval: Eval, out: string, input: string, i: nat, goal: string)
    requires i < |input| && Follows(eval, out, input, i, goal)
    ensures var j := Past(input, i);
            if j == i then Follows(eval, out + [input[i]], input, i + 1, goal)
            else i + 3 <= j && Follows(eval, out + eval(input[i + 2..j - 1]), input, j, goal)
  {
    ScanAt(eval, input, i);
    var j := Past(input, i);
    if j == i {
      Regroup(out, [input[i]], Expand(eval, input[i + 1..]), Expand(eval, input[i..]));
    } else {
      Regroup(out, eval(input[i + 2..j - 1]), Expand(eval, input[j..]), Expand(eval, input[i..]));
    }
  }

  /** The scan, for any value of the references. */
  method Scan(eval: Eval, input: string) returns (out: string)
    ensures out == Expand(eval, input)
  {
    out := "";
    var i := 0;
    ghost var goal := Expand(eval, input);
    Begin(eval, input);
    while i < |input|
      invariant 0 <= i <= |input|
      invariant Follows(eval, out, input, i, goal)
    {
      WriteOn(eval, out, input, i, goal);
      var j := Past(input, i);
      if j == i {
        out := out + [input[i]];
        i := i + 1;
        continue;
      }
      out := out + eval(input[i + 2..j - 1]);
      i := j;
    }
    Finish(eval, out, input, goal);
  }

  /** expandEnvDefaults */
  method ExpandEnvDefaults(env: Env, input: string) returns (out: string)
    ensures out == Value(key => Evaluate(env, key), Parse(input))
  {
    out := Scan(key => Evaluate(env, key), input);
    ExpandIsOnePass(key => Evaluate(env, key), input);
  }

  lemma Regroup(a: string, b: string, c: string, d: string)
    requires d == b + c
    ensures (a + b) + c == a + d
  {}

  // ----- Literals and references -----

  /** A text as literals, each followed by a reference, and what comes after the last reference. */
  datatype Doc = End(tail: string) | Cons(literal: string, expr: string, rest: Doc)

  function Render(d: Doc): string {
    match d
    case End(tail) => tail
    case Cons(l, e, rest) => l + "${" + e + "}" + Render(rest)
  }

  /** One pass: each reference becomes its value, which is not looked at again. */
  function Value(eval: Eval, d: Doc): string {
    match d
    case End(tail) => tail
    case Cons(l, e, rest) => l + eval(e) + Value(eval, rest)
  }

  predicate HasOpening(s: string) { exists i :: 0 <= i < |s| - 1 && s[i] == '$' && s[i + 1] == '{' }

  predicate HasReference(s: string) { exists i :: 0 <= i < |s| && Opens(s[i..]) }

  /** Literals open no reference, references hold no closing brace, and the tail closes none of
      the references that it opens. */
  predicate Proper(d: Doc) {
    match d
    case End(tail) => !HasReference(tail)
    case Cons(l, e, rest) => !HasOpening(l) && '}' !in e && Proper(rest)
  }

  function Parse(s: string): Doc {
    if s == "" then End("")
    else if Opens(s) then Cons("", Expr(s), Parse(s[|Expr(s)| + 3..]))
    else match Parse(s[1..])
         case End(tail) => End([s[0]] + tail)
         case Cons(l, e, rest) => Cons([s[0]] + l, e, rest)
  }

  /** Every text is a proper document. */
  lemma {:induction false} ParseIsProper(s: string)
    ensures Render(Parse(s)) == s && Proper(Parse(s))
    decreases |s|
  {
    if s == "" {
    } else if Opens(s) {
      ParseIsProper(s[|Expr(s)| + 3..]);
      assert s == s[..|Expr(s)| + 3] + s[|Expr(s)| + 3..];
      assert "" + "${" + Expr(s) + "}" == "${" + Expr(s) + "}";
    } else {
      ParseIsProper(s[1..]);
      assert s == [s[0]] + s[1..];
      var d := Parse(s[1..]);
      match d
      case End(tail) =>
        forall i | 0 <= i < |s| ensures !Opens(s[i..]) {
          if i == 0 { assert s[0..] == s; } else { assert s[i..] == tail[i - 1..]; }
        }
      case Cons(l, e, rest) => ExtendLiteral(s, l, e, rest);
    }
  }

  lemma ExtendLiteral(s: string, l: string, e: string, rest: Doc)
    requires s != "" && !Opens(s) && !HasOpening(l) && s[1..] == Render(Cons(l, e, rest))
    ensures !HasOpening([s[0]] + l)
    ensures Render(Cons([s[0]] + l, e, rest)) == s
  {
    var l' := [s[0]] + l;
    assert s[1..] == l + "${" + e + "}" + Render(rest);
    forall i | 0 <= i < |l'| - 1 ensures !(l'[i] == '$' && l'[i + 1] == '{') {
      if i == 0 {
        assert l'[1] == l[0] == s[1];
        assert s[1..][|l| + 2 + |e|] == '}' && s[2..][|l| + 1 + |e|] == s[1..][|l| + 2 + |e|];
      } else {
        assert l'[i] == l[i - 1] && l'[i + 1] == l[i];
      }
    }
    assert l' + "${" + e + "}" + Render(rest) == [s[0]] + (l + "${" + e + "}" + Render(rest));
  }

  lemma NoReferenceInTail(s: string)
    requires s != "" && !HasReference(s)
    ensures !Opens(s) && !HasReference(s[1..])
  {
    assert s[0..] == s;
    forall i | 0 <= i < |s[1..]| ensures !Opens(s[1..][i..]) { assert s[1..][i..] == s[i + 1..]; }
  }

  /** And in only one way. */
  lemma {:induction false} ParseRendered(d: Doc)
    requires Proper(d)
    ensures Parse(Render(d)) == d
    decreases |Render(d)|
  {
    var s := Render(d);
    match d
    case End(tail) =>
      if tail != "" {
        NoReferenceInTail(tail);
        ParseRendered(End(tail[1..]));
      }
    case Cons(l, e, rest) =>
      ParseRendered(rest);
      ParseLiteral(l, e, rest);
  }

  lemma ReferenceOpens(e: string, r: string)
    requires '}' !in e
    ensures var s := "${" + e + "}" + r; Opens(s) && Expr(s) == e && s[|e| + 3..] == r
  {
    var s := "${" + e + "}" + r;
    assert s[2..] == e + ['}'] + r;
    Text.IndexOfFirst(e, '}', r);
    assert s[2..][|e|] == '}';
    assert s[2..2 + |e|] == e;
  }

  lemma LiteralDoesNotOpen(l: string, e: string, r: string)
    requires l != "" && !HasOpening(l)
    ensures !Opens(l + "${" + e + "}" + r)
    ensures (l + "${" + e + "}" + r)[1..] == l[1..] + "${" + e + "}" + r
    ensures !HasOpening(l[1..])
  {
    var s := l + "${" + e + "}" + r;
    if |l| > 1 { assert s[1] == l[1]; } else { assert s[1] == '$'; }
    forall i | 0 <= i < |l[1..]| - 1 ensures !(l[1..][i] == '$' && l[1..][i + 1] == '{') {
      assert l[1..][i] == l[i + 1] && l[1..][i + 1] == l[i + 2];
    }
  }

  lemma {:induction false} ParseLiteral(l: string, e: string, rest: Doc)
    requires !HasOpening(l) && '}' !in e && Parse(Render(rest)) == rest
    ensures Parse(Render(Cons(l, e, rest))) == Cons(l, e, rest)
    decreases |l|
  {
    if l == "" {
      ParseReference(e, rest);
    } else {
      LiteralDoesNotOpen(l, e, Render(rest));
      ParseLiteral(l[1..], e, rest);
      ParseStep(Render(Cons(l, e, rest)), Render(Cons(l[1..], e, rest)));
      assert l == [l[0]] + l[1..];
    }
  }

  lemma ParseReference(e: string, rest: Doc)
    requires '}' !in e && Parse(Render(rest)) == rest
    ensures Parse(Render(Cons("", e, rest))) == Cons("", e, rest)
  {
    var s := "${" + e + "}" + Render(rest);
    assert Render(Cons("", e, rest)) == s;
    ReferenceOpens(e, Render(rest));
  }

  lemma ParseStep(s: string, t: string)
    requires s != "" && !Opens(s) && s[1..] == t && Parse(t).Cons?
    ensures Parse(s) == Parse(t).(literal := [s[0]] + Parse(t).literal)
  {}

  /** Expansion is the one-pass value of the document that a text is. */
  lemma {:induction false} ExpandIsOnePass(eval: Eval, s: string)
    ensures Expand(eval, s) == Value(eval, Parse(s))
    decreases |s|
  {
    if s != "" {
      if Opens(s) {
        ExpandIsOnePass(eval, s[|Expr(s)| + 3..]);
        assert "" + eval(Expr(s)) == eval(Expr(s));
      } else {
        ExpandIsOnePass(eval, s[1..]);
        match Parse(s[1..])
        case End(_) =>
        case Cons(l, e, rest) =>
          assert [s[0]] + (l + eval(e) + Value(eval, rest)) == ([s[0]] + l) + eval(e) + Value(eval, rest);
      }
    }
  }

  /** For any literals and references: the expansion of the rendered text is the literals and the values. */
  lemma ExpandRendered(eval: Eval, d: Doc)
    requires Proper(d)
    ensures Expand(eval, Render(d)) == Value(eval, d)
  {
    ParseRendered(d);
    ExpandIsOnePass(eval, Render(d));
  }

  /** A text without a closed reference is kept as it is. */
  lemma UnclosedIsKept(eval: Eval, s: string)
    requires !HasReference(s)
    ensures Expand(eval, s) == s
  {
    ExpandRendered(eval, End(s));
  }

  // ----- What a reference stands for -----

  /** The text begins with no ":-". */
  predicate NoCut(s: string) { forall k | 0 <= k < |s| - 1 :: !(s[k] == ':' && s[k + 1] == '-') }

  /** A plain name stands for its variable as it is, spaces included. */
  lemma NameMeans(env: Env, name: string)
    requires NoCut(name)
    ensures Evaluate(env, name) == env(name)
  {}

  /** With a fallback, a name stands for its variable, trimmed, unless that is blank; then for the fallback, as it is
      and with further ":-" inside. */
  lemma FallbackMeans(env: Env, name: string, fallback: string)
    requires NoCut(name + ":")
    ensures Evaluate(env, name + ":-" + fallback)
            == if Text.Blank(env(name)) then fallback else Text.TrimSpace(env(name))
  {
    var key := name + ":-" + fallback;
    assert key[|name|] == ':' && key[|name| + 1] == '-';
    forall k | 0 <= k < |name| ensures !(key[k] == ':' && key[k + 1] == '-') {
      assert key[k] == (name + ":")[k] && key[k + 1] == (name + ":")[k + 1];
    }
    assert CutAt(key) == |name|;
    assert key[..|name|] == name && key[|name| + 2..] == fallback;
  }
}
