/** The {path} tokens in the parameters of rest_call. */
module Interpolate {
  import opened Prelude
  import opened Json
  import Paths
  import Text

  /** How a value is shown inside a text: fmt.Sprintf("%v"), of nil when the path is not found. */
  type Show = Value -> string

  function Rendered(show: Show, payload: Object, key: string): string {
    show(Paths.MessagePath(payload, key).Or(Null))
  }

  /** The text of a token, by its key. */
  type Eval = string -> string

  /** One round of the loop: the text after it, or none when the loop ends. */
  function Round(eval: Eval, text: string): Option<string> {
    var start, end := Text.IndexOf(text, '{'), Text.IndexOf(text, '}');
    if start == |text| || end == |text| || end < start then None
    else Some(text[..start] + eval(text[start + 1..end]) + text[end + 1..])
  }

  /** The texts of all tokens are free of opening braces. */
  ghost predicate Plain(eval: Eval) { forall key :: '{' !in eval(key) }

  function Count(text: string, c: char): nat {
    if text == "" then 0 else (if text[0] == c then 1 else 0) + Count(text[1..], c)
  }

  lemma {:induction false} CountSplits(a: string, b: string, c: char)
    ensures Count(a + b, c) == Count(a, c) + Count(b, c)
  {
    if a == "" {
      assert a + b == b;
    } else {
      CountSplits(a[1..], b, c);
      assert (a + b)[1..] == a[1..] + b;
    }
  }

  lemma {:induction false} CountAbsent(a: string, c: char)
    ensures Count(a, c) == 0 <==> c !in a
  {
    if a != "" {
      CountAbsent(a[1..], c);
      assert a == [a[0]] + a[1..];
    }
  }

  /** Each round uses up at least one opening brace, as long as the texts bring none back. */
  lemma RoundShrinks(eval: Eval, text: string)
    requires Plain(eval) && Round(eval, text).Some?
    ensures Count(Round(eval, text).value, '{') < Count(text, '{')
  {
    var start, end := Text.IndexOf(text, '{'), Text.IndexOf(text, '}');
    var head, key, tail := text[..start], text[start + 1..end], text[end + 1..];
    var value := eval(key);
    assert text == head + (['{'] + (key + (['}'] + tail)));
    CountSplits(head, ['{'] + (key + (['}'] + tail)), '{');
    CountSplits(key, ['}'] + tail, '{');
    CountAbsent(value, '{');
    CountSplits(head + value, tail, '{');
    CountSplits(head, value, '{');
    assert (['{'] + (key + (['}'] + tail)))[1..] == key + (['}'] + tail);
    assert (['}'] + tail)[1..] == tail;
  }

  /** The text after n rounds, if the loop gets that far. */
  function After(eval: Eval, text: string, n: nat): Option<string>
    decreases n
  {
    if n == 0 then Some(text)
    else match Round(eval, text)
         case None => None
         case Some(next) => After(eval, next, n - 1)
  }

  /** The loop stops after n rounds. */
  predicate StopsAfter(eval: Eval, text: string, n: nat) {
    After(eval, text, n).Some? && Round(eval, After(eval, text, n).value) == None
  }

  /** The loop comes to an end. */
  ghost predicate Ends(eval: Eval, text: string) { exists n: nat :: StopsAfter(eval, text, n) }

  lemma {:induction false} StopsOnce(eval: Eval, text: string, m: nat, n: nat)
    requires StopsAfter(eval, text, m) && StopsAfter(eval, text, n)
    ensures m == n
    decreases m
  {
    if m > 0 && n > 0 {
      StopsOnce(eval, Round(eval, text).value, m - 1, n - 1);
    }
  }

  /** How many rounds are left. */
  ghost function Left(eval: Eval, text: string): (n: nat)
    requires Ends(eval, text)
    ensures StopsAfter(eval, text, n)
  {
    var n: nat :| StopsAfter(eval, text, n);
    n
  }

  lemma EndsNext(eval: Eval, text: string)
    requires Ends(eval, text) && Round(eval, text).Some?
    ensures Ends(eval, Round(eval, text).value) && Left(eval, Round(eval, text).value) < Left(eval, text)
  {
    var next, n := Round(eval, text).value, Left(eval, text);
    assert StopsAfter(eval, next, n - 1);
    StopsOnce(eval, next, n - 1, Left(eval, next));
  }

  /** With texts free of opening braces every loop ends. */
  lemma {:induction false} PlainEnds(eval: Eval, text: string)
    requires Plain(eval)
    ensures Ends(eval, text)
    decreases Count(text, '{')
  {
    if Round(eval, text).None? {
      assert StopsAfter(eval, text, 0);
    } else {
      RoundShrinks(eval, text);
      PlainEnds(eval, Round(eval, text).value);
      var n := Left(eval, Round(eval, text).value);
      assert StopsAfter(eval, text, n + 1);
    }
  }

  /** The loop of interpolateString, run to its end. */
  ghost function Rounds(eval: Eval, text: string): string
    requires Ends(eval, text)
    decreases Left(eval, text)
  {
    match Round(eval, text)
    case None => text
    case Some(next) => EndsNext(eval, text); Rounds(eval, next)
  }

  method Loop(eval: Eval, text: string) returns (out: string)
    requires Ends(eval, text)
    ensures out == Rounds(eval, text)
  {
    out := text;
    while '{' in out
      invariant Ends(eval, out) && Rounds(eval, out) == Rounds(eval, text)
      decreases Left(eval, out)
    {
      var start, end := Text.IndexOf(out, '{'), Text.IndexOf(out, '}');
      if start == |out| || end == |out| || end < start {
        return;
      }
      EndsNext(eval, out);
      var key := out[start + 1..end];
      out := out[..start] + eval(key) + out[end + 1..];
    }
    Absent(out, '{');
  }

  /** A text that is a single token. */
  predicate SingleToken(text: string) {
    |text| >= 2 && text[0] == '{' && text[|text| - 1] == '}' && Count(text, '{') == 1
  }

  /** A text that is the token of a path in the payload. */
  predicate Shortcut(payload: Object, text: string) {
    SingleToken(text) && Paths.MessagePath(payload, text[1..|text| - 1]).Some?
  }

  /** interpolateString returns. */
  ghost predicate Returns(show: Show, payload: Object, text: string) {
    Shortcut(payload, text) || Ends(key => Rendered(show, payload, key), text)
  }

  ghost function Interpolated(show: Show, payload: Object, text: string): Value
    requires Returns(show, payload, text)
  {
    if Shortcut(payload, text) then
      Paths.MessagePath(payload, text[1..|text| - 1]).value
    else Str(Rounds(key => Rendered(show, payload, key), text))
  }

  /** interpolateString */
  method InterpolateString(show: Show, payload: Object, text: string) returns (v: Value)
    requires Returns(show, payload, text)
    ensures v == Interpolated(show, payload, text)
  {
    if SingleToken(text) {
      var replacement := Paths.MessagePath(payload, text[1..|text| - 1]);
      if replacement.Some? {
        return replacement.value;
      }
    }
    var out := Loop(key => Rendered(show, payload, key), text);
    v := Str(out);
  }

  // ----- One round per token -----

  /** A text as literals, each followed by a token, and what comes after the last token. */
  datatype Doc = End(tail: string) | Cons(literal: string, key: string, rest: Doc)

  predicate BraceFree(s: string) { '{' !in s && '}' !in s }

  /** Paired braces, not nested. */
  predicate Paired(d: Doc) {
    match d
    case End(tail) => BraceFree(tail)
    case Cons(l, k, rest) => BraceFree(l) && BraceFree(k) && Paired(rest)
  }

  /** The texts of the tokens have no braces. */
  predicate Quiet(eval: Eval, d: Doc) {
    match d
    case End(_) => true
    case Cons(_, k, rest) => BraceFree(eval(k)) && Quiet(eval, rest)
  }

  function Render(d: Doc): string {
    match d
    case End(tail) => tail
    case Cons(l, k, rest) => l + ("{" + (k + ("}" + Render(rest))))
  }

  function Substituted(eval: Eval, d: Doc): string {
    match d
    case End(tail) => tail
    case Cons(l, k, rest) => l + eval(k) + Substituted(eval, rest)
  }

  function Tokens(d: Doc): nat {
    match d
    case End(_) => 0
    case Cons(_, _, rest) => 1 + Tokens(rest)
  }

  /** A round replaces the first token when no brace comes before it. */
  lemma RoundAt(eval: Eval, head: string, k: string, rest: string, text: string)
    requires BraceFree(head) && '}' !in k && text == head + ("{" + (k + ("}" + rest)))
    ensures Round(eval, text) == Some(head + eval(k) + rest)
  {
    BracesAt(head, k, rest, text);
    assert text[..|head|] == head;
    assert text[|head| + 1..|head| + 1 + |k|] == k;
    assert text[|head| + |k| + 2..] == rest;
  }

  lemma BracesAt(head: string, k: string, rest: string, text: string)
    requires BraceFree(head) && '}' !in k && text == head + ("{" + (k + ("}" + rest)))
    ensures Text.IndexOf(text, '{') == |head| && Text.IndexOf(text, '}') == |head| + 1 + |k|
  {
    assert text == head + ['{'] + (k + ("}" + rest));
    Text.IndexOfFirst(head, '{', k + ("}" + rest));
    var before := head + "{" + k;
    assert text == before + ['}'] + rest;
    Text.IndexOfFirst(before, '}', rest);
  }

  lemma FirstRound(eval: Eval, d: Doc, done: string)
    requires d.Cons? && Paired(d) && BraceFree(done)
    ensures Round(eval, done + Render(d)) == Some((done + (d.literal + eval(d.key))) + Render(d.rest))
  {
    var head, k, rest := done + d.literal, d.key, Render(d.rest);
    Regroup(done, d.literal, "{" + (k + ("}" + rest)));
    RoundAt(eval, head, k, rest, done + Render(d));
    Regroup(done, d.literal, eval(k));
  }

  lemma Regroup(a: string, b: string, c: string)
    ensures a + (b + c) == (a + b) + c
  {}

  lemma BraceFreeTogether(a: string, b: string)
    requires BraceFree(a) && BraceFree(b)
    ensures BraceFree(a + b)
  {}

  lemma {:induction false} RoundsOf(eval: Eval, d: Doc, done: string)
    requires Paired(d) && BraceFree(done) && Quiet(eval, d)
    ensures After(eval, done + Render(d), Tokens(d)) == Some(done + Substituted(eval, d))
    decreases d
  {
    if d.Cons? {
      var piece := d.literal + eval(d.key);
      BraceFreeTogether(d.literal, eval(d.key));
      BraceFreeTogether(done, piece);
      RoundsOf(eval, d.rest, done + piece);
      FirstRound(eval, d, done);
      RoundFirst(eval, done + Render(d), (done + piece) + Render(d.rest), done, piece,
                 Substituted(eval, d.rest), Tokens(d.rest));
    }
  }

  lemma {:induction false} SubstitutedIsBraceFree(eval: Eval, d: Doc)
    requires Paired(d) && Quiet(eval, d)
    ensures BraceFree(Substituted(eval, d))
    decreases d
  {
    if d.Cons? {
      SubstitutedIsBraceFree(eval, d.rest);
      BraceFreeTogether(d.literal, eval(d.key));
      BraceFreeTogether(d.literal + eval(d.key), Substituted(eval, d.rest));
    }
  }

  lemma EmptyPrefix(s: string)
    ensures "" + s == s
  {}

  /** On paired braces the loop ends after exactly one round per token, with the one-pass substitution. */
  lemma OneRoundPerToken(eval: Eval, d: Doc)
    requires Paired(d) && Quiet(eval, d)
    ensures After(eval, Render(d), Tokens(d)) == Some(Substituted(eval, d))
    ensures Round(eval, Substituted(eval, d)) == None
  {
    EmptyPrefix(Render(d));
    EmptyPrefix(Substituted(eval, d));
    RoundsOf(eval, d, "");
    SubstitutedIsBraceFree(eval, d);
    LastRound(eval, Substituted(eval, d));
  }

  lemma LastRound(eval: Eval, text: string)
    requires BraceFree(text)
    ensures Round(eval, text) == None && After(eval, text, 0) == Some(text)
  {
    Absent(text, '{');
  }

  lemma RoundFirst(eval: Eval, text: string, next: string, done: string, piece: string, last: string, n: nat)
    requires Round(eval, text) == Some(next) && After(eval, next, n) == Some((done + piece) + last)
    ensures After(eval, text, n + 1) == Some(done + (piece + last)) && done + (piece + last) == (done + piece) + last
  {
    Regroup(done, piece, last);
  }

  lemma Absent(s: string, c: char)
    requires c !in s
    ensures Text.IndexOf(s, c) == |s|
  {
    if Text.IndexOf(s, c) < |s| { Present(s, c); }
  }

  lemma Present(s: string, c: char)
    requires Text.IndexOf(s, c) < |s|
    ensures c in s
  {
    assert s[Text.IndexOf(s, c)] in s;
  }

  lemma {:induction false} RoundsReach(eval: Eval, text: string, n: nat)
    requires StopsAfter(eval, text, n)
    ensures Ends(eval, text) && Rounds(eval, text) == After(eval, text, n).value
    decreases n
  {
    if n > 0 {
      RoundsReach(eval, Round(eval, text).value, n - 1);
    }
  }

  /** So the loop ends, and computes the one-pass substitution. */
  lemma LoopIsOnePass(eval: Eval, d: Doc)
    requires Paired(d) && Quiet(eval, d)
    ensures Ends(eval, Render(d)) && Rounds(eval, Render(d)) == Substituted(eval, d)
  {
    OneRoundPerToken(eval, d);
    RoundsReach(eval, Render(d), Tokens(d));
  }

  // ----- When the loop ends -----

  /** The texts of the tokens, taken apart. */
  type Docs = string -> Doc

  /** Every token shows a text with paired braces. */
  ghost predicate Shows(eval: Eval, docs: Docs) { forall k :: ShowsAt(eval, docs, k) }

  ghost predicate ShowsAt(eval: Eval, docs: Docs, k: string) { Paired(docs(k)) && eval(k) == Render(docs(k)) }

  /** Tokens inside tokens go at most n deep. */
  predicate Within(docs: Docs, d: Doc, n: nat)
    decreases n, d
  {
    match d
    case End(_) => true
    case Cons(_, k, rest) => n > 0 && Within(docs, docs(k), n - 1) && Within(docs, rest, n)
  }

  /** Tokens inside tokens go only finitely deep. */
  ghost predicate Finite(docs: Docs, d: Doc) { exists n: nat :: Within(docs, d, n) }

  /** The text with its tokens, and the tokens in their texts, replaced. */
  function Expanded(docs: Docs, d: Doc, n: nat): string
    requires Within(docs, d, n)
    decreases n, d
  {
    match d
    case End(tail) => tail
    case Cons(l, k, rest) => l + (Expanded(docs, docs(k), n - 1) + Expanded(docs, rest, n))
  }

  function Cost(docs: Docs, d: Doc, n: nat): nat
    requires Within(docs, d, n)
    decreases n, d
  {
    match d
    case End(_) => 0
    case Cons(_, k, rest) => 1 + (Cost(docs, docs(k), n - 1) + Cost(docs, rest, n))
  }

  lemma {:induction false} AfterAdds(eval: Eval, text: string, m: nat, n: nat)
    requires After(eval, text, m).Some?
    ensures After(eval, text, m + n) == After(eval, After(eval, text, m).value, n)
    decreases m
  {
    if m > 0 {
      AfterAdds(eval, Round(eval, text).value, m - 1, n);
    }
  }

  lemma {:induction false} ExpandedIsBraceFree(eval: Eval, docs: Docs, d: Doc, n: nat)
    requires Shows(eval, docs) && Within(docs, d, n) && Paired(d)
    ensures BraceFree(Expanded(docs, d, n))
    decreases n, d
  {
    if d.Cons? {
      assert ShowsAt(eval, docs, d.key);
      ExpandedIsBraceFree(eval, docs, docs(d.key), n - 1);
      ExpandedIsBraceFree(eval, docs, d.rest, n);
    }
  }

  /** What a text expands to, and in how many rounds. */
  predicate ExpandsTo(docs: Docs, d: Doc, n: nat, e: string, cost: nat) {
    Within(docs, d, n) && e == Expanded(docs, d, n) && cost == Cost(docs, d, n)
  }

  lemma ExpandsParts(docs: Docs, d: Doc, n: nat, e: string, cost: nat)
    returns (first: string, m: nat, second: string, k: nat)
    requires d.Cons? && ExpandsTo(docs, d, n, e, cost)
    ensures n > 0 && ExpandsTo(docs, docs(d.key), n - 1, first, m) && ExpandsTo(docs, d.rest, n, second, k)
    ensures e == d.literal + (first + second) && cost == 1 + (m + k)
  {
    first, m := Expanded(docs, docs(d.key), n - 1), Cost(docs, docs(d.key), n - 1);
    second, k := Expanded(docs, d.rest, n), Cost(docs, d.rest, n);
  }

  lemma ExpandsNothing(docs: Docs, d: Doc, n: nat, e: string, cost: nat)
    requires d.End? && ExpandsTo(docs, d, n, e, cost)
    ensures e == Render(d) && cost == 0
  {}

  lemma NoRound(eval: Eval, text: string)
    ensures After(eval, text, 0) == Some(text)
  {}

  /** The loop works through a text from the left. */
  lemma {:induction false} ExpandsInOrder(eval: Eval, docs: Docs, d: Doc, n: nat, e: string, cost: nat, done: string,
                                          tail: string, text: string, last: string)
    requires Shows(eval, docs) && ExpandsTo(docs, d, n, e, cost) && Paired(d) && BraceFree(done)
    requires text == done + (Render(d) + tail) && last == done + (e + tail)
    ensures After(eval, text, cost) == Some(last)
    decreases n, d
  {
    if d.End? {
      ExpandsNothing(docs, d, n, e, cost);
      NoRound(eval, text);
    } else {
      var inner := docs(d.key);
      var first, m, second, k := ExpandsParts(docs, d, n, e, cost);
      assert ShowsAt(eval, docs, d.key);
      ExpandedIsBraceFree(eval, docs, inner, n - 1);
      var head, rest, t1, head', t2 := Pieces(eval, d, done, tail, inner, first, second, text, last);
      ExpandsInOrder(eval, docs, inner, n - 1, first, m, head, rest, t1, t2);
      ExpandsInOrder(eval, docs, d.rest, n, second, k, head', tail, t2, last);
      Stages(eval, text, t1, t2, last, m, k, cost);
    }
  }

  /** The texts between the first token and the end. */
  lemma Pieces(eval: Eval, d: Doc, done: string, tail: string, inner: Doc, first: string, second: string, text: string,
               last: string)
    returns (head: string, rest: string, t1: string, head': string, t2: string)
    requires d.Cons? && Paired(d) && BraceFree(done) && eval(d.key) == Render(inner) && BraceFree(first)
    requires text == done + (Render(d) + tail) && last == done + ((d.literal + (first + second)) + tail)
    ensures BraceFree(head) && t1 == head + (Render(inner) + rest) && t2 == head + (first + rest)
    ensures Round(eval, text) == Some(t1)
    ensures BraceFree(head') && t2 == head' + (Render(d.rest) + tail) && last == head' + (second + tail)
  {
    OneToken(eval, d, done, tail, inner);
    BraceFreeTogether(done, d.literal);
    head, rest := done + d.literal, Render(d.rest) + tail;
    BraceFreeTogether(head, first);
    head' := head + first;
    t1, t2 := head + (Render(inner) + rest), head + (first + rest);
    Regroup(head, first, rest);
    Reassembled(done, d.literal, first, second, tail);
  }

  lemma Stages(eval: Eval, t0: string, t1: string, t2: string, t3: string, m: nat, n: nat, all: nat)
    requires Round(eval, t0) == Some(t1) && After(eval, t1, m) == Some(t2) && After(eval, t2, n) == Some(t3)
    requires all == 1 + (m + n)
    ensures After(eval, t0, all) == Some(t3)
  {
    InTurn(eval, t1, m, t2, n, t3, m + n);
    AfterRound(eval, t0, t1, all);
  }

  lemma AfterRound(eval: Eval, text: string, next: string, n: nat)
    requires Round(eval, text) == Some(next) && n > 0
    ensures After(eval, text, n) == After(eval, next, n - 1)
  {}

  lemma InTurn(eval: Eval, t0: string, m: nat, t1: string, n: nat, t2: string, all: nat)
    requires After(eval, t0, m) == Some(t1) && After(eval, t1, n) == Some(t2) && all == m + n
    ensures After(eval, t0, all) == Some(t2)
  {
    AfterAdds(eval, t0, m, n);
  }

  lemma Reassembled(done: string, l: string, first: string, second: string, tail: string)
    ensures ((done + l) + first) + (second + tail) == done + ((l + (first + second)) + tail)
  {}

  /** The round that replaces the first token of a text. */
  lemma OneToken(eval: Eval, d: Doc, done: string, tail: string, inner: Doc)
    requires d.Cons? && Paired(d) && BraceFree(done) && eval(d.key) == Render(inner)
    ensures Round(eval, done + (Render(d) + tail))
            == Some((done + d.literal) + (Render(inner) + (Render(d.rest) + tail)))
  {
    var head, k, rest, text := done + d.literal, d.key, Render(d.rest) + tail, done + (Render(d) + tail);
    assert text == head + ("{" + (k + ("}" + rest)));
    RoundAt(eval, head, k, rest, text);
    Regroup(head, eval(k), rest);
  }

  function Prefix(text: string, d: Doc): Doc {
    match d
    case End(tail) => End(text + tail)
    case Cons(l, k, rest) => Cons(text + l, k, rest)
  }

  /** One text after the other. */
  function Append(a: Doc, b: Doc): Doc {
    match a
    case End(tail) => Prefix(tail, b)
    case Cons(l, k, rest) => Cons(l, k, Append(rest, b))
  }

  lemma {:induction false} AppendRenders(a: Doc, b: Doc)
    requires Paired(a) && Paired(b)
    ensures Render(Append(a, b)) == Render(a) + Render(b) && Paired(Append(a, b))
    decreases a
  {
    match a
    case End(tail) =>
      if b.Cons? { Regroup(tail, b.literal, "{" + (b.key + ("}" + Render(b.rest)))); }
    case Cons(l, k, rest) =>
      AppendRenders(rest, b);
      assert (l + ("{" + (k + ("}" + Render(rest))))) + Render(b)
             == l + ("{" + (k + ("}" + (Render(rest) + Render(b)))));
  }

  lemma {:induction false} AppendWithin(docs: Docs, a: Doc, b: Doc, n: nat)
    requires Within(docs, Append(a, b), n)
    ensures Within(docs, a, n) && Within(docs, b, n)
    decreases a
  {
    if a.Cons? {
      AppendWithin(docs, a.rest, b, n);
    }
  }

  lemma {:induction false} WithinMore(docs: Docs, d: Doc, m: nat, n: nat)
    requires Within(docs, d, m) && m <= n
    ensures Within(docs, d, n)
    decreases m, d
  {
    if d.Cons? {
      WithinMore(docs, docs(d.key), m - 1, n - 1);
      WithinMore(docs, d.rest, m, n);
    }
  }

  lemma StopsLater(eval: Eval, text: string, next: string, n: nat)
    requires StopsAfter(eval, text, n) && Round(eval, text) == Some(next)
    ensures n > 0 && StopsAfter(eval, next, n - 1)
  {}

  lemma NextDoc(eval: Eval, d: Doc, done: string, inner: Doc)
    requires d.Cons? && Paired(d) && BraceFree(done) && Paired(inner) && eval(d.key) == Render(inner)
    ensures Round(eval, done + Render(d)) == Some((done + d.literal) + Render(Append(inner, d.rest)))
  {
    FirstRound(eval, d, done);
    AppendRenders(inner, d.rest);
    Regroup(done, d.literal, eval(d.key));
    Regroup(done + d.literal, eval(d.key), Render(d.rest));
  }

  /** A text that is worked on: what is done, and the tokens to come. */
  predicate Stands(text: string, done: string, d: Doc) { Paired(d) && BraceFree(done) && text == done + Render(d) }

  /** A loop that stops has found tokens no deeper than its rounds. */
  lemma {:induction false} StopsWithin(eval: Eval, docs: Docs, d: Doc, text: string, done: string, n: nat)
    requires Shows(eval, docs) && Stands(text, done, d) && StopsAfter(eval, text, n)
    ensures Within(docs, d, n)
    decreases n
  {
    if d.Cons? {
      var inner := docs(d.key);
      assert ShowsAt(eval, docs, d.key);
      var next, done' := NextStands(eval, d, text, done, inner);
      StopsLater(eval, text, next, n);
      StopsWithin(eval, docs, Append(inner, d.rest), next, done', n - 1);
      AppendWithin(docs, inner, d.rest, n - 1);
      WithinMore(docs, d.rest, n - 1, n);
    }
  }

  lemma NextStands(eval: Eval, d: Doc, text: string, done: string, inner: Doc) returns (next: string, done': string)
    requires d.Cons? && Stands(text, done, d) && Paired(inner) && eval(d.key) == Render(inner)
    ensures Round(eval, text) == Some(next) && Stands(next, done', Append(inner, d.rest))
  {
    NextDoc(eval, d, done, inner);
    AppendRenders(inner, d.rest);
    BraceFreeTogether(done, d.literal);
    done' := done + d.literal;
    next := done' + Render(Append(inner, d.rest));
  }

  /** When texts and values have paired braces, the loop ends exactly when tokens inside tokens go only
      finitely deep. */
  lemma EndsExactly(eval: Eval, docs: Docs, d: Doc)
    requires Shows(eval, docs) && Paired(d)
    ensures Ends(eval, Render(d)) <==> Finite(docs, d)
  {
    EmptyPrefix(Render(d));
    if Ends(eval, Render(d)) {
      StopsWithin(eval, docs, d, Render(d), "", Left(eval, Render(d)));
    }
    if Finite(docs, d) {
      var n: nat :| Within(docs, d, n);
      ExpandsFully(eval, docs, d, n);
    }
  }

  /** It then leaves the text with all tokens replaced, at every depth. */
  lemma ExpandsFully(eval: Eval, docs: Docs, d: Doc, n: nat)
    requires Shows(eval, docs) && Paired(d) && Within(docs, d, n)
    ensures Ends(eval, Render(d)) && Rounds(eval, Render(d)) == Expanded(docs, d, n)
  {
    EmptySuffix(Render(d));
    EmptyPrefix(Render(d));
    EmptySuffix(Expanded(docs, d, n));
    EmptyPrefix(Expanded(docs, d, n));
    var e, cost := Expanded(docs, d, n), Cost(docs, d, n);
    ExpandsInOrder(eval, docs, d, n, e, cost, "", "", Render(d), e);
    ExpandedIsBraceFree(eval, docs, d, n);
    LastRound(eval, Expanded(docs, d, n));
    RoundsReach(eval, Render(d), Cost(docs, d, n));
  }

  predicate HasToken(d: Doc, k: string) { d.Cons? && (d.key == k || HasToken(d.rest, k)) }

  lemma {:induction false} TokenWithin(docs: Docs, d: Doc, k: string, n: nat)
    requires HasToken(d, k) && Within(docs, d, n)
    ensures n > 0 && Within(docs, docs(k), n - 1)
    decreases d
  {
    if d.key != k {
      TokenWithin(docs, d.rest, k, n);
    }
  }

  /** Each text shows the token of the next, and the last one that of the first. */
  predicate Cycle(docs: Docs, ks: seq<string>) {
    ks != [] && forall i | 0 <= i < |ks| :: HasToken(docs(ks[i]), ks[if i + 1 < |ks| then i + 1 else 0])
  }

  lemma {:induction false} CyclesAreDeep(docs: Docs, ks: seq<string>, i: nat, n: nat)
    requires Cycle(docs, ks) && i < |ks|
    ensures !Within(docs, docs(ks[i]), n)
    decreases n
  {
    if Within(docs, docs(ks[i]), n) {
      var next := if i + 1 < |ks| then i + 1 else 0;
      TokenWithin(docs, docs(ks[i]), ks[next], n);
      CyclesAreDeep(docs, ks, next, n - 1);
    }
  }

  /** So a text with a token that is part of a cycle keeps the loop going for ever; a value that shows its
      own token is the shortest cycle. */
  lemma CyclesNeverEnd(eval: Eval, docs: Docs, d: Doc, ks: seq<string>)
    requires Shows(eval, docs) && Paired(d) && Cycle(docs, ks) && HasToken(d, ks[0])
    ensures !Ends(eval, Render(d))
  {
    EndsExactly(eval, docs, d);
    forall n: nat ensures !Within(docs, d, n) {
      if Within(docs, d, n) {
        TokenWithin(docs, d, ks[0], n);
        CyclesAreDeep(docs, ks, 0, n - 1);
      }
    }
  }

  lemma EmptySuffix(s: string)
    ensures s + "" == s
  {}

  // ----- Structures -----

  /** interpolateAny, for any treatment of the texts. */
  function InterpolateAny(f: string -> Value, v: Value): Value {
    match v
    case Str(s) => f(s)
    case Obj(o) => Obj(map k | k in o :: InterpolateAny(f, o[k]))
    case Arr(items) => Arr(seq(|items|, i requires 0 <= i < |items| => InterpolateAny(f, items[i])))
    case _ => v
  }

  /** No text inside the value has a brace. */
  predicate NoTokens(v: Value) {
    match v
    case Str(s) => '{' !in s
    case Obj(o) => forall k | k in o :: NoTokens(o[k])
    case Arr(items) => forall i | 0 <= i < |items| :: NoTokens(items[i])
    case _ => true
  }

  lemma NoRounds(show: Show, payload: Object, s: string)
    requires '{' !in s
    ensures Returns(show, payload, s) && Interpolated(show, payload, s) == Str(s)
  {
    CountAbsent(s, '{');
    Absent(s, '{');
    assert StopsAfter(key => Rendered(show, payload, key), s, 0);
  }

  /** Only texts with tokens are touched, at any depth. */
  lemma {:induction false} OnlyTokensChange(show: Show, payload: Object, f: string -> Value, v: Value)
    requires forall s | Returns(show, payload, s) :: f(s) == Interpolated(show, payload, s)
    requires NoTokens(v)
    ensures InterpolateAny(f, v) == v
  {
    match v
    case Str(s) =>
      NoRounds(show, payload, s);
    case Obj(o) =>
      var r := InterpolateAny(f, v).fields;
      forall k | k in o ensures r[k] == o[k] {
        OnlyTokensChange(show, payload, f, o[k]);
      }
      assert r == o;
    case Arr(items) =>
      var r := InterpolateAny(f, v).items;
      forall i | 0 <= i < |items| ensures r[i] == items[i] {
        OnlyTokensChange(show, payload, f, items[i]);
      }
      assert r == items;
    case _ =>
  }
}
