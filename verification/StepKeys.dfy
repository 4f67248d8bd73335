/** Idempotency keys: a template whose tokens are replaced one after the other, in the order in
    which a Go map happens to be iterated. */
module StepKeys {
  import opened Prelude
  import opened Text

  datatype Token = Workflow | MessageID | CorrelationID | Step | StepID | StepRef | StepIndex

  function Word(t: Token): (w: string)
    ensures '{' !in w && '}' !in w
  {
    match t
    case Workflow => "workflow"
    case MessageID => "message_id"
    case CorrelationID => "correlation_id"
    case Step => "step"
    case StepID => "step_id"
    case StepRef => "step_ref"
    case StepIndex => "step_index"
  }

  function Name(t: Token): string { "{" + Word(t) + "}" }

  /** What a key is computed from. */
  datatype Facts = Facts(workflow: string, messageID: string, correlationID: string,
                         step: string, stepID: string, index: nat)
  {
    function Value(t: Token): string {
      match t
      case Workflow => workflow
      case MessageID => messageID
      case CorrelationID => correlationID
      case Step => step
      case StepID => stepID
      case StepRef => if stepID == "" then step else stepID
      case StepIndex => Itoa(index)
    }
  }

  function Position(t: Token): nat
    ensures Position(t) < 7
  {
    match t
    case Workflow => 0
    case MessageID => 1
    case CorrelationID => 2
    case Step => 3
    case StepID => 4
    case StepRef => 5
    case StepIndex => 6
  }

  function AllTokens(): (o: seq<Token>)
    ensures IsOrder(o)
  {
    var o := [Workflow, MessageID, CorrelationID, Step, StepID, StepRef, StepIndex];
    assert forall t: Token :: o[Position(t)] == t && t in o;
    o
  }

  /** An iteration order of the replacement map: every token once. */
  ghost predicate IsOrder(o: seq<Token>) { |o| == 7 && forall t: Token :: t in o }

  type Order = o: seq<Token> | IsOrder(o) ghost witness AllTokens()

  /** {workflow}:{message_id}:{step_index}:{step} */
  const DEFAULT_TEMPLATE := "{workflow}" + ":" + "{message_id}" + ":" + "{step_index}" + ":" + "{step}"

  function ReplaceAll(s: string, token: string, value: string): string
    requires token != ""
  {
    if s == "" then ""
    else if token <= s then value + ReplaceAll(s[|token|..], token, value)
    else [s[0]] + ReplaceAll(s[1..], token, value)
  }

  function Substitute(s: string, facts: Facts, order: seq<Token>): string
    decreases |order|
  {
    if order == [] then s
    else Substitute(ReplaceAll(s, Name(order[0]), facts.Value(order[0])), facts, order[1..])
  }

  function TemplateText(template: string): string {
    var trimmed := TrimSpace(template);
    if trimmed == "" then DEFAULT_TEMPLATE else trimmed
  }

  function Key(template: string, facts: Facts, order: Order): string {
    Substitute(TemplateText(template), facts, order)
  }

  method StepExecutionKey(template: string, facts: Facts, order: Order) returns (key: string)
    ensures key == Key(template, facts, order)
  {
    key := TemplateText(template);
    var i := 0;
    while i < |order|
      invariant 0 <= i <= |order|
      invariant Substitute(key, facts, order[i..]) == Key(template, facts, order)
    {
      key := ReplaceAll(key, Name(order[i]), facts.Value(order[i]));
      i := i + 1;
    }
  }

  // ----- Templates as sequences of literals and tokens -----

  /** Literal text, a token, or a word in braces that is no token. */
  datatype Piece = Lit(text: string) | Tok(tok: Token) | Odd(word: string)

  function PieceText(p: Piece): string {
    match p
    case Lit(x) => x
    case Tok(t) => Name(t)
    case Odd(w) => "{" + w + "}"
  }

  function Render(ps: seq<Piece>): string {
    if ps == [] then "" else PieceText(ps[0]) + Render(ps[1..])
  }

  /** The literals hold no opening brace, the odd words no brace and no token. */
  predicate Clean(ps: seq<Piece>) { forall p | p in ps :: CleanPiece(p) }

  predicate CleanPiece(p: Piece) {
    match p
    case Lit(x) => '{' !in x
    case Tok(_) => true
    case Odd(w) => '{' !in w && '}' !in w && forall t: Token :: Word(t) != w
  }

  /** The pieces with the tokens in `done` replaced by their values. */
  function Fill(ps: seq<Piece>, facts: Facts, done: seq<Token>): (r: seq<Piece>)
    ensures |r| == |ps|
    ensures forall i | 0 <= i < |ps| :: r[i] == FillPiece(ps[i], facts, done)
  {
    seq(|ps|, i requires 0 <= i < |ps| => FillPiece(ps[i], facts, done))
  }

  function FillPiece(p: Piece, facts: Facts, done: seq<Token>): Piece {
    if p.Tok? && p.tok in done then Lit(facts.Value(p.tok)) else p
  }

  /** No value that the template asks for holds an opening brace, as far as these tokens go. */
  predicate BraceFree(ps: seq<Piece>, facts: Facts, tokens: seq<Token>) {
    forall p | p in ps && p.Tok? && p.tok in tokens :: '{' !in facts.Value(p.tok)
  }

  lemma {:induction false} SkipsBraceFree(l: string, rest: string, token: string, value: string)
    requires token != "" && token[0] == '{' && '{' !in l
    ensures ReplaceAll(l + rest, token, value) == l + ReplaceAll(rest, token, value)
  {
    if l == "" {
      assert l + rest == rest;
    } else {
      assert (l + rest)[1..] == l[1..] + rest;
      SkipsBraceFree(l[1..], rest, token, value);
    }
  }

  /** A bracketed word that is not the token is left alone. */
  lemma SkipsOtherWord(word: string, other: string, rest: string, value: string)
    requires '{' !in other && '}' !in word && '}' !in other && word != other
    ensures ReplaceAll("{" + other + "}" + rest, "{" + word + "}", value)
            == "{" + other + "}" + ReplaceAll(rest, "{" + word + "}", value)
  {
    var token, name, tail := "{" + word + "}", "{" + other + "}", other + "}";
    var s := name + rest;
    if token <= s {
      var after := s[|token|..];
      assert s == token + after;
      assert s[1..] == word + ['}'] + after == other + ['}'] + rest;
      SplitsOnce(word, after, other, rest, '}');
    }
    assert s[1..] == tail + rest && name == "{" + tail;
    SkipsBraceFree(tail, rest, token, value);
    assert ReplaceAll(s, token, value) == [s[0]] + ReplaceAll(s[1..], token, value);
  }

  lemma ReplacesToken(token: string, rest: string, value: string)
    requires token != ""
    ensures ReplaceAll(token + rest, token, value) == value + ReplaceAll(rest, token, value)
  {
    assert (token + rest)[|token|..] == rest;
  }

  lemma WordInjective(t: Token, u: Token)
    requires Word(t) == Word(u)
    ensures t == u
  {
    match t { case Workflow => case MessageID => case CorrelationID => case Step => case StepID =>
              case StepRef => case StepIndex => }
  }

  lemma ReplacePiece(p: Piece, facts: Facts, t: Token, rest: string)
    requires CleanPiece(p)
    ensures ReplaceAll(PieceText(p) + rest, Name(t), facts.Value(t))
            == PieceText(FillPiece(p, facts, [t])) + ReplaceAll(rest, Name(t), facts.Value(t))
  {
    match p
    case Lit(x) => SkipsBraceFree(x, rest, Name(t), facts.Value(t));
    case Tok(u) =>
      if u == t {
        ReplacesToken(Name(t), rest, facts.Value(t));
      } else {
        if Word(t) == Word(u) { WordInjective(t, u); }
        SkipsOtherWord(Word(t), Word(u), rest, facts.Value(t));
      }
    case Odd(w) => SkipsOtherWord(Word(t), w, rest, facts.Value(t));
  }

  lemma {:induction false} ReplaceFills(ps: seq<Piece>, facts: Facts, t: Token)
    requires Clean(ps)
    ensures ReplaceAll(Render(ps), Name(t), facts.Value(t)) == Render(Fill(ps, facts, [t]))
    decreases |ps|
  {
    if ps != [] {
      ReplaceFills(ps[1..], facts, t);
      assert Fill(ps, facts, [t])[1..] == Fill(ps[1..], facts, [t]);
      ReplacePiece(ps[0], facts, t, Render(ps[1..]));
    }
  }

  lemma FillTwice(ps: seq<Piece>, facts: Facts, done: seq<Token>, t: Token)
    ensures Fill(Fill(ps, facts, done), facts, [t]) == Fill(ps, facts, done + [t])
  {
    var a, b := Fill(Fill(ps, facts, done), facts, [t]), Fill(ps, facts, done + [t]);
    forall i | 0 <= i < |ps| ensures a[i] == b[i] {
      assert forall u :: u in done + [t] <==> u in done || u == t;
    }
  }

  lemma FillIsClean(ps: seq<Piece>, facts: Facts, done: seq<Token>)
    requires Clean(ps) && BraceFree(ps, facts, done)
    ensures Clean(Fill(ps, facts, done))
  {
    var now := Fill(ps, facts, done);
    forall p | p in now ensures CleanPiece(p) {
      var i :| 0 <= i < |now| && now[i] == p;
      assert ps[i] in ps;
    }
  }

  lemma {:induction false} SubstituteFills(ps: seq<Piece>, facts: Facts, order: seq<Token>, done: seq<Token>)
    requires Clean(ps) && BraceFree(ps, facts, done + order)
    ensures Substitute(Render(Fill(ps, facts, done)), facts, order) == Render(Fill(ps, facts, done + order))
    decreases |order|
  {
    if order == [] {
      assert done + order == done;
    } else {
      var now := Fill(ps, facts, done);
      FillIsClean(ps, facts, done);
      ReplaceFills(now, facts, order[0]);
      FillTwice(ps, facts, done, order[0]);
      assert done + [order[0]] + order[1..] == done + order;
      SubstituteFills(ps, facts, order[1..], done + [order[0]]);
    }
  }

  /** For a template made of brace-free literals, tokens and other words in braces, and values without an opening brace,
      the key is the one-pass substitution: the order of the replacements does not matter. */
  lemma KeyIsOnePass(ps: seq<Piece>, facts: Facts, order: Order)
    requires Clean(ps) && BraceFree(ps, facts, AllTokens())
    ensures Substitute(Render(ps), facts, order) == Render(Fill(ps, facts, AllTokens()))
  {
    assert Fill(ps, facts, []) == ps;
    SubstituteFills(ps, facts, order, []);
    assert [] + order == order;
    assert Fill(ps, facts, order) == Fill(ps, facts, AllTokens());
  }

  function Colons(a: string, b: string, c: string, d: string): string { a + ":" + b + ":" + c + ":" + d }

  function ColonPieces(a: Piece, b: Piece, c: Piece, d: Piece): seq<Piece> {
    [a, Lit(":"), b, Lit(":"), c, Lit(":"), d]
  }

  lemma Assoc(a: string, b: string, c: string)
    ensures a + (b + c) == (a + b) + c
  {}

  lemma AssocColons(a: string, b: string, c: string, d: string, k: string)
    ensures (a + k) + ((b + k) + ((c + k) + d)) == a + k + b + k + c + k + d
  {
    Assoc(a + k, b + k, (c + k) + d);
    Assoc(a + k, b, k);
    Assoc(a + k + b + k, c + k, d);
    Assoc(a + k + b + k, c, k);
  }

  lemma RenderColons(a: Piece, b: Piece, c: Piece, d: Piece)
    ensures Render(ColonPieces(a, b, c, d)) == Colons(PieceText(a), PieceText(b), PieceText(c), PieceText(d))
  {
    var colon := Lit(":");
    assert ColonPieces(a, b, c, d) == [a, colon] + ([b, colon] + ([c, colon] + [d]));
    RenderTwo(a, colon, [b, colon] + ([c, colon] + [d]));
    RenderTwo(b, colon, [c, colon] + [d]);
    RenderTwo(c, colon, [d]);
    Single(d);
    AssocColons(PieceText(a), PieceText(b), PieceText(c), PieceText(d), ":");
  }

  lemma RenderTwo(a: Piece, b: Piece, ps: seq<Piece>)
    ensures Render([a, b] + ps) == (PieceText(a) + PieceText(b)) + Render(ps)
  {
    assert ([a, b] + ps)[1..] == [b] + ps;
    assert ([b] + ps)[1..] == ps;
    Assoc(PieceText(a), PieceText(b), Render(ps));
  }

  /** The default key, whatever the order of the replacements. */
  lemma DefaultKey(facts: Facts, order: Order)
    requires '{' !in facts.workflow && '{' !in facts.messageID && '{' !in facts.step
    ensures Key("", facts, order) == Colons(facts.workflow, facts.messageID, Itoa(facts.index), facts.step)
  {
    var ps := ColonPieces(Tok(Workflow), Tok(MessageID), Tok(StepIndex), Tok(Step));
    DefaultPieces();
    FillColons(Workflow, MessageID, StepIndex, Step, facts);
    ColonsBraceFree(Workflow, MessageID, StepIndex, Step, facts);
    KeyIsOnePass(ps, facts, order);
    RenderColons(Lit(facts.workflow), Lit(facts.messageID), Lit(Itoa(facts.index)), Lit(facts.step));
  }

  lemma DefaultPieces()
    ensures TemplateText("") == Render(ColonPieces(Tok(Workflow), Tok(MessageID), Tok(StepIndex), Tok(Step)))
  {
    RenderColons(Tok(Workflow), Tok(MessageID), Tok(StepIndex), Tok(Step));
    assert TrimSpace("") == "";
    assert Name(Workflow) == "{workflow}";
    assert Name(MessageID) == "{message_id}";
    assert Name(StepIndex) == "{step_index}";
    assert Name(Step) == "{step}";
  }

  lemma FillColons(a: Token, b: Token, c: Token, d: Token, facts: Facts)
    ensures Fill(ColonPieces(Tok(a), Tok(b), Tok(c), Tok(d)), facts, AllTokens())
            == ColonPieces(Lit(facts.Value(a)), Lit(facts.Value(b)), Lit(facts.Value(c)), Lit(facts.Value(d)))
  {
    FillsToken(a, facts);
    FillsToken(b, facts);
    FillsToken(c, facts);
    FillsToken(d, facts);
    FillsFour(Tok(a), Tok(b), Tok(c), Tok(d), facts, AllTokens());
  }

  lemma FillsToken(t: Token, facts: Facts)
    ensures FillPiece(Tok(t), facts, AllTokens()) == Lit(facts.Value(t))
  {
    assert t in AllTokens();
  }

  lemma FillsFour(a: Piece, b: Piece, c: Piece, d: Piece, facts: Facts, done: seq<Token>)
    ensures Fill(ColonPieces(a, b, c, d), facts, done)
            == ColonPieces(FillPiece(a, facts, done), FillPiece(b, facts, done), FillPiece(c, facts, done),
                           FillPiece(d, facts, done))
  {}

  lemma ColonsBraceFree(a: Token, b: Token, c: Token, d: Token, facts: Facts)
    requires '{' !in facts.Value(a) && '{' !in facts.Value(b) && '{' !in facts.Value(c) && '{' !in facts.Value(d)
    ensures var ps := ColonPieces(Tok(a), Tok(b), Tok(c), Tok(d));
            Clean(ps) && BraceFree(ps, facts, AllTokens())
  {
    forall p | p in ColonPieces(Tok(a), Tok(b), Tok(c), Tok(d))
      ensures CleanPiece(p) && (p.Tok? ==> '{' !in facts.Value(p.tok))
    {
      assert p in [Lit(":"), Tok(a), Tok(b), Tok(c), Tok(d)];
    }
  }

  /** Within one message, distinct step indexes get distinct default keys. */
  lemma DefaultKeysAreDistinct(a: Facts, b: Facts, orderA: Order, orderB: Order)
    requires a.workflow == b.workflow && a.messageID == b.messageID && a.index != b.index
    requires '{' !in a.workflow && '{' !in a.messageID && '{' !in a.step && '{' !in b.step
    ensures Key("", a, orderA) != Key("", b, orderB)
  {
    DefaultKey(a, orderA);
    DefaultKey(b, orderB);
    if Itoa(a.index) == Itoa(b.index) { ItoaInjective(a.index, b.index); }
    ColonsInjective(a.workflow + ":" + a.messageID + ":", Itoa(a.index), a.step, Itoa(b.index), b.step);
  }

  lemma ColonsInjective(head: string, d: string, s: string, e: string, t: string)
    requires ':' !in d && ':' !in e && d != e
    ensures head + d + ":" + s != head + e + ":" + t
  {
    if head + d + ":" + s == head + e + ":" + t {
      assert (head + d + ":" + s)[|head|..] == d + [':'] + s;
      assert (head + e + ":" + t)[|head|..] == e + [':'] + t;
      SplitsOnce(d, s, e, t, ':');
    }
  }

  lemma Single(p: Piece)
    ensures Render([p]) == PieceText(p)
  {
    assert [p][1..] == [];
  }

  lemma Once(ps: seq<Piece>, facts: Facts, t: Token, rest: seq<Token>)
    requires Clean(ps)
    ensures Substitute(Render(ps), facts, [t] + rest) == Substitute(Render(Fill(ps, facts, [t])), facts, rest)
  {
    ReplaceFills(ps, facts, t);
    assert ([t] + rest)[1..] == rest;
  }

  // ----- When the order matters -----

  predicate Contains(s: string, name: string) {
    name <= s || (s != "" && Contains(s[1..], name))
  }

  function Braces(s: string): nat {
    if s == "" then 0 else (if s[0] == '{' then 1 else 0) + Braces(s[1..])
  }

  lemma {:induction false} BracesAdd(a: string, b: string)
    ensures Braces(a + b) == Braces(a) + Braces(b)
  {
    if a == "" {
      assert a + b == b;
    } else {
      assert (a + b)[1..] == a[1..] + b;
      BracesAdd(a[1..], b);
    }
  }

  lemma {:induction false} NoBraces(s: string)
    requires '{' !in s
    ensures Braces(s) == 0
  {
    if s != "" {
      NoBraces(s[1..]);
    }
  }

  /** A name: one brace, at its beginning. */
  predicate Named(name: string) { name != "" && name[0] == '{' && '{' !in name[1..] }

  lemma NameIsNamed(t: Token)
    ensures Named(Name(t))
  {
    assert Name(t)[1..] == Word(t) + "}";
  }

  lemma NamePrefix(s: string, name: string)
    requires Named(name) && name <= s
    ensures Braces(s) == 1 + Braces(s[|name|..])
  {
    assert s == name + s[|name|..];
    BracesAdd(name, s[|name|..]);
    NoBraces(name[1..]);
  }

  /** Each replacement by a brace-free value takes a brace away. */
  lemma {:induction false} ReplacingLosesBraces(s: string, name: string, value: string)
    requires Named(name) && '{' !in value
    ensures Braces(ReplaceAll(s, name, value)) <= Braces(s)
    ensures Contains(s, name) ==> Braces(ReplaceAll(s, name, value)) < Braces(s)
    decreases |s|
  {
    if s == "" {
    } else if name <= s {
      NamePrefix(s, name);
      ReplacingLosesBraces(s[|name|..], name, value);
      BracesAdd(value, ReplaceAll(s[|name|..], name, value));
      NoBraces(value);
    } else {
      ReplacingLosesBraces(s[1..], name, value);
      BracesAdd([s[0]], ReplaceAll(s[1..], name, value));
    }
  }

  /** Replacing in two texts on their own leaves no fewer braces than replacing in both together. */
  lemma {:induction false} ReplacingTogether(x: string, y: string, name: string, value: string)
    requires Named(name) && '{' !in value
    ensures Braces(ReplaceAll(x + y, name, value))
            <= Braces(ReplaceAll(x, name, value)) + Braces(ReplaceAll(y, name, value))
    decreases |x|
  {
    if x == "" {
      assert x + y == y;
    } else if name <= x {
      assert (x + y)[|name|..] == x[|name|..] + y;
      ReplacingTogether(x[|name|..], y, name, value);
      BracesAdd(value, ReplaceAll(x[|name|..] + y, name, value));
      BracesAdd(value, ReplaceAll(x[|name|..], name, value));
    } else if name <= x + y {
      ReplacedAcross(x, y, name, value);
    } else {
      assert (x + y)[1..] == x[1..] + y;
      ReplacingTogether(x[1..], y, name, value);
      BracesAdd([x[0]], ReplaceAll(x[1..] + y, name, value));
      BracesAdd([x[0]], ReplaceAll(x[1..], name, value));
    }
  }

  /** The name begins in the first text and ends in the second. */
  lemma ReplacedAcross(x: string, y: string, name: string, value: string)
    requires Named(name) && '{' !in value && x != "" && name <= x + y && !(name <= x)
    ensures Braces(ReplaceAll(x + y, name, value)) <= Braces(ReplaceAll(y, name, value))
  {
    var k := |name| - |x|;
    assert y[..k] == name[|x|..] && '{' !in y[..k] by {
      assert (x + y)[|x|..|name|] == y[..k];
      assert forall j | |x| <= j < |name| :: name[j] == name[1..][j - 1];
    }
    assert y == y[..k] + y[k..] && (x + y)[|name|..] == y[k..];
    SkipsBraceFree(y[..k], y[k..], name, value);
    BracesAdd(value, ReplaceAll(y[k..], name, value));
    BracesAdd(y[..k], ReplaceAll(y[k..], name, value));
    NoBraces(value);
  }

  /** The pieces after t has been filled in, and the pieces with u filled in too: replacing u in the text
      of the former leaves fewer braces than the text of the latter has. */
  lemma {:induction false} FillingLosesBraces(ps: seq<Piece>, facts: Facts, t: Token, u: Token)
    requires t != u && Clean(ps) && Contains(facts.Value(t), Name(u)) && '{' !in facts.Value(u)
    requires forall p | p in ps && p.Tok? :: p.tok in {t, u}
    ensures var (text, both) := (ReplaceAll(Render(Fill(ps, facts, [t])), Name(u), facts.Value(u)),
                                 Render(Fill(ps, facts, [u, t])));
            Braces(text) <= Braces(both) && (Tok(t) in ps ==> Braces(text) < Braces(both))
    decreases |ps|
  {
    if ps != [] {
      FillingLosesBraces(ps[1..], facts, t, u);
      assert Fill(ps, facts, [t])[1..] == Fill(ps[1..], facts, [t]);
      assert Fill(ps, facts, [u, t])[1..] == Fill(ps[1..], facts, [u, t]);
      PieceLosesBraces(ps[0], facts, t, u);
      NameIsNamed(u);
      ReplacingTogether(PieceText(FillPiece(ps[0], facts, [t])), Render(Fill(ps[1..], facts, [t])), Name(u),
                        facts.Value(u));
      BracesAdd(PieceText(FillPiece(ps[0], facts, [u, t])), Render(Fill(ps[1..], facts, [u, t])));
    }
  }

  lemma PieceLosesBraces(p: Piece, facts: Facts, t: Token, u: Token)
    requires t != u && Contains(facts.Value(t), Name(u)) && '{' !in facts.Value(u)
    requires CleanPiece(p) && (p.Tok? ==> p.tok in {t, u})
    ensures var (text, both) := (ReplaceAll(PieceText(FillPiece(p, facts, [t])), Name(u), facts.Value(u)),
                                 PieceText(FillPiece(p, facts, [u, t])));
            Braces(text) <= Braces(both) && (p == Tok(t) ==> Braces(text) < Braces(both))
  {
    NameIsNamed(u);
    if p == Tok(u) {
      AloneIsReplaced(Name(u), facts.Value(u));
    } else {
      ReplacingLosesBraces(PieceText(FillPiece(p, facts, [t])), Name(u), facts.Value(u));
    }
  }

  lemma AloneIsReplaced(name: string, value: string)
    requires name != ""
    ensures ReplaceAll(name, name, value) == value
  {
    ReplacesToken(name, "", value);
    assert name + "" == name && value + "" == value;
  }

  /** A replacement that happens shows, unless it puts the name back. */
  lemma {:induction false} ReplacingShows(s: string, name: string, value: string)
    requires name != "" && Contains(s, name) && value != name
    ensures ReplaceAll(s, name, value) != s
    decreases |s|
  {
    ReplacingChangesLength(s, name, value);
    if |value| == |name| && !(name <= s) {
      ReplacingShows(s[1..], name, value);
      assert ReplaceAll(s, name, value)[1..] == ReplaceAll(s[1..], name, value);
    } else if |value| == |name| {
      assert ReplaceAll(s, name, value)[..|name|] == value && s[..|name|] == name;
    }
  }

  lemma {:induction false} ReplacingChangesLength(s: string, name: string, value: string)
    requires name != ""
    ensures |value| == |name| ==> |ReplaceAll(s, name, value)| == |s|
    ensures |value| > |name| ==> |ReplaceAll(s, name, value)| >= |s|
    ensures |value| < |name| ==> |ReplaceAll(s, name, value)| <= |s|
    ensures |value| != |name| && Contains(s, name) ==> |ReplaceAll(s, name, value)| != |s|
    decreases |s|
  {
    if s == "" {
    } else if name <= s {
      ReplacingChangesLength(s[|name|..], name, value);
    } else {
      ReplacingChangesLength(s[1..], name, value);
    }
  }

  lemma {:induction false} ContainsLeft(s: string, b: string, name: string)
    requires Contains(s, name)
    ensures Contains(s + b, name)
    decreases |s|
  {
    if name <= s {
      assert name <= s + b;
    } else {
      assert (s + b)[1..] == s[1..] + b;
      ContainsLeft(s[1..], b, name);
    }
  }

  lemma {:induction false} ContainsRight(a: string, s: string, name: string)
    requires Contains(s, name)
    ensures Contains(a + s, name)
    decreases |a|
  {
    if a == "" {
      assert a + s == s;
    } else {
      assert (a + s)[1..] == a[1..] + s;
      ContainsRight(a[1..], s, name);
    }
  }

  lemma {:induction false} RenderContains(ps: seq<Piece>, p: Piece, name: string)
    requires p in ps && Contains(PieceText(p), name)
    ensures Contains(Render(ps), name)
    decreases |ps|
  {
    if p == ps[0] {
      ContainsLeft(PieceText(p), Render(ps[1..]), name);
    } else {
      RenderContains(ps[1..], p, name);
      ContainsRight(PieceText(ps[0]), Render(ps[1..]), name);
    }
  }

  /** The last two replacements do not commute. */
  lemma LastTwoDiffer(ps: seq<Piece>, facts: Facts, t: Token, u: Token)
    requires t != u && Clean(ps) && Tok(t) in ps && (forall p | p in ps && p.Tok? :: p.tok in {t, u})
    requires Contains(facts.Value(t), Name(u)) && facts.Value(u) != Name(u)
    requires Tok(u) !in ps || '{' !in facts.Value(u)
    ensures Substitute(Render(ps), facts, [u, t]) != Substitute(Render(ps), facts, [t, u])
  {
    var now := Fill(ps, facts, [u]);
    assert [t] + [u] == [t, u] && [u] + [t] == [u, t];
    Once(ps, facts, t, [u]);
    Once(ps, facts, u, [t]);
    FillTwice(ps, facts, [u], t);
    if Tok(u) in ps {
      FillIsClean(ps, facts, [u]);
      LastReplacement(now, facts, t);
      LastOfText(Render(Fill(ps, facts, [t])), facts, u);
      FillingLosesBraces(ps, facts, t, u);
    } else {
      assert now == ps;
      LastReplacement(ps, facts, t);
      LastOfText(Render(Fill(ps, facts, [t])), facts, u);
      FilledNameShows(ps, facts, t, u);
    }
  }

  lemma FilledNameShows(ps: seq<Piece>, facts: Facts, t: Token, u: Token)
    requires Tok(t) in ps && Contains(facts.Value(t), Name(u)) && facts.Value(u) != Name(u)
    ensures ReplaceAll(Render(Fill(ps, facts, [t])), Name(u), facts.Value(u)) != Render(Fill(ps, facts, [t]))
  {
    var i :| 0 <= i < |ps| && ps[i] == Tok(t);
    assert Fill(ps, facts, [t])[i] == Lit(facts.Value(t));
    RenderContains(Fill(ps, facts, [t]), Lit(facts.Value(t)), Name(u));
    ReplacingShows(Render(Fill(ps, facts, [t])), Name(u), facts.Value(u));
  }

  lemma LastReplacement(ps: seq<Piece>, facts: Facts, t: Token)
    requires Clean(ps)
    ensures Substitute(Render(ps), facts, [t]) == Render(Fill(ps, facts, [t]))
  {
    Once(ps, facts, t, []);
    assert [t] + [] == [t];
  }

  lemma LastOfText(s: string, facts: Facts, u: Token)
    ensures Substitute(s, facts, [u]) == ReplaceAll(s, Name(u), facts.Value(u))
  {
    assert [u][1..] == [];
  }

  lemma {:induction false} SubstituteInTurn(s: string, facts: Facts, first: seq<Token>, last: seq<Token>)
    ensures Substitute(s, facts, first + last) == Substitute(Substitute(s, facts, first), facts, last)
    decreases |first|
  {
    if first == [] {
      assert first + last == last;
    } else {
      assert (first + last)[1..] == first[1..] + last;
      SubstituteInTurn(ReplaceAll(s, Name(first[0]), facts.Value(first[0])), facts, first[1..], last);
    }
  }

  /** The converse: when the value of one token that the template asks for holds the full name of another
      token, whose value is not that name, then two orders give two keys; they differ in these two tokens
      only, after any order of the others. The values of the other tokens that the template asks for hold
      no opening brace. */
  lemma NamesInValuesSplitKeys(ps: seq<Piece>, facts: Facts, others: seq<Token>, t: Token, u: Token)
    requires t != u && IsOrder(others + [u, t]) && t !in others && u !in others
    requires Clean(ps) && Tok(t) in ps && BraceFree(ps, facts, others)
    requires Contains(facts.Value(t), Name(u)) && facts.Value(u) != Name(u)
    requires Tok(u) !in ps || '{' !in facts.Value(u)
    ensures IsOrder(others + [t, u])
    ensures Substitute(Render(ps), facts, others + [u, t]) != Substitute(Render(ps), facts, others + [t, u])
  {
    assert forall x: Token :: x in others + [u, t] <==> x in others + [t, u];
    var now := Fill(ps, facts, others);
    assert Fill(ps, facts, []) == ps && [] + others == others;
    SubstituteFills(ps, facts, others, []);
    FillIsClean(ps, facts, others);
    SubstituteInTurn(Render(ps), facts, others, [u, t]);
    SubstituteInTurn(Render(ps), facts, others, [t, u]);
    TokensLeft(ps, facts, others, t, u);
    LastTwoDiffer(now, facts, t, u);
  }

  lemma TokensLeft(ps: seq<Piece>, facts: Facts, others: seq<Token>, t: Token, u: Token)
    requires IsOrder(others + [u, t]) && t !in others && u !in others
    ensures forall p | p in Fill(ps, facts, others) && p.Tok? :: p.tok in {t, u}
    ensures Tok(t) in ps ==> Tok(t) in Fill(ps, facts, others)
    ensures Tok(u) in Fill(ps, facts, others) ==> Tok(u) in ps
  {
    var now := Fill(ps, facts, others);
    forall p | p in now && p.Tok? ensures p.tok in {t, u} && p in ps {
      var i :| 0 <= i < |now| && now[i] == p;
      assert ps[i] == p && p.tok !in others && p.tok in others + [u, t];
    }
    if Tok(t) in ps {
      var i :| 0 <= i < |ps| && ps[i] == Tok(t);
      assert now[i] == Tok(t);
    }
  }

  const BRACED := Facts("w", "{step}", "", "s", "", 0)

  /** For instance, a message whose id is the text "{step}" gets two different keys from the template
      "{message_id}". */
  lemma OrderCanMatter(others: seq<Token>)
    requires others == [Workflow, CorrelationID, StepID, StepRef, StepIndex]
    ensures IsOrder(others + [Step, MessageID]) && IsOrder(others + [MessageID, Step])
    ensures Substitute("{message_id}", BRACED, others + [Step, MessageID])
            != Substitute("{message_id}", BRACED, others + [MessageID, Step])
  {
    var o := others + [Step, MessageID];
    forall t: Token ensures t in o {
      match t
      case Workflow => assert o[0] == t;
      case MessageID => assert o[6] == t;
      case CorrelationID => assert o[1] == t;
      case Step => assert o[5] == t;
      case StepID => assert o[2] == t;
      case StepRef => assert o[3] == t;
      case StepIndex => assert o[4] == t;
    }
    Single(Tok(MessageID));
    assert Name(MessageID) == "{message_id}";
    assert Name(Step) == "{step}";
    NamesInValuesSplitKeys([Tok(MessageID)], BRACED, others, MessageID, Step);
  }

  // ----- What each token stands for -----

  /** The text of a token. */
  function Meaning(t: Token, workflow: string, messageID: string, correlationID: string, step: string, stepID: string,
                   index: nat): string {
    match t
    case Workflow => workflow
    case MessageID => messageID
    case CorrelationID => correlationID
    case Step => step
    case StepID => stepID
    case StepRef => if stepID == "" then step else stepID
    case StepIndex => Itoa(index)
  }

  /** A template that is nothing but that token. */
  function Written(t: Token): string {
    match t
    case Workflow => "{workflow}"
    case MessageID => "{message_id}"
    case CorrelationID => "{correlation_id}"
    case Step => "{step}"
    case StepID => "{step_id}"
    case StepRef => "{step_ref}"
    case StepIndex => "{step_index}"
  }

  lemma NamesAreWritten(t: Token)
    ensures Name(t) == Written(t)
  {}

  /** A template that is a single token gives the text that it stands for: the workflow, the message, the correlation
      id, the handler name, the step id, the step id or else the handler name, the index. */
  lemma TokenMeans(workflow: string, messageID: string, correlationID: string, step: string, stepID: string, index: nat,
                   t: Token, order: Order)
    requires '{' !in workflow && '{' !in messageID && '{' !in correlationID && '{' !in step && '{' !in stepID
    ensures Key(Written(t), Facts(workflow, messageID, correlationID, step, stepID, index), order)
            == Meaning(t, workflow, messageID, correlationID, step, stepID, index)
  {
    NamesAreWritten(t);
    var facts, ps := Facts(workflow, messageID, correlationID, step, stepID, index), [Tok(t)];
    var filled := [Lit(facts.Value(t))];
    KeyIsOnePass(ps, facts, order);
    assert Fill(ps, facts, AllTokens()) == filled;
    OnePiece(ps[0]);
    OnePiece(filled[0]);
    BracesAreKept(Name(t));
  }

  lemma OnePiece(p: Piece)
    ensures Render([p]) == PieceText(p)
  {
    assert [p][1..] == [];
    assert PieceText(p) + "" == PieceText(p);
  }

  lemma BracesAreKept(s: string)
    requires |s| >= 2 && s[0] == '{' && s[|s| - 1] == '}'
    ensures TemplateText(s) == s
  {
    assert TrimLeft(s) == s && TrimRight(s) == s;
  }
}
