/** The Studio project file: a raw workflow script printed into a YAML document, and extracted again. */
module Studio {
  import opened Prelude
  import Text

  /** The white space of JavaScript's \s and trim. */
  predicate IsSpace(c: char) {
    || c in {'\t', '\n', '\U{0B}', '\U{0C}', '\r', ' ', '\U{A0}', '\U{1680}', '\U{FEFF}'}
    || '\U{2000}' <= c <= '\U{200A}'
    || c in {'\U{2028}', '\U{2029}', '\U{202F}', '\U{205F}', '\U{3000}'}
  }

  predicate Blank(line: string) { forall k | 0 <= k < |line| :: IsSpace(line[k]) }

  function TrimEnd(s: string): string
    decreases |s|
  {
    if s != "" && IsSpace(s[|s| - 1]) then TrimEnd(s[..|s| - 1]) else s
  }

  type Lines = ls: seq<string> | |ls| >= 1 witness [""]

  function Split(s: string): Lines { Text.Split(s, '\n') }

  function Join(ls: Lines): string { Text.Join(ls, '\n') }

  /** The width of the leading white space. */
  function Indent(line: string): (n: nat)
    ensures n <= |line| && forall k | 0 <= k < n :: IsSpace(line[k])
    ensures n < |line| ==> !IsSpace(line[n])
  {
    if line != "" && IsSpace(line[0]) then 1 + Indent(line[1..]) else 0
  }

  function Spaces(n: nat): string { seq(n, _ => ' ') }

  function IndentLines(ls: seq<string>, size: nat): (r: seq<string>)
    ensures |r| == |ls|
  {
    seq(|ls|, i requires 0 <= i < |ls| => Spaces(size) + ls[i])
  }

  /** indentYamlBlock */
  function IndentBlock(text: string, size: nat): string { Join(IndentLines(Split(text), size)) }

  /** The least indent of the lines that are not blank. */
  function LeastIndent(ls: seq<string>): Option<nat> {
    if ls == [] then None
    else
      var rest := LeastIndent(ls[1..]);
      if Blank(ls[0]) then rest
      else if rest.None? then Some(Indent(ls[0])) else Some(Min(Indent(ls[0]), rest.value))
  }

  function DedentLine(line: string, n: nat): string {
    if Blank(line) then "" else if n <= |line| then line[n..] else ""
  }

  function DedentLines(ls: seq<string>): (r: seq<string>)
    ensures |r| == |ls|
  {
    seq(|ls|, i requires 0 <= i < |ls| => DedentLine(ls[i], LeastIndent(ls).Or(0)))
  }

  /** dedentYamlBlock */
  function DedentBlock(text: string): string { Join(DedentLines(Split(text))) }

  // ----- Printing -----

  /** serializeWorkflowProjectWithRawScript, with the parts that the YAML printer writes as texts. */
  function Serialize(head: string, payload: string, script: string, rules: string): string {
    Join([head, "payload_data: |-", IndentBlock(TrimEnd(if payload == "" then "{}" else payload), 2),
          "workflow_script:", IndentBlock(TrimEnd(script), 2), rules, ""])
  }

  // ----- Extracting -----

  predicate LineEnd(c: char) { c in {'\n', '\r', '\U{2028}', '\U{2029}'} }

  function SkipSpace(s: string): string { s[Indent(s)..] }

  /** The line is the key alone: white space, a colon, white space and a comment may follow. */
  predicate KeyLine(line: string, key: string) {
    key <= line
    && var rest := SkipSpace(line[|key|..]);
      && rest != "" && rest[0] == ':'
      && var tail := SkipSpace(rest[1..]);
        tail == "" || (tail[0] == '#' && forall c | c in tail :: !LineEnd(c))
  }

  /** The line begins another top-level entry. */
  predicate EndsBlock(line: string) { line != "" && !IsSpace(line[0]) && ':' in line[1..] }

  /** findIndex: the first line that satisfies p, or the number of lines. */
  function FindIndex(ls: seq<string>, p: string -> bool): (i: nat)
    ensures i <= |ls|
    ensures i < |ls| ==> p(ls[i])
    ensures forall k | 0 <= k < i :: !p(ls[k])
  {
    if ls == [] || p(ls[0]) then 0 else 1 + FindIndex(ls[1..], p)
  }

  /** The lines before the first that satisfies p. */
  function TakeUntil(ls: seq<string>, p: string -> bool): (r: seq<string>)
    ensures r <= ls
  {
    if ls == [] || p(ls[0]) then [] else [ls[0]] + TakeUntil(ls[1..], p)
  }

  function AsText(ls: seq<string>): string { if ls == [] then "" else Join(ls) }

  /** The text of a block: dedented, and ended by one line break. */
  function BlockText(block: seq<string>): string { TrimEnd(DedentBlock(AsText(block))) + "\n" }

  function ExtractLines(ls: seq<string>, key: string): string {
    var i := FindIndex(ls, l => KeyLine(l, key));
    if i == |ls| then "" else BlockText(TakeUntil(ls[i + 1..], l => EndsBlock(l)))
  }

  function Extract(text: string, key: string): string { ExtractLines(Split(text), key) }

  /** extractYamlBlock */
  method ExtractYamlBlock(text: string, key: string) returns (out: string)
    ensures out == Extract(text, key)
  {
    var lines := Split(text);
    var start := FindIndex(lines, l => KeyLine(l, key));
    if start == |lines| {
      return "";
    }
    var block := CollectBlock(lines[start + 1..], l => EndsBlock(l));
    out := BlockText(block);
  }

  /** Its loop: the lines up to the next entry. */
  method CollectBlock(lines: seq<string>, ends: string -> bool) returns (block: seq<string>)
    ensures block == TakeUntil(lines, ends)
  {
    block := [];
    var index := 0;
    ghost var goal := TakeUntil(lines, ends);
    assert lines[0..] == lines && [] + goal == goal;
    while index < |lines|
      invariant 0 <= index <= |lines|
      invariant block + TakeUntil(lines[index..], ends) == goal
    {
      TakeAt(lines, ends, index, block, goal);
      if ends(lines[index]) {
        return;
      }
      block := block + [lines[index]];
      index := index + 1;
    }
    assert lines[index..] == [] && block + [] == block;
  }

  lemma TakeAt(lines: seq<string>, ends: string -> bool, index: nat, block: seq<string>, goal: seq<string>)
    requires index < |lines| && block + TakeUntil(lines[index..], ends) == goal
    ensures ends(lines[index]) ==> block == goal
    ensures !ends(lines[index]) ==> (block + [lines[index]]) + TakeUntil(lines[index + 1..], ends) == goal
  {
    assert lines[index..][1..] == lines[index + 1..];
    var rest := TakeUntil(lines[index + 1..], ends);
    assert block + ([lines[index]] + rest) == (block + [lines[index]]) + rest;
    assert block + [] == block;
  }

  // ----- Splitting and joining -----

  predicate Unbroken(ls: seq<string>) { forall k | 0 <= k < |ls| :: '\n' !in ls[k] }

  lemma SplitJoin(ls: Lines)
    requires Unbroken(ls)
    ensures Split(Join(ls)) == ls
  {
    Text.SplitJoin(ls, '\n');
  }

  lemma SplitOne(line: string)
    requires '\n' !in line
    ensures Split(line) == [line]
  {
    if Text.IndexOf(line, '\n') < |line| { Breaks(line); }
  }

  lemma Breaks(s: string)
    requires Text.IndexOf(s, '\n') < |s|
    ensures '\n' in s
  {
    assert s[Text.IndexOf(s, '\n')] in s;
  }

  lemma SplitFirst(line: string, rest: string)
    requires '\n' !in line
    ensures Split(line + ['\n'] + rest) == [line] + Split(rest)
  {
    var s := line + ['\n'] + rest;
    Text.IndexOfFirst(line, '\n', rest);
    assert s[..|line|] == line && s[|line| + 1..] == rest;
  }

  /** Joining texts and splitting gives the lines of each. */
  lemma {:induction false} SplitConcat(a: string, b: string)
    ensures Split(a + ['\n'] + b) == Split(a) + Split(b)
    decreases |a|
  {
    var i := Text.IndexOf(a, '\n');
    var s := a + ['\n'] + b;
    if i == |a| {
      assert a[..i] == a;
      SplitOne(a);
      SplitFirst(a, b);
    } else {
      var head, tail := a[..i], a[i + 1..];
      SplitConcat(tail, b);
      assert a == head + ['\n'] + tail;
      assert s == head + ['\n'] + (tail + ['\n'] + b);
      SplitFirst(head, tail + ['\n'] + b);
      SplitFirst(head, tail);
      assert [head] + (Split(tail) + Split(b)) == ([head] + Split(tail)) + Split(b);
    }
  }

  lemma SplitIsUnbroken(s: string)
    ensures Unbroken(Split(s))
  {
    forall k | 0 <= k < |Split(s)| ensures '\n' !in Split(s)[k] { assert Split(s)[k] in Split(s); }
  }

  lemma SplitIndented(text: string, size: nat)
    ensures Split(IndentBlock(text, size)) == IndentLines(Split(text), size)
  {
    var ls := IndentLines(Split(text), size);
    SplitIsUnbroken(text);
    forall k | 0 <= k < |ls| ensures '\n' !in ls[k] {
      assert ls[k] == Spaces(size) + Split(text)[k];
    }
    SplitJoin(ls);
  }

  // ----- The round trip -----

  lemma {:induction false} TakesUpTo(block: seq<string>, after: seq<string>, ends: string -> bool)
    requires (forall k | 0 <= k < |block| :: !ends(block[k])) && (after == [] || ends(after[0]))
    ensures TakeUntil(block + after, ends) == block
  {
    if block == [] {
      assert block + after == after;
    } else {
      assert (block + after)[1..] == block[1..] + after;
      TakesUpTo(block[1..], after, ends);
    }
  }

  lemma {:induction false} FindsAfter(before: seq<string>, rest: seq<string>, p: string -> bool)
    requires (forall k | 0 <= k < |before| :: !p(before[k])) && rest != [] && p(rest[0])
    ensures FindIndex(before + rest, p) == |before|
  {
    if before == [] {
      assert before + rest == rest;
    } else {
      assert (before + rest)[1..] == before[1..] + rest;
      FindsAfter(before[1..], rest, p);
    }
  }

  /** Indenting shifts the least indent. */
  lemma {:induction false} IndentShifts(ls: seq<string>, size: nat)
    ensures LeastIndent(IndentLines(ls, size))
            == match LeastIndent(ls) case None => None case Some(n) => Some(n + size)
  {
    if ls != [] {
      var all := IndentLines(ls, size);
      assert all[1..] == IndentLines(ls[1..], size);
      IndentShifts(ls[1..], size);
      IndentOfShifted(ls[0], size);
    }
  }

  lemma {:induction false} IndentOfShifted(line: string, size: nat)
    ensures Blank(Spaces(size) + line) <==> Blank(line)
    ensures Indent(Spaces(size) + line) == size + Indent(line)
    decreases size
  {
    var s := Spaces(size) + line;
    assert forall k | 0 <= k < |line| :: s[size + k] == line[k];
    if size == 0 {
      assert s == line;
    } else {
      assert s[1..] == Spaces(size - 1) + line;
      IndentOfShifted(line, size - 1);
    }
  }

  lemma DedentShifted(line: string, size: nat, n: nat)
    requires Blank(line) || n <= |line|
    ensures DedentLine(Spaces(size) + line, size + n) == DedentLine(line, n)
  {
    IndentOfShifted(line, size);
    if !Blank(line) {
      assert (Spaces(size) + line)[size + n..] == line[n..];
    }
  }

  /** A line dedents the same way when it and the least indent have moved together. */
  lemma DedentMoved(line: string, size: nat, n: Option<nat>)
    requires Blank(line) || (n.Some? && n.value <= |line|)
    ensures DedentLine(Spaces(size) + line, (if n.Some? then n.value + size else 0)) == DedentLine(line, n.Or(0))
  {
    if n.None? { BlankStaysBlank(line, size); } else { DedentShifted(line, size, n.value); }
  }

  /** What a script becomes when it is printed and extracted: dedented by its own least indent. */
  lemma DedentOfIndented(ls: seq<string>, size: nat)
    ensures DedentLines(IndentLines(ls, size)) == DedentLines(ls)
  {
    var n, all := LeastIndent(ls), IndentLines(ls, size);
    IndentShifts(ls, size);
    var m := LeastIndent(all).Or(0);
    forall k | 0 <= k < |ls| ensures DedentLine(all[k], m) == DedentLine(ls[k], n.Or(0)) {
      if !Blank(ls[k]) { LeastIsBelow(ls, k); }
      DedentMoved(ls[k], size, n);
    }
    assert forall k | 0 <= k < |ls| :: DedentLines(all)[k] == DedentLine(all[k], m);
  }

  lemma BlankStaysBlank(line: string, size: nat)
    requires Blank(line)
    ensures DedentLine(Spaces(size) + line, 0) == DedentLine(line, 0)
  {
    IndentOfShifted(line, size);
  }

  lemma {:induction false} LeastIsBelow(ls: seq<string>, k: nat)
    requires k < |ls| && !Blank(ls[k])
    ensures LeastIndent(ls).Some? && LeastIndent(ls).value <= Indent(ls[k]) < |ls[k]|
  {
    BlankIsAllIndent(ls[k]);
    if k > 0 {
      LeastIsBelow(ls[1..], k - 1);
    }
  }

  lemma BlankIsAllIndent(line: string)
    ensures Blank(line) <==> Indent(line) == |line|
  {}

  /** The lines of a script that survive: some line at column 0, and no white space on blank lines. */
  predicate Flush(ls: seq<string>) {
    && (forall k | 0 <= k < |ls| :: Blank(ls[k]) ==> ls[k] == "")
    && LeastIndent(ls).Or(0) == 0
  }

  lemma {:induction false} LeastIsTaken(ls: seq<string>) returns (k: nat)
    requires LeastIndent(ls).Some?
    ensures k < |ls| && !Blank(ls[k]) && Indent(ls[k]) == LeastIndent(ls).value
  {
    if !Blank(ls[0]) && (LeastIndent(ls[1..]).None? || Indent(ls[0]) <= LeastIndent(ls[1..]).value) {
      k := 0;
    } else {
      var j := LeastIsTaken(ls[1..]);
      k := j + 1;
    }
  }

  /** Dedenting changes nothing exactly on such lines. */
  lemma DedentFixesFlush(ls: seq<string>)
    ensures DedentLines(ls) == ls <==> Flush(ls)
  {
    var n := LeastIndent(ls).Or(0);
    if Flush(ls) {
      forall k | 0 <= k < |ls| ensures DedentLines(ls)[k] == ls[k] {}
    }
    if DedentLines(ls) == ls {
      forall k | 0 <= k < |ls| && Blank(ls[k]) ensures ls[k] == "" {
        assert DedentLines(ls)[k] == ls[k];
      }
      if LeastIndent(ls).Some? {
        var k := LeastIsTaken(ls);
        LeastIsBelow(ls, k);
        assert DedentLines(ls)[k] == ls[k];
        assert |ls[k][n..]| == |ls[k]| - n;
      }
    }
  }

  /** The parts of a project that the YAML printer writes: no line of the head is the script's key, and
      the rules begin with their own entry. */
  predicate WellPrinted(head: string, rules: string) {
    && (forall k | 0 <= k < |Split(head)| :: !KeyLine(Split(head)[k], "workflow_script"))
    && EndsBlock(Split(rules)[0])
  }

  function Before(head: string, payload: string): seq<string> {
    Split(head) + ["payload_data: |-"] + IndentLines(Split(TrimEnd(if payload == "" then "{}" else payload)), 2)
  }

  /** The lines of each text, one after the other. */
  function Flat(texts: seq<string>): seq<string> { if texts == [] then [] else Split(texts[0]) + Flat(texts[1..]) }

  lemma {:induction false} SplitJoined(texts: Lines)
    ensures Split(Join(texts)) == Flat(texts)
    decreases |texts|
  {
    if |texts| == 1 {
      assert Flat(texts[1..]) == [];
    } else {
      SplitJoined(texts[1..]);
      SplitConcat(texts[0], Join(texts[1..]));
    }
  }

  lemma FlatCons(text: string, texts: seq<string>)
    ensures Flat([text] + texts) == Split(text) + Flat(texts)
  {
    assert ([text] + texts)[1..] == texts;
  }

  lemma {:induction false} FlatConcat(a: seq<string>, b: seq<string>)
    ensures Flat(a + b) == Flat(a) + Flat(b)
    decreases |a|
  {
    if a == [] {
      assert a + b == b;
    } else {
      FlatConcat(a[1..], b);
      assert a + b == [a[0]] + (a[1..] + b);
      FlatCons(a[0], a[1..] + b);
    }
  }

  lemma FlatThree(a: string, b: string, c: string)
    ensures Flat([a, b, c]) == Split(a) + Split(b) + Split(c)
  {
    assert [a, b, c][1..] == [b, c] && [b, c][1..] == [c] && [c][1..] == [];
    assert Flat([c]) == Split(c) + Flat([]);
  }

  lemma PrintedLines(head: string, k: string, p: string, l: string, s: string, rules: string, e: string)
    requires '\n' !in k && '\n' !in l && '\n' !in e
    ensures Split(Join([head, k, p, l, s, rules, e]))
            == Split(head) + [k] + Split(p) + [l] + (Split(s) + Split(rules) + [e])
  {
    var texts := [head, k, p, l, s, rules, e];
    SplitJoined(texts);
    assert texts == [head, k, p] + [l] + [s, rules, e];
    FlatConcat([head, k, p] + [l], [s, rules, e]);
    FlatConcat([head, k, p], [l]);
    FlatThree(head, k, p);
    FlatThree(s, rules, e);
    assert [l][1..] == [];
    assert Flat([l]) == Split(l) + Flat([]);
    SplitOne(k);
    SplitOne(l);
    SplitOne(e);
  }

  lemma SerializedLines(head: string, payload: string, script: string, rules: string)
    ensures Split(Serialize(head, payload, script, rules))
            == Before(head, payload) + ["workflow_script:"]
               + (IndentLines(Split(TrimEnd(script)), 2) + Split(rules) + [""])
  {
    var body := TrimEnd(if payload == "" then "{}" else payload);
    PrintedLines(head, "payload_data: |-", IndentBlock(body, 2), "workflow_script:", IndentBlock(TrimEnd(script), 2),
                 rules, "");
    SplitIndented(TrimEnd(script), 2);
    SplitIndented(body, 2);
  }

  lemma NotTheKey(line: string, key: string)
    requires key != "" && (line == "" || line[0] != key[0])
    ensures !KeyLine(line, key)
  {}

  lemma TheKeyAlone(key: string)
    ensures KeyLine(key + ":", key)
  {
    assert (key + ":")[|key|..] == ":";
    assert SkipSpace(":") == ":" && ":"[1..] == "" && SkipSpace("") == "";
  }

  /** An indented line is neither a key nor the end of a block. */
  lemma IndentedLine(line: string, key: string)
    requires key != "" && key[0] != ' '
    ensures !KeyLine(Spaces(2) + line, key) && !EndsBlock(Spaces(2) + line)
  {
    assert (Spaces(2) + line)[0] == ' ';
    NotTheKey(Spaces(2) + line, key);
  }

  /** Extraction finds the block between its key and the next entry, whatever was indented around it. */
  lemma ExtractBetween(before: seq<string>, key: string, line: string, block: seq<string>, after: seq<string>)
    requires (forall k | 0 <= k < |before| :: !KeyLine(before[k], key)) && KeyLine(line, key)
    requires (forall k | 0 <= k < |block| :: !EndsBlock(block[k])) && (after == [] || EndsBlock(after[0]))
    ensures ExtractLines(before + [line] + (block + after), key) == BlockText(block)
  {
    var ls := before + [line] + (block + after);
    assert ls == before + ([line] + (block + after));
    FindsAfter(before, [line] + (block + after), l => KeyLine(l, key));
    TakesUpTo(block, after, l => EndsBlock(l));
    assert ls[|before| + 1..] == block + after;
  }

  lemma NothingBeforeTheScript(head: string, payload: string)
    requires forall k | 0 <= k < |Split(head)| :: !KeyLine(Split(head)[k], "workflow_script")
    ensures forall k | 0 <= k < |Before(head, payload)| :: !KeyLine(Before(head, payload)[k], "workflow_script")
  {
    var body := Split(TrimEnd(if payload == "" then "{}" else payload));
    var before := Before(head, payload);
    forall k | 0 <= k < |before| ensures !KeyLine(before[k], "workflow_script") {
      if k < |Split(head)| {
        assert before[k] == Split(head)[k];
      } else if k == |Split(head)| {
        NotTheKey(before[k], "workflow_script");
      } else {
        assert before[k] == Spaces(2) + body[k - |Split(head)| - 1];
        IndentedLine(body[k - |Split(head)| - 1], "workflow_script");
      }
    }
  }

  lemma ScriptIsIndented(ls: seq<string>)
    ensures forall k | 0 <= k < |ls| :: !EndsBlock(IndentLines(ls, 2)[k])
  {
    forall k | 0 <= k < |ls| ensures !EndsBlock(IndentLines(ls, 2)[k]) { IndentedLine(ls[k], "w"); }
  }

  lemma IndentedText(text: string, size: nat)
    ensures BlockText(IndentLines(Split(text), size)) == TrimEnd(DedentBlock(text)) + "\n"
  {
    SplitIndented(text, size);
    DedentOfIndented(Split(text), size);
  }

  /** The script that comes back is the trimmed one, dedented. */
  lemma ExtractedScript(head: string, payload: string, script: string, rules: string)
    requires WellPrinted(head, rules)
    ensures Extract(Serialize(head, payload, script, rules), "workflow_script")
            == TrimEnd(DedentBlock(TrimEnd(script))) + "\n"
  {
    var ls := Split(TrimEnd(script));
    SerializedLines(head, payload, script, rules);
    NothingBeforeTheScript(head, payload);
    ScriptIsIndented(ls);
    TheKeyAlone("workflow_script");
    assert "workflow_script" + ":" == "workflow_script:";
    assert IndentLines(ls, 2) + Split(rules) + [""] == IndentLines(ls, 2) + (Split(rules) + [""]);
    ExtractBetween(Before(head, payload), "workflow_script", "workflow_script:", IndentLines(ls, 2),
                   Split(rules) + [""]);
    IndentedText(TrimEnd(script), 2);
  }

  // ----- What the extractor looks for -----

  predicate Spaced(s: string) { forall c | c in s :: IsSpace(c) }

  /** The key, white space, a colon, white space, and nothing more or a comment up to the end of the line. */
  predicate Announces(line: string, key: string, a: string, b: string, comment: string) {
    && line == key + a + ":" + b + comment && Spaced(a) && Spaced(b)
    && (comment != "" ==> comment[0] == '#')
    && forall c | c in comment :: c !in {'\n', '\r', '\U{2028}', '\U{2029}'}
  }

  ghost predicate Announced(line: string, key: string) { exists a, b, comment :: Announces(line, key, a, b, comment) }

  lemma {:induction false} SkipsSpaces(a: string, rest: string)
    requires Spaced(a) && (rest == "" || !IsSpace(rest[0]))
    ensures SkipSpace(a + rest) == rest
  {
    if a == "" {
      assert a + rest == rest;
    } else {
      assert a[0] in a;
      assert (a + rest)[1..] == a[1..] + rest;
      SkipsSpaces(a[1..], rest);
    }
  }

  lemma Skipped(s: string) returns (a: string)
    ensures s == a + SkipSpace(s) && Spaced(a)
  {
    a := s[..Indent(s)];
  }

  lemma KeyLineAnnounces(line: string, key: string)
    requires KeyLine(line, key)
    ensures Announced(line, key)
  {
    var rest := SkipSpace(line[|key|..]);
    var a := Skipped(line[|key|..]);
    var b := Skipped(rest[1..]);
    var comment := SkipSpace(rest[1..]);
    Together(line, key, a, rest, b, comment);
    assert Announces(line, key, a, b, comment);
  }

  lemma Together(line: string, key: string, a: string, rest: string, b: string, comment: string)
    requires key <= line && line[|key|..] == a + rest && rest != "" && rest[0] == ':' && rest[1..] == b + comment
    ensures line == key + a + ":" + b + comment
  {
    assert rest == ":" + (b + comment);
    assert line == key + (a + rest);
  }

  /** A key line is exactly a line that announces the key. */
  lemma KeyLineMeans(line: string, key: string)
    ensures KeyLine(line, key) <==> Announced(line, key)
  {
    if KeyLine(line, key) { KeyLineAnnounces(line, key); }
    if Announced(line, key) {
      var a, b, comment :| Announces(line, key, a, b, comment);
      AnnouncedIsKeyLine(line, key, a, b, comment);
    }
  }

  lemma AnnouncedIsKeyLine(line: string, key: string, a: string, b: string, comment: string)
    requires Announces(line, key, a, b, comment)
    ensures KeyLine(line, key)
  {
    Apart(line, key, a, b, comment);
    SkipsSpaces(a, ":" + (b + comment));
    SkipsSpaces(b, comment);
  }

  lemma Apart(line: string, key: string, a: string, b: string, comment: string)
    requires line == key + a + ":" + b + comment
    ensures key <= line && line[|key|..] == a + (":" + (b + comment))
    ensures (":" + (b + comment))[1..] == b + comment
  {
    assert line == key + (a + (":" + (b + comment)));
  }

  /** A character that is no white space, and a colon somewhere after it. */
  predicate Enters(line: string, c: char, name: string, rest: string) {
    line == [c] + name + ":" + rest && !IsSpace(c)
  }

  ghost predicate Entry(line: string) { exists c, name, rest :: Enters(line, c, name, rest) }

  lemma EndsBlockMeans(line: string)
    ensures EndsBlock(line) <==> Entry(line)
  {
    if EndsBlock(line) {
      var k :| 0 <= k < |line[1..]| && line[1..][k] == ':';
      var name, rest := line[1..][..k], line[1..][k + 1..];
      assert line[1..] == name + ":" + rest;
      assert line == [line[0]] + line[1..];
      assert Enters(line, line[0], name, rest);
    }
    if Entry(line) {
      var c, name, rest :| Enters(line, c, name, rest);
      assert line[1..] == name + ":" + rest;
      assert line[1..][|name|] == ':';
    }
  }

  /** What is extracted is the text of the lines after the first that announces the key, up to the next entry or the
      end. */
  lemma BlockIsExtracted(before: seq<string>, key: string, line: string, block: seq<string>, after: seq<string>)
    requires (forall k | 0 <= k < |before| :: !Announced(before[k], key)) && Announced(line, key)
    requires (forall k | 0 <= k < |block| :: !Entry(block[k])) && (after == [] || Entry(after[0]))
    ensures ExtractLines(before + [line] + (block + after), key) == BlockText(block)
  {
    forall k | 0 <= k < |before| ensures !KeyLine(before[k], key) { KeyLineMeans(before[k], key); }
    forall k | 0 <= k < |block| ensures !EndsBlock(block[k]) { EndsBlockMeans(block[k]); }
    KeyLineMeans(line, key);
    if after != [] { EndsBlockMeans(after[0]); }
    ExtractBetween(before, key, line, block, after);
  }

  /** Without such a line nothing is extracted, and an empty block is a single line break. */
  lemma MissingIsEmpty(ls: Lines, key: string)
    ensures (forall l | l in ls :: !Announced(l, key)) ==> ExtractLines(ls, key) == ""
    ensures BlockText([]) == "\n"
  {
    forall l | l in ls ensures KeyLine(l, key) <==> Announced(l, key) { KeyLineMeans(l, key); }
    SplitOne("");
    assert DedentLines([""]) == [""];
  }

  lemma {:induction false} TrimEndIsTrimmed(s: string)
    ensures TrimEnd(s) != "" ==> !IsSpace(TrimEnd(s)[|TrimEnd(s)| - 1])
    ensures TrimEnd(TrimEnd(s)) == TrimEnd(s)
    decreases |s|
  {
    if s != "" && IsSpace(s[|s| - 1]) {
      TrimEndIsTrimmed(s[..|s| - 1]);
    }
  }

  /** A text ends as its last line does. */
  lemma {:induction false} JoinEnds(ls: Lines)
    ensures var last := ls[|ls| - 1];
            if last != "" then Join(ls) != "" && Join(ls)[|Join(ls)| - 1] == last[|last| - 1]
            else |ls| == 1 || (Join(ls) != "" && Join(ls)[|Join(ls)| - 1] == '\n')
    decreases |ls|
  {
    if |ls| > 1 {
      var tail := Join(ls[1..]);
      JoinEnds(ls[1..]);
      assert Join(ls) == (ls[0] + ['\n']) + tail;
      assert |ls| == 2 ==> tail == ls[1];
      if tail == "" { assert Join(ls) == ls[0] + ['\n']; }
    }
  }

  /** The last line of a trimmed text ends in the same character. */
  lemma LastLine(s: string)
    requires s != "" && !IsSpace(s[|s| - 1])
    ensures var line := Split(s)[|Split(s)| - 1]; line != "" && line[|line| - 1] == s[|s| - 1]
  {
    Text.JoinSplit(s, '\n');
    JoinEnds(Split(s));
  }

  lemma DedentEnds(ls: Lines)
    requires var line := ls[|ls| - 1]; line != "" && !IsSpace(line[|line| - 1])
    ensures var line := DedentLines(ls)[|ls| - 1]; line != "" && !IsSpace(line[|line| - 1])
  {
    var last := |ls| - 1;
    var line := ls[last];
    assert !Blank(line);
    LeastIsBelow(ls, last);
    var n := LeastIndent(ls).value;
    assert DedentLines(ls)[last] == line[n..];
  }

  /** Dedenting a trimmed text leaves it trimmed. */
  lemma DedentedIsTrimmed(s: string)
    requires s == "" || !IsSpace(s[|s| - 1])
    ensures TrimEnd(DedentBlock(s)) == DedentBlock(s)
  {
    if s != "" {
      LastLine(s);
      DedentEnds(Split(s));
      JoinEnds(DedentLines(Split(s)));
    } else {
      SplitOne("");
      assert DedentLines([""]) == [""];
    }
  }

  /** The project file gives the script back, up to trailing white space, exactly when some line of it
      starts at column 0 and its blank lines are empty. */
  lemma ScriptRoundTrip(head: string, payload: string, script: string, rules: string)
    requires WellPrinted(head, rules)
    ensures Extract(Serialize(head, payload, script, rules), "workflow_script") == TrimEnd(script) + "\n"
            <==> Flush(Split(TrimEnd(script)))
  {
    var s := TrimEnd(script);
    ExtractedScript(head, payload, script, rules);
    TrimEndIsTrimmed(script);
    DedentedIsTrimmed(s);
    DedentFixesFlush(Split(s));
    Text.JoinSplit(s, '\n');
    DedentedSplits(s);
    SameLine(DedentBlock(s), s);
  }

  lemma DedentedSplits(s: string)
    ensures Split(DedentBlock(s)) == DedentLines(Split(s))
  {
    var ls := DedentLines(Split(s));
    SplitIsUnbroken(s);
    forall k | 0 <= k < |ls| ensures '\n' !in ls[k] {
      assert '\n' !in Split(s)[k];
    }
    SplitJoin(ls);
  }

  lemma SameLine(a: string, b: string)
    ensures a + "\n" == b + "\n" <==> a == b
  {
    if a + "\n" == b + "\n" {
      assert a == (a + "\n")[..|a + "\n"| - 1];
      assert b == (b + "\n")[..|b + "\n"| - 1];
    }
  }
}
