/** Clean step ids and the ids of expanded steps. */
module StepIDs {
  import opened Prelude
  import Text

  predicate IsIDChar(c: char) { 'a' <= c <= 'z' || '0' <= c <= '9' || c == '_' || c == '.' }

  /** Every maximal run of other characters becomes one dash. */
  function Dashed(s: string, lastDash: bool): string {
    if s == "" then ""
    else if IsIDChar(s[0]) then [s[0]] + Dashed(s[1..], false)
    else if lastDash then Dashed(s[1..], true)
    else "-" + Dashed(s[1..], true)
  }

  predicate Edge(c: char) { c == '-' || c == '.' }

  function TrimEdgesLeft(s: string): string { if s != "" && Edge(s[0]) then TrimEdgesLeft(s[1..]) else s }

  function TrimEdgesRight(s: string): string
    decreases |s|
  { if s != "" && Edge(s[|s| - 1]) then TrimEdgesRight(s[..|s| - 1]) else s }

  /** strings.Trim(s, "-.") */
  function TrimEdges(s: string): string { TrimEdgesRight(TrimEdgesLeft(s)) }

  function CleanID(value: string): string { TrimEdges(Dashed(Text.ToLower(Text.TrimSpace(value)), false)) }

  method CleanStepID(value: string) returns (id: string)
    ensures id == CleanID(value)
  {
    var trimmed := Text.TrimSpace(value);
    if trimmed == "" {
      assert Text.ToLower(trimmed) == "";
      return "";
    }
    var lower := Text.ToLower(trimmed);
    var out := "";
    var lastDash := false;
    assert lower[0..] == lower;
    for i := 0 to |lower|
      invariant out + Dashed(lower[i..], lastDash) == Dashed(lower, false)
    {
      var r := lower[i];
      assert lower[i..][1..] == lower[i + 1..];
      if IsIDChar(r) {
        out := out + [r];
        lastDash := false;
      } else if !lastDash {
        out := out + "-";
        lastDash := true;
      }
    }
    assert lower[|lower|..] == "";
    assert out + "" == out;
    id := TrimEdges(out);
  }

  // ----- Which texts are clean -----

  /** Letters, digits, underscores, dots and single dashes, with neither dot nor dash at an end. */
  predicate Canonical(s: string) {
    && (forall c | c in s :: IsIDChar(c) || c == '-')
    && (forall k | 0 <= k < |s| - 1 :: !(s[k] == '-' && s[k + 1] == '-'))
    && (s != "" ==> !Edge(s[0]) && !Edge(s[|s| - 1]))
  }

  predicate SingleDashes(s: string, lastDash: bool) {
    && (forall c | c in s :: IsIDChar(c) || c == '-')
    && (forall k | 0 <= k < |s| - 1 :: !(s[k] == '-' && s[k + 1] == '-'))
    && (lastDash && s != "" ==> s[0] != '-')
  }

  lemma {:induction false} DashedIsSingle(s: string, lastDash: bool)
    ensures SingleDashes(Dashed(s, lastDash), lastDash)
    decreases |s|
  {
    if s != "" {
      if IsIDChar(s[0]) {
        DashedIsSingle(s[1..], false);
      } else {
        DashedIsSingle(s[1..], true);
      }
    }
  }

  lemma {:induction false} LeftTrimmed(s: string)
    ensures exists n :: 0 <= n <= |s| && TrimEdgesLeft(s) == s[n..]
    ensures TrimEdgesLeft(s) != "" ==> !Edge(TrimEdgesLeft(s)[0])
    decreases |s|
  {
    if s != "" && Edge(s[0]) {
      LeftTrimmed(s[1..]);
      var n :| 0 <= n <= |s[1..]| && TrimEdgesLeft(s[1..]) == s[1..][n..];
      assert s[1..][n..] == s[n + 1..];
    } else {
      assert s == s[0..];
    }
  }

  lemma {:induction false} RightTrimmed(s: string)
    ensures exists n :: 0 <= n <= |s| && TrimEdgesRight(s) == s[..n]
    ensures TrimEdgesRight(s) != "" ==> !Edge(TrimEdgesRight(s)[|TrimEdgesRight(s)| - 1])
    decreases |s|
  {
    if s != "" && Edge(s[|s| - 1]) {
      var t := s[..|s| - 1];
      RightTrimmed(t);
      var n :| 0 <= n <= |t| && TrimEdgesRight(t) == t[..n];
      assert t[..n] == s[..n];
    } else {
      assert s == s[..|s|];
    }
  }

  /** Any part of a text with single dashes has single dashes. */
  lemma PartIsSingle(s: string, m: nat, n: nat)
    requires SingleDashes(s, false) && m <= n <= |s|
    ensures SingleDashes(s[m..n], false)
  {
    var u := s[m..n];
    forall c | c in u ensures IsIDChar(c) || c == '-' { assert c in s; }
    forall k | 0 <= k < |u| - 1 ensures !(u[k] == '-' && u[k + 1] == '-') {
      assert u[k] == s[m + k] && u[k + 1] == s[m + k + 1];
    }
  }

  lemma LeftKeepsSingle(s: string)
    requires SingleDashes(s, false)
    ensures SingleDashes(TrimEdgesLeft(s), false)
    ensures TrimEdgesLeft(s) != "" ==> !Edge(TrimEdgesLeft(s)[0])
  {
    LeftTrimmed(s);
    var m :| 0 <= m <= |s| && TrimEdgesLeft(s) == s[m..];
    PartIsSingle(s, m, |s|);
    assert s[m..|s|] == s[m..];
  }

  lemma RightKeepsSingle(t: string)
    requires SingleDashes(t, false) && (t != "" ==> !Edge(t[0]))
    ensures Canonical(TrimEdgesRight(t))
  {
    RightTrimmed(t);
    var n :| 0 <= n <= |t| && TrimEdgesRight(t) == t[..n];
    PartIsSingle(t, 0, n);
    assert t[0..n] == t[..n];
  }

  lemma CleanIsCanonical(value: string)
    ensures Canonical(CleanID(value))
  {
    var lower := Text.ToLower(Text.TrimSpace(value));
    DashedIsSingle(lower, false);
    LeftKeepsSingle(Dashed(lower, false));
    RightKeepsSingle(TrimEdgesLeft(Dashed(lower, false)));
  }

  lemma {:induction false} DashedFixes(s: string, lastDash: bool)
    requires SingleDashes(s, lastDash)
    ensures Dashed(s, lastDash) == s
    decreases |s|
  {
    if s != "" {
      var t := s[1..];
      forall k | 0 <= k < |t| - 1 ensures !(t[k] == '-' && t[k + 1] == '-') {
        assert t[k] == s[k + 1] && t[k + 1] == s[k + 2];
      }
      DashedFixes(s[1..], s[0] == '-');
      assert s == [s[0]] + s[1..];
    }
  }

  lemma NoSpaceInside(s: string)
    requires s != "" ==> !Text.IsSpace(s[0]) && !Text.IsSpace(s[|s| - 1])
    ensures Text.TrimSpace(s) == s
  {
    assert Text.TrimLeft(s) == s;
  }

  lemma NoCapitals(s: string)
    requires forall c | c in s :: IsIDChar(c) || c == '-'
    ensures Text.ToLower(s) == s
  {
    var t := Text.ToLower(s);
    forall k | 0 <= k < |s| ensures t[k] == s[k] {
      assert s[k] in s;
    }
  }

  lemma NoEdges(s: string)
    requires s != "" ==> !Edge(s[0]) && !Edge(s[|s| - 1])
    ensures TrimEdges(s) == s
  {
    assert TrimEdgesLeft(s) == s;
  }

  lemma CanonicalIsFixed(s: string)
    requires Canonical(s)
    ensures CleanID(s) == s
  {
    if s != "" {
      assert s[0] in s && s[|s| - 1] in s;
    }
    NoSpaceInside(s);
    NoCapitals(s);
    DashedFixes(s, false);
    NoEdges(s);
  }

  /** The clean ids are exactly the canonical ones, so cleaning twice is cleaning once. */
  lemma CleanFixesExactlyCanonical(s: string)
    ensures CleanID(s) == s <==> Canonical(s)
    ensures CleanID(CleanID(s)) == CleanID(s)
  {
    CleanIsCanonical(s);
    CanonicalIsFixed(CleanID(s));
    if Canonical(s) { CanonicalIsFixed(s); }
  }

  /** Clean ids are closed under prefixing. */
  lemma PrefixedIsCanonical(p: string, s: string)
    requires Canonical(p) && Canonical(s) && p != "" && s != ""
    ensures Canonical(p + "." + s)
  {
    var w := p + "." + s;
    forall c | c in w ensures IsIDChar(c) || c == '-' {
      assert c in p || c == '.' || c in s;
    }
    forall k | 0 <= k < |w| - 1 ensures !(w[k] == '-' && w[k + 1] == '-') {
      if k < |p| - 1 {
        assert w[k] == p[k] && w[k + 1] == p[k + 1];
      } else if k > |p| {
        assert w[k] == s[k - |p| - 1] && w[k + 1] == s[k - |p|];
      }
    }
  }

  /** %03d */
  function Pad3(n: nat): string {
    if n < 10 then "00" + Text.Itoa(n) else if n < 100 then "0" + Text.Itoa(n) else Text.Itoa(n)
  }

  function PrefixedID(prefix: string, id: string, name: string, index: nat): string {
    if CleanID(id) != "" then prefix + "." + CleanID(id)
    else if CleanID(name) != "" then prefix + "." + Pad3(index + 1) + "." + CleanID(name)
    else prefix + "." + Pad3(index + 1)
  }

  // ----- What cleaning does to other texts -----

  predicate AllID(s: string) { forall c | c in s :: IsIDChar(c) }

  predicate NoneID(s: string) { forall c | c in s :: !IsIDChar(c) }

  /** Word by word: the characters of ids stay, and every gap between them becomes one dash. */
  lemma GapsBecomeDashes(word: string, gap: string, rest: string)
    requires AllID(word) && NoneID(gap)
    ensures Dashed(word + rest, false) == word + Dashed(rest, false)
    ensures gap != "" ==> Dashed(gap + rest, false) == "-" + Dashed(rest, true)
    ensures rest != "" && IsIDChar(rest[0]) ==> Dashed(rest, true) == Dashed(rest, false)
  {
    WordStays(word, rest);
    if gap != "" { GapIsDash(gap, rest); }
  }

  lemma {:induction false} WordStays(word: string, rest: string)
    requires AllID(word)
    ensures Dashed(word + rest, false) == word + Dashed(rest, false)
    decreases |word|
  {
    if word == "" {
      assert word + rest == rest;
    } else {
      assert word[0] in word && forall c | c in word[1..] :: c in word;
      assert (word + rest)[1..] == word[1..] + rest;
      WordStays(word[1..], rest);
      assert word == [word[0]] + word[1..];
      assert [word[0]] + (word[1..] + Dashed(rest, false)) == word + Dashed(rest, false);
    }
  }

  lemma GapIsDash(gap: string, rest: string)
    requires NoneID(gap) && gap != ""
    ensures Dashed(gap + rest, false) == "-" + Dashed(rest, true)
  {
    assert gap[0] in gap && (gap + rest)[1..] == gap[1..] + rest;
    assert forall c | c in gap[1..] :: c in gap;
    GapVanishes(gap[1..], rest);
  }

  lemma {:induction false} GapVanishes(gap: string, rest: string)
    requires NoneID(gap)
    ensures Dashed(gap + rest, true) == Dashed(rest, true)
    decreases |gap|
  {
    if gap == "" {
      assert gap + rest == rest;
    } else {
      assert gap[0] in gap && forall c | c in gap[1..] :: c in gap;
      assert (gap + rest)[1..] == gap[1..] + rest;
      GapVanishes(gap[1..], rest);
    }
  }

  /** The characters that ids keep. */
  lemma IDCharacters(c: char)
    ensures IsIDChar(c) <==> c in "abcdefghijklmnopqrstuvwxyz" + "0123456789" + "_."
  {
    var letters := "abcdefghijklmnopqrstuvwxyz";
    assert forall k | 0 <= k < 26 :: letters[k] as int == 'a' as int + k;
    var digits := "0123456789";
    assert forall k | 0 <= k < 10 :: digits[k] as int == '0' as int + k;
    if 'a' <= c <= 'z' { assert letters[c as int - 'a' as int] == c; }
    if '0' <= c <= '9' { assert digits[c as int - '0' as int] == c; }
  }

  /** A dash or a dot. */
  predicate EdgeCharacter(c: char) { c in {'-', '.'} }

  /** The clean id is what is left of that, in lower case, without the dashes and dots at its ends. */
  lemma CleanTrims(value: string) returns (left: string, right: string)
    ensures Dashed(Text.ToLower(Text.TrimSpace(value)), false) == left + CleanID(value) + right
    ensures (forall c | c in left :: EdgeCharacter(c)) && (forall c | c in right :: EdgeCharacter(c))
    ensures CleanID(value) != "" ==>
              !EdgeCharacter(CleanID(value)[0]) && !EdgeCharacter(CleanID(value)[|CleanID(value)| - 1])
  {
    left, right := EdgesAreTrimmed(Dashed(Text.ToLower(Text.TrimSpace(value)), false));
  }

  lemma EdgesAreTrimmed(s: string) returns (left: string, right: string)
    ensures s == left + TrimEdges(s) + right
    ensures (forall c | c in left :: EdgeCharacter(c)) && (forall c | c in right :: EdgeCharacter(c))
    ensures TrimEdges(s) != "" ==> !EdgeCharacter(TrimEdges(s)[0]) && !EdgeCharacter(TrimEdges(s)[|TrimEdges(s)| - 1])
  {
    left := LeftEdge(s);
    right := RightEdge(TrimEdgesLeft(s));
    assert left + (TrimEdges(s) + right) == left + TrimEdges(s) + right;
    assert TrimEdges(s) != "" ==> TrimEdges(s)[0] == TrimEdgesLeft(s)[0];
  }

  lemma {:induction false} LeftEdge(s: string) returns (left: string)
    ensures s == left + TrimEdgesLeft(s) && forall c | c in left :: EdgeCharacter(c)
    ensures TrimEdgesLeft(s) != "" ==> !EdgeCharacter(TrimEdgesLeft(s)[0])
    decreases |s|
  {
    left := "";
    if s != "" && Edge(s[0]) {
      var rest := LeftEdge(s[1..]);
      left := [s[0]] + rest;
      assert s == [s[0]] + s[1..];
      assert [s[0]] + (rest + TrimEdgesLeft(s[1..])) == left + TrimEdgesLeft(s);
    }
  }

  lemma {:induction false} RightEdge(s: string) returns (right: string)
    ensures s == TrimEdgesRight(s) + right && forall c | c in right :: EdgeCharacter(c)
    ensures TrimEdgesRight(s) != "" ==> !EdgeCharacter(TrimEdgesRight(s)[|TrimEdgesRight(s)| - 1])
    decreases |s|
  {
    right := "";
    if s != "" && Edge(s[|s| - 1]) {
      var rest := RightEdge(s[..|s| - 1]);
      right := rest + [s[|s| - 1]];
      assert s == s[..|s| - 1] + [s[|s| - 1]];
      assert (TrimEdgesRight(s[..|s| - 1]) + rest) + [s[|s| - 1]] == TrimEdgesRight(s) + right;
    }
  }

  /** A number in a prefixed id has at least three digits, and zeros in front only to make them three. */
  lemma PaddedReads(n: nat) returns (zeros: string)
    ensures Pad3(n) == zeros + Text.Itoa(n) && forall c | c in zeros :: c == '0'
    ensures |Pad3(n)| >= 3 && (zeros != "" ==> |Pad3(n)| == 3)
  {
    zeros := if n < 10 then "00" else if n < 100 then "0" else "";
    if n >= 10 {
      assert |Text.Itoa(n)| == |Text.Itoa(n / 10)| + 1;
    }
    if n >= 100 {
      assert |Text.Itoa(n / 10)| == |Text.Itoa(n / 10 / 10)| + 1;
    }
  }

  /** The id of a prefixed step: its own id cleaned, else its number in the workflow and its handler name. */
  lemma PrefixedReads(prefix: string, id: string, name: string, index: nat)
    ensures var full := PrefixedID(prefix, id, name, index);
            && (CleanID(id) != "" ==> full == prefix + "." + CleanID(id))
            && (CleanID(id) == "" && CleanID(name) != "" ==>
                  full == prefix + "." + Pad3(index + 1) + "." + CleanID(name))
            && (CleanID(id) == "" && CleanID(name) == "" ==> full == prefix + "." + Pad3(index + 1))
  {}
}
