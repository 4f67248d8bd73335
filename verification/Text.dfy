/** The string functions of Go that the engine relies on. */
module Text {
  import opened Prelude

  /** The white space of Go's unicode.IsSpace. */
  predicate IsSpace(c: char) {
    || c in {'\t', '\n', '\U{0B}', '\U{0C}', '\r', ' ', '\U{85}', '\U{A0}', '\U{1680}'}
    || '\U{2000}' <= c <= '\U{200A}'
    || c in {'\U{2028}', '\U{2029}', '\U{202F}', '\U{205F}', '\U{3000}'}
  }

  function TrimLeft(s: string): (r: string) {
    if s != [] && IsSpace(s[0]) then TrimLeft(s[1..]) else s
  }

  function TrimRight(s: string): (r: string) {
    if s != [] && IsSpace(s[|s| - 1]) then TrimRight(s[..|s| - 1]) else s
  }

  function TrimSpace(s: string): (r: string) { TrimRight(TrimLeft(s)) }

  predicate Blank(s: string) { TrimSpace(s) == "" }

  /** Lower case, for the characters whose lower case is an ASCII letter: the ASCII capitals,
      the Kelvin sign and the dotted capital I. The engine compares lower-cased text with ASCII
      words and ASCII classes only, so the case of every other character is irrelevant. */
  function LowerChar(c: char): char {
    if 'A' <= c <= 'Z' then c - 'A' + 'a'
    else if c == '\U{212A}' then 'k'
    else if c == '\U{130}' then 'i'
    else c
  }

  function ToLower(s: string): (r: string) { seq(|s|, i requires 0 <= i < |s| => LowerChar(s[i])) }

  /** The index of the first c in s, or |s|. */
  function IndexOf(s: string, c: char): (i: nat)
    ensures i <= |s|
    ensures c !in s[..i]
    ensures i < |s| ==> s[i] == c
  {
    if s == [] || s[0] == c then 0
    else
      var i := 1 + IndexOf(s[1..], c);
      assert s[..i] == [s[0]] + s[1..][..i - 1];
      i
  }

  lemma {:induction false} IndexOfFirst(head: string, c: char, tail: string)
    requires c !in head
    ensures IndexOf(head + [c] + tail, c) == |head|
  {
    var s := head + [c] + tail;
    if head != [] {
      assert s[0] == head[0];
      assert s[1..] == head[1..] + [c] + tail;
      IndexOfFirst(head[1..], c, tail);
    }
  }

  /** A text has one first separator. */
  lemma SplitsOnce(d: string, s: string, e: string, t: string, c: char)
    requires c !in d && c !in e && d + [c] + s == e + [c] + t
    ensures d == e && s == t
  {
    IndexOfFirst(d, c, s);
    IndexOfFirst(e, c, t);
    var w := d + [c] + s;
    assert d == w[..|d|] && e == w[..|e|];
    assert s == w[|d| + 1..] && t == w[|e| + 1..];
  }

  /** strings.Split(s, sep), for a separator of one character. */
  function Split(s: string, sep: char): (parts: seq<string>)
    ensures |parts| >= 1
    ensures forall p | p in parts :: sep !in p
    decreases |s|
  {
    var i := IndexOf(s, sep);
    if i == |s| then assert s[..i] == s; [s] else [s[..i]] + Split(s[i + 1..], sep)
  }

  function Join(parts: seq<string>, sep: char): string
    requires |parts| >= 1
  {
    if |parts| == 1 then parts[0] else parts[0] + [sep] + Join(parts[1..], sep)
  }

  lemma {:induction false} JoinSplit(s: string, sep: char)
    ensures Join(Split(s, sep), sep) == s
    decreases |s|
  {
    var i := IndexOf(s, sep);
    if i < |s| {
      JoinSplit(s[i + 1..], sep);
      Rejoined(s[..i], s[i + 1..], Split(s[i + 1..], sep), sep);
      CutAt(s, i);
    }
  }

  lemma CutAt(s: string, i: nat)
    requires i < |s|
    ensures s[..i] + [s[i]] + s[i + 1..] == s
  {}

  lemma Rejoined(head: string, tail: string, rest: seq<string>, sep: char)
    requires |rest| >= 1 && Join(rest, sep) == tail
    ensures Join([head] + rest, sep) == head + [sep] + tail
  {
    JoinCons(head, rest, sep);
  }

  lemma NoIndex(s: string, c: char)
    ensures c in s || IndexOf(s, c) == |s|
  {
    var i := IndexOf(s, c);
    if i < |s| { assert s[i] in s; }
  }

  lemma JoinCons(head: string, rest: seq<string>, sep: char)
    requires |rest| >= 1
    ensures Join([head] + rest, sep) == head + [sep] + Join(rest, sep)
  {
    assert ([head] + rest)[1..] == rest;
  }

  lemma {:induction false} SplitJoin(parts: seq<string>, sep: char)
    requires |parts| >= 1 && forall p | p in parts :: sep !in p
    ensures Split(Join(parts, sep), sep) == parts
    decreases |parts|
  {
    var head, s := parts[0], Join(parts, sep);
    if |parts| == 1 {
      NoIndex(s, sep);
    } else {
      var rest := Join(parts[1..], sep);
      SplitJoin(parts[1..], sep);
      assert s == head + [sep] + rest;
      IndexOfFirst(head, sep, rest);
      assert s[..|head|] == head && s[|head| + 1..] == rest;
      assert parts == [head] + parts[1..];
    }
  }

  function Digit(n: nat): char
    requires n < 10
  { '0' + n as char }

  /** strconv.Itoa for the step indexes, which are not negative. */
  function Itoa(n: nat): (s: string)
    ensures |s| >= 1
    ensures forall c | c in s :: '0' <= c <= '9'
  {
    if n < 10 then [Digit(n)] else Itoa(n / 10) + [Digit(n % 10)]
  }

  lemma {:induction false} ItoaInjective(m: nat, n: nat)
    requires Itoa(m) == Itoa(n)
    ensures m == n
  {
    var last := |Itoa(m)| - 1;
    assert Itoa(m)[last] == Digit(m % 10) && Itoa(n)[last] == Digit(n % 10);
    if m >= 10 && n >= 10 {
      assert Itoa(m)[..last] == Itoa(m / 10) && Itoa(n)[..last] == Itoa(n / 10);
      ItoaInjective(m / 10, n / 10);
    }
  }

  // ----- What trimming and lower case do -----

  predicate AllSpace(s: string) { forall c | c in s :: IsSpace(c) }

  lemma {:induction false} LeftIsTrimmed(s: string) returns (a: string)
    ensures s == a + TrimLeft(s) && AllSpace(a) && (TrimLeft(s) != "" ==> !IsSpace(TrimLeft(s)[0]))
  {
    a := "";
    if s != [] && IsSpace(s[0]) {
      var rest := LeftIsTrimmed(s[1..]);
      a := [s[0]] + rest;
      assert s == [s[0]] + (rest + TrimLeft(s));
    }
  }

  lemma {:induction false} RightIsTrimmed(s: string) returns (b: string)
    ensures s == TrimRight(s) + b && AllSpace(b) && (TrimRight(s) != "" ==> !IsSpace(TrimRight(s)[|TrimRight(s)| - 1]))
    decreases |s|
  {
    b := "";
    if s != [] && IsSpace(s[|s| - 1]) {
      var rest := RightIsTrimmed(s[..|s| - 1]);
      b := rest + [s[|s| - 1]];
      assert s == (TrimRight(s) + rest) + [s[|s| - 1]];
    }
  }

  /** Trimming takes away white space at both ends, and all of it. */
  lemma TrimReads(s: string) returns (a: string, b: string)
    ensures s == a + TrimSpace(s) + b && AllSpace(a) && AllSpace(b)
    ensures TrimSpace(s) != "" ==> !IsSpace(TrimSpace(s)[0]) && !IsSpace(TrimSpace(s)[|TrimSpace(s)| - 1])
  {
    a := LeftIsTrimmed(s);
    b := RightIsTrimmed(TrimLeft(s));
    assert s == a + (TrimSpace(s) + b);
    assert TrimSpace(s) != "" ==> TrimSpace(s)[0] == TrimLeft(s)[0];
  }

  const CAPITALS := "ABCDEFGHIJKLMNOPQRSTUVWXYZ"
  const SMALL := "abcdefghijklmnopqrstuvwxyz"

  /** The capitals, and what has an ASCII letter as its lower case, are lowered; other characters stay. */
  lemma LowerReads(c: char, k: nat)
    ensures k < 26 ==> LowerChar(CAPITALS[k]) == SMALL[k]
    ensures c !in CAPITALS && c !in {'\U{212A}', '\U{130}'} ==> LowerChar(c) == c
  {
    assert forall i | 0 <= i < 26 :: CAPITALS[i] as int == 'A' as int + i && SMALL[i] as int == 'a' as int + i;
    if 'A' <= c <= 'Z' { assert CAPITALS[c as int - 'A' as int] == c; }
  }
}
