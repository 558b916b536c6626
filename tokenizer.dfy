/** The `arguments` tokenizer of parseArguments: a scanner for the pattern
      [^\s"']+  |  "([^"]*)"  |  '([^']*)'
    applied with repeated `find()`, each double-quote-bearing match rewritten to
    "str_" followed by the match without its '"' characters. */
module Tokenizer {
  import opened Types
  import opened Text

  /** The regular-expression class \s: space, \t, \n, \x0B, \f, \r. */
  predicate IsSpace(c: char) {
    c == ' ' || c == '\t' || c == '\n' || c == '\U{B}' || c == '\U{C}' || c == '\r'
  }

  predicate IsQuote(c: char) { c == '"' || c == '\'' }

  /** A character of the first alternative, [^\s"']. */
  predicate IsBare(c: char) { !IsSpace(c) && !IsQuote(c) }

  /** A match: the half-open range [start, end) of the scanned line. */
  datatype Span = Span(start: nat, end: nat)

  /** The end of the longest run of bare characters starting at i. */
  function RunEnd(s: string, i: nat): (r: nat)
    requires i <= |s|
    ensures i <= r <= |s|
    ensures forall k :: i <= k < r ==> IsBare(s[k])
    ensures r == |s| || !IsBare(s[r])
    decreases |s| - i
  {
    if i < |s| && IsBare(s[i]) then RunEnd(s, i + 1) else i
  }

  /** The first index at or after i holding q. */
  function NextQuote(s: string, i: nat, q: char): (r: Option<nat>)
    requires i <= |s|
    ensures r.Some? ==> i <= r.value < |s| && s[r.value] == q &&
                        forall k :: i <= k < r.value ==> s[k] != q
    ensures r.None? ==> forall k :: i <= k < |s| ==> s[k] != q
    decreases |s| - i
  {
    if i == |s| then None else if s[i] == q then Some(i) else NextQuote(s, i + 1, q)
  }

  /** An index the scanner steps over: whitespace, or a quote with no partner after it. */
  predicate Skippable(s: string, p: nat)
    requires p < |s|
  {
    IsSpace(s[p]) || (IsQuote(s[p]) && forall k :: p < k < |s| ==> s[k] != s[p])
  }

  /** The end of the match starting exactly at p, trying the three alternatives in order. */
  function MatchAt(s: string, p: nat): (r: Option<nat>)
    requires p < |s|
    ensures r.Some? ==> p < r.value <= |s|
    ensures r.None? <==> Skippable(s, p)
  {
    if IsBare(s[p]) then Some(RunEnd(s, p))
    else if IsQuote(s[p]) then
      match NextQuote(s, p + 1, s[p])
      case Some(k) => Some(k + 1)
      case None => None
    else None
  }

  /** Matcher.find() from index p: the first match starting at or after p. */
  function FindFrom(s: string, p: nat): (r: Option<Span>)
    requires p <= |s|
    ensures r.Some? ==> p <= r.value.start < r.value.end <= |s|
    ensures r.Some? ==> MatchAt(s, r.value.start) == Some(r.value.end)
    ensures r.Some? ==> forall k :: p <= k < r.value.start ==> Skippable(s, k)
    ensures r.None? ==> forall k :: p <= k < |s| ==> Skippable(s, k)
    decreases |s| - p
  {
    if p == |s| then None
    else match MatchAt(s, p)
      case Some(e) => Some(Span(p, e))
      case None => FindFrom(s, p + 1)
  }

  predicate WithinLine(s: string, ms: seq<Span>) {
    forall k :: 0 <= k < |ms| ==> ms[k].start < ms[k].end <= |s|
  }

  /** Every match that repeated find() calls report, from index p on. */
  function Scan(s: string, p: nat): (ms: seq<Span>)
    requires p <= |s|
    ensures WithinLine(s, ms)
    ensures forall k :: 0 <= k < |ms| ==> p <= ms[k].start
    ensures forall k :: 0 <= k < |ms| - 1 ==> ms[k].end <= ms[k + 1].start
    decreases |s| - p
  {
    match FindFrom(s, p)
    case None => []
    case Some(m) => [m] + Scan(s, m.end)
  }

  /** The group text of a match, rewritten when it holds a '"'. */
  function Mark(g: string): string {
    if '"' in g then "str_" + RemoveChar(g, '"') else g
  }

  function Marks(s: string, ms: seq<Span>): (ts: seq<string>)
    requires WithinLine(s, ms)
    ensures |ts| == |ms|
    ensures forall k :: 0 <= k < |ms| ==> ts[k] == Mark(s[ms[k].start..ms[k].end])
  {
    if |ms| == 0 then [] else [Mark(s[ms[0].start..ms[0].end])] + Marks(s, ms[1..])
  }

  /** arguments(str): when the whole line holds exactly one match, the line minus the
      catalyst's length; otherwise the rewritten text of every match, in order. */
  function Tokenize(line: string, catalystLength: nat): (ts: seq<string>)
    requires catalystLength <= |line|
    ensures |ts| == |Scan(line, 0)|
    ensures |Scan(line, 0)| == 1 ==> ts == [line[catalystLength..]]
    ensures |Scan(line, 0)| != 1 ==>
              forall k :: 0 <= k < |ts| ==> ts[k] == Mark(line[Scan(line, 0)[k].start..Scan(line, 0)[k].end])
  {
    var ms := Scan(line, 0);
    if |ms| == 1 then [line[catalystLength..]] else Marks(line, ms)
  }

  /** arguments(str).drop(1): the tokens after the first one. */
  function ArgumentTokens(line: string, catalystLength: nat): (r: seq<string>)
    requires catalystLength <= |line|
    ensures |r| == if |Scan(line, 0)| == 0 then 0 else |Scan(line, 0)| - 1
    ensures |Scan(line, 0)| > 1 ==>
              forall k :: 0 <= k < |r| ==> r[k] == Mark(line[Scan(line, 0)[k + 1].start..Scan(line, 0)[k + 1].end])
  {
    var ts := Tokenize(line, catalystLength);
    if |ts| == 0 then [] else ts[1..]
  }

  /** Matcher.find(): steps over skippable indices until a match starts. */
  method Find(s: string, p: nat) returns (m: Option<Span>)
    requires p <= |s|
    ensures m == FindFrom(s, p)
  {
    var i := p;
    while i < |s|
      invariant p <= i <= |s|
      invariant FindFrom(s, p) == FindFrom(s, i)
    {
      var e := MatchAt(s, i);
      if e.Some? {
        return Some(Span(i, e.value));
      }
      i := i + 1;
    }
    return None;
  }

  /** One find() step: the scan from p is the match found there, then the scan after it. */
  lemma MarksStep(s: string, p: nat)
    requires p <= |s| && FindFrom(s, p).Some?
    ensures var m := FindFrom(s, p).value;
      Marks(s, Scan(s, p)) == [Mark(s[m.start..m.end])] + Marks(s, Scan(s, m.end))
  {
    var m := FindFrom(s, p).value;
    assert Scan(s, p) == [m] + Scan(s, m.end);
    assert Scan(s, p)[1..] == Scan(s, m.end);
  }

  /** The loop step of Groups: appending the rewritten group keeps the collected list a
      prefix of the rewritten scan. */
  lemma GroupsStep(s: string, p: nat, list: seq<string>, group: string)
    requires p <= |s| && FindFrom(s, p).Some?
    requires group == Mark(s[FindFrom(s, p).value.start..FindFrom(s, p).value.end])
    requires list + Marks(s, Scan(s, p)) == Marks(s, Scan(s, 0))
    ensures (list + [group]) + Marks(s, Scan(s, FindFrom(s, p).value.end)) == Marks(s, Scan(s, 0))
  {
    MarksStep(s, p);
    var rest := Marks(s, Scan(s, FindFrom(s, p).value.end));
    assert (list + [group]) + rest == list + ([group] + rest);
  }

  /** occurrences(matcher): the number of matches in the line. */
  method Occurrences(s: string) returns (hits: nat)
    ensures hits == |Scan(s, 0)|
  {
    hits := 0;
    var pos := 0;
    var m := Find(s, pos);
    while m.Some?
      invariant pos <= |s|
      invariant m == FindFrom(s, pos)
      invariant hits + |Scan(s, pos)| == |Scan(s, 0)|
      decreases |s| - pos
    {
      hits := hits + 1;
      pos := m.value.end;
      m := Find(s, pos);
    }
  }

  /** The else branch of arguments(str): a second round of find() calls, each group
      rewritten when it holds a '"' and appended to the list. */
  method Groups(line: string) returns (list: seq<string>)
    ensures list == Marks(line, Scan(line, 0))
  {
    list := [];
    var pos := 0;
    var m := Find(line, pos);
    while m.Some?
      invariant pos <= |line|
      invariant m == FindFrom(line, pos)
      invariant list + Marks(line, Scan(line, pos)) == Marks(line, Scan(line, 0))
      decreases |line| - pos
    {
      var group := line[m.value.start..m.value.end];
      if '"' in group {
        group := "str_" + RemoveChar(group, '"');
      }
      GroupsStep(line, pos, list, group);
      list := list + [group];
      pos := m.value.end;
      m := Find(line, pos);
    }
  }

  /** arguments(str) itself: counts the matches, then either returns the line minus the
      catalyst or collects the rewritten groups. */
  method Arguments(line: string, catalystLength: nat) returns (list: seq<string>)
    requires catalystLength <= |line|
    ensures list == Tokenize(line, catalystLength)
  {
    var count := Occurrences(line);
    if count == 1 {
      return [line[catalystLength..]];
    }
    list := Groups(line);
  }

  // ---- What the scan yields ----

  /** A maximal run of bare characters. */
  predicate BareRun(s: string, m: Span)
    requires m.start < m.end <= |s|
  {
    (forall k :: m.start <= k < m.end ==> IsBare(s[k])) && (m.end == |s| || !IsBare(s[m.end]))
  }

  /** A run from quote q to the next q, with no q in between. */
  predicate QuotedRun(s: string, m: Span, q: char)
    requires m.start < m.end <= |s|
  {
    m.start + 2 <= m.end && s[m.start] == q && s[m.end - 1] == q &&
    forall k :: m.start < k < m.end - 1 ==> s[k] != q
  }

  predicate WellShaped(s: string, m: Span)
    requires m.start < m.end <= |s|
  {
    BareRun(s, m) || QuotedRun(s, m, '"') || QuotedRun(s, m, '\'')
  }

  predicate Covered(ms: seq<Span>, i: nat) {
    exists k :: 0 <= k < |ms| && ms[k].start <= i < ms[k].end
  }

  /** Every match is a maximal bare run, a "..." run or a '...' run. */
  lemma {:induction false} ScanShapes(s: string, p: nat)
    requires p <= |s|
    ensures forall k :: 0 <= k < |Scan(s, p)| ==> WellShaped(s, Scan(s, p)[k])
    decreases |s| - p
  {
    match FindFrom(s, p)
    case None =>
    case Some(m) =>
      ScanShapes(s, m.end);
      var ms := Scan(s, p);
      assert ms == [m] + Scan(s, m.end);
      assert WellShaped(s, m) by {
        if !IsBare(s[m.start]) {
          var q := s[m.start];
          var k := NextQuote(s, m.start + 1, q).value;
          assert m.end == k + 1;
        }
      }
      forall k | 0 <= k < |ms| ensures WellShaped(s, ms[k]) {
        if k > 0 { assert ms[k] == Scan(s, m.end)[k - 1]; }
      }
  }

  /** Every index no match covers is whitespace or a quote with no partner after it:
      unmatched quotes act as separators and nothing else is dropped. */
  lemma {:induction false} ScanGaps(s: string, p: nat)
    requires p <= |s|
    ensures forall i :: p <= i < |s| && !Covered(Scan(s, p), i) ==> Skippable(s, i)
    decreases |s| - p
  {
    match FindFrom(s, p)
    case None =>
    case Some(m) =>
      ScanGaps(s, m.end);
      var ms := Scan(s, p);
      var rest := Scan(s, m.end);
      assert ms == [m] + rest;
      forall i: nat | Covered(rest, i) ensures Covered(ms, i) {
        var k :| 0 <= k < |rest| && rest[k].start <= i < rest[k].end;
        assert ms[k + 1] == rest[k];
      }
      assert ms[0] == m;
  }

  /** A bare run is kept as it is. */
  lemma MarkBare(s: string, m: Span)
    requires m.start < m.end <= |s| && BareRun(s, m)
    ensures Mark(s[m.start..m.end]) == s[m.start..m.end]
  {
    assert '"' !in s[m.start..m.end] by {
      forall k | 0 <= k < m.end - m.start ensures s[m.start..m.end][k] != '"' {
        assert IsBare(s[m.start + k]);
      }
    }
  }

  /** A double-quoted run loses its quotes and gains the "str_" prefix. */
  lemma MarkDoubleQuoted(s: string, m: Span)
    requires m.start < m.end <= |s| && QuotedRun(s, m, '"')
    ensures Mark(s[m.start..m.end]) == "str_" + s[m.start + 1..m.end - 1]
  {
    var inner := s[m.start + 1..m.end - 1];
    assert s[m.start..m.end] == ['"'] + inner + ['"'];
    assert '"' !in inner by {
      forall k | 0 <= k < |inner| ensures inner[k] != '"' { assert inner[k] == s[m.start + 1 + k]; }
    }
    MarkWrapped(inner);
  }

  lemma MarkWrapped(inner: string)
    requires '"' !in inner
    ensures Mark(['"'] + inner + ['"']) == "str_" + inner
  {
    var g := ['"'] + inner + ['"'];
    assert g[0] == '"';
    assert g == ['"'] + (inner + ['"']);
    RemoveCharConcat(['"'], inner + ['"'], '"');
    RemoveCharConcat(inner, ['"'], '"');
    assert RemoveChar(['"'], '"') == "";
  }

  /** A single-quoted run without a '"' inside keeps its quotes and gets no prefix. */
  lemma MarkSingleQuoted(s: string, m: Span)
    requires m.start < m.end <= |s| && QuotedRun(s, m, '\'') && '"' !in s[m.start..m.end]
    ensures Mark(s[m.start..m.end]) == s[m.start..m.end]
  {
  }

  lemma {:induction false} RemoveCharConcat(a: string, b: string, c: char)
    ensures RemoveChar(a + b, c) == RemoveChar(a, c) + RemoveChar(b, c)
  {
    if |a| > 0 {
      var head := if a[0] == c then "" else [a[0]];
      assert (a + b)[0] == a[0] && (a + b)[1..] == a[1..] + b;
      calc {
        RemoveChar(a + b, c);
        head + RemoveChar(a[1..] + b, c);
        { RemoveCharConcat(a[1..], b, c); }
        head + (RemoveChar(a[1..], c) + RemoveChar(b, c));
        (head + RemoveChar(a[1..], c)) + RemoveChar(b, c);
        RemoveChar(a, c) + RemoveChar(b, c);
      }
    } else {
      assert a + b == b;
    }
  }

  /** When the line holds exactly one match, no argument tokens are left after the first. */
  lemma OneMatchNoArguments(line: string, catalystLength: nat)
    requires catalystLength <= |line| && |Scan(line, 0)| == 1
    ensures ArgumentTokens(line, catalystLength) == []
  {
  }

  const QuotedLine := ".cmd \"a b\" c"

  lemma QuotedLineScan()
    ensures Scan(QuotedLine, 0) == [Span(0, 4), Span(5, 10), Span(11, 12)]
  {
    var s := QuotedLine;
    assert RunEnd(s, 4) == 4;
    assert RunEnd(s, 0) == 4;
    assert NextQuote(s, 6, '"') == Some(9);
    assert RunEnd(s, 11) == 12;
    assert FindFrom(s, 12) == None;
    assert FindFrom(s, 10) == Some(Span(11, 12));
    assert FindFrom(s, 4) == Some(Span(5, 10));
    assert FindFrom(s, 0) == Some(Span(0, 4));
  }

  lemma QuotedLineMarks()
    ensures Marks(QuotedLine, [Span(0, 4), Span(5, 10), Span(11, 12)]) == [".cmd", "str_a b", "c"]
  {
    var s := QuotedLine;
    var ms := [Span(0, 4), Span(5, 10), Span(11, 12)];
    assert s[5..10] == ['"'] + "a b" + ['"'];
    MarkWrapped("a b");
    assert s[0..4] == ".cmd";
    assert s[11..12] == "c";
    assert '"' !in ".cmd" && '"' !in "c";
    assert ms[1..][1..] == ms[2..];
    assert Marks(s, ms[2..]) == ["c"];
    assert ms[1..][0] == Span(5, 10);
    assert Mark(s[5..10]) == "str_a b";
    assert Marks(s, ms[1..]) == ["str_a b", "c"];
  }

  /** `.cmd "a b" c` yields the tokens .cmd, str_a b and c. */
  lemma QuotedExample()
    ensures Tokenize(QuotedLine, 1) == [".cmd", "str_a b", "c"]
    ensures ArgumentTokens(QuotedLine, 1) == ["str_a b", "c"]
  {
    QuotedLineScan();
    QuotedLineMarks();
  }
}
