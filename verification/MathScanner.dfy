/** The math delimiter scanner (renderMath.tsx `findClosingDollar`, `findNextMath`,
    `renderInlineMath`). Text is a sequence of characters; the delimiters and the whitespace set are
    in the basic plane, so cutting by characters or by UTF-16 units gives the same pieces. */
module MathScanner {
  import opened EvidenceModels

  datatype Delim = DoubleDollar | Bracket | Paren | Dollar

  /** What the scanner recognises; `Node` is what it hands to React. */
  datatype Item = Prose(text: string) | Formula(delim: Delim, latex: string)
  datatype Node = Fragment(text: string) | MathSpan(latex: string, display: bool)

  /** A formula in the text: where its opener starts and where its closer does. */
  datatype Match = Match(start: nat, delim: Delim, close: nat)

  function Width(d: Delim): nat { if d == Dollar then 1 else 2 }

  function Opener(d: Delim): (char, char) {
    match d
    case DoubleDollar => ('$', '$')
    case Bracket => ('\\', '[')
    case Paren => ('\\', '(')
    case Dollar => ('$', '$')
  }

  function Closer(d: Delim): (char, char) {
    match d
    case DoubleDollar => ('$', '$')
    case Bracket => ('\\', ']')
    case Paren => ('\\', ')')
    case Dollar => ('$', '$')
  }

  function Printed(d: Delim, pair: (char, char)): (r: string)
    ensures |r| == Width(d) && r[0] == pair.0 && (d != Dollar ==> r[1] == pair.1)
  {
    if d == Dollar then [pair.0] else [pair.0, pair.1]
  }

  /** `/\s/` of ECMAScript. */
  predicate IsWhitespace(c: char) {
    var n := c as int;
    || 0x9 <= n <= 0xD || n == 0x20 || n == 0xA0 || n == 0x1680 || 0x2000 <= n <= 0x200A
    || n == 0x2028 || n == 0x2029 || n == 0x202F || n == 0x205F || n == 0x3000 || n == 0xFEFF
  }

  // ---------------------------------------------------------------- what the scanner finds

  predicate At(s: string, i: nat, pair: (char, char)) {
    i + 1 < |s| && s[i] == pair.0 && s[i + 1] == pair.1
  }

  /** `indexOf` of a two-character delimiter. */
  function IndexOf(s: string, from: nat, pair: (char, char)): (r: Option<nat>)
    ensures r.Some? ==> from <= r.value && At(s, r.value, pair) && forall k | from <= k < r.value :: !At(s, k, pair)
    ensures r.None? ==> forall k | from <= k :: !At(s, k, pair)
    decreases |s| - from
  {
    if from >= |s| then None
    else if At(s, from, pair) then Some(from)
    else IndexOf(s, from + 1, pair)
  }

  /** A `$` that may close a formula: neither escaped nor after a blank. */
  predicate ClosesAt(s: string, i: nat) {
    1 <= i < |s| && s[i] == '$' && s[i - 1] != '\\' && !IsWhitespace(s[i - 1])
  }

  function ClosingDollar(s: string, from: nat): (r: Option<nat>)
    ensures r.Some? ==> from <= r.value && ClosesAt(s, r.value) && forall k | from <= k < r.value :: !ClosesAt(s, k)
    ensures r.None? ==> forall k | from <= k :: !ClosesAt(s, k)
    decreases |s| - from
  {
    if from >= |s| then None
    else if ClosesAt(s, from) then Some(from)
    else ClosingDollar(s, from + 1)
  }

  /** The delimiter that opens at that position, in priority order. */
  function Opening(s: string, i: nat): Option<Delim> {
    if At(s, i, Opener(DoubleDollar)) then Some(DoubleDollar)
    else if At(s, i, Opener(Bracket)) then Some(Bracket)
    else if At(s, i, Opener(Paren)) then Some(Paren)
    else if i + 1 < |s| && s[i] == '$' && !IsWhitespace(s[i + 1]) then Some(Dollar)
    else None
  }

  function Closing(s: string, i: nat, d: Delim): Option<nat> {
    if d == Dollar then ClosingDollar(s, i + 1) else IndexOf(s, i + 2, Closer(d))
  }

  /** An opener without its closer is passed over whole. */
  function NextMath(s: string, from: nat): (r: Option<Match>)
    ensures r.Some? ==>
      && from <= r.value.start && r.value.start + Width(r.value.delim) <= r.value.close
      && r.value.close + Width(r.value.delim) <= |s|
      && Opening(s, r.value.start) == Some(r.value.delim)
      && Closing(s, r.value.start, r.value.delim) == Some(r.value.close)
    decreases |s| - from
  {
    if from >= |s| then None
    else match Opening(s, from)
      case None => NextMath(s, from + 1)
      case Some(d) =>
        match Closing(s, from, d)
        case Some(close) => Some(Match(from, d, close))
        case None => NextMath(s, from + Width(d))
  }

  function Latex(s: string, m: Match): string
    requires m.start + Width(m.delim) <= m.close <= |s|
  {
    s[m.start + Width(m.delim)..m.close]
  }

  function End(m: Match): nat { m.close + Width(m.delim) }

  function ProseOf(s: string): seq<Item> {
    if s == "" then [] else [Prose(s)]
  }

  function Scan(s: string, from: nat): seq<Item>
    requires from <= |s|
    decreases |s| - from
  {
    match NextMath(s, from)
    case None => ProseOf(s[from..])
    case Some(m) => ProseOf(s[from..m.start]) + [Formula(m.delim, Latex(s, m))] + Scan(s, End(m))
  }

  // ---------------------------------------------------------------- the loops

  method FindClosingDollar(text: string, from: nat) returns (end: int)
    requires 1 <= from <= |text|
    ensures end == match ClosingDollar(text, from) case Some(i) => i case None => -1
  {
    var i := from;
    while i < |text|
      invariant from <= i <= |text| && ClosingDollar(text, from) == ClosingDollar(text, i)
    {
      if text[i] == '$' && text[i - 1] != '\\' && !IsWhitespace(text[i - 1]) {
        return i;
      }
      i := i + 1;
    }
    return -1;
  }

  method FindNextMath(text: string, from: nat) returns (token: Option<Match>)
    requires from <= |text|
    ensures token == NextMath(text, from)
  {
    var i := from;
    while i < |text|
      invariant from <= i <= |text|
      invariant NextMath(text, from) == NextMath(text, i)
    {
      if At(text, i, ('$', '$')) {
        var end := IndexOf(text, i + 2, ('$', '$'));
        if end.Some? {
          return Some(Match(i, DoubleDollar, end.value));
        }
        i := i + 2;
        continue;
      }
      if At(text, i, ('\\', '[')) {
        var end := IndexOf(text, i + 2, ('\\', ']'));
        if end.Some? {
          return Some(Match(i, Bracket, end.value));
        }
        i := i + 2;
        continue;
      }
      if At(text, i, ('\\', '(')) {
        var end := IndexOf(text, i + 2, ('\\', ')'));
        if end.Some? {
          return Some(Match(i, Paren, end.value));
        }
        i := i + 2;
        continue;
      }
      if text[i] == '$' && i + 1 < |text| && !IsWhitespace(text[i + 1]) {
        var end := FindClosingDollar(text, i + 1);
        if end != -1 {
          return Some(Match(i, Dollar, end));
        }
      }
      i := i + 1;
    }
    return None;
  }

  function Rendered(item: Item): Node {
    match item
    case Prose(t) => Fragment(t)
    case Formula(d, latex) => MathSpan(latex, d == DoubleDollar || d == Bracket)
  }

  function RenderedAll(items: seq<Item>): seq<Node> {
    seq(|items|, i requires 0 <= i < |items| => Rendered(items[i]))
  }

  function Nodes(s: string, from: nat): seq<Node>
    requires from <= |s|
  {
    RenderedAll(Scan(s, from))
  }

  function SpanOf(s: string, m: Match): Node
    requires m.start + Width(m.delim) <= m.close <= |s|
  {
    MathSpan(Latex(s, m), m.delim == DoubleDollar || m.delim == Bracket)
  }

  /** What is pushed so far and what is left make up the whole. */
  predicate Splits(whole: seq<Node>, done: seq<Node>, left: seq<Node>) {
    whole == done + left
  }

  lemma SplitStarts(whole: seq<Node>)
    ensures Splits(whole, [], whole)
  {
  }

  lemma SplitMoves(whole: seq<Node>, done: seq<Node>, prose: seq<Node>, span: Node, rest: seq<Node>)
    requires Splits(whole, done, prose + [span] + rest)
    ensures Splits(whole, done + prose + [span], rest)
  {
  }

  lemma SplitEnds(whole: seq<Node>, done: seq<Node>, left: seq<Node>)
    requires Splits(whole, done, left)
    ensures whole == done + left && (left == [] ==> whole == done)
  {
  }

  lemma RenderedStep(s: string, from: nat)
    requires from <= |s|
    ensures Nodes(s, from) ==
      match NextMath(s, from)
      case None => if from < |s| then [Fragment(s[from..])] else []
      case Some(m) =>
        (if m.start > from then [Fragment(s[from..m.start])] else [])
        + [SpanOf(s, m)] + Nodes(s, End(m))
  {
    hide NextMath, Opening, Closing, Rendered;
    match NextMath(s, from)
    case None =>
      RenderedProse(s[from..]);
    case Some(m) =>
      var f := Formula(m.delim, Latex(s, m));
      RenderedProse(s[from..m.start]);
      RenderedConcat(ProseOf(s[from..m.start]) + [f], Scan(s, End(m)));
      RenderedConcat(ProseOf(s[from..m.start]), [f]);
      RenderedFormula(f);
  }

  lemma RenderedRest(s: string, from: nat)
    requires from <= |s| && (from < |s| ==> NextMath(s, from) == None)
    ensures Nodes(s, from) == if from < |s| then [Fragment(s[from..])] else []
    ensures from == 0 ==> s[from..] == s
  {
    hide Nodes, Opening, Closing, SpanOf;
    RenderedStep(s, from);
    if from == |s| { NothingAfterEnd(s); }
  }

  lemma RenderedToken(s: string, from: nat, m: Match)
    requires from <= |s| && NextMath(s, from) == Some(m)
    ensures from <= m.start && m.start + Width(m.delim) <= m.close && End(m) <= |s|
    ensures Nodes(s, from) ==
      (if m.start > from then [Fragment(s[from..m.start])] else []) + [SpanOf(s, m)] + Nodes(s, End(m))
  {
    hide Nodes, Opening, Closing, SpanOf, NextMath;
    RenderedStep(s, from);
  }

  lemma RenderedConcat(a: seq<Item>, b: seq<Item>)
    ensures RenderedAll(a + b) == RenderedAll(a) + RenderedAll(b)
  {
  }

  lemma RenderedFormula(f: Item)
    requires f.Formula?
    ensures RenderedAll([f]) == [MathSpan(f.latex, f.delim == DoubleDollar || f.delim == Bracket)]
  {
  }

  lemma RenderedProse(t: string)
    ensures RenderedAll(ProseOf(t)) == if t == "" then [] else [Fragment(t)]
  {
  }

  /** Empty text is handed back as it came, as one piece. */
  method RenderInlineMath(text: string) returns (nodes: seq<Node>)
    ensures nodes == if text == "" then [Fragment("")] else Nodes(text, 0)
  {
    hide IndexOf, NextMath, Nodes, Opening, Closing, SpanOf;
    if '$' !in text && IndexOf(text, 0, ('\\', '(')).None? && IndexOf(text, 0, ('\\', '[')).None? {
      NoOpenerAnywhere(text);
      RenderedRest(text, 0);
      return [Fragment(text)];
    }
    nodes := [];
    var last := 0;
    SplitStarts(Nodes(text, 0));
    hide Splits;
    while last < |text|
      invariant 0 <= last <= |text|
      invariant last == 0 ==> nodes == []
      invariant Splits(Nodes(text, 0), nodes, Nodes(text, last))
      decreases |text| - last
    {
      var token := FindNextMath(text, last);
      if token.None? {
        break;
      }
      var start, span := token.value.start, SpanOf(text, token.value);
      RenderedToken(text, last, token.value);
      var prose := if start > last then [Fragment(text[last..start])] else [];
      SplitMoves(Nodes(text, 0), nodes, prose, span, Nodes(text, End(token.value)));
      nodes := nodes + prose;
      nodes := nodes + [span];
      last := End(token.value);
    }
    RenderedRest(text, last);
    SplitEnds(Nodes(text, 0), nodes, Nodes(text, last));
    if last == 0 {
      return [Fragment(text)];
    }
    if last < |text| {
      nodes := nodes + [Fragment(text[last..])];
    }
  }

  // ---------------------------------------------------------------- nothing lost, nothing missed

  /** No delimiter opens between the two positions. */
  predicate NoOpener(s: string, from: nat, to: nat)
    requires to <= |s|
  {
    forall i | from <= i < to :: s[i] != '$' && !At(s, i, ('\\', '(')) && !At(s, i, ('\\', '['))
  }

  /** Prose in which nothing opens is passed over. */
  lemma {:induction false} NoOpenerNoMath(s: string, from: nat, to: nat)
    requires from <= to <= |s| && NoOpener(s, from, to)
    ensures NextMath(s, from) == NextMath(s, to)
    decreases |s| - from
  {
    if from < to {
      assert Opening(s, from) == None;
      NoOpenerNoMath(s, from + 1, to);
    }
  }

  /** Text with none of the openers has no formula. */
  lemma NoOpenerAnywhere(s: string)
    requires '$' !in s && IndexOf(s, 0, ('\\', '(')).None? && IndexOf(s, 0, ('\\', '[')).None?
    ensures NextMath(s, 0) == None
  {
    hide IndexOf, NextMath;
    NoOpenerNoMath(s, 0, |s|);
    NothingAfterEnd(s);
  }

  lemma NothingAfterEnd(s: string)
    ensures NextMath(s, |s|) == None
  {
  }

  function PrintItem(item: Item): string {
    match item
    case Prose(t) => t
    case Formula(d, latex) => Printed(d, Opener(d)) + latex + Printed(d, Closer(d))
  }

  function Print(items: seq<Item>): string {
    if items == [] then "" else PrintItem(items[0]) + Print(items[1..])
  }

  lemma PrintSnocs(prose: string, formula: Item, rest: seq<Item>)
    ensures Print(ProseOf(prose) + [formula] + rest) == prose + PrintItem(formula) + Print(rest)
  {
    hide PrintItem;
    var tail := [formula] + rest;
    assert tail[1..] == rest;
    if prose == "" {
      assert ProseOf(prose) + [formula] + rest == tail;
    } else {
      assert (ProseOf(prose) + [formula] + rest)[1..] == tail;
      assert PrintItem(Prose(prose)) == prose by { ProseIsPrinted(prose); }
    }
  }

  lemma ProseIsPrinted(prose: string)
    ensures PrintItem(Prose(prose)) == prose
  {
  }

  lemma MatchIsInPlace(s: string, m: Match)
    requires Opening(s, m.start) == Some(m.delim) && Closing(s, m.start, m.delim) == Some(m.close)
    requires m.start + Width(m.delim) <= m.close && End(m) <= |s|
    ensures PrintItem(Formula(m.delim, Latex(s, m))) == s[m.start..End(m)]
  {
    var a, b := s[m.start..m.start + Width(m.delim)], s[m.close..End(m)];
    assert a == Printed(m.delim, Opener(m.delim));
    assert b == Printed(m.delim, Closer(m.delim));
    Glue(s, m.start, m.start + Width(m.delim), m.close, End(m));
  }

  lemma Glue(s: string, i: nat, j: nat, k: nat, l: nat)
    requires i <= j <= k <= l <= |s|
    ensures s[i..l] == s[i..j] + s[j..k] + s[k..l]
  {
  }

  /** For every text the prose and math spans concatenate back to it. */
  lemma {:induction false} ScanPartitions(s: string, from: nat)
    requires from <= |s|
    ensures Print(Scan(s, from)) == s[from..]
    decreases |s| - from
  {
    hide PrintItem, NextMath, Opening, Closing;
    match NextMath(s, from)
    case None =>
      if from < |s| { ProseIsPrinted(s[from..]); }
    case Some(m) =>
      MatchIsInPlace(s, m);
      ScanPartitions(s, End(m));
      PrintSnocs(s[from..m.start], Formula(m.delim, Latex(s, m)), Scan(s, End(m)));
      assert s[from..] == s[from..m.start] + s[m.start..End(m)] + s[End(m)..];
  }

  // ---------------------------------------------------------------- formulas that survive printing

  /** A formula the scanner reads back whole. */
  ghost predicate Readable(d: Delim, latex: string) {
    match d
    case DoubleDollar =>
      (forall k | 0 <= k :: !At(latex, k, Closer(d))) && (latex == "" || latex[|latex| - 1] != '$')
    case Dollar =>
      && latex != "" && latex[0] != '$' && !IsWhitespace(latex[0])
      && latex[|latex| - 1] != '\\' && !IsWhitespace(latex[|latex| - 1])
      && forall k | 0 <= k :: !ClosesAt(latex, k)
    case _ => forall k | 0 <= k :: !At(latex, k, Closer(d))
  }

  /** The printed formula stands at that position. */
  predicate Stands(s: string, i: nat, d: Delim, latex: string) {
    var body, close := i + Width(d), i + Width(d) + |latex|;
    && close + Width(d) <= |s|
    && s[i] == Opener(d).0 && s[close] == Closer(d).0
    && (d != Dollar ==> s[i + 1] == Opener(d).1 && s[close + 1] == Closer(d).1)
    && s[body..close] == latex
  }

  /** Wherever it stands, a printed formula is found there and only there, whole, if and only if
      it is readable. */
  lemma FoundIffReadable(s: string, i: nat, d: Delim, latex: string)
    requires Stands(s, i, d, latex)
    ensures NextMath(s, i) == Some(Match(i, d, i + Width(d) + |latex|)) <==> Readable(d, latex)
  {
    var body, close := i + Width(d), i + Width(d) + |latex|;
    forall k | 0 <= k < |latex| ensures s[body + k] == latex[k] {
      assert s[body..close][k] == latex[k];
    }
    if d == Dollar {
      DollarIffReadable(s, i, latex);
    } else {
      PairIffReadable(s, i, d, latex);
    }
  }

  lemma PairIffReadable(s: string, i: nat, d: Delim, latex: string)
    requires Stands(s, i, d, latex) && d != Dollar
    requires forall k | 0 <= k < |latex| :: s[i + 2 + k] == latex[k]
    ensures NextMath(s, i) == Some(Match(i, d, i + 2 + |latex|)) <==> Readable(d, latex)
  {
    hide IndexOf;
    var close := i + 2 + |latex|;
    assert Opening(s, i) == Some(d) && At(s, close, Closer(d));
    if Readable(d, latex) {
      forall k | i + 2 <= k < close ensures !At(s, k, Closer(d)) {
        assert !At(latex, k - (i + 2), Closer(d));
        assert k < close - 1 ==> s[k] == latex[k - (i + 2)] && s[k + 1] == latex[k - (i + 2) + 1];
      }
    } else {
      if forall k | 0 <= k :: !At(latex, k, Closer(d)) {
        assert d == DoubleDollar && At(s, close - 1, Closer(d));
      } else {
        var k: nat :| At(latex, k, Closer(d));
        assert s[i + 2 + k] == latex[k] && s[i + 2 + (k + 1)] == latex[k + 1];
        assert At(s, i + 2 + k, Closer(d));
      }
    }
  }

  lemma DollarIffReadable(s: string, i: nat, latex: string)
    requires Stands(s, i, Dollar, latex)
    requires forall k | 0 <= k < |latex| :: s[i + 1 + k] == latex[k]
    ensures NextMath(s, i) == Some(Match(i, Dollar, i + 1 + |latex|)) <==> Readable(Dollar, latex)
  {
    hide ClosingDollar, IsWhitespace;
    var close := i + 1 + |latex|;
    assert s[i + 1] == if latex == "" then '$' else latex[0];
    if latex != "" && latex[0] != '$' && !IsWhitespace(latex[0]) {
      assert Opening(s, i) == Some(Dollar);
      assert s[close - 1] == latex[|latex| - 1];
      forall k | i + 1 <= k < close
        ensures ClosesAt(s, k) == ClosesAt(latex, k - (i + 1))
      {
        assert k > i + 1 ==> s[k - 1] == latex[k - 1 - (i + 1)];
      }
      if Readable(Dollar, latex) {
        assert ClosesAt(s, close);
      } else if !(forall k | 0 <= k :: !ClosesAt(latex, k)) {
        var k: nat :| ClosesAt(latex, k);
        assert ClosesAt(s, i + 1 + k);
      }
    } else {
      assert Opening(s, i) != Some(Dollar);
    }
  }

  ghost predicate PrintableItem(item: Item) {
    match item
    case Formula(d, latex) => Readable(d, latex)
    case Prose(t) => t != "" && NoOpener(t, 0, |t|)
  }

  /** What printing and scanning back needs: readable formulas, and prose that is not empty, not
      split, and opens nothing. */
  ghost predicate Printable(items: seq<Item>) {
    forall i | 0 <= i < |items| ::
      PrintableItem(items[i]) && (items[i].Prose? && i + 1 < |items| ==> items[i + 1].Formula?)
  }

  lemma PrintedStands(s: string, from: nat, d: Delim, latex: string, rest: string)
    requires from <= |s| && s[from..] == PrintItem(Formula(d, latex)) + rest
    ensures Stands(s, from, d, latex)
    ensures from + 2 * Width(d) + |latex| <= |s| && s[from + 2 * Width(d) + |latex|..] == rest
  {
    var a, b := Printed(d, Opener(d)), Printed(d, Closer(d));
    hide Opener, Closer, PrintItem;
    PrintedParts(d, latex);
    FourParts(s, from, a, latex, b, rest);
  }

  lemma PrintedParts(d: Delim, latex: string)
    ensures PrintItem(Formula(d, latex)) == Printed(d, Opener(d)) + latex + Printed(d, Closer(d))
  {
  }

  /** Where the parts of a concatenation stand. */
  lemma FourParts(s: string, from: nat, a: string, l: string, b: string, rest: string)
    requires from <= |s| && s[from..] == a + l + b + rest
    ensures |s| == from + |a| + |l| + |b| + |rest|
    ensures forall k | 0 <= k < |a| :: s[from + k] == a[k]
    ensures forall k | 0 <= k < |b| :: s[from + |a| + |l| + k] == b[k]
    ensures s[from + |a|..from + |a| + |l|] == l && s[from + |a| + |l| + |b|..] == rest
  {
    var t := a + l + b + rest;
    assert forall k | 0 <= k < |t| :: s[from + k] == s[from..][k];
    assert forall k | 0 <= k < |b| :: t[|a| + |l| + k] == b[k];
    assert t[|a|..|a| + |l|] == l && t[|a| + |l| + |b|..] == rest;
  }

  lemma PrintedProse(s: string, from: nat, t: string, rest: string)
    requires from <= |s| && s[from..] == t + rest && NoOpener(t, 0, |t|)
    requires rest == "" || rest[0] == '$' || rest[0] == '\\'
    ensures from + |t| <= |s| && s[from + |t|..] == rest && s[from..from + |t|] == t
    ensures NextMath(s, from) == NextMath(s, from + |t|)
  {
    forall i | from <= i < |s| ensures s[i] == (t + rest)[i - from] {
      assert s[i] == s[from..][i - from];
    }
    forall i | from <= i < from + |t|
      ensures s[i] != '$' && !At(s, i, ('\\', '(')) && !At(s, i, ('\\', '['))
    {
      assert t[i - from] != '$' && !At(t, i - from, ('\\', '(')) && !At(t, i - from, ('\\', '['));
    }
    NoOpenerNoMath(s, from, from + |t|);
  }

  lemma PrintedHead(item: Item)
    requires item.Formula?
    ensures PrintItem(item) != "" && (PrintItem(item)[0] == '$' || PrintItem(item)[0] == '\\')
  {
  }

  lemma PrintableTail(items: seq<Item>)
    requires items != [] && Printable(items)
    ensures Printable(items[1..]) && PrintableItem(items[0])
    ensures items[0].Prose? && |items| > 1 ==> items[1].Formula?
  {
    hide PrintableItem;
    var rest := items[1..];
    forall i | 0 <= i < |rest|
      ensures PrintableItem(rest[i]) && (rest[i].Prose? && i + 1 < |rest| ==> rest[i + 1].Formula?)
    {
      assert rest[i] == items[i + 1];
      assert i + 1 < |rest| ==> rest[i + 1] == items[i + 2];
    }
  }

  lemma FormulaThen(s: string, from: nat, d: Delim, latex: string)
    requires Stands(s, from, d, latex) && Readable(d, latex)
    ensures Scan(s, from) == [Formula(d, latex)] + Scan(s, from + 2 * Width(d) + |latex|)
  {
    hide Readable, Opening, Closing;
    FoundIffReadable(s, from, d, latex);
  }

  lemma ProseThen(s: string, from: nat, to: nat, rest: seq<Item>)
    requires from < to <= |s| && NextMath(s, from) == NextMath(s, to)
    requires Scan(s, to) == rest && (rest == [] || rest[0].Formula?)
    ensures Scan(s, from) == [Prose(s[from..to])] + rest
  {
    hide NextMath, Opening, Closing;
    if NextMath(s, to).None? {
      assert s[to..] == "" && s[from..] == s[from..to];
    }
  }

  /** Printing a segment list and scanning it gives the same segments. */
  lemma {:induction false} RoundTrip(s: string, from: nat, items: seq<Item>)
    requires from <= |s| && s[from..] == Print(items) && Printable(items)
    ensures Scan(s, from) == items
    decreases |items|
  {
    hide PrintItem, Readable, NextMath, Stands, NoOpener, Opening, Closing, Printable, Scan;
    if items == [] {
      NothingToScan(s);
    } else {
      var rest := items[1..];
      PrintableTail(items);
      match items[0]
      case Formula(d, latex) =>
        PrintedStands(s, from, d, latex, Print(rest));
        FormulaThen(s, from, d, latex);
        RoundTrip(s, from + 2 * Width(d) + |latex|, rest);
      case Prose(t) =>
        ProseIsPrinted(t);
        if rest != [] { PrintedHead(rest[0]); }
        PrintedProse(s, from, t, Print(rest));
        RoundTrip(s, from + |t|, rest);
        ProseThen(s, from, from + |t|, rest);
    }
  }

  lemma NothingToScan(s: string)
    ensures Scan(s, |s|) == []
  {
  }

  // ---------------------------------------------------------------- what a scan can produce

  lemma {:induction false} Inert(s: string, from: nat, to: nat, i: nat)
    requires from <= i <= to <= |s|
    requires match NextMath(s, i) case None => to == |s| case Some(m) => m.start == to
    ensures NextMath(s[from..to], i - from) == None
    decreases |s| - i
  {
    hide Opening, Closing;
    if i < to {
      OpeningInside(s, from, to, i);
      match Opening(s, i)
      case None =>
        Inert(s, from, to, i + 1);
      case Some(d) =>
        if i + 1 < to {
          ClosingInside(s, from, to, i, d);
          Inert(s, from, to, i + Width(d));
        }
    }
  }

  /** Cutting the text off hides at most an opener that starts at its last character. */
  lemma OpeningInside(s: string, from: nat, to: nat, i: nat)
    requires from <= i < to <= |s|
    ensures Opening(s[from..to], i - from) == if i + 1 < to then Opening(s, i) else None
  {
    var p := s[from..to];
    assert p[i - from] == s[i];
    if i + 1 < to { assert p[i + 1 - from] == s[i + 1]; }
  }

  lemma ClosingInside(s: string, from: nat, to: nat, i: nat, d: Delim)
    requires from <= i < to <= |s| && Closing(s, i, d) == None
    ensures Closing(s[from..to], i - from, d) == None
  {
    var p := s[from..to];
    assert forall k | 0 <= k < |p| :: p[k] == s[from + k];
    if d == Dollar {
      forall k | i - from + 1 <= k ensures !ClosesAt(p, k) {
        assert !ClosesAt(s, from + k);
      }
    } else {
      forall k | i - from + 2 <= k ensures !At(p, k, Closer(d)) {
        assert !At(s, from + k, Closer(d));
      }
    }
  }

  ghost predicate CanonicalItem(item: Item) {
    match item
    case Formula(d, latex) => Readable(d, latex)
    case Prose(t) => t != "" && NextMath(t, 0) == None
  }

  /** Every formula found would be read back, every prose piece is non-empty, is followed by a
      formula or nothing, and holds no formula of its own. */
  ghost predicate Canonical(items: seq<Item>) {
    forall i | 0 <= i < |items| ::
      CanonicalItem(items[i]) && (items[i].Prose? && i + 1 < |items| ==> items[i + 1].Formula?)
  }

  lemma CanonicalCons(t: string, f: Item, rest: seq<Item>)
    requires t == "" || NextMath(t, 0) == None
    requires f.Formula? && CanonicalItem(f) && Canonical(rest)
    ensures Canonical(ProseOf(t) + [f] + rest)
  {
    var head := ProseOf(t) + [f];
    var all := head + rest;
    assert t != "" ==> CanonicalItem(Prose(t));
    hide CanonicalItem, NextMath;
    forall i | 0 <= i < |all|
      ensures CanonicalItem(all[i]) && (all[i].Prose? && i + 1 < |all| ==> all[i + 1].Formula?)
    {
      assert i >= |head| ==> all[i] == rest[i - |head|];
    }
  }

  lemma {:induction false} ScanIsCanonical(s: string, from: nat)
    requires from <= |s|
    ensures Canonical(Scan(s, from))
    decreases |s| - from
  {
    hide Readable, Opening, Closing, Canonical;
    match NextMath(s, from)
    case None =>
      Inert(s, from, |s|, from);
      assert s[from..|s|] == s[from..];
      LastProse(s[from..]);
    case Some(m) =>
      Inert(s, from, m.start, from);
      FoundIsReadable(s, m);
      ScanIsCanonical(s, End(m));
      CanonicalCons(s[from..m.start], Formula(m.delim, Latex(s, m)), Scan(s, End(m)));
  }

  lemma LastProse(t: string)
    requires NextMath(t, 0) == None
    ensures Canonical(ProseOf(t))
  {
    hide NextMath;
  }

  lemma FoundIsReadable(s: string, m: Match)
    requires Opening(s, m.start) == Some(m.delim) && Closing(s, m.start, m.delim) == Some(m.close)
    requires m.start + Width(m.delim) <= m.close && End(m) <= |s|
    ensures Readable(m.delim, Latex(s, m))
  {
    assert NextMath(s, m.start) == Some(m);
    FoundIffReadable(s, m.start, m.delim, Latex(s, m));
  }

  /** For segment lists whose prose opens nothing, being printable is exactly what the round trip
      takes. */
  lemma RoundTripIff(items: seq<Item>)
    requires forall i | 0 <= i < |items| && items[i].Prose? :: NoOpener(items[i].text, 0, |items[i].text|)
    ensures Scan(Print(items), 0) == items <==> Printable(items)
  {
    hide Readable, NoOpener, NextMath, Scan, Print;
    var s := Print(items);
    assert s[0..] == s;
    if Printable(items) {
      RoundTrip(s, 0, items);
    }
    ScanIsCanonical(s, 0);
  }

  /** A `$` formula that ends in a backslash does not survive, blank-free though its ends are. */
  lemma TrailingBackslashIsLost()
    ensures Scan("$a\\$", 0) != [Formula(Dollar, "a\\")]
  {
    hide Scan, PrintItem, NextMath;
    ScanIsCanonical("$a\\$", 0);
    var latex := "a\\";
    assert |latex| == 2 && latex[1] == '\\';
    assert !CanonicalItem(Formula(Dollar, latex));
    var items := [Formula(Dollar, latex)];
    assert items[0] == Formula(Dollar, latex) && !Canonical(items);
  }

  // ---------------------------------------------------------------- the delimiters, letter by letter

  /** The two-character delimiters as they are written. */
  predicate Written(d: Delim, open: string, close: string) {
    || (d == DoubleDollar && open == "$$" && close == "$$")
    || (d == Bracket && open == "\\[" && close == "\\]")
    || (d == Paren && open == "\\(" && close == "\\)")
  }

  predicate StandsAt(s: string, i: nat, t: string) {
    i + |t| <= |s| && s[i..i + |t|] == t
  }

  lemma TwoLetters(s: string, i: nat, t: string)
    requires |t| == 2
    ensures StandsAt(s, i, t) <==> i + 1 < |s| && s[i] == t[0] && s[i + 1] == t[1]
  {
    if i + 2 <= |s| { assert s[i..i + 2] == [s[i], s[i + 1]]; }
  }

  /** A two-character opener makes a formula up to its next closer, whatever stands in between; without
      one it is passed over whole, so that its second character opens nothing. */
  lemma PairDecides(s: string, from: nat, d: Delim, open: string, close: string)
    requires Written(d, open, close) && StandsAt(s, from, open)
    ensures forall end | from + 2 <= end && StandsAt(s, end, close)
                         && (forall k | from + 2 <= k < end :: !StandsAt(s, k, close)) ::
              NextMath(s, from) == Some(Match(from, d, end))
    ensures (forall end | from + 2 <= end :: !StandsAt(s, end, close)) ==> NextMath(s, from) == NextMath(s, from + 2)
  {
    hide IndexOf, StandsAt;
    OpensPair(s, from, d, open, close);
    forall k: nat ensures StandsAt(s, k, close) <==> At(s, k, Closer(d)) {
      TwoLetters(s, k, close);
    }
    if IndexOf(s, from + 2, Closer(d)) == None {
      assert NextMath(s, from) == NextMath(s, from + 2);
    }
  }

  lemma OpensPair(s: string, from: nat, d: Delim, open: string, close: string)
    requires Written(d, open, close) && StandsAt(s, from, open)
    ensures Opening(s, from) == Some(d) && from + 2 <= |s| && Closer(d).0 == close[0] && Closer(d).1 == close[1]
  {
    TwoLetters(s, from, open);
  }

  /** A dollar that is neither after a backslash nor after a blank. */
  predicate ShutsAt(s: string, k: nat) {
    0 < k < |s| && s[k] == '$' && s[k - 1] != '\\' && !IsWhitespace(s[k - 1])
  }

  /** A single dollar before a character that is not blank makes a formula up to the next dollar that is
      neither after a backslash nor after a blank; without one it is passed over. */
  lemma DollarDecides(s: string, from: nat)
    requires from + 1 < |s| && s[from] == '$' && s[from + 1] != '$' && !IsWhitespace(s[from + 1])
    ensures forall end | from < end && ShutsAt(s, end) && (forall k | from < k < end :: !ShutsAt(s, k)) ::
              NextMath(s, from) == Some(Match(from, Dollar, end))
    ensures (forall k | from < k :: !ShutsAt(s, k)) ==> NextMath(s, from) == NextMath(s, from + 1)
  {
    hide ClosingDollar, IsWhitespace;
    assert Opening(s, from) == Some(Dollar);
    forall k | from < k ensures ClosesAt(s, k) <==> ShutsAt(s, k) {
    }
    if ClosingDollar(s, from + 1) == None {
      assert NextMath(s, from) == NextMath(s, from + 1);
    }
  }

  /** Anywhere else nothing opens. */
  lemma NothingElseOpens(s: string, from: nat)
    requires from < |s|
    requires !StandsAt(s, from, "$$") && !StandsAt(s, from, "\\[") && !StandsAt(s, from, "\\(")
    requires s[from] == '$' ==> from + 1 == |s| || IsWhitespace(s[from + 1])
    ensures NextMath(s, from) == NextMath(s, from + 1)
  {
    hide StandsAt;
    TwoLetters(s, from, "$$");
    TwoLetters(s, from, "\\[");
    TwoLetters(s, from, "\\(");
    assert Opening(s, from) == None;
  }

  /** Double dollars and brackets are set as displays, single dollars and parentheses inline. */
  lemma EachDelimiterRenders(latex: string)
    ensures Readable(DoubleDollar, latex) ==> Nodes("$$" + latex + "$$", 0) == [MathSpan(latex, true)]
    ensures Readable(Bracket, latex) ==> Nodes("\\[" + latex + "\\]", 0) == [MathSpan(latex, true)]
    ensures Readable(Paren, latex) ==> Nodes("\\(" + latex + "\\)", 0) == [MathSpan(latex, false)]
    ensures Readable(Dollar, latex) ==> Nodes("$" + latex + "$", 0) == [MathSpan(latex, false)]
  {
    hide Readable, Nodes;
    if Readable(DoubleDollar, latex) { OneFormula("$$" + latex + "$$", DoubleDollar, latex); }
    if Readable(Bracket, latex) { OneFormula("\\[" + latex + "\\]", Bracket, latex); }
    if Readable(Paren, latex) { OneFormula("\\(" + latex + "\\)", Paren, latex); }
    if Readable(Dollar, latex) { OneFormula("$" + latex + "$", Dollar, latex); }
  }

  lemma OneFormula(s: string, d: Delim, latex: string)
    requires Readable(d, latex) && s == PrintItem(Formula(d, latex))
    ensures Nodes(s, 0) == [MathSpan(latex, d == DoubleDollar || d == Bracket)]
  {
    hide Readable, Scan, PrintItem;
    var items := [Formula(d, latex)];
    assert items[1..] == [] && Print(items) == s && s[0..] == s;
    assert Printable(items);
    RoundTrip(s, 0, items);
    RenderedFormula(items[0]);
  }
}
