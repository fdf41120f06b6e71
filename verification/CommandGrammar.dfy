/** What the two rewriters cut and unwrap, as a grammar: the commands, their arguments and what is left
    are described without the scanning functions, and these are proved to follow the description
    (mathEngine.ts `stripLeakedRefs`, `rewriteScalebox`). */
module CommandGrammar {
  import opened EvidenceModels
  import opened MathScanner
  import opened DelimGroups
  import opened MathRewriters

  // ---------------------------------------------------------------- space and groups

  /** All the space from i on ends at j. */
  ghost predicate SpaceTo(s: string, i: nat, j: nat) {
    i <= j <= |s| && (forall k | i <= k < j :: IsWhitespace(s[k])) && (j < |s| ==> !IsWhitespace(s[j]))
  }

  /** A group that opens with that character stands at i and ends at e. */
  ghost predicate GroupTo(s: string, i: nat, open: char, e: nat) {
    i < |s| && s[i] == open && Closes(s, i, e)
  }

  datatype Span = Span(start: nat, end: nat)

  /** Groups in braces, one after the other with space before each. */
  ghost predicate Groups(s: string, i: nat, groups: seq<Span>)
    decreases |groups|
  {
    groups == [] || (
      && SpaceTo(s, i, groups[0].start)
      && GroupTo(s, groups[0].start, '{', groups[0].end)
      && Groups(s, groups[0].end, groups[1..]))
  }

  function EndOf(i: nat, groups: seq<Span>): nat {
    if groups == [] then i else groups[|groups| - 1].end
  }

  ghost predicate NoGroupAfter(s: string, i: nat) {
    forall j, e | SpaceTo(s, i, j) :: !GroupTo(s, j, '{', e)
  }

  /** The optional argument ends at o; without one, o is where it would have begun. */
  ghost predicate OptionTo(s: string, i: nat, o: nat) {
    if exists e :: GroupTo(s, i, '[', e) then GroupTo(s, i, '[', o) else o == i
  }

  /** What belongs to a command whose name ends at e, up to `end`: space, the argument in brackets if
      there is one, and every argument in braces that follows. */
  ghost predicate Arguments(s: string, e: nat, end: nat, at: nat, o: nat, groups: seq<Span>) {
    && SpaceTo(s, e, at) && OptionTo(s, at, o)
    && Groups(s, o, groups) && NoGroupAfter(s, EndOf(o, groups))
    && end == EndOf(o, groups)
  }

  lemma {:induction false} SpaceEnds(s: string, i: nat)
    requires i <= |s|
    ensures SpaceTo(s, i, AfterSpace(s, i))
    decreases |s| - i
  {
    hide IsWhitespace;
    if i < |s| && IsWhitespace(s[i]) { SpaceEnds(s, i + 1); }
  }

  lemma OneEnd(s: string, i: nat, j: nat, k: nat)
    requires SpaceTo(s, i, j) && SpaceTo(s, i, k)
    ensures j == k
  {
    hide IsWhitespace;
  }

  lemma GroupFound(s: string, i: nat, open: char)
    requires open == '{' || open == '['
    ensures match GroupOf(s, i, open)
      case Some(g) => GroupTo(s, i, open, g.end) && g.end <= |s| && g.inner == s[i + 1..g.end - 1]
      case None => forall e :: !GroupTo(s, i, open, e)
  {
    hide Closes, StillOpen;
  }

  lemma NoGroupThere(s: string, i: nat, j: nat)
    requires SpaceTo(s, i, j) && forall e :: !GroupTo(s, j, '{', e)
    ensures NoGroupAfter(s, i)
  {
    hide SpaceTo, GroupTo;
    forall k, e | SpaceTo(s, i, k) ensures !GroupTo(s, k, '{', e) {
      OneEnd(s, i, j, k);
    }
  }

  lemma {:induction false} ArgsAre(s: string, i: nat) returns (groups: seq<Span>)
    requires i <= |s|
    ensures Groups(s, i, groups) && NoGroupAfter(s, EndOf(i, groups)) && ArgsEnd(s, i) == EndOf(i, groups)
    decreases |s| - i
  {
    hide AfterSpace, GroupAt, GroupTo, SpaceTo, NoGroupAfter;
    var j := AfterSpace(s, i);
    SpaceEnds(s, i);
    GroupFound(s, j, '{');
    match GroupOf(s, j, '{')
    case None =>
      groups := [];
      NoGroupThere(s, i, j);
    case Some(g) =>
      var rest := ArgsAre(s, g.end);
      groups := [Span(j, g.end)] + rest;
      assert groups[1..] == rest;
  }

  /** A cut takes exactly a command's arguments. */
  lemma CutIsArguments(s: string, e: nat) returns (at: nat, o: nat, groups: seq<Span>)
    requires e <= |s|
    ensures Arguments(s, e, CutEnd(s, e), at, o, groups)
  {
    hide AfterSpace, GroupAt, GroupTo, SpaceTo, NoGroupAfter, Groups, ArgsEnd;
    at := AfterSpace(s, e);
    SpaceEnds(s, e);
    GroupFound(s, at, '[');
    o := OptionEnd(s, at);
    groups := ArgsAre(s, o);
  }

  lemma OneGroup(s: string, i: nat, open: char, e: nat, f: nat)
    requires GroupTo(s, i, open, e) && GroupTo(s, i, open, f)
    ensures e == f
  {
    hide StillOpen;
  }

  /** There is only one way to read them. */
  lemma {:induction false} ArgumentsEndOnce(s: string, i: nat, a: seq<Span>, b: seq<Span>)
    requires Groups(s, i, a) && NoGroupAfter(s, EndOf(i, a)) && Groups(s, i, b) && NoGroupAfter(s, EndOf(i, b))
    ensures a == b
    decreases |a|
  {
    hide GroupTo, SpaceTo;
    if a != [] && b != [] {
      OneEnd(s, i, a[0].start, b[0].start);
      OneGroup(s, a[0].start, '{', a[0].end, b[0].end);
      ArgumentsEndOnce(s, a[0].end, a[1..], b[1..]);
    }
  }

  // ---------------------------------------------------------------- the names

  predicate Letter(c: char) { 'a' <= c <= 'z' || 'A' <= c <= 'Z' || '0' <= c <= '9' || c == '_' }

  /** A word ends at e, or one begins behind a character that is no part of one. */
  predicate Edge(s: string, e: nat) {
    0 < e <= |s| && Letter(s[e - 1]) != (e < |s| && Letter(s[e]))
  }

  lemma EdgeIsBoundary(s: string)
    ensures forall e: nat :: Edge(s, e) <==> 0 < e <= |s| && Boundary(s, e)
  {
  }

  /** A leaked reference from i to e: one of five names, any name that begins with `cite` and goes on in
      small letters, or an internal name, up to a word boundary. */
  ghost predicate Reference(s: string, i: nat, e: nat) {
    && i + 1 < e <= |s| && s[i] == '\\' && Edge(s, e)
    && var name := s[i + 1..e];
       || name == "ref" || name == "eqref" || name == "autoref" || name == "label" || name == "footnote"
       || CiteName(name) || InternalName(name)
  }

  ghost predicate CiteName(name: string) {
    |name| >= 4 && name[..4] == "cite" && forall k | 4 <= k < |name| :: 'a' <= name[k] <= 'z'
  }

  ghost predicate InternalName(name: string) {
    |name| >= 4 && name[..3] == "lx@"
    && forall k | 3 <= k < |name| :: 'a' <= name[k] <= 'z' || 'A' <= name[k] <= 'Z' || name[k] == '@'
  }

  /** The longest match at i. */
  ghost predicate Longest(s: string, i: nat, e: nat) {
    Reference(s, i, e) && forall f: nat | Reference(s, i, f) :: f <= e
  }

  lemma {:induction false} LowerRunIsAll(s: string, i: nat, e: nat)
    requires i <= e <= |s| && forall k | i <= k < e :: IsLower(s[k])
    ensures e <= LowerRun(s, i)
    decreases e - i
  {
    if i < e { LowerRunIsAll(s, i + 1, e); }
  }

  lemma {:induction false} NameRunIsAll(s: string, i: nat, e: nat)
    requires i <= e <= |s| && forall k | i <= k < e :: IsName(s[k])
    ensures e <= NameRun(s, i)
    decreases e - i
  {
    if i < e { NameRunIsAll(s, i + 1, e); }
  }

  lemma {:induction false} LastBoundaryIsLast(s: string, first: nat, e: nat)
    ensures match LastBoundary(s, first, e)
      case Some(b) => Boundary(s, b) && forall f | first < f <= e && Boundary(s, f) :: f <= b
      case None => forall f | first < f <= e :: !Boundary(s, f)
    decreases e
  {
    hide Boundary;
    if e > first && !Boundary(s, e) { LastBoundaryIsLast(s, first, e - 1); }
  }

  /** No boundary falls between two small letters. */
  lemma NoBoundaryInside(s: string, e: nat)
    requires 0 < e < |s| && IsLower(s[e - 1]) && IsLower(s[e])
    ensures !Boundary(s, e)
  {
  }

  lemma CiteEnds(s: string, i: nat, e: nat)
    requires i + 1 < e <= |s| && Boundary(s, e) && CiteName(s[i + 1..e])
    ensures NameAt(s, i + 1, "cite") && i + 5 <= e == LowerRun(s, i + 5)
  {
    hide Boundary;
    var name := s[i + 1..e];
    assert s[i + 1..i + 5] == name[..4];
    forall k | i + 5 <= k < e ensures IsLower(s[k]) { assert s[k] == name[k - i - 1]; }
    LowerRunIsAll(s, i + 5, e);
    if e < LowerRun(s, i + 5) {
      assert s[e - 1] == name[|name| - 1] && name[3] == name[..4][3] == 'e';
      NoBoundaryInside(s, e);
    }
  }

  lemma CiteStarts(s: string, i: nat)
    requires NameAt(s, i + 1, "cite")
    ensures i + 5 <= LowerRun(s, i + 5) <= |s| && CiteName(s[i + 1..LowerRun(s, i + 5)])
  {
    var e := LowerRun(s, i + 5);
    var name := s[i + 1..e];
    assert name[..4] == s[i + 1..i + 5];
    forall k | 4 <= k < |name| ensures 'a' <= name[k] <= 'z' { assert name[k] == s[i + 1 + k]; }
  }

  lemma InternalEnds(s: string, i: nat, e: nat)
    requires i + 1 < e <= |s| && InternalName(s[i + 1..e])
    ensures NameAt(s, i + 1, "lx@") && i + 4 < e <= NameRun(s, i + 4)
  {
    var name := s[i + 1..e];
    assert s[i + 1..i + 4] == name[..3];
    forall k | i + 4 <= k < e ensures IsName(s[k]) { assert s[k] == name[k - i - 1]; }
    NameRunIsAll(s, i + 4, e);
  }

  lemma InternalStarts(s: string, i: nat, e: nat)
    requires NameAt(s, i + 1, "lx@") && i + 4 < e <= NameRun(s, i + 4)
    ensures e <= |s| && InternalName(s[i + 1..e])
  {
    var name := s[i + 1..e];
    assert name[..3] == s[i + 1..i + 4];
    forall k | 3 <= k < |name| ensures IsName(name[k]) { assert name[k] == s[i + 1 + k]; }
  }

  lemma FixedEnds(s: string, i: nat, e: nat, name: string)
    requires i + 1 < e <= |s| && Boundary(s, e) && s[i + 1..e] == name
    ensures FixedRef(s, i + 1, name) && e == i + 1 + |name|
  {
    assert |s[i + 1..e]| == e - i - 1;
  }

  /** Two names that begin differently do not stand at the same place. */
  lemma NamesDiffer(s: string, i: nat)
    ensures NameAt(s, i, "cite") ==> i < |s| && s[i] == 'c'
    ensures NameAt(s, i, "ref") ==> i < |s| && s[i] == 'r'
    ensures NameAt(s, i, "eqref") ==> i < |s| && s[i] == 'e'
    ensures NameAt(s, i, "autoref") ==> i < |s| && s[i] == 'a'
    ensures NameAt(s, i, "label") ==> i + 1 < |s| && s[i] == 'l' && s[i + 1] == 'a'
    ensures NameAt(s, i, "footnote") ==> i < |s| && s[i] == 'f'
    ensures NameAt(s, i, "lx@") ==> i + 1 < |s| && s[i] == 'l' && s[i + 1] == 'x'
  {
    hide NameAt;
    NameStarts(s, i, "cite");
    NameStarts(s, i, "ref");
    NameStarts(s, i, "eqref");
    NameStarts(s, i, "autoref");
    NameStarts(s, i, "footnote");
    NameStartsTwice(s, i, "label");
    NameStartsTwice(s, i, "lx@");
  }

  lemma NameStartsTwice(s: string, i: nat, name: string)
    requires |name| >= 2
    ensures NameAt(s, i, name) ==> i + 1 < |s| && s[i] == name[0] && s[i + 1] == name[1]
  {
    if NameAt(s, i, name) {
      assert s[i..i + |name|][0] == s[i] && s[i..i + |name|][1] == s[i + 1];
    }
  }

  /** What any match at i says about the expression's alternatives. */
  lemma ReferenceEnds(s: string, i: nat, e: nat)
    requires Reference(s, i, e)
    ensures
      || (NameAt(s, i + 1, "cite") && Boundary(s, LowerRun(s, i + 5)) && e == LowerRun(s, i + 5))
      || (FixedRef(s, i + 1, "ref") && e == i + 4)
      || (FixedRef(s, i + 1, "eqref") && e == i + 6)
      || (FixedRef(s, i + 1, "autoref") && e == i + 8)
      || (FixedRef(s, i + 1, "label") && e == i + 6)
      || (FixedRef(s, i + 1, "footnote") && e == i + 9)
      || (NameAt(s, i + 1, "lx@") && i + 4 < e <= NameRun(s, i + 4) && Boundary(s, e))
  {
    EdgeIsBoundary(s);
    LiteralNames();
    hide Boundary, Edge, LowerRun, NameRun, CiteName, InternalName, NameAt, FixedRef, AllName;
    var name := s[i + 1..e];
    if CiteName(name) { CiteEnds(s, i, e); }
    else if InternalName(name) { InternalEnds(s, i, e); }
    else { FixedEnds(s, i, e, name); }
  }

  /** The expression finds the longest reference there is at a place, and none exactly when there is
      none. */
  lemma RefAtIsLongest(s: string, i: nat)
    ensures match RefAt(s, i)
      case Some(e) => Longest(s, i, e)
      case None => forall e :: !Reference(s, i, e)
  {
    if i < |s| && s[i] == '\\' {
      LiteralNames();
      hide Boundary, Edge, NameAt, LowerRun, NameRun, LastBoundary, Reference;
      NamesDiffer(s, i + 1);
      if NameAt(s, i + 1, "lx@") { LastBoundaryIsLast(s, i + 4, NameRun(s, i + 4)); }
      forall f: nat | Reference(s, i, f) ensures RefAt(s, i).Some? && f <= RefAt(s, i).value {
        ReferenceEnds(s, i, f);
      }
      if RefAt(s, i).Some? { FoundIsReference(s, i, RefAt(s, i).value); }
    }
  }

  lemma FixedIsReference(s: string, i: nat, name: string)
    requires i < |s| && s[i] == '\\' && FixedRef(s, i + 1, name)
    requires name == "ref" || name == "eqref" || name == "autoref" || name == "label" || name == "footnote"
    ensures Reference(s, i, i + 1 + |name|)
  {
    EdgeIsBoundary(s);
    LiteralNames();
    hide Boundary, Edge, AllName;
    assert s[i + 1..i + 1 + |name|] == name;
  }

  lemma NamedIsReference(s: string, i: nat, e: nat)
    requires i + 1 < e <= |s| && s[i] == '\\' && Boundary(s, e) && (CiteName(s[i + 1..e]) || InternalName(s[i + 1..e]))
    ensures Reference(s, i, e)
  {
    EdgeIsBoundary(s);
    hide Boundary, Edge, CiteName, InternalName;
  }

  lemma FoundIsReference(s: string, i: nat, e: nat)
    requires RefAt(s, i) == Some(e)
    ensures Reference(s, i, e)
  {
    RefShape(s, i);
    LiteralNames();
    hide Boundary, LowerRun, NameRun, LastBoundary, CiteName, InternalName, Reference, NameAt, FixedRef, AllName;
    if NameAt(s, i + 1, "cite") && Boundary(s, LowerRun(s, i + 5)) {
      CiteStarts(s, i);
      NamedIsReference(s, i, e);
    } else if FixedRef(s, i + 1, "ref") {
      FixedIsReference(s, i, "ref");
    } else if FixedRef(s, i + 1, "eqref") {
      FixedIsReference(s, i, "eqref");
    } else if FixedRef(s, i + 1, "autoref") {
      FixedIsReference(s, i, "autoref");
    } else if FixedRef(s, i + 1, "label") {
      FixedIsReference(s, i, "label");
    } else if FixedRef(s, i + 1, "footnote") {
      FixedIsReference(s, i, "footnote");
    } else {
      LastBoundaryIsLast(s, i + 4, NameRun(s, i + 4));
      InternalStarts(s, i, e);
      NamedIsReference(s, i, e);
    }
  }

  // ---------------------------------------------------------------- what stripping leaves

  /** From left to right: each cut begins at the first reference after the one before, which is read as
      long as it goes, and ends behind its arguments; after the last there is no reference any more. */
  ghost predicate Cuts(s: string, from: nat, cuts: seq<Span>)
    decreases |cuts|
  {
    if cuts == [] then from <= |s| && forall k, e | from <= k :: !Reference(s, k, e)
    else
      && from <= cuts[0].start && (forall k, e | from <= k < cuts[0].start :: !Reference(s, k, e))
      && CutAt(s, cuts[0])
      && Cuts(s, cuts[0].end, cuts[1..])
  }

  ghost predicate CutAt(s: string, cut: Span) {
    exists e, at, o, groups :: Longest(s, cut.start, e) && Arguments(s, e, cut.end, at, o, groups)
  }

  /** The text outside the cuts. */
  ghost function Outside(s: string, from: nat, cuts: seq<Span>): string
    requires Cuts(s, from, cuts)
    decreases |cuts|
  {
    if cuts == [] then s[from..]
    else s[from..cuts[0].start] + Outside(s, cuts[0].end, cuts[1..])
  }

  lemma NoneBefore(s: string, from: nat, to: nat)
    requires forall k | from <= k < to && k < |s| :: RefAt(s, k) == None
    ensures forall k: nat, e: nat | from <= k < to :: !Reference(s, k, e)
  {
    hide RefAt, Reference;
    forall k: nat, e: nat | from <= k < to ensures !Reference(s, k, e) {
      RefAtIsLongest(s, k);
      if k >= |s| { NoneOutside(s, k, e); }
    }
  }

  lemma NoneOutside(s: string, k: nat, e: nat)
    requires k >= |s|
    ensures !Reference(s, k, e)
  {
  }

  /** Stripping leaves exactly the text outside the references with their arguments. */
  lemma {:induction false} StrippedIsOutside(s: string, from: nat) returns (cuts: seq<Span>)
    requires from <= |s|
    ensures Cuts(s, from, cuts) && Stripped(s, from) == Outside(s, from, cuts)
    decreases |s| - from
  {
    hide RefAt, CutEnd, Longest, Arguments, Reference;
    match NextRef(s, from)
    case None =>
      cuts := [];
      NoneAnywhere(s, from);
    case Some(m) =>
      RefShape(s, m.start);
      RefAtIsLongest(s, m.start);
      NoneBefore(s, from, m.start);
      var at, o, groups := CutIsArguments(s, m.end);
      var cut := Span(m.start, CutEnd(s, m.end));
      assert CutAt(s, cut);
      var rest := StrippedIsOutside(s, cut.end);
      cuts := [cut] + rest;
      assert cuts[1..] == rest;
  }

  lemma NoneAnywhere(s: string, from: nat)
    requires NextRef(s, from) == None
    ensures forall k: nat, e: nat | from <= k :: !Reference(s, k, e)
  {
    hide RefAt, Reference;
    forall k: nat, e: nat | from <= k ensures !Reference(s, k, e) {
      if k < |s| { RefAtIsLongest(s, k); } else { NoneOutside(s, k, e); }
    }
  }

  // ---------------------------------------------------------------- what unwrapping leaves

  /** A box command with all its arguments: two for `scalebox`, three for `resizebox`. */
  ghost predicate Box(s: string, i: nat, groups: seq<Span>) {
    && i < |s| && s[i] == '\\'
    && ((i + 9 <= |s| && s[i + 1..i + 9] == "scalebox" && Edge(s, i + 9)
         && |groups| == 2 && Groups(s, i + 9, groups))
        || (i + 10 <= |s| && s[i + 1..i + 10] == "resizebox" && Edge(s, i + 10)
            && |groups| == 3 && Groups(s, i + 10, groups)))
  }

  datatype Wrap = Wrap(start: nat, groups: seq<Span>)

  /** From left to right the boxes that are complete, each the first after the one before. */
  ghost predicate Wraps(s: string, from: nat, wraps: seq<Wrap>)
    decreases |wraps|
  {
    if wraps == [] then from <= |s| && forall k, groups | from <= k :: !Box(s, k, groups)
    else
      var w := wraps[0];
      && from <= w.start && (forall k, groups | from <= k < w.start :: !Box(s, k, groups))
      && Box(s, w.start, w.groups)
      && Wraps(s, w.groups[|w.groups| - 1].end, wraps[1..])
  }

  lemma {:induction false} LastGroup(s: string, i: nat, groups: seq<Span>)
    requires Groups(s, i, groups) && groups != []
    ensures var last := groups[|groups| - 1];
      i <= last.start && last.start + 2 <= last.end <= |s| && GroupTo(s, last.start, '{', last.end)
    decreases |groups|
  {
    hide IsWhitespace, StillOpen;
    OneIsOpen(s, groups[0].start);
    if |groups| > 1 { LastGroup(s, groups[0].end, groups[1..]); }
  }

  lemma BoxEnds(s: string, i: nat, groups: seq<Span>)
    requires Box(s, i, groups)
    ensures |groups| >= 2
    ensures var last := groups[|groups| - 1];
      i <= last.start && last.start + 2 <= last.end <= |s| && GroupTo(s, last.start, '{', last.end)
  {
    hide Groups, Boundary, GroupTo;
    LastGroup(s, if s[i + 1..i + 9] == "scalebox" && |groups| == 2 then i + 9 else i + 10, groups);
  }

  function Braced(t: string): string { "{" + t + "}" }

  /** The text with every box replaced by its last argument, in braces. */
  ghost function Unboxed(s: string, from: nat, wraps: seq<Wrap>): string
    requires Wraps(s, from, wraps)
    decreases |wraps|
  {
    if wraps == [] then s[from..]
    else
      var w := wraps[0];
      BoxEnds(s, w.start, w.groups);
      var last := w.groups[|w.groups| - 1];
      s[from..w.start] + (Braced(s[last.start + 1..last.end - 1]) + Unboxed(s, last.end, wraps[1..]))
  }

  lemma {:induction false} LastArgIs(s: string, i: nat, n: nat) returns (groups: seq<Span>)
    requires i <= |s| && n > 0
    ensures match LastArg(s, i, n)
      case Some(a) => |groups| == n && Groups(s, i, groups) && groups[n - 1] == Span(a.start, a.group.end)
                      && a.group.inner == s[a.start + 1..a.group.end - 1]
      case None => forall gs: seq<Span> | |gs| == n :: !Groups(s, i, gs)
    decreases n
  {
    hide AfterSpace, GroupAt, GroupTo, SpaceTo;
    var j := AfterSpace(s, i);
    SpaceEnds(s, i);
    GroupFound(s, j, '{');
    groups := [];
    match GroupOf(s, j, '{')
    case None =>
      forall gs: seq<Span> | |gs| == n && Groups(s, i, gs) ensures false { OneEnd(s, i, j, gs[0].start); }
    case Some(g) =>
      if n == 1 {
        groups := [Span(j, g.end)];
      } else {
        var rest := LastArgIs(s, g.end, n - 1);
        groups := [Span(j, g.end)] + rest;
        assert groups[1..] == rest;
        forall gs: seq<Span> | |gs| == n && Groups(s, i, gs) ensures |gs[1..]| == n - 1 && Groups(s, g.end, gs[1..]) {
          OneEnd(s, i, j, gs[0].start);
          OneGroup(s, j, '{', g.end, gs[0].end);
        }
      }
  }

  /** The expression and its arguments, against the description of a box. */
  lemma BoxIff(s: string, i: nat, groups: seq<Span>)
    ensures Box(s, i, groups) <==>
      BoxAt(s, i).Some? && |groups| == BoxAt(s, i).value && Groups(s, NameEnd(i, BoxAt(s, i).value), groups)
  {
    EdgeIsBoundary(s);
    LiteralNames();
    NameStarts(s, i + 1, "scalebox");
    NameStarts(s, i + 1, "resizebox");
    hide Boundary, Edge, Groups, AllName;
  }

  /** A command without all its arguments is no box. */
  lemma NoBoxWithout(s: string, i: nat)
    requires BoxAt(s, i) == None || forall gs: seq<Span> | |gs| == BoxAt(s, i).value ::
               !Groups(s, NameEnd(i, BoxAt(s, i).value), gs)
    ensures forall groups :: !Box(s, i, groups)
  {
    hide Box, Groups, BoxAt;
    forall groups ensures !Box(s, i, groups) { BoxIff(s, i, groups); }
  }

  lemma {:induction false} NextBoxIsFirst(s: string, from: nat)
    ensures forall k | from <= k < (match NextBox(s, from) case Some(i) => i case None => |s|) :: BoxAt(s, k) == None
    decreases |s| - from
  {
    hide BoxAt;
    if from < |s| && BoxAt(s, from) == None { NextBoxIsFirst(s, from + 1); }
  }

  lemma NoBoxBefore(s: string, from: nat, to: nat)
    requires forall k | from <= k < to && k < |s| :: BoxAt(s, k) == None
    ensures forall k: nat, groups | from <= k < to :: !Box(s, k, groups)
  {
    hide BoxAt, Box;
    forall k: nat, groups | from <= k < to ensures !Box(s, k, groups) {
      if k < |s| { NoBoxWithout(s, k); } else { BoxInside(s, k, groups); }
    }
  }

  lemma BoxInside(s: string, k: nat, groups: seq<Span>)
    requires k >= |s|
    ensures !Box(s, k, groups)
  {
  }

  lemma AfterSpaceTwice(s: string, i: nat)
    ensures AfterSpace(s, AfterSpace(s, i)) == AfterSpace(s, i)
    decreases |s| - i
  {
  }

  lemma ArgsAfterSpace(s: string, i: nat, n: nat)
    ensures LastArg(s, AfterSpace(s, i), n) == LastArg(s, i, n)
  {
    hide GroupAt, AfterSpace;
    AfterSpaceTwice(s, i);
  }

  /** No box begins inside a command's name or the space behind it. */
  lemma NoBoxInside(s: string, i: nat)
    requires BoxAt(s, i).Some?
    ensures var e := BoxEnd(s, i, BoxAt(s, i).value);
      i < e <= |s| && forall k | i < k < e :: BoxAt(s, k) == None
  {
    BoxShape(s, i);
    hide AfterSpace, IsWhitespace;
    BackslashIsNoSpace();
    forall k | i < k < BoxEnd(s, i, BoxAt(s, i).value) ensures s[k] != '\\' {
      if k < NameEnd(i, BoxAt(s, i).value) { assert IsName(s[k]); } else { assert IsWhitespace(s[k]); }
    }
  }

  lemma BackslashIsNoSpace()
    ensures !IsWhitespace('\\')
  {
  }

  lemma UnboxedFirst(s: string, from: nat, wraps: seq<Wrap>)
    requires wraps != [] && Wraps(s, from, wraps)
    ensures var w := wraps[0];
      w.groups != [] && w.start <= |s| &&
      var last := w.groups[|w.groups| - 1];
      && last.start + 2 <= last.end <= |s| && Wraps(s, last.end, wraps[1..])
      && Unboxed(s, from, wraps) ==
           s[from..w.start] + (Braced(s[last.start + 1..last.end - 1]) + Unboxed(s, last.end, wraps[1..]))
  {
    hide Box, Wraps, Braced;
    BoxFirst(s, from, wraps);
    BoxEnds(s, wraps[0].start, wraps[0].groups);
  }

  lemma BoxFirst(s: string, from: nat, wraps: seq<Wrap>)
    requires wraps != [] && Wraps(s, from, wraps)
    ensures from <= wraps[0].start < |s| && Box(s, wraps[0].start, wraps[0].groups)
    ensures wraps[0].groups != [] && Wraps(s, wraps[0].groups[|wraps[0].groups| - 1].end, wraps[1..])
  {
  }

  /** Looking from further left, past text with no box in it. */
  lemma WrapsEarlier(s: string, from: nat, to: nat, wraps: seq<Wrap>)
    requires from <= to && Wraps(s, to, wraps)
    requires forall k: nat, groups | from <= k < to :: !Box(s, k, groups)
    ensures to <= |s| && Wraps(s, from, wraps) && Unboxed(s, from, wraps) == s[from..to] + Unboxed(s, to, wraps)
  {
    hide Box, Unboxed, Braced;
    if wraps == [] {
      NoWraps(s, to);
      NoWraps(s, from);
      assert s[from..] == s[from..to] + s[to..];
    } else {
      BoxFirst(s, to, wraps);
      StillWraps(s, from, to, wraps);
      hide Wraps;
      UnboxedFirst(s, from, wraps);
      UnboxedFirst(s, to, wraps);
      var last := wraps[0].groups[|wraps[0].groups| - 1];
      Further(s, from, to, wraps[0].start,
              Braced(s[last.start + 1..last.end - 1]) + Unboxed(s, last.end, wraps[1..]));
    }
  }

  lemma StillWraps(s: string, from: nat, to: nat, wraps: seq<Wrap>)
    requires from <= to && wraps != [] && Wraps(s, to, wraps)
    requires forall k: nat, groups | from <= k < to :: !Box(s, k, groups)
    ensures Wraps(s, from, wraps)
  {
    hide Box;
  }

  lemma Further(s: string, from: nat, to: nat, i: nat, tail: string)
    requires from <= to <= i <= |s|
    ensures s[from..i] + tail == s[from..to] + (s[to..i] + tail)
  {
    assert s[from..i] == s[from..to] + s[to..i];
  }

  /** Rewriting leaves the text with exactly the complete boxes unwrapped. */
  lemma {:induction false} RewrittenIsUnboxed(s: string, last: nat, from: nat) returns (wraps: seq<Wrap>)
    requires last <= from <= |s|
    ensures Wraps(s, from, wraps) && Rewritten(s, last, from) == s[last..from] + Unboxed(s, from, wraps)
    decreases |s| - from
  {
    hide BoxAt, BoxEnd, LastArg, Wraps, Unboxed, Rewritten;
    match NextBox(s, from)
    case None =>
      wraps := [];
      NextBoxIsFirst(s, from);
      NoBoxBeyond(s, from);
      NoWraps(s, from);
      NothingRewritten(s, last, from);
    case Some(i) =>
      NoBoxInside(s, i);
      var argc := BoxAt(s, i).value;
      match LastArg(s, BoxEnd(s, i, argc), argc) {
        case None =>
          wraps := RewrittenIsUnboxed(s, last, BoxEnd(s, i, argc));
          PassedOver(s, last, from, i, wraps);
        case Some(a) =>
          var rest := RewrittenIsUnboxed(s, a.group.end, a.group.end);
          wraps := UnwrappedNext(s, last, from, i, a, rest);
      }
  }

  lemma NothingRewritten(s: string, last: nat, from: nat)
    requires last <= from <= |s| && NextBox(s, from) == None
    ensures Rewritten(s, last, from) == s[last..from] + s[from..]
  {
    hide NextBox;
    assert s[last..] == s[last..from] + s[from..];
  }

  /** An incomplete box stays. */
  lemma PassedOver(s: string, last: nat, from: nat, i: nat, wraps: seq<Wrap>)
    requires last <= from <= |s| && NextBox(s, from) == Some(i)
    requires LastArg(s, BoxEnd(s, i, BoxAt(s, i).value), BoxAt(s, i).value) == None
    requires var e := BoxEnd(s, i, BoxAt(s, i).value);
      i < e <= |s| && Wraps(s, e, wraps) && Rewritten(s, last, e) == s[last..e] + Unboxed(s, e, wraps)
    ensures Wraps(s, from, wraps) && Rewritten(s, last, from) == s[last..from] + Unboxed(s, from, wraps)
  {
    hide BoxAt, BoxEnd, LastArg, Wraps, Unboxed, NextBox, Box;
    var e := BoxEnd(s, i, BoxAt(s, i).value);
    NextBoxIsFirst(s, from);
    NoBoxBefore(s, from, i);
    var _ := BoxArguments(s, i);
    NoBoxInside(s, i);
    NoBoxFrom(s, from, i, e);
    WrapsEarlier(s, from, e, wraps);
    assert s[last..e] == s[last..from] + s[from..e];
  }

  /** A complete one is replaced by its last argument. */
  lemma UnwrappedNext(s: string, last: nat, from: nat, i: nat, a: Arg, rest: seq<Wrap>) returns (wraps: seq<Wrap>)
    requires last <= from <= |s| && NextBox(s, from) == Some(i)
    requires BoxEnd(s, i, BoxAt(s, i).value) <= |s|
    requires LastArg(s, BoxEnd(s, i, BoxAt(s, i).value), BoxAt(s, i).value) == Some(a)
    requires Wraps(s, a.group.end, rest)
    requires Rewritten(s, a.group.end, a.group.end) == s[a.group.end..a.group.end] + Unboxed(s, a.group.end, rest)
    ensures Wraps(s, from, wraps) && Rewritten(s, last, from) == s[last..from] + Unboxed(s, from, wraps)
  {
    hide BoxAt, BoxEnd, LastArg, Wraps, Unboxed, NextBox, Box;
    NextBoxIsFirst(s, from);
    NoBoxBefore(s, from, i);
    var groups := BoxArguments(s, i);
    wraps := WrapFirst(s, from, i, groups, rest);
    assert s[a.group.end..a.group.end] == "";
    assert Unwrapped(a) == Braced(a.group.inner);
    hide Braced, Unwrapped;
    Glued(s, last, from, i, Braced(a.group.inner), Unboxed(s, a.group.end, rest));
  }

  lemma Glued(s: string, last: nat, from: nat, i: nat, arg: string, rest: string)
    requires last <= from <= i <= |s|
    ensures s[last..i] + arg + ("" + rest) == s[last..from] + (s[from..i] + (arg + rest))
  {
    assert s[last..i] == s[last..from] + s[from..i];
  }

  lemma NoWraps(s: string, from: nat)
    requires from <= |s| && forall k: nat, groups | from <= k :: !Box(s, k, groups)
    ensures Wraps(s, from, []) && Unboxed(s, from, []) == s[from..]
  {
  }

  lemma WrapFirst(s: string, from: nat, i: nat, groups: seq<Span>, rest: seq<Wrap>) returns (wraps: seq<Wrap>)
    requires from <= i && (forall k: nat, gs | from <= k < i :: !Box(s, k, gs))
    requires Box(s, i, groups) && groups != [] && Wraps(s, groups[|groups| - 1].end, rest)
    ensures var last := groups[|groups| - 1];
      && i <= last.start && last.start + 2 <= last.end <= |s| && Wraps(s, from, wraps)
      && Unboxed(s, from, wraps) ==
           s[from..i] + (Braced(s[last.start + 1..last.end - 1]) + Unboxed(s, last.end, rest))
  {
    BoxEnds(s, i, groups);
    hide Box, Braced;
    wraps := [Wrap(i, groups)] + rest;
    assert wraps[1..] == rest;
  }

  lemma NoBoxBeyond(s: string, from: nat)
    requires forall k | from <= k < |s| :: BoxAt(s, k) == None
    ensures forall k: nat, groups | from <= k :: !Box(s, k, groups)
  {
    hide BoxAt, Box;
    forall k: nat, groups | from <= k ensures !Box(s, k, groups) {
      NoBoxBefore(s, from, k + 1);
    }
  }

  lemma NoBoxFrom(s: string, from: nat, i: nat, e: nat)
    requires from <= i < e && (forall k: nat, groups | from <= k < i :: !Box(s, k, groups))
    requires forall groups :: !Box(s, i, groups)
    requires forall k | i < k < e :: BoxAt(s, k) == None
    ensures forall k: nat, groups | from <= k < e :: !Box(s, k, groups)
  {
    hide BoxAt, Box;
    NoBoxBefore(s, i + 1, e);
  }

  /** The arguments the scan finds are those of the box. */
  lemma BoxArguments(s: string, i: nat) returns (groups: seq<Span>)
    requires BoxAt(s, i).Some?
    ensures var argc := BoxAt(s, i).value;
      match LastArg(s, BoxEnd(s, i, argc), argc)
      case Some(a) => Box(s, i, groups) && groups != [] && groups[|groups| - 1] == Span(a.start, a.group.end)
                      && a.start + 2 <= a.group.end <= |s| && a.group.inner == s[a.start + 1..a.group.end - 1]
      case None => forall gs :: !Box(s, i, gs)
  {
    BoxShape(s, i);
    hide LastArg, AfterSpace, Groups, Box, BoxAt;
    var argc := BoxAt(s, i).value;
    ArgsAfterSpace(s, NameEnd(i, argc), argc);
    groups := LastArgIs(s, NameEnd(i, argc), argc);
    BoxIff(s, i, groups);
    if LastArg(s, BoxEnd(s, i, argc), argc) == None { NoBoxWithout(s, i); }
  }
}
