/** The two rewriters that cut commands with their balanced arguments (mathEngine.ts
    `stripLeakedRefs`, `rewriteScalebox`) and what they do to brace balance. */
module MathRewriters {
  import opened EvidenceModels
  import opened MathScanner
  import opened DelimGroups

  // ---------------------------------------------------------------- the two regular expressions

  predicate IsLower(c: char) { 'a' <= c <= 'z' }

  predicate IsName(c: char) { 'a' <= c <= 'z' || 'A' <= c <= 'Z' || c == '@' }

  predicate IsWord(c: char) { 'a' <= c <= 'z' || 'A' <= c <= 'Z' || '0' <= c <= '9' || c == '_' }

  /** `\b` */
  predicate Boundary(s: string, i: nat) {
    (0 < i <= |s| && IsWord(s[i - 1])) != (i < |s| && IsWord(s[i]))
  }

  predicate NameAt(s: string, i: nat, name: string) {
    i + |name| <= |s| && s[i..i + |name|] == name
  }

  function LowerRun(s: string, i: nat): (e: nat)
    requires i <= |s|
    ensures i <= e <= |s| && forall k | i <= k < e :: IsLower(s[k])
    decreases |s| - i
  {
    if i < |s| && IsLower(s[i]) then LowerRun(s, i + 1) else i
  }

  function NameRun(s: string, i: nat): (e: nat)
    requires i <= |s|
    ensures i <= e <= |s| && forall k | i <= k < e :: IsName(s[k])
    decreases |s| - i
  {
    if i < |s| && IsName(s[i]) then NameRun(s, i + 1) else i
  }

  /** Backtracks from the end of the run to a word boundary. */
  function LastBoundary(s: string, first: nat, e: nat): (r: Option<nat>)
    ensures r.Some? ==> first < r.value <= e
    decreases e
  {
    if e <= first then None
    else if Boundary(s, e) then Some(e)
    else LastBoundary(s, first, e - 1)
  }

  predicate FixedRef(s: string, i: nat, name: string) {
    NameAt(s, i, name) && Boundary(s, i + |name|)
  }

  /** End of a leaked reference whose backslash is at i. */
  function RefAt(s: string, i: nat): Option<nat> {
    if i >= |s| || s[i] != '\\' then None
    else if NameAt(s, i + 1, "cite") && Boundary(s, LowerRun(s, i + 5)) then Some(LowerRun(s, i + 5))
    else if FixedRef(s, i + 1, "ref") then Some(i + 4)
    else if FixedRef(s, i + 1, "eqref") then Some(i + 6)
    else if FixedRef(s, i + 1, "autoref") then Some(i + 8)
    else if FixedRef(s, i + 1, "label") then Some(i + 6)
    else if FixedRef(s, i + 1, "footnote") then Some(i + 9)
    else if NameAt(s, i + 1, "lx@") then LastBoundary(s, i + 4, NameRun(s, i + 4))
    else None
  }

  datatype Command = Command(start: nat, end: nat)

  function NextRef(s: string, from: nat): (r: Option<Command>)
    ensures r.Some? ==> from <= r.value.start && RefAt(s, r.value.start) == Some(r.value.end)
    ensures forall k | from <= k < (if r.Some? then r.value.start else |s|) :: RefAt(s, k) == None
    decreases |s| - from
  {
    if from >= |s| then None
    else match RefAt(s, from)
      case Some(e) => Some(Command(from, e))
      case None => NextRef(s, from + 1)
  }

  /** Number of arguments of a box command whose backslash is at i. */
  function BoxAt(s: string, i: nat): Option<nat> {
    if i >= |s| || s[i] != '\\' then None
    else if FixedRef(s, i + 1, "scalebox") then Some(2)
    else if FixedRef(s, i + 1, "resizebox") then Some(3)
    else None
  }

  /** Both names and the space after them belong to the match. */
  function BoxEnd(s: string, i: nat, argc: nat): nat {
    AfterSpace(s, NameEnd(i, argc))
  }

  function NextBox(s: string, from: nat): (r: Option<nat>)
    ensures r.Some? ==> from <= r.value && BoxAt(s, r.value).Some?
    decreases |s| - from
  {
    if from >= |s| then None
    else if BoxAt(s, from).Some? then Some(from)
    else NextBox(s, from + 1)
  }

  // ---------------------------------------------------------------- what is cut

  function AfterSpace(s: string, i: nat): (r: nat)
    ensures i <= r && (i <= |s| ==> r <= |s|)
    ensures forall k | i <= k < r :: k < |s| && IsWhitespace(s[k])
    decreases |s| - i
  {
    if i < |s| && IsWhitespace(s[i]) then AfterSpace(s, i + 1) else i
  }

  /** The group that opens with that character right there, if it closes. */
  function GroupOf(s: string, i: nat, open: char): (r: Option<Group>)
    ensures r.Some? ==> i < |s| && s[i] == open && i + 2 <= r.value.end <= |s| && GroupAt(s, i) == r
  {
    if i < |s| && s[i] == open then GroupAt(s, i) else None
  }

  /** All braced arguments from i on. */
  function ArgsEnd(s: string, i: nat): (r: nat)
    ensures i <= r && (i <= |s| ==> r <= |s|)
    decreases |s| - i
  {
    var j := AfterSpace(s, i);
    match GroupOf(s, j, '{')
    case Some(g) => ArgsEnd(s, g.end)
    case None => i
  }

  function OptionEnd(s: string, i: nat): (r: nat)
    ensures i <= r && (i <= |s| ==> r <= |s|)
  {
    match GroupOf(s, i, '[')
    case Some(g) => g.end
    case None => i
  }

  function CutEnd(s: string, e: nat): (r: nat)
    ensures e <= r && (e <= |s| ==> r <= |s|)
  {
    ArgsEnd(s, OptionEnd(s, AfterSpace(s, e)))
  }

  lemma LiteralNames()
    ensures |"cite"| == 4 && |"ref"| == 3 && |"eqref"| == 5 && |"autoref"| == 7 && |"label"| == 5 && |"footnote"| == 8
    ensures |"lx@"| == 3 && |"scalebox"| == 8 && |"resizebox"| == 9
    ensures AllName("cite") && AllName("ref") && AllName("eqref") && AllName("autoref") && AllName("label")
    ensures AllName("footnote") && AllName("lx@") && AllName("scalebox") && AllName("resizebox")
  {
  }

  predicate AllName(t: string) {
    forall k | 0 <= k < |t| :: IsName(t[k])
  }

  predicate NamesBetween(s: string, i: nat, e: nat) {
    e <= |s| && forall k | i <= k < e :: IsName(s[k])
  }

  lemma NamedChars(s: string, i: nat, name: string)
    requires AllName(name)
    ensures NameAt(s, i, name) ==> NamesBetween(s, i, i + |name|)
  {
    if NameAt(s, i, name) {
      forall k | i <= k < i + |name| ensures IsName(s[k]) {
        assert s[k] == s[i..i + |name|][k - i];
      }
    }
  }

  /** A match is a backslash and a non-empty run of name characters. */
  lemma RefShape(s: string, i: nat)
    requires RefAt(s, i).Some?
    ensures i + 2 <= RefAt(s, i).value <= |s| && s[i] == '\\' && NamesBetween(s, i + 1, RefAt(s, i).value)
  {
    LiteralNames();
    hide AllName, Boundary, NameAt, IsName;
    NamedChars(s, i + 1, "cite");
    NamedChars(s, i + 1, "ref");
    NamedChars(s, i + 1, "eqref");
    NamedChars(s, i + 1, "autoref");
    NamedChars(s, i + 1, "label");
    NamedChars(s, i + 1, "footnote");
    NamedChars(s, i + 1, "lx@");
    if NameAt(s, i + 1, "cite") { LowerIsName(s, i + 5); }
  }

  lemma LowerIsName(s: string, i: nat)
    requires i <= |s|
    ensures NamesBetween(s, i, LowerRun(s, i))
  {
  }

  function NameEnd(i: nat, argc: nat): nat { if argc == 2 then i + 9 else i + 10 }

  lemma BoxShape(s: string, i: nat)
    requires BoxAt(s, i).Some?
    ensures var argc := BoxAt(s, i).value;
      && (argc == 2 || argc == 3) && s[i] == '\\'
      && NameEnd(i, argc) <= BoxEnd(s, i, argc) <= |s| && NamesBetween(s, i + 1, NameEnd(i, argc))
  {
    LiteralNames();
    hide AllName, Boundary, IsWhitespace, NameAt, IsName;
    NamedChars(s, i + 1, "scalebox");
    NamedChars(s, i + 1, "resizebox");
  }

  /** What `stripLeakedRefs` leaves from a position on. */
  function Stripped(s: string, from: nat): string
    requires from <= |s|
    decreases |s| - from
  {
    match NextRef(s, from)
    case None => s[from..]
    case Some(m) =>
      RefShape(s, m.start);
      s[from..m.start] + Stripped(s, CutEnd(s, m.end))
  }

  datatype Arg = Arg(start: nat, group: Group)

  /** The last of n braced arguments from i on. */
  function LastArg(s: string, i: nat, n: nat): (r: Option<Arg>)
    ensures r.Some? ==>
      && i <= r.value.start && r.value.start + 2 <= r.value.group.end <= |s|
      && s[r.value.start] == '{' && GroupAt(s, r.value.start) == Some(r.value.group)
    decreases n
  {
    if n == 0 then None
    else
      var j := AfterSpace(s, i);
      match GroupOf(s, j, '{')
      case None => None
      case Some(g) => if n == 1 then Some(Arg(j, g)) else LastArg(s, g.end, n - 1)
  }

  function Unwrapped(a: Arg): string { "{" + a.group.inner + "}" }

  /** What `rewriteScalebox` makes of the rest: `last` is copied up to, `from` searched from. */
  function Rewritten(s: string, last: nat, from: nat): string
    requires last <= from <= |s|
    decreases |s| - from
  {
    match NextBox(s, from)
    case None => s[last..]
    case Some(i) =>
      BoxShape(s, i);
      var argc := BoxAt(s, i).value;
      match LastArg(s, BoxEnd(s, i, argc), argc)
      case None => Rewritten(s, last, BoxEnd(s, i, argc))
      case Some(a) =>
        s[last..i] + Unwrapped(a) + Rewritten(s, a.group.end, a.group.end)
  }

  // ---------------------------------------------------------------- the loops

  method SkipSpace(s: string, start: nat) returns (i: nat)
    requires start <= |s|
    ensures i == AfterSpace(s, start)
  {
    i := start;
    while i < |s| && IsWhitespace(s[i])
      invariant start <= i <= |s| && AfterSpace(s, start) == AfterSpace(s, i)
    {
      i := i + 1;
    }
  }

  method StripLeakedRefs(latex: string) returns (out: string)
    ensures out == Stripped(latex, 0)
  {
    hide NextRef, RefAt, CutEnd;
    out := "";
    var last := 0;
    var m := NextRef(latex, 0);
    while m.Some?
      invariant 0 <= last <= |latex| && m == NextRef(latex, last)
      invariant Stripped(latex, 0) == out + Stripped(latex, last)
      decreases |latex| - last
    {
      RefShape(latex, m.value.start);
      var piece := latex[last..m.value.start];
      last := SkipArgs(latex, m.value.end);
      ghost var rest := Stripped(latex, last);
      assert Stripped(latex, 0) == out + (piece + rest);
      out := out + piece;
      m := NextRef(latex, last);
    }
    out := out + latex[last..];
  }

  /** Skips the optional argument and all braced ones. */
  method SkipArgs(latex: string, start: nat) returns (i: nat)
    requires start <= |latex|
    ensures i == CutEnd(latex, start)
  {
    hide GroupAt, AfterSpace;
    i := SkipSpace(latex, start);
    if i < |latex| && latex[i] == '[' {
      var g := ReadDelimGroup(latex, i);
      if g.Some? {
        i := g.value.end;
      }
    }
    while true
      invariant 0 <= i <= |latex| && ArgsEnd(latex, i) == CutEnd(latex, start)
      decreases |latex| - i
    {
      var j := SkipSpace(latex, i);
      if !(j < |latex| && latex[j] == '{') {
        break;
      }
      var g := ReadDelimGroup(latex, j);
      if g.None? {
        break;
      }
      i := g.value.end;
    }
  }

  method RewriteScalebox(s: string) returns (out: string)
    ensures out == Rewritten(s, 0, 0)
  {
    hide NextBox, GroupAt, BoxAt, AfterSpace, LastArg;
    out := "";
    var last, lastIndex := 0, 0;
    var m := NextBox(s, 0);
    while m.Some?
      invariant 0 <= last <= lastIndex <= |s| && m == NextBox(s, lastIndex)
      invariant Rewritten(s, 0, 0) == out + Rewritten(s, last, lastIndex)
      decreases |s| - lastIndex
    {
      BoxShape(s, m.value);
      var argc := BoxAt(s, m.value).value;
      var i := BoxEnd(s, m.value, argc);
      var a := ReadArgs(s, i, argc);
      if a.Some? {
        var piece := s[last..m.value] + Unwrapped(a.value);
        out := out + piece;
        last, lastIndex := a.value.group.end, a.value.group.end;
      } else {
        lastIndex := i;
      }
      m := NextBox(s, lastIndex);
    }
    out := out + s[last..];
  }

  /** Reads the braced arguments and keeps the last, or nothing when one is missing. */
  method ReadArgs(s: string, start: nat, argc: nat) returns (r: Option<Arg>)
    requires start <= |s|
    ensures r == LastArg(s, start, argc)
  {
    hide GroupAt, AfterSpace;
    var i, k := start, 0;
    r := None;
    while k < argc
      invariant 0 <= k <= argc && 0 <= i <= |s|
      invariant if k < argc then LastArg(s, start, argc) == LastArg(s, i, argc - k) else r == LastArg(s, start, argc)
    {
      i := SkipSpace(s, i);
      if !(i < |s| && s[i] == '{') {
        return None;
      }
      var g := ReadDelimGroup(s, i);
      if g.None? {
        return None;
      }
      r := Some(Arg(i, g.value));
      i := g.value.end;
      k := k + 1;
    }
  }

  // ---------------------------------------------------------------- what keeps balance

  predicate IsSpecial(c: char) { c == '\\' || c == '{' || c == '}' }

  /** Reading the one or the other text so far, TeX is equally deep and in the same mode, and the
      rewritten text has gone negative only if the original has. */
  predicate Alike(p: Reading, q: Reading) {
    p.depth == q.depth && p.escaped == q.escaped && (q.under ==> p.under)
  }

  lemma {:induction false} AlikeAfter(p: Reading, q: Reading, t: string)
    requires Alike(p, q)
    ensures Alike(After(p, t), After(q, t))
  {
    if t != "" {
      AlikeAfter(p, q, t[..|t| - 1]);
    }
  }

  /** Where the rewritten text is still escaped by a backslash whose partner was cut. */
  predicate Lagging(p: Reading, q: Reading) {
    p.depth == q.depth && !p.escaped && q.escaped && (q.under ==> p.under)
  }

  /** An ordinary character ends the lag. */
  lemma PieceCatchesUp(p: Reading, q: Reading, t: string)
    requires Alike(p, q) || (Lagging(p, q) && t != "" && !IsSpecial(t[0]))
    ensures Alike(After(p, t), After(q, t))
  {
    if Alike(p, q) {
      AlikeAfter(p, q, t);
    } else {
      HeadFirst(p, t);
      HeadFirst(q, t);
      AlikeAfter(Read(p, t[0]), Read(q, t[0]), t[1..]);
    }
  }

  lemma HeadFirst(r: Reading, t: string)
    requires t != ""
    ensures After(r, t) == After(Read(r, t[0]), t[1..])
  {
    assert t == [t[0]] + t[1..];
    AfterConcat(r, [t[0]], t[1..]);
    assert [t[0]][..0] == "";
  }

  /** Text that leaves TeX where it was. */
  predicate Neutral(t: string) {
    var r := After(START, t);
    r.depth == 0 && !r.escaped
  }

  lemma NeutralKeeps(r: Reading, t: string)
    requires Neutral(t) && !r.escaped
    ensures var after := After(r, t); after.depth == r.depth && !after.escaped && (r.under ==> after.under)
  {
    AfterShifts(r, t);
  }

  lemma NeutralPieces(s: string, i: nat, j: nat, k: nat)
    requires i <= j <= k <= |s| && Neutral(s[i..j]) && Neutral(s[j..k])
    ensures Neutral(s[i..k])
  {
    AfterPieces(START, s, i, j, k);
    NeutralKeeps(After(START, s[i..j]), s[j..k]);
  }

  predicate PlainBetween(s: string, i: nat, e: nat) {
    e <= |s| && forall k | i <= k < e :: !IsSpecial(s[k])
  }

  lemma {:induction false} PlainKeeps(r: Reading, s: string, i: nat, e: nat)
    requires i <= e && PlainBetween(s, i, e) && !r.escaped
    ensures After(r, s[i..e]) == r
    decreases e
  {
    if i < e {
      PlainKeeps(r, s, i, e - 1);
      AfterNext(r, s, i, e - 1);
    } else {
      assert s[i..e] == "";
    }
  }

  lemma PlainIsNeutral(s: string, i: nat, e: nat)
    requires i <= e && PlainBetween(s, i, e)
    ensures Neutral(s[i..e])
  {
    PlainKeeps(START, s, i, e);
  }

  lemma SpaceIsNeutral(s: string, i: nat)
    requires i <= |s|
    ensures Neutral(s[i..AfterSpace(s, i)])
  {
    hide AfterSpace;
    PlainIsNeutral(s, i, AfterSpace(s, i));
  }

  lemma GroupIsNeutral(s: string, i: nat)
    requires i < |s| && GroupAt(s, i).Some? && (s[i] == '{' || s[i] == '[')
    ensures Neutral(s[i..GroupAt(s, i).value.end])
  {
    hide GroupAt;
    var e := GroupAt(s, i).value.end;
    if s[i] == '{' {
      BraceGroupIsShortest(s, i);
    } else {
      BracketIsNeutral(s, i, e);
    }
  }

  lemma BracketIsNeutral(s: string, i: nat, e: nat)
    requires i < |s| && s[i] == '[' && Closes(s, i, e)
    ensures Neutral(s[i..e])
  {
    var n := Nesting(s[i..e - 1], '[', ']');
    OneIsOpen(s, i);
    assert StillOpen(s, i, e - 1);
    Advance(s, i, e - 1, n);
    PairsAreDepth(s[i..e], '[', ']');
  }

  lemma {:induction false} ArgsAreNeutral(s: string, i: nat)
    requires i <= |s|
    ensures Neutral(s[i..ArgsEnd(s, i)])
    decreases |s| - i
  {
    hide GroupAt, AfterSpace, Neutral;
    var j := AfterSpace(s, i);
    match GroupOf(s, j, '{')
    case Some(g) =>
      SpaceIsNeutral(s, i);
      GroupIsNeutral(s, j);
      NeutralPieces(s, i, j, g.end);
      ArgsAreNeutral(s, g.end);
      NeutralPieces(s, i, g.end, ArgsEnd(s, i));
    case None =>
      PlainIsNeutral(s, i, i);
  }

  /** Everything cut after the command's name is neutral. */
  lemma CutIsNeutral(s: string, e: nat)
    requires e <= |s|
    ensures Neutral(s[e..CutEnd(s, e)])
  {
    hide GroupAt, AfterSpace, Neutral, ArgsEnd;
    var i := AfterSpace(s, e);
    var j := OptionEnd(s, i);
    SpaceIsNeutral(s, e);
    if i == j { PlainIsNeutral(s, i, i); } else { GroupIsNeutral(s, i); }
    NeutralPieces(s, e, i, j);
    ArgsAreNeutral(s, j);
    NeutralPieces(s, e, j, CutEnd(s, e));
  }

  /** A command read from its backslash: whole if that is not escaped, its tail if it is. */
  lemma CommandKeeps(p: Reading, s: string, i: nat, n: nat, e: nat)
    requires i + 2 <= n <= e <= |s| && s[i] == '\\' && NamesBetween(s, i + 1, n) && Neutral(s[n..e])
    ensures var r := After(p, s[i..e]); r.depth == p.depth && !r.escaped && (p.under ==> r.under)
  {
    HeadFirst(p, s[i..e]);
    assert s[i..e][1..] == s[i + 1..e];
    if p.escaped {
      PlainIsNeutral(s, i + 1, n);
      NeutralPieces(s, i + 1, n, e);
      NeutralKeeps(Read(p, s[i]), s[i + 1..e]);
    } else {
      HeadFirst(Read(p, s[i]), s[i + 1..e]);
      assert s[i + 1..e][1..] == s[i + 2..e];
      PlainIsNeutral(s, i + 2, n);
      NeutralPieces(s, i + 2, n, e);
      NeutralKeeps(p, s[i + 2..e]);
    }
  }

  // ---------------------------------------------------------------- stripping references

  predicate Escaped(s: string, i: nat)
    requires i <= |s|
  {
    After(START, s[..i]).escaped
  }

  /** Safe to cut: the backslash is not itself escaped, or what follows the cut is ordinary. */
  predicate CleanCut(s: string, m: Command, e: nat)
    requires m.start <= |s|
  {
    !Escaped(s, m.start) || (e < |s| && !IsSpecial(s[e]))
  }

  predicate CleanCuts(s: string, from: nat)
    requires from <= |s|
    decreases |s| - from
  {
    match NextRef(s, from)
    case None => true
    case Some(m) =>
      RefShape(s, m.start);
      CleanCut(s, m, CutEnd(s, m.end)) && CleanCuts(s, CutEnd(s, m.end))
  }

  lemma {:induction false} StrippedAlike(s: string, from: nat, q: Reading)
    requires from <= |s| && CleanCuts(s, from)
    requires var p := After(START, s[..from]);
      Alike(p, q) || (Lagging(p, q) && from < |s| && !IsSpecial(s[from]))
    ensures Alike(After(START, s), After(q, Stripped(s, from)))
    decreases |s| - from
  {
    hide After, NextRef, RefAt, CutEnd, IsName, IsSpecial;
    var p := After(START, s[..from]);
    match NextRef(s, from)
    case None =>
      assert s[..from] == s[0..from] && s[from..|s|] == s[from..] && s[0..|s|] == s;
      AfterPieces(START, s, 0, from, |s|);
      PieceCatchesUp(p, q, s[from..]);
    case Some(m) =>
      RefShape(s, m.start);
      BackslashIsSpecial();
      var e := CutEnd(s, m.end);
      var t := s[from..m.start];
      PieceCatchesUp(p, q, t);
      var q' := After(q, t);
      CutAlike(s, from, m, e);
      AfterConcat(q, t, Stripped(s, e));
      StrippedAlike(s, e, q');
  }

  lemma BackslashIsSpecial()
    ensures IsSpecial('\\')
  {
  }

  /** Reading the original over a cut. */
  lemma CutAlike(s: string, from: nat, m: Command, e: nat)
    requires from <= m.start && RefAt(s, m.start) == Some(m.end) && m.end <= e == CutEnd(s, m.end) <= |s|
    requires m.start + 2 <= m.end && s[m.start] == '\\' && NamesBetween(s, m.start + 1, m.end)
    ensures var p' := After(After(START, s[..from]), s[from..m.start]);
      && p' == After(START, s[..m.start])
      && After(START, s[..e]).depth == p'.depth && !After(START, s[..e]).escaped
      && (p'.under ==> After(START, s[..e]).under)
  {
    hide After, CutEnd, RefAt;
    assert s[..from] == s[0..from] && s[..m.start] == s[0..m.start] && s[..e] == s[0..e];
    AfterPieces(START, s, 0, from, m.start);
    AfterPieces(START, s, 0, m.start, e);
    CutIsNeutral(s, m.end);
    CommandKeeps(After(START, s[..m.start]), s, m.start, m.end, e);
  }

  /** Stripping keeps a formula's final depth, and never makes a prefix negative, when every command
      stands at a token boundary (or is followed by an ordinary character). */
  lemma StripKeepsBalance(s: string)
    requires CleanCuts(s, 0)
    ensures Alike(After(START, s), After(START, Stripped(s, 0)))
    ensures Balanced(s) ==> Balanced(Stripped(s, 0))
  {
    assert s[..0] == "";
    StrippedAlike(s, 0, START);
  }

  // ---------------------------------------------------------------- exactly what a lost escape costs

  function Weight(c: char): int {
    if c == '{' then 1 else if c == '}' then -1 else 0
  }

  predicate OnlyBackslashes(t: string) {
    forall i | 0 <= i < |t| :: t[i] == '\\'
  }

  /** Two readings that disagree on whether the next character is escaped go on disagreeing through
      backslashes; the first other character settles it, and if it is a brace one of them counts it. */
  function Slip(t: string, escaped: bool): int {
    if t == "" then 0
    else if t[0] == '\\' then Slip(t[1..], !escaped)
    else if escaped then Weight(t[0]) else -Weight(t[0])
  }

  function SlipIf(lag: bool, t: string): int {
    if lag then Slip(t, false) else 0
  }

  lemma {:induction false} SlipIsTheDifference(p: Reading, q: Reading, t: string)
    requires p.escaped != q.escaped
    ensures After(q, t).depth - After(p, t).depth == q.depth - p.depth + Slip(t, p.escaped)
    ensures After(p, t).escaped != After(q, t).escaped <==> OnlyBackslashes(t)
    decreases t
  {
    if t != "" {
      HeadFirst(p, t);
      HeadFirst(q, t);
      if t[0] == '\\' {
        SlipIsTheDifference(Read(p, t[0]), Read(q, t[0]), t[1..]);
        assert OnlyBackslashes(t) <==> OnlyBackslashes(t[1..]) by {
          assert forall i | 0 < i < |t| :: t[i] == t[1..][i - 1];
        }
      } else {
        AfterShifts(Read(p, t[0]), t[1..]);
        AfterShifts(Read(q, t[0]), t[1..]);
      }
    }
  }

  /** One kept piece, read where the original is not escaped. */
  lemma PieceSlips(p: Reading, q: Reading, t: string)
    requires !p.escaped
    ensures After(q, t).depth - After(p, t).depth == q.depth - p.depth + SlipIf(q.escaped, t)
    ensures After(p, t).escaped != After(q, t).escaped <==> q.escaped && OnlyBackslashes(t)
  {
    if q.escaped {
      SlipIsTheDifference(p, q, t);
    } else {
      AfterShifts(p, t);
      AfterShifts(q, t);
    }
  }

  /** Whether the stripped text is escaped behind a cut although the original is not. */
  function LagBehind(s: string, from: nat, lag: bool, m: Command): bool
    requires from <= m.start <= |s|
  {
    (lag && OnlyBackslashes(s[from..m.start])) != Escaped(s, m.start)
  }

  /** What all escapes lost from a position on add up to. */
  function Drift(s: string, from: nat, lag: bool): int
    requires from <= |s|
    decreases |s| - from
  {
    match NextRef(s, from)
    case None => SlipIf(lag, s[from..])
    case Some(m) =>
      RefShape(s, m.start);
      SlipIf(lag, s[from..m.start]) + Drift(s, CutEnd(s, m.end), LagBehind(s, from, lag, m))
  }

  /** Every prefix of the piece that ends at `to` is at a depth that is not negative, once the drift
      so far is added. */
  ghost predicate PieceStaysUp(s: string, from: nat, to: nat, lag: bool, drift: int)
    requires from <= to <= |s|
  {
    forall k | from <= k <= to :: DepthAt(s, k) + drift + SlipIf(lag, s[from..k]) >= 0
  }

  function DepthAt(s: string, k: nat): int
    requires k <= |s|
  {
    After(START, s[..k]).depth
  }

  /** No kept brace falls below depth zero. */
  ghost predicate StaysUp(s: string, from: nat, lag: bool, drift: int)
    requires from <= |s|
    decreases |s| - from
  {
    match NextRef(s, from)
    case None => PieceStaysUp(s, from, |s|, lag, drift)
    case Some(m) =>
      RefShape(s, m.start);
      && PieceStaysUp(s, from, m.start, lag, drift)
      && StaysUp(s, CutEnd(s, m.end), LagBehind(s, from, lag, m), drift + SlipIf(lag, s[from..m.start]))
  }

  /** Some prefix is at a negative depth. */
  ghost predicate Dips(r: Reading, t: string) {
    exists k | 0 <= k <= |t| :: DipsAt(r, t, k)
  }

  predicate DipsAt(r: Reading, t: string, k: nat)
    requires k <= |t|
  {
    After(r, t[..k]).depth < 0
  }

  lemma DipsSnoc(r: Reading, t: string)
    requires t != ""
    ensures Dips(r, t) <==> Dips(r, t[..|t| - 1]) || After(r, t).depth < 0
  {
    hide After;
    var n := |t| - 1;
    assert t[..|t|] == t && (DipsAt(r, t, |t|) <==> After(r, t).depth < 0);
    forall k | 0 <= k <= n ensures DipsAt(r, t[..n], k) == DipsAt(r, t, k) {
      assert t[..n][..k] == t[..k];
    }
  }

  lemma DipsEmpty(r: Reading)
    ensures Dips(r, "") <==> r.depth < 0
  {
    assert ""[..0] == "";
    assert DipsAt(r, "", 0) <==> r.depth < 0;
  }

  /** Going negative is what the flag records. */
  lemma {:induction false} UnderIsNegative(r: Reading, t: string)
    requires r.depth >= 0 || r.under
    ensures After(r, t).under <==> r.under || Dips(r, t)
    ensures After(r, t).depth >= 0 || After(r, t).under
  {
    hide Dips;
    if t == "" {
      DipsEmpty(r);
    } else {
      UnderIsNegative(r, t[..|t| - 1]);
      DipsSnoc(r, t);
    }
  }

  /** Reading one kept piece: the flag rises exactly when a prefix falls below zero. */
  lemma PieceUnder(s: string, from: nat, to: nat, q: Reading, drift: int)
    requires from <= to <= |s| && !Escaped(s, from)
    requires q.depth == DepthAt(s, from) + drift && (q.depth >= 0 || q.under)
    ensures After(q, s[from..to]).depth == DepthAt(s, to) + drift + SlipIf(q.escaped, s[from..to])
    ensures After(q, s[from..to]).escaped == ((q.escaped && OnlyBackslashes(s[from..to])) != Escaped(s, to))
    ensures After(q, s[from..to]).under <==> q.under || !PieceStaysUp(s, from, to, q.escaped, drift)
    ensures After(q, s[from..to]).depth >= 0 || After(q, s[from..to]).under
  {
    hide After, SlipIf;
    var t := s[from..to];
    forall k | from <= k <= to
      ensures After(q, t[..k - from]).depth == DepthAt(s, k) + drift + SlipIf(q.escaped, s[from..k])
      ensures After(q, t[..k - from]).escaped == ((q.escaped && OnlyBackslashes(s[from..k])) != Escaped(s, k))
    {
      assert t[..k - from] == s[from..k];
      assert s[0..from] == s[..from] && s[0..k] == s[..k];
      AfterPieces(START, s, 0, from, k);
      PieceSlips(After(START, s[..from]), q, s[from..k]);
    }
    assert t[..to - from] == t;
    UnderIsNegative(q, t);
    if !PieceStaysUp(s, from, to, q.escaped, drift) {
      var k :| from <= k <= to && DepthAt(s, k) + drift + SlipIf(q.escaped, s[from..k]) < 0;
      assert DipsAt(q, t, k - from);
    }
    if k :| 0 <= k <= |t| && DipsAt(q, t, k) {
      assert t[..from + k - from] == t[..k];
      assert DepthAt(s, from + k) + drift + SlipIf(q.escaped, s[from..from + k]) < 0;
    }
  }

  /** The stripped text against the original, from any place a cut may end. */
  lemma {:induction false} StrippedReads(s: string, from: nat, q: Reading, drift: int)
    requires from <= |s| && !Escaped(s, from)
    requires q.depth == DepthAt(s, from) + drift && (q.depth >= 0 || q.under)
    ensures After(q, Stripped(s, from)).depth == DepthAt(s, |s|) + drift + Drift(s, from, q.escaped)
    ensures After(q, Stripped(s, from)).under <==> q.under || !StaysUp(s, from, q.escaped, drift)
    decreases |s| - from
  {
    hide After, NextRef, RefAt, CutEnd, SlipIf, OnlyBackslashes, DepthAt, PieceStaysUp;
    match NextRef(s, from)
    case None =>
      assert s[from..|s|] == s[from..];
      PieceUnder(s, from, |s|, q, drift);
    case Some(m) =>
      RefShape(s, m.start);
      var e := CutEnd(s, m.end);
      var t := s[from..m.start];
      PieceUnder(s, from, m.start, q, drift);
      CutDepth(s, from, m, e);
      AfterConcat(q, t, Stripped(s, e));
      StrippedReads(s, e, After(q, t), drift + SlipIf(q.escaped, t));
  }

  lemma CutDepth(s: string, from: nat, m: Command, e: nat)
    requires from <= m.start && RefAt(s, m.start) == Some(m.end) && m.end <= e == CutEnd(s, m.end) <= |s|
    requires m.start + 2 <= m.end && s[m.start] == '\\' && NamesBetween(s, m.start + 1, m.end)
    ensures DepthAt(s, e) == DepthAt(s, m.start) && !Escaped(s, e)
  {
    hide After, CutEnd, RefAt;
    CutAlike(s, from, m, e);
  }

  /** For every text: the final depth changes by exactly what the lost escapes add up to, and the
      result is balanced exactly when that closes the original's depth with no kept brace below zero. */
  lemma StripDepthAndBalance(s: string)
    ensures After(START, Stripped(s, 0)).depth == After(START, s).depth + Drift(s, 0, false)
    ensures Balanced(Stripped(s, 0)) <==>
      After(START, s).depth + Drift(s, 0, false) == 0 && StaysUp(s, 0, false, 0)
  {
    hide Drift, StaysUp, Stripped;
    assert s[..0] == "" && s[..|s|] == s;
    assert After(START, "") == START;
    StrippedReads(s, 0, START, 0);
  }

  /** A cut takes the leftmost match with all its arguments: no further braced group follows it. */
  lemma {:induction false} ArgsAreAllTaken(s: string, i: nat)
    requires i <= |s|
    ensures GroupOf(s, AfterSpace(s, ArgsEnd(s, i)), '{') == None
    decreases |s| - i
  {
    hide GroupAt, AfterSpace;
    match GroupOf(s, AfterSpace(s, i), '{')
    case Some(g) => ArgsAreAllTaken(s, g.end);
    case None =>
  }

  lemma {:induction false} StrippedIsShorter(s: string, from: nat)
    requires from <= |s|
    ensures |Stripped(s, from)| <= |s| - from
    ensures NextRef(s, from).Some? ==> |Stripped(s, from)| < |s| - from
    decreases |s| - from
  {
    hide NextRef, RefAt, CutEnd;
    match NextRef(s, from)
    case None =>
    case Some(m) =>
      RefShape(s, m.start);
      StrippedIsShorter(s, CutEnd(s, m.end));
  }

  lemma NothingStripped(s: string)
    requires NextRef(s, 0) == None
    ensures Stripped(s, 0) == s
  {
    hide NextRef;
    assert s[0..] == s;
  }

  /** A formula is left as it is exactly when no reference matches anywhere in it. */
  lemma UntouchedIffNoReference(s: string)
    ensures Stripped(s, 0) == s <==> forall k | 0 <= k < |s| :: RefAt(s, k) == None
  {
    hide RefAt, Stripped;
    StrippedIsShorter(s, 0);
    match NextRef(s, 0)
    case None => NothingStripped(s);
    case Some(m) => RefShape(s, m.start);
  }

  // ---------------------------------------------------------------- unwrapping boxes

  /** Every box that is unwrapped has an unescaped backslash. */
  predicate CleanBoxes(s: string, from: nat)
    requires from <= |s|
    decreases |s| - from
  {
    match NextBox(s, from)
    case None => true
    case Some(i) =>
      BoxShape(s, i);
      var argc := BoxAt(s, i).value;
      match LastArg(s, BoxEnd(s, i, argc), argc)
      case None => CleanBoxes(s, BoxEnd(s, i, argc))
      case Some(a) => !Escaped(s, i) && CleanBoxes(s, a.group.end)
  }

  lemma {:induction false} ArgsBeforeAreNeutral(s: string, i: nat, n: nat)
    requires i <= |s| && LastArg(s, i, n).Some?
    ensures Neutral(s[i..LastArg(s, i, n).value.start])
    decreases n
  {
    hide GroupAt, AfterSpace, Neutral;
    var j := AfterSpace(s, i);
    var g := GroupOf(s, j, '{').value;
    SpaceIsNeutral(s, i);
    if n > 1 {
      GroupIsNeutral(s, j);
      NeutralPieces(s, i, j, g.end);
      ArgsBeforeAreNeutral(s, g.end, n - 1);
      NeutralPieces(s, i, g.end, LastArg(s, i, n).value.start);
    }
  }

  lemma BoxPiece(s: string, i: nat, a: Arg)
    requires BoxAt(s, i).Some? && BoxEnd(s, i, BoxAt(s, i).value) <= |s|
    requires LastArg(s, BoxEnd(s, i, BoxAt(s, i).value), BoxAt(s, i).value) == Some(a)
    ensures i <= a.start <= a.group.end <= |s| && s[a.start..a.group.end] == Unwrapped(a)
    ensures var p, r := After(START, s[..i]), After(START, s[..a.start]);
      r.depth == p.depth && !r.escaped && (p.under ==> r.under)
  {
    hide GroupAt, AfterSpace, Neutral, LastArg, After, BoxAt;
    var argc := BoxAt(s, i).value;
    var e := BoxEnd(s, i, argc);
    BoxShape(s, i);
    BraceGroupIsShortest(s, a.start);
    SpaceIsNeutral(s, NameEnd(i, argc));
    ArgsBeforeAreNeutral(s, e, argc);
    NeutralPieces(s, NameEnd(i, argc), e, a.start);
    CommandKeeps(After(START, s[..i]), s, i, NameEnd(i, argc), a.start);
    assert s[..i] == s[0..i] && s[..a.start] == s[0..a.start];
    AfterPieces(START, s, 0, i, a.start);
  }

  /** Reading over one unwrapped box. */
  lemma BoxAlike(s: string, last: nat, i: nat, a: Arg, q: Reading)
    requires last <= i && BoxAt(s, i).Some? && BoxEnd(s, i, BoxAt(s, i).value) <= |s|
    requires LastArg(s, BoxEnd(s, i, BoxAt(s, i).value), BoxAt(s, i).value) == Some(a)
    requires i <= |s| && !Escaped(s, i) && Alike(After(START, s[..last]), q)
    ensures i <= a.start <= a.group.end <= |s|
    ensures Alike(After(START, s[..a.group.end]), After(q, s[last..i] + Unwrapped(a)))
  {
    hide After, BoxAt, LastArg, BoxEnd;
    BoxPiece(s, i, a);
    var t, group := s[last..i], s[a.start..a.group.end];
    AlikeAfter(After(START, s[..last]), q, t);
    assert s[..last] == s[0..last] && s[..i] == s[0..i];
    AfterPieces(START, s, 0, last, i);
    assert s[..a.start] == s[0..a.start] && s[..a.group.end] == s[0..a.group.end];
    AlikeAfter(After(START, s[..a.start]), After(q, t), group);
    AfterPieces(START, s, 0, a.start, a.group.end);
    AfterConcat(q, t, group);
  }

  lemma {:induction false} RewrittenAlike(s: string, last: nat, from: nat, q: Reading)
    requires last <= from <= |s| && CleanBoxes(s, from)
    requires Alike(After(START, s[..last]), q)
    ensures Alike(After(START, s), After(q, Rewritten(s, last, from)))
    decreases |s| - from
  {
    hide After, NextBox, BoxAt, LastArg, BoxEnd, Alike;
    match NextBox(s, from)
    case None =>
      assert s == s[..last] + s[last..];
      AfterConcat(START, s[..last], s[last..]);
      AlikeAfter(After(START, s[..last]), q, s[last..]);
    case Some(i) =>
      BoxShape(s, i);
      var argc := BoxAt(s, i).value;
      match LastArg(s, BoxEnd(s, i, argc), argc) {
        case None =>
          RewrittenAlike(s, last, BoxEnd(s, i, argc), q);
        case Some(a) =>
          BoxAlike(s, last, i, a, q);
          var piece, rest := s[last..i] + Unwrapped(a), Rewritten(s, a.group.end, a.group.end);
          RewrittenAlike(s, a.group.end, a.group.end, After(q, piece));
          AfterConcat(q, piece, rest);
      }
  }

  /** Unwrapping boxes keeps a formula's final depth and makes no prefix negative when no unwrapped
      command's backslash is escaped. */
  lemma UnwrapKeepsBalance(s: string)
    requires CleanBoxes(s, 0)
    ensures Alike(After(START, s), After(START, Rewritten(s, 0, 0)))
    ensures Balanced(s) ==> Balanced(Rewritten(s, 0, 0))
  {
    assert s[..0] == "";
    RewrittenAlike(s, 0, 0, START);
  }

  /** How many unwrapped boxes have an escaped backslash. */
  function EscapedBoxes(s: string, from: nat): nat
    requires from <= |s|
    decreases |s| - from
  {
    match NextBox(s, from)
    case None => 0
    case Some(i) =>
      BoxShape(s, i);
      var argc := BoxAt(s, i).value;
      match LastArg(s, BoxEnd(s, i, argc), argc)
      case None => EscapedBoxes(s, BoxEnd(s, i, argc))
      case Some(a) => (if Escaped(s, i) then 1 else 0) + EscapedBoxes(s, a.group.end)
  }

  lemma {:induction false} CleanMeansNoneEscaped(s: string, from: nat)
    requires from <= |s|
    ensures CleanBoxes(s, from) <==> EscapedBoxes(s, from) == 0
    decreases |s| - from
  {
    hide NextBox, BoxAt, LastArg, BoxEnd, Escaped;
    match NextBox(s, from)
    case None =>
    case Some(i) =>
      BoxShape(s, i);
      var argc := BoxAt(s, i).value;
      match LastArg(s, BoxEnd(s, i, argc), argc)
      case None => CleanMeansNoneEscaped(s, BoxEnd(s, i, argc));
      case Some(a) => CleanMeansNoneEscaped(s, a.group.end);
  }

  /** Reading over one unwrapped box costs a level exactly when its backslash is escaped. */
  lemma BoxCosts(s: string, last: nat, i: nat, a: Arg, q: Reading)
    requires last <= i && BoxAt(s, i).Some? && BoxEnd(s, i, BoxAt(s, i).value) <= |s|
    requires LastArg(s, BoxEnd(s, i, BoxAt(s, i).value), BoxAt(s, i).value) == Some(a)
    requires i <= |s| && q.escaped == Escaped(s, last)
    ensures i <= a.start <= a.group.end <= |s| && !Escaped(s, a.group.end)
    ensures var r := After(q, s[last..i] + Unwrapped(a));
      && r.depth - q.depth == DepthAt(s, a.group.end) - DepthAt(s, last) - (if Escaped(s, i) then 1 else 0)
      && !r.escaped
  {
    hide After, BoxAt, LastArg, BoxEnd, GroupAt, Unwrapped, Balanced;
    BoxPiece(s, i, a);
    BraceGroupIsShortest(s, a.start);
    var t, group := s[last..i], s[a.start..a.group.end];
    assert s[..last] == s[0..last] && s[..i] == s[0..i];
    AfterPieces(START, s, 0, last, i);
    AfterShifts(After(START, s[..last]), t);
    AfterShifts(q, t);
    assert s[..a.start] == s[0..a.start] && s[..a.group.end] == s[0..a.group.end];
    AfterPieces(START, s, 0, a.start, a.group.end);
    AfterConcat(q, t, group);
    GroupCosts(After(START, s[..a.start]), group);
    GroupCosts(After(q, t), group);
  }

  /** No kept brace falls below depth zero: what is copied up to a box, the group it is unwrapped to
      (whose opening brace is lost to an escaped backslash), and the rest. */
  ghost predicate BoxesStayUp(s: string, last: nat, from: nat, drift: int)
    requires last <= from <= |s|
    decreases |s| - from
  {
    match NextBox(s, from)
    case None => PieceStaysUp(s, last, |s|, false, drift)
    case Some(i) =>
      BoxShape(s, i);
      var argc := BoxAt(s, i).value;
      match LastArg(s, BoxEnd(s, i, argc), argc)
      case None => BoxesStayUp(s, last, BoxEnd(s, i, argc), drift)
      case Some(a) =>
        && PieceStaysUp(s, last, i, false, drift)
        && PieceStaysUp(s, a.start, a.group.end, Escaped(s, i), drift)
        && BoxesStayUp(s, a.group.end, a.group.end, drift - if Escaped(s, i) then 1 else 0)
  }

  /** Reading over one unwrapped box. */
  lemma BoxUnder(s: string, last: nat, i: nat, a: Arg, q: Reading, drift: int)
    requires last <= i <= |s| && BoxAt(s, i).Some? && BoxEnd(s, i, BoxAt(s, i).value) <= |s|
    requires LastArg(s, BoxEnd(s, i, BoxAt(s, i).value), BoxAt(s, i).value) == Some(a)
    requires !Escaped(s, last) && !q.escaped && q.depth == DepthAt(s, last) + drift && (q.depth >= 0 || q.under)
    ensures i <= a.start <= a.group.end <= |s| && !Escaped(s, a.group.end)
    ensures var r := After(q, s[last..i] + Unwrapped(a));
      && r.depth == DepthAt(s, a.group.end) + drift - (if Escaped(s, i) then 1 else 0) && !r.escaped
      && (r.depth >= 0 || r.under)
      && (r.under <==> q.under || !PieceStaysUp(s, last, i, false, drift)
                       || !PieceStaysUp(s, a.start, a.group.end, Escaped(s, i), drift))
  {
    BoxCosts(s, last, i, a, q);
    BoxPiece(s, i, a);
    hide After, BoxAt, LastArg, BoxEnd, Unwrapped, SlipIf, OnlyBackslashes, PieceStaysUp;
    PieceUnder(s, last, i, q, drift);
    var q1 := After(q, s[last..i]);
    NoSlip(s[last..i]);
    PieceUnder(s, a.start, a.group.end, q1, drift);
    AfterConcat(q, s[last..i], s[a.start..a.group.end]);
  }

  lemma NoSlip(t: string)
    ensures SlipIf(false, t) == 0
  {
  }

  /** The rewritten text against the original. */
  lemma {:induction false} RewrittenReads(s: string, last: nat, from: nat, q: Reading, drift: int)
    requires last <= from <= |s| && !Escaped(s, last) && !q.escaped
    requires q.depth == DepthAt(s, last) + drift && (q.depth >= 0 || q.under)
    ensures After(q, Rewritten(s, last, from)).depth == DepthAt(s, |s|) + drift - EscapedBoxes(s, from)
    ensures After(q, Rewritten(s, last, from)).under <==> q.under || !BoxesStayUp(s, last, from, drift)
    decreases |s| - from
  {
    hide After, NextBox, BoxAt, LastArg, BoxEnd, Unwrapped, SlipIf, OnlyBackslashes, DepthAt, Escaped, PieceStaysUp;
    match NextBox(s, from)
    case None =>
      assert s[last..|s|] == s[last..];
      NoSlip(s[last..]);
      PieceUnder(s, last, |s|, q, drift);
    case Some(i) =>
      BoxShape(s, i);
      var argc := BoxAt(s, i).value;
      match LastArg(s, BoxEnd(s, i, argc), argc) {
        case None =>
          RewrittenReads(s, last, BoxEnd(s, i, argc), q, drift);
        case Some(a) =>
          BoxUnder(s, last, i, a, q, drift);
          var piece, rest := s[last..i] + Unwrapped(a), Rewritten(s, a.group.end, a.group.end);
          RewrittenReads(s, a.group.end, a.group.end, After(q, piece), drift - if Escaped(s, i) then 1 else 0);
          AfterConcat(q, piece, rest);
      }
  }

  /** For every text and any number of boxes: each unwrapped box with an escaped backslash costs one
      level; the result is balanced exactly when that closes the original's depth with no kept brace
      below zero, which for a balanced original means that there is no such box. */
  lemma UnwrapDepthAndBalance(s: string)
    ensures After(START, Rewritten(s, 0, 0)).depth == After(START, s).depth - EscapedBoxes(s, 0)
    ensures After(START, Rewritten(s, 0, 0)).depth == After(START, s).depth <==> CleanBoxes(s, 0)
    ensures Balanced(Rewritten(s, 0, 0)) <==>
      After(START, s).depth - EscapedBoxes(s, 0) == 0 && BoxesStayUp(s, 0, 0, 0)
    ensures Balanced(s) ==> (Balanced(Rewritten(s, 0, 0)) <==> CleanBoxes(s, 0))
  {
    hide CleanBoxes, EscapedBoxes, Rewritten, BoxesStayUp;
    assert s[..0] == "" && s[..|s|] == s && After(START, "") == START;
    RewrittenReads(s, 0, 0, START, 0);
    CleanMeansNoneEscaped(s, 0);
    if CleanBoxes(s, 0) { UnwrapKeepsBalance(s); }
  }

  /** A group whose opening brace is escaped closes one level too many. */
  lemma GroupCosts(r: Reading, group: string)
    requires group != "" && group[0] == '{' && After(START, group) == START
    ensures var after := After(r, group);
      after.depth == r.depth - (if r.escaped then 1 else 0) && !after.escaped
  {
    HeadFirst(r, group);
    HeadFirst(START, group);
    AfterShifts(Read(r, group[0]), group[1..]);
    AfterShifts(Read(START, group[0]), group[1..]);
  }

  /** Both rewriters in the order the pipeline applies them, for every text: what is lost to escaped
      references and to escaped boxes adds up, and the result is balanced exactly when it closes the
      original's depth with no kept brace below zero. */
  lemma PipelineDepthAndBalance(s: string)
    ensures var t := Stripped(s, 0);
      var lost := Drift(s, 0, false) - EscapedBoxes(t, 0);
      && After(START, Rewritten(t, 0, 0)).depth == After(START, s).depth + lost
      && (Balanced(Rewritten(t, 0, 0)) <==> After(START, s).depth + lost == 0 && BoxesStayUp(t, 0, 0, 0))
  {
    hide Drift, StaysUp, BoxesStayUp, EscapedBoxes, CleanBoxes, Balanced, Stripped, Rewritten;
    StripDepthAndBalance(s);
    UnwrapDepthAndBalance(Stripped(s, 0));
  }

  /** With every command at a token boundary a balanced formula stays balanced through both. */
  lemma PipelineKeepsBalance(s: string)
    requires CleanCuts(s, 0) && CleanBoxes(Stripped(s, 0), 0) && Balanced(s)
    ensures Balanced(Rewritten(Stripped(s, 0), 0, 0))
  {
    hide CleanCuts, CleanBoxes, Balanced;
    StripKeepsBalance(s);
    UnwrapKeepsBalance(Stripped(s, 0));
  }

  /** A line break before a word that is also a command's name is taken for that command, and the
      closing brace that follows the cut is swallowed: balance is lost. */
  lemma EscapedReferenceBreaksBalance(s: string)
    requires s == ['{', '\\', '\\', 'r', 'e', 'f', '{', 'a', '}', '}']
    ensures Balanced(s) && !Balanced(Stripped(s, 0)) && Drift(s, 0, false) == 1
  {
    ReadsBalanced(s);
    RefFound(s);
    CutFound(s);
    assert s[9..] == ['}'];
    assert Slip(s[9..], false) == 1;
    assert Drift(s, 9, true) == 1;
    hide NextRef, CutEnd;
    assert Drift(s, 0, false) == SlipIf(false, s[0..2]) + Drift(s, 9, true);
    StripDepthAndBalance(s);
  }

  lemma ReadsBalanced(s: string)
    requires s == ['{', '\\', '\\', 'r', 'e', 'f', '{', 'a', '}', '}']
    ensures Balanced(s) && Escaped(s, 2)
  {
    hide After;
    var r := Reading(1, false, false);
    assert s[..2] == ['{', '\\'];
    ReadsHead(s[..2]);
    ReadsHead(s[..3]);
    assert After(START, s[..2]) == Reading(1, true, false) && After(START, s[..3]) == r;
    ReadsTail(s, r);
  }

  lemma ReadsHead(t: string)
    requires t == ['{', '\\'] || t == ['{', '\\', '\\']
    ensures After(START, t) == Reading(1, |t| == 2, false)
  {
    assert t[..2] == ['{', '\\'] && t[..2][..1] == ['{'] && ['{'][..0] == "";
    assert |t| == 2 ==> t[..2] == t;
  }

  lemma ReadsTail(s: string, r: Reading)
    requires s == ['{', '\\', '\\', 'r', 'e', 'f', '{', 'a', '}', '}']
    requires r == Reading(1, false, false) && After(START, s[..3]) == r
    ensures After(START, s) == START
  {
    hide After;
    assert s[..3] == s[0..3] && s[0..10] == s;
    AfterNext(START, s, 0, 3);
    AfterNext(START, s, 0, 4);
    AfterNext(START, s, 0, 5);
    AfterNext(START, s, 0, 6);
    AfterNext(START, s, 0, 7);
    AfterNext(START, s, 0, 8);
    AfterNext(START, s, 0, 9);
  }

  lemma NameStarts(s: string, i: nat, name: string)
    requires name != ""
    ensures NameAt(s, i, name) ==> i < |s| && s[i] == name[0]
  {
    if NameAt(s, i, name) {
      assert s[i..i + |name|][0] == s[i];
    }
  }

  lemma NoRefAt(s: string, i: nat)
    requires i < |s| && (s[i] != '\\' || (i + 1 < |s| && s[i + 1] == '\\'))
    ensures RefAt(s, i) == None
  {
    hide NameAt, Boundary;
    if s[i] == '\\' {
      NameStarts(s, i + 1, "cite");
      NameStarts(s, i + 1, "ref");
      NameStarts(s, i + 1, "eqref");
      NameStarts(s, i + 1, "autoref");
      NameStarts(s, i + 1, "label");
      NameStarts(s, i + 1, "footnote");
      NameStarts(s, i + 1, "lx@");
    }
  }

  lemma RefFound(s: string)
    requires s == ['{', '\\', '\\', 'r', 'e', 'f', '{', 'a', '}', '}']
    ensures NextRef(s, 0) == Some(Command(2, 6)) && NextRef(s, 9) == None
  {
    hide RefAt;
    NoRefAt(s, 0);
    NoRefAt(s, 1);
    NoRefAt(s, 9);
    RefIsThere(s);
    assert NextRef(s, 10) == None;
    assert NextRef(s, 2) == NextRef(s, 1) == NextRef(s, 0);
  }

  lemma RefIsThere(s: string)
    requires s == ['{', '\\', '\\', 'r', 'e', 'f', '{', 'a', '}', '}']
    ensures RefAt(s, 2) == Some(6)
  {
    hide LowerRun, NameRun, LastBoundary;
    assert s[3..6] == "ref";
    NameStarts(s, 3, "cite");
  }

  lemma CutFound(s: string)
    requires s == ['{', '\\', '\\', 'r', 'e', 'f', '{', 'a', '}', '}']
    ensures CutEnd(s, 6) == 9
  {
    ShortGroup(s, 6);
    hide GroupAt, IsWhitespace;
    NoSpaceAt(s, 6);
    NoSpaceAt(s, 9);
    assert ArgsEnd(s, 9) == 9;
  }

  lemma NoSpaceAt(s: string, i: nat)
    requires i < |s| && IsSpecial(s[i])
    ensures AfterSpace(s, i) == i
  {
  }

  lemma ShortGroup(s: string, i: nat)
    requires i + 2 < |s| && s[i] == '{' && !IsSpecial(s[i + 1]) && s[i + 2] == '}'
    ensures GroupAt(s, i) == Some(Group(s[i + 1..i + 2], i + 3))
  {
    hide Nesting, StillOpen, GroupAt;
    NothingRead(s, i, '{', '}');
    Advance(s, i, i, Nest(0, 0, false));
    Advance(s, i, i + 1, Nest(1, 0, false));
    Advance(s, i, i + 2, Nest(1, 0, false));
    FoundGroup(s, i, i + 2);
  }

  /** The same with a box: its argument's opening brace is escaped and its closing one is not. */
  lemma EscapedBoxBreaksBalance(s: string)
    requires s == ['{', '\\', '\\'] + "scalebox" + ['{', 'a', '}', '{', 'b', '}', '}']
    ensures Balanced(s) && !Balanced(Rewritten(s, 0, 0)) && EscapedBoxes(s, 0) == 1
  {
    LiteralNames();
    assert |s| == 18 && s[..2] == ['{', '\\'] && s[3..11] == "scalebox";
    ReadsHead(s[..2]);
    BoxIsThere(s);
    NothingAfterBox(s);
    BoxArgs(s);
    BoxReads(s);
    hide NextBox, BoxAt, LastArg, BoxEnd, Balanced, Rewritten;
    assert EscapedBoxes(s, 17) == 0;
    UnwrapDepthAndBalance(s);
    CleanMeansNoneEscaped(s, 0);
  }

  lemma NoBoxAt(s: string, i: nat)
    requires i < |s| && (s[i] != '\\' || (i + 1 < |s| && s[i + 1] == '\\'))
    ensures BoxAt(s, i) == None
  {
    hide NameAt, Boundary;
    NameStarts(s, i + 1, "scalebox");
    NameStarts(s, i + 1, "resizebox");
  }

  lemma BoxIsThere(s: string)
    requires |s| == 18 && s[0] == '{' && s[1] == s[2] == '\\' && s[11] == '{'
    requires s[3..11] == "scalebox" && |"scalebox"| == 8
    ensures NextBox(s, 0) == Some(2) && BoxAt(s, 2) == Some(2) && BoxEnd(s, 2, 2) == 11
  {
    NoBoxAt(s, 0);
    NoBoxAt(s, 1);
    assert s[10] == s[3..11][7] == 'x';
    NoSpaceAt(s, 11);
    assert FixedRef(s, 3, "scalebox");
    hide FixedRef;
    assert NextBox(s, 2) == Some(2) && NextBox(s, 1) == Some(2);
  }

  lemma NothingAfterBox(s: string)
    requires |s| == 18 && s[17] == '}'
    ensures NextBox(s, 17) == None
  {
    NoBoxAt(s, 17);
    hide BoxAt;
    assert NextBox(s, 18) == None;
  }

  lemma BoxArgs(s: string)
    requires |s| == 18 && s[11] == s[14] == '{' && s[12] == 'a' && s[15] == 'b' && s[13] == s[16] == '}'
    ensures LastArg(s, 11, 2) == Some(Arg(14, Group(s[15..16], 17)))
  {
    ShortGroup(s, 11);
    ShortGroup(s, 14);
    NoSpaceAt(s, 11);
    NoSpaceAt(s, 14);
    hide GroupAt, AfterSpace;
    assert LastArg(s, 14, 1) == Some(Arg(14, Group(s[15..16], 17)));
  }

  lemma BoxReads(s: string)
    requires |s| == 18 && s[..3] == ['{', '\\', '\\'] && s[3..11] == "scalebox"
    requires AllName("scalebox") && |"scalebox"| == 8
    requires s[11] == s[14] == '{' && s[12] == 'a' && s[15] == 'b' && s[13] == s[16] == s[17] == '}'
    ensures Balanced(s)
  {
    hide After;
    ReadsHead(s[..3]);
    NamedChars(s, 3, "scalebox");
    PlainKeeps(After(START, s[..3]), s, 3, 11);
    assert s[..3] == s[0..3] && s[0..18] == s;
    AfterPieces(START, s, 0, 3, 11);
    AfterNext(START, s, 0, 11);
    AfterNext(START, s, 0, 12);
    AfterNext(START, s, 0, 13);
    AfterNext(START, s, 0, 14);
    AfterNext(START, s, 0, 15);
    AfterNext(START, s, 0, 16);
    AfterNext(START, s, 0, 17);
  }
}
