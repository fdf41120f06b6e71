/** How TeX nests braces, and reading a balanced group (mathEngine.ts `readDelimGroup`). */
module DelimGroups {
  import opened EvidenceModels

  // ---------------------------------------------------------------- how TeX nests

  /** Brace depth so far, whether the next character is escaped, whether depth was ever negative. */
  datatype Reading = Reading(depth: int, escaped: bool, under: bool)

  const START := Reading(0, false, false)

  function Read(r: Reading, c: char): Reading {
    if r.escaped then r.(escaped := false)
    else if c == '\\' then r.(escaped := true)
    else if c == '{' then r.(depth := r.depth + 1)
    else if c == '}' then r.(depth := r.depth - 1, under := r.under || r.depth <= 0)
    else r
  }

  function After(r: Reading, s: string): Reading {
    if s == "" then r else Read(After(r, s[..|s| - 1]), s[|s| - 1])
  }

  /** No prefix closes more than it opened, and in the end all is closed. */
  predicate Balanced(s: string) {
    var r := After(START, s);
    r.depth == 0 && !r.under
  }

  lemma {:induction false} AfterConcat(r: Reading, a: string, b: string)
    ensures After(r, a + b) == After(After(r, a), b)
  {
    if b == "" {
      assert a + b == a;
    } else {
      assert (a + b)[..|a + b| - 1] == a + b[..|b| - 1];
      AfterConcat(r, a, b[..|b| - 1]);
    }
  }

  lemma AfterNext(r: Reading, s: string, i: nat, j: nat)
    requires i <= j < |s|
    ensures After(r, s[i..j + 1]) == Read(After(r, s[i..j]), s[j])
  {
    assert s[i..j + 1][..j - i] == s[i..j];
  }

  lemma AfterPieces(r: Reading, s: string, i: nat, j: nat, k: nat)
    requires i <= j <= k <= |s|
    ensures After(r, s[i..k]) == After(After(r, s[i..j]), s[j..k])
  {
    assert s[i..k] == s[i..j] + s[j..k];
    AfterConcat(r, s[i..j], s[j..k]);
  }

  /** Reading deeper, with an older flaw, changes nothing else. */
  lemma {:induction false} AfterShifts(r: Reading, s: string)
    ensures var base := After(Reading(0, r.escaped, false), s);
      && After(r, s).depth == r.depth + base.depth && After(r, s).escaped == base.escaped
      && (r.under ==> After(r, s).under)
  {
    if s != "" {
      AfterShifts(r, s[..|s| - 1]);
    }
  }

  // ---------------------------------------------------------------- groups

  /** Depth of one bracket kind outside braces, brace depth, escape. */
  datatype Nest = Nest(depth: int, brace: int, escaped: bool)

  function Step(n: Nest, c: char, open: char, close: char): Nest {
    if n.escaped then n.(escaped := false)
    else if c == '\\' then n.(escaped := true)
    else if open == '{' then
      if c == '{' then n.(depth := n.depth + 1) else if c == '}' then n.(depth := n.depth - 1) else n
    else if c == '{' then n.(brace := n.brace + 1)
    else if c == '}' then n.(brace := n.brace - 1)
    else if n.brace != 0 then n
    else if c == open then n.(depth := n.depth + 1)
    else if c == close then n.(depth := n.depth - 1)
    else n
  }

  function Nesting(s: string, open: char, close: char): Nest {
    if s == "" then Nest(0, 0, false)
    else Step(Nesting(s[..|s| - 1], open, close), s[|s| - 1], open, close)
  }

  function CloseOf(open: char): Option<char> {
    if open == '(' then Some(')') else if open == '[' then Some(']') else if open == '{' then Some('}') else None
  }

  /** The group that opens at i closes just before e: e is the first place where nothing is open. */
  predicate Closes(s: string, i: nat, e: nat) {
    && i < e <= |s| && CloseOf(s[i]).Some?
    && !StillOpen(s, i, e)
    && forall k | i < k < e :: StillOpen(s, i, k)
  }

  predicate StillOpen(s: string, i: nat, k: nat)
    requires i < k <= |s| && CloseOf(s[i]).Some?
  {
    Nesting(s[i..k], s[i], CloseOf(s[i]).value).depth != 0
  }

  /** End of the group that opens at i, looking from e on. */
  function GroupEnd(s: string, i: nat, e: nat): (r: Option<nat>)
    requires i < e && i < |s| && CloseOf(s[i]).Some?
    ensures r.Some? ==> e <= r.value <= |s| && !StillOpen(s, i, r.value)
    ensures r.Some? ==> forall k | e <= k < r.value :: StillOpen(s, i, k)
    ensures r.None? ==> forall k | e <= k <= |s| :: StillOpen(s, i, k)
    decreases |s| - e
  {
    if e > |s| then None
    else if !StillOpen(s, i, e) then Some(e)
    else GroupEnd(s, i, e + 1)
  }

  datatype Group = Group(inner: string, end: nat)

  function GroupAt(s: string, i: nat): (r: Option<Group>)
    requires i < |s|
    ensures r.Some? ==> Closes(s, i, r.value.end) && i + 2 <= r.value.end && r.value.inner == s[i + 1..r.value.end - 1]
    ensures r.None? ==> forall e :: !Closes(s, i, e)
  {
    if CloseOf(s[i]).None? then None
    else match GroupEnd(s, i, i + 1)
      case None => None
      case Some(e) => OneIsOpen(s, i); Some(Group(s[i + 1..e - 1], e))
  }

  lemma OneIsOpen(s: string, i: nat)
    requires i < |s| && CloseOf(s[i]).Some?
    ensures StillOpen(s, i, i + 1)
  {
    assert s[i..i + 1] == [s[i]] && s[i..i + 1][..0] == "";
  }

  /** One more character: where a group may close. */
  lemma Advance(s: string, i: nat, j: nat, n: Nest)
    requires i <= j < |s| && CloseOf(s[i]).Some?
    requires Nesting(s[i..j], s[i], CloseOf(s[i]).value) == n
    ensures var n' := Step(n, s[j], s[i], CloseOf(s[i]).value);
      && Nesting(s[i..j + 1], s[i], CloseOf(s[i]).value) == n'
      && (StillOpen(s, i, j + 1) <==> n'.depth != 0)
  {
    assert s[i..j + 1][..j - i] == s[i..j];
  }

  lemma FoundGroup(s: string, i: nat, j: nat)
    requires i < j < |s| && CloseOf(s[i]).Some?
    requires !StillOpen(s, i, j + 1) && forall k | i < k <= j :: StillOpen(s, i, k)
    ensures GroupAt(s, i) == Some(Group(s[i + 1..j], j + 1))
  {
    OneIsOpen(s, i);
    hide StillOpen;
  }

  lemma NoGroup(s: string, i: nat)
    requires i < |s| && CloseOf(s[i]).Some? && forall k | i < k <= |s| :: StillOpen(s, i, k)
    ensures GroupAt(s, i) == None
  {
    hide StillOpen;
  }

  method ReadDelimGroup(s: string, i: nat) returns (r: Option<Group>)
    requires i < |s|
    ensures r == GroupAt(s, i)
  {
    hide GroupAt;
    var open := s[i];
    if CloseOf(open).None? {
      NotAnOpener(s, i);
      return None;
    }
    if open == '{' {
      r := ReadBraces(s, i);
    } else {
      r := ReadPair(s, i, open, CloseOf(open).value);
    }
  }

  lemma NotAnOpener(s: string, i: nat)
    requires i < |s| && CloseOf(s[i]).None?
    ensures GroupAt(s, i) == None
  {
  }

  method ReadBraces(s: string, i: nat) returns (r: Option<Group>)
    requires i < |s| && s[i] == '{'
    ensures r == GroupAt(s, i)
  {
    hide Nesting, GroupAt, StillOpen;
    var depth, j := 0, i;
    NothingRead(s, i, '{', '}');
    while j < |s|
      invariant i <= j <= |s| + 1
      invariant j <= |s| ==> Nesting(s[i..j], '{', '}') == Nest(depth, 0, false)
      invariant forall k | i < k <= j && k <= |s| :: StillOpen(s, i, k)
      invariant j == i ==> depth == 0
      invariant j > i ==> depth > 0
    {
      var c := s[j];
      Advance(s, i, j, Nest(depth, 0, false));
      if c == '\\' {
        if j + 1 < |s| {
          Advance(s, i, j + 1, Nest(depth, 0, true));
        }
        j := j + 2;
        continue;
      }
      if c == '{' {
        depth := depth + 1;
      } else if c == '}' {
        depth := depth - 1;
        if depth == 0 {
          FoundGroup(s, i, j);
          return Some(Group(s[i + 1..j], j + 1));
        }
      }
      j := j + 1;
    }
    NoGroup(s, i);
    return None;
  }

  method ReadPair(s: string, i: nat, open: char, close: char) returns (r: Option<Group>)
    requires i < |s| && s[i] == open && open != '{' && CloseOf(open) == Some(close)
    ensures r == GroupAt(s, i)
  {
    hide Nesting, GroupAt, StillOpen;
    var depth, brace, j := 0, 0, i;
    NothingRead(s, i, open, close);
    while j < |s|
      invariant i <= j <= |s| + 1
      invariant j <= |s| ==> Nesting(s[i..j], open, close) == Nest(depth, brace, false)
      invariant forall k | i < k <= j && k <= |s| :: StillOpen(s, i, k)
      invariant j == i ==> depth == brace == 0
      invariant j > i ==> depth > 0
    {
      var c := s[j];
      Advance(s, i, j, Nest(depth, brace, false));
      if c == '\\' {
        if j + 1 < |s| {
          Advance(s, i, j + 1, Nest(depth, brace, true));
        }
        j := j + 2;
        continue;
      }
      if c == '{' {
        brace := brace + 1;
      } else if c == '}' {
        brace := brace - 1;
      } else if brace == 0 {
        if c == open {
          depth := depth + 1;
        } else if c == close {
          depth := depth - 1;
          if depth == 0 {
            FoundGroup(s, i, j);
            return Some(Group(s[i + 1..j], j + 1));
          }
        }
      }
      j := j + 1;
    }
    NoGroup(s, i);
    return None;
  }

  lemma NothingRead(s: string, i: nat, open: char, close: char)
    requires i <= |s|
    ensures Nesting(s[i..i], open, close) == Nest(0, 0, false)
  {
  }

  // ---------------------------------------------------------------- what a group is to TeX

  lemma {:induction false} BracesAreDepth(t: string)
    ensures var n, r := Nesting(t, '{', '}'), After(START, t);
      n.depth == r.depth && n.escaped == r.escaped
  {
    if t != "" {
      BracesAreDepth(t[..|t| - 1]);
    }
  }

  lemma {:induction false} PairsAreDepth(t: string, open: char, close: char)
    requires open != '{' && open != '\\'
    ensures var n, r := Nesting(t, open, close), After(START, t);
      n.brace == r.depth && n.escaped == r.escaped
  {
    if t != "" {
      PairsAreDepth(t[..|t| - 1], open, close);
    }
  }

  /** A group read at a brace is the shortest stretch in which every brace closes; there is none
      exactly when no stretch from there closes. */
  lemma BraceGroupIsShortest(s: string, i: nat)
    requires i < |s| && s[i] == '{'
    ensures match GroupAt(s, i)
      case Some(g) =>
        && i + 2 <= g.end <= |s| && s[i..g.end] == "{" + g.inner + "}" && After(START, s[i..g.end]) == START
        && Balanced(g.inner)
        && forall k | i < k < g.end :: After(START, s[i..k]).depth > 0
      case None => forall k | i < k <= |s| :: After(START, s[i..k]).depth > 0
  {
    hide After, Nesting, StillOpen, GroupEnd, Balanced;
    OpenIsDepth(s, i);
    match GroupAt(s, i)
    case None =>
      if i < |s| { OpenMeansPositive(s, i, |s|); }
    case Some(g) =>
      OpenMeansPositive(s, i, g.end - 1);
      InnerIsBalanced(s, i, g.end);
      assert s[i..g.end] == [s[i]] + g.inner + [s[g.end - 1]];
  }

  lemma OpenIsDepth(s: string, i: nat)
    requires i < |s| && s[i] == '{'
    ensures forall k | i < k <= |s| :: StillOpen(s, i, k) <==> After(START, s[i..k]).depth != 0
  {
    forall k | i < k <= |s|
      ensures StillOpen(s, i, k) <==> After(START, s[i..k]).depth != 0
    {
      BracesAreDepth(s[i..k]);
    }
  }

  /** Depth moves by one, so it is positive as long as it is not zero. */
  lemma {:induction false} OpenMeansPositive(s: string, i: nat, top: nat)
    requires i < top <= |s| && s[i] == '{'
    requires forall k | i < k <= top :: After(START, s[i..k]).depth != 0
    ensures forall k | i < k <= top :: After(START, s[i..k]).depth > 0 && !After(START, s[i..k]).under
  {
    if top == i + 1 {
      assert s[i..i] == "";
      AfterNext(START, s, i, i);
    } else {
      OpenMeansPositive(s, i, top - 1);
      AfterNext(START, s, i, top - 1);
    }
  }

  lemma InnerIsBalanced(s: string, i: nat, e: nat)
    requires i + 2 <= e <= |s| && s[i] == '{' && After(START, s[i..e]).depth == 0
    requires forall k | i < k < e :: After(START, s[i..k]).depth > 0 && !After(START, s[i..k]).under
    ensures Balanced(s[i + 1..e - 1]) && s[e - 1] == '}' && After(START, s[i..e]) == START
    ensures !After(START, s[i + 1..e - 1]).escaped
  {
    AfterNext(START, s, i, e - 1);
    AfterNext(START, s, i, i);
    assert s[i..i] == "";
    InsideStaysUp(s, i, e, e - 1);
  }

  lemma {:induction false} InsideStaysUp(s: string, i: nat, e: nat, k: nat)
    requires i < k < e <= |s| && s[i] == '{'
    requires forall k | i < k < e :: After(START, s[i..k]).depth > 0
    ensures var inner, whole := After(START, s[i + 1..k]), After(START, s[i..k]);
      inner.depth == whole.depth - 1 && inner.escaped == whole.escaped && !inner.under
  {
    hide After;
    if k == i + 1 {
      InsideStarts(s, i);
    } else {
      InsideStaysUp(s, i, e, k - 1);
      AfterNext(START, s, i, k - 1);
      AfterNext(START, s, i + 1, k - 1);
    }
  }

  lemma InsideStarts(s: string, i: nat)
    requires i < |s| && s[i] == '{'
    ensures After(START, s[i + 1..i + 1]) == START && After(START, s[i..i + 1]) == Reading(1, false, false)
  {
    assert s[i..i + 1][..0] == "";
  }

  // ---------------------------------------------------------------- brackets and parentheses

  /** Read from i on, the character at k is neither escaped nor inside braces. */
  predicate Bare(s: string, i: nat, k: nat)
    requires i <= k <= |s|
  {
    var r := After(START, s[i..k]);
    r.depth == 0 && !r.escaped
  }

  /** Where a bracket stands bare before e. */
  function Standing(s: string, i: nat, e: nat, bracket: char): set<nat>
    requires i <= e <= |s|
  {
    set k: nat | i <= k < e && s[k] == bracket && Bare(s, i, k)
  }

  lemma OneMoreStanding(s: string, i: nat, e: nat, bracket: char)
    requires i <= e < |s|
    ensures Standing(s, i, e + 1, bracket) ==
      Standing(s, i, e, bracket) + if s[e] == bracket && Bare(s, i, e) then {e} else {}
    ensures |Standing(s, i, e + 1, bracket)| ==
      |Standing(s, i, e, bracket)| + if s[e] == bracket && Bare(s, i, e) then 1 else 0
  {
    hide Bare;
  }

  /** One more character of a group in brackets. */
  lemma PairStep(n: Nest, c: char, open: char, close: char)
    requires (open == '(' && close == ')') || (open == '[' && close == ']')
    ensures Step(n, c, open, close).depth == n.depth
      + (if c == open && n.brace == 0 && !n.escaped then 1 else 0)
      - (if c == close && n.brace == 0 && !n.escaped then 1 else 0)
  {
  }

  lemma NestingNext(s: string, i: nat, k: nat, open: char, close: char)
    requires i <= k < |s|
    ensures Nesting(s[i..k + 1], open, close) == Step(Nesting(s[i..k], open, close), s[k], open, close)
  {
    assert s[i..k + 1][..k - i] == s[i..k];
  }

  lemma {:induction false} DepthIsStanding(s: string, i: nat, e: nat, open: char, close: char)
    requires i <= e <= |s| && ((open == '(' && close == ')') || (open == '[' && close == ']'))
    ensures Nesting(s[i..e], open, close).depth == |Standing(s, i, e, open)| - |Standing(s, i, e, close)|
  {
    if e == i {
      assert s[i..i] == "" && Standing(s, i, i, open) == {} && Standing(s, i, i, close) == {};
    } else {
      var k := e - 1;
      DepthIsStanding(s, i, k, open, close);
      PairsAreDepth(s[i..k], open, close);
      NestingNext(s, i, k, open, close);
      PairStep(Nesting(s[i..k], open, close), s[k], open, close);
      hide Nesting, Step, Standing, After;
      OneMoreStanding(s, i, k, open);
      OneMoreStanding(s, i, k, close);
    }
  }

  /** A group read at a bracket or a parenthesis is the shortest stretch in which as many stand bare as
      close bare, with more open than closed before; there is none exactly when that never happens. */
  lemma PairGroupIsShortest(s: string, i: nat)
    requires i < |s| && (s[i] == '(' || s[i] == '[')
    ensures var close := if s[i] == '(' then ')' else ']';
      match GroupAt(s, i)
      case Some(g) =>
        && i + 2 <= g.end <= |s| && g.inner == s[i + 1..g.end - 1] && s[g.end - 1] == close
        && |Standing(s, i, g.end, s[i])| == |Standing(s, i, g.end, close)|
        && forall k | i < k < g.end :: |Standing(s, i, k, s[i])| > |Standing(s, i, k, close)|
      case None => forall k | i < k <= |s| :: |Standing(s, i, k, s[i])| > |Standing(s, i, k, close)|
  {
    hide Standing, Nesting, GroupEnd;
    var close := if s[i] == '(' then ')' else ']';
    forall k | i < k <= |s|
      ensures StillOpen(s, i, k) <==> |Standing(s, i, k, s[i])| != |Standing(s, i, k, close)|
    {
      DepthIsStanding(s, i, k, s[i], close);
    }
    match GroupAt(s, i)
    case None => StaysOpen(s, i, |s|, close);
    case Some(g) =>
      StaysOpen(s, i, g.end - 1, close);
      CloserIsLast(s, i, g.end, close);
  }

  /** The difference moves by one, so it is positive as long as it is not zero. */
  lemma {:induction false} StaysOpen(s: string, i: nat, top: nat, close: char)
    requires i < top <= |s| && CloseOf(s[i]) == Some(close) && s[i] != '{'
    requires forall k | i < k <= top :: |Standing(s, i, k, s[i])| != |Standing(s, i, k, close)|
    ensures forall k | i < k <= top :: |Standing(s, i, k, s[i])| > |Standing(s, i, k, close)|
  {
    hide Bare;
    if top == i + 1 {
      BareAtStart(s, i);
      OneMoreStanding(s, i, i, s[i]);
      OneMoreStanding(s, i, i, close);
      assert Standing(s, i, i, s[i]) == {} && Standing(s, i, i, close) == {};
    } else {
      StaysOpen(s, i, top - 1, close);
      OneMoreStanding(s, i, top - 1, s[i]);
      OneMoreStanding(s, i, top - 1, close);
    }
  }

  lemma BareAtStart(s: string, i: nat)
    requires i <= |s|
    ensures Bare(s, i, i)
  {
    assert s[i..i] == "";
  }

  lemma CloserIsLast(s: string, i: nat, e: nat, close: char)
    requires i + 2 <= e <= |s| && CloseOf(s[i]) == Some(close) && s[i] != '{'
    requires |Standing(s, i, e - 1, s[i])| > |Standing(s, i, e - 1, close)|
    requires |Standing(s, i, e, s[i])| == |Standing(s, i, e, close)|
    ensures s[e - 1] == close
  {
    hide Bare;
    OneMoreStanding(s, i, e - 1, s[i]);
    OneMoreStanding(s, i, e - 1, close);
  }
}
