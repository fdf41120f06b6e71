/** The bounded session summary: how evicted questions are folded into one paragraph
    (service.py `_summarize_evicted`, repository.py `_joined_summary`). */
module SessionSummary {
  import opened Sequences

  const MAX_SESSION_SUMMARY_CHARS := 4000
  const MAX_SUMMARY_TOPIC_CHARS := 120
  const SUMMARY_LABEL := "이전에 물어본 것: "
  const SEPARATOR := " / "

  /** What `str.strip()` removes. */
  predicate IsSpace(c: char) {
    var n := c as int;
    || 0x09 <= n <= 0x0d || 0x1c <= n <= 0x20 || n == 0x85 || n == 0xa0 || n == 0x1680
    || 0x2000 <= n <= 0x200a || n == 0x2028 || n == 0x2029 || n == 0x202f || n == 0x205f || n == 0x3000
  }

  predicate IsSeparator(c: char) {
    c == ' ' || c == '/'
  }

  function LStrip(s: string, drop: char -> bool): (r: string)
    ensures |r| <= |s| && r == s[|s| - |r|..]
    ensures r != "" ==> !drop(r[0])
    ensures forall i | 0 <= i < |s| - |r| :: drop(s[i])
  {
    if s != "" && drop(s[0]) then LStrip(s[1..], drop) else s
  }

  function RStrip(s: string, drop: char -> bool): (r: string)
    ensures |r| <= |s| && r == s[..|r|]
    ensures r != "" ==> !drop(r[|r| - 1])
    ensures forall i | |r| <= i < |s| :: drop(s[i])
  {
    if s != "" && drop(s[|s| - 1]) then RStrip(s[..|s| - 1], drop) else s
  }

  function Strip(s: string): string {
    RStrip(LStrip(s, IsSpace), IsSpace)
  }

  predicate Blank(s: string) {
    forall i | 0 <= i < |s| :: IsSpace(s[i])
  }

  lemma StripBlank(s: string)
    ensures Strip(s) == "" <==> Blank(s)
    ensures Strip(s) != "" ==> !IsSpace(Strip(s)[0]) && !IsSpace(Strip(s)[|Strip(s)| - 1])
    ensures |Strip(s)| <= |s|
  {
    var l := LStrip(s, IsSpace);
    if l != "" {
      assert s[|s| - |l|] == l[0];
      assert Strip(s) != "";
    }
  }

  /** A stripped text strips to itself. */
  lemma StripIdempotent(s: string)
    requires s != "" && !IsSpace(s[0]) && !IsSpace(s[|s| - 1])
    ensures Strip(s) == s
  {
  }

  // ---------------------------------------------------------------- folding questions

  function Short(topic: string): (r: string)
    ensures |r| <= MAX_SUMMARY_TOPIC_CHARS
    ensures r == "" <==> Blank(topic)
  {
    StripBlank(topic);
    var text := Strip(topic);
    if |text| <= MAX_SUMMARY_TOPIC_CHARS then text else text[..MAX_SUMMARY_TOPIC_CHARS - 1] + "…"
  }

  function Join(parts: seq<string>): string {
    if parts == [] then ""
    else if |parts| == 1 then parts[0]
    else parts[0] + SEPARATOR + Join(parts[1..])
  }

  function ShortTopics(topics: seq<string>): seq<string> {
    if topics == [] then []
    else (if Strip(topics[0]) != "" then [Short(topics[0])] else []) + ShortTopics(topics[1..])
  }

  function SummarizeEvicted(topics: seq<string>): string {
    Join(ShortTopics(topics))
  }

  /** There is nothing to fold exactly when every evicted question is blank. */
  lemma {:induction false} NothingToFold(topics: seq<string>)
    ensures SummarizeEvicted(topics) == "" <==> forall i | 0 <= i < |topics| :: Blank(topics[i])
  {
    if topics != [] {
      NothingToFold(topics[1..]);
      StripBlank(topics[0]);
      assert forall i | 0 <= i < |topics| :: topics[i] == if i == 0 then topics[0] else topics[1..][i - 1];
      var rest := ShortTopics(topics[1..]);
      if Strip(topics[0]) != "" {
        var parts := ShortTopics(topics);
        assert parts == [Short(topics[0])] + rest && parts[1..] == rest;
        assert Join(parts) != "";
      }
    }
  }

  // ---------------------------------------------------------------- joining

  function Suffix(s: string, n: nat): string {
    if |s| <= n then s else s[|s| - n..]
  }

  /** `_joined_summary` on stripped arguments. The label is a parameter so that its text stays out
      of the proofs. */
  function JoinStripped(head: string, existing: string, addition: string): string
    requires |head| <= MAX_SESSION_SUMMARY_CHARS
  {
    if addition == "" then existing
    else if existing == "" then Suffix(head + addition, MAX_SESSION_SUMMARY_CHARS)
    else
      var joined := existing + SEPARATOR + addition;
      if |joined| <= MAX_SESSION_SUMMARY_CHARS then joined
      else head + LStrip(Suffix(joined, MAX_SESSION_SUMMARY_CHARS - |head|), IsSeparator)
  }

  function JoinedSummary(existing: string, text: string): string {
    LabelFacts();
    JoinStripped(SUMMARY_LABEL, Strip(existing), Strip(text))
  }

  /** All the proofs ask of the label: short, no slash in it, a colon and one space at its end. */
  predicate GoodLabel(head: string) {
    && 2 <= |head| < MAX_SESSION_SUMMARY_CHARS
    && !IsSpace(head[0]) && head[|head| - 2] == ':' && head[|head| - 1] == ' '
    && forall i | 0 <= i < |head| :: head[i] != '/'
  }

  lemma LabelFacts()
    ensures GoodLabel(SUMMARY_LABEL) && |SUMMARY_LABEL| == 11
  {
  }

  ghost predicate EndsWith(s: string, t: string) {
    |t| <= |s| && s[|s| - |t|..] == t
  }

  lemma JoinedIsBounded(existing: string, text: string)
    requires |existing| <= MAX_SESSION_SUMMARY_CHARS
    ensures |JoinedSummary(existing, text)| <= MAX_SESSION_SUMMARY_CHARS
  {
    StripBlank(existing);
    LabelFacts();
  }

  // ---------------------------------------------------------------- what a folded text is made of

  /** What is stripped from both ends is blank, and nothing else is. */
  lemma StripTakesTheEnds(s: string) returns (front: string, back: string)
    ensures s == front + Strip(s) + back && Blank(front) && Blank(back)
    ensures Strip(s) != "" ==> !IsSpace(Strip(s)[0]) && !IsSpace(Strip(s)[|Strip(s)| - 1])
  {
    StripBlank(s);
    hide IsSpace, LStrip, RStrip;
    var tail := LStrip(s, IsSpace);
    var part := RStrip(tail, IsSpace);
    front, back := s[..|s| - |tail|], tail[|part|..];
    assert s == front + tail && tail == part + back;
  }

  predicate Asks(topic: string) { !Blank(topic) }

  lemma {:induction false} ShortTopicsInOrder(topics: seq<string>) returns (at: seq<nat>)
    ensures Picks(ShortTopics(topics), topics, Asks, Short, at)
  {
    hide Strip, Short, Picks;
    if topics == [] {
      at := [];
      NothingPicked();
    } else {
      var rest := ShortTopicsInOrder(topics[1..]);
      StripBlank(topics[0]);
      at := PicksCons(ShortTopics(topics[1..]), topics[0], topics[1..], Asks, Short, rest);
      assert [topics[0]] + topics[1..] == topics;
    }
  }

  lemma NothingPicked()
    ensures Picks([], [], Asks, Short, [])
  {
  }

  /** The folded text is made of the evicted questions that are not blank, in their order, each of at
      most 120 characters, the last of which says so when it was cut. */
  lemma EvictedInOrder(topics: seq<string>) returns (parts: seq<string>, at: seq<nat>)
    ensures SummarizeEvicted(topics) == Join(parts) && Picks(parts, topics, Asks, Short, at)
    ensures forall t | t in topics ::
      if |Strip(t)| <= 120 then Short(t) == Strip(t)
      else |Short(t)| == 120 && Short(t)[..119] == Strip(t)[..119] && Short(t)[119] == '…'
  {
    parts := ShortTopics(topics);
    at := ShortTopicsInOrder(topics);
    hide Strip;
  }

  /** Joining puts a slash between blanks between neighbours and nothing else anywhere. */
  lemma JoinIs(parts: seq<string>, last: string)
    ensures Join([]) == "" && Join([last]) == last
    ensures parts != [] ==> Join(parts + [last]) == Join(parts) + " / " + last
  {
    if parts != [] { JoinSnoc(parts, last); }
  }

  /** One fold, case by case: a blank text changes nothing; the first is put behind the label, of which
      the last 4000 characters are kept; a later one is appended; and if that is too long, the label is
      set in front of what is left when as many of the oldest characters as the label needs, and then
      leading separators, are dropped. */
  lemma FoldCases(existing: string, text: string) returns (dropped: string, gap: string, kept: string)
    ensures var before, last, r := Strip(existing), Strip(text), JoinedSummary(existing, text);
      if Blank(text) then r == before
      else if Blank(existing) then
        EndsWith(SUMMARY_LABEL + last, r) && |r| == (if |last| <= 3989 then 11 + |last| else 4000)
      else if |before| + 3 + |last| <= 4000 then r == before + " / " + last
      else
        && before + " / " + last == dropped + gap + kept && r == SUMMARY_LABEL + kept
        && |gap + kept| == 3989 && (forall i | 0 <= i < |gap| :: gap[i] == ' ' || gap[i] == '/')
        && (kept != "" ==> kept[0] != ' ' && kept[0] != '/')
  {
    StripBlank(existing);
    StripBlank(text);
    LabelFacts();
    hide Strip, IsSpace, Blank, LStrip, GoodLabel, IsSeparator;
    dropped, gap, kept := "", "", "";
    if !Blank(text) && Blank(existing) {
      SuffixIsEnd(SUMMARY_LABEL + Strip(text), 4000);
    } else if !Blank(text) && |Strip(existing)| + 3 + |Strip(text)| > 4000 {
      dropped, gap, kept := CutInThree(Strip(existing) + SEPARATOR + Strip(text), 3989);
    }
  }

  lemma SuffixIsEnd(s: string, n: nat)
    ensures EndsWith(s, Suffix(s, n)) && |Suffix(s, n)| == if |s| <= n then |s| else n
  {
  }

  /** Cutting to the last n characters and then off leading separators. */
  lemma CutInThree(s: string, n: nat) returns (dropped: string, gap: string, kept: string)
    requires |s| > n
    ensures s == dropped + gap + kept && |gap + kept| == n && kept == LStrip(Suffix(s, n), IsSeparator)
    ensures forall i | 0 <= i < |gap| :: gap[i] == ' ' || gap[i] == '/'
    ensures kept != "" ==> kept[0] != ' ' && kept[0] != '/'
  {
    hide LStrip, IsSeparator;
    var trimmed := Suffix(s, n);
    kept := LStrip(trimmed, IsSeparator);
    dropped, gap := s[..|s| - n], trimmed[..n - |kept|];
    assert trimmed == gap + kept && s == dropped + trimmed;
    Regrouped(dropped, gap, kept);
    forall i | 0 <= i < |gap| ensures gap[i] == ' ' || gap[i] == '/' {
      SeparatorIs(trimmed[i]);
    }
    if kept != "" { SeparatorIs(kept[0]); }
  }

  lemma SeparatorIs(c: char)
    ensures IsSeparator(c) <==> c == ' ' || c == '/'
  {
  }

  lemma Regrouped(a: string, b: string, c: string)
    ensures a + (b + c) == a + b + c
  {
  }

  // ---------------------------------------------------------------- the newest text

  /** Room for a text beside the label. */
  function Room(head: string): int {
    MAX_SESSION_SUMMARY_CHARS - |head|
  }

  /** What the cut leaves in front of the newest text, before leading separators are dropped. */
  function KeptBefore(head: string, existing: string, addition: string): string
    requires |addition| <= Room(head)
  {
    Suffix(existing + SEPARATOR, Room(head) - |addition|)
  }

  /** The join had to cut, and separator stripping ran on into a text that starts with a slash. */
  predicate EatsLeadingSlash(head: string, existing: string, addition: string)
    requires 0 < |addition| <= Room(head)
  {
    && existing != ""
    && |existing + SEPARATOR + addition| > MAX_SESSION_SUMMARY_CHARS
    && addition[0] == '/'
    && LStrip(KeptBefore(head, existing, addition), IsSeparator) == ""
  }

  lemma {:induction false} LStripConcat(a: string, b: string)
    ensures LStrip(a + b, IsSeparator)
         == if LStrip(a, IsSeparator) == "" then LStrip(b, IsSeparator) else LStrip(a, IsSeparator) + b
  {
    hide IsSeparator;
    if a == "" {
      assert a + b == b;
    } else if IsSeparator(a[0]) {
      assert (a + b)[1..] == a[1..] + b;
      LStripConcat(a[1..], b);
    }
  }

  lemma EndsWithPart(front: string, addition: string, bare: string)
    requires EndsWith(addition, bare)
    ensures EndsWith(front + addition, addition) && EndsWith(front + addition, bare)
  {
    var whole := front + addition;
    assert whole[|whole| - |bare|..] == addition[|addition| - |bare|..];
  }

  lemma LabelHidesNoSlash(head: string, addition: string, bare: string)
    requires GoodLabel(head) && addition != "" && bare == LStrip(addition, IsSeparator) && addition[0] != ' '
    ensures EndsWith(head + bare, bare)
    ensures EndsWith(head + bare, addition) <==> addition[0] != '/'
  {
    var whole := head + bare;
    assert whole[|whole| - |bare|..] == bare;
    if addition[0] == '/' {
      var at := |whole| - |addition|;
      if 0 <= at {
        assert whole[at..][0] == head[at];
      }
    } else {
      assert bare == addition;
    }
  }

  lemma NewestAfterStrip(head: string, before: string, addition: string)
    requires GoodLabel(head) && addition != "" && addition[0] != ' '
    ensures var r := head + LStrip(before + addition, IsSeparator);
      && EndsWith(r, LStrip(addition, IsSeparator))
      && (EndsWith(r, addition) <==> addition[0] != '/' || LStrip(before, IsSeparator) != "")
  {
    var kept := LStrip(before, IsSeparator);
    LStripConcat(before, addition);
    if kept != "" {
      assert head + (kept + addition) == (head + kept) + addition;
      EndsWithPart(head + kept, addition, LStrip(addition, IsSeparator));
    } else {
      LabelHidesNoSlash(head, addition, LStrip(addition, IsSeparator));
    }
  }

  lemma SuffixConcat(front: string, back: string, n: nat)
    requires |back| <= n
    ensures Suffix(front + back, n) == Suffix(front, n - |back|) + back
  {
  }

  lemma NewestUnder(head: string, existing: string, addition: string)
    requires GoodLabel(head) && 0 < |addition| <= Room(head) && addition[0] != ' '
    ensures EndsWith(JoinStripped(head, existing, addition), LStrip(addition, IsSeparator))
    ensures EndsWith(JoinStripped(head, existing, addition), addition) <==> !EatsLeadingSlash(head, existing, addition)
  {
    if existing == "" {
      EndsWithPart(head, addition, LStrip(addition, IsSeparator));
    } else if |existing + SEPARATOR + addition| <= MAX_SESSION_SUMMARY_CHARS {
      EndsWithPart(existing + SEPARATOR, addition, LStrip(addition, IsSeparator));
    } else {
      SuffixConcat(existing + SEPARATOR, addition, Room(head));
      NewestAfterStrip(head, KeptBefore(head, existing, addition), addition);
    }
  }

  /** If the text leaves room for the label, everything but its leading separators survives at the
      end of the summary, and all of it does unless the cut eats its leading slashes. */
  lemma NewestTextSurvives(existing: string, text: string)
    requires Strip(text) != "" && |Strip(text)| <= Room(SUMMARY_LABEL)
    ensures EndsWith(JoinedSummary(existing, text), LStrip(Strip(text), IsSeparator))
    ensures EndsWith(JoinedSummary(existing, text), Strip(text))
            <==> !EatsLeadingSlash(SUMMARY_LABEL, Strip(existing), Strip(text))
  {
    LabelFacts();
    StripBlank(text);
    NewestUnder(SUMMARY_LABEL, Strip(existing), Strip(text));
  }

  // ---------------------------------------------------------------- every reachable summary

  function FoldUnder(head: string, texts: seq<string>): string
    requires |head| <= MAX_SESSION_SUMMARY_CHARS
  {
    if texts == [] then ""
    else JoinStripped(head, Strip(FoldUnder(head, texts[..|texts| - 1])), Strip(texts[|texts| - 1]))
  }

  /** The summary after folding these texts one by one into an empty session. */
  function FoldAll(texts: seq<string>): string {
    LabelFacts();
    FoldUnder(SUMMARY_LABEL, texts)
  }

  lemma {:induction false} SummaryIsBounded(texts: seq<string>)
    ensures |FoldAll(texts)| <= 4000
  {
    if texts != [] {
      SummaryIsBounded(texts[..|texts| - 1]);
      JoinedIsBounded(FoldAll(texts[..|texts| - 1]), texts[|texts| - 1]);
    }
  }

  ghost predicate Clean(text: string) {
    text != "" && !IsSpace(text[0]) && !IsSpace(text[|text| - 1])
  }

  lemma {:induction false} JoinSnoc(parts: seq<string>, last: string)
    requires parts != []
    ensures Join(parts + [last]) == Join(parts) + SEPARATOR + last
  {
    assert (parts + [last])[1..] == parts[1..] + [last];
    if |parts| > 1 {
      JoinSnoc(parts[1..], last);
    }
  }

  lemma {:induction false} JoinEnds(parts: seq<string>)
    requires parts != [] && forall i | 0 <= i < |parts| :: Clean(parts[i])
    ensures Clean(Join(parts))
  {
    assert Clean(parts[0]);
    if |parts| > 1 {
      JoinEnds(parts[1..]);
      var front, rest := parts[0] + SEPARATOR, Join(parts[1..]);
      assert Join(parts) == front + rest;
      assert (front + rest)[|front + rest| - 1] == rest[|rest| - 1];
    }
  }

  lemma JoinFits(head: string, s: string, body: string, last: string)
    requires GoodLabel(head) && s == head + body && Clean(body) && Clean(last)
    requires |s| + |SEPARATOR| + |last| <= MAX_SESSION_SUMMARY_CHARS
    ensures JoinStripped(head, Strip(s), Strip(last)) == s + SEPARATOR + last
  {
    assert s[0] == head[0] && s[|s| - 1] == body[|body| - 1];
    StripIdempotent(s);
    StripIdempotent(last);
  }

  lemma {:induction false} NothingLostUnder(head: string, texts: seq<string>)
    requires GoodLabel(head) && texts != [] && forall i | 0 <= i < |texts| :: Clean(texts[i])
    requires |head| + |Join(texts)| <= MAX_SESSION_SUMMARY_CHARS
    ensures FoldUnder(head, texts) == head + Join(texts)
    decreases |texts|, 1
  {
    var front, last := texts[..|texts| - 1], texts[|texts| - 1];
    assert Clean(last) && forall i | 0 <= i < |front| :: Clean(front[i]);
    if front == [] {
      StripIdempotent(last);
      assert FoldUnder(head, texts) == JoinStripped(head, Strip(""), last);
    } else {
      assert texts == front + [last];
      NothingLostSnoc(head, front, last);
    }
  }

  lemma FoldSnoc(head: string, front: seq<string>, last: string)
    requires |head| <= MAX_SESSION_SUMMARY_CHARS
    ensures FoldUnder(head, front + [last]) == JoinStripped(head, Strip(FoldUnder(head, front)), Strip(last))
  {
    assert (front + [last])[..|front|] == front;
  }

  lemma Regroup(a: string, b: string, c: string, d: string)
    ensures (a + b) + c + d == a + (b + c + d)
  {
  }

  lemma NothingLostSnoc(head: string, front: seq<string>, last: string)
    requires GoodLabel(head) && front != [] && Clean(last) && forall i | 0 <= i < |front| :: Clean(front[i])
    requires |head| + |Join(front + [last])| <= MAX_SESSION_SUMMARY_CHARS
    ensures FoldUnder(head, front + [last]) == head + Join(front + [last])
    decreases |front|, 2
  {
    JoinSnoc(front, last);
    JoinEnds(front);
    NothingLostUnder(head, front);
    var body := Join(front);
    JoinFits(head, head + body, body, last);
    FoldSnoc(head, front, last);
    Regroup(head, body, SEPARATOR, last);
  }

  /** While everything fits, the summary is one label and every folded text in order: nothing is
      lost and the label is never repeated. */
  lemma NothingLostWhileItFits(texts: seq<string>)
    requires texts != [] && forall i | 0 <= i < |texts| :: Clean(texts[i])
    requires |SUMMARY_LABEL| + |Join(texts)| <= MAX_SESSION_SUMMARY_CHARS
    ensures FoldAll(texts) == SUMMARY_LABEL + Join(texts)
  {
    LabelFacts();
    NothingLostUnder(SUMMARY_LABEL, texts);
  }

  function Stem(head: string): string
    requires head != ""
  {
    head[..|head| - 1]
  }

  lemma LabelSurvivesJoin(head: string, existing: string, addition: string)
    requires GoodLabel(head) && |addition| <= Room(head) && (existing == "" || Stem(head) <= existing)
    ensures JoinStripped(head, existing, addition) == "" || Stem(head) <= JoinStripped(head, existing, addition)
  {
  }

  lemma LabelSurvivesStrip(head: string, s: string)
    requires GoodLabel(head) && Stem(head) <= s
    ensures Stem(head) <= Strip(s)
  {
    var n := |head| - 1;
    assert s[0] == Stem(head)[0] && s[n - 1] == Stem(head)[n - 1];
    assert LStrip(s, IsSpace) == s;
    var r := RStrip(s, IsSpace);
    assert |r| >= n;
  }

  /** A summary built from texts that leave room for the label is empty or starts with it. */
  lemma {:induction false} LabelNeverLost(texts: seq<string>)
    requires forall i | 0 <= i < |texts| :: |Strip(texts[i])| <= Room(SUMMARY_LABEL)
    ensures FoldAll(texts) == "" || Stem(SUMMARY_LABEL) <= FoldAll(texts)
  {
    LabelFacts();
    if texts != [] {
      var before := FoldAll(texts[..|texts| - 1]);
      LabelNeverLost(texts[..|texts| - 1]);
      if before != "" { LabelSurvivesStrip(SUMMARY_LABEL, before); }
      LabelSurvivesJoin(SUMMARY_LABEL, Strip(before), Strip(texts[|texts| - 1]));
    }
  }

  // ---------------------------------------------------------------- a label that was cut off

  /** The first text did not fit beside the label, and nothing since has overflowed: only an overflow
      puts the label back. */
  predicate LostUnder(head: string, texts: seq<string>)
    requires |head| <= MAX_SESSION_SUMMARY_CHARS
  {
    texts != [] &&
      var front, text := texts[..|texts| - 1], Strip(texts[|texts| - 1]);
      var before := Strip(FoldUnder(head, front));
      if text == "" then LostUnder(head, front)
      else if before == "" then |text| > Room(head)
      else LostUnder(head, front) && |before + SEPARATOR + text| <= MAX_SESSION_SUMMARY_CHARS
  }

  predicate Lost(texts: seq<string>) {
    LabelFacts();
    LostUnder(SUMMARY_LABEL, texts)
  }

  ghost predicate Contains(s: string, t: string) {
    exists i | 0 <= i && i + |t| <= |s| :: OccursAt(s, t, i)
  }

  predicate OccursAt(s: string, t: string, i: nat)
    requires i + |t| <= |s|
  {
    s[i..i + |t|] == t
  }

  /** The label's first character is nowhere else in it. */
  predicate StartsOnce(head: string) {
    head != "" && forall i | 0 < i < |head| :: head[i] != head[0]
  }

  lemma LabelStartsOnce()
    ensures StartsOnce(SUMMARY_LABEL)
  {
  }

  /** Nothing but the label itself begins with the label. */
  lemma NoOtherLabel(head: string, text: string, j: nat, r: string)
    requires GoodLabel(head) && StartsOnce(head) && !Contains(text, Stem(head))
    requires 0 < j <= |head + text| && |r| <= |head + text| - j && r == (head + text)[j..j + |r|]
    ensures !(Stem(head) <= r)
  {
    var whole, n := head + text, |Stem(head)|;
    if n <= |r| {
      assert r[..n] == whole[j..j + n];
      if j >= |head| {
        assert text[j - |head|..j - |head| + n] == whole[j..j + n];
        assert !OccursAt(text, Stem(head), j - |head|);
      } else {
        assert whole[j..j + n][0] == head[j] && Stem(head)[0] == head[0];
      }
    }
  }

  lemma SliceOfSlice(s: string, tail: string, part: string, i: nat)
    requires i <= |s| && tail == s[i..] && |part| <= |tail| && part == tail[..|part|]
    ensures i + |part| <= |s| && part == s[i..i + |part|]
  {
  }

  /** A part of a text that is cut at both ends. */
  lemma StripIsPart(s: string) returns (i: nat)
    ensures i + |Strip(s)| <= |s| && Strip(s) == s[i..i + |Strip(s)|]
  {
    hide LStrip, RStrip, IsSpace;
    var tail := LStrip(s, IsSpace);
    var part := RStrip(tail, IsSpace);
    i := |s| - |tail|;
    SliceOfSlice(s, tail, part, i);
  }

  /** Neither the summary nor what the next fold takes of it begins with the label. */
  ghost predicate Unlabelled(head: string, s: string)
    requires head != ""
  {
    Strip(s) != "" && !(Stem(head) <= s) && !(Stem(head) <= Strip(s))
  }

  lemma CutLosesLabel(head: string, text: string)
    requires GoodLabel(head) && StartsOnce(head) && !Contains(text, Stem(head))
    requires |text| > Room(head) && Clean(text)
    ensures Unlabelled(head, Suffix(head + text, MAX_SESSION_SUMMARY_CHARS))
  {
    hide GoodLabel, StartsOnce, Contains, LStrip, RStrip, Strip, IsSpace;
    var whole := head + text;
    var k := |whole| - MAX_SESSION_SUMMARY_CHARS;
    var s := Suffix(whole, MAX_SESSION_SUMMARY_CHARS);
    assert s == whole[k..] && s == whole[k..k + |s|];
    NoOtherLabel(head, text, k, s);
    var i := StripIsPart(s);
    assert Strip(s) == whole[k + i..k + i + |Strip(s)|];
    NoOtherLabel(head, text, k + i, Strip(s));
    assert s[|s| - 1] == text[|text| - 1];
    StripBlank(s);
  }

  lemma JoinStaysUnlabelled(head: string, before: string, text: string)
    requires GoodLabel(head) && Clean(before) && Clean(text) && !(Stem(head) <= before)
    ensures Unlabelled(head, before + SEPARATOR + text)
  {
    var s := before + SEPARATOR + text;
    assert s[0] == before[0] && s[|s| - 1] == text[|text| - 1];
    StripIdempotent(s);
    NotTheLabel(head, before, text);
  }

  lemma NotTheLabel(head: string, before: string, text: string)
    requires GoodLabel(head) && !(Stem(head) <= before) && before != ""
    ensures !(Stem(head) <= before + SEPARATOR + text)
  {
    var s, n := before + SEPARATOR + text, |Stem(head)|;
    assert s[|before|] == ' ' && s[|before| + 1] == '/';
    assert n <= |before| ==> s[..n] == before[..n];
    assert Stem(head)[n - 1] == head[|head| - 2] == ':';
    assert forall i | 0 <= i < n :: Stem(head)[i] == head[i];
  }

  /** The fold of that text onto that summary puts no label in front. */
  ghost predicate AddsNoLabel(head: string, s: string, text: string) {
    && (text == "" || Clean(text))
    && (text != "" && Strip(s) == "" ==> |text| > Room(head))
    && (text != "" && Strip(s) != "" ==> |Strip(s) + SEPARATOR + text| <= MAX_SESSION_SUMMARY_CHARS)
  }

  /** One more fold onto a summary that lost its label, or onto none. */
  lemma StepStaysUnlabelled(head: string, s: string, text: string)
    requires GoodLabel(head) && StartsOnce(head) && !Contains(text, Stem(head))
    requires AddsNoLabel(head, s, text) && (text == "" || Strip(s) != "" ==> Unlabelled(head, s))
    ensures Unlabelled(head, JoinStripped(head, Strip(s), text))
  {
    StripBlank(s);
    hide StartsOnce, Contains, Strip, IsSpace, LStrip;
    if text == "" {
      StripsStayUnlabelled(head, s);
    } else if Strip(s) == "" {
      CutLosesLabel(head, text);
    } else {
      UnlabelledMeans(head, s);
      hide Unlabelled;
      JoinStaysUnlabelled(head, Strip(s), text);
    }
  }

  ghost predicate NoneRepeats(head: string, texts: seq<string>)
    requires head != ""
  {
    forall i | 0 <= i < |texts| :: !Contains(Strip(texts[i]), Stem(head))
  }

  lemma NoneRepeatsFront(head: string, texts: seq<string>)
    requires head != "" && NoneRepeats(head, texts) && texts != []
    ensures NoneRepeats(head, texts[..|texts| - 1]) && !Contains(Strip(texts[|texts| - 1]), Stem(head))
  {
    hide Strip, Contains, Stem;
  }

  lemma {:induction false} LostMeansUnlabelled(head: string, texts: seq<string>)
    requires GoodLabel(head) && StartsOnce(head) && LostUnder(head, texts) && NoneRepeats(head, texts)
    ensures Unlabelled(head, FoldUnder(head, texts))
    decreases |texts|
  {
    GoodLabelIsShort(head);
    hide GoodLabel, StartsOnce, Contains, Strip, LStrip, RStrip, IsSpace, Unlabelled, JoinStripped, Stem;
    hide FoldUnder, LostUnder, NoneRepeats, AddsNoLabel;
    LostLast(head, texts);
    NoneRepeatsFront(head, texts);
    var front := texts[..|texts| - 1];
    var s, text := FoldUnder(head, front), Strip(texts[|texts| - 1]);
    if text == "" || Strip(s) != "" {
      LostMeansUnlabelled(head, front);
    }
    StepStaysUnlabelled(head, s, text);
  }

  lemma LostLast(head: string, texts: seq<string>)
    requires |head| <= MAX_SESSION_SUMMARY_CHARS && LostUnder(head, texts)
    ensures texts != []
    ensures var front, text := texts[..|texts| - 1], Strip(texts[|texts| - 1]);
      var s := FoldUnder(head, front);
      && FoldUnder(head, texts) == JoinStripped(head, Strip(s), text)
      && AddsNoLabel(head, s, text)
      && (text == "" || Strip(s) != "" ==> LostUnder(head, front))
  {
    StripBlank(texts[|texts| - 1]);
    hide Strip, JoinStripped, IsSpace;
  }

  lemma GoodLabelIsShort(head: string)
    requires GoodLabel(head)
    ensures head != "" && |head| < MAX_SESSION_SUMMARY_CHARS
  {
  }

  lemma UnlabelledMeans(head: string, s: string)
    requires head != "" && Unlabelled(head, s)
    ensures !(Stem(head) <= Strip(s)) && !(Stem(head) <= s) && s != ""
  {
  }

  lemma StripsStayUnlabelled(head: string, s: string)
    requires head != "" && Unlabelled(head, s)
    ensures Unlabelled(head, Strip(s))
  {
    StripBlank(s);
    StripIdempotent(Strip(s));
  }

  lemma {:induction false} NotLostMeansLabelled(head: string, texts: seq<string>)
    requires GoodLabel(head) && !LostUnder(head, texts)
    ensures FoldUnder(head, texts) == "" || Stem(head) <= FoldUnder(head, texts)
    decreases |texts|
  {
    hide Strip;
    if texts != [] {
      var front, text := texts[..|texts| - 1], Strip(texts[|texts| - 1]);
      var s := FoldUnder(head, front);
      StripNothing();
      if text == "" || Strip(s) != "" {
        if !LostUnder(head, front) {
          NotLostMeansLabelled(head, front);
          if s != "" { LabelSurvivesStrip(head, s); }
        }
      }
    }
  }

  lemma StripNothing()
    ensures Strip("") == ""
  {
  }

  /** The label stands at the front of a summary, unless that is empty, if and only if it was not lost;
      for texts that do not themselves repeat it. */
  lemma LabelKeptIff(texts: seq<string>)
    requires NoneRepeats(SUMMARY_LABEL, texts)
    ensures FoldAll(texts) == "" || Stem(SUMMARY_LABEL) <= FoldAll(texts) <==> !Lost(texts)
  {
    LabelFacts();
    LabelStartsOnce();
    hide GoodLabel, StartsOnce, NoneRepeats, Strip, Unlabelled, FoldUnder, LostUnder;
    if Lost(texts) {
      LostMeansUnlabelled(SUMMARY_LABEL, texts);
      UnlabelledMeans(SUMMARY_LABEL, FoldAll(texts));
    } else {
      NotLostMeansLabelled(SUMMARY_LABEL, texts);
    }
  }

  /** A first text of the summary's whole length or more leaves nothing of the label. */
  lemma LongFirstTextLosesLabel(text: string)
    requires |Strip(text)| >= MAX_SESSION_SUMMARY_CHARS
    ensures var t := Strip(text);
      JoinedSummary("", text) == t[|t| - MAX_SESSION_SUMMARY_CHARS..] && Lost([text])
  {
    LabelFacts();
    StripNothing();
    hide Strip, GoodLabel;
    CutOf(SUMMARY_LABEL, Strip(text));
    assert [text][..0] == [];
  }

  lemma CutOf(head: string, text: string)
    requires |text| >= MAX_SESSION_SUMMARY_CHARS
    ensures Suffix(head + text, MAX_SESSION_SUMMARY_CHARS) == text[|text| - MAX_SESSION_SUMMARY_CHARS..]
  {
  }
}
