/** The capped canon fill and the band quotas of the corpus selector (build_foundational_list.py
    `main`). Scores are any order of positive reals, shares are percentages. */
module CanonSelection {
  import opened Sequences

  datatype Record = Record(id: string, score: real, year: int, buckets: set<string>)

  /** `ranked`: candidates by descending score, one per id. */
  ghost predicate Ranked(rs: seq<Record>) {
    && (forall i | 0 <= i < |rs| :: rs[i].score > 0.0)
    && (forall i, j | 0 <= i < j < |rs| :: rs[i].score >= rs[j].score)
    && (forall i, j | 0 <= i < j < |rs| :: rs[i].id != rs[j].id)
  }

  /** Papers the lookup does not know share the category "?". */
  function Category(categories: map<string, string>, r: Record): string {
    if r.id in categories then categories[r.id] else "?"
  }

  function Categories(categories: map<string, string>, rs: seq<Record>): (r: seq<string>)
    ensures |r| == |rs|
  {
    seq(|rs|, i requires 0 <= i < |rs| => Category(categories, rs[i]))
  }

  // ---------------------------------------------------------------- selections

  /** A selection marks the chosen positions; these count them, all or in one category. */
  function Count(pick: seq<bool>): nat {
    if pick == [] then 0 else Count(pick[..|pick| - 1]) + if pick[|pick| - 1] then 1 else 0
  }

  function CountIn(cats: seq<string>, pick: seq<bool>, c: string): nat
    requires |pick| <= |cats|
    decreases |pick|
  {
    if pick == [] then 0
    else
      var n := |pick| - 1;
      CountIn(cats, pick[..n], c) + if pick[n] && cats[n] == c then 1 else 0
  }

  function Total(rs: seq<Record>, pick: seq<bool>): real
    requires |pick| <= |rs|
    decreases |pick|
  {
    if pick == [] then 0.0
    else
      var n := |pick| - 1;
      Total(rs, pick[..n]) + if pick[n] then rs[n].score else 0.0
  }

  ghost predicate Feasible(cats: seq<string>, pick: seq<bool>, target: int, cap: int)
    requires |pick| <= |cats|
  {
    Count(pick) <= target && forall c :: CountIn(cats, pick, c) <= cap
  }

  // ---------------------------------------------------------------- the greedy pass

  function Greedy(cats: seq<string>, n: nat, target: int, cap: int): (pick: seq<bool>)
    requires n <= |cats|
    ensures |pick| == n
  {
    if n == 0 then []
    else
      var p := Greedy(cats, n - 1, target, cap);
      p + [Count(p) < target && CountIn(cats, p, cats[n - 1]) < cap]
  }

  function All(n: nat): (r: seq<bool>)
    ensures |r| == n && forall i | 0 <= i < n :: r[i]
  {
    if n == 0 then [] else All(n - 1) + [true]
  }

  lemma CountSnoc(pick: seq<bool>, b: bool)
    ensures Count(pick + [b]) == Count(pick) + if b then 1 else 0
  {
    assert (pick + [b])[..|pick|] == pick;
  }

  lemma CountInSnoc(cats: seq<string>, pick: seq<bool>, b: bool, c: string)
    requires |pick| < |cats|
    ensures CountIn(cats, pick + [b], c) == CountIn(cats, pick, c) + if b && cats[|pick|] == c then 1 else 0
  {
    assert (pick + [b])[..|pick|] == pick;
  }

  /** The pass never takes more than it may; and as long as there is room left, it has taken from
      every category as many as the ceiling lets anyone take. */
  lemma {:induction false} GreedyIsFull(cats: seq<string>, n: nat, target: nat, cap: nat)
    requires n <= |cats|
    ensures var g := Greedy(cats, n, target, cap);
      && Count(g) <= target
      && (forall c :: CountIn(cats, g, c) <= cap)
      && (Count(g) < target ==> forall c, o: seq<bool> | |o| == n ::
            CountIn(cats, o, c) <= cap ==> CountIn(cats, o, c) <= CountIn(cats, g, c))
  {
    hide Count, CountIn;
    if n == 0 {
      NothingCounted(cats);
    } else {
      var p := Greedy(cats, n - 1, target, cap);
      var b := Count(p) < target && CountIn(cats, p, cats[n - 1]) < cap;
      GreedyIsFull(cats, n - 1, target, cap);
      CountSnoc(p, b);
      forall c ensures CountIn(cats, p + [b], c) <= cap {
        CountInSnoc(cats, p, b, c);
      }
      forall c, o: seq<bool> | |o| == n && Count(p + [b]) < target && CountIn(cats, o, c) <= cap
        ensures CountIn(cats, o, c) <= CountIn(cats, p + [b], c)
      {
        assert o == o[..n - 1] + [o[n - 1]];
        CountInSnoc(cats, o[..n - 1], o[n - 1], c);
        CountInSnoc(cats, p, b, c);
      }
    }
  }

  lemma NothingCounted(cats: seq<string>)
    ensures Count([]) == 0 && forall c :: CountIn(cats, [], c) == 0
    ensures forall o: seq<bool> | |o| == 0 :: o == []
  {
  }

  // ---------------------------------------------------------------- optimality

  /** Chosen positions whose category lies in a set. */
  function CountAmong(cats: seq<string>, pick: seq<bool>, some: set<string>): nat
    requires |pick| <= |cats|
    decreases |pick|
  {
    if pick == [] then 0
    else
      var n := |pick| - 1;
      CountAmong(cats, pick[..n], some) + if pick[n] && cats[n] in some then 1 else 0
  }

  lemma {:induction false} CountSplits(cats: seq<string>, pick: seq<bool>, some: set<string>, c: string)
    requires |pick| <= |cats| && c in some
    ensures CountAmong(cats, pick, some) == CountAmong(cats, pick, some - {c}) + CountIn(cats, pick, c)
    decreases |pick|
  {
    if pick != [] {
      CountSplits(cats, pick[..|pick| - 1], some, c);
    }
  }

  lemma {:induction false} CountNobody(cats: seq<string>, pick: seq<bool>)
    requires |pick| <= |cats|
    ensures CountAmong(cats, pick, {}) == 0
    decreases |pick|
  {
    if pick != [] {
      CountNobody(cats, pick[..|pick| - 1]);
    }
  }

  lemma {:induction false} CountEverybody(cats: seq<string>, pick: seq<bool>, some: set<string>)
    requires |pick| <= |cats| && forall c | c in cats :: c in some
    ensures CountAmong(cats, pick, some) == Count(pick)
    decreases |pick|
  {
    if pick != [] {
      CountEverybody(cats, pick[..|pick| - 1], some);
    }
  }

  lemma {:induction false} AmongDominated(cats: seq<string>, o: seq<bool>, g: seq<bool>, some: set<string>)
    requires |o| == |g| <= |cats| && forall c :: CountIn(cats, o, c) <= CountIn(cats, g, c)
    ensures CountAmong(cats, o, some) <= CountAmong(cats, g, some)
    decreases |some|
  {
    hide CountAmong, CountIn;
    if some == {} {
      CountNobody(cats, o);
      CountNobody(cats, g);
    } else {
      var c :| c in some;
      CountSplits(cats, o, some, c);
      CountSplits(cats, g, some, c);
      AmongDominated(cats, o, g, some - {c});
    }
  }

  /** At every rank the pass holds at least as many papers as any selection it competes with. */
  lemma GreedyIsAhead(cats: seq<string>, o: seq<bool>, target: nat, cap: nat)
    requires |o| <= |cats| && Feasible(cats, o, target, cap)
    ensures Count(o) <= Count(Greedy(cats, |o|, target, cap))
  {
    hide Count, CountIn, CountAmong, Greedy;
    var g := Greedy(cats, |o|, target, cap);
    GreedyIsFull(cats, |o|, target, cap);
    if Count(g) < target {
      var some := set c | c in cats;
      AmongDominated(cats, o, g, some);
      CountEverybody(cats, o, some);
      CountEverybody(cats, g, some);
    }
  }

  lemma {:induction false} FeasibleShorter(cats: seq<string>, o: seq<bool>, n: nat, target: nat, cap: nat)
    requires |o| <= |cats| && n <= |o| && Feasible(cats, o, target, cap)
    ensures Feasible(cats, o[..n], target, cap)
    decreases |o| - n
  {
    if n < |o| {
      FeasibleShorter(cats, o, n + 1, target, cap);
      assert o[..n + 1][..n] == o[..n];
      forall c ensures CountIn(cats, o[..n], c) <= cap {
        assert CountIn(cats, o[..n + 1], c) <= cap;
      }
    } else {
      assert o[..n] == o;
    }
  }

  lemma {:induction false} GreedyPrefix(cats: seq<string>, n: nat, k: nat, target: int, cap: int)
    requires k <= n <= |cats|
    ensures Greedy(cats, n, target, cap)[..k] == Greedy(cats, k, target, cap)
    decreases n
  {
    if k < n {
      GreedyPrefix(cats, n - 1, k, target, cap);
    }
  }

  /** Being ahead at every rank of a descending list is being ahead in total, by at least the last
      score for every paper of the lead. */
  lemma {:induction false} AheadMeansRicher(rs: seq<Record>, o: seq<bool>, g: seq<bool>)
    requires |o| == |g| <= |rs| && Ranked(rs)
    requires forall k | 0 <= k <= |o| :: Count(o[..k]) <= Count(g[..k])
    ensures Total(rs, o) <= Total(rs, g)
    ensures o != [] ==> Edge(rs, o, g) >= Worth(rs[|o| - 1].score, Count(g) - Count(o))
    decreases |o|
  {
    hide Count, Total, Worth;
    assert o[..|o|] == o && g[..|g|] == g;
    if o == [] {
      assert g == o;
    } else {
      var n := |o| - 1;
      forall k | 0 <= k <= n ensures Count(o[..n][..k]) <= Count(g[..n][..k]) {
        assert o[..n][..k] == o[..k] && g[..n][..k] == g[..k];
      }
      AheadMeansRicher(rs, o[..n], g[..n]);
      LastOne(rs, o);
      LastOne(rs, g);
      var lead := Count(g[..n]) - Count(o[..n]);
      if n > 0 {
        WorthFalls(rs[n - 1].score, rs[n].score, lead);
      } else {
        assert o[..n] == [] && g[..n] == [];
        NoWorth(rs, rs[n].score);
      }
      WorthOfOne(rs[n].score, lead, g[n], o[n]);
    }
  }

  function Edge(rs: seq<Record>, o: seq<bool>, g: seq<bool>): real
    requires |o| <= |rs| && |g| <= |rs|
  {
    Total(rs, g) - Total(rs, o)
  }

  function Worth(score: real, lead: int): real { score * lead as real }

  lemma WorthFalls(before: real, score: real, lead: int)
    requires before >= score > 0.0 && lead >= 0
    ensures Worth(before, lead) >= Worth(score, lead)
  {
  }

  lemma NoWorth(rs: seq<Record>, score: real)
    ensures Count([]) == 0 && Total(rs, []) == 0.0 && Worth(score, 0) == 0.0
  {
  }

  lemma WorthOfOne(score: real, lead: int, g: bool, o: bool)
    requires score > 0.0 && lead + One(g) - One(o) >= 0
    ensures Worth(score, lead + One(g) - One(o)) ==
      Worth(score, lead) + (if g then score else 0.0) - (if o then score else 0.0)
    ensures Worth(score, lead + One(g) - One(o)) >= 0.0
  {
    assert (lead + 1) as real == lead as real + 1.0 && (lead - 1) as real == lead as real - 1.0;
  }

  function One(b: bool): int { if b then 1 else 0 }

  lemma LastOne(rs: seq<Record>, pick: seq<bool>)
    requires 0 < |pick| <= |rs|
    ensures var n := |pick| - 1;
      && Count(pick) == Count(pick[..n]) + (if pick[n] then 1 else 0)
      && Total(rs, pick) == Total(rs, pick[..n]) + (if pick[n] then rs[n].score else 0.0)
  {
  }

  /** The first pass is optimal: no selection of at most `target` papers with at most `cap` per
      category has a higher total score. */
  lemma GreedyIsOptimal(rs: seq<Record>, cats: seq<string>, o: seq<bool>, target: nat, cap: nat)
    requires Ranked(rs) && |rs| == |cats| == |o| && Feasible(cats, o, target, cap)
    ensures var g := Greedy(cats, |cats|, target, cap);
      Feasible(cats, g, target, cap) && Total(rs, o) <= Total(rs, g)
  {
    hide Count, CountIn, Greedy, Total;
    var n := |cats|;
    var g := Greedy(cats, n, target, cap);
    GreedyIsFull(cats, n, target, cap);
    forall k | 0 <= k <= n ensures Count(o[..k]) <= Count(g[..k]) {
      FeasibleShorter(cats, o, k, target, cap);
      GreedyIsAhead(cats, o[..k], target, cap);
      GreedyPrefix(cats, n, k, target, cap);
    }
    AheadMeansRicher(rs, o, g);
  }

  // ---------------------------------------------------------------- first pass and backfill, as run

  function Chosen(rs: seq<Record>, pick: seq<bool>): (r: seq<Record>)
    requires |pick| <= |rs|
    ensures |r| == Count(pick)
    decreases |pick|
  {
    if pick == [] then []
    else
      var n := |pick| - 1;
      Chosen(rs, pick[..n]) + if pick[n] then [rs[n]] else []
  }

  function Deferred(rs: seq<Record>, pick: seq<bool>): (r: seq<Record>)
    requires |pick| <= |rs|
    ensures |r| == |pick| - Count(pick)
    decreases |pick|
  {
    if pick == [] then []
    else
      var n := |pick| - 1;
      Deferred(rs, pick[..n]) + if pick[n] then [] else [rs[n]]
  }

  function Min(a: int, b: int): int { if a <= b then a else b }

  /** The tier in the order it is filled: the pass, then papers the ceiling held back. */
  function Canon(rs: seq<Record>, categories: map<string, string>, target: nat, cap: nat): (r: seq<Record>)
    ensures |r| <= |rs|
  {
    var g := Greedy(Categories(categories, rs), |rs|, target, cap);
    var held := Deferred(rs, g);
    Chosen(rs, g) + if Count(g) < target then held[..Min(target - Count(g), |held|)] else []
  }

  function IdsOf(rs: seq<Record>): set<string> {
    set r | r in rs :: r.id
  }

  function InCategory(categories: map<string, string>, rs: seq<Record>, c: string): nat {
    if rs == [] then 0
    else InCategory(categories, rs[..|rs| - 1], c) + if Category(categories, rs[|rs| - 1]) == c then 1 else 0
  }

  /** After the backfill the canon holds every candidate or exactly its target. */
  lemma CanonIsFull(rs: seq<Record>, categories: map<string, string>, target: nat, cap: nat)
    ensures |Canon(rs, categories, target, cap)| == Min(target, |rs|)
  {
    hide Count, Greedy, CountIn;
    GreedyIsFull(Categories(categories, rs), |rs|, target, cap);
  }

  lemma {:induction false} GreedySaturates(cats: seq<string>, n: nat, target: nat, cap: nat, i: nat)
    requires i < n <= |cats|
    ensures var g := Greedy(cats, n, target, cap);
      !g[i] ==> Count(g) == target || CountIn(cats, g, cats[i]) == cap
  {
    hide Count, CountIn;
    var p := Greedy(cats, n - 1, target, cap);
    var b := Count(p) < target && CountIn(cats, p, cats[n - 1]) < cap;
    GreedyIsFull(cats, n - 1, target, cap);
    GreedyIsFull(cats, n, target, cap);
    CountSnoc(p, b);
    CountInSnoc(cats, p, b, cats[i]);
    if i < n - 1 {
      GreedySaturates(cats, n - 1, target, cap, i);
    }
  }

  lemma {:induction false} ChosenCount(rs: seq<Record>, categories: map<string, string>, pick: seq<bool>, c: string)
    requires |pick| <= |rs|
    ensures InCategory(categories, Chosen(rs, pick), c) == CountIn(Categories(categories, rs), pick, c)
    decreases |pick|
  {
    hide Chosen, InCategory, CountIn, Category;
    if pick == [] {
      NothingChosen(rs, categories, c);
    } else {
      var n := |pick| - 1;
      var p, b := pick[..n], pick[n];
      assert pick == p + [b];
      ChosenCount(rs, categories, p, c);
      ChosenNext(rs, p, b);
      CountInSnoc(Categories(categories, rs), p, b, c);
      InCategoryNext(categories, Chosen(rs, p), rs[n], c);
    }
  }

  lemma NothingChosen(rs: seq<Record>, categories: map<string, string>, c: string)
    ensures Chosen(rs, []) == [] && InCategory(categories, [], c) == 0
    ensures CountIn(Categories(categories, rs), [], c) == 0
  {
  }

  lemma InCategoryNext(categories: map<string, string>, rs: seq<Record>, r: Record, c: string)
    ensures InCategory(categories, rs + [r], c) ==
      InCategory(categories, rs, c) + if Category(categories, r) == c then 1 else 0
  {
    assert (rs + [r])[..|rs|] == rs;
  }

  lemma CanonWhenFull(rs: seq<Record>, categories: map<string, string>, target: nat, cap: nat)
    ensures var g := Greedy(Categories(categories, rs), |rs|, target, cap);
      Count(g) >= target ==> Canon(rs, categories, target, cap) == Chosen(rs, g)
  {
    hide Count, Greedy, Chosen, Deferred;
  }

  /** The ceiling is exceeded only where it must be: when a category ends above it, the pass had
      left room, and every paper it left out lay in a category at its ceiling. */
  lemma CapYieldsOnlyToEmptySlots(rs: seq<Record>, categories: map<string, string>, target: nat, cap: nat,
                                  c: string, i: nat)
    requires i < |rs| && InCategory(categories, Canon(rs, categories, target, cap), c) > cap
    ensures var g := Greedy(Categories(categories, rs), |rs|, target, cap);
      && |Chosen(rs, g)| < target
      && (!g[i] ==> InCategory(categories, Chosen(rs, g), Category(categories, rs[i])) == cap)
  {
    hide Count, CountIn, Greedy, InCategory;
    var cats := Categories(categories, rs);
    var g := Greedy(cats, |rs|, target, cap);
    GreedyIsFull(cats, |rs|, target, cap);
    GreedySaturates(cats, |rs|, target, cap, i);
    ChosenCount(rs, categories, g, cats[i]);
    ChosenCount(rs, categories, g, c);
    CanonWhenFull(rs, categories, target, cap);
  }

  // ---------------------------------------------------------------- which papers come back

  lemma {:induction false} DeferredOrChosen(rs: seq<Record>, pick: seq<bool>, k: nat)
    requires k < |pick| <= |rs|
    ensures if pick[k] then rs[k] in Chosen(rs, pick) else rs[k] in Deferred(rs, pick)
    decreases |pick|
  {
    hide Count;
    var n := |pick| - 1;
    if k < n { DeferredOrChosen(rs, pick[..n], k); }
  }

  lemma {:induction false} DeferredIsBefore(rs: seq<Record>, pick: seq<bool>, r: Record)
    requires |pick| <= |rs| && r in Deferred(rs, pick)
    ensures exists k :: 0 <= k < |pick| && rs[k] == r
    decreases |pick|
  {
    hide Count;
    var n := |pick| - 1;
    if r in Deferred(rs, pick[..n]) { DeferredIsBefore(rs, pick[..n], r); } else { assert rs[n] == r; }
  }

  /** Left out by the pass, in rank order. */
  lemma {:induction false} DeferredKeepsRank(rs: seq<Record>, pick: seq<bool>, i: nat, j: nat)
    requires |pick| <= |rs| && Ranked(rs) && i < j < |Deferred(rs, pick)|
    ensures Deferred(rs, pick)[i].score >= Deferred(rs, pick)[j].score
    decreases |pick|
  {
    hide Count;
    var n := |pick| - 1;
    var front := Deferred(rs, pick[..n]);
    if j < |front| {
      DeferredKeepsRank(rs, pick[..n], i, j);
    } else {
      assert front[i] in front;
      DeferredIsBefore(rs, pick[..n], front[i]);
    }
  }

  /** The slots the ceiling left go to the best of the papers it held back: none that stays out scores
      higher than one that came back. */
  lemma BackfillTakesTheBest(rs: seq<Record>, categories: map<string, string>, target: nat, cap: nat,
                             a: Record, other: Record)
    requires Ranked(rs) && other in rs && other !in Canon(rs, categories, target, cap)
    requires a in Canon(rs, categories, target, cap)
    requires a !in Chosen(rs, Greedy(Categories(categories, rs), |rs|, target, cap))
    ensures a.score >= other.score
  {
    hide Count, Greedy, Chosen, Deferred, Ranked;
    var g := Greedy(Categories(categories, rs), |rs|, target, cap);
    var held := Deferred(rs, g);
    CanonWhenFull(rs, categories, target, cap);
    var k :| 0 <= k < |rs| && rs[k] == other;
    DeferredOrChosen(rs, g, k);
    var n := Min(target - Count(g), |held|);
    var i :| 0 <= i < n && held[i] == a;
    var j :| 0 <= j < |held| && held[j] == other;
    TakeHasFront(held, n);
    assert Take(held, n) == held[..n];
    DeferredKeepsRank(rs, g, i, j);
  }

  /** Papers the lookup does not know share one category, and no paper it knows is counted there unless
      the lookup says so itself. */
  lemma UnknownShareACategory(categories: map<string, string>, a: Record, b: Record)
    requires a.id !in categories
    ensures Category(categories, b) == Category(categories, a) <==> b.id !in categories || categories[b.id] == "?"
  {
  }

  function Tally(perCat: map<string, nat>, c: string): nat {
    if c in perCat then perCat[c] else 0
  }

  /** Each id of the sequence is in the map, once. */
  ghost predicate Holds(chosen: map<string, string>, canon: seq<Record>) {
    chosen.Keys == IdsOf(canon) && |chosen| == |canon| && forall id | id in chosen :: chosen[id] == "canon"
  }

  lemma HoldsOneMore(chosen: map<string, string>, canon: seq<Record>, r: Record)
    requires Holds(chosen, canon) && r.id !in chosen
    ensures Holds(chosen[r.id := "canon"], canon + [r])
  {
    assert IdsOf(canon + [r]) == IdsOf(canon) + {r.id};
    assert chosen[r.id := "canon"].Keys == chosen.Keys + {r.id};
  }

  lemma TallyOneMore(perCat: map<string, nat>, categories: map<string, string>, canon: seq<Record>, r: Record)
    requires forall c :: Tally(perCat, c) == InCategory(categories, canon, c)
    ensures var cat := Category(categories, r);
      forall c :: Tally(perCat[cat := Tally(perCat, cat) + 1], c) == InCategory(categories, canon + [r], c)
  {
    assert (canon + [r])[..|canon|] == canon;
  }

  /** Ids chosen so far, held back and still to come are all different. */
  ghost predicate Apart(canon: seq<Record>, held: seq<Record>, rest: seq<Record>) {
    && (forall i, j | 0 <= i < j < |held| :: held[i].id != held[j].id)
    && (forall i, j | 0 <= i < j < |rest| :: rest[i].id != rest[j].id)
    && (forall i, j | 0 <= i < |held| && 0 <= j < |rest| :: held[i].id != rest[j].id)
    && (forall i | 0 <= i < |held| :: held[i].id !in IdsOf(canon))
    && (forall i | 0 <= i < |rest| :: rest[i].id !in IdsOf(canon))
  }

  lemma ApartChoose(canon: seq<Record>, held: seq<Record>, rest: seq<Record>)
    requires Apart(canon, held, rest) && rest != []
    ensures Apart(canon + [rest[0]], held, rest[1..])
    ensures Apart(canon, held + [rest[0]], rest[1..])
  {
    assert IdsOf(canon + [rest[0]]) == IdsOf(canon) + {rest[0].id};
  }

  lemma HoldsMeans(chosen: map<string, string>, canon: seq<Record>, held: seq<Record>, rest: seq<Record>)
    requires Holds(chosen, canon) && Apart(canon, held, rest)
    ensures |chosen| == |canon|
    ensures rest != [] ==> rest[0].id !in chosen
  {
  }

  /** Once the tier is full the pass takes nothing more. */
  lemma {:induction false} FullStaysFull(rs: seq<Record>, cats: seq<string>, i: nat, n: nat, target: nat, cap: nat)
    requires i <= n <= |cats| == |rs| && Count(Greedy(cats, i, target, cap)) >= target
    ensures var g := Greedy(cats, n, target, cap);
      Count(g) >= target && Chosen(rs, g) == Chosen(rs, Greedy(cats, i, target, cap))
    decreases n
  {
    hide Chosen, Count, CountIn;
    if i < n {
      FullStaysFull(rs, cats, i, n - 1, target, cap);
      var p := Greedy(cats, n - 1, target, cap);
      assert Greedy(cats, n, target, cap) == p + [false];
      ChosenNext(rs, p, false);
      CountSnoc(p, false);
    }
  }

  lemma ChosenNext(rs: seq<Record>, g: seq<bool>, b: bool)
    requires |g| < |rs|
    ensures Chosen(rs, g + [b]) == if b then Chosen(rs, g) + [rs[|g|]] else Chosen(rs, g)
    ensures Deferred(rs, g + [b]) == if b then Deferred(rs, g) else Deferred(rs, g) + [rs[|g|]]
  {
    assert (g + [b])[..|g|] == g;
  }

  method CanonFill(ranked: seq<Record>, categories: map<string, string>, target: nat, cap: nat)
    returns (chosen: map<string, string>, perCat: map<string, nat>)
    requires Ranked(ranked)
    ensures Holds(chosen, Canon(ranked, categories, target, cap))
    ensures forall c :: Tally(perCat, c) == InCategory(categories, Canon(ranked, categories, target, cap), c)
  {
    hide Holds, Apart, InCategory, Count, CountIn, IdsOf, Chosen, Deferred, Greedy;
    var deferred;
    chosen, perCat, deferred := FirstPass(ranked, categories, target, cap);
    ghost var g := Greedy(Categories(categories, ranked), |ranked|, target, cap);
    ghost var first := Chosen(ranked, g);
    assert deferred[0..] == deferred && first + deferred[..0] == first;
    var k := 0;
    while k < |deferred|
      invariant 0 <= k <= |deferred| && (k > 0 ==> |first| + k <= target)
      invariant Holds(chosen, first + deferred[..k])
      invariant forall c :: Tally(perCat, c) == InCategory(categories, first + deferred[..k], c)
      invariant Apart(first + deferred[..k], [], deferred[k..])
    {
      HoldsMeans(chosen, first + deferred[..k], [], deferred[k..]);
      if |chosen| >= target {
        break;
      }
      var rec := deferred[k];
      assert (first + deferred[..k]) + [rec] == first + deferred[..k + 1] && deferred[k..][1..] == deferred[k + 1..];
      ApartChoose(first + deferred[..k], [], deferred[k..]);
      HoldsOneMore(chosen, first + deferred[..k], rec);
      TallyOneMore(perCat, categories, first + deferred[..k], rec);
      chosen := chosen[rec.id := "canon"];
      var cat := Category(categories, rec);
      perCat := perCat[cat := Tally(perCat, cat) + 1];
      k := k + 1;
    }
    HoldsMeans(chosen, first + deferred[..k], [], deferred[k..]);
    assert deferred[..|deferred|] == deferred && first + [] == first;
  }

  method FirstPass(ranked: seq<Record>, categories: map<string, string>, target: nat, cap: nat)
    returns (chosen: map<string, string>, perCat: map<string, nat>, deferred: seq<Record>)
    requires Ranked(ranked)
    ensures var g := Greedy(Categories(categories, ranked), |ranked|, target, cap);
      && Holds(chosen, Chosen(ranked, g))
      && (forall c :: Tally(perCat, c) == InCategory(categories, Chosen(ranked, g), c))
      && Apart(Chosen(ranked, g), [], deferred)
      && (Count(g) < target ==> deferred == Deferred(ranked, g))
  {
    hide Filled, Greedy, Chosen, Deferred, Count, Holds, Apart;
    chosen, perCat, deferred := map[], map[], [];
    PassStarts(ranked, categories, target, cap);
    var i := 0;
    while i < |ranked|
      invariant 0 <= i <= |ranked| && Filled(ranked, categories, i, target, cap, chosen, perCat, deferred)
    {
      FilledMeans(ranked, categories, i, target, cap, chosen, perCat, deferred);
      if |chosen| >= target {
        break;
      }
      var rec := ranked[i];
      var cat := Category(categories, rec);
      PassStep(ranked, categories, i, target, cap, chosen, perCat, deferred);
      if Tally(perCat, cat) >= cap {
        deferred := deferred + [rec];
      } else {
        chosen := chosen[rec.id := "canon"];
        perCat := perCat[cat := Tally(perCat, cat) + 1];
      }
      i := i + 1;
    }
    PassEnds(ranked, categories, i, target, cap, chosen, perCat, deferred);
  }

  /** Where the pass stands after i papers. */
  ghost predicate Filled(rs: seq<Record>, categories: map<string, string>, i: nat, target: nat, cap: nat,
                         chosen: map<string, string>, perCat: map<string, nat>, deferred: seq<Record>)
    requires i <= |rs|
  {
    var g := Greedy(Categories(categories, rs), i, target, cap);
    && Holds(chosen, Chosen(rs, g)) && deferred == Deferred(rs, g)
    && (forall c :: Tally(perCat, c) == InCategory(categories, Chosen(rs, g), c))
    && Apart(Chosen(rs, g), deferred, rs[i..])
  }

  lemma FilledMeans(rs: seq<Record>, categories: map<string, string>, i: nat, target: nat, cap: nat,
                    chosen: map<string, string>, perCat: map<string, nat>, deferred: seq<Record>)
    requires i <= |rs| && Filled(rs, categories, i, target, cap, chosen, perCat, deferred)
    ensures |chosen| == Count(Greedy(Categories(categories, rs), i, target, cap))
    ensures i < |rs| ==> rs[i].id !in chosen
  {
    hide Holds, Apart, Greedy, Chosen, Deferred, Count, InCategory;
    var g := Greedy(Categories(categories, rs), i, target, cap);
    HoldsMeans(chosen, Chosen(rs, g), deferred, rs[i..]);
  }

  lemma PassStep(rs: seq<Record>, categories: map<string, string>, i: nat, target: nat, cap: nat,
                 chosen: map<string, string>, perCat: map<string, nat>, deferred: seq<Record>)
    requires i < |rs| && Filled(rs, categories, i, target, cap, chosen, perCat, deferred) && |chosen| < target
    ensures var rec, cat := rs[i], Category(categories, rs[i]);
      if Tally(perCat, cat) >= cap then Filled(rs, categories, i + 1, target, cap, chosen, perCat, deferred + [rec])
      else Filled(rs, categories, i + 1, target, cap, chosen[rec.id := "canon"],
                  perCat[cat := Tally(perCat, cat) + 1], deferred)
  {
    hide Holds, Apart, Chosen, Deferred, Count, CountIn, InCategory;
    var cats := Categories(categories, rs);
    var g := Greedy(cats, i, target, cap);
    var rec, cat := rs[i], Category(categories, rs[i]);
    FilledMeans(rs, categories, i, target, cap, chosen, perCat, deferred);
    ChosenCount(rs, categories, g, cat);
    assert Greedy(cats, i + 1, target, cap) == g + [Tally(perCat, cat) < cap];
    ChosenNext(rs, g, Tally(perCat, cat) < cap);
    assert rs[i..][1..] == rs[i + 1..];
    ApartChoose(Chosen(rs, g), deferred, rs[i..]);
    if Tally(perCat, cat) < cap {
      HoldsOneMore(chosen, Chosen(rs, g), rec);
      TallyOneMore(perCat, categories, Chosen(rs, g), rec);
    }
  }

  lemma PassEnds(rs: seq<Record>, categories: map<string, string>, i: nat, target: nat, cap: nat,
                 chosen: map<string, string>, perCat: map<string, nat>, deferred: seq<Record>)
    requires i <= |rs| && Filled(rs, categories, i, target, cap, chosen, perCat, deferred)
    requires i == |rs| || |chosen| >= target
    ensures var g := Greedy(Categories(categories, rs), |rs|, target, cap);
      && Holds(chosen, Chosen(rs, g))
      && (forall c :: Tally(perCat, c) == InCategory(categories, Chosen(rs, g), c))
      && Apart(Chosen(rs, g), [], deferred)
      && (Count(g) < target ==> deferred == Deferred(rs, g))
  {
    hide Holds, Apart, Greedy, Chosen, Deferred, Count, CountIn, InCategory;
    var cats := Categories(categories, rs);
    FilledMeans(rs, categories, i, target, cap, chosen, perCat, deferred);
    if |chosen| >= target {
      FullStaysFull(rs, cats, i, |rs|, target, cap);
    }
    ApartHeld(Chosen(rs, Greedy(cats, i, target, cap)), deferred, rs[i..]);
  }

  lemma PassStarts(rs: seq<Record>, categories: map<string, string>, target: nat, cap: nat)
    requires Ranked(rs)
    ensures Filled(rs, categories, 0, target, cap, map[], map[], [])
  {
    assert rs[0..] == rs;
  }

  lemma ApartHeld(canon: seq<Record>, held: seq<Record>, rest: seq<Record>)
    requires Apart(canon, held, rest)
    ensures Apart(canon, [], held)
  {
  }

  // ---------------------------------------------------------------- subject buckets

  datatype Bucket = Bucket(name: string, target: nat)

  const RECENT_FROM := 2022
  const FRONTIER_FROM := 2025
  const FRONTIER_SHARE := 35
  const RECENT_SHARE := 35

  predicate IsFrontier(r: Record) { r.year >= FRONTIER_FROM }
  predicate IsRecent(r: Record) { RECENT_FROM <= r.year < FRONTIER_FROM }
  predicate IsOld(r: Record) { r.year < RECENT_FROM }

  function Eligible(name: string, chosen: map<string, string>): Record -> bool {
    (r: Record) => name in r.buckets && r.id !in chosen
  }

  /** What a bucket takes: a quota of each band by score, cut to the bucket's target. */
  function Picked(ranked: seq<Record>, chosen: map<string, string>, b: Bucket): (r: seq<Record>)
    ensures |r| <= b.target
  {
    var eligible := Filter(Eligible(b.name, chosen), ranked);
    var frontier := Filter(IsFrontier, eligible);
    var recent := Filter(IsRecent, eligible);
    var classics := Filter(IsOld, eligible);
    Take(Take(frontier, b.target * FRONTIER_SHARE / 100) + Take(recent, b.target * RECENT_SHARE / 100)
         + Take(classics, b.target), b.target)
  }

  /** The final cut spares both young bands: it only ever shortens the oldest one. */
  lemma CutSparesYoungBands(ranked: seq<Record>, chosen: map<string, string>, b: Bucket)
    ensures var eligible := Filter(Eligible(b.name, chosen), ranked);
      var frontier := Take(Filter(IsFrontier, eligible), b.target * FRONTIER_SHARE / 100);
      var recent := Take(Filter(IsRecent, eligible), b.target * RECENT_SHARE / 100);
      && |frontier + recent| <= b.target
      && Picked(ranked, chosen, b) ==
           frontier + recent + Take(Filter(IsOld, eligible), b.target - |frontier + recent|)
  {
    hide Filter;
    var eligible := Filter(Eligible(b.name, chosen), ranked);
    var young := Take(Filter(IsFrontier, eligible), b.target * FRONTIER_SHARE / 100)
                 + Take(Filter(IsRecent, eligible), b.target * RECENT_SHARE / 100);
    TakeConcat(young, Filter(IsOld, eligible), b.target);
  }

  lemma TakeConcat<T>(a: seq<T>, b: seq<T>, n: nat)
    requires |a| <= n
    ensures Take(a + Take(b, n), n) == a + Take(b, n - |a|)
  {
  }

  lemma {:induction false} FilterKeepsRank(p: Record -> bool, rs: seq<Record>)
    requires Ranked(rs)
    ensures Ranked(Filter(p, rs))
  {
    if rs != [] {
      hide Ranked;
      RankedSplits(rs);
      FilterKeepsRank(p, rs[1..]);
      RankedGrows(rs[0], Filter(p, rs[1..]));
    }
  }

  lemma RankedSplits(rs: seq<Record>)
    requires rs != [] && Ranked(rs)
    ensures Ranked(rs[1..]) && rs[0].score > 0.0
    ensures forall r | r in rs[1..] :: rs[0].score >= r.score && rs[0].id != r.id
  {
    forall r | r in rs[1..] ensures rs[0].score >= r.score && rs[0].id != r.id {
      var k :| 0 <= k < |rs[1..]| && rs[1..][k] == r;
      assert rs[k + 1] == r;
    }
  }

  lemma RankedGrows(first: Record, rest: seq<Record>)
    requires Ranked(rest) && first.score > 0.0
    requires forall r | r in rest :: first.score >= r.score && first.id != r.id
    ensures Ranked([first] + rest)
  {
    var all := [first] + rest;
    forall i, j | 0 <= i < j < |all| ensures all[i].score >= all[j].score && all[i].id != all[j].id {
      assert all[j] == rest[j - 1] && rest[j - 1] in rest;
      assert i > 0 ==> all[i] == rest[i - 1];
    }
  }

  lemma PrefixIsBest(s: seq<Record>, n: nat, a: Record, b: Record)
    requires Ranked(s) && a in Take(s, n) && b in s && b !in Take(s, n)
    ensures a.score >= b.score
  {
    var i :| 0 <= i < |Take(s, n)| && Take(s, n)[i] == a;
    var j :| 0 <= j < |s| && s[j] == b;
    TakeHasFront(s, n);
  }

  lemma TakeHasFront<T>(s: seq<T>, n: nat)
    ensures forall j | 0 <= j < |s| && j < n :: s[j] in Take(s, n)
  {
    forall j | 0 <= j < |s| && j < n ensures s[j] in Take(s, n) {
      assert Take(s, n)[j] == s[j];
    }
  }

  predicate SameBand(a: Record, b: Record) {
    IsFrontier(a) == IsFrontier(b) && IsRecent(a) == IsRecent(b)
  }

  /** A band's slots go to its best papers: an eligible paper passed over in favour of one of its own
      band scores no higher. */
  lemma SlotsGoToTheBest(ranked: seq<Record>, chosen: map<string, string>, b: Bucket, a: Record, other: Record)
    requires Ranked(ranked) && a in Picked(ranked, chosen, b) && SameBand(a, other)
    requires other in Filter(Eligible(b.name, chosen), ranked) && other !in Picked(ranked, chosen, b)
    ensures a.score >= other.score
  {
    hide Picked, Ranked, Take, Filter, Eligible, IsFrontier, IsRecent, IsOld;
    var eligible := Filter(Eligible(b.name, chosen), ranked);
    FilterKeepsRank(Eligible(b.name, chosen), ranked);
    CutSparesYoungBands(ranked, chosen, b);
    var f, r, o := Filter(IsFrontier, eligible), Filter(IsRecent, eligible), Filter(IsOld, eligible);
    FilterKeepsRank(IsFrontier, eligible);
    FilterKeepsRank(IsRecent, eligible);
    FilterKeepsRank(IsOld, eligible);
    var qf, qr := b.target * FRONTIER_SHARE / 100, b.target * RECENT_SHARE / 100;
    var qo: nat := b.target - |Take(f, qf) + Take(r, qr)|;
    BandsAreSlots(f, r, o, qf, qr, qo, a);
    OneBand(other);
    if IsFrontier(a) {
      PrefixIsBest(f, qf, a, other);
    } else if IsRecent(a) {
      PrefixIsBest(r, qr, a, other);
    } else {
      PrefixIsBest(o, qo, a, other);
    }
  }

  lemma OneBand(r: Record)
    ensures IsOld(r) <==> !IsFrontier(r) && !IsRecent(r)
  {
  }

  lemma BandsAreSlots(f: seq<Record>, r: seq<Record>, o: seq<Record>, qf: nat, qr: nat, qo: nat, a: Record)
    requires a in Take(f, qf) + Take(r, qr) + Take(o, qo)
    requires (forall x | x in f :: IsFrontier(x)) && (forall x | x in r :: IsRecent(x))
    requires forall x | x in o :: IsOld(x)
    ensures a in (if IsFrontier(a) then Take(f, qf) else if IsRecent(a) then Take(r, qr) else Take(o, qo))
  {
    TakeIsPart(f, qf);
    TakeIsPart(r, qr);
    TakeIsPart(o, qo);
    hide Take;
  }

  lemma TakeIsPart<T>(s: seq<T>, n: nat)
    ensures forall x | x in Take(s, n) :: x in s
  {
  }

  /** A paper a bucket may take, of these years. */
  predicate MayTake(b: Bucket, chosen: map<string, string>, r: Record, from: int, before: int) {
    b.name in r.buckets && r.id !in chosen && from <= r.year < before
  }

  function Candidates(ranked: seq<Record>, chosen: map<string, string>, b: Bucket, from: int, before: int): set<Record> {
    set r | r in ranked && MayTake(b, chosen, r, from, before)
  }

  function OfYears(rs: seq<Record>, from: int, before: int): set<Record> {
    set r | r in rs && from <= r.year < before
  }

  function MembersOf(rs: seq<Record>): set<Record> {
    set r | r in rs
  }

  lemma {:induction false} MembersCount(rs: seq<Record>)
    requires forall i, j | 0 <= i < j < |rs| :: rs[i] != rs[j]
    ensures |MembersOf(rs)| == |rs|
  {
    if rs != [] {
      MembersCount(rs[1..]);
      assert rs == [rs[0]] + rs[1..];
      assert MembersOf(rs) == {rs[0]} + MembersOf(rs[1..]);
    }
  }

  lemma RankedCount(rs: seq<Record>, n: nat)
    requires Ranked(rs)
    ensures |MembersOf(rs)| == |rs| && |MembersOf(Take(rs, n))| == Min(n, |rs|)
  {
    MembersCount(rs);
    MembersCount(Take(rs, n));
  }

  /** What the filters of one band leave. */
  lemma BandIs(ranked: seq<Record>, chosen: map<string, string>, b: Bucket, band: Record -> bool, from: int, before: int)
    requires forall r | r in ranked :: band(r) <==> from <= r.year < before
    ensures MembersOf(Filter(band, Filter(Eligible(b.name, chosen), ranked))) == Candidates(ranked, chosen, b, from, before)
  {
  }

  lemma BandsApart(f: seq<Record>, r: seq<Record>, o: seq<Record>, end: int)
    requires forall x | x in f :: 2025 <= x.year < end
    requires forall x | x in r :: 2022 <= x.year < 2025
    requires forall x | x in o :: x.year < 2022
    ensures OfYears(f + r + o, 2025, end) == MembersOf(f) && OfYears(f + r + o, 2022, 2025) == MembersOf(r)
    ensures forall start: int :: (forall x | x in o :: x.year >= start) ==> OfYears(f + r + o, start, 2022) == MembersOf(o)
  {
  }

  /** The quotas, in numbers: 35 in a hundred of a bucket's target go to papers from 2025 on and as many to
      those of 2022 to 2024, or to all there are if there are fewer, and what is left of the target to older
      ones. All years lie between `start` and `end`. */
  lemma BandQuotas(ranked: seq<Record>, chosen: map<string, string>, b: Bucket, start: int, end: int)
    requires Ranked(ranked) && start <= 2022 && end >= 2025 && forall r | r in ranked :: start <= r.year < end
    ensures var picked := Picked(ranked, chosen, b);
      var frontier := Min(b.target * 35 / 100, |Candidates(ranked, chosen, b, 2025, end)|);
      var recent := Min(b.target * 35 / 100, |Candidates(ranked, chosen, b, 2022, 2025)|);
      && |OfYears(picked, 2025, end)| == frontier
      && |OfYears(picked, 2022, 2025)| == recent
      && |OfYears(picked, start, 2022)| == Min(b.target - frontier - recent, |Candidates(ranked, chosen, b, start, 2022)|)
      && (forall r | r in picked :: r in ranked && MayTake(b, chosen, r, start, end))
  {
    hide Picked, Ranked, Take, Filter, IsFrontier, IsRecent, IsOld;
    var eligible := Filter(Eligible(b.name, chosen), ranked);
    var f, r, o := Filter(IsFrontier, eligible), Filter(IsRecent, eligible), Filter(IsOld, eligible);
    FilterKeepsRank(Eligible(b.name, chosen), ranked);
    FilterKeepsRank(IsFrontier, eligible);
    FilterKeepsRank(IsRecent, eligible);
    FilterKeepsRank(IsOld, eligible);
    BandYears(ranked, start, end);
    BandIs(ranked, chosen, b, IsFrontier, 2025, end);
    BandIs(ranked, chosen, b, IsRecent, 2022, 2025);
    BandIs(ranked, chosen, b, IsOld, start, 2022);
    CutSparesYoungBands(ranked, chosen, b);
    var q := b.target * 35 / 100;
    var rest: nat := b.target - |Take(f, q) + Take(r, q)|;
    RankedCount(f, q);
    RankedCount(r, q);
    RankedCount(o, rest);
    TakeLength(f, q);
    TakeLength(r, q);
    TakeIsPart(f, q);
    TakeIsPart(r, q);
    TakeIsPart(o, rest);
    BandYears(eligible, start, end);
    BandsApart(Take(f, q), Take(r, q), Take(o, rest), end);
    PickedWereFree(ranked, chosen, b);
    forall x | x in Picked(ranked, chosen, b) ensures x in ranked && MayTake(b, chosen, x, start, end) {
      assert x.id in IdsOf(Picked(ranked, chosen, b));
    }
  }

  lemma TakeLength<T>(s: seq<T>, n: nat)
    ensures |Take(s, n)| == Min(n, |s|)
  {
  }

  lemma BandYears(rs: seq<Record>, start: int, end: int)
    requires forall r | r in rs :: start <= r.year < end
    ensures forall r | r in rs :: IsFrontier(r) <==> 2025 <= r.year < end
    ensures forall r | r in rs :: IsRecent(r) <==> 2022 <= r.year < 2025
    ensures forall r | r in rs :: IsOld(r) <==> start <= r.year < 2022
  {
  }

  // ---------------------------------------------------------------- all buckets

  function Assigned(chosen: map<string, string>, picked: seq<Record>, name: string): map<string, string> {
    map id | id in chosen.Keys + IdsOf(picked) :: if id in IdsOf(picked) then name else chosen[id]
  }

  function AssignedAll(ranked: seq<Record>, chosen: map<string, string>, buckets: seq<Bucket>): map<string, string>
    decreases |buckets|
  {
    if buckets == [] then chosen
    else
      var n := |buckets| - 1;
      var before := AssignedAll(ranked, chosen, buckets[..n]);
      Assigned(before, Picked(ranked, before, buckets[n]), buckets[n].name)
  }

  method AssignBuckets(ranked: seq<Record>, canon: map<string, string>, buckets: seq<Bucket>)
    returns (chosen: map<string, string>)
    ensures chosen == AssignedAll(ranked, canon, buckets)
  {
    hide Picked, Assigned, Filter, Eligible, Take, IsFrontier, IsRecent, IsOld;
    chosen := canon;
    assert buckets[..0] == [];
    for b := 0 to |buckets|
      invariant chosen == AssignedAll(ranked, canon, buckets[..b])
    {
      var name, target := buckets[b].name, buckets[b].target;
      var eligible := Filter(Eligible(name, chosen), ranked);
      var bands := [(Filter(IsFrontier, eligible), FRONTIER_SHARE), (Filter(IsRecent, eligible), RECENT_SHARE),
                    (Filter(IsOld, eligible), 100)];
      var picked: seq<Record> := [];
      for k := 0 to 3
        invariant k == 0 ==> picked == []
        invariant k == 1 ==> picked == Take(bands[0].0, target * FRONTIER_SHARE / 100)
        invariant k == 2 ==> picked == Take(bands[0].0, target * FRONTIER_SHARE / 100)
                                       + Take(bands[1].0, target * RECENT_SHARE / 100)
        invariant k == 3 ==> picked == Take(bands[0].0, target * FRONTIER_SHARE / 100)
                                       + Take(bands[1].0, target * RECENT_SHARE / 100) + Take(bands[2].0, target)
      {
        picked := picked + Take(bands[k].0, target * bands[k].1 / 100);
      }
      picked := Take(picked, target);
      PickedIs(ranked, chosen, buckets[b]);
      chosen := AssignAll(chosen, picked, name);
      assert buckets[..b + 1][..b] == buckets[..b];
    }
    assert buckets[..|buckets|] == buckets;
  }

  lemma PickedIs(ranked: seq<Record>, chosen: map<string, string>, b: Bucket)
    ensures var eligible := Filter(Eligible(b.name, chosen), ranked);
      Picked(ranked, chosen, b) ==
        Take(Take(Filter(IsFrontier, eligible), b.target * FRONTIER_SHARE / 100)
             + Take(Filter(IsRecent, eligible), b.target * RECENT_SHARE / 100)
             + Take(Filter(IsOld, eligible), b.target), b.target)
  {
  }

  method AssignAll(before: map<string, string>, picked: seq<Record>, name: string) returns (chosen: map<string, string>)
    ensures chosen == Assigned(before, picked, name)
  {
    chosen := before;
    assert Assigned(before, [], name) == before;
    hide Assigned;
    assert picked[..0] == [];
    for i := 0 to |picked|
      invariant chosen == Assigned(before, picked[..i], name)
    {
      AssignedOne(before, picked[..i], picked[i], name);
      assert picked[..i + 1] == picked[..i] + [picked[i]];
      chosen := chosen[picked[i].id := name];
    }
    assert picked[..|picked|] == picked;
  }

  lemma AssignedOne(before: map<string, string>, some: seq<Record>, r: Record, name: string)
    ensures Assigned(before, some + [r], name) == Assigned(before, some, name)[r.id := name]
  {
    assert IdsOf(some + [r]) == IdsOf(some) + {r.id};
  }

  function OfBucket(chosen: map<string, string>, name: string): set<string> {
    set id | id in chosen && chosen[id] == name
  }

  lemma {:induction false} IdsAreFew(rs: seq<Record>)
    ensures |IdsOf(rs)| <= |rs|
  {
    if rs != [] {
      IdsAreFew(rs[1..]);
      assert rs == [rs[0]] + rs[1..];
      assert IdsOf(rs) == {rs[0].id} + IdsOf(rs[1..]);
    }
  }

  ghost predicate DistinctNames(buckets: seq<Bucket>) {
    forall i, j | 0 <= i < j < |buckets| :: buckets[i].name != buckets[j].name
  }

  /** Nobody is moved: an assignment once made stays, and what a bucket adds was free before. */
  lemma PickedWereFree(ranked: seq<Record>, chosen: map<string, string>, b: Bucket)
    ensures IdsOf(Picked(ranked, chosen, b)) !! chosen.Keys
    ensures forall r | r in Picked(ranked, chosen, b) :: r in ranked && b.name in r.buckets
  {
    hide Filter;
    var eligible := Filter(Eligible(b.name, chosen), ranked);
    forall r | r in Picked(ranked, chosen, b) ensures r in ranked && b.name in r.buckets && r.id !in chosen {
      assert r in eligible;
      assert Eligible(b.name, chosen)(r);
    }
  }

  /** No earlier assignment changed, every new one names its bucket, no bucket is over its target. */
  ghost predicate Sound(canon: map<string, string>, chosen: map<string, string>, buckets: seq<Bucket>) {
    && (forall id | id in canon :: id in chosen && chosen[id] == canon[id])
    && (forall id | id in chosen && id !in canon :: exists b | b in buckets :: chosen[id] == b.name)
    && (forall b | b in buckets :: |OfBucket(chosen, b.name)| <= b.target)
  }

  /** The buckets are disjoint from the canon and from each other, no earlier assignment changes,
      and each holds at most its target. */
  lemma {:induction false} BucketsAreDisjointAndBounded(ranked: seq<Record>, canon: map<string, string>,
                                                        buckets: seq<Bucket>)
    requires DistinctNames(buckets)
    requires forall b | b in buckets :: OfBucket(canon, b.name) == {}
    ensures Sound(canon, AssignedAll(ranked, canon, buckets), buckets)
    decreases |buckets|
  {
    hide Picked, Assigned, OfBucket, DistinctNames, Sound;
    if buckets == [] {
      SoundStart(canon);
    } else {
      var n := |buckets| - 1;
      NamesShorter(buckets);
      BucketsAreDisjointAndBounded(ranked, canon, buckets[..n]);
      assert buckets == buckets[..n] + [buckets[n]];
      SoundStep(ranked, canon, AssignedAll(ranked, canon, buckets[..n]), buckets[..n], buckets[n]);
    }
  }

  lemma SoundStart(canon: map<string, string>)
    ensures Sound(canon, canon, [])
  {
  }

  lemma SoundStep(ranked: seq<Record>, canon: map<string, string>, before: map<string, string>,
                  buckets: seq<Bucket>, last: Bucket)
    requires Sound(canon, before, buckets) && OfBucket(canon, last.name) == {}
    requires forall b | b in buckets :: b.name != last.name
    ensures Sound(canon, Assigned(before, Picked(ranked, before, last), last.name), buckets + [last])
  {
    hide Picked, Assigned, OfBucket;
    var chosen := Assigned(before, Picked(ranked, before, last), last.name);
    OneMoreBucket(ranked, before, last);
    OnlyEarlierNames(canon, before, buckets, last.name);
    forall id | id in chosen && id !in canon
      ensures exists b | b in buckets + [last] :: chosen[id] == b.name
    {
      if id in before {
        var b :| b in buckets && before[id] == b.name;
        assert b in buckets + [last];
      } else {
        assert last in buckets + [last];
      }
    }
    forall b | b in buckets + [last] ensures |OfBucket(chosen, b.name)| <= b.target {
      assert b in buckets || b == last;
    }
  }

  lemma NamesShorter(buckets: seq<Bucket>)
    requires buckets != [] && DistinctNames(buckets)
    ensures var n := |buckets| - 1;
      DistinctNames(buckets[..n]) && forall b | b in buckets[..n] :: b in buckets && b.name != buckets[n].name
  {
    var n := |buckets| - 1;
    forall b | b in buckets[..n] ensures b in buckets && b.name != buckets[n].name {
      var i :| 0 <= i < n && buckets[..n][i] == b;
      assert buckets[i] == b;
    }
  }

  lemma OnlyEarlierNames(canon: map<string, string>, before: map<string, string>, buckets: seq<Bucket>, name: string)
    requires forall id | id in canon :: id in before && before[id] == canon[id]
    requires forall id | id in before && id !in canon :: exists b | b in buckets :: before[id] == b.name
    ensures OfBucket(canon, name) == {} && (forall b | b in buckets :: b.name != name) ==> OfBucket(before, name) == {}
  {
    if OfBucket(canon, name) == {} && forall b | b in buckets :: b.name != name {
      forall id | id in before ensures before[id] != name {
        if id in canon {
          assert canon[id] == name ==> id in OfBucket(canon, name);
        }
      }
    }
  }

  /** Filling one bucket. */
  lemma OneMoreBucket(ranked: seq<Record>, before: map<string, string>, b: Bucket)
    ensures var chosen := Assigned(before, Picked(ranked, before, b), b.name);
      && (forall id | id in before :: id in chosen && chosen[id] == before[id])
      && (forall id | id in chosen && id !in before :: chosen[id] == b.name)
      && (OfBucket(before, b.name) == {} ==> |OfBucket(chosen, b.name)| <= b.target)
      && (forall name | name != b.name :: OfBucket(chosen, name) == OfBucket(before, name))
  {
    hide Picked;
    var picked := Picked(ranked, before, b);
    var chosen := Assigned(before, picked, b.name);
    PickedWereFree(ranked, before, b);
    IdsAreFew(picked);
    if OfBucket(before, b.name) == {} {
      forall id | id in before ensures before[id] != b.name {
        assert before[id] == b.name ==> id in OfBucket(before, b.name);
      }
      assert OfBucket(chosen, b.name) == IdsOf(picked);
    }
  }

  lemma OneBucketHolds(ranked: seq<Record>, before: map<string, string>, b: Bucket)
    requires OfBucket(before, b.name) == {}
    ensures var chosen := Assigned(before, Picked(ranked, before, b), b.name);
      && OfBucket(chosen, b.name) == IdsOf(Picked(ranked, before, b))
      && forall name | name != b.name :: OfBucket(chosen, name) == OfBucket(before, name)
  {
    hide Picked;
    PickedWereFree(ranked, before, b);
    forall id | id in before ensures before[id] != b.name {
      assert before[id] == b.name ==> id in OfBucket(before, b.name);
    }
  }

  lemma {:induction false} UnnamedStaysEmpty(ranked: seq<Record>, canon: map<string, string>, buckets: seq<Bucket>,
                                             name: string)
    requires OfBucket(canon, name) == {} && forall b | b in buckets :: b.name != name
    ensures OfBucket(AssignedAll(ranked, canon, buckets), name) == {}
    decreases |buckets|
  {
    hide Picked, Assigned, OfBucket;
    if buckets != [] {
      var n := |buckets| - 1;
      assert buckets[n] in buckets && forall b | b in buckets[..n] :: b in buckets;
      UnnamedStaysEmpty(ranked, canon, buckets[..n], name);
      OneMoreBucket(ranked, AssignedAll(ranked, canon, buckets[..n]), buckets[n]);
    }
  }

  /** In the end each bucket holds exactly what it picked when its turn came: the canon and the buckets
      before it had first call, and nothing was taken from it since. */
  lemma {:induction false} BucketsHoldTheirPicks(ranked: seq<Record>, canon: map<string, string>,
                                                 buckets: seq<Bucket>, i: nat)
    requires DistinctNames(buckets) && i < |buckets|
    requires forall b | b in buckets :: OfBucket(canon, b.name) == {}
    ensures OfBucket(AssignedAll(ranked, canon, buckets), buckets[i].name)
         == IdsOf(Picked(ranked, AssignedAll(ranked, canon, buckets[..i]), buckets[i]))
    decreases |buckets|
  {
    hide Picked, Assigned, OfBucket, DistinctNames;
    var n := |buckets| - 1;
    var before := AssignedAll(ranked, canon, buckets[..n]);
    NamesShorter(buckets);
    assert buckets[n] in buckets;
    UnnamedStaysEmpty(ranked, canon, buckets[..n], buckets[n].name);
    OneBucketHolds(ranked, before, buckets[n]);
    if i < n {
      assert buckets[..n][..i] == buckets[..i] && buckets[..n][i] == buckets[i] && buckets[i] in buckets[..n];
      BucketsHoldTheirPicks(ranked, canon, buckets[..n], i);
    }
  }
}
