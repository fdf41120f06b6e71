/** Amortised checkpoint clean-up (worker.py `_prune_checkpoints`). */
module CheckpointPruning {
  import opened EvidenceModels
  import opened Sequences
  import S = TurnStore
  import Protocol = TurnProtocol

  const PRUNE_LIMIT := 200

  function IsDue(cutoff: nat): TurnRow -> bool {
    (t: TurnRow) => t.result != Pending && t.created < cutoff && !t.pruned
  }

  /** Terminal turns older than the cutoff that carry no stamp yet. */
  function Due(st: S.Store, cutoff: nat): seq<TurnRow> {
    Filter(IsDue(cutoff), st.turns)
  }

  /** `expired_turn_ids`: the oldest `PRUNE_LIMIT` of them. */
  function Expired(st: S.Store, cutoff: nat): seq<TurnRow> {
    Take(S.OrderBy(Due(st, cutoff)), PRUNE_LIMIT)
  }

  /** One pass that meets no storage error. */
  function Pass(st: S.Store, cutoff: nat): S.Store {
    if Expired(st, cutoff) == [] then st
    else S.MarkCheckpointsPruned(st, S.Ids(Expired(st, cutoff)))
  }

  // ---------------------------------------------------------------- ordering keeps the rows

  function Without(ids: set<Uuid>): TurnRow -> bool {
    (t: TurnRow) => t.id !in ids
  }

  lemma {:induction false} InsertCounts(p: TurnRow -> bool, t: TurnRow, rows: seq<TurnRow>)
    ensures |Filter(p, S.InsertOrdered(t, rows))| == |Filter(p, [t] + rows)|
    ensures forall x :: x in S.InsertOrdered(t, rows) <==> x == t || x in rows
  {
    assert ([t] + rows)[1..] == rows;
    if rows != [] && !S.Before(t, rows[0]) {
      InsertCounts(p, t, rows[1..]);
      var rest := S.InsertOrdered(t, rows[1..]);
      assert ([rows[0]] + rest)[1..] == rest && ([t] + rows[1..])[1..] == rows[1..];
    }
  }

  lemma {:induction false} OrderCounts(p: TurnRow -> bool, rows: seq<TurnRow>)
    ensures |Filter(p, S.OrderBy(rows))| == |Filter(p, rows)|
    ensures forall x :: x in S.OrderBy(rows) <==> x in rows
  {
    if rows != [] {
      OrderCounts(p, rows[1..]);
      InsertCounts(p, rows[0], S.OrderBy(rows[1..]));
      assert ([rows[0]] + S.OrderBy(rows[1..]))[1..] == S.OrderBy(rows[1..]);
    }
  }

  lemma {:induction false} OrderDistinct(rows: seq<TurnRow>)
    requires S.DistinctIds(rows)
    ensures S.DistinctIds(S.OrderBy(rows)) && |S.OrderBy(rows)| == |rows|
  {
    if rows != [] {
      OrderDistinct(rows[1..]);
      OrderCounts(Without({}), rows[1..]);
      forall x | x in rows[1..] ensures x.id != rows[0].id {
        var i :| 0 <= i < |rows[1..]| && rows[1..][i] == x;
        assert rows[i + 1] == x;
      }
      InsertDistinct(rows[0], S.OrderBy(rows[1..]));
    }
  }

  lemma {:induction false} InsertDistinct(t: TurnRow, rows: seq<TurnRow>)
    requires S.DistinctIds(rows) && forall x | x in rows :: x.id != t.id
    ensures S.DistinctIds(S.InsertOrdered(t, rows)) && |S.InsertOrdered(t, rows)| == |rows| + 1
  {
    if rows != [] && !S.Before(t, rows[0]) {
      InsertDistinct(t, rows[1..]);
      InsertCounts(Without({}), t, rows[1..]);
      var rest := S.InsertOrdered(t, rows[1..]);
      forall j | 0 <= j < |rest| ensures rest[j].id != rows[0].id {
        assert rest[j] in rest;
        if rest[j] != t {
          var i :| 0 <= i < |rows[1..]| && rows[1..][i] == rest[j];
          assert rows[i + 1] == rest[j];
        }
      }
    }
  }

  lemma {:induction false} FilterDistinct(p: TurnRow -> bool, rows: seq<TurnRow>)
    requires S.DistinctIds(rows)
    ensures S.DistinctIds(Filter(p, rows))
  {
    if rows != [] {
      FilterDistinct(p, rows[1..]);
      var rest := Filter(p, rows[1..]);
      forall j | 0 <= j < |rest| ensures rest[j].id != rows[0].id {
        assert rest[j] in rows[1..];
        var i :| 0 <= i < |rows[1..]| && rows[1..][i] == rest[j];
        assert rows[i + 1] == rest[j];
      }
    }
  }

  // ---------------------------------------------------------------- progress

  /** A pass selects only due turns, and stamps exactly the due turns it selected. */
  lemma {:induction false} StampedRowsLeave(rows: seq<TurnRow>, cutoff: nat, ids: set<Uuid>)
    ensures |Filter(IsDue(cutoff), MapSeq(S.SetPruned(ids), rows))|
         == |Filter(Without(ids), Filter(IsDue(cutoff), rows))|
  {
    if rows != [] {
      StampedRowsLeave(rows[1..], cutoff, ids);
      assert MapSeq(S.SetPruned(ids), rows)[1..] == MapSeq(S.SetPruned(ids), rows[1..]);
    }
  }

  lemma KeepsTheRest(rows: seq<TurnRow>, n: nat)
    requires S.DistinctIds(rows) && n <= |rows|
    ensures |Filter(Without(S.Ids(rows[..n])), rows)| == |rows| - n
  {
    var ids := S.Ids(rows[..n]);
    assert rows == rows[..n] + rows[n..];
    FilterConcat(Without(ids), rows[..n], rows[n..]);
    forall i | 0 <= i < n ensures rows[..n][i].id in ids {
      assert rows[..n][i] in rows[..n];
    }
    FilterNone(Without(ids), rows[..n]);
    forall t | t in rows[n..] ensures t.id !in ids {
      var j :| 0 <= j < |rows[n..]| && rows[n..][j] == t;
      assert rows[n + j] == t;
    }
    FilterAll(Without(ids), rows[n..]);
  }

  /** Every pass shrinks the backlog by what it selected, up to the limit. */
  lemma PassShrinksBacklog(st: S.Store, cutoff: nat)
    requires S.DistinctIds(st.turns)
    ensures |Due(Pass(st, cutoff), cutoff)|
         == if |Due(st, cutoff)| <= PRUNE_LIMIT then 0 else |Due(st, cutoff)| - PRUNE_LIMIT
    ensures S.DistinctIds(Pass(st, cutoff).turns)
  {
    var due := Due(st, cutoff);
    var ordered := S.OrderBy(due);
    FilterDistinct(IsDue(cutoff), st.turns);
    OrderDistinct(due);
    var n := if |due| <= PRUNE_LIMIT then |due| else PRUNE_LIMIT;
    assert Expired(st, cutoff) == ordered[..n];
    if n > 0 {
      var ids := S.Ids(ordered[..n]);
      StampedRowsLeave(st.turns, cutoff, ids);
      OrderCounts(Without(ids), due);
      KeepsTheRest(ordered, n);
    }
  }

  lemma {:induction false} IdsCount(rows: seq<TurnRow>)
    requires S.DistinctIds(rows)
    ensures |S.Ids(rows)| == |rows|
  {
    if rows != [] {
      IdsCount(rows[1..]);
      assert rows == [rows[0]] + rows[1..];
      assert S.Ids(rows) == {rows[0].id} + S.Ids(rows[1..]);
      assert rows[0].id !in S.Ids(rows[1..]) by {
        forall t | t in rows[1..] ensures t.id != rows[0].id {
          var i :| 0 <= i < |rows[1..]| && rows[1..][i] == t;
          assert rows[i + 1] == t;
        }
      }
    }
  }

  lemma Fewer(a: set<Uuid>, b: set<Uuid>)
    requires a <= b
    ensures |a| <= |b|
  {
    assert b == a + (b - a);
  }

  function DueIds(st: S.Store, cutoff: nat): set<Uuid> {
    S.Ids(Due(st, cutoff))
  }

  function RemainingAfter(n: nat, passes: nat): nat {
    if n <= passes * PRUNE_LIMIT then 0 else n - passes * PRUNE_LIMIT
  }

  /** Store and cutoff as each pass finds them; whatever happens in between, nothing becomes due. */
  ghost predicate NoArrivals(stores: seq<S.Store>, cutoffs: seq<nat>) {
    && |stores| == |cutoffs|
    && (forall i | 0 <= i < |stores| :: S.DistinctIds(stores[i].turns))
    && forall i | 0 < i < |stores| ::
         DueIds(stores[i], cutoffs[i]) <= DueIds(Pass(stores[i - 1], cutoffs[i - 1]), cutoffs[i - 1])
  }

  /** And nothing else stamps or removes what is due. */
  ghost predicate NoDepartures(stores: seq<S.Store>, cutoffs: seq<nat>)
    requires |stores| == |cutoffs|
  {
    forall i | 0 < i < |stores| ::
      DueIds(stores[i], cutoffs[i]) == DueIds(Pass(stores[i - 1], cutoffs[i - 1]), cutoffs[i - 1])
  }

  /** With no new arrivals between the passes, whatever their cutoffs, a backlog of n turns is gone
      after ceil(n / 200) of them; and no sooner when nothing else shortens it. */
  lemma {:induction false} BacklogCleared(stores: seq<S.Store>, cutoffs: seq<nat>)
    requires stores != [] && NoArrivals(stores, cutoffs)
    ensures var n := |stores|;
      var left := |Due(Pass(stores[n - 1], cutoffs[n - 1]), cutoffs[n - 1])|;
      && left <= RemainingAfter(|Due(stores[0], cutoffs[0])|, n)
      && (NoDepartures(stores, cutoffs) ==> left == RemainingAfter(|Due(stores[0], cutoffs[0])|, n))
  {
    hide Pass, Due, S.Ids;
    var n := |stores| - 1;
    PassShrinksBacklog(stores[n], cutoffs[n]);
    if n > 0 {
      BacklogCleared(stores[..n], cutoffs[..n]);
      BacklogCarriesOver(stores[n - 1], cutoffs[n - 1], stores[n], cutoffs[n]);
    }
  }

  lemma BacklogCarriesOver(before: S.Store, c1: nat, later: S.Store, c2: nat)
    requires S.DistinctIds(before.turns) && S.DistinctIds(later.turns)
    requires DueIds(later, c2) <= DueIds(Pass(before, c1), c1)
    ensures |Due(later, c2)| <= |Due(Pass(before, c1), c1)|
    ensures DueIds(later, c2) == DueIds(Pass(before, c1), c1) ==> |Due(later, c2)| == |Due(Pass(before, c1), c1)|
  {
    hide Pass;
    PassShrinksBacklog(before, c1);
    FilterDistinct(IsDue(c2), later.turns);
    FilterDistinct(IsDue(c1), Pass(before, c1).turns);
    IdsCount(Due(later, c2));
    IdsCount(Due(Pass(before, c1), c1));
    Fewer(DueIds(later, c2), DueIds(Pass(before, c1), c1));
  }

  lemma SelectedAreStamped(mid: S.Store, ids: set<Uuid>, i: nat)
    requires i < |mid.turns| && mid.turns[i].id in ids
    ensures var stamped := S.MarkCheckpointsPruned(mid, ids);
      |stamped.turns| == |mid.turns| && stamped.turns[i].id == mid.turns[i].id && stamped.turns[i].pruned
  {
  }

  /** Only terminal turns past the cutoff are selected, and none by two passes, whatever their
      cutoffs and whatever happens to the store between selecting and stamping (`mid`) and between
      the passes (`later`). */
  lemma NeverSelectedTwice(st: S.Store, c1: nat, mid: S.Store, later: S.Store, c2: nat, t: TurnRow, u: TurnRow)
    requires t in Expired(st, c1) && S.Evolves(st, mid)
    requires S.Evolves(S.MarkCheckpointsPruned(mid, S.Ids(Expired(st, c1))), later) && S.DistinctIds(later.turns)
    requires u in Expired(later, c2)
    ensures t.result != Pending && t.created < c1
    ensures u.id != t.id
  {
    hide Expired, S.MarkCheckpointsPruned;
    var ids := S.Ids(Expired(st, c1));
    var stamped := S.MarkCheckpointsPruned(mid, ids);
    ExpiredAreDue(st, c1, t);
    ExpiredAreDue(later, c2, u);
    var i :| 0 <= i < |st.turns| && st.turns[i] == t;
    assert S.RowEvolves(st.turns[i], mid.turns[i]);
    assert t.id in ids;
    SelectedAreStamped(mid, ids, i);
    assert S.RowEvolves(stamped.turns[i], later.turns[i]);
    var j :| 0 <= j < |later.turns| && later.turns[j] == u;
  }

  /** In particular with any runs of the turn protocol in between. */
  lemma NeverSelectedTwiceInRuns(s: Protocol.State, c1: nat, es1: seq<Protocol.Event>, es2: seq<Protocol.Event>,
                                 c2: nat, t: TurnRow, u: TurnRow)
    requires Protocol.Safe(s) && t in Expired(s.store, c1)
    requires var mid := Protocol.Run(s, es1);
      var stamped := Protocol.Apply(mid, Protocol.StampPruned(S.Ids(Expired(s.store, c1))));
      u in Expired(Protocol.Run(stamped, es2).store, c2)
    ensures u.id != t.id
  {
    hide Expired, Protocol.Run;
    var stamp := Protocol.StampPruned(S.Ids(Expired(s.store, c1)));
    Protocol.EveryRunIsSafe(s, es1);
    var mid := Protocol.Run(s, es1);
    Protocol.SafeStep(mid, stamp);
    var stamped := Protocol.Apply(mid, stamp);
    Protocol.EveryRunIsSafe(stamped, es2);
    NeverSelectedTwice(s.store, c1, mid.store, Protocol.Run(stamped, es2).store, c2, t, u);
  }

  lemma ExpiredAreDue(st: S.Store, cutoff: nat, t: TurnRow)
    requires t in Expired(st, cutoff)
    ensures t in st.turns && IsDue(cutoff)(t)
  {
    OrderCounts(Without({}), Due(st, cutoff));
    assert t in Due(st, cutoff);
  }

  // ---------------------------------------------------------------- which turns a pass picks

  ghost predicate Sorted(rows: seq<TurnRow>) {
    forall i, j | 0 <= i < j < |rows| :: S.Before(rows[i], rows[j])
  }

  lemma {:induction false} InsertSorted(t: TurnRow, rows: seq<TurnRow>)
    requires Sorted(rows) && forall x | x in rows :: x.id != t.id
    ensures Sorted(S.InsertOrdered(t, rows))
  {
    if rows != [] && !S.Before(t, rows[0]) {
      InsertSorted(t, rows[1..]);
      InsertCounts(Without({}), t, rows[1..]);
      var rest := S.InsertOrdered(t, rows[1..]);
      forall j | 0 <= j < |rest| ensures S.Before(rows[0], rest[j]) {
        assert rest[j] in rest;
        if rest[j] != t {
          var k :| 0 <= k < |rows[1..]| && rows[1..][k] == rest[j];
          assert rows[k + 1] == rest[j];
        }
      }
    }
  }

  lemma {:induction false} OrderSorted(rows: seq<TurnRow>)
    requires S.DistinctIds(rows)
    ensures Sorted(S.OrderBy(rows))
  {
    if rows != [] {
      OrderSorted(rows[1..]);
      OrderCounts(Without({}), rows[1..]);
      forall x | x in S.OrderBy(rows[1..]) ensures x.id != rows[0].id {
        var k :| 0 <= k < |rows[1..]| && rows[1..][k] == x;
        assert rows[k + 1] == x;
      }
      InsertSorted(rows[0], S.OrderBy(rows[1..]));
    }
  }

  /** Each of the first n is older than every one left out. */
  predicate OldestFirst(rows: seq<TurnRow>, n: nat) {
    forall i, j | 0 <= i < n && n <= j < |rows| :: S.Before(rows[i], rows[j])
  }

  /** The first n of any listing of the due turns are the oldest n if and only if each is older than
      every one left out; in particular when there are at most n. */
  lemma PicksAgreeIff(listed: seq<TurnRow>, due: seq<TurnRow>, n: nat)
    requires S.DistinctIds(listed) && S.DistinctIds(due) && forall t :: t in listed <==> t in due
    ensures S.Ids(Take(listed, n)) == S.Ids(Take(S.OrderBy(due), n)) <==> OldestFirst(listed, n)
  {
    hide S.Ids, S.OrderBy, OldestFirst, Sorted, S.DistinctIds;
    var ordered := S.OrderBy(due);
    OrderSorted(due);
    OrderDistinct(due);
    OrderMembers(due);
    SameMembers(listed, ordered);
    if n < |listed| {
      SortedIsOldestFirst(ordered, n);
      if OldestFirst(listed, n) {
        OldestAreFirst(listed, ordered, n);
        OldestAreFirst(ordered, listed, n);
      }
      if S.Ids(listed[..n]) == S.Ids(ordered[..n]) {
        FirstAreOldest(listed, ordered, n);
      }
    } else {
      AllAreOldest(listed, n);
      assert Take(listed, n) == listed && Take(ordered, n) == ordered;
    }
  }

  lemma OrderMembers(rows: seq<TurnRow>)
    ensures forall x :: x in S.OrderBy(rows) <==> x in rows
  {
    OrderCounts(Without({}), rows);
  }

  lemma SameMembers(a: seq<TurnRow>, b: seq<TurnRow>)
    requires S.DistinctIds(a) && S.DistinctIds(b) && forall t :: t in a <==> t in b
    ensures S.Ids(a) == S.Ids(b) && |a| == |b|
  {
    IdsCount(a);
    IdsCount(b);
  }

  lemma SortedIsOldestFirst(rows: seq<TurnRow>, n: nat)
    requires Sorted(rows)
    ensures OldestFirst(rows, n)
  {
  }

  lemma AllAreOldest(rows: seq<TurnRow>, n: nat)
    requires n >= |rows|
    ensures OldestFirst(rows, n)
  {
  }

  function Find(rows: seq<TurnRow>, t: TurnRow): (k: nat)
    requires t in rows
    ensures k < |rows| && rows[k] == t
  {
    if rows[0] == t then 0 else 1 + Find(rows[1..], t)
  }

  lemma InFirst(rows: seq<TurnRow>, n: nat, k: nat)
    requires S.DistinctIds(rows) && n <= |rows| && k < |rows|
    ensures rows[k].id in S.Ids(rows[..n]) <==> k < n
  {
    if k < n {
      assert rows[..n][k] in rows[..n];
    }
  }

  /** Were a turn that is among the first n here not among the first n there, all first n there would
      be here too, besides it. */
  lemma OthersAreHere(a: seq<TurnRow>, b: seq<TurnRow>, n: nat, i: nat, m: nat)
    requires S.DistinctIds(a) && S.DistinctIds(b) && n <= |a| == |b| && forall t :: t in a <==> t in b
    requires OldestFirst(a, n) && OldestFirst(b, n) && i < n <= m < |b| && b[m] == a[i]
    ensures S.Ids(b[..n]) <= S.Ids(a[..n]) - {a[i].id}
  {
    hide S.Ids;
    forall k | 0 <= k < n ensures b[k].id in S.Ids(a[..n]) && b[k].id != a[i].id {
      var j := Find(a, b[k]);
      assert S.Before(b[k], b[m]);
      assert j < n;
      InFirst(a, n, j);
    }
    FirstIds(b, n, S.Ids(a[..n]) - {a[i].id});
  }

  lemma FirstIds(rows: seq<TurnRow>, n: nat, ids: set<Uuid>)
    requires n <= |rows| && forall k | 0 <= k < n :: rows[k].id in ids
    ensures S.Ids(rows[..n]) <= ids
  {
    forall t | t in rows[..n] ensures t.id in ids {
      var k := Find(rows[..n], t);
      assert rows[k] == t;
    }
  }

  lemma StaysFirst(a: seq<TurnRow>, b: seq<TurnRow>, n: nat, i: nat)
    requires S.DistinctIds(a) && S.DistinctIds(b) && n <= |a| == |b| && forall t :: t in a <==> t in b
    requires OldestFirst(a, n) && OldestFirst(b, n) && i < n
    ensures a[i].id in S.Ids(b[..n])
  {
    hide S.Ids, OldestFirst;
    var m := Find(b, a[i]);
    InFirst(b, n, m);
    InFirst(a, n, i);
    IdsCount(a[..n]);
    IdsCount(b[..n]);
    if m >= n {
      OthersAreHere(a, b, n, i, m);
      Fewer(S.Ids(b[..n]), S.Ids(a[..n]) - {a[i].id});
    }
  }

  lemma OldestAreFirst(a: seq<TurnRow>, b: seq<TurnRow>, n: nat)
    requires S.DistinctIds(a) && S.DistinctIds(b) && n <= |a| == |b| && forall t :: t in a <==> t in b
    requires OldestFirst(a, n) && OldestFirst(b, n)
    ensures S.Ids(a[..n]) <= S.Ids(b[..n])
  {
    hide S.Ids, OldestFirst;
    forall i | 0 <= i < n ensures a[i].id in S.Ids(b[..n]) {
      StaysFirst(a, b, n, i);
    }
    FirstIds(a, n, S.Ids(b[..n]));
  }

  lemma FirstAreOldest(a: seq<TurnRow>, b: seq<TurnRow>, n: nat)
    requires S.DistinctIds(a) && S.DistinctIds(b) && n <= |a| == |b| && forall t :: t in a <==> t in b
    requires OldestFirst(b, n) && S.Ids(a[..n]) == S.Ids(b[..n])
    ensures OldestFirst(a, n)
  {
    hide S.Ids;
    forall i, j | 0 <= i < n && n <= j < |a| ensures S.Before(a[i], a[j]) {
      var k, m := Find(b, a[i]), Find(b, a[j]);
      InFirst(a, n, i);
      InFirst(a, n, j);
      InFirst(b, n, k);
      InFirst(b, n, m);
      assert S.Before(b[k], b[m]);
    }
  }
}
