/** Sequence helpers shared by the store, the limiters and the selector. */
module Sequences {

  function Filter<T>(p: T -> bool, s: seq<T>): (r: seq<T>)
    ensures |r| <= |s|
    ensures forall x | x in r :: x in s && p(x)
    ensures forall x | x in s && p(x) :: x in r
  {
    if s == [] then []
    else if p(s[0]) then [s[0]] + Filter(p, s[1..])
    else Filter(p, s[1..])
  }

  function MapSeq<A, B>(f: A -> B, s: seq<A>): (r: seq<B>)
    ensures |r| == |s|
    ensures forall i | 0 <= i < |s| :: r[i] == f(s[i])
  {
    seq(|s|, i requires 0 <= i < |s| => f(s[i]))
  }

  /** `s[-n:]`, with the exception Python makes: `s[-0:]` is all of `s`. */
  function TakeLast<T>(s: seq<T>, n: nat): seq<T> {
    if n <= |s| then s[|s| - n..] else s
  }

  function Take<T>(s: seq<T>, n: nat): seq<T> {
    if n <= |s| then s[..n] else s
  }

  function DropLast<T>(s: seq<T>, n: nat): seq<T> {
    if n <= |s| then s[..|s| - n] else []
  }

  lemma {:induction false} FilterConcat<T>(p: T -> bool, a: seq<T>, b: seq<T>)
    ensures Filter(p, a + b) == Filter(p, a) + Filter(p, b)
  {
    if a == [] {
      assert a + b == b;
    } else {
      assert (a + b)[1..] == a[1..] + b;
      FilterConcat(p, a[1..], b);
    }
  }

  /** A pointwise update that respects the predicate commutes with filtering. */
  lemma {:induction false} FilterMap<T>(p: T -> bool, f: T -> T, s: seq<T>)
    requires forall x | x in s :: p(f(x)) == p(x)
    ensures Filter(p, MapSeq(f, s)) == MapSeq(f, Filter(p, s))
  {
    hide Filter, MapSeq;
    if s == [] {
      MapFilterNothing(p, f);
    } else {
      FilterMap(p, f, s[1..]);
      MapHead(f, s);
      FilterHead(p, f(s[0]), MapSeq(f, s[1..]));
      FilterHead(p, s[0], s[1..]);
      assert s == [s[0]] + s[1..];
      if p(s[0]) { MapHead(f, [s[0]] + Filter(p, s[1..])); }
    }
  }

  lemma MapFilterNothing<T>(p: T -> bool, f: T -> T)
    ensures Filter(p, MapSeq(f, [])) == MapSeq(f, Filter(p, []))
  {
  }

  lemma MapHead<A, B>(f: A -> B, s: seq<A>)
    requires s != []
    ensures MapSeq(f, s) == [f(s[0])] + MapSeq(f, s[1..])
  {
  }

  lemma FilterHead<T>(p: T -> bool, x: T, s: seq<T>)
    ensures Filter(p, [x] + s) == if p(x) then [x] + Filter(p, s) else Filter(p, s)
  {
    assert ([x] + s)[1..] == s;
  }

  function Both<T>(p: T -> bool, q: T -> bool): T -> bool {
    x => p(x) && q(x)
  }

  lemma {:induction false} FilterFilter<T>(p: T -> bool, q: T -> bool, s: seq<T>)
    ensures Filter(q, Filter(p, s)) == Filter(Both(p, q), s)
  {
    if s != [] {
      FilterFilter(p, q, s[1..]);
    }
  }

  lemma {:induction false} FilterSame<T>(p: T -> bool, q: T -> bool, s: seq<T>)
    requires forall x | x in s :: p(x) == q(x)
    ensures Filter(p, s) == Filter(q, s)
  {
    if s != [] {
      FilterSame(p, q, s[1..]);
    }
  }

  lemma {:induction false} FilterAll<T>(p: T -> bool, s: seq<T>)
    requires forall x | x in s :: p(x)
    ensures Filter(p, s) == s
  {
    if s != [] {
      FilterAll(p, s[1..]);
    }
  }

  /** The head of a filtered sequence is its first match. */
  lemma {:induction false} FirstMatch<T>(p: T -> bool, s: seq<T>, i: nat)
    requires i < |s| && p(s[i]) && forall j | 0 <= j < i :: !p(s[j])
    ensures Filter(p, s) != [] && Filter(p, s)[0] == s[i]
  {
    if i > 0 {
      FirstMatch(p, s[1..], i - 1);
    }
  }

  lemma FilterNone<T>(p: T -> bool, s: seq<T>)
    ensures Filter(p, s) == [] <==> forall i | 0 <= i < |s| :: !p(s[i])
  {
    if Filter(p, s) != [] {
      assert Filter(p, s)[0] in s;
    } else {
      assert forall i | 0 <= i < |s| :: s[i] in s;
    }
  }

  lemma {:induction false} FilterKeepsAll<T>(p: T -> bool, s: seq<T>)
    ensures |Filter(p, s)| == |s| <==> forall i | 0 <= i < |s| :: p(s[i])
  {
    if s != [] {
      FilterKeepsAll(p, s[1..]);
      assert forall i | 0 <= i < |s| :: s[i] == if i == 0 then s[0] else s[1..][i - 1];
    }
  }

  ghost predicate Ascending(at: seq<nat>) {
    forall i, j | 0 <= i < j < |at| :: at[i] < at[j]
  }

  /** `out` is made of the elements at these places, in that order; those and no others are kept. */
  ghost predicate Picks<A, B>(out: seq<B>, from: seq<A>, keep: A -> bool, make: A -> B, at: seq<nat>) {
    Made(out, from, keep, make, at) && Complete(from, keep, at)
  }

  ghost predicate Made<A, B>(out: seq<B>, from: seq<A>, keep: A -> bool, make: A -> B, at: seq<nat>) {
    && |at| == |out| && Ascending(at)
    && forall j | 0 <= j < |at| :: at[j] < |from| && keep(from[at[j]]) && out[j] == make(from[at[j]])
  }

  ghost predicate Complete<A>(from: seq<A>, keep: A -> bool, at: seq<nat>) {
    forall i | 0 <= i < |from| && keep(from[i]) :: i in at
  }

  function Shifted(at: seq<nat>): (r: seq<nat>)
    ensures |r| == |at| && forall j | 0 <= j < |at| :: r[j] == at[j] + 1
  {
    seq(|at|, j requires 0 <= j < |at| => at[j] + 1)
  }

  /** One more element in front. */
  lemma PicksCons<A, B>(out: seq<B>, first: A, from: seq<A>, keep: A -> bool, make: A -> B, at: seq<nat>)
    returns (all: seq<nat>)
    requires Picks(out, from, keep, make, at)
    ensures Picks((if keep(first) then [make(first)] else []) + out, [first] + from, keep, make, all)
  {
    all := (if keep(first) then [0] else []) + Shifted(at);
    MadeCons(out, first, from, keep, make, at);
    CompleteCons(first, from, keep, at);
  }

  lemma MadeCons<A, B>(out: seq<B>, first: A, from: seq<A>, keep: A -> bool, make: A -> B, at: seq<nat>)
    requires Made(out, from, keep, make, at)
    ensures Made((if keep(first) then [make(first)] else []) + out, [first] + from, keep, make,
                 (if keep(first) then [0] else []) + Shifted(at))
  {
    MadeShifted(out, first, from, keep, make, at);
    hide Shifted;
    if keep(first) {
      MadeFirst(out, [first] + from, keep, make, Shifted(at));
    } else {
      assert [] + Shifted(at) == Shifted(at) && [] + out == out;
    }
  }

  lemma MadeShifted<A, B>(out: seq<B>, first: A, from: seq<A>, keep: A -> bool, make: A -> B, at: seq<nat>)
    requires Made(out, from, keep, make, at)
    ensures Made(out, [first] + from, keep, make, Shifted(at)) && forall j | 0 <= j < |at| :: Shifted(at)[j] > 0
  {
    var whole, moved := [first] + from, Shifted(at);
    forall j | 0 <= j < |moved| ensures moved[j] < |whole| && keep(whole[moved[j]]) && out[j] == make(whole[moved[j]]) {
      assert moved[j] == at[j] + 1 && whole[at[j] + 1] == from[at[j]];
    }
  }

  lemma MadeFirst<A, B>(out: seq<B>, whole: seq<A>, keep: A -> bool, make: A -> B, at: seq<nat>)
    requires Made(out, whole, keep, make, at) && (forall j | 0 <= j < |at| :: at[j] > 0)
    requires whole != [] && keep(whole[0])
    ensures Made([make(whole[0])] + out, whole, keep, make, [0] + at)
  {
    var all := [0] + at;
    forall i, j | 0 <= i < j < |all| ensures all[i] < all[j] {
      assert all[j] == at[j - 1];
      if i > 0 { assert all[i] == at[i - 1]; }
    }
    forall j | 0 <= j < |all|
      ensures all[j] < |whole| && keep(whole[all[j]]) && ([make(whole[0])] + out)[j] == make(whole[all[j]])
    {
      if j > 0 { assert all[j] == at[j - 1]; }
    }
  }

  lemma CompleteCons<A>(first: A, from: seq<A>, keep: A -> bool, at: seq<nat>)
    requires Complete(from, keep, at)
    ensures Complete([first] + from, keep, (if keep(first) then [0] else []) + Shifted(at))
  {
    var whole := [first] + from;
    forall i | 0 <= i < |whole| && keep(whole[i]) ensures i in (if keep(first) then [0] else []) + Shifted(at) {
      if i > 0 {
        var j :| 0 <= j < |at| && at[j] == i - 1;
        assert Shifted(at)[j] == i;
      }
    }
  }
}
