/** Generic facts about lists of pairings, and the greedy pass of
    pairing/dutch_swiss.py `_greedy_pair_bracket` stated for any player
    type, any compatibility test and any colour allocation. */
module Matching {
  import opened Wrappers

  /** The players of a list of pairings, white then black, pair by pair. */
  function Members<T>(ps: seq<(T, T)>): (r: seq<T>)
    ensures |r| == 2 * |ps|
  {
    if ps == [] then [] else [ps[0].0, ps[0].1] + Members(ps[1..])
  }

  lemma {:induction false} MembersAppend<T>(a: seq<(T, T)>, b: seq<(T, T)>)
    ensures Members(a + b) == Members(a) + Members(b)
  {
    if a != [] {
      assert (a + b)[1..] == a[1..] + b;
      MembersAppend(a[1..], b);
    } else {
      assert a + b == b;
    }
  }

  lemma Halves<T>(s: seq<T>, h: nat)
    requires 2 * h <= |s|
    ensures multiset(s[..h]) + multiset(s[h..2 * h]) == multiset(s[..2 * h])
    ensures forall i :: 0 <= i < h ==> s[..h][i] == s[i] && s[h..2 * h][i] == s[i + h]
    ensures |s| == 2 * h ==> s[..2 * h] == s
  {
    assert s[..h] + s[h..2 * h] == s[..2 * h];
  }

  /** Pairing the first half of `s[..2h]` with the second, element by
      element, uses each of those elements exactly once. */
  lemma HalvesZip<T>(r: seq<(T, T)>, s: seq<T>, h: nat)
    requires 2 * h <= |s| && |r| == h
    requires forall i :: 0 <= i < h ==> r[i] == (s[..h][i], s[h..2 * h][i]) || r[i] == (s[h..2 * h][i], s[..h][i])
    ensures multiset(Members(r)) == multiset(s[..2 * h])
    ensures |s| == 2 * h ==> multiset(Members(r)) == multiset(s)
  {
    ZipMembers(r, s[..h], s[h..2 * h]);
    Halves(s, h);
  }

  /** Pairing two equally long lists element by element, in either
      orientation, uses each element of both exactly once. */
  lemma {:induction false} ZipMembers<T>(r: seq<(T, T)>, top: seq<T>, bottom: seq<T>)
    requires |r| == |top| == |bottom|
    requires forall i :: 0 <= i < |r| ==> r[i] == (top[i], bottom[i]) || r[i] == (bottom[i], top[i])
    ensures multiset(Members(r)) == multiset(top) + multiset(bottom)
  {
    if r != [] {
      var r', top', bottom' := r[1..], top[1..], bottom[1..];
      forall i | 0 <= i < |r'| ensures r'[i] == (top'[i], bottom'[i]) || r'[i] == (bottom'[i], top'[i]) {
        assert r'[i] == r[i + 1] && top'[i] == top[i + 1] && bottom'[i] == bottom[i + 1];
      }
      ZipMembers(r', top', bottom');
      MembersHead(r);
      ConsMultiset(top);
      ConsMultiset(bottom);
      PairStep(multiset(Members(r')), multiset(top'), multiset(bottom'), r[0], top[0], bottom[0]);
    }
  }

  lemma PairStep<T>(m: multiset<T>, a: multiset<T>, b: multiset<T>, x: (T, T), t: T, u: T)
    requires m == a + b && (x == (t, u) || x == (u, t))
    ensures multiset{x.0} + multiset{x.1} + m == (multiset{t} + a) + (multiset{u} + b)
  {
  }

  lemma ConsMultiset<T>(s: seq<T>)
    requires |s| > 0
    ensures multiset(s) == multiset{s[0]} + multiset(s[1..])
  {
    assert s == [s[0]] + s[1..];
  }

  lemma MembersHead<T>(r: seq<(T, T)>)
    requires |r| > 0
    ensures multiset(Members(r)) == multiset{r[0].0} + multiset{r[0].1} + multiset(Members(r[1..]))
  {
    assert Members(r) == [r[0].0, r[0].1] + Members(r[1..]);
  }

  // ------------------------------------------------------ the greedy pass

  /** The index of the first element of `rest`, from `from` on, that `ok`
      accepts as `p`'s opponent. */
  function FirstOk<T>(p: T, rest: seq<T>, ok: (T, T) -> bool, from: nat): (i: Option<nat>)
    requires from <= |rest|
    ensures i.Some? ==> from <= i.value < |rest| && ok(p, rest[i.value])
    ensures forall j :: from <= j < |rest| && (i.None? || j < i.value) ==> !ok(p, rest[j])
    decreases |rest| - from
  {
    if from == |rest| then None
    else if ok(p, rest[from]) then Some(from)
    else FirstOk(p, rest, ok, from + 1)
  }

  /** The greedy pass, stated recursively: the first player takes the first
      acceptable player after it, or is dropped when there is none, until
      fewer than two players remain. Each pair is (player, opponent). */
  function GreedyBy<T>(bracket: seq<T>, ok: (T, T) -> bool): (r: (seq<(T, T)>, seq<T>))
    ensures 2 * |r.0| <= |bracket|
    decreases |bracket|
  {
    if |bracket| < 2 then ([], bracket)
    else
      var rest := bracket[1..];
      match FirstOk(bracket[0], rest, ok, 0)
      case None => GreedyBy(rest, ok)
      case Some(i) =>
        var g := GreedyBy(rest[..i] + rest[i + 1..], ok);
        ([(bracket[0], rest[i])] + g.0, g.1)
  }

  /** At most one player is left over, `ok` accepts every pair, and nobody
      is paired twice or invented. */
  lemma {:induction false} GreedyByProperties<T>(bracket: seq<T>, ok: (T, T) -> bool)
    ensures var r := GreedyBy(bracket, ok);
            && |r.1| <= 1
            && (forall k :: 0 <= k < |r.0| ==> ok(r.0[k].0, r.0[k].1))
            && multiset(Members(r.0)) + multiset(r.1) <= multiset(bracket)
    decreases |bracket|
  {
    if |bracket| >= 2 {
      var rest := bracket[1..];
      var f := FirstOk(bracket[0], rest, ok, 0);
      if f.None? {
        assert GreedyBy(bracket, ok) == GreedyBy(rest, ok);
        GreedyByProperties(rest, ok);
        var g := GreedyBy(rest, ok);
        DropFirst(bracket, Members(g.0), g.1);
      } else {
        var i := f.value;
        var others := rest[..i] + rest[i + 1..];
        var g := GreedyBy(others, ok);
        var x := (bracket[0], rest[i]);
        assert GreedyBy(bracket, ok) == ([x] + g.0, g.1);
        GreedyByProperties(others, ok);
        TakeOut(bracket, i, x, g.0, g.1);
        PrependOk(x, g.0, ok);
      }
    }
  }

  lemma PrependOk<T>(x: (T, T), ps: seq<(T, T)>, ok: (T, T) -> bool)
    requires ok(x.0, x.1) && forall k :: 0 <= k < |ps| ==> ok(ps[k].0, ps[k].1)
    ensures forall k :: 0 <= k < |[x] + ps| ==> ok(([x] + ps)[k].0, ([x] + ps)[k].1)
  {
    forall k | 0 <= k < |[x] + ps| ensures ok(([x] + ps)[k].0, ([x] + ps)[k].1) {
      if k > 0 { assert ([x] + ps)[k] == ps[k - 1]; }
    }
  }

  lemma DropFirst<T>(s: seq<T>, m: seq<T>, rem: seq<T>)
    requires |s| > 0 && multiset(m) + multiset(rem) <= multiset(s[1..])
    ensures multiset(m) + multiset(rem) <= multiset(s)
  {
    assert s == [s[0]] + s[1..];
  }

  lemma TakeOut<T>(s: seq<T>, i: nat, x: (T, T), ps: seq<(T, T)>, rem: seq<T>)
    requires |s| >= 2 && i < |s| - 1
    requires x == (s[0], s[1..][i]) || x == (s[1..][i], s[0])
    requires multiset(Members(ps)) + multiset(rem) <= multiset(s[1..][..i] + s[1..][i + 1..])
    ensures multiset(Members([x] + ps)) + multiset(rem) <= multiset(s)
  {
    var rest := s[1..];
    MembersCons(x, ps);
    ConsMultiset(s);
    RemoveAt(rest, i);
    TakeStep(multiset(Members([x] + ps)), multiset(Members(ps)), multiset(rem), multiset(s), multiset(rest),
             multiset(rest[..i] + rest[i + 1..]), x, s[0], rest[i]);
  }

  lemma MembersCons<T>(x: (T, T), ps: seq<(T, T)>)
    ensures multiset(Members([x] + ps)) == multiset{x.0} + multiset{x.1} + multiset(Members(ps))
  {
    var xs := [x] + ps;
    assert xs[0] == x && xs[1..] == ps;
    MembersHead(xs);
  }

  lemma RemoveAt<T>(s: seq<T>, i: nat)
    requires i < |s|
    ensures multiset(s) == multiset{s[i]} + multiset(s[..i] + s[i + 1..])
  {
    assert s == s[..i] + [s[i]] + s[i + 1..];
  }

  lemma TakeStep<T>(mx: multiset<T>, m: multiset<T>, rem: multiset<T>, ms: multiset<T>, mrest: multiset<T>,
                    base: multiset<T>, x: (T, T), t: T, u: T)
    requires mx == multiset{x.0} + multiset{x.1} + m
    requires ms == multiset{t} + mrest && mrest == multiset{u} + base
    requires m + rem <= base && (x == (t, u) || x == (u, t))
    ensures mx + rem <= ms
  {
  }

  /** Each pair put in the order `assign` gives it. */
  function Oriented<T>(ps: seq<(T, T)>, assign: (T, T) -> (T, T)): (r: seq<(T, T)>)
    ensures |r| == |ps|
    ensures forall k :: 0 <= k < |ps| ==> r[k] == assign(ps[k].0, ps[k].1)
  {
    if ps == [] then []
    else
      var r := Oriented(ps[1..], assign);
      assert forall k :: 1 <= k < |ps| ==> ps[k] == ps[1..][k - 1];
      [assign(ps[0].0, ps[0].1)] + r
  }

  /** Swapping some pairs changes nobody's membership. */
  lemma {:induction false} SwapMembers<T>(r: seq<(T, T)>, ps: seq<(T, T)>)
    requires |r| == |ps|
    requires forall k :: 0 <= k < |ps| ==> r[k] == ps[k] || r[k] == (ps[k].1, ps[k].0)
    ensures multiset(Members(r)) == multiset(Members(ps))
  {
    if r != [] {
      forall k | 0 <= k < |ps| - 1 ensures r[1..][k] == ps[1..][k] || r[1..][k] == (ps[1..][k].1, ps[1..][k].0) {
        assert r[1..][k] == r[k + 1] && ps[1..][k] == ps[k + 1];
      }
      SwapMembers(r[1..], ps[1..]);
    }
  }

  /** The loop of `_greedy_pair_bracket`: take the first player, search the
      rest for the first acceptable opponent, and either append the pair in
      the order `assign` gives it or drop the player. */
  method GreedyPass<T>(bracket: seq<T>, ok: (T, T) -> bool, assign: (T, T) -> (T, T))
    returns (pairings: seq<(T, T)>, remaining: seq<T>)
    ensures pairings == Oriented(GreedyBy(bracket, ok).0, assign)
    ensures remaining == GreedyBy(bracket, ok).1
  {
    pairings := [];
    remaining := bracket;
    while |remaining| >= 2
      invariant pairings + Oriented(GreedyBy(remaining, ok).0, assign) == Oriented(GreedyBy(bracket, ok).0, assign)
      invariant GreedyBy(remaining, ok).1 == GreedyBy(bracket, ok).1
      decreases |remaining|
    {
      var player1 := remaining[0];
      remaining := remaining[1..];
      var i := FindFirstOk(player1, remaining, ok);
      if i < |remaining| {
        var x := (player1, remaining[i]);
        var g := GreedyBy(remaining[..i] + remaining[i + 1..], ok);
        assert ([x] + g.0)[1..] == g.0;
        var wb := assign(player1, remaining[i]);
        assert pairings + ([wb] + Oriented(g.0, assign)) == (pairings + [wb]) + Oriented(g.0, assign);
        pairings := pairings + [wb];
        remaining := remaining[..i] + remaining[i + 1..];
      }
    }
    assert pairings + [] == pairings;
  }

  /** The `for ... break` search: the index of the first acceptable
      opponent, or the length of the list. */
  method FindFirstOk<T>(p: T, rest: seq<T>, ok: (T, T) -> bool) returns (i: nat)
    ensures i <= |rest|
    ensures FirstOk(p, rest, ok, 0) == if i < |rest| then Some(i) else None
  {
    i := 0;
    while i < |rest| && !ok(p, rest[i])
      invariant i <= |rest|
      invariant forall j :: 0 <= j < i ==> !ok(p, rest[j])
    {
      i := i + 1;
    }
  }

  /** A player acceptable to nobody after it is in neither output. */
  lemma StuckDropped<T>(bracket: seq<T>, ok: (T, T) -> bool)
    requires |bracket| >= 2 && bracket[0] !in bracket[1..]
    requires forall j :: 1 <= j < |bracket| ==> !ok(bracket[0], bracket[j])
    ensures var r := GreedyBy(bracket, ok);
            bracket[0] !in Members(r.0) && bracket[0] !in r.1
  {
    var rest := bracket[1..];
    assert forall j :: 0 <= j < |rest| ==> rest[j] == bracket[j + 1];
    assert FirstOk(bracket[0], rest, ok, 0).None?;
    var g := GreedyBy(rest, ok);
    GreedyByProperties(rest, ok);
    NotInSub(bracket[0], Members(g.0), g.1, rest);
  }

  lemma NotInSub<T>(x: T, m: seq<T>, rem: seq<T>, s: seq<T>)
    requires multiset(m) + multiset(rem) <= multiset(s) && x !in s
    ensures x !in m && x !in rem
  {
    assert multiset(s)[x] == 0;
    assert (multiset(m) + multiset(rem))[x] <= multiset(s)[x];
    assert multiset(m)[x] == 0 && multiset(rem)[x] == 0;
  }
}
