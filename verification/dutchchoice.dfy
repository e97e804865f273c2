/** Bracket choices of the Dutch-system engine, pairing/dutch_swiss.py:
    the MDP sets of Article 4.4 and the choice of the best configuration
    of a bracket by the quality criteria C6-C21. */
module DutchChoice {
  import opened Wrappers
  import opened Players
  import opened Seqs
  import opened Sorting
  import opened Dutch

  /** `_ensure_bsn_assignments`: a missing or non-positive BSN becomes the
      player's position in the list, counted from 1; a positive one stays. */
  function AssignBsn(ps: seq<Entrant>): (r: seq<Entrant>)
    ensures |r| == |ps|
    ensures forall i :: 0 <= i < |r| ==>
              r[i].player == ps[i].player && r[i].pairingNumber == ps[i].pairingNumber
              && r[i].bsn.Some? && r[i].bsn.value > 0
              && (ps[i].bsn.Some? && ps[i].bsn.value > 0 ==> r[i].bsn == ps[i].bsn)
  {
    seq(|ps|, i requires 0 <= i < |ps| =>
      if ps[i].bsn.None? || ps[i].bsn.value <= 0 then ps[i].(bsn := Some(i + 1)) else ps[i])
  }

  /** `itertools.combinations(s, k)`: every choice of `k` elements in input
      order, in lexicographic order of positions. */
  function Combinations<T>(s: seq<T>, k: nat): (r: seq<seq<T>>)
    ensures forall i :: 0 <= i < |r| ==> |r[i]| == k && forall j :: 0 <= j < k ==> r[i][j] in s
    ensures k == 0 ==> r == [[]]
    ensures k > |s| ==> r == []
  {
    if k == 0 then [[]]
    else if |s| < k then []
    else
      var with := Combinations(s[1..], k - 1);
      var without := Combinations(s[1..], k);
      assert forall x :: x in s[1..] ==> x in s;
      PrependAll(s[0], with) + without
  }

  function PrependAll<T>(x: T, cs: seq<seq<T>>): (r: seq<seq<T>>)
    ensures |r| == |cs|
    ensures forall i :: 0 <= i < |r| ==> r[i] == [x] + cs[i]
  {
    if cs == [] then [] else [[x] + cs[0]] + PrependAll(x, cs[1..])
  }

  function AppendEach<T>(front: seq<T>, cs: seq<seq<T>>): (r: seq<seq<T>>)
    ensures |r| == |cs|
    ensures forall i :: 0 <= i < |r| ==> r[i] == front + cs[i]
  {
    if cs == [] then [] else [front + cs[0]] + AppendEach(front, cs[1..])
  }

  /** Python's `lst[:n]`, which stops at the end of the list. */
  function Take<T>(s: seq<T>, n: int): (r: seq<T>)
    ensures |r| == if n <= 0 then 0 else if n < |s| then n else |s|
    ensures forall i :: 0 <= i < |r| ==> r[i] == s[i]
  {
    if n <= 0 then [] else if n < |s| then s[..n] else s
  }

  function BsnList(g: seq<Entrant>): (r: seq<real>)
    ensures |r| == |g|
  {
    if g == [] then [] else [g[0].bsn.GetOr(0) as real] + BsnList(g[1..])
  }

  predicate SameScores(s: seq<Entrant>) {
    forall i :: 0 <= i < |s| ==> Score(s[i]) == Score(s[0])
  }

  /** The M1-th highest score among the MDPs. */
  function Cutoff(mdps: seq<Entrant>, m1: int): real
    requires 0 < m1 <= |mdps|
  {
    Score(SortBy(AssignBsn(mdps), RankKey)[m1 - 1])
  }

  /** `_generate_pairable_mdp_sets`: the sets of M1 MDPs Article 4.4 allows,
      in the order of their BSN lists. The BSNs it assigns are part of the
      result. */
  function GenerateMdpSets(mdps: seq<Entrant>, m1: int): (r: seq<seq<Entrant>>)
    ensures m1 <= 0 ==> r == [[]]
    ensures m1 > 0 && mdps == [] ==> r == []
    ensures 0 < |mdps| <= m1 ==> |r| == 1 && multiset(r[0]) == multiset(AssignBsn(mdps))
  {
    if m1 <= 0 then [[]]
    else if mdps == [] then []
    else
      var sorted := SortBy(AssignBsn(mdps), RankKey);
      if m1 >= |sorted| then [sorted]
      else SortBy(MdpCandidates(sorted, m1), BsnList)
  }

  /** When only some MDPs can be paired, every set has M1 of them, every MDP
      scoring above the M1-th highest score is in every set, and the sets
      come in ascending order of their BSN lists. */
  lemma MdpSetsContents(mdps: seq<Entrant>, m1: int)
    requires 0 < m1 < |mdps|
    ensures var r := GenerateMdpSets(mdps, m1);
            && SortedBy(r, BsnList)
            && forall k :: 0 <= k < |r| ==>
                 |r[k]| == m1
                 && (forall j :: 0 <= j < m1 ==> r[k][j] in AssignBsn(mdps))
                 && (forall i :: 0 <= i < |mdps| && Score(mdps[i]) > Cutoff(mdps, m1) ==>
                       AssignBsn(mdps)[i] in r[k])
  {
    var sorted := SortBy(AssignBsn(mdps), RankKey);
    var cands := MdpCandidates(sorted, m1);
    var r := SortBy(cands, BsnList);
    assert r == GenerateMdpSets(mdps, m1);
    forall k | 0 <= k < |r|
      ensures |r[k]| == m1
      ensures forall j :: 0 <= j < m1 ==> r[k][j] in AssignBsn(mdps)
      ensures forall i :: 0 <= i < |mdps| && Score(mdps[i]) > Cutoff(mdps, m1) ==> AssignBsn(mdps)[i] in r[k]
    {
      SortMember(cands, BsnList, k);
      CandidateContents(mdps, m1, r[k]);
    }
  }

  lemma CandidateContents(mdps: seq<Entrant>, m1: int, c: seq<Entrant>)
    requires 0 < m1 < |mdps|
    requires c in MdpCandidates(SortBy(AssignBsn(mdps), RankKey), m1)
    ensures |c| == m1
    ensures forall j :: 0 <= j < m1 ==> c[j] in AssignBsn(mdps)
    ensures forall i :: 0 <= i < |mdps| && Score(mdps[i]) > Cutoff(mdps, m1) ==> AssignBsn(mdps)[i] in c
  {
    var a := AssignBsn(mdps);
    var sorted := SortBy(a, RankKey);
    forall j | 0 <= j < m1 ensures c[j] in a {
      assert c[j] in multiset(sorted);
    }
    forall i | 0 <= i < |mdps| && Score(mdps[i]) > Cutoff(mdps, m1) ensures a[i] in c {
      assert a[i] in multiset(a);
      assert a[i] in sorted;
    }
  }

  /** The candidate sets before ordering: every M1-subset when all scores
      are equal, otherwise everyone above the cutoff score plus each choice
      of the rest among those on it. */
  function MdpCandidates(sorted: seq<Entrant>, m1: int): (r: seq<seq<Entrant>>)
    requires 0 < m1 < |sorted| && SortedBy(sorted, RankKey)
    ensures forall k :: 0 <= k < |r| ==>
              |r[k]| == m1 && (forall j :: 0 <= j < m1 ==> r[k][j] in sorted)
              && forall x :: x in sorted && Score(x) > Score(sorted[m1 - 1]) ==> x in r[k]
  {
    var cutoff := Score(sorted[m1 - 1]);
    if SameScores(sorted) then
      Combinations(sorted, m1)
    else
      var must := Filter(sorted, (p: Entrant) => Score(p) > cutoff);
      var remaining := Filter(sorted, (p: Entrant) => Score(p) == cutoff);
      var slots := m1 - |must|;
      if slots <= 0 then
        FewAboveCutoff(sorted, m1);
        assert false;
        [Take(must, m1)]
      else
        var r := AppendEach(must, Combinations(remaining, slots));
        forall k | 0 <= k < |r|
          ensures forall j :: 0 <= j < m1 ==> r[k][j] in sorted
        {
          forall j | 0 <= j < m1 ensures r[k][j] in sorted {
            if j >= |must| { assert r[k][j] in remaining; }
          }
        }
        r
  }

  /** Fewer than M1 players score above the M1-th highest score. */
  lemma FewAboveCutoff(sorted: seq<Entrant>, m1: int)
    requires 0 < m1 <= |sorted| && SortedBy(sorted, RankKey)
    ensures |Filter(sorted, (p: Entrant) => Score(p) > Score(sorted[m1 - 1]))| < m1
  {
    var cutoff := Score(sorted[m1 - 1]);
    var f := (p: Entrant) => Score(p) > cutoff;
    forall j | m1 - 1 <= j < |sorted| ensures !f(sorted[j]) {
      if j > m1 - 1 {
        LexHead(RankKey(sorted[m1 - 1]), RankKey(sorted[j]));
      }
    }
    FilterNoneAfter(sorted, f, m1 - 1);
  }

  lemma FilterNoneAfter<T>(s: seq<T>, f: T -> bool, n: nat)
    requires n <= |s| && forall j :: n <= j < |s| ==> !f(s[j])
    ensures |Filter(s, f)| <= n
  {
    assert s == s[..n] + s[n..];
    FilterAppend(s[..n], s[n..], f);
    assert forall j :: 0 <= j < |s[n..]| ==> s[n..][j] == s[n + j];
    assert !Any(s[n..], f);
  }
}
