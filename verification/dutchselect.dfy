/** The choice among the candidate configurations of a bracket,
    pairing/dutch_swiss.py `_select_best_fide_configuration` and
    `_apply_fide_quality_criteria_selection`: the quality criteria C6-C21 of
    the Dutch system are applied in priority order, each keeping only the
    configurations that do best on it, until one is left. */
module DutchSelect {
  import opened Wrappers
  import opened Seqs
  import opened Sorting
  import opened Dutch
  import Fpc

  // ------------------------------------------------------------- metrics

  /** The scores of a list of players, in order. */
  function Scores(s: seq<Entrant>): (r: seq<real>)
    ensures |r| == |s| && forall i :: 0 <= i < |s| ==> r[i] == Score(s[i])
  {
    seq(|s|, i requires 0 <= i < |s| => Score(s[i]))
  }

  /** `_downfloater_score_list` (C7): the downfloaters' scores, highest
      first. */
  function DownfloaterScores(unpaired: seq<Entrant>): (r: seq<real>)
    ensures |r| == |unpaired|
    ensures multiset(r) == multiset(Scores(unpaired))
    ensures forall i, j :: 0 <= i < j < |r| ==> r[j] <= r[i]
  {
    SortDescending(Scores(unpaired))
  }

  /** A player of the next bracket other than `d` whom `d` has not met. */
  predicate HasCandidate(d: Entrant, next: seq<Entrant>, previous: set<set<string>>) {
    Any(next, (c: Entrant) => c.player.id != d.player.id && Fpc.Key(d.player, c.player) !in previous)
  }

  /** `_future_compatibility_violations` (C8): the downfloaters left without
      a possible opponent in the next bracket; none when that bracket is
      empty. */
  function FutureViolations(downfloaters: seq<Entrant>, next: seq<Entrant>, previous: set<set<string>>): (n: nat)
    ensures n <= |downfloaters|
    ensures next == [] ==> n == 0
    ensures next != [] ==>
              (n == 0 <==> forall i :: 0 <= i < |downfloaters| ==> HasCandidate(downfloaters[i], next, previous))
  {
    if next == [] then 0
    else |Filter(downfloaters, (d: Entrant) => !HasCandidate(d, next, previous))|
  }

  /** The absolute score difference of a pairing. */
  function Gap(p: (Entrant, Entrant)): (g: real)
    ensures g >= 0.0
    ensures g == Score(p.0) - Score(p.1) || g == Score(p.1) - Score(p.0)
  {
    if Score(p.0) >= Score(p.1) then Score(p.0) - Score(p.1) else Score(p.1) - Score(p.0)
  }

  function Gaps(ps: seq<(Entrant, Entrant)>): (r: seq<real>)
    ensures |r| == |ps| && forall i :: 0 <= i < |ps| ==> r[i] == Gap(ps[i])
  {
    seq(|ps|, i requires 0 <= i < |ps| => Gap(ps[i]))
  }

  /** A pairing with at least one player among `targets`. */
  predicate Involves(p: (Entrant, Entrant), targets: set<string>) {
    p.0.player.id in targets || p.1.player.id in targets
  }

  /** `_score_diff_list` (C18-C21): the score differences of the pairings
      that involve a target player, highest first. */
  function ScoreDiffs(pairings: seq<(Entrant, Entrant)>, targets: set<string>): (r: seq<real>)
    ensures multiset(r) == multiset(Gaps(Filter(pairings, (p: (Entrant, Entrant)) => Involves(p, targets))))
    ensures forall i :: 0 <= i < |r| ==> r[i] >= 0.0
    ensures forall i, j :: 0 <= i < j < |r| ==> r[j] <= r[i]
    ensures targets == {} ==> r == []
  {
    var involved := Filter(pairings, (p: (Entrant, Entrant)) => Involves(p, targets));
    var r := SortDescending(Gaps(involved));
    forall i | 0 <= i < |r| ensures r[i] >= 0.0 {
      assert r[i] in multiset(Gaps(involved));
    }
    r
  }

  /** The quality metrics of one configuration: C6 (downfloaters), C7
      (their scores), then the counts C8-C17 and the score-difference lists
      C18-C21, in priority order. */
  datatype Metrics = Metrics(downfloaters: nat, downfloaterScores: seq<real>, counts: seq<int>, diffs: seq<seq<real>>)

  datatype Config = Config(pairedCount: int, sequenceIndex: Option<int>, metrics: Metrics)

  /** `_compute_comprehensive_fide_quality_metrics` for the metrics it
      derives from the unpaired players and the pairings: C6, C7, C8 and the
      lists C18-C21 for the four given sets of floater ids. The C9-C17 counts
      come in as `given`. */
  function ComputeMetrics(pairings: seq<(Entrant, Entrant)>, unpaired: seq<Entrant>,
                          next: seq<Entrant>, previous: set<set<string>>,
                          given: seq<int>, floaterIds: seq<set<string>>): (m: Metrics)
    ensures m.downfloaters == |unpaired|
    ensures m.downfloaterScores == DownfloaterScores(unpaired)
    ensures |m.counts| == 1 + |given| && m.counts[0] == FutureViolations(unpaired, next, previous)
    ensures m.counts[1..] == given
    ensures |m.diffs| == |floaterIds|
    ensures forall k :: 0 <= k < |floaterIds| ==> m.diffs[k] == ScoreDiffs(pairings, floaterIds[k])
  {
    Metrics(|unpaired|, DownfloaterScores(unpaired),
            [FutureViolations(unpaired, next, previous)] + given,
            seq(|floaterIds|, k requires 0 <= k < |floaterIds| => ScoreDiffs(pairings, floaterIds[k])))
  }

  /** `config.get(key, 0)` for the k-th count. */
  function CountAt(m: Metrics, k: nat): int {
    if k < |m.counts| then m.counts[k] else 0
  }

  /** `config.get(key, [])` for the k-th score-difference list. */
  function DiffsAt(m: Metrics, k: nat): seq<real> {
    if k < |m.diffs| then m.diffs[k] else []
  }

  // ----------------------------------------------------------- selection

  /** One criterion: keep the configurations with the fewest of a count, or
      with the lexicographically least list. */
  datatype Criterion = Fewest(count: Config -> int) | LeastList(list: Config -> seq<real>)

  /** C6: the number of downfloaters. */
  function Downfloaters(c: Config): int { c.metrics.downfloaters }

  /** C6-C21 in priority order. */
  function Criteria(): (r: seq<Criterion>)
    ensures |r| == 16 && r[0] == Fewest(Downfloaters)
  {
    [Fewest(Downfloaters)] + LaterCriteria()
  }

  /** C7-C21. */
  function LaterCriteria(): (r: seq<Criterion>)
    ensures |r| == 15
  {
    [ LeastList((c: Config) => c.metrics.downfloaterScores),
      Fewest((c: Config) => CountAt(c.metrics, 0)),
      Fewest((c: Config) => CountAt(c.metrics, 1)),
      Fewest((c: Config) => CountAt(c.metrics, 2)),
      Fewest((c: Config) => CountAt(c.metrics, 3)),
      Fewest((c: Config) => CountAt(c.metrics, 4)),
      Fewest((c: Config) => CountAt(c.metrics, 5)),
      Fewest((c: Config) => CountAt(c.metrics, 6)),
      Fewest((c: Config) => CountAt(c.metrics, 7)),
      Fewest((c: Config) => CountAt(c.metrics, 8)),
      Fewest((c: Config) => CountAt(c.metrics, 9)),
      LeastList((c: Config) => DiffsAt(c.metrics, 0)),
      LeastList((c: Config) => DiffsAt(c.metrics, 1)),
      LeastList((c: Config) => DiffsAt(c.metrics, 2)),
      LeastList((c: Config) => DiffsAt(c.metrics, 3)) ]
  }

  /** `filter_min`: the configurations whose count is the minimum, in
      their order. */
  function FilterMin<T>(cs: seq<T>, key: T -> int): (r: seq<T>)
    requires |cs| > 0
    ensures 0 < |r| <= |cs|
    ensures forall i :: 0 <= i < |r| ==> r[i] in cs
    ensures forall i, j :: 0 <= i < |r| && 0 <= j < |cs| ==> key(r[i]) <= key(cs[j])
    ensures forall j :: 0 <= j < |cs| && key(cs[j]) == key(r[0]) ==> cs[j] in r
  {
    var ks := seq(|cs|, i requires 0 <= i < |cs| => key(cs[i]));
    var m := MinInt(ks);
    var f := (c: T) => key(c) == m;
    var r := Filter(cs, f);
    var w :| 0 <= w < |ks| && m == ks[w];
    assert f(cs[w]);
    assert forall i :: 0 <= i < |r| ==> key(r[i]) == m;
    assert forall j :: 0 <= j < |cs| ==> m <= ks[j] == key(cs[j]);
    r
  }

  /** `filter_min_lex`: sort by the list, then keep those equal to the
      first. */
  function FilterMinLex<T>(cs: seq<T>, key: T -> seq<real>): (r: seq<T>)
    requires |cs| > 0
    ensures 0 < |r| <= |cs|
    ensures forall i :: 0 <= i < |r| ==> r[i] in cs
    ensures forall i, j :: 0 <= i < |r| && 0 <= j < |cs| ==> CompareLex(key(r[i]), key(cs[j])) <= 0
    ensures forall j :: 0 <= j < |cs| && key(cs[j]) == key(r[0]) ==> cs[j] in r
  {
    var sorted := SortBy(cs, key);
    LeastTies(cs, sorted, key);
    Ties(sorted, key, key(sorted[0]))
  }

  /** The elements of a sorted copy that tie with its first are the least
      of the input, and every least one is among them. */
  lemma LeastTies<T>(cs: seq<T>, sorted: seq<T>, key: T -> seq<real>)
    requires |sorted| > 0 && SortedBy(sorted, key) && multiset(sorted) == multiset(cs)
    ensures var r := Ties(sorted, key, key(sorted[0]));
            && 0 < |r| <= |cs|
            && (forall i :: 0 <= i < |r| ==> r[i] in cs)
            && (forall i, j :: 0 <= i < |r| && 0 <= j < |cs| ==> CompareLex(key(r[i]), key(cs[j])) <= 0)
            && (forall j :: 0 <= j < |cs| && key(cs[j]) == key(r[0]) ==> cs[j] in r)
  {
    var best := key(sorted[0]);
    var r := Ties(sorted, key, best);
    assert |sorted| == |multiset(cs)| == |cs|;
    assert r == [sorted[0]] + Ties(sorted[1..], key, best);
    forall i | 0 <= i < |r| ensures r[i] in cs {
      assert r[i] in sorted;
      assert r[i] in multiset(sorted);
    }
    FirstIsLeast(cs, sorted, key);
    forall i, j | 0 <= i < |r| && 0 <= j < |cs| ensures CompareLex(key(r[i]), key(cs[j])) <= 0 {
      assert r[i] in r;
    }
    forall j | 0 <= j < |cs| && key(cs[j]) == best ensures cs[j] in r {
      assert cs[j] in multiset(sorted);
      var k :| 0 <= k < |sorted| && sorted[k] == cs[j];
    }
  }

  /** The configurations kept are exactly those whose list equals the
      least one, in their input order: the sort before the filter is
      stable, so it changes nothing among equal lists. */
  lemma FilterMinLexTies<T>(cs: seq<T>, key: T -> seq<real>, j: int)
    requires 0 <= j < |cs|
    requires forall i :: 0 <= i < |cs| ==> CompareLex(key(cs[j]), key(cs[i])) <= 0
    ensures FilterMinLex(cs, key) == Ties(cs, key, key(cs[j]))
  {
    var sorted := SortBy(cs, key);
    var best := key(sorted[0]);
    FirstIsLeast(cs, sorted, key);
    assert sorted[0] in multiset(cs);
    var i :| 0 <= i < |cs| && cs[i] == sorted[0];
    LexAntisymmetric(best, key(cs[j]));
    SortStable(cs, key, best);
  }

  lemma FirstIsLeast<T>(cs: seq<T>, sorted: seq<T>, key: T -> seq<real>)
    requires |sorted| > 0 && SortedBy(sorted, key) && multiset(sorted) == multiset(cs)
    ensures forall j :: 0 <= j < |cs| ==> CompareLex(key(sorted[0]), key(cs[j])) <= 0
  {
    forall j | 0 <= j < |cs| ensures CompareLex(key(sorted[0]), key(cs[j])) <= 0 {
      assert cs[j] in multiset(sorted);
      var k :| 0 <= k < |sorted| && sorted[k] == cs[j];
      if k == 0 {
        assert CompareLex(key(sorted[0]), key(sorted[0])) == 0;
      }
    }
  }

  function Apply(cs: seq<Config>, c: Criterion): (r: seq<Config>)
    requires |cs| > 0
    ensures 0 < |r| <= |cs| && forall i :: 0 <= i < |r| ==> r[i] in cs
  {
    match c
    case Fewest(count) => FilterMin(cs, count)
    case LeastList(list) => FilterMinLex(cs, list)
  }

  /** The sort key of the final tie-break, `c.get("sequence_index", 0)`. */
  function SequenceKey(c: Config): seq<real> {
    [c.sequenceIndex.GetOr(0) as real]
  }

  /** The criteria applied in turn, stopping as soon as one configuration
      is left; otherwise the earliest sequence index wins. */
  function ApplyCriteria(cs: seq<Config>, criteria: seq<Criterion>): (r: Config)
    requires |cs| > 0
    ensures r in cs
    decreases |criteria|
  {
    if criteria == [] then
      var sorted := SortBy(cs, SequenceKey);
      assert sorted[0] in multiset(cs);
      sorted[0]
    else
      var next := Apply(cs, criteria[0]);
      if |next| == 1 then next[0] else ApplyCriteria(next, criteria[1..])
  }

  /** A configuration that pairs somebody. */
  predicate Pairs(c: Config) { c.pairedCount > 0 }

  /** `_select_best_fide_configuration`: None when no configuration pairs
      anybody, otherwise the best of those that do. */
  function SelectBest(configs: seq<Config>): (r: Option<Config>)
    ensures r.Some? ==> r.value in configs && r.value.pairedCount > 0
  {
    if configs == [] then None
    else
      var valid := Filter(configs, Pairs);
      if valid == [] then None
      else Some(ApplyCriteria(valid, Criteria()))
  }

  /** Whatever the later criteria decide, the result survives the first. */
  lemma ApplyCriteriaFirst(cs: seq<Config>, criteria: seq<Criterion>)
    requires |cs| > 0 && |criteria| > 0
    ensures ApplyCriteria(cs, criteria) in Apply(cs, criteria[0])
  {
  }

  /** The choice is None exactly when no configuration pairs anybody. */
  lemma SelectBestNone(configs: seq<Config>)
    ensures SelectBest(configs).None? <==> forall i :: 0 <= i < |configs| ==> configs[i].pairedCount <= 0
  {
    if configs != [] && Filter(configs, Pairs) == [] {
      assert forall i :: 0 <= i < |configs| ==> !Pairs(configs[i]);
    }
  }

  /** The choice has the fewest downfloaters (C6) among the configurations
      that pair somebody. */
  lemma SelectBestFewestDownfloaters(configs: seq<Config>)
    ensures SelectBest(configs).Some? ==>
              forall c :: c in configs && c.pairedCount > 0 ==>
                SelectBest(configs).value.metrics.downfloaters <= c.metrics.downfloaters
  {
    var valid := Filter(configs, Pairs);
    if configs != [] && valid != [] {
      var r := ApplyCriteria(valid, Criteria());
      var first := FilterMin(valid, Downfloaters);
      ApplyCriteriaFirst(valid, Criteria());
      assert r in first;
      forall c | c in configs && c.pairedCount > 0 ensures Downfloaters(r) <= Downfloaters(c) {
        assert Pairs(c);
        var j :| 0 <= j < |valid| && valid[j] == c;
        var i :| 0 <= i < |first| && first[i] == r;
      }
    }
  }

  /** When a single configuration has the fewest downfloaters, it is chosen
      whatever the other criteria say. */
  lemma FewestDownfloatersDecides(configs: seq<Config>, best: Config)
    requires best in configs && best.pairedCount > 0
    requires forall c :: c in configs && c.pairedCount > 0 && c != best ==>
               best.metrics.downfloaters < c.metrics.downfloaters
    ensures SelectBest(configs) == Some(best)
  {
    var valid := Filter(configs, Pairs);
    var first := FilterMin(valid, Downfloaters);
    assert Pairs(best);
    assert best in valid;
    forall i | 0 <= i < |first| ensures first[i] == best {
      var k :| 0 <= k < |valid| && valid[k] == best;
      assert Downfloaters(first[i]) <= Downfloaters(best);
    }
    ApplyCriteriaFirst(valid, Criteria());
  }
}
