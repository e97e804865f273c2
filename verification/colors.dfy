/** Colours and colour preferences of FIDE C.04.3 (the Dutch system),
    Article 1.6.2, as the pairing checker (validation/fpc.py), the Dutch
    engine (pairing/dutch_swiss.py) and the player record
    (player/base_player.py) compute them. A colour history records one entry
    per round; a bye is recorded as None and is ignored by every rule here. */
module Colors {
  import opened Wrappers

  datatype Color = White | Black

  function Opposite(c: Color): (o: Color)
    ensures o != c
  {
    if c == White then Black else White
  }

  type History = seq<Option<Color>>

  /** The colours actually played, byes dropped, in order. */
  function Played(h: History): (s: seq<Color>)
    ensures |s| <= |h|
  {
    if |h| == 0 then []
    else Played(h[..|h| - 1]) + (if h[|h| - 1].Some? then [h[|h| - 1].value] else [])
  }

  function Count(s: seq<Color>, c: Color): (n: nat)
    ensures n <= |s|
  {
    if |s| == 0 then 0 else Count(s[..|s| - 1], c) + (if s[|s| - 1] == c then 1 else 0)
  }

  /** Whites minus blacks. */
  function Diff(s: seq<Color>): int {
    Count(s, White) - Count(s, Black)
  }

  function Abs(x: int): nat {
    if x < 0 then -x else x
  }

  lemma CountAppend(s: seq<Color>, c: Color, d: Color)
    ensures Count(s + [c], d) == Count(s, d) + (if c == d then 1 else 0)
  {
    assert (s + [c])[..|s|] == s;
  }

  lemma DiffAppend(s: seq<Color>, c: Color)
    ensures Diff(s + [c]) == Diff(s) + (if c == White then 1 else -1)
  {
    CountAppend(s, c, White);
    CountAppend(s, c, Black);
  }

  /** The last two played colours are the same. */
  predicate LastTwoSame(s: seq<Color>) {
    |s| >= 2 && s[|s| - 1] == s[|s| - 2]
  }

  /** The played colours, followed by `assigned` when a colour is assigned
      (the history a colour allocation would produce). */
  function WithAssigned(h: History, given: Option<Color>): seq<Color> {
    Played(h) + (if given.Some? then [given.value] else [])
  }

  /** validation/fpc.py `_color_difference`: whites minus blacks of the
      history extended by the assigned colour. */
  function ColorDifference(h: History, given: Option<Color>): (d: int)
    ensures given.None? ==> d == Diff(Played(h))
    ensures given == Some(White) ==> d == Diff(Played(h)) + 1
    ensures given == Some(Black) ==> d == Diff(Played(h)) - 1
  {
    match given
    case None =>
      assert WithAssigned(h, given) == Played(h);
      Diff(WithAssigned(h, given))
    case Some(c) =>
      DiffAppend(Played(h), c);
      Diff(WithAssigned(h, given))
  }

  /** validation/fpc.py `_has_three_consecutive_colors`. */
  predicate ThreeConsecutive(h: History, given: Option<Color>) {
    var s := WithAssigned(h, given);
    |s| >= 3 && s[|s| - 1] == s[|s| - 2] && s[|s| - 2] == s[|s| - 3]
  }

  // -------------------------------------------------- preference (fpc.py)

  /** validation/fpc.py `_get_color_preference`. */
  function Preference(h: History): (r: Option<Color>)
    // no games played, no preference
    ensures r.None? <==> |Played(h)| == 0
    // an imbalance of two or more is always reduced
    ensures r.Some? && Abs(Diff(Played(h))) > 1 ==>
              Abs(Diff(Played(h) + [r.value])) < Abs(Diff(Played(h)))
    // within balance, the preference never yields three equal colours in a row
    ensures r.Some? && Abs(Diff(Played(h))) <= 1 ==> !ThreeConsecutive(h, r)
    // with two different last colours, an imbalance of one is reduced
    ensures r.Some? && Abs(Diff(Played(h))) == 1 && !LastTwoSame(Played(h)) ==>
              Diff(Played(h) + [r.value]) == 0
    // a balanced history alternates from the last colour
    ensures r.Some? && Diff(Played(h)) == 0 ==> r.value != Played(h)[|Played(h)| - 1]
  {
    var s := Played(h);
    if |s| == 0 then None
    else
      var d := Diff(s);
      var c :=
        if d > 1 then Black
        else if d < -1 then White
        else if LastTwoSame(s) then Opposite(s[|s| - 1])
        else if d == 1 then Black
        else if d == -1 then White
        else Opposite(s[|s| - 1]);
      DiffAppend(s, c);
      Some(c)
  }

  /** fpc.py `_has_absolute_preference`: an imbalance above one or the same
      colour in the last two games. */
  predicate AbsolutePref(h: History) {
    var s := Played(h);
    |s| > 0 && (Abs(Diff(s)) > 1 || LastTwoSame(s))
  }

  /** fpc.py `_has_strong_preference`: not absolute, and an imbalance of one. */
  predicate StrongPref(h: History) {
    var s := Played(h);
    !AbsolutePref(h) && |s| > 0 && Abs(Diff(s)) == 1
  }

  /** fpc.py `_has_mild_preference`: games played, neither absolute nor strong. */
  predicate MildPref(h: History) {
    !AbsolutePref(h) && !StrongPref(h) && |Played(h)| > 0
  }

  /** Article 1.6.2: a player who has played has exactly one strength of
      preference, and one who has not played has none. */
  lemma StrengthsPartition(h: History)
    ensures |Played(h)| == 0 ==> !AbsolutePref(h) && !StrongPref(h) && !MildPref(h)
    ensures |Played(h)| > 0 ==>
      (AbsolutePref(h) && !StrongPref(h) && !MildPref(h))
      || (!AbsolutePref(h) && StrongPref(h) && !MildPref(h))
      || (!AbsolutePref(h) && !StrongPref(h) && MildPref(h))
  {
  }

  /** A mild preference means a balanced history. */
  lemma MildMeansBalanced(h: History)
    requires MildPref(h)
    ensures Diff(Played(h)) == 0
  {
    var s := Played(h);
    CountSum(s);
    ParityOfDiff(s);
  }

  lemma {:induction false} CountSum(s: seq<Color>)
    ensures Count(s, White) + Count(s, Black) == |s|
  {
    if |s| > 0 {
      CountSum(s[..|s| - 1]);
    }
  }

  /** The imbalance has the parity of the number of games. */
  lemma {:induction false} ParityOfDiff(s: seq<Color>)
    ensures (Diff(s) - |s|) % 2 == 0
  {
    if |s| > 0 {
      ParityOfDiff(s[..|s| - 1]);
      assert s == s[..|s| - 1] + [s[|s| - 1]];
      DiffAppend(s[..|s| - 1], s[|s| - 1]);
    }
  }

  // ----------------------------------------- preference (dutch_swiss.py)

  /** pairing/dutch_swiss.py `_get_color_preference`, written in the order
      of Articles 1.6.2.1 to 1.6.2.3. */
  function DutchPreference(h: History): Option<Color> {
    if |h| == 0 then None
    else
      var s := Played(h);
      if |s| == 0 then None
      else
        var d := Diff(s);
        if Abs(d) > 1 then Some(if d > 1 then Black else White)
        else if LastTwoSame(s) then Some(Opposite(s[|s| - 1]))
        else if d == 1 then Some(Black)
        else if d == -1 then Some(White)
        else if d == 0 then Some(Opposite(s[|s| - 1]))
        else None
  }

  /** The engine and the checker agree on every colour preference. */
  lemma DutchPreferenceAgrees(h: History)
    ensures DutchPreference(h) == Preference(h)
  {
  }

  // ------------------------------------------- preference (base_player.py)

  /** player/base_player.py `get_last_two_colors`: the last and second-last
      played colours, None where there are not enough games. */
  function LastTwoColors(h: History): (r: (Option<Color>, Option<Color>))
    ensures r.1.Some? ==> r.0.Some?
    ensures |Played(h)| >= 1 <==> r.0.Some?
    ensures |Played(h)| >= 2 <==> r.1.Some?
    ensures r.0.Some? ==> r.0.value == Played(h)[|Played(h)| - 1]
    ensures r.1.Some? ==> r.1.value == Played(h)[|Played(h)| - 2]
  {
    var s := Played(h);
    if |s| >= 2 then (Some(s[|s| - 1]), Some(s[|s| - 2]))
    else if |s| == 1 then (Some(s[0]), None)
    else (None, None)
  }

  /** player/base_player.py `get_color_preference`: a repeated last colour
      forces the other one, otherwise the less played colour, otherwise none. */
  function PlayerPreference(h: History): (r: Option<Color>)
    ensures r.None? <==> Diff(Played(h)) == 0 && !LastTwoSame(Played(h))
    ensures LastTwoSame(Played(h)) ==> r == Some(Opposite(Played(h)[|Played(h)| - 1]))
    ensures r.Some? && !LastTwoSame(Played(h)) ==>
              Abs(Diff(Played(h) + [r.value])) < Abs(Diff(Played(h)))
  {
    var s := Played(h);
    if LastTwoSame(s) then Some(Opposite(s[|s| - 1]))
    else
      var d := Diff(s);
      if d > 0 then (DiffAppend(s, Black); Some(Black))
      else if d < 0 then (DiffAppend(s, White); Some(White))
      else None
  }

  /** Where the player record states a preference and the imbalance is at
      most one, the checker states the same preference; where the record
      states none, the checker's preference is the mild alternation. */
  lemma PlayerPreferenceAgrees(h: History)
    ensures PlayerPreference(h).Some? && Abs(Diff(Played(h))) <= 1 ==>
              Preference(h) == PlayerPreference(h)
    ensures PlayerPreference(h).None? && |Played(h)| > 0 ==>
              MildPref(h) && Preference(h) == Some(Opposite(Played(h)[|Played(h)| - 1]))
  {
  }
}
