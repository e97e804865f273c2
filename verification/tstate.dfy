/** gui/views/tournament/tournament_state.py without Qt: the phase of the
    tournament and the actions available, derived from how many rounds have
    pairings, how many have results and the round count. */
module TournamentStates {
  import opened Wrappers
  import opened Text

  datatype Phase = NoTournament | NotStarted | AwaitingResults | AwaitingNextRound | Finished

  /** What the state reads from a loaded tournament: the pairings of each
      round generated so far (as their counts), the round count and the
      number of players. */
  datatype Snapshot = Snapshot(roundPairingCounts: seq<nat>, numRounds: int, numPlayers: nat)

  datatype State = State(
    exists_: bool, started: bool, finished: bool,
    pairingsGenerated: nat, resultsRecorded: int, totalRounds: int, numPlayers: nat,
    phase: Phase, canStart: bool, canPrepare: bool, canRecord: bool, canUndo: bool,
    hasPairings: bool)

  /** `TournamentState.compute`. */
  function Compute(t: Option<Snapshot>, index: int): (s: State)
    ensures t.None? ==> s == State(false, false, false, 0, 0, 0, 0, NoTournament,
                                   false, false, false, false, false)
    ensures t.Some? ==> s.exists_ && s.pairingsGenerated == |t.value.roundPairingCounts|
                        && s.resultsRecorded == index && s.totalRounds == t.value.numRounds
    ensures t.Some? ==> (s.phase == Finished <==> index >= t.value.numRounds > 0)
    ensures t.Some? && s.phase != Finished ==>
              (s.phase == NotStarted <==> |t.value.roundPairingCounts| == 0)
    ensures t.Some? && s.phase != Finished && s.phase != NotStarted ==>
              (s.phase == AwaitingResults <==> |t.value.roundPairingCounts| > index)
    ensures t.Some? ==> s.phase != NoTournament
    ensures s.canUndo <==> t.Some? && index > 0
    ensures s.canStart <==> t.Some? && |t.value.roundPairingCounts| == 0
    ensures s.hasPairings <==> t.Some? && 0 <= index < |t.value.roundPairingCounts|
                                         && t.value.roundPairingCounts[index] > 0
  {
    match t
    case None => State(false, false, false, 0, 0, 0, 0, NoTournament, false, false, false, false, false)
    case Some(v) =>
      var generated := |v.roundPairingCounts|;
      var started := generated > 0;
      var finished := index >= v.numRounds && v.numRounds > 0;
      var phase :=
        if finished then Finished
        else if !started then NotStarted
        else if generated > index then AwaitingResults
        else AwaitingNextRound;
      State(true, started, finished, generated, index, v.numRounds, v.numPlayers, phase,
            !started,
            started && generated == index && generated < v.numRounds,
            started && generated > index,
            index > 0,
            // Python's negative index reads from the end; the index is never
            // negative in the view.
            0 <= index < generated && v.roundPairingCounts[index] > 0)
  }

  /** Recording and preparing are never offered together; preparing is only
      offered while awaiting the next round, and recording only while
      awaiting results unless every round is already recorded. */
  lemma ActionsExclusive(t: Option<Snapshot>, index: int)
    ensures var s := Compute(t, index);
            !(s.canRecord && s.canPrepare)
            && (s.canPrepare ==> s.phase == AwaitingNextRound)
            && (s.canRecord && !s.finished ==> s.phase == AwaitingResults)
            && (s.phase == AwaitingResults ==> s.canRecord)
  {
  }

  /** `display_round_number`: the round being played, 1-based. */
  function DisplayRoundNumber(s: State): int
  {
    s.resultsRecorded + 1
  }

  /** `primary_button_enabled`. */
  predicate PrimaryButtonEnabled(s: State) {
    s.canStart || s.canRecord || s.canPrepare
  }

  /** With no tournament loaded nothing is enabled; while awaiting results
      or the next round (not finished) the button is enabled exactly when
      there is something to record or a round left to prepare. */
  lemma PrimaryButtonMeaning(t: Option<Snapshot>, index: int)
    ensures t.None? ==> !PrimaryButtonEnabled(Compute(t, index))
    ensures Compute(t, index).phase == NotStarted ==> PrimaryButtonEnabled(Compute(t, index))
    ensures Compute(t, index).phase == AwaitingResults ==> PrimaryButtonEnabled(Compute(t, index))
    ensures (t.Some? && Compute(t, index).phase == AwaitingNextRound) ==>
              (PrimaryButtonEnabled(Compute(t, index)) <==>
                 (|t.value.roundPairingCounts| == index && index < t.value.numRounds))
  {
  }

  /** `status_state`: the style name of each phase. */
  function StatusState(s: State): (r: string)
    ensures r == "default" <==> s.phase == NoTournament
    ensures r == "finished" <==> s.phase == Finished
    ensures r == "recording" <==> s.phase == AwaitingResults
  {
    match s.phase
    case Finished => "finished"
    case NotStarted => "ready"
    case AwaitingResults => "recording"
    case AwaitingNextRound => "prepare"
    case NoTournament => "default"
  }

  /** `primary_button_text`. */
  function PrimaryButtonText(s: State): (r: string)
    ensures s.phase == NoTournament <==> r == "No Action Available"
  {
    match s.phase
    case Finished => "\U{2713} Tournament Complete"
    case NotStarted => "Start Tournament"
    case AwaitingResults => "Record Results & Advance"
    case AwaitingNextRound => "Prepare Next Round"
    case NoTournament => "No Action Available"
  }

  /** The opening words of the round messages. */
  function RoundHeading(n: int): string {
    "Round " + IntToString(n)
  }

  /** `get_status_message`: while awaiting results the message names the
      round to play (the recorded count plus one); after a round is complete
      it names that round. */
  function StatusMessage(s: State, numPairings: int): (r: string)
    ensures s.phase == AwaitingResults ==> RoundHeading(DisplayRoundNumber(s)) + " of " <= r
    ensures s.phase == AwaitingNextRound ==> RoundHeading(s.resultsRecorded) + " complete." <= r
  {
    match s.phase
    case NoTournament => "No tournament loaded. Create or load a tournament to begin."
    case Finished =>
      "\U{1F3C6} Tournament complete! All " + IntToString(s.totalRounds)
      + " rounds have been played. View the Standings tab for final results."
    case NotStarted =>
      "Tournament ready with " + IntToString(s.numPlayers) + " players and " + IntToString(s.totalRounds)
      + " rounds. Click 'Start Tournament' to generate Round 1 pairings."
    case AwaitingResults =>
      var games := if numPairings > 0 then "all " + IntToString(numPairings) + " game(s)" else "all games";
      var head := RoundHeading(DisplayRoundNumber(s)) + " of ";
      var tail := IntToString(s.totalRounds) + ": Enter results for " + games
                  + " below, then click 'Record Results & Advance'.";
      PrefixOfConcat(head, tail);
      head + tail
    case AwaitingNextRound =>
      var head := RoundHeading(s.resultsRecorded) + " complete.";
      var tail := " Click 'Prepare Next Round' to generate Round "
                  + IntToString(DisplayRoundNumber(s)) + " pairings.";
      PrefixOfConcat(head, tail);
      head + tail
  }

  lemma PrefixOfConcat(a: string, b: string)
    ensures a <= a + b
  {
    assert (a + b)[..|a|] == a;
  }
}
