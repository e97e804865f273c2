/** The values of constants.py the modelled code uses. */
module Constants {
  const WinScore: real := 1.0
  const DrawScore: real := 0.5
  const LossScore: real := 0.0
  const ByeScore: real := 1.0

  const ResultWhiteWin: string := "1-0"
  const ResultDraw: string := "0.5-0.5"
  const ResultBlackWin: string := "0-1"

  const TbMedian: string := "median"
  const TbSolkoff: string := "solkoff"
  const TbCumulative: string := "cumulative"
  const TbCumulativeOpp: string := "cumulative_opp"
  const TbSonnebornBerger: string := "sb"
  const TbMostBlacks: string := "most_blacks"
  const TbHeadToHead: string := "h2h"

  /** DEFAULT_TIEBREAK_SORT_ORDER, the USCF order. */
  const DefaultTiebreakOrder: seq<string> :=
    [TbMedian, TbSolkoff, TbCumulative, TbCumulativeOpp, TbSonnebornBerger, TbMostBlacks]

  const DutchSwiss: string := "dutch_swiss"
  const RoundRobin: string := "round_robin"
  const Manual: string := "manual"
}
