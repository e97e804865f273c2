# Gambit Pairing core, modelled in Dafny

This project models the core of Gambit Pairing, a Swiss-system chess tournament manager, and proves properties about the model. The core includes:

- a checker that tells whether one round's pairings follow the FIDE Dutch system (FIDE Handbook C.04.3). It covers the absolute criteria C1–C3 and the quality criteria C4–C21. The model also covers the Dutch engine's helpers: score brackets, colour preferences, floaters, bye selection and the greedy pairing of a bracket.
- the tool that compares the Gambit engine with the bbpPairings engine. This covers the quality metrics, the comparison engine, the statistical analyzer, the validation comparator, the report writer and the command-line argument handling.
- the random tournament generator. It builds players, simulates results under several patterns, and exports and imports files in the TRF format (FIDE Tournament Report File).
- the bbpPairings adapter, which writes the TRF file the external engine reads and parses the pairings the engine prints.
- the tournament bookkeeping:
  - players and FIDE players;
  - the tiebreak calculator;
  - the tournament, its round manager and its result recorder;
  - the GUI's tournament state and controller;
  - input validation, the player factory, the API adapters, federation codes and print helpers.

Modelling conventions:

- Scores, ratings, percentages and probabilities are exact `real`s. Integers are unbounded, and fixed-width formatting is written out explicitly.
- Strings are `seq<char>`. Case changes, `strip` and `isdigit` act on ASCII only.
- Things the code reads from outside become parameters:
  - random draws (`random.random`, `random.choice`, `random.gauss` and shuffles);
  - clocks;
  - the values of `math.sqrt` and `math.erfc`;
  - the output of the external bbpPairings engine.
- Where Python raises an exception, the model returns a `Result` failure. Where Python returns `None`, the model returns an `Option`.
- Each module follows one source file. Members that model code as written, with a defect the corrected member fixes, carry `AsWritten` in their names; "## Findings" lists them.

## Model

| member | source | states |
|---|---|---|
| Analyzer.Mean | src/gambitpairing/comparison/analyzer.py:148 | the mean of a non-empty list lies between its least and greatest value |
| Analyzer.MeanBetweenExtremes | src/gambitpairing/comparison/analyzer.py:148 | the sum over the length lies between the least and the greatest value |
| Analyzer.MiddleBounds | src/gambitpairing/comparison/analyzer.py:149 | the middle of a sorted list (or the mean of its two middle values) stays within any bounds its elements keep |
| Analyzer.MedianBounds | src/gambitpairing/comparison/analyzer.py:149 | the median lies between the least and the greatest value |
| Analyzer.Within | src/gambitpairing/comparison/analyzer.py:149 | every element of the sorted copy lies between the least and the greatest input value |
| Analyzer.CountWinner | src/gambitpairing/comparison/analyzer.py:131-137 | no engine wins more comparisons than there are |
| Analyzer.CountOthers | src/gambitpairing/comparison/analyzer.py:131-137 | the comparisons won by neither engine are at most all of them |
| Analyzer.CountsPartition | src/gambitpairing/comparison/analyzer.py:131-137 | every comparison is counted once: for Gambit, for BBP, or for neither |
| Analyzer.TiesAtMostOthers | src/gambitpairing/comparison/analyzer.py:131-137 | ties are among the comparisons neither engine wins |
| Analyzer.Rate | src/gambitpairing/comparison/analyzer.py:140-143 | a rate over an empty total is 0, and a count within the total gives a rate in [0, 1] |
| Analyzer.RatesSum | src/gambitpairing/comparison/analyzer.py:140-143 | the win, loss and tie rates of a non-empty breakdown add up to one |
| Analyzer.Significance | src/gambitpairing/comparison/analyzer.py:193-221 | fewer comparisons than the threshold give significance 0; with at least the threshold, an empty list or a threshold of 0 divides by zero, exactly then; a positive threshold gives significance in [0, 1], a negative one a value of at most 0 |
| Analyzer.Scaled | src/gambitpairing/comparison/analyzer.py:213-221 | twice the deviation times the sample ratio, capped at 1, lies in [0, 1] |
| Analyzer.SignificanceSweep | src/gambitpairing/comparison/analyzer.py:193-221 | a clean sweep by either engine over at least the threshold is fully significant |
| Analyzer.SignificanceEvenSplit | src/gambitpairing/comparison/analyzer.py:193-221 | an even split between the engines has significance 0 |
| Analyzer.Confidence | src/gambitpairing/comparison/analyzer.py:223-252 | fewer comparisons than the threshold give confidence 0.5; with at least the threshold, no comparisons or a threshold of 0 divides by zero, exactly then; otherwise confidence lies in [0.5, 0.99] |
| Analyzer.ConfidenceSweep | src/gambitpairing/comparison/analyzer.py:223-252 | a clean sweep over three times the threshold gives the highest confidence, 0.99 |
| Analyzer.SizeOf | src/gambitpairing/comparison/analyzer.py:351-358 | up to 4 pairs is small, 5 to 12 medium, more large, and these cases are exclusive |
| Analyzer.BucketOf | src/gambitpairing/comparison/analyzer.py:362-377 | a bucket counts all its comparisons, its wins and ties do not exceed them, and its rates lie in [0, 1] |
| Analyzer.OfCategory | src/gambitpairing/comparison/analyzer.py:347-360 | a size group holds exactly the comparisons of that size, and is empty only when none has it |
| Analyzer.SizePerformance | src/gambitpairing/comparison/analyzer.py:334-379 | there is a bucket for exactly the sizes that occur, each computed over that size's comparisons |
| Analyzer.SizeGroupsPartition | src/gambitpairing/comparison/analyzer.py:347-360 | the three size groups together hold every comparison once |
| Analyzer.OfRound | src/gambitpairing/comparison/analyzer.py:393-399 | a round group holds exactly the comparisons of that round |
| Analyzer.RoundPerformance | src/gambitpairing/comparison/analyzer.py:381-414 | there is a bucket for exactly the non-zero rounds that occur, each non-empty and computed over that round |
| Analyzer.StatsOf | src/gambitpairing/comparison/analyzer.py:254-294 | statistics exist exactly for a non-empty list, and their mean lies between minimum and maximum |
| Analyzer.SideOf | src/gambitpairing/comparison/analyzer.py:254-332 | a difference is reported exactly when both engines have scores, and it is the difference of their means |
| Analyzer.Analyze | src/gambitpairing/comparison/analyzer.py:111-191 | no comparisons give the empty summary; a non-empty list fails with a division by zero exactly when the threshold is 0; otherwise the win counts partition the total, the rates are those counts over it and add up to one, significance lies in [0, 1] for a positive threshold, confidence in [0.5, 0.99], the round and size buckets are those of the list, and the violation patterns are those of the list |
| Analyzer.DifferenceStatsOrdered | src/gambitpairing/comparison/analyzer.py:146-153 | for a non-empty comparison list the score differences' minimum, mean, median and maximum are in order |
| Analyzer.AddCount | src/gambitpairing/comparison/analyzer.py:431-437 | adding a criterion's count keeps the existing keys and adds that criterion |
| Analyzer.Merge | src/gambitpairing/comparison/analyzer.py:429-437 | merging a result's counts adds each criterion's count to the running total, over the union of keys |
| Analyzer.SumValuesRemove | src/gambitpairing/comparison/analyzer.py:439-440 | any one criterion can be taken out of a total first |
| Analyzer.SumValuesAdd | src/gambitpairing/comparison/analyzer.py:431-440 | adding one count raises the total by that count |
| Analyzer.MergeStep | src/gambitpairing/comparison/analyzer.py:429-437 | merging a dictionary is merging one of its keys and then the rest |
| Analyzer.SumValuesMerge | src/gambitpairing/comparison/analyzer.py:429-440 | merging adds the totals |
| Analyzer.Pattern | src/gambitpairing/comparison/analyzer.py:416-445 | an engine's pattern has a key for exactly the criteria some comparison of it violates |
| Analyzer.ViolationPatterns | src/gambitpairing/comparison/analyzer.py:416-445 | each engine's pattern has a key for exactly the criteria some comparison of it violates, and its total is the sum of every comparison's violation counts |
| Analyzer.PatternTotals | src/gambitpairing/comparison/analyzer.py:416-445 | an engine's pattern total is the sum of every comparison's violation counts |
| ApiAdapters.IntOf | src/gambitpairing/utils/api_adapters.py:45 | `int()` of a number is the number and of a string is Python's reading of the stripped text, or nothing where `int()` raises |
| ApiAdapters.OrInt | src/gambitpairing/utils/api_adapters.py:65-70 | `a or b`: a truthy integer wins, otherwise the fallback |
| ApiAdapters.FideIdOf | src/gambitpairing/utils/api_adapters.py:41-47 | an absent or falsy FIDE id gives none; a truthy one gives its `int()`, none when that raises |
| ApiAdapters.BirthDateOf | src/gambitpairing/utils/api_adapters.py:52-62 | a birth date exactly when the birth year is truthy, parses, and lies in 1900 through the current year; it is then 1 January of that year |
| ApiAdapters.FideApiToPlayerDict | src/gambitpairing/utils/api_adapters.py:17-83 | fails only when the name is JSON null; otherwise the stripped name, the standard-then-rapid-then-blitz-then-0 rating, the parsed FIDE id, the title, the three FIDE ratings and the federation as given |
| ApiAdapters.Location | src/gambitpairing/utils/api_adapters.py:116-118 | "city, province" when both are given, otherwise whichever one is |
| ApiAdapters.CfcApiToPlayerDict | src/gambitpairing/utils/api_adapters.py:86-141 | fails exactly when a name or address part is JSON null or a truthy FIDE id does not parse; otherwise the joined stripped name, federation "CAN", the regular-then-quick-then-0 rating, a FIDE id exactly when a non-zero one is given, and a club exactly when a city or province is |
| ApiAdapters.ApiResponseToPlayers | src/gambitpairing/utils/api_adapters.py:159-204 | never more players than records |
| ApiAdapters.Adaptable | src/gambitpairing/utils/api_adapters.py:190-204 | the records whose adapter succeeds, never more than the records |
| ApiAdapters.BatchKeepsAdaptable | src/gambitpairing/utils/api_adapters.py:181-204 | the batch holds exactly one player per record whose adapter succeeds, in input order: a successful adapter always writes a name, so the factory never refuses it |
| ApiAdapters.FideRecordGivesFidePlayer | src/gambitpairing/utils/api_adapters.py:17-83 | a FIDE record with a parseable id becomes a FIDE player carrying that id |
| Bbp.NumberOr | src/gambitpairing/compatibility/bbp.py:565 | an unset or zero pairing number gives the fallback, and any other result is the player's own number |
| Bbp.Known | src/gambitpairing/compatibility/bbp.py:627 | the sum of the known results is 0 when none is known, and at most the number of rounds when each lies in [0, 1] |
| Bbp.ComputeScore | src/gambitpairing/compatibility/bbp.py:625-627 | with results in [0, 1] the score lies between 0 and the number of rounds included |
| Bbp.ScoreStep | src/gambitpairing/compatibility/bbp.py:625-627 | one more round adds that round's result, or nothing when it has none or lies past the recorded results |
| Bbp.ScoreIgnoresLater | src/gambitpairing/compatibility/bbp.py:626 | results recorded after the rounds included do not count |
| Bbp.Standings | src/gambitpairing/compatibility/bbp.py:633-636 | one standing per player, in order, each with that player's score |
| Bbp.RankMap | src/gambitpairing/compatibility/bbp.py:637 | every entry's id gets a rank |
| Bbp.RankedUpTo | src/gambitpairing/compatibility/bbp.py:637 | every id among the first entries gets a rank |
| Bbp.RankedEntries | src/gambitpairing/compatibility/bbp.py:637 | every rank points back at an entry with the ranked id |
| Bbp.RankedOfDistinct | src/gambitpairing/compatibility/bbp.py:637 | with distinct ids every entry is ranked by its own position |
| Bbp.Ordered | src/gambitpairing/compatibility/bbp.py:633-636 | the sorted standings are a permutation of the standings |
| Bbp.OrderedSorted | src/gambitpairing/compatibility/bbp.py:633-636 | the sorted standings go by descending score, then ascending pairing number |
| Bbp.RanksOf | src/gambitpairing/compatibility/bbp.py:637 | every rank lies between 1 and the number of players |
| Bbp.ComputeRanks | src/gambitpairing/compatibility/bbp.py:630-637 | the ranking fails exactly when two players of equal score have one an unset and one a set pairing number (the sort key compares `None` with a number); otherwise every player is ranked, with a rank between 1 and the number of players |
| Bbp.Ranking | src/gambitpairing/compatibility/bbp.py:630-637 | the ranks of a sort that goes through: every player is ranked, with a rank between 1 and the number of players |
| Bbp.StandingRanked | src/gambitpairing/compatibility/bbp.py:637 | every standing is ranked |
| Bbp.StandingPosition | src/gambitpairing/compatibility/bbp.py:630-637 | with distinct ids a standing's rank is its place in the sorted list |
| Bbp.StandingsOrdered | src/gambitpairing/compatibility/bbp.py:633-637 | a higher score ranks first, and on equal scores the lower pairing number does |
| Bbp.RanksArePermutation | src/gambitpairing/compatibility/bbp.py:630-637 | when the ranking goes through and ids are distinct, no two players share a rank |
| Bbp.RanksOrdered | src/gambitpairing/compatibility/bbp.py:630-637 | when the ranking goes through, a player with a higher score ranks first, and on equal scores the one with the lower pairing number does |
| Bbp.FormatMatch | src/gambitpairing/compatibility/bbp.py:680-707 | a segment starts with two spaces and ends in a colour letter and a result letter, each behind a space |
| Bbp.MatchCodes | src/gambitpairing/compatibility/bbp.py:686-707 | without an opponent: U for a full-point bye, H for a half-point bye, Z otherwise; with one: 1 for a win or more, = for a draw, 0 otherwise or without a result |
| Bbp.MatchHead | src/gambitpairing/compatibility/bbp.py:695-707 | the opponent field starts with two spaces |
| Bbp.MatchTail | src/gambitpairing/compatibility/bbp.py:695-707 | the colour and result field is four characters, a space before each letter |
| Bbp.MatchReadsBack | src/gambitpairing/compatibility/bbp.py:695-707 | the opponent field reads back as the opponent's number, with 0 for a missing number or a round without opponent |
| Bbp.MatchWidth | src/gambitpairing/compatibility/bbp.py:695-707 | a segment is ten characters exactly when the opponent's number fits in four characters |
| Bbp.RoundMatches | src/gambitpairing/compatibility/bbp.py:670-676 | one segment per round included, a round past the end of the player's lists having no opponent and no result |
| Bbp.MatchHistory | src/gambitpairing/compatibility/bbp.py:661-677 | the history takes at least ten characters per round included |
| Bbp.HistorySegments | src/gambitpairing/compatibility/bbp.py:661-677 | with four-character numbers the history is exactly ten characters per round, segment i describing round i |
| Bbp.RoundWidth | src/gambitpairing/compatibility/bbp.py:680-707 | with four-character numbers every round's segment is ten characters |
| Bbp.PlayerLineColumns | src/gambitpairing/compatibility/bbp.py:640-658 | within the column widths the number, rating, score and rank read back from their fixed columns, and the history follows from column 90 |
| Bbp.ClampRating | src/gambitpairing/compatibility/bbp.py:581 | the rating is kept within 0 and 9999, a rating already there unchanged |
| Bbp.NumbersOfEntries | src/gambitpairing/compatibility/bbp.py:564-567 | every player's id is numbered, with the number of one of the players carrying it |
| Bbp.MapOfEntries | src/gambitpairing/compatibility/bbp.py:568-570 | every player's id is a key, with the value of one of the players carrying it |
| Bbp.ByNumber | src/gambitpairing/compatibility/bbp.py:577-579 | the players in number order are a permutation of the players |
| Bbp.ByNumberOrdered | src/gambitpairing/compatibility/bbp.py:577-579 | the player records go by pairing number, a player without one first, and hold every player once |
| Bbp.Header | src/gambitpairing/compatibility/bbp.py:573-575 | the header has the colour record, plus the round-count record exactly when the round count is not 0 |
| Bbp.HeaderCodes | src/gambitpairing/compatibility/bbp.py:573-575 | no header record is a player record, and a round-count record appears exactly when the round count is not 0 |
| Bbp.BuildPairingTrf | src/gambitpairing/compatibility/bbp.py:551-587 | the build fails for a current round below 1, otherwise for a colour other than white1 and black1, and otherwise exactly when ranking the players by their scores after the played rounds fails; the text ends in a line break |
| Bbp.PlayerLineIsLine | src/gambitpairing/compatibility/bbp.py:640-658 | a player line is one TRF line starting with its record code |
| Bbp.HeaderAreLines | src/gambitpairing/compatibility/bbp.py:573-575 | both header records are TRF lines |
| Bbp.SeatLinesAreLines | src/gambitpairing/compatibility/bbp.py:577-585 | every 001 record is a TRF line starting with its code |
| Bbp.TrfLinesAreLines | src/gambitpairing/compatibility/bbp.py:573-587 | every record written is one TRF line |
| Bbp.BuildReadsBack | src/gambitpairing/compatibility/bbp.py:551-587 | splitting the text into stripped, non-empty lines gives back exactly the records written, for the rounds before the current one |
| Bbp.TrfLayout | src/gambitpairing/compatibility/bbp.py:573-587 | the records are the colour record, the round-count record when there is one, then one player record per player |
| Bbp.NumbersAgree | src/gambitpairing/compatibility/bbp.py:564-580 | with distinct ids and set pairing numbers, a player's number in the history map and in its record is its own pairing number |
| Bbp.Lookup | src/gambitpairing/compatibility/bbp.py:594 | a player is found for a number exactly when some player carries it, and the one found carries it |
| Bbp.Classify | src/gambitpairing/compatibility/bbp.py:601-620 | an output line read as a pair names two different numbers, the second not 0 |
| Bbp.Apply | src/gambitpairing/compatibility/bbp.py:611-620 | reading a line either adds one pair at the end, or sets the bye, or changes nothing |
| Bbp.Entries | src/gambitpairing/compatibility/bbp.py:601-620 | one entry per line |
| Bbp.ParseOutput | src/gambitpairing/compatibility/bbp.py:590-622 | reading fails exactly when the output has no non-blank line |
| Bbp.ParsedFromList | src/gambitpairing/compatibility/bbp.py:590-622 | a successful reading pairs two listed players with different numbers and gives the bye to a listed player |
| Bbp.FoldAppend | src/gambitpairing/compatibility/bbp.py:601-620 | reading two runs of lines is reading the first, then the second |
| Bbp.LastByeWins | src/gambitpairing/compatibility/bbp.py:614-616 | the last bye line for a listed player decides the bye, whatever the lines before it said |
| Bbp.PairLines | src/gambitpairing/compatibility/bbp.py:601-620 | one output line per pair |
| Bbp.ClassifyPairLine | src/gambitpairing/compatibility/bbp.py:614-620 | a line "w b" reads as a pair when the numbers differ and b is not 0, and as a bye for w otherwise |
| Bbp.PairLinesAreLines | src/gambitpairing/compatibility/bbp.py:595 | every rendered line survives the stripping and blank-line filter |
| Bbp.OutputRoundTrip | src/gambitpairing/compatibility/bbp.py:590-622 | rendering pairs of listed, different players and a listed bye as engine output and reading it back gives those players' pairs and bye |
| Bbp.OutputEntries | src/gambitpairing/compatibility/bbp.py:601 | the lines after the first read as the pair entries, then the bye's |
| Bbp.FoldOutput | src/gambitpairing/compatibility/bbp.py:601-620 | applying the entries gives the resolved pairs and the bye |
| Cli.ParseRange | src/gambitpairing/comparison/cli.py:46-116 | a value holding a dash succeeds only as two increasing values, any other only as one value, and every value returned lies between the minimum and 10000 |
| Cli.ParsePair | src/gambitpairing/comparison/cli.py:65-100 | the MIN-MAX form succeeds exactly when it splits into two integers with the minimum below the maximum, the minimum at least the floor and the maximum at most 10000 |
| Cli.ParseSingle | src/gambitpairing/comparison/cli.py:101-116 | a single value succeeds exactly when it is an integer between the floor and 10000 |
| Cli.RangeRoundTrip | src/gambitpairing/comparison/cli.py:46-116 | every range the parser accepts is read back from its own MIN-MAX text |
| Cli.SingleRoundTrip | src/gambitpairing/comparison/cli.py:101-116 | every single value the parser accepts is read back from its own text |
| Cli.NegativeRejected | src/gambitpairing/comparison/cli.py:65-100 | "-5" is read as a range with an empty first part and rejected as not integers |
| Cli.SizeExamples | src/gambitpairing/comparison/cli.py:119-137 | the documented size examples: "24" gives [24] and "16-64" gives [16, 64] |
| Cli.RoundsExamples | src/gambitpairing/comparison/cli.py:140-158 | the documented rounds examples: "7" gives [7] and "5-9" gives [5, 9] |
| Cli.TournamentSeed | src/gambitpairing/comparison/cli.py:296 | a tournament is seeded exactly when a non-zero seed is given, with the seed plus its index |
| Cli.SeedsDistinct | src/gambitpairing/comparison/cli.py:296 | seeded tournaments of one run get different seeds |
| Cli.RemapPairings | src/gambitpairing/comparison/cli.py:417-446 | remapped pairings are never more than the raw ones, hold only snapshot players, keep every pairing when all ids are known and none when no id is |
| Cli.RemapAppend | src/gambitpairing/comparison/cli.py:435-446 | remapping keeps the order of the pairings |
| Cli.RemapOne | src/gambitpairing/comparison/cli.py:436-445 | a pairing whose two ids are both known becomes the snapshot's players under those ids |
| Cli.RowScores | src/gambitpairing/comparison/cli.py:515-538 | a result row counts exactly when it names both players and White's score; White keeps its score; Black keeps a given score, and otherwise gets the complement of White's unless the row is a forfeit recorded at 0 |
| Cli.ResultsMap | src/gambitpairing/comparison/cli.py:514-538 | the result map holds exactly the pairs of the rows that count |
| Cli.Fresh | src/gambitpairing/comparison/cli.py:449-490 | a fresh player keeps id, name, rating and activity, with consistent, empty history and no points |
| Cli.Register | src/gambitpairing/comparison/cli.py:498-501 | the player map holds exactly the input ids, each entry a fresh player under its own id with consistent, empty history, and the order lists those ids once each |
| Cli.RegisterLast | src/gambitpairing/comparison/cli.py:498-501 | each id holds the fresh copy of the last input player with that id, so a later player replaces an earlier one |
| Cli.RegisterOrder | src/gambitpairing/comparison/cli.py:498-501 | the ids are listed in the order the input first shows them |
| Cli.RegisterStep | src/gambitpairing/comparison/cli.py:499-501 | registering one more player keeps the map and its order in step |
| Cli.PlayersOf | src/gambitpairing/comparison/cli.py:575-581 | the players listed are those of the map, one per id of the order, in that order |
| Cli.Without | src/gambitpairing/comparison/cli.py:566-579 | the kept ids are exactly the listed ids not excluded |
| Cli.ReplayWellFormed | src/gambitpairing/comparison/cli.py:506-564 | replaying earlier rounds keeps every player filed under their own id with consistent bookkeeping |
| Cli.SnapshotState | src/gambitpairing/comparison/cli.py:493-581 | the snapshot's players are the replayed players in first-seen order |
| Cli.SnapshotAll | src/gambitpairing/comparison/cli.py:493-581 | the snapshot holds one player per distinct input id, each with consistent bookkeeping |
| Cli.SnapshotActive | src/gambitpairing/comparison/cli.py:566-579 | the active players are exactly the snapshot's players that the target round's scheduled byes do not exclude |
| Cli.Before | src/gambitpairing/comparison/cli.py:506-510 | the replayed rounds are a prefix of the sorted rounds, all numbered below the target, and the first round left out is numbered at or after it |
| Cli.SortedBefore | src/gambitpairing/comparison/cli.py:506-510 | a round is replayed exactly when it is one of the input rounds and is numbered below the target |
| Cli.ReplayIsSteps | src/gambitpairing/comparison/cli.py:507-510 | the replay loop with its early break does exactly the steps of the rounds before the target |
| Cli.PlayGamesPrevious | src/gambitpairing/comparison/cli.py:540-551 | a pair counts as met exactly when it was met before or one of the round's pairings names it, both players are known and the pairing has a result |
| Cli.StepsPrevious | src/gambitpairing/comparison/cli.py:507-551 | after several rounds the met pairs are the earlier ones plus those played in any of the rounds |
| Cli.StepsByes | src/gambitpairing/comparison/cli.py:553-556 | a player's bye count grows by exactly the number of rounds whose bye names them while they are known, and they appear in the bye history exactly when that count is positive |
| Cli.SnapshotHistory | src/gambitpairing/comparison/cli.py:493-581 | the snapshot's previous matches are exactly the pairs played in the input rounds numbered below the target, and its bye history counts, per player, the byes of those rounds |
| Colors.Played | src/gambitpairing/validation/fpc.py:124-125 | the colour history without byes is never longer than the history |
| Colors.ColorDifference | src/gambitpairing/validation/fpc.py:128-134 | whites minus blacks of the played colours, one more with an assigned white and one less with an assigned black |
| Colors.Preference | src/gambitpairing/validation/fpc.py:149-171 | no preference exactly when no game was played; an imbalance above one is always reduced by the preferred colour, a balanced-enough history never gets a third equal colour in a row from it, and an imbalance of one with differing last colours is reduced |
| Colors.StrengthsPartition | src/gambitpairing/validation/fpc.py:174-197 | a player who has played has exactly one of an absolute, strong or mild preference, and one who has not played has none |
| Colors.MildMeansBalanced | src/gambitpairing/validation/fpc.py:194-197 | a mild preference means equal whites and blacks |
| Colors.ParityOfDiff | src/gambitpairing/validation/fpc.py:128-134 | the colour difference has the parity of the number of games played |
| Colors.DutchPreferenceAgrees | src/gambitpairing/pairing/dutch_swiss.py:2039-2080 | the pairing engine's colour preference, written in the order of Articles 1.6.2.1 to 1.6.2.3, equals the compliance checker's on every history |
| Colors.LastTwoColors | src/gambitpairing/player/base_player.py:224-237 | the last and second-last played colours, each present exactly when one and two games were played |
| Colors.PlayerPreference | src/gambitpairing/player/base_player.py:239-268 | no preference exactly when the history is balanced and the last two colours differ; a repeated last colour asks for the other one; any other preference reduces the imbalance |
| Colors.PlayerPreferenceAgrees | src/gambitpairing/player/base_player.py:239-268 | within an imbalance of one the player's preference equals the checker's when it states one; where it states none, the checker sees a mild preference to alternate |
| CompValidator.ValidateForComparison | src/gambitpairing/comparison/validator.py:43-91 | the comparison validation is the round validation with missing history read as empty, so its report is the combination of the checks, C1 to C3 first |
| CompValidator.MissingHistoryIsEmpty | src/gambitpairing/comparison/validator.py:77-89 | leaving out the previous matches and the bye history is the same as passing them empty |
| CompValidator.ViolationIds | src/gambitpairing/comparison/validator.py:135-144 | the ids collected are exactly those of entries whose status is a violation |
| CompValidator.ViolationSummaryAsWritten | src/gambitpairing/comparison/validator.py:156-171 | the summary as written succeeds exactly when no entry is a violation, and is then empty |
| CompValidator.CompareReportsAsWritten | src/gambitpairing/comparison/validator.py:107-154 | the comparison as written succeeds only when both summaries do |
| CompValidator.CompareReportsRaises | src/gambitpairing/comparison/validator.py:166-169 | a report with a single absolute violation makes the comparison fail |
| CompValidator.CompareReports | src/gambitpairing/comparison/validator.py:107-154 | the compliance difference is Gambit's compliance minus BBP's; each summary is keyed by that report's violated ids; the unique lists are disjoint from the other side's ids, the common list is the intersection, and unique plus common gives back each side's ids |
| CompValidator.CompareReportsSwap | src/gambitpairing/comparison/validator.py:107-154 | comparing the other way round swaps the unique lists, keeps the common list and negates the difference |
| CompValidator.CompareReportsAgree | src/gambitpairing/comparison/validator.py:107-171 | where the comparison as written does not fail it agrees with the corrected one |
| Dutch.IsTopscorer | src/gambitpairing/pairing/dutch_swiss.py:66-80 | the engine's topscorer test agrees with the checker's for every player and round, and holds only when pairing the final round |
| Dutch.PairGaps | src/gambitpairing/pairing/dutch_swiss.py:94-96 | one score difference per pairing, never negative |
| Dutch.SortDescending | src/gambitpairing/pairing/dutch_swiss.py:103-104 | the numbers sorted from highest to lowest, the same numbers as given |
| Dutch.ComputePsdList | src/gambitpairing/pairing/dutch_swiss.py:83-104 | the PSD list has one entry per pairing and per downfloater, holds exactly the pairings' absolute differences and the downfloaters' margins over the bracket score less one, and is sorted from highest to lowest |
| Dutch.ComparePsd | src/gambitpairing/pairing/dutch_swiss.py:107-127 | the PSD comparison answers -1, 0 or 1 |
| Dutch.PsdEqual | src/gambitpairing/pairing/dutch_swiss.py:107-127 | a PSD list compares equal to itself |
| Dutch.PsdAntisymmetric | src/gambitpairing/pairing/dutch_swiss.py:107-127 | swapping the two lists negates the comparison |
| Dutch.PsdPrefixSmaller | src/gambitpairing/pairing/dutch_swiss.py:120-127 | a strict prefix compares smaller |
| Dutch.PsdIsLex | src/gambitpairing/pairing/dutch_swiss.py:107-146 | when no two entries at the same position are within the tolerance without being equal, the PSD comparison is the plain lexicographic one |
| Dutch.ByParity | src/gambitpairing/pairing/dutch_swiss.py:333-339 | the higher-rated player takes White exactly when its pairing number is odd and the initial colour is White, or even and the initial colour is Black; the pair is the two players in one order or the other |
| Dutch.PairHalves | src/gambitpairing/pairing/dutch_swiss.py:329-342 | the i-th player of the top half meets the i-th of the bottom half, coloured by parity |
| Dutch.PairRoundOne | src/gambitpairing/pairing/dutch_swiss.py:310-345 | round one yields half the players, rounded down, as pairings |
| Dutch.RoundOneOpponents | src/gambitpairing/pairing/dutch_swiss.py:310-345 | rank i of the rating order meets rank i plus half the field, with colours set by the higher-rated player's pairing number |
| Dutch.RoundOneMembers | src/gambitpairing/pairing/dutch_swiss.py:310-345 | every player but the lowest-rated of an odd field is paired exactly once, and in an even field everybody is |
| Dutch.MostRecentAlternating | src/gambitpairing/pairing/dutch_swiss.py:1926-1944 | the index found is the last at which the two players' played colours differ, and after it they agree; none when they never differ |
| Dutch.AssignColors | src/gambitpairing/pairing/dutch_swiss.py:1821-1923 | the result is the two players in one order or the other; two different preferences are both granted, an absolute preference beats a weaker one, a strong one beats a mild one, and with no games played rank and pairing number decide |
| Dutch.CompatibleSymmetric | src/gambitpairing/pairing/dutch_swiss.py:1991-2008 | two players are compatible in one order exactly when in the other |
| Dutch.Greedy | src/gambitpairing/pairing/dutch_swiss.py:2011-2036 | the greedy pass never pairs more players than the bracket holds |
| Dutch.GreedyProperties | src/gambitpairing/pairing/dutch_swiss.py:2011-2036 | at most one player is left over, no returned pairing repeats an earlier match or clashes on absolute colours, each pairing is coloured by the FIDE rules in one order of its players, and nobody is paired twice or invented |
| Dutch.GreedyPairBracket | src/gambitpairing/pairing/dutch_swiss.py:2011-2036 | the loop computes exactly the greedy pass |
| Dutch.StuckPlayerDropped | src/gambitpairing/pairing/dutch_swiss.py:2011-2036 | a player with no compatible partner at its turn appears in neither the pairings nor the remainder |
| DutchChoice.AssignBsn | src/gambitpairing/pairing/dutch_swiss.py:1450-1461 | a missing or non-positive BSN becomes the player's position counted from 1, a positive one stays, and nothing else changes |
| DutchChoice.Combinations | src/gambitpairing/pairing/dutch_swiss.py:1506-1508 | every combination has the requested size and draws its elements from the input; size 0 gives one empty combination and a size beyond the input gives none |
| DutchChoice.Take | src/gambitpairing/pairing/dutch_swiss.py:1513-1514 | Python's slice to the first n entries stops at the end of the list |
| DutchChoice.GenerateMdpSets | src/gambitpairing/pairing/dutch_swiss.py:1487-1519 | M1 of at most 0 gives one empty set, no MDPs give no sets, and M1 covering all MDPs gives one set of all of them |
| DutchChoice.MdpSetsContents | src/gambitpairing/pairing/dutch_swiss.py:1487-1519 | otherwise the sets come in ascending order of their BSN lists, each has exactly M1 players drawn from the MDPs, and each holds every MDP that scores above the M1-th highest score |
| DutchChoice.MdpCandidates | src/gambitpairing/pairing/dutch_swiss.py:1500-1516 | every candidate set has M1 players drawn from the sorted MDPs and holds every MDP scoring above the M1-th |
| DutchChoice.FewAboveCutoff | src/gambitpairing/pairing/dutch_swiss.py:1509-1512 | fewer than M1 players score above the M1-th highest score, so the players that must be included never fill the set |
| DutchSelect.DownfloaterScores | src/gambitpairing/pairing/dutch_swiss.py:168-170 | the downfloaters' scores, the same scores as the players left over, highest first |
| DutchSelect.FutureViolations | src/gambitpairing/pairing/dutch_swiss.py:185-202 | counts at most the downfloaters; none without a next bracket; otherwise none exactly when every downfloater has a possible opponent there |
| DutchSelect.Gap | src/gambitpairing/pairing/dutch_swiss.py:173-182 | the absolute score difference of a pairing |
| DutchSelect.ScoreDiffs | src/gambitpairing/pairing/dutch_swiss.py:173-182 | exactly the score differences of the pairings that involve a target player, never negative, highest first; none without targets |
| DutchSelect.ComputeMetrics | src/gambitpairing/pairing/dutch_swiss.py:1543-1678 | the metrics hold the number of downfloaters, their scores highest first, the future compatibility count followed by the given counts, and one score-difference list per floater group |
| DutchSelect.Criteria | src/gambitpairing/pairing/dutch_swiss.py:1681-1778 | sixteen criteria in priority order, C6 first: fewest downfloaters |
| DutchSelect.FilterMin | src/gambitpairing/pairing/dutch_swiss.py:1693-1696 | keeps, in order, exactly the configurations whose count is the minimum, and at least one |
| DutchSelect.FilterMinLex | src/gambitpairing/pairing/dutch_swiss.py:1698-1706 | keeps at least one configuration, only configurations of the input, only those whose list is lexicographically least, and every input configuration whose list equals the kept one |
| DutchSelect.FilterMinLexTies | src/gambitpairing/pairing/dutch_swiss.py:1698-1706 | the kept configurations are exactly the input's configurations whose list equals the least, in their input order |
| Sorting.SortStable | src/gambitpairing/pairing/dutch_swiss.py:1700 | the sort is stable: the elements with any one key come out in their input order |
| DutchSelect.ApplyCriteria | src/gambitpairing/pairing/dutch_swiss.py:1681-1778 | applying the criteria in turn returns one of the configurations |
| DutchSelect.ApplyCriteriaFirst | src/gambitpairing/pairing/dutch_swiss.py:1681-1778 | whatever the later criteria decide, the result survives the first criterion |
| DutchSelect.SelectBest | src/gambitpairing/pairing/dutch_swiss.py:1522-1540 | a configuration chosen is one of the input and pairs somebody |
| DutchSelect.SelectBestNone | src/gambitpairing/pairing/dutch_swiss.py:1522-1540 | the choice is None exactly when no configuration pairs anybody |
| DutchSelect.SelectBestFewestDownfloaters | src/gambitpairing/pairing/dutch_swiss.py:1522-1540 | the choice has the fewest downfloaters among the configurations that pair somebody |
| DutchSelect.FewestDownfloatersDecides | src/gambitpairing/pairing/dutch_swiss.py:1522-1778 | a single configuration with strictly fewest downfloaters is chosen whatever the other criteria say |
| Matching.GreedyByProperties | src/gambitpairing/pairing/dutch_swiss.py:2011-2036 | the generic greedy pass leaves at most one player over, accepts only allowed pairs, and pairs nobody twice or invents anybody |
| Matching.GreedyPass | src/gambitpairing/pairing/dutch_swiss.py:2011-2036 | the loop pairs each player with its first allowed opponent, oriented by the colour allocation, and returns the players left over |
| Matching.FindFirstOk | src/gambitpairing/pairing/dutch_swiss.py:2022-2030 | the search returns the first allowed opponent, or the end of the list when there is none |
| Matching.StuckDropped | src/gambitpairing/pairing/dutch_swiss.py:2011-2036 | a player acceptable to nobody after it appears in neither output |
| Matching.ZipMembers | src/gambitpairing/pairing/dutch_swiss.py:329-342 | pairing two equally long lists element by element, in either orientation, uses each element of both exactly once |
| Sorting.CompareLex | src/gambitpairing/pairing/dutch_swiss.py:135-146 | the lexicographic comparison answers -1, 0 or 1, and 0 exactly for equal lists |
| Sorting.LexAntisymmetric | src/gambitpairing/pairing/dutch_swiss.py:135-146 | swapping the two lists negates the comparison |
| Sorting.LexPrefixSmaller | src/gambitpairing/pairing/dutch_swiss.py:135-146 | a strict prefix compares smaller |
| Sorting.LexTransitive | src/gambitpairing/pairing/dutch_swiss.py:135-146 | the comparison is transitive |
| Fpc.CriterionId | src/gambitpairing/validation/fpc.py:77-79 | a criterion's id is the text before its first colon, stripped, and never contains a colon |
| Fpc.CriterionIdOf | src/gambitpairing/validation/fpc.py:77-79 | a criterion written as an id, alone or followed by a colon and a description, has that id |
| Fpc.CountPlayedGames | src/gambitpairing/validation/fpc.py:207-208 | the games counted never exceed the rounds on record, and are none exactly when no round has an opponent |
| Fpc.FloatType | src/gambitpairing/validation/fpc.py:218-241 | a float is found only for a round that exists before the current one; a played round floats down exactly when the player outscored the opponent and up exactly when outscored; an unplayed round that scored points floats down |
| Fpc.AssignedColors | src/gambitpairing/validation/fpc.py:244-251 | the map covers exactly the paired players and the bye player; the bye player has no colour, and a paired player has Black when listed as a black and White otherwise |
| Fpc.ProperRoundColors | src/gambitpairing/validation/fpc.py:244-251 | in a round where nobody appears twice, every white is assigned White and every black Black |
| Fpc.Floaters | src/gambitpairing/validation/fpc.py:254-274 | each unequal-score pairing contributes its higher scorer as a downfloater and its lower scorer as an upfloater, so the k-th downfloater outscores the k-th upfloater; the bye player is appended last to the downfloaters |
| Fpc.FloaterOrigins | src/gambitpairing/validation/fpc.py:254-274 | every downfloater and upfloater at the same position come from one unequal-score pairing, as its higher and lower scorer |
| Fpc.EqualScoresNoFloaters | src/gambitpairing/validation/fpc.py:254-274 | when every pairing has equal scores, nobody floats except the bye player |
| Fpc.UnequalPairingFloats | src/gambitpairing/validation/fpc.py:254-274 | the higher scorer of every unequal pairing is a downfloater and the lower one an upfloater |
| Fpc.BuildContext | src/gambitpairing/validation/fpc.py:457-483 | the round context keeps the pairings, bye player, players, round numbers and previous matches it was given |
| Fpc.CheckC1 | src/gambitpairing/validation/fpc.py:286-304 | C1 is violated, absolutely, exactly when some pairing repeats an earlier match |
| Fpc.CheckC2 | src/gambitpairing/validation/fpc.py:306-333 | C2 does not apply without a bye, and is violated, absolutely, exactly when the bye player already had a bye in this tournament or a full-point unplayed round on record |
| Fpc.CheckC3 | src/gambitpairing/validation/fpc.py:335-377 | C3 applies only in the final round, and is then violated, absolutely, exactly when two non-topscorers with the same absolute colour preference are paired |
| Fpc.ConflictDefeatsEveryAllocation | src/gambitpairing/validation/fpc.py:335-377 | for such a conflicting pair no colour allocation gives both players their absolute preference |
| Fpc.HasFreshOpponent | src/gambitpairing/validation/fpc.py:515-521 | a player has a valid opponent exactly when some other active player has not met them |
| Fpc.CheckC4 | src/gambitpairing/validation/fpc.py:485-554 | C4 does not apply without players; it is violated exactly when some active player is neither paired nor the bye, and the violation is absolute exactly when such a player has met every other active player |
| Fpc.StuckMeaning | src/gambitpairing/validation/fpc.py:505-525 | the search over the unpaired players finds a stuck player exactly when some unpaired active player has no opponent left |
| Fpc.CheckC5 | src/gambitpairing/validation/fpc.py:556-591 | C5 does not apply without a bye or without eligible players, and is a quality violation exactly when some eligible player scores less than the bye player |
| Fpc.CheckC6 | src/gambitpairing/validation/fpc.py:593-617 | C6 is a quality violation exactly when there are fewer pairs than half the active players, rounded down |
| Fpc.AboveStayerByExtremes | src/gambitpairing/validation/fpc.py:619-648 | a downfloater outscores some active player who stays exactly when the best downfloater outscores the worst such player |
| Fpc.CheckC7 | src/gambitpairing/validation/fpc.py:619-648 | C7 does not apply without downfloaters, and is a quality violation exactly when a downfloater scores more than an active player who is not floating |
| Fpc.CheckC8 | src/gambitpairing/validation/fpc.py:650-687 | C8 does not apply without downfloaters, and is a quality violation exactly when a downfloater has met every possible opponent |
| Fpc.LastWithId | src/gambitpairing/validation/fpc.py:689-725 | the dictionary lookup by id finds one of the players with that id, and finds none exactly when no player has it |
| Fpc.CheckC9 | src/gambitpairing/validation/fpc.py:689-725 | C9 does not apply without a bye or eligible players, and is a quality violation exactly when some eligible player has fewer unplayed rounds than the bye player |
| Fpc.CheckC10 | src/gambitpairing/validation/fpc.py:727-758 | C10 is a quality violation exactly when a pairing involving a topscorer takes some player's colour difference beyond two |
| Fpc.ExcessDifferenceMeaning | src/gambitpairing/validation/fpc.py:128-134 | White takes the difference beyond two exactly when the player already has two more whites, or four more blacks; Black symmetrically |
| Fpc.CheckC11 | src/gambitpairing/validation/fpc.py:760-790 | C11 is a quality violation exactly when a pairing involving a topscorer gives some player the same colour three times running |
| Fpc.ThirdInARowMeaning | src/gambitpairing/validation/fpc.py:137-146 | a colour is a third in a row exactly when the last two played games had it |
| Fpc.CheckC12 | src/gambitpairing/validation/fpc.py:792-818 | C12 is a quality violation exactly when some paired player with a colour preference does not get it |
| Fpc.CheckC13 | src/gambitpairing/validation/fpc.py:820-851 | C13 is a quality violation exactly when some paired player with a strong or absolute preference does not get it |
| Fpc.StrongMissIsMiss | src/gambitpairing/validation/fpc.py:792-851 | every C13 miss is also a C12 miss |
| Fpc.CheckRepeatFloat | src/gambitpairing/validation/fpc.py:853-945 | C14 to C17 are quality violations exactly when one of the floaters checked floated the same way the given number of rounds before |
| Fpc.CheckFloatScores | src/gambitpairing/validation/fpc.py:947-1069 | C18 to C21 are quality violations exactly when an unequal pairing floats one of its players the same way as that many rounds before |
| Fpc.DownScoresImplyRepeat | src/gambitpairing/validation/fpc.py:853-1069 | a downfloat found by C18 or C20 is also found by C14 or C16 |
| Fpc.UpScoresImplyRepeat | src/gambitpairing/validation/fpc.py:853-1069 | an upfloat found by C19 or C21 is also found by C15 or C17 |
| Fpc.CheckAllQuality | src/gambitpairing/validation/fpc.py:383-455 | the list starts with C4, has C10 and C11 exactly in a final round with a non-zero round count, C14, C15, C18 and C19 exactly from round two, and C16, C17, C20 and C21 exactly from round three; no check after C4 is absolute |
| Fpc.CompliancePercentage | src/gambitpairing/validation/fpc.py:100-104 | an empty report is fully compliant; otherwise the percentage lies between 0 and 100, is 100 when everything complies and 0 when nothing does |
| Fpc.RoundPlayers | src/gambitpairing/validation/fpc.py:1137-1140 | the players supplied are checked as given; when none are, both players of every pairing and the bye player are checked |
| Fpc.ReportOf | src/gambitpairing/validation/fpc.py:1166-1210 | the report holds every result, counts the compliant ones, lists exactly the absolute violations as violations and the quality violations as warnings, and fails exactly when some violation is absolute |
| Fpc.AbsoluteOnlyInFirstFour | src/gambitpairing/validation/fpc.py:1170-1187 | when only C1 to C4 can fail absolutely, the round fails exactly when one of those four does |
| Fpc.CombineResults | src/gambitpairing/validation/fpc.py:1142-1210 | the report lists C1, C2 and C3 and then the quality results, and fails exactly when one of them is an absolute violation |
| Fpc.ValidateRoundPairings | src/gambitpairing/validation/fpc.py:1122-1210 | the report summarises C1, C2 and C3 followed by the quality criteria that apply in the round |
| Fpc.Feasibility | src/gambitpairing/validation/fpc.py:1079-1120 | with fewer than two players or no rounds nothing is reported; otherwise a C1 violation is reported exactly when the rounds need more pairings than there are distinct pairs, with the shortfall as the least number of repeats |
| Fpc.FeasibleIffRoundRobinBound | src/gambitpairing/validation/fpc.py:1079-1120 | a tournament is feasible exactly when its round count is at most that of a round robin: one less than an even number of players, or the odd number itself |
| FpcReplay.Find | src/gambitpairing/validation/fpc.py:1324-1326 | a player is found exactly for an id in the map, and it is the entry stored under that id |
| FpcReplay.Put | src/gambitpairing/validation/fpc.py:1255 | storing a player adds its id to the map's ids, grows the map only for a new id, and keeps the ids distinct |
| FpcReplay.FindPut | src/gambitpairing/validation/fpc.py:1255 | a stored player becomes the entry for its id and every other entry stays as it was |
| FpcReplay.Copy | src/gambitpairing/validation/fpc.py:1249-1250 | the copy the validator works on keeps the player's id and name |
| FpcReplay.BuildTable | src/gambitpairing/validation/fpc.py:1247-1255 | the player map has distinct ids, exactly the ids of the tournament's players, and no more entries than players |
| FpcReplay.ApplyResults | src/gambitpairing/validation/fpc.py:1313-1330 | recording a round's results keeps the map's ids and size and their distinctness |
| FpcReplay.ApplyByes | src/gambitpairing/validation/fpc.py:1335-1343 | recording the scheduled half-point and zero-point byes keeps the map's ids and size |
| FpcReplay.ByeIdOf | src/gambitpairing/validation/fpc.py:1267 | the bye id is the round's bye player id, or else its bye player entry, and is never empty |
| FpcReplay.KnownPairingKeys | src/gambitpairing/validation/fpc.py:1273-1277 | the pairs the validator adds to the previous matches after a round are exactly the pairs of its snapshot whose players are both known |
| FpcReplay.Tag | src/gambitpairing/validation/fpc.py:1300-1305 | every violation and warning of a round is kept and tagged with that round's number |
| FpcReplay.RoundReport | src/gambitpairing/validation/fpc.py:1286-1296 | each round's report summarises its own results, three absolute criteria plus the quality criteria that apply, with the configured round count or else the round's own number as the total |
| FpcReplay.Recorded | src/gambitpairing/validation/fpc.py:1313-1343 | after a round the players' map keeps its ids and size |
| FpcReplay.Step | src/gambitpairing/validation/fpc.py:1264-1343 | one round adds its criteria count to the total and at most that many compliant results, adds its known pairs to the previous matches, and appends its violations and warnings tagged with its number |
| FpcReplay.ReplayRounds | src/gambitpairing/validation/fpc.py:1264-1343 | over a run of rounds the previous matches are exactly the known pairs scheduled so far, the total counts every criterion of every round, the compliant count stays within it, and every violation and warning is tagged with one of the rounds |
| FpcReplay.Insert | src/gambitpairing/validation/fpc.py:1263 | inserting a round into a list sorted by round number keeps it sorted and holds the same rounds plus the new one |
| FpcReplay.SortRounds | src/gambitpairing/validation/fpc.py:1263 | the rounds are put in ascending round order, and the result holds exactly the same rounds |
| FpcReplay.TaggedPermutation | src/gambitpairing/validation/fpc.py:1263-1305 | round tags name rounds of the tournament whatever order the rounds were replayed in |
| FpcReplay.ValidateTournament | src/gambitpairing/validation/fpc.py:1212-1385 | no players or no rounds gives an empty report that does not apply; an infeasible configuration gives a single failing C1 result; otherwise the report replays every round and fails exactly when some round has an absolute violation |
| FpcReplay.ReplayReport | src/gambitpairing/validation/fpc.py:1256-1385 | the replay report counts every criterion of every round, keeps the compliant count within the total, fails exactly when there are violations, and tags each violation and warning with a round of the data |
| FpcReplay.RoundSeesOnlyEarlierPairs | src/gambitpairing/validation/fpc.py:1307-1308 | C1 of a replayed round sees only earlier rounds: a pairing repeats exactly when one of the round's known pairs was scheduled before it |
| FpcReplay.RepeatsIffKnownKeys | src/gambitpairing/validation/fpc.py:286-304 | a round repeats a pairing exactly when one of its known pairs is among the previous matches |
| FpcReplay.RepeatsIffPairKeys | src/gambitpairing/validation/fpc.py:286-304 | a list of pairings repeats a match exactly when one of its pairs is among the previous matches |
| FpcReplay.RoundsTotalBounds | src/gambitpairing/validation/fpc.py:383-455 | every round checks between 11 and 21 criteria, so the total lies between 11 and 21 times the number of rounds |
| Metrics.Clamp | src/gambitpairing/comparison/metrics.py:175 | the clamp lies in [0, 100], keeps a value already there, and sends values below to 0 and above to 100 |
| Metrics.Penalty | src/gambitpairing/comparison/metrics.py:37-61 | every penalty is negative, and a criterion outside C1 to C21 costs 1 |
| Metrics.Deduction | src/gambitpairing/comparison/metrics.py:139-172 | a non-violation costs nothing; an absolute violation costs its penalty times its count; a quality violation costs its penalty times its count capped at 10, over 10 |
| Metrics.FideScore | src/gambitpairing/comparison/metrics.py:128-175 | the FIDE score always lies in [0, 100] |
| Metrics.FideScoreClean | src/gambitpairing/comparison/metrics.py:128-175 | a report without a violation entry scores 100 |
| Metrics.DeductionNonPositive | src/gambitpairing/comparison/metrics.py:139-172 | with a non-negative count a violation never raises the score |
| Metrics.SecondByeZero | src/gambitpairing/comparison/metrics.py:37-41 | an absolute C2 violation, the heaviest penalty, takes the score to 0 whatever else the report holds, as long as no count is negative |
| Metrics.PsdNormalized | src/gambitpairing/comparison/metrics.py:197 | the normalised PSD is never negative, at most 100 for a non-negative PSD, 100 for a PSD of 0 and 0 from a PSD of 2 on |
| Metrics.QualityScore | src/gambitpairing/comparison/metrics.py:178-209 | the weighted quality score always lies in [0, 100] |
| Metrics.QualityMonotone | src/gambitpairing/comparison/metrics.py:178-209 | with non-negative weights, improving any metric never lowers the score |
| Metrics.PerfectQuality | src/gambitpairing/comparison/metrics.py:64-71 | the default weights sum to 1, so perfect metrics score 100 |
| Metrics.OverallScore | src/gambitpairing/comparison/metrics.py:212-237 | the overall score always lies in [0, 100] |
| Metrics.OverallScaleInvariant | src/gambitpairing/comparison/metrics.py:230-233 | only the ratio of two weights with a positive sum matters |
| Metrics.OverallOfEqual | src/gambitpairing/comparison/metrics.py:212-237 | equal FIDE and quality scores within [0, 100] combine to themselves |
| Metrics.Resolved | src/gambitpairing/comparison/metrics.py:256-264 | the pairings whose players both resolve, all of them when every player resolves |
| Metrics.Psd | src/gambitpairing/comparison/metrics.py:240-266 | the PSD is never negative, and 0 without pairings |
| Metrics.PsdZeroIffEqualScores | src/gambitpairing/comparison/metrics.py:240-266 | the PSD is 0 exactly when every resolved pairing joins equal scores |
| Metrics.SideScore | src/gambitpairing/comparison/metrics.py:302-317 | a side scores 0 for the colour it prefers, -25 for the other one, and -10 without a preference |
| Metrics.PairColorScore | src/gambitpairing/comparison/metrics.py:299-319 | a pairing's colour score lies in [50, 100], and is 100 exactly when White prefers White and Black prefers Black |
| Metrics.ColorBalance | src/gambitpairing/comparison/metrics.py:269-322 | the colour balance lies in [50, 100], and is 100 without pairings |
| Metrics.MeanWithin | src/gambitpairing/comparison/metrics.py:266-322 | a mean of terms within bounds, with a default within them, lies within them |
| Metrics.BracketCompliance | src/gambitpairing/comparison/metrics.py:325-364 | the bracket compliance lies in [0, 100], and is 100 without pairings |
| Metrics.BracketComplianceThreshold | src/gambitpairing/comparison/metrics.py:354-364 | with resolved pairings the metric is 100 exactly when at least 70% of them join equal scores |
| Metrics.ViolationsById | src/gambitpairing/comparison/metrics.py:367-390 | the dictionary holds exactly the ids of the violated criteria |
| Metrics.ViolationsByIdLast | src/gambitpairing/comparison/metrics.py:367-390 | the count stored under an id is that of the last violation entry with that id |
| Engine.Key | src/gambitpairing/comparison/engine.py:329-330 | a pairing's key is its two ids, smaller first |
| Engine.KeySymmetric | src/gambitpairing/comparison/engine.py:329-330 | either orientation of a pairing has the same key |
| Engine.PairSet | src/gambitpairing/comparison/engine.py:329-333 | the set holds exactly the keys of the pairings |
| Engine.Orientation | src/gambitpairing/comparison/engine.py:342-347 | the colour map has a key for every pairing, each holding that pair in one orientation or the other |
| Engine.AnalyzeDifferences | src/gambitpairing/comparison/engine.py:312-353 | the one-sided pairs are the two set differences, the matching count completes each side's count, and the colour differences are exactly the shared pairs oriented differently |
| Engine.AnalyzeSame | src/gambitpairing/comparison/engine.py:312-353 | a pairing compared with itself differs in nothing and matches 100% |
| Engine.AnalyzeSwap | src/gambitpairing/comparison/engine.py:312-353 | exchanging the engines exchanges the one-sided pairs and keeps the matching count and the colour differences |
| Engine.DifferentColorsAreSwapped | src/gambitpairing/comparison/engine.py:349-351 | on a shared pair, a colour difference means one engine gave White to the player the other gave Black |
| Engine.MatchingPercentage | src/gambitpairing/comparison/engine.py:67-74 | 100 when there are no pairs, always within [0, 100], 100 when nothing is one-sided and 0 when nothing matches |
| Engine.TotalDifferences | src/gambitpairing/comparison/engine.py:63 | the total differences are 0 exactly when neither engine has a one-sided pair |
| Engine.Efficiency | src/gambitpairing/comparison/engine.py:402-408 | the efficiency lies in [0, 100], is 100 for no time and 0 from 5000 ms on |
| Engine.EfficiencyMonotone | src/gambitpairing/comparison/engine.py:402-408 | a slower run is never more efficient |
| Engine.ById | src/gambitpairing/comparison/engine.py:385 | every player's id is a key, and each key holds a player with that id |
| Engine.CalculateMetrics | src/gambitpairing/comparison/engine.py:355-421 | without a report the FIDE score is 0 and no violations are listed, otherwise it is the report's FIDE score; without players or pairings the quality score is 0; every score lies in [0, 100] and the overall score combines the two with the engine's weights |
| Engine.EqualScoresPsd | src/gambitpairing/comparison/engine.py:384-394 | pairings of equal scores have no score difference |
| Engine.EqualScoresBracket | src/gambitpairing/comparison/engine.py:384-394 | pairings of equal scores comply fully with their brackets |
| Engine.DetermineWinner | src/gambitpairing/comparison/engine.py:423-445 | within one point is a tie with no difference, otherwise the engine with the higher overall score wins by the difference |
| Engine.WinnerAntisymmetric | src/gambitpairing/comparison/engine.py:423-445 | exchanging the two engines' scores exchanges the winner and keeps the difference |
| Engine.ComparePairings | src/gambitpairing/comparison/engine.py:161-256 | both engines are validated exactly when players are given, and otherwise score 0 for FIDE; each engine's metrics, the differences and the winner are computed from its own pairings, report and time |
| Engine.SamePairingsTie | src/gambitpairing/comparison/engine.py:161-256 | the same pairing from both engines, found equally fast, is a tie |
| Engine.FindPlayer | src/gambitpairing/comparison/engine.py:447-468 | nothing for an empty or missing id; a player found has the id; nothing found means no player has it |
| Engine.FirstIsEarliest | src/gambitpairing/comparison/engine.py:464-466 | the player found comes before every other player with that id |
| Players.IsoFormat | src/gambitpairing/player/base_player.py:344-345 | `isoformat()` writes ten characters with '-' at positions 4 and 7 |
| Players.ParseIsoDate | src/gambitpairing/player/base_player.py:381-387 | `date.fromisoformat` only ever yields a real calendar date |
| Players.IsoRoundTrip | src/gambitpairing/player/base_player.py:344-345 | reading back a written birth date gives the same date |
| Players.IsoCanonical | src/gambitpairing/player/base_player.py:381-387 | a text that reads as a date is exactly the written form of that date |
| Players.YearsBetween | src/gambitpairing/player/base_player.py:179-181 | `relativedelta(today, dob).years`: the largest number of whole years whose anniversary is not after today, and for a future birth date the matching non-positive count |
| Players.CheckedPhone | src/gambitpairing/player/base_player.py:113-136 | a stored phone number is one that validates |
| Players.CheckedEmail | src/gambitpairing/player/base_player.py:138-158 | a stored e-mail address is one that validates |
| Players.NewPlayer | src/gambitpairing/player/base_player.py:64-111 | a new player is active, has no results, no match history, no bye and no FIDE data, has consistent bookkeeping, the given rating or 0, and keeps a phone or e-mail only in validated, sanitised form |
| Players.FideDefaultRating | src/gambitpairing/player/fide_player.py:53 | `rating or fide_standard or fide_rapid or 0`: the first truthy of the three, else 0 |
| Players.NewFidePlayer | src/gambitpairing/player/fide_player.py:33-68 | a new FIDE player has consistent bookkeeping, the FIDE default rating, the given FIDE id and standard rating, and a birth year exactly when a birth date is given, equal to its year |
| Players.OpponentObjects | src/gambitpairing/player/base_player.py:204-222 | one entry per recorded round; an entry is a player exactly when the round's opponent id is non-empty and known, and it is then that player |
| Players.Age | src/gambitpairing/player/base_player.py:161-184 | no age without a birth date or when its text does not parse; otherwise the completed whole years up to today |
| Players.AddRoundResult | src/gambitpairing/player/base_player.py:270-328 | the round's opponent id, result, running score and colour are appended, the score grows by the result, the black count by one for Black, the bye flag is set for a bye, and a real opponent gets the mirrored match entry |
| Players.AddRoundResultConsistent | src/gambitpairing/player/base_player.py:289-324 | recording a round keeps score, running scores, black count and bye flag in agreement with the recorded lists |
| Players.ToDict | src/gambitpairing/player/base_player.py:330-348 | the dictionary holds the name, id, results and colour history, the birth date as ISO text, and FIDE keys exactly for a FIDE player |
| Players.FromDict | src/gambitpairing/player/base_player.py:351-418 | fails exactly when there is no name; keeps the saved name, id (else the generated one) and rating; gives a FIDE player exactly when a FIDE id is stored that is not None |
| Players.FideFromDict | src/gambitpairing/player/fide_player.py:71-136 | fails exactly when there is no name; always a FIDE player carrying the saved FIDE id and title, and the saved rating when there is one |
| Players.DictRoundTrip | src/gambitpairing/player/base_player.py:330-418 | saving and restoring a player (a FIDE player with an id) gives the same player, with its birth date as text |
| Players.FideWithoutIdRestoresAsBase | src/gambitpairing/player/base_player.py:370-373 | a FIDE player whose FIDE id is None restores as a base player and loses its FIDE data |
| Players.ToDictStable | src/gambitpairing/player/base_player.py:330-418 | saving a restored player writes the same dictionary again |
| PrintUtils.CleanPrintTitle | src/gambitpairing/utils/print.py:82-89 | an empty title cleans to the empty string |
| PrintUtils.CleanTitleUnchanged | src/gambitpairing/utils/print.py:86-89 | a title holding neither " Pairings & Results" nor " (Re-entry)" is printed exactly as it is |
| PrintUtils.FirstRoundNumberOccurs | src/gambitpairing/utils/print.py:55-56 | a round number is only ever found after an occurrence of "Round " in the title |
| PrintUtils.RoundInfo | src/gambitpairing/utils/print.py:44-70 | an empty or "No Tournament Loaded" title, or one with no "Round <digits>", gives ""; otherwise "During Round N" exactly when the title mentions "Results", the tab has a round index and N exceeds it, else "After Round N" |
| PrintUtils.NoRoundNoNumber | src/gambitpairing/utils/print.py:54-56 | the `"Round" in title` guard loses nothing: without "Round" the regular expression finds no number either |
| PrintUtils.RoundInfoOfHeading | src/gambitpairing/utils/print.py:54-68 | a title "Round N…" whose number is not followed by another digit and that does not mention "Results" reports "After Round N", whatever the round index |
| PrintUtils.HeadingNumber | src/gambitpairing/utils/print.py:55-57 | the search for `Round (\d+)` reads back N from "Round " followed by N's decimal digits and a non-digit |
| Reporter.RoundMonotone | src/gambitpairing/comparison/reporter.py:162-174 | rounding to a number of places keeps the order of the values rounded |
| Reporter.RoundNonNegative | src/gambitpairing/comparison/reporter.py:162-174 | a value that is not negative rounds to a value that is not negative |
| Reporter.RoundShift | src/gambitpairing/comparison/reporter.py:162-174 | adding one unit of the last kept place adds exactly that unit to the rounded value |
| Reporter.OptionRound | src/gambitpairing/comparison/reporter.py:191-194 | a statistic is rounded exactly when it is present |
| Reporter.OverallWinner | src/gambitpairing/comparison/reporter.py:152-158 | Gambit wins overall exactly when its win rate is higher, BBP exactly when its rate is higher, and it is a tie exactly on equal rates |
| Reporter.RateOrder | src/gambitpairing/comparison/reporter.py:152-158 | over the same positive total, a higher rate means a higher count and back |
| Reporter.OverallWinnerFromCounts | src/gambitpairing/comparison/reporter.py:140-175 | over an analysed list the overall winner is the engine that won more comparisons, a tie on equal counts |
| Reporter.OverallResults | src/gambitpairing/comparison/reporter.py:140-175 | the overall section names that winner and carries the summary's counts unchanged |
| Reporter.RoundStats | src/gambitpairing/comparison/reporter.py:189-195 | rounded statistics are present exactly when the statistics are |
| Reporter.RoundSide | src/gambitpairing/comparison/reporter.py:189-195 | rounding a comparison keeps which of its entries are present |
| Reporter.FormatSizes | src/gambitpairing/comparison/reporter.py:338-362 | the formatted sizes have an entry for exactly the size groups present, under their label |
| Reporter.SizeLabelsDistinct | src/gambitpairing/comparison/reporter.py:338-362 | different size groups have different labels, so no group overwrites another |
| Reporter.RoundKey | src/gambitpairing/comparison/reporter.py:379 | a round's key starts with "round_" followed by the number |
| Reporter.RoundKeyInjective | src/gambitpairing/comparison/reporter.py:379 | different rounds get different keys |
| Reporter.RoundKeysInjective | src/gambitpairing/comparison/reporter.py:378-385 | no two rounds of a map share a key |
| Reporter.FormatRounds | src/gambitpairing/comparison/reporter.py:364-387 | the formatted rounds have an entry for exactly the rounds present, under their key |
| Reporter.DetailedAnalysis | src/gambitpairing/comparison/reporter.py:177-205 | the detailed section keeps the summary's rounds and size groups, each under its key, and carries its violation patterns unchanged |
| Reporter.DetailedOfAnalysis | src/gambitpairing/comparison/reporter.py:177-205 | for an analysed non-empty list, the detailed section has a key for exactly the non-zero rounds and the size groups that occur, and its violation patterns carry each engine's total violations |
| Reporter.EntryOf | src/gambitpairing/comparison/reporter.py:221-254 | a breakdown entry keeps the tournament id, the round, the winner, the pairing differences and each engine's violations |
| Reporter.Breakdown | src/gambitpairing/comparison/reporter.py:207-256 | the breakdown has one entry per comparison, in order |
| Reporter.BreakdownAppend | src/gambitpairing/comparison/reporter.py:207-256 | the breakdown of two lists one after the other is their breakdowns one after the other |
| Reporter.Share | src/gambitpairing/comparison/reporter.py:293-301 | a share of an empty whole is 0, and a share is never negative |
| Reporter.PairingAnalysisOf | src/gambitpairing/comparison/reporter.py:258-302 | every comparison is counted; the matching percentage is 0 when there are no pairs and never negative; no comparisons give averages of 0 |
| Reporter.PairingTotals | src/gambitpairing/comparison/reporter.py:270-286 | twice the matching pairs plus the differing pairs are all the pairs of both engines |
| Reporter.IdenticalPairingsNoDifferences | src/gambitpairing/comparison/reporter.py:270-286 | comparisons whose engines paired alike count no differing pairs and no colour differences |
| Reporter.FasterOf | src/gambitpairing/comparison/reporter.py:322-334 | Gambit is named faster only when its average time is lower, a tie is never named, and the advantage is never negative |
| Reporter.ClearlyFaster | src/gambitpairing/comparison/reporter.py:322-334 | an engine faster on average by a hundredth of a millisecond or more is named the faster one |
| Reporter.PerformanceOf | src/gambitpairing/comparison/reporter.py:304-336 | a faster engine is named exactly when both engines have timings, with a non-negative advantage |
| Reporter.MetadataOf | src/gambitpairing/comparison/reporter.py:111-138 | the metadata counts every tournament and carries the configuration exactly when one is given and not empty |
| Reporter.GenerateReport | src/gambitpairing/comparison/reporter.py:52-86 | the report counts every comparison once in the metadata, the breakdown and the pairing analysis, names the summary's winner, keeps every tournament id in order, and keeps every round |
| Reporter.ReportWinner | src/gambitpairing/comparison/reporter.py:390-421 | reporting an analysed list names Gambit the winner exactly when it won more comparisons than BBP |
| ResultRecording.KeepsConsistent | src/gambitpairing/player/base_player.py:270-328 | recording one round result keeps a player's score, results, opponents and colours in step |
| ResultRecording.RecordGame | src/gambitpairing/controllers/tournament/result_recorder.py:146-177 | only the named players change: for two players, White gains the given score, White colour and Black as opponent, and Black gains the complementary score, Black colour and White as opponent; an entry naming one player twice gives that player both rounds, White then Black, against itself |
| ResultRecording.SelfRecord | src/gambitpairing/player/base_player.py:270-328 | a player recorded against itself gains one round against its own id and two match-history entries, and stays consistent |
| ResultRecording.RecordEntries | src/gambitpairing/controllers/tournament/result_recorder.py:70-84 | the batch loop keeps the roster's ids and its players' bookkeeping consistent, and once a failure is seen the batch stays failed |
| ResultRecording.RecordEntriesAccepts | src/gambitpairing/controllers/tournament/result_recorder.py:70-84 | the batch succeeds exactly when every entry names two known players, is one of the round's ordered pairings, was not already processed in the batch, and has a White score between 0 and 1 |
| ResultRecording.RecordEntriesResults | src/gambitpairing/controllers/tournament/result_recorder.py:70-84 | when every entry is acceptable, the round's results grow by exactly the entries, in order |
| ResultRecording.RecordEntriesSpec | src/gambitpairing/controllers/tournament/result_recorder.py:70-84 | both facts together: success exactly for acceptable batches, and then exactly the entries appended |
| ResultRecording.Step | src/gambitpairing/controllers/tournament/result_recorder.py:71-84 | one iteration: a valid entry is recorded and its ordered pair marked processed; an invalid one only clears the success flag |
| ResultRecording.AcceptableStep | src/gambitpairing/controllers/tournament/result_recorder.py:103-144 | a batch is acceptable exactly when its first entry passes validation and the rest are acceptable with that entry marked processed |
| ResultRecording.RecordBye | src/gambitpairing/controllers/tournament/result_recorder.py:179-208 | fails exactly for an unknown bye id; a player who already holds a result for the round is left alone; otherwise only that player gains a bye result, the bye score when active and 0 when inactive |
| ResultRecording.RecordRoundResults | src/gambitpairing/controllers/tournament/result_recorder.py:43-101 | succeeds exactly when every entry is acceptable and the bye id, if set, is known; on success the round's results grow by exactly the entries; only the results of the round change; the roster keeps its ids and stays consistent |
| ResultRecording.UndoPlayerResultAsWritten | src/gambitpairing/controllers/tournament/result_recorder.py:256-291 | a player without a result for the round is refused; otherwise the last result is popped, and the black count is lowered whenever the now-last colour is Black |
| ResultRecording.UndoPlayerResult | src/gambitpairing/controllers/tournament/result_recorder.py:256-291 | refuses a player without a result for the round, raises where the source pops an empty list, and otherwise pops the last result, keeping the match entries |
| ResultRecording.UndoAfterAdd | src/gambitpairing/controllers/tournament/result_recorder.py:256-291 | undoing is the inverse of recording one result: the player returns to what it was, except for the match entry, which the source never removes |
| ResultRecording.UndoAsWrittenMiscountsBlack | src/gambitpairing/controllers/tournament/result_recorder.py:279-281 | as written, undoing a White game played after a Black game lowers the black count to 0 although one Black game remains; the corrected undo keeps it at 1 |
| ResultRecording.UndoOne | src/gambitpairing/controllers/tournament/result_recorder.py:236-247 | undoing one player (with the corrected undo) raises exactly when that player's undo pops an empty list; otherwise only that player changes, and the result is false exactly when the player holds no result for the round, leaving everyone as they were |
| ResultRecording.UndoRoundResults | src/gambitpairing/controllers/tournament/result_recorder.py:210-254 | an uncompleted round returns false and nothing changes; a raise while undoing a player propagates as an IndexError; otherwise the round ends with no results and not completed and the roster keeps its ids; with consistent players and a round number of at least 1 it never raises and keeps them consistent; a completed round without results or bye changes no player |
| ResultRecording.UndoGames | src/gambitpairing/controllers/tournament/result_recorder.py:231-241 | the game loop keeps the roster's ids, and on consistent players with a round number of at least 1 it never raises and keeps them consistent |
| ResultRecording.UndoKeepsConsistent | src/gambitpairing/controllers/tournament/result_recorder.py:256-291 | the corrected undo of a consistent player gives a consistent player: totals, running scores, black-game count and bye flag still match the remaining rounds |
| ResultRecording.UndoRoundZeroRaises | src/gambitpairing/controllers/tournament/result_recorder.py:262-272 | with round number 0 the length guard never refuses, so a player with no results reaches the pop of an empty list and raises |
| ResultRecording.RecordGameUndone | src/gambitpairing/controllers/tournament/result_recorder.py:146-177 | recording one game between two players and then undoing each of them gives both back as they were, except for the match entries |
| ResultRecording.RecordEntriesRecorded | src/gambitpairing/controllers/tournament/result_recorder.py:70-84 | the results a batch appends are exactly its valid entries, in order, whether or not the batch as a whole succeeds |
| ResultRecording.RecordedFromEntries | src/gambitpairing/controllers/tournament/result_recorder.py:70-84 | every player named by a recorded game is known and named by some entry, and when no entry repeats a player the recorded games name every player at most once |
| ResultRecording.RecordEntriesUndone | src/gambitpairing/controllers/tournament/result_recorder.py:70-84 | after a batch, each player of a recorded game can be undone back to what it was up to the match entries, and every other player is unchanged |
| ResultRecording.UndoGamesRestores | src/gambitpairing/controllers/tournament/result_recorder.py:231-241 | undoing games that name every player at most once reports success, sets each named player to its own undo and leaves every other player unchanged |
| ResultRecording.RecordThenUndo | src/gambitpairing/controllers/tournament/result_recorder.py:43-254 | recording a fresh round (entries naming each player at most once and never the bye player, players who have played every earlier round) and then undoing it succeeds, returns true, clears the round, and gives every player back as it was except for the match entries |
| RoundManagement.NewManager | src/gambitpairing/controllers/tournament/round_manager.py:48-65 | a new manager keeps the given pairing system, round count and history and holds no rounds |
| RoundManagement.CountCompleted | src/gambitpairing/controllers/tournament/round_manager.py:77-83 | the count of completed rounds never exceeds the rounds listed, and equals it exactly when every round is completed |
| RoundManagement.CompletedRoundsCount | src/gambitpairing/controllers/tournament/round_manager.py:68-83 | the completed-round count never exceeds the current round number, and equals it exactly when every created round is completed |
| RoundManagement.GetRound | src/gambitpairing/controllers/tournament/round_manager.py:85-96 | a round is found exactly for a 1-based number within the created rounds, and it is the round stored at that position |
| RoundManagement.AddAll | src/gambitpairing/controllers/tournament/round_manager.py:157-158 | adding every pairing of a round grows the previous matches by exactly the round's unordered pairs and leaves manual adjustments alone |
| RoundManagement.CreateNextRound | src/gambitpairing/controllers/tournament/round_manager.py:98-160 | fails once all rounds exist and for an unknown pairing system; otherwise appends one round numbered one past the last, holding the pairings and bye produced, and adds exactly its pairs to the history |
| RoundManagement.Pad | src/gambitpairing/controllers/tournament/round_manager.py:224-226 | the round list grows to the requested length with empty rounds numbered consecutively after the existing ones, which are kept unchanged |
| RoundManagement.SetManualPairings | src/gambitpairing/controllers/tournament/round_manager.py:204-242 | refuses a round number below 1 and changes nothing; otherwise pads the rounds, replaces only the target round's pairings and bye, leaves every other round as it was, and adds the new pairs to the history |
| RoundManagement.MarkRoundCompleted | src/gambitpairing/controllers/tournament/round_manager.py:244-260 | succeeds exactly for an existing round number, and then only that round's completed flag changes |
| RoundManagement.UndoLastRoundAsWritten | src/gambitpairing/controllers/tournament/round_manager.py:262-284 | refuses when there is no round or the last one is completed; otherwise drops the last round and discards all of its pairs from the history |
| RoundManagement.UndoLastRound | src/gambitpairing/controllers/tournament/round_manager.py:262-284 | as the source, except that a pair is discarded from the history only when no remaining round still holds it |
| RoundManagement.PlayedPairs | src/gambitpairing/controllers/tournament/round_manager.py:157-158 | collects the unordered pair of every pairing of every round |
| RoundManagement.CreateKeepsHistory | src/gambitpairing/controllers/tournament/round_manager.py:98-160 | when the history holds the pairs of every round, creating the next round keeps that so |
| RoundManagement.ManualKeepsHistory | src/gambitpairing/controllers/tournament/round_manager.py:204-242 | when the history holds the pairs of every round, setting manual pairings keeps that so |
| RoundManagement.UndoKeepsHistory | src/gambitpairing/controllers/tournament/round_manager.py:262-284 | the corrected undo keeps the history holding the pairs of every remaining round |
| RoundManagement.UndoAfterCreate | src/gambitpairing/controllers/tournament/round_manager.py:98-160 | undo is the inverse of creating a round whose pairs were new: the rounds and the history return to what they were |
| RoundManagement.UndoAsWrittenForgetsEarlierPair | src/gambitpairing/controllers/tournament/round_manager.py:277-280 | as written, undoing a round that repeats a pairing of a completed earlier round removes that pair from the history although the earlier round played it |
| RoundManagement.PairingsForDisplay | src/gambitpairing/controllers/tournament/round_manager.py:286-312 | an unknown round gives no pairings and no bye; otherwise only pairings whose two players are known are kept, and the bye player is returned exactly when the round's bye id is set and known |
| RoundManagement.Known | src/gambitpairing/controllers/tournament/round_manager.py:302-307 | keeps exactly the pairings whose two ids are known, each taken from the input, and drops none that qualify |
| Rtg.ForfeitOccurs | src/gambitpairing/testing/rtg.py:233-237 | no forfeit happens at a forfeit rate of 1 or below; above it a forfeit happens exactly when the draw reaches the non-forfeit probability |
| Rtg.Threshold | src/gambitpairing/testing/rtg.py:268-273 | the draw wins below the win weight, draws below win plus draw weight, and loses from there on |
| Rtg.BalancedAsWritten | src/gambitpairing/testing/rtg.py:261-273 | the balanced pattern as written returns a win, a draw or a loss |
| Rtg.UpsetAsWritten | src/gambitpairing/testing/rtg.py:275-287 | the upset-friendly pattern as written returns a win, a draw or a loss |
| Rtg.PredictableAsWritten | src/gambitpairing/testing/rtg.py:289-301 | the predictable pattern as written, on exact reals, divides by zero exactly when White is 110 points weaker, and otherwise returns a win, a draw or a loss |
| Rtg.SharesSumToOne | src/gambitpairing/testing/rtg.py:265-267 | the two normalised weights add up to one |
| Rtg.AsWrittenNeverLoses | src/gambitpairing/testing/rtg.py:261-301 | as written, White never loses a balanced, upset-friendly or predictable game, because the draw band ends at 1 |
| Rtg.PredictableUpset | src/gambitpairing/testing/rtg.py:289-301 | as written, a White player 200 points weaker always wins a predictable game |
| Rtg.Weighted | src/gambitpairing/testing/rtg.py:261-301 | the corrected patterns return a win, a draw or a loss, with the remaining weight left to the loss |
| Rtg.BalancedResult | src/gambitpairing/testing/rtg.py:261-273 | a balanced game returns a win, a draw or a loss |
| Rtg.UpsetFriendlyResult | src/gambitpairing/testing/rtg.py:275-287 | an upset-friendly game returns a win, a draw or a loss |
| Rtg.PredictableResult | src/gambitpairing/testing/rtg.py:289-301 | a predictable game returns a win, a draw or a loss |
| Rtg.WeightedOutcomes | src/gambitpairing/testing/rtg.py:261-301 | with weights strictly between 0 and 1 every outcome has a band of draws in [0, 1) |
| Rtg.AllOutcomesOccur | src/gambitpairing/testing/rtg.py:261-287 | balanced and upset-friendly games can end in each of the three results |
| Rtg.WeightedMonotone | src/gambitpairing/testing/rtg.py:261-301 | a larger win weight never gives White a worse result on the same draw |
| Rtg.RatingMonotone | src/gambitpairing/testing/rtg.py:261-301 | a stronger White never scores less in a balanced or predictable game, and never more in an upset-friendly one |
| Rtg.RealisticResult | src/gambitpairing/testing/rtg.py:239-259 | the realistic pattern returns a win, a draw or a loss, and a draw exactly when the draw falls below the draw probability |
| Rtg.RealisticSymmetric | src/gambitpairing/testing/rtg.py:239-259 | with different ratings, swapping the colours swaps the decisive result |
| Rtg.PatternScore | src/gambitpairing/testing/rtg.py:217-231 | every pattern gives White a win, a draw or a loss |
| Rtg.SimulatePairingResult | src/gambitpairing/testing/rtg.py:204-231 | a game is a forfeit exactly when a side forfeits; a double forfeit scores 0-0, a single one a win for the other side; otherwise the two scores add up to a win |
| Rtg.LowRateNoForfeits | src/gambitpairing/testing/rtg.py:204-237 | with a forfeit rate of at most 1 no game is forfeited and the two scores add up to a win |
| Rtg.EligibleFrom | src/gambitpairing/testing/rtg.py:620-624 | the eligible candidates are exactly the players without a bye and without a full-point unplayed round |
| Rtg.UnplayedById | src/gambitpairing/testing/rtg.py:631-636 | every candidate's id has an unplayed count |
| Rtg.UnplayedOwn | src/gambitpairing/testing/rtg.py:631-636 | with one candidate per id, each candidate's count is its round less one less its games played |
| Rtg.CountsOwn | src/gambitpairing/testing/rtg.py:631-636 | with one candidate per id, every stored count is the candidate's own |
| Rtg.OnScore | src/gambitpairing/testing/rtg.py:627-628 | the candidates kept are exactly those on the given score |
| Rtg.WithCount | src/gambitpairing/testing/rtg.py:638-642 | the candidates kept are exactly those whose count is the given one |
| Rtg.MinScore | src/gambitpairing/testing/rtg.py:627 | the minimum is one of the scores and at most every score |
| Rtg.LowestScored | src/gambitpairing/testing/rtg.py:627-628 | the lowest-scored group is non-empty, drawn from the candidates, scores at most every candidate, and holds everyone on that score |
| Rtg.MinUnplayed | src/gambitpairing/testing/rtg.py:637 | the minimum is one of the counts and at most every count |
| Rtg.LowestNumber | src/gambitpairing/testing/rtg.py:643 | the first by pairing number is a candidate with the lowest number |
| Rtg.SelectPab | src/gambitpairing/testing/rtg.py:613-643 | no player is chosen exactly when nobody is eligible; a chosen player is eligible |
| Rtg.FewestUnplayedMostPlayed | src/gambitpairing/testing/rtg.py:630-642 | among the lowest-scored, those kept have played the most games, and everyone who played as many is kept |
| Rtg.ChosenOrder | src/gambitpairing/testing/rtg.py:627-643 | the choice has the lowest score, then the most games on that score, then the lowest pairing number |
| Rtg.SelectPabChoice | src/gambitpairing/testing/rtg.py:613-643 | on a roster with distinct ids, the chosen player has the lowest score among the eligible, the most games played among those, and the lowest pairing number among those |
| Rtg.ApplyRate | src/gambitpairing/testing/rtg.py:659-662 | never more byes than players; none at a rate of 0 or below; all players at a rate in (0, 1]; otherwise the player count over the rate, truncated |
| Rtg.ApplyRateMonotone | src/gambitpairing/testing/rtg.py:659-662 | a larger positive rate never asks for more byes |
| Rtg.ByeRounds | src/gambitpairing/testing/rtg.py:671-675 | the rounds are 1, 2, ... in order: all rounds when the last is allowed, otherwise all but the last, round 1 always kept |
| Rtg.Place | src/gambitpairing/testing/rtg.py:677-684 | placing byes keeps the earlier placements, adds at most the byes owed, never repeats a placement and draws only listed players and rounds |
| Rtg.RoundsOf | src/gambitpairing/testing/rtg.py:667-684 | a player's rounds are exactly the rounds placed for them |
| Rtg.RoundsOfDistinct | src/gambitpairing/testing/rtg.py:681-683 | a player's bye rounds are distinct |
| Rtg.ScheduleOf | src/gambitpairing/testing/rtg.py:667 | the schedule has an entry for exactly the listed ids |
| Rtg.AssignByes | src/gambitpairing/testing/rtg.py:664-686 | assigning fails exactly when byes are owed and there is no id or no round to choose from; the schedule lists every id, with no rounds when no bye is owed |
| Rtg.AssignByesSound | src/gambitpairing/testing/rtg.py:664-686 | every scheduled round is distinct for its player and lies between 1 and the last round (before it when the last is excluded), and no more byes are placed than asked for |
| Rtg.BuildByeSchedule | src/gambitpairing/testing/rtg.py:645-657 | the schedule fails exactly when zero-point byes are owed in a tournament with no rounds; with both rates at or below 0 nobody has a bye |
| Rtg.PlanFor | src/gambitpairing/testing/rtg.py:409-414 | an unsupported system is rejected; a supported one runs at least one engine, takes the official pairing from an engine it runs, and validates with FPC exactly when asked and the Gambit engine runs |
| Rtg.PlanCompares | src/gambitpairing/testing/rtg.py:606-609 | both engines run, and are compared, exactly in the dual system |
| Rtg.SetCounts | src/gambitpairing/testing/rtg.py:698-702 | matching plus one side's extra pairs is that side's pair count, and a side has no extra pairs exactly when its pairs lie within the other's |
| Rtg.ComparePairings | src/gambitpairing/testing/rtg.py:688-702 | pairs are compared as unordered pairs of ids, with the same counts |
| Rtg.ComparePairingsAgree | src/gambitpairing/testing/rtg.py:688-702 | the generator's counts agree with the comparison engine's analysis |
| Rtg.Flipped | src/gambitpairing/testing/rtg.py:693-694 | each pair appears with its colours swapped |
| Rtg.ComparePairingsColourBlind | src/gambitpairing/testing/rtg.py:693-694 | a pairing compared with its colour-swapped copy matches in every pair |
| Rtg.RoundRoster | src/gambitpairing/testing/rtg.py:482-497 | the zero-point and half-point lists hold exactly the players scheduled for the round, and the active list exactly the active players not scheduled |
| Rtg.PlayerLines | src/gambitpairing/testing/rtg.py:768-771 | one player line per player, in order |
| Rtg.RoundLines | src/gambitpairing/testing/rtg.py:773-780 | a round's pairing lines, then its result lines |
| Rtg.AllRoundLinesCount | src/gambitpairing/testing/rtg.py:773-780 | the rounds contribute as many lines as counted |
| Rtg.ExportTrfAsWritten | src/gambitpairing/testing/rtg.py:762-782 | as written, the export fails exactly when some round has a result, and otherwise gives the corrected text |
| Rtg.ExportTrf | src/gambitpairing/testing/rtg.py:762-782 | the export ends in a line break |
| Rtg.ExportFailsOnPlayedRound | src/gambitpairing/testing/rtg.py:779 | as written, one round with one result makes the export fail |
| Rtg.ExportAgreesWithoutResults | src/gambitpairing/testing/rtg.py:762-782 | where no round has a result, the export as written and the corrected one agree |
| Rtg.ExportLineCount | src/gambitpairing/testing/rtg.py:762-782 | the export has one line per header field, player, pairing and result |
| Rtg.ExportReadsBack | src/gambitpairing/testing/rtg.py:762-782 | reading the exported text back line by line gives exactly the lines written, when no name or id holds a line break |
| Federations.Create | src/gambitpairing/models/federation/federation.py:42-50 | the code is upper-cased; creation fails exactly when that code is already registered, otherwise the registry gains exactly that entry and stays filed under upper-case codes |
| Federations.FromCode | src/gambitpairing/models/federation/federation.py:60-66 | the lookup succeeds exactly when the upper-cased code is registered and then returns that entry; an unknown code raises |
| Federations.ToString | src/gambitpairing/models/federation/federation.py:52-54 | the text of a federation is its code |
| Federations.CreateThenFind | src/gambitpairing/models/federation/federation.py:42-66 | a created federation is found again under its code in any letter case, and prints as the upper-cased code |
| Federations.CreateKeepsOthers | src/gambitpairing/models/federation/federation.py:47-50 | registering one code leaves every other code's lookup unchanged |
| PlayerFactories.ValidateData | src/gambitpairing/models/player/factory.py:213-264 | at most five errors; none exactly when the name is valid, the rating (when given) lies in 0..3000, and the phone, e-mail and FIDE id are valid whenever non-empty; a missing name is reported first as "required" |
| PlayerFactories.FideIdText | src/gambitpairing/models/player/factory.py:108 | the FIDE id handed to validation is `str(fide_id)`, which reads back as the same integer, and is absent exactly when the id is |
| PlayerFactories.CreatePlayer | src/gambitpairing/models/player/factory.py:101-154 | fails exactly when the factory validates strictly and validation reports errors; otherwise builds a player with the given name and id, which is a FIDE player exactly when some FIDE field is truthy, carrying the FIDE id and title and the FIDE default rating |
| PlayerFactories.CreateFromDict | src/gambitpairing/models/player/factory.py:172-189 | fails exactly when the dictionary has no name; the player keeps the name and is a FIDE player exactly when a FIDE field is truthy or a FIDE id is stored at all |
| PlayerFactories.CreateBatch | src/gambitpairing/models/player/factory.py:191-211 | a strict factory fails exactly when some entry has no name; otherwise one player per named entry |
| PlayerFactories.BatchKeepsOrder | src/gambitpairing/models/player/factory.py:200-211 | a lenient factory never fails and returns the named entries' players in input order |
| TournamentControl.SetTournament | src/gambitpairing/gui/views/tournament/tournament_controller.py:104-109 | the controller holds the given tournament; clearing it also resets the round index to 0 and forgets the last recorded results, while setting one keeps both |
| TournamentControl.ActiveCount | src/gambitpairing/gui/views/tournament/tournament_controller.py:133-138 | the active players counted never exceed all players |
| TournamentControl.ValidateMinimumPlayers | src/gambitpairing/gui/views/tournament/tournament_controller.py:115-179 | invalid without a tournament; otherwise, counting active players when preparing and all players at the start, invalid exactly for round robin below three or Dutch Swiss and manual below two, and a Dutch Swiss field below 2 to the power of the round count needs confirmation |
| TournamentControl.ValidationMonotone | src/gambitpairing/gui/views/tournament/tournament_controller.py:115-179 | adding players, with the same active flags for those already there, never turns a valid field invalid |
| TournamentControl.GeneratePairings | src/gambitpairing/gui/views/tournament/tournament_controller.py:181-254 | succeeds only with a tournament, a round index within the round count and a pairing engine that did not raise, and then returns exactly what the engine produced; a failure returns no pairings, no bye and a message; an engine result with no pairings and no bye fails exactly when an even number of more than one player is active |
| TournamentControl.Take | src/gambitpairing/gui/views/tournament/tournament_controller.py:262-269 | Python's slice to the first k entries, negative k counting from the end: its length and that it is a prefix |
| TournamentControl.ClearRoundPairings | src/gambitpairing/gui/views/tournament/tournament_controller.py:262-269 | without a tournament nothing changes; otherwise the players and the controller's index stay, and the per-round pairings and byes become prefixes of what they were |
| TournamentControl.ClearThenExists | src/gambitpairing/gui/views/tournament/tournament_controller.py:256-269 | after clearing from a round on, that round has no pairings, and every earlier round keeps its own pairings |
| TournamentControl.GetRoundPairings | src/gambitpairing/gui/views/tournament/tournament_controller.py:271-298 | no more pairings than the round holds, and a bye player only when it is one of the tournament's players |
| TournamentControl.KnownPairs | src/gambitpairing/gui/views/tournament/tournament_controller.py:292-296 | the pairings kept are at most those listed and name two of the tournament's players |
| TournamentControl.RecordResults | src/gambitpairing/gui/views/tournament/tournament_controller.py:300-349 | succeeds exactly with a tournament, a round that has pairings and a recorder that reported success; then the index moves past the round, the results are remembered, and the tournament is finished exactly when the index reaches the round count; a failure changes nothing and carries a message |
| TournamentControl.ParseResultToScore | src/gambitpairing/gui/views/tournament/tournament_controller.py:351-371 | a score is returned exactly for the three result names |
| TournamentControl.ParseResultRoundTrip | src/gambitpairing/gui/views/tournament/tournament_controller.py:351-371 | parsing a result name and naming a score are inverse on the three results |
| TournamentControl.RoundTenth | src/gambitpairing/gui/views/tournament/tournament_controller.py:444-446 | Python's rounding to one decimal lies within half a tenth of its argument |
| TournamentControl.RoundTenthExact | src/gambitpairing/gui/views/tournament/tournament_controller.py:444-446 | a whole number of tenths is kept by that rounding |
| TournamentControl.RevertPlayerRoundData | src/gambitpairing/gui/views/tournament/tournament_controller.py:431-465 | a player without results is unchanged; otherwise the last result, opponent and colour are popped, the score loses the last result rounded to a tenth, and the black count stays non-negative; identity, match entries and active flag stay |
| TournamentControl.RevertAfterAdd | src/gambitpairing/gui/views/tournament/tournament_controller.py:431-465 | reverting right after a round result was added gives the player back, apart from the match entry, when the score was a whole number of tenths |
| TournamentControl.RevertEntries | src/gambitpairing/gui/views/tournament/tournament_controller.py:395-403 | reverting the players named in the last results keeps the roster's ids and leaves every player they do not name unchanged |
| TournamentControl.UndoLastResults | src/gambitpairing/gui/views/tournament/tournament_controller.py:381-429 | succeeds exactly when undo is possible; a refusal changes nothing and carries a message; a success steps the round index back, forgets the last results and changes only the tournament's players, keeping their ids |
| TournamentControl.UndoAfterRecord | src/gambitpairing/gui/views/tournament/tournament_controller.py:300-429 | undo after a successful recording succeeds and returns the round index to the recorded round with no results remembered |
| Tiebreaks.SortReals | src/gambitpairing/tournament/tiebreak_calculator.py:152 | `sorted` on the opponent scores: ascending and a permutation of its input |
| Tiebreaks.SumSort | src/gambitpairing/tournament/tiebreak_calculator.py:152-157 | sorting keeps the total of the scores |
| Tiebreaks.OpponentScores | src/gambitpairing/tournament/tiebreak_calculator.py:79-97 | one score per real (non-bye, known) opponent, so empty exactly when there is no real opponent |
| Tiebreaks.SonnebornBergerAtMostSolkoff | src/gambitpairing/tournament/tiebreak_calculator.py:92-110 | with non-negative scores, Sonneborn-Berger (full opponent score for a win, half for a draw) lies between 0 and Solkoff |
| Tiebreaks.GamesPlayed | src/gambitpairing/tournament/tiebreak_calculator.py:146 | the games counted for the median never exceed the rounds looked at |
| Tiebreaks.KeptBounds | src/gambitpairing/tournament/tiebreak_calculator.py:152-167 | whichever scores the median keeps (drop lowest, highest, or both) sum to between 0 and the total of non-negative scores |
| Tiebreaks.MedianBounds | src/gambitpairing/tournament/tiebreak_calculator.py:119-167 | the modified median of non-negative scores lies between 0 and their sum, and with one opponent it is that opponent's score |
| Tiebreaks.MedianHalfTwoOpponents | src/gambitpairing/tournament/tiebreak_calculator.py:161-167 | at exactly 50% with two opponents both scores are dropped and the median is 0 |
| Tiebreaks.ZeroTiebreaks | src/gambitpairing/tournament/tiebreak_calculator.py:169-179 | seven tiebreak keys, every one 0.0 |
| Tiebreaks.PlayerTiebreaks | src/gambitpairing/tournament/tiebreak_calculator.py:67-117 | no real opponent gives the all-zero tiebreaks; otherwise Solkoff equals cumulative-opposition and is the sum of the opponents' scores, cumulative is the sum of the running scores, most-blacks is the number of black games and head-to-head is 0 |
| Tiebreaks.AllTiebreaks | src/gambitpairing/tournament/tiebreak_calculator.py:53-65 | every player stays under its key; an inactive player without results gets empty tiebreaks, every other player its own tiebreaks |
| Tiebreaks.HeadToHeadMeaning | src/gambitpairing/tournament/tiebreak_calculator.py:181-204 | player one won exactly when some recorded game against player two scored 1.0, and lost exactly when some scored 0.0 |
| Tiebreaks.HeadToHeadNeverMet | src/gambitpairing/tournament/tiebreak_calculator.py:193-204 | players who never met: neither has won |
| TournamentModels.NewConfig | src/gambitpairing/models/tournament/tournament_config.py:43-50 | a new configuration keeps its name and round count and defaults to the Dutch system, the default tiebreak order and not over |
| TournamentModels.ConfigToDict | src/gambitpairing/models/tournament/tournament_config.py:52-60 | every one of the five keys is written |
| TournamentModels.ConfigFromDict | src/gambitpairing/models/tournament/tournament_config.py:62-73 | fails exactly when the round count is missing; every other missing key takes its default ("Untitled Tournament", the Dutch system, the default tiebreak order, not over) and a present key is kept |
| TournamentModels.ConfigRoundTrip | src/gambitpairing/models/tournament/tournament_config.py:52-73 | a saved configuration reads back unchanged |
| TournamentModels.LegacyConfigToDict | src/gambitpairing/tournament/models.py:46-53 | the older record writes four keys and no over-flag |
| TournamentModels.LegacyConfigRoundTrip | src/gambitpairing/tournament/models.py:46-65 | the four-key record reads back unchanged, its over-flag as False |
| TournamentModels.BlackScore | src/gambitpairing/tournament/models.py:84-86 | black's score and white's add up to one point |
| TournamentModels.MatchResultToDict | src/gambitpairing/tournament/models.py:88-94 | all three keys are written |
| TournamentModels.MatchResultFromDict | src/gambitpairing/tournament/models.py:97-103 | fails exactly when one of the three keys is missing; otherwise keeps the three values |
| TournamentModels.MatchResultRoundTrip | src/gambitpairing/tournament/models.py:88-103 | a saved result reads back unchanged |
| TournamentModels.NewRound | src/gambitpairing/tournament/models.py:118-122 | a new round has its number, no pairings, no bye, no results and is not completed |
| TournamentModels.RoundToDict | src/gambitpairing/tournament/models.py:124-132 | the round number and pairings are written as they are and one dictionary per result |
| TournamentModels.ResultsFromDicts | src/gambitpairing/tournament/models.py:141 | reading the saved results succeeds exactly when every one reads, and then gives one result per dictionary, each the one it reads as |
| TournamentModels.RoundFromDict | src/gambitpairing/tournament/models.py:134-143 | fails without a round number; missing pairings, bye, results and completed flag default to [], None, [] and False |
| TournamentModels.RoundRoundTrip | src/gambitpairing/tournament/models.py:124-143 | a saved round reads back unchanged |
| TournamentModels.PairOf | src/gambitpairing/tournament/models.py:160 | `frozenset({a, b})` holds a and b and nothing else |
| TournamentModels.EmptyHistory | src/gambitpairing/tournament/models.py:155-156 | in a new history no two players have played |
| TournamentModels.AddPairing | src/gambitpairing/tournament/models.py:158-160 | adding a pairing adds exactly its pair and leaves the manual adjustments alone |
| TournamentModels.AddThenPlayed | src/gambitpairing/tournament/models.py:158-164 | after adding a pair it has been played in both orders, and every pair played before still has |
| TournamentModels.AddPairingIdempotent | src/gambitpairing/tournament/models.py:158-160 | adding the same pair again, in either order, changes nothing |
| TournamentModels.HavePlayedSymmetric | src/gambitpairing/tournament/models.py:162-164 | whether two players have played does not depend on the order they are asked in |
| TournamentModels.SetToList | src/gambitpairing/tournament/models.py:169 | `list(pair)` lists exactly the pair's ids, once each |
| TournamentModels.HistoryToDict | src/gambitpairing/tournament/models.py:166-171 | the saved history lists each played pair once and keeps the manual adjustments |
| TournamentModels.HistoryFromDict | src/gambitpairing/tournament/models.py:173-183 | missing keys give an empty history; otherwise a pair has been played exactly when some saved list holds exactly its ids |
| TournamentModels.HistoryRoundTrip | src/gambitpairing/models/tournament/pairing_history.py:48-65 | reading back any listing of a history gives the same history |
| Tournaments.ByIds | src/gambitpairing/models/tournament/tournament.py:83 | `{p.id: p for p in players}`: every player's id is a key, every entry is one of the players filed under its own id, and a later player with the same id wins |
| Tournaments.NewTournament | src/gambitpairing/models/tournament/tournament.py:56-95 | the configuration holds the given name, round count and pairing system, the given tiebreak order or else the default one, and is not over; the round manager starts with no rounds and an empty pairing history |
| Tournaments.SetNumRounds | src/gambitpairing/models/tournament/tournament.py:114-119 | the configuration and the round manager both take the new round count, and nothing else changes |
| Tournaments.SetTournamentOver | src/gambitpairing/models/tournament/tournament.py:141-144 | the flag written is the flag the intended getter reads back, and nothing else changes |
| Tournaments.OverGetterReturnsOrder | src/gambitpairing/models/tournament/tournament.py:136-144 | on a new tournament that is not over, the getter as written returns the six-entry tiebreak order instead of the flag |
| Tournaments.PlayerIds | src/gambitpairing/models/tournament/tournament.py:148-160 | all player ids, or exactly the active players' ids |
| Tournaments.AddPlayer | src/gambitpairing/models/tournament/tournament.py:162-169 | the player is filed under its id, replacing any earlier one, and every other entry stays |
| Tournaments.RemovePlayer | src/gambitpairing/models/tournament/tournament.py:171-184 | True exactly when the id was present; only that entry is removed |
| Tournaments.SetPlayerActive | src/gambitpairing/models/tournament/tournament.py:186-201 | False and no change for an unknown id; otherwise only that player's active flag changes |
| Tournaments.AddThenRemove | src/gambitpairing/models/tournament/tournament.py:162-184 | adding a new player and removing it again gives back the same tournament |
| Tournaments.RecordResults | src/gambitpairing/models/tournament/tournament.py:267-294 | False and no change for a round that does not exist; on success the round is marked completed and holds the recorded results; the player ids, configuration and round count never change, and consistent player bookkeeping stays consistent |
| Tournaments.LexTotal | src/gambitpairing/models/tournament/tournament.py:355-356 | Python's `<` on names orders two different names exactly one way and no name below itself |
| Tournaments.CompareTiebreaks | src/gambitpairing/models/tournament/tournament.py:342-347 | the first tiebreak that differs decides; 0 exactly when all tiebreaks in the order agree |
| Tournaments.CompareTiebreaksAntisymmetric | src/gambitpairing/models/tournament/tournament.py:342-347 | swapping the two players negates the tiebreak comparison |
| Tournaments.ComparePlayers | src/gambitpairing/models/tournament/tournament.py:325-358 | -1, 0 or 1, and the higher score always ranks higher |
| Tournaments.CompareAntisymmetric | src/gambitpairing/models/tournament/tournament.py:325-358 | for two players who never met, swapping them negates the comparison, and a player compares equal with itself |
| Tournaments.CompareAsWritten | src/gambitpairing/models/tournament/tournament.py:343 | with a tiebreak order the comparison as written is the intended one |
| Tournaments.CompareWithoutOrderRaises | src/gambitpairing/models/tournament/tournament.py:75-80 | two players level on points who never met cannot be compared when the tournament was built without a tiebreak order, though they can with the default order |
| Tournaments.FirstLeast | src/gambitpairing/models/tournament/tournament.py:398-405 | the first player, in list order, with the least (score, rating, name) key, as a stable sort puts first |
| Tournaments.KeyOrder | src/gambitpairing/models/tournament/tournament.py:398-404 | the (score, rating, name) key is a strict order: irreflexive, asymmetric, and total up to equal keys |
| Tournaments.KeyTransitive | src/gambitpairing/models/tournament/tournament.py:398-404 | the (score, rating, name) key order is transitive |
| Tournaments.EligibleByePlayer | src/gambitpairing/models/tournament/tournament.py:370-429 | none exactly when no candidate is active; otherwise an active candidate, one without a bye whenever such a candidate exists, with no key below it among the active candidates it was chosen from |
| Tournaments.Filter | src/gambitpairing/models/tournament/tournament.py:389-394 | exactly the active candidates, or exactly the active ones without a bye |
| TrfImport.PointAt | src/gambitpairing/compatibility/bbp.py:101 | the position found is that of the first point, or the end when there is none |
| TrfImport.ParseFloat | src/gambitpairing/compatibility/bbp.py:101 | a number is read only from text that is not blank |
| TrfImport.Unsigned | src/gambitpairing/compatibility/bbp.py:101 | an unsigned number read is never negative |
| TrfImport.UnsignedOfDigits | src/gambitpairing/compatibility/bbp.py:101 | digits alone read as the whole number they write |
| TrfImport.ParseFloatOfInt | src/gambitpairing/compatibility/bbp.py:101 | the text of an integer reads back as that integer |
| TrfImport.NormaliseRating | src/gambitpairing/compatibility/bbp.py:96-105 | a missing rating becomes 0, a numeric one is kept, and only a rating given as text can fail to read |
| TrfImport.RatingOfText | src/gambitpairing/compatibility/bbp.py:103 | a rating written as an integer reads back as that integer |
| TrfImport.Thousands | src/gambitpairing/compatibility/bbp.py:100-101 | a text ending in K is read as a thousand times the number before it, truncated |
| TrfImport.RatingOfThousands | src/gambitpairing/compatibility/bbp.py:100-101 | "<n>K" reads back as n thousand |
| TrfImport.ThousandsBound | src/gambitpairing/compatibility/bbp.py:101 | a thousands rating is within one point of the value it writes, truncated toward zero |
| TrfImport.ParsePlayerRecord | src/gambitpairing/compatibility/bbp.py:221-259 | a player record is read exactly when it has at least four words and its first word is an integer |
| TrfImport.PlayerOfWords | src/gambitpairing/compatibility/bbp.py:225-255 | a player is built exactly from at least four words whose first is an integer |
| TrfImport.PlayerRecordRoundTrip | src/gambitpairing/compatibility/bbp.py:221-259 | a standard record of rank, name, rating, birth date, federation, FIDE id, title and sex reads back field by field |
| TrfImport.ReadWords | src/gambitpairing/compatibility/bbp.py:225 | a record joined from words reads as those words |
| TrfImport.StandardWords | src/gambitpairing/compatibility/bbp.py:229-255 | the eight standard words fill the eight standard fields |
| TrfImport.ParseRoundRecord | src/gambitpairing/compatibility/bbp.py:261-274 | a round record is read exactly when it has at least four words, and its round is non-zero only when the second word is all digits |
| TrfImport.ImportRecord | src/gambitpairing/compatibility/bbp.py:188-217 | a record adds at most one player at the end, and only a 001 record adds one |
| TrfImport.Records | src/gambitpairing/compatibility/bbp.py:170 | the records are stripped and none is blank |
| TrfImport.NonBlank | src/gambitpairing/compatibility/bbp.py:170 | dropping blank lines never adds a record, and what is kept is stripped and not blank |
| TrfImport.IgnoredRecord | src/gambitpairing/compatibility/bbp.py:203-217 | a record other than 001, 012 and 037 changes nothing, the tie-break record and the BB extension records included, since no configuration is ever built |
| TrfImport.ImportAppend | src/gambitpairing/compatibility/bbp.py:188-219 | reading two runs of records is reading the first, then the second |
| TrfImport.PlayersOnlyFromPlayerRecords | src/gambitpairing/compatibility/bbp.py:188-219 | records that are not player records leave the players as they were |
| TrfImport.PlayersGrow | src/gambitpairing/compatibility/bbp.py:185-219 | the players read only grow, each new one added at the end |
| TournamentStates.Compute | src/gambitpairing/gui/views/tournament/tournament_state.py:100-184 | without a tournament nothing is possible; otherwise the state counts the rounds with pairings and those recorded, is finished exactly when the recorded rounds reach a positive round count, has not started exactly when no round has pairings, and otherwise awaits results exactly when more rounds have pairings than are recorded; undo is offered exactly after a recorded round, starting exactly before any pairings, and the current round has pairings exactly when its list is non-empty |
| TournamentStates.ActionsExclusive | src/gambitpairing/gui/views/tournament/tournament_state.py:100-184 | recording and preparing are never both offered; preparing is offered only while awaiting the next round, and awaiting results always offers recording |
| TournamentStates.PrimaryButtonMeaning | src/gambitpairing/gui/views/tournament/tournament_state.py:294-296 | the primary button is disabled without a tournament, enabled before the start and while awaiting results, and while awaiting the next round enabled exactly when every round with pairings is recorded and a round remains |
| TournamentStates.StatusState | src/gambitpairing/gui/views/tournament/tournament_state.py:248-265 | the style name is "default" exactly without a tournament, "finished" exactly when finished and "recording" exactly while awaiting results |
| TournamentStates.PrimaryButtonText | src/gambitpairing/gui/views/tournament/tournament_state.py:268-278 | the button reads "No Action Available" exactly when no tournament is loaded |
| TournamentStates.StatusMessage | src/gambitpairing/gui/views/tournament/tournament_state.py:206-245 | while awaiting results the message opens with the round being played (recorded rounds plus one) and the round count; after a round it opens with that round's number and "complete." |
| Validation.EmailMatchesPattern | src/gambitpairing/utils/validation.py:73-76 | the direct matcher (split at the first '@' and at the last '.') accepts exactly the addresses the regular expression `^[a-zA-Z0-9._%+-]+@[a-zA-Z0-9.-]+\.[a-zA-Z]{2,}$` describes |
| Validation.ValidateEmail | src/gambitpairing/utils/validation.py:63-82 | valid exactly when the address is blank and not required, or its stripped form matches the e-mail pattern; a valid address is sanitised to its stripped form, a blank one to nothing; an invalid one carries an error |
| Validation.ValidateEmailStrict | src/gambitpairing/utils/validation.py:85-96 | raises exactly when required validation fails, with "required" for a blank address |
| Validation.RemoveFormatting | src/gambitpairing/utils/validation.py:130 | removing whitespace, '-', '.', '(', ')' and '+' leaves none of them and changes nothing in text that holds none |
| Validation.ValidatePhone | src/gambitpairing/utils/validation.py:121-146 | a blank number is valid exactly when not required; otherwise valid exactly when the stripped number without formatting characters is 10 to 15 digits, which is then the sanitised value |
| Validation.PhoneSanitisedIsStable | src/gambitpairing/utils/validation.py:121-146 | validating a sanitised phone number again gives the same result |
| Validation.ValidatePhoneStrict | src/gambitpairing/utils/validation.py:149-164 | raises exactly when required validation fails, otherwise returns 10 to 15 digits |
| Validation.ValidateRating | src/gambitpairing/utils/validation.py:187-200 | valid exactly when there is no rating or it lies in [min, max]; a valid rating is sanitised to its decimal text |
| Validation.ValidateRatingStrict | src/gambitpairing/utils/validation.py:203-222 | raises exactly when the rating is out of range; otherwise returns the rating, 0 for none |
| Validation.ValidateFideId | src/gambitpairing/utils/validation.py:242-264 | a blank id is valid exactly when not required; otherwise valid exactly when `int()` of the stripped text succeeds and is positive, sanitised to that number's canonical decimal form |
| Validation.FideIdSanitisedRoundTrip | src/gambitpairing/utils/validation.py:251-259 | the sanitised FIDE id reads back as the same number |
| Validation.ValidateName | src/gambitpairing/utils/validation.py:281-303 | a blank name is valid exactly when not required; otherwise valid exactly when the stripped name has at least two characters, all letters, whitespace, '-', apostrophe or '.', and is sanitised to the stripped name |
| Validation.NameSanitisedIsStable | src/gambitpairing/utils/validation.py:281-303 | validating a sanitised name again gives the same result |
| Validation.ValidateNonEmpty | src/gambitpairing/utils/validation.py:309-326 | valid exactly when the value is not blank, sanitised to its non-empty stripped form |
| Validation.ValidatePositiveInteger | src/gambitpairing/utils/validation.py:329-359 | valid exactly when a value is given and positive; the sanitised text reads back as the value |
| Validation.ValidateScore | src/gambitpairing/utils/validation.py:362-385 | valid exactly for 0.0, 0.5 and 1.0 |

## Left out

- Qt widgets, signals, dialogs and HTML print previews are left out because they are presentation only. Their state logic is modelled in `tournament_state.py` and `tournament_controller.py`.
- File, subprocess and network I/O is left out because the model has no file system or processes:
  - running the bbpPairings binary (`_run_bbp_pairings`, `generate_pairings`), whose output is a parameter of the parser;
  - `import_trf_file` and `export_bbp_trf` (the text they read and write is modelled);
  - `save_report`, the JSON files, the directory utilities and the command runner.
- Logging is left out because it has no effect on results.
- Randomness and clocks are parameters:
  - the generator's draws (`random`, `choice`, `choices`, `gauss`, `shuffle`);
  - the global `random.seed` of the transposition generators;
  - `time.time` and `perf_counter`.
- `math.sqrt` in `_forfeit_occurs` and `math.erfc` in `_bbp_realistic_result` are parameters. The callers pass the non-forfeit probability and the expected score, and the model states what is done with them.
- `statistics.stdev` is left out of the analyzer's statistics because it needs a square root. The mean, median, minimum and maximum are modelled.
- Floating point is left out because every score, rating, probability and percentage is an exact `real`. Rounding error of binary floats (for example in `round`, `float()` or `1.005 * 1000`) is therefore not modelled.
- Reporter.RoundShift: Python's `round` rounds halves to even on binary floats. The model's rounding rounds halves up on exact reals, so the two differ on ties.
- `float()` accepts plain decimals only. Exponents, `inf`, `nan` and underscores are not modelled, because no field written by the program uses them.
- `str.strip`, `isdigit`, `upper` and `lower` act on ASCII only, because non-ASCII whitespace, digits and case rules would need Unicode tables.
- `Colour.WHITE` and `Colour.BLACK` come from an enum module that is not part of this model. They are taken to be the strings "White" and "Black".
- The analyzer takes every comparison to carry both engines' metrics. The source skips a comparison whose metrics are missing, and the engine always fills them in, so the model does not represent that case.
- The end-to-end Dutch search is left out, because it is built from size-capped heuristics with no stated contract. This covers `create_dutch_swiss_pairings`, the hard-coded "FIDE manager" round-2/round-3 index patterns, the heuristic transposition generators and the time-triggered fallback. Only the helpers it calls are modelled.
- DutchSelect.ComputeMetrics: the C9–C17 counts come in as a parameter rather than being recomputed from the pairings. C6, C7, C8 and the score-difference lists C18–C21 are computed.
- The command-line front ends are left out because they are argument wiring and console printing: `main`, `run_comparison` and `print_summary` in `comparison/cli.py`, and `testing/__main__.py`.
- Modules that cannot be imported are left out: `cfc_player.py`, `ctr_builder.py`, `pairing_result.py`, and the duplicates `round_data.py` and `match_result.py`. `tournament/models.py` is modelled in their place.
- Several `Tournament` methods only forward to a modelled member:
  - `create_pairings` to `RoundManagement.CreateNextRound`;
  - `get_pairings_for_round` to `RoundManagement.PairingsForDisplay`;
  - `set_manual_pairings` to `RoundManagement.SetManualPairings`;
  - `get_completed_rounds` to `RoundManagement.CompletedRoundsCount`.
- `Tournament.get_standings` is left out: it sorts with `Tournaments.ComparePlayers`, which is modelled. `compute_tiebreakers` is left out too: it calls the tiebreak calculator, which is modelled.
- `Tournament.to_dict` and `from_dict` are left out because they only nest the serialisations of the player, configuration and history, which are modelled.
- The GUI controller and state read `rounds_pairings_ids`, `rounds_byes_ids`, `manual_pairings` and `_get_active_players`, which the `Tournament` class does not define. They are modelled over a view that holds those fields.
- In the controller, `set_manual_pairings` only forwards and is left out. `get_active_players` is covered by `TournamentControl.ActiveCount`, and `format_results_for_log` only builds log text.
- TournamentControl.GetRoundPairings requires at least as many bye entries as pairing rounds, which every modelled update keeps. The source raises `IndexError` when this does not hold.
- In the tournament state, `primary_button_icon_name` and the tooltip texts are left out because they are UI strings, and `status_message` only forwards.
- PrintUtils.CleanPrintTitle states only the empty case in its contract. `PrintUtils.CleanTitleUnchanged` adds that a title without either decoration is kept as it is. The text left after a decoration is replaced is not stated, because removing " (Re-entry)" in one pass can leave a new occurrence of it.
- Rtg.UnplayedById states only that every candidate has a count. The counts themselves are stated by `Rtg.UnplayedOwn` and `Rtg.CountsOwn` for candidates with distinct ids.
- `FpcReplay` accepts players as `Player` values only, not as the dictionaries the replay also accepts, because the dictionary form is converted by `from_dict`, which is modelled separately.
- Truthiness of `Player` objects (`if player:`) is taken to be "not None", because the classes define neither `__bool__` nor `__len__`.
- Rtg.PredictableAsWritten: the division by zero at a deficit of exactly 110 points holds on exact reals only. In binary doubles `0.5 + (-110) / 200 + 0.05` is about -4e-17, not zero, so Python returns a White win there.
- ResultRecording.UndoOne and ResultRecording.UndoRoundResults are built on the corrected player undo (`ResultRecording.UndoPlayerResult`), not on the as-written `_undo_player_result` that `undo_round_results` calls; the as-written undo is modelled separately and its miscount is listed under Findings.
- ResultRecording.UndoRoundResults: when an undo raises, the model returns the error and no players. The source has by then already changed, in place, the players undone before the raise, and it leaves the round completed with its results; that partial state is not modelled.
- FpcReplay.Copy: `Player.from_dict(player.to_dict())` shares the list fields (results, match history, opponents, colours) with the original, because `to_dict` stores the lists as they are (base_player.py:340-347) and `from_dict` assigns them back unchanged (base_player.py:403-406). The validator's `add_round_result` calls therefore also extend the caller's players. The model treats the copy as an independent value and does not model that aliasing.
- Tiebreaks.OpponentScores resolves a player's opponents afresh on every call. The source caches them in `_opponents_played_cache` and rebuilds the cache only when the number of opponents changes (base_player.py:217-222), so an undo followed by a game against a different opponent reads the stale list. The cache is not modelled.
- Players.ParseIsoDate accepts only the YYYY-MM-DD form, the one form `date.fromisoformat` accepts before Python 3.11. The further ISO 8601 forms that Python 3.11 added, such as YYYYMMDD, are not modelled.
- TournamentStates.Compute reads the current round's pairing count only for an index from 0 up to the number of generated rounds. Python would read a negative index from the end of the list; the view never holds a negative index, so that case is not modelled.
- Cli.PlayGame: a pairing of a player with themselves writes the two updated copies into the map one after the other, so the second overwrites the first. In the source both calls change the one shared player object, so such a pairing ends with both results; this case is not modelled faithfully.
- Bbp.FormatMatch: a segment of the TRF round section is ten characters wide, which fits only opponent numbers from -999 to 9999. Larger numbers are not modelled.

## Findings

| source | as written | input that shows it | evidently intended | confidence | as-written member | corrected member |
|---|---|---|---|---|---|---|
| src/gambitpairing/controllers/tournament/result_recorder.py:256-291 | after popping the last result, the undo tests the new last colour and opponent, so the black-game count and the bye flag follow the wrong game | a player who played Black, then White; undoing the White game lowers the black count from 1 to 0 | undo the game actually removed, as `_revert_player_round_data` in the GUI controller does | not executed | ResultRecording.UndoAsWrittenMiscountsBlack | ResultRecording.UndoAfterAdd |
| src/gambitpairing/controllers/tournament/round_manager.py:262-284 | undoing the last round removes each of its pairs from the history, even when an earlier round played the same pair | round 1 pairs a–b (completed), round 2 pairs b–a; undoing round 2 removes {a, b} from the history | the history after the undo still holds every pair of the remaining rounds | not executed | RoundManagement.UndoAsWrittenForgetsEarlierPair | RoundManagement.UndoKeepsHistory |
| src/gambitpairing/models/tournament/tournament.py:136-144 | `tournament_over` is declared with `@tiebreak_order.setter`, so its getter returns the tiebreak order | a new tournament with the default order: `tournament_over` is a non-empty list, which is truthy | the getter returns the configuration's `tournament_over` flag | not executed | Tournaments.OverGetterReturnsOrder | Tournaments.SetTournamentOver |
| src/gambitpairing/models/tournament/tournament.py:75-80 | a `tiebreak_order` of `None` is passed on to the configuration, which then holds `None` instead of the default order | two players level on points who never met, in a tournament built without an order: comparing them iterates over `None` | a missing order falls back to the default order | not executed | Tournaments.CompareWithoutOrderRaises | Tournaments.NewTournament |
| src/gambitpairing/comparison/validator.py:156-171 | the summary reads `violation.violation_count`, which a criterion result does not have | a report with one violated criterion raises `AttributeError` | each violated criterion is counted, with 1 when no count is given | not executed | CompValidator.CompareReportsRaises | CompValidator.CompareReports |
| src/gambitpairing/testing/rtg.py:261-287 | the win and draw shares are normalised to sum to 1, so the draw band ends at 1 and `random()` never reaches the loss | any rating difference: White never loses a balanced or upset-friendly game | all three outcomes are possible | not executed | Rtg.AsWrittenNeverLoses | Rtg.AllOutcomesOccur |
| src/gambitpairing/testing/rtg.py:289-301 | the predictable win share is not clamped from below, so it goes negative once White is more than 100 points weaker; beyond 110 points the total is negative too, and White's normalised share exceeds 1 | White 200 points weaker: the win share is -0.5, the total -0.45, and White's normalised share about 1.11, so White always wins | a weaker White does no better than a stronger one | not executed | Rtg.PredictableUpset | Rtg.RatingMonotone |
| src/gambitpairing/testing/rtg.py:779 | each result is unpacked into four fields, but results are stored as five-field tuples | any round with one recorded result raises `ValueError` | one `096` line per result | not executed | Rtg.ExportFailsOnPlayedRound | Rtg.ExportReadsBack |
