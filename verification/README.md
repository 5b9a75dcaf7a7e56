# LFL fantasy league: a Dafny model

This project models the analytical core of the LFL fantasy-football league tool. There are two parts.

**Win counts.** Each week a team's points rank becomes a win probability, `(N - rank) / (N - 1)`. From the season's probabilities the tool builds:
- the exact distribution of the number of wins, by enumerating every subset of weeks as a win/loss scenario;
- the expected number of wins;
- the summary statistics of a team's points: mean, median and population variance.

**Standings.** Teams are kept as week-sorted histories with win/loss counters. They are built from the league's users and rosters, scored week by week against the opponent in the same matchup, and then seeded:
- first within each division, then across the league;
- by a chain of pairwise tiebreakers (the criteria engine);
- or by the older calculator with its tiebreakers written inline.

Everything is modelled as immutable datatypes and pure functions over Dafny `real`, `int`, `seq` and association lists. Python dicts are association lists that keep insertion order. Each module follows one source file:

| module | file | models |
|---|---|---|
| `Dict` | dict.dfy | Python's insertion-ordered dict: `get`, `d[k] = v`, filling a dict in a loop |
| `RealSeq` | realseq.dfy | sums, weighted sums, dot products over `seq<real>` |
| `KeySort` | keysort.dfy | the stable sort by a key that `sorted` and `list.sort(key=…)` perform |
| `WinDistribution` | distribution.dfy | the scenario enumeration, its convolution form and its moments |
| `Metrics` | metrics.dfy | src/Classes/Metrics.py |
| `StaleMetrics` | stale_metrics.dfy | src/Metrics.py |
| `Names` | names.dfy | `str.split()` and the short name of a team |
| `RankProbability` | rank_probability.dfy | the rank-to-probability mapping |
| `Team` | team.dfy | src/Classes/Team.py |
| `SeedCriteria` | seed_criteria.dfy | the criteria and the chain of src/Classes/SeedEngine.py |
| `SeedCalculator` | seed_calculator.dfy | the comparisons of src/Classes/SeedCalculator.py |
| `Seeding` | seeding.dfy | the division and league phases of both seeders |
| `League` | league.dfy | the pure parts of src/Classes/FantasyLeague.py |
| `LeagueScript` | script_league.dfy | the arithmetic of the stand-alone script FantasyLeague.py |

How the model follows the code:
- **Sorting.** The comparator chains are not transitive, because head-to-head records can form cycles. Python's Timsort is therefore replaced by a stable insertion sort, descending by the comparison. The properties proved hold for that sort.
- **Exceptions.** A comparison that reads a division seed that was never written raises an AttributeError in Python. Here it yields `None`.
- **Team construction.** The user loop of src/Classes/FantasyLeague.py calls the constructor as written, so a team name of one word makes the retrieval raise (`League.BuildTeam`, `League.OneWordTeamRaises`). `Team.NewTeam` is the corrected constructor of the Findings row; wherever the constructor as written succeeds it builds the same team, so the teams of a successful retrieval are described by it.
- **Standard deviation.** It is represented by its square, the population variance.
- **Helpers with no visible code.** `getH2hRecord` and `getDivisionRecord` are plain per-team data:
  - a head-to-head share in [0, 1], or the "no history" value -1;
  - a (wins, losses) pair.

## Model

| member | source | states |
|---|---|---|
| SeedCriteria.Calculate | src/Classes/SeedEngine.py:33-132 | each criterion answers 1, -1 or 0; it raises (None) exactly when it reads a division seed that is missing |
| SeedCriteria.CriteriaAntisymmetric | src/Classes/SeedEngine.py:37-42 | every criterion but head-to-head gives the opposite verdict when the teams are swapped |
| SeedCriteria.H2HVerdicts | src/Classes/SeedEngine.py:49-56 | head-to-head is 1 iff the share exceeds 1/2 and -1 iff it lies in [0, 1/2); exactly 1/2 and the -1 "no history" value are ties |
| SeedCriteria.H2HAntisymmetric | src/Classes/SeedEngine.py:49-56 | with records that agree (shares adding to one, or no history on both sides), head-to-head is antisymmetric |
| SeedCriteria.DivisionPercentage | src/Classes/SeedEngine.py:64-67 | a team without division games has percentage 0; every percentage lies in [0, 1] |
| SeedCriteria.DivisionRecordVerdicts | src/Classes/SeedEngine.py:63-72 | the division record compares win percentages; no division games loses to any division win |
| SeedCriteria.SameDivisionVerdicts | src/Classes/SeedEngine.py:108-115 | teams of different divisions tie; within a division the lower seed wins |
| SeedCriteria.DivisionLeaderVerdicts | src/Classes/SeedEngine.py:125-132 | the leader rule decides iff exactly one team has division seed 1, and then favours that team |
| SeedCriteria.CompareFirstDecisive | src/Classes/SeedEngine.py:154-170 | the chain returns the verdict of the first criterion that does not tie |
| SeedCriteria.CompareTies | src/Classes/SeedEngine.py:166-170 | the chain ties iff every criterion ties, so an empty chain always ties |
| SeedCriteria.CompareAntisymmetric | src/Classes/SeedEngine.py:154-170 | a chain of antisymmetric criteria is antisymmetric |
| SeedCriteria.RecordFirst | src/Classes/SeedEngine.py:154-170 | with Record first in the chain, more wins decides the comparison |
| SeedCriteria.LFLDivisionChain | src/Classes/SeedEngine.py:228-234 | the division chain has four criteria and starts with Record |
| SeedCriteria.LFLLeagueChain | src/Classes/SeedEngine.py:278-285 | the league chain has five criteria and starts with Record |
| SeedCriteria.DivisionChainTotal | src/Classes/SeedEngine.py:228-234 | the division chain reads no seed and never raises |
| SeedCriteria.LeagueChainTotal | src/Classes/SeedEngine.py:278-285 | the league chain raises only when a division seed is missing |
| SeedCalculator.TupleOrder | src/Classes/SeedCalculator.py:41-46 | division records compare as tuples: by wins, then by losses |
| SeedCalculator.DivisionComp | src/Classes/SeedCalculator.py:19-54 | the division comparison answers 1, -1 or 0 and reads no seed |
| SeedCalculator.DivisionCompTies | src/Classes/SeedCalculator.py:29-54 | it ties iff the teams tie on wins, on head-to-head (1/2 or no history), on the division record pair and on expected wins |
| SeedCalculator.DivisionCompAntisymmetric | src/Classes/SeedCalculator.py:29-54 | with agreeing head-to-head records, swapping the teams swaps the verdict |
| SeedCalculator.PairOrderRewardsLosses | src/Classes/SeedCalculator.py:41-46 | at equal wins the tuple order ranks a 3-1 division record above 3-0, where the percentage criterion ranks it below |
| SeedCalculator.LeagueComp | src/Classes/SeedCalculator.py:57-90 | the league comparison raises exactly when wins tie and a division seed is missing |
| SeedCalculator.LeagueCompIsChain | src/Classes/SeedCalculator.py:67-90 | the league comparison equals the chain record, division seed, head-to-head, expected wins |
| SeedCalculator.LeagueCompAcrossDivisions | src/Classes/SeedCalculator.py:72-75 | the lower division seed wins a tie on wins even across divisions, where the same-division rule ties |
| Seeding.WinsDecide | src/Classes/SeedEngine.py:229-234 | both seeders' comparisons let more wins decide |
| Seeding.SortByPermutes | src/Classes/SeedEngine.py:212 | the stable insertion sort is a permutation of its input |
| Seeding.SortByDistinct | src/Classes/SeedEngine.py:212 | sorting distinct positions keeps them distinct |
| Seeding.SortByDescending | src/Classes/SeedEngine.py:212 | a comparison that looks at wins first sorts by wins, most first |
| Seeding.DivisionOrder | src/Classes/SeedEngine.py:203-212 | a division's ranking holds exactly the positions of its teams |
| Seeding.DivisionOrderDistinct | src/Classes/SeedEngine.py:203-212 | a division's ranking lists each team once |
| Seeding.DivisionPhase | src/Classes/SeedEngine.py:188-214 | teams without a (non-empty) division are untouched; every other team gets one more than its place in its division's ranking |
| Seeding.DivisionSeedsOneToM | src/Classes/SeedEngine.py:211-214 | in a division of M teams, the p-th ranked gets seed p + 1, and every seed lies in 1..M |
| Seeding.SeedAt | src/Classes/SeedEngine.py:213-214 | the team ranked p-th in its division gets seed p + 1 |
| Seeding.DivisionSeedsDistinct | src/Classes/SeedEngine.py:211-214 | two teams of one division never share a division seed |
| Seeding.DivisionSeedsFollowWins | src/Classes/SeedEngine.py:212-214 | within a division, more wins gives a smaller seed |
| Seeding.LeagueOrder | src/Classes/SeedEngine.py:261 | the league ranking lists every team exactly once |
| Seeding.LeaguePhase | src/Classes/SeedEngine.py:244-263 | the p-th team of the result is the p-th ranked input team with league seed p + 1, and nothing else changes |
| Seeding.LeaguePhasePermutes | src/Classes/SeedEngine.py:261-263 | each input team appears at exactly one place of the result |
| Seeding.TeamsAtPermutes | src/Classes/SeedEngine.py:261-263 | listing the same positions in a different order lists the same teams, each as often |
| Seeding.LeagueSeedsFollowWins | src/Classes/SeedEngine.py:261-263 | more wins gives a smaller league seed |
| Seeding.Engine | src/Classes/SeedEngine.py:309-322 | division seeds first, then league seeds 1..N; every team with a division carries a division seed; the result's teams are the input's teams, each as often as in the input |
| Seeding.LFLEngine | src/Classes/SeedEngine.py:217-285 | the LFL engine returns the input teams rearranged (same multiset of teams), with league seeds 1..N in list order and a division seed on every team that has a division |
| Seeding.CalculatorEngine | src/Classes/SeedCalculator.py:92-126 | the older calculator returns the input teams rearranged (same multiset of teams), with league seeds 1..N in list order and a division seed on every team that has a division |
| Seeding.DivisionPassesNeverRaise | src/Classes/SeedCalculator.py:108-120 | neither division pass ever raises |
| Seeding.LFLLeagueRuns | src/Classes/SeedEngine.py:318-322 | when every team has a division, no league comparison of the LFL chain raises |
| Seeding.CalculatorLeagueRuns | src/Classes/SeedCalculator.py:107-126 | when every team has a division, no league comparison of the calculator raises |
| Seeding.UndividedTieRaises | src/Classes/SeedEngine.py:205 | a team without a division keeps an unset seed, so both league comparisons raise once it ties another team on wins |
| Metrics.NewMetric | src/Classes/Metrics.py:4-7 | an empty list leaves the metric uncomputed; the win-count metric has one entry more than the list; expected wins is the mean of the win-count distribution |
| Metrics.Average | src/Classes/Metrics.py:12-14 | the average times the count is the sum, and an empty list averages to 0 |
| Metrics.AverageWithinRange | src/Classes/Metrics.py:12-14 | the average lies between the least and the greatest value |
| Metrics.AverageIgnoresOrder | src/Classes/Metrics.py:12-14 | the average does not depend on the order of the values |
| Metrics.Median | src/Classes/Metrics.py:16-23 | for an odd count the median is one of the values |
| Metrics.MedianOfSorted | src/Classes/Metrics.py:21-23 | on ascending values the median is the middle element, or the mean of the two middle elements |
| Metrics.MedianIgnoresOrder | src/Classes/Metrics.py:16-23 | the median does not depend on the order of the values |
| Metrics.MedianWithinRange | src/Classes/Metrics.py:16-23 | the median lies between the least and the greatest value |
| Metrics.VarianceNonNegative | src/Classes/Metrics.py:25-29 | the population variance is never negative |
| Metrics.VarianceZeroIffConstant | src/Classes/Metrics.py:25-29 | the variance is zero exactly when every value is the same |
| Metrics.ExpectedWins | src/Classes/Metrics.py:31-33 | the sum of the win probabilities is the count times their mean |
| Metrics.ExpectedWinsIsMean | src/Classes/Metrics.py:31-58 | the plain sum of the probabilities is the mean of the win-count distribution |
| Metrics.ComputeProbNWins | src/Classes/Metrics.py:35-58 | the nested loops compute the win-count distribution defined by the scenario tally |
| Metrics.WinsProduct | src/Classes/Metrics.py:47-49 | the wins loop computes the product of the won weeks' probabilities |
| Metrics.LossesProduct | src/Classes/Metrics.py:50-53 | the losses loop computes the product of 1 - p over the other weeks |
| StaleMetrics.StdDev | src/Metrics.py:19-24 | an empty history divides by zero; otherwise the population variance of the points, never negative |
| StaleMetrics.ExpectedWins | src/Metrics.py:26-29 | the sum of the weeks' win probabilities, which is also the mean of their win-count distribution |
| StaleMetrics.ProbNWins | src/Metrics.py:31-58 | the stale enumeration gives the same distribution as src/Classes/Metrics.py on the same probabilities, and `[1.0]` for no weeks |
| WinDistribution.ScenariosBelow | src/Classes/Metrics.py:41-43 | every scenario lists at most w weeks, all below w |
| WinDistribution.ScenariosIncreasing | src/Classes/Metrics.py:41-43 | every scenario lists its weeks in ascending order |
| WinDistribution.EverySubsetIsAScenario | src/Classes/Metrics.py:41-43 | every ascending list of weeks below w is a scenario |
| WinDistribution.ScenariosCount | src/Classes/Metrics.py:41-43 | there are 2^w scenarios |
| WinDistribution.ScenariosDistinct | src/Classes/Metrics.py:41-43 | no scenario is listed twice |
| WinDistribution.ScenarioProbIsMass | src/Classes/Metrics.py:45-55 | a scenario's wins product times its losses product is its independent-trials probability |
| WinDistribution.TallyBucketsBySize | src/Classes/Metrics.py:45-56 | bucket k holds exactly the mass of the scenarios that win k weeks |
| WinDistribution.ProbNWins | src/Classes/Metrics.py:35-58 | the distribution has one bucket per win count 0..W |
| WinDistribution.ProbNWinsIsConvolution | src/Classes/Metrics.py:35-58 | the enumeration equals the convolution of the weekly [1 - p, p] distributions |
| WinDistribution.ProbNWinsSumsToOne | src/Classes/Metrics.py:35-58 | the buckets sum to one |
| WinDistribution.ProbNWinsNonNegative | src/Classes/Metrics.py:35-58 | with probabilities in [0, 1] no bucket is negative |
| WinDistribution.ProbNWinsMean | src/Classes/Metrics.py:31-58 | the sum of n·P(n) is the sum of the weekly probabilities |
| WinDistribution.ProbNWinsAllWins | src/Classes/Metrics.py:45-56 | certain wins every week put all the mass on W wins |
| WinDistribution.ProbNWinsAllLosses | src/Classes/Metrics.py:45-56 | certain losses every week put all the mass on 0 wins |
| WinDistribution.ProbNWinsNoWeeks | src/Metrics.py:31-58 | with no weeks all the mass is on zero wins |
| WinDistribution.ProbNWinsTwoWeeks | src/Classes/Metrics.py:45-56 | two weeks at 0.8 and 0.3 give 0.14, 0.62 and 0.24 |
| RankProbability.WinProb | FantasyLeague.py:63 | rank 1 maps to 1, rank N to 0, and ranks 1..N to [0, 1] |
| RankProbability.TeamWinProb | src/Classes/Team.py:30 | `(12 - rank) / 11` is the same mapping with N fixed at twelve |
| RankProbability.WinProbDecreasing | src/Classes/Team.py:30 | a better rank gives a strictly larger probability |
| RankProbability.LossProb | src/Classes/Metrics.py:53 | the loss probability of a rank is the share of teams that outscored it |
| Team.NewWeekPerformance | src/Classes/Team.py:3-10 | no opponent raises (None); otherwise the week wins iff its points are strictly above the opponent's |
| Team.AtMostOneWinner | src/Classes/Team.py:10 | of two opponents at most one wins, equal points lose on both sides, and unequal points give exactly one winner |
| Team.UpdateMetrics | src/Classes/Team.py:28-35 | the metrics are recomputed from the whole history: average, variance, expected wins from `(12 - rank) / 11` |
| Team.MetricsAgree | src/Classes/Team.py:28-35 | a team's expected wins is the mean of its win-count distribution and lies between 0 and its number of weeks |
| Team.NewTeamAsWritten | src/Classes/Team.py:41-52 | the constructor as written fails exactly when the name has fewer than two words |
| Team.OneWordName | src/Classes/Team.py:43 | the one-word name "Bears" makes the constructor as written fail, while the corrected one keeps "Bears" as the short name |
| Team.NewTeam | src/Classes/Team.py:41-52 | a new team keeps its name, roster id, division and seed, with the short name the league computes |
| Team.NewTeamAgrees | src/Classes/Team.py:41-52 | wherever the constructor as written succeeds it builds the same team as the corrected one |
| Team.NewTeamConsistent | src/Classes/Team.py:47-52 | a new team has no wins, no losses and no weeks, and is consistent |
| Team.InsertWeek | src/Classes/Team.py:54-61 | the history gains the week and is sorted by week; one counter grows by one; the metrics are those of the new history; nothing else changes |
| Team.InsertWeekConsistent | src/Classes/Team.py:54-61 | inserting a week keeps a team consistent |
| Team.InsertAllCounts | src/Classes/Team.py:54-59 | after any inserts the history holds the old and inserted weeks, wins grew by the won weeks and wins + losses by their number |
| Team.InsertAllConsistent | src/Classes/Team.py:54-61 | any sequence of inserts keeps a team consistent |
| Team.SeasonRecord | src/Classes/Team.py:41-61 | a new team fed any weeks counts exactly their wins and losses and holds them sorted by week |
| Team.WinCountSort | src/Classes/Team.py:60 | re-sorting the history does not change its number of wins |
| Team.GetWeek | src/Classes/Team.py:63-66 | week w in 1..n gives entry w - 1; a week beyond n gives nothing; a negative index that runs off the start fails |
| Team.GetPoints | src/Classes/Team.py:68-69 | the points of each week, in history order |
| Team.GetRanks | src/Classes/Team.py:71-72 | one rank per week, in history order |
| Team.HistoryByWeek | src/Classes/Team.py:60-72 | with weeks 1..n each recorded once, entry k is week k + 1, and getWeek, getPoints and getRanks agree by week |
| Names.Split | src/Classes/FantasyLeague.py:60 | `str.split()` yields non-empty tokens without separators |
| Names.SplitKeepsCharacters | src/Classes/FantasyLeague.py:60 | the tokens run together are exactly the non-separator characters of the name |
| Names.SplitJoin | src/Classes/FantasyLeague.py:60 | splitting tokens joined by single spaces gives the tokens back |
| Names.ShortNameOfWords | src/Classes/FantasyLeague.py:60 | a name of two or more words is shortened to its second word |
| Names.ShortNameOfOneWord | src/Classes/FantasyLeague.py:60 | a one-word name is its own short name |
| KeySort.Sort | src/Classes/Team.py:60 | the sorted list is a permutation of the input, ascending by the key |
| KeySort.SortStable | src/Classes/Team.py:60 | the sort is stable: for every key value, the elements with that key come out in the order they went in |
| KeySort.SortIgnoresInputOrder | src/Classes/Metrics.py:21 | sorting reals gives the same list whatever the input order |
| Dict.Get | src/Classes/FantasyLeague.py:56 | a lookup fails exactly when no pair carries the key |
| Dict.Put | src/Classes/FantasyLeague.py:67 | after `d[k] = v` the key reads v |
| Dict.PutOther | src/Classes/FantasyLeague.py:67 | assigning one key leaves every other key's lookup unchanged |
| Dict.PutKeys | src/Classes/FantasyLeague.py:67 | assigning a present key keeps the key order; a new key goes last |
| Dict.FromPairsAbsent | src/Classes/FantasyLeague.py:35-37 | a key is absent from a filled dict exactly when no pair carries it |
| Dict.FromPairsLastWins | src/Classes/FantasyLeague.py:35-37 | the last pair assigned under a key decides its value |
| League.OwnerToRoster | src/Classes/FantasyLeague.py:35-37 | each owner appears once, and exactly the owners of some roster appear |
| League.SeedMap | src/Classes/FantasyLeague.py:40-43 | each short name appears once, and exactly the configured short names appear |
| League.DivisionByTeam | src/Classes/FantasyLeague.py:45-49 | each short name appears once; a name is mapped iff some division lists it, and to a division that lists it |
| League.TeamOf | src/Classes/FantasyLeague.py:60-66 | a team's short name comes from its name, and its seed and division are looked up under that short name |
| League.BuildTeam | src/Classes/FantasyLeague.py:60-66 | building a user's team raises exactly when its name has fewer than two words (the constructor as written); otherwise it is the team `TeamOf` describes |
| League.RetrieveTeams | src/Classes/FantasyLeague.py:53-67 | the user loop raises iff a user with a truthy roster id has no team name or a team name of fewer than two words; otherwise it fills the dict with the users' assignments in order |
| League.OneWordTeamRaises | src/Classes/FantasyLeague.py:58-66 | a user owning roster 1 with the team name "Bears" makes the retrieval raise |
| League.RetrievedTeams | src/Classes/FantasyLeague.py:53-67 | when the retrieval succeeds (so every claimed team name has two or more words): each roster id is a key once; it is a key iff some user claims it with a truthy id; every team is fresh and named after its user |
| League.LastUserWins | src/Classes/FantasyLeague.py:53-67 | when the retrieval succeeds (every claimed team name has two or more words), the last user to claim a roster id decides its team |
| League.RosterIdsIn | src/Classes/FantasyLeague.py:79-81 | the listed roster ids are exactly those of teams in the division |
| League.DivisionMap | src/Classes/FantasyLeague.py:72-81 | each division name is a key once; a name is a key iff it is configured; its value lists the roster ids of the division's teams |
| League.DivisionMapExact | src/Classes/FantasyLeague.py:72-81 | for the retrieved teams (every claimed team name has two or more words), `division_map[d]` holds roster id x iff team x has division d |
| League.RankWeek | src/Classes/FantasyLeague.py:106-111 | the ranked list is the week's performances reordered by points, highest first; ranks are 1..n in order; more points give a strictly smaller rank |
| League.RankWeekStable | src/Classes/FantasyLeague.py:107 | performances with equal points keep their input order in the ranking (Python's `list.sort` is stable, also with `reverse=True`) |
| League.Group | src/Classes/FantasyLeague.py:114-119 | the group of a matchup holds exactly the ranked performances with that matchup id |
| League.MatchupMapGroups | src/Classes/FantasyLeague.py:113-119 | the matchup map holds under m exactly the group of m, and nothing for a matchup id no performance carries |
| League.FirstOther | src/Classes/FantasyLeague.py:129-133 | the position of the first entry from another roster, or none when every entry is the roster's own |
| League.OpponentOf | src/Classes/FantasyLeague.py:121-137 | the opponent is the first performance of the same matchup from another roster; there is none iff every performance of the matchup is the roster's own |
| League.Outcome | src/Classes/FantasyLeague.py:122-141 | the week records points, rank and the opponent's points and rank; it wins iff it outscored the opponent; no opponent gives no performance |
| League.HeadToHead | src/Classes/FantasyLeague.py:121-141 | in a two-roster matchup each is the other's opponent, both record the week and at most one wins |
| League.ApplyRaises | src/Classes/FantasyLeague.py:139-142 | the insertion loop raises iff a roster with a team has no opponent |
| League.ApplyKeys | src/Classes/FantasyLeague.py:139-142 | the insertion loop keeps the rosters and their order |
| League.ApplyPerTeam | src/Classes/FantasyLeague.py:139-142 | each team gets exactly its own performances, inserted in order; a roster without a team gets none |
| League.RetrieveScoring | src/Classes/FantasyLeague.py:90-142 | scoring never adds or removes a roster |
| League.ScoringRecordsPastWeeks | src/Classes/FantasyLeague.py:90 | scoring fresh teams leaves every team consistent, with every week between 1 and currentWeek - 1 |
| League.GetTeamScores | src/Classes/FantasyLeague.py:162-166 | the points of the first team with the short name, or an empty list when none has it |
| League.WeekScores | src/Classes/FantasyLeague.py:153-160 | one row per team in dict order, with its short name and its entry for the week; it raises iff some team has no entry |
| League.WeekScoresOfScoredWeeks | src/Classes/FantasyLeague.py:153-160 | once every team holds weeks 1..n, any week up to n reads back as that week's performances |
| LeagueScript.MinRanks | FantasyLeague.py:62 | a row's rank is one plus the number of rows of its week that scored more |
| LeagueScript.MinRanksOrder | FantasyLeague.py:62 | within a week, ranks lie in 1..(rows of the week), tied points share a rank, and more points give a strictly smaller rank |
| LeagueScript.TopScoreRanksFirst | FantasyLeague.py:62 | the best score of a week has rank 1 |
| LeagueScript.MinRankAtMostRank | FantasyLeague.py:62 | the tie-sharing rank of a performance never exceeds its distinct rank in the league object, and equals it without ties |
| LeagueScript.AbovePermutation | FantasyLeague.py:62 | the number of scores above a threshold does not depend on row order |
| LeagueScript.WinProbs | FantasyLeague.py:63 | each row's win probability is `(N - rank) / (N - 1)` of its min-rank |
| LeagueScript.WinProbsOrder | FantasyLeague.py:62-63 | the probabilities lie in [0, 1]; tied points get equal probabilities and more points a strictly larger one |
| LeagueScript.RowLossProb | FantasyLeague.py:74 | the loss factor `1 - win_prob` of a row is the number of that week's rows that outscored it, divided by n - 1 |
| LeagueScript.RosterRowsExact | FantasyLeague.py:73-74 | the selected rows are exactly the roster's rows (none missed, none foreign), each once, in row order |
| LeagueScript.RosterWinProbs | FantasyLeague.py:73-74 | entry k is the probability at the roster's k-th row, so there is one entry per row of the roster, in row order, and each comes from a row of that roster |
| LeagueScript.RosterExpectedWinsBounds | FantasyLeague.py:62-87 | each roster's probabilities lie in [0, 1], and its expected wins lie between 0 and its number of weeks |
| LeagueScript.GroupMassIsBucket | FantasyLeague.py:71-79 | the per-(roster, n_wins) sum of scenario masses is the bucket of that many wins |
| LeagueScript.ProbTableIsProbNWins | FantasyLeague.py:65-79 | the script's table is the win-count distribution of the metrics, summing to one and non-negative for probabilities |
| LeagueScript.ExpectedWins | FantasyLeague.py:13-16 | `exp_w`, the sum of n·P(n), equals the sum of the weekly win probabilities |
| LeagueScript.ExpectedWinsBounds | FantasyLeague.py:87 | probabilities in [0, 1] give expected wins between 0 and the number of weeks |
| LeagueScript.DeltaW | FantasyLeague.py:102 | delta_w is the sum of the weekly probabilities minus the wins, positive iff expected wins exceed the wins |
| LeagueScript.MergeSeeding | FantasyLeague.py:106 | the merge holds exactly the rows joined with each seeding entry of the same short name |
| LeagueScript.CustomSeeding | FantasyLeague.py:104-107 | the seeded table is a permutation of the merge, ordered by seed ascending |
| LeagueScript.CustomSeedingRows | FantasyLeague.py:104-107 | the seeded table holds exactly the rows that have a seeding entry, each with that entry's seed |

## Left out

- HTTP requests, JSON decoding and configuration files. Their results are inputs: users, rosters, seeding and division entries, the current week, and a `fetch` function giving each week's matchups.
- pandas frame shaping:
  - `getScoringDf`, `getTeamsDf`, `getTeamsData`;
  - the `mean`/`std` aggregation of `calculate_metrics` (pandas' std is the sample form);
  - the merge with the metrics frame.
  Only the arithmetic these frames carry is modelled.
- Charts (Charts.py, src/Classes/Charts.py), the Streamlit pages and the entry scripts: rendering and wiring.
- Floating point: everything is exact `real` arithmetic. The `** 0.5` of the standard deviation is left out; the model stops at the variance.
- The `print` calls in the head-to-head comparisons.
- Timsort under a non-transitive comparator. A stable insertion sort stands in for it. The comparability requirements (`DivisionComparable`, `LeagueComparable`) cover every pair of distinct teams, more than the pairs Timsort actually compares.
- Scenario enumeration order: `itertools.combinations` lists scenarios by size, the model lists them by the last week. The tallies are sums, and in exact arithmetic they do not depend on that order.
- `ExpectedWinsCriteria` reads the key "CEW", and the calculator reads "expw" from `Team.to_dict`. `MetricsManager.to_dict` calls `compute()` without arguments and cannot produce that dict. Expected wins is therefore a plain field of the seeded team.
- src/Metrics.py `AverageMetric` calls `points.get` and fails. src/Metrics.py imports `src.Team`, which is not part of this model. Only its variance, expected wins and win-count distribution are modelled.
- The head-to-head "no history" value -1: the code treats it as a tie (neither above 0.5 nor in [0, 0.5)), and so does the model.
- Nothing in the code checks that probabilities lie in [0, 1], that the league has more than one team, or that ranks lie in 1..N; the model adds no such checks. `RankProbability.WinProb` requires at least two teams, because one team divides by zero.
- In src/Classes/Metrics.py an empty list is never computed (`Metric.__init__` returns early), and `Metrics.NewMetric` models that; the stale src/Metrics.py gives `[1.0]` for no weeks, which `WinDistribution.ProbNWinsNoWeeks` states.
- `Team.to_dict` and `getTeamsData` merge the metrics dict; they are left out with the broken `MetricsManager.to_dict`.
- A user's missing `metadata`: `team_name` is then None. Splitting it raises, which the model treats as the same failure as a missing team name.
- The default seeding branch of the script sorts by `[["wins", "avg"]]`, a list inside a list, which pandas rejects. It is not modelled.
- pandas' `sort_values` defaults to quicksort, which is not stable. `LeagueScript.CustomSeeding` uses a stable sort; equal seeds may come out in another order in pandas.
- The script's short name (`.str[1]` of the split name) is not modelled; rows carry their short name.
- Python's `str.split()` also splits on the separators of Unicode categories that the `Names.IsSpace` list may not match exactly for every code point; the list covers the ASCII and common Unicode spaces.
- `Team.GetWeek` models Python's negative indices for weeks below 1 instead of assuming weeks of at least 1.
- LeagueScript.RosterWinProbs: the script selects a roster's rows by week number (`isin(scenario)`). The model indexes the roster's probabilities by row position, so week w is position w - 1 only when the roster has one row per week 1..W in week order.
- LeagueScript.MinRanks: the script groups rows by week inside pandas. The model recounts the week's rows for each row and does not model the integer cast of pandas' float ranks.
- Metrics.Median: the contract gives membership only for odd counts; `Metrics.MedianOfSorted` and `Metrics.MedianIgnoresOrder` state the rest.
- Metrics.ExpectedWins: stated as count times mean; its tie to the distribution is `Metrics.ExpectedWinsIsMean`.
- League.RetrieveScoring: its contract keeps the rosters only; what each team records is stated by `League.ScoringRecordsPastWeeks` and `League.ApplyPerTeam`.
- The variance identity Var = E[x²] - E[x]² is not proved.
- Last-5 average, strength of schedule and domain-error types have no code and are not modelled.

## Findings

| source | as written | input that shows it | evidently intended | confidence | as-written member | corrected member |
|---|---|---|---|---|---|---|
| src/Classes/Team.py:43 | the short name is `team_name.split()[1]`, which raises an IndexError for a one-word name | the team name "Bears" | the second word, or the whole name when there is none, as src/Classes/FantasyLeague.py:60 computes before building the team | high, not executed | Team.NewTeamAsWritten | Team.NewTeam |
