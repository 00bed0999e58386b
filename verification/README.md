# Arbitrage finder core, in Dafny

The program polls an odds provider for its list of sports. For each sport it
fetches the upcoming matches and each bookmaker's prices, and it looks for
arbitrage: a set of outcomes, one per result of a match, whose
implied-probability sum `R` is below 1. This project models the part that
decides which matches are examined and how each is classified:

- `findArbs` walks the sport list in order. It skips sports that have
  outrights, and they do not count toward the limit. Once more than 100 sports
  have been processed it stops, so at most 101 are processed. Every match of
  a processed sport goes to the classifier, in order. The arb list starts
  empty and is only ever appended to.
- `findMatchArbs` tallies, over the bookmakers of a match, the number of
  outcomes in each bookmaker's first market. It asks `findMaxKey` for the most
  frequent count. A count of 2 sends the match to the two-way routine and a
  count of 3 to the three-way routine. A count of 0 is skipped silently, and
  any other count is skipped with a console message.

The modules follow that structure:

- `Odds` holds the records: sport, match, bookmaker, market, outcome and arb.
- `Frequency` holds the `freqs[k]++` tally, the sum of a frequency map, and
  what it means to be a most frequent key.
- `Classifier` models `findMatchArbs`.
- `Orchestration` models `findArbs`.

The bodies of `findMaxKey`, `findTwoWayMatchArbs` and `findThreeWayMatchArbs`
are not part of this model. They are passed in as a `Classifier.Routines`
value:

- `findMaxKey` is only required to return a most frequent key of the maps
  the tally can produce: non-empty, with every count at least 1
  (`Frequency.ValidMaxKey`). Which most frequent key it picks is left open, but
  it is one fixed function for the whole run. The ghost `Frequency.FindMaxKey`
  shows that such a function exists. `Frequency.ZeroSeededMaxKey`, the usual Go
  picker seeded with key 0 and value 0, meets the requirement and yields 0 on
  the empty map.
- The two arbitrage routines are represented by the entries they append to
  the list.

The provider call `getSportMatches` becomes a parameter `fetch` from sport key
to matches. `FindArbs` also returns the keys it fetched, in order, so the
calls it makes are part of its contract.

The classifier reads `Markets[0]` of every bookmaker without checking it, so a
bookmaker with no market makes the program fail. The model therefore requires
(`Odds.WellFormed`) that every bookmaker of an examined match has at least one
market. Matches of sports that are never processed carry no such requirement.

## Model

| member | source | states |
|---|---|---|
| Frequency.Bump | src/main.go:72 | incrementing a key of a Go map: a missing key reads as zero and becomes 1, and every other key keeps its count |
| Frequency.Tally | src/main.go:68-73 | the keys of the frequency map are exactly the counts that occur, and each maps to its number of occurrences (multiset multiplicity) |
| Frequency.TallySum | src/main.go:68-73 | every bookmaker is counted exactly once: the frequencies sum to the number of counts tallied |
| Frequency.SumValuesRemove | src/main.go:68-73 | the sum of a frequency map equals any one key's count plus the sum over the rest |
| Frequency.SumValuesBump | src/main.go:72 | one increment adds exactly one to the total of the frequency map |
| Frequency.FindMaxKey | src/main.go:74 | on a non-empty map some key whose frequency no other key exceeds exists, so the requirement placed on `findMaxKey` can be met |
| Frequency.FindMaxKeyIsValid | src/main.go:74 | the requirement placed on `findMaxKey` is met by at least one function |
| Frequency.ScanMax | src/main.go:74 | a scan that keeps a key only on a strictly larger value returns either its seed (when nothing beats the seed value) or a key of maximal frequency |
| Frequency.ZeroSeededIsValid | src/main.go:74 | a picker seeded with key 0 and value 0 returns a most frequent key of every tally, and 0, the skipped shape, on the empty map |
| Classifier.OutcomeCounts | src/main.go:69-72 | one count per bookmaker, in bookmaker order, each the outcome count of that bookmaker's first market |
| Classifier.OutcomeFrequencies | src/main.go:68-73 | the frequency map has exactly the quoted counts as keys, maps each to the number of bookmakers quoting it, and sums to the number of bookmakers; every count is at least 1, and the map is empty exactly when the match has no bookmakers |
| Classifier.SelectedCount | src/main.go:74 | with a picker meeting the requirement, the shape of a match with bookmakers is a most frequent outcome count of its tally |
| Classifier.FindMatchArbs | src/main.go:66-89 | the arb list only grows; shape 2 appends exactly the two-way routine's entries, shape 3 exactly the three-way routine's, and every other shape (0 included) leaves the list unchanged |
| Classifier.SelectedCountIsMostFrequent | src/main.go:67-74 | the selected shape of a match with bookmakers is a count some bookmaker quotes, and no count is quoted by more bookmakers |
| Classifier.PluralityDecides | src/main.go:67-74 | a count quoted by strictly more bookmakers than any other is the selected shape, whatever the tie-break |
| Classifier.PluralityDispatch | src/main.go:74-88 | a match whose plurality count is 2 goes to the two-way routine, 3 to the three-way routine, and any other count adds nothing |
| Classifier.UnsupportedShapesAddNothing | src/main.go:76-88 | a match none of whose bookmakers quotes two or three outcomes adds no entries, whatever the tie-break |
| Classifier.FindMatchArbsAppends | src/main.go:79-84 | what a match contributes does not depend on the list it is appended to |
| Classifier.MixedShapesQuoting | src/main.go:68-73 | for five bookmakers quoting 2, 3, 2, 3, 2 outcomes, count 2 has strictly more bookmakers than any other count |
| Classifier.MixedShapesExample | src/main.go:66-89 | that mixed match is classified two-way: exactly the two-way routine's entries are appended |
| Orchestration.NonOutright | src/main.go:110-113 | dropping sports with outrights never lengthens the list |
| Orchestration.NonOutrightMembers | src/main.go:110-113 | a sport survives the outright filter exactly when it is listed and has no outrights |
| Orchestration.NonOutrightAppend | src/main.go:110-113 | the outright filter distributes over concatenation of sport lists |
| Orchestration.Processed | src/main.go:110-117 | the processed sports are a prefix of the non-outright sports, all of them when there are at most 100 and exactly 101 otherwise, none with outrights |
| Orchestration.SportKeys | src/main.go:119-122 | the keys fetched are the processed sports' keys, one per sport, in order |
| Orchestration.MatchesArbs | src/main.go:124-127 | classifying a sequence of matches only ever appends to the arb list |
| Orchestration.MatchesArbsAppend | src/main.go:124-127 | classifying two match lists one after the other is classifying their concatenation |
| Orchestration.MatchesArbsIsContributions | src/main.go:124-127 | the arb list after classifying matches is the list before, followed by each match's own contribution in match order |
| Orchestration.ClassifyMatches | src/main.go:124-127 | the loop over a sport's matches computes the fold of the classifier over them |
| Orchestration.NonOutrightStep | src/main.go:110-117 | one step of the sport loop: an outright sport leaves the eligible list unchanged, any other sport is appended to it |
| Orchestration.ProcessedStep | src/main.go:114-117 | while at most 100 sports have been processed, the next non-outright sport is processed |
| Orchestration.ProcessedDone | src/main.go:110-117 | the loop ends having processed exactly the processed sports, whether the list runs out or the limit is passed |
| Orchestration.FindArbs | src/main.go:102-134 | the fetched keys are those of the processed sports in order, at most 101; the arbs returned are those obtained by classifying every match of every processed sport in order, starting from an empty list |
| Orchestration.OutrightsDoNotCount | src/main.go:111-113 | inserting a sport with outrights anywhere in the list changes nothing that is processed |
| Orchestration.LaterSportsNotExamined | src/main.go:114-116 | once more than 100 non-outright sports precede them, later sports are never processed |

## Left out

- `getSports`, `getSportMatches`, `initDb` and the database writes and reads (`db.writeArbs`, `getArbs`) are I/O. The sport list is an input and the match fetch is the `fetch` parameter.
- `fetch` is a function of the sport key, so a sport key listed twice is taken to return the same matches both times. The provider's answers are not modelled beyond that.
- `findMaxKey`, `findTwoWayMatchArbs` and `findThreeWayMatchArbs` have bodies outside this model. The calculator, the best-price aggregation and the float64 computation of `R` live there, so prices and `R` are carried as `real` and never computed on.
- Classifier.SelectedCount: on an empty frequency map (a match with no bookmakers) nothing is required of `findMaxKey`, so that match's shape is unconstrained. The program's `findMaxKey` is expected to yield 0 there, which skips the match.
- `Arb.toString`, `showArbs`, `main`, the configuration in `config.go`, the globals `config` and `db`, and the `SOURCE_*` constants are presentation and start-up, not the arbitrage core.
- The console message printed for shapes other than 0, 2 and 3 is output only. Both branches add nothing to the arb list, and the model says so.
- Go `int` overflow of the counter and of the frequency counts is not modelled. There are at most 101 sports, and bookmaker lists are far shorter than 2^63.
- A bookmaker with no market panics in the program. The model requires every examined match to be `Odds.WellFormed` rather than modelling the panic.
- Ties for the most frequent outcome count are not broken in any stated order. The frequency map is a Go map, which has no iteration order, and the body of `findMaxKey` is outside the model. The only promise proved is that a most frequent count is chosen.
- Classifier.Routines: `findMaxKey` is one fixed function for the whole run, so two matches with equal frequency maps always get the same shape. A Go picker that ranges over the map may break the same tie differently on each call, because Go randomizes range order; `Orchestration.FindArbs` describes only runs in which the tie-break stays the same.
- Classifier.Routines: `twoWay` and `threeWay` are functions of the match alone. The Go routines receive the arb list itself (`arbs *[]Arb`, src/main.go:80 and 83); the model assumes they only append entries that depend on the match, so `Classifier.FindMatchArbsAppends` and `Orchestration.MatchesArbsIsContributions` rest on that assumption.
