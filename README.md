# Values app core, modelled in Dafny

The values app lets a person sort 33 value cards. They can drag cards across three
importance columns or answer a series of "which matters more?" questions.
A Bradley-Terry engine chooses the questions, updates card strengths and decides
when to stop. This project models the following:

- the three-column board (`lib/values.ts`, `lib/columnUtils.ts`, and the board
  balance and drag-over step of `app/page.tsx`);
- the doubly linked list that stores a card order (`lib/linkedList.ts`);
- plural rules and message lookup of the translation function (`lib/localeProvider.tsx`);
- the pairwise-comparison engine (`lib/bradleyTerry.ts`).

Modules, one per concern:

| module | file | models |
|---|---|---|
| `Common` | common.dfy | `Option`, card ids, `Distinct`, `Sum` |
| `Values` | values.dfy | column distribution, Fisher-Yates shuffle, initial layout |
| `ColumnUtils` | column_utils.dfy | the in-place three-pass balance, columns from an order, flatten, find |
| `Page` | page.dfy | the page's own balance (target 11) and the column move of `handleDragOver` |
| `LinkedList` | linked_list.dfy | building the list and walking it back |
| `LocaleProvider` | locale_provider.dfy | `getPluralKey`, key split and lookup, plural variant, `{{name}}` substitution |
| `PreferenceGraph` | preference_graph.dfy | the win graph and the breadth-first cycle test |
| `Ranking` | ranking.dfy | the stable sort by strength behind `getTopK` and `getFinalRanking` |
| `KendallTau` | kendall_tau.dfy | Kendall's tau between two rankings |
| `BradleyTerry` | bradley_terry.dfy | engine state, `initBradleyTerry`, `updateAfterComparison` |
| `Selection` | selection.dfy | `calculateSelectionScore` and `selectNextPair` |
| `Stopping` | stopping.dfy | `shouldStop`, extended maximum, inconsistency level, confidence, final ranking |

Code that mutates in place stays imperative in the model. Examples are the
column-balancing `while` loops, the breadth-first search, the linked-list walk
and the selection loops. Each such method is proved against a specification
function, and the properties are proved about that function.

The engine uses `Math.exp`, `Math.sqrt` and `Math.log`. These become a
parameter `m: Numerics`: total tables of reals for the three functions. The
predicate `Lawful(m)` asks only what the proofs use:
- `exp` is positive;
- `sqrt` is positive on positive arguments and increasing.

`ExpIncreasing` and `LogLaws` are extra assumptions, taken only by the lemmas that need them.

## Model

| member | source | states |
|---|---|---|
| Values.DistributionIsEvenSplit | lib/values.ts:12-29 | the distribution has three counts that sum to the total, are non-increasing left to right and differ by at most one |
| Values.EvenSplitUnique | lib/values.ts:12-29 | any three counts with those properties are exactly the distribution: the remainder goes to the leftmost columns |
| Values.DistributionOfThirtyThree | lib/values.ts:12-29 | 33 cards are laid out 11, 11, 11 |
| Values.CalculateColumnDistribution | lib/values.ts:12-29 | the push loop returns that even split |
| Values.ShuffleArray | lib/values.ts:32-39 | the Fisher-Yates loop, with its random draws as a parameter, returns the shuffle those draws select, which is a permutation of its input of the same length |
| Values.ShuffleInPlace | lib/values.ts:34-37 | the swap loop leaves the array holding the shuffle of its old contents |
| Values.ShufflePermutes | lib/values.ts:32-39 | every run of swaps from the last position down keeps the length and the multiset of the input |
| Values.SwapPartner | lib/values.ts:35 | the random swap partner `floor(r*(i+1))` never lies beyond `i` |
| Values.SwapKeepsMultiset | lib/values.ts:36 | swapping two positions keeps the multiset |
| Values.InitializeColumns | lib/values.ts:42-56 | the three columns are the consecutive slices of the shuffled card ids, sized by the distribution: concatenated they are exactly the shuffle, so they hold exactly the card ids |
| Values.SlicesOf | lib/values.ts:50-54 | the three `slice` calls cut a list into pieces of the distribution's sizes whose concatenation is the list |
| ColumnUtils.OverflowRightLoop | lib/columnUtils.ts:23-26 | popping overflow into the next column's front gives `OverflowRight` of the old columns |
| ColumnUtils.OverflowLeftLoop | lib/columnUtils.ts:35-38 | shifting overflow onto the previous column's end gives `OverflowLeft` of the old columns |
| ColumnUtils.FillFromNextLoop | lib/columnUtils.ts:46-49 | filling from the next column's front gives `FillFromNext` of the old columns |
| ColumnUtils.BalanceTo | lib/columnUtils.ts:17-50 | the three passes leave the shared column arrays equal to `Balanced` of the old columns |
| ColumnUtils.ShiftTailRightFlatten | lib/columnUtils.ts:24-25 | moving a column's tail to the next column's front keeps the flattened order |
| ColumnUtils.ShiftHeadLeftFlatten | lib/columnUtils.ts:36-37 | moving a column's head to the previous column's end keeps the flattened order |
| ColumnUtils.RightPassFlatten | lib/columnUtils.ts:18-27 | the left-to-right pass keeps the flattened order |
| ColumnUtils.LeftPassFlatten | lib/columnUtils.ts:30-39 | the right-to-left pass keeps the flattened order |
| ColumnUtils.FillPassFlatten | lib/columnUtils.ts:42-50 | the fill pass keeps the flattened order |
| ColumnUtils.BalancedKeepsOrder | lib/columnUtils.ts:17-50 | balancing never reorders cards, it only moves column boundaries |
| ColumnUtils.BalancedLengths | lib/columnUtils.ts:17-50 | the second and third columns end at or below their targets, and all three reach them when the targets sum to the card count |
| ColumnUtils.BalancedReachesTargets | lib/columnUtils.ts:17-50 | with targets summing to the card count, every column ends at its target |
| ColumnUtils.BalancedIsCut | lib/columnUtils.ts:17-50 | the result is then the flattened order cut at the targets |
| ColumnUtils.BalancedAtTargets | lib/columnUtils.ts:17-50 | a board already at its targets is left unchanged |
| ColumnUtils.BalanceColumns | lib/columnUtils.ts:10-53 | the board keeps its card order and ends at the even distribution of its card count |
| ColumnUtils.BalanceIdempotent | lib/columnUtils.ts:10-53 | balancing a balanced board changes nothing |
| ColumnUtils.CutFlatten | lib/columnUtils.ts:55-78 | flattening the columns cut from an order gives that order back |
| ColumnUtils.BoardFromFlatten | lib/columnUtils.ts:55-78 | cutting a flattened board at its own lengths gives the board back |
| ColumnUtils.ColumnsFromOrder | lib/columnUtils.ts:55-71 | the cursor loop returns columns that flatten back to the order and are sized by the distribution |
| ColumnUtils.FlattenColumns | lib/columnUtils.ts:73-78 | the result is the columns appended in display order, with length the sum of the column lengths |
| ColumnUtils.FirstHolding | lib/columnUtils.ts:80-87 | the first column holding a card, or none exactly when no column holds it |
| ColumnUtils.FindColumnForCard | lib/columnUtils.ts:80-87 | null exactly when no column holds the card, otherwise the first column that does |
| Page.BalanceColumns | app/page.tsx:133-173 | the closure keeps the card order and caps the last two columns at 11; with 33 cards all three end at 11; a board at 11/11/11 is unchanged |
| Page.PageBalanceKeepsOrder | app/page.tsx:133-173 | the page balance never reorders cards |
| Page.PageBalanceCaps | app/page.tsx:137-170 | the second and third columns end with at most 11 cards, and with 33 cards all three hold 11 |
| Page.PageBalanceAgreesWithLibrary | app/page.tsx:133-173 | with 33 cards the page balance gives the same board as the library balance |
| Page.ColumnNamed | app/page.tsx:198-199 | recognises exactly the three column names as drop targets |
| Page.TargetColumn | app/page.tsx:196-209 | a column name wins, then the first column holding the hovered card, otherwise the source column |
| Page.IndexOf | app/page.tsx:219 | the first position of a card, or none exactly when the card is absent |
| Page.Without | app/page.tsx:216 | the filtered column no longer holds the card |
| Page.WithoutMultiset | app/page.tsx:216 | the filter removes every copy of the card and nothing else |
| Page.InsertAtMultiset | app/page.tsx:219-224 | splicing the card in adds exactly that card |
| Page.MoveAcrossPlaces | app/page.tsx:212-224 | the card leaves its source column and sits just before the hovered card in the target, or last; the target's other cards keep their order and the third column is untouched |
| Page.MoveAcrossKeepsCards | app/page.tsx:212-224 | a cross-column move keeps the board's multiset of cards |
| Page.DragOverKeepsCards | app/page.tsx:185-227 | a drag-over never loses or duplicates a card; after a move the last two columns hold at most 11 cards, and with 33 cards all three hold 11 |
| Page.ColumnHolding | app/page.tsx:187-192 | the scan over the columns finds the first column holding the id, or none when no column does |
| Page.MoveCard | app/page.tsx:213-224 | filtering the card out of the source and splicing it into the target leaves the board at the cross-column move |
| Page.MoveAcrossColumns | app/page.tsx:213-224 | the source column loses the card, the target gains exactly one copy, the third column is untouched |
| Page.HandleDragOver | app/page.tsx:175-231 | no droppable leaves the board unchanged; otherwise the board becomes the drag-over result |
| LinkedList.Link | lib/linkedList.ts:18-30 | the node record has exactly the ids of the order as keys |
| LinkedList.LinkShape | lib/linkedList.ts:18-30 | for distinct non-empty ids, each node's neighbours are the ids before and after it |
| LinkedList.CreateLinkedListFromOrder | lib/linkedList.ts:14-41 | the forEach builds that record; head and tail are the first and last ids, or null for an empty order; the length is the order's |
| LinkedList.LinkedListToArray | lib/linkedList.ts:43-59 | the walk returns the traversal: it starts at the head, follows `nextId`, has no repeats and stops at a falsy, missing or revisited id |
| LinkedList.TraversalUnique | lib/linkedList.ts:43-59 | a list has exactly one traversal |
| LinkedList.FromOrderTraversal | lib/linkedList.ts:14-59 | the list built from distinct non-empty ids traverses to those ids |
| LinkedList.RoundTrip | lib/linkedList.ts:14-59 | building a list and reading it back returns the order |
| LocaleProvider.JsRem | lib/localeProvider.tsx:30-31 | JavaScript `%` agrees with Dafny's on non-negative numbers and stays strictly inside (-m, m) |
| LocaleProvider.PluralKey | lib/localeProvider.tsx:24-46 | the key is always one of one, few, many and other |
| LocaleProvider.EnglishPlural | lib/localeProvider.tsx:25-27 | English gives "one" exactly for a count of 1 and "other" otherwise |
| LocaleProvider.RussianPluralIsCldr | lib/localeProvider.tsx:29-43 | on non-negative counts the Russian rule is the CLDR rule: 11-14 (mod 100) many, 1 (mod 10) one, 2-4 (mod 10) few, the rest many |
| LocaleProvider.RussianExamples | lib/localeProvider.tsx:29-43 | 11 gives many, 21 one, 22 few, 25 many |
| LocaleProvider.OtherLocalePlural | lib/localeProvider.tsx:45 | any other locale gives "other" |
| LocaleProvider.JoinSplit | lib/localeProvider.tsx:59 | joining the pieces of `key.split('.')` with dots gives the key back |
| LocaleProvider.SplitJoin | lib/localeProvider.tsx:59 | splitting dot-joined pieces without dots gives the pieces back |
| LocaleProvider.ResolveAppend | lib/localeProvider.tsx:62-64 | following a path in two parts is following the whole path |
| LocaleProvider.ResolveMissing | lib/localeProvider.tsx:63 | once a step is undefined, the rest of the lookup stays undefined |
| LocaleProvider.Step | lib/localeProvider.tsx:62-64 | one `value?.[k]`: undefined stays undefined; a table gives its entry or undefined; a text gives its character at a canonical index key below its length, and undefined for any other key |
| LocaleProvider.IndexKeyOfDecimal | lib/localeProvider.tsx:63 | the decimal form of every natural number is a canonical index key for that number |
| LocaleProvider.DecimalOfIndexKey | lib/localeProvider.tsx:63 | every canonical index key is the decimal form of the index it denotes, so no other spelling (a leading zero, a sign) indexes a text |
| LocaleProvider.CharacterOfText | lib/localeProvider.tsx:60-64 | a path that reaches a text, followed by the decimal index of one of its characters, resolves to that one-character text |
| LocaleProvider.FirstCharacterKey | lib/localeProvider.tsx:58-66 | in a one-entry table holding a non-empty text under `w`, the key `w.0` resolves to the text's first character |
| LocaleProvider.Lookup | lib/localeProvider.tsx:60-64 | the optional-chaining loop reaches exactly what the key path resolves to |
| LocaleProvider.WordRun | lib/localeProvider.tsx:92 | the longest prefix of word characters `\w` |
| LocaleProvider.WordRunOfWord | lib/localeProvider.tsx:92 | a word followed by a non-word character has that word as its run |
| LocaleProvider.PlaceholderAt | lib/localeProvider.tsx:92 | a match is a non-empty run of word characters inside double braces |
| LocaleProvider.SubstituteNoPlaceholder | lib/localeProvider.tsx:92-94 | a text without placeholders comes back unchanged |
| LocaleProvider.SubstituteNothingToFill | lib/localeProvider.tsx:93 | when every parameter renders empty, each placeholder is kept as written, so the text is unchanged |
| LocaleProvider.SubstituteOne | lib/localeProvider.tsx:92-94 | a lone placeholder becomes its parameter's text |
| LocaleProvider.PluralSiblingPath | lib/localeProvider.tsx:77-85 | the plural variant is the entry `<last key>_<plural key>` of the parent table |
| LocaleProvider.Translate | lib/localeProvider.tsx:58-95 | a key that resolves to nothing or to a table returns the key, and one that indexes a character of a text gives that character; without a numeric count the text is substituted; with one, a truthy text variant replaces the text, and a table variant is the thrown TypeError |
| PreferenceGraph.ReachableStep | lib/bradleyTerry.ts:105-111 | a path extended by one edge is a path |
| PreferenceGraph.ClosedBlocks | lib/bradleyTerry.ts:96-115 | no path leads out of a set closed under edges |
| PreferenceGraph.PushNeighbours | lib/bradleyTerry.ts:105-112 | after the inner loop every out-neighbour of the current node is visited or queued, the queue keeps its entries, and all of them are reachable from the loser |
| PreferenceGraph.WouldCreateCycle | lib/bradleyTerry.ts:90-116 | the breadth-first search answers true exactly when the winner can be reached from the loser |
| PreferenceGraph.AddEdgeEdges | lib/bradleyTerry.ts:246-252 | adding an edge adds exactly that edge |
| PreferenceGraph.AddEdgeIdempotent | lib/bradleyTerry.ts:246-252 | adding the same edge twice is adding it once |
| PreferenceGraph.ThreeCycle | lib/bradleyTerry.ts:90-116 | after "a beats b" and "b beats c", neither of which closes a cycle, the answer "c beats a" would |
| Ranking.InsertByStrength | lib/bradleyTerry.ts:508-510 | insertion adds exactly the new id |
| Ranking.SortByStrength | lib/bradleyTerry.ts:136-141 | the sort is a permutation of its input |
| Ranking.InsertKeepsOrder | lib/bradleyTerry.ts:508-510 | insertion keeps a list strongest-first |
| Ranking.SortIsOrdered | lib/bradleyTerry.ts:508-510 | the sort orders by strength, strongest first |
| Ranking.SortIsStable | lib/bradleyTerry.ts:508-510 | ids of equal strength keep their input order, as in a stable `Array.prototype.sort` |
| Ranking.SortIsUnique | lib/bradleyTerry.ts:508-510 | any strongest-first permutation that keeps equal strengths in input order is the sort |
| Ranking.SameLayers | lib/bradleyTerry.ts:508-510 | two strongest-first lists with the same ids at every strength are equal |
| Ranking.TopK | lib/bradleyTerry.ts:136-141 | the top k list has length k, or the number of cards when there are fewer |
| Ranking.TopKIsTop | lib/bradleyTerry.ts:136-141 | the top k are the head of the sorted order and are at least as strong as every card left out |
| KendallTau.LastIndex | lib/bradleyTerry.ts:322 | an index holding the id, and none exactly when the id is absent |
| KendallTau.LastIndexIsLast | lib/bradleyTerry.ts:322 | no later entry holds the id: the `Map` keeps the last index of a repeated id |
| KendallTau.Compare | lib/bradleyTerry.ts:333-344 | a pair is skipped when an id is missing, and is concordant exactly when it keeps its order |
| KendallTau.PositionMap | lib/bradleyTerry.ts:321-322 | the position map holds exactly the ids, each at its last index |
| KendallTau.KendallTau | lib/bradleyTerry.ts:316-352 | the two nested loops compute tau |
| KendallTau.TauBounds | lib/bradleyTerry.ts:316-352 | tau lies between -1 and 1 |
| KendallTau.TauOfItself | lib/bradleyTerry.ts:316-352 | a duplicate-free ranking of two or more has tau 1 with itself |
| KendallTau.TauOfReverse | lib/bradleyTerry.ts:316-352 | and tau -1 with its reverse |
| KendallTau.TauDegenerate | lib/bradleyTerry.ts:317-318 | rankings of different lengths, or shorter than 2, give 0 |
| KendallTau.TotalBound | lib/bradleyTerry.ts:328-346 | concordant plus discordant pairs never exceed the number of pairs |
| KendallTau.RowsClosedForm | lib/bradleyTerry.ts:348 | the pairs visited number n(n-1)/2 |
| BradleyTerry.Probability | lib/bradleyTerry.ts:80-84 | the win probability lies strictly between 0 and 1 |
| BradleyTerry.ProbabilityComplement | lib/bradleyTerry.ts:80-84 | P(a beats b) + P(b beats a) = 1 |
| BradleyTerry.ProbabilityFavoursStronger | lib/bradleyTerry.ts:80-84 | with an increasing exp, P(a beats b) > 1/2 exactly when a is stronger, and equal strengths give 1/2 |
| BradleyTerry.Uncertainty | lib/bradleyTerry.ts:59 | sigma = 1/sqrt(information) is positive |
| BradleyTerry.UncertaintyFalls | lib/bradleyTerry.ts:277-278 | more information gives a smaller sigma |
| BradleyTerry.InitBradleyTerry | lib/bradleyTerry.ts:46-78 | a fresh valid state: every card at strength 0, information 0.01, never seen, empty histories and graph; the defaults are ceil(0.8n) and 2n comparisons |
| BradleyTerry.ValidIsRated | lib/bradleyTerry.ts:46-78 | a valid state has a strength, an information value and a positive sigma for every card |
| BradleyTerry.LearningRate | lib/bradleyTerry.ts:261-262 | the rate lies in (0, 0.15] and is 0.15 while no cycle has been seen |
| BradleyTerry.Information | lib/bradleyTerry.ts:273-274 | p(1-p) is positive |
| BradleyTerry.InformationSymmetric | lib/bradleyTerry.ts:273-274 | winner and loser gain the same information |
| BradleyTerry.CalculateLogLikelihood | lib/bradleyTerry.ts:121-131 | the accumulating loop computes the log-likelihood of the history |
| BradleyTerry.LogLikelihoodBounds | lib/bradleyTerry.ts:121-131 | under monotone log laws, the log-likelihood lies between n*log(0.0001) and 0 |
| BradleyTerry.Step | lib/bradleyTerry.ts:219-298 | one more comparison used and at most one more cycle; the history grows by one entry, the new comparison, appended after the old ones; the cards and the comparison limits are unchanged |
| BradleyTerry.UpdateAfterComparison | lib/bradleyTerry.ts:219-298 | the copied state is updated to the step function of the old state |
| BradleyTerry.RateMovesStrengths | lib/bradleyTerry.ts:264-270 | the winner gains exactly what the loser loses, and no other strength moves |
| BradleyTerry.RateCentred | lib/bradleyTerry.ts:264-270 | the sum of all strengths is unchanged |
| BradleyTerry.RateSharpens | lib/bradleyTerry.ts:272-278 | the winner gains p(1-p) and the loser gains (1-p)p, the same information; both end with a smaller sigma |
| BradleyTerry.CalibratedStep | lib/bradleyTerry.ts:236-238 | information and sigma stay in step with the appearance counts: an unseen card keeps information 0.01 and sigma 1/sqrt(0.01), and a compared card has more information and sigma 1/sqrt(information + 0.01) |
| BradleyTerry.HistoryStep | lib/bradleyTerry.ts:236-252 | one comparison adds its edge, counts a cycle exactly when the loser already reached the winner, and adds one mention to each player |
| BradleyTerry.CountedStep | lib/bradleyTerry.ts:236-238 | the appearance counts stay equal to the number of mentions in the history |
| BradleyTerry.StepRecords | lib/bradleyTerry.ts:236-295 | after a step, graph, cycle count and appearance counts still agree with the history |
| BradleyTerry.StepKeepsValid | lib/bradleyTerry.ts:219-298 | a comparison of two distinct known cards keeps the state valid |
| BradleyTerry.ComparedIsSurer | lib/bradleyTerry.ts:272-278 | a card that has been compared is less uncertain than a fresh one |
| BradleyTerry.CyclesBounded | lib/bradleyTerry.ts:241-243 | there are never more cycles than comparisons |
| BradleyTerry.MentionsTotal | lib/bradleyTerry.ts:236-238 | over the card list, the mentions add up to twice the number of comparisons |
| BradleyTerry.AppearancesTotal | lib/bradleyTerry.ts:236-295 | in a valid state, appearances sum to 2 * used and the cycle count is at most used |
| Selection.TopBonus | lib/bradleyTerry.ts:156-159 | the factor is 1.5 for a top-11 card and 1 otherwise |
| Selection.Closeness | lib/bradleyTerry.ts:152 | 1 - 2abs(p - 1/2) lies in (0, 1] and is 1 exactly at p = 1/2 |
| Selection.CoverageBonus | lib/bradleyTerry.ts:162-164 | 1/(1 + 0.1 min) lies in (0, 1] and is 1 exactly when one card is unseen |
| Selection.Score | lib/bradleyTerry.ts:146-167 | while some uncertainty is left, the score is positive and at most 2.25 times the summed sigmas |
| Selection.ScoreSymmetric | lib/bradleyTerry.ts:146-167 | the selection score of (i, j) equals that of (j, i) |
| Selection.Uncovered | lib/bradleyTerry.ts:173-175 | the unseen cards, in card order: exactly the ids with appearance count 0 |
| Selection.BestPartnerIsBest | lib/bradleyTerry.ts:182-196 | none exactly when every card is the unseen one; otherwise a different card with the largest sigma |
| Selection.BestPartner | lib/bradleyTerry.ts:185-195 | the partner loop returns that best partner |
| Selection.RowsAre | lib/bradleyTerry.ts:203-214 | the nested loops visit exactly the pairs (ids[i], ids[j]) with i < j |
| Selection.CandidatesExist | lib/bradleyTerry.ts:203-214 | there is a pair to visit exactly when there are two cards |
| Selection.ScoreTable | lib/bradleyTerry.ts:207 | a score for exactly the visited pairs |
| Selection.BestPairIsBest | lib/bradleyTerry.ts:209-212 | the first pair with the highest score is kept: it scores at least every pair, and strictly more than every earlier one |
| Selection.BestPair | lib/bradleyTerry.ts:199-216 | the nested loops return that best pair |
| Selection.SelectNextPair | lib/bradleyTerry.ts:169-217 | the method returns the three-tier selection |
| Selection.SelectionIsPair | lib/bradleyTerry.ts:169-217 | with distinct ids, a pair comes back exactly when there are two cards, and it is two different known cards |
| Selection.SelectionTiers | lib/bradleyTerry.ts:169-217 | two unseen cards give the first two of them; a lone unseen card is paired with the most uncertain other card; otherwise the pair has the highest score |
| Selection.LoneCardIsPairedWithUndefined | lib/bradleyTerry.ts:182-196 | as written, a one-card deck gives [id, undefined]; the corrected selection gives null |
| Selection.SelectionAsWritten | lib/bradleyTerry.ts:169-217 | as written, both returned cards come from the deck; the second is `undefined` only when every card is the first one; null comes back exactly when there are fewer than two cards and none is unseen |
| Selection.AsWrittenAgrees | lib/bradleyTerry.ts:169-217 | with two or more distinct cards, the code as written and the corrected selection agree |
| Stopping.CycleRatio | lib/bradleyTerry.ts:359 | the cycle ratio is never negative |
| Stopping.ExtendedMaxByCounts | lib/bradleyTerry.ts:356-367 | the limit is extended exactly when 10 * cycles > used, and then becomes floor(1.5 max); it never shrinks |
| Stopping.LevelByCounts | lib/bradleyTerry.ts:456-462 | consistent below 5% cycles, some inconsistency up to 15%, inconsistent beyond; an extended limit is never consistent |
| Stopping.WindowVariance | lib/bradleyTerry.ts:304-310 | Infinity exactly when there are fewer than five values, otherwise a non-negative variance |
| Stopping.SteadyWindow | lib/bradleyTerry.ts:304-310 | five equal last values give variance 0 |
| Stopping.MaxSigmaBelow | lib/bradleyTerry.ts:397-403 | `Math.max(...)` is below a bound exactly when every sigma is |
| Stopping.HasExtended | lib/bradleyTerry.ts:523-526 | the limit is only extended once some comparison has been used and some cycle counted |
| Stopping.ExtendedMax | lib/bradleyTerry.ts:358-367 | the effective maximum is never below the configured maximum |
| Stopping.InconsistencyLevel | lib/bradleyTerry.ts:456-462 | a consistent user never has an extended limit, and an inconsistent one always has |
| Stopping.ShouldStop | lib/bradleyTerry.ts:372-439 | never stop before the minimum; always stop once the effective maximum is reached |
| Stopping.EarlyStopIsSettled | lib/bradleyTerry.ts:372-439 | an early stop implies six history entries, variance < 0.0004, top-5 sigmas < 0.35, top-11 sigmas < 0.5, a stable top 3 and tau >= 0.8 |
| Stopping.SteadyRunStops | lib/bradleyTerry.ts:372-439 | past the minimum and consistent, a flat likelihood, an unchanged ranking and sigmas below 0.35 do stop the engine |
| Stopping.SigmaConfidenceFalls | lib/bradleyTerry.ts:496-497 | confidence falls as the average sigma grows; it is 1 exactly at sigma <= 0 and 0 exactly at sigma >= 2 |
| Stopping.AverageBelow | lib/bradleyTerry.ts:491-492 | an average of values below a bound is below it |
| Stopping.ConfidenceInfo | lib/bradleyTerry.ts:478-506 | all three figures lie in [0, 1] |
| Stopping.OverallProgress | lib/bradleyTerry.ts:500-503 | from a non-negative coverage and confidence, the capped mean lies in [0, 1] |
| Stopping.ConfidenceEdgeCases | lib/bradleyTerry.ts:478-506 | nothing used gives zeros; a minimum of 0 gives overall progress 1 |
| Stopping.EarlyStopIsConfident | lib/bradleyTerry.ts:478-506 | after an early stop, top-5 confidence exceeds 0.825 and top-11 confidence exceeds 0.75 |
| Stopping.FinalRanking | lib/bradleyTerry.ts:508-510 | the final ranking is a permutation of the cards |
| Stopping.FinalRankingIsSorted | lib/bradleyTerry.ts:508-510 | it is strongest first, and equal strengths keep card order |
| Stopping.FinalRankingIsUnique | lib/bradleyTerry.ts:508-510 | it is the only such ordering |

## Left out

- Floating point: numbers are exact reals or integers, so rounding, NaN, Infinity and `Math.exp` overflow are not modelled.
- The integer default limits `(4n+4)/5` and `(3max)/2` equal `Math.ceil(n*0.8)` and `Math.floor(max*1.5)` in exact arithmetic. The binary rounding of 0.8 and 1.5 is not modelled.
- `Math.exp`, `Math.sqrt` and `Math.log` are tables passed in as `Numerics`, under the laws stated above. Their real values are not computed.
- `Math.random` is a parameter: one value in [0, 1) per shuffle step.
- `getTopK` sorts `Object.entries(mu)`, so ties follow key insertion order. The model assumes this order is the card order, which holds for keys that are not integer-like strings.
- `Math.max` of an empty list, -Infinity, is `None`. The window variance of Infinity is also `None`.
- Stopping.ConfidenceInfo: the requires clause excludes an empty card list with comparisons used, where the source divides by zero and gets NaN.
- Stopping.WindowVariance: the window size is fixed at the one value the source passes, 5.
- `getInconsistencyScore` and `getInconsistencyColor` are not modelled. They are display helpers that no modelled operation calls.
- `getEffectiveMaxComparisons` just returns `getExtendedMaxComparisons`, which is modelled as `Stopping.ExtendedMax`.
- Page: React state, cookies, `localStorage`, the `over` and `active` event objects, `handleDragEnd` and `arrayMove` are not modelled. Only the column-move step of `handleDragOver` and the balance closure are.
- LocaleProvider.Translate: `console.warn` and the React context are left out. A lookup step reads own entries of tables and canonical index keys of texts only: properties inherited from the prototype (`constructor`, `toString`, `__proto__`, a text's `length`) are not modelled and resolve to undefined. A text is indexed by characters, where JavaScript indexes UTF-16 code units; the two agree on texts outside the astral planes. The parameter read `params?.[match]?.toString()` of the placeholder replacement (lib/localeProvider.tsx:93) is modelled by `Shown` in the same way: it sees only the parameters given. A placeholder named after an inherited member, such as `{{constructor}}`, `{{toString}}` or `{{__proto__}}`, is therefore kept verbatim when no parameter has that name. The source instead renders the inherited member's `toString()`, for instance `[object Object]` for `{{__proto__}}`. Only string and integer parameters are modelled. An integer renders in decimal through `Decimal`; fractional numbers are left out.
- LinkedList: node records are immutable values, so the in-place `nodes[prevId].nextId = id` is modelled as a map update. Aliasing of node objects is not captured.
- BradleyTerry.UpdateAfterComparison: the source's object spreads copy the state, so the model works on values.
- ColumnUtils.FindColumnForCard: `Object.entries` order is taken to be the display order, which is the order the columns are created in.
- Page.ColumnHolding: the same assumption holds for the two `Object.entries` scans of `handleDragOver`.
- Page.HandleDragOver: `{...columns}` at app/page.tsx:213 is a shallow copy, and only the source column is rebuilt by `filter`. The `splice` or `push` into the target column, and the `pop`, `unshift`, `shift` and `push` of the balance, therefore change arrays that the previous state still holds, so that state can end up with the card in two columns. The model has a single board and does not capture this aliasing of the previous state.

## Findings

| source | as written | input that shows it | evidently intended | confidence | as-written member | corrected member |
|---|---|---|---|---|---|---|
| lib/bradleyTerry.ts:182-196 | with exactly one unseen card, the partner is `allCardIds.find(id => id !== uncovered)!`, and the non-null assertion does not stop `undefined` | a deck of one card that has never been compared: `selectNextPair` returns `[id, undefined]` | return `null` (no pair) when no other card exists, as the third tier does for fewer than two cards | not executed | Selection.LoneCardIsPairedWithUndefined | Selection.SelectionIsPair |
