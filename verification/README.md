# Triphone-coverage corpus splitter

This is a Dafny model of the prototype corpus splitter in
`data/_prototype/split.py`. The splitter divides the utterances of a speech
corpus into train, validation and test filesets. Each fileset contains every
triphone of interest, and the sizes follow a requested training fraction.
It runs as a pipeline of three steps.

1. **Indexing** (`build_triphones_indexer`, module `Triphones`). Each
   utterance's phone symbols are read in windows of three consecutive
   symbols, joined with `_`. A triphone is of interest when it occurs in at
   least `limit` utterances. The index maps each utterance to its triphones
   of interest.
2. **Initial split** (`build_initial_split`, module `InitialSplit`). The
   utterances are visited in a random order. Each one goes to the first
   fileset that gains the most triphones it does not cover yet. The pass is
   kept when the three filesets end up covering the same triphones.
   Otherwise it is restarted with a new order.
3. **Rebalancing** (`adjust_filesets`, module `Adjust`). The target sizes
   are computed from the training fraction. Oversized filesets lose
   random *movable* utterances to a pool. An utterance is movable when each
   of its triphones is carried by another member of its fileset. The pool
   is then dealt at random into undersized filesets.

Module `Split` puts the pipeline together behind the argument checks of
`split_corpus_prototype`. Module `Corpus` holds the shared vocabulary:
utterances, triphones, the index, and the coverage of a list of utterances.
Module `Wrappers` holds `Option` and `Result`.

Randomness and the source's unbounded retries are inputs:

- The initial split gets a sequence of candidate visiting orders, one per
  attempt. Each order must be a permutation of the index keys.
- The rebalancing gets one stream of natural numbers `draws`. Each draw is
  reduced modulo the length of the list being picked from, which stands for
  one `np.random.choice`.
- When no candidate order is accepted, the initial split gives `None`, and
  the whole split gives `CoverageNotReached`. This is where the source
  would keep restarting.
- When the draws run out during rebalancing, the result is `None`, and the
  whole split gives `RebalanceStalled`. The dealing loop is bounded: it
  needs one draw per utterance dealt and always finishes with that many.
  The removal loop has no bound. It keeps drawing until enough movable
  utterances have been picked, and would not end without one.

The training fraction `pct_train` is an exact fraction `num / den`.

## Model

All source paths are relative to the repository root.

| member | source | states |
|---|---|---|
| Triphones.LoadTriphones | data/_prototype/split.py:27-33 | a triphone is in an utterance's set exactly when some window of three consecutive symbols, joined with `_`, spells it; fewer than three labels give the empty set |
| Triphones.WindowsOfTail | data/_prototype/split.py:30-33 | the windows of a sequence of three or more symbols are its first window plus the windows of its tail |
| Triphones.UtteranceTriphones | data/_prototype/split.py:35-37 | every corpus utterance gets an entry, holding exactly the triphones read by its windows |
| Triphones.Frequent | data/_prototype/split.py:38-46 | a triphone is of interest exactly when the number of utterances containing it is positive and at least `limit` |
| Triphones.OccurrencesIsFrequency | data/_prototype/split.py:35-46 | counting utterances whose loaded triphone set holds `t` gives the number of utterances that have `t` as a window |
| Triphones.BuildTriphonesIndexer | data/_prototype/split.py:35-51 | the index has exactly the corpus utterances as keys; `t` is in an utterance's entry exactly when it is a window of that utterance and occurs in at least `limit` utterances |
| Triphones.IndexedTriphonesQualify | data/_prototype/split.py:43-51 | every indexed triphone occurs in at least `limit` utterances and in its own utterance's windows; the union of the index is exactly the set of triphones of interest |
| Triphones.ShortUtterancesGiveEmptyIndex | data/_prototype/split.py:30-33 | a corpus whose utterances all have fewer than three labels yields an index with empty entries and no triphone of interest |
| Triphones.TwoOfThreeScenario | data/_prototype/split.py:43-51 | with `limit` 2, a triphone shared by two utterances is kept and one found in a single utterance is dropped from every entry |
| Corpus.CoverageMember | data/_prototype/split.py:77-80 | the triphones accumulated by appending utterances are exactly those contained in some member |
| Corpus.CoverageAppend | data/_prototype/split.py:77-80 | the coverage of two lists laid end to end is the union of their coverages |
| InitialSplit.Gain | data/_prototype/split.py:71-74 | the gain of a fileset is at most the utterance's number of triphones, and it is zero exactly when the fileset already covers all of them |
| InitialSplit.Argmax | data/_prototype/split.py:76 | the position returned holds a maximal gain, and every earlier position holds a strictly smaller one, as numpy's `argmax` picks the first maximum |
| InitialSplit.Chosen | data/_prototype/split.py:71-76 | the fileset an utterance goes to has maximal gain, counted as the utterance's triphones it does not cover yet, and every lower-numbered fileset has strictly less |
| InitialSplit.Assign | data/_prototype/split.py:77-80 | the chosen fileset gets the utterance appended and its triphones added to its set; the other two filesets are unchanged |
| InitialSplit.AssignTracks | data/_prototype/split.py:77-80 | assigning keeps each fileset's triphone set equal to the coverage of its utterances |
| InitialSplit.AssignMembers | data/_prototype/split.py:77 | assigning adds exactly that one utterance to the three filesets' members |
| InitialSplit.Pass | data/_prototype/split.py:66-80 | one greedy pass over an order gives three filesets whose sizes add up to the order's length |
| InitialSplit.PassMembers | data/_prototype/split.py:66-80 | one pass places every utterance of the order exactly once: the members are a permutation of the order |
| InitialSplit.PassTracks | data/_prototype/split.py:66-80 | after a pass each fileset's triphone set is the coverage of its utterances |
| InitialSplit.EqualCoverageIsFull | data/_prototype/split.py:82-84 | three filesets that partition the keys and cover the same triphones each cover every triphone of the index |
| InitialSplit.FirstCovering | data/_prototype/split.py:82-90 | a position found is that of an attempt whose three filesets cover the same triphones |
| InitialSplit.FirstCoveringIsFirst | data/_prototype/split.py:86-90 | no attempt is found exactly when none covers, and the attempt found is preceded only by failing ones |
| InitialSplit.Passes | data/_prototype/split.py:66-90 | there is one attempt per candidate order |
| InitialSplit.PassesAt | data/_prototype/split.py:66-90 | attempt `k` is the greedy pass over order `k` |
| InitialSplit.BuildInitialSplit | data/_prototype/split.py:55-92 | a returned split is three lists that together hold every index key exactly once, and each covers every triphone of the index |
| InitialSplit.InitialSplitFails | data/_prototype/split.py:82-90 | the initial split fails exactly when no candidate order yields three equally covering filesets |
| InitialSplit.FirstAcceptedWins | data/_prototype/split.py:82-92 | when order `k` is the first accepted one, the result is the pass over order `k` |
| InitialSplit.NoTriphoneAcceptsFirstOrder | data/_prototype/split.py:82-92 | with no triphone of interest, the first attempt is accepted and returned |
| Adjust.TargetSizes | data/_prototype/split.py:114-118 | the training size is the ceiling of `total * num / den` and at most `total`; validation gets the floor of half the rest; test gets the remainder, which is validation's size or one more; the three sum to `total` |
| Adjust.TargetSizesSeventyPercentOfTen | data/_prototype/split.py:114-118 | seventy percent of ten utterances gives sizes 7, 1 and 2 |
| Adjust.RemoveFirst | data/_prototype/split.py:134 | removing a present element shortens the list by one and takes exactly one copy of it out of the multiset |
| Adjust.RemoveFirstPosition | data/_prototype/split.py:134 | the removed position is the first one that holds the element; the other elements keep their order |
| Adjust.Movable | data/_prototype/split.py:128-131 | a member may leave its fileset exactly when all of its triphones are still covered once one copy of it is removed |
| Adjust.StillCoveredIffCarried | data/_prototype/split.py:128-131 | each triphone of a member having another carrier in the fileset is the same as the fileset still covering it without that member |
| Adjust.CarriersCoverage | data/_prototype/split.py:128-131 | a triphone has a carrier in a fileset exactly when the fileset covers it |
| Adjust.CarriersRemoveFirst | data/_prototype/split.py:128-134 | removing an utterance takes one carrier away from each of its triphones and none from the others |
| Adjust.MovableKeepsCoverage | data/_prototype/split.py:128-134 | removing a movable utterance leaves the fileset's coverage unchanged |
| Adjust.TrimFileset | data/_prototype/split.py:123-134 | the removal loop ends with exactly the requested number moved, the earlier moves as a prefix of the moved list, kept plus moved equal to the input as a multiset, and the coverage unchanged |
| Adjust.TrimTo | data/_prototype/split.py:122-135 | an oversized fileset is cut to its target and its removals go to the pool with nothing lost; a fileset within its target is left alone; coverage never changes |
| Adjust.Deal | data/_prototype/split.py:138-141 | with at least `count` draws, dealing succeeds and uses exactly `count` of them; it appends `count` utterances after the existing ones, each taken out of the pool, and fileset plus pool keep their multiset |
| Adjust.DealTo | data/_prototype/split.py:137-141 | with a draw for each missing utterance, an undersized fileset is filled up to its target from the pool; its old contents stay a prefix, and nothing is lost |
| Adjust.TrimPhase | data/_prototype/split.py:119-135 | after the removal phase each fileset is at most its target, the filesets and the pool hold the input utterances, and each fileset's coverage is unchanged |
| Adjust.DealPhase | data/_prototype/split.py:136-141 | with at least one draw per pooled utterance the dealing phase succeeds; then the pool is empty, each fileset has its target size and extends its old contents, and the pool's utterances were added |
| Adjust.Rebalance | data/_prototype/split.py:119-141 | both phases end with an empty pool, every fileset at its target size, the utterances conserved as a multiset, and no fileset's coverage shrunk |
| Adjust.AdjustFilesets | data/_prototype/split.py:95-143 | the adjusted filesets have the target sizes of the training fraction, hold the same utterances as a multiset, and each covers at least what it covered before |
| Adjust.AdjustKeepsFullCoverage | data/_prototype/split.py:95-143 | filesets that each cover every triphone of the index still do after rebalancing |
| Split.SplitPartition | data/_prototype/split.py:213 | rebalancing a covering partition of the keys either stalls or gives a valid split: target sizes, every key once, full coverage in each fileset |
| Split.SplitIndexed | data/_prototype/split.py:211-213 | `CoverageNotReached` exactly when the initial split fails; any other error is a stalled rebalancing; a result is a valid split |
| Split.SplitCorpus | data/_prototype/split.py:203-213 | a fraction outside (0, 1) is rejected first; then a `limit` below 3 is rejected; a returned split is valid for the corpus's index |
| Split.ValidSplitCoversQualifying | data/_prototype/split.py:176-180 | in a valid split each fileset covers exactly the triphones present in at least `limit` utterances |

## Left out

- `store_filesets` (data/_prototype/split.py:146-163) and the last two lines
  of `split_corpus_prototype` that call it: directory creation and file
  writing. The model returns the three filesets.
- Loading the corpus through `import_from_string`, `load_phone_labels` and
  `get_utterances_list`: the corpus is a parameter that maps each utterance
  name to its phone symbols. The labels' time stamps are dropped because
  only the symbols are read.
- NumPy's global random generator and its seeding: the permutations and the
  choice positions are parameters. The distribution is not modelled.
- The warning for a `limit` below the corpus's lowest limit, and the restart
  message. Both only print.
- The type checks of `pct_train` and `limit` (`check_type_validity`): Dafny's
  parameter types stand in for them.
- `build_split_corpus`: it only templates a docstring and binds defaults.
- The source's lists of indexed triphones are sets here. The source builds
  them by filtering a set, so they hold no duplicates. The count of an
  utterance's triphones a fileset lacks is therefore `|index[u] - phones|`,
  and the movability test looks at each triphone once, as a set does.
- The source mutates the filesets passed to `adjust_filesets` in place; the
  model returns new values.
- BuildInitialSplit: the source retries until an attempt is accepted, with no
  bound. The model tries the given orders and returns `None` when none is
  accepted. It evaluates every attempt, but an attempt is a pure function of
  its order, so the first accepted one is the one the source would stop at.
- AdjustFilesets: the removal loop of the source never ends when no
  utterance of an oversized fileset is movable. The model returns `None`
  once the draws run out. It does not characterise when the removal phase
  must succeed. The dealing phase is proved to succeed when there are at
  least as many draws as utterances to deal.
- TargetSizes: the training size is the exact ceiling of `total * num / den`.
  The source multiplies by a float, so the product can round just above an
  integer. For example 100 * 0.55 evaluates to 55.00000000000001 in double
  precision, so `np.ceil` gives 56 where the model gives 55. Floating point
  is not modelled.
- Validation gets the floor of half the remaining utterances and test gets
  the rest, as the code computes. For 10 utterances at seventy percent the
  sizes are 7, 1 and 2, not 7, 2 and 1.
