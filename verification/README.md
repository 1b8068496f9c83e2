# Verified models of playlist sequencing, selection, rollout, matching and release evidence

This project models five parts of the repository and proves what they promise. `dafny verify dfyconfig.toml` checks all of it.

**Playlist sequencing** (`lib/playlist-sequencing.ts`). `SequencingPolicy` states, without heaps or cursors, which row a step
places: the frontier of sixteen artists, eight albums and four rows, the four fallback filters and the final comparison.
`SequencingTheorems`, `AlbumSpacing` and `SequencingDeterminism` prove what every sequence chosen that way satisfies, for arbitrary
transition scores: every row exactly once, no neighbours by one artist exactly when *any* arrangement could avoid them, neighbours
by one artist only once nothing else is left, the same for albums in two families of playlists, and one outcome per input.
`AlbumAdjacency` says for every playlist exactly when a step repeats an album, and `AvoidableNeighbours` is one that does so without need.
`SequencingChoices` says on rows and transitions alone what a step's choice is best at.
`BinaryHeap`, `SequencerState`, `SequencerProposals`, `SequencerFrontier`, `AlbumCountIndex`, `SequencerChoice`, `SequencerCommit`,
`SequencerArtists`, `PlaylistSequencing`, `SequencerBuild` and `SequencePlaylist` are the mutable program: classes whose `remaining`,
`cursor`, `selected` and `revision` fields change in place while heaps hold them, proved to follow that policy step by step. None of
the "Sequencer invariant failed" errors is reachable.

**Ranked selection** (`lib/playlist-selection.ts`). `PlaylistSelection` states which rows win by tier and rank, and proves that
the progressive cap ends at the lowest possible largest artist count. `SelectionOptions` reads the options, `SelectionOutcomes` says what they
promise about the chosen rows, and `RankedSelection` is the loop that computes them.

**Signed rollout** (`scripts/apply-public-rollout-cohort.ts`). `RolloutAuthority` is one serializable transaction on the global head,
the intent states, the kill switches and the append-only records; `RolloutRuns` proves facts about every run of such transactions,
refusals, interruptions and retries, assuming only that a hash determines the document it covers. `RolloutDocuments` says when two documents
agree, and `RolloutProgress` that agreeing documents are applied.

**Catalog matching** (`lib/matching.ts`). `CatalogClusters` is greedy duration clustering and its optimality, `CatalogFamilies` the choice
of a recording family, sound and complete, `CatalogRanking` merging, comparing and ranking, `CatalogAcceptance` the decision about a candidate,
and `CatalogOutcomes` what these decisions mean on the results' own fields.

**Evidence** (`lib/semantic-ranking-review.ts`, `lib/benchmark-artifact.ts`, `scripts/backfill-schema20-proof-architecture.ts`,
`lib/pipeline-v2-release-benchmark.ts`). `RankingReview` with `Medians` is the binding of five review documents and the verdict,
`BenchmarkExport` the round trip of an attested artifact, `CanonicalJson` the canonical serializer, `JsonReading` a reader of JSON text that takes
its output back, `ReleaseBenchmark` and `ReleaseSuite` the gates of each run and of each model, and why the pooled ones never decide.
`ReviewOutcomes`, `ExportOutcomes` and `ReleaseOutcomes` say what acceptance, verification and passing mean on the documents' own fields.

`Collections`, `Counting` and `StableSorting` hold what several of these share.

## Conventions

- A heap's comparison is passed to every call instead of being stored in the heap, together with the rank that it must agree with at
  that moment. That rank changes as elements change, which is why heap order has to be proved again after every step. The shifting
  loops work on a local copy of the heap's values and store it back.
- A JavaScript `Map` whose iteration order matters is a map together with the order in which its keys were inserted. Numbers that the
  original computes in floating point are exact reals or integers.
- Transition scores, text normalisation and comparison, the collation order of `localeCompare`, text formats and hashes are given functions.
  Where a result needs a hash to determine its content, the member's contract says so.

## Facts about the code that the proofs bring out

- The export artifact of an accepted attestation verifies exactly when the two factual runs have different run ids and share no candidate;
  building checks neither (`BenchmarkExport.ExportRoundTrip`, `BenchmarkExport.BuildAcceptsSharedRuns`).
- With no scenario that requires exact fill, the exact-fill rate counts as zero, so any positive threshold fails whatever the runs did
  (`ReleaseBenchmark.NoExactFillScenario`). A parsed suite always has such scenarios, since its 25, 50 and 100 track scenarios must require
  exact fill; for parsed suites the pooled gates therefore never change a verdict (`ReleaseSuite.VerdictIsScenarios`).
- The canonical serializer is unambiguous for every key order. It gives all equal objects the same text exactly when that order tells those of
  their keys apart that are listed as inserted, which are all but array indexes (`CanonicalJson.CanonicalExactlyWhenSeparated`).
- A rollback is only ever accepted directly after the advance that it undoes: once another intent has moved, the earlier advance can no longer
  be rolled back under its warrant (`RolloutRuns.RollbacksUndoTheLastAdvance`).
- The documentation of the sequencer calls album adjacency a hard preference whenever the bounded frontier can satisfy it. The artist filters
  come first and can take that choice away: `AvoidableNeighbours.NeighboursThoughAvoidable` is a playlist for which they do. A step repeats the
  last album exactly when every row that is left to an admitted artist is of that album; an artist is admitted if fewer than sixteen outrank it,
  it is not the last one while another has rows, and it passes the guard while a permitted one does (`AlbumAdjacency.StepRepeatsAlbumExactly`).

The table lists the main results and the operations that carry them; the small lemmas between them are not listed.

## Model

| member | source | states |
|---|---|---|
| PriorityHeap.BinaryHeap.Push | lib/playlist-sequencing.ts:128-139 | The value joins the heap's contents and heap order is kept. |
| PriorityHeap.BinaryHeap.Pop | lib/playlist-sequencing.ts:141-173 | Nothing comes out exactly when the heap is empty; otherwise an item no other item outranks comes out, everything else stays, and heap order is kept. |
| PriorityHeap.RaiseLast | lib/playlist-sequencing.ts:130-139 | Shifting ancestors into the hole restores heap order from "only the last item may be too low" without changing the contents. |
| PriorityHeap.SinkRoot | lib/playlist-sequencing.ts:148-171 | Swapping down from the root restores heap order and terminates. |
| PriorityHeap.SameTop | lib/playlist-sequencing.ts:452-456 | What is popped depends on the contents alone: popping, pushing back and popping again gives the same items in the same order. |
| PriorityHeap.PopUpTo | lib/playlist-sequencing.ts:452-456 | A bounded pop takes exactly the best items, best first, and stops early only when the heap is empty. |
| PlaylistGroups.RankSeparates | lib/playlist-sequencing.ts:376-390 | Two different artists (or albums) with rows never tie, so each priority order is total. |
| PlaylistGroups.FirstOtherIsMaximum | lib/playlist-sequencing.ts:506-542 | With two leaders known, the first count that is not the selected group's is the maximum over all other groups. |
| SequencingPolicy.Eligible | lib/playlist-sequencing.ts:690-718 | The four filters only drop proposals and never drop all of them. |
| SequencingPolicy.Decide | lib/playlist-sequencing.ts:720-733 | The decision is one of the eligible proposals. |
| SequencingTheorems.SafeChoiceExists | lib/playlist-sequencing.ts:497-504 | From a balanced state some group other than the previous one passes the parity guard. |
| SequencingTheorems.BalanceKept | lib/playlist-sequencing.ts:497-504 | Taking a safe row of another group keeps the balance invariant. |
| SequencingTheorems.StepSpacesArtists | lib/playlist-sequencing.ts:674-733 | Despite the bounded lookahead a step avoids the last artist, and finds a safe one, whenever any remaining row allows it. |
| SequencingTheorems.SequenceIsPermutation | lib/playlist-sequencing.ts:653-664 | Every source index is emitted exactly once. |
| SequencingTheorems.NeighboursOnlyWhenForced | lib/playlist-sequencing.ts:656-658 | Neighbours share an artist only once every row still to come is by that artist, for any scores. |
| SequencingTheorems.NoNeighboursBound | lib/playlist-sequencing.ts:497-504 | In any line without equal neighbours a group holds at most half, rounded up. |
| SequencingTheorems.ArtistSpacingWheneverPossible | lib/playlist-sequencing.ts:656-658 | For any scores, no neighbours share an artist exactly when no artist has more than half of the rows, rounded up. |
| AlbumSpacing.SoloTopInFrontier | lib/playlist-sequencing.ts:452-456 | In a one-artist playlist the top permitted album is always among the eight that are looked at. |
| AlbumSpacing.StepSpacesAlbums | lib/playlist-sequencing.ts:704-733 | For both families a step avoids the last album and finds a safe one whenever any remaining row allows it. |
| AlbumSpacing.AlbumSpacingWheneverPossible | lib/playlist-sequencing.ts:656-658 | For one artist, or at most sixteen distinct artists, albums are spaced exactly when any arrangement could space them. |
| AlbumAdjacency.OtherAlbumInFrontier | lib/playlist-sequencing.ts:452-456 | Looking at eight albums never hides that an artist has an album other than the last one. |
| AlbumAdjacency.StepIsAdmitted | lib/playlist-sequencing.ts:674-702 | The artist of a step's row is within the horizon, is not the last one if another has rows, and passes the guard if a permitted artist does. |
| AlbumAdjacency.StepRepeatsAlbumExactly | lib/playlist-sequencing.ts:692-718 | In every playlist a step repeats the last album exactly when each remaining row of an admitted artist is of that album. |
| AlbumAdjacency.NeighboursShareAlbumExactly | lib/playlist-sequencing.ts:656-658 | In every sequence neighbours share an album exactly under that condition. |
| AlbumAdjacency.FamiliesAdmitAll | lib/playlist-sequencing.ts:692-702 | In the two families where album spacing is certain every remaining artist is admitted. |
| AvoidableNeighbours.FourthRepeatsAlbum | lib/playlist-sequencing.ts:697-707 | A state in which, for any scores, a step repeats the last album because the artist guard refuses the only artist on another one. |
| AvoidableNeighbours.NeighboursThoughAvoidable | lib/playlist-sequencing.ts:656-658 | A playlist of six tracks in two genres: every sequence of it reaches that state and repeats the album, although a row that differs in artist and album is in the frontier. |
| SequencingChoices.CandidatesAreRivals | lib/playlist-sequencing.ts:397-407 | The rows that are compared for an album are the first four of it still to be placed. |
| SequencingChoices.BestRowIsNear | lib/playlist-sequencing.ts:458-489 | The loop over rows ends on one whose transition is at most one epsilon per comparison worse than any other's, upwards when smooth and downwards when contrast. |
| SequencingChoices.BestRowLeads | lib/playlist-sequencing.ts:458-489 | Where ties within an epsilon carry over, it ends on the row that is first by transition, then compared weight, then source index. |
| SequencingChoices.EligibleAreContenders | lib/playlist-sequencing.ts:690-718 | The four filters leave one proposal for each album in reach that differs from the last one, and spreads, as far as possible in their order. |
| SequencingChoices.ScoreShares | lib/playlist-sequencing.ts:409-424 | The score gives 0.68 to the transition, 0.24 to the artist's rows left and 0.08 to the album's; contrast scores a transition as smooth scores its complement. |
| SequencingChoices.StepIsBest | lib/playlist-sequencing.ts:673-733 | A step's row scores at least what any contender's leading row scores, less one epsilon each; where ties carry over it is first by score, compared weight, rows left and source index. |
| SequencingChoices.SequenceIsBest | lib/playlist-sequencing.ts:656-764 | Every place of every sequence is filled that way. |
| SequencingDeterminism.StepUnique | lib/playlist-sequencing.ts:673-758 | A step has one outcome. |
| SequencingDeterminism.SequenceUnique | lib/playlist-sequencing.ts:653-664 | A playlist has exactly one sequence that follows the policy. |
| SequencerState.AlbumsCompareByRank | lib/playlist-sequencing.ts:376-382 | The album comparator reads exactly the ranks that the unplaced rows give, and never ties. |
| SequencerState.ArtistsCompareByRank | lib/playlist-sequencing.ts:384-390 | The artist comparator reads exactly the ranks that the unplaced rows give, and never ties. |
| SequencerProposals.FirstAvailableRows | lib/playlist-sequencing.ts:397-407 | Scanning from the cursor finds the same rows as scanning the whole album. |
| SequencerProposals.BestAvailableRow | lib/playlist-sequencing.ts:461-487 | The loop finds the row the policy names with its own transition score: within three epsilons of the best of the first four, and their leader where ties carry over. |
| SequencerProposals.TrackProposalsForArtist | lib/playlist-sequencing.ts:447-495 | The proposals are the artist's part of the frontier, in rank order, and the heap is as before. |
| SequencerFrontier.CollectFrontier | lib/playlist-sequencing.ts:681-686 | The collected proposals are exactly the frontier, the first one by the leading artist. |
| AlbumCountIndex.SkimIsTop | lib/playlist-sequencing.ts:516-532 | The surfaced entries are the albums with the highest true counts. |
| AlbumCountIndex.TopValidCountStates | lib/playlist-sequencing.ts:516-532 | The returned states lead all albums by true count, and every current entry is still indexed. |
| AlbumCountIndex.LowerAlbumCount | lib/playlist-sequencing.ts:742-754 | Counts and index agree with the unplaced rows again, and the missing-count error is unreachable. |
| SequencerChoice.GuardSeesAllGroups | lib/playlist-sequencing.ts:497-542 | The guard on the first other leader is the guard on all other groups. |
| SequencerChoice.ArtistMaximum | lib/playlist-sequencing.ts:506-514 | The first other candidate's count is the policy's first other count. |
| SequencerChoice.AlbumMaximum | lib/playlist-sequencing.ts:534-542 | The first other album state's count is the policy's first other count. |
| SequencerChoice.SelectBest | lib/playlist-sequencing.ts:720-733 | The loop ends on the policy's best proposal. |
| SequencerChoice.ChooseProposal | lib/playlist-sequencing.ts:688-733 | The filters and the final loop choose what the policy decides. |
| SequencerCommit.TakeRow | lib/playlist-sequencing.ts:563-570 | Marking the row keeps remaining, cursor and selected flags in agreement with the unplaced rows. |
| SequencerCommit.PopUntil | lib/playlist-sequencing.ts:548-561 | The selected album is always among the eight popped: the missing-album error is unreachable. |
| SequencerCommit.CommitAlbumSelection | lib/playlist-sequencing.ts:544-574 | Afterwards the artist's heap holds exactly the albums that still have rows, in heap order. |
| SequencerArtists.PopCandidates | lib/playlist-sequencing.ts:674-679 | The candidates are the sixteen leading artists and nothing is lost. |
| SequencerArtists.ReturnCandidates | lib/playlist-sequencing.ts:738-740 | The heap holds exactly the artists that still have rows, in heap order. |
| PlaylistSequencing.Sequencer.Propose | lib/playlist-sequencing.ts:681-686 | The proposals are the frontier and are never empty: the no-proposal error is unreachable. |
| PlaylistSequencing.Sequencer.Commit | lib/playlist-sequencing.ts:735-754 | All heaps, counts and flags agree with the unplaced rows less the selected one. |
| PlaylistSequencing.Sequencer.PlaceNext | lib/playlist-sequencing.ts:673-758 | One pass of the loop places the row that the policy prescribes and keeps the whole state valid. |
| SequencerBuild.SharedExactly | lib/playlist-sequencing.ts:187-201 | Rows share an artist or album exactly by equal identifiers, or by equal labels when neither has one; unlabelled rows share nothing. |
| SequencerBuild.CollectRows | lib/playlist-sequencing.ts:588-617 | After the first pass groups and counts describe all rows. |
| SequencerBuild.MakeArtists | lib/playlist-sequencing.ts:619-639 | One artist state per artist, with album heaps of their own. |
| SequencePlaylist.BuildState | lib/playlist-sequencing.ts:576-651 | The initial state is valid with every row unplaced. |
| SequencePlaylist.SequencePlaylistRows | lib/playlist-sequencing.ts:662-764 | The result is the policy's sequence, pairs every index with its track, is a permutation, spaces artists whenever any arrangement can, places the best contender each time, and the short-output error is unreachable. |
| PlaylistSelection.SelectionUnique | lib/playlist-selection.ts:171-246 | Tier and rank determine the chosen rows. |
| PlaylistSelection.ChosenRowsArePrefix | lib/playlist-selection.ts:160-170 | An artist's chosen rows are that artist's best ranked rows. |
| PlaylistSelection.CapIsLowest | lib/playlist-selection.ts:211-213 | Beyond the initial cap no choice of as many rows has a smaller largest artist count. |
| PlaylistSelection.EnoughArtists | lib/playlist-selection.ts:195-209 | The chosen rows have the requested number of distinct artists, or every artist of the pool. |
| SelectionOutcomes.LimitIsRight | lib/playlist-selection.ts:175-177 | The number of rows is the whole part of the request, between nothing and all of them, and all if the request is not finite. |
| SelectionOutcomes.SelectionIsBroad | lib/playlist-selection.ts:191-209 | As many named artists as asked for, or one per row, or every artist of the pool. |
| SelectionOutcomes.SelectionHasNoLowerCap | lib/playlist-selection.ts:183-224 | An artist with several rows beyond its share, 0.15 by default and within 0.01 and 1, has no more than any choice of as many rows must give some artist. |
| SelectionOutcomes.SelectionHasFewJumps | lib/playlist-selection.ts:195-224 | A better ranked row of an artist below its share is passed over only for breadth, by no more rows than artists were asked for. |
| SelectionOutcomes.AllOrNothingIsFair | lib/playlist-selection.ts:178-182 | Taking no row or all rows satisfies the same three promises. |
| RankedSelection.SeedArtists | lib/playlist-selection.ts:200-209 | The loop takes the first rows of the first requested artists. |
| RankedSelection.CapPass | lib/playlist-selection.ts:214-224 | A pass takes rows in tier and rank order and, if it falls short, all rows within the cap. |
| RankedSelection.LimitSuffices | lib/playlist-selection.ts:226-237 | A pass with a cap of the target fills the target. |
| RankedSelection.SelectIndexes | lib/playlist-selection.ts:187-237 | Terminates with the selection, and the exact-count fallback is unreachable. |
| RankedSelection.PickConserves | lib/playlist-selection.ts:239-245 | Splitting loses and invents no row. |
| RankedSelection.PickKeepsRank | lib/playlist-selection.ts:239-245 | Both parts list their rows by ascending rank. |
| RankedSelection.SelectRankedPlaylistRows | lib/playlist-selection.ts:171-246 | The requested number of rows, a stable split, the best ranked rows without diversification, and otherwise the policy's rows: broad, with no lower cap possible and few rows passed over. |
| RolloutAuthority.RolloutDatabase.Apply | scripts/apply-public-rollout-cohort.ts:407-677 | A failed transaction leaves the state as it was; a success writes all of it and reports whether it was new. |
| RolloutRuns.PresentDocuments | scripts/apply-public-rollout-cohort.ts:679-698 | Every event, presenting documents above all, moves the database as the step function says, and a new application is reported exactly. |
| RolloutDocuments.MadeExactlyWhenTheyAgree | scripts/apply-public-rollout-cohort.ts:320-385 | Two documents make a transition exactly when they agree field by field, on a rung up, or from a nonzero rung to zero; it carries those fields. |
| RolloutProgress.HistoryAgrees | scripts/apply-public-rollout-cohort.ts:320-385 | In every history each transition has an evidence and a warrant document that agree with it and with each other. |
| RolloutProgress.WarrantRecordsCarry | scripts/apply-public-rollout-cohort.ts:626-670 | After every run each warrant record carries what its warrant and the transition that wrote it say. |
| RolloutProgress.AppliedExactlyWhenTheyAgree | scripts/apply-public-rollout-cohort.ts:407-677 | After any run, documents are newly applied exactly when the database is ready, they agree and they carry on the history; the history then grows by exactly their fields. |
| RolloutProgress.UpAndBack | scripts/apply-public-rollout-cohort.ts:320-385 | From the empty database four agreeing advances bring an intent to 100, and an agreeing rollback under the last warrant brings it back to 0. |
| RolloutRuns.EvidenceOccursOnce | scripts/apply-public-rollout-cohort.ts:537-543 | Equal hashes would have equal predecessors down to the empty state, so no evidence occurs twice in a chain. |
| RolloutRuns.AcceptedMeansContinues | scripts/apply-public-rollout-cohort.ts:487-566 | The database accepts a transition exactly when it continues the recorded chain. |
| RolloutRuns.RunIsRecorded | scripts/apply-public-rollout-cohort.ts:407-677 | After every run the database holds exactly what one chain of transitions wrote. |
| RolloutRuns.EvidenceFormsOneChain | scripts/apply-public-rollout-cohort.ts:537-543 | Over every run applied evidence forms one linear chain from the empty state and none is applied twice. |
| RolloutRuns.PercentagesAndSwitches | scripts/apply-public-rollout-cohort.ts:544-603 | After every run each percentage is its rung of 0, 1, 10, 50, 100, and a switch is disabled exactly when the last operation was a rollback. |
| RolloutRuns.RollbacksUndoTheLastAdvance | scripts/apply-public-rollout-cohort.ts:328-346 | In every run a rollback undoes the operation right before it, the same intent's advance under the same warrant. |
| RolloutRuns.RetryOfHead | scripts/apply-public-rollout-cohort.ts:502-536 | A retry of the head changes nothing; it is confirmed as not applied exactly under the recorded warrant. |
| RolloutRuns.SupersededIsRefused | scripts/apply-public-rollout-cohort.ts:537-543 | Superseded evidence is refused whatever warrant comes with it. |
| RolloutRuns.AppliedExactlyWhenItContinues | scripts/apply-public-rollout-cohort.ts:407-677 | Evidence is applied exactly when it is well formed, the database is ready and it continues the chain; otherwise nothing changes. |
| RolloutRuns.RecordsAreAppendOnly | scripts/apply-public-rollout-cohort.ts:626-670 | No step removes or alters an authority or warrant record. |
| StableSorting.SortIsStable | lib/matching.ts:274-275 | Items with equal keys keep their order. |
| CatalogClusters.DurationClusters | lib/matching.ts:272-287 | The clusters list the rows with known durations in ascending order, and each starts more than three seconds after the one before. |
| CatalogClusters.GreedyUnique | lib/matching.ts:272-287 | There is only one way to cut a list of rows into such clusters, so the method's result is determined. |
| CatalogClusters.ClustersPartition | lib/matching.ts:272-287 | Every row with a known duration is in the clusters, once, and nothing else. |
| CatalogClusters.GreedySpans | lib/matching.ts:278-284 | Any two members of a cluster lie within three seconds. |
| CatalogClusters.FewestClusters | lib/matching.ts:272-287 | No division of the same rows into groups within three seconds has fewer groups. |
| CatalogClusters.TwoCloseRowsShareACluster | lib/matching.ts:315 | Some cluster has two members exactly when two rows lie within three seconds. |
| CatalogFamilies.Families | lib/matching.ts:315-332 | The families are all clusters of two or more and then all corroborating ISRC groups by first occurrence. |
| CatalogFamilies.FamiliesCorroborate | lib/matching.ts:315-332 | Every family corroborates a recording, and there is one exactly when two rows lie within three seconds or an ISRC group of two spans at most ten. |
| CatalogFamilies.UniqueRepresents | lib/matching.ts:334-337 | No two unique families have the same joined id text, and every family's text is represented. |
| CatalogFamilies.SameIdentityExactly | lib/matching.ts:334-337 | For ids without the separator two families have the same text exactly when they consist of the same results. |
| CatalogFamilies.StrongestIssue | lib/matching.ts:334-355 | A result exactly when corroborated: the preferred issue of the strongest family, ties going to what was collected first. |
| CatalogOutcomes.CanonicalIsBest | lib/matching.ts:236-250 | The canonical issue belongs to a family no other outranks in size, ISRC and penalty, release, length and source; no member has a lower penalty, or the same one and an earlier release. |
| CatalogOutcomes.CorroboratedExactly | lib/matching.ts:301-332 | Corroborated exactly when two results lie within three seconds, or two share an ISRC whose known durations span at most ten. |
| CatalogFamilies.CanonicalIsUnique | lib/matching.ts:334-355 | A pool has at most one such issue. |
| CatalogFamilies.SelectCanonicalSparseMatch | lib/matching.ts:301-356 | A match exactly when the results identify a recording: the only candidate that is left, or the canonical issue. |
| CatalogFamilies.RepresentativeIsUnique | lib/matching.ts:305-314 | At most one result stands for a set of results, and it is derived only if all of them are. |
| CatalogRanking.MergedIsDistinct | lib/matching.ts:148-157 | No id twice. |
| CatalogRanking.MergedKeepsFirst | lib/matching.ts:148-157 | The first song of every id is kept. |
| CatalogRanking.MergeCatalogSongs | lib/matching.ts:148-157 | The map-filling loops compute that merge. |
| CatalogRanking.RankIsRanking | lib/matching.ts:541-621 | Every merged song is ranked once with its own comparison. |
| CatalogRanking.RankIsOrdered | lib/matching.ts:541-621 | Higher scores come first, of equal ones the song that was merged earlier, and every merged song is there. |
| CatalogRanking.ArtistPoints | lib/matching.ts:550-564 | An exact artist counts 30, a compatible one 18, and of both the exact one. |
| CatalogRanking.TitlePoints | lib/matching.ts:565-577 | The best agreement of the titles counts: 40, 28, 24 or 18, whatever else agrees. |
| CatalogOutcomes.TitlePool | lib/matching.ts:630-673 | The first pool holds the unconflicted results with exact artist and title, and those with the base title whose ISRC such a result shares; of these the ones on the album count first. |
| CatalogOutcomes.StrongPool | lib/matching.ts:651-684 | The second pool holds the unconflicted results with exact title and a matching set of collaborators. |
| CatalogOutcomes.LoosePool | lib/matching.ts:657-694 | The third pool holds the unconflicted results with a moved feature credit, or a credit that contains the cited artist. |
| CatalogOutcomes.BestIsUniqueExactly | lib/matching.ts:628-665 | The best result is accepted at once exactly when it alone is identified, or it alone is documented, in the results' own flags. |
| CatalogOutcomes.AcceptedOnlyAtOnce | lib/matching.ts:628-709 | A candidate with an ISRC, a duration or a version label is accepted only that way. |
| CatalogAcceptance.ResolveSparse | lib/matching.ts:666-701 | A sparse candidate is resolved exactly when title, strong credits or loose credits identify a recording; titles win over strong credits, those over loose ones, and the album over corroboration without it. |
| CatalogAcceptance.Accept | lib/matching.ts:664-708 | A result is accepted exactly on one of the acceptance paths, in their order, has no ISRC, version or year conflict and is tied by title and artist; a candidate that is not sparse gets the best ranked result or none. |
| CatalogAcceptance.ChoiceIsUnique | lib/matching.ts:664-708 | The decision leaves no freedom: one ranking has one accepted result. |
| CatalogAcceptance.ReviewOrUnavailable | lib/matching.ts:728-783 | Without acceptance the best ranked direct review is shown if there is one; otherwise no primary song, and review exactly when some result has the title. |
| CatalogAcceptance.RankCatalogMatches | lib/matching.ts:536-783 | Accepted exactly when acceptable; the whole answer is the described one; no primary song has an ISRC or version conflict or recurs among at most four alternatives; no song outscores one accepted outside the sparse paths, no direct review the reviewed one. |
| CatalogOutcomes.AlternativesShown | lib/matching.ts:724-743 | The alternatives are the first ranked songs with another id. |
| CatalogOutcomes.OfferWithoutPrimary | lib/matching.ts:747-783 | Without a direct review there is no primary song: a single title result without version conflict leads the alternatives, otherwise the title results are offered, otherwise the best ranked ones as unavailable. |
| CatalogAcceptance.AnswerIsUnique | lib/matching.ts:623-783 | A ranking has one answer: status, song and alternatives are determined. |
| Medians.MedianDominance | lib/semantic-ranking-review.ts:261-267 | Pairwise smaller scores have at most the median, for any number of pairs. |
| Medians.RankIsUnique | lib/semantic-ranking-review.ts:261-267 | Only one value can stand at a rank, found by counting the values below and above it. |
| Medians.MedianIsMiddle | lib/semantic-ranking-review.ts:261-267 | Twice the median is the sum of the two middle values, found by counting. |
| Medians.OddMedian | lib/semantic-ranking-review.ts:261-267 | Of an odd number of values the median is a member with at least half of them, rounded up, on either side. |
| Medians.EvenMedian | lib/semantic-ranking-review.ts:261-267 | Of an even number of values it is the mean of two members, each with at least half of the values on either side. |
| ReviewOutcomes.ValidScorecardExactly | lib/semantic-ranking-review.ts:687-772 | Valid exactly when at least three different fixtures have two labelled arms each, no label occurs twice and all scores are from one to five. |
| ReviewOutcomes.ScorecardBindsExactly | lib/semantic-ranking-review.ts:780-822 | A scorecard belongs to a package exactly when both are valid and of one size, it carries the package hash, and each scored arm is an arm of that fixture with the same output. |
| ReviewOutcomes.AcceptedSays | lib/semantic-ranking-review.ts:923-984 | Accepted documents carry the approved metadata hash, one package hash in package, artifact, mapping and scorecard, and as many fixtures each. |
| RankingReview.AcceptedFixturesAgree | lib/semantic-ranking-review.ts:990-1066 | Accepted documents cover exactly the same fixtures. |
| RankingReview.MappingIsBijection | lib/semantic-ranking-review.ts:1015-1047 | The mapping is a bijection from baseline and candidate onto the two arms of every fixture, whatever the hashes. |
| RankingReview.AcceptedPairIsDerived | lib/semantic-ranking-review.ts:1015-1066 | If the scores that the documents show do not collide, each pair is what scorecard and mapping say and its baseline is the protected one. |
| RankingReview.AcceptedPairsAreUnique | lib/semantic-ranking-review.ts:923-1074 | Without such collisions scorecard and mapping fix the artifact's pairs by fixture: no other scores or outputs are accepted. |
| RankingReview.AcceptedExactlyWhenDerived | lib/semantic-ranking-review.ts:923-1074 | Without such collisions acceptance holds exactly for valid, bound documents of one size whose pairs are all read off scorecard and mapping and start from the protected baseline. |
| RankingReview.AcceptanceIsPossible | lib/semantic-ranking-review.ts:923-1074 | Accepted documents without collisions exist for any three or more fixtures, any two scores and any hashes that tell these two apart. |
| RankingReview.MedianReasons | lib/semantic-ranking-review.ts:1098-1105 | A median code appears exactly for the dimensions whose medians fall short or regress. |
| RankingReview.FixtureReasons | lib/semantic-ranking-review.ts:1106-1112 | A fixture code appears exactly for the pairs and dimensions that got worse. |
| RankingReview.MedianRegressionHasFixture | lib/semantic-ranking-review.ts:1097-1113 | A median regression never appears without a fixture regression in the same dimension. |
| ReviewOutcomes.CodesNameDimensions | lib/semantic-ranking-review.ts:1106-1112 | A fixture code names the dimension whose score got lower. |
| ReviewOutcomes.PassedExactly | lib/semantic-ranking-review.ts:1097-1116 | Passed exactly when no score of any fixture got lower and the middle of the candidate's scores, found by counting, reaches four in every dimension. |
| ExportOutcomes.BindingHoldsExactly | lib/benchmark-artifact.ts:295-318 | The binding checks hold exactly for the attested US run with decided, different candidates whose manifest positions are the numbers from zero on, each once. |
| ExportOutcomes.DecidedExactly | lib/benchmark-artifact.ts:333-348 | Exactly when every factual candidate has its initial decision and the truth speaks of these candidates and no others. |
| ExportOutcomes.BuildsExactly | lib/benchmark-artifact.ts:320-348 | An export is built exactly from the three attested runs in their order with decided factual candidates. |
| ExportOutcomes.BuiltSays | lib/benchmark-artifact.ts:350-436 | One row per factual candidate with its decisions and truth: correct when an acceptable song was accepted at first, resolved when the storefront has it and the final decision is one; cited tracks and the manifest are listed in order. |
| ExportOutcomes.VerifiesExactly | lib/benchmark-artifact.ts:439-567 | Verified exactly when header, runs and rows are sound and the content carries the hash of the attestation that it gives back. |
| ExportOutcomes.SoundMatchingExactly | lib/benchmark-artifact.ts:486-523 | The rows are sound exactly when each judges by its own fields, they tell of different candidates of the factual runs, and each of these has as many as it claims. |
| BenchmarkExport.VerifyMatching | lib/benchmark-artifact.ts:486-523 | The walk accepts exactly rows of factual runs with derived metrics, no repeated candidate and the recorded count per run. |
| BenchmarkExport.MatchingVerifiesWhenApart | lib/benchmark-artifact.ts:486-523 | The row checks hold exactly when the factual runs differ and share no candidate. |
| BenchmarkExport.TruthReadBack | lib/benchmark-artifact.ts:552-557 | The truth read back from the rows is the attested truth in another order. |
| BenchmarkExport.HashReadBack | lib/benchmark-artifact.ts:288-293 | The attestation hash ignores the order of the truth. |
| BenchmarkExport.ExportRoundTrip | lib/benchmark-artifact.ts:320-567 | What was built verifies exactly when the factual runs are apart, and then the attestation reads back. |
| BenchmarkExport.BuildAcceptsSharedRuns | lib/benchmark-artifact.ts:320-348 | Under any sound rules that accept its words: building accepts factual runs that share a run id or a candidate, and verification then refuses what was built. |
| BenchmarkExport.SoundRulesExist | lib/benchmark-artifact.ts:288-293 | Such rules exist. |
| CanonicalJson.Decodes | scripts/backfill-schema20-proof-architecture.ts:35-44 | No two different values print alike, whatever follows them. |
| CanonicalJson.SerializerIsFaithful | scripts/backfill-schema20-proof-architecture.ts:35-48 | If the key order tells the keys of a value apart that are listed as inserted, another value prints like it exactly when it is equal up to key order. |
| CanonicalJson.SameKeysSortAlike | scripts/backfill-schema20-proof-architecture.ts:40-42 | The same keys sort alike whatever order they were inserted in; ties with array indexes do no harm, since these are listed first and ascending. |
| CanonicalJson.CanonicalExactlyWhenSeparated | scripts/backfill-schema20-proof-architecture.ts:35-48 | For every value: all values equal to it print alike exactly when the key order tells the keys apart, in every object inside it, that are listed as inserted. |
| CanonicalJson.AllCanonicalExactly | scripts/backfill-schema20-proof-architecture.ts:35-48 | All equal values print alike exactly when the key order ties no two different keys that are listed as inserted. |
| JsonReading.ReadsBack | scripts/backfill-schema20-proof-architecture.ts:35-44 | A reader written from RFC 8259 alone reads what is printed back as an equal value with the keys of every object in ascending order, and stops where the text ends. |
| JsonReading.CanonicalTextReadsBack | scripts/backfill-schema20-proof-architecture.ts:35-44 | The same for a whole text. |
| JsonReading.EscapedIsShortest | scripts/backfill-schema20-proof-architecture.ts:35-38 | No shorter text reads as the same character, and codes are written in small letters. |
| CanonicalJson.EqualTextMeansEqualValue | scripts/backfill-schema20-proof-architecture.ts:35-48 | Whatever the key order, equal text means equal values. |
| CanonicalJson.TiedKeysBreakCanonicity | scripts/backfill-schema20-proof-architecture.ts:40-42 | Any two such keys that are tied give two equal objects that print differently. |
| ReleaseBenchmark.PooledShare | lib/pipeline-v2-release-benchmark.ts:588-610 | Parts that each reach a threshold reach it together. |
| ReleaseBenchmark.ReviewsByTrackAreReviews | lib/pipeline-v2-release-benchmark.ts:506-525 | Covering the tracks one to one means the same reviews in another order. |
| ReleaseBenchmark.CheckAdjudication | lib/pipeline-v2-release-benchmark.ts:506-522 | No error exactly when reviews cover tracks and constraints exactly. |
| ReleaseOutcomes.AdjudicatedExactly | lib/pipeline-v2-release-benchmark.ts:506-522 | Adjudicated exactly when every track has its own review of the same song, every hard constraint its own review, and there is no other review. |
| ReleaseOutcomes.PassesExactly | lib/pipeline-v2-release-benchmark.ts:525-563 | A run passes exactly when its size and cost fit, the shares of its own reviews reach the thresholds, every review has every required axis, and the outcome is complete when filled and a safe partial one otherwise. |
| ReleaseOutcomes.ExactFillRateExactly | lib/pipeline-v2-release-benchmark.ts:590-591 | The rate is the share of filled runs among those that require exact fill, and zero if there are none. |
| ReleaseOutcomes.OneRunEachExactly | lib/pipeline-v2-release-benchmark.ts:576-582 | Exactly one run for each scenario and model and none of another scenario. |
| ReleaseOutcomes.ParsedSuiteExactly | lib/pipeline-v2-release-benchmark.ts:314-339 | A parsed suite has different scenarios for 25, 50, 100, 200 and 300 tracks, and the first three sizes require exact fill. |
| ReleaseBenchmark.EvaluateRun | lib/pipeline-v2-release-benchmark.ts:480-564 | A report exactly for adjudicated runs, with exactly the codes of the gates that fail; passed exactly when none fails. |
| ReleaseBenchmark.PooledGatesAddNothing | lib/pipeline-v2-release-benchmark.ts:585-617 | A pooled gate that fails repeats the same gate of some run, so a scenario has failed already. |
| ReleaseBenchmark.NoExactFillScenario | lib/pipeline-v2-release-benchmark.ts:590-613 | Without a scenario that requires exact fill, any positive exact-fill threshold fails. |
| ReleaseSuite.PairsMatch | lib/pipeline-v2-release-benchmark.ts:576-582 | The size and inclusion checks hold exactly when there is one run per scenario and model and no other run. |
| ReleaseSuite.EveryScenarioIsRun | lib/pipeline-v2-release-benchmark.ts:583-590 | Every model runs every scenario of the suite. |
| ReleaseSuite.EvaluateReleaseBenchmark | lib/pipeline-v2-release-benchmark.ts:566-618 | Reports for both models exactly when the results belong to the suite and every run is adjudicated. |
| ReleaseSuite.PooledGatesAreRedundant | lib/pipeline-v2-release-benchmark.ts:585-617 | For every parsed suite and accepted results a pooled gate that fails repeats the same gate of some run of that model. |
| ReleaseSuite.VerdictIsScenarios | lib/pipeline-v2-release-benchmark.ts:611-618 | The pooled gates never change a verdict: a model fails none of these gates exactly when each of its runs passes. |

## Left out

- Transition scoring by genre, year, duration, tempo and key: an arbitrary function of the previous and the next row, so every theorem holds for any scores.
- Normalising text into artist and album keys, including Unicode normalisation and the patterns behind version, derived and loose-credit flags: labels and flags arrive normalised.
- SequencingChoices.StepIsBest: the best score is promised up to one epsilon per contender, and exactly where ties carry over, since comparing with an epsilon is not transitive; the loop is modelled as it is.
- SequencingTheorems.ArtistSpacingWheneverPossible: spacing as good as possible when an artist holds more than half of the rows is not stated beyond `NeighboursOnlyWhenForced`; the code treats it as a preference.
- AlbumSpacing.AlbumSpacingWheneverPossible: covers one artist, or at most sixteen distinct artists with one row each; elsewhere spacing as good as possible over a whole playlist is not stated, only when each step repeats an album.
- PriorityHeap.BinaryHeap.Push: the array is a sequence in a field of the heap; its loops work on a local copy that is stored back, so aliasing of the array itself is not modelled.
- CatalogFamilies.UniqueRepresents: speaks of the joined id texts; ids that hold the separator can make two different families look alike, as in the original.
- `shouldSequencePlaylist`, `sequencePlaylist`, the brief predicates, `desiredPlaylistArtistCount` and `prioritizeUnrepresentedArtistRows`: policy around the two algorithms that adds only easy members.
- Rounding in the sequencer's scores and in means, shares and medians: exact reals, without `NaN` and infinities; a non-finite limit or share of the selection is modelled as the case it is.
- Verifying signatures and certificates of rollout documents, the comparison with environment variables and the patterns of hashes and group names: documents arrive verified.
- SQL, locks, timestamps, reason codes and the parsing of stored JSON: one transaction is one atomic step on typed maps, and an interrupted one leaves them alone.
- RolloutRuns.RunIsRecorded: runs start from a database without rollout state.
- A stored head without a target configuration hash, which the original accepts from older releases: every head in the model was written by the modelled transaction.
- The tie-break by catalog id in `compareCompatibleCatalogIssues`: source indexes are distinct, so it is never reached.
- CatalogAcceptance.RankCatalogMatches: the wording of a match's basis and the score that is reported with it are not modelled; the score only orders the ranking.
- Schemas, patterns, hash formats and attestation keys of the review documents: documents arrive as their validators leave them, with the size, range and uniqueness checks kept.
- Validation of a stored review report and its evidence hash: a recomputation of the verdict modelled here.
- BenchmarkExport.ExportRoundTrip: assumes that hashes are digests, that the collation order tells different UUIDs apart, and that persisted fields have the formats the database enforces; no claim is made about artifacts that were altered after they were built.
- CanonicalJson.SerializerIsFaithful: strings hold no lone surrogates, values no `undefined`, and a number is the text that prints it.
- ReleaseBenchmark.EvaluateRun: the errors for an adjudication bound to another run snapshot and for invalid timing are not modelled; they precede the gates and do not read the reviews.
- ReleaseSuite.EvaluateReleaseBenchmark: the binding to the suite hash and the latency and snapshot gates are not modelled.
- Latency percentiles, cost selection and the snapshot hashes of benchmark runs: independent checks beside the ratios.
- ReleaseSuite.VerdictIsScenarios: speaks of the gates on runs and pooled ratios, not of the latency and snapshot gates, which have no counterpart in a single run.
- ReleaseBenchmark.EvaluateModel: the original throws on a run whose adjudication is incomplete; the model returns the error.
- The plan builder and database writes around the canonical serializer, user interface, routes, polling, command lines and network access.
