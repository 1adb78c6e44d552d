# Verified model of the recorder's processing core

The system records audio sessions, stores them in segments, finds speech, tells speakers apart,
builds utterances and conversations, transcribes them, and plays any range back. This project
models the parts of it whose correctness rests on an argument rather than on a glance, and proves
those arguments:

- **Speaker identity.** `cluster_corpus` (nearest-neighbour chain, average linkage over cosine
  distance, must-link and cannot-link pins, threshold cut through union-find) and the
  reconciliation of its clusters with the persistent speakers. `Linkage` proves the geometry,
  `NnChain` the chain, its merges and its cut from the symmetry and reducibility of that distance,
  `AverageLinkage` that the merges are determined and join a closest pair first, `DisjointSets` the
  path-halving union-find, `Clustering` the imperative program over its arrays, `Reconcile` the table
  rewrites.
- **Intervals.** `Intervals` (the crosstalk sweep), `LabelCarry` and `OldLabels` (the overlap sweep over
  two lists and label mapping), `Interjections`, `Utterances`, `Diarize` (those two together),
  `VadSpans`, `SpeechDetect` (from a session's windows to its spans) and `Conversations`: sweeps, greedy
  merges and bounded splits over integer milliseconds, each against a declarative meaning.
- **Ingest to playback.** `PcmPooling` (the pool with its timer, backpressure and store tasks),
  `AckTracking`, `WavFile`, `Stitching` (the stitched file, ranged reads, the timeline),
  `Playback` (from accepted frames to the one WAV file they come back as) and `Ranges` (the
  `Range` header, section 14.1.2 of RFC 9110).
- **Protocols.** `TwoStore` (rows and blobs without a shared transaction), `SequenceRace` (the
  sequence retry loop), `Artifacts` (all the writers of the derived-artifact table) with `Publications` (what each pipeline
  achieves on its own),
  `ModelLifecycle` (loading, evicting and using GPU models under two locks) with `Visits` (what one
  request or one tick of the watchdog comes to). Each is a state machine whose steps interleave
  freely, with an invariant kept by every step and carried to every run, and with what every step
  does stated row by row or field by field.

`Sorting`, `Arithmetic` and `Wrappers` hold what several of them share. Vectors, scores and
distances are reals. Identifiers are natural numbers in the order of their text; labels are strings
ordered by code point.

## What the code does not do

Some documented claims hold only under a condition. The model keeps the code's behaviour; lemmas
give the condition and an input or a run that fails without it:

- The docstring of `interjection_hosts` (a host is "always a root") holds exactly when every
  contained span has an outermost container that is itself free; a span nested inside another of
  the same speaker breaks it (`Interjections.DocumentedExactlyWhen`, `NestedSpeakerIsMissed`). Of
  published utterances it always holds when gap and budget are not negative and no turn is longer than
  the cap (`Diarize.UtterancesMeetDocstring`); a longer turn is split and can leave such nesting
  (`SplitLeavesNesting`).
- "Overlapping same-speaker turns collapse" (processing/pipelines/diarize.py:145): two of a speaker's
  runs overlap exactly when the cap keeps some turn out of a run it overlaps
  (`Diarize.RunsOverlapExactlyWhen`, `CapLeavesOverlap`).
- The splitting loop of `spans_from_scores` ends on every region and for all scores exactly when the
  whole caps that fit below a frame and three quarters of one more are at least a frame
  (`VadSpans.EndsExactlyWhen`). Every single cut makes progress exactly when three quarters of the cap
  alone are (`ProgressExactlyWhen`); in between, the loop can go backwards and still end: a 32 ms frame,
  a 20 ms cap and a start at 13 ms cut at 0 (`ShortCapGoesBack`, `ProgressEnds`).
- `spans_from_scores` accepts more scores than there is audio for. For n scores, whatever they are, the
  spans are well formed exactly when no run of the least length that fits in n frames can start at or
  past the end of the audio and the padding (`VadSpans.BoundedExactlyWhen`); two scores for 10 ms of
  audio can give a span from 32 to 10 (`ScoresPastTheEnd`). The one caller scores the whole frames of
  the audio it measures, and never gets there (`SpeechDetect.ScoresFit`, `DetectSpeech`).
- `overlap_ms` takes its lists to be free of overlap, but a speaker's utterances can overlap. On such
  lists it can count a millisecond twice, and then `map_labels` picks a label that shares less: 25
  counted against 24 for 20 shared (`LabelCarry.OverlapScoresTwice`). Among labels free of overlap a new
  label is always measured and picked right exactly when its own spans do not overlap
  (`ScoreRightExactlyWhen`, `PickRightExactlyWhen`), and an old label is always given a new one that
  shares the most exactly when every millisecond that two of its spans share is the first of at most two
  that it has (`OldLabels.OldRightExactlyWhen`, `OldOverlapMisleads`).
- "Runs of turns never separated by more than `gap_ms` of silence": the loop measures silence
  against everything heard in the session, other blocks included. Among a conversation's own
  members the bound holds exactly when it holds against their block's own stretch
  (`Conversations.OwnSilenceExactlyWhen`, `HiddenSilence`).
- "The idle clock starts after the work" (sidecars/diar_pyannote/app.py:419): the clock is set
  after the GPU lock is released, so the watchdog can begin to unload before a request has set it
  exactly when its inference has lasted the idle time (`ModelLifecycle.UnloadFirstExactlyWhen`); such a
  run exists (`LongWorkHappens`).
- An unload clears the models first and sets the status last (sidecars/diar_pyannote/app.py:201-212).
  If clearing the memory cache raises in between, the status stays "loaded" without models: requests
  go on to inference with none (`ModelLifecycle.AbortedUnloadBreaks`) and no later step mends it
  (`BrokenStays`). A thread at inference has all its models exactly when no unload has raised half
  way (`InferenceHasModels`).
- "N concurrent callers need at most N attempts" (services/segments.py:46-49) bounds the callers
  that ever begin, not those in flight at one time. Five tries are enough for n callers exactly when n
  is at most five (`SequenceRace.EnoughExactlyWhen`); a sixth can run out with never more than two in
  flight (`TwoAtATimeCanExhaust`).
- A blocked `add` always has an unfinished store to wait for exactly when the pool target is at most
  the first whole number of samples past the cap, or no frame fits at all
  (`PcmPooling.BlockedExactlyWhen`). With a larger target only the pool's timer frees it; there is no
  deadlock under any settings (`BlockedCanMove`).
- A/B candidates, unlike transcripts and conversations, can outlive their utterances: re-diarizing
  leaves them alone, and one can be published for an utterance already gone
  (`Artifacts.DanglesExactlyWhen`, `CandidatesMayDangle`).
- A second rebuild over the same corpus changes nothing exactly when every gated pin is to a speaker of
  the model being rebuilt (`Reconcile.SecondRebuildExactlyWhen`). A pin to another model's speaker, which
  pinning a label after its print was taken under a new model makes
  (database/repos/label_carry.py:67-78), gets a fresh speaker each time (`ForeignPinMoves`,
  `ForeignPinExample`).
- The start times of `iter_windows` fall on the windows' first frames, for every window, exactly when
  a window is a whole number of frames (`Stitching.WindowTimesExactlyWhen`, `WindowTimesDrift`); its only
  caller does not use them.
- The docstring of `parse_range` (api/ranges.py:41-43) says a malformed value is ignored. A malformed
  single range is ignored exactly when one of its sides is no number to `int`; otherwise it is refused or
  served (`Ranges.IgnoredExactlyWhen`). So a last position below the first and a second minus sign are
  refused, and a plus sign or an underscore is served (`MalformedButAnswered`).

## Model

| member | source | states |
|---|---|---|
| `Linkage.MeanDistanceClosed` | processing/clustering.py:23-25 | the mean cosine distance over all pairs of two clusters is 1 minus the product of their vector sums over the product of their sizes, and is never negative, so the clamp at 0 changes nothing |
| `Linkage.MeanDistanceSymmetric` | processing/clustering.py:100-102 | the distance does not depend on which cluster asks |
| `Linkage.MeanOfPair` | processing/clustering.py:23-25 | the distance of two finite vectors on their own is one minus their product |
| `Linkage.MeanOfUnion` | processing/clustering.py:114-127 | the distance of a union is the mean of its two parts', weighted by their sizes |
| `Linkage.Reducible` | processing/clustering.py:97-127 | a merged cluster is no nearer to a third than the nearer of its two parts was |
| `Linkage.DotBound` | processing/clustering.py:38-40 | two vectors of length at most one have a product of at most one (Cauchy-Schwarz for the rows after normalisation) |
| `Linkage.PairSumClosed` | processing/clustering.py:23-25 | summing the distances pair by pair gives the closed form |
| `Linkage.CountIsSize` | processing/clustering.py:72-88 | the size of a cluster is the number of its finite members |
| `DisjointSets.LinkKeepsForest` | processing/clustering.py:57-58 | linking two roots keeps the parent array a forest whose classes are the merged ones |
| `DisjointSets.UnionFind.Find` | processing/clustering.py:51-55 | path halving returns the representative and changes no class |
| `DisjointSets.UnionFind.Union` | processing/clustering.py:57-58 | exactly the two classes become one |
| `NnChain.ChainNeverRevisits` | processing/clustering.py:97-113 | the next link is never a cluster already on the chain |
| `NnChain.ExtendKeepsChain` | processing/clustering.py:128-129 | pushing a nearest neighbour keeps chain members alive and distinct, each the nearest of the one before, and link distances strictly decreasing |
| `NnChain.MergeKeepsShape` | processing/clustering.py:114-127 | a reciprocal merge keeps the clusters alive a partition, each a dendrogram node |
| `NnChain.MergeKeepsChain` | processing/clustering.py:114-127 | the links below a merge stay nearest neighbours, cannot-links included |
| `NnChain.MergeKeepsMonotone` | processing/clustering.py:131-132 | no pair of live clusters is nearer than the merges that made them: heights are monotone |
| `NnChain.BreakMeansAllForbidden` | processing/clustering.py:105-107 | when nothing at a finite distance is left for the tip, every remaining pair is cannot-linked |
| `NnChain.ChainFits` | processing/clustering.py:94-129 | the chain is never longer than the clusters alive, which bounds the loop |
| `NnChain.MergeAboveKeepsCut` | processing/clustering.py:131-135 | skipping a merge above the threshold keeps the union-find classes apart by more than the threshold |
| `NnChain.MergeBelowKeepsCut` | processing/clustering.py:131-135 | applying a merge at or below it joins exactly two such classes |
| `NnChain.CutIsMaximal` | processing/clustering.py:131-135 | the cut's classes are dendrogram nodes at or below the threshold, and any two that may be linked are farther apart than it |
| `NnChain.TreeHonoursPins` | processing/clustering.py:25-29 | every dendrogram node holds all indices of an identity it holds one of, and no two identities |
| `NnChain.JustifiedHonoursPins` | processing/clustering.py:25-29 | so does every output cluster, and unpinned vectors without geometry are alone |
| `AverageLinkage.ClosestPairFirst` | processing/clustering.py:23-25 | average linkage by height: at any threshold, the next merge above it joins two linkable clusters of the cut at that threshold, and no two linkable clusters of it are closer |
| `AverageLinkage.NothingLinkableAbove` | processing/clustering.py:105-107 | past the last merge no two clusters of the cut may be linked at any distance |
| `AverageLinkage.MergeKeepsRecord` | processing/clustering.py:114-127 | whatever order the chain merges in, every merge so far joined two clusters of the cut just below it |
| `AverageLinkage.MergesAreDetermined` | processing/clustering.py:29-30 | the loop has one course: the corpus determines its merges, ties included |
| `Clustering.NormalisedIsValid` | processing/clustering.py:35-40 | the rows of the normalised corpus have length at most one, as the geometry needs |
| `Clustering.NormalisedDirections` | processing/clustering.py:35-40 | a finite row that is not zero has length exactly one after normalisation, and times its norm is the row it was; a zero row and one with a non-finite coordinate become zeros |
| `Clustering.CosineOfRows` | processing/clustering.py:38-40 | the product of two normalised rows, times both norms, is the product of the rows as they came: the distance is the cosine distance |
| `Clustering.NormMeans` | processing/clustering.py:35-38 | a norm is not negative, its square is the product of a finite row with itself, and it is 0 for a row that is not finite |
| `Clustering.PinGroups` | processing/clustering.py:42-47 | the pinned indices grouped by identity, complete, disjoint, each group ascending, the groups in order of first appearance |
| `Clustering.UnionPins` | processing/clustering.py:60-62 | two indices end in one class exactly when they are equal or pinned to one identity |
| `Clustering.LayBlocks` | processing/clustering.py:72-88 | one slot for each pin group and each unpinned index, with its sum, size, tag and liveness |
| `Clustering.ClampedIsMean` | processing/clustering.py:100-102 | the clamped formula over sums and sizes is the mean pairwise distance |
| `Clustering.Measure` | processing/clustering.py:100-104 | the distance computed from the arrays is the abstract one, infinite across identities |
| `Clustering.ArgMin` | processing/clustering.py:105-108 | the least distance and the first slot that has it |
| `Clustering.Probe` | processing/clustering.py:98-113 | the next link: the previous link if it is a nearest neighbour, else the nearest neighbour in the lowest slot; or nothing at a finite distance |
| `Clustering.MergeArrays` | processing/clustering.py:115-127 | the arrays after a merge mirror the merged clusters |
| `Clustering.Agglomerate` | processing/clustering.py:90-129 | the loop ends, by active clusters and then chain length, with the one merge list its turns lead to; at every threshold at once its cut leaves nothing to merge, has dendrogram nodes for clusters, and is left by joining a closest pair |
| `Clustering.Components` | processing/clustering.py:137-140 | the classes as lists: each index once, ascending, in order of first member |
| `Clustering.ClusterCorpus` | processing/clustering.py:16-140 | normalised to directions, each vector with its pin; average linkage of those, cut at the threshold: a partition into the classes of the merges at or below it, each a dendrogram node, and any two of which that hold a finite vector and are not pinned apart lie farther apart than the threshold |
| `Clustering.ClustersAreDetermined` | processing/clustering.py:29-30 | deterministic: one corpus and one threshold have one result, as lists |
| `Clustering.PinsAreHonoured` | processing/clustering.py:25-29 | same identity, same cluster; different identity, different cluster; unpinned non-finite vectors are singletons |
| `Reconcile.ClearedMembers` | database/repos/speakers.py:249-260 | clearing a model takes exactly its prints from every speaker, and moves no print to another model |
| `Reconcile.AssignedMembers` | database/repos/speakers.py:262-268 | assigning gives the speaker exactly the listed prints that exist besides its own, and takes them from whoever had them |
| `Reconcile.PrunedRefers` | database/repos/speakers.py:409-421 | deleting the unnamed speakers without a member keeps the foreign key: every assigned print still has its speaker, and no speaker with a print of any model goes |
| `Reconcile.MatchIdentity` | processing/pipelines/speaker_cluster.py:190-207 | none exactly when every speaker the group's prints carry is gone or claimed; else one that is free, named if any free one is, and among the equally named none holds more of the group's prints, or as many under a lesser id |
| `Reconcile.VotesAreCounted` | processing/pipelines/speaker_cluster.py:195-197 | a speaker's votes are the number of the group's prints that carry it |
| `Reconcile.PinIsFree` | processing/pipelines/speaker_cluster.py:152-168 | a pinned cluster's identity is not taken yet |
| `Reconcile.ClusterOrderMeans` | processing/pipelines/speaker_cluster.py:143-150 | clusters come pinned ones first, then the larger, then by the id of their first print |
| `Reconcile.Resolve` | processing/pipelines/speaker_cluster.py:145-172 | resolved identities differ; pinned clusters get their pin, the others their best match among what is left |
| `Reconcile.WrittenKeepsPins` | processing/pipelines/speaker_cluster.py:174-186 | prints pinned to a speaker of the model are assigned to it |
| `Reconcile.WrittenAssignsClusters` | processing/pipelines/speaker_cluster.py:174-186 | two prints share a speaker exactly when they share a cluster |
| `Reconcile.WrittenThenPruned` | database/repos/speakers.py:409-421 | named and other models' speakers survive; unnamed ones of the model that survive have a member |
| `Reconcile.UnchangedClustersKeepIds` | processing/pipelines/speaker_cluster.py:138-143 | id stability: clusters whose prints already carry one speaker each resolve to those speakers |
| `Reconcile.UnchangedRebuildKeepsPrints` | processing/pipelines/speaker_cluster.py:138-143 | a rebuild that finds the clusters the stored table already carries leaves each of their prints with its stored speaker |
| `Reconcile.SecondRebuildExactlyWhen` | processing/pipelines/speaker_cluster.py:103-187 | a second rebuild over the same corpus, clustering included, changes neither speakers nor prints exactly when every gated pin is to a speaker of the model |
| `Reconcile.ClusteredAlike` | processing/pipelines/speaker_cluster.py:103-121 | rows that differ only in their assignments are clustered alike |
| `Reconcile.ForeignPinMoves` | processing/pipelines/speaker_cluster.py:152-168 | a print pinned to another model's speaker is not assigned to it, and is moved to a fresh speaker by every rebuild |
| `Reconcile.ForeignPinExample` | database/repos/label_carry.py:67-78 | one print of a new model pinned to a speaker of an old one: any two rebuilds in a row differ |
| `Reconcile.RebuildRefers` | processing/pipelines/speaker_cluster.py:174-187 | a rebuild keeps the foreign key of the prints |
| `Reconcile.GateIgnoresSpeakers` | processing/pipelines/speaker_cluster.py:105-113 | the rows that pass the gate do not depend on the assignments a rebuild writes |
| `Reconcile.Reconcile` | processing/pipelines/speaker_cluster.py:129-187 | all of that of the tables after the call, other models' prints untouched, gated-out prints unassigned |
| `Reconcile.Gate` | processing/pipelines/speaker_cluster.py:105-118 | the gated prints, in corpus order, are those long enough, of unknown length, or pinned; norms and pins keep their positions |
| `Reconcile.GateMeans` | processing/pipelines/speaker_cluster.py:105-112 | what passes is, in order, exactly each print that is pinned, of unknown length or no shorter than the least talk time |
| `Reconcile.RebuildModel` | processing/pipelines/speaker_cluster.py:103-124 | gate, cluster and reconcile together: average linkage of the gated prints, the identities their clusters resolve to, and every consequence for the tables |
| `Intervals.GapCrosstalk` | processing/pipelines/diarize.py:114-129 | the number of milliseconds of the gap in the union of start-sorted, possibly overlapping spans |
| `Intervals.SweepAdds` | processing/pipelines/diarize.py:122-128 | one span adds what the cursor has not counted |
| `LabelCarry.Overlap` | processing/label_carry.py:39-50 | on any two lists, the milliseconds common to the pairs of spans the sweep meets, counted pair by pair |
| `LabelCarry.OverlapExactlyWhen` | processing/label_carry.py:39-50 | on sorted lists that is never less than the size of the intersection, and equal to it exactly when no millisecond lies in two of those pairs |
| `LabelCarry.CleanBySize` | processing/label_carry.py:40-40 | a list is free of overlap exactly when its spans are as long together as what they cover |
| `LabelCarry.ScoreRightExactlyWhen` | processing/label_carry.py:39-63 | against every list free of overlap a list is measured right, as an old and as a new label, exactly when it is free of overlap itself |
| `LabelCarry.BestFor` | processing/label_carry.py:61-69 | a label of largest measured overlap, the least name on ties; none exactly when no label shares any speech |
| `LabelCarry.MapLabels` | processing/label_carry.py:53-70 | every old label that shares speech with a new one is mapped to its best one; the others, and no more, are left out |
| `LabelCarry.BestLabelUnique` | processing/label_carry.py:59-61 | that label is unique, so the result is deterministic |
| `LabelCarry.CleanPicksMost` | processing/label_carry.py:56-56 | without overlap inside any list the label picked is one that shares the most speech |
| `LabelCarry.PickRightExactlyWhen` | processing/label_carry.py:56-56 | a new label is harmless against every rival and every old label free of overlap exactly when it is free of overlap itself |
| `LabelCarry.OverlapScoresTwice` | processing/label_carry.py:39-50 | [0,10) with [5,20) beats [0,24) for the old label [0,24), with 20 ms shared against 24 |
| `OldLabels.OldRightExactlyWhen` | processing/label_carry.py:56-56 | among new labels free of overlap an old label is always given one that shares the most exactly when every millisecond two of its spans share is the first of at most two that it has |
| `OldLabels.TooHighCoversAll` | processing/label_carry.py:39-50 | a new label free of overlap that is scored too high covers all of such an old one |
| `OldLabels.OldOverlapMisleads` | processing/label_carry.py:53-70 | an old label [0,10) with [5,20): [9,11) and [15,18) both score 3, and the one picked shares 2 |
| `Interjections.InterjectionHosts` | processing/pipelines/diarize.py:213-235 | a host is no interjection, contains the interjection, is another span and has another speaker; whenever a span that is no interjection does so to one that is not empty, that one is mapped, to a host that starts no later, then is no shorter, then comes no later in the list |
| `Interjections.MapNext` | processing/pipelines/diarize.py:228-232 | mapping the next span to the first open root that hosts it keeps that meaning |
| `Interjections.RootNext` | processing/pipelines/diarize.py:233-234 | so does making it a root when none does |
| `Interjections.DocumentedExactlyWhen` | processing/pipelines/diarize.py:214-221 | the docstring holds of the result exactly when outermost containers are free |
| `Interjections.NoNestingMeetsDocstring` | processing/pipelines/diarize.py:214-221 | it holds when no span lies inside another of the same speaker |
| `Interjections.NestedSpeakerIsMissed` | processing/pipelines/diarize.py:214-221 | three spans for which it fails |
| `Interjections.HostIdsAreDefined` | processing/pipelines/diarize.py:711-727 | every host is among the utterances created first, so the id lookup is defined |
| `Utterances.MergeTurns` | processing/pipelines/diarize.py:177-192 | the greedy runs: slices of the sorted turns, each turn joins exactly when gap, cap and crosstalk budget allow |
| `Utterances.SplitRun` | processing/pipelines/diarize.py:193-208 | the pieces tile the run, are non-empty, within the cap, differ by at most 1 ms, and are the fewest that fit |
| `Utterances.PieceLength` | processing/pipelines/diarize.py:200-208 | the bounds computed by floor division give such pieces |
| `Utterances.PieceCountFits` | processing/pipelines/diarize.py:199-199 | the ceiling is at least two, at most the duration, enough for the cap, and no smaller number is |
| `Utterances.BySpeaker` | processing/pipelines/diarize.py:161-164 | each speaker's non-empty turns in list order |
| `Utterances.UtterancesFromTurns` | processing/pipelines/diarize.py:132-210 | every speaker's runs and pieces, all of them, in order of start, then end, then speaker |
| `Utterances.SortedMeans` | processing/pipelines/diarize.py:161-178 | a run is built from exactly one speaker's non-empty turns, each as often as it is listed, in order of start and then end |
| `Utterances.GapSpeechMeans` | processing/pipelines/diarize.py:166-176 | the foreign speech of a gap is the number of its milliseconds that lie in a raw turn of any other speaker |
| `Utterances.UtterancesMeetContract` | processing/pipelines/diarize.py:142-160 | no utterance is empty or over the cap, each comes from a run or a single over-long turn, and every millisecond of every turn is covered by its own speaker |
| `Utterances.OverCapIsSingle` | processing/pipelines/diarize.py:198-198 | a run longer than the cap is one turn |
| `Utterances.MergedGapsAreQuiet` | processing/pipelines/diarize.py:150-159 | inside a run every gap is within the merge gap, at most the budget of its milliseconds lie in a raw turn of another speaker, and the run never grew past the cap |
| `Utterances.RefusedForAReason` | processing/pipelines/diarize.py:179-187 | a run ends before the speaker's next turn only for one of three reasons: too long a gap, over the cap together, or more than the budget of the gap in a raw turn of another speaker |
| `Diarize.RunsOverlapExactlyWhen` | processing/pipelines/diarize.py:178-192 | two runs of a speaker overlap exactly when the cap keeps some turn out of a run it overlaps |
| `Diarize.RunsGrow` | processing/pipelines/diarize.py:178-192 | without a turn over the cap every run starts and ends after the one before it |
| `Diarize.NoneInside` | processing/pipelines/diarize.py:142-160 | then no published utterance lies inside another one of its speaker |
| `Diarize.UtterancesMeetDocstring` | processing/pipelines/diarize.py:213-221 | end to end: then the hosts of the published utterances are those the docstring of `interjection_hosts` promises |
| `Diarize.CapLeavesOverlap` | processing/pipelines/diarize.py:178-192 | [0,10) and [5,20) of one speaker under a 15 ms cap are published as two utterances that overlap |
| `Diarize.SplitLeavesNesting` | processing/pipelines/diarize.py:193-208 | [0,20) and [2,5) of one speaker under a 10 ms cap are published as three, one inside another |
| `VadSpans.FindRuns` | processing/vad.py:121-133 | the maximal runs of frames at or above the threshold |
| `VadSpans.MergeRuns` | processing/vad.py:135-141 | runs joined exactly across gaps below the merge gap |
| `VadSpans.PadNext` | processing/vad.py:146-152 | padding one run and re-merging keeps the regions separate and covering exactly what is within the padding |
| `VadSpans.Pad` | processing/vad.py:145-152 | and so for the whole list |
| `VadSpans.QuietestCut` | processing/vad.py:166-175 | the first least-scored frame among those that end past three quarters of the cap and not past the cap, or the hard cap when no scored frame does |
| `VadSpans.CutAdvances` | processing/vad.py:157-162 | with three quarters of the cap a frame or more, a cut makes progress and stays within the cap |
| `VadSpans.ProgressExactlyWhen` | processing/vad.py:157-175 | every cut from every start makes progress, whatever the scores, exactly when three quarters of the cap are a frame or more; for every cap, also one of no time or less |
| `VadSpans.ShortCapGoesBack` | processing/vad.py:157-175 | a 32 ms frame, a 20 ms cap and a padded start at 13 ms cut at 0 |
| `VadSpans.CutRegion` | processing/vad.py:155-162 | the whole course of the splitting loop, wherever it ends: each piece begins at the quietest cut of the one before, for exactly as long as more than the cap is left |
| `VadSpans.AlongIsCutUp` | processing/vad.py:155-162 | where every cut makes progress, those pieces tile the region, each within the cap |
| `VadSpans.EndsExactlyWhen` | processing/vad.py:157-175 | the loop ends on every region and for all scores exactly when the whole caps that fit below a frame and three quarters of one more are at least a frame |
| `VadSpans.NeverBack` | processing/vad.py:166-175 | then it never comes back to a frame it has cut at |
| `VadSpans.RunsInCircles` | processing/vad.py:157-175 | otherwise it comes back to 0 for ever from there |
| `VadSpans.SpansFromScores` | processing/vad.py:97-163 | for any scores and settings on which the loop ends, the result of all stages, each characterised; well formed when the scored frames fit the audio |
| `VadSpans.BoundedExactlyWhen` | processing/vad.py:108-163 | for n scores, whatever they are, spans are non-empty, ordered, inside the audio and within the cap exactly when no run of the least length that fits in n frames can start at or past the end of the audio and the padding |
| `VadSpans.ScoresPastTheEnd` | processing/vad.py:108-163 | two scores of 32 ms frames for 10 ms of audio, the second speech: the result is one span from 32 to 10 |
| `VadSpans.SpansMeetContract` | processing/vad.py:108-120 | spans are non-empty, ordered, disjoint, inside the audio, within the cap, and cover exactly the padded kept runs |
| `SpeechDetect.Backend.Scores` | processing/vad.py:49-72 | chunks of any size stream through: the scores so far are one for each whole frame heard so far |
| `SpeechDetect.ScoresMean` | processing/vad.py:49-72 | score k is that of the k-th 1024 bytes, after everything before them |
| `SpeechDetect.ScoresFit` | processing/pipelines/speech_detect.py:70-82 | the frames scored never reach past the length of the session |
| `SpeechDetect.DetectSpeech` | processing/pipelines/speech_detect.py:60-82 | 16 kHz mono or nothing; the spans of the session's whole frames, however the store delivers them, well formed whenever every cut makes progress |
| `Conversations.GroupRuns` | processing/pipelines/conversation.py:141-158 | the runs are the slices of the turns at exactly the seams, each seam recorded with its reason |
| `Conversations.SortTurnsOrders` | processing/pipelines/conversation.py:141-141 | the turns grouped are the turns given, in order of start, then end, then id |
| `Conversations.SeamMeans` | processing/pipelines/conversation.py:145-152 | a gap is a turn that starts more than the gap after the start of the session and after every turn before it has ended; a block seam is no gap but another block than the turn just before |
| `Conversations.Assemble` | processing/pipelines/conversation.py:161-178 | each run becomes one conversation with its members and statistics, its closure the reason of the next seam, its silences measured to its neighbours and open at both ends of the session |
| `Conversations.DescribesMeans` | processing/pipelines/conversation.py:106-129 | the statistics are the first start, the latest end and the number of the members |
| `Conversations.AssembledAgree` | processing/pipelines/conversation.py:161-178 | neighbours agree on closure and opening and on the silence between them |
| `Conversations.GroupConversations` | processing/pipelines/conversation.py:132-158 | the turns in order of start are partitioned, in order, into neighbours that agree on boundary and silence, each cut at exactly the seams |
| `Conversations.FindShifts` | processing/pipelines/conversation.py:236-248 | greedy cuts at shifts, at least a window apart, missing no shift but those inside the window after a cut |
| `Conversations.ShiftMeans` | processing/pipelines/conversation.py:232-244 | a shift: in the window before and in the window after, enough turns have a speaker who is not the user, and no such speaker is heard in both |
| `Conversations.SlicesFlatten` | processing/pipelines/conversation.py:252-253 | cutting and concatenating gives the members back |
| `Conversations.SplitOnChurn` | processing/pipelines/conversation.py:215-272 | the pieces are the slices at those cuts, hold the members in order, have at least a window of turns each, meet at speaker changes, and keep the conversation's outer boundaries |
| `Conversations.JoinSplits` | processing/pipelines/conversation.py:290-298 | splitting one conversation keeps its neighbours' agreement |
| `Conversations.BuildConversations` | processing/pipelines/conversation.py:275-299 | before the floor the members concatenated are the turns in order of start and neighbours agree; the result is, in order, exactly the pieces with at least the least number of members |
| `Conversations.GroupsAreQuiet` | processing/pipelines/conversation.py:135-140 | inside one conversation the session is never silent past the gap and the block is constant |
| `Conversations.OwnSilenceExactlyWhen` | processing/pipelines/conversation.py:135-156 | the members' own silence is bounded by the gap exactly when it is against their block's stretch |
| `Conversations.HiddenSilence` | processing/pipelines/conversation.py:144-156 | three turns for which it is not |
| `PcmPooling.StepKeepsInvariant` | api/stream_pool.py:76-125 | every step conserves the audio, counts pending bytes and bounds memory |
| `PcmPooling.RunsConserveAudio` | api/stream_pool.py:76-125 | under every interleaving, the flushes in submission order and then the buffer are the accepted frames in strictly increasing sequence order; pending is the unfinished flushes; buffered plus pending exceeds the cap by at most the frame being added |
| `PcmPooling.BlockedExactlyWhen` | api/stream_pool.py:83-89 | every reachable blocked add has an unfinished store to wait for exactly when the target is at most the first whole number of samples past the cap, or no frame fits |
| `PcmPooling.BlockedCanMove` | api/stream_pool.py:83-105 | under any settings a blocked add has a store that can finish, or the armed timer, whose flush makes one |
| `PcmPooling.LastRowIsResumePoint` | api/stream_pool.py:127-137 | once all is flushed the last row carries the highest accepted sequence |
| `PcmPooling.PcmPooler.IngestFrame` | api/routes/stream.py:664-684 | empty, ragged and oversized frames are refused first; a frame above everything accepted enters the pool, one already acked is a duplicate, anything between is refused |
| `PcmPooling.PcmPooler.AddFrame` | api/stream_pool.py:76-86 | the whole new state of an add up to its first await |
| `PcmPooling.PcmPooler.Resume` | api/stream_pool.py:87-89 | add returns exactly when there is room; otherwise it waits for an event that a store will set |
| `PcmPooling.PcmPooler.SubmitPool` | api/stream_pool.py:107-118 | the snapshot becomes a flush and counts as pending |
| `PcmPooling.PcmPooler.TimerFires` | api/stream_pool.py:101-105 | nothing stays pooled past the timer |
| `PcmPooling.PcmPooler.FlushPool` | api/stream_pool.py:91-94 | nor past an explicit flush |
| `PcmPooling.PcmPooler.StoreEnds` | api/stream_pool.py:120-125 | its bytes are no longer pending and whoever waits wakes up |
| `AckTracking.AckPointIsLargest` | api/routes/stream.py:137-141 | the ack point is the largest t with every sequence from base+1 to t noted |
| `AckTracking.AckPointMonotone` | api/routes/stream.py:137-141 | noting more never moves it back |
| `AckTracking.AckTracker.ThroughIsAckPoint` | api/routes/stream.py:116-118 | `through` depends only on the set of noted sequences, not on their order |
| `AckTracking.AckTracker.Advance` | api/routes/stream.py:137-141 | one note moves it as far as the sequences are contiguous |
| `AckTracking.AckTracker.NoteStored` | api/routes/stream.py:124-128 | published counts and bytes plus the remainder are all stored notes; an ack goes out exactly when the window is full |
| `AckTracking.AckTracker.NoteDuplicate` | api/routes/stream.py:130-135 | a duplicate counts toward contiguity and is reported once |
| `AckTracking.AckTracker.OnActivity` | api/routes/stream.py:143-147 | publishes at a full window, else leaves a timer armed |
| `AckTracking.AckTracker.TimerFires` | api/routes/stream.py:149-152 | when the window's time is up everything noted since the last ack is acked, and the timer is off |
| `AckTracking.AckTracker.Flush` | api/routes/stream.py:154-172 | one ack for everything noted since the last, none for nothing |
| `WavFile.PatchMeansResize` | services/stitch.py:84-93 | patching the header of a stored file gives the header of a file with that many data bytes |
| `WavFile.HeaderLayout` | services/wav.py:14-25 | every field of a header has its value at its offset, least significant byte first: sizes, PCM, channels, rate, two bytes a sample for each channel in the byte rate and the block align, 16 bits |
| `WavFile.FormatRoundTrip` | services/timeline.py:68-76 | reading rate and channels back from a stored file gives those it was written with |
| `Stitching.MakePlan` | services/stitch.py:66-81 | the pieces lay all data chunks out behind one header, in order, without gaps |
| `Stitching.PieceReads` | services/stitch.py:106-111 | where a range meets a piece, the blob range read is the range's part of the file |
| `Stitching.Slices` | services/stitch.py:102-111 | concatenating what the slices read is exactly that range of the header followed by all data chunks; no header slice past the header |
| `Stitching.AudioOfFlushes` | services/wav.py:28-30 | the data chunks of the stored flushes are their PCM |
| `Stitching.StitchedFileIsOneWav` | services/stitch.py:66-93 | the stitched file is one WAV file around all the PCM |
| `Stitching.FrameOffsetMonotone` | services/timeline.py:53-56 | later times are later offsets, time 0 is the first data byte |
| `Stitching.FrameOffsetMeans` | services/timeline.py:53-56 | an offset is 44 bytes of header and two bytes a channel for each whole frame before that time |
| `Stitching.ClipMeans` | services/timeline.py:58-65 | a clip is the frames from its start, or the session's, to its end, or the audio's, two bytes a channel each; there is none exactly when that is no frame |
| `Stitching.DurationsMean` | services/timeline.py:45-51 | the length of the audio is its whole milliseconds, and a window the whole frames of its duration |
| `Stitching.ByteRangeInAudio` | services/timeline.py:58-65 | a byte range lies inside the audio, never in the header |
| `Stitching.RenderedConcat` | services/timeline.py:58-65 | rendering [a,b) then [b,c), both non-empty, gives exactly the PCM of [a,c) |
| `Stitching.RenderRange` | services/timeline.py:138-151 | the clip is a WAV file around exactly that PCM; an error exactly when the range is empty or the clip too large for a header |
| `Stitching.IterWindows` | services/timeline.py:154-181 | windows of the full size, the last one shorter, that concatenate to the whole audio of the plan's pieces; the k-th is given the time k times the window |
| `Stitching.WindowTimesExactlyWhen` | services/timeline.py:164-179 | those times are the times of the windows' first frames, for every window, exactly when a window is a whole number of frames |
| `Stitching.WindowTimesDrift` | services/timeline.py:164-179 | at 44.1 kHz the tenth 1 ms window begins a frame before the time it is given |
| `Stitching.WindowsUnique` | services/timeline.py:157-162 | those windows do not depend on how the blobs arrive |
| `Playback.RowsInFlushOrder` | api/stream_pool.py:107-118 | rows in sequence order are the flushes in submission order, whatever order their stores end in |
| `Playback.StreamPlaysBack` | api/stream_pool.py:76-125 | once all is flushed and stored, the file stitched from the rows by sequence number, whatever order their stores ended in, is one WAV file around exactly the accepted frames in sequence order |
| `Ranges.PartsAreInBounds` | api/ranges.py:38-78 | whatever the header says, a range returned is inside the representation |
| `Ranges.SpecParts` | api/ranges.py:51-59 | a single-range header splits into what stands before its first dash and the rest |
| `Ranges.EverySpec` | api/ranges.py:51-59 | every text without a comma that holds a dash, stripped, is such a range |
| `Ranges.UnitMeans` | api/ranges.py:51-53 | the unit is accepted exactly when it is the five letters of "bytes" in either case with nothing but spaces around them |
| `Ranges.NoRange` | api/ranges.py:48-53 | no header, an empty one and one without an equals sign get the whole representation |
| `Ranges.AnyHeader` | api/ranges.py:48-59 | any other header does unless the unit is bytes and what follows the first equals sign holds a dash and no comma; then it is answered as the single range after `bytes=` |
| `Ranges.RangeMeaning` | api/ranges.py:56-78 | the answer to any of them: ignored exactly when a side is no number, refused exactly when the numbers select nothing, else exactly the bytes asked for |
| `Ranges.IgnoredExactlyWhen` | api/ranges.py:38-49 | a well-formed range is never ignored; a malformed one is exactly when a side is no number to the parser |
| `Ranges.MalformedButAnswered` | api/ranges.py:61-78 | `--5` and `5--3` are refused, `+1-1_0` is served as 1 to 10 |
| `Ranges.PythonReadsDigits` | api/ranges.py:61-74 | digits are read as the number they stand for |
| `Ranges.ClosedMeaning` | api/ranges.py:70-78 | `a-b` selects from a to b or to the last byte; refused exactly when a is past the end or b before a |
| `Ranges.OpenMeaning` | api/ranges.py:70-78 | `a-` selects from a to the last byte |
| `Ranges.SuffixMeaning` | api/ranges.py:62-68 | `-n` selects the last n bytes, or all; unsatisfiable for 0 or an empty representation |
| `TwoStore.StepNoDanglingRow` | services/segments.py:140-154 | no step leaves a blob-backed row without its object |
| `TwoStore.StepRowsLive` | services/segments.py:283-307 | rows belong to live sessions and name keys of their own session |
| `TwoStore.StepSequencesUnique` | database/repos/segments.py:91-105 | no session has a sequence twice |
| `TwoStore.StepAccounted` | services/segments.py:106-229 | without crashes every object is named by a row or held by an operation that will delete or commit it |
| `TwoStore.StepRows` | services/segments.py:140-229 | a row is there after a step exactly when the step inserted it, under its session, sequence and key, or it was there and the step deleted neither it nor its session; rows never change |
| `TwoStore.StepObjects` | services/segments.py:129-154 | an object is there exactly when the step wrote it, or it was and the step was not its deletion by a refused ingest, a row's deletion or a sweep |
| `TwoStore.RunsKeepInvariant` | services/segments.py:106-307 | all of that over every interleaving of ingests, streamed chunks and deletions, with crashes anywhere |
| `TwoStore.CommitAchieves` | services/segments.py:140-154 | a committed ingest has its row, under its session and sequence, and the object that names; all other rows and all objects are as they were |
| `TwoStore.IngestAlone` | services/segments.py:106-154 | the steps of an ingest that goes well add one row and its object and nothing else |
| `TwoStore.RefusedIngestAlone` | services/segments.py:146-154 | those of a refused one leave neither row nor object |
| `TwoStore.DeletionAlone` | services/segments.py:283-293 | deleting a row takes it and its object and nothing else |
| `TwoStore.SessionDeletionAlone` | services/segments.py:296-307 | deleting a session takes its rows and every object under its prefix and nothing else |
| `TwoStore.RowsAlwaysReadable` | services/segments.py:106-307 | in every reachable state every blob-backed row has its object and no two rows of a session share a sequence |
| `TwoStore.StoredRowStays` | services/segments.py:106-307 | durability over every run, crashes anywhere: a stored row stays as it is, with its object, until it or its session is deleted |
| `TwoStore.QuiescentStoresAgree` | services/segments.py:283-307 | after a run without a crash, once nothing is in flight, the objects are exactly those the rows name |
| `SequenceRace.PaidStep` | services/segments.py:46-49 | every failed attempt is paid for by another commit since the caller began |
| `SequenceRace.CountedStep` | services/segments.py:87-103 | without other writers every commit uses up one caller |
| `SequenceRace.SequencesAfter` | services/segments.py:87-103 | the numbers taken after a step are those committed, by a caller or anyone else, and not deleted |
| `SequenceRace.CallersAfter` | services/segments.py:87-103 | a caller reads a number, commits it and is done, or fails and reads again, and gives up at the fifth failure |
| `SequenceRace.FailureNeedsCommits` | services/segments.py:46-49 | a k-th failure needs k other commits to the session since the caller began |
| `SequenceRace.FiveCallersNeverExhaust` | services/segments.py:87-103 | at most five callers and no other writer: none runs out of tries |
| `SequenceRace.EnoughExactlyWhen` | services/segments.py:46-49 | five tries are enough for n callers, however they interleave, exactly when n is at most five |
| `SequenceRace.TwoAtATimeCanExhaust` | services/segments.py:46-49 | a run of six callers with never more than two in flight in which one, overtaken by the five others, runs out of tries |
| `Artifacts.StepClosed` | processing/pipelines/diarize.py:695-753 | every committed transaction keeps what rows point at present and in the same session |
| `Artifacts.PublishConversationsClosed` | processing/pipelines/conversation.py:426-438 | the re-check of the diarize-map makes a publication from an earlier read safe |
| `Artifacts.TranscriptClosed` | processing/pipelines/transcribe.py:152-184 | transcripts, from the tier or from a vote, are of existing utterances and carry those utterances' own hosts |
| `Artifacts.StepNoClash` | processing/pipelines/transcribe.py:159-165 | one diarize-map and one conversation-map a session, one transcript an utterance |
| `Artifacts.StepJobsSound` | processing/pipelines/conversation.py:339-349 | what a job has read stays current while the row it was enqueued for exists |
| `Artifacts.RowsDeleted` | database/repos/artifacts.py:81-92 | exactly which rows a transaction deletes: what is replaced or derived from it, candidates only with their session, before a new comparison or for a re-run of diarization |
| `Artifacts.RowsAdded` | processing/pipelines/diarize.py:695-753 | exactly which rows a transaction adds and what they say: utterances and their map, conversations and their map unless the diarize-map is gone, a transcript unless the utterance is gone or has one, a candidate, the transcript of an accepted vote |
| `Artifacts.RowsChanged` | api/routes/conversations.py:53-130 | exactly what it changes: members and exclusions of a curated conversation, the text of an edited or voted transcript, nothing else |
| `Artifacts.JobsChanged` | processing/pipelines/conversation.py:339-349 | what a worker holds after a transaction: what it was enqueued for or has read, nothing once it has published or given up |
| `Artifacts.SessionsChanged` | database/repos/artifacts.py:81-92 | a session exists from its creation to its deletion |
| `Artifacts.RunsKeepInvariant` | processing/pipelines/diarize.py:695-753 | over all runs of committed transactions |
| `Artifacts.ArtifactsStayClosed` | database/repos/artifacts.py:81-92 | one diarize-map a session; conversations stand on it and their members and exclusions are current utterances; each utterance has at most one transcript, every transcript a current utterance and host |
| `Artifacts.PublicationReadsPresent` | processing/pipelines/conversation.py:426-430 | a publication that is not skipped groups exactly the session's present utterances, below the row limit |
| `Artifacts.VoteIsTheTranscript` | api/routes/ab.py:129-186 | an accepted vote makes the candidate's text the utterance's only transcript; others change nothing |
| `Artifacts.DanglesExactlyWhen` | processing/pipelines/transcribe_ab.py:82-119 | after a step a candidate's utterance is missing exactly when it already was, the session was re-diarized by that step, or that step published the candidate for an utterance already gone |
| `Artifacts.CandidatesMayDangle` | processing/pipelines/transcribe_ab.py:85-116 | a run after which a candidate's utterance is gone |
| `Publications.DiarizeAlone` | processing/pipelines/diarize.py:695-753 | a diarization replaces the session's utterances, map, transcripts and conversations; its candidates and all other sessions' rows stay |
| `Publications.RegroupAlone` | processing/pipelines/conversation.py:334-438 | on the present diarize-map the conversation tier replaces the session's conversations by those of its groups, and their map |
| `Publications.TranscribeAlone` | processing/pipelines/transcribe.py:152-184 | an utterance without a transcript gets exactly one, under its host |
| `Publications.CompareAlone` | processing/pipelines/transcribe_ab.py:82-119 | a comparison replaces the session's candidates |
| `Publications.VoteAlone` | api/routes/ab.py:129-186 | the candidate's text becomes that of the utterance's transcript, or of a new one when there is none |
| `Publications.ExcludedAndBack` | api/routes/conversations.py:98-130 | the exclusion is reversible: taking an utterance out and putting it back changes nothing, while all members can be read and enough are left |
| `ModelLifecycle.AttemptKeepsBooks` | sidecars/diar_pyannote/app.py:98-112 | the counters agree with the history of load attempts after every attempt |
| `ModelLifecycle.Sidecar.RecordLoadResult` | sidecars/diar_pyannote/app.py:98-112 | the whole new state of the bookkeeping |
| `ModelLifecycle.Sidecar.LoadModel` | sidecars/diar_pyannote/app.py:115-161 | the whole new state after a load that succeeds, or fails before or after the embedder |
| `ModelLifecycle.Sidecar.EnsureLoaded` | sidecars/diar_pyannote/app.py:164-178 | returns exactly when loaded, or when idle or failed, past the backoff and the load succeeds; exactly one attempt is made exactly when idle or failed and past the backoff; success leaves all models present, failure leaves "failed" and backs off; a status of "loaded" is taken at its word |
| `ModelLifecycle.Sidecar.WatchdogTick` | sidecars/diar_pyannote/app.py:187-212 | retries a due failed load, else unloads exactly when idle long enough with the GPU free, else does nothing; an unload that raises leaves the status "loaded", what it had cleared cleared, and ends the thread |
| `ModelLifecycle.StepLocks` | sidecars/diar_pyannote/app.py:75-80 | each lock is held by exactly the thread inside it |
| `ModelLifecycle.StepConsistent` | sidecars/diar_pyannote/app.py:115-212 | every place a thread can be in agrees with the models and the status, through failed loads and aborted unloads |
| `ModelLifecycle.RunsKeepInvariant` | sidecars/diar_pyannote/app.py:115-225 | over every interleaving of the loader, the watchdog and any number of requests, with loads and unloads raising at any point |
| `ModelLifecycle.InferenceHasModels` | sidecars/diar_pyannote/app.py:348-378 | a thread at inference holds the GPU lock and is alone, nobody is loading or unloading, and it has all models exactly when no unload has raised half way |
| `ModelLifecycle.AbortedUnloadBreaks` | sidecars/diar_pyannote/app.py:199-212 | a run in which clearing the cache raises and a request reaches inference with no models |
| `ModelLifecycle.BrokenStays` | sidecars/diar_pyannote/app.py:164-212 | nothing mends that: the status stays "loaded", so no load is tried again and the models stay gone |
| `ModelLifecycle.FailedExactlyAfterFailure` | sidecars/diar_pyannote/app.py:167-169 | the status is "failed" exactly after a failed attempt, so never "idle" after a failed reload |
| `ModelLifecycle.HealthIsHonest` | sidecars/diar_pyannote/app.py:229-256 | with anything happening between its two reads, health says ok only with every model in place; a worker failed at both is reported unready, and one loaded at both is healthy exactly when no unload has raised half way |
| `ModelLifecycle.DiesExactlyAfterFive` | sidecars/diar_pyannote/app.py:98-112 | the process is told to exit exactly when five attempts in a row failed after one had succeeded |
| `ModelLifecycle.HoldersMove` | sidecars/diar_pyannote/app.py:76-80 | the lifecycle holder can always step; the GPU holder waits at most for it |
| `ModelLifecycle.NoDeadlock` | sidecars/diar_pyannote/app.py:76-80 | while any thread is under way some thread can step |
| `ModelLifecycle.StepsUseUpWork` | sidecars/diar_pyannote/app.py:164-212 | each step brings its thread nearer to the end of its visit and moves no other |
| `ModelLifecycle.UnloadOnlyWhenIdle` | sidecars/diar_pyannote/app.py:197-200 | unloading begins only with the idle clock run out and no request holding the GPU |
| `ModelLifecycle.UnloadFirstExactlyWhen` | sidecars/diar_pyannote/app.py:352-419 | with a request at inference, the watchdog can begin unloading before that request sets the clock exactly when the idle time has passed |
| `ModelLifecycle.LongWorkHappens` | sidecars/diar_pyannote/app.py:352-419 | a run with such a request |
| `Visits.RequestChecks` | sidecars/diar_pyannote/app.py:164-178 | a request at the test goes on to load exactly when the worker is idle or failed and past its backoff, and else to the second test; nothing else changes |
| `Visits.WatchdogChecks` | sidecars/diar_pyannote/app.py:187-200 | a tick goes on to load exactly when the worker is failed, had loaded once and is past the backoff, to unload exactly when it is loaded, idle long enough and the GPU free, and else leaves |
| `Visits.IdleWorkerReloads` | sidecars/diar_pyannote/app.py:172-175 | in every run, a request at the test that finds the worker idle or failed and past the backoff goes on to load |
| `Visits.ReloadServes` | sidecars/diar_pyannote/app.py:164-178 | on an idle or failed worker past its backoff, with nobody else inside, the steps of a request load every model and bring it to its work, the counters reset |
| `Visits.LoadedServes` | sidecars/diar_pyannote/app.py:352-378 | on a loaded one they bring it to its work, and only the idle clock has moved |
| `Visits.FailedReloadTurnsAway` | sidecars/diar_pyannote/app.py:140-161 | a load that fails turns the request away and leaves the worker failed, backing off, with one more failure counted |
| `Visits.BackoffTurnsAway` | sidecars/diar_pyannote/app.py:172-178 | before the backoff ends a request is turned away and nothing changes |
| `Visits.IdleIsUnloaded` | sidecars/diar_pyannote/app.py:187-212 | on a worker that has been idle long enough, the steps of a tick unload all three models and change nothing else |
| `Visits.WatchdogReloads` | sidecars/diar_pyannote/app.py:187-196 | on a failed worker past its backoff, the steps of a tick load every model, without any request |
| `Visits.StartupServes` | sidecars/diar_pyannote/app.py:215-224 | the steps of the start-up loader leave every model in place and both locks free |

## Left out

- Floating-point rounding: distances, norms and scores are reals; `np.linalg.norm` enters as norms whose squares are the rows' products with themselves.
- HTTP, websockets, SQL text, S3 calls, validation, configuration and the command line: tables, transactions, blobs and steps stand for them.
- Model inference, `processing/projection.py`, `live/`, `sidecars/asr_parakeet` and `sidecars/audio_tagger`.
- `split_labels` and `blocks_from_spans` of the diarize pipeline, `carried_text`, sound spans, audio tags, timeline events, the session-audio cache, the job queue and the wire codecs: they would add easier members.
- Reconcile.Reconcile: does not model centroids, counts, the advisory lock or the loop over models; the tables hold one user's rows.
- Reconcile.SecondRebuildExactlyWhen: takes every pin to name an existing speaker, as the foreign key does; the cascade that deletes pins with their speaker is not modelled.
- Utterances.UtterancesFromTurns: requires a positive cap; the code divides by it.
- VadSpans.SpansFromScores: requires the splitting loop to end on the regions of the scores, since a call that does not return has no result; negative padding and span confidence are not modelled.
- SpeechDetect.DetectSpeech: the detector's score of a frame is a parameter, a function of what it has been given since its reset; storing the spans and skipping the job are left out.
- Conversations.BuildConversations: takes the user's labels per block as a function; speaker lists and alternation counts are not modelled.
- PcmPooling.RunsConserveAudio: cancellation, teardown and the retries inside one store are not modelled; a store that fails ends like one that succeeds, so the resume point is stated of submitted rows.
- AckTracking.AckTracker.Flush: duplicates are a multiset, since the code sorts them; timer cancellation at shutdown is not modelled.
- Stitching.IterWindows: requires windows of at least one byte; with none the loop never ends once there is audio.
- Ranges.PartsAreInBounds: the integer parser of the host language is a parameter; `Ranges.PythonInt` is it for header text, control characters and its limit of digits aside.
- TwoStore.QuiescentStoresAgree: a COMMIT whose outcome is unknown and a listing that misses keys are not modelled.
- SequenceRace.EnoughExactlyWhen: counts the callers that ever begin, not those in flight at one time, because of `SequenceRace.TwoAtATimeCanExhaust`.
- Artifacts.ArtifactsStayClosed: turns, voice-prints, label snapshots and job rows are not modelled; transactions are serial, so the row-lock race noted at processing/pipelines/transcribe.py:153-156 is outside the model.
- ModelLifecycle.NoDeadlock: assumes nothing of the scheduler, so it is not a claim that every request is served; the delayed exit itself is not a step.
