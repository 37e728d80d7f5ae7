# Verified core of a retrieval and evaluation backend

This project models the parts of the Go backend whose correctness rests on an
argument rather than on reading one function, and proves that argument:

- `VectorManifest`, `VectorResume`, `VectorControl`, `VectorProtocol`,
  `VectorLeases`, `VectorSteps`, `VectorBuild`:
  the resumable build of a vector index.  The control row is updated by guarded
  SQL statements, the point store may hold anything after a crash, and builders
  run concurrently with leases that expire.
- `Utf8`, `Utf8Encoding`, `Chunker`, `ChunkerProperties`, `ChunkerSteps`, `Canonical`, `Citations`,
  `CitationProperties`: cutting canonical text into overlapping windows at rune
  boundaries and citing every chunk back to its sources (UTF-8 as in sections 3
  and 4 of RFC 3629).
- `StableSort`, `RankFusion`, `RankScores`, `Diversity`, `DiverseOptimality`: reciprocal rank fusion, ranking, and
  the greedy choice of diverse results.
- `Kappa`, `KappaMeaning`, `Agreement`: Cohen's kappa and the quadratically weighted kappa.
- `PairSequence`: the full-period sequence of unique pairs of the seed generator.
- `Sweep`, `Reconcile`: repairing counters in bounded batches.
- `Text`, `Benchmark`, `Authored`, `AuthoredProperties`, `Artifacts`,
  `CommitmentProperties`, `ArtifactBinding`: freezing,
  publishing and verifying a benchmark with sealed cases.
- `Sessions`: refresh-token rotation.
- `Outbox`, `OutboxOutcomes`: publishing events with retries.
- `CommentPages`: keyset pages behind a cached first page.
- `ReviewServer`: crash-safe blind reviews.
- `Wrappers`, `Sequences`, `IdSorting`, `Matching`: shared definitions.

Code that changes things step by step is a method or a class with a loop or
assignments, proved against a function or predicate; the results about whole runs
are lemmas about those functions or about state machines whose steps are the
source's statements.  SQL tables are sequences or maps and a transaction is one
step.  SHA-256 is a symbolic digest or an uninterpreted function, JSON and base64
are identities, floating point is `real`, and clocks, random numbers, the answers
of the broker and of the file system are parameters.

Where the code gives less than one might expect, the exact condition is proved:

- The guard at `chunker.go:20` admits parameters for which some valid text is
  rejected or indexes the text at a negative offset; `SafeBoundsExact` gives the
  parameters for which this never happens.  The deployed 1200/160 are among them;
  on text that is not valid they can still read out of range (`StrayTextBreaks`).
- `selectDiverse` is optimal on every list drawn from a set of documents and
  notes if and only if the limit is one or two, or every document of a note with
  three or more documents has only that note: `GreedyOptimalExactly`.  The
  service's own queries compute the note from the document
  (`backend-go/internal/retrieval/repository.go:337-344`), so its selections are
  optimal.  A limit of 0 never stops the selection; the results cover that case.
- With a full cases file the commitments file is not verified.
  `SealedExactlyWhenCounted` says exactly when accepted private cases match the
  holdout commitments, and `FullArtifactsDoNotBindCommitments` shows that they
  need not.  A full cases file fixes the content of a case under the nonce scheme
  only if the case has a commitment (`ManifestFixesFullContent`,
  `UncommittedCaseIsFree`).
- With several outbox publishers a sent row can be overwritten
  (`SentOverwritten`); `FinalExactlyWhenSettled` says exactly when a final status
  cannot.
- The pair generator multiplies in 64 bits.  When the product wraps, the pairs
  are still unique; a sequence enumerates all pairs if and only if the target is
  their true number (`DrawPairs`), and `WrappingProductMisses` gives accepted
  dimensions whose fullest sequence misses a pair.

## Model

| member | source | states |
|---|---|---|
| VectorResume.ScanPoints | backend-go/internal/retrieval/vector_index.go:369-419 | the first loop rejects exactly the listings with a repeated id and otherwise returns the listing as a map with its orphan and mismatched ids |
| VectorResume.Rewind | backend-go/internal/retrieval/vector_index.go:369-419 | the second loop stops at the first checkpointed entry that is missing or wrong and collects every such entry |
| VectorResume.PlanVectorResume | backend-go/internal/retrieval/vector_index.go:369-419 | succeeds exactly for a valid checkpoint and a listing without duplicates; the plan is the longest correct prefix, with exactly the bad ids, sorted |
| VectorResume.ResumePlanUnique | backend-go/internal/retrieval/vector_index.go:369-419 | the plan's specification has one solution for every input |
| VectorResume.ReplanningIsStable | backend-go/internal/retrieval/vector_index.go:369-419 | after deleting the planned points, planning again returns the same valid checkpoint and nothing to repair |
| VectorResume.PlannedDeletionsLeaveCorrectPoints | backend-go/internal/retrieval/vector_index.go:220-278 | what the deletions leave is correct and contains the resumed prefix |
| VectorResume.CompareVectorPoints | backend-go/internal/retrieval/vector_index.go:440-466 | the loops return exactly the missing, orphan and mismatched ids, each list sorted |
| VectorResume.ComparisonCleanIffExact | backend-go/internal/retrieval/vector_index.go:440-466 | the comparison is clean if and only if the store is the manifest, ids and hashes |
| VectorControl.ControlTable.Acquire | backend-go/internal/retrieval/vector_repository.go:24-83 | the whole new row and the result for each case: inserted, acquired, completed, other identity, leased |
| VectorControl.ControlTable.SaveCheckpoint | backend-go/internal/retrieval/vector_repository.go:85-124 | writes the checkpoint and renews the lease exactly when the token holds a live lease, else changes nothing |
| VectorControl.ControlTable.Complete | backend-go/internal/retrieval/vector_repository.go:126-145 | completes exactly when the token holds a live lease and the checkpoint count agrees |
| VectorControl.ControlTable.MarkFailed | backend-go/internal/retrieval/vector_repository.go:147-161 | fails the row and drops the lease only for the token that holds it |
| VectorProtocol.NextBatchIsSlice | backend-go/internal/retrieval/vector_repository.go:188-240 | from a valid checkpoint the ordered read returns the next slice of the manifest |
| VectorProtocol.RowAlwaysSound | backend-go/internal/retrieval/vector_index.go:421-438 | in every state of every run, with crashes and store faults anywhere, the row's checkpoint is valid, its counts agree, only a building row is leased, and a completed row covers the manifest |
| VectorProtocol.OneWriterPerTenure | backend-go/internal/retrieval/vector_repository.go:85-161 | between two acquisitions every write to the row comes from the first one's token |
| VectorProtocol.SupersededNeverWrites | backend-go/internal/retrieval/vector_repository.go:85-161 | once another token has acquired, no step of the older builder changes the row |
| VectorProtocol.CompletedIsTerminal | backend-go/internal/retrieval/vector_repository.go:48-66 | a completed row never changes again |
| VectorLeases.LiveLeaseExcludes | backend-go/internal/retrieval/vector_repository.go:48-66 | in every run an acquisition finds no lease or one that has run out, never a completed row or a row of another model, and no row only after the ingestion run has completed |
| VectorLeases.AcquiresFresh | backend-go/internal/retrieval/vector_repository.go:24-83 | an acquisition counts the attempt, keeps the checkpoint, clears the checksum and leases the row for at least a second |
| VectorLeases.WritesNeedLiveLease | backend-go/internal/retrieval/vector_repository.go:85-145 | a save or completion that changes the row held a lease that had not run out; a save renews it from the present, a completion drops it |
| VectorLeases.LeaseKeepsOthersOut | backend-go/internal/retrieval/vector_repository.go:24-161 | mutual exclusion: until its lease runs out nobody but the holder acquires the row, unless the holder writes it again |
| VectorLeases.WriteReserves | backend-go/internal/retrieval/vector_repository.go:24-124 | so an acquisition or save at t for duration d reserves the row until t + max(1, d) |
| VectorProtocol.UpsertExtends | backend-go/internal/retrieval/vector_index.go:118-198 | storing the next slice extends the correct prefix by that slice |
| VectorProtocol.PlanPhaseMatches | backend-go/internal/retrieval/vector_index.go:220-278 | carrying out a plan leaves a store that is correct up to the plan's checkpoint |
| VectorProtocol.ExactAuditPasses | backend-go/internal/retrieval/vector_index.go:304-351 | auditing an exact store finds nothing, whatever order the store lists it in |
| VectorProtocol.HolderAuditIsExact | backend-go/internal/retrieval/vector_index.go:304-351 | the audit of a builder that holds the lease is always exact and changes nothing |
| VectorProtocol.CompletedStoreIsExact | backend-go/internal/retrieval/vector_index.go:118-198 | from completion on the store is the manifest and the row is unchanged |
| VectorBuild.VectorIndexer.PrepareCollection | backend-go/internal/retrieval/vector_index.go:220-278 | from any store content the collection becomes correct up to a saved valid checkpoint, or the lease was lost |
| VectorBuild.VectorIndexer.RunBatches | backend-go/internal/retrieval/vector_index.go:118-198 | the batch loop terminates with the store equal to the manifest, or the lease was lost |
| VectorBuild.VectorIndexer.AuditWithManifest | backend-go/internal/retrieval/vector_index.go:304-351 | the report is exact if and only if the collection ends up as the manifest and a completed row's count and checksum match it |
| VectorBuild.VectorIndexer.BuildAcquired | backend-go/internal/retrieval/vector_index.go:66-199 | after an acquisition: completed with an exact store, or lease lost with a sound row |
| VectorBuild.VectorIndexer.Build | backend-go/internal/retrieval/vector_index.go:66-199 | self-stabilising: from any store content and any sound row, prompt writes lead to a completed row and an exact store; a completed row is verified and never changed; every other row is refused unchanged; in every case row, store and clock are reached by fenced protocol steps of this builder alone |
| VectorSteps.FollowedRun | backend-go/internal/retrieval/vector_index.go:66-199 | a fenced run of the concurrent protocol goes on with the steps of such a build to a longer fenced run |
| VectorBuild.AnyCrashIsRecoverable | backend-go/internal/retrieval/vector_index.go:66-199 | every row the concurrent protocol can leave behind, not completed and with its lease run out, meets Build's precondition |
| Chunker.PreferredEnd | backend-go/internal/evidence/chunker.go:55-78 | the three searches compute the preferred end |
| Chunker.SplitCanonicalText | backend-go/internal/evidence/chunker.go:16-53 | the loop computes the split, its error and its out-of-range access included |
| ChunkerProperties.LastPreferredIsLast | backend-go/internal/evidence/chunker.go:66-77 | the scan returns the end of the last preferred rune of the window, or none exists |
| ChunkerProperties.SplitSucceedsIffValid | backend-go/internal/evidence/chunker.go:16-53 | with safe parameters splitting succeeds exactly on valid UTF-8 |
| ChunkerProperties.SafeBoundsExact | backend-go/internal/evidence/chunker.go:20-22 | splitting succeeds on all valid text if and only if the window holds four bytes and the overlap is at most the shortest chunk |
| ChunkerProperties.SplitCovers | backend-go/internal/evidence/chunker.go:16-53 | under any parameters a successful split is a gapless cover by valid windows of bounded length and overlap, with increasing starts on rune boundaries |
| ChunkerProperties.SplitIsLossless | backend-go/internal/evidence/chunker.go:16-53 | dropping the overlaps and concatenating rebuilds the text |
| ChunkerProperties.RuneOffsetsAgree | backend-go/internal/evidence/chunker.go:32-38 | rune offsets count the rune starts before the byte offsets |
| ChunkerProperties.SplitFromLong | backend-go/internal/evidence/chunker.go:55-78 | every chunk but the last is at least the shortest chunk long |
| ChunkerProperties.DeployedSplit | backend-go/internal/evidence/models.go:12-13 | for 1200/160 every valid text is covered by at most (len-1)/561 + 1 chunks |
| ChunkerSteps.ChunksEndWell | backend-go/internal/evidence/chunker.go:55-87 | every chunk ends after the last punctuation mark between three fifths of the window and its last boundary, given as bytes, or at that boundary |
| ChunkerSteps.NextChunkStart | backend-go/internal/evidence/chunker.go:43-50 | every next chunk starts at the first boundary from overlapBytes before the end of its predecessor, or at that end |
| ChunkerSteps.DeployedOverlap | backend-go/internal/evidence/chunker.go:43-50 | with 1200/160 neighbouring chunks share 157 to 160 bytes of the text |
| ChunkerSteps.StrayTextBreaks | backend-go/internal/evidence/chunker.go:43-46 | text that is not UTF-8 on which 1200/160 reads at a negative offset instead of returning an error |
| Utf8Encoding.EncodeDecodes | backend-go/internal/evidence/chunker.go:66-77 | decoding inverts the encoding of every scalar value |
| Utf8Encoding.ValidIffEncoded | backend-go/internal/evidence/chunker.go:29-38 | a text is valid if and only if it encodes a sequence of scalar values, and its runes are those |
| Canonical.NormalizeIsStable | backend-go/internal/evidence/canonical.go:9-12 | normalising leaves no carriage return and a second time changes nothing, so offsets survive |
| Canonical.NormalizeKeepsValid | backend-go/internal/evidence/canonical.go:9-12 | normalising valid UTF-8 gives valid UTF-8 |
| Canonical.NormalizeBreaks | backend-go/internal/evidence/canonical.go:9-12 | a carriage return with its line feed, or alone, becomes one line feed, and nothing else changes |
| Canonical.DecimalReadsBack | backend-go/internal/evidence/builder.go:214 | a printed comment id reads back as the id, without leading zeros |
| Citations.BuildDocument | backend-go/internal/evidence/builder.go:325-418 | the loops compute the document, chunks, citations and first error |
| Citations.BuildDirectDocument | backend-go/internal/evidence/builder.go:144-183 | a single-source document, none for an empty source |
| Citations.BuildCluster | backend-go/internal/evidence/builder.go:200-238 | the member loop computes text, segments and sources of one cluster |
| Citations.BuildCommentClusters | backend-go/internal/evidence/builder.go:185-270 | the outer loop computes the documents of a comment list, or the first error |
| CitationProperties.CitationsExact | backend-go/internal/evidence/builder.go:379-411 | a chunk cites exactly the segments it shares bytes with |
| CitationProperties.PlacedDocumentIsExact | backend-go/internal/evidence/builder.go:325-418 | building never fails on well placed sources: chunks are the split, each has a citation, each citation quotes equal bytes inside its chunk, every source byte is cited |
| CitationProperties.DirectDocumentIsExact | backend-go/internal/evidence/builder.go:144-183 | a valid source gives an exact document, or none exactly when it is empty |
| CitationProperties.CommentDocumentsExact | backend-go/internal/evidence/builder.go:185-270 | valid comments never fail: exact documents of at most twelve sources that hold every non-empty comment once, in order |
| CitationProperties.QuotableMirrors | backend-go/internal/evidence/builder.go:200-231 | the sources are the non-empty inputs, field by field, with line endings normalised |
| CitationProperties.ClusterIsHeaded | backend-go/internal/evidence/builder.go:211-216 | the text of a cluster is its comments, each after its heading line, with a blank line between them |
| CitationProperties.TwelvePerDocument | backend-go/internal/evidence/builder.go:194-200 | without empty comments every twelve of them, in order, make one document |
| RankFusion.AppendRanked | backend-go/internal/retrieval/vector_retriever.go:67-85 | folding a ranked list into the merge keeps one entry per chunk, in order of first sight |
| RankFusion.Merge | backend-go/internal/retrieval/vector_retriever.go:49-89 | the merge of the two lists is the fold of all sightings |
| RankFusion.FusedScores | backend-go/internal/retrieval/vector_retriever.go:65-88 | every chunk of the union once with the sum of its reciprocal ranks; times 30.5 at most 1, and 1 exactly for the chunk first in both lists |
| RankScores.MergedParts | backend-go/internal/retrieval/vector_retriever.go:67-85 | document, note and unset scores come from the first sighting; a positive vector score and a positive text score with its trigram score come from the vector list |
| RankFusion.RankCandidates | backend-go/internal/retrieval/service.go:312-396 | a permutation of the lexical results ordered by score, text score and chunk id |
| RankFusion.RankVector | backend-go/internal/retrieval/service.go:398-415 | a permutation of the vector results ordered by vector score and chunk id |
| RankFusion.RankHybrid | backend-go/internal/retrieval/service.go:417-440 | each result blended with the last candidate of its chunk, sorted by score and chunk id; for distinct chunks the candidates' blended results in that order |
| RankFusion.HybridRanking | backend-go/internal/retrieval/service.go:417-440 | a permutation of the blended results in a strict total order, independent of the order of the candidates |
| RankScores.HybridScore | backend-go/internal/retrieval/service.go:417-440 | the score from the two lists alone: 0.45 for the places, 0.35 for the vector score, 0.20 for the lexical score, within [0,1] |
| RankFusion.LexicalSelectionOptimal | backend-go/internal/retrieval/service.go:312-483 | in lexical mode the ranking's confidences lie in [0,1] and never increase, so the selection from it is optimal |
| RankFusion.VectorSelectionOptimal | backend-go/internal/retrieval/service.go:398-483 | the same in vector mode |
| RankFusion.HybridSelectionOptimal | backend-go/internal/retrieval/service.go:417-483 | the same in hybrid mode |
| Diversity.SelectDiverse | backend-go/internal/retrieval/service.go:455-483 | the loop with its maps returns the greedy choice in rank order |
| Diversity.GreedyAdmissible | backend-go/internal/retrieval/service.go:455-483 | one result per document, two per note, within the limit, above the threshold |
| DiverseOptimality.PrefixDominates | backend-go/internal/retrieval/service.go:455-483 | under that condition no admissible selection has more results at any rank |
| DiverseOptimality.GreedyIsOptimal | backend-go/internal/retrieval/service.go:455-483 | when a document determines its note, no admissible selection has more results or a larger total confidence, for every limit |
| DiverseOptimality.GreedyOptimalExactly | backend-go/internal/retrieval/service.go:455-483 | for any documents and notes: optimal on every list drawn from them if and only if the limit is one or two, or every document of a note with three documents has only that note |
| DiverseOptimality.FirstSelected | backend-go/internal/retrieval/service.go:455-483 | the best result is selected exactly when it passes the minimum |
| DiverseOptimality.SelectedExactly | backend-go/internal/retrieval/service.go:455-483 | a result is selected exactly if it reaches the minimum and 0.72 of the best, its document is new, at most one earlier selected result has its note and the limit is not reached |
| Kappa.QuadraticWeightedKappa | backend-go/internal/evalreview/audit.go:355-386 | the histogram loops compute 2Cov/(VarA+VarB+(meanA-meanB)^2), and the inner 0 is never returned |
| Kappa.TableIsSpread | backend-go/internal/evalreview/audit.go:371-378 | the double sum over the histograms equals the moment form |
| Kappa.QuadraticKappaFacts | backend-go/internal/evalreview/audit.go:355-386 | in [-1,1], symmetric, and 1 exactly when all grades agree |
| Kappa.CohenKappa | backend-go/internal/evalreview/audit.go:326-353 | the loops compute (observed-expected)/(1-expected), and the inner 0 is never returned |
| Kappa.PlainKappaFacts | backend-go/internal/evalreview/audit.go:326-353 | for any number of categories in [-1,1], symmetric, and 1 exactly on equal answers |
| KappaMeaning.QuadraticMeaning | backend-go/internal/evalreview/audit.go:355-386 | one minus kappa is the mean squared difference of paired grades over that of all pairs of a grade of each rater; it is 1 when both are constant and equal |
| KappaMeaning.PlainMeaning | backend-go/internal/evalreview/audit.go:326-353 | one minus kappa is the share of unequal paired answers over the share of unequal answers among all pairs |
| Agreement.CalculateAgreement | backend-go/internal/evalreview/audit.go:291-324 | the loops compute the counts, shares and kappas over all cases |
| Agreement.FullAgreement | backend-go/internal/evalreview/audit.go:291-324 | the kappas are 1 exactly on full agreement of grades and of answerability |
| PairSequence.GreatestCommonDivisor | backend-go/cmd/seedgen/main.go:766-771 | the loop computes the greatest common divisor |
| PairSequence.GcdIsGreatest | backend-go/cmd/seedgen/main.go:766-771 | it divides both numbers and every common divisor divides it |
| PairSequence.CoprimeStride | backend-go/cmd/seedgen/main.go:744-752 | the search terminates, before any wrap to 1, with the first coprime stride from the drawn one on |
| PairSequence.UniquePairSequence.Next | backend-go/cmd/seedgen/main.go:756-764 | yields the next pair of the walk without overflow, and stops after the target |
| PairSequence.WalkDistinct | backend-go/cmd/seedgen/main.go:756-764 | a coprime walk does not repeat within the total |
| PairSequence.WalkReaches | backend-go/cmd/seedgen/main.go:756-764 | a coprime walk reaches every number below the total |
| PairSequence.NewUniquePairSequence | backend-go/cmd/seedgen/main.go:730-754 | rejects exactly the source's bad dimensions, with the wrapping product |
| PairSequence.DrawPairs | backend-go/cmd/seedgen/main.go:704-722 | exactly target pairwise distinct in-range pairs, and all pairs if and only if the target is the true product |
| PairSequence.WrappingProductMisses | backend-go/cmd/seedgen/main.go:730-741 | accepted dimensions whose product wraps: the sequence of all the numbers misses a pair |
| Sweep.BatchIsWindow | backend-go/internal/reconcile/repository.go:271-301 | a run takes the next rows after the cursor, from the first row when none is left |
| Sweep.SweepConverges | backend-go/internal/reconcile/repository.go:271-301 | from any cursor, ceil(rows/limit)+1 runs repair every row |
| Reconcile.Repository.ReconcileCounters | backend-go/internal/reconcile/repository.go:39-165 | one bounded run on both tables, with the numbers of repaired rows |
| Reconcile.Repository.ReconcileAllCounters | backend-go/internal/reconcile/repository.go:169-269 | the full audit on both tables, with the numbers of repaired rows |
| Reconcile.ReconciledIsSweep | backend-go/internal/reconcile/repository.go:54-148 | counting only the facts about the batch repairs its rows as the full audit does |
| Reconcile.RunsReachAudit | backend-go/internal/reconcile/repository.go:39-269 | without concurrent writes any ceil(n/1000)+1 runs leave the counters and scores of the full audit |
| Reconcile.AuditIsFixpoint | backend-go/internal/reconcile/repository.go:169-269 | auditing again changes nothing |
| Reconcile.AuditCounts | backend-go/internal/reconcile/repository.go:169-269 | likes, collects and shares count the rows of their tables, replies and comments the comments with status 1, the score is the weighted sum, and no other column changes |
| Sweep.ChangedCounts | backend-go/internal/reconcile/repository.go:149-164 | the number of repaired rows is the number of rows that differ |
| Reconcile.FurtherRunsRepairNothing | backend-go/internal/reconcile/repository.go:39-165 | after convergence every further run repairs zero rows |
| Benchmark.BuildManifest | backend-go/internal/evalbench/generator.go:186-220 | the loop computes counts and checksum of the cases |
| Benchmark.BuildManifestFromCommitments | backend-go/internal/evalbench/artifacts.go:309-350 | the loop computes counts and checksum of the commitment lines |
| Benchmark.TallyCounts | backend-go/internal/evalbench/generator.go:188-196 | a count map holds the number of positions of each key |
| Authored.FreezeAuthored | backend-go/internal/evalbench/authored.go:40-120 | succeeds exactly on freezable input and returns the frozen cases with their manifest |
| Authored.FrozenCaseFacts | backend-go/internal/evalbench/authored.go:60-112 | a frozen case carries its own checksum and commitment and complete fields |
| AuthoredProperties.FreezesExactly | backend-go/internal/evalbench/authored.go:60-105 | exactly the complete cases with a usable nonce and review status and consistent semantics freeze |
| AuthoredProperties.FrozenCaseKeeps | backend-go/internal/evalbench/authored.go:60-105 | what freezing trims, fills in and leaves alone |
| AuthoredProperties.FrozenMetadata | backend-go/internal/evalbench/authored.go:80-86 | four metadata keys are stamped and every other key is kept |
| AuthoredProperties.FrozenShape | backend-go/internal/evalbench/authored.go:40-120 | 6 to 10000 cases, the configured number of development cases and at least one holdout case |
| AuthoredProperties.FrozenConfig | backend-go/internal/evalbench/authored.go:40-49 | the frozen configuration has trimmed names, the authored generator unless another is named, the nonce scheme, and nothing else changed |
| Text.TrimRemovesSpace | backend-go/internal/evalbench/authored.go:60-64 | trimming removes the white space at both ends, all of it and nothing else |
| Text.SpacesAre | backend-go/internal/evalbench/authored.go:60-64 | white space is the 25 code points with the Unicode property White_Space |
| Artifacts.WritePublicArtifacts | backend-go/internal/evalbench/artifacts.go:26-63 | the development file, the commitments file and the public manifest written |
| Artifacts.ReadVerifiedCases | backend-go/internal/evalbench/artifacts.go:265-307 | succeeds exactly when every line decodes to a case that verifies and no checksum or query repeats |
| Artifacts.ScanCommitments | backend-go/internal/evalbench/artifacts.go:206-250 | succeeds exactly on well-formed, distinct lines that are public precisely when they are development lines |
| Artifacts.VerifyPublicArtifacts | backend-go/internal/evalbench/artifacts.go:173-263 | accepts exactly the directories of the acceptance predicate |
| Artifacts.VerifyFullArtifacts | backend-go/internal/evalbench/artifacts.go:149-171 | accepts exactly when the cases verify and rebuild the manifest |
| Artifacts.VerifyArtifacts | backend-go/internal/evalbench/artifacts.go:65-88 | accepts exactly frozen, supported and verified directories |
| Artifacts.VerifySealedCases | backend-go/internal/evalbench/artifacts.go:98-147 | accepts exactly distinct nonce-committed holdout cases found among the sealed commitments, as many as the manifest counts |
| CommitmentProperties.AcceptedPublicMatches | backend-go/internal/evalbench/artifacts.go:173-263 | after acceptance the development commitments match the public cases one to one and no holdout commitment is public |
| CommitmentProperties.AcceptedSealedMatches | backend-go/internal/evalbench/artifacts.go:98-147 | for public artifacts accepted private cases match the holdout commitments one to one |
| CommitmentProperties.SealedExactlyWhenCounted | backend-go/internal/evalbench/artifacts.go:98-147 | for any accepted artifacts the private cases match the holdout lines one to one if and only if the manifest's holdout count is the number of those lines, and use up the sealed commitments if and only if it is the number of distinct ones |
| CommitmentProperties.FullArtifactsDoNotBindCommitments | backend-go/internal/evalbench/artifacts.go:149-171 | with a full cases file the empty list of private cases is accepted beside a sealed commitment |
| ArtifactBinding.ReadCasesAreBound | backend-go/internal/evalbench/artifacts.go:265-307 | every case read carries the hash of its own content and its own commitment or none |
| ArtifactBinding.PublicCasesAreBound | backend-go/internal/evalbench/artifacts.go:173-197 | accepted public cases are development cases with their own checksum and, under the nonce scheme, their own commitment |
| ArtifactBinding.LinesFixPublicContent | backend-go/internal/evalbench/artifacts.go:173-263 | without hash collisions, directories with the same scheme and commitment lines publish cases of the same content |
| ArtifactBinding.ManifestFixesLines | backend-go/internal/evalbench/artifacts.go:309-363 | without collisions one manifest checksum fixes the identity and the committed values in order |
| ArtifactBinding.ManifestFixesFullContent | backend-go/internal/evalbench/artifacts.go:149-171 | without collisions one manifest checksum fixes the content of a full cases file, except of cases without a commitment under the nonce scheme |
| ArtifactBinding.UncommittedCaseIsFree | backend-go/internal/evalbench/artifacts.go:149-171 | such a case can be exchanged for any other readable one of its split, task and review status |
| ArtifactBinding.SealedCasesAreFixed | backend-go/internal/evalbench/artifacts.go:98-147 | without collisions two accepted lists of private cases hold the same nonces and checksums |
| ArtifactBinding.AcceptedLine | backend-go/internal/evalbench/artifacts.go:211-246 | accepted lines are numbered, complete and show one 64-digit hash, under the nonce scheme no checksum |
| ArtifactBinding.AcceptedCounts | backend-go/internal/evalbench/artifacts.go:251-263 | an accepted manifest counts the lines of every split, task and review status |
| ArtifactBinding.AcceptedManifest | backend-go/internal/evalbench/artifacts.go:65-88 | an accepted manifest is frozen, of a known scheme, and under the nonce scheme approved for a dataset version |
| ArtifactBinding.AcceptedFiles | backend-go/internal/evalbench/artifacts.go:149-197 | an accepted manifest names one file of all cases, or in the public scope two different files, of the directory itself and none of them the manifest |
| ArtifactBinding.PublishedFiles | backend-go/internal/evalbench/artifacts.go:27-64 | publishing writes the development cases, a numbered line without content for every case, and a manifest naming both files, and touches no other file |
| CommitmentProperties.FrozenVerifies | backend-go/internal/evalbench/authored.go:40-120 | every frozen benchmark, published into any directory, verifies |
| CommitmentProperties.FrozenSealedVerifies | backend-go/internal/evalbench/artifacts.go:98-147 | and its holdout cases are accepted against the publication |
| Sessions.Repository.CreateSession | backend-go/internal/auth/repository.go:156-172 | inserts an open session, or conflicts on the token hash |
| Sessions.Repository.RotateSession | backend-go/internal/auth/repository.go:188-273 | the whole new table for each branch: unknown, revoked, expired, replayed, conflicting, rotated |
| Sessions.Repository.RevokeSessionByRefreshHash | backend-go/internal/auth/repository.go:275-293 | revokes the session of the token, or refuses an unknown one |
| Sessions.ReachableTables | backend-go/internal/auth/repository.go:156-293 | in every reachable table hashes are unique and links go from revoked sessions to later sessions of the same user, never two to one |
| Sessions.RunEvolves | backend-go/internal/auth/repository.go:156-293 | revocation is permanent and a revoked session never changes |
| Sessions.RotationExactly | backend-go/internal/auth/repository.go:188-273 | a rotation succeeds exactly for an open, unexpired session and a new hash; which rows it changes, and how |
| Sessions.ExpiredIsRefused | backend-go/internal/auth/repository.go:221-234 | an expired or revoked session is never rotated |
| Sessions.CreationExactly | backend-go/internal/auth/repository.go:156-172 | a login opens a session exactly for a new hash and touches no other |
| Sessions.RevocationExactly | backend-go/internal/auth/repository.go:275-293 | a logout closes exactly the session of a known token and touches no other |
| Sessions.RotatedSession | backend-go/internal/auth/repository.go:188-273 | in every run a rotated token's session was open and unexpired just before, and its successor is open with the new hash and expiry |
| Sessions.ChainsAreLines | backend-go/internal/auth/repository.go:255-266 | sessions with a common predecessor or successor are in line, so the links form disjoint chains |
| Sessions.ChainHasOneOpen | backend-go/internal/auth/repository.go:188-273 | a chain has at most one open session |
| Sessions.TokenRotatesOnce | backend-go/internal/auth/repository.go:188-273 | in every run a token rotates successfully at most once |
| Sessions.ReplayRevokesAll | backend-go/internal/auth/repository.go:219-231 | presenting a rotated token is refused, leaves no open session of its user and touches nobody else's |
| Sessions.ReplayIsFinal | backend-go/internal/auth/repository.go:219-231 | afterwards no session that continues an old one is ever open |
| Outbox.Repository.LockPending | backend-go/internal/outbox/repository.go:79-115 | locks the first due rows and returns them |
| Outbox.PickFacts | backend-go/internal/outbox/repository.go:79-115 | only due rows, at most the limit, in order, and all due rows when there is room |
| Outbox.Repository.MarkCurrent | backend-go/internal/outbox/repository.go:117-172 | sent, retry or failed, with the retry count and the next attempt |
| Outbox.Repository.RecoverStaleProcessing | backend-go/internal/outbox/repository.go:174-198 | every stale processing row becomes due with its retry count, every other row is unchanged, and no stale processing row is left |
| Outbox.ProcessBatch | backend-go/internal/worker/outbox_publisher.go:124-150 | the batch is a run of the protocol that publishes each locked event once and leaves the publisher idle |
| Outbox.ReachableSafe | backend-go/internal/worker/outbox_publisher.go:124-150 | with any number of publishers: sent only after a success, failed only after maxRetries refusals, retry_count at most the refusals |
| Outbox.RunSafe | backend-go/internal/outbox/repository.go:79-198 | the invariant over all runs; no step removes a row |
| Outbox.FinalExactlyWhenSettled | backend-go/internal/outbox/repository.go:117-172 | a sent or failed row stays so in every continuation if and only if no publisher still holds its event, except to repeat the mark |
| Outbox.SentOverwritten | backend-go/internal/worker/outbox_publisher.go:124-150 | two publishers and a recovery reach a sent row that the next two steps set back to retry |
| Outbox.SinglePublisherTerminal | backend-go/internal/worker/outbox_publisher.go:124-178 | with one publisher sent and failed are terminal, with recoveries and crashes at any moment |
| OutboxOutcomes.MarkOutcome | backend-go/internal/worker/outbox_publisher.go:129-148 | sent after a success; after a refusal the count goes up and the row fails at maxRetries, else waits; no other row changes |
| OutboxOutcomes.RetryDelays | backend-go/internal/worker/outbox_publisher.go:184-193 | the delays are 2, 4, 8, 16, 32 and then 60 seconds |
| OutboxOutcomes.LockTakesDueRows | backend-go/internal/outbox/repository.go:79-115 | a lock takes only due rows and keeps their counts |
| OutboxOutcomes.FailedExactlyAtLimit | backend-go/internal/worker/outbox_publisher.go:124-150 | with one publisher whose marks are stored, recoveries at any moment: a row is failed exactly after maxRetries refusals and its count is the number of refusals |
| CommentPages.ListRows | backend-go/internal/note/repository.go:410-464 | the scan with a lookahead row returns the first rows and whether there are more |
| CommentPages.CommentService.ListComments | backend-go/internal/note/service.go:420-496 | the page from the cache or a query, and the new cache |
| CommentPages.PageFacts | backend-go/internal/note/service.go:498-509 | a page holds only visible comments; what it leaves out lies beyond its cursor, and without a cursor it leaves out nothing |
| CommentPages.CommentService.InvalidateCommentFirstPage | backend-go/internal/note/service.go:788-793 | afterwards the next first page equals a direct query of the table at that time, for every table and limit |
| CommentPages.CachedPageAgrees | backend-go/internal/note/service.go:859-870 | cutting the cached page of 100 gives the direct page, cursor included, for every limit |
| CommentPages.VisibleFacts | backend-go/internal/note/repository.go:410-464 | a query shows exactly the active comments beyond the cursor, newest first |
| CommentPages.WalkNeverRepeats | backend-go/internal/note/repository.go:410-464 | under any inserts and deletes between pages no comment is returned twice |
| CommentPages.WalkReturnsExactlyOnce | backend-go/internal/note/repository.go:410-464 | a completed walk returns every comment active throughout exactly once |
| ReviewServer.ValidateReviewSubmission | backend-go/internal/evalreview/review_server.go:244-273 | accepts exactly the valid submissions |
| ReviewServer.JudgmentsMatchPool | backend-go/internal/evalreview/review_server.go:244-273 | the judgments of a valid submission match its candidate pool one to one |
| ReviewServer.SubmissionExactly | backend-go/internal/evalreview/review_server.go:244-273 | the valid submissions exactly: own identity, one of four answers, one grade from 0 to 3 for every candidate |
| ReviewServer.LoadSubmissions | backend-go/internal/evalreview/review_server.go:199-221 | succeeds exactly on good files and returns them as a map |
| ReviewServer.NewReviewServer | backend-go/internal/evalreview/review_server.go:38-92 | starts exactly on good assignments and a loadable disk, with the disk's reviews |
| ReviewServer.OrderedReadsBack | backend-go/internal/evalreview/review_server.go:231-242 | the reviews written in order read back as the same map |
| ReviewServer.Server.HandleReview | backend-go/internal/evalreview/review_server.go:121-166 | saved exactly when valid, open and written; otherwise memory and disk are as before |
| ReviewServer.Server.HandleFinalize | backend-go/internal/evalreview/review_server.go:168-197 | final exactly when complete and written; the file lists each assignment once, in order |
| ReviewServer.AlwaysRestartable | backend-go/internal/evalreview/review_server.go:68-92 | after any run with crashes memory equals the files, restarting succeeds, and a final file is complete |
| ReviewServer.AcknowledgedSurvives | backend-go/internal/evalreview/review_server.go:121-166 | an acknowledged review survives crashes, restarts and finalisation until its case is written again |
| ReviewServer.FinalizedIsImmutable | backend-go/internal/evalreview/review_server.go:121-197 | after finalisation neither files nor memory change |

## Left out

- VectorProtocol.CompletedStoreIsExact: holds for runs in which no builder calls the store after losing its lease, because store calls carry no lease check; the results about the control row need no such restriction.
- VectorProtocol.HolderAuditIsExact: under the same restriction on store calls.
- VectorBuild.VectorIndexer.Build: the store calls of this uninterrupted run succeed; failing store calls are steps of the concurrent protocol.
- Citations.BuildCommentClusters: the sort by commentValue is left out; the results hold for every order of the comments.
- Citations.BuildDocument: document, chunk and citation keys, token lists and metadata are not modelled; a hash is a digest of its bytes.
- RankFusion.RankCandidates: the term coverage score of one candidate is a parameter.
- Kappa.QuadraticWeightedKappa: real arithmetic instead of floating point, and at least two categories, since one makes the source divide zero by zero.
- Agreement.CalculateAgreement: the rounding to four decimals.
- PairSequence.NewUniquePairSequence: a random number below n is an arbitrary number modulo n.
- Reconcile.RunsReachAudit: concurrent writers, and the timestamps of repaired rows.
- Authored.FreezeAuthored: JSON encoding is the identity, so numbers a JSON reader would round are not distinguished; lengths count characters.
- Artifacts.WritePublicArtifacts: the three files are written in one step; a crash between them is not modelled.
- Sessions.Repository.RotateSession: a transaction is one atomic step; interleavings of the statements of two transactions, and gaps in the numbering of rows, are not modelled.
- Sessions.ReplayRevokesAll: for two overlapping transactions; under READ COMMITTED the revoking UPDATE of a replay does not see a replacement that a concurrent rotation has inserted but not yet committed, so that session can stay open.
- Outbox.Repository.LockPending: rows locked by another transaction are skipped in the protocol, where a lock may take any due rows.
- Outbox.ProcessBatch: one clock reading serves the whole batch.
- CommentPages.CommentService.ListComments: expiry of the cache, request coalescing and the permission check.
- ReviewServer.Server.HandleReview: HTTP and JSON decoding; a malformed body is an absent submission.
- HTTP routing, configuration, the command line, the console, metrics, tracing and logging.
- The clients of the point store, the embedder, the message broker, the cache and the database driver, except for their effect on a map, a row or a file.
- Passwords, access tokens, random bytes and the internals of SHA-256.
- The lexical tokenizer, query planning, text templates, case generation and the simulator's distributions.
- The event consumer's deduplication, cache expiry and deletion of old rows by maintenance.
