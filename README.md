# seqcacheload: representative sequences and biotype conflicts

This project models the decision logic of the MGI sequence/marker cache
load (`seqmarker.py`) and of the older biotype update (`seqbiotype.py`).

For every marker, `seqmarker.py` chooses three representative sequences:

- **Genomic.** A cascade of tiers over the marker's Ensembl gene models, NCBI
  gene models and GenBank DNA sequences. Each tier uses the extremum scan
  `determineSeq` with the comparators `determineLongest` and
  `determineShortest`.
- **Transcript.** The first non-empty of four buckets, by provider and
  accession prefix. On rows sorted by marker, as the query returns them,
  the first-seen longest sequence of each bucket wins.
- **Polypeptide.** The same rule over four polypeptide buckets, as long as
  no RefSeq accession contains both NP_ and XP_. Because the length test
  sits inside the `elif` chain, such a row can fall through to bucket 3.

When the genomic representative is an Ensembl gene model, the polypeptide and
the transcript come from the Ensembl sequences linked to it instead
(`determineVegaEnsProtTransRep`).

`generateBiotypeLookups` maps raw gene-model biotypes to sets of feature types.
It decides for each marker whether its gene models and its own feature types
agree. `writeRecord` then writes a cache row with these fields:

- the representative qualifiers;
- the biotype conflict;
- the raw biotype;
- a cache key numbered on from the previous row's.

`seqbiotype.py` applies a simpler rule. A marker is in conflict when more than
one distinct type key appears among its MGD marker types and its gene-model
marker types.

Query results are inputs: sequences of records with positive integer keys.
The database's sort order is a stated hypothesis where a property needs it
(`SortedByMarker`, `SortedBySeq`, `SortedByGroup`).

`seqmarker.py`'s module globals are the fields of the class
`SeqMarker.CacheLoad`. Its state-changing routines are methods of that class:

- `init`;
- `determineRepresentative` and its helpers;
- the `createBCP` loop;
- `writeRecord`.

Each method's result is specified by functions on the rows (`PoolsAfter`,
`Track`, `ChooseGenomic`, `RecordFor`, ...), and the lemmas prove what the
source promises about those functions.

The exits of `determineVegaEnsProtTransRep` are specified too. The loop
closes a marker when the next row has another marker, and after the last
row. A run ends with reason `r` only at the first such closing point whose
outcome, on the rows read so far, is an abort with `r` (`FirstAbortAt`).
Every marker closed before it had its representatives chosen.

One feature of the code as written: in `seqbiotype.py` the translation "a
non-pseudogene MGD type counts as gene" (lines 142-143) assigns a variable
that is never read. The MGD type therefore enters the type list untranslated.
The model follows the code. `SeqBiotype.UntranslatedTypeConflicts` shows the
consequence: a marker of any other type whose gene model says "gene" is in
conflict, although the header comment (line 15) describes a comparison after
translation.

## Model

| member | source | states |
|---|---|---|
| Lengths.Rank | seqmarker.py:869-905 | Python 2 order on lengths: None is below every number (-1), a number ranks as itself |
| Lengths.DetermineLongest | seqmarker.py:869-886 | the '' first argument always yields 1; equal lengths give -1; 0 exactly when the first is strictly longer; 1 only when the second is longer or the first is '' |
| Lengths.DetermineShortest | seqmarker.py:888-905 | the '' first argument yields 1; equal lengths give -1; 0 exactly when the first is strictly shorter; a length against '' gives 0 |
| Lengths.ShortestIsLongestSwapped | seqmarker.py:869-905 | on two lengths, shortest of (a, b) gives the same verdict as longest of (b, a) |
| Lengths.ReplacesWhenAtLeastAsGood | seqmarker.py:833-862 | a verdict of 1 or -1 (which updates the choice) happens exactly when the new length is at least as good as the current one, or there is none yet |
| Selection.ScanChoosesLastExtreme | seqmarker.py:809-867 | the scan gives (0, '') exactly when no candidate qualifies; otherwise it gives the last qualifying candidate of extreme length |
| Selection.LastExtremeIsUnique | seqmarker.py:809-867 | the last extreme qualifying candidate is unique, so the choice is determined |
| Selection.DetermineSeq | seqmarker.py:809-867 | the two-running-choices loop returns the scan for `useUniq`: key 0 and '' exactly when nothing qualifies, else the last qualifying candidate of minimal or maximal length (ties update) |
| InitLookups.MarkersBySeq | seqmarker.py:292-300 | the lookup has an entry for exactly the sequence keys of the rows |
| InitLookups.BuildMarkersBySeqKey | seqmarker.py:292-300 | the grouping loop builds MarkersBySeq of the rows |
| InitLookups.SortedGroupingListsEveryMarker | seqmarker.py:292-300 | on rows sorted by sequence, a sequence's list holds every marker row of that sequence in order, so "unique" means exactly one such row |
| InitLookups.AssocLookup | seqmarker.py:318-369 | the association lookup has an entry for exactly the group keys of the rows |
| InitLookups.BuildAssocLookup | seqmarker.py:318-369 | the three association loops build AssocLookup of their rows |
| InitLookups.SortedAssocHoldsEveryMember | seqmarker.py:318-369 | on rows sorted by group, a group's dictionary holds each member with the length of its last row |
| InitLookups.MembersOfListsLinkedRows | seqmarker.py:318-369 | a member is listed for a group exactly when some row links the two |
| GenomicRep.ChooseGenomic | seqmarker.py:527-680 | the genomic cascade as pure logic (specified by the lemmas below) |
| GenomicRep.DetermineGenomicRep | seqmarker.py:527-671 | the cascade written with one determineSeq call per scan computes ChooseGenomic |
| GenomicRep.NoGeneModelsUseGenBank | seqmarker.py:528-545 | with no Ensembl or NCBI sequence: the longest unique GenBank DNA sequence, else the longest GenBank DNA sequence, else none (key 0) |
| GenomicRep.GeneModelsAlwaysRepresented | seqmarker.py:547-671 | with an Ensembl or NCBI sequence a representative always exists, and it is one of those, never GenBank |
| GenomicRep.ChoiceKeyIsCandidate | seqmarker.py:527-680 | the key is 0 exactly when there is no provider; an Ensembl choice is one of the marker's Ensembl sequences |
| GenomicRep.SingleUniqueWinsOutright | seqmarker.py:550-578 | tier 1: a single-and-unique provider wins outright; with two, NCBI unless Ensembl is strictly shorter |
| GenomicRep.ShortestUniqueWins | seqmarker.py:580-607 | tier 2: a provider with unique sequences wins with its shortest unique one; between two, Ensembl exactly when its shortest unique is strictly shorter than every unique NCBI one |
| GenomicRep.SingleWins | seqmarker.py:608-635 | tier 3: with no unique sequence, a single provider wins; with two, NCBI unless Ensembl is strictly shorter |
| GenomicRep.ShortestOverallWins | seqmarker.py:636-671 | tier 4: the shortest sequence wins; between providers Ensembl exactly when some Ensembl sequence is strictly shorter than every NCBI one |
| GenomicRep.CompareShortest | seqmarker.py:581-595 | comparing the two shortest picks under "NCBI on a tie or when shorter" chooses Ensembl exactly when it is strictly shorter |
| Buckets.ContainsAtOffset | seqmarker.py:1485-1500 | `string.find(a, pat) > -1` holds when `pat` occurs at any offset, not only at the start |
| Buckets.ContainsHasOffset | seqmarker.py:1485-1500 | conversely, whenever `string.find(a, pat) > -1` holds, `pat` occurs in `a` at some offset |
| Buckets.UpdateIsLengthTest | seqmarker.py:1485-1540 | apart from a RefSeq accession containing both NP_ and XP_, a row overwrites a bucket exactly when it belongs there and is strictly longer than the tracker |
| Buckets.AmbiguousProteinFallsThrough | seqmarker.py:1526-1540 | such an accession that is not longer than bucket 1's tracker is offered to bucket 3 |
| Buckets.MaxLengthIsMaximum | seqmarker.py:1487-1540 | the greatest seqlength bounds every row and is attained |
| Buckets.FirstLongestIsFirstOfMaximal | seqmarker.py:1487-1540 | the key a strict-greater running maximum keeps is that of the first row of maximal length |
| Buckets.TrackLengthIsMax | seqmarker.py:1443-1445 | on rows sorted by marker, with no RefSeq polypeptide accession containing both NP_ and XP_: for the marker being read, a tracker is the greatest seqlength of its rows in that bucket, -1 before the first (reset on each new marker) |
| Buckets.TrackKeepsFirstLongest | seqmarker.py:1443-1540 | on rows sorted by marker, with no RefSeq polypeptide accession containing both NP_ and XP_, each bucket holds for each marker the first of its rows of maximal length in that bucket, and nothing when it has none |
| Buckets.FirstBucketIsLowestIndex | seqmarker.py:776-807 | the usual representative is the marker's entry in the lowest-numbered bucket holding it, none when no bucket does |
| Buckets.FirstBucketFrame | seqmarker.py:776-807 | the usual representative depends only on the marker's own entries |
| LinkedRep.LongestTranscript | seqmarker.py:717-733 | key 0 exactly when no linked transcript has a positive length; otherwise a key of greatest positive length |
| LinkedRep.LongestProtein | seqmarker.py:737-755 | a NULL length fails (`int(None)`); otherwise key 0 exactly when none is positive, else a key of greatest positive length |
| LinkedRep.LongestIsUniqueForDistinctLengths | seqmarker.py:722-770 | with pairwise different lengths, the dictionary order cannot change the choice |
| LinkedRep.LinkedTranscriptFollowsProtein | seqmarker.py:737-773 | with linked proteins, a representative transcript is one linked to the chosen protein, which is linked to the gene model |
| LinkedRep.UnlinkedGeneModelUsesBuckets | seqmarker.py:712-735 | a gene model with no links takes both representatives from the usual buckets and never aborts |
| Grouping.GroupOfIsFilter | seqbiotype.py:107-112 | a key's group holds exactly the values paired with it |
| Grouping.GroupByKey | seqmarker.py:1160-1180 | the has_key/append loop makes one list per key present, in input order |
| Grouping.LastWinsKeepsLastWrite | seqmarker.py:993-994 | `d[k] = v` in a loop keeps every key written, with its last value |
| Grouping.BuildDict | seqmarker.py:993-994 | the assignment loop computes LastWins |
| Biotypes.NcRnaDescSet | seqmarker.py:963-969 | the non-coding RNA set holds its term key, the string 'gene' and the descendants |
| Biotypes.DescendantSet | seqmarker.py:986-987 | the all-feature-types set holds exactly its descendants |
| Biotypes.EquivListTerms | seqmarker.py:1069-1077 | the equivalence list holds each MCV term, each followed by the pseudogene or gene companion term when one applies |
| Biotypes.BuildEquivList | seqmarker.py:1054-1077 | the list-building loop computes EquivList |
| Biotypes.ResolveIsUnion | seqmarker.py:1079-1097 | the equivalence set is the union of what each term stands for; resolution fails exactly when some term does not resolve, naming the first |
| Biotypes.ResolveEquivalents | seqmarker.py:1079-1097 | the resolution loop computes Resolve and stops at the first unresolved term |
| Biotypes.EquivTableMeaning | seqmarker.py:1051-1102 | a vocabulary's table is built exactly when every row resolves; then it holds every raw term, with the set of the last row of that term |
| Biotypes.BuildEquivTable | seqmarker.py:1051-1102 | the per-vocabulary loop computes EquivTable |
| Biotypes.GeneModelLookupIgnoresCase | seqmarker.py:1126-1159 | rows differing only in the letter case of the raw biotype are kept or skipped alike and get the same set; a kept gene model keeps its key, logical DB and unlowered raw biotype |
| Biotypes.GeneModelsOfIsFilter | seqmarker.py:1126-1162 | a gene model is listed for a marker exactly when some row of that marker resolves to it |
| Biotypes.BuildMarkerToGM | seqmarker.py:1126-1162 | markerToGMDict has a list for exactly the markers with kept gene models, in row order |
| Biotypes.IntersectAllMembers | seqmarker.py:1198-1205 | the running intersection holds exactly what every gene model's set holds |
| Biotypes.VerdictMeaning | seqmarker.py:1187-1219 | a marker with gene models is without conflict exactly when exactly one of its direct feature types is in every gene model's set; the verdict is yes or no |
| Biotypes.VerdictByCommon | seqmarker.py:1210-1219 | no conflict exactly when the intersection with the direct feature types has one element |
| Biotypes.NamesNeverDecide | seqmarker.py:964-966 | the string 'gene' in the non-coding RNA set never changes a verdict |
| Biotypes.MarkerVerdict | seqmarker.py:1187-1219 | the intersection loop computes the marker's Verdict |
| Biotypes.FirstRawIsFirst | seqmarker.py:1224-1231 | the raw biotype recorded for a sequence is that of its first gene model |
| Biotypes.RecordVerdicts | seqmarker.py:1184-1231 | the lookup has exactly one entry per gene-model sequence of each marker with direct feature types, holding the marker's verdict and the first raw biotype |
| Biotypes.GenerateBiotypeLookups | seqmarker.py:908-1232 | an unresolved Ensembl, then NCBI, term ends the run naming the vocabulary and term; otherwise the lookup satisfies RecordVerdicts's statement on the tables built |
| Biotypes.SameMarkerSameConflict | seqmarker.py:1221-1231 | all entries of one marker carry the same conflict |
| Biotypes.NoEntryWithoutBoth | seqmarker.py:1198-1208 | a marker with no gene models or no direct feature types has no entry |
| Biotypes.EveryGeneModelSequenceHasEntry | seqmarker.py:1224-1231 | every gene-model sequence of a marker with feature types has an entry, with the raw biotype of an earlier or equal gene model of that sequence |
| CacheRecords.QualifiersMeaning | seqmarker.py:1252-1272 | each qualifier is written exactly when the sequence is that representative; 'Not Specified' exactly when it is none and then alone; no qualifier twice |
| CacheRecords.BiotypeFieldsMeaning | seqmarker.py:1278-1284 | without an entry the conflict is the default no-conflict term and the raw biotype is null; otherwise both come from the entry |
| SeqMarker.GenomicPoolOf | seqmarker.py:1450-1473 | a row goes to one of the three genomic pools or none, to the Ensembl pool exactly for the Ensembl provider |
| SeqMarker.PoolsHoldRowsInOrder | seqmarker.py:1450-1473 | each pool lists exactly the marker's rows of that pool, in row order, and has an entry exactly when there is one |
| SeqMarker.BuildCandidates | seqmarker.py:446-458 | the candidate loop lists each pooled row's key, length and uniqueness in pool order |
| SeqMarker.UsualRepIsFirstBucket | seqmarker.py:776-807 | on rows sorted by marker, with no RefSeq polypeptide accession containing both NP_ and XP_, the first-bucket rule picks the first-seen longest row of the lowest bucket holding rows of the marker |
| SeqMarker.TrackRowOtherMarker | seqmarker.py:1485-1540 | a row of another marker leaves a marker's usual representative unchanged |
| SeqMarker.RowKeepsOtherMarker | seqmarker.py:1431-1542 | a row of another marker leaves a closed marker's pools, buckets and representatives in their chosen relation |
| SeqMarker.ReadOneMore | seqmarker.py:1443-1540 | one loop iteration extends the pools and trackers from the rows so far to one more row |
| SeqMarker.CacheLoad.constructor | seqmarker.py:141-207 | every lookup, pool, bucket and representative dictionary starts empty and the cache key at 0 |
| SeqMarker.CacheLoad.Init | seqmarker.py:225-377 | the lookups are MarkersBySeq and AssocLookup of their query rows; the biotype lookup or its failure is as GenerateBiotypeLookups states |
| SeqMarker.CacheLoad.DetermineNonEnsemblProtRep | seqmarker.py:776-788 | the polypeptide dictionary gets the first polypeptide bucket's entry, and is unchanged when there is none |
| SeqMarker.CacheLoad.DetermineNonEnsemblTransRep | seqmarker.py:790-807 | the transcript dictionary gets the first transcript bucket's entry, and is unchanged when there is none |
| SeqMarker.CacheLoad.DetermineEnsemblProtTransRep | seqmarker.py:692-774 | the outcome is one EnsemblOutcome allows (linked longest protein and transcript, usual buckets where nothing is linked, the three aborts and `int(None)`); on success both dictionaries are set accordingly |
| SeqMarker.CacheLoad.DetermineRepresentative | seqmarker.py:391-690 | the genomic dictionary gets ChooseGenomic of the marker's pools (none when the key is 0); polypeptide and transcript follow the Ensembl override or the usual buckets |
| SeqMarker.CacheLoad.AccumulateRow | seqmarker.py:1450-1540 | one row is filed: the pools are AddToPool, the transcript and polypeptide buckets and trackers are TrackRow |
| SeqMarker.CacheLoad.SwitchMarker | seqmarker.py:1443-1448 | on a change of marker the trackers reset and the previous marker is closed; the outcome of closing is one MarkerOutcome allows for it, and the run aborts exactly when that outcome is an abort |
| SeqMarker.CacheLoad.StartRow | seqmarker.py:1443-1448 | as SwitchMarker; an abort is the run's first (FirstAbortAt), and otherwise every marker closed so far had its representatives chosen |
| SeqMarker.CacheLoad.FinishRow | seqmarker.py:1450-1542 | after the row is filed, the state is the one for one more row read |
| SeqMarker.CacheLoad.ReadAll | seqmarker.py:1429-1545 | an abort happens only at the first closing point whose outcome is that abort; otherwise the loop ends with every marker's representatives chosen, the pools and buckets of all rows and, on sorted rows, every marker's representatives as RepsChosen states |
| SeqMarker.CacheLoad.CloseLast | seqmarker.py:1544-1545 | closing the last marker (a no-op for no rows) completes the load, or aborts as the last marker's first abort |
| SeqMarker.CacheLoad.CloseMarker | seqmarker.py:1447-1448 | the outcome, chosen or aborted, is one MarkerOutcome allows for the marker's pools and buckets; on a choice the earlier markers keep their representatives and the marker gets its own |
| SeqMarker.CacheLoad.LoadedRepresentatives | seqmarker.py:391-807 | after the loop, on sorted rows, each marker's three representatives follow from its own rows alone, and a marker without rows has none |
| SeqMarker.CacheLoad.WriteRecord | seqmarker.py:1234-1297 | the cache key is the previous one plus 1, and the record is RecordFor the row |
| SeqMarker.CacheLoad.WriteRecords | seqmarker.py:1557-1558 | one record per final row in order, with consecutive cache keys |
| SeqMarker.CacheLoad.CreateBCP | seqmarker.py:1299-1559 | a failure is the first abort of a closing point (FirstAbortAt) and writes no record; on success every marker had its representatives chosen, the load is complete and the records are RecordFor each final row with cache keys numbered on from the last |
| SeqMarker.RunLoad | seqmarker.py:225-1559 | a run: a biotype failure as GenerateBiotypeLookups states; a representative failure after the biotype lookup succeeded, at the first closing point that aborts, which on sorted rows without NP_/XP_ ambiguity is the outcome some marker's own rows give (RowOutcome); or the complete load and records with cache keys 1, 2, ... |
| SeqMarker.SortedCloseSeesAllRows | seqmarker.py:1443-1448 | on rows sorted by marker, without NP_/XP_ ambiguity, the outcome allowed when a marker is closed is the one read off all of its rows |
| SeqMarker.SortedCloseViews | seqmarker.py:1443-1545 | on rows sorted by marker, without NP_/XP_ ambiguity, when a marker is closed its pools and usual representatives are already those of all the rows |
| SeqMarker.RowsAfterOtherMarkers | seqmarker.py:1450-1540 | rows of other markers after a point add nothing to a marker's pools or buckets |
| SeqMarker.CloseStep | seqmarker.py:1443-1448 | at a closing point, an aborted outcome is the run's first abort, and a chosen one extends "every marker closed so far had its representatives chosen" |
| SeqBiotype.MarkerRowsAreTheMarkers | seqbiotype.py:107-112 | a marker's list holds exactly its own rows |
| SeqBiotype.BuildMarkerList | seqbiotype.py:107-112 | one non-empty list per distinct marker key, holding its rows in query order |
| SeqBiotype.AddOnceKeepsDistinct | seqbiotype.py:147-151 | appending a key only when absent keeps the list duplicate-free and adds the key to its set |
| SeqBiotype.TypeListIsDistinctTypes | seqbiotype.py:134-151 | the type list holds each MGD type and gene-model type of the marker's rows exactly once, and nothing else |
| SeqBiotype.BuildTypeList | seqbiotype.py:134-151 | the loop computes the type list with the MGD type untranslated |
| SeqBiotype.ConflictIffTwoTypes | seqbiotype.py:153-159 | the key is yes exactly when two different type keys occur among the marker's rows; it is always yes or no |
| SeqBiotype.OneTypeNoConflict | seqbiotype.py:153-159 | a marker whose rows all carry one key in both columns is not in conflict |
| SeqBiotype.UntranslatedTypeConflicts | seqbiotype.py:142-148 | a marker of a type other than gene or pseudogene whose gene model says gene is in conflict |
| SeqBiotype.MarkerSQL | seqbiotype.py:130-171 | one marker's updates are MarkerUpdates of its rows |
| SeqBiotype.MarkerUpdatesMeaning | seqbiotype.py:161-171 | one update per row, all with the same conflict key, each with its row's raw biotype and sequence and the marker |
| SeqBiotype.CreateSQL | seqbiotype.py:122-173 | every marker is visited once, and the updates are its rows' updates, marker after marker |
| SeqBiotype.RunBiotypeUpdate | seqbiotype.py:81-173 | the markers visited are exactly those of the query, each once, and the updates are each marker's updates in visiting order |

## Left out

- SQL queries, temporary tables, indexes, connections and transactions are not modelled. Their results are the input sequences, and the sort orders of their `order by` clauses are hypotheses (`SortedByMarker`, `SortedBySeq`, `SortedByGroup`).
- The BCP file, `mgi_utils.prvalue` formatting, `loaddate`, environment variables, `writeError` and debug printing are I/O and are not modelled. A cache row is a `CacheRecord` value without the load dates.
- The qualifier terms are the datatype `Qualifier`. The `VOC_Term_RepQualifier_View` lookup that maps them to term keys (seqmarker.py:236-239) is a query and is not modelled.
- Python dict iteration order in the linked lookups is left open: any key of greatest positive length may be chosen (`EnsemblOutcome`). The order of `for m in markerList` is left open too, and `CreateSQL` returns the order it took as a second result.
- SeqMarker.CacheLoad.DetermineEnsemblProtTransRep: its contract allows any maximal-length linked key. The source picks one by dictionary order.
- `alltranscript` has seven dictionaries in the source, but only the first four are ever filled. Bucket 3's tracker is `tlengths[6]`. The model has four buckets and four trackers, which behaves the same.
- The VEGA tier is not modelled: `hasVega` is constant False (seqmarker.py:414).
- `determineRepresentative('')` after an empty loop matches no entry and changes nothing. The model skips the call.
- SeqMarker.CacheLoad.LoadedRepresentatives: it is stated for rows sorted by marker and with no RefSeq polypeptide accession containing both NP_ and XP_ (`Unambiguous`). Such a row can fall through to bucket 3 (`Buckets.AmbiguousProteinFallsThrough`), which the first-longest characterisation does not cover. `CreateBCP` itself needs neither hypothesis: its contract holds for every input.
- Buckets.TrackLengthIsMax: it is proved only for rows sorted by marker (`SortedByMarker`) and without a RefSeq polypeptide accession containing both NP_ and XP_ (`Unambiguous`). On unsorted rows the tracker resets whenever the marker changes, and an ambiguous row can update bucket 3 without being its longest.
- Buckets.TrackKeepsFirstLongest: it is proved only under the same two hypotheses as TrackLengthIsMax, for the same reasons. `Buckets.AmbiguousProteinFallsThrough` shows the case it leaves out.
- SeqMarker.UsualRepIsFirstBucket: it is proved only for rows sorted by marker and without NP_/XP_ ambiguity, because it rests on TrackKeepsFirstLongest.
- SeqMarker.SortedCloseSeesAllRows: it needs the same two hypotheses. On unsorted rows a marker can be closed more than once, each time on the rows read so far; `OutcomeAt` states that general case, and `CreateBCP` and `RunLoad` use it.
- SeqMarker.SortedCloseViews: it is proved only for rows sorted by marker and without NP_/XP_ ambiguity (`Unambiguous`), because it rests on SeqMarker.UsualRepIsFirstBucket.
- CacheRecords.BiotypeFieldsMeaning: the default conflict is the integer 5420769. The source writes the string `'5420769'`, which prints identically.
- The raw biotype in `seqbiotype.py`'s update statement is formatted into a quoted SQL string. The model keeps the value (`Option<string>`, None for NULL) and leaves the formatting out.
- seqdummy.py, seqmarker_parupdate.py, seqcoord.py, seqprobe.py and seqdescription.py are queries followed by row dumps, and are not part of this model.
