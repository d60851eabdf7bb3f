/**
 * The state and the main loops of seqmarker.py: the lookups init builds,
 * the per-marker genomic pools and transcript/polypeptide buckets that the
 * createBCP loop fills, the representative dictionaries determineRepresentative
 * writes, and the cache rows writeRecord emits.
 */
module SeqMarker {
  import opened Wrappers
  import opened Lengths
  import opened Selection
  import opened GenomicRep
  import opened InitLookups
  import opened Buckets
  import opened LinkedRep
  import opened Biotypes
  import opened CacheRecords

  /** Indices into `allgenomic`; index 0 is never filled. */
  const ENSEMBL := 1
  const NCBI := 2
  const GGENBANK := 3

  /** The genomic pool a createBCP row is appended to, 0 for none. */
  function GenomicPoolOf(r: AnnotRow): (p: nat)
    ensures p <= GGENBANK
    ensures p == ENSEMBL <==> r.providerKey == ENSEMBL_GM_PROVIDER
  {
    if r.providerKey == ENSEMBL_GM_PROVIDER then ENSEMBL
    else if r.providerKey == NCBI_GM_PROVIDER then NCBI
    else if r.providerKey in GENBANK_DNA_PROVIDERS && r.seqTypeKey == DNA_TYPE then GGENBANK
    else 0
  }

  /** A marker's rows in one pool; no entry reads as no rows. */
  function GetPool(d: map<Key, seq<AnnotRow>>, m: Key): seq<AnnotRow>
  {
    if m in d then d[m] else []
  }

  const NoPools: seq<map<Key, seq<AnnotRow>>> := [map[], map[], map[], map[]]

  /** The genomic part of one createBCP row: append it to its marker's list
      in its pool, starting the list when the marker has none. */
  function AddToPool(pools: seq<map<Key, seq<AnnotRow>>>, r: AnnotRow): (pools': seq<map<Key, seq<AnnotRow>>>)
    requires |pools| == 4
    ensures |pools'| == 4
  {
    var p := GenomicPoolOf(r);
    if p == 0 then pools
    else
      var pool: map<Key, seq<AnnotRow>> := pools[p][r.markerKey := GetPool(pools[p], r.markerKey) + [r]];
      pools[p := pool]
  }

  /** `allgenomic` after the createBCP loop has read `rows`. */
  function PoolsAfter(rows: seq<AnnotRow>): (pools: seq<map<Key, seq<AnnotRow>>>)
    ensures |pools| == 4
    decreases |rows|
  {
    if rows == [] then NoPools
    else AddToPool(PoolsAfter(rows[..|rows| - 1]), rows[|rows| - 1])
  }

  /** The rows of marker `m` that belong to genomic pool `p`, in row order. */
  function PoolRows(rows: seq<AnnotRow>, m: Key, p: nat): seq<AnnotRow>
    decreases |rows|
  {
    if rows == [] then []
    else
      var r := rows[|rows| - 1];
      PoolRows(rows[..|rows| - 1], m, p) + (if r.markerKey == m && GenomicPoolOf(r) == p then [r] else [])
  }

  /** Each pool lists exactly the marker's rows of that pool, in order, and
      holds an entry for a marker only when that list is non-empty, so
      `has_key` and "has a row" agree. */
  lemma {:induction false} PoolsHoldRowsInOrder(rows: seq<AnnotRow>, m: Key, p: nat)
    requires 1 <= p <= GGENBANK
    ensures GetPool(PoolsAfter(rows)[p], m) == PoolRows(rows, m, p)
    ensures m in PoolsAfter(rows)[p] <==> PoolRows(rows, m, p) != []
    decreases |rows|
  {
    if rows != [] {
      PoolsHoldRowsInOrder(rows[..|rows| - 1], m, p);
    }
  }

  /** One pool's rows as determineRepresentative lists them: key, length and
      whether the marker-by-sequence lookup lists a single marker for it. */
  function CandidatesOf(pool: seq<AnnotRow>, mkrs: map<Key, seq<Key>>): seq<Candidate>
  {
    seq(|pool|, i requires 0 <= i < |pool| => Candidate(pool[i].seqKey, IsUniqueSeq(mkrs, pool[i].seqKey), pool[i].length))
  }

  /** The `for result in allgenomic[...][marker]` loops of
      determineRepresentative. */
  method BuildCandidates(pool: seq<AnnotRow>, mkrs: map<Key, seq<Key>>) returns (seqs: seq<Candidate>)
    ensures seqs == CandidatesOf(pool, mkrs)
  {
    seqs := [];
    for i := 0 to |pool|
      invariant seqs == CandidatesOf(pool[..i], mkrs)
    {
      var value := pool[i].seqKey in mkrs && |mkrs[pool[i].seqKey]| == 1;
      seqs := seqs + [Candidate(pool[i].seqKey, value, pool[i].length)];
    }
    assert pool[..|pool|] == pool;
  }

  /** The genomic key as a dictionary entry: 0 means none is written. */
  function KeyOption(k: int): Option<Key>
  {
    if k > 0 then Some(k) else None
  }

  /** A dictionary after `reps[m] = k` when `k` is chosen, unchanged when not. */
  function SetRep(reps: map<Key, Key>, m: Key, k: Option<Key>): map<Key, Key>
  {
    if k.Some? then reps[m := k.value] else reps
  }

  /** How the representative polypeptide and transcript follow from the
      genomic choice: the Ensembl override when the genomic representative
      is an Ensembl gene model, the usual first buckets otherwise. */
  ghost predicate ProtTransChosen(choice: GenomicChoice, links: LinkLookups, usualProt: Option<Key>,
                                  usualTrans: Option<Key>, out: ProtTransOutcome)
  {
    if choice.provider == Ensembl && choice.seqKey > 0 then EnsemblOutcome(links, choice.seqKey, usualProt, usualTrans, out)
    else out == Chosen(usualProt, usualTrans)
  }

  /** The three representatives `g`, `t`, `p` a completed marker ends with,
      from its genomic candidates and its usual polypeptide and transcript. */
  ghost predicate RepsChosen(ens: seq<Candidate>, ncbi: seq<Candidate>, genbank: seq<Candidate>,
                             usualProt: Option<Key>, usualTrans: Option<Key>, links: LinkLookups,
                             g: Option<Key>, t: Option<Key>, p: Option<Key>)
  {
    var choice := ChooseGenomic(ens, ncbi, genbank);
    && g == KeyOption(choice.seqKey)
    && ProtTransChosen(choice, links, usualProt, usualTrans, Chosen(p, t))
  }

  /** RepsChosen for marker `m`, read off the pools, buckets and
      representative dictionaries. */
  ghost predicate RepsChosenAt(pools: seq<map<Key, seq<AnnotRow>>>, tbuckets: seq<map<Key, Key>>,
                               pbuckets: seq<map<Key, Key>>, mkrs: map<Key, seq<Key>>, links: LinkLookups,
                               genomic: map<Key, Key>, transcript: map<Key, Key>, polypeptide: map<Key, Key>, m: Key)
    requires |pools| == 4
  {
    RepsChosen(CandidatesOf(GetPool(pools[ENSEMBL], m), mkrs), CandidatesOf(GetPool(pools[NCBI], m), mkrs),
               CandidatesOf(GetPool(pools[GGENBANK], m), mkrs),
               FirstBucket(pbuckets, m), FirstBucket(tbuckets, m), links,
               Get(genomic, m), Get(transcript, m), Get(polypeptide, m))
  }

  /** A row of another marker leaves a marker's usual representatives as
      they were. */
  lemma TrackRowOtherMarker(t: Tracker, r: AnnotRow, newMarker: bool, transcripts: bool, m: Key)
    requires WellFormed(t) && r.markerKey != m
    ensures FirstBucket(TrackRow(t, r, newMarker, transcripts).found, m) == FirstBucket(t.found, m)
  {
    var t' := TrackRow(t, r, newMarker, transcripts);
    forall j | 0 <= j < |t.found|
      ensures Get(t'.found[j], m) == Get(t.found[j], m)
    {
    }
    FirstBucketFrame(t'.found, t.found, m, 0);
  }

  /** A createBCP row of another marker leaves a marker's pools, usual
      representatives and chosen representatives, and so RepsChosenAt, as
      they were. */
  lemma RowKeepsOtherMarker(pools: seq<map<Key, seq<AnnotRow>>>, tt: Tracker, pt: Tracker, r: AnnotRow,
                            mkrs: map<Key, seq<Key>>, links: LinkLookups,
                            genomic: map<Key, Key>, transcript: map<Key, Key>, polypeptide: map<Key, Key>, m: Key)
    requires |pools| == 4 && WellFormed(tt) && WellFormed(pt) && r.markerKey != m
    requires RepsChosenAt(pools, tt.found, pt.found, mkrs, links, genomic, transcript, polypeptide, m)
    ensures RepsChosenAt(AddToPool(pools, r), TrackRow(tt, r, false, true).found, TrackRow(pt, r, false, false).found,
                         mkrs, links, genomic, transcript, polypeptide, m)
  {
    var pools' := AddToPool(pools, r);
    assert forall q :: 1 <= q <= GGENBANK ==> GetPool(pools'[q], m) == GetPool(pools[q], m);
    TrackRowOtherMarker(tt, r, false, true, m);
    TrackRowOtherMarker(pt, r, false, false, m);
  }

  /** One more row read: the pools and trackers for `rows[..i + 1]` from
      those for `rows[..i]`, with the trackers reset first on a new marker. */
  lemma ReadOneMore(rows: seq<AnnotRow>, i: nat, pools: seq<map<Key, seq<AnnotRow>>>, tt: Tracker, pt: Tracker,
                    newMarker: bool)
    requires i < |rows| && newMarker == NewMarkerAt(rows, i)
    requires pools == PoolsAfter(rows[..i]) && tt == Track(rows[..i], true) && pt == Track(rows[..i], false)
    ensures AddToPool(pools, rows[i]) == PoolsAfter(rows[..i + 1])
    ensures TrackRow(Tracker(tt.found, if newMarker then FreshLengths else tt.lengths), rows[i], false, true)
              == Track(rows[..i + 1], true)
    ensures TrackRow(Tracker(pt.found, if newMarker then FreshLengths else pt.lengths), rows[i], false, false)
              == Track(rows[..i + 1], false)
  {
    var pre := rows[..i + 1];
    assert pre[..i] == rows[..i];
    assert NewMarkerAt(pre, i) == newMarker;
  }

  /** The markers the createBCP rows mention. */
  function MarkerSet(rows: seq<AnnotRow>): set<Key>
  {
    set i | 0 <= i < |rows| :: rows[i].markerKey
  }

  lemma MarkerSetSnoc(rows: seq<AnnotRow>, i: nat)
    requires i < |rows|
    ensures MarkerSet(rows[..i + 1]) == MarkerSet(rows[..i]) + {rows[i].markerKey}
  {
    var a, b := rows[..i + 1], rows[..i];
    assert forall j :: 0 <= j < i ==> a[j] == b[j];
    assert a[i] == rows[i];
    forall k | k in MarkerSet(a)
      ensures k in MarkerSet(b) + {rows[i].markerKey}
    {
      var j :| 0 <= j < |a| && a[j].markerKey == k;
      if j < i { assert b[j].markerKey == k; }
    }
  }

  /** The usual representative of marker `m` read off the rows alone: the
      first-seen longest row of the lowest-numbered bucket, from `b` on,
      that holds rows of `m`. */
  function UsualRepFrom(rows: seq<AnnotRow>, m: Key, transcripts: bool, b: nat): Option<Key>
    decreases 4 - b
  {
    if b >= 4 then None
    else if RowsIn(rows, m, b, transcripts) != [] then FirstLongest(RowsIn(rows, m, b, transcripts))
    else UsualRepFrom(rows, m, transcripts, b + 1)
  }

  /** On rows sorted by marker, the first-bucket rule picks the usual
      representative. */
  lemma {:induction false} UsualRepIsFirstBucket(rows: seq<AnnotRow>, m: Key, transcripts: bool, b: nat)
    requires b <= 4 && SortedByMarker(rows) && Unambiguous(rows, transcripts)
    ensures FirstBucketFrom(Track(rows, transcripts).found, m, b) == UsualRepFrom(rows, m, transcripts, b)
    decreases 4 - b
  {
    if b < 4 {
      TrackKeepsFirstLongest(rows, m, b, transcripts);
      FirstLongestIsFirstOfMaximal(RowsIn(rows, m, b, transcripts));
      UsualRepIsFirstBucket(rows, m, transcripts, b + 1);
    }
  }

  /** What determineRepresentative may produce for marker `m` from the given
      pools and buckets: the representatives, or the reason the run ends. */
  ghost predicate MarkerOutcome(pools: seq<map<Key, seq<AnnotRow>>>, tbuckets: seq<map<Key, Key>>,
                                pbuckets: seq<map<Key, Key>>, mkrs: map<Key, seq<Key>>, links: LinkLookups,
                                m: Key, out: ProtTransOutcome)
    requires |pools| == 4
  {
    ProtTransChosen(ChooseGenomic(CandidatesOf(GetPool(pools[ENSEMBL], m), mkrs),
                                  CandidatesOf(GetPool(pools[NCBI], m), mkrs),
                                  CandidatesOf(GetPool(pools[GGENBANK], m), mkrs)),
                    links, FirstBucket(pbuckets, m), FirstBucket(tbuckets, m), out)
  }

  /** The createBCP loop closes the marker of row `j - 1` at `j`: when row
      `j` has another marker, or after the last row. */
  predicate ClosesAt(rows: seq<AnnotRow>, j: int)
  {
    0 < j <= |rows| && (j == |rows| || rows[j].markerKey != rows[j - 1].markerKey)
  }

  /** What closing the marker of row `j - 1` may produce, from the rows read
      so far. */
  ghost predicate OutcomeAt(rows: seq<AnnotRow>, j: int, mkrs: map<Key, seq<Key>>, links: LinkLookups,
                            out: ProtTransOutcome)
    requires 0 < j <= |rows|
  {
    MarkerOutcome(PoolsAfter(rows[..j]), Track(rows[..j], true).found, Track(rows[..j], false).found,
                  mkrs, links, rows[j - 1].markerKey, out)
  }

  ghost predicate ChosenAt(rows: seq<AnnotRow>, j: int, mkrs: map<Key, seq<Key>>, links: LinkLookups)
    requires 0 < j <= |rows|
  {
    exists p, t :: OutcomeAt(rows, j, mkrs, links, Chosen(p, t))
  }

  /** Every marker closed before `n` had its representatives chosen. */
  ghost predicate ChosenBefore(rows: seq<AnnotRow>, n: int, mkrs: map<Key, seq<Key>>, links: LinkLookups)
  {
    forall j :: ClosesAt(rows, j) && j < n ==> ChosenAt(rows, j, mkrs, links)
  }

  /** The run ends with `r` when it closes a marker at `j`: every marker
      closed before had its representatives chosen, and this one's
      determineVegaEnsProtTransRep gives up with `r`. */
  ghost predicate FirstAbortAt(rows: seq<AnnotRow>, j: int, mkrs: map<Key, seq<Key>>, links: LinkLookups,
                               r: AbortReason)
  {
    && ClosesAt(rows, j)
    && ChosenBefore(rows, j, mkrs, links)
    && OutcomeAt(rows, j, mkrs, links, Aborted(r))
  }

  /** The outcome for marker `m` read off all the rows: its genomic
      candidates in row order and its usual polypeptide and transcript. */
  ghost predicate RowOutcome(rows: seq<AnnotRow>, mkrs: map<Key, seq<Key>>, links: LinkLookups, m: Key,
                             out: ProtTransOutcome)
  {
    ProtTransChosen(ChooseGenomic(CandidatesOf(PoolRows(rows, m, ENSEMBL), mkrs),
                                  CandidatesOf(PoolRows(rows, m, NCBI), mkrs),
                                  CandidatesOf(PoolRows(rows, m, GGENBANK), mkrs)),
                    links, UsualRepFrom(rows, m, false, 0), UsualRepFrom(rows, m, true, 0), out)
  }

  /** Rows of other markers after `j` add nothing to `m`'s pools or buckets. */
  lemma {:induction false} RowsAfterOtherMarkers(rows: seq<AnnotRow>, j: nat, m: Key)
    requires j <= |rows|
    requires forall k :: j <= k < |rows| ==> rows[k].markerKey != m
    ensures forall p :: PoolRows(rows, m, p) == PoolRows(rows[..j], m, p)
    ensures forall b, t :: RowsIn(rows, m, b, t) == RowsIn(rows[..j], m, b, t)
    decreases |rows|
  {
    if |rows| > j {
      var n := |rows| - 1;
      assert rows[..n][..j] == rows[..j];
      RowsAfterOtherMarkers(rows[..n], j, m);
    } else {
      assert rows[..j] == rows;
    }
  }

  lemma {:induction false} UsualRepFromSameRows(rows: seq<AnnotRow>, rows': seq<AnnotRow>, m: Key, t: bool, b: nat)
    requires forall c :: RowsIn(rows, m, c, t) == RowsIn(rows', m, c, t)
    ensures UsualRepFrom(rows, m, t, b) == UsualRepFrom(rows', m, t, b)
    decreases 4 - b
  {
    if b < 4 {
      UsualRepFromSameRows(rows, rows', m, t, b + 1);
    }
  }

  /** On rows sorted by marker, the pools and usual representatives of the
      marker closed at `j` are already those of all the rows. */
  lemma SortedCloseViews(rows: seq<AnnotRow>, j: int)
    requires SortedByMarker(rows) && Unambiguous(rows, false) && ClosesAt(rows, j)
    ensures var m, pre := rows[j - 1].markerKey, rows[..j];
      && (forall p :: 1 <= p <= GGENBANK ==> GetPool(PoolsAfter(pre)[p], m) == PoolRows(rows, m, p))
      && FirstBucket(Track(pre, false).found, m) == UsualRepFrom(rows, m, false, 0)
      && FirstBucket(Track(pre, true).found, m) == UsualRepFrom(rows, m, true, 0)
  {
    var m, pre := rows[j - 1].markerKey, rows[..j];
    forall k | j <= k < |rows|
      ensures rows[k].markerKey != m
    {
      assert rows[j - 1].markerKey <= rows[j].markerKey <= rows[k].markerKey;
    }
    RowsAfterOtherMarkers(rows, j, m);
    forall p | 1 <= p <= GGENBANK
      ensures GetPool(PoolsAfter(pre)[p], m) == PoolRows(rows, m, p)
    {
      PoolsHoldRowsInOrder(pre, m, p);
    }
    assert SortedByMarker(pre) && Unambiguous(pre, false);
    UsualRepIsFirstBucket(pre, m, false, 0);
    UsualRepIsFirstBucket(pre, m, true, 0);
    UsualRepFromSameRows(rows, pre, m, false, 0);
    UsualRepFromSameRows(rows, pre, m, true, 0);
  }

  /** On rows sorted by marker, closing a marker sees all of its rows: the
      outcome allowed when it is closed is the one read off all the rows. */
  lemma SortedCloseSeesAllRows(rows: seq<AnnotRow>, j: int, mkrs: map<Key, seq<Key>>, links: LinkLookups,
                               out: ProtTransOutcome)
    requires SortedByMarker(rows) && Unambiguous(rows, false) && ClosesAt(rows, j)
    requires OutcomeAt(rows, j, mkrs, links, out)
    ensures rows[j - 1].markerKey in MarkerSet(rows)
    ensures RowOutcome(rows, mkrs, links, rows[j - 1].markerKey, out)
  {
    SortedCloseViews(rows, j);
    var m, pools := rows[j - 1].markerKey, PoolsAfter(rows[..j]);
    assert GetPool(pools[ENSEMBL], m) == PoolRows(rows, m, ENSEMBL);
    assert GetPool(pools[NCBI], m) == PoolRows(rows, m, NCBI);
    assert GetPool(pools[GGENBANK], m) == PoolRows(rows, m, GGENBANK);
  }

  /** One closing point of the createBCP loop: with `out` the outcome of
      closing the marker of row `i - 1` on the pools and buckets of
      `rows[..i]`, an abort there is the first abort, and otherwise every
      marker closed so far had its representatives chosen. */
  lemma CloseStep(rows: seq<AnnotRow>, i: int, pools: seq<map<Key, seq<AnnotRow>>>,
                  tbuckets: seq<map<Key, Key>>, pbuckets: seq<map<Key, Key>>,
                  mkrs: map<Key, seq<Key>>, links: LinkLookups, out: ProtTransOutcome, abort: Option<AbortReason>)
    requires 0 <= i <= |rows| && ChosenBefore(rows, i, mkrs, links)
    requires pools == PoolsAfter(rows[..i])
    requires tbuckets == Track(rows[..i], true).found && pbuckets == Track(rows[..i], false).found
    // Stated for every `m` equal to the closed marker so that the outcome's
    // cascade is only unfolded where it is used.
    requires ClosesAt(rows, i) ==> forall m :: m == rows[i - 1].markerKey ==>
               MarkerOutcome(pools, tbuckets, pbuckets, mkrs, links, m, out)
    requires abort.Some? <==> ClosesAt(rows, i) && out.Aborted?
    requires abort.Some? ==> abort.value == out.reason
    ensures abort.Some? ==> FirstAbortAt(rows, i, mkrs, links, abort.value)
    ensures abort.None? ==> ChosenBefore(rows, i + 1, mkrs, links)
  {
    if ClosesAt(rows, i) {
      assert MarkerOutcome(pools, tbuckets, pbuckets, mkrs, links, rows[i - 1].markerKey, out);
      assert OutcomeAt(rows, i, mkrs, links, out);
      if out.Chosen? {
        assert OutcomeAt(rows, i, mkrs, links, Chosen(out.prot, out.trans));
      }
    }
  }

  /** seqmarker.py's module state. */
  class CacheLoad {
    var mkrsByGenomicSeqKeyLookup: map<Key, seq<Key>>
    var transcriptLookupByGenomicKey: map<Key, map<Key, Length>>
    var proteinLookupByGenomicKey: map<Key, map<Key, Length>>
    var transcriptLookupByProteinKey: map<Key, map<Key, Length>>
    var biotypeLookup: map<BiotypeKey, BiotypeEntry>
    var allgenomic: seq<map<Key, seq<AnnotRow>>>
    var alltranscript: seq<map<Key, Key>>
    var allpolypeptide: seq<map<Key, Key>>
    var genomic: map<Key, Key>
    var transcript: map<Key, Key>
    var polypeptide: map<Key, Key>
    var nextMaxKey: int

    ghost predicate Valid()
      reads this
    {
      |allgenomic| == 4 && |alltranscript| == 4 && |allpolypeptide| == 4
    }

    function Links(): LinkLookups
      reads this
    {
      LinkLookups(transcriptLookupByGenomicKey, proteinLookupByGenomicKey, transcriptLookupByProteinKey)
    }

    /** The globals as the module initialises them. */
    constructor ()
      ensures Valid()
      ensures mkrsByGenomicSeqKeyLookup == map[] && biotypeLookup == map[]
      ensures transcriptLookupByGenomicKey == map[] && proteinLookupByGenomicKey == map[]
      ensures transcriptLookupByProteinKey == map[]
      ensures allgenomic == NoPools && alltranscript == EmptyBuckets && allpolypeptide == EmptyBuckets
      ensures genomic == map[] && transcript == map[] && polypeptide == map[]
      ensures nextMaxKey == 0
    {
      mkrsByGenomicSeqKeyLookup := map[];
      transcriptLookupByGenomicKey := map[];
      proteinLookupByGenomicKey := map[];
      transcriptLookupByProteinKey := map[];
      biotypeLookup := map[];
      allgenomic := NoPools;
      alltranscript := EmptyBuckets;
      allpolypeptide := EmptyBuckets;
      genomic := map[];
      transcript := map[];
      polypeptide := map[];
      nextMaxKey := 0;
    }

    /** init: the marker-by-sequence and association lookups from their
        query results, then generateBiotypeLookups, whose failure ends the
        run. */
    method Init(seqMarkerRows: seq<SeqMarkerPair>, transGenomicRows: seq<AssocRow>,
                protGenomicRows: seq<AssocRow>, transProtRows: seq<AssocRow>, biotypeInput: BiotypeInput)
      returns (err: Option<BiotypeError>)
      modifies this`mkrsByGenomicSeqKeyLookup, this`transcriptLookupByGenomicKey,
               this`proteinLookupByGenomicKey, this`transcriptLookupByProteinKey, this`biotypeLookup
      ensures mkrsByGenomicSeqKeyLookup == MarkersBySeq(seqMarkerRows)
      ensures transcriptLookupByGenomicKey == AssocLookup(transGenomicRows)
      ensures proteinLookupByGenomicKey == AssocLookup(protGenomicRows)
      ensures transcriptLookupByProteinKey == AssocLookup(transProtRows)
      ensures BiotypeOutcome(biotypeInput, if err.None? then Success(biotypeLookup) else Failure(err.value))
    {
      mkrsByGenomicSeqKeyLookup := BuildMarkersBySeqKey(seqMarkerRows);
      transcriptLookupByGenomicKey := BuildAssocLookup(transGenomicRows);
      proteinLookupByGenomicKey := BuildAssocLookup(protGenomicRows);
      transcriptLookupByProteinKey := BuildAssocLookup(transProtRows);
      var res := GenerateBiotypeLookups(biotypeInput);
      if res.Failure? {
        return Some(res.error);
      }
      biotypeLookup := res.value;
      err := None;
    }

    /** determineNonVegaEnsProtRep: the marker's entry in the first
        polypeptide bucket that has one. */
    method DetermineNonEnsemblProtRep(marker: Key)
      modifies this`polypeptide
      ensures polypeptide == SetRep(old(polypeptide), marker, FirstBucket(allpolypeptide, marker))
    {
      for i := 0 to |allpolypeptide|
        invariant FirstBucketFrom(allpolypeptide, marker, i) == FirstBucket(allpolypeptide, marker)
        invariant polypeptide == old(polypeptide)
      {
        if marker in allpolypeptide[i] {
          polypeptide := polypeptide[marker := allpolypeptide[i][marker]];
          return;
        }
      }
    }

    /** determineNonVegaEnsTransRep: the marker's entry in the first
        transcript bucket that has one. */
    method DetermineNonEnsemblTransRep(marker: Key)
      modifies this`transcript
      ensures transcript == SetRep(old(transcript), marker, FirstBucket(alltranscript, marker))
    {
      for i := 0 to |alltranscript|
        invariant FirstBucketFrom(alltranscript, marker, i) == FirstBucket(alltranscript, marker)
        invariant transcript == old(transcript)
      {
        if marker in alltranscript[i] {
          transcript := transcript[marker := alltranscript[i][marker]];
          return;
        }
      }
    }

    /** determineVegaEnsProtTransRep for Ensembl genomic representative
        `genomicRepKey`: linked polypeptides first, then the transcripts of
        the chosen one; the usual buckets where nothing is linked. */
    method DetermineEnsemblProtTransRep(marker: Key, genomicRepKey: Key) returns (out: ProtTransOutcome)
      modifies this`polypeptide, this`transcript
      ensures EnsemblOutcome(Links(), genomicRepKey, FirstBucket(allpolypeptide, marker),
                             FirstBucket(alltranscript, marker), out)
      ensures out.Chosen? ==> polypeptide == SetRep(old(polypeptide), marker, out.prot)
                              && transcript == SetRep(old(transcript), marker, out.trans)
    {
      if genomicRepKey !in proteinLookupByGenomicKey {
        DetermineNonEnsemblProtRep(marker);
        if genomicRepKey in transcriptLookupByGenomicKey {
          var transRepKey := LongestTranscript(transcriptLookupByGenomicKey[genomicRepKey]);
          if transRepKey != 0 {
            transcript := transcript[marker := transRepKey];
            out := Chosen(FirstBucket(allpolypeptide, marker), Some(transRepKey));
          } else {
            out := Aborted(NoTranscriptLengthForGenomic);
          }
        } else {
          DetermineNonEnsemblTransRep(marker);
          out := Chosen(FirstBucket(allpolypeptide, marker), FirstBucket(alltranscript, marker));
        }
      } else {
        var scan := LongestProtein(proteinLookupByGenomicKey[genomicRepKey]);
        if scan.NullLengthError? {
          return Aborted(NullProteinLength);
        }
        var protRepKey := scan.protRepKey;
        if protRepKey == 0 {
          return Aborted(NoProteinLengthForGenomic);
        }
        polypeptide := polypeptide[marker := protRepKey];
        if protRepKey in transcriptLookupByProteinKey {
          var transRepKey := LongestTranscript(transcriptLookupByProteinKey[protRepKey]);
          if transRepKey != 0 {
            transcript := transcript[marker := transRepKey];
            out := Chosen(Some(protRepKey), Some(transRepKey));
          } else {
            out := Chosen(Some(protRepKey), None);
          }
        } else {
          out := Aborted(ProteinWithoutTranscript);
        }
      }
    }

    /** determineRepresentative: the genomic cascade over the marker's
        pools, then the polypeptide and transcript representatives. */
    method DetermineRepresentative(marker: Key) returns (out: ProtTransOutcome)
      requires Valid()
      modifies this`genomic, this`polypeptide, this`transcript
      ensures var choice := ChooseGenomic(CandidatesOf(GetPool(allgenomic[ENSEMBL], marker), mkrsByGenomicSeqKeyLookup),
                                          CandidatesOf(GetPool(allgenomic[NCBI], marker), mkrsByGenomicSeqKeyLookup),
                                          CandidatesOf(GetPool(allgenomic[GGENBANK], marker), mkrsByGenomicSeqKeyLookup));
        && genomic == SetRep(old(genomic), marker, KeyOption(choice.seqKey))
        && ProtTransChosen(choice, Links(), FirstBucket(allpolypeptide, marker), FirstBucket(alltranscript, marker), out)
      ensures out.Chosen? ==> polypeptide == SetRep(old(polypeptide), marker, out.prot)
                              && transcript == SetRep(old(transcript), marker, out.trans)
    {
      var ensemblSeqs := BuildCandidates(GetPool(allgenomic[ENSEMBL], marker), mkrsByGenomicSeqKeyLookup);
      var ncbiSeqs := BuildCandidates(GetPool(allgenomic[NCBI], marker), mkrsByGenomicSeqKeyLookup);
      var genbankSeqs := BuildCandidates(GetPool(allgenomic[GGENBANK], marker), mkrsByGenomicSeqKeyLookup);
      var genomicRepKey, genomicRepProvider := DetermineGenomicRep(ensemblSeqs, ncbiSeqs, genbankSeqs);
      ChoiceKeyIsCandidate(ensemblSeqs, ncbiSeqs, genbankSeqs);
      if genomicRepKey != 0 {
        genomic := genomic[marker := genomicRepKey];
      }
      if genomicRepProvider == Ensembl {
        out := DetermineEnsemblProtTransRep(marker, genomicRepKey);
      } else {
        DetermineNonEnsemblProtRep(marker);
        DetermineNonEnsemblTransRep(marker);
        out := Chosen(FirstBucket(allpolypeptide, marker), FirstBucket(alltranscript, marker));
      }
    }

    /** The per-row body of the createBCP loop, after the trackers have been
        reset for a new marker: the genomic pools, then the transcript
        branches, then the polypeptide branches. */
    method AccumulateRow(r: AnnotRow, tlengths: seq<int>, plengths: seq<int>)
      returns (tlengths': seq<int>, plengths': seq<int>)
      requires Valid() && |tlengths| == 4 && |plengths| == 4
      modifies this`allgenomic, this`alltranscript, this`allpolypeptide
      ensures Valid()
      ensures allgenomic == AddToPool(old(allgenomic), r)
      ensures Tracker(alltranscript, tlengths') == TrackRow(Tracker(old(alltranscript), tlengths), r, false, true)
      ensures Tracker(allpolypeptide, plengths') == TrackRow(Tracker(old(allpolypeptide), plengths), r, false, false)
    {
      var m, s, a := r.markerKey, r.seqKey, r.accID;
      var seqlength := SeqLength(r);
      var providerKey, seqTypeKey := r.providerKey, r.seqTypeKey;
      var pool := GenomicPoolOf(r);
      if pool != 0 {
        var entries: map<Key, seq<AnnotRow>> := allgenomic[pool][m := GetPool(allgenomic[pool], m) + [r]];
        allgenomic := allgenomic[pool := entries];
      }
      tlengths', plengths' := tlengths, plengths;
      var b := -1;
      if providerKey == REFSEQ_PROVIDER && (Contains(a, "NM_") || Contains(a, "NR_")) {
        b := 0;
      } else if providerKey in GENBANK_NON_EST_PROVIDERS && seqTypeKey == RNA_TYPE {
        b := 1;
      } else if providerKey == REFSEQ_PROVIDER && (Contains(a, "XM_") || Contains(a, "XR_")) {
        b := 2;
      } else if providerKey == GENBANK_EST_PROVIDER && seqTypeKey == RNA_TYPE {
        b := 3;
      }
      if b >= 0 && seqlength > tlengths'[b] {
        var bucket: map<Key, Key> := alltranscript[b][m := s];
        alltranscript := alltranscript[b := bucket];
        tlengths' := tlengths'[b := seqlength];
      }
      if providerKey == SWISSPROT_PROVIDER && seqlength > plengths'[0] {
        b := 0;
      } else if providerKey == REFSEQ_PROVIDER && Contains(a, "NP_") && seqlength > plengths'[1] {
        b := 1;
      } else if providerKey == TREMBL_PROVIDER && seqlength > plengths'[2] {
        b := 2;
      } else if providerKey == REFSEQ_PROVIDER && Contains(a, "XP_") && seqlength > plengths'[3] {
        b := 3;
      } else {
        b := -1;
      }
      if b >= 0 {
        var bucket: map<Key, Key> := allpolypeptide[b][m := s];
        allpolypeptide := allpolypeptide[b := bucket];
        plengths' := plengths'[b := seqlength];
      }
    }

    /** What the createBCP loop has built after reading `results[..i]`:
        the pools and buckets of those rows, the previous row's marker, and
        the representatives of every marker already closed. Under sorted
        input the closed markers are exactly those before the current one. */
    ghost predicate ReadState(results: seq<AnnotRow>, i: nat, prevMarker: Option<Key>, tlengths: seq<int>,
                              plengths: seq<int>, closed: set<Key>)
      reads this
    {
      && i <= |results|
      && Valid()
      && allgenomic == PoolsAfter(results[..i])
      && Tracker(alltranscript, tlengths) == Track(results[..i], true)
      && Tracker(allpolypeptide, plengths) == Track(results[..i], false)
      && prevMarker == (if i == 0 then None else Some(results[i - 1].markerKey))
      && genomic.Keys <= closed && transcript.Keys <= closed && polypeptide.Keys <= closed
      && closed <= MarkerSet(results[..i])
      && (SortedByMarker(results) ==>
            && (forall m :: m in closed ==> i > 0 && m < results[i - 1].markerKey)
            && MarkerSet(results[..i]) == closed + (if i == 0 then {} else {results[i - 1].markerKey})
            && forall m :: m in closed ==>
                 RepsChosenAt(allgenomic, alltranscript, allpolypeptide, mkrsByGenomicSeqKeyLookup, Links(),
                              genomic, transcript, polypeptide, m))
    }

    /** The createBCP loop at row `i`, after the marker check: as ReadState
        for `results[..i]`, except that the trackers have been reset if the
        row starts a new marker and the previous marker has been closed. */
    ghost predicate MidState(results: seq<AnnotRow>, i: nat, tlengths: seq<int>, plengths: seq<int>, closed: set<Key>)
      reads this
    {
      && i < |results|
      && Valid()
      && allgenomic == PoolsAfter(results[..i])
      && (var newMarker, tt, pt := NewMarkerAt(results, i), Track(results[..i], true), Track(results[..i], false);
          && Tracker(alltranscript, tlengths) == Tracker(tt.found, if newMarker then FreshLengths else tt.lengths)
          && Tracker(allpolypeptide, plengths) == Tracker(pt.found, if newMarker then FreshLengths else pt.lengths))
      && genomic.Keys <= closed && transcript.Keys <= closed && polypeptide.Keys <= closed
      && closed <= MarkerSet(results[..i])
      && (SortedByMarker(results) ==>
            && (forall m :: m in closed ==> m < results[i].markerKey)
            && MarkerSet(results[..i]) <= closed + {results[i].markerKey}
            && forall m :: m in closed ==>
                 RepsChosenAt(allgenomic, alltranscript, allpolypeptide, mkrsByGenomicSeqKeyLookup, Links(),
                              genomic, transcript, polypeptide, m))
    }

    /** The head of the createBCP loop body: on a change of marker, reset
        the trackers and determine the previous marker's representatives;
        `out` is what that gave. */
    method SwitchMarker(results: seq<AnnotRow>, i: nat, prevMarker: Option<Key>, tlengths: seq<int>,
                        plengths: seq<int>, ghost closed: set<Key>)
      returns (abort: Option<AbortReason>, tlengths': seq<int>, plengths': seq<int>, ghost closed': set<Key>,
               ghost out: ProtTransOutcome)
      requires i < |results|
      requires ReadState(results, i, prevMarker, tlengths, plengths, closed)
      modifies this`genomic, this`transcript, this`polypeptide
      ensures abort.None? ==> MidState(results, i, tlengths', plengths', closed')
      // Stated for every `m` equal to the closed marker so that the outcome's
      // cascade is only unfolded where it is used.
      ensures ClosesAt(results, i) ==> forall m :: m == results[i - 1].markerKey ==>
                MarkerOutcome(allgenomic, alltranscript, allpolypeptide, mkrsByGenomicSeqKeyLookup, Links(), m, out)
      ensures abort.Some? <==> ClosesAt(results, i) && out.Aborted?
      ensures abort.Some? ==> abort.value == out.reason
    {
      var sorted := SortedByMarker(results);
      var r := results[i];
      tlengths', plengths', closed' := tlengths, plengths, closed;
      abort := None;
      out := Chosen(None, None);
      if prevMarker != Some(r.markerKey) {
        tlengths', plengths' := FreshLengths, FreshLengths;
        if prevMarker.Some? {
          var closing := CloseMarker(prevMarker.value, closed, sorted);
          out := closing;
          if closing.Aborted? {
            return Some(closing.reason), tlengths', plengths', closed', out;
          }
          closed' := closed + {prevMarker.value};
        }
      }
    }

    /** SwitchMarker with its closing point accounted for: an abort there
        is the run's first, and otherwise every marker closed so far had its
        representatives chosen. */
    method StartRow(results: seq<AnnotRow>, i: nat, prevMarker: Option<Key>, tlengths: seq<int>, plengths: seq<int>,
                    ghost closed: set<Key>)
      returns (abort: Option<AbortReason>, tlengths': seq<int>, plengths': seq<int>, ghost closed': set<Key>)
      requires i < |results|
      requires ReadState(results, i, prevMarker, tlengths, plengths, closed)
      requires ChosenBefore(results, i, mkrsByGenomicSeqKeyLookup, Links())
      modifies this`genomic, this`transcript, this`polypeptide
      ensures abort.None? ==> MidState(results, i, tlengths', plengths', closed')
      ensures abort.None? ==> ChosenBefore(results, i + 1, mkrsByGenomicSeqKeyLookup, Links())
      ensures abort.Some? ==> FirstAbortAt(results, i, mkrsByGenomicSeqKeyLookup, Links(), abort.value)
    {
      ghost var out;
      abort, tlengths', plengths', closed', out := SwitchMarker(results, i, prevMarker, tlengths, plengths, closed);
      CloseStep(results, i, allgenomic, alltranscript, allpolypeptide, mkrsByGenomicSeqKeyLookup, Links(), out, abort);
    }

    /** The rest of the createBCP loop body: file the row in its pool and
        buckets. */
    method FinishRow(results: seq<AnnotRow>, i: nat, tlengths: seq<int>, plengths: seq<int>, ghost closed: set<Key>)
      returns (tlengths': seq<int>, plengths': seq<int>)
      requires MidState(results, i, tlengths, plengths, closed)
      modifies this`allgenomic, this`alltranscript, this`allpolypeptide
      ensures ReadState(results, i + 1, Some(results[i].markerKey), tlengths', plengths', closed)
    {
      var r := results[i];
      ghost var pools, tt, pt := allgenomic, Tracker(alltranscript, tlengths), Tracker(allpolypeptide, plengths);
      ReadOneMore(results, i, pools, Track(results[..i], true), Track(results[..i], false), NewMarkerAt(results, i));
      tlengths', plengths' := AccumulateRow(r, tlengths, plengths);
      MarkerSetSnoc(results, i);
      if SortedByMarker(results) {
        forall m | m in closed
          ensures RepsChosenAt(allgenomic, alltranscript, allpolypeptide, mkrsByGenomicSeqKeyLookup, Links(),
                               genomic, transcript, polypeptide, m)
        {
          RowKeepsOtherMarker(pools, tt, pt, r, mkrsByGenomicSeqKeyLookup, Links(), genomic, transcript, polypeptide, m);
        }
      }
    }

    /** The state once the createBCP loop has read every row and the last
        marker has been closed: the pools and buckets of all rows, and, for
        rows sorted by marker as the query returns them, each marker's
        representatives as RepsChosen determines them. */
    ghost predicate Loaded(results: seq<AnnotRow>)
      reads this
    {
      && Valid()
      && allgenomic == PoolsAfter(results)
      && alltranscript == Track(results, true).found
      && allpolypeptide == Track(results, false).found
      && genomic.Keys <= MarkerSet(results) && transcript.Keys <= MarkerSet(results)
      && polypeptide.Keys <= MarkerSet(results)
      && (SortedByMarker(results) ==>
            forall m :: m in MarkerSet(results) ==>
              RepsChosenAt(allgenomic, alltranscript, allpolypeptide, mkrsByGenomicSeqKeyLookup, Links(),
                           genomic, transcript, polypeptide, m))
    }

    /** After the loop, each marker's representatives follow from its own
        rows: its genomic candidates in row order and its usual polypeptide
        and transcript; every other marker has none. */
    lemma LoadedRepresentatives(results: seq<AnnotRow>, m: Key)
      requires Loaded(results) && SortedByMarker(results) && Unambiguous(results, false)
      ensures m in MarkerSet(results) ==>
        RepsChosen(CandidatesOf(PoolRows(results, m, ENSEMBL), mkrsByGenomicSeqKeyLookup),
                   CandidatesOf(PoolRows(results, m, NCBI), mkrsByGenomicSeqKeyLookup),
                   CandidatesOf(PoolRows(results, m, GGENBANK), mkrsByGenomicSeqKeyLookup),
                   UsualRepFrom(results, m, false, 0), UsualRepFrom(results, m, true, 0), Links(),
                   Get(genomic, m), Get(transcript, m), Get(polypeptide, m))
      ensures m !in MarkerSet(results) ==> m !in genomic && m !in transcript && m !in polypeptide
    {
      PoolsHoldRowsInOrder(results, m, ENSEMBL);
      PoolsHoldRowsInOrder(results, m, NCBI);
      PoolsHoldRowsInOrder(results, m, GGENBANK);
      UsualRepIsFirstBucket(results, m, false, 0);
      UsualRepIsFirstBucket(results, m, true, 0);
      if m in MarkerSet(results) {
        assert RepsChosenAt(allgenomic, alltranscript, allpolypeptide, mkrsByGenomicSeqKeyLookup, Links(),
                            genomic, transcript, polypeptide, m);
      }
    }

    /** `determineRepresentative(prevMarker)` after the loop. With no rows
        the source passes '', which matches no entry and changes nothing. */
    method CloseLast(results: seq<AnnotRow>, prevMarker: Option<Key>, tlengths: seq<int>, plengths: seq<int>,
                     ghost closed: set<Key>)
      returns (abort: Option<AbortReason>)
      requires ReadState(results, |results|, prevMarker, tlengths, plengths, closed)
      requires ChosenBefore(results, |results|, mkrsByGenomicSeqKeyLookup, Links())
      modifies this`genomic, this`transcript, this`polypeptide
      ensures abort.None? ==> Loaded(results) && ChosenBefore(results, |results| + 1, mkrsByGenomicSeqKeyLookup, Links())
      ensures abort.Some? ==> FirstAbortAt(results, |results|, mkrsByGenomicSeqKeyLookup, Links(), abort.value)
    {
      assert results[..|results|] == results;
      abort := None;
      ghost var out := Chosen(None, None);
      if prevMarker.Some? {
        var closing := CloseMarker(prevMarker.value, closed, SortedByMarker(results));
        out := closing;
        if closing.Aborted? {
          abort := Some(closing.reason);
        }
      }
      CloseStep(results, |results|, allgenomic, alltranscript, allpolypeptide, mkrsByGenomicSeqKeyLookup, Links(),
                out, abort);
    }

    /** The createBCP loop over the representative query. */
    method ReadAll(results: seq<AnnotRow>) returns (abort: Option<AbortReason>)
      requires Valid()
      requires allgenomic == NoPools && alltranscript == EmptyBuckets && allpolypeptide == EmptyBuckets
      requires genomic == map[] && transcript == map[] && polypeptide == map[]
      modifies this`allgenomic, this`alltranscript, this`allpolypeptide, this`genomic, this`transcript,
               this`polypeptide
      ensures abort.None? ==> Loaded(results) && ChosenBefore(results, |results| + 1, mkrsByGenomicSeqKeyLookup, Links())
      ensures abort.Some? ==> exists j :: FirstAbortAt(results, j, mkrsByGenomicSeqKeyLookup, Links(), abort.value)
    {
      ghost var closed: set<Key> := {};
      var prevMarker: Option<Key> := None;
      var tlengths, plengths := FreshLengths, FreshLengths;
      assert results[..0] == [];
      for i := 0 to |results|
        invariant ReadState(results, i, prevMarker, tlengths, plengths, closed)
        invariant ChosenBefore(results, i, mkrsByGenomicSeqKeyLookup, Links())
      {
        abort, tlengths, plengths, closed := StartRow(results, i, prevMarker, tlengths, plengths, closed);
        if abort.Some? {
          return;
        }
        tlengths, plengths := FinishRow(results, i, tlengths, plengths, closed);
        prevMarker := Some(results[i].markerKey);
      }
      abort := CloseLast(results, prevMarker, tlengths, plengths, closed);
    }

    /** createBCP: the representative loop, then writeRecord for each row of
        the final query. An abort in determineVegaEnsProtTransRep ends the
        run before any record is written. */
    method CreateBCP(results: seq<AnnotRow>, finalRows: seq<FinalRow>) returns (res: Result<seq<CacheRecord>, AbortReason>)
      requires Valid()
      requires allgenomic == NoPools && alltranscript == EmptyBuckets && allpolypeptide == EmptyBuckets
      requires genomic == map[] && transcript == map[] && polypeptide == map[]
      modifies this`allgenomic, this`alltranscript, this`allpolypeptide, this`genomic, this`transcript,
               this`polypeptide, this`nextMaxKey
      ensures res.Failure? ==>
        && nextMaxKey == old(nextMaxKey)
        && exists j :: FirstAbortAt(results, j, mkrsByGenomicSeqKeyLookup, Links(), res.error)
      ensures res.Success? ==>
        && Loaded(results)
        && ChosenBefore(results, |results| + 1, mkrsByGenomicSeqKeyLookup, Links())
        && nextMaxKey == old(nextMaxKey) + |finalRows|
        && |res.value| == |finalRows|
        && forall i :: 0 <= i < |finalRows| ==>
             res.value[i] == RecordFor(finalRows[i], old(nextMaxKey) + i + 1, genomic, transcript, polypeptide, biotypeLookup)
    {
      var abort := ReadAll(results);
      if abort.Some? {
        return Failure(abort.value);
      }
      var records := WriteRecords(finalRows);
      res := Success(records);
    }

    /** determineRepresentative for the marker whose rows have all been
        read, with the proof that the markers closed before keep their
        representatives. */
    method CloseMarker(marker: Key, ghost closed: set<Key>, ghost sorted: bool) returns (out: ProtTransOutcome)
      requires Valid()
      requires genomic.Keys <= closed && transcript.Keys <= closed && polypeptide.Keys <= closed
      requires sorted ==> marker !in closed
      requires sorted ==> forall m :: m in closed ==>
                 RepsChosenAt(allgenomic, alltranscript, allpolypeptide, mkrsByGenomicSeqKeyLookup, Links(),
                              genomic, transcript, polypeptide, m)
      modifies this`genomic, this`polypeptide, this`transcript
      // The outcome is stated for every `m == marker` so that its cascade is
      // only unfolded where a caller asks about it.
      ensures forall m :: m == marker ==>
                MarkerOutcome(allgenomic, alltranscript, allpolypeptide, mkrsByGenomicSeqKeyLookup, Links(), m, out)
      ensures out.Chosen? ==>
        && genomic.Keys <= closed + {marker} && transcript.Keys <= closed + {marker}
        && polypeptide.Keys <= closed + {marker}
        && (sorted ==> forall m :: m in closed + {marker} ==>
              RepsChosenAt(allgenomic, alltranscript, allpolypeptide, mkrsByGenomicSeqKeyLookup, Links(),
                           genomic, transcript, polypeptide, m))
    {
      ghost var g0, t0, p0 := genomic, transcript, polypeptide;
      out := DetermineRepresentative(marker);
      if out.Chosen? && sorted {
        forall m | m in closed + {marker}
          ensures RepsChosenAt(allgenomic, alltranscript, allpolypeptide, mkrsByGenomicSeqKeyLookup, Links(),
                               genomic, transcript, polypeptide, m)
        {
          if m == marker {
            assert Get(genomic, m) == KeyOption(ChooseGenomic(
              CandidatesOf(GetPool(allgenomic[ENSEMBL], m), mkrsByGenomicSeqKeyLookup),
              CandidatesOf(GetPool(allgenomic[NCBI], m), mkrsByGenomicSeqKeyLookup),
              CandidatesOf(GetPool(allgenomic[GGENBANK], m), mkrsByGenomicSeqKeyLookup)).seqKey);
            assert out == Chosen(Get(polypeptide, m), Get(transcript, m));
          } else {
            assert Get(genomic, m) == Get(g0, m);
            assert Get(transcript, m) == Get(t0, m);
            assert Get(polypeptide, m) == Get(p0, m);
          }
        }
      }
    }

    /** writeRecord: the next cache key, then the row's fields. */
    method WriteRecord(r: FinalRow) returns (rec: CacheRecord)
      modifies this`nextMaxKey
      ensures nextMaxKey == old(nextMaxKey) + 1
      ensures rec == RecordFor(r, nextMaxKey, genomic, transcript, polypeptide, biotypeLookup)
    {
      nextMaxKey := nextMaxKey + 1;
      rec := RecordFor(r, nextMaxKey, genomic, transcript, polypeptide, biotypeLookup);
    }

    /** The final loop of createBCP: one record per row, numbered on from
        the last cache key. */
    method WriteRecords(finalRows: seq<FinalRow>) returns (records: seq<CacheRecord>)
      modifies this`nextMaxKey
      ensures nextMaxKey == old(nextMaxKey) + |finalRows|
      ensures |records| == |finalRows|
      ensures forall i :: 0 <= i < |finalRows| ==>
                records[i] == RecordFor(finalRows[i], old(nextMaxKey) + i + 1, genomic, transcript, polypeptide, biotypeLookup)
    {
      records := [];
      for i := 0 to |finalRows|
        invariant nextMaxKey == old(nextMaxKey) + i
        invariant |records| == i
        invariant forall j :: 0 <= j < i ==>
                    records[j] == RecordFor(finalRows[j], old(nextMaxKey) + j + 1, genomic, transcript, polypeptide, biotypeLookup)
      {
        var rec := WriteRecord(finalRows[i]);
        records := records + [rec];
      }
    }
  }

  /** Why a run ends without writing the cache. */
  datatype LoadError = BiotypeFailure(biotype: BiotypeError) | RepresentativeFailure(reason: AbortReason)

  /** The main routine: init, then createBCP, on a fresh module state. The
      cache keys of a run start at 1. */
  method RunLoad(seqMarkerRows: seq<SeqMarkerPair>, transGenomicRows: seq<AssocRow>, protGenomicRows: seq<AssocRow>,
                 transProtRows: seq<AssocRow>, biotypeInput: BiotypeInput, results: seq<AnnotRow>,
                 finalRows: seq<FinalRow>)
    returns (load: CacheLoad, res: Result<seq<CacheRecord>, LoadError>)
    ensures load.mkrsByGenomicSeqKeyLookup == MarkersBySeq(seqMarkerRows)
    ensures load.Links() == LinkLookups(AssocLookup(transGenomicRows), AssocLookup(protGenomicRows),
                                        AssocLookup(transProtRows))
    ensures res.Failure? && res.error.BiotypeFailure? ==> BiotypeOutcome(biotypeInput, Failure(res.error.biotype))
    ensures res.Failure? && res.error.RepresentativeFailure? ==>
      && BiotypeOutcome(biotypeInput, Success(load.biotypeLookup))
      && (exists j :: FirstAbortAt(results, j, load.mkrsByGenomicSeqKeyLookup, load.Links(), res.error.reason))
      && (SortedByMarker(results) && Unambiguous(results, false) ==>
            exists m :: m in MarkerSet(results)
                        && RowOutcome(results, load.mkrsByGenomicSeqKeyLookup, load.Links(), m, Aborted(res.error.reason)))
    ensures res.Success? ==>
      && BiotypeOutcome(biotypeInput, Success(load.biotypeLookup))
      && load.Loaded(results)
      && ChosenBefore(results, |results| + 1, load.mkrsByGenomicSeqKeyLookup, load.Links())
      && |res.value| == |finalRows|
      && forall i :: 0 <= i < |finalRows| ==>
           res.value[i] == RecordFor(finalRows[i], i + 1, load.genomic, load.transcript, load.polypeptide,
                                     load.biotypeLookup)
  {
    load := new CacheLoad();
    var err := load.Init(seqMarkerRows, transGenomicRows, protGenomicRows, transProtRows, biotypeInput);
    if err.Some? {
      return load, Failure(BiotypeFailure(err.value));
    }
    var out := load.CreateBCP(results, finalRows);
    if out.Failure? {
      ghost var j :| FirstAbortAt(results, j, load.mkrsByGenomicSeqKeyLookup, load.Links(), out.error);
      if SortedByMarker(results) && Unambiguous(results, false) {
        SortedCloseSeesAllRows(results, j, load.mkrsByGenomicSeqKeyLookup, load.Links(), Aborted(out.error));
      }
      return load, Failure(RepresentativeFailure(out.error));
    }
    res := Success(out.value);
  }
}
