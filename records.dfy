/**
 * The fields writeRecord (seqmarker.py) derives for one cache row: its
 * representative qualifiers and its biotype conflict and raw biotype.
 */
module CacheRecords {
  import opened Wrappers
  import opened Lengths
  import opened Biotypes

  /** A row of the final annotation query. */
  datatype FinalRow = FinalRow(seqKey: Key, markerKey: Key, organismKey: int, markerTypeKey: int,
                               providerKey: int, seqTypeKey: int, ldbKey: int, refsKey: int,
                               userKey: int, mdate: string, accID: string)

  /** The representative qualifier terms, in the order they are written. */
  datatype Qualifier = GenomicQual | TranscriptQual | PolypeptideQual | NotSpecified

  /** `biotypeDefaultConflict`, the conflict written for a row without a
      biotype entry. */
  const BIOTYPE_DEFAULT_CONFLICT := 5420769

  /** One cache row as written, without the load date. */
  datatype CacheRecord = CacheRecord(
    cacheKey: int, seqKey: Key, markerKey: Key, organismKey: int, refsKey: int,
    qualifiers: seq<Qualifier>,
    providerKey: int, seqTypeKey: int, ldbKey: int, markerTypeKey: int,
    biotypeConflict: int, accID: string, rawBiotype: Option<string>,
    mdate: string, createdBy: int, modifiedBy: int)

  /** The row's sequence is the marker's representative in `reps`. */
  predicate IsRep(reps: map<Key, Key>, r: FinalRow)
  {
    r.markerKey in reps && reps[r.markerKey] == r.seqKey
  }

  function Qualifiers(r: FinalRow, genomic: map<Key, Key>, transcript: map<Key, Key>, polypeptide: map<Key, Key>)
    : seq<Qualifier>
  {
    var qs := (if IsRep(genomic, r) then [GenomicQual] else [])
              + (if IsRep(transcript, r) then [TranscriptQual] else [])
              + (if IsRep(polypeptide, r) then [PolypeptideQual] else []);
    if qs == [] then [NotSpecified] else qs
  }

  function RecordFor(r: FinalRow, cacheKey: int, genomic: map<Key, Key>, transcript: map<Key, Key>,
                     polypeptide: map<Key, Key>, biotypeLookup: map<BiotypeKey, BiotypeEntry>): CacheRecord
  {
    var biotypeKey := BiotypeKey(r.markerKey, r.seqKey);
    var biotypeConflict := if biotypeKey in biotypeLookup then biotypeLookup[biotypeKey].conflict else BIOTYPE_DEFAULT_CONFLICT;
    var biotypeRaw := if biotypeKey in biotypeLookup then Some(biotypeLookup[biotypeKey].rawBiotype) else None;
    CacheRecord(cacheKey, r.seqKey, r.markerKey, r.organismKey, r.refsKey,
                Qualifiers(r, genomic, transcript, polypeptide),
                r.providerKey, r.seqTypeKey, r.ldbKey, r.markerTypeKey,
                biotypeConflict, r.accID, biotypeRaw, r.mdate, r.userKey, r.userKey)
  }

  /** Each representative qualifier is written exactly when the row's
      sequence is that representative, 'Not Specified' exactly when it is
      none of them, and never two of the same. */
  lemma QualifiersMeaning(r: FinalRow, genomic: map<Key, Key>, transcript: map<Key, Key>, polypeptide: map<Key, Key>)
    ensures var qs := Qualifiers(r, genomic, transcript, polypeptide);
      && (GenomicQual in qs <==> IsRep(genomic, r))
      && (TranscriptQual in qs <==> IsRep(transcript, r))
      && (PolypeptideQual in qs <==> IsRep(polypeptide, r))
      && (NotSpecified in qs <==> !IsRep(genomic, r) && !IsRep(transcript, r) && !IsRep(polypeptide, r))
      && (NotSpecified in qs ==> qs == [NotSpecified])
      && 1 <= |qs| <= 3
      && forall i, j :: 0 <= i < j < |qs| ==> qs[i] != qs[j]
  {
  }

  /** A row without a biotype entry gets the no-conflict term and no raw
      biotype; otherwise both come from its entry. */
  lemma BiotypeFieldsMeaning(r: FinalRow, cacheKey: int, genomic: map<Key, Key>, transcript: map<Key, Key>,
                             polypeptide: map<Key, Key>, biotypeLookup: map<BiotypeKey, BiotypeEntry>)
    ensures var rec := RecordFor(r, cacheKey, genomic, transcript, polypeptide, biotypeLookup);
      var k := BiotypeKey(r.markerKey, r.seqKey);
      && (k !in biotypeLookup ==> rec.biotypeConflict == NO_CONFLICT && rec.rawBiotype == None)
      && (k in biotypeLookup ==> rec.biotypeConflict == biotypeLookup[k].conflict
                                 && rec.rawBiotype == Some(biotypeLookup[k].rawBiotype))
      && rec.seqKey == r.seqKey && rec.markerKey == r.markerKey && rec.cacheKey == cacheKey
  {
  }
}
