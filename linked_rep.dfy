/**
 * The representative polypeptide and transcript of a marker whose
 * representative genomic sequence is an Ensembl gene model
 * (determineVegaEnsProtTransRep, seqmarker.py): they are taken from the
 * Ensembl proteins and transcripts linked to that gene model, the longest
 * of each, whenever such links exist.
 */
module LinkedRep {
  import opened Wrappers
  import opened Lengths

  /** The three association lookups, each mapping a sequence key to the
      associated sequence keys and their lengths. */
  datatype LinkLookups = LinkLookups(
    transcriptsByGenomic: map<Key, map<Key, Length>>,
    proteinsByGenomic: map<Key, map<Key, Length>>,
    transcriptsByProtein: map<Key, map<Key, Length>>)

  /** No associated sequence has a positive length (NULL counts as none). */
  predicate NoPositive(d: map<Key, Length>)
  {
    forall k :: k in d ==> Rank(d[k]) <= 0
  }

  /** `k` has a positive length that no other associated sequence exceeds. */
  predicate IsLongestPositive(d: map<Key, Length>, k: Key)
  {
    k in d && Rank(d[k]) > 0 && forall k' :: k' in d ==> Rank(d[k']) <= Rank(d[k])
  }

  predicate HasNullLength(d: map<Key, Length>)
  {
    exists k :: k in d && d[k].Null?
  }

  /** With pairwise different lengths the longest is determined, whatever
      order the dictionary is iterated in. */
  lemma LongestIsUniqueForDistinctLengths(d: map<Key, Length>, k1: Key, k2: Key)
    requires forall a, b :: a in d && b in d && a != b ==> d[a] != d[b]
    requires IsLongestPositive(d, k1) && IsLongestPositive(d, k2)
    ensures k1 == k2
  {
    RankInjective(d[k1], d[k2]);
  }

  /** The transcript loop: keep a key whose length exceeds the running
      maximum, which starts at 0; a NULL length never exceeds it. Returns 0
      when no length is positive. */
  method LongestTranscript(transDict: map<Key, Length>) returns (transRepKey: int)
    ensures transRepKey == 0 <==> NoPositive(transDict)
    ensures transRepKey != 0 ==> transRepKey > 0 && IsLongestPositive(transDict, transRepKey)
  {
    transRepKey := 0;
    var currentLongestTransLen := 0;
    var remaining := transDict.Keys;
    while remaining != {}
      invariant remaining <= transDict.Keys
      invariant transRepKey == 0 ==> currentLongestTransLen == 0
      invariant transRepKey != 0 ==> transRepKey > 0 && transRepKey in transDict
                                     && Rank(transDict[transRepKey]) == currentLongestTransLen > 0
      invariant forall k :: k in transDict && k !in remaining ==> Rank(transDict[k]) <= currentLongestTransLen
      decreases remaining
    {
      var tKey :| tKey in remaining;
      var tLength := transDict[tKey];
      if Rank(tLength) > currentLongestTransLen {
        currentLongestTransLen := Rank(tLength);
        transRepKey := tKey;
      }
      remaining := remaining - {tKey};
    }
  }

  /** The outcome of the polypeptide loop: `int(None)` raises, otherwise the
      key kept (0 when none is positive). */
  datatype ProteinScan = NullLengthError | Scanned(protRepKey: int)

  /** The polypeptide loop: as for transcripts, but the lengths pass
      through `int`, which fails on a NULL length. */
  method LongestProtein(protDict: map<Key, Length>) returns (scan: ProteinScan)
    ensures scan.NullLengthError? <==> HasNullLength(protDict)
    ensures scan.Scanned? ==> (scan.protRepKey == 0 <==> NoPositive(protDict))
    ensures scan.Scanned? && scan.protRepKey != 0 ==>
              scan.protRepKey > 0 && IsLongestPositive(protDict, scan.protRepKey)
  {
    var protRepKey: int := 0;
    var currentLongestProtLen := 0;
    var remaining := protDict.Keys;
    while remaining != {}
      invariant remaining <= protDict.Keys
      invariant forall k :: k in protDict && k !in remaining ==> protDict[k].Known?
      invariant protRepKey == 0 ==> currentLongestProtLen == 0
      invariant protRepKey != 0 ==> protRepKey > 0 && protRepKey in protDict
                                    && Rank(protDict[protRepKey]) == currentLongestProtLen > 0
      invariant forall k :: k in protDict && k !in remaining ==> Rank(protDict[k]) <= currentLongestProtLen
      decreases remaining
    {
      var pKey :| pKey in remaining;
      var pLength := protDict[pKey];
      if pLength.Null? {
        return NullLengthError;
      }
      if pLength.n > currentLongestProtLen {
        currentLongestProtLen := pLength.n;
        protRepKey := pKey;
      }
      remaining := remaining - {pKey};
    }
    scan := Scanned(protRepKey);
  }

  /** The three `sys.exit` cases and the failing `int(None)`. */
  datatype AbortReason =
    | NoTranscriptLengthForGenomic   // "This shouldn't happen 1"
    | NoProteinLengthForGenomic      // "This shouldn't happen 2"
    | ProteinWithoutTranscript       // "This shouldn't happen 3"
    | NullProteinLength              // int(None)

  /** The representatives chosen for a marker (None: no entry is written),
      or the reason the run ends. */
  datatype ProtTransOutcome = Chosen(prot: Option<Key>, trans: Option<Key>) | Aborted(reason: AbortReason)

  /** What determineVegaEnsProtTransRep may produce for Ensembl gene model
      `g`, given the representatives the usual first-bucket rule would
      choose. Where several linked sequences share the greatest length the
      source's dictionary order picks one; any of them is allowed here. */
  ghost predicate EnsemblOutcome(links: LinkLookups, g: Key, usualProt: Option<Key>, usualTrans: Option<Key>,
                                 out: ProtTransOutcome)
  {
    if g !in links.proteinsByGenomic then
      if g in links.transcriptsByGenomic then
        var td := links.transcriptsByGenomic[g];
        if NoPositive(td) then out == Aborted(NoTranscriptLengthForGenomic)
        else out.Chosen? && out.prot == usualProt && out.trans.Some? && IsLongestPositive(td, out.trans.value)
      else out == Chosen(usualProt, usualTrans)
    else
      var pd := links.proteinsByGenomic[g];
      if HasNullLength(pd) then out == Aborted(NullProteinLength)
      else if NoPositive(pd) then out == Aborted(NoProteinLengthForGenomic)
      else
        && (out.Aborted? ==>
              out.reason == ProteinWithoutTranscript
              && exists p :: IsLongestPositive(pd, p) && p !in links.transcriptsByProtein)
        && (out.Chosen? ==>
              && out.prot.Some? && IsLongestPositive(pd, out.prot.value)
              && out.prot.value in links.transcriptsByProtein
              && var td := links.transcriptsByProtein[out.prot.value];
                 if NoPositive(td) then out.trans == None
                 else out.trans.Some? && IsLongestPositive(td, out.trans.value))
  }

  /** When the gene model has linked proteins, the representative transcript
      (if any) is one linked to the representative protein, never one from
      the usual buckets. */
  lemma LinkedTranscriptFollowsProtein(links: LinkLookups, g: Key, usualProt: Option<Key>, usualTrans: Option<Key>,
                                        out: ProtTransOutcome)
    requires EnsemblOutcome(links, g, usualProt, usualTrans, out)
    requires g in links.proteinsByGenomic && out.Chosen? && out.trans.Some?
    ensures out.prot.Some? && out.prot.value in links.proteinsByGenomic[g]
    ensures out.prot.value in links.transcriptsByProtein
    ensures out.trans.value in links.transcriptsByProtein[out.prot.value]
  {
  }

  /** A gene model with no links at all takes both representatives from the
      usual buckets, and never ends the run. */
  lemma UnlinkedGeneModelUsesBuckets(links: LinkLookups, g: Key, usualProt: Option<Key>, usualTrans: Option<Key>,
                                     out: ProtTransOutcome)
    requires EnsemblOutcome(links, g, usualProt, usualTrans, out)
    requires g !in links.proteinsByGenomic && g !in links.transcriptsByGenomic
    ensures out == Chosen(usualProt, usualTrans)
  {
  }
}
