/**
 * The biotype conflict decision of generateBiotypeLookups (seqmarker.py):
 * raw gene-model biotypes are mapped to sets of marker feature types, and a
 * marker is in conflict unless its gene models and its own feature types
 * agree on exactly one feature type.
 */
module Biotypes {
  import opened Wrappers
  import opened Lengths
  import opened Grouping

  const YES_CONFLICT := 5420767
  const NO_CONFLICT := 5420769
  const NON_CODING_RNA_GENE_TERM_KEY := 6238162
  const ALL_FEATURE_TYPES_TERM_KEY := 6238159
  const NCBI_GENE_MODEL_LDB := 59
  const ENSEMBL_GENE_MODEL_LDB := 60

  /** An element of an equivalence set: a feature type term key, or the bare
      string 'gene' that the non-coding RNA gene set also holds. */
  datatype TermElem = TermKey(key: int) | TermName(name: string)

  function KeySet(keys: seq<int>): set<TermElem>
  {
    set i | 0 <= i < |keys| :: TermKey(keys[i])
  }

  /** The descendants of one feature type term, as a set. */
  method DescendantSet(descendants: seq<int>) returns (s: set<TermElem>)
    ensures s == KeySet(descendants)
  {
    s := {};
    for i := 0 to |descendants|
      invariant s == KeySet(descendants[..i])
    {
      assert forall j :: 0 <= j < i + 1 ==> descendants[..i + 1][j] == descendants[j];
      s := s + {TermKey(descendants[i])};
    }
    assert descendants[..|descendants|] == descendants;
  }

  /** ncRNAdescSet: the non-coding RNA gene term, the string 'gene', and the
      term's descendants. */
  method NcRnaDescSet(descendants: seq<int>) returns (s: set<TermElem>)
    ensures s == {TermKey(NON_CODING_RNA_GENE_TERM_KEY), TermName("gene")} + KeySet(descendants)
  {
    var d := DescendantSet(descendants);
    s := {TermKey(NON_CODING_RNA_GENE_TERM_KEY), TermName("gene")} + d;
  }

  // ---------------------------------------------------------------
  // Raw term -> equivalence set
  // ---------------------------------------------------------------

  /** A row of the per-vocabulary raw biotype query, with the lowercased MCV
      terms the raw term maps to (the inner query), in order. */
  datatype RawBiotypeRow = RawBiotypeRow(rawTerm: string, useMCVchildren: int, mcvTerms: seq<string>)

  /** The term appended after each MCV term: 'pseudogenic region' for a
      pseudogene raw term, otherwise 'gene' for a gene raw term. */
  function Companion(rawTerm: string, pseudogeneTerms: seq<string>, geneTerms: seq<string>): seq<string>
  {
    if rawTerm in pseudogeneTerms then ["pseudogenic region"]
    else if rawTerm in geneTerms then ["gene"]
    else []
  }

  function EquivList(mcvTerms: seq<string>, companion: seq<string>): seq<string>
    decreases |mcvTerms|
  {
    if mcvTerms == [] then []
    else EquivList(mcvTerms[..|mcvTerms| - 1], companion) + [mcvTerms[|mcvTerms| - 1]] + companion
  }

  /** The equivalence list holds every MCV term and, when there is at least
      one, the companion term; each MCV term is followed by the companion. */
  lemma {:induction false} EquivListTerms(mcvTerms: seq<string>, companion: seq<string>)
    ensures |EquivList(mcvTerms, companion)| == |mcvTerms| * (1 + |companion|)
    ensures forall x :: x in EquivList(mcvTerms, companion) <==> x in mcvTerms || (mcvTerms != [] && x in companion)
    decreases |mcvTerms|
  {
    if mcvTerms != [] {
      var pre := mcvTerms[..|mcvTerms| - 1];
      EquivListTerms(pre, companion);
      assert mcvTerms == pre + [mcvTerms[|mcvTerms| - 1]];
    }
  }

  method BuildEquivList(r: RawBiotypeRow, pseudogeneTerms: seq<string>, geneTerms: seq<string>)
    returns (equivList: seq<string>)
    ensures equivList == EquivList(r.mcvTerms, Companion(r.rawTerm, pseudogeneTerms, geneTerms))
  {
    equivList := [];
    for i := 0 to |r.mcvTerms|
      invariant equivList == EquivList(r.mcvTerms[..i], Companion(r.rawTerm, pseudogeneTerms, geneTerms))
    {
      assert r.mcvTerms[..i + 1][..i] == r.mcvTerms[..i];
      equivList := equivList + [r.mcvTerms[i]];
      if r.rawTerm in pseudogeneTerms {
        equivList := equivList + ["pseudogenic region"];
      } else if r.rawTerm in geneTerms {
        equivList := equivList + ["gene"];
      }
    }
    assert r.mcvTerms[..|r.mcvTerms|] == r.mcvTerms;
  }

  /** The sets an equivalence term can stand for. */
  datatype TermSets = TermSets(termKeys: map<string, int>, allFeatureTypes: set<TermElem>, ncRna: set<TermElem>)

  /** What one equivalence term adds, or None when it does not resolve. */
  function Contribution(e: string, useMCVchildren: int, ts: TermSets): Option<set<TermElem>>
  {
    if e == "all feature types" then Some(ts.allFeatureTypes)
    else if e == "non-coding rna gene" && useMCVchildren == 1 then Some(ts.ncRna)
    else if e in ts.termKeys then Some({TermKey(ts.termKeys[e])})
    else None
  }

  predicate Resolves(e: string, useMCVchildren: int, ts: TermSets)
  {
    Contribution(e, useMCVchildren, ts).Some?
  }

  datatype Resolution = Resolved(keys: set<TermElem>) | Unresolved(term: string)

  function Resolve(equivList: seq<string>, useMCVchildren: int, ts: TermSets): Resolution
    decreases |equivList|
  {
    if equivList == [] then Resolved({})
    else
      var e := equivList[|equivList| - 1];
      match Resolve(equivList[..|equivList| - 1], useMCVchildren, ts)
      case Unresolved(t) => Unresolved(t)
      case Resolved(s) =>
        var c := Contribution(e, useMCVchildren, ts);
        if c.None? then Unresolved(e) else Resolved(s + c.value)
  }

  /** The equivalence set is the union of what each term adds; resolution
      fails exactly when some term does not resolve, and names the first. */
  lemma {:induction false} ResolveIsUnion(equivList: seq<string>, useMCVchildren: int, ts: TermSets)
    ensures Resolve(equivList, useMCVchildren, ts).Resolved? <==>
              forall i :: 0 <= i < |equivList| ==> Resolves(equivList[i], useMCVchildren, ts)
    ensures Resolve(equivList, useMCVchildren, ts).Resolved? ==>
              forall x :: x in Resolve(equivList, useMCVchildren, ts).keys <==>
                exists i :: 0 <= i < |equivList| && Resolves(equivList[i], useMCVchildren, ts)
                            && x in Contribution(equivList[i], useMCVchildren, ts).value
    ensures Resolve(equivList, useMCVchildren, ts).Unresolved? ==>
              exists i :: 0 <= i < |equivList| && equivList[i] == Resolve(equivList, useMCVchildren, ts).term
                          && !Resolves(equivList[i], useMCVchildren, ts)
                          && forall j :: 0 <= j < i ==> Resolves(equivList[j], useMCVchildren, ts)
    decreases |equivList|
  {
    if equivList != [] {
      var n := |equivList| - 1;
      var pre := equivList[..n];
      ResolveIsUnion(pre, useMCVchildren, ts);
      assert forall i :: 0 <= i < n ==> pre[i] == equivList[i];
      var r := Resolve(pre, useMCVchildren, ts);
      if r.Resolved? && Resolves(equivList[n], useMCVchildren, ts) {
        var s := Resolve(equivList, useMCVchildren, ts).keys;
        forall x
          ensures x in s <==> exists i :: 0 <= i < |equivList| && Resolves(equivList[i], useMCVchildren, ts)
                                          && x in Contribution(equivList[i], useMCVchildren, ts).value
        {
          if x in Contribution(equivList[n], useMCVchildren, ts).value {
            assert Resolves(equivList[n], useMCVchildren, ts);
          }
        }
      }
    }
  }

  /** The loop over the equivalence list; the first term that does not
      resolve ends it (`sys.exit`). */
  method ResolveEquivalents(equivList: seq<string>, useMCVchildren: int, ts: TermSets) returns (r: Resolution)
    ensures r == Resolve(equivList, useMCVchildren, ts)
  {
    var equivKeySet: set<TermElem> := {};
    for i := 0 to |equivList|
      invariant Resolve(equivList[..i], useMCVchildren, ts) == Resolved(equivKeySet)
    {
      assert equivList[..i + 1][..i] == equivList[..i];
      var e := equivList[i];
      if e == "all feature types" {
        equivKeySet := equivKeySet + ts.allFeatureTypes;
      } else if e == "non-coding rna gene" && useMCVchildren == 1 {
        equivKeySet := equivKeySet + ts.ncRna;
      } else if e in ts.termKeys {
        equivKeySet := equivKeySet + {TermKey(ts.termKeys[e])};
      } else {
        UnresolvedStays(equivList, i + 1, useMCVchildren, ts);
        return Unresolved(e);
      }
    }
    assert equivList[..|equivList|] == equivList;
    r := Resolved(equivKeySet);
  }

  /** Once a prefix is unresolved, so is the whole list, naming the same term. */
  lemma {:induction false} UnresolvedStays(equivList: seq<string>, i: nat, useMCVchildren: int, ts: TermSets)
    requires i <= |equivList|
    requires Resolve(equivList[..i], useMCVchildren, ts).Unresolved?
    ensures Resolve(equivList, useMCVchildren, ts) == Resolve(equivList[..i], useMCVchildren, ts)
    decreases |equivList| - i
  {
    if i < |equivList| {
      assert equivList[..i + 1][..i] == equivList[..i];
      UnresolvedStays(equivList, i + 1, useMCVchildren, ts);
    } else {
      assert equivList[..i] == equivList;
    }
  }

  /** The equivalence table of one vocabulary, or the first term that does
      not resolve. */
  datatype TableResult = Table(dict: map<string, set<TermElem>>) | TableUnresolved(term: string)

  function RowResolution(r: RawBiotypeRow, pseudogeneTerms: seq<string>, geneTerms: seq<string>, ts: TermSets): Resolution
  {
    Resolve(EquivList(r.mcvTerms, Companion(r.rawTerm, pseudogeneTerms, geneTerms)), r.useMCVchildren, ts)
  }

  /** Each row's raw term with its resolution, in row order. */
  function Entries(rows: seq<RawBiotypeRow>, pseudogeneTerms: seq<string>, geneTerms: seq<string>, ts: TermSets)
    : (es: seq<(string, Resolution)>)
    ensures |es| == |rows|
  {
    seq(|rows|, i requires 0 <= i < |rows| => (rows[i].rawTerm, RowResolution(rows[i], pseudogeneTerms, geneTerms, ts)))
  }

  /** `EquivDict[rawTerm] = equivKeySet` for every entry, the last entry of a
      raw term winning; the first unresolved entry ends it. */
  function Tabulate(es: seq<(string, Resolution)>): TableResult
    decreases |es|
  {
    if es == [] then Table(map[])
    else
      var e := es[|es| - 1];
      match Tabulate(es[..|es| - 1])
      case TableUnresolved(t) => TableUnresolved(t)
      case Table(d) =>
        match e.1
        case Unresolved(t) => TableUnresolved(t)
        case Resolved(s) => Table(d[e.0 := s])
  }

  function EquivTable(rows: seq<RawBiotypeRow>, pseudogeneTerms: seq<string>, geneTerms: seq<string>, ts: TermSets): TableResult
  {
    Tabulate(Entries(rows, pseudogeneTerms, geneTerms, ts))
  }

  /** A table is built exactly when every entry resolves. */
  lemma {:induction false} TabulateBuilt(es: seq<(string, Resolution)>)
    ensures Tabulate(es).Table? <==> forall i :: 0 <= i < |es| ==> es[i].1.Resolved?
    decreases |es|
  {
    if es != [] {
      var pre := es[..|es| - 1];
      TabulateBuilt(pre);
      assert forall i :: 0 <= i < |pre| ==> pre[i] == es[i];
    }
  }

  /** A table has an entry for every raw term, holding the set of its last
      entry. */
  lemma {:induction false} TabulateLastWins(es: seq<(string, Resolution)>)
    requires forall i :: 0 <= i < |es| ==> es[i].1.Resolved?
    ensures Tabulate(es).Table?
    ensures var d := Tabulate(es).dict;
      && (forall t :: t in d <==> exists i :: 0 <= i < |es| && es[i].0 == t)
      && forall i :: 0 <= i < |es| && (forall j :: i < j < |es| ==> es[j].0 != es[i].0) ==> d[es[i].0] == es[i].1.keys
    decreases |es|
  {
    TabulateBuilt(es);
    if es != [] {
      var n := |es| - 1;
      var pre := es[..n];
      assert forall i :: 0 <= i < |pre| ==> pre[i] == es[i];
      TabulateLastWins(pre);
      var d := Tabulate(es).dict;
      forall i | 0 <= i < |es| && (forall j :: i < j < |es| ==> es[j].0 != es[i].0)
        ensures d[es[i].0] == es[i].1.keys
      {
        if i < n {
          assert es[i].0 != es[n].0;
          assert forall j :: i < j < |pre| ==> pre[j].0 != pre[i].0;
        }
      }
    }
  }

  /** A vocabulary's table is built exactly when every row resolves; it then
      has an entry for every raw term, holding the set of the last row with
      that term. */
  lemma EquivTableMeaning(rows: seq<RawBiotypeRow>, pseudogeneTerms: seq<string>, geneTerms: seq<string>, ts: TermSets)
    ensures EquivTable(rows, pseudogeneTerms, geneTerms, ts).Table? <==>
              forall i :: 0 <= i < |rows| ==> RowResolution(rows[i], pseudogeneTerms, geneTerms, ts).Resolved?
    ensures EquivTable(rows, pseudogeneTerms, geneTerms, ts).Table? ==>
              var d := EquivTable(rows, pseudogeneTerms, geneTerms, ts).dict;
              && (forall t :: t in d <==> exists i :: 0 <= i < |rows| && rows[i].rawTerm == t)
              && forall i :: 0 <= i < |rows| && (forall j :: i < j < |rows| ==> rows[j].rawTerm != rows[i].rawTerm) ==>
                   d[rows[i].rawTerm] == RowResolution(rows[i], pseudogeneTerms, geneTerms, ts).keys
  {
    var es := Entries(rows, pseudogeneTerms, geneTerms, ts);
    assert forall i :: 0 <= i < |rows| ==>
      es[i].0 == rows[i].rawTerm && es[i].1 == RowResolution(rows[i], pseudogeneTerms, geneTerms, ts);
    TabulateBuilt(es);
    if Tabulate(es).Table? {
      TabulateLastWins(es);
    }
  }

  method BuildEquivTable(rows: seq<RawBiotypeRow>, pseudogeneTerms: seq<string>, geneTerms: seq<string>, ts: TermSets)
    returns (res: TableResult)
    ensures res == EquivTable(rows, pseudogeneTerms, geneTerms, ts)
  {
    ghost var es := Entries(rows, pseudogeneTerms, geneTerms, ts);
    var equivDict: map<string, set<TermElem>> := map[];
    for i := 0 to |rows|
      invariant Tabulate(es[..i]) == Table(equivDict)
    {
      assert es[..i + 1][..i] == es[..i];
      var r := rows[i];
      var equivList := BuildEquivList(r, pseudogeneTerms, geneTerms);
      var equivKeySet := ResolveEquivalents(equivList, r.useMCVchildren, ts);
      assert es[i] == (r.rawTerm, equivKeySet);
      if equivKeySet.Unresolved? {
        TableUnresolvedStays(es, i + 1);
        return TableUnresolved(equivKeySet.term);
      }
      equivDict := equivDict[r.rawTerm := equivKeySet.keys];
    }
    assert es[..|rows|] == es;
    res := Table(equivDict);
  }

  lemma {:induction false} TableUnresolvedStays(es: seq<(string, Resolution)>, i: nat)
    requires i <= |es|
    requires Tabulate(es[..i]).TableUnresolved?
    ensures Tabulate(es) == Tabulate(es[..i])
    decreases |es| - i
  {
    if i < |es| {
      assert es[..i + 1][..i] == es[..i];
      TableUnresolvedStays(es, i + 1);
    } else {
      assert es[..i] == es;
    }
  }

  // ---------------------------------------------------------------
  // Gene models
  // ---------------------------------------------------------------

  /** A row of the gene model query: sequence, marker, logical DB, raw biotype. */
  datatype GeneModelRow = GeneModelRow(seqKey: Key, markerKey: Key, ldbKey: int, rawBiotype: Option<string>)

  datatype GeneModel = GeneModel(sequenceKey: Key, ldbKey: int, rawBiotype: string, equivalentBiotypeSet: set<TermElem>)

  /** `string.lower` on ASCII letters. */
  function LowerChar(c: char): char
  {
    if 'A' <= c <= 'Z' then (c as int + 32) as char else c
  }

  function Lower(s: string): (t: string)
    ensures |t| == |s|
  {
    seq(|s|, i requires 0 <= i < |s| => LowerChar(s[i]))
  }

  /** A NULL raw biotype is looked up, and kept, as 'null'. */
  function RawOrNull(r: GeneModelRow): string
  {
    if r.rawBiotype.None? then "null" else r.rawBiotype.value
  }

  /** The gene model a row contributes, or None when it is skipped: an
      unknown logical DB, or a lowercased raw biotype with no entry in its
      provider's table. */
  function ResolveGeneModel(r: GeneModelRow, ncbiDict: map<string, set<TermElem>>, ensDict: map<string, set<TermElem>>): Option<GeneModel>
  {
    var rawBiotype := RawOrNull(r);
    var lowered := Lower(rawBiotype);
    if r.ldbKey == NCBI_GENE_MODEL_LDB then
      if lowered in ncbiDict then Some(GeneModel(r.seqKey, r.ldbKey, rawBiotype, ncbiDict[lowered])) else None
    else if r.ldbKey == ENSEMBL_GENE_MODEL_LDB then
      if lowered in ensDict then Some(GeneModel(r.seqKey, r.ldbKey, rawBiotype, ensDict[lowered])) else None
    else None
  }

  /** A kept gene model carries its row's key, logical DB and unlowered raw
      biotype, and the set its provider's table gives the lowercased raw
      biotype; the lookup ignores letter case. */
  lemma GeneModelLookupIgnoresCase(r: GeneModelRow, r': GeneModelRow, ncbiDict: map<string, set<TermElem>>, ensDict: map<string, set<TermElem>>)
    requires r.ldbKey == r'.ldbKey && Lower(RawOrNull(r)) == Lower(RawOrNull(r'))
    ensures ResolveGeneModel(r, ncbiDict, ensDict).Some? <==> ResolveGeneModel(r', ncbiDict, ensDict).Some?
    ensures ResolveGeneModel(r, ncbiDict, ensDict).Some? ==>
              var g := ResolveGeneModel(r, ncbiDict, ensDict).value;
              g.sequenceKey == r.seqKey && g.ldbKey == r.ldbKey && g.rawBiotype == RawOrNull(r)
              && g.equivalentBiotypeSet == ResolveGeneModel(r', ncbiDict, ensDict).value.equivalentBiotypeSet
  {
  }

  /** The gene models of marker `m`, in row order. */
  function GeneModelsOf(rows: seq<GeneModelRow>, m: Key, ncbiDict: map<string, set<TermElem>>, ensDict: map<string, set<TermElem>>): seq<GeneModel>
    decreases |rows|
  {
    if rows == [] then []
    else
      var r := rows[|rows| - 1];
      var g := ResolveGeneModel(r, ncbiDict, ensDict);
      GeneModelsOf(rows[..|rows| - 1], m, ncbiDict, ensDict) + (if r.markerKey == m && g.Some? then [g.value] else [])
  }

  /** A gene model is listed for `m` exactly when some row of `m` yields it. */
  lemma {:induction false} GeneModelsOfIsFilter(rows: seq<GeneModelRow>, m: Key, ncbiDict: map<string, set<TermElem>>, ensDict: map<string, set<TermElem>>)
    ensures forall g :: g in GeneModelsOf(rows, m, ncbiDict, ensDict) <==>
              exists i :: 0 <= i < |rows| && rows[i].markerKey == m && ResolveGeneModel(rows[i], ncbiDict, ensDict) == Some(g)
    decreases |rows|
  {
    if rows != [] {
      var pre := rows[..|rows| - 1];
      GeneModelsOfIsFilter(pre, m, ncbiDict, ensDict);
      assert forall i :: 0 <= i < |pre| ==> pre[i] == rows[i];
    }
  }

  /** markerToGMDict: the gene models kept, appended per marker. */
  method BuildMarkerToGM(rows: seq<GeneModelRow>, ncbiDict: map<string, set<TermElem>>, ensDict: map<string, set<TermElem>>)
    returns (markerToGM: map<Key, seq<GeneModel>>)
    ensures forall m :: m in markerToGM <==> GeneModelsOf(rows, m, ncbiDict, ensDict) != []
    ensures forall m :: m in markerToGM ==> markerToGM[m] == GeneModelsOf(rows, m, ncbiDict, ensDict)
  {
    markerToGM := map[];
    for i := 0 to |rows|
      invariant forall m :: m in markerToGM <==> GeneModelsOf(rows[..i], m, ncbiDict, ensDict) != []
      invariant forall m :: m in markerToGM ==> markerToGM[m] == GeneModelsOf(rows[..i], m, ncbiDict, ensDict)
    {
      assert rows[..i + 1][..i] == rows[..i];
      var r := rows[i];
      var rawBiotype := RawOrNull(r);
      var lowerRawBiotype := Lower(rawBiotype);
      var currentEquivSet: set<TermElem>;
      if r.ldbKey == NCBI_GENE_MODEL_LDB {
        if lowerRawBiotype !in ncbiDict {
          continue;
        }
        currentEquivSet := ncbiDict[lowerRawBiotype];
      } else if r.ldbKey == ENSEMBL_GENE_MODEL_LDB {
        if lowerRawBiotype !in ensDict {
          continue;
        }
        currentEquivSet := ensDict[lowerRawBiotype];
      } else {
        continue;
      }
      var gm := GeneModel(r.seqKey, r.ldbKey, rawBiotype, currentEquivSet);
      if r.markerKey !in markerToGM {
        markerToGM := markerToGM[r.markerKey := []];
      }
      markerToGM := markerToGM[r.markerKey := markerToGM[r.markerKey] + [gm]];
    }
    assert rows[..|rows|] == rows;
  }

  // ---------------------------------------------------------------
  // The verdict
  // ---------------------------------------------------------------

  /** The intersection of the sets, the first seeding it ({} for none). */
  function IntersectAll(ss: seq<set<TermElem>>): set<TermElem>
    decreases |ss|
  {
    if |ss| <= 1 then (if ss == [] then {} else ss[0])
    else IntersectAll(ss[..|ss| - 1]) * ss[|ss| - 1]
  }

  lemma {:induction false} IntersectAllMembers(ss: seq<set<TermElem>>)
    requires ss != []
    ensures forall x :: x in IntersectAll(ss) <==> forall i :: 0 <= i < |ss| ==> x in ss[i]
    decreases |ss|
  {
    if |ss| > 1 {
      var pre := ss[..|ss| - 1];
      IntersectAllMembers(pre);
      assert forall i :: 0 <= i < |pre| ==> pre[i] == ss[i];
    }
  }

  function EquivSets(gms: seq<GeneModel>): seq<set<TermElem>>
  {
    seq(|gms|, i requires 0 <= i < |gms| => gms[i].equivalentBiotypeSet)
  }

  /** The marker's verdict from its gene models and its direct feature
      types. */
  function Verdict(gms: seq<GeneModel>, featureTypes: seq<int>): int
  {
    var gmIntersectSet := IntersectAll(EquivSets(gms));
    if |gmIntersectSet| == 0 then YES_CONFLICT
    else if |KeySet(featureTypes) * gmIntersectSet| != 1 then YES_CONFLICT
    else NO_CONFLICT
  }

  /** Every gene model's set holds `x`. */
  ghost predicate SharedByAll(gms: seq<GeneModel>, x: TermElem)
  {
    forall i :: 0 <= i < |gms| ==> x in gms[i].equivalentBiotypeSet
  }

  /** A set has one element exactly when it is a singleton display. */
  lemma SingletonIff(c: set<TermElem>)
    ensures |c| == 1 <==> exists x :: c == {x}
  {
    if |c| == 1 {
      var x :| x in c;
      assert |c - {x}| == 0;
      assert c == {x};
    }
  }

  /** The direct feature types every gene model's set holds. */
  lemma CommonTypes(gms: seq<GeneModel>, featureTypes: seq<int>)
    requires gms != []
    ensures forall x :: x in KeySet(featureTypes) * IntersectAll(EquivSets(gms)) <==>
              x in KeySet(featureTypes) && SharedByAll(gms, x)
  {
    var ss := EquivSets(gms);
    assert |ss| == |gms| && forall i :: 0 <= i < |gms| ==> ss[i] == gms[i].equivalentBiotypeSet;
    IntersectAllMembers(ss);
  }

  /** Exactly one direct feature type is in every gene model's set. */
  ghost predicate ExactlyOneShared(gms: seq<GeneModel>, featureTypes: seq<int>)
  {
    ExactlyOneSharedIn(gms, KeySet(featureTypes))
  }

  ghost predicate ExactlyOneSharedIn(gms: seq<GeneModel>, f: set<TermElem>)
  {
    exists x :: x in f && SharedByAll(gms, x) && forall y :: y in f && SharedByAll(gms, y) ==> y == x
  }

  lemma VerdictByCommon(gms: seq<GeneModel>, featureTypes: seq<int>)
    ensures Verdict(gms, featureTypes) == NO_CONFLICT <==> |KeySet(featureTypes) * IntersectAll(EquivSets(gms))| == 1
    ensures Verdict(gms, featureTypes) == YES_CONFLICT || Verdict(gms, featureTypes) == NO_CONFLICT
  {
    var gi := IntersectAll(EquivSets(gms));
    if |gi| == 0 {
      assert gi == {};
      assert KeySet(featureTypes) * gi == {};
    }
  }

  lemma SingletonOfShared(c: set<TermElem>, f: set<TermElem>, gms: seq<GeneModel>)
    requires forall x :: x in c <==> x in f && SharedByAll(gms, x)
    ensures |c| == 1 <==> ExactlyOneSharedIn(gms, f)
  {
    SingletonIff(c);
    if |c| == 1 {
      var x :| c == {x};
      assert x in f && SharedByAll(gms, x);
    }
    if ExactlyOneSharedIn(gms, f) {
      var x :| x in f && SharedByAll(gms, x) && forall y :: y in f && SharedByAll(gms, y) ==> y == x;
      assert c == {x};
    }
  }

  lemma CommonIsSingleton(gms: seq<GeneModel>, featureTypes: seq<int>)
    requires gms != []
    ensures |KeySet(featureTypes) * IntersectAll(EquivSets(gms))| == 1 <==> ExactlyOneShared(gms, featureTypes)
  {
    CommonTypes(gms, featureTypes);
    SingletonOfShared(KeySet(featureTypes) * IntersectAll(EquivSets(gms)), KeySet(featureTypes), gms);
  }

  /** A marker with gene models has no conflict exactly when exactly one of
      its direct feature types is in every gene model's equivalence set. */
  lemma VerdictMeaning(gms: seq<GeneModel>, featureTypes: seq<int>)
    requires gms != []
    ensures Verdict(gms, featureTypes) == NO_CONFLICT <==> ExactlyOneShared(gms, featureTypes)
    ensures Verdict(gms, featureTypes) == YES_CONFLICT || Verdict(gms, featureTypes) == NO_CONFLICT
  {
    VerdictByCommon(gms, featureTypes);
    CommonIsSingleton(gms, featureTypes);
  }

  /** The string 'gene' in the non-coding RNA set never decides a verdict:
      removing every name from the gene models' sets leaves it unchanged. */
  lemma NamesNeverDecide(gms: seq<GeneModel>, featureTypes: seq<int>)
    requires gms != []
    ensures Verdict(gms, featureTypes) == Verdict(WithoutNames(gms), featureTypes)
  {
    var gms' := WithoutNames(gms);
    forall x: TermElem | x.TermKey?
      ensures SharedByAll(gms, x) <==> SharedByAll(gms', x)
    {
      forall i | 0 <= i < |gms|
        ensures x in gms[i].equivalentBiotypeSet <==> x in gms'[i].equivalentBiotypeSet
      {
        KeepsKeys(gms, i, x);
      }
    }
    forall x | x in KeySet(featureTypes)
      ensures x.TermKey?
    {
    }
    VerdictMeaning(gms, featureTypes);
    VerdictMeaning(gms', featureTypes);
  }

  lemma KeepsKeys(gms: seq<GeneModel>, i: nat, x: TermElem)
    requires i < |gms| && x.TermKey?
    ensures x in WithoutNames(gms)[i].equivalentBiotypeSet <==> x in gms[i].equivalentBiotypeSet
  {
  }

  function WithoutNames(gms: seq<GeneModel>): (r: seq<GeneModel>)
    ensures |r| == |gms|
  {
    seq(|gms|, i requires 0 <= i < |gms| => gms[i].(equivalentBiotypeSet := KeysOnly(gms[i].equivalentBiotypeSet)))
  }

  function KeysOnly(s: set<TermElem>): set<TermElem>
  {
    set x | x in s && x.TermKey?
  }

  /** The intersection loop and the verdict for one marker. */
  method MarkerVerdict(gms: seq<GeneModel>, featureTypes: seq<int>) returns (conflictType: int)
    ensures conflictType == Verdict(gms, featureTypes)
  {
    conflictType := NO_CONFLICT;
    var mkrFeatureTypeSet := KeySet(featureTypes);
    var first := true;
    var gmIntersectSet: set<TermElem> := {};
    for i := 0 to |gms|
      invariant first <==> i == 0
      invariant gmIntersectSet == IntersectAll(EquivSets(gms[..i]))
    {
      var s := gms[i].equivalentBiotypeSet;
      assert EquivSets(gms[..i + 1])[..i] == EquivSets(gms[..i]);
      if first {
        gmIntersectSet := s;
        first := false;
      } else {
        gmIntersectSet := gmIntersectSet * s;
      }
    }
    assert gms[..|gms|] == gms;
    if |gmIntersectSet| == 0 {
      conflictType := YES_CONFLICT;
    } else {
      var finalIntersectSet := mkrFeatureTypeSet * gmIntersectSet;
      if |finalIntersectSet| != 1 {
        conflictType := YES_CONFLICT;
      }
    }
  }

  // ---------------------------------------------------------------
  // biotypeLookup
  // ---------------------------------------------------------------

  /** The key '<marker>:<sequence>'. */
  datatype BiotypeKey = BiotypeKey(markerKey: Key, seqKey: Key)

  /** `[conflictType, rawBiotype]`. */
  datatype BiotypeEntry = BiotypeEntry(conflict: int, rawBiotype: string)

  /** The raw biotype of the first gene model of sequence `s`. */
  function FirstRaw(gms: seq<GeneModel>, s: Key): Option<string>
    decreases |gms|
  {
    if gms == [] then None
    else
      var p := FirstRaw(gms[..|gms| - 1], s);
      if p.Some? then p
      else if gms[|gms| - 1].sequenceKey == s then Some(gms[|gms| - 1].rawBiotype)
      else None
  }

  lemma {:induction false} FirstRawIsFirst(gms: seq<GeneModel>, s: Key)
    ensures FirstRaw(gms, s).None? <==> forall i :: 0 <= i < |gms| ==> gms[i].sequenceKey != s
    ensures FirstRaw(gms, s).Some? ==>
              exists i :: 0 <= i < |gms| && gms[i].sequenceKey == s && FirstRaw(gms, s) == Some(gms[i].rawBiotype)
                          && forall j :: 0 <= j < i ==> gms[j].sequenceKey != s
    decreases |gms|
  {
    if gms != [] {
      var pre := gms[..|gms| - 1];
      FirstRawIsFirst(pre, s);
      assert forall i :: 0 <= i < |pre| ==> pre[i] == gms[i];
    }
  }

  /** `lookup` holds exactly one entry per gene model sequence of each marker
      that has gene models and direct feature types, carrying the marker's
      verdict and the raw biotype of that sequence's first gene model. */
  ghost predicate LookupMatches(lookup: map<BiotypeKey, BiotypeEntry>, markerToGM: map<Key, seq<GeneModel>>,
                                featureTypes: map<Key, seq<int>>)
  {
    && (forall k :: k in lookup <==>
          k.markerKey in featureTypes && k.markerKey in markerToGM && FirstRaw(markerToGM[k.markerKey], k.seqKey).Some?)
    && (forall k :: k in lookup ==>
          lookup[k] == BiotypeEntry(Verdict(markerToGM[k.markerKey], featureTypes[k.markerKey]),
                                    FirstRaw(markerToGM[k.markerKey], k.seqKey).value))
  }

  /** The loop over the markers with direct feature types. The source visits
      them in sorted order; the entries of different markers have different
      keys, so the order does not change the lookup. */
  method RecordVerdicts(markerToGM: map<Key, seq<GeneModel>>, featureTypes: map<Key, seq<int>>)
    returns (biotypeLookup: map<BiotypeKey, BiotypeEntry>)
    ensures LookupMatches(biotypeLookup, markerToGM, featureTypes)
  {
    biotypeLookup := map[];
    var remaining := featureTypes.Keys;
    while remaining != {}
      invariant remaining <= featureTypes.Keys
      invariant LookupMatches(biotypeLookup, markerToGM, map m | m in featureTypes && m !in remaining :: featureTypes[m])
      decreases remaining
    {
      var markerKey :| markerKey in remaining;
      ghost var done := map m | m in featureTypes && m !in remaining :: featureTypes[m];
      remaining := remaining - {markerKey};
      ghost var done' := map m | m in featureTypes && m !in remaining :: featureTypes[m];
      if markerKey !in markerToGM {
        assert done'.Keys == done.Keys + {markerKey};
        continue;
      }
      var gms := markerToGM[markerKey];
      var conflictType := MarkerVerdict(gms, featureTypes[markerKey]);
      ghost var before := biotypeLookup;
      for j := 0 to |gms|
        invariant forall k :: k in biotypeLookup && k.markerKey != markerKey <==> k in before
        invariant forall k :: k in before ==> biotypeLookup[k] == before[k]
        invariant forall s: Key :: BiotypeKey(markerKey, s) in biotypeLookup <==> FirstRaw(gms[..j], s).Some?
        invariant forall s: Key :: BiotypeKey(markerKey, s) in biotypeLookup ==>
                    biotypeLookup[BiotypeKey(markerKey, s)] == BiotypeEntry(conflictType, FirstRaw(gms[..j], s).value)
      {
        assert gms[..j + 1][..j] == gms[..j];
        var key := BiotypeKey(markerKey, gms[j].sequenceKey);
        if key !in biotypeLookup {
          biotypeLookup := biotypeLookup[key := BiotypeEntry(conflictType, gms[j].rawBiotype)];
        }
      }
      assert gms[..|gms|] == gms;
    }
  }

  /** A row of the direct feature type query: marker and MCV term. */
  datatype BiotypeInput = BiotypeInput(
    ncRnaDescendants: seq<int>,
    allFeatureTypeDescendants: seq<int>,
    mcvTerms: seq<(string, int)>,
    pseudogeneRawTerms: seq<string>,
    geneRawTerms: seq<string>,
    ensemblRawRows: seq<RawBiotypeRow>,
    ncbiRawRows: seq<RawBiotypeRow>,
    geneModelRows: seq<GeneModelRow>,
    featureTypeRows: seq<(Key, int)>)

  datatype Vocab = BioTypeEnsembl | BioTypeNCBI

  /** `sys.exit('<vocab> equivalency term does not resolve: <term>')`. */
  datatype BiotypeError = Unresolvable(vocab: Vocab, term: string)

  function TermSetsOf(input: BiotypeInput): TermSets
  {
    TermSets(LastWins(input.mcvTerms), KeySet(input.allFeatureTypeDescendants),
             {TermKey(NON_CODING_RNA_GENE_TERM_KEY), TermName("gene")} + KeySet(input.ncRnaDescendants))
  }

  /** What generateBiotypeLookups produces: the first unresolvable
      equivalence table ends the run; otherwise every (marker, gene-model
      sequence) pair of a marker with feature types gets the marker's
      verdict and the pair's first raw biotype, and no other pair gets an
      entry. */
  ghost predicate BiotypeOutcome(input: BiotypeInput, res: Result<map<BiotypeKey, BiotypeEntry>, BiotypeError>)
  {
    var ts := TermSetsOf(input);
    var ens := EquivTable(input.ensemblRawRows, input.pseudogeneRawTerms, input.geneRawTerms, ts);
    var ncbi := EquivTable(input.ncbiRawRows, input.pseudogeneRawTerms, input.geneRawTerms, ts);
    if ens.TableUnresolved? then res == Failure(Unresolvable(BioTypeEnsembl, ens.term))
    else if ncbi.TableUnresolved? then res == Failure(Unresolvable(BioTypeNCBI, ncbi.term))
    else
      && res.Success?
      && (forall k :: k in res.value <==>
            && GroupOf(input.featureTypeRows, k.markerKey) != []
            && FirstRaw(GeneModelsOf(input.geneModelRows, k.markerKey, ncbi.dict, ens.dict), k.seqKey).Some?)
      && (forall k :: k in res.value ==>
            var gms := GeneModelsOf(input.geneModelRows, k.markerKey, ncbi.dict, ens.dict);
            res.value[k] == BiotypeEntry(Verdict(gms, GroupOf(input.featureTypeRows, k.markerKey)),
                                         FirstRaw(gms, k.seqKey).value))
  }

  /** generateBiotypeLookups: the Ensembl then the NCBI equivalence table
      (the first unresolved term ends the run), then the gene models, the
      direct feature types and the verdicts. */
  method GenerateBiotypeLookups(input: BiotypeInput) returns (res: Result<map<BiotypeKey, BiotypeEntry>, BiotypeError>)
    ensures BiotypeOutcome(input, res)
  {
    var ncRNAdescSet := NcRnaDescSet(input.ncRnaDescendants);
    var allFeatureTypesDescSet := DescendantSet(input.allFeatureTypeDescendants);
    var mcvTermToKeyDict := BuildDict(input.mcvTerms);
    var ts := TermSets(mcvTermToKeyDict, allFeatureTypesDescSet, ncRNAdescSet);
    var ens := BuildEquivTable(input.ensemblRawRows, input.pseudogeneRawTerms, input.geneRawTerms, ts);
    if ens.TableUnresolved? {
      return Failure(Unresolvable(BioTypeEnsembl, ens.term));
    }
    var ncbi := BuildEquivTable(input.ncbiRawRows, input.pseudogeneRawTerms, input.geneRawTerms, ts);
    if ncbi.TableUnresolved? {
      return Failure(Unresolvable(BioTypeNCBI, ncbi.term));
    }
    var markerToGM := BuildMarkerToGM(input.geneModelRows, ncbi.dict, ens.dict);
    var featureTypesDict := GroupByKey(input.featureTypeRows);
    var lookup := RecordVerdicts(markerToGM, featureTypesDict);
    res := Success(lookup);
    FirstRawOfNone(input.geneModelRows, ncbi.dict, ens.dict);
  }

  /** A marker without gene models has no first raw biotype for any sequence. */
  lemma FirstRawOfNone(rows: seq<GeneModelRow>, ncbiDict: map<string, set<TermElem>>, ensDict: map<string, set<TermElem>>)
    ensures forall m: Key, s: Key :: GeneModelsOf(rows, m, ncbiDict, ensDict) == [] ==>
              FirstRaw(GeneModelsOf(rows, m, ncbiDict, ensDict), s).None?
  {
  }

  /** All gene model sequences of one marker share the marker's verdict. */
  lemma SameMarkerSameConflict(lookup: map<BiotypeKey, BiotypeEntry>, markerToGM: map<Key, seq<GeneModel>>,
                               featureTypes: map<Key, seq<int>>, k1: BiotypeKey, k2: BiotypeKey)
    requires LookupMatches(lookup, markerToGM, featureTypes)
    requires k1 in lookup && k2 in lookup && k1.markerKey == k2.markerKey
    ensures lookup[k1].conflict == lookup[k2].conflict
  {
  }

  /** A marker with no gene models, or no direct feature types, has no entry. */
  lemma NoEntryWithoutBoth(lookup: map<BiotypeKey, BiotypeEntry>, markerToGM: map<Key, seq<GeneModel>>,
                           featureTypes: map<Key, seq<int>>, m: Key, s: Key)
    requires LookupMatches(lookup, markerToGM, featureTypes)
    requires m !in markerToGM || m !in featureTypes
    ensures BiotypeKey(m, s) !in lookup
  {
  }

  /** Every gene model sequence of a marker with direct feature types has an
      entry, with the raw biotype of its first gene model. */
  lemma {:induction false} EveryGeneModelSequenceHasEntry(lookup: map<BiotypeKey, BiotypeEntry>, markerToGM: map<Key, seq<GeneModel>>,
                                      featureTypes: map<Key, seq<int>>, m: Key, i: nat)
    requires LookupMatches(lookup, markerToGM, featureTypes)
    requires m in markerToGM && m in featureTypes && i < |markerToGM[m]|
    ensures var g := markerToGM[m][i];
      BiotypeKey(m, g.sequenceKey) in lookup
      && exists j :: 0 <= j <= i && markerToGM[m][j].sequenceKey == g.sequenceKey
                     && lookup[BiotypeKey(m, g.sequenceKey)].rawBiotype == markerToGM[m][j].rawBiotype
  {
    var g := markerToGM[m][i];
    FirstRawIsFirst(markerToGM[m], g.sequenceKey);
  }
}
