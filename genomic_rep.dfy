/**
 * The representative genomic sequence cascade of determineRepresentative
 * (seqmarker.py). This revision has no VEGA tier: `hasVega` is constant
 * False, so only Ensembl, NCBI and GenBank take part.
 */
module GenomicRep {
  import opened Lengths
  import opened Selection

  /** `genomicRepProvider`: '' or one of the three provider terms. */
  datatype Provider = NoProvider | GenBank | Ncbi | Ensembl

  /** `(genomicRepKey, genomicRepProvider)`; the key 0 means none. */
  datatype GenomicChoice = GenomicChoice(seqKey: int, provider: Provider)

  const NoGenomic := GenomicChoice(0, NoProvider)

  /** A sequence is unique when the marker-by-sequence lookup lists exactly
      one marker for it. */
  predicate IsUniqueSeq(mkrsBySeq: map<Key, seq<Key>>, k: Key)
  {
    k in mkrsBySeq && |mkrsBySeq[k]| == 1
  }

  predicate HasUniq(cs: seq<Candidate>)
  {
    exists i :: 0 <= i < |cs| && cs[i].uniq
  }

  /** `*IsSgl and *HasUniq`: the provider has exactly one sequence, and it is
      unique. */
  predicate SingleUnique(cs: seq<Candidate>)
  {
    |cs| == 1 && cs[0].uniq
  }

  ghost predicate KeyOf(cs: seq<Candidate>, k: int)
  {
    exists i :: 0 <= i < |cs| && cs[i].seqKey == k
  }

  /** `k` is the key determineSeq(cs, getLongest, useUniq) chooses: the last
      qualifying candidate of extreme length. */
  ghost predicate ExtremeKey(cs: seq<Candidate>, getLongest: bool, useUniq: bool, k: int)
  {
    exists i :: IsLastExtreme(cs, getLongest, useUniq, i) && cs[i].seqKey == k
  }

  /** Some qualifying Ensembl candidate is strictly shorter than every
      qualifying NCBI candidate. */
  ghost predicate EnsemblStrictlyShorter(ens: seq<Candidate>, ncbi: seq<Candidate>, useUniq: bool)
  {
    exists i :: 0 <= i < |ens| && Qualifies(ens[i], useUniq) &&
      forall j :: 0 <= j < |ncbi| && Qualifies(ncbi[j], useUniq) ==>
        Rank(ens[i].length) < Rank(ncbi[j].length)
  }

  /** The comparison used by cases 4/5, 9/10, 14/15 and 19/20: NCBI unless
      the Ensembl length is strictly shorter. */
  function NcbiUnlessEnsemblShorter(ensKey: int, ensLen: Slot, ncbiKey: int, ncbiLen: Slot): GenomicChoice
  {
    var value := DetermineShortest(ensLen, ncbiLen);
    if value == Tie || value == Second then GenomicChoice(ncbiKey, Ncbi)
    else GenomicChoice(ensKey, Ensembl)
  }

  /** The cascade of determineRepresentative over the marker's Ensembl, NCBI
      and GenBank DNA candidates, in list order. */
  function ChooseGenomic(ens: seq<Candidate>, ncbi: seq<Candidate>, genbank: seq<Candidate>): GenomicChoice
  {
    if |ens| == 0 && |ncbi| == 0 then
      // marker has no gene models: longest unique GenBank, else longest
      var p := Scan(genbank, true, true);
      if p.seqKey != 0 then GenomicChoice(p.seqKey, GenBank)
      else
        var q := Scan(genbank, true, false);
        if q.seqKey != 0 then GenomicChoice(q.seqKey, GenBank) else NoGenomic
    else
      var ensSgl, ncbiSgl := |ens| == 1, |ncbi| == 1;
      var ensUniq, ncbiUniq := HasUniq(ens), HasUniq(ncbi);
      var sglUniqEns, sglUniqNcbi := ensSgl && ensUniq, ncbiSgl && ncbiUniq;
      if sglUniqEns && sglUniqNcbi then
        NcbiUnlessEnsemblShorter(ens[0].seqKey, Filled(ens[0].length), ncbi[0].seqKey, Filled(ncbi[0].length))
      else if sglUniqEns then GenomicChoice(ens[0].seqKey, Ensembl)
      else if sglUniqNcbi then GenomicChoice(ncbi[0].seqKey, Ncbi)
      else if ensUniq && ncbiUniq then
        var e, n := Scan(ens, false, true), Scan(ncbi, false, true);
        NcbiUnlessEnsemblShorter(e.seqKey, e.length, n.seqKey, n.length)
      else if ensUniq then GenomicChoice(Scan(ens, false, true).seqKey, Ensembl)
      else if ncbiUniq then GenomicChoice(Scan(ncbi, false, true).seqKey, Ncbi)
      else if ensSgl || ncbiSgl then
        if ensSgl && ncbiSgl then
          NcbiUnlessEnsemblShorter(ens[0].seqKey, Filled(ens[0].length), ncbi[0].seqKey, Filled(ncbi[0].length))
        else if ensSgl then GenomicChoice(ens[0].seqKey, Ensembl)
        else GenomicChoice(ncbi[0].seqKey, Ncbi)
      else if |ens| > 0 && |ncbi| > 0 then
        var e, n := Scan(ens, false, false), Scan(ncbi, false, false);
        NcbiUnlessEnsemblShorter(e.seqKey, e.length, n.seqKey, n.length)
      else if |ens| > 0 then GenomicChoice(Scan(ens, false, false).seqKey, Ensembl)
      else GenomicChoice(Scan(ncbi, false, false).seqKey, Ncbi)
  }

  /** What the scan returns when something qualifies, as a key and a rank. */
  lemma ScanFacts(cs: seq<Candidate>, getLongest: bool, useUniq: bool)
    requires !NoneQualifies(cs, useUniq)
    ensures var p := Scan(cs, getLongest, useUniq);
      p.seqKey != 0 && p.length.Filled? && ExtremeKey(cs, getLongest, useUniq, p.seqKey) && KeyOf(cs, p.seqKey)
      && exists i :: IsLastExtreme(cs, getLongest, useUniq, i) && p == Pick(cs[i].seqKey, Filled(cs[i].length))
  {
    ScanChoosesLastExtreme(cs, getLongest, useUniq);
    var i :| IsLastExtreme(cs, getLongest, useUniq, i)
           && Scan(cs, getLongest, useUniq) == Pick(cs[i].seqKey, Filled(cs[i].length));
    assert cs[i].seqKey > 0;
  }

  /** Comparing the two scans' choices under "NCBI unless Ensembl is
      shorter" picks Ensembl exactly when some Ensembl candidate is strictly
      shorter than every NCBI candidate. */
  lemma CompareShortest(ens: seq<Candidate>, ncbi: seq<Candidate>, useUniq: bool)
    requires !NoneQualifies(ens, useUniq) && !NoneQualifies(ncbi, useUniq)
    ensures var e, n := Scan(ens, false, useUniq), Scan(ncbi, false, useUniq);
      var r := NcbiUnlessEnsemblShorter(e.seqKey, e.length, n.seqKey, n.length);
      && (r.provider == Ensembl || r.provider == Ncbi)
      && (r.provider == Ensembl ==> r.seqKey == e.seqKey && ExtremeKey(ens, false, useUniq, r.seqKey))
      && (r.provider == Ncbi ==> r.seqKey == n.seqKey && ExtremeKey(ncbi, false, useUniq, r.seqKey))
      && (r.provider == Ensembl <==> EnsemblStrictlyShorter(ens, ncbi, useUniq))
  {
    ScanFacts(ens, false, useUniq);
    ScanFacts(ncbi, false, useUniq);
    var e, n := Scan(ens, false, useUniq), Scan(ncbi, false, useUniq);
    var i :| IsLastExtreme(ens, false, useUniq, i) && e == Pick(ens[i].seqKey, Filled(ens[i].length));
    var k :| IsLastExtreme(ncbi, false, useUniq, k) && n == Pick(ncbi[k].seqKey, Filled(ncbi[k].length));
    var r := NcbiUnlessEnsemblShorter(e.seqKey, e.length, n.seqKey, n.length);
    if r.provider == Ensembl {
      assert Rank(ens[i].length) < Rank(ncbi[k].length);
      assert EnsemblStrictlyShorter(ens, ncbi, useUniq);
    } else {
      assert Rank(ncbi[k].length) <= Rank(ens[i].length);
      forall i' | 0 <= i' < |ens| && Qualifies(ens[i'], useUniq)
        ensures Rank(ens[i'].length) >= Rank(ncbi[k].length)
      {
      }
    }
  }

  /** Without Ensembl or NCBI candidates the representative is the longest
      unique GenBank DNA sequence, else the longest GenBank DNA sequence,
      else there is none. */
  lemma {:induction false} NoGeneModelsUseGenBank(ens: seq<Candidate>, ncbi: seq<Candidate>, genbank: seq<Candidate>)
    requires |ens| == 0 && |ncbi| == 0
    ensures var r := ChooseGenomic(ens, ncbi, genbank);
      && (r.seqKey == 0 <==> |genbank| == 0)
      && (r.seqKey == 0 ==> r == NoGenomic)
      && (HasUniq(genbank) ==> r.provider == GenBank && ExtremeKey(genbank, true, true, r.seqKey))
      && (!HasUniq(genbank) && |genbank| > 0 ==>
            r.provider == GenBank && ExtremeKey(genbank, true, false, r.seqKey))
  {
    if HasUniq(genbank) {
      var i :| 0 <= i < |genbank| && genbank[i].uniq;
      assert Qualifies(genbank[i], true);
      ScanFacts(genbank, true, true);
    } else {
      assert NoneQualifies(genbank, true);
      ScanChoosesLastExtreme(genbank, true, true);
      if |genbank| > 0 {
        assert Qualifies(genbank[0], false);
        ScanFacts(genbank, true, false);
      } else {
        ScanChoosesLastExtreme(genbank, true, false);
      }
    }
  }

  /** A marker with at least one Ensembl or NCBI candidate always gets a
      representative, and it is one of those gene-model sequences, never a
      GenBank one. */
  lemma {:induction false} GeneModelsAlwaysRepresented(ens: seq<Candidate>, ncbi: seq<Candidate>, genbank: seq<Candidate>)
    requires |ens| > 0 || |ncbi| > 0
    ensures var r := ChooseGenomic(ens, ncbi, genbank);
      && r.seqKey != 0
      && ((r.provider == Ensembl && KeyOf(ens, r.seqKey)) || (r.provider == Ncbi && KeyOf(ncbi, r.seqKey)))
  {
    var r := ChooseGenomic(ens, ncbi, genbank);
    if SingleUnique(ens) || SingleUnique(ncbi) {
      SingleUniqueWinsOutright(ens, ncbi, genbank);
      if r.provider == Ensembl { assert ens[0].seqKey == r.seqKey; } else { assert ncbi[0].seqKey == r.seqKey; }
    } else if HasUniq(ens) || HasUniq(ncbi) {
      ShortestUniqueWins(ens, ncbi, genbank);
    } else if |ens| == 1 || |ncbi| == 1 {
      SingleWins(ens, ncbi, genbank);
      if r.provider == Ensembl { assert ens[0].seqKey == r.seqKey; } else { assert ncbi[0].seqKey == r.seqKey; }
    } else {
      ShortestOverallWins(ens, ncbi, genbank);
    }
  }

  /** The chosen key is 0 or a candidate's key; an Ensembl choice is always
      one of the Ensembl candidates. */
  lemma ChoiceKeyIsCandidate(ens: seq<Candidate>, ncbi: seq<Candidate>, genbank: seq<Candidate>)
    ensures var r := ChooseGenomic(ens, ncbi, genbank);
      && r.seqKey >= 0
      && (r.seqKey == 0 <==> r.provider == NoProvider)
      && (r.provider == Ensembl ==> r.seqKey > 0 && KeyOf(ens, r.seqKey))
  {
    var r := ChooseGenomic(ens, ncbi, genbank);
    if |ens| == 0 && |ncbi| == 0 {
      NoGeneModelsUseGenBank(ens, ncbi, genbank);
      if r.seqKey != 0 {
        var i :| (IsLastExtreme(genbank, true, true, i) || IsLastExtreme(genbank, true, false, i)) && genbank[i].seqKey == r.seqKey;
      }
    } else {
      GeneModelsAlwaysRepresented(ens, ncbi, genbank);
      if r.provider == Ensembl {
        var i :| 0 <= i < |ens| && ens[i].seqKey == r.seqKey;
      } else {
        var i :| 0 <= i < |ncbi| && ncbi[i].seqKey == r.seqKey;
      }
    }
  }

  /** Tier 1: a provider whose only sequence is unique wins outright; when
      both have one, NCBI wins unless Ensembl's is strictly shorter. */
  lemma SingleUniqueWinsOutright(ens: seq<Candidate>, ncbi: seq<Candidate>, genbank: seq<Candidate>)
    requires SingleUnique(ens) || SingleUnique(ncbi)
    ensures var r := ChooseGenomic(ens, ncbi, genbank);
      && (SingleUnique(ens) && !SingleUnique(ncbi) ==> r == GenomicChoice(ens[0].seqKey, Ensembl))
      && (SingleUnique(ncbi) && !SingleUnique(ens) ==> r == GenomicChoice(ncbi[0].seqKey, Ncbi))
      && (SingleUnique(ens) && SingleUnique(ncbi) ==>
            r == if Rank(ens[0].length) < Rank(ncbi[0].length) then GenomicChoice(ens[0].seqKey, Ensembl)
                 else GenomicChoice(ncbi[0].seqKey, Ncbi))
  {
    if SingleUnique(ens) { assert HasUniq(ens); }
    if SingleUnique(ncbi) { assert HasUniq(ncbi); }
  }

  /** Tier 2: with no single-and-unique provider, a provider with a unique
      sequence wins with its shortest unique one; if both have one, NCBI
      wins unless Ensembl's shortest unique is strictly shorter. */
  lemma {:induction false} ShortestUniqueWins(ens: seq<Candidate>, ncbi: seq<Candidate>, genbank: seq<Candidate>)
    requires !SingleUnique(ens) && !SingleUnique(ncbi)
    requires HasUniq(ens) || HasUniq(ncbi)
    ensures var r := ChooseGenomic(ens, ncbi, genbank);
      && (r.provider == Ensembl ==> HasUniq(ens) && ExtremeKey(ens, false, true, r.seqKey))
      && (r.provider == Ncbi ==> HasUniq(ncbi) && ExtremeKey(ncbi, false, true, r.seqKey))
      && (r.provider == Ensembl || r.provider == Ncbi)
      && (HasUniq(ens) && HasUniq(ncbi) ==> (r.provider == Ensembl <==> EnsemblStrictlyShorter(ens, ncbi, true)))
  {
    if HasUniq(ens) {
      var i :| 0 <= i < |ens| && ens[i].uniq;
      assert Qualifies(ens[i], true);
      ScanFacts(ens, false, true);
    }
    if HasUniq(ncbi) {
      var i :| 0 <= i < |ncbi| && ncbi[i].uniq;
      assert Qualifies(ncbi[i], true);
      ScanFacts(ncbi, false, true);
    }
    if HasUniq(ens) && HasUniq(ncbi) {
      CompareShortest(ens, ncbi, true);
    }
  }

  /** Tier 3: with no unique sequence anywhere, a provider with a single
      sequence wins; if both are single, NCBI wins unless Ensembl's is
      strictly shorter. */
  lemma SingleWins(ens: seq<Candidate>, ncbi: seq<Candidate>, genbank: seq<Candidate>)
    requires !HasUniq(ens) && !HasUniq(ncbi)
    requires |ens| == 1 || |ncbi| == 1
    ensures var r := ChooseGenomic(ens, ncbi, genbank);
      && (|ens| == 1 && |ncbi| != 1 ==> r == GenomicChoice(ens[0].seqKey, Ensembl))
      && (|ncbi| == 1 && |ens| != 1 ==> r == GenomicChoice(ncbi[0].seqKey, Ncbi))
      && (|ens| == 1 && |ncbi| == 1 ==>
            r == if Rank(ens[0].length) < Rank(ncbi[0].length) then GenomicChoice(ens[0].seqKey, Ensembl)
                 else GenomicChoice(ncbi[0].seqKey, Ncbi))
  {
  }

  /** Tier 4: with neither unique nor single sequences, the shortest
      sequence wins; between the providers NCBI wins unless some Ensembl
      sequence is strictly shorter than every NCBI one. */
  lemma {:induction false} ShortestOverallWins(ens: seq<Candidate>, ncbi: seq<Candidate>, genbank: seq<Candidate>)
    requires !HasUniq(ens) && !HasUniq(ncbi)
    requires |ens| != 1 && |ncbi| != 1
    requires |ens| > 0 || |ncbi| > 0
    ensures var r := ChooseGenomic(ens, ncbi, genbank);
      && (r.provider == Ensembl ==> ExtremeKey(ens, false, false, r.seqKey))
      && (r.provider == Ncbi ==> ExtremeKey(ncbi, false, false, r.seqKey))
      && (r.provider == Ensembl || r.provider == Ncbi)
      && (|ens| > 0 && |ncbi| > 0 ==> (r.provider == Ensembl <==> EnsemblStrictlyShorter(ens, ncbi, false)))
      && (|ncbi| == 0 ==> r.provider == Ensembl)
      && (|ens| == 0 ==> r.provider == Ncbi)
  {
    if |ens| > 0 {
      assert Qualifies(ens[0], false);
      ScanFacts(ens, false, false);
    }
    if |ncbi| > 0 {
      assert Qualifies(ncbi[0], false);
      ScanFacts(ncbi, false, false);
    }
    if |ens| > 0 && |ncbi| > 0 {
      CompareShortest(ens, ncbi, false);
    }
  }

  /** The decision step of determineRepresentative as the source calls it,
      one determineSeq scan after another. It repeats the cascade of
      ChooseGenomic on purpose: ChooseGenomic carries the tier lemmas, and
      this method mirrors the source's call structure and is proved equal
      to it. */
  method DetermineGenomicRep(ensemblSeqs: seq<Candidate>, ncbiSeqs: seq<Candidate>, genbankSeqs: seq<Candidate>)
    returns (genomicRepKey: int, genomicRepProvider: Provider)
    ensures GenomicChoice(genomicRepKey, genomicRepProvider) == ChooseGenomic(ensemblSeqs, ncbiSeqs, genbankSeqs)
  {
    genomicRepKey, genomicRepProvider := 0, NoProvider;
    var hasEnsembl, hasNCBI := |ensemblSeqs| > 0, |ncbiSeqs| > 0;
    if !hasEnsembl && !hasNCBI {
      var s, l := DetermineSeq(genbankSeqs, true, true);
      if s != 0 {
        genomicRepKey, genomicRepProvider := s, GenBank;
      }
      if genomicRepKey == 0 {
        s, l := DetermineSeq(genbankSeqs, true, false);
        if s != 0 {
          genomicRepKey, genomicRepProvider := s, GenBank;
        }
      }
      return;
    }
    var ensemblIsSgl, ncbiIsSgl := |ensemblSeqs| == 1, |ncbiSeqs| == 1;
    var ensemblHasUniq, ncbiHasUniq := HasUniq(ensemblSeqs), HasUniq(ncbiSeqs);
    var hasSglUniqEnsembl := ensemblIsSgl && ensemblHasUniq;
    var hasSglUniqNCBI := ncbiIsSgl && ncbiHasUniq;
    if hasSglUniqEnsembl && hasSglUniqNCBI {
      var value := DetermineShortest(Filled(ensemblSeqs[0].length), Filled(ncbiSeqs[0].length));
      if value == Tie || value == Second {
        genomicRepKey, genomicRepProvider := ncbiSeqs[0].seqKey, Ncbi;
      } else {
        genomicRepKey, genomicRepProvider := ensemblSeqs[0].seqKey, Ensembl;
      }
    } else if hasSglUniqEnsembl {
      genomicRepKey, genomicRepProvider := ensemblSeqs[0].seqKey, Ensembl;
    } else if hasSglUniqNCBI {
      genomicRepKey, genomicRepProvider := ncbiSeqs[0].seqKey, Ncbi;
    } else if ensemblHasUniq && ncbiHasUniq {
      var sE, lE := DetermineSeq(ensemblSeqs, false, true);
      var sN, lN := DetermineSeq(ncbiSeqs, false, true);
      var value := DetermineShortest(lE, lN);
      if value == Tie || value == Second {
        genomicRepKey, genomicRepProvider := sN, Ncbi;
      } else {
        genomicRepKey, genomicRepProvider := sE, Ensembl;
      }
    } else if ensemblHasUniq {
      var sE, lE := DetermineSeq(ensemblSeqs, false, true);
      genomicRepKey, genomicRepProvider := sE, Ensembl;
    } else if ncbiHasUniq {
      var sN, lN := DetermineSeq(ncbiSeqs, false, true);
      genomicRepKey, genomicRepProvider := sN, Ncbi;
    } else if ensemblIsSgl || ncbiIsSgl {
      if ensemblIsSgl && ncbiIsSgl {
        var value := DetermineShortest(Filled(ensemblSeqs[0].length), Filled(ncbiSeqs[0].length));
        if value == Tie || value == Second {
          genomicRepKey, genomicRepProvider := ncbiSeqs[0].seqKey, Ncbi;
        } else {
          genomicRepKey, genomicRepProvider := ensemblSeqs[0].seqKey, Ensembl;
        }
      } else if ensemblIsSgl {
        genomicRepKey, genomicRepProvider := ensemblSeqs[0].seqKey, Ensembl;
      } else {
        genomicRepKey, genomicRepProvider := ncbiSeqs[0].seqKey, Ncbi;
      }
    } else if hasEnsembl && hasNCBI {
      var sE, lE := DetermineSeq(ensemblSeqs, false, false);
      var sN, lN := DetermineSeq(ncbiSeqs, false, false);
      var value := DetermineShortest(lE, lN);
      if value == Tie || value == Second {
        genomicRepKey, genomicRepProvider := sN, Ncbi;
      } else {
        genomicRepKey, genomicRepProvider := sE, Ensembl;
      }
    } else if hasEnsembl {
      var sE, lE := DetermineSeq(ensemblSeqs, false, false);
      genomicRepKey, genomicRepProvider := sE, Ensembl;
    } else {
      var sN, lN := DetermineSeq(ncbiSeqs, false, false);
      genomicRepKey, genomicRepProvider := sN, Ncbi;
    }
  }
}
