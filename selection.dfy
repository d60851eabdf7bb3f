/**
 * determineSeq of seqmarker.py: the extremum scan over a marker's genomic
 * sequences of one provider, with the '' sentinel and "ties update".
 */
module Selection {
  import opened Lengths

  /** One genomic sequence of a marker, as determineRepresentative builds it:
      `{SEQKEY: key, UNIQ: True/False, LENGTH: length}`. */
  datatype Candidate = Candidate(seqKey: Key, uniq: bool, length: Length)

  /** The pair determineSeq returns: a sequence key (0 for none) and its
      length ('' for none). */
  datatype Pick = Pick(seqKey: int, length: Slot)

  const NoPick := Pick(0, Blank)

  /** A candidate takes part in the scan: every one, or only the unique ones. */
  predicate Qualifies(c: Candidate, useUniq: bool)
  {
    !useUniq || c.uniq
  }

  /** `a` is strictly better than `b`: longer when looking for the longest,
      shorter otherwise. */
  predicate Better(getLongest: bool, a: Length, b: Length)
  {
    if getLongest then Rank(a) > Rank(b) else Rank(a) < Rank(b)
  }

  /** One iteration of the scan for one of its two running choices. */
  function Step(p: Pick, c: Candidate, getLongest: bool, useUniq: bool): Pick
  {
    if !Qualifies(c, useUniq) then p
    else
      var v := if getLongest then DetermineLongest(p.length, Filled(c.length))
               else DetermineShortest(p.length, Filled(c.length));
      if v == Second || v == Tie then Pick(c.seqKey, Filled(c.length)) else p
  }

  /** The running choice after the whole list: the specification of
      determineSeq. */
  function Scan(cs: seq<Candidate>, getLongest: bool, useUniq: bool): Pick
    decreases |cs|
  {
    if cs == [] then NoPick
    else Step(Scan(cs[..|cs| - 1], getLongest, useUniq), cs[|cs| - 1], getLongest, useUniq)
  }

  predicate NoneQualifies(cs: seq<Candidate>, useUniq: bool)
  {
    forall j :: 0 <= j < |cs| ==> !Qualifies(cs[j], useUniq)
  }

  /** Index `i` holds a qualifying candidate of extreme length, and every
      later qualifying candidate is strictly worse: among equally good
      candidates, `i` is the last. */
  ghost predicate IsLastExtreme(cs: seq<Candidate>, getLongest: bool, useUniq: bool, i: int)
  {
    && 0 <= i < |cs|
    && Qualifies(cs[i], useUniq)
    && (forall j :: 0 <= j < |cs| && Qualifies(cs[j], useUniq) ==>
          !Better(getLongest, cs[j].length, cs[i].length))
    && (forall j :: i < j < |cs| && Qualifies(cs[j], useUniq) ==>
          Better(getLongest, cs[i].length, cs[j].length))
  }

  /** The scan returns (0, '') exactly when no candidate qualifies; otherwise
      it returns the key and length of the last qualifying candidate of
      extreme length. */
  lemma {:induction false} ScanChoosesLastExtreme(cs: seq<Candidate>, getLongest: bool, useUniq: bool)
    ensures Scan(cs, getLongest, useUniq) == NoPick <==> NoneQualifies(cs, useUniq)
    ensures !NoneQualifies(cs, useUniq) ==>
              exists i :: IsLastExtreme(cs, getLongest, useUniq, i)
                       && Scan(cs, getLongest, useUniq) == Pick(cs[i].seqKey, Filled(cs[i].length))
  {
    if cs != [] {
      var n := |cs| - 1;
      var pre := cs[..n];
      var c := cs[n];
      assert forall j :: 0 <= j < n ==> cs[j] == pre[j];
      ScanChoosesLastExtreme(pre, getLongest, useUniq);
      var p := Scan(pre, getLongest, useUniq);
      if !Qualifies(c, useUniq) {
        if !NoneQualifies(pre, useUniq) {
          var i :| IsLastExtreme(pre, getLongest, useUniq, i)
                 && p == Pick(pre[i].seqKey, Filled(pre[i].length));
          assert IsLastExtreme(cs, getLongest, useUniq, i);
        } else {
          assert NoneQualifies(cs, useUniq);
        }
      } else if NoneQualifies(pre, useUniq) {
        assert p == NoPick;
        assert IsLastExtreme(cs, getLongest, useUniq, n);
      } else {
        var i :| IsLastExtreme(pre, getLongest, useUniq, i)
               && p == Pick(pre[i].seqKey, Filled(pre[i].length));
        ReplacesWhenAtLeastAsGood(p.length, c.length);
        if Better(getLongest, cs[i].length, c.length) {
          assert Scan(cs, getLongest, useUniq) == p;
          assert IsLastExtreme(cs, getLongest, useUniq, i);
        } else {
          assert Scan(cs, getLongest, useUniq) == Pick(c.seqKey, Filled(c.length));
          assert IsLastExtreme(cs, getLongest, useUniq, n);
        }
      }
    }
  }

  /** At most one index is the last extreme one, so the choice is unique. */
  lemma LastExtremeIsUnique(cs: seq<Candidate>, getLongest: bool, useUniq: bool, i: int, k: int)
    requires IsLastExtreme(cs, getLongest, useUniq, i)
    requires IsLastExtreme(cs, getLongest, useUniq, k)
    ensures i == k
  {
  }

  /** determineSeq: one pass over `seqList` that keeps two running choices,
      one over the unique sequences and one over all of them, and returns
      the one `useUniq` asks for. A tie replaces the current choice. */
  method DetermineSeq(seqList: seq<Candidate>, getLongest: bool, useUniq: bool)
    returns (seqKey: int, length: Slot)
    ensures Pick(seqKey, length) == Scan(seqList, getLongest, useUniq)
    ensures seqKey == 0 <==> NoneQualifies(seqList, useUniq)
    ensures seqKey == 0 ==> length == Blank
    ensures seqKey != 0 ==>
              exists i :: IsLastExtreme(seqList, getLongest, useUniq, i)
                       && seqKey == seqList[i].seqKey && length == Filled(seqList[i].length)
  {
    var currUniqLen: Slot := Blank;
    var currUniqSeqKey: int := 0;
    var currAllLen: Slot := Blank;
    var currAllSeqKey: int := 0;
    var k := 0;
    while k < |seqList|
      invariant 0 <= k <= |seqList|
      invariant Pick(currUniqSeqKey, currUniqLen) == Scan(seqList[..k], getLongest, true)
      invariant Pick(currAllSeqKey, currAllLen) == Scan(seqList[..k], getLongest, false)
    {
      var c := seqList[k];
      assert seqList[..k + 1][..k] == seqList[..k];
      if getLongest {
        if c.uniq {
          var l := DetermineLongest(currUniqLen, Filled(c.length));
          if l == Second || l == Tie {
            currUniqLen := Filled(c.length);
            currUniqSeqKey := c.seqKey;
          }
        }
        var l := DetermineLongest(currAllLen, Filled(c.length));
        if l == Second || l == Tie {
          currAllLen := Filled(c.length);
          currAllSeqKey := c.seqKey;
        }
      } else {
        if c.uniq {
          var l := DetermineShortest(currUniqLen, Filled(c.length));
          if l == Second || l == Tie {
            currUniqLen := Filled(c.length);
            currUniqSeqKey := c.seqKey;
          }
        }
        var l := DetermineShortest(currAllLen, Filled(c.length));
        if l == Second || l == Tie {
          currAllLen := Filled(c.length);
          currAllSeqKey := c.seqKey;
        }
      }
      k := k + 1;
    }
    assert seqList[..k] == seqList;
    if useUniq {
      seqKey, length := currUniqSeqKey, currUniqLen;
    } else {
      seqKey, length := currAllSeqKey, currAllLen;
    }
    ScanChoosesLastExtreme(seqList, getLongest, useUniq);
  }
}
