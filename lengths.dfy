/**
 * Sequence keys, sequence lengths and the two three-way length comparators
 * of seqmarker.py (determineLongest, determineShortest).
 */
module Lengths {

  /** A database key (`_Sequence_key`, `_Marker_key`, ...). Keys are
      positive, so the source's sentinel 0 ("no sequence") is never a key. */
  type Key = k: int | k > 0 witness 1

  /** `SEQ_Sequence.length` as read from the database: NULL or a number. */
  datatype Length = Null | Known(n: nat)

  /** Python 2 orders None below every integer; the rank keeps that order. */
  function Rank(l: Length): (r: int)
    ensures r >= -1
    ensures r == -1 <==> l.Null?
    ensures l.Known? ==> r == l.n
  {
    match l
    case Null => -1
    case Known(n) => n
  }

  /** The createBCP row loop reads a NULL length as 0. */
  function LengthOrZero(l: Length): (r: nat)
    ensures l.Known? ==> r == l.n
    ensures l.Null? ==> r == 0
  {
    match l
    case Null => 0
    case Known(n) => n
  }

  /** A comparator argument: the '' sentinel of determineSeq, or a length. */
  datatype Slot = Blank | Filled(len: Length)

  /** What the comparators return: 0 (the first argument), 1 (the second),
      -1 (a tie). */
  datatype Verdict = First | Second | Tie

  /** True when `a` is strictly longer than `b`, a blank being shorter than
      any length. */
  predicate LongerSlot(a: Slot, b: Slot)
  {
    a.Filled? && (b.Blank? || Rank(a.len) > Rank(b.len))
  }

  /** determineLongest: which argument is the longer one. A blank first
      argument always loses, so the first real length replaces it. */
  function DetermineLongest(len1: Slot, len2: Slot): (v: Verdict)
    ensures len1.Blank? ==> v == Second
    ensures len1.Filled? && len2.Filled? ==> (v == Tie <==> len1 == len2)
    ensures v == First <==> (len1.Filled? && LongerSlot(len1, len2))
    ensures v == Second ==> len1.Blank? || LongerSlot(len2, len1)
  {
    if len1.Blank? then Second
    else if len2.Blank? then First
    else if len1 == len2 then Tie
    else if Rank(len1.len) > Rank(len2.len) then First
    else Second
  }

  /** determineShortest: which argument is the shorter one. A blank first
      argument always loses, so the first real length replaces it. */
  function DetermineShortest(len1: Slot, len2: Slot): (v: Verdict)
    ensures len1.Blank? ==> v == Second
    ensures len1.Filled? && len2.Filled? ==> (v == Tie <==> len1 == len2)
    ensures len1.Filled? && len2.Filled? ==>
              (v == First <==> Rank(len1.len) < Rank(len2.len))
    ensures len1.Filled? && len2.Blank? ==> v == First
  {
    if len1.Blank? then Second
    else if len2.Blank? then First
    else if len1 == len2 then Tie
    else if Rank(len1.len) < Rank(len2.len) then First
    else Second
  }

  /** Equal lengths are exactly equal ranks. */
  lemma RankInjective(a: Length, b: Length)
    ensures Rank(a) == Rank(b) <==> a == b
  {
  }

  /** On two real lengths, asking for the shortest of (a, b) names the same
      argument position as asking for the longest of (b, a). */
  lemma ShortestIsLongestSwapped(a: Length, b: Length)
    ensures DetermineShortest(Filled(a), Filled(b)) == DetermineLongest(Filled(b), Filled(a))
  {
  }

  /** The callers update their choice on a verdict of 1 or -1: that happens
      exactly when the new length is at least as good as the current one. */
  lemma ReplacesWhenAtLeastAsGood(cur: Slot, l: Length)
    ensures DetermineLongest(cur, Filled(l)) != First <==> (cur.Blank? || Rank(l) >= Rank(cur.len))
    ensures DetermineShortest(cur, Filled(l)) != First <==> (cur.Blank? || Rank(l) <= Rank(cur.len))
  {
  }
}
