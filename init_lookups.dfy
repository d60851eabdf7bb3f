/**
 * The grouping loops of `init` in seqmarker.py: each walks query rows that
 * the database returns sorted by a key and starts a new group whenever the
 * key differs from the previous row's.
 */
module InitLookups {
  import opened Lengths

  /** A row of the sequence/marker query (sorted by `_Sequence_key`). */
  datatype SeqMarkerPair = SeqMarkerPair(seqKey: Key, markerKey: Key)

  /** A row of the sequence-association queries: a group key (a genomic or
      protein key), a member key (a transcript or protein key) and the
      member's length. */
  datatype AssocRow = AssocRow(groupKey: Key, memberKey: Key, length: Length)

  /** The rows arrive sorted by the grouping key. */
  predicate SortedBySeq(rows: seq<SeqMarkerPair>)
  {
    forall i, j :: 0 <= i < j < |rows| ==> rows[i].seqKey <= rows[j].seqKey
  }

  predicate SortedByGroup(rows: seq<AssocRow>)
  {
    forall i, j :: 0 <= i < j < |rows| ==> rows[i].groupKey <= rows[j].groupKey
  }

  /** The markers listed for sequence `s`, in row order. */
  function MarkersOf(rows: seq<SeqMarkerPair>, s: Key): seq<Key>
    decreases |rows|
  {
    if rows == [] then []
    else
      var r := rows[|rows| - 1];
      MarkersOf(rows[..|rows| - 1], s) + (if r.seqKey == s then [r.markerKey] else [])
  }

  /** The lookup the loop at lines 292-300 builds: a new list on a change of
      sequence key, an append otherwise. */
  function MarkersBySeq(rows: seq<SeqMarkerPair>): (m: map<Key, seq<Key>>)
    ensures m.Keys == set i | 0 <= i < |rows| :: rows[i].seqKey
    decreases |rows|
  {
    if rows == [] then map[]
    else
      var pre, r := rows[..|rows| - 1], rows[|rows| - 1];
      var m := MarkersBySeq(pre);
      assert forall i :: 0 <= i < |pre| ==> pre[i] == rows[i];
      if |pre| > 0 && pre[|pre| - 1].seqKey == r.seqKey then
        assert r.seqKey in m;
        m[r.seqKey := m[r.seqKey] + [r.markerKey]]
      else m[r.seqKey := [r.markerKey]]
  }

  /** init, lines 292-300. */
  method BuildMarkersBySeqKey(results: seq<SeqMarkerPair>) returns (lookup: map<Key, seq<Key>>)
    ensures lookup == MarkersBySeq(results)
  {
    lookup := map[];
    var prevSeqKey: int := 0;  // '' in the source: equal to no key
    var i := 0;
    while i < |results|
      invariant 0 <= i <= |results|
      invariant lookup == MarkersBySeq(results[..i])
      invariant prevSeqKey == if i == 0 then 0 else results[i - 1].seqKey
    {
      var r := results[i];
      ghost var pre := results[..i + 1][..i];
      assert pre == results[..i];
      assert results[..i + 1][i] == r;
      if r.seqKey != prevSeqKey {
        assert !(|pre| > 0 && pre[|pre| - 1].seqKey == r.seqKey);
        lookup := lookup[r.seqKey := [r.markerKey]];
      } else {
        assert |pre| > 0 && pre[|pre| - 1].seqKey == r.seqKey;
        assert r.seqKey in lookup;
        lookup := lookup[r.seqKey := lookup[r.seqKey] + [r.markerKey]];
      }
      prevSeqKey := r.seqKey;
      i := i + 1;
    }
    assert results[..i] == results;
  }

  /** On rows sorted by sequence key, each sequence's list holds every
      marker row of that sequence, in order; so a sequence is unique exactly
      when one row lists it. */
  lemma {:induction false} SortedGroupingListsEveryMarker(rows: seq<SeqMarkerPair>, s: Key)
    requires SortedBySeq(rows)
    ensures s in MarkersBySeq(rows) <==> |MarkersOf(rows, s)| > 0
    ensures s in MarkersBySeq(rows) ==> MarkersBySeq(rows)[s] == MarkersOf(rows, s)
    decreases |rows|
  {
    if rows != [] {
      var pre, r := rows[..|rows| - 1], rows[|rows| - 1];
      assert SortedBySeq(pre);
      SortedGroupingListsEveryMarker(pre, s);
      if s == r.seqKey && !(|pre| > 0 && pre[|pre| - 1].seqKey == r.seqKey) {
        NoEarlierRows(pre, s);
      }
    }
  }

  /** Sorted rows whose last key is below `s` hold no row for `s`. */
  lemma {:induction false} NoEarlierRows(pre: seq<SeqMarkerPair>, s: Key)
    requires SortedBySeq(pre)
    requires forall i :: 0 <= i < |pre| ==> pre[i].seqKey <= s
    requires |pre| > 0 ==> pre[|pre| - 1].seqKey != s
    ensures MarkersOf(pre, s) == []
    decreases |pre|
  {
    if pre != [] {
      var p := pre[..|pre| - 1];
      assert SortedBySeq(p);
      if |p| > 0 {
        assert p[|p| - 1].seqKey <= pre[|pre| - 1].seqKey < s;
      }
      NoEarlierRows(p, s);
    }
  }

  /** The members of group `g` with their lengths; a later row for the same
      member overwrites the earlier one, as a dictionary assignment does. */
  function MembersOf(rows: seq<AssocRow>, g: Key): map<Key, Length>
    decreases |rows|
  {
    if rows == [] then map[]
    else
      var r := rows[|rows| - 1];
      var m := MembersOf(rows[..|rows| - 1], g);
      if r.groupKey == g then m[r.memberKey := r.length] else m
  }

  /** The lookup the loops at lines 318-326, 340-348 and 361-369 build: a
      fresh dictionary on a change of group key, then the member's length. */
  function AssocLookup(rows: seq<AssocRow>): (m: map<Key, map<Key, Length>>)
    ensures m.Keys == set i | 0 <= i < |rows| :: rows[i].groupKey
    decreases |rows|
  {
    if rows == [] then map[]
    else
      var pre, r := rows[..|rows| - 1], rows[|rows| - 1];
      var m := AssocLookup(pre);
      assert forall i :: 0 <= i < |pre| ==> pre[i] == rows[i];
      var m' := if |pre| > 0 && pre[|pre| - 1].groupKey == r.groupKey then m else m[r.groupKey := map[]];
      assert r.groupKey in m' by {
        if |pre| > 0 && pre[|pre| - 1].groupKey == r.groupKey { assert r.groupKey == pre[|pre| - 1].groupKey; }
      }
      m'[r.groupKey := m'[r.groupKey][r.memberKey := r.length]]
  }

  /** init, lines 318-369: one loop shape used for the three association
      lookups. */
  method BuildAssocLookup(results: seq<AssocRow>) returns (lookup: map<Key, map<Key, Length>>)
    ensures lookup == AssocLookup(results)
  {
    lookup := map[];
    var prevKey: int := 0;  // '' in the source: equal to no key
    var i := 0;
    while i < |results|
      invariant 0 <= i <= |results|
      invariant lookup == AssocLookup(results[..i])
      invariant prevKey == if i == 0 then 0 else results[i - 1].groupKey
    {
      var r := results[i];
      assert results[..i + 1][..i] == results[..i];
      if r.groupKey != prevKey {
        lookup := lookup[r.groupKey := map[]];
      }
      var members: map<Key, Length> := lookup[r.groupKey];
      lookup := lookup[r.groupKey := members[r.memberKey := r.length]];
      prevKey := r.groupKey;
      i := i + 1;
    }
    assert results[..i] == results;
  }

  /** On rows sorted by group key, each group's dictionary holds every member
      row of that group, with the length of the member's last row. */
  lemma {:induction false} SortedAssocHoldsEveryMember(rows: seq<AssocRow>, g: Key)
    requires SortedByGroup(rows)
    ensures g in AssocLookup(rows) ==> AssocLookup(rows)[g] == MembersOf(rows, g)
    decreases |rows|
  {
    if rows != [] {
      var pre, r := rows[..|rows| - 1], rows[|rows| - 1];
      assert SortedByGroup(pre);
      SortedAssocHoldsEveryMember(pre, g);
      if g == r.groupKey && !(|pre| > 0 && pre[|pre| - 1].groupKey == r.groupKey) {
        NoEarlierMembers(pre, g);
      }
    }
  }

  lemma {:induction false} NoEarlierMembers(pre: seq<AssocRow>, g: Key)
    requires SortedByGroup(pre)
    requires forall i :: 0 <= i < |pre| ==> pre[i].groupKey <= g
    requires |pre| > 0 ==> pre[|pre| - 1].groupKey != g
    ensures MembersOf(pre, g) == map[]
    decreases |pre|
  {
    if pre != [] {
      var p := pre[..|pre| - 1];
      assert SortedByGroup(p);
      if |p| > 0 {
        assert p[|p| - 1].groupKey <= pre[|pre| - 1].groupKey < g;
      }
      NoEarlierMembers(p, g);
    }
  }

  /** A member is listed for a group exactly when some row links the two. */
  lemma {:induction false} MembersOfListsLinkedRows(rows: seq<AssocRow>, g: Key, t: Key)
    ensures t in MembersOf(rows, g) <==>
              exists i :: 0 <= i < |rows| && rows[i].groupKey == g && rows[i].memberKey == t
    decreases |rows|
  {
    if rows != [] {
      var pre := rows[..|rows| - 1];
      MembersOfListsLinkedRows(pre, g, t);
      assert forall i :: 0 <= i < |pre| ==> pre[i] == rows[i];
    }
  }
}
