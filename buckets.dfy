/**
 * The transcript and polypeptide buckets of the createBCP row loop
 * (seqmarker.py): how a row is classified, the per-marker running
 * "longest so far" trackers, and the choice of the first non-empty bucket
 * (determineNonVegaEnsProtRep, determineNonVegaEnsTransRep).
 */
module Buckets {
  import opened Wrappers
  import opened Lengths

  // _SequenceProvider_key values
  const ENSEMBL_GM_PROVIDER := 615429
  const NCBI_GM_PROVIDER := 706915
  const REFSEQ_PROVIDER := 316372
  const GENBANK_EST_PROVIDER := 316376
  const SWISSPROT_PROVIDER := 316384
  const TREMBL_PROVIDER := 316385
  /** GenBank providers by division whose DNA sequences are genomic candidates. */
  const GENBANK_DNA_PROVIDERS: seq<int> :=
    [316380, 316376, 316379, 316375, 316377, 316374, 316373, 316378, 492451, 29320966]
  /** GenBank providers by division, EST excepted, whose RNA sequences are
      transcript candidates. */
  const GENBANK_NON_EST_PROVIDERS: seq<int> :=
    [316380, 316379, 316375, 316377, 316374, 316373, 316378, 492451]
  // _SequenceType_key values
  const DNA_TYPE := 316347
  const RNA_TYPE := 316346

  /** A row of the representative query, ordered by marker then provider:
      sequence, marker, marker type, accession, provider, type, length. */
  datatype AnnotRow = AnnotRow(seqKey: Key, markerKey: Key, markerTypeKey: int, accID: string,
                               providerKey: int, seqTypeKey: int, length: Length)

  /** `string.find(s, pat) > -1`: `pat` occurs anywhere in `s`. */
  predicate Contains(s: string, pat: string)
    decreases |s|
  {
    |pat| <= |s| && (s[..|pat|] == pat || Contains(s[1..], pat))
  }

  /** Contains is "occurs at some offset", not "starts with". */
  lemma {:induction false} ContainsAtOffset(s: string, pat: string, i: nat)
    requires i + |pat| <= |s| && s[i..i + |pat|] == pat
    ensures Contains(s, pat)
    decreases i
  {
    if i > 0 {
      assert s[1..][i - 1..i - 1 + |pat|] == s[i..i + |pat|];
      ContainsAtOffset(s[1..], pat, i - 1);
    } else {
      assert s[..|pat|] == s[0..|pat|];
    }
  }

  /** Conversely, Contains gives an offset where `pat` occurs, so it agrees
      with `find` returning an index. */
  lemma {:induction false} ContainsHasOffset(s: string, pat: string) returns (i: nat)
    requires Contains(s, pat)
    ensures i + |pat| <= |s| && s[i..i + |pat|] == pat
    decreases |s|
  {
    if s[..|pat|] == pat {
      i := 0;
    } else {
      var j := ContainsHasOffset(s[1..], pat);
      assert s[j + 1..j + 1 + |pat|] == s[1..][j..j + |pat|];
      i := j + 1;
    }
  }

  /** The row's seqlength: a NULL length counts as 0. */
  function SeqLength(r: AnnotRow): nat
  {
    LengthOrZero(r.length)
  }

  /** The transcript bucket a row belongs to, if any: 0 RefSeq NM_/NR_,
      1 GenBank RNA but not EST, 2 RefSeq XM_/XR_, 3 GenBank EST RNA. */
  function TranscriptBucket(r: AnnotRow): (b: Option<nat>)
    ensures b.Some? ==> b.value < 4
  {
    if r.providerKey == REFSEQ_PROVIDER && (Contains(r.accID, "NM_") || Contains(r.accID, "NR_")) then Some(0)
    else if r.providerKey in GENBANK_NON_EST_PROVIDERS && r.seqTypeKey == RNA_TYPE then Some(1)
    else if r.providerKey == REFSEQ_PROVIDER && (Contains(r.accID, "XM_") || Contains(r.accID, "XR_")) then Some(2)
    else if r.providerKey == GENBANK_EST_PROVIDER && r.seqTypeKey == RNA_TYPE then Some(3)
    else None
  }

  /** The polypeptide bucket whose branch a row matches first, ignoring the
      lengths: 0 SwissProt, 1 RefSeq NP_, 2 TrEMBL, 3 RefSeq XP_. */
  function ProteinBucket(r: AnnotRow): (b: Option<nat>)
    ensures b.Some? ==> b.value < 4
  {
    if r.providerKey == SWISSPROT_PROVIDER then Some(0)
    else if r.providerKey == REFSEQ_PROVIDER && Contains(r.accID, "NP_") then Some(1)
    else if r.providerKey == TREMBL_PROVIDER then Some(2)
    else if r.providerKey == REFSEQ_PROVIDER && Contains(r.accID, "XP_") then Some(3)
    else None
  }

  /** A RefSeq accession matching both polypeptide RefSeq branches: only
      such a row can fall through from bucket 1 to bucket 3. */
  predicate AmbiguousProtein(r: AnnotRow)
  {
    r.providerKey == REFSEQ_PROVIDER && Contains(r.accID, "NP_") && Contains(r.accID, "XP_")
  }

  /** Which transcript bucket a row overwrites given the trackers: the
      length test sits inside each branch. */
  function TranscriptUpdate(tlengths: seq<int>, r: AnnotRow): (b: Option<nat>)
    requires |tlengths| == 4
    ensures b.Some? ==> b.value < 4
  {
    var t := TranscriptBucket(r);
    if t.Some? && SeqLength(r) > tlengths[t.value] then t else None
  }

  /** Which polypeptide bucket a row overwrites given the trackers: here the
      length test is part of each elif condition, so a row that is not
      longer falls through to the next branch. */
  function ProteinUpdate(plengths: seq<int>, r: AnnotRow): (b: Option<nat>)
    requires |plengths| == 4
    ensures b.Some? ==> b.value < 4
  {
    var len := SeqLength(r);
    if r.providerKey == SWISSPROT_PROVIDER && len > plengths[0] then Some(0)
    else if r.providerKey == REFSEQ_PROVIDER && Contains(r.accID, "NP_") && len > plengths[1] then Some(1)
    else if r.providerKey == TREMBL_PROVIDER && len > plengths[2] then Some(2)
    else if r.providerKey == REFSEQ_PROVIDER && Contains(r.accID, "XP_") && len > plengths[3] then Some(3)
    else None
  }

  /** The bucket a row belongs to, for transcripts or for polypeptides. */
  function BucketOf(r: AnnotRow, transcripts: bool): (b: Option<nat>)
    ensures b.Some? ==> b.value < 4
  {
    if transcripts then TranscriptBucket(r) else ProteinBucket(r)
  }

  function Update(lens: seq<int>, r: AnnotRow, transcripts: bool): (b: Option<nat>)
    requires |lens| == 4
    ensures b.Some? ==> b.value < 4
  {
    if transcripts then TranscriptUpdate(lens, r) else ProteinUpdate(lens, r)
  }

  /** Except for an ambiguous RefSeq polypeptide, a row overwrites a bucket
      exactly when it belongs to that bucket and is strictly longer than the
      bucket's tracker. */
  lemma UpdateIsLengthTest(lens: seq<int>, r: AnnotRow, transcripts: bool)
    requires |lens| == 4
    requires !transcripts ==> !AmbiguousProtein(r)
    ensures var b := BucketOf(r, transcripts);
      Update(lens, r, transcripts) == if b.Some? && SeqLength(r) > lens[b.value] then b else None
  {
  }

  /** An ambiguous RefSeq polypeptide that is not longer than bucket 1's
      tracker is offered to bucket 3 instead. */
  lemma AmbiguousProteinFallsThrough(lens: seq<int>, r: AnnotRow)
    requires |lens| == 4
    requires AmbiguousProtein(r)
    requires lens[1] >= SeqLength(r) > lens[3]
    ensures ProteinUpdate(lens, r) == Some(3)
    ensures ProteinBucket(r) == Some(1)
  {
  }

  /** The four dictionaries of one category and their length trackers. */
  datatype Tracker = Tracker(found: seq<map<Key, Key>>, lengths: seq<int>)

  predicate WellFormed(t: Tracker)
  {
    |t.found| == 4 && |t.lengths| == 4
  }

  /** `[-1, -1, -1, -1]`: the trackers at the first row of each marker. */
  const FreshLengths: seq<int> := [-1, -1, -1, -1]

  const EmptyBuckets: seq<map<Key, Key>> := [map[], map[], map[], map[]]

  /** One row of the createBCP loop for one category: reset the trackers on
      a new marker, then store the row's key in the bucket it overwrites. */
  function TrackRow(t: Tracker, r: AnnotRow, newMarker: bool, transcripts: bool): (t': Tracker)
    requires WellFormed(t)
    ensures WellFormed(t')
  {
    var lens := if newMarker then FreshLengths else t.lengths;
    var u := Update(lens, r, transcripts);
    if u.Some? then
      var bucket: map<Key, Key> := t.found[u.value][r.markerKey := r.seqKey];
      Tracker(t.found[u.value := bucket], lens[u.value := SeqLength(r)])
    else Tracker(t.found, lens)
  }

  /** A row starts a new marker when the previous row's marker differs. */
  predicate NewMarkerAt(rows: seq<AnnotRow>, i: int)
    requires 0 <= i < |rows|
  {
    i == 0 || rows[i - 1].markerKey != rows[i].markerKey
  }

  /** The trackers after the createBCP loop has read `rows`. */
  function Track(rows: seq<AnnotRow>, transcripts: bool): (t: Tracker)
    ensures WellFormed(t)
    decreases |rows|
  {
    if rows == [] then Tracker(EmptyBuckets, FreshLengths)
    else TrackRow(Track(rows[..|rows| - 1], transcripts), rows[|rows| - 1], NewMarkerAt(rows, |rows| - 1), transcripts)
  }

  predicate SortedByMarker(rows: seq<AnnotRow>)
  {
    forall i, j :: 0 <= i < j < |rows| ==> rows[i].markerKey <= rows[j].markerKey
  }

  /** The rows of marker `m` that belong to bucket `b`, in order. */
  function RowsIn(rows: seq<AnnotRow>, m: Key, b: nat, transcripts: bool): seq<AnnotRow>
    decreases |rows|
  {
    if rows == [] then []
    else
      var r := rows[|rows| - 1];
      RowsIn(rows[..|rows| - 1], m, b, transcripts) +
        (if r.markerKey == m && BucketOf(r, transcripts) == Some(b) then [r] else [])
  }

  /** The greatest seqlength among `rs`, -1 when there is none. */
  function MaxLength(rs: seq<AnnotRow>): (n: int)
    ensures n >= -1
    ensures rs == [] <==> n == -1
    decreases |rs|
  {
    if rs == [] then -1
    else
      var m := MaxLength(rs[..|rs| - 1]);
      if SeqLength(rs[|rs| - 1]) > m then SeqLength(rs[|rs| - 1]) else m
  }

  /** MaxLength bounds every row and is attained by one. */
  lemma {:induction false} MaxLengthIsMaximum(rs: seq<AnnotRow>)
    ensures forall j :: 0 <= j < |rs| ==> SeqLength(rs[j]) <= MaxLength(rs)
    ensures rs != [] ==> exists j :: 0 <= j < |rs| && SeqLength(rs[j]) == MaxLength(rs)
    decreases |rs|
  {
    if rs != [] {
      var pre := rs[..|rs| - 1];
      MaxLengthIsMaximum(pre);
      assert forall j :: 0 <= j < |pre| ==> pre[j] == rs[j];
      if SeqLength(rs[|rs| - 1]) <= MaxLength(pre) && pre != [] {
        var j :| 0 <= j < |pre| && SeqLength(pre[j]) == MaxLength(pre);
        assert SeqLength(rs[j]) == MaxLength(rs);
      }
    }
  }

  /** The key a strict-greater running maximum keeps: the first row of the
      greatest seqlength. */
  function FirstLongest(rs: seq<AnnotRow>): Option<Key>
    decreases |rs|
  {
    if rs == [] then None
    else if SeqLength(rs[|rs| - 1]) > MaxLength(rs[..|rs| - 1]) then Some(rs[|rs| - 1].seqKey)
    else FirstLongest(rs[..|rs| - 1])
  }

  /** FirstLongest is empty only for no rows; otherwise it is the key of a
      row of maximal length that no earlier row matches. */
  lemma {:induction false} FirstLongestIsFirstOfMaximal(rs: seq<AnnotRow>)
    ensures FirstLongest(rs) == None <==> rs == []
    ensures rs != [] ==> exists i :: 0 <= i < |rs| && FirstLongest(rs) == Some(rs[i].seqKey)
                          && SeqLength(rs[i]) == MaxLength(rs)
                          && forall j :: 0 <= j < i ==> SeqLength(rs[j]) < SeqLength(rs[i])
    decreases |rs|
  {
    if rs != [] {
      var pre := rs[..|rs| - 1];
      assert forall j :: 0 <= j < |pre| ==> pre[j] == rs[j];
      FirstLongestIsFirstOfMaximal(pre);
      MaxLengthIsMaximum(pre);
      MaxLengthIsMaximum(rs);
      var last := rs[|rs| - 1];
      if SeqLength(last) > MaxLength(pre) {
        assert FirstLongest(rs) == Some(rs[|rs| - 1].seqKey);
      } else {
        var i :| 0 <= i < |pre| && FirstLongest(pre) == Some(pre[i].seqKey)
                 && SeqLength(pre[i]) == MaxLength(pre)
                 && forall j :: 0 <= j < i ==> SeqLength(pre[j]) < SeqLength(pre[i]);
        assert FirstLongest(rs) == Some(rs[i].seqKey);
      }
    }
  }

  /** Rows sorted by marker, all before marker `m`'s first row, hold no row
      of `m`. */
  lemma {:induction false} NoRowsBeforeFirst(rows: seq<AnnotRow>, m: Key, b: nat, transcripts: bool)
    requires SortedByMarker(rows)
    requires forall i :: 0 <= i < |rows| ==> rows[i].markerKey <= m
    requires rows != [] ==> rows[|rows| - 1].markerKey != m
    ensures RowsIn(rows, m, b, transcripts) == []
    decreases |rows|
  {
    if rows != [] {
      var pre := rows[..|rows| - 1];
      assert SortedByMarker(pre);
      if |pre| > 0 {
        assert pre[|pre| - 1].markerKey <= rows[|rows| - 1].markerKey < m;
      }
      NoRowsBeforeFirst(pre, m, b, transcripts);
    }
  }

  function Get(d: map<Key, Key>, k: Key): Option<Key>
  {
    if k in d then Some(d[k]) else None
  }

  /** What one row does to bucket `b`'s entry for marker `m` and to its
      tracker. */
  lemma TrackRowEffect(t: Tracker, r: AnnotRow, newMarker: bool, transcripts: bool, m: Key, b: nat)
    requires WellFormed(t) && b < 4
    requires !transcripts ==> !AmbiguousProtein(r)
    ensures var lens := if newMarker then FreshLengths else t.lengths;
      var hit := BucketOf(r, transcripts) == Some(b) && SeqLength(r) > lens[b];
      && Get(TrackRow(t, r, newMarker, transcripts).found[b], m)
           == (if hit && r.markerKey == m then Some(r.seqKey) else Get(t.found[b], m))
      && TrackRow(t, r, newMarker, transcripts).lengths[b] == (if hit then SeqLength(r) else lens[b])
  {
    var lens := if newMarker then FreshLengths else t.lengths;
    UpdateIsLengthTest(lens, r, transcripts);
  }

  lemma FirstLongestSnoc(rs: seq<AnnotRow>, r: AnnotRow)
    ensures FirstLongest(rs + [r]) == if SeqLength(r) > MaxLength(rs) then Some(r.seqKey) else FirstLongest(rs)
    ensures MaxLength(rs + [r]) == if SeqLength(r) > MaxLength(rs) then SeqLength(r) else MaxLength(rs)
  {
    assert (rs + [r])[..|rs|] == rs;
  }

  lemma AppendStep(rs: seq<AnnotRow>, r: AnnotRow, inB: bool)
    ensures var hit := inB && SeqLength(r) > MaxLength(rs);
      var rs' := rs + (if inB then [r] else []);
      && FirstLongest(rs') == (if hit then Some(r.seqKey) else FirstLongest(rs))
      && MaxLength(rs') == (if hit then SeqLength(r) else MaxLength(rs))
  {
    if inB {
      FirstLongestSnoc(rs, r);
    } else {
      assert rs + [] == rs;
    }
  }

  /** Predicate form of the hypothesis on polypeptide rows. */
  predicate Unambiguous(rows: seq<AnnotRow>, transcripts: bool)
  {
    !transcripts ==> forall i :: 0 <= i < |rows| ==> !AmbiguousProtein(rows[i])
  }

  /** The length facts the marker being read relies on: its tracker for
      bucket `b` before the row, and FirstLongest/MaxLength of its rows so
      far. */
  lemma TrackerBeforeRow(rows: seq<AnnotRow>, m: Key, b: nat, transcripts: bool)
    requires b < 4 && rows != [] && rows[|rows| - 1].markerKey == m
    requires SortedByMarker(rows)
    requires Unambiguous(rows, transcripts)
    requires var pre := rows[..|rows| - 1];
      pre != [] && pre[|pre| - 1].markerKey == m ==>
        Track(pre, transcripts).lengths[b] == MaxLength(RowsIn(pre, m, b, transcripts))
    ensures var pre := rows[..|rows| - 1];
      var lens := if NewMarkerAt(rows, |rows| - 1) then FreshLengths else Track(pre, transcripts).lengths;
      lens[b] == MaxLength(RowsIn(pre, m, b, transcripts))
  {
    var pre := rows[..|rows| - 1];
    if NewMarkerAt(rows, |rows| - 1) {
      assert forall i :: 0 <= i < |pre| ==> pre[i] == rows[i];
      assert SortedByMarker(pre);
      NoRowsBeforeFirst(pre, m, b, transcripts);
    }
  }

  /** For the marker being read, the tracker of bucket `b` is the greatest
      seqlength of its rows in `b` so far, -1 before the first. */
  lemma {:induction false} TrackLengthIsMax(rows: seq<AnnotRow>, b: nat, transcripts: bool)
    requires b < 4 && rows != []
    requires SortedByMarker(rows)
    requires Unambiguous(rows, transcripts)
    ensures Track(rows, transcripts).lengths[b] == MaxLength(RowsIn(rows, rows[|rows| - 1].markerKey, b, transcripts))
    decreases |rows|
  {
    var n := |rows| - 1;
    var pre, r := rows[..n], rows[n];
    var m := r.markerKey;
    assert forall i :: 0 <= i < |pre| ==> pre[i] == rows[i];
    assert SortedByMarker(pre) && Unambiguous(pre, transcripts);
    if pre != [] && pre[|pre| - 1].markerKey == m {
      TrackLengthIsMax(pre, b, transcripts);
    }
    TrackerBeforeRow(rows, m, b, transcripts);
    var t := Track(pre, transcripts);
    TrackRowEffect(t, r, NewMarkerAt(rows, n), transcripts, m, b);
    var inB := BucketOf(r, transcripts) == Some(b);
    assert RowsIn(rows, m, b, transcripts) == RowsIn(pre, m, b, transcripts) + (if inB then [r] else []);
    AppendStep(RowsIn(pre, m, b, transcripts), r, inB);
  }

  /** A row of marker `m` extends `m`'s rows in its bucket, and the bucket
      entry follows FirstLongest of the extended rows. */
  lemma FoundStepSameMarker(rows: seq<AnnotRow>, b: nat, transcripts: bool)
    requires b < 4 && rows != []
    requires SortedByMarker(rows)
    requires Unambiguous(rows, transcripts)
    requires var pre, m := rows[..|rows| - 1], rows[|rows| - 1].markerKey;
      Get(Track(pre, transcripts).found[b], m) == FirstLongest(RowsIn(pre, m, b, transcripts))
    ensures var m := rows[|rows| - 1].markerKey;
      Get(Track(rows, transcripts).found[b], m) == FirstLongest(RowsIn(rows, m, b, transcripts))
  {
    var n := |rows| - 1;
    var pre, r := rows[..n], rows[n];
    var m := r.markerKey;
    assert forall i :: 0 <= i < |pre| ==> pre[i] == rows[i];
    assert SortedByMarker(pre) && Unambiguous(pre, transcripts);
    if pre != [] && pre[|pre| - 1].markerKey == m {
      TrackLengthIsMax(pre, b, transcripts);
    }
    TrackerBeforeRow(rows, m, b, transcripts);
    TrackRowEffect(Track(pre, transcripts), r, NewMarkerAt(rows, n), transcripts, m, b);
    var inB := BucketOf(r, transcripts) == Some(b);
    assert RowsIn(rows, m, b, transcripts) == RowsIn(pre, m, b, transcripts) + (if inB then [r] else []);
    AppendStep(RowsIn(pre, m, b, transcripts), r, inB);
  }

  /** On rows sorted by marker (and with no ambiguous RefSeq polypeptide),
      each bucket holds for each marker the first of that marker's rows of
      maximal seqlength in the bucket, and nothing when it has none. */
  lemma {:induction false} TrackKeepsFirstLongest(rows: seq<AnnotRow>, m: Key, b: nat, transcripts: bool)
    requires b < 4
    requires SortedByMarker(rows)
    requires Unambiguous(rows, transcripts)
    ensures Get(Track(rows, transcripts).found[b], m) == FirstLongest(RowsIn(rows, m, b, transcripts))
    decreases |rows|
  {
    if rows != [] {
      var n := |rows| - 1;
      var pre, r := rows[..n], rows[n];
      assert forall i :: 0 <= i < |pre| ==> pre[i] == rows[i];
      assert SortedByMarker(pre) && Unambiguous(pre, transcripts);
      TrackKeepsFirstLongest(pre, m, b, transcripts);
      if r.markerKey == m {
        FoundStepSameMarker(rows, b, transcripts);
      } else {
        TrackRowEffect(Track(pre, transcripts), r, NewMarkerAt(rows, n), transcripts, m, b);
        assert RowsIn(rows, m, b, transcripts) == RowsIn(pre, m, b, transcripts);
      }
    }
  }

  /** The usual representative of a category: the marker's entry in the
      first bucket, in index order, that has one. */
  function FirstBucket(buckets: seq<map<Key, Key>>, m: Key): Option<Key>
  {
    FirstBucketFrom(buckets, m, 0)
  }

  function FirstBucketFrom(buckets: seq<map<Key, Key>>, m: Key, i: nat): Option<Key>
    decreases |buckets| - i
  {
    if i >= |buckets| then None
    else if m in buckets[i] then Some(buckets[i][m])
    else FirstBucketFrom(buckets, m, i + 1)
  }

  /** FirstBucket is empty exactly when no bucket has the marker; otherwise
      it is the marker's entry in the lowest-numbered bucket holding it. */
  lemma {:induction false} FirstBucketIsLowestIndex(buckets: seq<map<Key, Key>>, m: Key, i: nat)
    requires i <= |buckets|
    ensures FirstBucketFrom(buckets, m, i) == None <==> forall j :: i <= j < |buckets| ==> m !in buckets[j]
    ensures FirstBucketFrom(buckets, m, i).Some? ==>
              exists j :: i <= j < |buckets| && m in buckets[j] && FirstBucketFrom(buckets, m, i) == Some(buckets[j][m])
                          && forall k :: i <= k < j ==> m !in buckets[k]
    decreases |buckets| - i
  {
    if i < |buckets| && m !in buckets[i] {
      FirstBucketIsLowestIndex(buckets, m, i + 1);
    }
  }

  /** FirstBucket depends only on the marker's own entries. */
  lemma {:induction false} FirstBucketFrame(b1: seq<map<Key, Key>>, b2: seq<map<Key, Key>>, m: Key, i: nat)
    requires |b1| == |b2|
    requires forall j :: 0 <= j < |b1| ==> Get(b1[j], m) == Get(b2[j], m)
    ensures FirstBucketFrom(b1, m, i) == FirstBucketFrom(b2, m, i)
    decreases |b1| - i
  {
    if i < |b1| {
      assert Get(b1[i], m) == Get(b2[i], m);
      FirstBucketFrame(b1, b2, m, i + 1);
    }
  }
}
