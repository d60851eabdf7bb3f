/**
 * seqbiotype.py: the older per-marker biotype conflict rule. Every cache
 * row of a marker with a gene model gets "conflict" exactly when more than
 * one distinct type key appears among the marker's MGD marker types and
 * gene-model marker types, and keeps its own raw biotype.
 */
module SeqBiotype {
  import opened Wrappers
  import opened Lengths
  import opened Grouping

  const YES_CONFLICT_KEY := 5420767
  const NO_CONFLICT_KEY := 5420769

  /** MRK_Types 'gene' and 'pseudogene'. */
  const GENE_TYPE_KEY := 1
  const PSEUDO_TYPE_KEY := 7

  /** A row of the init query: a cache sequence/marker pair with its MGD
      marker type and its gene model's marker type and raw biotype. */
  datatype CacheGeneModelRow = CacheGeneModelRow(seqKey: Key, markerKey: Key, markerTypeKey: int,
                                                 gmMarkerTypeKey: int, rawBiotype: Option<string>)

  /** One execution of the update statement. */
  datatype CacheUpdate = CacheUpdate(conflictKey: int, rawBiotype: Option<string>, markerKey: Key, seqKey: Key)

  /** The init rows keyed by marker, as the grouping loop reads them. */
  function KeyedByMarker(results: seq<CacheGeneModelRow>): seq<(Key, CacheGeneModelRow)>
  {
    seq(|results|, i requires 0 <= i < |results| => (results[i].markerKey, results[i]))
  }

  /** The rows of marker `m`, in query order. */
  function MarkerRows(results: seq<CacheGeneModelRow>, m: Key): seq<CacheGeneModelRow>
  {
    GroupOf(KeyedByMarker(results), m)
  }

  /** A marker's list holds exactly its own rows. */
  lemma MarkerRowsAreTheMarkers(results: seq<CacheGeneModelRow>, m: Key)
    ensures forall r :: r in MarkerRows(results, m) <==> r in results && r.markerKey == m
  {
    var pairs := KeyedByMarker(results);
    GroupOfIsFilter(pairs, m);
    forall r | r in results && r.markerKey == m
      ensures (m, r) in pairs
    {
      var i :| 0 <= i < |results| && results[i] == r;
      assert pairs[i] == (m, r);
    }
  }

  /** init, lines 107-112: one list per marker present, rows in query order. */
  method BuildMarkerList(results: seq<CacheGeneModelRow>) returns (markerList: map<Key, seq<CacheGeneModelRow>>)
    ensures forall m :: m in markerList <==> exists r :: r in results && r.markerKey == m
    ensures forall m :: m in markerList ==> markerList[m] == MarkerRows(results, m) != []
  {
    markerList := GroupByKey(KeyedByMarker(results));
    forall m
      ensures m in markerList <==> exists r :: r in results && r.markerKey == m
    {
      MarkerRowsAreTheMarkers(results, m);
      if MarkerRows(results, m) != [] {
        assert MarkerRows(results, m)[0] in MarkerRows(results, m);
      }
    }
  }

  /** `if typeList.count(t) == 0: typeList.append(t)`. */
  function AddOnce(typeList: seq<int>, t: int): seq<int>
  {
    if t in typeList then typeList else typeList + [t]
  }

  /** The typeList of a marker's rows: per row its MGD type, then its gene
      model type, each appended the first time it is seen. The translation
      to `geneTypeKey` at lines 142-143 assigns a variable that is never
      read, so the MGD type enters untranslated. */
  function TypeListOf(rows: seq<CacheGeneModelRow>): seq<int>
    decreases |rows|
  {
    if rows == [] then []
    else
      var r := rows[|rows| - 1];
      AddOnce(AddOnce(TypeListOf(rows[..|rows| - 1]), r.markerTypeKey), r.gmMarkerTypeKey)
  }

  /** Every type key the marker's rows carry, in either column. */
  function Types(rows: seq<CacheGeneModelRow>): set<int>
  {
    (set i | 0 <= i < |rows| :: rows[i].markerTypeKey) + (set i | 0 <= i < |rows| :: rows[i].gmMarkerTypeKey)
  }

  predicate NoDuplicates(xs: seq<int>)
  {
    forall i, j :: 0 <= i < j < |xs| ==> xs[i] != xs[j]
  }

  lemma AddOnceKeepsDistinct(xs: seq<int>, t: int)
    requires NoDuplicates(xs)
    ensures NoDuplicates(AddOnce(xs, t))
    ensures (set x | x in AddOnce(xs, t)) == (set x | x in xs) + {t}
  {
  }

  /** typeList holds each type key of the marker's rows once, and nothing
      else. */
  lemma {:induction false} TypeListIsDistinctTypes(rows: seq<CacheGeneModelRow>)
    ensures NoDuplicates(TypeListOf(rows))
    ensures (set x | x in TypeListOf(rows)) == Types(rows)
    decreases |rows|
  {
    if rows != [] {
      var pre, r := rows[..|rows| - 1], rows[|rows| - 1];
      TypeListIsDistinctTypes(pre);
      var once := AddOnce(TypeListOf(pre), r.markerTypeKey);
      AddOnceKeepsDistinct(TypeListOf(pre), r.markerTypeKey);
      AddOnceKeepsDistinct(once, r.gmMarkerTypeKey);
      assert forall i :: 0 <= i < |pre| ==> pre[i] == rows[i];
      assert Types(rows) == Types(pre) + {r.markerTypeKey, r.gmMarkerTypeKey} by {
        forall t | t in Types(rows)
          ensures t in Types(pre) + {r.markerTypeKey, r.gmMarkerTypeKey}
        {
          var i :| 0 <= i < |rows| && (rows[i].markerTypeKey == t || rows[i].gmMarkerTypeKey == t);
          if i < |pre| {
            assert pre[i] == rows[i];
          }
        }
        forall t | t in Types(pre)
          ensures t in Types(rows)
        {
          var i :| 0 <= i < |pre| && (pre[i].markerTypeKey == t || pre[i].gmMarkerTypeKey == t);
          assert rows[i] == pre[i];
        }
        assert rows[|rows| - 1] == r;
      }
    }
  }

  /** The conflict key of lines 153-156. */
  function ConflictKeyOf(rows: seq<CacheGeneModelRow>): int
  {
    if |TypeListOf(rows)| > 1 then YES_CONFLICT_KEY else NO_CONFLICT_KEY
  }

  /** A marker is in conflict exactly when its rows carry two different
      type keys, in either column. */
  lemma ConflictIffTwoTypes(rows: seq<CacheGeneModelRow>)
    ensures ConflictKeyOf(rows) == YES_CONFLICT_KEY <==> exists x, y :: x in Types(rows) && y in Types(rows) && x != y
    ensures ConflictKeyOf(rows) == YES_CONFLICT_KEY || ConflictKeyOf(rows) == NO_CONFLICT_KEY
  {
    var xs := TypeListOf(rows);
    TypeListIsDistinctTypes(rows);
    if |xs| > 1 {
      assert xs[0] in (set x | x in xs) && xs[1] in (set x | x in xs);
      assert xs[0] in Types(rows) && xs[1] in Types(rows) && xs[0] != xs[1];
    }
    if exists x, y :: x in Types(rows) && y in Types(rows) && x != y {
      var x, y :| x in Types(rows) && y in Types(rows) && x != y;
      assert x in (set x | x in xs) && y in (set x | x in xs);
      var i :| 0 <= i < |xs| && xs[i] == x;
      var j :| 0 <= j < |xs| && xs[j] == y;
      assert i != j;
    }
  }

  /** A marker whose rows all carry one key in both columns is not in
      conflict. */
  lemma OneTypeNoConflict(rows: seq<CacheGeneModelRow>, t: int)
    requires forall i :: 0 <= i < |rows| ==> rows[i].markerTypeKey == t && rows[i].gmMarkerTypeKey == t
    ensures ConflictKeyOf(rows) == NO_CONFLICT_KEY
  {
    ConflictIffTwoTypes(rows);
    assert Types(rows) <= {t};
  }

  /** The MGD type enters untranslated: a marker of some type other than
      gene or pseudogene whose gene model says gene is in conflict, though
      the header comment promises the comparison after translation to gene. */
  lemma UntranslatedTypeConflicts(s: Key, m: Key, mgdType: int, raw: Option<string>)
    requires mgdType != GENE_TYPE_KEY && mgdType != PSEUDO_TYPE_KEY
    ensures ConflictKeyOf([CacheGeneModelRow(s, m, mgdType, GENE_TYPE_KEY, raw)]) == YES_CONFLICT_KEY
  {
    var rows := [CacheGeneModelRow(s, m, mgdType, GENE_TYPE_KEY, raw)];
    assert rows[..0] == [];
  }

  /** The first loop of createSQL over one marker's rows. */
  method BuildTypeList(rows: seq<CacheGeneModelRow>) returns (typeList: seq<int>)
    ensures typeList == TypeListOf(rows)
  {
    typeList := [];
    for i := 0 to |rows|
      invariant typeList == TypeListOf(rows[..i])
    {
      var mgdtypeKey := rows[i].markerTypeKey;
      var gmtypeKey := rows[i].gmMarkerTypeKey;
      assert rows[..i + 1][..i] == rows[..i];
      if mgdtypeKey !in typeList {
        typeList := typeList + [mgdtypeKey];
      }
      if gmtypeKey !in typeList {
        typeList := typeList + [gmtypeKey];
      }
    }
    assert rows[..|rows|] == rows;
  }

  /** The updates for marker `m`: its conflict key for every row, with the
      row's own raw biotype and sequence. */
  function MarkerUpdates(m: Key, rows: seq<CacheGeneModelRow>): seq<CacheUpdate>
  {
    seq(|rows|, i requires 0 <= i < |rows| => CacheUpdate(ConflictKeyOf(rows), rows[i].rawBiotype, m, rows[i].seqKey))
  }

  /** The updates of the markers in `order`, one marker after another. */
  function UpdatesInOrder(order: seq<Key>, markerList: map<Key, seq<CacheGeneModelRow>>): seq<CacheUpdate>
    requires forall i :: 0 <= i < |order| ==> order[i] in markerList
    decreases |order|
  {
    if order == [] then []
    else UpdatesInOrder(order[..|order| - 1], markerList) + MarkerUpdates(order[|order| - 1], markerList[order[|order| - 1]])
  }

  /** The body of createSQL's loop for one marker: its typeList, its
      conflict key, then one update per row. */
  method MarkerSQL(m: Key, rows: seq<CacheGeneModelRow>) returns (updates: seq<CacheUpdate>)
    ensures updates == MarkerUpdates(m, rows)
  {
    var typeList := BuildTypeList(rows);
    var conflictKey := if |typeList| > 1 then YES_CONFLICT_KEY else NO_CONFLICT_KEY;
    updates := [];
    for i := 0 to |rows|
      invariant updates == MarkerUpdates(m, rows)[..i]
    {
      updates := updates + [CacheUpdate(conflictKey, rows[i].rawBiotype, m, rows[i].seqKey)];
    }
    assert MarkerUpdates(m, rows)[..|rows|] == MarkerUpdates(m, rows);
  }

  /** createSQL: every marker once, in the dictionary's order (not fixed
      here; `order` records the one taken), and for each the updates of its
      rows. */
  method CreateSQL(markerList: map<Key, seq<CacheGeneModelRow>>)
    returns (updates: seq<CacheUpdate>, order: seq<Key>)
    ensures forall i :: 0 <= i < |order| ==> order[i] in markerList
    ensures forall k :: k in markerList <==> k in order
    ensures forall i, j :: 0 <= i < j < |order| ==> order[i] != order[j]
    ensures updates == UpdatesInOrder(order, markerList)
  {
    updates, order := [], [];
    var remaining := markerList.Keys;
    while remaining != {}
      invariant remaining <= markerList.Keys
      invariant forall i :: 0 <= i < |order| ==> order[i] in markerList && order[i] !in remaining
      invariant forall k :: k in markerList ==> (k in order <==> k !in remaining)
      invariant forall i, j :: 0 <= i < j < |order| ==> order[i] != order[j]
      invariant updates == UpdatesInOrder(order, markerList)
      decreases remaining
    {
      var m :| m in remaining;
      var markerUpdates := MarkerSQL(m, markerList[m]);
      updates := updates + markerUpdates;
      ghost var prior := order;
      order := order + [m];
      assert order[..|order| - 1] == prior;
      remaining := remaining - {m};
    }
  }

  /** All updates of one marker carry the same conflict key, and each
      carries its own row's raw biotype and sequence. */
  lemma MarkerUpdatesMeaning(m: Key, rows: seq<CacheGeneModelRow>)
    ensures |MarkerUpdates(m, rows)| == |rows|
    ensures forall i, j :: 0 <= i < |rows| && 0 <= j < |rows| ==>
              MarkerUpdates(m, rows)[i].conflictKey == MarkerUpdates(m, rows)[j].conflictKey
    ensures forall i :: 0 <= i < |rows| ==>
              MarkerUpdates(m, rows)[i].rawBiotype == rows[i].rawBiotype
              && MarkerUpdates(m, rows)[i].seqKey == rows[i].seqKey
              && MarkerUpdates(m, rows)[i].markerKey == m
  {
  }

  /** The main routine: init, then createSQL. */
  method RunBiotypeUpdate(results: seq<CacheGeneModelRow>) returns (updates: seq<CacheUpdate>, order: seq<Key>)
    ensures forall k :: k in order <==> exists r :: r in results && r.markerKey == k
    ensures forall i, j :: 0 <= i < j < |order| ==> order[i] != order[j]
    ensures forall i :: 0 <= i < |order| ==> MarkerRows(results, order[i]) != []
    ensures updates == UpdatesInOrder(order, map k | k in order :: MarkerRows(results, k))
  {
    var markerList := BuildMarkerList(results);
    updates, order := CreateSQL(markerList);
    assert markerList == map k | k in order :: MarkerRows(results, k);
  }
}
