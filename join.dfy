/**
 * The inner join of the first, shadowed `executar_select`: every pair of a
 * left and a right record whose join columns are present and equal gives
 * one joined record, the right record's cells winning on a shared column.
 * The active SELECT ignores a JOIN clause, so nothing else calls this.
 */
module Join {
  import opened Wrappers
  import opened Values
  import Assoc

  /** `{**linha1, **linha2}`. */
  function Merge(left: Record, right: Record): Record
  {
    Assoc.PutAll(left, right)
  }

  /** `col_esquerda in linha1 and col_direita in linha2 and linha1[col_esquerda] == linha2[col_direita]`. */
  predicate Matches(left: Record, right: Record, leftColumn: string, rightColumn: string)
  {
    Assoc.Lookup(left, leftColumn).Some? && Assoc.Lookup(left, leftColumn) == Assoc.Lookup(right, rightColumn)
  }

  /** The records the inner loop appends for one left record. */
  function RowJoin(left: Record, rights: seq<Record>, leftColumn: string, rightColumn: string): seq<Record>
    decreases |rights|
  {
    if rights == [] then []
    else
      var right := rights[|rights| - 1];
      RowJoin(left, rights[..|rights| - 1], leftColumn, rightColumn)
        + (if Matches(left, right, leftColumn, rightColumn) then [Merge(left, right)] else [])
  }

  /** `dados_juntados` after the outer loop has seen every left record. */
  function JoinOf(lefts: seq<Record>, rights: seq<Record>, leftColumn: string, rightColumn: string): seq<Record>
    decreases |lefts|
  {
    if lefts == [] then []
    else
      JoinOf(lefts[..|lefts| - 1], rights, leftColumn, rightColumn)
        + RowJoin(lefts[|lefts| - 1], rights, leftColumn, rightColumn)
  }

  /** executor.py:53-57: the nested loops that build the joined records. */
  method InnerJoin(lefts: seq<Record>, rights: seq<Record>, leftColumn: string, rightColumn: string)
    returns (joined: seq<Record>)
    ensures joined == JoinOf(lefts, rights, leftColumn, rightColumn)
  {
    joined := [];
    for i := 0 to |lefts|
      invariant joined == JoinOf(lefts[..i], rights, leftColumn, rightColumn)
    {
      var left := lefts[i];
      ghost var before := joined;
      for j := 0 to |rights|
        invariant joined == before + RowJoin(left, rights[..j], leftColumn, rightColumn)
      {
        assert rights[..j + 1][..j] == rights[..j];
        if Matches(left, rights[j], leftColumn, rightColumn) {
          joined := joined + [Merge(left, rights[j])];
        }
      }
      assert rights[..|rights|] == rights;
      assert lefts[..i + 1][..i] == lefts[..i];
    }
    assert lefts[..|lefts|] == lefts;
  }

  /** One left record joins with at most every right record. */
  lemma {:induction false} RowJoinSize(left: Record, rights: seq<Record>, leftColumn: string, rightColumn: string)
    ensures |RowJoin(left, rights, leftColumn, rightColumn)| <= |rights|
    decreases |rights|
  {
    if rights != [] {
      RowJoinSize(left, rights[..|rights| - 1], leftColumn, rightColumn);
    }
  }

  /** The join has at most one record per pair of records. */
  lemma {:induction false} JoinSize(lefts: seq<Record>, rights: seq<Record>, leftColumn: string, rightColumn: string)
    ensures |JoinOf(lefts, rights, leftColumn, rightColumn)| <= |lefts| * |rights|
    decreases |lefts|
  {
    if lefts != [] {
      JoinSize(lefts[..|lefts| - 1], rights, leftColumn, rightColumn);
      RowJoinSize(lefts[|lefts| - 1], rights, leftColumn, rightColumn);
      assert (|lefts| - 1) * |rights| + |rights| == |lefts| * |rights|;
    }
  }

  /** A record joins with a right record exactly when the pair matches. */
  predicate JoinedFrom(x: Record, left: Record, rights: seq<Record>, leftColumn: string, rightColumn: string)
  {
    exists j :: 0 <= j < |rights| && Matches(left, rights[j], leftColumn, rightColumn) && x == Merge(left, rights[j])
  }

  lemma {:induction false} RowJoinMembers(x: Record, left: Record, rights: seq<Record>, leftColumn: string, rightColumn: string)
    ensures x in RowJoin(left, rights, leftColumn, rightColumn) <==> JoinedFrom(x, left, rights, leftColumn, rightColumn)
    decreases |rights|
  {
    if rights != [] {
      var rights' := rights[..|rights| - 1];
      RowJoinMembers(x, left, rights', leftColumn, rightColumn);
      RowJoinStep(x, left, rights, leftColumn, rightColumn);
    }
  }

  /** A right record matches a left one in `rights` exactly when it does in all but the last, or in the last. */
  lemma RowJoinStep(x: Record, left: Record, rights: seq<Record>, leftColumn: string, rightColumn: string)
    requires rights != []
    ensures var rights', last := rights[..|rights| - 1], rights[|rights| - 1];
      JoinedFrom(x, left, rights, leftColumn, rightColumn) <==>
        JoinedFrom(x, left, rights', leftColumn, rightColumn)
        || (Matches(left, last, leftColumn, rightColumn) && x == Merge(left, last))
  {
    var rights' := rights[..|rights| - 1];
    if JoinedFrom(x, left, rights', leftColumn, rightColumn) {
      var j :| 0 <= j < |rights'| && Matches(left, rights'[j], leftColumn, rightColumn) && x == Merge(left, rights'[j]);
      assert rights[j] == rights'[j];
    }
    if JoinedFrom(x, left, rights, leftColumn, rightColumn) {
      var j :| 0 <= j < |rights| && Matches(left, rights[j], leftColumn, rightColumn) && x == Merge(left, rights[j]);
      if j < |rights'| {
        assert rights'[j] == rights[j];
      }
    }
  }

  /** Some left record joins with some right record into `x`. */
  predicate PairJoined(x: Record, lefts: seq<Record>, rights: seq<Record>, leftColumn: string, rightColumn: string)
  {
    exists i :: 0 <= i < |lefts| && JoinedFrom(x, lefts[i], rights, leftColumn, rightColumn)
  }

  /** A pair joins from `lefts` exactly when it joins from all but the last, or from the last. */
  lemma PairJoinedStep(x: Record, lefts: seq<Record>, rights: seq<Record>, leftColumn: string, rightColumn: string)
    requires lefts != []
    ensures PairJoined(x, lefts, rights, leftColumn, rightColumn) <==>
      PairJoined(x, lefts[..|lefts| - 1], rights, leftColumn, rightColumn)
      || JoinedFrom(x, lefts[|lefts| - 1], rights, leftColumn, rightColumn)
  {
    var lefts' := lefts[..|lefts| - 1];
    if PairJoined(x, lefts', rights, leftColumn, rightColumn) {
      var i :| 0 <= i < |lefts'| && JoinedFrom(x, lefts'[i], rights, leftColumn, rightColumn);
      assert lefts[i] == lefts'[i];
    }
    if PairJoined(x, lefts, rights, leftColumn, rightColumn) {
      var i :| 0 <= i < |lefts| && JoinedFrom(x, lefts[i], rights, leftColumn, rightColumn);
      if i < |lefts'| {
        assert lefts'[i] == lefts[i];
      }
    }
  }

  /**
   * The joined records are exactly the merges of the matching pairs: an
   * inner join, with no record for a left record that matches nothing.
   */
  lemma {:induction false} JoinMembers(x: Record, lefts: seq<Record>, rights: seq<Record>, leftColumn: string, rightColumn: string)
    ensures x in JoinOf(lefts, rights, leftColumn, rightColumn) <==> PairJoined(x, lefts, rights, leftColumn, rightColumn)
    decreases |lefts|
  {
    if lefts != [] {
      JoinMembers(x, lefts[..|lefts| - 1], rights, leftColumn, rightColumn);
      RowJoinMembers(x, lefts[|lefts| - 1], rights, leftColumn, rightColumn);
      PairJoinedStep(x, lefts, rights, leftColumn, rightColumn);
    }
  }

  /** In a dictionary, the entry at `j` is the one found under its key, from the front and from the back. */
  lemma {:induction false} LookupAt(s: Record, j: nat)
    requires Assoc.DistinctKeys(s) && j < |s|
    ensures Assoc.Lookup(s, s[j].0) == Some(s[j].1)
    decreases |s|
  {
    if j > 0 {
      LookupAt(s[1..], j - 1);
    }
  }

  lemma {:induction false} LastLookupAt(s: Record, j: nat)
    requires Assoc.DistinctKeys(s) && j < |s|
    ensures Assoc.LastLookup(s, s[j].0) == Some(s[j].1)
    decreases |s|
  {
    if j < |s| - 1 {
      LastLookupAt(s[..|s| - 1], j);
    }
  }

  lemma {:induction false} LastLookupMissing(s: Record, c: string)
    requires c !in Assoc.Keys(s)
    ensures Assoc.LastLookup(s, c) == None
    decreases |s|
  {
    if s != [] {
      assert Assoc.Keys(s)[|s| - 1] == s[|s| - 1].0;
      assert forall k :: k in Assoc.Keys(s[..|s| - 1]) ==> k in Assoc.Keys(s) by {
        forall k | k in Assoc.Keys(s[..|s| - 1]) ensures k in Assoc.Keys(s) {
          var j :| 0 <= j < |s| - 1 && Assoc.Keys(s[..|s| - 1])[j] == k;
          assert Assoc.Keys(s)[j] == k;
        }
      }
      LastLookupMissing(s[..|s| - 1], c);
    }
  }

  /** A column of the merged record holds the right record's cell when it has one, else the left's. */
  lemma MergeLookup(left: Record, right: Record, c: string)
    requires Assoc.DistinctKeys(right)
    ensures Assoc.Lookup(Merge(left, right), c) ==
      if Assoc.Lookup(right, c).Some? then Assoc.Lookup(right, c) else Assoc.Lookup(left, c)
  {
    Assoc.PutAllLookup(left, right, c);
    Assoc.LookupKeys(right, c);
    if c in Assoc.Keys(right) {
      var j :| 0 <= j < |right| && Assoc.Keys(right)[j] == c;
      LookupAt(right, j);
      LastLookupAt(right, j);
    } else {
      LastLookupMissing(right, c);
    }
  }

  /** Every joined record holds the join value under both join columns. */
  lemma JoinColumns(x: Record, lefts: seq<Record>, rights: seq<Record>, leftColumn: string, rightColumn: string)
    requires forall j :: 0 <= j < |rights| ==> Assoc.DistinctKeys(rights[j])
    requires x in JoinOf(lefts, rights, leftColumn, rightColumn)
    ensures exists i :: 0 <= i < |lefts| &&
              Assoc.Lookup(lefts[i], leftColumn).Some? && Assoc.Lookup(x, rightColumn) == Assoc.Lookup(lefts[i], leftColumn)
  {
    JoinMembers(x, lefts, rights, leftColumn, rightColumn);
    var i :| 0 <= i < |lefts| && JoinedFrom(x, lefts[i], rights, leftColumn, rightColumn);
    var j :| 0 <= j < |rights| && Matches(lefts[i], rights[j], leftColumn, rightColumn) && x == Merge(lefts[i], rights[j]);
    MergeLookup(lefts[i], rights[j], rightColumn);
  }
}
