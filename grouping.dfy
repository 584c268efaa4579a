/**
 * GROUP BY in the active SELECT: the filtered records collected into a
 * `defaultdict(list)` keyed by the tuple of their GROUP BY cells.
 */
module Grouping {
  import opened Wrappers
  import opened Seqs
  import opened Unique
  import opened Values
  import Assoc

  /** `linha.get(col, '')`: the cell as read, untrimmed, or empty when the record lacks the column. */
  function CellOrEmpty(r: Record, column: string): string
  {
    match Assoc.Lookup(r, column)
    case Some(v) => v
    case None => ""
  }

  /** `tuple(linha.get(col, '') for col in group_by_cols)`. */
  function GroupKey(r: Record, columns: seq<string>): seq<string>
  {
    seq(|columns|, i requires 0 <= i < |columns| => CellOrEmpty(r, columns[i]))
  }

  function KeyOf(columns: seq<string>): Record -> seq<string>
  {
    r => GroupKey(r, columns)
  }

  /** The test "the record falls in the group with key `k`". */
  function InGroup(columns: seq<string>, k: seq<string>): Record -> bool
  {
    r => GroupKey(r, columns) == k
  }

  /** The groups, keyed by their key tuple, in the dictionary's insertion order. */
  type Groups = seq<(seq<string>, seq<Record>)>

  /** `groups[key].append(linha)` on a `defaultdict(list)`. */
  function AddToGroup(groups: Groups, k: seq<string>, r: Record): Groups
  {
    var members := Assoc.Lookup(groups, k);
    Assoc.Put(groups, k, (if members.Some? then members.value else []) + [r])
  }

  /** The groups after the loop has seen every record. */
  function GroupsOf(records: seq<Record>, columns: seq<string>): Groups
    decreases |records|
  {
    if records == [] then []
    else
      var x := records[|records| - 1];
      AddToGroup(GroupsOf(records[..|records| - 1], columns), GroupKey(x, columns), x)
  }

  /** The loop at executor.py:366-368. */
  method GroupRows(records: seq<Record>, columns: seq<string>) returns (groups: Groups)
    ensures groups == GroupsOf(records, columns)
  {
    groups := [];
    for i := 0 to |records|
      invariant groups == GroupsOf(records[..i], columns)
    {
      var key := GroupKey(records[i], columns);
      var members: seq<Record> := [];
      var found := Assoc.Lookup(groups, key);
      if found.Some? {
        members := found.value;
      }
      groups := Assoc.Put(groups, key, members + [records[i]]);
      assert records[..i + 1][..i] == records[..i];
    }
    assert records[..|records|] == records;
  }

  /** One group per distinct key, in the order the keys first appear, no key twice. */
  lemma {:induction false} GroupKeys(records: seq<Record>, columns: seq<string>)
    ensures Assoc.Keys(GroupsOf(records, columns)) == Image(UniqBy(records, KeyOf(columns)), KeyOf(columns))
    ensures Assoc.DistinctKeys(GroupsOf(records, columns))
    decreases |records|
  {
    var f := KeyOf(columns);
    if records != [] {
      var s', x := records[..|records| - 1], records[|records| - 1];
      var g' := GroupsOf(s', columns);
      var k := GroupKey(x, columns);
      GroupKeys(s', columns);
      var members := Assoc.Lookup(g', k);
      var v := (if members.Some? then members.value else []) + [x];
      Assoc.PutKeys(g', k, v);
      Assoc.PutDistinct(g', k, v);
      UniqByImage(s', f, k);
      var tail := if f(x) in Image(s', f) then [] else [x];
      ImageAppend(UniqBy(s', f), tail, f);
    }
  }

  /** Each group holds exactly the records with its key, in their original order. */
  lemma {:induction false} GroupMembers(records: seq<Record>, columns: seq<string>, k: seq<string>)
    ensures Assoc.Lookup(GroupsOf(records, columns), k) == MembersSpec(records, columns, k)
    decreases |records|
  {
    if records != [] {
      var s', x := records[..|records| - 1], records[|records| - 1];
      assert records == s' + [x];
      var kx := GroupKey(x, columns);
      GroupMembers(s', columns, kx);
      if k == kx {
        AddSameGroup(s', x, columns);
      } else {
        GroupMembers(s', columns, k);
        AddOtherGroup(s', x, columns, k);
      }
    }
  }

  /** What `groups.get(k)` is once every record has been seen. */
  function MembersSpec(records: seq<Record>, columns: seq<string>, k: seq<string>): Option<seq<Record>>
  {
    if k in Image(records, KeyOf(columns)) then Some(Filter(records, InGroup(columns, k))) else None
  }

  /** A record joins the end of its own group. */
  lemma AddSameGroup(s: seq<Record>, x: Record, columns: seq<string>)
    requires Assoc.Lookup(GroupsOf(s, columns), GroupKey(x, columns)) == MembersSpec(s, columns, GroupKey(x, columns))
    ensures Assoc.Lookup(GroupsOf(s + [x], columns), GroupKey(x, columns)) == MembersSpec(s + [x], columns, GroupKey(x, columns))
  {
    var f, k := KeyOf(columns), GroupKey(x, columns);
    var p := InGroup(columns, k);
    var g := GroupsOf(s, columns);
    assert (s + [x])[..|s|] == s;
    var members := Assoc.Lookup(g, k);
    var v := (if members.Some? then members.value else []) + [x];
    Assoc.PutLookup(g, k, v, k);
    assert Image(s + [x], f) == Image(s, f) + [k];
    assert Filter(s + [x], p) == Filter(s, p) + [x];
    if k !in Image(s, f) {
      forall y | y in s ensures !p(y) {
        var i :| 0 <= i < |s| && s[i] == y;
        assert Image(s, f)[i] == f(y);
      }
      FilterNone(s, p);
    }
  }

  /** A record leaves every other group as it was. */
  lemma AddOtherGroup(s: seq<Record>, x: Record, columns: seq<string>, k: seq<string>)
    requires k != GroupKey(x, columns)
    requires Assoc.Lookup(GroupsOf(s, columns), k) == MembersSpec(s, columns, k)
    ensures Assoc.Lookup(GroupsOf(s + [x], columns), k) == MembersSpec(s + [x], columns, k)
  {
    var f, kx := KeyOf(columns), GroupKey(x, columns);
    var p := InGroup(columns, k);
    var g := GroupsOf(s, columns);
    assert (s + [x])[..|s|] == s;
    var members := Assoc.Lookup(g, kx);
    var v := (if members.Some? then members.value else []) + [x];
    Assoc.PutLookup(g, kx, v, k);
    assert Image(s + [x], f) == Image(s, f) + [kx];
    assert Filter(s + [x], p) == Filter(s, p);
  }

  /** The number of records over all groups. */
  function TotalSize(groups: Groups): nat
  {
    if groups == [] then 0 else |groups[0].1| + TotalSize(groups[1..])
  }

  /** The size of the group with key `k`, 0 when there is none. */
  function SizeOf(groups: Groups, k: seq<string>): nat
  {
    match Assoc.Lookup(groups, k)
    case Some(rs) => |rs|
    case None => 0
  }

  lemma {:induction false} PutSize(groups: Groups, k: seq<string>, v: seq<Record>)
    ensures TotalSize(Assoc.Put(groups, k, v)) + SizeOf(groups, k) == TotalSize(groups) + |v|
    decreases |groups|
  {
    if groups != [] && groups[0].0 != k {
      PutSize(groups[1..], k, v);
      assert ([groups[0]] + Assoc.Put(groups[1..], k, v))[1..] == Assoc.Put(groups[1..], k, v);
    }
  }

  /** Grouping loses and duplicates no record: COUNT(*) summed over the groups is the number of records. */
  lemma {:induction false} GroupSizes(records: seq<Record>, columns: seq<string>)
    ensures TotalSize(GroupsOf(records, columns)) == |records|
    decreases |records|
  {
    if records != [] {
      var s', x := records[..|records| - 1], records[|records| - 1];
      var g' := GroupsOf(s', columns);
      var k := GroupKey(x, columns);
      GroupSizes(s', columns);
      var members := Assoc.Lookup(g', k);
      PutSize(g', k, (if members.Some? then members.value else []) + [x]);
    }
  }
}
