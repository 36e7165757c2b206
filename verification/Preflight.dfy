/** The benchmark's preflight validator: every row id exactly once, whatever the arrival order. */
module Preflight {
  import opened ByteCodec

  const TWO64 := 0x1_0000_0000_0000_0000
  const FETCH_ALL_ROWSET := 1000

  function SplitMix64(value: u64): u64 {
    var a := value as bv64 + 0x9E37_79B9_7F4A_7C15;
    var b := (a ^ (a >> 30)) * 0xBF58_476D_1CE4_E5B9;
    var c := (b ^ (b >> 27)) * 0x94D0_49BB_1331_11EB;
    (c ^ (c >> 31)) as int
  }

  // Checksums and permutations

  /** The sum of the mixed ids, before reduction. */
  function Total(ids: seq<u64>): nat {
    if ids == [] then 0 else SplitMix64(ids[0]) + Total(ids[1..])
  }

  function OneTo(n: u64): (s: seq<u64>)
    ensures |s| == n
  {
    if n == 0 then [] else OneTo(n - 1) + [n]
  }

  predicate InRange(ids: seq<int>, n: u64) { forall i :: 0 <= i < |ids| ==> 1 <= ids[i] <= n }

  predicate Distinct(ids: seq<int>) { forall i, j :: 0 <= i < j < |ids| ==> ids[i] != ids[j] }

  lemma {:induction false} TotalAppend(a: seq<u64>, b: seq<u64>)
    ensures Total(a + b) == Total(a) + Total(b)
  {
    hide SplitMix64;
    if a == [] {
      assert a + b == b;
    } else {
      assert (a + b)[1..] == a[1..] + b;
      TotalAppend(a[1..], b);
    }
  }

  lemma TotalSnoc(a: seq<u64>, x: u64)
    ensures Total(a + [x]) == Total(a) + SplitMix64(x)
  {
    hide SplitMix64;
    TotalAppend(a, [x]);
    assert Total([x]) == SplitMix64(x) + Total([]);
  }

  lemma TotalEmpty()
    ensures Total([]) == 0
  {
  }

  /** The checksum of counting up, modulo 2^64. */
  method ExpectedChecksum(rowCount: u64) returns (sum: u64)
    ensures sum == Total(OneTo(rowCount)) % TWO64
  {
    hide SplitMix64, Total;
    TotalEmpty();
    sum := 0;
    for rowId := 0 to rowCount
      invariant sum == Total(OneTo(rowId)) % TWO64
    {
      TotalSnoc(OneTo(rowId), rowId + 1);
      sum := (sum + SplitMix64(rowId + 1)) % TWO64;
    }
  }

  function Without(ids: seq<u64>, k: nat): seq<u64>
    requires k < |ids|
  {
    ids[..k] + ids[k + 1..]
  }

  lemma WithoutElements(ids: seq<u64>, k: nat)
    requires k < |ids|
    ensures multiset(ids) == multiset(Without(ids, k)) + multiset{ids[k]}
  {
    var a, b := ids[..k], ids[k + 1..];
    assert ids == a + [ids[k]] + b;
  }

  lemma WithoutTotal(ids: seq<u64>, k: nat)
    requires k < |ids|
    ensures Total(ids) == Total(Without(ids, k)) + SplitMix64(ids[k])
  {
    hide SplitMix64, Total;
    var a, b := ids[..k], ids[k + 1..];
    assert ids == a + [ids[k]] + b;
    TotalAppend(a + [ids[k]], b);
    TotalSnoc(a, ids[k]);
    TotalAppend(a, b);
  }

  /** Taking the largest id out of distinct ids leaves distinct smaller ones. */
  lemma WithoutLargest(ids: seq<u64>, k: nat, n: u64)
    requires Distinct(ids) && InRange(ids, n) && k < |ids| && ids[k] == n
    ensures n > 0 && |Without(ids, k)| == |ids| - 1
    ensures Distinct(Without(ids, k)) && InRange(Without(ids, k), n - 1)
  {
    var rest := Without(ids, k);
    assert forall i :: 0 <= i < |rest| ==> rest[i] == if i < k then ids[i] else ids[i + 1];
  }

  lemma LargestBack(ids: seq<u64>, k: nat, n: u64)
    requires k < |ids| && ids[k] == n > 0
    requires multiset(Without(ids, k)) == multiset(OneTo(n - 1)) && Total(Without(ids, k)) == Total(OneTo(n - 1))
    ensures multiset(ids) == multiset(OneTo(n)) && Total(ids) == Total(OneTo(n))
  {
    hide SplitMix64, Total, Without;
    WithoutElements(ids, k);
    WithoutTotal(ids, k);
    TotalSnoc(OneTo(n - 1), n);
    assert multiset(OneTo(n - 1) + [n]) == multiset(OneTo(n - 1)) + multiset{n};
  }

  /** At most `n` distinct ids fit in 1..n, and `n` of them are all of it: the same ids as counting up,
      with the same checksum. */
  lemma {:induction false} Pigeonhole(ids: seq<u64>, n: u64)
    requires Distinct(ids) && InRange(ids, n)
    ensures |ids| <= n
    ensures |ids| == n ==> multiset(ids) == multiset(OneTo(n)) && Total(ids) == Total(OneTo(n))
    decreases n
  {
    hide SplitMix64, Total, OneTo, Distinct, InRange, Without;
    if ids == [] {
      Nothing();
    } else if n in ids {
      var k :| 0 <= k < |ids| && ids[k] == n;
      WithoutLargest(ids, k, n);
      Pigeonhole(Without(ids, k), n - 1);
      if |ids| == n {
        LargestBack(ids, k, n);
      }
    } else {
      BelowLargest(ids, n);
      Pigeonhole(ids, n - 1);
    }
  }

  lemma Nothing()
    ensures OneTo(0) == []
  {
  }

  lemma BelowLargest(ids: seq<u64>, n: u64)
    requires InRange(ids, n) && ids != [] && n !in ids
    ensures n > 0 && InRange(ids, n - 1)
  {
    assert 1 <= ids[0] <= n;
    forall i | 0 <= i < |ids| ensures 1 <= ids[i] <= n - 1 {
      assert ids[i] in ids;
    }
  }

  lemma {:induction false} OneToAt(n: u64, i: nat)
    requires i < n
    ensures OneTo(n)[i] == i + 1
  {
    if i < n - 1 {
      OneToAt(n - 1, i);
    }
  }

  lemma OneToDistinct(n: u64)
    ensures Distinct(OneTo(n)) && InRange(OneTo(n), n)
  {
    forall i | 0 <= i < n ensures OneTo(n)[i] == i + 1 {
      OneToAt(n, i);
    }
  }

  /** The ids the validator lets through are exactly the rearrangements of 1..n. */
  lemma PermutationIff(ids: seq<u64>, n: u64)
    ensures Distinct(ids) && InRange(ids, n) && |ids| == n <==> multiset(ids) == multiset(OneTo(n))
  {
    var all := OneTo(n);
    OneToDistinct(n);
    if multiset(ids) == multiset(all) {
      assert |multiset(ids)| == |multiset(all)|;
      forall i | 0 <= i < |ids| ensures 1 <= ids[i] <= n {
        assert ids[i] in multiset(ids) && ids[i] in multiset(all);
        assert ids[i] in all;
      }
      DistinctByCount(ids, all);
    } else if Distinct(ids) && InRange(ids, n) && |ids| == n {
      Pigeonhole(ids, n);
    }
  }

  lemma DistinctByCount(ids: seq<u64>, all: seq<u64>)
    requires multiset(ids) == multiset(all) && Distinct(all)
    ensures Distinct(ids)
  {
    forall i, j | 0 <= i < j < |ids| ensures ids[i] != ids[j] {
      if ids[i] == ids[j] {
        Twice(ids, i, j);
        AtMostOnce(all, ids[i]);
      }
    }
  }

  lemma Twice(ids: seq<u64>, i: nat, j: nat)
    requires i < j < |ids| && ids[i] == ids[j]
    ensures multiset(ids)[ids[i]] >= 2
  {
    assert ids == ids[..j] + ids[j..];
    assert ids[i] in ids[..j] by { assert ids[..j][i] == ids[i]; }
    assert ids[i] in ids[j..] by { assert ids[j..][0] == ids[i]; }
    assert ids[i] in multiset(ids[..j]) && ids[i] in multiset(ids[j..]);
  }

  lemma {:induction false} AtMostOnce(all: seq<u64>, x: u64)
    requires Distinct(all)
    ensures multiset(all)[x] <= 1
  {
    if all != [] {
      var rest := all[1..];
      assert all == [all[0]] + rest;
      AtMostOnce(rest, x);
      if x == all[0] {
        assert x !in rest;
        assert x !in multiset(rest);
      }
    }
  }

  // Representatives

  function Candidates(rowCount: u64): seq<u64> {
    [1, 2, FETCH_ALL_ROWSET, FETCH_ALL_ROWSET + 1, rowCount / 2, rowCount]
  }

  predicate Ascending(s: seq<u64>) { forall i, j :: 0 <= i < j < |s| ==> s[i] < s[j] }

  /** The first position whose element is not below `x`. */
  method LowerBound(s: seq<u64>, x: u64) returns (k: nat)
    requires Ascending(s)
    ensures k <= |s| && (k < |s| ==> x <= s[k]) && (forall i :: 0 <= i < k ==> s[i] < x)
    ensures k < |s| && s[k] == x <==> x in s
  {
    k := 0;
    var high := |s|;
    while k < high
      invariant 0 <= k <= high <= |s|
      invariant forall i :: 0 <= i < k ==> s[i] < x
      invariant forall i :: high <= i < |s| ==> x <= s[i]
    {
      var mid := (k + high) / 2;
      if s[mid] < x {
        k := mid + 1;
      } else {
        high := mid;
      }
    }
  }

  /** Sorted, without repetitions, and only rows of the table. */
  method BuildRepresentatives(rowCount: u64) returns (s: seq<u64>)
    ensures Ascending(s) && forall x :: x in s <==> x in Candidates(rowCount) && 1 <= x <= rowCount
  {
    hide Ascending, Candidates;
    var cs := Candidates(rowCount);
    EmptyAscending();
    s := [];
    for i := 0 to |cs|
      invariant Ascending(s) && forall x :: x in s <==> x in cs[..i] && 1 <= x <= rowCount
    {
      assert cs[..i + 1] == cs[..i] + [cs[i]];
      if 1 <= cs[i] <= rowCount {
        s := Insert(s, cs[i]);
      }
    }
    assert cs[..|cs|] == cs;
  }

  lemma EmptyAscending()
    ensures Ascending([])
  {
  }

  /** Keeps the order and adds one element, unless it is there already. */
  method Insert(s: seq<u64>, x: u64) returns (r: seq<u64>)
    requires Ascending(s)
    ensures Ascending(r) && forall y :: y in r <==> y in s || y == x
  {
    var k := LowerBound(s, x);
    if k < |s| && s[k] == x {
      return s;
    }
    r := s[..k] + [x] + s[k..];
    assert s == s[..k] + s[k..];
  }

  // The validator

  datatype Verdict = Accepted(rowId: u64) | OutOfRange | Duplicate | BadIndicator | BadValue

  datatype Finish = Passed(checksum: u64) | WrongCount | WrongChecksum | MissedRepresentative

  /** One fetched row: its id, and whether its indicators and values are as expected. */
  datatype Row = Row(id: i32, indicatorsValid: bool, valuesValid: bool)

  function Ids(rows: seq<Row>): (ids: seq<int>)
    ensures |ids| == |rows|
  {
    seq(|rows|, i requires 0 <= i < |rows| => rows[i].id)
  }

  class PreflightValidator {
    const rowCount: u64
    const seen: array<bool>
    const representatives: seq<u64>
    const representativeSeen: array<bool>
    const expectedChecksum: u64
    var acceptedRows: nat
    var checksum: u64
    /** The ids counted, in order of arrival, and whether a counted row then failed a value check. */
    ghost var arrived: seq<u64>
    ghost var spoiled: bool

    ghost predicate Counted()
      reads this`acceptedRows, this`checksum, this`arrived, seen
    {
      && seen.Length == rowCount + 1 && Distinct(arrived) && InRange(arrived, rowCount)
      && (forall id :: 0 <= id <= rowCount ==> (seen[id] <==> id in arrived))
      && acceptedRows == |arrived| && checksum == Total(arrived) % TWO64
    }

    ghost predicate Marked()
      reads this`arrived, this`spoiled, representativeSeen
    {
      && representativeSeen.Length == |representatives| && Ascending(representatives)
      && (forall k :: 0 <= k < |representatives| ==> 1 <= representatives[k] <= rowCount)
      && (!spoiled ==>
            forall k :: 0 <= k < |representatives| ==> (representativeSeen[k] <==> representatives[k] in arrived))
    }

    ghost predicate Valid()
      reads this, seen, representativeSeen
    {
      && seen != representativeSeen && Counted() && Marked()
      && expectedChecksum == Total(OneTo(rowCount)) % TWO64
    }

    constructor (rowCount: u64)
      ensures Valid() && this.rowCount == rowCount && arrived == [] && !spoiled
      ensures fresh(seen) && fresh(representativeSeen)
      ensures forall x :: x in representatives <==> x in Candidates(rowCount) && 1 <= x <= rowCount
    {
      hide SplitMix64, Total, OneTo, Candidates;
      var reps := BuildRepresentatives(rowCount);
      var expected := ExpectedChecksum(rowCount);
      TotalEmpty();
      this.rowCount, representatives, expectedChecksum := rowCount, reps, expected;
      seen := new bool[rowCount + 1](_ => false);
      representativeSeen := new bool[|reps|](_ => false);
      acceptedRows, checksum, arrived, spoiled := 0, 0, [], false;
      new;
      assert forall k :: 0 <= k < |representatives| ==> representatives[k] in representatives;
    }

    /** `is_representative`: marks the row among the chosen ones, if it is one. */
    method IsRepresentative(rowId: u64) returns (found: bool)
      requires representativeSeen.Length == |representatives| && Ascending(representatives)
      modifies representativeSeen
      ensures found <==> rowId in representatives
      ensures forall k :: 0 <= k < |representatives| ==>
                            (representativeSeen[k] <==> old(representativeSeen[k]) || representatives[k] == rowId)
    {
      var k := LowerBound(representatives, rowId);
      if k == |representatives| || representatives[k] != rowId {
        return false;
      }
      representativeSeen[k] := true;
      return true;
    }

    /** Every check made of the row passes. */
    ghost predicate Passes(row: Row) {
      && 1 <= row.id <= rowCount && row.indicatorsValid
      && (row.id in representatives ==> row.valuesValid)
    }

    lemma SeenIff(id: int)
      requires Counted() && 1 <= id <= rowCount
      ensures id < seen.Length && (seen[id] <==> id in arrived)
    {
    }

    /** `accept_row`: the id first, then the indicators of all columns, then the values of a chosen row. */
    method AcceptRow(row: Row) returns (v: Verdict)
      requires Valid()
      modifies this, seen, representativeSeen
      ensures Valid()
      ensures v.OutOfRange? <==> row.id <= 0 || row.id > rowCount
      ensures v.Duplicate? <==> 1 <= row.id <= rowCount && row.id in old(arrived)
      ensures arrived == if v.OutOfRange? || v.Duplicate? then old(arrived) else old(arrived) + [row.id]
      ensures v.Accepted? <==> Passes(row) && row.id !in old(arrived)
      ensures v.Accepted? ==> v.rowId == row.id
      ensures !v.BadIndicator? ==> spoiled == old(spoiled)
    {
      hide Counted, Ascending, Candidates, OneTo, Total;
      var id := row.id;
      if id <= 0 || id > rowCount {
        return OutOfRange;
      }
      SeenIff(id);
      if seen[id] {
        return Duplicate;
      }
      Count(id);
      if !row.indicatorsValid {
        spoiled := true;
        return BadIndicator;
      }
      var chosen := IsRepresentative(id);
      if chosen && !row.valuesValid {
        return BadValue;
      }
      return Accepted(id);
    }

    /** Folds a new id into the count and the checksum. */
    method Count(rowId: u64)
      requires seen != representativeSeen && Counted() && 1 <= rowId <= rowCount && !seen[rowId]
      modifies this`acceptedRows, this`checksum, this`arrived, seen
      ensures Counted() && arrived == old(arrived) + [rowId]
      ensures forall x :: x in arrived <==> x in old(arrived) || x == rowId
    {
      hide SplitMix64, Total;
      TotalSnoc(arrived, rowId);
      seen[rowId] := true;
      acceptedRows := acceptedRows + 1;
      checksum := (checksum + SplitMix64(rowId)) % TWO64;
      arrived := arrived + [rowId];
    }

    ghost predicate Acceptable(rows: seq<Row>) { forall i :: 0 <= i < |rows| ==> Passes(rows[i]) }

    lemma ArrivedDistinct()
      requires Counted()
      ensures Distinct(arrived)
    {
    }

    lemma Repeats(before: seq<int>, rows: seq<Row>, i: nat)
      requires i < |rows| && rows[i].id in before + Ids(rows[..i])
      ensures !Distinct(before + Ids(rows))
    {
      var ids := Ids(rows);
      assert ids[..i] == Ids(rows[..i]);
      var k :| 0 <= k < |before| + i && (before + ids[..i])[k] == ids[i];
      assert (before + ids)[k] == (before + ids)[|before| + i];
    }

    lemma IdsSnoc(rows: seq<Row>, i: nat)
      requires i < |rows|
      ensures Ids(rows[..i + 1]) == Ids(rows[..i]) + [rows[i].id]
    {
    }

    /** `accept_rowset`: rows are accepted to the end exactly when their ids are new rows of the table, each
        once, and every value check passes. */
    method AcceptRowset(rows: seq<Row>) returns (ok: bool)
      requires Valid() && !spoiled
      modifies this, seen, representativeSeen
      ensures Valid()
      ensures ok <==> Acceptable(rows) && Distinct(old(arrived) + Ids(rows))
      ensures ok ==> arrived == old(arrived) + Ids(rows) && !spoiled
    {
      hide Counted, Marked, Passes, OneTo, Total, Distinct, Ids;
      ghost var before := arrived;
      for i := 0 to |rows|
        invariant Valid() && !spoiled && Acceptable(rows[..i]) && arrived == before + Ids(rows[..i])
      {
        var row := rows[i];
        var v := AcceptRow(row);
        IdsSnoc(rows, i);
        if !v.Accepted? {
          if row.id in before + Ids(rows[..i]) {
            Repeats(before, rows, i);
          }
          return false;
        }
      }
      assert rows[..|rows|] == rows;
      ArrivedDistinct();
      return true;
    }

    /** `finish`. When no counted row failed a value check, it passes exactly when as many rows were
        accepted as the table has; and whenever it passes, the ids that arrived are 1..rowCount, each once. */
    method FinishRun() returns (f: Finish)
      requires Valid()
      ensures f.WrongCount? <==> |arrived| != rowCount
      ensures !f.WrongChecksum?
      ensures f.MissedRepresentative? ==> spoiled
      ensures f.Passed? ==>
                multiset(arrived) == multiset(OneTo(rowCount)) && f.checksum == Total(OneTo(rowCount)) % TWO64
    {
      hide Total, OneTo;
      var missed := false;
      for k := 0 to representativeSeen.Length
        invariant missed <==> exists i :: 0 <= i < k && !representativeSeen[i]
      {
        if !representativeSeen[k] {
          missed := true;
        }
      }
      f :=
        if acceptedRows != rowCount then WrongCount
        else if checksum != expectedChecksum then WrongChecksum
        else if missed then MissedRepresentative
        else Passed(checksum);
      if |arrived| == rowCount {
        Pigeonhole(arrived, rowCount);
        EveryRowArrived(arrived, rowCount);
      }
    }

    /** A whole preflight passes exactly when the rows are 1..rowCount, each once, in any order, and every
        value check passes. */
    method Validate(rows: seq<Row>) returns (passed: bool, sum: u64)
      requires Valid() && arrived == [] && !spoiled
      modifies this, seen, representativeSeen
      ensures passed <==> multiset(Ids(rows)) == multiset(OneTo(rowCount)) && Acceptable(rows)
      ensures passed ==> sum == Total(OneTo(rowCount)) % TWO64
    {
      hide Counted, Marked, OneTo, Total, Distinct;
      var ok := AcceptRowset(rows);
      ghost var ids := Ids(rows);
      assert [] + ids == ids;
      RowsPermuteIff(rows);
      if !ok {
        return false, 0;
      }
      var f := FinishRun();
      return f.Passed?, if f.Passed? then f.checksum else 0;
    }

    lemma RowsPermuteIff(rows: seq<Row>)
      ensures Acceptable(rows) && Distinct(Ids(rows)) && |rows| == rowCount <==>
              Acceptable(rows) && multiset(Ids(rows)) == multiset(OneTo(rowCount))
    {
      hide OneTo, Distinct;
      var ids := Ids(rows);
      if Acceptable(rows) {
        forall i | 0 <= i < |ids| ensures 1 <= ids[i] <= rowCount {
          assert ids[i] == rows[i].id;
        }
        PermutationIff(ids, rowCount);
      }
    }
  }

  lemma EveryRowArrived(ids: seq<u64>, n: u64)
    requires multiset(ids) == multiset(OneTo(n))
    ensures forall x :: 1 <= x <= n ==> x in ids
  {
    forall x | 1 <= x <= n ensures x in ids {
      OneToAt(n, x - 1);
      assert x in OneTo(n);
      assert x in multiset(OneTo(n));
      assert x in multiset(ids);
    }
  }
}
