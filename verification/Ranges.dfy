/** Admission of range requests (section 14.2 of RFC 9110). */
module Ranges {

  const RANGE_MAX_COUNT: nat := 1024

  /** Positions of the first and the last byte; -1 stands for one that was not given. */
  datatype Range = Range(first: int, last: int)

  /** What the admission makes of a range of a content with `n` bytes. */
  function Normal(r: Range, n: nat): Range {
    if r.first == -1 && r.last == -1 then Range(0, n)
    else if r.first == -1 then Range(n - r.last, n - 1)
    else if r.last == -1 then Range(r.first, n - 1)
    else r
  }

  function NormalAll(ranges: seq<Range>, n: nat): (out: seq<Range>)
    ensures |out| == |ranges| && forall i :: 0 <= i < |ranges| ==> out[i] == Normal(ranges[i], n)
  {
    seq(|ranges|, i requires 0 <= i < |ranges| => Normal(ranges[i], n))
  }

  predicate Inside(r: Range, n: nat) {
    0 <= r.first <= r.last < n
  }

  /** Some earlier range reaches to the start of this one or beyond. */
  predicate Overlaps(ranges: seq<Range>, i: nat)
    requires i < |ranges|
  {
    exists j :: 0 <= j < i && ranges[i].first <= ranges[j].last
  }

  /** How many of the first `k` ranges overlap an earlier one. */
  function Overlapping(ranges: seq<Range>, k: nat): nat
    requires k <= |ranges|
  {
    if k == 0 then 0 else Overlapping(ranges, k - 1) + (if Overlaps(ranges, k - 1) then 1 else 0)
  }

  ghost predicate Ascending(ranges: seq<Range>) {
    forall i, j :: 0 <= i < j < |ranges| ==> ranges[i].first < ranges[j].first
  }

  /** The condition under which normalised ranges are served. */
  ghost predicate Acceptable(ranges: seq<Range>, n: nat) {
    && |ranges| <= RANGE_MAX_COUNT
    && (forall i :: 0 <= i < |ranges| ==> Inside(ranges[i], n))
    && Ascending(ranges)
    && Overlapping(ranges, |ranges|) <= 2
  }

  lemma {:induction false} OverlappingGrows(ranges: seq<Range>, k: nat, m: nat)
    requires k <= m <= |ranges|
    ensures Overlapping(ranges, k) <= Overlapping(ranges, m)
  {
    if k < m { OverlappingGrows(ranges, k, m - 1); }
  }

  function Max(a: int, b: int): int {
    if a < b then b else a
  }

  /** The last position that the first `k` ranges reach, or -1. */
  function Reach(ranges: seq<Range>, k: nat): int
    requires k <= |ranges|
  {
    if k == 0 then -1 else Max(Reach(ranges, k - 1), ranges[k - 1].last)
  }

  lemma {:induction false} ReachIs(ranges: seq<Range>, k: nat)
    requires k <= |ranges|
    ensures Reach(ranges, k) >= -1 && forall i :: 0 <= i < k ==> ranges[i].last <= Reach(ranges, k)
    ensures Reach(ranges, k) == -1 || exists i :: 0 <= i < k && ranges[i].last == Reach(ranges, k)
  {
    if k > 0 { ReachIs(ranges, k - 1); }
  }

  /** A range overlaps an earlier one exactly if it starts where those reach. */
  lemma OverlapsIs(ranges: seq<Range>, k: nat)
    requires k < |ranges| && ranges[k].first >= 0
    ensures Overlaps(ranges, k) <==> ranges[k].first <= Reach(ranges, k)
  {
    ReachIs(ranges, k);
  }

  /**
   `range_error`, which normalises the ranges in place. For a response without ranges, or that is not
   a success, nothing is checked; otherwise there is an error exactly if the ranges are not acceptable.
   */
  method RangeError(ranges: array<Range>, status: int, n: nat) returns (error: bool)
    modifies ranges
    ensures ranges.Length == 0 || status < 200 || status >= 300 ==> !error && ranges[..] == old(ranges[..])
    ensures ranges.Length > 0 && 200 <= status < 300 ==> (error <==> !Acceptable(NormalAll(old(ranges[..]), n), n))
    ensures ranges.Length > 0 && 200 <= status < 300 && !error ==> ranges[..] == NormalAll(old(ranges[..]), n)
  {
    if ranges.Length == 0 || !(200 <= status < 300) { return false; }
    if ranges.Length > RANGE_MAX_COUNT { return true; }
    error := AdmitAll(ranges, n);
  }

  /** The loop over the ranges. */
  method AdmitAll(ranges: array<Range>, n: nat) returns (error: bool)
    requires ranges.Length <= RANGE_MAX_COUNT
    modifies ranges
    ensures error <==> !Acceptable(NormalAll(old(ranges[..]), n), n)
    ensures !error ==> ranges[..] == NormalAll(old(ranges[..]), n)
  {
    ghost var all := NormalAll(ranges[..], n);
    ghost var was := ranges[..];
    var prevFirst, prevLast, count := -1, -1, 0;
    var i := 0;
    while i < ranges.Length
      invariant 0 <= i <= ranges.Length == |all| == |was| && was == old(ranges[..])
      invariant forall k :: 0 <= k < i ==> ranges[k] == all[k]
      invariant forall k :: i <= k < ranges.Length ==> ranges[k] == was[k]
      invariant Seen(all, i, n, prevFirst, prevLast, count)
    {
      ranges[i] := Admit(ranges[i], n);
      var served;
      served, prevFirst, prevLast, count := CheckNext(ranges[i], prevFirst, prevLast, count, n, all, i);
      if !served { return true; }
      i := i + 1;
    }
    error := false;
  }

  /** The variables of the loop say what was admitted before the range at `i`. */
  ghost predicate Seen(all: seq<Range>, i: nat, n: nat, prevFirst: int, prevLast: int, count: int)
    requires i <= |all|
  {
    && Admitted(all, i, n) && count == Overlapping(all, i)
    && prevLast == Reach(all, i) && prevFirst == LastFirst(all, i)
  }

  /** The checks of the range at `i`, and what is remembered of it. */
  method CheckNext(r: Range, prevFirst: int, prevLast: int, count: int, n: nat, ghost all: seq<Range>, ghost i: nat)
    returns (served: bool, first: int, last: int, count': int)
    requires i < |all| && r == all[i] && Seen(all, i, n, prevFirst, prevLast, count)
    ensures served ==> Seen(all, i + 1, n, first, last, count')
    ensures !served ==> !Acceptable(all, n)
  {
    NextRange(all, i, n);
    served, count' := Check(r, prevFirst, prevLast, count, n);
    first, last := Max(prevFirst, r.first), Max(prevLast, r.last);
  }

  /** The checks of one range; `count` is of those that overlap. */
  method Check(r: Range, prevFirst: int, prevLast: int, count: nat, n: nat) returns (served: bool, count': nat)
    requires count <= 2
    ensures served <==> Inside(r, n) && r.first > prevFirst && count + (if r.first <= prevLast then 1 else 0) <= 2
    ensures served ==> count' == count + (if r.first <= prevLast then 1 else 0)
  {
    count' := count;
    if !(0 <= r.first <= r.last <= n - 1) { return false, count'; }
    if r.first <= prevFirst { return false, count'; }
    if r.first <= prevLast {
      count' := count' + 1;
      if count' > 2 { return false, count'; }
    }
    served := true;
  }

  function LastFirst(ranges: seq<Range>, k: nat): int
    requires k <= |ranges|
  {
    if k == 0 then -1 else ranges[k - 1].first
  }

  /** The first `k` ranges are inside the content and in order, and few enough of them overlap. */
  ghost predicate Admitted(ranges: seq<Range>, k: nat, n: nat)
    requires k <= |ranges|
  {
    && (forall i :: 0 <= i < k ==> Inside(ranges[i], n))
    && (forall i, j :: 0 <= i < j < k ==> ranges[i].first < ranges[j].first)
    && Overlapping(ranges, k) <= 2
  }

  /** One more range is admitted, or else the whole list is not acceptable. */
  lemma NextRange(ranges: seq<Range>, k: nat, n: nat)
    requires k < |ranges| && Admitted(ranges, k, n)
    ensures var r := ranges[k];
      var overlapping := Overlapping(ranges, k) + (if r.first <= Reach(ranges, k) then 1 else 0);
      if Inside(r, n) && r.first > LastFirst(ranges, k) && overlapping <= 2
      then Admitted(ranges, k + 1, n) && Overlapping(ranges, k + 1) == overlapping
      else !Acceptable(ranges, n)
  {
    if Inside(ranges[k], n) {
      OverlapsIs(ranges, k);
      OverlappingGrows(ranges, k + 1, |ranges|);
    }
  }

  /** The three adjustments of one range, one after the other. */
  method Admit(r: Range, n: nat) returns (s: Range)
    ensures s == Normal(r, n)
  {
    s := r;
    if s.first == -1 && s.last == -1 { s := Range(0, n); }
    if s.first == -1 { s := Range(n - s.last, n - 1); }
    if s.last == -1 { s := Range(s.first, n - 1); }
  }

  /** The asserts are what admission guarantees. */
  method GetRangeOffsetAndLength(r: Range, n: nat) returns (offset: nat, length: nat)
    requires Inside(r, n)
    ensures offset == r.first && length == r.last - r.first + 1 && offset + length <= n && length > 0
  {
    offset, length := r.first, r.last - r.first + 1;
  }

  function Total(ranges: seq<Range>, k: nat): int
    requires k <= |ranges|
  {
    if k == 0 then 0 else Total(ranges, k - 1) + (ranges[k - 1].last - ranges[k - 1].first + 1)
  }

  /** A range comes behind at least as many others as overlap up to it, so it starts no earlier. */
  lemma {:induction false} LateStart(ranges: seq<Range>, k: nat, n: nat)
    requires k < |ranges| && Ascending(ranges) && forall i :: 0 <= i < |ranges| ==> Inside(ranges[i], n)
    ensures ranges[k].first >= k && Overlapping(ranges, k + 1) <= k
  {
    if k > 0 {
      LateStart(ranges, k - 1, n);
    } else {
      assert !Overlaps(ranges, 0) && Overlapping(ranges, 0) == 0;
    }
  }

  /**
   Ranges that overlap no earlier one take up room once; of the others the first can take all but one
   byte, and the second all but two.
   */
  lemma {:induction false} TotalBound(ranges: seq<Range>, k: nat, n: nat)
    requires k <= |ranges| && Ascending(ranges) && forall i :: 0 <= i < |ranges| ==> Inside(ranges[i], n)
    requires Overlapping(ranges, k) <= 2
    ensures var o := Overlapping(ranges, k);
      Total(ranges, k) <= Reach(ranges, k) + 1 + (if o == 0 then 0 else if o == 1 then n - 1 else 2 * n - 3)
  {
    if k > 0 {
      OverlapsIs(ranges, k - 1);
      LateStart(ranges, k - 1, n);
      TotalBound(ranges, k - 1, n);
    }
  }

  /** Whatever is admitted is in order and inside the content, and asks for less than three times the content. */
  lemma AdmittedTotal(ranges: seq<Range>, n: nat)
    requires Acceptable(ranges, n)
    ensures Total(ranges, |ranges|) <= if n < 2 then n else 3 * n - 3
    ensures forall i :: 0 <= i < |ranges| ==> Inside(ranges[i], n)
    ensures forall i, j :: 0 <= i < j < |ranges| ==> ranges[i].first < ranges[j].first
  {
    TotalBound(ranges, |ranges|, n);
    ReachIs(ranges, |ranges|);
    if ranges != [] { LateStart(ranges, |ranges| - 1, n); }
  }

  /** The bound is reached: three ranges that overlap almost wholly are admitted. */
  lemma BoundIsTight(n: nat)
    requires n >= 3
    ensures var ranges := [Range(0, n - 1), Range(1, n - 1), Range(2, n - 1)];
      Acceptable(ranges, n) && Total(ranges, 3) == 3 * n - 3
  {
    var ranges := [Range(0, n - 1), Range(1, n - 1), Range(2, n - 1)];
    assert !Overlaps(ranges, 0) && Overlapping(ranges, 0) == 0;
    assert Overlapping(ranges, 1) == Overlapping(ranges, 0) + 0;
    assert Overlapping(ranges, 2) == Overlapping(ranges, 1) + (if Overlaps(ranges, 1) then 1 else 0);
    assert Overlapping(ranges, 3) == Overlapping(ranges, 2) + (if Overlaps(ranges, 2) then 1 else 0);
    assert Total(ranges, 0) == 0 && Total(ranges, 1) == Total(ranges, 0) + n;
    assert Total(ranges, 2) == Total(ranges, 1) + (n - 1) && Total(ranges, 3) == Total(ranges, 2) + (n - 2);
  }

  /**
   When a suffix range is served: exactly if it asks for some bytes, and no more than there are. RFC
   9110 would serve the whole content where it asks for more.
   */
  lemma SuffixServed(length: nat, n: nat)
    ensures Acceptable(NormalAll([Range(-1, length)], n), n) <==> 1 <= length <= n
  {
    var all := NormalAll([Range(-1, length)], n);
    assert all[0] == Range(n - length, n - 1);
    assert Overlapping(all, 0) == 0 && !Overlaps(all, 0) && Overlapping(all, 1) == 0;
    assert |all| == 1;
  }

  /**
   The branch for a range with neither position, which no parsed header takes, would refuse it, since
   its last position is off by one.
   */
  lemma EmptyRangeRefused(n: nat)
    ensures !Acceptable(NormalAll([Range(-1, -1)], n), n)
  {
    assert NormalAll([Range(-1, -1)], n)[0] == Range(0, n);
  }
}
