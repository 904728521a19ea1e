/**
 Byte strings as the C++ code sees them. A `char` stands for one byte; every
 theorem below holds for all characters, so in particular for bytes 0 to 255.
 */
module Text {

  datatype Option<+T> = None | Some(value: T)

  const CRLF: string := "\r\n"
  const NUL: char := '\0'

  predicate IsBytes(s: string) {
    forall i :: 0 <= i < |s| ==> s[i] as int < 256
  }

  /** `needle` occurs in `s` at position `i`. */
  predicate OccursAt(s: string, needle: string, i: int) {
    0 <= i && i + |needle| <= |s| && s[i..i + |needle|] == needle
  }

  predicate Contains(s: string, needle: string) {
    exists i :: 0 <= i < |s| && OccursAt(s, needle, i)
  }

  lemma OccursInTail(s: string, needle: string, k: nat)
    requires 0 < k && s != ""
    ensures OccursAt(s, needle, k) <==> OccursAt(s[1..], needle, k - 1)
  {
    if k + |needle| <= |s| {
      assert s[k..k + |needle|] == s[1..][k - 1..k - 1 + |needle|];
    }
  }

  /** The position of the first occurrence of `needle`, or `|s|` when there is none. */
  function Find(s: string, needle: string): (i: nat)
    requires needle != ""
    ensures i < |s| ==> i + |needle| <= |s|
    ensures i <= |s|
  {
    if |s| < |needle| then |s|
    else if s[..|needle|] == needle then 0
    else 1 + Find(s[1..], needle)
  }

  lemma {:induction false} FindSpec(s: string, needle: string)
    requires needle != ""
    ensures var i := Find(s, needle);
            && (i < |s| ==> OccursAt(s, needle, i))
            && forall k :: 0 <= k < i ==> !OccursAt(s, needle, k)
  {
    if |needle| <= |s| && s[..|needle|] != needle {
      FindSpec(s[1..], needle);
      var i := Find(s, needle);
      forall k | 0 < k <= i ensures OccursAt(s, needle, k) <==> OccursAt(s[1..], needle, k - 1) {
        OccursInTail(s, needle, k);
      }
    }
  }

  /** What characterises a first occurrence determines it. */
  lemma FindIs(s: string, needle: string, i: nat)
    requires needle != "" && OccursAt(s, needle, i)
    requires forall k :: 0 <= k < i ==> !OccursAt(s, needle, k)
    ensures Find(s, needle) == i
  {
    FindSpec(s, needle);
  }

  lemma FindNone(s: string, needle: string)
    requires needle != "" && forall k :: 0 <= k < |s| ==> !OccursAt(s, needle, k)
    ensures Find(s, needle) == |s|
  {
    FindSpec(s, needle);
  }

  lemma OccursInPrefix(s: string, t: string, needle: string, i: nat)
    requires i + |needle| <= |s|
    ensures OccursAt(s + t, needle, i) <==> OccursAt(s, needle, i)
  {
    assert (s + t)[i..i + |needle|] == s[i..i + |needle|];
  }

  lemma OccursInSuffix(s: string, t: string, needle: string, i: nat)
    requires |s| <= i
    ensures OccursAt(s + t, needle, i) <==> OccursAt(t, needle, i - |s|)
  {
    if i + |needle| <= |s + t| {
      assert (s + t)[i..i + |needle|] == t[i - |s|..i - |s| + |needle|];
    }
  }

  /** More input does not move an occurrence that was already found. */
  lemma FindInPrefix(s: string, t: string, needle: string)
    requires needle != "" && Find(s, needle) < |s|
    ensures Find(s + t, needle) == Find(s, needle)
  {
    var i := Find(s, needle);
    FindSpec(s, needle);
    forall k | 0 <= k <= i ensures OccursAt(s + t, needle, k) <==> OccursAt(s, needle, k) {
      OccursInPrefix(s, t, needle, k);
    }
    FindIs(s + t, needle, i);
  }

  /** Bytes before which no occurrence can start can be dropped from the search. */
  lemma FindAfter(s: string, t: string, needle: string)
    requires needle != ""
    requires forall k :: 0 <= k < |s| ==> !OccursAt(s + t, needle, k)
    ensures Find(s + t, needle) == |s| + Find(t, needle)
  {
    forall k | 0 <= k ensures OccursAt(t, needle, k) <==> OccursAt(s + t, needle, k + |s|) {
      OccursInSuffix(s, t, needle, k + |s|);
    }
    var i := Find(t, needle);
    FindSpec(t, needle);
    forall k | 0 <= k < |s| + i ensures !OccursAt(s + t, needle, k) {
      if |s| <= k { assert OccursAt(t, needle, k - |s|) <==> OccursAt(s + t, needle, k - |s| + |s|); }
    }
    if i < |t| {
      FindIs(s + t, needle, |s| + i);
    } else {
      FindNone(s + t, needle);
    }
  }

  /** A needle whose first byte does not recur in it cannot straddle its own first occurrence. */
  lemma FindBefore(s: string, needle: string, t: string)
    requires needle != "" && needle[0] !in needle[1..]
    requires !Contains(s, needle)
    ensures Find(s + needle + t, needle) == |s|
  {
    var w := s + needle + t;
    assert w[|s|..|s| + |needle|] == needle;
    forall k | 0 <= k < |s| ensures !OccursAt(w, needle, k) {
      if k + |needle| <= |s| {
        assert w == s + (needle + t);
        OccursInPrefix(s, needle + t, needle, k);
      } else if k + |needle| <= |w| {
        var j := |s| - k;
        assert w[k..k + |needle|][j] == w[|s|] == needle[0];
        assert needle[j] == needle[1..][j - 1];
      }
    }
    FindIs(w, needle, |s|);
  }

  lemma SliceOfSlice(s: string, a: nat, b: nat, l: nat, r: nat)
    requires a <= l <= r <= b <= |s|
    ensures s[a..b][l - a..r - a] == s[l..r]
  {
    var p := s[a..b];
    assert forall k :: 0 <= k < r - l ==> p[l - a..r - a][k] == p[k + (l - a)] == s[l..r][k];
  }

  lemma PrefixLacks(s: string, needle: string, k: nat)
    requires k <= |s| && !Contains(s, needle)
    ensures !Contains(s[..k], needle)
  {
    Rejoin(s, k);
    forall i | 0 <= i < k ensures !OccursAt(s[..k], needle, i) {
      if i + |needle| <= k { OccursInPrefix(s[..k], s[k..], needle, i); }
    }
  }

  lemma SuffixLacks(s: string, needle: string, k: nat)
    requires k <= |s| && !Contains(s, needle)
    ensures !Contains(s[k..], needle)
  {
    Rejoin(s, k);
    forall i | 0 <= i < |s[k..]| ensures !OccursAt(s[k..], needle, i) {
      OccursInSuffix(s[..k], s[k..], needle, i + k);
    }
  }

  /** There is no line break before the first one. */
  lemma BeforeBreak(line: string, rest: string)
    requires Find(line + rest, CRLF) == |line|
    ensures !Contains(line, CRLF)
  {
    var s := line + rest;
    FindSpec(s, CRLF);
    forall k | 0 <= k < |line| ensures !OccursAt(line, CRLF, k) {
      if k + 2 <= |line| {
        OccursInPrefix(line, rest, CRLF, k);
        assert !OccursAt(s, CRLF, k);
      }
    }
  }

  predicate StartsWith(s: string, prefix: string) {
    |prefix| <= |s| && s[..|prefix|] == prefix
  }

  /** `tolower` of the C locale. */
  function Lower(c: char): char {
    if 'A' <= c <= 'Z' then c - 'A' + 'a' else c
  }

  function LowerAll(s: string): (r: string)
    ensures |r| == |s|
    ensures forall i :: 0 <= i < |s| ==> r[i] == Lower(s[i])
  {
    seq(|s|, i requires 0 <= i < |s| => Lower(s[i]))
  }

  predicate StartsWithNoCase(s: string, prefix: string) {
    |prefix| <= |s| && LowerAll(s[..|prefix|]) == LowerAll(prefix)
  }

  /** The position of the first `c` in `s`, or `|s|`. */
  function IndexOf(s: string, c: char): (i: nat)
    ensures i <= |s|
  {
    if s == "" || s[0] == c then 0 else 1 + IndexOf(s[1..], c)
  }

  lemma IndexOfFirst(s: string, c: char)
    ensures IndexOf(s, c) < |s| ==> s[IndexOf(s, c)] == c
    ensures c !in s[..IndexOf(s, c)]
  {
    if s != "" && s[0] != c {
      IndexOfFirst(s[1..], c);
      var r := IndexOf(s[1..], c);
      assert s[..1 + r] == [s[0]] + s[1..][..r];
    }
  }

  lemma IndexOfIs(s: string, c: char, t: string)
    requires c !in s
    ensures IndexOf(s + [c] + t, c) == |s|
    ensures IndexOf(s, c) == |s|
  {
    if s == "" {
    } else {
      assert (s + [c] + t)[1..] == s[1..] + [c] + t;
      IndexOfIs(s[1..], c, t);
    }
  }

  lemma AppendAssociates<T>(a: seq<T>, b: seq<T>, c: seq<T>)
    ensures a + (b + c) == a + b + c
  {}

  lemma Rejoin<T>(s: seq<T>, k: nat)
    requires k <= |s|
    ensures s[..k] + s[k..] == s
  {}

  lemma CutTwice<T>(s: seq<T>, i: nat, j: nat)
    requires i <= j <= |s|
    ensures s == s[..i] + s[i..] && s == s[..i] + s[i..j] + s[j..]
  {}

  lemma DropTwice<T>(s: seq<T>, i: nat, k: nat)
    requires i + k <= |s|
    ensures s[i..][k..] == s[i + k..]
  {}

  lemma AppendFive<T>(z: seq<T>, a: seq<T>, b: seq<T>, c: seq<T>, d: seq<T>, e: seq<T>)
    ensures z + (a + (b + c + d + e)) == z + a + b + c + d + e
  {
    AppendAssociates(z, a, b + c + d + e);
    AppendAssociates(z + a, b + c + d, e);
    AppendAssociates(z + a, b + c, d);
    AppendAssociates(z + a, b, c);
  }

  lemma AppendThree<T>(z: seq<T>, a: seq<T>, b: seq<T>, c: seq<T>)
    ensures z + (a + b + c) == z + a + (b + c)
  {
    AppendAssociates(a, b, c);
    AppendAssociates(z, a, b + c);
  }

  function Concat(parts: seq<string>): string {
    if parts == [] then "" else parts[0] + Concat(parts[1..])
  }
}
