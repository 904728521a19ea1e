/** Printing and parsing an address: every address comes back from its text. */
module Inet {
  import opened Numerals
  import opened InetParse
  import opened InetPrint
  import opened InetText
  import opened Text

  predicate Octets4(a: seq<nat>) {
    |a| == 4 && forall i :: 0 <= i < 4 ==> a[i] < 256
  }

  /** Ten zero bytes and two of 255 mark an IPv4 address inside an IPv6 address. */
  predicate Mapped(a: seq<nat>)
    requires Octets16(a)
  {
    a[..12] == [0, 0, 0, 0, 0, 0, 0, 0, 0, 0, 255, 255]
  }

  /** The text before compression. */
  function Plain6(a: seq<nat>): string
    requires Octets16(a)
  {
    if Mapped(a) then Printed(GroupsOf(a[..12])) + (":" + DottedText(a[12..])) else Printed(GroupsOf(a))
  }

  function Print6(a: seq<nat>): string
    requires Octets16(a)
  {
    Compress(Plain6(a))
  }

  // ---- Mapped addresses

  lemma {:induction false} SpanExact(u: string, v: string)
    requires (forall i :: 0 <= i < |u| ==> InRun(u[i])) && (v == "" || !InRun(v[0]))
    ensures Span(u + v) == |u|
  {
    if u == "" {
      assert u + v == v;
    } else {
      assert (u + v)[1..] == u[1..] + v;
      SpanExact(u[1..], v);
    }
  }

  lemma {:induction false} SpanStops(t: string, p: nat)
    requires p < |t| && !InRun(t[p])
    ensures Span(t) <= p
  {
    if p > 0 && InRun(t[0]) {
      SpanStops(t[1..], p - 1);
    }
  }

  lemma {:induction false} DottedNoColon(octets: seq<nat>)
    requires forall i :: 0 <= i < |octets| ==> octets[i] < 256
    ensures ':' !in DottedText(octets)
  {
    if octets != [] {
      DecIsOctet(octets[0]);
      assert ':' !in Dec(octets[0]);
      if |octets| > 1 { DottedNoColon(octets[1..]); }
    }
  }

  const MAPPED: string := "0:0:0:0:0:"

  /** Zero bytes in front are zero groups in front. */
  lemma {:induction false} GroupsAfterZeros(n: nat, b: seq<nat>)
    requires |b| % 2 == 0 && forall i :: 0 <= i < |b| ==> b[i] < 256
    ensures GroupsOf(Zeros(2 * n) + b) == Zeros(n) + GroupsOf(b)
  {
    if n == 0 {
      assert Zeros(0) + b == b && Zeros(0) + GroupsOf(b) == GroupsOf(b);
    } else {
      var more := Zeros(2 * (n - 1)) + b;
      GroupsAfterZeros(n - 1, b);
      ZerosMore(n, GroupsOf(b));
      ZerosMore(2 * n, b);
      ZerosMore(2 * n - 1, b);
      var a := Zeros(2 * n) + b;
      assert a[0] == 0 && a[1] == 0 && a[2..] == more;
      GroupsUnfold(a);
    }
  }

  lemma ZerosMore(n: nat, more: seq<nat>)
    requires n > 0
    ensures Zeros(n) + more == [0] + (Zeros(n - 1) + more)
  {}

  lemma GroupsUnfold(a: seq<nat>)
    requires a != [] && |a| % 2 == 0 && forall i :: 0 <= i < |a| ==> a[i] < 256
    ensures GroupsOf(a) == [256 * a[0] + a[1]] + GroupsOf(a[2..])
  {}

  lemma PrintedZero(more: seq<nat>)
    requires Words(more) && more != []
    ensures Words([0] + more) && Printed([0] + more) == "0" + (":" + Printed(more))
  {
    PrintedMore([0] + more);
    assert ([0] + more)[1..] == more;
  }

  /** Zero groups in front are printed as `0:` each. */
  function ZeroText(n: nat): string {
    if n == 0 then "" else "0" + (":" + ZeroText(n - 1))
  }

  lemma {:induction false} PrintedAfterZeros(n: nat, more: seq<nat>)
    requires Words(more) && more != []
    ensures Words(Zeros(n) + more) && Printed(Zeros(n) + more) == ZeroText(n) + Printed(more)
  {
    if n == 0 {
      assert Zeros(0) + more == more;
    } else {
      PrintedAfterZeros(n - 1, more);
      PrintedZero(Zeros(n - 1) + more);
      ZerosMore(n, more);
      AppendAssociates(":", ZeroText(n - 1), Printed(more));
      AppendAssociates("0", ":" + ZeroText(n - 1), Printed(more));
    }
  }

  lemma MappedGroupsText(a: seq<nat>)
    requires Octets16(a) && Mapped(a)
    ensures Printed(GroupsOf(a[..12])) == MAPPED + "ffff"
  {
    assert a[..12] == Zeros(10) + [255, 255];
    GroupsAfterZeros(5, [255, 255]);
    assert GroupsOf([255, 255]) == [0xffff];
    PrintedAfterZeros(5, [0xffff]);
    ZeroTextIs();
    PrintedOne(0xffff);
    assert Hex(0xffff) == "ffff" by {
      assert Hex(0xf) == "f" && Hex(0xff) == "ff" && Hex(0xfff) == "fff";
    }
  }

  lemma ZeroTextIs()
    ensures ZeroText(5) == MAPPED
  {
    assert ZeroText(1) == "0:" && ZeroText(2) == "0:0:" && ZeroText(3) == "0:0:0:" && ZeroText(4) == "0:0:0:0:";
  }

  /** No candidate but the start has a run of ten characters. */
  lemma MappedCandidate(octets: seq<nat>, b: nat)
    requires Octets4(octets)
    requires var t := MAPPED + ("ffff:" + DottedText(octets)); b > 0 && Candidate(t, b)
    ensures Span((MAPPED + ("ffff:" + DottedText(octets)))[b..]) < 10
  {
    var d := DottedText(octets);
    var v := "ffff:" + d;
    var t := MAPPED + v;
    DottedNoColon(octets);
    if b < 10 {
      assert t[b..] == MAPPED[b..] + v;
      SpanExact(MAPPED[b..], v);
    } else {
      assert t[b] == v[b - 10];
      assert b == 14;
      var n := |Dec(octets[0])|;
      DecIsOctet(octets[0]);
      assert d[n] == '.';
      assert t[14..][1 + n] == d[n];
      SpanStops(t[14..], 1 + n);
    }
  }

  lemma CompressMapped(octets: seq<nat>)
    requires Octets4(octets)
    ensures Compress(MAPPED + ("ffff:" + DottedText(octets))) == "::ffff:" + DottedText(octets)
  {
    var v := "ffff:" + DottedText(octets);
    var t := MAPPED + v;
    var (b, m) := BestFrom(t, 0, 0, 2);
    SpanExact(MAPPED, v);
    assert t[0..] == t;
    BestIs(t, 0, 0, 2, 0);
    if b > 0 { MappedCandidate(octets, b); }
    assert b == 0 && m == 10 && t[..0] == "" && t[10..] == v;
    assert "" + ("::" + v) == "::ffff:" + DottedText(octets);
  }

  /** A mapped address is printed as `::ffff:` and the dotted text of its last four bytes. */
  lemma PrintsMapped(a: seq<nat>)
    requires Octets16(a) && Mapped(a)
    ensures Print6(a) == "::ffff:" + DottedText(a[12..])
  {
    var d := DottedText(a[12..]);
    MappedGroupsText(a);
    assert MAPPED + "ffff" + (":" + d) == MAPPED + ("ffff:" + d);
    CompressMapped(a[12..]);
  }

  // ---- The round trip

  lemma GapValues(numbers: seq<nat>, k: nat, z: nat, pre: seq<string>, post: seq<string>)
    requires Words(numbers) && z >= 1 && ZeroRun(numbers, k, z)
    requires pre == Hexes(numbers[..k]) && post == Hexes(numbers[k + z..])
    ensures Groups(pre) && Groups(post)
    ensures Values(pre) + Zeros(z) + Values(post) == numbers
  {
    ValuesOfHexes(numbers[..k]);
    ValuesOfHexes(numbers[k + z..]);
    assert numbers[k..k + z] == Zeros(z);
    assert numbers == numbers[..k] + numbers[k..k + z] + numbers[k + z..];
  }

  /**
   Every IPv6 address comes back from its text, whatever the array of groups held before: with a
   run left out or not, at the start, in the middle or at the end, and when IPv4-mapped.
   */
  lemma RoundTrip6(a: seq<nat>, ip: seq<int>)
    requires Octets16(a) && |ip| == 8
    ensures Parse6(Print6(a), ip) == (true, a)
  {
    if Mapped(a) {
      MappedRoundTrip(a, ip);
    } else {
      var numbers := GroupsOf(a);
      BytesOfGroups(a);
      var k, z := CompressesLongestRun(numbers, 0, 0);
      if z == 0 {
        ValuesOfHexes(numbers);
        ParsesFull(Hexes(numbers), ip);
      } else {
        GapRoundTrip(numbers, k, z, ip);
      }
    }
  }

  lemma GapRoundTrip(numbers: seq<nat>, k: nat, z: nat, ip: seq<int>)
    requires Words(numbers) && |numbers| == 8 && z >= 1 && ZeroRun(numbers, k, z) && |ip| == 8
    ensures Parse6(Short(Hexes(numbers[..k]), Hexes(numbers[k + z..])), ip) == (true, Bytes(numbers))
  {
    var (pre, post) := (Hexes(numbers[..k]), Hexes(numbers[k + z..]));
    GapValues(numbers, k, z, pre, post);
    ParsesShort(pre, post, z, ip);
  }

  lemma MappedRoundTrip(a: seq<nat>, ip: seq<int>)
    requires Octets16(a) && Mapped(a) && |ip| == 8
    ensures Parse6(Print6(a), ip) == (true, a)
  {
    PrintsMapped(a);
    ParsesMapped(a[12..], ip);
    assert Zeros(10) + [255, 255] == a[..12];
    assert a[..12] + a[12..] == a;
  }

  /** Every IPv4 address comes back from its text. */
  lemma RoundTrip4(a: seq<nat>)
    requires Octets4(a)
    ensures Scan4(DottedText(a), []) == (true, a)
  {
    ParsesDotted(a);
  }
}
