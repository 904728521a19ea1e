/** The address printer: the text of an address and the compression of its longest run of zero groups. */
module InetPrint {
  import opened Numerals
  import opened InetText
  import opened InetParse
  import opened Text

  predicate Octets16(a: seq<nat>) {
    |a| == 16 && forall i :: 0 <= i < 16 ==> a[i] < 256
  }

  /** Bytes, two by two, as numbers. */
  function GroupsOf(a: seq<nat>): (groups: seq<nat>)
    requires |a| % 2 == 0 && forall i :: 0 <= i < |a| ==> a[i] < 256
    ensures |groups| == |a| / 2 && forall i :: 0 <= i < |groups| ==> groups[i] < 0x10000
  {
    if a == [] then [] else [256 * a[0] + a[1]] + GroupsOf(a[2..])
  }

  lemma {:induction false} BytesOfGroups(a: seq<nat>)
    requires |a| % 2 == 0 && forall i :: 0 <= i < |a| ==> a[i] < 256
    ensures Bytes(GroupsOf(a)) == a
  {
    if a != [] {
      BytesOfGroups(a[2..]);
      BytesFirst(256 * a[0] + a[1], GroupsOf(a[2..]));
      BytesOfPair(a[0], a[1]);
      assert a == [a[0], a[1]] + a[2..];
    }
  }

  lemma BytesOfPair(x: nat, y: nat)
    requires x < 256 && y < 256
    ensures (256 * x + y) / 256 % 256 == x && (256 * x + y) % 256 == y
  {}

  lemma BytesFirst(n: nat, more: seq<int>)
    ensures Bytes([n] + more) == [n / 256 % 256, n % 256] + Bytes(more)
  {
    assert ([n] + more)[1..] == more;
  }

  predicate InRun(c: char) {
    c == ':' || c == '0'
  }

  /** `strspn` with a colon and a zero. */
  function Span(t: string): (n: nat)
    ensures n <= |t|
  {
    if t != "" && InRun(t[0]) then 1 + Span(t[1..]) else 0
  }

  predicate Candidate(t: string, i: nat) {
    i < |t| && (i == 0 || t[i] == ':')
  }

  /** The scan for the longest run that starts the text or a colon, from a position on. */
  function BestFrom(t: string, i: nat, best: nat, max: nat): (nat, nat)
    requires i <= |t| && (best + max <= |t| || max == 2)
    ensures var (b, m) := BestFrom(t, i, best, max); b + m <= |t| || m == 2
    decreases |t| - i
  {
    if i == |t| then (best, max)
    else if i != 0 && t[i] != ':' then BestFrom(t, i + 1, best, max)
    else if Span(t[i..]) > max then BestFrom(t, i + 1, i, Span(t[i..]))
    else BestFrom(t, i + 1, best, max)
  }

  /** The text with its best run replaced by two colons, if the run has more than three characters. */
  function Compress(t: string): string {
    var (best, max) := BestFrom(t, 0, 0, 2);
    if max > 3 then t[..best] + ("::" + t[best + max..]) else t
  }

  predicate IsBest(t: string, best: nat, max: nat) {
    (best == 0 && max == 2) || (Candidate(t, best) && max == Span(t[best..]) > 2)
  }

  /** The scan ends on a candidate, and no candidate `c` has a longer run. */
  lemma {:induction false} BestIs(t: string, i: nat, best: nat, max: nat, c: nat)
    requires i <= |t| && IsBest(t, best, max) && (best + max <= |t| || max == 2)
    ensures var (b, m) := BestFrom(t, i, best, max);
      IsBest(t, b, m) && max <= m && (i <= c && Candidate(t, c) ==> Span(t[c..]) <= m)
    decreases |t| - i
  {
    if i < |t| {
      if Candidate(t, i) && Span(t[i..]) > max {
        BestIs(t, i + 1, i, Span(t[i..]), c);
      } else {
        BestIs(t, i + 1, best, max, c);
      }
    }
  }

  // ---- Runs of characters and runs of groups

  /** How many numbers at the front are zero. */
  function Leading(numbers: seq<nat>): (z: nat)
    ensures z <= |numbers|
  {
    if numbers != [] && numbers[0] == 0 then 1 + Leading(numbers[1..]) else 0
  }

  predicate Words(numbers: seq<nat>) {
    forall i :: 0 <= i < |numbers| ==> numbers[i] < 0x10000
  }

  function Printed(numbers: seq<nat>): string
    requires Words(numbers)
  {
    Join(Hexes(numbers))
  }

  lemma PrintedMore(numbers: seq<nat>)
    requires Words(numbers) && |numbers| > 1
    ensures Printed(numbers) == Hex(numbers[0]) + (":" + Printed(numbers[1..]))
  {
    assert Hexes(numbers)[1..] == Hexes(numbers[1..]);
  }

  lemma PrintedOne(n: nat)
    requires n < 0x10000
    ensures Printed([n]) == Hex(n)
  {}

  /** The run of characters at the front of the printed numbers covers their leading zeros and nothing else. */
  ghost predicate SpanCovers(numbers: seq<nat>, t: string)
    requires Words(numbers)
  {
    var z := Leading(numbers);
    if z == |numbers| then Span(t) == 2 * z - 1 && |t| == Span(t)
    else Span(t) == 2 * z && t[2 * z..] == Printed(numbers[z..])
  }

  /** A run of characters at the front covers whole zero groups. */
  lemma {:induction false} SpanOfJoin(numbers: seq<nat>)
    requires Words(numbers) && numbers != []
    ensures SpanCovers(numbers, Printed(numbers))
  {
    if numbers[0] != 0 {
      NoRun(numbers);
    } else if |numbers| == 1 {
      assert numbers == [0];
      PrintedOne(0);
      assert "0"[1..] == "";
    } else {
      SpanOfJoin(numbers[1..]);
      PrintedMore(numbers);
      SpanStep(numbers, Printed(numbers[1..]));
    }
  }

  lemma SpanStep(numbers: seq<nat>, u: string)
    requires Words(numbers) && |numbers| > 1 && numbers[0] == 0 && SpanCovers(numbers[1..], u)
    ensures SpanCovers(numbers, "0" + (":" + u))
  {
    var rest := numbers[1..];
    var z := Leading(rest);
    SpanTwo(u, 2 * z);
    if z < |rest| { assert rest[z..] == numbers[z + 1..]; }
  }

  lemma NoRun(numbers: seq<nat>)
    requires Words(numbers) && numbers != [] && numbers[0] != 0
    ensures SpanCovers(numbers, Printed(numbers))
  {
    assert numbers[0..] == numbers;
    var g := Hex(numbers[0]);
    HexIsGroup(numbers[0]);
    assert HexVal(g[0]) >= 0;
    if |numbers| > 1 { PrintedMore(numbers); }
    assert Printed(numbers)[0] == g[0];
  }

  lemma SpanTwo(u: string, n: nat)
    ensures Span("0" + (":" + u)) == 2 + Span(u)
    ensures n <= |u| ==> ("0" + (":" + u))[n + 2..] == u[n..]
  {
    assert ("0" + (":" + u))[1..] == ":" + u;
    assert (":" + u)[1..] == u;
  }

  /** Every colon of the text stands between two groups. */
  lemma {:induction false} ColonAt(numbers: seq<nat>, b: nat) returns (k: nat)
    requires Words(numbers) && b < |Printed(numbers)| && Printed(numbers)[b] == ':'
    ensures 1 <= k < |numbers|
    ensures Printed(numbers)[..b] == Printed(numbers[..k])
    ensures Printed(numbers)[b..] == ":" + Printed(numbers[k..])
  {
    var g := Hex(numbers[0]);
    NoColon(numbers[0]);
    assert |numbers| > 1;
    var u := Printed(numbers[1..]);
    PrintedMore(numbers);
    if b == |g| {
      k := 1;
      assert numbers[..1] == [numbers[0]];
      PrintedOne(numbers[0]);
      SliceAt(g, u);
    } else {
      var b' := b - |g| - 1;
      SliceLater(g, u, b');
      var k' := ColonAt(numbers[1..], b');
      k := k' + 1;
      assert numbers[1..][..k'] == numbers[..k][1..] && numbers[1..][k'..] == numbers[k..];
      PrintedMore(numbers[..k]);
    }
  }

  lemma NoColon(n: nat)
    requires n < 0x10000
    ensures forall i :: 0 <= i < |Hex(n)| ==> Hex(n)[i] != ':'
  {
    HexIsGroup(n);
    forall i | 0 <= i < |Hex(n)| ensures Hex(n)[i] != ':' { assert HexVal(Hex(n)[i]) >= 0; }
  }

  lemma SliceAt(g: string, u: string)
    ensures (g + (":" + u))[..|g|] == g && (g + (":" + u))[|g|..] == ":" + u
  {}

  lemma SliceLater(g: string, u: string, b: nat)
    requires b < |u|
    ensures (g + (":" + u))[|g| + 1 + b] == u[b]
    ensures (g + (":" + u))[..|g| + 1 + b] == g + (":" + u[..b])
    ensures (g + (":" + u))[|g| + 1 + b..] == u[b..]
  {}

  // ---- Compression

  ghost predicate ZeroRun(numbers: seq<nat>, k: nat, z: nat) {
    k + z <= |numbers| && forall i :: k <= i < k + z ==> numbers[i] == 0
  }

  lemma {:induction false} LeadingIsRun(numbers: seq<nat>)
    ensures ZeroRun(numbers, 0, Leading(numbers))
  {
    if numbers != [] && numbers[0] == 0 {
      LeadingIsRun(numbers[1..]);
      forall i | 0 <= i < Leading(numbers) ensures numbers[i] == 0 {
        assert i > 0 ==> numbers[i] == numbers[1..][i - 1];
      }
    }
  }

  /**
   The characters that a run of `z` zero groups from group `k` on adds to a scan: a zero and a colon
   each, with the colon in front of the run, and without the one behind it at the end of the text.
   */
  function Width(k: nat, z: nat): int {
    2 * z + (if k > 0 then 1 else 0) - (if k + z == 8 then 1 else 0)
  }

  /** A scan from group `k` covers its leading zero groups, and what follows is the text of the others. */
  lemma ScanOfRun(numbers: seq<nat>, k: nat) returns (z: nat)
    requires Words(numbers) && |numbers| == 8 && k < 8
    ensures z == Leading(numbers[k..]) && k + z <= 8 && ZeroRun(numbers, k, z)
    ensures var (u, m) := (Printed(numbers[k..]), 2 * z - (if k + z == 8 then 1 else 0));
      m == Span(u) && u[m..] == Join(Hexes(numbers[k + z..]))
  {
    var rest := numbers[k..];
    z := Leading(rest);
    LeadingIsRun(rest);
    SpanOfJoin(rest);
    forall i | k <= i < k + z ensures numbers[i] == 0 { assert numbers[i] == rest[i - k]; }
    assert rest[z..] == numbers[k + z..];
    if k + z == 8 {
      assert Hexes(numbers[8..]) == [];
    }
  }

  /** The best candidate is the start of the text, with its leading zero groups. */
  lemma CompressAtStart(numbers: seq<nat>, m: nat) returns (z: nat)
    requires Words(numbers) && |numbers| == 8 && m == Span(Printed(numbers)) > 3
    ensures z >= 2 && z == Leading(numbers) && ZeroRun(numbers, 0, z) && m == Width(0, z)
    ensures "" + ("::" + Printed(numbers)[m..]) == Short(Hexes(numbers[..0]), Hexes(numbers[z..]))
  {
    assert numbers[0..] == numbers;
    z := ScanOfRun(numbers, 0);
    assert Join(Hexes(numbers[..0])) == "";
  }

  /** The best candidate is a colon, followed by zero groups. */
  lemma CompressAtColon(numbers: seq<nat>, b: nat, m: nat) returns (k: nat, z: nat)
    requires Words(numbers) && |numbers| == 8
    requires b < |Printed(numbers)| && Printed(numbers)[b] == ':' && m == Span(Printed(numbers)[b..]) > 3
    ensures 1 <= k < 8 && z >= 2 && z == Leading(numbers[k..]) && ZeroRun(numbers, k, z) && m == Width(k, z)
    ensures Printed(numbers)[b..] == ":" + Printed(numbers[k..])
    ensures b + m <= |Printed(numbers)|
    ensures (Printed(numbers)[..b] + ("::" + Printed(numbers)[b + m..])
             == Short(Hexes(numbers[..k]), Hexes(numbers[k + z..])))
  {
    var t := Printed(numbers);
    k := ColonAt(numbers, b);
    z := ScanOfRun(numbers, k);
    SpanAfterColon(Printed(numbers[k..]));
    DropAfterColon(t, b, m, Printed(numbers[k..]));
  }

  lemma DropAfterColon(t: string, b: nat, m: nat, u: string)
    requires b <= |t| && t[b..] == ":" + u && 1 <= m <= 1 + |u|
    ensures b + m <= |t| && t[b + m..] == u[m - 1..]
  {
    assert t[b + m..] == t[b..][m..];
  }

  lemma SpanAfterColon(u: string)
    ensures Span(":" + u) == 1 + Span(u)
  {
    assert (":" + u)[1..] == u;
  }

  /** A run of zero groups is a run of characters that a candidate starts. */
  lemma RunHasCandidate(numbers: seq<nat>, k: nat, z: nat) returns (c: nat)
    requires Words(numbers) && ZeroRun(numbers, k, z) && z >= 1 && |numbers| == 8
    ensures Candidate(Printed(numbers), c) && Span(Printed(numbers)[c..]) >= Width(k, z)
    ensures k == 0 ==> c == 0
    ensures k > 0 ==> Printed(numbers)[c..] == ":" + Printed(numbers[k..])
  {
    if k == 0 {
      c := 0;
      LeadingAtLeast(numbers, z);
      SpanOfJoin(numbers);
      assert Printed(numbers)[0..] == Printed(numbers);
    } else {
      c := ColonBefore(numbers, k);
      LeadingAtLeast(numbers[k..], z);
      SpanOfJoin(numbers[k..]);
      SpanAfterColon(Printed(numbers[k..]));
    }
  }

  lemma {:induction false} LeadingAtLeast(numbers: seq<nat>, z: nat)
    requires ZeroRun(numbers, 0, z)
    ensures Leading(numbers) >= z
  {
    if z > 0 {
      LeadingAtLeast(numbers[1..], z - 1);
    }
  }

  lemma {:induction false} ColonBefore(numbers: seq<nat>, k: nat) returns (c: nat)
    requires Words(numbers) && 1 <= k < |numbers|
    ensures c < |Printed(numbers)| && Printed(numbers)[c] == ':'
    ensures Printed(numbers)[c..] == ":" + Printed(numbers[k..])
  {
    var (g, u) := (Hex(numbers[0]), Printed(numbers[1..]));
    PrintedMore(numbers);
    if k == 1 {
      c := |g|;
      SliceAt(g, u);
    } else {
      var c' := ColonBefore(numbers[1..], k - 1);
      assert numbers[1..][k - 1..] == numbers[k..];
      c := |g| + 1 + c';
      SliceLater(g, u, c');
    }
  }

  /** The best position of the scan stands for the run of `z` zero groups from `k` on. */
  ghost predicate StandsFor(numbers: seq<nat>, b: nat, m: nat, k: nat, z: nat)
    requires Words(numbers) && b <= |Printed(numbers)|
  {
    && z >= 2 && ZeroRun(numbers, k, z) && z == Leading(numbers[k..]) && m == Width(k, z)
    && (k == 0 ==> b == 0)
    && (k > 0 ==> Printed(numbers)[b..] == ":" + Printed(numbers[k..]))
  }

  /** What the scan finds is replaced: nothing, or one whole run of zero groups. */
  lemma ReplacedRun(numbers: seq<nat>) returns (k: nat, z: nat)
    requires Words(numbers) && |numbers| == 8
    ensures var (t, (b, m)) := (Printed(numbers), BestFrom(Printed(numbers), 0, 0, 2));
      if m <= 3 then z == 0 && Compress(t) == t
      else
        && b + m <= |t| && StandsFor(numbers, b, m, k, z)
        && Compress(t) == Short(Hexes(numbers[..k]), Hexes(numbers[k + z..]))
  {
    var t := Printed(numbers);
    var (b, m) := BestFrom(t, 0, 0, 2);
    BestIs(t, 0, 0, 2, 0);
    k, z := 0, 0;
    if m > 3 {
      if b == 0 {
        assert t[0..] == t && numbers[0..] == numbers;
        z := CompressAtStart(numbers, m);
        assert t[..0] == "";
      } else {
        k, z := CompressAtColon(numbers, b, m);
      }
    }
  }

  /**
   What the printer does to eight groups: with no two zero groups in a row the text stays; otherwise
   a longest run of zero groups, of two or more, is left out.
   */
  lemma CompressesLongestRun(numbers: seq<nat>, k': nat, z': nat) returns (k: nat, z: nat)
    requires Words(numbers) && |numbers| == 8 && ZeroRun(numbers, k', z')
    ensures z == 0 || (z >= 2 && ZeroRun(numbers, k, z))
    ensures z == 0 ==> Compress(Printed(numbers)) == Printed(numbers)
    ensures z > 0 ==> Compress(Printed(numbers)) == Short(Hexes(numbers[..k]), Hexes(numbers[k + z..]))
    ensures z' <= if z == 0 then 1 else z
  {
    k, z := ReplacedRun(numbers);
    if z' >= 1 {
      var c := RunHasCandidate(numbers, k', z');
      BestIs(Printed(numbers), 0, 0, 2, c);
    }
  }
}
