/**
 Which of several longest runs of zero groups the printer leaves out. Section 4.2.3 of RFC 5952 asks
 for the first one.
 */
module InetTies {
  import opened InetText
  import opened InetParse
  import opened InetPrint

  lemma {:induction false} BestGrows(t: string, i: nat, best: nat, max: nat)
    requires i <= |t| && (best + max <= |t| || max == 2)
    ensures var (b, m) := BestFrom(t, i, best, max);
      (m == max && b == best) || (max < m && i <= b)
    decreases |t| - i
  {
    if Candidate(t, i) && Span(t[i..]) > max {
      BestGrows(t, i + 1, i, Span(t[i..]));
    } else if i < |t| {
      BestGrows(t, i + 1, best, max);
    }
  }

  /** The scan keeps the first of the best candidates: a later one has to be longer. */
  lemma {:induction false} BestIsFirst(t: string, i: nat, best: nat, max: nat, c: nat)
    requires i <= c && Candidate(t, c) && (best + max <= |t| || max == 2)
    ensures var (b, m) := BestFrom(t, i, best, max); c < b && max < m ==> Span(t[c..]) < m
    decreases |t| - i
  {
    if Candidate(t, i) && Span(t[i..]) > max {
      BestGrows(t, i + 1, i, Span(t[i..]));
      if i < c { BestIsFirst(t, i + 1, i, Span(t[i..]), c); }
    } else if i < c {
      BestIsFirst(t, i + 1, best, max, c);
    }
  }

  lemma {:induction false} PrintedShrinks(numbers: seq<nat>, k: nat)
    requires Words(numbers) && 1 <= k < |numbers|
    ensures |Printed(numbers[k..])| < |Printed(numbers)|
  {
    PrintedMore(numbers);
    if k > 1 {
      PrintedShrinks(numbers[1..], k - 1);
      assert numbers[1..][k - 1..] == numbers[k..];
    } else {
      assert numbers[1..] == numbers[k..];
    }
  }

  /** A longest run of zero groups, of two or more. */
  ghost predicate Longest(numbers: seq<nat>, k: nat, z: nat) {
    z >= 2 && ZeroRun(numbers, k, z) && forall j: nat, y: nat :: ZeroRun(numbers, j, y) ==> y <= z
  }

  /** It has groups on both sides. */
  ghost predicate Interior(numbers: seq<nat>, k: nat, z: nat) {
    0 < k && k + z < 8 && ZeroRun(numbers, k, z)
  }

  /** The text of the address with a run of zero groups left out. */
  function Without(numbers: seq<nat>, k: nat, z: nat): string
    requires Words(numbers) && k + z <= |numbers|
  {
    Short(Hexes(numbers[..k]), Hexes(numbers[k + z..]))
  }

  /** A shorter run that goes on as long as it can is never as wide. */
  lemma ShorterIsNarrower(numbers: seq<nat>, j: nat, z: nat, k: nat, y: nat)
    requires |numbers| == 8 && ZeroRun(numbers, j, z) && ZeroRun(numbers, k, y) && y < z && y == Leading(numbers[k..])
    ensures Width(k, y) < Width(j, z)
  {
    if z == 8 && y == 7 {
      LeadingAtLeast(numbers[k..], 8 - k);
    }
  }

  lemma StartsWithDigit(numbers: seq<nat>)
    requires Words(numbers) && numbers != []
    ensures Printed(numbers) != "" && Printed(numbers)[0] != ':'
  {
    NoColon(numbers[0]);
    HexIsGroup(numbers[0]);
    if |numbers| > 1 { PrintedMore(numbers); }
  }

  /** A later run starts later in the text. */
  lemma LaterStart(numbers: seq<nat>, j: nat, c: nat, k: nat, b: nat)
    requires Words(numbers) && j < k < |numbers| && c <= |Printed(numbers)| && b <= |Printed(numbers)|
    requires if j == 0 then c == 0 else Printed(numbers)[c..] == ":" + Printed(numbers[j..])
    requires Printed(numbers)[b..] == ":" + Printed(numbers[k..])
    ensures c < b
  {
    assert numbers[j..][k - j..] == numbers[k..];
    PrintedShrinks(numbers[j..], k - j);
    StartsWithDigit(numbers);
    assert |Printed(numbers)[b..]| == |Printed(numbers)| - b && |Printed(numbers)[c..]| == |Printed(numbers)| - c;
  }
  /** Against any run, the one that the scan finds is as wide, and wider if it comes later. */
  lemma FoundIsWider(numbers: seq<nat>, j: nat, z: nat, b: nat, m: nat, k: nat, y: nat)
    requires Words(numbers) && |numbers| == 8 && Longest(numbers, j, z)
    requires (b, m) == BestFrom(Printed(numbers), 0, 0, 2) && b <= |Printed(numbers)| && m > 3
    requires StandsFor(numbers, b, m, k, y)
    ensures y == z && Width(j, z) <= Width(k, z) && (j < k ==> Width(j, z) < Width(k, z))
  {
    var c := RunHasCandidate(numbers, j, z);
    BestIs(Printed(numbers), 0, 0, 2, c);
    BestIsFirst(Printed(numbers), 0, 0, 2, c);
    if y < z { ShorterIsNarrower(numbers, j, z, k, y); }
    if j < k { LaterStart(numbers, j, c, k, b); }
  }

  lemma FoundRun(numbers: seq<nat>, i: nat, z: nat) returns (k: nat)
    requires Words(numbers) && |numbers| == 8 && Longest(numbers, i, z)
    ensures k + z <= 8 && ZeroRun(numbers, k, z) && Compress(Printed(numbers)) == Without(numbers, k, z)
    ensures forall j: nat :: ZeroRun(numbers, j, z) ==>
              Width(j, z) <= Width(k, z) && (j < k ==> Width(j, z) < Width(k, z))
  {
    var t, y := Printed(numbers), 0;
    var (b, m) := BestFrom(t, 0, 0, 2);
    var c := RunHasCandidate(numbers, i, z);
    BestIs(t, 0, 0, 2, c);
    k, y := ReplacedRun(numbers);
    if m > 3 {
      FoundIsWider(numbers, i, z, b, m, k, y);
      forall j: nat | ZeroRun(numbers, j, z)
        ensures Width(j, z) <= Width(k, z) && (j < k ==> Width(j, z) < Width(k, z))
      {
        FoundIsWider(numbers, j, z, b, m, k, y);
      }
    }
  }

  ghost predicate FirstLongest(numbers: seq<nat>, k: nat, z: nat) {
    Longest(numbers, k, z) && forall j: nat :: ZeroRun(numbers, j, z) ==> k <= j
  }

  ghost predicate FirstInterior(numbers: seq<nat>, k: nat, z: nat) {
    Interior(numbers, k, z) && forall j: nat :: Interior(numbers, j, z) ==> k <= j
  }

  /** The first longest run starts the address, and another one as long has groups on both sides. */
  ghost predicate Tie(numbers: seq<nat>, k: nat, z: nat) {
    k == 0 && exists j: nat :: Interior(numbers, j, z)
  }

  /** The run left out is the first longest one, but in a tie it is the first of those inside. */
  lemma WhichRun(numbers: seq<nat>, k: nat, z: nat) returns (j: nat)
    requires Words(numbers) && |numbers| == 8 && FirstLongest(numbers, k, z)
    ensures j + z <= 8 && ZeroRun(numbers, j, z) && Compress(Printed(numbers)) == Without(numbers, j, z)
    ensures if Tie(numbers, k, z) then FirstInterior(numbers, j, z) else j == k
  {
    j := FoundRun(numbers, k, z);
    assert k < j && j + z < 8 ==> Interior(numbers, j, z);
    if Tie(numbers, k, z) {
      var i: nat :| Interior(numbers, i, z);
      assert Width(j, z) >= Width(i, z) == 2 * z + 1;
      forall i: nat | Interior(numbers, i, z) ensures j <= i {
        assert ZeroRun(numbers, i, z);
      }
    }
  }

  lemma ColonInFront(numbers: seq<nat>, k: nat, z: nat)
    requires Words(numbers) && |numbers| == 8 && k + z <= 8
    ensures Without(numbers, k, z)[0] == ':' <==> k == 0
  {
    var before := numbers[..k];
    if k > 0 {
      StartsWithDigit(before);
    } else {
      assert Hexes(before) == [];
    }
  }

  /**
   The printer leaves out the first of the longest runs, as section 4.2.3 of RFC 5952 asks, exactly
   if this one does not start the address or no other as long has groups on both sides.
   */
  lemma FirstIsLeftOut(numbers: seq<nat>, k: nat, z: nat)
    requires Words(numbers) && |numbers| == 8 && FirstLongest(numbers, k, z)
    ensures Compress(Printed(numbers)) == Without(numbers, k, z) <==> !Tie(numbers, k, z)
  {
    var j := WhichRun(numbers, k, z);
    if Tie(numbers, k, z) {
      ColonInFront(numbers, k, z);
      ColonInFront(numbers, j, z);
    }
  }

  /** Such an address: of two runs of two the later one is left out. */
  lemma LaterIsLeftOut()
    ensures var numbers := [0, 0, 1, 0, 0, 1, 1, 1];
      FirstLongest(numbers, 0, 2) && Compress(Printed(numbers)) == "0:0:1::1:1:1"
  {
    var numbers := [0, 0, 1, 0, 0, 1, 1, 1];
    TwoRuns(numbers);
    var j := WhichRun(numbers, 0, 2);
    DigitsOfWitness(numbers);
  }

  lemma TwoRuns(numbers: seq<nat>)
    requires numbers == [0, 0, 1, 0, 0, 1, 1, 1]
    ensures Words(numbers) && FirstLongest(numbers, 0, 2) && FirstInterior(numbers, 3, 2)
    ensures forall j: nat :: FirstInterior(numbers, j, 2) ==> j == 3
  {
    assert numbers[2] == 1 && numbers[5] == 1 && numbers[6] == 1 && numbers[7] == 1;
    assert ZeroRun(numbers, 0, 2) && Interior(numbers, 3, 2);
  }

  lemma DigitsOfWitness(numbers: seq<nat>)
    requires numbers == [0, 0, 1, 0, 0, 1, 1, 1]
    ensures Without(numbers, 3, 2) == "0:0:1::1:1:1"
  {
    assert Hexes(numbers[..3]) == ["0", "0", "1"] && Hexes(numbers[5..]) == ["1", "1", "1"];
    JoinThree("0", "0", "1");
    JoinThree("1", "1", "1");
  }

  lemma JoinThree(a: string, b: string, c: string)
    ensures Join([a, b, c]) == a + (":" + (b + (":" + c)))
  {
    assert [a, b, c][1..] == [b, c] && [b, c][1..] == [c];
    assert Join([b, c]) == b + (":" + Join([c]));
  }
}
