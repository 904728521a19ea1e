/**
 Numbers and address groups as text: what the printer writes between the separators and what the
 parser reads back.
 */
module InetText {
  import opened Numerals

  // ---- Digits

  /** `%d` of an octet. */
  function Dec(n: nat): string
    requires n < 256
  {
    if n < 10 then [HexDigit(n)] else Dec(n / 10) + [HexDigit(n % 10)]
  }

  predicate HexText(t: string) {
    forall i :: 0 <= i < |t| ==> HexVal(t[i]) >= 0
  }

  predicate DecText(t: string) {
    forall i :: 0 <= i < |t| ==> IsDigit(t[i])
  }

  /** A group as the parser accepts it: one to four hexadecimal digits. */
  predicate Group(t: string) {
    1 <= |t| <= 4 && HexText(t)
  }

  /** The number a digit string denotes in a base. */
  function Value(t: string, base: nat): int {
    if t == "" then 0 else base * Value(t[..|t| - 1], base) + HexVal(t[|t| - 1])
  }

  lemma ValueMore(t: string, c: char, base: nat)
    ensures Value(t + [c], base) == base * Value(t, base) + HexVal(c)
  {
    assert (t + [c])[..|t|] == t;
  }

  /** A printed group is a group, denotes the number, and starts with 0 only if it is 0. */
  lemma {:induction false} HexIsGroup(n: nat)
    requires n < 0x10000
    ensures HexText(Hex(n)) && 1 <= |Hex(n)| && Value(Hex(n), 16) == n
    ensures n < 0x1000 ==> |Hex(n)| <= 3
    ensures n < 0x100 ==> |Hex(n)| <= 2
    ensures |Hex(n)| <= 4
    ensures Hex(n)[0] == '0' <==> n == 0
  {
    if n < 16 {
      assert [HexDigit(n)][..0] == "";
    } else {
      HexIsGroup(n / 16);
      var t := Hex(n / 16) + [HexDigit(n % 16)];
      assert t[..|t| - 1] == Hex(n / 16);
    }
  }

  /** A printed octet is one to three digits, denotes the number, and has no leading zero. */
  lemma {:induction false} DecIsOctet(n: nat)
    requires n < 256
    ensures DecText(Dec(n)) && 1 <= |Dec(n)| <= 3 && Value(Dec(n), 10) == n
    ensures n < 100 ==> |Dec(n)| <= 2
    ensures Dec(n)[0] == '0' ==> n == 0 && Dec(n) == "0"
  {
    if n < 10 {
      assert [HexDigit(n)][..0] == "";
    } else {
      DecIsOctet(n / 10);
      var t := Dec(n / 10) + [HexDigit(n % 10)];
      assert t[..|t| - 1] == Dec(n / 10);
    }
  }

  // ---- Groups with separators

  /** Groups separated by colons. */
  function Join(groups: seq<string>): string {
    if groups == [] then "" else if |groups| == 1 then groups[0] else groups[0] + (":" + Join(groups[1..]))
  }

  /** Groups with a colon after each, before some other text. */
  function Lead(groups: seq<string>, rest: string): string {
    if groups == [] then rest else groups[0] + (":" + Lead(groups[1..], rest))
  }

  function Hexes(numbers: seq<nat>): (groups: seq<string>)
    requires forall i :: 0 <= i < |numbers| ==> numbers[i] < 0x10000
    ensures |groups| == |numbers| && forall i :: 0 <= i < |numbers| ==> groups[i] == Hex(numbers[i])
  {
    seq(|numbers|, i requires 0 <= i < |numbers| => Hex(numbers[i]))
  }

  function Values(groups: seq<string>): (numbers: seq<int>)
    ensures |numbers| == |groups| && forall i :: 0 <= i < |groups| ==> numbers[i] == Value(groups[i], 16)
  {
    seq(|groups|, i requires 0 <= i < |groups| => Value(groups[i], 16))
  }

  predicate Groups(groups: seq<string>) {
    forall i :: 0 <= i < |groups| ==> Group(groups[i])
  }

  lemma ValuesOfHexes(numbers: seq<nat>)
    requires forall i :: 0 <= i < |numbers| ==> numbers[i] < 0x10000
    ensures Groups(Hexes(numbers)) && Values(Hexes(numbers)) == numbers
  {
    forall i | 0 <= i < |numbers| ensures Group(Hexes(numbers)[i]) && Values(Hexes(numbers))[i] == numbers[i] {
      HexIsGroup(numbers[i]);
    }
  }

  lemma {:induction false} LeadIsJoin(groups: seq<string>, rest: string)
    requires groups != []
    ensures Lead(groups, rest) == Join(groups) + (":" + rest)
  {
    if |groups| > 1 {
      LeadIsJoin(groups[1..], rest);
      var (g, j) := (groups[0], Join(groups[1..]));
      assert g + (":" + (j + (":" + rest))) == g + (":" + j) + (":" + rest);
    }
  }
}
