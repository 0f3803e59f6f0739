/** IPv4 and IPv6 addresses as text and as integers: the syntax of section 2.2 of RFC 4291 as Python's
    `ipaddress` reads it, and the canonical form of section 4 of RFC 5952. */
module Addresses {
  import opened Text

  const GROUP := 0x1_0000
  const V4_SIZE := 0x1_0000_0000
  const V6_SIZE := 0x1_0000_0000_0000_0000_0000_0000_0000_0000

  // -------------------------------------------------------------------------
  // IPv4
  // -------------------------------------------------------------------------

  function DecimalValue(s: string): nat
    requires forall i :: 0 <= i < |s| ==> IsDigit(s[i])
  {
    if s == "" then 0
    else
      assert IsDigit(s[|s| - 1]);
      10 * DecimalValue(s[..|s| - 1]) + (s[|s| - 1] as int - '0' as int)
  }

  /** One to three digits without a leading zero, at most 255. */
  function ParseOctet(s: string): (r: Option<nat>)
    ensures r.Some? ==> r.value < 256
  {
    if AllDigits(s) && |s| <= 3 && (s[0] == '0' ==> |s| == 1) && DecimalValue(s) < 256 then Some(DecimalValue(s))
    else None
  }

  function ParseOctets(parts: seq<string>): (r: Option<nat>)
    requires |parts| == 4
    ensures r.Some? ==> r.value < V4_SIZE
  {
    var a, b, c, d := ParseOctet(parts[0]), ParseOctet(parts[1]), ParseOctet(parts[2]), ParseOctet(parts[3]);
    if a.Some? && b.Some? && c.Some? && d.Some?
    then Some(((a.value * 256 + b.value) * 256 + c.value) * 256 + d.value)
    else None
  }

  function ParseV4(s: string): (r: Option<nat>)
    ensures r.Some? ==> r.value < V4_SIZE
  {
    var parts := Split(s, '.');
    if |parts| == 4 then ParseOctets(parts) else None
  }

  function Octets(n: nat): seq<string> {
    [DecimalNat(n / 256 / 256 / 256), DecimalNat(n / 256 / 256 % 256), DecimalNat(n / 256 % 256), DecimalNat(n % 256)]
  }

  function PrintV4(n: nat): string { Join(Octets(n), ".") }

  lemma {:induction false} DecimalFacts(n: nat)
    ensures DecimalNat(n) != "" && forall i :: 0 <= i < |DecimalNat(n)| ==> IsDigit(DecimalNat(n)[i])
    ensures DecimalValue(DecimalNat(n)) == n
    ensures n > 0 ==> DecimalNat(n)[0] != '0'
    ensures n < 10 ==> |DecimalNat(n)| == 1
    ensures n < 100 ==> |DecimalNat(n)| <= 2
    ensures n < 1000 ==> |DecimalNat(n)| <= 3
  {
    if n < 10 {
      assert DecimalNat(n)[..0] == "";
    } else {
      DecimalFacts(n / 10);
      assert DecimalNat(n)[..|DecimalNat(n)| - 1] == DecimalNat(n / 10);
    }
  }

  lemma OctetBack(n: nat)
    requires n < 256
    ensures ParseOctet(DecimalNat(n)) == Some(n) && '.' !in DecimalNat(n) && ':' !in DecimalNat(n)
  {
    DecimalFacts(n);
    hide DecimalNat, DecimalValue;
    forall c | c in DecimalNat(n) ensures IsDigit(c) {
      var i :| 0 <= i < |DecimalNat(n)| && DecimalNat(n)[i] == c;
    }
  }

  /** Reading a dotted quad undoes printing it. */
  lemma V4RoundTrip(n: nat)
    requires n < V4_SIZE
    ensures ParseV4(PrintV4(n)) == Some(n)
  {
    hide ParseOctet, DecimalNat;
    var parts := Octets(n);
    OctetBack(n / 256 / 256 / 256);
    OctetBack(n / 256 / 256 % 256);
    OctetBack(n / 256 % 256);
    OctetBack(n % 256);
    SplitJoin(parts, '.');
    hide Split, Join;
    assert ['.'] == ".";
  }

  const DIGITS := "0123456789"

  /** The ten digits, and what each is worth. */
  lemma DigitsExactly(c: char)
    ensures IsDigit(c) <==> c in DIGITS
    ensures forall i :: 0 <= i < 10 ==>
              DecimalNat(i) == [DIGITS[i]] && IsDigit(DIGITS[i]) && DecimalValue([DIGITS[i]]) == i
  {
    assert forall i :: 0 <= i < 10 ==> DIGITS[i] as int == '0' as int + i;
    if IsDigit(c) {
      assert c == DIGITS[c as int - '0' as int];
    }
    assert forall d: char :: [d][..0] == "";
    assert DecimalValue("") == 0;
  }

  function Power(base: nat, k: nat): nat { if k == 0 then 1 else base * Power(base, k - 1) }

  /** A digit in front is worth a power of ten. */
  lemma {:induction false} DecimalPositional(c: char, rest: string)
    requires IsDigit(c) && forall i :: 0 <= i < |rest| ==> IsDigit(rest[i])
    ensures DecimalValue([c] + rest) == DecimalValue([c]) * Power(10, |rest|) + DecimalValue(rest)
  {
    if rest == "" {
      assert [c] + rest == [c];
    } else {
      var n := |rest| - 1;
      DecimalPositional(c, rest[..n]);
      DecimalStep([c] + rest);
      DecimalStep(rest);
      assert ([c] + rest)[..|rest|] == [c] + rest[..n];
      Horner(10, DecimalValue([c]), Power(10, n), DecimalValue(rest[..n]), rest[n] as int - '0' as int);
      hide DecimalValue;
    }
  }

  lemma DecimalStep(s: string)
    requires s != "" && forall i :: 0 <= i < |s| ==> IsDigit(s[i])
    ensures IsDigit(s[|s| - 1])
    ensures DecimalValue(s) == 10 * DecimalValue(s[..|s| - 1]) + (s[|s| - 1] as int - '0' as int)
  {
  }

  lemma Horner(base: int, v: int, p: int, w: int, d: int)
    ensures base * (v * p + w) + d == v * (base * p) + (base * w + d)
  {
    assert base * (v * p + w) == base * (v * p) + base * w;
    assert base * (v * p) == v * (base * p);
  }

  /** A text of digits without a leading zero is what printing its value gives. */
  lemma {:induction false} DecimalUnique(s: string)
    requires AllDigits(s) && (s[0] == '0' ==> |s| == 1)
    ensures s == DecimalNat(DecimalValue(s))
    ensures |s| > 1 ==> DecimalValue(s) >= 10
  {
    var n := |s| - 1;
    assert s == s[..n] + [s[n]];
    if n == 0 {
      assert DecimalValue(s[..0]) == 0;
    } else {
      DecimalUnique(s[..n]);
      DigitNotZero(s[..n]);
      var v := DecimalValue(s[..n]);
      assert v > 0 && DecimalValue(s) / 10 == v;
    }
  }

  lemma DigitNotZero(s: string)
    requires AllDigits(s) && s[0] != '0' && (|s| > 1 ==> DecimalValue(s) >= 10)
    ensures DecimalValue(s) > 0
  {
    if |s| == 1 {
      assert DecimalValue(s[..0]) == 0;
    }
  }

  /** An octet is read from its own decimal text alone. */
  lemma OctetExactly(s: string, n: nat)
    ensures ParseOctet(s) == Some(n) <==> n < 256 && s == DecimalNat(n)
  {
    hide DecimalNat, DecimalValue;
    if ParseOctet(s).Some? {
      DecimalUnique(s);
    }
    if n < 256 {
      OctetBack(n);
    }
  }

  /** The number of a dotted quad, the first octet worth most. */
  function Quad(a: nat, b: nat, c: nat, d: nat): nat { a * 0x100_0000 + b * 0x1_0000 + c * 0x100 + d }

  /** A dotted quad is its four numbers, the first one worth most. */
  lemma QuadReads(a: nat, b: nat, c: nat, d: nat)
    requires a < 256 && b < 256 && c < 256 && d < 256
    ensures Quad(a, b, c, d) < V4_SIZE
    ensures PrintV4(Quad(a, b, c, d)) == DecimalNat(a) + "." + DecimalNat(b) + "." + DecimalNat(c) + "." + DecimalNat(d)
    ensures ParseV4(PrintV4(Quad(a, b, c, d))) == Some(Quad(a, b, c, d))
  {
    assert Quad(a, b, c, d) < V4_SIZE;
    QuadOctets(a, b, c, d);
    hide *;
    V4RoundTrip(Quad(a, b, c, d));
    JoinFour(DecimalNat(a), DecimalNat(b), DecimalNat(c), DecimalNat(d));
    PrintedQuad(Quad(a, b, c, d));
  }

  lemma PrintedQuad(n: nat)
    ensures PrintV4(n) == Join(Octets(n), ".")
  {
  }

  lemma QuadOctets(a: nat, b: nat, c: nat, d: nat)
    requires a < 256 && b < 256 && c < 256 && d < 256
    ensures Octets(Quad(a, b, c, d)) == [DecimalNat(a), DecimalNat(b), DecimalNat(c), DecimalNat(d)]
  {
    var two := a * 256 + b;
    var three := two * 256 + c;
    assert Quad(a, b, c, d) == three * 256 + d;
    LastOctet(three, d);
    LastOctet(two, c);
    LastOctet(a, b);
    hide *;
    OctetsByDivision(Quad(a, b, c, d), three, two, a, b, c, d);
  }

  lemma OctetsByDivision(n: nat, three: nat, two: nat, a: nat, b: nat, c: nat, d: nat)
    requires n / 256 == three && n % 256 == d
    requires three / 256 == two && three % 256 == c && two / 256 == a && two % 256 == b
    ensures Octets(n) == [DecimalNat(a), DecimalNat(b), DecimalNat(c), DecimalNat(d)]
  {
    hide DecimalNat;
  }

  lemma LastOctet(q: nat, r: nat)
    requires r < 256
    ensures (q * 256 + r) / 256 == q && (q * 256 + r) % 256 == r
  {
  }

  lemma JoinFour(a: string, b: string, c: string, d: string)
    ensures Join([a, b, c, d], ".") == a + "." + b + "." + c + "." + d
  {
    assert [a, b, c, d][1..] == [b, c, d] && [b, c, d][1..] == [c, d] && [c, d][1..] == [d];
    assert Join([d], ".") == d && Join([c, d], ".") == c + "." + d;
    assert Join([b, c, d], ".") == b + "." + (c + "." + d);
    assert a + "." + (b + "." + (c + "." + d)) == a + "." + b + "." + c + "." + d;
  }

  /** An IPv4 address has one text. */
  lemma V4Exactly(s: string, n: nat)
    ensures ParseV4(s) == Some(n) <==> n < V4_SIZE && s == PrintV4(n)
  {
    OneText(s);
    if n < V4_SIZE {
      V4RoundTrip(n);
    }
    hide ParseV4, PrintV4;
  }

  lemma OneText(s: string)
    ensures ParseV4(s).Some? ==> s == PrintV4(ParseV4(s).value)
  {
    hide Split, ParseOctets, Octets, Join;
    if ParseV4(s).Some? {
      OctetsBack(Split(s, '.'));
      JoinSplit(s, '.');
      assert ['.'] == ".";
    }
  }

  lemma OctetsBack(parts: seq<string>)
    requires |parts| == 4 && ParseOctets(parts).Some?
    ensures parts == Octets(ParseOctets(parts).value)
  {
    hide ParseOctet, DecimalNat, Octets;
    var a, b, c, d := ParseOctet(parts[0]).value, ParseOctet(parts[1]).value, ParseOctet(parts[2]).value,
                      ParseOctet(parts[3]).value;
    OctetExactly(parts[0], a);
    OctetExactly(parts[1], b);
    OctetExactly(parts[2], c);
    OctetExactly(parts[3], d);
    QuadOctets(a, b, c, d);
    assert parts == [DecimalNat(a), DecimalNat(b), DecimalNat(c), DecimalNat(d)];
  }

  // -------------------------------------------------------------------------
  // Groups of sixteen bits
  // -------------------------------------------------------------------------

  function HexDigit(d: nat): char
    requires d < 16
  {
    if d < 10 then ('0' as int + d) as char else ('a' as int + d - 10) as char
  }

  /** `'%x' % n`. */
  function Hex(n: nat): string { if n < 16 then [HexDigit(n)] else Hex(n / 16) + [HexDigit(n % 16)] }

  predicate IsHex(c: char) { IsDigit(c) || 'a' <= c <= 'f' || 'A' <= c <= 'F' }

  function HexDigitValue(c: char): (d: nat)
    requires IsHex(c)
    ensures d < 16
  {
    if IsDigit(c) then c as int - '0' as int
    else if 'a' <= c then c as int - 'a' as int + 10
    else c as int - 'A' as int + 10
  }

  function HexValue(s: string): nat
    requires forall i :: 0 <= i < |s| ==> IsHex(s[i])
  {
    if s == "" then 0 else 16 * HexValue(s[..|s| - 1]) + HexDigitValue(s[|s| - 1])
  }

  const HEX_DIGITS := "0123456789abcdef"
  const UPPER_HEX := "ABCDEF"

  /** The hexadecimal digits of either case, and what each is worth. */
  lemma HexDigitsExactly(c: char)
    ensures IsHex(c) <==> c in HEX_DIGITS || c in UPPER_HEX
    ensures forall i :: 0 <= i < 16 ==>
              IsHex(HEX_DIGITS[i]) && HexDigitValue(HEX_DIGITS[i]) == i && HexDigit(i) == HEX_DIGITS[i]
    ensures forall i :: 0 <= i < 6 ==> IsHex(UPPER_HEX[i]) && HexDigitValue(UPPER_HEX[i]) == 10 + i
  {
    HexTables();
    HexIn(HEX_DIGITS, UPPER_HEX, c);
  }

  lemma HexTables()
    ensures |HEX_DIGITS| == 16 && |UPPER_HEX| == 6
    ensures forall i :: 0 <= i < 10 ==> HEX_DIGITS[i] as int == '0' as int + i
    ensures forall i :: 10 <= i < 16 ==> HEX_DIGITS[i] as int == 'a' as int + i - 10
    ensures forall i :: 0 <= i < 6 ==> UPPER_HEX[i] as int == 'A' as int + i
  {
  }

  lemma HexIn(digits: string, upper: string, c: char)
    requires |digits| == 16 && |upper| == 6
    requires forall i :: 0 <= i < 10 ==> digits[i] as int == '0' as int + i
    requires forall i :: 10 <= i < 16 ==> digits[i] as int == 'a' as int + i - 10
    requires forall i :: 0 <= i < 6 ==> upper[i] as int == 'A' as int + i
    ensures IsHex(c) <==> c in digits || c in upper
  {
    if IsDigit(c) {
      assert c == digits[c as int - '0' as int];
    } else if 'a' <= c <= 'f' {
      assert c == digits[c as int - 'a' as int + 10];
    } else if 'A' <= c <= 'F' {
      assert c == upper[c as int - 'A' as int];
    }
  }

  /** A digit in front is worth a power of sixteen. */
  lemma {:induction false} HexPositional(c: char, rest: string)
    requires IsHex(c) && forall i :: 0 <= i < |rest| ==> IsHex(rest[i])
    ensures HexValue([c] + rest) == HexDigitValue(c) * Power(16, |rest|) + HexValue(rest)
  {
    hide IsHex;
    if rest == "" {
      assert [c] + rest == [c] && [c][..0] == "";
    } else {
      var n := |rest| - 1;
      HexPositional(c, rest[..n]);
      HexStep([c] + rest);
      HexStep(rest);
      assert ([c] + rest)[..|rest|] == [c] + rest[..n];
      Horner(16, HexDigitValue(c), Power(16, n), HexValue(rest[..n]), HexDigitValue(rest[n]));
      hide HexValue, HexDigitValue;
    }
  }

  lemma HexStep(s: string)
    requires s != "" && forall i :: 0 <= i < |s| ==> IsHex(s[i])
    ensures HexValue(s) == 16 * HexValue(s[..|s| - 1]) + HexDigitValue(s[|s| - 1])
  {
  }

  lemma {:induction false} HexValueBound(s: string)
    requires |s| <= 4 && forall i :: 0 <= i < |s| ==> IsHex(s[i])
    ensures |s| == 4 ==> HexValue(s) < 0x1_0000
    ensures |s| == 3 ==> HexValue(s) < 0x1000
    ensures |s| == 2 ==> HexValue(s) < 0x100
    ensures |s| == 1 ==> HexValue(s) < 0x10
    ensures HexValue(s) < GROUP
  {
    if s != "" {
      HexValueBound(s[..|s| - 1]);
    }
  }

  /** One to four hexadecimal digits of either case. */
  function ParseGroup(s: string): (r: Option<nat>)
    ensures r.Some? ==> r.value < GROUP
  {
    if s != "" && |s| <= 4 && forall i :: 0 <= i < |s| ==> IsHex(s[i]) then
      HexValueBound(s);
      Some(HexValue(s))
    else None
  }

  /** A group is one to four hexadecimal digits, and worth what they spell. */
  lemma GroupExactly(s: string)
    ensures ParseGroup(s).Some? <==>
            1 <= |s| <= 4 && forall i :: 0 <= i < |s| ==> s[i] in HEX_DIGITS || s[i] in UPPER_HEX
    ensures ParseGroup(s).Some? ==> (forall i :: 0 <= i < |s| ==> IsHex(s[i])) && ParseGroup(s).value == HexValue(s)
  {
    hide HexValue, HexDigitValue;
    forall i | 0 <= i < |s| ensures IsHex(s[i]) <==> s[i] in HEX_DIGITS || s[i] in UPPER_HEX { HexDigitsExactly(s[i]); }
  }

  predicate LowerHex(c: char) { IsDigit(c) || 'a' <= c <= 'f' }

  lemma {:induction false} HexFacts(n: nat)
    ensures Hex(n) != "" && forall i :: 0 <= i < |Hex(n)| ==> LowerHex(Hex(n)[i]) && IsHex(Hex(n)[i])
    ensures HexValue(Hex(n)) == n
    ensures n > 0 ==> Hex(n)[0] != '0'
    ensures n < 0x1_0000 ==> |Hex(n)| <= 4
    ensures n < 0x1000 ==> |Hex(n)| <= 3
    ensures n < 0x100 ==> |Hex(n)| <= 2
    ensures n < 0x10 ==> |Hex(n)| <= 1
  {
    if n < 16 {
      assert Hex(n)[..0] == "";
    } else {
      HexFacts(n / 16);
      assert Hex(n)[..|Hex(n)| - 1] == Hex(n / 16);
    }
  }

  lemma GroupBack(n: nat)
    requires n < GROUP
    ensures ParseGroup(Hex(n)) == Some(n) && Hex(n) != ""
    ensures ':' !in Hex(n) && '.' !in Hex(n)
  {
    HexFacts(n);
    forall c | c in Hex(n) ensures LowerHex(c) {
      var i :| 0 <= i < |Hex(n)| && Hex(n)[i] == c;
    }
  }

  function ParseGroups(parts: seq<string>): (r: Option<seq<nat>>)
    ensures r.Some? ==> |r.value| == |parts| && Valid(r.value)
  {
    if parts == [] then Some([])
    else
      var n := |parts| - 1;
      var before, last := ParseGroups(parts[..n]), ParseGroup(parts[n]);
      if before.Some? && last.Some? then Some(before.value + [last.value]) else None
  }

  predicate Valid(groups: seq<nat>) { forall i :: 0 <= i < |groups| ==> groups[i] < GROUP }

  function Hexes(groups: seq<nat>): seq<string> {
    seq(|groups|, i requires 0 <= i < |groups| => Hex(groups[i]))
  }

  lemma {:induction false} GroupsBack(groups: seq<nat>)
    requires Valid(groups)
    ensures ParseGroups(Hexes(groups)) == Some(groups)
    ensures forall i :: 0 <= i < |groups| ==>
              Hexes(groups)[i] != "" && ':' !in Hexes(groups)[i] && '.' !in Hexes(groups)[i]
  {
    hide ParseGroup, Hex;
    if groups != [] {
      var n := |groups| - 1;
      GroupBack(groups[n]);
      GroupsBack(groups[..n]);
      assert Hexes(groups)[..n] == Hexes(groups[..n]);
      assert groups == groups[..n] + [groups[n]];
      forall i | 0 <= i < n ensures Hexes(groups)[i] == Hexes(groups[..n])[i] {}
    }
  }

  /** The integer of a list of groups, most significant first. */
  function Number(groups: seq<nat>): nat {
    if groups == [] then 0 else Number(groups[..|groups| - 1]) * GROUP + groups[|groups| - 1]
  }

  function Groups(n: nat, count: nat): (r: seq<nat>)
    ensures |r| == count && Valid(r)
  {
    if count == 0 then [] else Groups(n / GROUP, count - 1) + [n % GROUP]
  }

  function Size(count: nat): nat { if count == 0 then 1 else Size(count - 1) * GROUP }

  lemma {:induction false} NumberOfGroups(n: nat, count: nat)
    requires n < Size(count)
    ensures Number(Groups(n, count)) == n
  {
    if count > 0 {
      NumberOfGroups(n / GROUP, count - 1);
      assert Groups(n, count)[..count - 1] == Groups(n / GROUP, count - 1);
    }
  }

  lemma {:induction false} GroupsOfNumber(groups: seq<nat>)
    requires Valid(groups)
    ensures Groups(Number(groups), |groups|) == groups && Number(groups) < Size(|groups|)
  {
    if groups != [] {
      var n := |groups| - 1;
      GroupsOfNumber(groups[..n]);
      assert groups == groups[..n] + [groups[n]];
    }
  }

  /** The eight groups of an address, the first one worth most. */
  lemma EightReads(g: seq<nat>)
    requires |g| == 8
    ensures Number(g)
            == g[0] * 0x1_0000_0000_0000_0000_0000_0000_0000 + g[1] * 0x1_0000_0000_0000_0000_0000_0000
               + g[2] * 0x1_0000_0000_0000_0000_0000 + g[3] * 0x1_0000_0000_0000_0000 + g[4] * 0x1_0000_0000_0000
               + g[5] * 0x1_0000_0000 + g[6] * 0x1_0000 + g[7]
  {
    assert g[..7][..6] == g[..6] && g[..6][..5] == g[..5] && g[..5][..4] == g[..4] && g[..4][..3] == g[..3];
    assert g[..3][..2] == g[..2] && g[..2][..1] == g[..1] && g[..1][..0] == [];
    assert Number(g[..1]) == g[0];
    assert Number(g[..2]) == g[0] * 0x1_0000 + g[1];
    assert Number(g[..3]) == Number(g[..2]) * 0x1_0000 + g[2];
    assert Number(g[..4]) == Number(g[..3]) * 0x1_0000 + g[3];
    assert Number(g[..5]) == Number(g[..4]) * 0x1_0000 + g[4];
    assert Number(g[..6]) == Number(g[..5]) * 0x1_0000 + g[5];
    assert Number(g[..7]) == Number(g[..6]) * 0x1_0000 + g[6];
  }

  lemma EightGroups()
    ensures Size(8) == V6_SIZE
  {
    assert Size(1) == GROUP;
    assert Size(2) == 0x1_0000_0000;
    assert Size(3) == 0x1_0000_0000_0000;
    assert Size(4) == 0x1_0000_0000_0000_0000;
    assert Size(5) == 0x1_0000_0000_0000_0000_0000;
    assert Size(6) == 0x1_0000_0000_0000_0000_0000_0000;
    assert Size(7) == 0x1_0000_0000_0000_0000_0000_0000_0000;
  }

  // -------------------------------------------------------------------------
  // Reading IPv6
  // -------------------------------------------------------------------------

  /** The first empty part from `i` on that is not the last one. */
  function FirstGap(parts: seq<string>, i: nat): (r: Option<nat>)
    ensures r.Some? ==> i <= r.value < |parts| - 1 && parts[r.value] == ""
    decreases |parts| - i
  {
    if i >= |parts| - 1 then None else if parts[i] == "" then Some(i) else FirstGap(parts, i + 1)
  }

  function Zeros(count: nat): (r: seq<nat>)
    ensures |r| == count && Valid(r)
  {
    seq(count, i => 0)
  }

  /** The groups ahead of and behind the gap; a colon at an end belongs to the gap. */
  function Ahead(parts: seq<string>, gap: nat): seq<string>
    requires gap < |parts|
  {
    if parts[0] == "" then [] else parts[..gap]
  }

  function Behind(parts: seq<string>, gap: nat): seq<string>
    requires gap < |parts|
  {
    if parts[|parts| - 1] == "" then [] else parts[gap + 1..]
  }

  /** At most one `::`, standing for at least one group; a colon at an end belongs to it. */
  function ParseParts(parts: seq<string>): (r: Option<seq<nat>>)
    requires parts != []
    ensures r.Some? ==> |r.value| == 8 && Valid(r.value)
  {
    if |parts| > 9 then None
    else
      match FirstGap(parts, 1)
      case None => if |parts| == 8 then ParseGroups(parts) else None
      case Some(i) =>
        if FirstGap(parts, i + 1).Some? then None
        else if parts[0] == "" && i != 1 then None
        else if parts[|parts| - 1] == "" && i != |parts| - 2 then None
        else
          var hi, lo := Ahead(parts, i), Behind(parts, i);
          var a, b := ParseGroups(hi), ParseGroups(lo);
          if |hi| + |lo| <= 7 && a.Some? && b.Some? then Some(a.value + Zeros(8 - |hi| - |lo|) + b.value) else None
  }

  /** The parts with a dotted-quad suffix written as two groups. */
  function WithSuffix(parts: seq<string>): (r: Option<seq<string>>)
    requires parts != []
    ensures r.Some? ==> r.value != []
  {
    var n := |parts| - 1;
    if '.' !in parts[n] then Some(parts)
    else
      match ParseV4(parts[n])
      case None => None
      case Some(v4) => Some(parts[..n] + [Hex(v4 / GROUP), Hex(v4 % GROUP)])
  }

  function ReadGroups(s: string): (r: Option<seq<nat>>)
    ensures r.Some? ==> |r.value| == 8 && Valid(r.value)
  {
    var parts := Split(s, ':');
    if |parts| < 3 || WithSuffix(parts).None? then None else ParseParts(WithSuffix(parts).value)
  }

  /** `ipaddress.IPv6Address`, as the integer it holds. */
  function ParseV6(s: string): Option<nat> {
    match ReadGroups(s) case None => None case Some(groups) => Some(Number(groups))
  }

  /** A dotted quad at the end stands for the two groups of its number; other text with a dot is refused. */
  lemma SuffixReads(front: seq<string>, last: string)
    requires |front| >= 2 && (forall i :: 0 <= i < |front| ==> ':' !in front[i]) && ':' !in last && '.' in last
    ensures ParseV4(last).None? ==> ParseV6(Join(front + [last], ":")).None?
    ensures ParseV4(last).Some? ==>
              ParseV6(Join(front + [last], ":"))
              == ParseV6(Join(front + [Hex(ParseV4(last).value / 0x1_0000), Hex(ParseV4(last).value % 0x1_0000)], ":"))
  {
    hide Split, Join, ParseV4, ParseParts, Hex;
    assert [':'] == ":";
    var parts := front + [last];
    SplitJoin(parts, ':');
    assert parts[|parts| - 1] == last && parts[..|parts| - 1] == front;
    if ParseV4(last).Some? {
      var hi, lo := ParseV4(last).value / GROUP, ParseV4(last).value % GROUP;
      GroupBack(hi);
      GroupBack(lo);
      var longer := front + [Hex(hi), Hex(lo)];
      SplitJoin(longer, ':');
      assert WithSuffix(longer) == Some(longer);
    }
  }

  lemma ParsedV6Fits(s: string)
    ensures ParseV6(s).Some? ==> ParseV6(s).value < V6_SIZE
    ensures ParseV6(s).Some? ==> ReadGroups(s) == Some(Groups(ParseV6(s).value, 8))
  {
    hide ReadGroups;
    if ReadGroups(s).Some? {
      GroupsOfNumber(ReadGroups(s).value);
      EightGroups();
    }
  }

  // -------------------------------------------------------------------------
  // Printing IPv6
  // -------------------------------------------------------------------------

  /** How many groups from `i` on are zero. */
  function RunAt(groups: seq<nat>, i: nat): (len: nat)
    ensures i <= |groups| ==> i + len <= |groups|
    ensures forall k :: i <= k < i + len && k < |groups| ==> groups[k] == 0
    ensures i + len < |groups| ==> groups[i + len] != 0
    decreases |groups| - i
  {
    if i < |groups| && groups[i] == 0 then 1 + RunAt(groups, i + 1) else 0
  }

  /** Where the longest run of zeros from `i` on starts, the leftmost of several. */
  function BestRun(groups: seq<nat>, i: nat): (s: nat)
    requires i <= |groups|
    ensures i <= s <= |groups|
    ensures forall k :: i <= k <= |groups| ==> RunAt(groups, k) <= RunAt(groups, s)
    ensures forall k :: i <= k < s ==> RunAt(groups, k) < RunAt(groups, s)
    decreases |groups| - i
  {
    if i == |groups| then i
    else
      var rest := BestRun(groups, i + 1);
      if RunAt(groups, i) >= RunAt(groups, rest) then i else rest
  }

  /** The two colons with what stands before and after them, as parts between single colons. */
  function Around(hi: seq<string>, lo: seq<string>): (parts: seq<string>)
    ensures |parts| >= 3
  {
    (if hi == [] then [""] else hi) + [""] + (if lo == [] then [""] else lo)
  }

  function Compressed(hi: seq<nat>, lo: seq<nat>): seq<string> { Around(Hexes(hi), Hexes(lo)) }

  function PartsOf(groups: seq<nat>): seq<string> {
    var s := BestRun(groups, 0);
    var len := RunAt(groups, s);
    if len > 1 then Compressed(groups[..s], groups[s + len..]) else Hexes(groups)
  }

  /** `str(IPv6Address)`. */
  function PrintV6(n: nat): string { Join(PartsOf(Groups(n, 8)), ":") }

  // -------------------------------------------------------------------------
  // Reading undoes printing
  // -------------------------------------------------------------------------

  lemma {:induction false} GapFound(parts: seq<string>, i: nat, k: nat)
    requires i <= k < |parts| - 1 && parts[k] == "" && forall j :: i <= j < k ==> parts[j] != ""
    ensures FirstGap(parts, i) == Some(k)
    decreases k - i
  {
    if i < k {
      GapFound(parts, i + 1, k);
    }
  }

  lemma {:induction false} NoGap(parts: seq<string>, i: nat)
    requires forall j :: i <= j < |parts| - 1 ==> parts[j] != ""
    ensures FirstGap(parts, i).None?
    decreases |parts| - i
  {
    if i < |parts| - 1 {
      NoGap(parts, i + 1);
    }
  }

  lemma {:induction false} GroupsNotEmpty(parts: seq<string>)
    requires ParseGroups(parts).Some?
    ensures forall i :: 0 <= i < |parts| ==> parts[i] != ""
  {
    if parts != [] {
      GroupsNotEmpty(parts[..|parts| - 1]);
    }
  }

  /** Where the empty part between `a` and `b` is found, and no other. */
  lemma OneGap(a: seq<string>, b: seq<string>)
    requires a != [] && b != []
    requires forall j :: 0 < j < |a| ==> a[j] != ""
    requires forall j :: 0 <= j < |b| - 1 ==> b[j] != ""
    ensures var parts := a + [""] + b;
            && FirstGap(parts, 1) == Some(|a|) && FirstGap(parts, |a| + 1).None?
            && parts[..|a|] == a && parts[|a| + 1..] == b && parts[0] == a[0] && parts[|parts| - 1] == b[|b| - 1]
  {
    var parts, i := a + [""] + b, |a|;
    forall j | 1 <= j < i ensures parts[j] != "" { assert parts[j] == a[j]; }
    forall j | i + 1 <= j < |parts| - 1 ensures parts[j] != "" { assert parts[j] == b[j - i - 1]; }
    GapFound(parts, 1, i);
    NoGap(parts, i + 1);
  }

  lemma AroundGap(hi: seq<string>, lo: seq<string>)
    requires (forall i :: 0 <= i < |hi| ==> hi[i] != "") && (forall i :: 0 <= i < |lo| ==> lo[i] != "")
    ensures var parts, i := Around(hi, lo), if hi == [] then 1 else |hi|;
            && FirstGap(parts, 1) == Some(i) && FirstGap(parts, i + 1).None? && i < |parts| - 1
            && (parts[0] == "" ==> i == 1) && (parts[|parts| - 1] == "" ==> i == |parts| - 2)
            && Ahead(parts, i) == hi && Behind(parts, i) == lo
  {
    hide FirstGap;
    OneGap(if hi == [] then [""] else hi, if lo == [] then [""] else lo);
  }

  /** Groups before and after two colons, in any spelling, are read with zeros between. */
  lemma AroundLength(hi: seq<string>, lo: seq<string>)
    requires |hi| + |lo| <= 7
    ensures |Around(hi, lo)| <= 9
  {
  }

  lemma AroundReads(hi: seq<string>, lo: seq<string>)
    requires ParseGroups(hi).Some? && ParseGroups(lo).Some? && |hi| + |lo| <= 7
    ensures ParseParts(Around(hi, lo)) == Some(ParseGroups(hi).value + Zeros(8 - |hi| - |lo|) + ParseGroups(lo).value)
  {
    GroupsNotEmpty(hi);
    GroupsNotEmpty(lo);
    AroundGap(hi, lo);
    AroundLength(hi, lo);
    hide ParseGroups, FirstGap, Around, Ahead, Behind, Zeros;
  }

  /** An address is read exactly from eight groups, or from two colons once around at most seven. */
  lemma PartsExactly(parts: seq<string>, groups: seq<nat>)
    requires parts != []
    ensures ParseParts(parts) == Some(groups) <==>
            || (|parts| == 8 && ParseGroups(parts) == Some(groups))
            || exists hi, lo :: ReadAround(parts, groups, hi, lo)
  {
    hide ParseGroups, ParseParts, ReadAround;
    if ParseParts(parts) == Some(groups) {
      PartsSplit(parts, groups);
    }
    EightRead(parts, groups);
    forall hi, lo | ReadAround(parts, groups, hi, lo) ensures ParseParts(parts) == Some(groups) {
      ReadAroundReads(parts, groups, hi, lo);
    }
  }

  lemma ReadAroundReads(parts: seq<string>, groups: seq<nat>, hi: seq<string>, lo: seq<string>)
    requires ReadAround(parts, groups, hi, lo)
    ensures ParseParts(parts) == Some(groups)
  {
    hide ParseGroups, ParseParts, Around;
    AroundReads(hi, lo);
  }

  lemma EightRead(parts: seq<string>, groups: seq<nat>)
    requires parts != []
    ensures |parts| == 8 && ParseGroups(parts) == Some(groups) ==> ParseParts(parts) == Some(groups)
  {
    if |parts| == 8 && ParseGroups(parts) == Some(groups) {
      GroupsNotEmpty(parts);
      NoGap(parts, 1);
      hide ParseGroups, FirstGap;
    }
  }

  lemma PartsSplit(parts: seq<string>, groups: seq<nat>)
    requires parts != [] && ParseParts(parts) == Some(groups)
    ensures || (|parts| == 8 && ParseGroups(parts) == Some(groups))
            || exists hi, lo :: ReadAround(parts, groups, hi, lo)
  {
    hide ParseGroups, FirstGap, Ahead, Behind, ReadAround, Zeros;
    if FirstGap(parts, 1).Some? {
      var i := FirstGap(parts, 1).value;
      GapSurrounded(parts, i);
      SurroundedReads(parts, groups, Ahead(parts, i), Behind(parts, i));
    }
  }

  lemma SurroundedReads(parts: seq<string>, groups: seq<nat>, hi: seq<string>, lo: seq<string>)
    requires parts == Around(hi, lo) && |hi| + |lo| <= 7 && ParseGroups(hi).Some? && ParseGroups(lo).Some?
    requires groups == ParseGroups(hi).value + Zeros(8 - |hi| - |lo|) + ParseGroups(lo).value
    ensures ReadAround(parts, groups, hi, lo)
  {
  }

  lemma GapSurrounded(parts: seq<string>, i: nat)
    requires 1 <= i < |parts| - 1 && parts[i] == ""
    requires (parts[0] == "" ==> i == 1) && (parts[|parts| - 1] == "" ==> i == |parts| - 2)
    ensures parts == Around(Ahead(parts, i), Behind(parts, i))
  {
    var hi, lo := Ahead(parts, i), Behind(parts, i);
    var a, b := if hi == [] then [""] else hi, if lo == [] then [""] else lo;
    assert parts == parts[..i] + [parts[i]] + parts[i + 1..];
    assert parts[..i] == a && parts[i + 1..] == b;
  }

  ghost predicate ReadAround(parts: seq<string>, groups: seq<nat>, hi: seq<string>, lo: seq<string>) {
    && parts == Around(hi, lo) && |hi| + |lo| <= 7 && ParseGroups(hi).Some? && ParseGroups(lo).Some?
    && groups == ParseGroups(hi).value + Zeros(8 - |hi| - |lo|) + ParseGroups(lo).value
  }

  lemma CompressedBack(hi: seq<nat>, lo: seq<nat>)
    requires Valid(hi) && Valid(lo) && |hi| + |lo| <= 7
    ensures ParseParts(Compressed(hi, lo)) == Some(hi + Zeros(8 - |hi| - |lo|) + lo)
  {
    hide ParseGroups, Hexes, ParseParts, Around;
    GroupsBack(hi);
    GroupsBack(lo);
    HexesLength(hi);
    HexesLength(lo);
    AroundReads(Hexes(hi), Hexes(lo));
  }

  lemma NoGroups()
    ensures ParseGroups([]) == Some([])
  {
  }

  lemma HexesLength(groups: seq<nat>)
    ensures |Hexes(groups)| == |groups|
  {
  }

  lemma PartsBack(groups: seq<nat>)
    requires Valid(groups) && |groups| == 8
    ensures ParseParts(PartsOf(groups)) == Some(groups)
  {
    hide ParseGroups, Hexes, Compressed;
    var s := BestRun(groups, 0);
    var len := RunAt(groups, s);
    if len > 1 {
      hide ParseParts;
      var hi, lo := groups[..s], groups[s + len..];
      CompressedBack(hi, lo);
      assert hi + Zeros(8 - |hi| - |lo|) + lo == groups;
    } else {
      GroupsBack(groups);
      HexesLength(groups);
      NoGap(Hexes(groups), 1);
    }
  }

  /** Every part is empty or lower-case hexadecimal, and there are at least three. */
  lemma PartsArePlain(groups: seq<nat>)
    requires Valid(groups) && |groups| == 8
    ensures |PartsOf(groups)| >= 3
    ensures forall i :: 0 <= i < |PartsOf(groups)| ==> ':' !in PartsOf(groups)[i] && '.' !in PartsOf(groups)[i]
  {
    hide Hexes, Hex, RunAt, BestRun;
    GroupsBack(groups);
    HexesLength(groups);
    var s := BestRun(groups, 0);
    var len := RunAt(groups, s);
    if len > 1 {
      GroupsBack(groups[..s]);
      GroupsBack(groups[s + len..]);
      HexesLength(groups[..s]);
      HexesLength(groups[s + len..]);
    }
  }

  /** Reading the canonical text of any address gives the address back. */
  lemma V6RoundTrip(n: nat)
    requires n < V6_SIZE
    ensures ParseV6(PrintV6(n)) == Some(n)
  {
    hide PartsOf, ParseParts;
    var groups := Groups(n, 8);
    EightGroups();
    NumberOfGroups(n, 8);
    PartsBack(groups);
    PartsArePlain(groups);
    hide Groups, Number, Size;
    assert [':'] == ":";
    SplitJoin(PartsOf(groups), ':');
  }

  /** What the canonical form leaves out: a run of at least two zero groups, the longest there is and
      the leftmost of that length; with no such run nothing is left out. */
  lemma CanonicalForm(n: nat)
    ensures var groups := Groups(n, 8);
            var s := BestRun(groups, 0);
            var len := RunAt(groups, s);
            PrintV6(n) == (if len > 1 then Join(Compressed(groups[..s], groups[s + len..]), ":")
                           else Join(Hexes(groups), ":"))
            && AllZero(groups, s, s + len)
            && (forall k, m :: 0 <= k <= m <= 8 && AllZero(groups, k, m) ==>
                  m - k <= len && (m - k == len && len > 0 ==> s <= k))
  {
    hide Groups, Join, Compressed, Hexes;
    LongestRun(Groups(n, 8));
  }

  predicate AllZero(groups: seq<nat>, k: nat, m: nat)
    requires m <= |groups|
  {
    forall j :: k <= j < m ==> groups[j] == 0
  }

  lemma LongestRun(groups: seq<nat>)
    ensures var s := BestRun(groups, 0);
            var len := RunAt(groups, s);
            && AllZero(groups, s, s + len)
            && (forall k, m :: 0 <= k <= m <= |groups| && AllZero(groups, k, m) ==>
                  m - k <= len && (m - k == len && len > 0 ==> s <= k))
  {
    var s := BestRun(groups, 0);
    forall k, m | 0 <= k <= m <= |groups| && AllZero(groups, k, m)
      ensures m - k <= RunAt(groups, k) <= RunAt(groups, s)
    {
      RunIsLongest(groups, k, m);
    }
    hide RunAt, BestRun;
  }

  lemma RunIsLongest(groups: seq<nat>, k: nat, m: nat)
    requires k <= m <= |groups| && AllZero(groups, k, m)
    ensures m - k <= RunAt(groups, k)
  {
    assert k + RunAt(groups, k) < |groups| ==> groups[k + RunAt(groups, k)] != 0;
  }
}
