/** Which texts are accepted as a load balancer's public IPv6 address. */
module PublicIpv6 {
  import opened Text
  import opened Addresses

  datatype Problem =
    | Fine
    | Empty
    | Padded
    | HasPrefixLength
    | HasZone
    | NotIpv6
    | Mapped
    | Unspecified
    | Loopback
    | LinkLocal
    | Multicast
    | SiteLocal
    | NotCanonical(canonical: string)

  /** The first group of an address. */
  function Top(n: nat): nat { n / 0x1_0000_0000_0000_0000_0000_0000_0000 }

  predicate IsMapped(n: nat) { n / V4_SIZE == 0xffff }

  /** What no public address can be: the special ranges, in the order they are reported. */
  function Special(n: nat): Option<Problem> {
    if IsMapped(n) then Some(Mapped)
    else if n == 0 then Some(Unspecified)
    else if n == 1 then Some(Loopback)
    else if 0xfe80 <= Top(n) <= 0xfebf then Some(LinkLocal)
    else if 0xff00 <= Top(n) then Some(Multicast)
    else if 0xfec0 <= Top(n) <= 0xfeff then Some(SiteLocal)
    else None
  }

  /** `cs_ipv6_problem`. */
  function ProblemOf(value: Option<string>): Problem {
    match value
    case None => Empty
    case Some(given) =>
      var text := Strip(given);
      if text != given then Padded
      else if text == "" then Empty
      else if '/' in text then HasPrefixLength
      else if '%' in text then HasZone
      else
        match ParseV6(text)
        case None => NotIpv6
        case Some(n) =>
          match Special(n)
          case Some(problem) => problem
          case None => if text != PrintV6(n) then NotCanonical(PrintV6(n)) else Fine
  }

  /** An address that may be a public one. */
  predicate Usable(n: nat) { n < V6_SIZE && Special(n).None? }

  /** The addresses that no public one can be, range by range. */
  lemma SpecialExactly(n: nat)
    requires n < V6_SIZE
    ensures Special(n) == Some(Mapped) <==> 0xffff_0000_0000 <= n <= 0xffff_ffff_ffff
    ensures Special(n) == Some(Unspecified) <==> n == 0
    ensures Special(n) == Some(Loopback) <==> n == 1
    ensures Special(n) == Some(LinkLocal) <==>
            0xfe80_0000_0000_0000_0000_0000_0000_0000 <= n <= 0xfebf_ffff_ffff_ffff_ffff_ffff_ffff_ffff
    ensures Special(n) == Some(SiteLocal) <==>
            0xfec0_0000_0000_0000_0000_0000_0000_0000 <= n <= 0xfeff_ffff_ffff_ffff_ffff_ffff_ffff_ffff
    ensures Special(n) == Some(Multicast) <==> 0xff00_0000_0000_0000_0000_0000_0000_0000 <= n
    ensures Special(n).None? <==>
            1 < n < 0xfe80_0000_0000_0000_0000_0000_0000_0000 && !(0xffff_0000_0000 <= n <= 0xffff_ffff_ffff)
  {
  }

  /** A text is accepted exactly when it is the canonical text of an address above `::1` and below
      `fe80::` that is not IPv4-mapped. */
  lemma AcceptedOnRanges(text: string)
    ensures ProblemOf(Some(text)) == Fine <==>
            exists n :: 1 < n < 0xfe80_0000_0000_0000_0000_0000_0000_0000
                        && !(0xffff_0000_0000 <= n <= 0xffff_ffff_ffff) && text == PrintV6(n)
  {
    hide ProblemOf, PrintV6;
    AcceptedExactly(text);
    forall n: nat ensures Usable(n) <==> 1 < n < 0xfe80_0000_0000_0000_0000_0000_0000_0000
                                         && !(0xffff_0000_0000 <= n <= 0xffff_ffff_ffff)
    {
      if n < V6_SIZE {
        SpecialExactly(n);
      }
    }
    hide Usable;
  }

  /** A single address: nothing around it, no prefix length, no zone. */
  ghost predicate Bare(text: string) { Trimmed(text) && text != "" && '/' !in text && '%' !in text }

  /** What a refusal says is so: every problem by the text alone, or by the number it reads as. */
  lemma ProblemsExactly(text: string)
    ensures ProblemOf(None) == Empty
    ensures ProblemOf(Some(text)) == Empty <==> text == ""
    ensures ProblemOf(Some(text)) == Padded <==> text != "" && (IsSpace(text[0]) || IsSpace(text[|text| - 1]))
    ensures ProblemOf(Some(text)) == HasPrefixLength <==> Trimmed(text) && '/' in text
    ensures ProblemOf(Some(text)) == HasZone <==> Trimmed(text) && '/' !in text && '%' in text
    ensures ProblemOf(Some(text)) == NotIpv6 <==> Bare(text) && ParseV6(text).None?
    ensures Bare(text) && ParseV6(text).Some? ==>
              match Special(ParseV6(text).value)
              case Some(problem) => ProblemOf(Some(text)) == problem
              case None =>
                if text == PrintV6(ParseV6(text).value) then ProblemOf(Some(text)) == Fine
                else ProblemOf(Some(text)) == NotCanonical(PrintV6(ParseV6(text).value))
  {
    StripFacts(text);
    hide Strip, ParseV6, PrintV6, IsSpace, Top, IsMapped;
  }

  lemma PlainChar(c: char)
    ensures LowerHex(c) || c == ':' ==> !IsSpace(c) && c != '/' && c != '%'
  {
  }

  lemma {:induction false} JoinChars(parts: seq<string>, sep: string)
    requires forall i :: 0 <= i < |parts| ==> forall c :: c in parts[i] ==> LowerHex(c) || c == ':'
    requires sep == ":"
    ensures forall c :: c in Join(parts, sep) ==> LowerHex(c) || c == ':'
    ensures |parts| > 1 ==> Join(parts, sep) != ""
  {
    hide LowerHex;
    if |parts| > 1 {
      JoinChars(parts[1..], sep);
    }
  }

  lemma HexesPlain(groups: seq<nat>)
    ensures forall i :: 0 <= i < |Hexes(groups)| ==> forall c :: c in Hexes(groups)[i] ==> LowerHex(c) || c == ':'
  {
    hide Hex, LowerHex;
    forall i | 0 <= i < |Hexes(groups)| ensures forall c :: c in Hexes(groups)[i] ==> LowerHex(c) || c == ':' {
      HexFacts(groups[i]);
      forall c | c in Hex(groups[i]) ensures LowerHex(c) {
        var k :| 0 <= k < |Hex(groups[i])| && Hex(groups[i])[k] == c;
      }
    }
  }

  lemma PrintedIsPlain(n: nat)
    ensures var text := PrintV6(n);
            && Strip(text) == text && text != "" && '/' !in text && '%' !in text
            && forall c :: c in text ==> LowerHex(c) || c == ':'
  {
    var groups, text := Groups(n, 8), PrintV6(n);
    PartsArePlain(groups);
    PartsPlainChars(groups);
    hide PartsOf, Groups;
    JoinChars(PartsOf(groups), ":");
    hide Join;
    forall c | c in text ensures !IsSpace(c) && c != '/' && c != '%' { PlainChar(c); }
    StripFacts(text);
    assert text[0] in text && text[|text| - 1] in text;
  }

  lemma PartsPlainChars(groups: seq<nat>)
    requires |groups| == 8
    ensures forall i :: 0 <= i < |PartsOf(groups)| ==> forall c :: c in PartsOf(groups)[i] ==> LowerHex(c) || c == ':'
  {
    hide Hexes, LowerHex;
    HexesPlain(groups);
    var s := BestRun(groups, 0);
    var len := RunAt(groups, s);
    if len > 1 {
      hide RunAt, BestRun;
      HexesPlain(groups[..s]);
      HexesPlain(groups[s + len..]);
    }
  }

  /** A text is accepted exactly when it is the canonical text of some usable address. */
  lemma AcceptedExactly(text: string)
    ensures ProblemOf(Some(text)) == Fine <==> exists n :: Usable(n) && text == PrintV6(n)
  {
    hide PrintV6, ParseV6, Strip;
    if ProblemOf(Some(text)) == Fine {
      var n := ParseV6(text).value;
      ParsedV6Fits(text);
      assert Usable(n) && text == PrintV6(n);
    }
    forall n | Usable(n) && text == PrintV6(n) ensures ProblemOf(Some(text)) == Fine {
      V6RoundTrip(n);
      PrintedIsPlain(n);
    }
  }

  /** Every usable address has exactly one accepted text, so accepted texts are equal exactly when the
      addresses are: comparing them as strings is comparing addresses. */
  lemma OneSpelling(a: string, b: string)
    requires ProblemOf(Some(a)) == Fine && ProblemOf(Some(b)) == Fine
    ensures ParseV6(a).Some? && ParseV6(b).Some?
    ensures ParseV6(a) == ParseV6(b) <==> a == b
  {
    hide PrintV6, ParseV6, Strip;
  }

  lemma AdviceIsPrinted(text: string)
    requires ProblemOf(Some(text)).NotCanonical?
    ensures ParseV6(text).Some? && Usable(ParseV6(text).value)
    ensures ProblemOf(Some(text)).canonical == PrintV6(ParseV6(text).value)
  {
    hide PrintV6, ParseV6, Strip;
    ParsedV6Fits(text);
  }

  /** A refused spelling of a usable address is answered with the spelling that is accepted. */
  lemma AdviceIsAccepted(text: string)
    requires ProblemOf(Some(text)).NotCanonical?
    ensures ProblemOf(Some(ProblemOf(Some(text)).canonical)) == Fine
    ensures ParseV6(ProblemOf(Some(text)).canonical) == ParseV6(text)
  {
    hide PrintV6, ParseV6, ProblemOf;
    AdviceIsPrinted(text);
    var n := ParseV6(text).value;
    V6RoundTrip(n);
    AcceptedExactly(PrintV6(n));
  }
}
