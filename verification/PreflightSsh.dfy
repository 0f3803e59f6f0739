/** Whether a host's ssh accept list covers the address a run reaches it from. */
module PreflightSsh {
  import opened Text
  import opened Addresses
  import PublicIpv6

  datatype Address = V4(n: nat) | V6(n: nat)
  {
    function Width(): nat { if V4? then 32 else 128 }
    predicate Fits() { n < Pow2(Width()) }
  }

  /** A CIDR with its host bits cleared; the version is that of `base`. */
  datatype Network = Network(base: Address, prefix: nat)
  {
    predicate Fits() { prefix <= base.Width() && base.Fits() && base.n % Pow2(base.Width() - prefix) == 0 }
    function HostSize(): nat { if prefix <= base.Width() then Pow2(base.Width() - prefix) else 1 }
  }

  function Pow2(k: nat): (p: nat)
    ensures p > 0
  {
    if k == 0 then 1 else 2 * Pow2(k - 1)
  }

  // -------------------------------------------------------------------------
  // Reading addresses and networks
  // -------------------------------------------------------------------------

  function Before(s: string, c: char): string { s[..Find(s, c)] }

  /** `ipaddress.ip_address`. */
  function IpAddress(text: string): Option<Address> {
    match ParseV4(text)
    case Some(n) => Some(V4(n))
    case None => (match ParseV6(text) case Some(n) => Some(V6(n)) case None => None)
  }

  const MAPPED_TOP := 0xffff

  /** The IPv4 address inside an IPv4-mapped IPv6 one. */
  function Unwrapped(a: Address): Address {
    if a.V6? && a.n / V4_SIZE == MAPPED_TOP then V4(a.n % V4_SIZE) else a
  }

  /** `_address`: the zone is dropped, an IPv4-mapped address is the IPv4 address. */
  function AddressOf(value: string): Option<Address> {
    match IpAddress(Before(Strip(value), '%')) case Some(a) => Some(Unwrapped(a)) case None => None
  }

  /** The prefix length whose netmask is `m`, tried from `p` on. */
  function MaskPrefix(m: nat, p: nat): (r: Option<nat>)
    ensures r.Some? ==> r.value <= 32
    decreases 33 - p
  {
    if p > 32 then None
    else if m == V4_SIZE - Pow2(32 - p) then Some(p)
    else MaskPrefix(m, p + 1)
  }

  function DigitsPrefix(s: string, width: nat): (r: Option<nat>)
    ensures r.Some? ==> r.value <= width
  {
    if AllDigits(s) && DecimalValue(s) <= width then Some(DecimalValue(s)) else None
  }

  /** A prefix length, a netmask or a host mask. */
  function V4Prefix(s: string): (r: Option<nat>)
    ensures r.Some? ==> r.value <= 32
  {
    if DigitsPrefix(s, 32).Some? then DigitsPrefix(s, 32)
    else
      match ParseV4(s)
      case None => None
      case Some(m) => if MaskPrefix(m, 0).Some? then MaskPrefix(m, 0) else MaskPrefix(V4_SIZE - 1 - m, 0)
  }

  /** An IPv6 address with the zone it may carry. */
  function ScopedV6(s: string): Option<nat> {
    var addr := Before(s, '%');
    if |addr| == |s| then ParseV6(s)
    else
      var zone := s[|addr| + 1..];
      if zone == "" || '%' in zone then None else ParseV6(addr)
  }

  function Masked(a: Address, prefix: nat): Network
    requires prefix <= a.Width()
  {
    var host := Pow2(a.Width() - prefix);
    Network(if a.V4? then V4(Cleared(a.n, host)) else V6(Cleared(a.n, host)), prefix)
  }

  /** `n` with the bits below `host`, a power of two, cleared. */
  function Cleared(n: nat, host: nat): (r: nat)
    requires host > 0
    ensures r <= n && r == n / host * host
  {
    assert n == n / host * host + n % host;
    n - n % host
  }

  function V4Network(parts: seq<string>): Option<Network>
    requires 1 <= |parts| <= 2
  {
    var prefix := if |parts| == 1 then Some(32) else V4Prefix(parts[1]);
    var n := ParseV4(parts[0]);
    if n.Some? && prefix.Some? then Some(Masked(V4(n.value), prefix.value)) else None
  }

  function V6Network(parts: seq<string>): Option<Network>
    requires 1 <= |parts| <= 2
  {
    var prefix := if |parts| == 1 then Some(128) else DigitsPrefix(parts[1], 128);
    var n := ScopedV6(parts[0]);
    if n.Some? && prefix.Some? then Some(Masked(V6(n.value), prefix.value)) else None
  }

  /** `_network`: an address or a CIDR, host bits allowed. */
  function NetworkOf(value: string): Option<Network> {
    var parts := Split(Strip(value), '/');
    if |parts| > 2 then None
    else if V4Network(parts).Some? then V4Network(parts)
    else V6Network(parts)
  }

  // -------------------------------------------------------------------------
  // Membership
  // -------------------------------------------------------------------------

  predicate SameVersion(net: Network, a: Address) { net.base.V4? == a.V4? }

  /** `address in network`: equal after the host bits are masked off. */
  predicate Holds(net: Network, a: Address) { SameVersion(net, a) && Cleared(a.n, net.HostSize()) == net.base.n }

  lemma MaskFacts(n: nat, k: nat)
    requires k > 0
    ensures Cleared(n, k) % k == 0 && Cleared(n, k) == n / k * k
    ensures n % k == 0 ==> n / k * k == n
  {
    MultipleMod(n / k, k);
  }

  lemma MultipleMod(a: nat, k: nat)
    requires k > 0
    ensures a * k % k == 0
  {
    var x := a * k;
    SameQuotient(x, a, k);
    assert x == x / k * k + x % k;
  }

  lemma SameQuotient(n: nat, b: nat, k: nat)
    requires k > 0
    ensures n / k == b <==> b * k <= n < b * k + k
    ensures n / k == b <==> n / k * k == b * k
  {
    var q, r := n / k, n % k;
    assert n == q * k + r && 0 <= r < k;
    if q < b {
      assert (q + 1) * k <= b * k;
    } else if b < q {
      assert (b + 1) * k <= q * k;
    }
  }

  /** Membership by masking, by the integer interval and by the leading bits are one thing. */
  lemma HoldsExactly(net: Network, a: Address)
    requires net.Fits() && SameVersion(net, a)
    ensures Holds(net, a) <==> net.base.n <= a.n <= net.base.n + net.HostSize() - 1
    ensures Holds(net, a) <==> a.n / net.HostSize() == net.base.n / net.HostSize()
  {
    hide Pow2;
    var k := net.HostSize();
    MaskFacts(a.n, k);
    MaskFacts(net.base.n, k);
    SameQuotient(a.n, net.base.n / k, k);
  }

  lemma MaskedFits(a: Address, prefix: nat)
    requires prefix <= a.Width() && a.Fits()
    ensures Masked(a, prefix).Fits() && Holds(Masked(a, prefix), a) && Masked(a, prefix).prefix == prefix
  {
    hide Pow2;
    MaskFacts(a.n, Pow2(a.Width() - prefix));
  }

  lemma Pow2Eight(k: nat, p: nat)
    requires Pow2(k) == p
    ensures Pow2(k + 8) == 256 * p
  {
    assert Pow2(k + 2) == 4 * p;
    assert Pow2(k + 4) == 16 * p;
    assert Pow2(k + 6) == 64 * p;
  }

  lemma WidthSizes()
    ensures Pow2(32) == V4_SIZE && Pow2(128) == V6_SIZE
  {
    Pow2Eight(0, 1);
    hide Pow2;
    Pow2Eight(8, 0x100);
    Pow2Eight(16, 0x1_0000);
    Pow2Eight(24, 0x100_0000);
    Pow2Eight(32, V4_SIZE);
    Pow2Eight(40, 0x100_0000_0000);
    Pow2Eight(48, 0x1_0000_0000_0000);
    Pow2Eight(56, 0x100_0000_0000_0000);
    Pow2Eight(64, 0x1_0000_0000_0000_0000);
    Pow2Eight(72, 0x100_0000_0000_0000_0000);
    Pow2Eight(80, 0x1_0000_0000_0000_0000_0000);
    Pow2Eight(88, 0x100_0000_0000_0000_0000_0000);
    Pow2Eight(96, 0x1_0000_0000_0000_0000_0000_0000);
    Pow2Eight(104, 0x100_0000_0000_0000_0000_0000_0000);
    Pow2Eight(112, 0x1_0000_0000_0000_0000_0000_0000_0000);
    Pow2Eight(120, 0x100_0000_0000_0000_0000_0000_0000_0000);
  }

  lemma NetworksFit(value: string)
    ensures NetworkOf(value).Some? ==> NetworkOf(value).value.Fits()
  {
    hide ParseV6, ParseV4, V4Prefix, DigitsPrefix, Strip;
    var parts := Split(Strip(value), '/');
    if |parts| <= 2 {
      V4NetworkFits(parts);
      V6NetworkFits(parts);
    }
  }

  lemma V4NetworkFits(parts: seq<string>)
    requires 1 <= |parts| <= 2
    ensures V4Network(parts).Some? ==> V4Network(parts).value.Fits()
  {
    hide ParseV4, V4Prefix, Pow2, Masked;
    WidthSizes();
    if V4Network(parts).Some? {
      MaskedFits(V4(ParseV4(parts[0]).value), if |parts| == 1 then 32 else V4Prefix(parts[1]).value);
    }
  }

  lemma V6NetworkFits(parts: seq<string>)
    requires 1 <= |parts| <= 2
    ensures V6Network(parts).Some? ==> V6Network(parts).value.Fits()
  {
    hide ParseV6, DigitsPrefix, Pow2, Masked, Find;
    WidthSizes();
    ParsedV6Fits(parts[0]);
    ParsedV6Fits(Before(parts[0], '%'));
    if V6Network(parts).Some? {
      MaskedFits(V6(ScopedV6(parts[0]).value), if |parts| == 1 then 128 else DigitsPrefix(parts[1], 128).value);
    }
  }

  // -------------------------------------------------------------------------
  // Covered
  // -------------------------------------------------------------------------

  const LOOPBACK := ["127.0.0.0/8", "::1/128"]

  predicate EntryHolds(entry: string, a: Address) { NetworkOf(entry).Some? && Holds(NetworkOf(entry).value, a) }

  predicate AnyHolds(entries: seq<string>, a: Address) {
    exists i :: 0 <= i < |entries| && EntryHolds(entries[i], a)
  }

  predicate Covered(source: string, allow: seq<string>, also: seq<string>) {
    allow == [] || (AddressOf(source).Some? && AnyHolds(allow + also + LOOPBACK, AddressOf(source).value))
  }

  /** `preflight_ssh_covered`. */
  method SshCovered(source: string, allow: seq<string>, also: seq<string>) returns (covered: bool)
    ensures covered == Covered(source, allow, also)
  {
    hide NetworkOf, AddressOf, Holds;
    if allow == [] {
      return true;
    }
    var address := AddressOf(source);
    if address.None? {
      return false;
    }
    var entries := allow + also + LOOPBACK;
    for i := 0 to |entries|
      invariant forall k :: 0 <= k < i ==> !EntryHolds(entries[k], address.value)
    {
      var network := NetworkOf(entries[i]);
      if network.Some? && Holds(network.value, address.value) {
        return true;
      }
    }
    return false;
  }

  /** A source is covered by a list that is not empty exactly when some network of its own version in
      the list, the peers or loopback has it within its integer interval. */
  lemma CoveredExactly(source: string, allow: seq<string>, also: seq<string>)
    requires allow != []
    ensures Covered(source, allow, also) <==>
            AddressOf(source).Some? && exists entry, net ::
                Within(entry, net, allow + also + LOOPBACK, AddressOf(source).value)
  {
    hide NetworkOf, AddressOf, Holds;
    if AddressOf(source).Some? {
      var a, entries := AddressOf(source).value, allow + also + LOOPBACK;
      forall entry | entry in entries && NetworkOf(entry).Some?
        ensures EntryHolds(entry, a) <==> Within(entry, NetworkOf(entry).value, entries, a)
      {
        NetworksFit(entry);
        var net := NetworkOf(entry).value;
        if SameVersion(net, a) {
          HoldsExactly(net, a);
        } else {
          OtherVersion(net, a);
        }
      }
    }
  }

  lemma OtherVersion(net: Network, a: Address)
    ensures !SameVersion(net, a) ==> !Holds(net, a)
  {
  }

  ghost predicate Within(entry: string, net: Network, entries: seq<string>, a: Address) {
    && entry in entries && NetworkOf(entry) == Some(net) && SameVersion(net, a)
    && net.base.n <= a.n <= net.base.n + net.HostSize() - 1
  }

  /** Adding entries to a list that is not empty never uncovers a source; adding one to the empty list
      can, because the empty list accepts everything. */
  lemma CoveredGrows(source: string, allow: seq<string>, more: seq<string>, also: seq<string>)
    requires forall e :: e in allow ==> e in more
    ensures Covered(source, allow, also) && allow != [] ==> Covered(source, more, also)
    ensures allow == [] ==> Covered(source, allow, also)
  {
    hide EntryHolds, AddressOf;
    if Covered(source, allow, also) && allow != [] {
      assert allow[0] in more;
      var a, entries := AddressOf(source).value, allow + also + LOOPBACK;
      var i :| 0 <= i < |entries| && EntryHolds(entries[i], a);
      assert entries[i] in more + also + LOOPBACK;
    }
  }

  /** `preflight_ssh_unparsed`, as a filter. */
  function Unparsed(entries: seq<string>): seq<string> {
    if entries == [] then [] else (if NetworkOf(entries[0]).None? then [entries[0]] else []) + Unparsed(entries[1..])
  }

  function Parsed(entries: seq<string>): seq<string> {
    if entries == [] then [] else (if NetworkOf(entries[0]).None? then [] else [entries[0]]) + Parsed(entries[1..])
  }

  lemma {:induction false} UnparsedExactly(entries: seq<string>)
    ensures forall e :: e in Unparsed(entries) <==> e in entries && NetworkOf(e).None?
    ensures forall e :: e in Parsed(entries) <==> e in entries && NetworkOf(e).Some?
  {
    hide NetworkOf;
    if entries != [] {
      UnparsedExactly(entries[1..]);
      assert entries == [entries[0]] + entries[1..];
    }
  }

  /** Dropping the entries that cannot be read changes nothing, except where it empties the list: then
      every source is covered, and only the ones the peers or loopback hold were before. */
  lemma DroppingUnparsedExactly(source: string, allow: seq<string>, also: seq<string>)
    ensures Covered(source, Parsed(allow), also) == Covered(source, allow, also) <==>
            || Parsed(allow) != [] || allow == []
            || (AddressOf(source).Some? && AnyHolds(also + LOOPBACK, AddressOf(source).value))
  {
    hide NetworkOf, AddressOf, Holds, Parsed;
    UnparsedExactly(allow);
    assert allow == [] ==> Parsed(allow) == [] by { ParsedOfEmpty(); }
    if AddressOf(source).Some? {
      var a := AddressOf(source).value;
      AnyHoldsIn(allow + also + LOOPBACK, a);
      AnyHoldsIn(Parsed(allow) + also + LOOPBACK, a);
      AnyHoldsIn(also + LOOPBACK, a);
      InThree(allow, also, LOOPBACK);
      InThree(Parsed(allow), also, LOOPBACK);
      hide AnyHolds;
      assert forall e :: EntryHolds(e, a) ==> NetworkOf(e).Some?;
    }
  }

  lemma ParsedOfEmpty()
    ensures Parsed([]) == []
  {
  }

  lemma AnyHoldsIn(entries: seq<string>, a: Address)
    ensures AnyHolds(entries, a) <==> exists e :: e in entries && EntryHolds(e, a)
  {
    hide EntryHolds;
    if AnyHolds(entries, a) {
      var i :| 0 <= i < |entries| && EntryHolds(entries[i], a);
      assert entries[i] in entries;
    }
  }

  lemma InThree(a: seq<string>, b: seq<string>, c: seq<string>)
    ensures forall e :: e in a + b + c <==> e in a || e in b || e in c
    ensures forall e :: e in b + c <==> e in b || e in c
  {
  }

  // -------------------------------------------------------------------------
  // IPv4-mapped sources
  // -------------------------------------------------------------------------

  const MAPPED_LEAD := "::ffff:"

  predicate InSome(c: char, parts: seq<string>) { exists i :: 0 <= i < |parts| && c in parts[i] }

  lemma {:induction false} SplitHas(s: string, sep: char)
    ensures forall c :: c in s && c != sep ==> InSome(c, Split(s, sep))
  {
    if s != "" {
      SplitHas(s[1..], sep);
      forall c | c in s && c != sep ensures InSome(c, Split(s, sep)) {
        var rest, all := Split(s[1..], sep), Split(s, sep);
        assert s[0] != sep ==> all[0] == [s[0]] + rest[0];
        if c == s[0] {
          assert c in all[0];
        } else {
          assert s == [s[0]] + s[1..];
          assert c in s[1..];
          var i :| 0 <= i < |rest| && c in rest[i];
          assert s[0] == sep ==> c in all[i + 1];
          assert s[0] != sep ==> c in all[i];
        }
      }
    }
  }

  lemma V4Chars(s: string)
    requires ParseV4(s).Some?
    ensures forall c :: c in s ==> IsDigit(c) || c == '.'
    ensures '.' in s
  {
    hide DecimalValue;
    SplitHas(s, '.');
    var parts := Split(s, '.');
    forall c | c in s && c != '.' ensures IsDigit(c) {
      var i :| 0 <= i < |parts| && c in parts[i];
      assert ParseOctet(parts[i]).Some?;
      var k :| 0 <= k < |parts[i]| && parts[i][k] == c;
    }
  }

  lemma MappedNotV4(s: string)
    ensures ParseV4(MAPPED_LEAD + s).None?
  {
    hide ParseV4;
    var text := MAPPED_LEAD + s;
    assert text[0] in text && text[0] == ':';
    if ParseV4(text).Some? {
      V4Chars(text);
    }
  }

  lemma SplitMapped(s: string)
    requires ':' !in s
    ensures Split(MAPPED_LEAD + s, ':') == ["", "", "ffff", s]
  {
    hide Split;
    var a := "ffff" + [':'] + s;
    assert MAPPED_LEAD + s == "" + [':'] + ("" + [':'] + a);
    SplitCons("", ':', "" + [':'] + a);
    SplitCons("", ':', a);
    SplitCons("ffff", ':', s);
    assert Split(s, ':') == [s] by { NoSeparator(s); }
  }

  lemma NoSeparator(s: string)
    requires ':' !in s
    ensures Split(s, ':') == [s]
  {
  }

  lemma FfffGroup()
    ensures ParseGroup("ffff") == Some(MAPPED_TOP)
  {
    assert "ffff"[..3] == "fff" && "fff"[..2] == "ff" && "ff"[..1] == "f" && "f"[..0] == "";
    assert HexValue("f") == 15;
    assert HexValue("ff") == 255;
    assert HexValue("fff") == 4095;
  }

  lemma ParsedMapped(s: string, n: nat)
    requires ParseV4(s) == Some(n)
    ensures ReadGroups(MAPPED_LEAD + s) == Some(Zeros(5) + [MAPPED_TOP, n / GROUP, n % GROUP])
  {
    hide ParseV4, Split, Hex, ParseGroup;
    V4Chars(s);
    SplitMapped(s);
    var h, l := Hex(n / GROUP), Hex(n % GROUP);
    GroupBack(n / GROUP);
    GroupBack(n % GROUP);
    FfffGroup();
    var parts := ["", "", "ffff", h, l];
    var given := ["", "", "ffff", s];
    assert given[..3] + [h, l] == parts;
    assert WithSuffix(given) == Some(parts);
    GapFound(parts, 1, 1);
    NoGap(parts, 2);
    assert parts[2..] == ["ffff", h, l];
    ThreeGroups("ffff", h, l);
    NoGroups();
    assert [] + Zeros(5) + [MAPPED_TOP, n / GROUP, n % GROUP] == Zeros(5) + [MAPPED_TOP, n / GROUP, n % GROUP];
  }

  lemma GroupsSnoc(parts: seq<string>, last: string)
    requires ParseGroups(parts).Some? && ParseGroup(last).Some?
    ensures ParseGroups(parts + [last]) == Some(ParseGroups(parts).value + [ParseGroup(last).value])
  {
    hide ParseGroup;
    assert (parts + [last])[..|parts|] == parts;
  }

  lemma ThreeGroups(a: string, b: string, c: string)
    requires ParseGroup(a).Some? && ParseGroup(b).Some? && ParseGroup(c).Some?
    ensures ParseGroups([a, b, c]) == Some([ParseGroup(a).value, ParseGroup(b).value, ParseGroup(c).value])
  {
    NoGroups();
    hide ParseGroup, ParseGroups;
    GroupsSnoc([], a);
    GroupsSnoc([] + [a], b);
    GroupsSnoc([] + [a] + [b], c);
    assert [] + [a] + [b] + [c] == [a, b, c];
    var x, y, z := ParseGroup(a).value, ParseGroup(b).value, ParseGroup(c).value;
    var none: seq<nat> := [];
    assert none + [x] + [y] + [z] == [x, y, z];
  }

  lemma NumberSnoc(groups: seq<nat>, last: nat)
    ensures Number(groups + [last]) == Number(groups) * GROUP + last
  {
    assert (groups + [last])[..|groups|] == groups;
  }

  lemma MappedNumber(n: nat)
    requires n < V4_SIZE
    ensures Number(Zeros(5) + [MAPPED_TOP, n / GROUP, n % GROUP]) == MAPPED_TOP * V4_SIZE + n
  {
    var z := Zeros(5);
    ZeroNumber(5);
    NumberSnoc(z, MAPPED_TOP);
    NumberSnoc(z + [MAPPED_TOP], n / GROUP);
    NumberSnoc(z + [MAPPED_TOP] + [n / GROUP], n % GROUP);
    assert z + [MAPPED_TOP] + [n / GROUP] + [n % GROUP] == z + [MAPPED_TOP, n / GROUP, n % GROUP];
  }

  lemma {:induction false} ZeroNumber(count: nat)
    ensures Number(Zeros(count)) == 0
  {
    if count > 0 {
      assert Zeros(count)[..count - 1] == Zeros(count - 1);
      ZeroNumber(count - 1);
    }
  }

  /** An IPv4-mapped source is the IPv4 source: the same address, covered by the same lists. */
  lemma MappedIsTheSame(s: string, n: nat, allow: seq<string>, also: seq<string>)
    requires ParseV4(s) == Some(n)
    ensures AddressOf(s) == Some(V4(n)) == AddressOf(MAPPED_LEAD + s)
    ensures Covered(MAPPED_LEAD + s, allow, also) == Covered(s, allow, also)
  {
    hide ParseV4, ReadGroups, Number, AnyHolds, Strip;
    V4Chars(s);
    var text := MAPPED_LEAD + s;
    PlainSource(s);
    PlainSource(text);
    MappedNotV4(s);
    ParsedMapped(s, n);
    MappedNumber(n);
    hide Find;
  }

  lemma PlainSource(s: string)
    requires s != "" && forall c :: c in s ==> IsDigit(c) || c == '.' || c == ':' || c == 'f'
    ensures Before(Strip(s), '%') == s
  {
    assert s[0] in s && s[|s| - 1] in s;
    assert !IsSpace('.') && !IsSpace(':') && !IsSpace('f');
    DigitsAreNoSpace();
    StripFacts(s);
    hide Strip, IsSpace;
    FindFacts(s, '%');
  }

  lemma DigitsAreNoSpace()
    ensures forall c :: IsDigit(c) ==> !IsSpace(c)
  {
  }

  lemma {:induction false} RStripKeeps(s: string, i: nat)
    requires i < |s| && !IsSpace(s[i])
    ensures RStrip(s) <= s && i < |RStrip(s)|
  {
    hide IsSpace;
    if IsSpace(s[|s| - 1]) {
      RStripKeeps(s[..|s| - 1], i);
    }
  }

  lemma ZoneCut(s: string, zone: string)
    requires s != "" && Trimmed(s) && '%' !in s
    ensures Before(Strip(s + "%" + zone), '%') == s
  {
    var text := s + "%" + zone;
    assert text[0] == s[0] && text[|s|] == '%' && !IsSpace('%');
    hide IsSpace;
    RStripKeeps(text, |s|);
    hide RStrip;
    assert LStrip(text) == text;
    var kept := Strip(text);
    var rest := kept[|s| + 1..];
    assert kept == s + ['%'] + rest;
    FindFirst(s, '%', rest);
  }

  lemma NothingCut(s: string)
    requires Trimmed(s) && '%' !in s
    ensures Before(Strip(s), '%') == s
  {
    StripFacts(s);
    FindFacts(s, '%');
    hide Strip, Find;
  }

  /** A zone index does not change which address a source is. */
  lemma ZoneIsDropped(s: string, zone: string)
    requires s != "" && Trimmed(s) && '%' !in s
    ensures AddressOf(s + "%" + zone) == AddressOf(s)
  {
    hide IpAddress, Strip, Before, Trimmed;
    ZoneCut(s, zone);
    NothingCut(s);
  }

  // -------------------------------------------------------------------------
  // How a network may be written
  // -------------------------------------------------------------------------

  lemma {:induction false} Pow2Grows(a: nat, b: nat)
    requires a < b
    ensures Pow2(a) < Pow2(b) && Pow2(b) % 2 == 0
  {
    if a < b - 1 {
      Pow2Grows(a, b - 1);
    }
  }

  function Netmask(p: nat): (m: nat)
    requires p <= 32
    ensures m == V4_SIZE - Pow2(32 - p) && m < V4_SIZE
  {
    WidthSizes();
    if p > 0 then
      Pow2Grows(32 - p, 32);
      V4_SIZE - Pow2(32 - p)
    else 0
  }

  lemma {:induction false} NetmaskFound(p: nat, q: nat)
    requires q <= p <= 32
    ensures MaskPrefix(Netmask(p), q) == Some(p)
    decreases p - q
  {
    hide Pow2;
    if q < p {
      Pow2Grows(32 - p, 32 - q);
      NetmaskFound(p, q + 1);
    }
  }

  /** The bits a netmask leaves: a host mask. */
  function Hostmask(p: nat): nat
    requires p <= 32
  {
    Pow2(32 - p) - 1
  }

  lemma {:induction false} HostmaskIsNoNetmask(p: nat, q: nat)
    requires 0 < p < 32 && q <= 33
    ensures MaskPrefix(Hostmask(p), q).None?
    decreases 33 - q
  {
    hide Pow2;
    if q <= 32 {
      WidthSizes();
      Pow2Grows(0, 32 - p);
      Pow2Grows(32 - p, 32);
      assert Pow2(0) == 1 by { NoBits(); }
      if q < 32 {
        Pow2Grows(0, 32 - q);
      }
      HostmaskIsNoNetmask(p, q + 1);
    }
  }

  lemma NoBits()
    ensures Pow2(0) == 1
  {
  }

  /** The three ways to write a prefix length: digits, a netmask, or a host mask that is no netmask. */
  ghost predicate WritesPrefix(mask: string, p: nat)
    requires p <= 32
  {
    mask == DecimalNat(p) || mask == PrintV4(Netmask(p)) || (0 < p < 32 && mask == PrintV4(Hostmask(p)))
  }

  lemma DigitsBack(p: nat, width: nat)
    requires p <= width
    ensures DigitsPrefix(DecimalNat(p), width) == Some(p) && forall c :: c in DecimalNat(p) ==> IsDigit(c)
  {
    DecimalFacts(p);
    hide DecimalNat, DecimalValue;
    forall c | c in DecimalNat(p) ensures IsDigit(c) {
      var i :| 0 <= i < |DecimalNat(p)| && DecimalNat(p)[i] == c;
    }
  }

  lemma DottedIsNoNumber(m: nat)
    requires m < V4_SIZE
    ensures DigitsPrefix(PrintV4(m), 32).None? && forall c :: c in PrintV4(m) ==> IsDigit(c) || c == '.'
  {
    hide PrintV4, ParseV4, DecimalValue;
    V4RoundTrip(m);
    V4Chars(PrintV4(m));
    var i :| 0 <= i < |PrintV4(m)| && PrintV4(m)[i] == '.';
    assert !IsDigit('.');
  }

  lemma PrefixReads(mask: string, p: nat)
    requires p <= 32 && WritesPrefix(mask, p)
    ensures V4Prefix(mask) == Some(p) && forall c :: c in mask ==> IsDigit(c) || c == '.'
  {
    hide DecimalNat, PrintV4, ParseV4, MaskPrefix, DigitsPrefix, Pow2;
    if mask == DecimalNat(p) {
      DigitsBack(p, 32);
    } else if mask == PrintV4(Netmask(p)) {
      DottedIsNoNumber(Netmask(p));
      V4RoundTrip(Netmask(p));
      NetmaskFound(p, 0);
    } else {
      HostFits(p);
      DottedIsNoNumber(Hostmask(p));
      V4RoundTrip(Hostmask(p));
      HostmaskIsNoNetmask(p, 0);
      NetmaskFound(p, 0);
    }
  }

  lemma HostFits(p: nat)
    requires p <= 32
    ensures Hostmask(p) < V4_SIZE && Netmask(p) == V4_SIZE - 1 - Hostmask(p)
  {
    var m := Netmask(p);
    assert m == V4_SIZE - Pow2(32 - p);
  }

  lemma SplitAtSlash(a: string, b: string)
    requires a != "" && '/' !in a && '/' !in b && forall c :: c in a + "/" + b ==> !IsSpace(c)
    ensures Split(Strip(a + "/" + b), '/') == [a, b]
  {
    var s := a + "/" + b;
    assert s[0] in s && s[|s| - 1] in s;
    StripFacts(s);
    hide Strip, Split, IsSpace;
    assert s == a + ['/'] + b;
    SplitCons(a, '/', b);
    OnePart(b);
  }

  lemma OnePart(s: string)
    requires '/' !in s
    ensures Split(s, '/') == [s]
  {
  }

  /** One network, however its mask is written. */
  lemma CidrReads(n: nat, p: nat, mask: string)
    requires n < V4_SIZE && p <= 32 && WritesPrefix(mask, p)
    ensures NetworkOf(PrintV4(n) + "/" + mask) == Some(Masked(V4(n), p))
  {
    hide WritesPrefix, PrintV4, ParseV4, Masked, V4Prefix, Pow2, Strip, Split;
    PrefixReads(mask, p);
    V4RoundTrip(n);
    DottedIsNoNumber(n);
    DigitsAreNoSpace();
    assert !IsSpace('.') && !IsSpace('/');
    V4Chars(PrintV4(n));
    assert '.' in PrintV4(n) && PrintV4(n) != "";
    hide IsSpace, IsDigit;
    assert !IsDigit('/') by { SlashIsNoDigit(); }
    SplitAtSlash(PrintV4(n), mask);
  }

  lemma SlashIsNoDigit()
    ensures !IsDigit('/')
  {
  }

  lemma Cidr6Reads(n: nat, p: nat)
    requires n < V6_SIZE && p <= 128
    ensures NetworkOf(PrintV6(n) + "/" + DecimalNat(p)) == Some(Masked(V6(n), p))
  {
    hide PrintV6, ParseV6, Masked, Pow2, Strip, Split, DecimalNat, DigitsPrefix;
    DigitsBack(p, 128);
    V6RoundTrip(n);
    PublicIpv6.PrintedIsPlain(n);
    forall c | LowerHex(c) || c == ':' || c == '/' ensures !IsSpace(c) && c != '.' {}
    hide IsSpace, LowerHex;
    SplitAtSlash(PrintV6(n), DecimalNat(p));
    NoDotNoV4(PrintV6(n));
    hide ParseV4;
    FindFacts(PrintV6(n), '%');
    hide Find;
  }

  lemma NoDotNoV4(s: string)
    requires '.' !in s
    ensures ParseV4(s).None?
  {
  }

  // -------------------------------------------------------------------------
  // What an entry is, whatever its text
  // -------------------------------------------------------------------------

  /** Digits, read as a number that fits. */
  lemma DigitsPrefixExactly(text: string, width: nat, p: nat)
    ensures DigitsPrefix(text, width) == Some(p) <==> AllDigits(text) && DecimalValue(text) == p && p <= width
  {
  }

  /** A prefix length is given by its digits, leading zeros allowed, by its netmask, or by its host mask. */
  lemma V4PrefixExactly(text: string, p: nat)
    ensures V4Prefix(text) == Some(p) <==>
            p <= 32 && ((AllDigits(text) && DecimalValue(text) == p) || text == PrintV4(Netmask(p))
                        || (0 < p < 32 && text == PrintV4(Hostmask(p))))
  {
    hide MaskPrefix, ParseV4, PrintV4, DecimalValue, Pow2, AllDigits;
    if p <= 32 {
      DottedIsNoNumber(Netmask(p));
      HostFits(p);
      DottedIsNoNumber(Hostmask(p));
      V4RoundTrip(Netmask(p));
      V4RoundTrip(Hostmask(p));
      NetmaskFound(p, 0);
      if 0 < p < 32 {
        HostmaskIsNoNetmask(p, 0);
      }
    }
    match ParseV4(text)
    case None =>
    case Some(m) =>
      V4Exactly(text, m);
      DottedIsNoNumber(m);
      if V4Prefix(text) == Some(p) {
        MaskIsKnown(m, p);
      }
  }

  lemma MaskIsKnown(m: nat, p: nat)
    requires m < V4_SIZE && p <= 32
    ensures MaskPrefix(m, 0) == Some(p) ==> m == Netmask(p)
    ensures MaskPrefix(m, 0).None? && MaskPrefix(V4_SIZE - 1 - m, 0) == Some(p) ==> 0 < p < 32 && m == Hostmask(p)
  {
    hide Pow2;
    FoundMask(m, 0);
    FoundMask(V4_SIZE - 1 - m, 0);
    if MaskPrefix(m, 0).None? && MaskPrefix(V4_SIZE - 1 - m, 0) == Some(p) {
      HostFits(p);
      NoBits();
      WidthSizes();
      NetmaskFound(32, 0);
      NetmaskFound(0, 0);
    }
  }

  lemma {:induction false} FoundMask(m: nat, q: nat)
    ensures MaskPrefix(m, q).Some? ==> m == Netmask(MaskPrefix(m, q).value)
    decreases 33 - q
  {
    hide Pow2;
    if q <= 32 {
      FoundMask(m, q + 1);
    }
  }

  /** An entry without a slash is one address; one with a slash an address and a prefix length; more
      slashes make it neither. */
  lemma EntryExactly(text: string, a: string, b: string)
    requires Trimmed(text)
    ensures '/' !in text ==>
              NetworkOf(text) == (match ParseV4(text)
                                  case Some(n) => Some(Masked(V4(n), 32))
                                  case None =>
                                    match ScopedV6(text) case Some(n) => Some(Masked(V6(n), 128)) case None => None)
    ensures text == a + "/" + b && '/' !in a && '/' !in b ==>
              && (ParseV4(a).Some? && V4Prefix(b).Some? ==>
                    NetworkOf(text) == Some(Masked(V4(ParseV4(a).value), V4Prefix(b).value)))
              && (ParseV4(a).None? || V4Prefix(b).None? ==>
                    NetworkOf(text) == if ScopedV6(a).Some? && DigitsPrefix(b, 128).Some?
                                       then Some(Masked(V6(ScopedV6(a).value), DigitsPrefix(b, 128).value)) else None)
    ensures text == a + "/" + b && '/' !in a && '/' in b ==> NetworkOf(text).None?
  {
    StripFacts(text);
    hide Strip, Split, ParseV4, V4Prefix, ScopedV6, DigitsPrefix, Masked;
    if '/' !in text {
      OnePart(text);
    }
    if text == a + "/" + b && '/' !in a {
      assert text == a + ['/'] + b;
      SplitCons(a, '/', b);
      if '/' !in b {
        OnePart(b);
      } else {
        TwoParts(b);
      }
    }
  }

  lemma TwoParts(s: string)
    ensures |Split(s, '/')| >= 2 <==> '/' in s
  {
    JoinSplit(s, '/');
    if |Split(s, '/')| == 1 {
      assert Split(s, '/')[0] == s;
    }
  }

  /** A zone belongs to the address it follows, unless it is empty or not the only one. */
  lemma ScopedExactly(addr: string, zone: string)
    requires '%' !in addr
    ensures ScopedV6(addr) == ParseV6(addr)
    ensures ScopedV6(addr + "%" + zone) == if zone == "" || '%' in zone then None else ParseV6(addr)
  {
    hide ParseV6;
    FindFacts(addr, '%');
    var s := addr + "%" + zone;
    assert s == addr + ['%'] + zone;
    FindFirst(addr, '%', zone);
    hide Find;
    assert s[..|addr|] == addr && s[|addr| + 1..] == zone;
  }

  lemma OneHost(a: Address)
    ensures Masked(a, a.Width()) == Network(a, a.Width()) && Network(a, a.Width()).HostSize() == 1
    ensures forall b: Address :: Holds(Network(a, a.Width()), b) <==> b == a
  {
    NoBits();
    forall n: nat ensures Cleared(n, 1) == n { assert n / 1 * 1 == n; }
  }

  /** A bare address in the list is that one host. */
  lemma BareV4Reads(n: nat)
    requires n < V4_SIZE
    ensures NetworkOf(PrintV4(n)) == Some(Network(V4(n), 32))
    ensures forall a: Address :: EntryHolds(PrintV4(n), a) <==> a == V4(n)
  {
    DottedIsNoNumber(n);
    V4RoundTrip(n);
    V4Chars(PrintV4(n));
    DigitsAreNoSpace();
    assert !IsSpace('.') && !IsDigit('/');
    hide PrintV4, ParseV4, IsSpace, IsDigit, NetworkOf, Masked, Holds;
    var s := PrintV4(n);
    assert s[0] in s && s[|s| - 1] in s;
    EntryExactly(s, "", "");
    OneHost(V4(n));
  }

  lemma BareV6Reads(n: nat)
    requires n < V6_SIZE
    ensures NetworkOf(PrintV6(n)) == Some(Network(V6(n), 128))
    ensures forall a: Address :: EntryHolds(PrintV6(n), a) <==> a == V6(n)
  {
    V6RoundTrip(n);
    PublicIpv6.PrintedIsPlain(n);
    StripFacts(PrintV6(n));
    assert !LowerHex('.');
    hide PrintV6, ParseV6, LowerHex, NetworkOf, Masked, Holds, Strip, ScopedV6;
    var s := PrintV6(n);
    NoDotNoV4(s);
    hide ParseV4;
    ScopedExactly(s, "");
    EntryExactly(s, "", "");
    OneHost(V6(n));
  }

  /** An IPv4 entry with a prefix length holds the addresses of its block, and no other. */
  lemma CidrHolds(n: nat, p: nat, a: Address)
    requires n < V4_SIZE && p <= 32
    ensures var size := Pow2(32 - p);
            EntryHolds(PrintV4(n) + "/" + DecimalNat(p), a) <==>
              a.V4? && n / size * size <= a.n < n / size * size + size
  {
    hide *;
    PlainMask(p);
    CidrReads(n, p, DecimalNat(p));
    AddressWidth(n);
    MaskedHolds(V4(n), p, a);
    EntryOf(PrintV4(n) + "/" + DecimalNat(p), Masked(V4(n), p), a);
  }

  lemma Cidr6Holds(n: nat, p: nat, a: Address)
    requires n < V6_SIZE && p <= 128
    ensures var size := Pow2(128 - p);
            EntryHolds(PrintV6(n) + "/" + DecimalNat(p), a) <==>
              a.V6? && n / size * size <= a.n < n / size * size + size
  {
    hide *;
    Cidr6Reads(n, p);
    AddressWidth(n);
    MaskedHolds(V6(n), p, a);
    EntryOf(PrintV6(n) + "/" + DecimalNat(p), Masked(V6(n), p), a);
  }

  lemma AddressWidth(n: nat)
    ensures V4(n).Width() == 32 && V6(n).Width() == 128
    ensures V4(n).Fits() <==> n < V4_SIZE
    ensures V6(n).Fits() <==> n < V6_SIZE
  {
    WidthSizes();
    hide Pow2;
  }

  lemma MaskedHolds(b: Address, p: nat, a: Address)
    requires p <= b.Width() && b.Fits()
    ensures var size := Pow2(b.Width() - p);
            Holds(Masked(b, p), a) <==> a.V4? == b.V4? && b.n / size * size <= a.n < b.n / size * size + size
  {
    hide Pow2, Cleared;
    var net := Masked(b, p);
    MaskedFits(b, p);
    MaskFacts(b.n, Pow2(b.Width() - p));
    if SameVersion(net, a) {
      HoldsExactly(net, a);
    }
  }

  lemma EntryOf(entry: string, net: Network, a: Address)
    ensures NetworkOf(entry) == Some(net) ==> (EntryHolds(entry, a) <==> Holds(net, a))
  {
    hide NetworkOf, Holds;
  }

  lemma PlainMask(p: nat)
    requires p <= 32
    ensures WritesPrefix(DecimalNat(p), p)
  {
    hide DecimalNat;
  }

  /** What a source is: its own address, or the IPv4 one it maps. */
  lemma SourceExactly(text: string)
    requires Trimmed(text) && '%' !in text
    ensures AddressOf(text).None? <==> ParseV4(text).None? && ParseV6(text).None?
    ensures ParseV4(text).Some? ==> AddressOf(text) == Some(V4(ParseV4(text).value))
    ensures ParseV4(text).None? && ParseV6(text).Some? ==>
              var n := ParseV6(text).value;
              AddressOf(text)
              == Some(if 0xffff_0000_0000 <= n <= 0xffff_ffff_ffff then V4(n - 0xffff_0000_0000) else V6(n))
  {
    hide ParseV4, ParseV6;
    NothingCut(text);
    hide Strip, Before;
  }

  lemma SmallDecimals()
    ensures DecimalNat(0) == "0" && DecimalNat(8) == "8" && DecimalNat(127) == "127" && DecimalNat(128) == "128"
  {
    assert DecimalNat(12) == DecimalNat(1) + "2" && DecimalNat(1) == "1";
  }

  lemma LoopbackV4Text()
    ensures PrintV4(0x7f00_0000) + "/" + DecimalNat(8) == LOOPBACK[0]
  {
    QuadOfLoopback();
    SpelledLoopback();
    hide *;
    SmallDecimals();
    QuadReads(127, 0, 0, 0);
  }

  lemma QuadOfLoopback()
    ensures Quad(127, 0, 0, 0) == 0x7f00_0000
  {
  }

  lemma SpelledLoopback()
    ensures "127" + "." + "0" + "." + "0" + "." + "0" + "/" + "8" == LOOPBACK[0]
    ensures "::1" + "/" + "128" == LOOPBACK[1]
  {
  }

  lemma LoopbackV6Text()
    ensures PrintV6(1) + "/" + DecimalNat(128) == LOOPBACK[1]
  {
    SpelledLoopback();
    hide *;
    SmallDecimals();
    OneIsShort();
  }

  lemma OneIsShort()
    ensures PrintV6(1) == "::1"
  {
    hide *;
    SmallGroups();
    var g: seq<nat> := [0, 0, 0, 0, 0, 0, 0, 1];
    EightReads(g);
    PrintedGroups(g, 1);
    OneInParts(g);
    ShortText();
  }

  lemma SmallGroups()
    ensures 1 < GROUP
  {
  }

  lemma PrintedGroups(g: seq<nat>, n: nat)
    requires |g| == 8 && Number(g) == n && forall i :: 0 <= i < 8 ==> g[i] < GROUP
    ensures PrintV6(n) == Join(PartsOf(g), ":")
  {
    GroupsOfNumber(g);
    hide Groups, Number, Join, PartsOf;
  }

  lemma ShortText()
    ensures Join(["", "", "1"], ":") == "::1"
  {
    assert ["", "", "1"][1..] == ["", "1"] && ["", "1"][1..] == ["1"];
    assert Join(["1"], ":") == "1";
    assert Join(["", "1"], ":") == "" + ":" + "1";
    assert Join(["", "", "1"], ":") == "" + ":" + ("" + ":" + "1");
  }

  lemma OneInParts(g: seq<nat>)
    requires g == [0, 0, 0, 0, 0, 0, 0, 1]
    ensures PartsOf(g) == ["", "", "1"]
  {
    var s := BestRun(g, 0);
    assert RunAt(g, 0) == 7 by { assert g[7] == 1; }
    assert s == 0;
    hide BestRun, RunAt;
    assert g[..0] == [] && g[7..] == [1];
    assert Hexes([]) == [] && Hexes([1]) == ["1"];
  }

  lemma LoopbackV4Holds(a: Address)
    ensures EntryHolds(LOOPBACK[0], a) <==> a.V4? && 0x7f00_0000 <= a.n <= 0x7fff_ffff
  {
    hide *;
    LoopbackV4Text();
    LoopbackBlock();
    CidrHolds(0x7f00_0000, 8, a);
  }

  lemma LoopbackBlock()
    ensures Pow2(24) == 0x100_0000 && 0x7f00_0000 < V4_SIZE && 1 < V6_SIZE
  {
    HostOfEight();
  }

  lemma HostOfEight()
    ensures Pow2(24) == 0x100_0000
  {
    Pow2Eight(0, 1);
    Pow2Eight(8, 0x100);
    Pow2Eight(16, 0x1_0000);
  }

  lemma LoopbackV6Holds(a: Address)
    ensures EntryHolds(LOOPBACK[1], a) <==> a == V6(1)
  {
    hide *;
    LoopbackV6Text();
    LoopbackBlock();
    Cidr6Holds(1, 128, a);
    NoBits();
  }

  /** Loopback is all of 127.0.0.0/8 and the one address `::1`. */
  lemma LoopbackExactly(a: Address)
    ensures AnyHolds(LOOPBACK, a) <==> (a.V4? && 0x7f00_0000 <= a.n <= 0x7fff_ffff) || a == V6(1)
  {
    LoopbackV4Holds(a);
    LoopbackV6Holds(a);
    hide EntryHolds;
    assert |LOOPBACK| == 2;
  }

  lemma PrintedSource(n: nat)
    requires n < V4_SIZE
    ensures AddressOf(PrintV4(n)) == Some(V4(n))
  {
    DottedIsNoNumber(n);
    V4RoundTrip(n);
    V4Chars(PrintV4(n));
    DigitsAreNoSpace();
    assert !IsSpace('.') && !IsDigit('%');
    hide PrintV4, ParseV4, IsSpace, IsDigit, AddressOf;
    var s := PrintV4(n);
    assert s[0] in s && s[|s| - 1] in s;
    SourceExactly(s);
  }

  /** A list of bare IPv4 addresses covers those hosts and loopback, and no other source. */
  lemma ListedHostsExactly(hosts: seq<nat>, allow: seq<string>, n: nat)
    requires |allow| == |hosts| > 0 && n < V4_SIZE
    requires forall i :: 0 <= i < |hosts| ==> hosts[i] < V4_SIZE && allow[i] == PrintV4(hosts[i])
    ensures Covered(PrintV4(n), allow, []) <==> n in hosts || 0x7f00_0000 <= n <= 0x7fff_ffff
  {
    var a := V4(n);
    hide EntryHolds, PrintV4, AddressOf;
    PrintedSource(n);
    LoopbackExactly(a);
    AnyHoldsIn(allow + [] + LOOPBACK, a);
    AnyHoldsIn(LOOPBACK, a);
    InThree(allow, [], LOOPBACK);
    forall i | 0 <= i < |hosts| ensures EntryHolds(allow[i], a) <==> n == hosts[i] { BareV4Reads(hosts[i]); }
    hide AnyHolds;
    if n in hosts {
      var i :| 0 <= i < |hosts| && hosts[i] == n;
      assert allow[i] in allow;
    }
  }
}
