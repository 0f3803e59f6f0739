/** Would the role's flags leave a logged-in node as it is, and which `tailscale set` makes
    it so: `_compare`, `tailscale_prefs_problems` and `tailscale_set_args`. */
module Tailscale {
  import opened Text
  import opened Ordering
  import Args = TailscaleArgs

  // -------------------------------------------------------------------------
  // The node's preferences and the flags that are compared with them
  // -------------------------------------------------------------------------

  /** One member of the preferences document: missing, null, or a value. */
  datatype Field<+T> = Absent | Null | Val(value: T)

  datatype Prefs = Prefs(
    loggedOut: Field<bool>, wantRunning: Field<bool>,
    corpDNS: Field<bool>, routeAll: Field<bool>, runSSH: Field<bool>, shieldsUp: Field<bool>,
    exitNodeAllowLAN: Field<bool>,
    hostname: Field<string>, operatorUser: Field<string>, controlURL: Field<string>,
    advertiseRoutes: Field<seq<string>>, noSNAT: Field<bool>, netfilterMode: Field<int>,
    advertiseTags: Field<seq<string>>, exitNodeID: Field<string>, exitNodeIP: Field<string>,
    runWebClient: Field<bool>, advertiseServices: Field<seq<string>>, postureChecking: Field<bool>)

  /** `bool(prefs.get(key, default))`. */
  function Truth(f: Field<bool>, default: bool): bool {
    match f case Absent => default case Null => false case Val(b) => b
  }

  /** `prefs.get(key) or ""`. */
  function Str(f: Field<string>): string { if f.Val? then f.value else "" }

  /** `prefs.get(key) or []`. */
  function List(f: Field<seq<string>>): seq<string> { if f.Val? then f.value else [] }

  /** The flags the comparison knows by name. `WebClient` and `ReportPosture` are printed only;
      `LoginServer` and `AdvertiseTags` are read only. */
  datatype Flag =
    AcceptDns | AcceptRoutes | Ssh | ShieldsUp | ExitNodeAllowLan | Hostname | Operator
    | AdvertiseRoutes | AdvertiseExitNode | SnatSubnetRoutes | NetfilterMode | ExitNode | WebClient | ReportPosture
    | LoginServer | AdvertiseTags

  const BOOL_FLAGS := [AcceptDns, AcceptRoutes, Ssh, ShieldsUp, ExitNodeAllowLan]
  const STRING_FLAGS := [Hostname, Operator]

  function Name(f: Flag): string {
    match f
    case AcceptDns => "accept-dns"
    case AcceptRoutes => "accept-routes"
    case Ssh => "ssh"
    case ShieldsUp => "shields-up"
    case ExitNodeAllowLan => "exit-node-allow-lan-access"
    case Hostname => "hostname"
    case Operator => "operator"
    case AdvertiseRoutes => "advertise-routes"
    case AdvertiseExitNode => "advertise-exit-node"
    case SnatSubnetRoutes => "snat-subnet-routes"
    case NetfilterMode => "netfilter-mode"
    case ExitNode => "exit-node"
    case WebClient => "webclient"
    case ReportPosture => "report-posture"
    case LoginServer => "login-server"
    case AdvertiseTags => "advertise-tags"
  }

  const CONTROL_DEFAULTS := ["", "https://controlplane.tailscale.com", "https://login.tailscale.com"]
  const EXIT_ROUTES: set<string> := {"0.0.0.0/0", "::/0"}

  function Default(f: Flag): bool { f == AcceptDns }

  function BoolPref(p: Prefs, f: Flag): Field<bool> {
    match f
    case AcceptDns => p.corpDNS
    case AcceptRoutes => p.routeAll
    case Ssh => p.runSSH
    case ShieldsUp => p.shieldsUp
    case _ => p.exitNodeAllowLAN
  }

  function StringPref(p: Prefs, f: Flag): Field<string> {
    if f == Hostname then p.hostname else p.operatorUser
  }

  /** The text of a flag, or `default` when it is not given. */
  function Given(flags: Args.Flags, name: string, default: string): string {
    if name in flags && flags[name].Value? then flags[name].text else default
  }

  /** `_ts_bool`. */
  predicate TsBool(value: string) {
    Lower(Strip(value)) in ["1", "true", "t", "yes", "y", "on"]
  }

  function BoolText(b: bool): string { if b then "true" else "false" }

  function Cleaned(parts: seq<string>): seq<string> {
    if parts == [] then []
    else (if Strip(parts[0]) == "" then [] else [Strip(parts[0])]) + Cleaned(parts[1..])
  }

  /** `_ts_list`. */
  function TsList(value: string): seq<string> { Sort(Cleaned(Split(value, ','))) }

  function ModeNumber(mode: string): Option<int> {
    var m := Lower(mode);
    if m == "off" then Some(0) else if m == "nodivert" then Some(1) else if m == "on" then Some(2) else None
  }

  function Tagged(tag: string): string { if StartsWith(tag, "tag:") then tag else "tag:" + tag }

  // -------------------------------------------------------------------------
  // Differences, and the settings that remove them
  // -------------------------------------------------------------------------

  datatype Setting = Setting(flag: Flag, value: string)

  datatype Message =
    | Unreadable
    | NotRunning
    | UnexpectedArgument(word: string)
    | BoolDiffers(flag: Flag, isOn: bool, shouldBeOn: bool)
    | StringDiffers(flag: Flag)
    | ControlNotDefault
    | ControlDiffers
    | RoutesDiffer(have: seq<string>, want: seq<string>)
    | SnatDiffers
    | UnknownMode(mode: string)
    | ModeDiffers(mode: string)
    | TagsDiffer(have: seq<string>, want: seq<string>)
    | ExitNodeUnverifiable
    | ExitNodeInUse
    | SetByHand(pref: string)
    | Unverifiable(name: string)

  /** A difference; `fix` is empty when no `tailscale set` flag reconciles it. */
  datatype Problem = Problem(what: Message, fix: seq<Setting>)

  function Login(p: Prefs): seq<Problem> {
    if Truth(p.loggedOut, false) || !Truth(p.wantRunning, false) then [Problem(NotRunning, [])] else []
  }

  function PositionalWords(flags: Args.Flags): seq<string> {
    if Args.POSITIONAL_KEY !in flags then []
    else match flags[Args.POSITIONAL_KEY]
      case Positionals(ws) => ws
      case Value(text) => seq(|text|, i requires 0 <= i < |text| => [text[i]])  // a string iterates by character
  }

  function Unexpected(words: seq<string>): seq<Problem> {
    seq(|words|, i requires 0 <= i < |words| => Problem(UnexpectedArgument(words[i]), []))
  }

  function WantBool(flags: Args.Flags, f: Flag): bool {
    if Name(f) in flags then TsBool(Given(flags, Name(f), "")) else Default(f)
  }

  function BoolSection(p: Prefs, flags: Args.Flags, f: Flag): seq<Problem> {
    var want, have := WantBool(flags, f), Truth(BoolPref(p, f), Default(f));
    if have != want then [Problem(BoolDiffers(f, have, want), [Setting(f, BoolText(want))])] else []
  }

  function StringSection(p: Prefs, flags: Args.Flags, f: Flag): seq<Problem> {
    var want := Given(flags, Name(f), "");
    if Str(StringPref(p, f)) != want then [Problem(StringDiffers(f), [Setting(f, want)])] else []
  }

  function ControlSection(p: Prefs, flags: Args.Flags): seq<Problem> {
    var have := Str(p.controlURL);
    if Name(LoginServer) !in flags then
      if have !in CONTROL_DEFAULTS then [Problem(ControlNotDefault, [])] else []
    else if RStripChar(have, '/') != RStripChar(Given(flags, Name(LoginServer), ""), '/') then
      [Problem(ControlDiffers, [])]
    else []
  }

  function GivenRoutes(flags: Args.Flags): seq<string> { TsList(Given(flags, Name(AdvertiseRoutes), "")) }
  predicate GivenExit(flags: Args.Flags) { TsBool(Given(flags, Name(AdvertiseExitNode), "false")) }

  function WantRoutes(flags: Args.Flags): seq<string> {
    SortSet(Elems(GivenRoutes(flags)) + if GivenExit(flags) then EXIT_ROUTES else {})
  }

  function WithoutExit(routes: seq<string>): seq<string> {
    if routes == [] then []
    else (if routes[0] in EXIT_ROUTES then [] else [routes[0]]) + WithoutExit(routes[1..])
  }

  function RoutesFix(have: seq<string>, routes: seq<string>, exit: bool): seq<Setting> {
    (if Sort(WithoutExit(have)) != routes then [Setting(AdvertiseRoutes, Join(routes, ","))] else [])
    + (if (EXIT_ROUTES <= Elems(have)) != exit then [Setting(AdvertiseExitNode, BoolText(exit))] else [])
  }

  function RoutesSection(p: Prefs, flags: Args.Flags): seq<Problem> {
    var have, want := Sort(List(p.advertiseRoutes)), WantRoutes(flags);
    if have != want then
      [Problem(RoutesDiffer(have, want), RoutesFix(have, GivenRoutes(flags), GivenExit(flags)))]
    else []
  }

  function SnatSection(p: Prefs, flags: Args.Flags): seq<Problem> {
    var snat := TsBool(Given(flags, Name(SnatSubnetRoutes), "true"));
    if Truth(p.noSNAT, false) == snat then [Problem(SnatDiffers, [Setting(SnatSubnetRoutes, BoolText(snat))])] else []
  }

  /** `prefs.get("NetfilterMode", 2)` against a number; null equals no number. */
  predicate ModeIs(f: Field<int>, want: int) {
    match f case Absent => want == 2 case Null => false case Val(n) => n == want
  }

  function ModeSection(p: Prefs, flags: Args.Flags): seq<Problem> {
    var mode := Given(flags, Name(NetfilterMode), "on");
    match ModeNumber(mode)
    case None => [Problem(UnknownMode(mode), [])]
    case Some(want) =>
      if ModeIs(p.netfilterMode, want) then []
      else [Problem(ModeDiffers(mode), [Setting(NetfilterMode, Lower(mode))])]
  }

  function WantTags(flags: Args.Flags, tags: seq<string>): seq<string> {
    SortSet(Elems(TsList(Given(flags, Name(AdvertiseTags), ""))) + (set t | t in tags :: Tagged(t)))
  }

  function TagsSection(p: Prefs, flags: Args.Flags, tags: seq<string>): seq<Problem> {
    var have, want := Sort(List(p.advertiseTags)), WantTags(flags, tags);
    if have != want then [Problem(TagsDiffer(have, want), [])] else []
  }

  function ExitNodeSection(p: Prefs, flags: Args.Flags): seq<Problem> {
    if Name(ExitNode) in flags then [Problem(ExitNodeUnverifiable, [])]
    else if Str(p.exitNodeID) != "" || Str(p.exitNodeIP) != "" then [Problem(ExitNodeInUse, [Setting(ExitNode, "")])]
    else []
  }

  function MustBeFalse(f: Field<bool>, pref: string, reset: Flag): seq<Problem> {
    if f == Val(true) then [Problem(SetByHand(pref), [Setting(reset, "false")])] else []
  }

  function ServicesSection(p: Prefs): seq<Problem> {
    if List(p.advertiseServices) != [] then [Problem(SetByHand("AdvertiseServices"), [])] else []
  }

  /** The order in which the comparison takes the flags out of the dictionary. */
  function Turn(f: Flag): nat {
    match f
    case AcceptDns => 0
    case AcceptRoutes => 1
    case Ssh => 2
    case ShieldsUp => 3
    case ExitNodeAllowLan => 4
    case Hostname => 5
    case Operator => 6
    case LoginServer => 7
    case AdvertiseRoutes => 8
    case AdvertiseExitNode => 9
    case SnatSubnetRoutes => 10
    case NetfilterMode => 11
    case AdvertiseTags => 12
    case ExitNode => 13
    case WebClient => 14
    case ReportPosture => 15
  }

  /** The names taken out before turn `k`. */
  function Taken(k: nat): set<string> { set f: Flag | Turn(f) < k :: Name(f) }

  /** Every name the comparison accounts for. */
  const COMPARED: set<string> := {Args.POSITIONAL_KEY} + Taken(14) + Elems(Args.IGNORED_NAMES)

  function UnverifiedSection(names: seq<string>): seq<Problem> {
    seq(|names|, i requires 0 <= i < |names| => Problem(Unverifiable(names[i]), []))
  }

  function BoolSections(p: Prefs, flags: Args.Flags): seq<seq<Problem>> {
    seq(|BOOL_FLAGS|, i requires 0 <= i < |BOOL_FLAGS| => BoolSection(p, flags, BOOL_FLAGS[i]))
  }

  function StringSections(p: Prefs, flags: Args.Flags): seq<seq<Problem>> {
    seq(|STRING_FLAGS|, i requires 0 <= i < |STRING_FLAGS| => StringSection(p, flags, STRING_FLAGS[i]))
  }

  function OtherSections(p: Prefs, flags: Args.Flags, tags: seq<string>): seq<seq<Problem>> {
    [ControlSection(p, flags), RoutesSection(p, flags), SnatSection(p, flags), ModeSection(p, flags),
     TagsSection(p, flags, tags), ExitNodeSection(p, flags),
     MustBeFalse(p.runWebClient, "RunWebClient", WebClient), ServicesSection(p),
     MustBeFalse(p.postureChecking, "PostureChecking", ReportPosture),
     UnverifiedSection(SortSet(flags.Keys - COMPARED))]
  }

  /** The comparison, one section per preference, in the order it reports them. */
  function Sections(p: Prefs, flags: Args.Flags, tags: seq<string>): seq<seq<Problem>> {
    [Login(p), Unexpected(PositionalWords(flags))]
    + BoolSections(p, flags) + StringSections(p, flags) + OtherSections(p, flags, tags)
  }

  function Concat<T>(parts: seq<seq<T>>): seq<T> {
    if parts == [] then [] else Concat(parts[..|parts| - 1]) + parts[|parts| - 1]
  }

  lemma ConcatSnoc<T>(parts: seq<seq<T>>, last: seq<T>)
    ensures Concat(parts + [last]) == Concat(parts) + last
  {
    assert (parts + [last])[..|parts|] == parts;
  }

  lemma ConcatNone<T>()
    ensures Concat<T>([]) == []
  {
  }

  lemma ConcatTake<T>(parts: seq<seq<T>>, i: nat)
    requires i < |parts|
    ensures Concat(parts[..i + 1]) == Concat(parts[..i]) + parts[i]
  {
    assert parts[..i + 1] == parts[..i] + [parts[i]];
    ConcatSnoc(parts[..i], parts[i]);
  }

  lemma BoolSectionsInOrder(p: Prefs, flags: Args.Flags)
    ensures |BoolSections(p, flags)| == |BOOL_FLAGS|
    ensures forall i :: 0 <= i < |BOOL_FLAGS| ==> BoolSections(p, flags)[i] == BoolSection(p, flags, BOOL_FLAGS[i])
  {
    hide BoolSection;
  }

  lemma {:induction false} ConcatAppend<T>(a: seq<seq<T>>, b: seq<seq<T>>)
    ensures Concat(a + b) == Concat(a) + Concat(b)
  {
    if b == [] {
      assert a + b == a && Concat(a) + [] == Concat(a);
    } else {
      var n := |b| - 1;
      ConcatAppend(a, b[..n]);
      assert a + b == a + b[..n] + [b[n]];
      assert b == b[..n] + [b[n]];
      ConcatSnoc(a + b[..n], b[n]);
      ConcatSnoc(b[..n], b[n]);
      var x, y, z := Concat(a), Concat(b[..n]), b[n];
      assert x + y + z == x + (y + z);
    }
  }

  function Problems(p: Prefs, flags: Args.Flags, tags: seq<string>): seq<Problem> {
    Concat(Sections(p, flags, tags))
  }

  /** `_compare`: nothing to compare without a document; an unreadable command line raises. */
  function Compared(prefs: Option<Prefs>, upArgs: string, tags: seq<string>): Args.Result<seq<Problem>> {
    match prefs
    case None => Args.Ok([Problem(Unreadable, [])])
    case Some(p) =>
      match Args.ParsedText(upArgs)
      case Ok(flags) => Args.Ok(Problems(p, flags, tags))
      case Err(e) => Args.Err(e)
  }

  // -------------------------------------------------------------------------
  // The comparison as the source runs it: take each flag out of the dictionary,
  // append what differs, and report whatever is left
  // -------------------------------------------------------------------------

  lemma NameInjective(f: Flag, g: Flag)
    ensures Name(f) == Name(g) ==> f == g
    ensures Name(f) != Args.POSITIONAL_KEY
  {
  }

  /** The dictionary at turn `k`, the positional words already taken out. */
  ghost predicate Rest(flags: Args.Flags, all: Args.Flags, k: nat) {
    && (forall n :: n in flags <==> n in all && n != Args.POSITIONAL_KEY && n !in Taken(k))
    && (forall n :: n in flags ==> flags[n] == all[n])
  }

  /** A flag not yet taken reads the same as at the start. */
  lemma Untouched(flags: Args.Flags, all: Args.Flags, f: Flag)
    requires Rest(flags, all, Turn(f))
    ensures Name(f) in flags <==> Name(f) in all
    ensures forall d :: Given(flags, Name(f), d) == Given(all, Name(f), d)
    ensures Rest(flags - {Name(f)}, all, Turn(f) + 1)
  {
    hide Name, Turn, Taken;
    NameInjective(f, f);
    TakenNext(f);
  }

  lemma TakenNext(f: Flag)
    ensures Name(f) !in Taken(Turn(f))
    ensures Taken(Turn(f) + 1) == Taken(Turn(f)) + {Name(f)}
  {
    hide Name;
    forall g: Flag | Turn(g) < Turn(f) ensures Name(g) != Name(f) { NameInjective(f, g); }
    forall g: Flag ensures Turn(g) < Turn(f) + 1 <==> Turn(g) < Turn(f) || g == f { TurnInjective(f, g); }
    hide Turn;
    var a, b := Taken(Turn(f) + 1), Taken(Turn(f)) + {Name(f)};
    forall n ensures n in a <==> n in b {
      if n in a {
        var g: Flag :| Turn(g) < Turn(f) + 1 && Name(g) == n;
      }
    }
  }

  lemma TurnInjective(f: Flag, g: Flag)
    ensures Turn(f) == Turn(g) ==> f == g
  {
  }

  lemma NothingTaken(all: Args.Flags)
    ensures Rest(all - {Args.POSITIONAL_KEY}, all, 0)
  {
  }

  method Compare(prefs: Option<Prefs>, upArgs: string, tags: seq<string>) returns (r: Args.Result<seq<Problem>>)
    ensures r == Compared(prefs, upArgs, tags)
  {
    hide Name, Rest, PositionalWords, Args.ParsedText, BoolSections, StringSections, OtherSections, Problems;
    if prefs.None? {
      return Args.Ok([Problem(Unreadable, [])]);
    }
    var p := prefs.value;
    var out: seq<Problem> := [];
    if Truth(p.loggedOut, false) || !Truth(p.wantRunning, false) {
      out := out + [Problem(NotRunning, [])];
    }
    var parsed := Args.Parse(upArgs);
    if parsed.Err? {
      return Args.Err(parsed.error);
    }
    var all := parsed.value;
    var words := PositionalWords(all);
    var flags := all - {Args.POSITIONAL_KEY};
    for i := 0 to |words|
      invariant out == Login(p) + Unexpected(words[..i])
    {
      out := out + [Problem(UnexpectedArgument(words[i]), [])];
    }
    assert words[..|words|] == words;
    NothingTaken(all);
    var found;
    found, flags := CompareSwitches(p, flags, all);
    out := out + found;
    found, flags := CompareTexts(p, flags, all);
    out := out + found;
    found := CompareOthers(p, flags, all, tags);
    out := out + found;
    Compose(p, all, tags);
    r := Args.Ok(out);
  }

  lemma Compose(p: Prefs, all: Args.Flags, tags: seq<string>)
    ensures Problems(p, all, tags)
         == Login(p) + Unexpected(PositionalWords(all)) + Concat(BoolSections(p, all)) + Concat(StringSections(p, all))
            + Concat(OtherSections(p, all, tags))
  {
    hide Login, Unexpected, PositionalWords, BoolSections, StringSections, OtherSections;
    var l, u := Login(p), Unexpected(PositionalWords(all));
    var a, b, c := BoolSections(p, all), StringSections(p, all), OtherSections(p, all, tags);
    ConcatAppend([l, u] + a + b, c);
    ConcatAppend([l, u] + a, b);
    ConcatAppend([l, u], a);
    ConcatSnoc([l], u);
    ConcatSnoc([], l);
    assert [] + [l] == [l] && [l] + [u] == [l, u];
    assert Concat([l]) == l;
    assert Concat([l, u]) == l + u;
  }

  /** The loop over the boolean flags. */
  method CompareSwitches(p: Prefs, given: Args.Flags, ghost all: Args.Flags)
      returns (out: seq<Problem>, flags: Args.Flags)
    requires Rest(given, all, 0)
    ensures out == Concat(BoolSections(p, all))
    ensures Rest(flags, all, 5)
  {
    hide Name, TsBool, Rest, Given, BoolPref, Default, Concat, BoolSections;
    out, flags := [], given;
    ghost var sections := BoolSections(p, all);
    BoolSectionsInOrder(p, all);
    ConcatNone<Problem>();
    assert sections[..0] == [];
    for i := 0 to |BOOL_FLAGS|
      invariant out == Concat(sections[..i])
      invariant Rest(flags, all, i)
    {
      var f := BOOL_FLAGS[i];
      Untouched(flags, all, f);
      var want := if Name(f) in flags then TsBool(Given(flags, Name(f), "")) else Default(f);
      flags := flags - {Name(f)};
      var have := Truth(BoolPref(p, f), Default(f));
      if have != want {
        out := out + [Problem(BoolDiffers(f, have, want), [Setting(f, BoolText(want))])];
      }
      ConcatTake(sections, i);
    }
    assert sections[..|BOOL_FLAGS|] == sections && BOOL_FLAGS[..|BOOL_FLAGS|] == BOOL_FLAGS;
  }

  /** The loop over the string flags. */
  method CompareTexts(p: Prefs, given: Args.Flags, ghost all: Args.Flags)
      returns (out: seq<Problem>, flags: Args.Flags)
    requires Rest(given, all, 5)
    ensures out == Concat(StringSections(p, all))
    ensures Rest(flags, all, 7)
  {
    hide Name, Rest, Given, StringPref;
    out, flags := [], given;
    ghost var sections := StringSections(p, all);
    for i := 0 to |STRING_FLAGS|
      invariant out == Concat(sections[..i])
      invariant Rest(flags, all, 5 + i)
    {
      var f := STRING_FLAGS[i];
      Untouched(flags, all, f);
      var want := Given(flags, Name(f), "");
      flags := flags - {Name(f)};
      if Str(StringPref(p, f)) != want {
        out := out + [Problem(StringDiffers(f), [Setting(f, want)])];
      }
      assert sections[..i + 1] == sections[..i] + [StringSection(p, all, f)];
      ConcatSnoc(sections[..i], StringSection(p, all, f));
    }
    assert sections[..|STRING_FLAGS|] == sections && STRING_FLAGS[..|STRING_FLAGS|] == STRING_FLAGS;
  }

  // The comparisons that are written out one by one. Each takes its flags out of the dictionary.

  method CompareControl(p: Prefs, flags: Args.Flags, ghost all: Args.Flags)
      returns (out: seq<Problem>, rest: Args.Flags)
    requires Rest(flags, all, Turn(LoginServer))
    ensures out == ControlSection(p, all)
    ensures Rest(rest, all, Turn(LoginServer) + 1)
  {
    hide Name, Rest, Given, RStripChar;
    Untouched(flags, all, LoginServer);
    out := [];
    rest := flags - {Name(LoginServer)};
    var have := Str(p.controlURL);
    if Name(LoginServer) !in flags {
      if have !in CONTROL_DEFAULTS {
        out := out + [Problem(ControlNotDefault, [])];
      }
    } else if RStripChar(have, '/') != RStripChar(Given(flags, Name(LoginServer), ""), '/') {
      out := out + [Problem(ControlDiffers, [])];
    }
  }

  method CompareRoutes(p: Prefs, flags: Args.Flags, ghost all: Args.Flags)
      returns (out: seq<Problem>, rest: Args.Flags)
    requires Rest(flags, all, Turn(AdvertiseRoutes))
    ensures out == RoutesSection(p, all)
    ensures Rest(rest, all, Turn(SnatSubnetRoutes))
  {
    hide Name, Rest, Given, TsList, TsBool, Sort, SortSet, WithoutExit, Join;
    Untouched(flags, all, AdvertiseRoutes);
    var routes := TsList(Given(flags, Name(AdvertiseRoutes), ""));
    rest := flags - {Name(AdvertiseRoutes)};
    Untouched(rest, all, AdvertiseExitNode);
    var exit := TsBool(Given(rest, Name(AdvertiseExitNode), "false"));
    rest := rest - {Name(AdvertiseExitNode)};
    var want := SortSet(Elems(routes) + if exit then EXIT_ROUTES else {});
    var have := Sort(List(p.advertiseRoutes));
    out := [];
    if have != want {
      var haveExit := EXIT_ROUTES <= Elems(have);
      var fix: seq<Setting> := [];
      if Sort(WithoutExit(have)) != routes {
        fix := fix + [Setting(AdvertiseRoutes, Join(routes, ","))];
      }
      if haveExit != exit {
        fix := fix + [Setting(AdvertiseExitNode, BoolText(exit))];
      }
      assert fix == RoutesFix(have, GivenRoutes(all), GivenExit(all));
      out := out + [Problem(RoutesDiffer(have, want), fix)];
    }
    assert routes == GivenRoutes(all) && exit == GivenExit(all) && want == WantRoutes(all);
  }

  method CompareSnat(p: Prefs, flags: Args.Flags, ghost all: Args.Flags)
      returns (out: seq<Problem>, rest: Args.Flags)
    requires Rest(flags, all, Turn(SnatSubnetRoutes))
    ensures out == SnatSection(p, all)
    ensures Rest(rest, all, Turn(SnatSubnetRoutes) + 1)
  {
    hide Name, Rest, Given, TsBool;
    Untouched(flags, all, SnatSubnetRoutes);
    var snat := TsBool(Given(flags, Name(SnatSubnetRoutes), "true"));
    rest := flags - {Name(SnatSubnetRoutes)};
    out := [];
    if Truth(p.noSNAT, false) != !snat {
      out := out + [Problem(SnatDiffers, [Setting(SnatSubnetRoutes, BoolText(snat))])];
    }
  }

  method CompareMode(p: Prefs, flags: Args.Flags, ghost all: Args.Flags)
      returns (out: seq<Problem>, rest: Args.Flags)
    requires Rest(flags, all, Turn(NetfilterMode))
    ensures out == ModeSection(p, all)
    ensures Rest(rest, all, Turn(NetfilterMode) + 1)
  {
    hide Name, Rest, Given, ModeNumber, Lower;
    Untouched(flags, all, NetfilterMode);
    var mode := Given(flags, Name(NetfilterMode), "on");
    rest := flags - {Name(NetfilterMode)};
    out := [];
    var want := ModeNumber(mode);
    if want.None? {
      out := out + [Problem(UnknownMode(mode), [])];
    } else if !ModeIs(p.netfilterMode, want.value) {
      out := out + [Problem(ModeDiffers(mode), [Setting(NetfilterMode, Lower(mode))])];
    }
  }

  method CompareTags(p: Prefs, flags: Args.Flags, tags: seq<string>, ghost all: Args.Flags)
      returns (out: seq<Problem>, rest: Args.Flags)
    requires Rest(flags, all, Turn(AdvertiseTags))
    ensures out == TagsSection(p, all, tags)
    ensures Rest(rest, all, Turn(AdvertiseTags) + 1)
  {
    hide Name, Rest, Given, TsList, Sort, SortSet, Tagged;
    Untouched(flags, all, AdvertiseTags);
    var listed := TsList(Given(flags, Name(AdvertiseTags), ""));
    rest := flags - {Name(AdvertiseTags)};
    var want := SortSet(Elems(listed) + (set t | t in tags :: Tagged(t)));
    var have := Sort(List(p.advertiseTags));
    out := [];
    if have != want {
      out := out + [Problem(TagsDiffer(have, want), [])];
    }
  }

  method CompareExitNode(p: Prefs, flags: Args.Flags, ghost all: Args.Flags)
      returns (out: seq<Problem>, rest: Args.Flags)
    requires Rest(flags, all, Turn(ExitNode))
    ensures out == ExitNodeSection(p, all)
    ensures Rest(rest, all, Turn(ExitNode) + 1)
  {
    hide Name, Rest, Given;
    Untouched(flags, all, ExitNode);
    rest := flags - {Name(ExitNode)};
    out := [];
    if Name(ExitNode) in flags {
      out := out + [Problem(ExitNodeUnverifiable, [])];
    } else if Str(p.exitNodeID) != "" || Str(p.exitNodeIP) != "" {
      out := out + [Problem(ExitNodeInUse, [Setting(ExitNode, "")])];
    }
  }

  /** Drop some names from the dictionary, whether they are there or not. */
  method Without(flags: Args.Flags, names: seq<string>) returns (rest: Args.Flags)
    ensures rest == flags - Elems(names)
  {
    rest := flags;
    for i := 0 to |names|
      invariant rest == flags - Elems(names[..i])
    {
      rest := rest - {names[i]};
      assert names[..i + 1] == names[..i] + [names[i]];
    }
    assert names[..|names|] == names;
  }

  /** What is left once the ignored flags are gone is reported by name, in order. */
  method CompareLeftover(flags: Args.Flags, ghost all: Args.Flags) returns (out: seq<Problem>)
    requires Rest(flags, all, 14)
    ensures out == UnverifiedSection(SortSet(all.Keys - COMPARED))
  {
    hide Rest, Name, SortSet;
    LeftoverNames(flags, all);
    var rest := Without(flags, Args.IGNORED_NAMES);
    var names := SortSet(rest.Keys);
    out := [];
    for i := 0 to |names|
      invariant out == UnverifiedSection(names[..i])
    {
      out := out + [Problem(Unverifiable(names[i]), [])];
    }
    assert names[..|names|] == names;
  }

  lemma LeftoverNames(flags: Args.Flags, all: Args.Flags)
    requires Rest(flags, all, 14)
    ensures (flags - Elems(Args.IGNORED_NAMES)).Keys == all.Keys - COMPARED
  {
    hide Name, Elems;
  }

  method CompareOthers(p: Prefs, given: Args.Flags, ghost all: Args.Flags, tags: seq<string>)
      returns (out: seq<Problem>)
    requires Rest(given, all, 7)
    ensures out == Concat(OtherSections(p, all, tags))
  {
    hide Name, Rest, Sort, SortSet, ControlSection, RoutesSection, SnatSection, ModeSection, TagsSection,
         ExitNodeSection, UnverifiedSection;
    var flags := given;
    var found;
    found, flags := CompareControl(p, flags, all);
    out := found;
    found, flags := CompareRoutes(p, flags, all);
    out := out + found;
    found, flags := CompareSnat(p, flags, all);
    out := out + found;
    found, flags := CompareMode(p, flags, all);
    out := out + found;
    found, flags := CompareTags(p, flags, tags, all);
    out := out + found;
    found, flags := CompareExitNode(p, flags, all);
    out := out + found;
    if p.runWebClient == Val(true) {
      out := out + [Problem(SetByHand("RunWebClient"), [Setting(WebClient, "false")])];
    }
    if List(p.advertiseServices) != [] {
      out := out + [Problem(SetByHand("AdvertiseServices"), [])];
    }
    if p.postureChecking == Val(true) {
      out := out + [Problem(SetByHand("PostureChecking"), [Setting(ReportPosture, "false")])];
    }
    found := CompareLeftover(flags, all);
    out := out + found;
    OtherSectionsInOrder(p, all, tags);
  }

  lemma OtherSectionsInOrder(p: Prefs, all: Args.Flags, tags: seq<string>)
    ensures Concat(OtherSections(p, all, tags))
         == ControlSection(p, all) + RoutesSection(p, all) + SnatSection(p, all) + ModeSection(p, all)
            + TagsSection(p, all, tags) + ExitNodeSection(p, all)
            + MustBeFalse(p.runWebClient, "RunWebClient", WebClient) + ServicesSection(p)
            + MustBeFalse(p.postureChecking, "PostureChecking", ReportPosture)
            + UnverifiedSection(SortSet(all.Keys - COMPARED))
  {
    hide Name, SortSet, ControlSection, RoutesSection, SnatSection, ModeSection, TagsSection, ExitNodeSection,
         UnverifiedSection, MustBeFalse, ServicesSection;
    var s := OtherSections(p, all, tags);
    ConcatFive(s[..5]);
    ConcatFive(s[5..]);
    ConcatAppend(s[..5], s[5..]);
    assert s == s[..5] + s[5..];
  }

  lemma ConcatFive<T>(s: seq<seq<T>>)
    requires |s| == 5
    ensures Concat(s) == s[0] + s[1] + s[2] + s[3] + s[4]
  {
    assert s[..4][..3] == s[..3] && s[..3][..2] == s[..2] && s[..2][..1] == s[..1] && s[..1][..0] == [];
    assert Concat(s[..1]) == [] + s[0] == s[0];
    assert Concat(s[..2]) == s[0] + s[1];
    assert Concat(s[..3]) == s[0] + s[1] + s[2];
    assert Concat(s[..4]) == s[0] + s[1] + s[2] + s[3];
  }
}
