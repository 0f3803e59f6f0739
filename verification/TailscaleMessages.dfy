/** Which differences the comparison names, with what texts and settings, and in which order. */
module TailscaleMessages {
  import opened Text
  import opened Ordering
  import opened Tailscale
  import opened TailscaleSet
  import opened TailscaleReport
  import opened TailscaleFields
  import Args = TailscaleArgs

  /** The place of a message in the report: the order in which the comparison reads the preferences. */
  ghost function Rank(what: Message): nat {
    match what
    case Unreadable => 19
    case NotRunning => 0
    case UnexpectedArgument(_) => 1
    case BoolDiffers(f, _, _) =>
      if f == AcceptDns then 2 else if f == AcceptRoutes then 3 else if f == Ssh then 4
      else if f == ShieldsUp then 5 else if f == ExitNodeAllowLan then 6 else 19
    case StringDiffers(f) => if f == Hostname then 7 else if f == Operator then 8 else 19
    case ControlNotDefault => 9
    case ControlDiffers => 9
    case RoutesDiffer(_, _) => 10
    case SnatDiffers => 11
    case UnknownMode(_) => 12
    case ModeDiffers(_) => 12
    case TagsDiffer(_, _) => 13
    case ExitNodeUnverifiable => 14
    case ExitNodeInUse => 14
    case SetByHand(pref) =>
      if pref == "RunWebClient" then 15 else if pref == "AdvertiseServices" then 16
      else if pref == "PostureChecking" then 17 else 19
    case Unverifiable(_) => 18
  }

  /** A switch of the node against its flag. */
  ghost predicate SwitchIs(p: Prefs, flags: Args.Flags, f: Flag, isOn: bool, wanted: bool) {
    match f
    case AcceptDns =>
      && (isOn <==> p.corpDNS == Val(true) || p.corpDNS == Absent)
      && (wanted <==> "accept-dns" !in flags || On(flags, "accept-dns"))
    case AcceptRoutes => (isOn <==> p.routeAll == Val(true)) && (wanted <==> On(flags, "accept-routes"))
    case Ssh => (isOn <==> p.runSSH == Val(true)) && (wanted <==> On(flags, "ssh"))
    case ShieldsUp => (isOn <==> p.shieldsUp == Val(true)) && (wanted <==> On(flags, "shields-up"))
    case ExitNodeAllowLan =>
      (isOn <==> p.exitNodeAllowLAN == Val(true)) && (wanted <==> On(flags, "exit-node-allow-lan-access"))
    case _ => false
  }

  ghost function YesNo(b: bool): string { if b then "true" else "false" }

  /** The values of a list field, sorted. */
  ghost predicate SortedField(f: Field<seq<string>>, have: seq<string>) {
    Sorted(have) && multiset(have) == multiset(if f.Val? then f.value else [])
  }

  ghost predicate IsWord(flags: Args.Flags, w: string) {
    && "_positional" in flags
    && match flags["_positional"]
       case Positionals(words) => w in words
       case Value(text) => |w| == 1 && w[0] in text
  }

  ghost predicate WantsRoute(flags: Args.Flags, r: string) {
    || Listed(Said(flags, "advertise-routes"), r)
    || (On(flags, "advertise-exit-node") && (r == "0.0.0.0/0" || r == "::/0"))
  }

  /** What the flags ask for, each once and in order. */
  ghost predicate RoutesWanted(flags: Args.Flags, want: seq<string>) {
    Sorted(want) && Distinct(want) && forall r :: r in want <==> WantsRoute(flags, r)
  }

  ghost predicate TagsWanted(flags: Args.Flags, tags: seq<string>, want: seq<string>) {
    && Sorted(want) && Distinct(want)
    && forall t :: t in want <==> Listed(Said(flags, "advertise-tags"), t) || WantedTag(tags, t)
  }

  /** A difference there is, in the words of the two documents, with the settings that remove it. */
  ghost predicate Reported(p: Prefs, flags: Args.Flags, tags: seq<string>, x: Problem) {
    match x.what
    case Unreadable => false
    case NotRunning => x.fix == [] && (p.loggedOut == Val(true) || p.wantRunning != Val(true))
    case UnexpectedArgument(w) => x.fix == [] && IsWord(flags, w)
    case BoolDiffers(f, isOn, wanted) =>
      isOn != wanted && SwitchIs(p, flags, f, isOn, wanted) && x.fix == [Setting(f, YesNo(wanted))]
    case StringDiffers(f) =>
      || (f == Hostname && !HoldsText(p.hostname, SaidText(flags, "hostname"))
          && x.fix == [Setting(Hostname, SaidText(flags, "hostname"))])
      || (f == Operator && !HoldsText(p.operatorUser, SaidText(flags, "operator"))
          && x.fix == [Setting(Operator, SaidText(flags, "operator"))])
    case ControlNotDefault => x.fix == [] && "login-server" !in flags && !ControlAgrees(p, flags)
    case ControlDiffers => x.fix == [] && "login-server" in flags && !ControlAgrees(p, flags)
    case RoutesDiffer(have, want) =>
      && SortedField(p.advertiseRoutes, have) && RoutesWanted(flags, want) && have != want
      && x.fix == RoutesFix(have, TsList(SaidText(flags, "advertise-routes")), On(flags, "advertise-exit-node"))
    case SnatDiffers =>
      var wanted := Said(flags, "snat-subnet-routes").Some? ==> On(flags, "snat-subnet-routes");
      (p.noSNAT == Val(true) <==> wanted) && x.fix == [Setting(SnatSubnetRoutes, YesNo(wanted))]
    case UnknownMode(mode) =>
      && Said(flags, "netfilter-mode") == Some(mode) && x.fix == []
      && !IsMode(mode, "off") && !IsMode(mode, "nodivert") && !IsMode(mode, "on")
    case ModeDiffers(mode) =>
      && mode == (if Said(flags, "netfilter-mode").Some? then SaidText(flags, "netfilter-mode") else "on")
      && !ModeAgrees(p, flags)
      && ((IsMode(mode, "off") && x.fix == [Setting(NetfilterMode, "off")])
          || (IsMode(mode, "nodivert") && x.fix == [Setting(NetfilterMode, "nodivert")])
          || (IsMode(mode, "on") && x.fix == [Setting(NetfilterMode, "on")]))
    case TagsDiffer(have, want) =>
      SortedField(p.advertiseTags, have) && TagsWanted(flags, tags, want) && have != want && x.fix == []
    case ExitNodeUnverifiable => x.fix == [] && "exit-node" in flags
    case ExitNodeInUse =>
      && "exit-node" !in flags && !(HoldsText(p.exitNodeID, "") && HoldsText(p.exitNodeIP, ""))
      && x.fix == [Setting(ExitNode, "")]
    case SetByHand(pref) =>
      || (pref == "RunWebClient" && p.runWebClient == Val(true) && x.fix == [Setting(WebClient, "false")])
      || (pref == "AdvertiseServices" && p.advertiseServices.Val? && p.advertiseServices.value != [] && x.fix == [])
      || (pref == "PostureChecking" && p.postureChecking == Val(true) && x.fix == [Setting(ReportPosture, "false")])
    case Unverifiable(name) => x.fix == [] && name in flags && name !in KNOWN
  }

  /** The section at place `k` holds the differences of that rank. */
  ghost predicate Holds(s: seq<Problem>, k: nat, p: Prefs, flags: Args.Flags, tags: seq<string>) {
    forall x :: x in s <==> Rank(x.what) == k && Reported(p, flags, tags, x)
  }

  lemma LoginHolds(p: Prefs, flags: Args.Flags, tags: seq<string>)
    ensures Holds(Login(p), 0, p, flags, tags)
  {
    hide SwitchIs, ControlAgrees, ModeAgrees, On, Said, SaidText, HoldsText, IsMode, RoutesFix, SortedField,
         RoutesWanted, TagsWanted, KNOWN, IsWord;
  }

  lemma WordsHold(p: Prefs, flags: Args.Flags, tags: seq<string>)
    ensures Holds(Unexpected(PositionalWords(flags)), 1, p, flags, tags)
  {
    hide SwitchIs, ControlAgrees, ModeAgrees, On, Said, SaidText, HoldsText, IsMode, RoutesFix, SortedField,
         RoutesWanted, TagsWanted, KNOWN, IsWord, PositionalWords;
    forall w ensures w in PositionalWords(flags) <==> IsWord(flags, w) { WordExactly(flags, w); }
    var ws := PositionalWords(flags);
    forall x: Problem ensures x in Unexpected(ws) <==> x.what.UnexpectedArgument? && x.fix == [] && x.what.word in ws {
      if x.what.UnexpectedArgument? && x.fix == [] && x.what.word in ws {
        var i :| 0 <= i < |ws| && ws[i] == x.what.word;
        assert Unexpected(ws)[i] == x;
      }
    }
    hide Unexpected;
  }

  lemma WordExactly(flags: Args.Flags, w: string)
    ensures w in PositionalWords(flags) <==> IsWord(flags, w)
  {
    if "_positional" in flags && flags["_positional"].Value? {
      var text := flags["_positional"].text;
      if |w| == 1 && w[0] in text {
        var i :| 0 <= i < |text| && text[i] == w[0];
        assert PositionalWords(flags)[i] == w;
      }
    }
  }

  lemma SwitchHolds(p: Prefs, flags: Args.Flags, tags: seq<string>, f: Flag, k: nat)
    requires f in BOOL_FLAGS && Rank(BoolDiffers(f, true, true)) == k < 19
    ensures Holds(BoolSection(p, flags, f), k, p, flags, tags)
  {
    hide ControlAgrees, ModeAgrees, On, Said, SaidText, HoldsText, IsMode, RoutesFix, SortedField, RoutesWanted,
         TagsWanted, KNOWN, WantsRoute, IsWord, WantBool, Name;
    SwitchRead(p, flags, f);
    hide SwitchIs;
    forall x: Problem | Rank(x.what) == k ensures x.what.BoolDiffers? && x.what.flag == f {}
  }

  lemma SwitchRead(p: Prefs, flags: Args.Flags, f: Flag)
    requires f in BOOL_FLAGS
    ensures forall isOn, wanted :: SwitchIs(p, flags, f, isOn, wanted) <==>
              isOn == Truth(BoolPref(p, f), Default(f)) && wanted == WantBool(flags, f)
  {
    OneSwitch(p, flags, f);
    hide On, WantBool;
  }

  lemma StringHolds(p: Prefs, flags: Args.Flags, tags: seq<string>, f: Flag, k: nat)
    requires f in STRING_FLAGS && Rank(StringDiffers(f)) == k < 19
    ensures Holds(StringSection(p, flags, f), k, p, flags, tags)
  {
    GivenSaid(flags, Name(f), "");
    TextExactly(StringPref(p, f), SaidText(flags, Name(f)));
    assert Name(Hostname) == "hostname" && Name(Operator) == "operator";
    hide SwitchIs, ControlAgrees, ModeAgrees, On, Said, HoldsText, IsMode, RoutesFix, SortedField, RoutesWanted,
         TagsWanted, KNOWN, WantsRoute, IsWord, Given, Name, Str;
    forall x: Problem | Rank(x.what) == k ensures x.what == StringDiffers(f) {}
  }

  lemma ControlHolds(p: Prefs, flags: Args.Flags, tags: seq<string>)
    ensures Holds(ControlSection(p, flags), 9, p, flags, tags)
  {
    ControlExactly(p, flags);
    assert Name(LoginServer) == "login-server";
    hide SwitchIs, ControlAgrees, ModeAgrees, On, Said, SaidText, HoldsText, IsMode, RoutesFix, SortedField,
         RoutesWanted, TagsWanted, KNOWN, IsWord, Given, Name, Str, RStripChar;
    forall x: Problem | Rank(x.what) == 9 ensures x.what == ControlNotDefault || x.what == ControlDiffers {}
  }

  lemma SnatHolds(p: Prefs, flags: Args.Flags, tags: seq<string>)
    ensures Holds(SnatSection(p, flags), 11, p, flags, tags)
  {
    RestExactly(p, flags);
    hide SwitchIs, ControlAgrees, ModeAgrees, On, Said, SaidText, HoldsText, IsMode, RoutesFix, SortedField,
         RoutesWanted, TagsWanted, KNOWN, IsWord, Given, Name, Str, TsBool;
    forall x: Problem | Rank(x.what) == 11 ensures x.what == SnatDiffers {}
  }

  lemma ModeHolds(p: Prefs, flags: Args.Flags, tags: seq<string>)
    ensures Holds(ModeSection(p, flags), 12, p, flags, tags)
  {
    ModeExactly(p, flags);
    var mode := Given(flags, "netfilter-mode", "on");
    GivenSaid(flags, "netfilter-mode", "on");
    ModesExactly(mode);
    OnIsOn();
    hide SwitchIs, ControlAgrees, ModeAgrees, On, HoldsText, IsMode, RoutesFix, SortedField, RoutesWanted,
         TagsWanted, KNOWN, WantsRoute, IsWord, Given, Said, Lower;
    forall x: Problem | Rank(x.what) == 12 ensures x.what.UnknownMode? || x.what.ModeDiffers? {}
  }

  lemma ModesExactly(mode: string)
    ensures IsMode(mode, "off") <==> ModeNumber(mode) == Some(0)
    ensures IsMode(mode, "nodivert") <==> ModeNumber(mode) == Some(1)
    ensures IsMode(mode, "on") <==> ModeNumber(mode) == Some(2)
    ensures IsMode(mode, "off") ==> Lower(mode) == "off"
    ensures IsMode(mode, "nodivert") ==> Lower(mode) == "nodivert"
    ensures IsMode(mode, "on") ==> Lower(mode) == "on"
  {
    LowerExactly(mode, "off");
    LowerExactly(mode, "nodivert");
    LowerExactly(mode, "on");
    hide Lower, Lowers;
  }

  lemma OnIsOn()
    ensures IsMode("on", "on")
  {
    LowerExactly("on", "on");
    assert Lower("on") == "on";
    hide Lower, Lowers;
  }

  lemma ExitNodeHolds(p: Prefs, flags: Args.Flags, tags: seq<string>)
    ensures Holds(ExitNodeSection(p, flags), 14, p, flags, tags)
  {
    RestExactly(p, flags);
    hide SwitchIs, ControlAgrees, ModeAgrees, On, Said, SaidText, HoldsText, IsMode, RoutesFix, SortedField,
         RoutesWanted, TagsWanted, KNOWN, IsWord, Given, Name, Str;
    forall x: Problem | Rank(x.what) == 14 ensures x.what == ExitNodeUnverifiable || x.what == ExitNodeInUse {}
  }

  lemma ByHandHolds(p: Prefs, flags: Args.Flags, tags: seq<string>)
    ensures Holds(MustBeFalse(p.runWebClient, "RunWebClient", WebClient), 15, p, flags, tags)
    ensures Holds(MustBeFalse(p.postureChecking, "PostureChecking", ReportPosture), 17, p, flags, tags)
  {
    hide SwitchIs, ControlAgrees, ModeAgrees, On, Said, SaidText, HoldsText, IsMode, RoutesFix, SortedField,
         RoutesWanted, TagsWanted, KNOWN, IsWord;
    forall x: Problem ensures Rank(x.what) == 15 <==> x.what == SetByHand("RunWebClient") {}
    forall x: Problem ensures Rank(x.what) == 17 <==> x.what == SetByHand("PostureChecking") {}
    hide Rank;
  }

  lemma ServicesHold(p: Prefs, flags: Args.Flags, tags: seq<string>)
    ensures Holds(ServicesSection(p), 16, p, flags, tags)
  {
    hide SwitchIs, ControlAgrees, ModeAgrees, On, Said, SaidText, HoldsText, IsMode, RoutesFix, SortedField,
         RoutesWanted, TagsWanted, KNOWN, IsWord;
    forall x: Problem ensures Rank(x.what) == 16 <==> x.what == SetByHand("AdvertiseServices") {}
    hide Rank;
  }

  lemma LeftoverHolds(p: Prefs, flags: Args.Flags, tags: seq<string>)
    ensures Holds(UnverifiedSection(SortSet(flags.Keys - COMPARED)), 18, p, flags, tags)
  {
    var names := SortSet(flags.Keys - COMPARED);
    LeftoverExactly(flags);
    hide SortSet, COMPARED, KNOWN;
    forall x: Problem ensures x in UnverifiedSection(names) <==>
                              x.what.Unverifiable? && x.fix == [] && x.what.name in names
    {
      UnverifiedExactly(names, x);
    }
    hide SwitchIs, ControlAgrees, ModeAgrees, On, Said, SaidText, HoldsText, IsMode, RoutesFix, SortedField,
         RoutesWanted, TagsWanted, IsWord, UnverifiedSection;
    forall x: Problem ensures Rank(x.what) == 18 <==> x.what.Unverifiable? {}
    hide Rank;
  }

  lemma LeftoverExactly(flags: Args.Flags)
    ensures forall name :: name in SortSet(flags.Keys - COMPARED) <==> name in flags && name !in KNOWN
  {
    var names := SortSet(flags.Keys - COMPARED);
    CheckedNames();
    hide COMPARED, KNOWN, Checked;
    forall name ensures name in names <==> name in flags && name !in KNOWN {
      KnownExactly(name);
      assert name in names <==> name in Elems(names);
    }
  }

  lemma UnverifiedExactly(names: seq<string>, x: Problem)
    ensures x in UnverifiedSection(names) <==> x.what.Unverifiable? && x.fix == [] && x.what.name in names
  {
    if x.what.Unverifiable? && x.fix == [] && x.what.name in names {
      var i :| 0 <= i < |names| && names[i] == x.what.name;
      assert UnverifiedSection(names)[i] == x;
    }
  }

  lemma {:induction false} SortedUnique(a: seq<string>, b: seq<string>)
    requires Sorted(a) && Sorted(b) && multiset(a) == multiset(b)
    ensures a == b
  {
    assert |multiset(a)| == |a| && |multiset(b)| == |b|;
    if a != [] {
      SameHead(a, b);
      hide Sorted;
      RestOfMultiset(a);
      RestOfMultiset(b);
      SortedUnique(a[1..], b[1..]);
      assert a == [a[0]] + a[1..] && b == [b[0]] + b[1..];
    }
  }

  lemma SameHead(a: seq<string>, b: seq<string>)
    requires Sorted(a) && Sorted(b) && multiset(a) == multiset(b) && a != [] && b != []
    ensures a[0] == b[0] && Sorted(a[1..]) && Sorted(b[1..])
  {
    hide Leq;
    assert a[0] in multiset(b) && b[0] in multiset(a);
    HeadIsLeast(a, b[0]);
    HeadIsLeast(b, a[0]);
    LeqTotal(a[0], b[0]);
  }

  lemma RestOfMultiset(a: seq<string>)
    requires a != []
    ensures multiset(a[1..]) == multiset(a) - multiset{a[0]}
  {
    assert a == [a[0]] + a[1..];
  }

  lemma SortedFieldExactly(f: Field<seq<string>>, have: seq<string>)
    ensures SortedField(f, have) <==> have == Sort(List(f))
  {
    hide Sort, Sorted;
    if SortedField(f, have) {
      SortedUnique(have, Sort(List(f)));
    }
  }

  lemma SortSetExactly(e: set<string>, want: seq<string>)
    ensures want == SortSet(e) <==> Sorted(want) && Distinct(want) && Elems(want) == e
  {
    hide SortSet, Sorted, Distinct, Elems;
    if Sorted(want) && Distinct(want) && Elems(want) == e {
      SortedDistinctUnique(want, SortSet(e));
    }
  }

  lemma RoutesHold(p: Prefs, flags: Args.Flags, tags: seq<string>)
    ensures Holds(RoutesSection(p, flags), 10, p, flags, tags)
  {
    forall x: Problem ensures x in RoutesSection(p, flags) <==> Rank(x.what) == 10 && Reported(p, flags, tags, x) {
      RankedRoutes(x.what);
      hide Reported, Rank, RoutesSection;
      if x.what.RoutesDiffer? {
        RouteReported(p, flags, tags, x);
      } else {
        OnlyRoutes(p, flags, x);
      }
    }
  }

  lemma RankedRoutes(what: Message)
    ensures Rank(what) == 10 <==> what.RoutesDiffer?
  {
  }

  lemma OnlyRoutes(p: Prefs, flags: Args.Flags, x: Problem)
    ensures x in RoutesSection(p, flags) ==> x.what.RoutesDiffer?
  {
    hide Sort, WantRoutes, List, GivenRoutes, GivenExit, RoutesFix;
  }

  lemma RouteReported(p: Prefs, flags: Args.Flags, tags: seq<string>, x: Problem)
    requires x.what.RoutesDiffer?
    ensures x in RoutesSection(p, flags) <==> Reported(p, flags, tags, x)
  {
    hide *;
    SortedFieldExactly(p.advertiseRoutes, x.what.have);
    RoutesOne(p, flags, x);
    RouteMeant(p, flags, tags, x);
    WantedRoutes(flags, x.what.want);
  }

  ghost function RoutesMend(p: Prefs, flags: Args.Flags): seq<Setting> {
    RoutesFix(Sort(List(p.advertiseRoutes)), GivenRoutes(flags), GivenExit(flags))
  }

  lemma RoutesOne(p: Prefs, flags: Args.Flags, x: Problem)
    requires x.what.RoutesDiffer?
    ensures x in RoutesSection(p, flags) <==>
            && x.what.have == Sort(List(p.advertiseRoutes)) && x.what.want == WantRoutes(flags)
            && x.fix == RoutesMend(p, flags) && x.what.have != x.what.want
  {
    hide Sort, WantRoutes, List, GivenRoutes, GivenExit, RoutesFix;
  }

  lemma RouteMeant(p: Prefs, flags: Args.Flags, tags: seq<string>, x: Problem)
    requires x.what.RoutesDiffer?
    requires SortedField(p.advertiseRoutes, x.what.have) ==> x.what.have == Sort(List(p.advertiseRoutes))
    ensures Reported(p, flags, tags, x) <==>
            && SortedField(p.advertiseRoutes, x.what.have) && RoutesWanted(flags, x.what.want)
            && x.fix == RoutesMend(p, flags) && x.what.have != x.what.want
  {
    ExitExactly(flags);
    SaidRoutes(flags);
    hide On, SaidText, RoutesFix, SortedField, RoutesWanted, Sort, List, GivenRoutes, GivenExit, TsList;
  }

  lemma SaidRoutes(flags: Args.Flags)
    ensures GivenRoutes(flags) == TsList(SaidText(flags, "advertise-routes"))
  {
    GivenSaid(flags, "advertise-routes", "");
    hide TsList, Given, Said;
  }

  lemma WantedRoutes(flags: Args.Flags, want: seq<string>)
    ensures RoutesWanted(flags, want) <==> want == WantRoutes(flags)
  {
    var e := Elems(GivenRoutes(flags)) + if GivenExit(flags) then EXIT_ROUTES else {};
    SortSetExactly(e, want);
    forall r ensures r in e <==> WantsRoute(flags, r) { RouteWanted(flags, r); }
    SameMembers(want, e);
    hide Sorted, Distinct, SortSet, WantsRoute, GivenRoutes, GivenExit, EXIT_ROUTES, Elems;
  }

  lemma RouteWanted(flags: Args.Flags, r: string)
    ensures r in Elems(GivenRoutes(flags)) + (if GivenExit(flags) then EXIT_ROUTES else {}) <==> WantsRoute(flags, r)
  {
    ExitExactly(flags);
    ListExactly(flags, "advertise-routes", r);
    RoutesNamed(flags);
    ExitRoutesExactly(r);
    hide TsList, Given, Listed, Said, On, GivenExit, EXIT_ROUTES, GivenRoutes;
  }

  lemma RoutesNamed(flags: Args.Flags)
    ensures GivenRoutes(flags) == TsList(Given(flags, "advertise-routes", ""))
  {
    hide TsList, Given;
  }

  lemma ExitRoutesExactly(r: string)
    ensures r in EXIT_ROUTES <==> r == "0.0.0.0/0" || r == "::/0"
  {
  }

  lemma SameMembers(s: seq<string>, e: set<string>)
    ensures Elems(s) == e <==> forall x :: x in s <==> x in e
  {
    SameSet(Elems(s), e);
  }

  lemma TagsHold(p: Prefs, flags: Args.Flags, tags: seq<string>)
    ensures Holds(TagsSection(p, flags, tags), 13, p, flags, tags)
  {
    forall x: Problem ensures x in TagsSection(p, flags, tags) <==> Rank(x.what) == 13 && Reported(p, flags, tags, x) {
      RankedTags(x.what);
      hide Reported, Rank, TagsSection;
      if x.what.TagsDiffer? {
        TagReported(p, flags, tags, x);
      } else {
        OnlyTags(p, flags, tags, x);
      }
    }
  }

  lemma RankedTags(what: Message)
    ensures Rank(what) == 13 <==> what.TagsDiffer?
  {
  }

  lemma OnlyTags(p: Prefs, flags: Args.Flags, tags: seq<string>, x: Problem)
    ensures x in TagsSection(p, flags, tags) ==> x.what.TagsDiffer?
  {
    hide Sort, WantTags, List;
  }

  lemma TagReported(p: Prefs, flags: Args.Flags, tags: seq<string>, x: Problem)
    requires x.what.TagsDiffer?
    ensures x in TagsSection(p, flags, tags) <==> Reported(p, flags, tags, x)
  {
    hide *;
    TagsOne(p, flags, tags, x);
    TagMeant(p, flags, tags, x);
    SortedFieldExactly(p.advertiseTags, x.what.have);
    WantedTags(flags, tags, x.what.want);
  }

  lemma TagsOne(p: Prefs, flags: Args.Flags, tags: seq<string>, x: Problem)
    requires x.what.TagsDiffer?
    ensures x in TagsSection(p, flags, tags) <==>
            && x.what.have == Sort(List(p.advertiseTags)) && x.what.want == WantTags(flags, tags)
            && x.fix == [] && x.what.have != x.what.want
  {
    hide Sort, WantTags, List;
  }

  lemma TagMeant(p: Prefs, flags: Args.Flags, tags: seq<string>, x: Problem)
    requires x.what.TagsDiffer?
    ensures Reported(p, flags, tags, x) <==>
            && SortedField(p.advertiseTags, x.what.have) && TagsWanted(flags, tags, x.what.want)
            && x.fix == [] && x.what.have != x.what.want
  {
    hide SortedField, TagsWanted;
  }

  lemma WantedTags(flags: Args.Flags, tags: seq<string>, want: seq<string>)
    ensures TagsWanted(flags, tags, want) <==> want == WantTags(flags, tags)
  {
    var e := Elems(TsList(Given(flags, Name(AdvertiseTags), ""))) + (set t | t in tags :: Tagged(t));
    SortSetExactly(e, want);
    forall t ensures t in e <==> Listed(Said(flags, "advertise-tags"), t) || WantedTag(tags, t) {
      TagWanted(flags, tags, t);
    }
    SameMembers(want, e);
    hide Sorted, Distinct, SortSet, TsList, Given, Listed, Said, WantedTag, Tagged, Elems, Name;
  }

  lemma TagWanted(flags: Args.Flags, tags: seq<string>, t: string)
    ensures t in Elems(TsList(Given(flags, Name(AdvertiseTags), ""))) + (set x | x in tags :: Tagged(x))
            <==> Listed(Said(flags, "advertise-tags"), t) || WantedTag(tags, t)
  {
    ListExactly(flags, "advertise-tags", t);
    TaggedExactly(tags, t);
    assert Name(AdvertiseTags) == "advertise-tags";
    hide TsList, Given, Listed, Said, WantedTag, Tagged, Name;
  }

  // -------------------------------------------------------------------------
  // The whole report
  // -------------------------------------------------------------------------

  lemma SectionsHold(p: Prefs, flags: Args.Flags, tags: seq<string>)
    ensures var s := Sections(p, flags, tags); |s| == 19 && forall k :: 0 <= k < 19 ==> Holds(s[k], k, p, flags, tags)
  {
    SwitchesHold(p, flags, tags);
    hide *;
    SectionList(p, flags, tags);
    LoginHolds(p, flags, tags);
    WordsHold(p, flags, tags);
    ControlHolds(p, flags, tags);
    RoutesHold(p, flags, tags);
    SnatHolds(p, flags, tags);
    ModeHolds(p, flags, tags);
    TagsHold(p, flags, tags);
    ExitNodeHolds(p, flags, tags);
    ByHandHolds(p, flags, tags);
    ServicesHold(p, flags, tags);
    LeftoverHolds(p, flags, tags);
  }

  lemma SwitchesHold(p: Prefs, flags: Args.Flags, tags: seq<string>)
    ensures Holds(BoolSection(p, flags, AcceptDns), 2, p, flags, tags)
    ensures Holds(BoolSection(p, flags, AcceptRoutes), 3, p, flags, tags)
    ensures Holds(BoolSection(p, flags, Ssh), 4, p, flags, tags)
    ensures Holds(BoolSection(p, flags, ShieldsUp), 5, p, flags, tags)
    ensures Holds(BoolSection(p, flags, ExitNodeAllowLan), 6, p, flags, tags)
    ensures Holds(StringSection(p, flags, Hostname), 7, p, flags, tags)
    ensures Holds(StringSection(p, flags, Operator), 8, p, flags, tags)
  {
    hide Holds, BoolSection, StringSection;
    SwitchHolds(p, flags, tags, AcceptDns, 2);
    SwitchHolds(p, flags, tags, AcceptRoutes, 3);
    SwitchHolds(p, flags, tags, Ssh, 4);
    SwitchHolds(p, flags, tags, ShieldsUp, 5);
    SwitchHolds(p, flags, tags, ExitNodeAllowLan, 6);
    StringHolds(p, flags, tags, Hostname, 7);
    StringHolds(p, flags, tags, Operator, 8);
  }

  /** Every difference there is is reported, with these texts and settings, and nothing else is. */
  lemma ReportedExactly(p: Prefs, flags: Args.Flags, tags: seq<string>, x: Problem)
    ensures x in Problems(p, flags, tags) <==> Reported(p, flags, tags, x)
  {
    SectionsHold(p, flags, tags);
    RankBound(p, flags, tags, x);
    var s := Sections(p, flags, tags);
    hide Sections, Reported, Rank, Concat;
    if x in Concat(s) {
      var k := FromConcat(s, x);
    }
    if Reported(p, flags, tags, x) {
      InConcat(s, Rank(x.what), x);
    }
  }

  lemma RankBound(p: Prefs, flags: Args.Flags, tags: seq<string>, x: Problem)
    ensures Reported(p, flags, tags, x) ==> Rank(x.what) < 19
  {
    hide ControlAgrees, ModeAgrees, On, Said, SaidText, HoldsText, IsMode, RoutesFix, SortedField, RoutesWanted,
         TagsWanted, KNOWN, WantsRoute, IsWord;
  }

  // -------------------------------------------------------------------------
  // The order of the report
  // -------------------------------------------------------------------------

  /** A difference goes before those of a later rank; of the flags that cannot be checked each is named
      once, in order. */
  ghost predicate Before(x: Problem, y: Problem) {
    || Rank(x.what) < Rank(y.what)
    || (x.what.UnexpectedArgument? && y.what.UnexpectedArgument?)
    || (x.what.Unverifiable? && y.what.Unverifiable? && Leq(x.what.name, y.what.name) && x.what.name != y.what.name)
  }

  ghost predicate InOrder(found: seq<Problem>) {
    forall i, j :: 0 <= i < j < |found| ==> Before(found[i], found[j])
  }

  ghost predicate RankedBelow(found: seq<Problem>, n: nat) { forall x :: x in found ==> Rank(x.what) < n }

  lemma {:induction false} ConcatInOrder(s: seq<seq<Problem>>)
    requires forall k :: 0 <= k < |s| ==> InOrder(s[k]) && forall x :: x in s[k] ==> Rank(x.what) == k
    ensures InOrder(Concat(s)) && RankedBelow(Concat(s), |s|)
  {
    hide Rank;
    if s != [] {
      var n := |s| - 1;
      ConcatInOrder(s[..n]);
      OneAfter(Concat(s[..n]), s[n], n);
    }
  }

  lemma OneAfter(a: seq<Problem>, b: seq<Problem>, n: nat)
    requires InOrder(a) && RankedBelow(a, n) && InOrder(b) && forall x :: x in b ==> Rank(x.what) == n
    ensures InOrder(a + b) && RankedBelow(a + b, n + 1)
  {
    hide Rank;
    var c := a + b;
    forall i, j | 0 <= i < j < |c| ensures Before(c[i], c[j]) {
      if j < |a| {
        assert c[i] == a[i] && c[j] == a[j];
      } else if i < |a| {
        assert c[i] in a && c[j] in b;
      } else {
        assert c[i] == b[i - |a|] && c[j] == b[j - |a|];
      }
    }
  }

  lemma ShortInOrder(s: seq<Problem>)
    requires |s| <= 1
    ensures InOrder(s)
  {
  }

  lemma WordsInOrder(words: seq<string>)
    ensures InOrder(Unexpected(words))
  {
  }

  lemma NamesInOrder(names: seq<string>)
    requires Sorted(names) && Distinct(names)
    ensures InOrder(UnverifiedSection(names))
  {
    forall i, j | 0 <= i < j < |names| ensures Leq(names[i], names[j]) && names[i] != names[j] {
      HeadIsLeast(names[i..], names[j]);
    }
    hide Leq;
  }

  lemma SectionsInOrder(p: Prefs, flags: Args.Flags, tags: seq<string>)
    ensures var s := Sections(p, flags, tags); |s| == 19 && forall k :: 0 <= k < 19 ==> InOrder(s[k])
  {
    hide *;
    SectionList(p, flags, tags);
    AtMostOne(p, flags, tags);
    WordsInOrder(PositionalWords(flags));
    NamesInOrder(SortSet(flags.Keys - COMPARED));
    var s := Sections(p, flags, tags);
    forall k | 0 <= k < 19 ensures InOrder(s[k]) {
      if k != 1 && k != 18 {
        ShortInOrder(s[k]);
      }
    }
  }

  lemma AtMostOne(p: Prefs, flags: Args.Flags, tags: seq<string>)
    ensures |Login(p)| <= 1 && |ControlSection(p, flags)| <= 1 && |RoutesSection(p, flags)| <= 1
    ensures |SnatSection(p, flags)| <= 1 && |ModeSection(p, flags)| <= 1 && |TagsSection(p, flags, tags)| <= 1
    ensures |ExitNodeSection(p, flags)| <= 1 && |ServicesSection(p)| <= 1
    ensures forall f :: |BoolSection(p, flags, f)| <= 1 && |StringSection(p, flags, f)| <= 1
    ensures forall f, pref, reset :: |MustBeFalse(f, pref, reset)| <= 1
  {
    hide Name, Given, WantBool, BoolPref, StringPref, Sort, WantRoutes, WantTags, List, RoutesFix, GivenRoutes,
         GivenExit, TsBool, ModeNumber, ModeIs, RStripChar;
  }

  /** The report is in the order of the ranks, one difference a rank except the words and the flags that
      cannot be checked. */
  lemma ReportInOrder(p: Prefs, flags: Args.Flags, tags: seq<string>)
    ensures InOrder(Problems(p, flags, tags))
  {
    AllSections(p, flags, tags);
    hide *;
    SectionsInOrder(p, flags, tags);
    RanksOfSections(p, flags, tags);
    ConcatInOrder(Sections(p, flags, tags));
  }

  lemma AllSections(p: Prefs, flags: Args.Flags, tags: seq<string>)
    ensures Problems(p, flags, tags) == Concat(Sections(p, flags, tags))
  {
    hide Sections, Concat;
  }

  lemma RanksOfSections(p: Prefs, flags: Args.Flags, tags: seq<string>)
    ensures var s := Sections(p, flags, tags);
            |s| == 19 && forall k :: 0 <= k < 19 ==> forall x: Problem :: x in s[k] ==> Rank(x.what) == k
  {
    SectionsHold(p, flags, tags);
    hide Sections, Rank, Reported;
    var s := Sections(p, flags, tags);
    forall k | 0 <= k < 19 ensures forall x: Problem :: x in s[k] ==> Rank(x.what) == k {
      assert Holds(s[k], k, p, flags, tags);
    }
  }

  /** The words keep their own order, right behind the login. */
  lemma WordsComeFirst(p: Prefs, flags: Args.Flags, tags: seq<string>)
    ensures var words := PositionalWords(flags);
            var n := if p.loggedOut == Val(true) || p.wantRunning != Val(true) then 1 else 0;
            && |Problems(p, flags, tags)| >= n + |words|
            && forall k :: 0 <= k < |words| ==>
                 Problems(p, flags, tags)[n + k] == Problem(UnexpectedArgument(words[k]), [])
  {
    hide *;
    AllSections(p, flags, tags);
    SectionList(p, flags, tags);
    FirstTwo(Sections(p, flags, tags));
    LoginIsOne(p);
    var rest := Sections(p, flags, tags)[2..];
    Behind(Problems(p, flags, tags), Login(p), PositionalWords(flags), Concat(rest));
  }

  lemma LoginIsOne(p: Prefs)
    ensures |Login(p)| == if p.loggedOut == Val(true) || p.wantRunning != Val(true) then 1 else 0
  {
  }

  lemma FirstTwo(s: seq<seq<Problem>>)
    requires |s| >= 2
    ensures Concat(s) == s[0] + s[1] + Concat(s[2..])
  {
    hide Concat;
    assert s == [s[0], s[1]] + s[2..];
    ConcatAppend([s[0], s[1]], s[2..]);
    ConcatPair(s[0], s[1]);
  }

  lemma ConcatPair(a: seq<Problem>, b: seq<Problem>)
    ensures Concat([a, b]) == a + b
  {
    hide Concat;
    ConcatNone<Problem>();
    ConcatSnoc([], a);
    ConcatSnoc([a], b);
    assert [] + [a] == [a] && [a] + [b] == [a, b] && [] + a == a;
  }

  lemma Behind(all: seq<Problem>, before: seq<Problem>, words: seq<string>, after: seq<Problem>)
    requires all == before + Unexpected(words) + after
    ensures |all| >= |before| + |words|
    ensures forall k :: 0 <= k < |words| ==> all[|before| + k] == Problem(UnexpectedArgument(words[k]), [])
  {
    forall k | 0 <= k < |words| ensures all[|before| + k] == Problem(UnexpectedArgument(words[k]), []) {
      assert all[|before| + k] == Unexpected(words)[k];
    }
  }
}
