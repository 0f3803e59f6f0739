/** `tailscale set`: what the printed settings do to a node, and that they are the repair. */
module TailscaleSet {
  import opened Text
  import opened Ordering
  import opened Tailscale
  import Args = TailscaleArgs
  import Shlex

  // -------------------------------------------------------------------------
  // tailscale_prefs_problems and tailscale_set_args
  // -------------------------------------------------------------------------

  /** How one setting is printed: only the string flags are quoted for the shell. */
  function SettingText(s: Setting): string {
    "--" + Name(s.flag) + "=" + if s.flag in STRING_FLAGS then Shlex.Quote(s.value) else s.value
  }

  function SettingToken(s: Setting): string { Args.Spell(Name(s.flag), s.value) }

  function SettingTexts(fix: seq<Setting>): seq<string> {
    seq(|fix|, i requires 0 <= i < |fix| => SettingText(fix[i]))
  }

  function SettingTokens(fix: seq<Setting>): seq<string> {
    seq(|fix|, i requires 0 <= i < |fix| => SettingToken(fix[i]))
  }

  /** `[msg for msg, _ in found]`. */
  function Messages(found: seq<Problem>): seq<Message> {
    seq(|found|, i requires 0 <= i < |found| => found[i].what)
  }

  /** The `set` list: one printed argument for each problem that has a fix. */
  function SetTexts(found: seq<Problem>): seq<string> {
    if found == [] then []
    else
      var last := found[|found| - 1];
      SetTexts(found[..|found| - 1]) + if last.fix == [] then [] else [Join(SettingTexts(last.fix), " ")]
  }

  /** The `manual` list. */
  function Manual(found: seq<Problem>): seq<Message> {
    if found == [] then []
    else
      var last := found[|found| - 1];
      Manual(found[..|found| - 1]) + if last.fix == [] then [last.what] else []
  }

  /** Every setting of the repair, in the order printed. */
  function Settings(found: seq<Problem>): seq<Setting> {
    if found == [] then [] else Settings(found[..|found| - 1]) + found[|found| - 1].fix
  }

  /** Every difference is either in `set` or in `manual`. */
  lemma {:induction false} NothingDropped(found: seq<Problem>)
    ensures |SetTexts(found)| + |Manual(found)| == |found|
    ensures SetTexts(found) == [] <==> Settings(found) == []
  {
    if found != [] {
      NothingDropped(found[..|found| - 1]);
    }
  }

  lemma SnocFacts(found: seq<Problem>, last: Problem)
    ensures Settings(found + [last]) == Settings(found) + last.fix
    ensures Manual(found + [last]) == Manual(found) + if last.fix == [] then [last.what] else []
    ensures SetTexts(found + [last])
         == SetTexts(found) + if last.fix == [] then [] else [Join(SettingTexts(last.fix), " ")]
  {
    assert (found + [last])[..|found|] == found;
  }

  lemma Assoc<T>(x: seq<T>, y: seq<T>, z: seq<T>)
    ensures x + (y + z) == x + y + z
  {
  }

  lemma {:induction false} ReportAppend(a: seq<Problem>, b: seq<Problem>)
    ensures Manual(a + b) == Manual(a) + Manual(b)
    ensures Settings(a + b) == Settings(a) + Settings(b)
  {
    if b == [] {
      assert a + b == a;
    } else {
      var front, last := b[..|b| - 1], b[|b| - 1];
      assert b == front + [last];
      ReportAppend(a, front);
      ReportAppendOne(a, front, last);
    }
  }

  lemma ReportAppendOne(a: seq<Problem>, front: seq<Problem>, last: Problem)
    requires Manual(a + front) == Manual(a) + Manual(front) && Settings(a + front) == Settings(a) + Settings(front)
    ensures Manual(a + (front + [last])) == Manual(a) + Manual(front + [last])
    ensures Settings(a + (front + [last])) == Settings(a) + Settings(front + [last])
  {
    hide Settings, Manual, SetTexts;
    Assoc(a, front, [last]);
    SnocFacts(a + front, last);
    SnocFacts(front, last);
    Assoc(Settings(a), Settings(front), last.fix);
    Assoc(Manual(a), Manual(front), if last.fix == [] then [last.what] else []);
  }

  // -------------------------------------------------------------------------
  // The effect of the settings on a node
  // -------------------------------------------------------------------------

  /** The value a command line gives to a flag: the last one wins. */
  function Lookup(fix: seq<Setting>, f: Flag): Option<string> {
    if fix == [] then None
    else if fix[|fix| - 1].flag == f then Some(fix[|fix| - 1].value)
    else Lookup(fix[..|fix| - 1], f)
  }

  function SetBool(was: Field<bool>, fix: seq<Setting>, f: Flag): Field<bool> {
    match Lookup(fix, f) case None => was case Some(v) => Val(v == "true")
  }

  function SetText(was: Field<string>, fix: seq<Setting>, f: Flag): Field<string> {
    match Lookup(fix, f) case None => was case Some(v) => Val(v)
  }

  /** The advertised routes form a set. `--advertise-routes` replaces the plain routes and keeps
      the exit pair only when the node advertised both halves of it; `--advertise-exit-node`
      adds or removes the pair. */
  function SetRoutes(was: Field<seq<string>>, fix: seq<Setting>): Field<seq<string>> {
    var have := Elems(List(was));
    match (Lookup(fix, AdvertiseRoutes), Lookup(fix, AdvertiseExitNode))
    case (None, None) => was
    case (Some(v), None) => Val(SortSet(Elems(TsList(v)) + if EXIT_ROUTES <= have then EXIT_ROUTES else {}))
    case (None, Some(e)) => Val(SortSet(have - EXIT_ROUTES + if e == "true" then EXIT_ROUTES else {}))
    case (Some(v), Some(e)) => Val(SortSet(Elems(TsList(v)) + if e == "true" then EXIT_ROUTES else {}))
  }

  function SetNoSNAT(was: Field<bool>, fix: seq<Setting>): Field<bool> {
    match Lookup(fix, SnatSubnetRoutes) case None => was case Some(v) => Val(v != "true")
  }

  function SetMode(was: Field<int>, fix: seq<Setting>): Field<int> {
    match Lookup(fix, NetfilterMode)
    case None => was
    case Some(v) => match ModeNumber(v) case None => was case Some(n) => Val(n)
  }

  function SetExitNodeID(was: Field<string>, fix: seq<Setting>): Field<string> {
    if Lookup(fix, ExitNode) == Some("") then Val("") else was
  }

  function Apply(p: Prefs, fix: seq<Setting>): Prefs {
    p.(corpDNS := SetBool(p.corpDNS, fix, AcceptDns),
       routeAll := SetBool(p.routeAll, fix, AcceptRoutes),
       runSSH := SetBool(p.runSSH, fix, Ssh),
       shieldsUp := SetBool(p.shieldsUp, fix, ShieldsUp),
       exitNodeAllowLAN := SetBool(p.exitNodeAllowLAN, fix, ExitNodeAllowLan),
       hostname := SetText(p.hostname, fix, Hostname),
       operatorUser := SetText(p.operatorUser, fix, Operator),
       advertiseRoutes := SetRoutes(p.advertiseRoutes, fix),
       noSNAT := SetNoSNAT(p.noSNAT, fix),
       netfilterMode := SetMode(p.netfilterMode, fix),
       exitNodeID := SetExitNodeID(p.exitNodeID, fix),
       exitNodeIP := SetText(p.exitNodeIP, fix, ExitNode),
       runWebClient := SetBool(p.runWebClient, fix, WebClient),
       postureChecking := SetBool(p.postureChecking, fix, ReportPosture))
  }

  // -------------------------------------------------------------------------
  // Each flag is set by one section of the comparison
  // -------------------------------------------------------------------------

  /** The position among the sections of the one that may set `f`. */
  function Owner(f: Flag): nat {
    match f
    case AcceptDns => 2 case AcceptRoutes => 3 case Ssh => 4 case ShieldsUp => 5 case ExitNodeAllowLan => 6
    case Hostname => 7 case Operator => 8 case LoginServer => 9
    case AdvertiseRoutes => 10 case AdvertiseExitNode => 10
    case SnatSubnetRoutes => 11 case NetfilterMode => 12 case AdvertiseTags => 13 case ExitNode => 14
    case WebClient => 15 case ReportPosture => 17
  }

  ghost predicate OwnedBy(fix: seq<Setting>, k: nat) {
    forall i :: 0 <= i < |fix| ==> Owner(fix[i].flag) == k
  }

  lemma SectionList(p: Prefs, flags: Args.Flags, tags: seq<string>)
    ensures var s := Sections(p, flags, tags);
            && |s| == 19
            && s[0] == Login(p) && s[1] == Unexpected(PositionalWords(flags))
            && s[2] == BoolSection(p, flags, AcceptDns) && s[3] == BoolSection(p, flags, AcceptRoutes)
            && s[4] == BoolSection(p, flags, Ssh) && s[5] == BoolSection(p, flags, ShieldsUp)
            && s[6] == BoolSection(p, flags, ExitNodeAllowLan)
            && s[7] == StringSection(p, flags, Hostname) && s[8] == StringSection(p, flags, Operator)
            && s[9] == ControlSection(p, flags) && s[10] == RoutesSection(p, flags) && s[11] == SnatSection(p, flags)
            && s[12] == ModeSection(p, flags) && s[13] == TagsSection(p, flags, tags)
               && s[14] == ExitNodeSection(p, flags)
            && s[15] == MustBeFalse(p.runWebClient, "RunWebClient", WebClient) && s[16] == ServicesSection(p)
            && s[17] == MustBeFalse(p.postureChecking, "PostureChecking", ReportPosture)
            && s[18] == UnverifiedSection(SortSet(flags.Keys - COMPARED))
  {
    hide Name, SortSet, Login, Unexpected, PositionalWords, BoolSection, StringSection, ControlSection, RoutesSection,
         SnatSection, ModeSection, TagsSection, ExitNodeSection, MustBeFalse, ServicesSection, UnverifiedSection;
  }

  lemma {:induction false} ManualOnly(found: seq<Problem>)
    requires forall i :: 0 <= i < |found| ==> found[i].fix == []
    ensures Settings(found) == []
  {
    if found != [] {
      ManualOnly(found[..|found| - 1]);
    }
  }

  lemma SettingsOfOne(problem: Problem)
    ensures Settings([problem]) == problem.fix
    ensures Manual([problem]) == if problem.fix == [] then [problem.what] else []
  {
    assert [problem][..0] == [];
    assert Settings([]) + problem.fix == problem.fix;
  }

  /** A section reports at most one fixable problem, and only flag settings of its own. */
  ghost predicate Owns(s: seq<Problem>, k: nat) {
    |s| <= 1 && (s != [] ==> OwnedBy(s[0].fix, k))
  }

  lemma OwnsSettings(s: seq<Problem>, k: nat)
    requires Owns(s, k)
    ensures OwnedBy(Settings(s), k)
  {
    if s != [] {
      assert s == [s[0]];
      SettingsOfOne(s[0]);
    }
  }

  lemma NothingOwned(k: nat)
    ensures OwnedBy([], k)
  {
  }

  lemma SimpleSectionsOwned(p: Prefs, flags: Args.Flags, tags: seq<string>)
    ensures Owns(Login(p), 0)
    ensures Owns(ControlSection(p, flags), 9) && Owns(TagsSection(p, flags, tags), 13) && Owns(ServicesSection(p), 16)
    ensures Owns(SnatSection(p, flags), 11) && Owns(ExitNodeSection(p, flags), 14)
    ensures Owns(MustBeFalse(p.runWebClient, "RunWebClient", WebClient), 15)
    ensures Owns(MustBeFalse(p.postureChecking, "PostureChecking", ReportPosture), 17)
  {
    hide Name, SortSet, Sort, TsBool, Given, WantTags;
  }

  lemma FlagSectionsOwned(p: Prefs, flags: Args.Flags, f: Flag)
    ensures Owns(BoolSection(p, flags, f), Owner(f)) && Owns(StringSection(p, flags, f), Owner(f))
  {
    hide Name, TsBool, Given;
  }

  lemma ModeAndRoutesOwned(p: Prefs, flags: Args.Flags)
    ensures Owns(ModeSection(p, flags), 12) && Owns(RoutesSection(p, flags), 10)
  {
    hide Name, TsBool, Given, Sort, SortSet, TsList, Lower, Join, WithoutExit;
  }

  lemma ManualSectionsOwned(words: seq<string>, names: seq<string>)
    ensures Settings(Unexpected(words)) == [] && Settings(UnverifiedSection(names)) == []
  {
    ManualOnly(Unexpected(words));
    ManualOnly(UnverifiedSection(names));
  }

  lemma SectionOwned(p: Prefs, flags: Args.Flags, tags: seq<string>, k: nat)
    requires k < 19
    ensures |Sections(p, flags, tags)| == 19 && OwnedBy(Settings(Sections(p, flags, tags)[k]), k)
  {
    hide Name, SortSet, Login, Unexpected, PositionalWords, BoolSection, StringSection, ControlSection, RoutesSection,
         SnatSection, ModeSection, TagsSection, ExitNodeSection, MustBeFalse, ServicesSection, UnverifiedSection,
         Sections, Owns, OwnedBy, COMPARED, Settings;
    SectionList(p, flags, tags);
    SimpleSectionsOwned(p, flags, tags);
    ModeAndRoutesOwned(p, flags);
    ManualSectionsOwned(PositionalWords(flags), SortSet(flags.Keys - COMPARED));
    FlagSectionsOwned(p, flags, AcceptDns);
    FlagSectionsOwned(p, flags, AcceptRoutes);
    FlagSectionsOwned(p, flags, Ssh);
    FlagSectionsOwned(p, flags, ShieldsUp);
    FlagSectionsOwned(p, flags, ExitNodeAllowLan);
    FlagSectionsOwned(p, flags, Hostname);
    FlagSectionsOwned(p, flags, Operator);
    var s := Sections(p, flags, tags)[k];
    if k != 1 && k != 18 {
      OwnsSettings(s, k);
    } else {
      NothingOwned(k);
    }
  }

  lemma {:induction false} LookupNone(fix: seq<Setting>, f: Flag)
    requires forall i :: 0 <= i < |fix| ==> fix[i].flag != f
    ensures Lookup(fix, f) == None
  {
    if fix != [] {
      LookupNone(fix[..|fix| - 1], f);
    }
  }

  lemma {:induction false} LookupAppend(a: seq<Setting>, b: seq<Setting>, f: Flag)
    ensures Lookup(a + b, f) == if Lookup(b, f).Some? then Lookup(b, f) else Lookup(a, f)
  {
    if b == [] {
      assert a + b == a;
    } else {
      var n := |b| - 1;
      assert (a + b)[..|a| + n] == a + b[..n] && (a + b)[|a| + n] == b[n];
      LookupAppend(a, b[..n], f);
    }
  }

  /** In a list of sections that own their flags, a flag is looked up in its own section. */
  lemma {:induction false} LookupInSection(parts: seq<seq<Problem>>, f: Flag)
    requires forall k :: 0 <= k < |parts| ==> OwnedBy(Settings(parts[k]), k)
    ensures Lookup(Settings(Concat(parts)), f)
         == if Owner(f) < |parts| then Lookup(Settings(parts[Owner(f)]), f) else None
  {
    hide Owner;
    if parts != [] {
      var n := |parts| - 1;
      LookupInSection(parts[..n], f);
      ReportAppend(Concat(parts[..n]), parts[n]);
      LookupAppend(Settings(Concat(parts[..n])), Settings(parts[n]), f);
      if Owner(f) != n {
        LookupNone(Settings(parts[n]), f);
      }
    }
  }

  // -------------------------------------------------------------------------
  // After the settings, every section is settled
  // -------------------------------------------------------------------------

  /** Nothing left to set, and the same things left to do by hand. */
  ghost predicate Settled(before: seq<Problem>, after: seq<Problem>) {
    Settings(after) == [] && Manual(after) == Manual(before)
  }

  lemma {:induction false} ConcatSettled(before: seq<seq<Problem>>, after: seq<seq<Problem>>)
    requires |before| == |after|
    requires forall k :: 0 <= k < |before| ==> Settled(before[k], after[k])
    ensures Settled(Concat(before), Concat(after))
  {
    if before != [] {
      var n := |before| - 1;
      ConcatSettled(before[..n], after[..n]);
      ReportAppend(Concat(before[..n]), before[n]);
      ReportAppend(Concat(after[..n]), after[n]);
    }
  }

  /** What the whole repair sets a flag to is what the flag's own section asked for. */
  ghost predicate AskedFor(fix: seq<Setting>, section: seq<Problem>, f: Flag) {
    Lookup(fix, f) == Lookup(Settings(section), f)
  }

  lemma LookupOne(problem: Problem, f: Flag)
    requires |problem.fix| == 1
    ensures Lookup(Settings([problem]), f) == if problem.fix[0].flag == f then Some(problem.fix[0].value) else None
  {
    SettingsOfOne(problem);
    assert problem.fix[..0] == [];
  }

  lemma BoolSettled(p: Prefs, q: Prefs, flags: Args.Flags, f: Flag, fix: seq<Setting>)
    requires AskedFor(fix, BoolSection(p, flags, f), f)
    requires BoolPref(q, f) == SetBool(BoolPref(p, f), fix, f)
    ensures Settled(BoolSection(p, flags, f), BoolSection(q, flags, f))
  {
    hide Name, WantBool, BoolPref;
    var s := BoolSection(p, flags, f);
    if s != [] {
      LookupOne(s[0], f);
      SettingsOfOne(s[0]);
    }
  }

  lemma StringSettled(p: Prefs, q: Prefs, flags: Args.Flags, f: Flag, fix: seq<Setting>)
    requires AskedFor(fix, StringSection(p, flags, f), f)
    requires StringPref(q, f) == SetText(StringPref(p, f), fix, f)
    ensures Settled(StringSection(p, flags, f), StringSection(q, flags, f))
  {
    hide Name, Given, StringPref;
    var s := StringSection(p, flags, f);
    if s != [] {
      LookupOne(s[0], f);
      SettingsOfOne(s[0]);
    }
  }

  lemma SnatSettled(p: Prefs, q: Prefs, flags: Args.Flags, fix: seq<Setting>)
    requires q.noSNAT == SetNoSNAT(p.noSNAT, fix)
    requires AskedFor(fix, SnatSection(p, flags), SnatSubnetRoutes)
    ensures Settled(SnatSection(p, flags), SnatSection(q, flags))
  {
    hide Name, Given, TsBool;
    var s := SnatSection(p, flags);
    if s != [] {
      LookupOne(s[0], SnatSubnetRoutes);
      SettingsOfOne(s[0]);
    }
  }

  lemma {:induction false} LowerTwice(s: string)
    ensures Lower(Lower(s)) == Lower(s)
  {
    if s != "" {
      LowerTwice(s[1..]);
      assert Lower(s)[1..] == Lower(s[1..]);
    }
  }

  lemma ModeOfLower(mode: string)
    ensures ModeNumber(Lower(mode)) == ModeNumber(mode)
  {
    LowerTwice(mode);
  }

  lemma ModeSettled(p: Prefs, q: Prefs, flags: Args.Flags, fix: seq<Setting>)
    requires q.netfilterMode == SetMode(p.netfilterMode, fix)
    requires AskedFor(fix, ModeSection(p, flags), NetfilterMode)
    ensures Settled(ModeSection(p, flags), ModeSection(q, flags))
  {
    hide Name, Given, ModeNumber;
    ModeOfLower(Given(flags, Name(NetfilterMode), "on"));
    var s := ModeSection(p, flags);
    if s != [] && s[0].fix != [] {
      LookupOne(s[0], NetfilterMode);
      SettingsOfOne(s[0]);
    } else if s != [] {
      SettingsOfOne(s[0]);
    }
  }

  lemma ExitNodeSettled(p: Prefs, q: Prefs, flags: Args.Flags, fix: seq<Setting>)
    requires q.exitNodeID == SetExitNodeID(p.exitNodeID, fix) && q.exitNodeIP == SetText(p.exitNodeIP, fix, ExitNode)
    requires AskedFor(fix, ExitNodeSection(p, flags), ExitNode)
    ensures Settled(ExitNodeSection(p, flags), ExitNodeSection(q, flags))
  {
    hide Name;
    var s := ExitNodeSection(p, flags);
    if s != [] && s[0].fix != [] {
      LookupOne(s[0], ExitNode);
      SettingsOfOne(s[0]);
    } else if s != [] {
      SettingsOfOne(s[0]);
    }
  }

  lemma MustBeFalseSettled(was: Field<bool>, pref: string, reset: Flag, fix: seq<Setting>)
    requires AskedFor(fix, MustBeFalse(was, pref, reset), reset)
    ensures Settled(MustBeFalse(was, pref, reset), MustBeFalse(SetBool(was, fix, reset), pref, reset))
  {
    var s := MustBeFalse(was, pref, reset);
    if s != [] {
      LookupOne(s[0], reset);
      SettingsOfOne(s[0]);
    }
  }

  // --- routes ---------------------------------------------------------------

  ghost predicate CleanParts(parts: seq<string>) {
    forall i :: 0 <= i < |parts| ==> parts[i] != "" && Strip(parts[i]) == parts[i] && ',' !in parts[i]
  }

  lemma {:induction false} CleanedIsClean(parts: seq<string>)
    requires forall i :: 0 <= i < |parts| ==> ',' !in parts[i]
    ensures CleanParts(Cleaned(parts))
  {
    if parts != [] {
      CleanedIsClean(parts[1..]);
      StripFacts(parts[0]);
      StripFacts(Strip(parts[0]));
    }
  }

  lemma {:induction false} CleanIsKept(parts: seq<string>)
    requires CleanParts(parts)
    ensures Cleaned(parts) == parts
  {
    if parts != [] {
      CleanIsKept(parts[1..]);
    }
  }

  /** Printing a parsed list with commas and parsing it again gives the list. */
  lemma ListRoundTrip(value: string)
    ensures var r := TsList(value); TsList(Join(r, ",")) == r && Sorted(r) && CleanParts(r)
  {
    var parts := Cleaned(Split(value, ','));
    CleanedIsClean(Split(value, ','));
    var r := Sort(parts);
    forall i | 0 <= i < |r| ensures r[i] != "" && Strip(r[i]) == r[i] && ',' !in r[i] {
      assert r[i] in multiset(r);
      assert r[i] in parts;
    }
    SortOfSorted(r);
    CleanIsKept(r);
    if r != [] {
      SplitJoin(r, ',');
    }
  }

  lemma {:induction false} WithoutExitElems(routes: seq<string>)
    ensures Elems(WithoutExit(routes)) == Elems(routes) - EXIT_ROUTES
  {
    if routes != [] {
      WithoutExitElems(routes[1..]);
      assert routes == [routes[0]] + routes[1..];
      var kept := if routes[0] in EXIT_ROUTES then [] else [routes[0]];
      assert Elems(kept + WithoutExit(routes[1..])) == Elems(kept) + Elems(WithoutExit(routes[1..]));
      assert Elems(routes) == {routes[0]} + Elems(routes[1..]);
    }
  }

  lemma RoutesLookups(have: seq<string>, routes: seq<string>, exit: bool)
    ensures var fix := RoutesFix(have, routes, exit);
            && Lookup(fix, AdvertiseRoutes)
               == (if Sort(WithoutExit(have)) != routes then Some(Join(routes, ",")) else None)
            && Lookup(fix, AdvertiseExitNode)
               == (if (EXIT_ROUTES <= Elems(have)) != exit then Some(BoolText(exit)) else None)
            && (fix == [] <==> Sort(WithoutExit(have)) == routes && (EXIT_ROUTES <= Elems(have)) == exit)
  {
    hide Sort, WithoutExit, Join, Elems;
    var a := if Sort(WithoutExit(have)) != routes then [Setting(AdvertiseRoutes, Join(routes, ","))] else [];
    var b := if (EXIT_ROUTES <= Elems(have)) != exit then [Setting(AdvertiseExitNode, BoolText(exit))] else [];
    LookupAppend(a, b, AdvertiseRoutes);
    LookupAppend(a, b, AdvertiseExitNode);
  }

  /** Whatever part of the routes repair is printed, the node ends up with the wanted set. */
  lemma RoutesReached(routes: seq<string>, exit: bool, text: string, was: Field<seq<string>>, fix: seq<Setting>)
    requires routes == TsList(text)
    requires var have := Sort(List(was));
             && Lookup(fix, AdvertiseRoutes) == Lookup(RoutesFix(have, routes, exit), AdvertiseRoutes)
             && Lookup(fix, AdvertiseExitNode) == Lookup(RoutesFix(have, routes, exit), AdvertiseExitNode)
             && RoutesFix(have, routes, exit) != []
    ensures SetRoutes(was, fix) == Val(SortSet(Elems(routes) + if exit then EXIT_ROUTES else {}))
  {
    hide TsList, Sort, SortSet, RoutesFix;
    var have := Sort(List(was));
    RoutesLookups(have, routes, exit);
    ListRoundTrip(text);
    SortElems(List(was));
    SortElems(WithoutExit(have));
    WithoutExitElems(have);
  }

  lemma RoutesSettled(p: Prefs, q: Prefs, flags: Args.Flags, fix: seq<Setting>)
    requires q.advertiseRoutes == SetRoutes(p.advertiseRoutes, fix)
    requires AskedFor(fix, RoutesSection(p, flags), AdvertiseRoutes)
    requires AskedFor(fix, RoutesSection(p, flags), AdvertiseExitNode)
    ensures Settled(RoutesSection(p, flags), RoutesSection(q, flags))
  {
    hide Name, TsList, TsBool, Given, Sort, SortSet, RoutesFix;
    var s := RoutesSection(p, flags);
    var routes, exit := GivenRoutes(flags), GivenExit(flags);
    if s == [] {
      assert q.advertiseRoutes == p.advertiseRoutes;
    } else {
      SettingsOfOne(s[0]);
      if s[0].fix == [] {
        assert q.advertiseRoutes == p.advertiseRoutes;
      } else {
        RoutesReached(routes, exit, Given(flags, Name(AdvertiseRoutes), ""), p.advertiseRoutes, fix);
        SortOfSorted(WantRoutes(flags));
        assert RoutesSection(q, flags) == [];
      }
    }
  }

  // -------------------------------------------------------------------------
  // The repair is a fixed point
  // -------------------------------------------------------------------------

  lemma EveryFlagAskedFor(p: Prefs, flags: Args.Flags, tags: seq<string>, f: Flag)
    ensures |Sections(p, flags, tags)| == 19
    ensures AskedFor(Settings(Problems(p, flags, tags)), Sections(p, flags, tags)[Owner(f)], f)
  {
    hide Sections;
    forall k | 0 <= k < 19
      ensures |Sections(p, flags, tags)| == 19 && OwnedBy(Settings(Sections(p, flags, tags)[k]), k)
    {
      SectionOwned(p, flags, tags, k);
    }
    SectionOwned(p, flags, tags, 0);
    LookupInSection(Sections(p, flags, tags), f);
  }

  /** The sections that no setting reaches report the same problems, none of them fixable. */
  lemma ManualSettled(p: Prefs, q: Prefs, flags: Args.Flags, tags: seq<string>)
    requires q.loggedOut == p.loggedOut && q.wantRunning == p.wantRunning && q.controlURL == p.controlURL
    requires q.advertiseTags == p.advertiseTags && q.advertiseServices == p.advertiseServices
    ensures Settled(Login(p), Login(q)) && Settled(ControlSection(p, flags), ControlSection(q, flags))
    ensures Settled(TagsSection(p, flags, tags), TagsSection(q, flags, tags))
    ensures Settled(ServicesSection(p), ServicesSection(q))
  {
    hide Name, Given, WantTags, Sort, RStripChar, Manual, Settings;
    ManualOnly(Login(p));
    ManualOnly(ControlSection(p, flags));
    ManualOnly(TagsSection(p, flags, tags));
    ManualOnly(ServicesSection(p));
  }

  lemma ApplyFields(p: Prefs, fix: seq<Setting>)
    ensures var q := Apply(p, fix);
            && q.loggedOut == p.loggedOut && q.wantRunning == p.wantRunning && q.controlURL == p.controlURL
            && q.advertiseTags == p.advertiseTags && q.advertiseServices == p.advertiseServices
            && q.advertiseRoutes == SetRoutes(p.advertiseRoutes, fix) && q.noSNAT == SetNoSNAT(p.noSNAT, fix)
            && q.netfilterMode == SetMode(p.netfilterMode, fix) && q.exitNodeID == SetExitNodeID(p.exitNodeID, fix)
            && q.exitNodeIP == SetText(p.exitNodeIP, fix, ExitNode)
            && q.runWebClient == SetBool(p.runWebClient, fix, WebClient)
            && q.postureChecking == SetBool(p.postureChecking, fix, ReportPosture)
    ensures forall f :: f in [AcceptDns, AcceptRoutes, Ssh, ShieldsUp, ExitNodeAllowLan] ==>
              BoolPref(Apply(p, fix), f) == SetBool(BoolPref(p, f), fix, f)
    ensures forall f :: f in [Hostname, Operator] ==>
              StringPref(Apply(p, fix), f) == SetText(StringPref(p, f), fix, f)
  {
    hide SetBool, SetText, SetRoutes, SetNoSNAT, SetMode, SetExitNodeID;
  }

  /** The section that owns a flag, and what the repair asks of it. */
  lemma AskedAt(p: Prefs, flags: Args.Flags, tags: seq<string>, f: Flag, k: nat, section: seq<Problem>)
    requires k == Owner(f) && |Sections(p, flags, tags)| == 19 && Sections(p, flags, tags)[k] == section
    ensures AskedFor(Settings(Problems(p, flags, tags)), section, f)
  {
    hide Sections, Problems, Settings, AskedFor;
    EveryFlagAskedFor(p, flags, tags, f);
  }

  lemma SwitchSettled(p: Prefs, flags: Args.Flags, tags: seq<string>, f: Flag)
    requires f in [AcceptDns, AcceptRoutes, Ssh, ShieldsUp, ExitNodeAllowLan]
    ensures Settled(BoolSection(p, flags, f),
                    BoolSection(Apply(p, Settings(Problems(p, flags, tags))), flags, f))
  {
    hide Name, SortSet, Login, Unexpected, PositionalWords, BoolSection, StringSection, ControlSection, RoutesSection,
         SnatSection, ModeSection, TagsSection, ExitNodeSection, MustBeFalse, ServicesSection, UnverifiedSection,
         Sections, COMPARED, Settings, Problems, Apply, Settled, AskedFor, BoolPref, SetBool;
    var fix := Settings(Problems(p, flags, tags));
    ApplyFields(p, fix);
    SectionList(p, flags, tags);
    AskedAt(p, flags, tags, f, Owner(f), BoolSection(p, flags, f));
    BoolSettled(p, Apply(p, fix), flags, f, fix);
  }

  lemma TextSettled(p: Prefs, flags: Args.Flags, tags: seq<string>, f: Flag)
    requires f in [Hostname, Operator]
    ensures Settled(StringSection(p, flags, f),
                    StringSection(Apply(p, Settings(Problems(p, flags, tags))), flags, f))
  {
    hide Name, SortSet, Login, Unexpected, PositionalWords, BoolSection, StringSection, ControlSection, RoutesSection,
         SnatSection, ModeSection, TagsSection, ExitNodeSection, MustBeFalse, ServicesSection, UnverifiedSection,
         Sections, COMPARED, Settings, Problems, Apply, Settled, AskedFor, StringPref, SetText;
    var fix := Settings(Problems(p, flags, tags));
    ApplyFields(p, fix);
    SectionList(p, flags, tags);
    AskedAt(p, flags, tags, f, Owner(f), StringSection(p, flags, f));
    StringSettled(p, Apply(p, fix), flags, f, fix);
  }

  lemma ResetsSettled(p: Prefs, flags: Args.Flags, tags: seq<string>)
    ensures var q := Apply(p, Settings(Problems(p, flags, tags)));
            && Settled(MustBeFalse(p.runWebClient, "RunWebClient", WebClient),
                       MustBeFalse(q.runWebClient, "RunWebClient", WebClient))
            && Settled(MustBeFalse(p.postureChecking, "PostureChecking", ReportPosture),
                       MustBeFalse(q.postureChecking, "PostureChecking", ReportPosture))
  {
    hide Name, SortSet, Login, Unexpected, PositionalWords, BoolSection, StringSection, ControlSection, RoutesSection,
         SnatSection, ModeSection, TagsSection, ExitNodeSection, MustBeFalse, ServicesSection, UnverifiedSection,
         Sections, COMPARED, Settings, Problems, Apply, Settled, AskedFor, SetBool;
    var fix := Settings(Problems(p, flags, tags));
    ApplyFields(p, fix);
    SectionList(p, flags, tags);
    AskedAt(p, flags, tags, WebClient, 15, MustBeFalse(p.runWebClient, "RunWebClient", WebClient));
    MustBeFalseSettled(p.runWebClient, "RunWebClient", WebClient, fix);
    AskedAt(p, flags, tags, ReportPosture, 17, MustBeFalse(p.postureChecking, "PostureChecking", ReportPosture));
    MustBeFalseSettled(p.postureChecking, "PostureChecking", ReportPosture, fix);
  }

  lemma NetworkSettled(p: Prefs, flags: Args.Flags, tags: seq<string>)
    ensures var q := Apply(p, Settings(Problems(p, flags, tags)));
            && Settled(RoutesSection(p, flags), RoutesSection(q, flags))
            && Settled(SnatSection(p, flags), SnatSection(q, flags))
            && Settled(ModeSection(p, flags), ModeSection(q, flags))
            && Settled(ExitNodeSection(p, flags), ExitNodeSection(q, flags))
  {
    hide Name, SortSet, Login, Unexpected, PositionalWords, BoolSection, StringSection, ControlSection, RoutesSection,
         SnatSection, ModeSection, TagsSection, ExitNodeSection, MustBeFalse, ServicesSection, UnverifiedSection,
         Sections, COMPARED, Settings, Problems, Apply, Settled, AskedFor, SetRoutes, SetNoSNAT, SetMode, SetExitNodeID,
         SetText;
    var fix := Settings(Problems(p, flags, tags));
    var q := Apply(p, fix);
    ApplyFields(p, fix);
    SectionList(p, flags, tags);
    AskedAt(p, flags, tags, AdvertiseRoutes, 10, RoutesSection(p, flags));
    AskedAt(p, flags, tags, AdvertiseExitNode, 10, RoutesSection(p, flags));
    RoutesSettled(p, q, flags, fix);
    AskedAt(p, flags, tags, SnatSubnetRoutes, 11, SnatSection(p, flags));
    SnatSettled(p, q, flags, fix);
    AskedAt(p, flags, tags, NetfilterMode, 12, ModeSection(p, flags));
    ModeSettled(p, q, flags, fix);
    AskedAt(p, flags, tags, ExitNode, 14, ExitNodeSection(p, flags));
    ExitNodeSettled(p, q, flags, fix);
  }

  lemma SectionsSettled(p: Prefs, flags: Args.Flags, tags: seq<string>)
    ensures var a, b := Sections(p, flags, tags), Sections(Apply(p, Settings(Problems(p, flags, tags))), flags, tags);
            |a| == |b| == 19 && forall k :: 0 <= k < 19 ==> Settled(a[k], b[k])
  {
    hide Name, SortSet, Login, Unexpected, PositionalWords, BoolSection, StringSection, ControlSection, RoutesSection,
         SnatSection, ModeSection, TagsSection, ExitNodeSection, MustBeFalse, ServicesSection, UnverifiedSection,
         Sections, COMPARED, Settings, Problems, Settled, Manual, Apply;
    hide SetRoutes, SetNoSNAT, SetMode, SetExitNodeID, SetText, SetBool, BoolPref, StringPref;
    var fix := Settings(Problems(p, flags, tags));
    var q := Apply(p, fix);
    ApplyFields(p, fix);
    SectionList(p, flags, tags);
    SectionList(q, flags, tags);
    SwitchSettled(p, flags, tags, AcceptDns);
    SwitchSettled(p, flags, tags, AcceptRoutes);
    SwitchSettled(p, flags, tags, Ssh);
    SwitchSettled(p, flags, tags, ShieldsUp);
    SwitchSettled(p, flags, tags, ExitNodeAllowLan);
    TextSettled(p, flags, tags, Hostname);
    TextSettled(p, flags, tags, Operator);
    ResetsSettled(p, flags, tags);
    NetworkSettled(p, flags, tags);
    ManualSettled(p, q, flags, tags);
    SameManual(Unexpected(PositionalWords(flags)));
    SameManual(UnverifiedSection(SortSet(flags.Keys - COMPARED)));
    ManualSectionsOwned(PositionalWords(flags), SortSet(flags.Keys - COMPARED));
  }

  lemma SameManual(s: seq<Problem>)
    ensures Settings(s) == [] ==> Settled(s, s)
  {
  }

  /** Applying every printed setting and comparing again leaves nothing to set, and exactly the
      differences that had to be reconciled by hand. */
  lemma RepairIsFixedPoint(p: Prefs, flags: Args.Flags, tags: seq<string>)
    ensures var found := Problems(p, flags, tags);
            var again := Problems(Apply(p, Settings(found)), flags, tags);
            SetTexts(again) == [] && Manual(again) == Manual(found)
  {
    hide Sections, Apply, Settings, Manual, SetTexts, Concat;
    var fix := Settings(Problems(p, flags, tags));
    var q := Apply(p, fix);
    SectionsSettled(p, flags, tags);
    ConcatSettled(Sections(p, flags, tags), Sections(q, flags, tags));
    NothingDropped(Problems(q, flags, tags));
  }
}
