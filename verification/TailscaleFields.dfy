/** The comparison in the words of the preferences document and of the command line: which fields it reads,
    under which flags, and what it says of them. */
module TailscaleFields {
  import opened Text
  import opened Ordering
  import opened Tailscale
  import opened TailscaleSet
  import opened TailscaleReport
  import Args = TailscaleArgs
  import Line = TailscaleLine

  // -------------------------------------------------------------------------
  // Words that mean yes
  // -------------------------------------------------------------------------

  /** The text is this lower-case word, in letters of either case and with whitespace around it. */
  ghost predicate SaysWord(text: string, word: string) {
    |Strip(text)| == |word| && forall i :: 0 <= i < |word| ==> Lowers(Strip(text)[i], word[i])
  }

  ghost predicate Yes(text: string) {
    || SaysWord(text, "1") || SaysWord(text, "true") || SaysWord(text, "t") || SaysWord(text, "yes")
    || SaysWord(text, "y") || SaysWord(text, "on")
  }

  lemma SaysLower(text: string, word: string)
    ensures SaysWord(text, word) <==> Lower(Strip(text)) == word
  {
    LowerExactly(Strip(text), word);
    hide Lowers, Lower, Strip;
  }

  lemma YesExactly(text: string)
    ensures TsBool(text) <==> Yes(text)
  {
    SaysLower(text, "1");
    SaysLower(text, "true");
    SaysLower(text, "t");
    SaysLower(text, "yes");
    SaysLower(text, "y");
    SaysLower(text, "on");
    hide SaysWord, Lower, Strip;
  }

  // -------------------------------------------------------------------------
  // Agreement, field by field
  // -------------------------------------------------------------------------

  ghost predicate On(flags: Args.Flags, name: string) {
    name in flags && flags[name].Value? && Yes(flags[name].text)
  }

  ghost function Said(flags: Args.Flags, name: string): Option<string> {
    if name in flags && flags[name].Value? then Some(flags[name].text) else None
  }

  ghost function SaidText(flags: Args.Flags, name: string): string {
    match Said(flags, name) case Some(text) => text case None => ""
  }

  /** A text field holds this text; one that is missing or null holds the empty one. */
  ghost predicate HoldsText(f: Field<string>, text: string) { f == Val(text) || (text == "" && !f.Val?) }

  ghost predicate NoWords(flags: Args.Flags) {
    "_positional" in flags ==> flags["_positional"] == Args.Positionals([]) || flags["_positional"] == Args.Value("")
  }

  /** An element of a list separated by commas: what is left of a part without the whitespace around it. */
  ghost predicate Listed(text: Option<string>, x: string) {
    text.Some? && x != "" && exists part :: part in Split(text.value, ',') && Strip(part) == x
  }

  ghost predicate HoldsEach(f: Field<seq<string>>, x: string) { f.Val? && x in f.value }

  ghost predicate WantedTag(tags: seq<string>, x: string) {
    exists t :: t in tags && x == if StartsWith(t, "tag:") then t else "tag:" + t
  }

  /** The same text, but for the slashes at the end. */
  ghost predicate SameButSlashes(a: string, b: string) {
    exists n: nat, m: nat, base :: a == base + Repeat('/', n) && b == base + Repeat('/', m)
  }

  ghost predicate ControlAgrees(p: Prefs, flags: Args.Flags) {
    if "login-server" in flags then
      exists have :: HoldsText(p.controlURL, have) && SameButSlashes(have, SaidText(flags, "login-server"))
    else
      || HoldsText(p.controlURL, "") || p.controlURL == Val("https://controlplane.tailscale.com")
      || p.controlURL == Val("https://login.tailscale.com")
  }

  ghost predicate IsMode(text: string, word: string) {
    |text| == |word| && forall i :: 0 <= i < |word| ==> Lowers(text[i], word[i])
  }

  ghost predicate ModeAgrees(p: Prefs, flags: Args.Flags) {
    var mode := Said(flags, "netfilter-mode");
    || (p.netfilterMode == Val(0) && mode.Some? && IsMode(mode.value, "off"))
    || (p.netfilterMode == Val(1) && mode.Some? && IsMode(mode.value, "nodivert"))
    || ((p.netfilterMode == Val(2) || p.netfilterMode == Absent) && (mode.Some? ==> IsMode(mode.value, "on")))
  }

  const KNOWN := ["_positional", "accept-dns", "accept-routes", "ssh", "shields-up", "exit-node-allow-lan-access",
                  "hostname", "operator", "login-server", "advertise-routes", "advertise-exit-node",
                  "snat-subnet-routes", "netfilter-mode", "advertise-tags", "exit-node",
                  "timeout", "authkey", "auth-key", "qr", "json", "reset", "force-reauth"]

  ghost predicate SwitchesAgree(p: Prefs, flags: Args.Flags) {
    && (p.corpDNS == Val(true) || p.corpDNS == Absent <==> "accept-dns" !in flags || On(flags, "accept-dns"))
    && (p.routeAll == Val(true) <==> On(flags, "accept-routes"))
    && (p.runSSH == Val(true) <==> On(flags, "ssh"))
    && (p.shieldsUp == Val(true) <==> On(flags, "shields-up"))
    && (p.exitNodeAllowLAN == Val(true) <==> On(flags, "exit-node-allow-lan-access"))
  }

  ghost predicate RoutesAgree(p: Prefs, flags: Args.Flags) {
    && (p.advertiseRoutes.Val? ==> Distinct(p.advertiseRoutes.value))
    && forall r :: HoldsEach(p.advertiseRoutes, r) <==>
                   || Listed(Said(flags, "advertise-routes"), r)
                   || (On(flags, "advertise-exit-node") && (r == "0.0.0.0/0" || r == "::/0"))
  }

  ghost predicate TagsAgree(p: Prefs, flags: Args.Flags, tags: seq<string>) {
    && (p.advertiseTags.Val? ==> Distinct(p.advertiseTags.value))
    && forall t :: HoldsEach(p.advertiseTags, t) <==> Listed(Said(flags, "advertise-tags"), t) || WantedTag(tags, t)
  }

  ghost predicate AgreesOnFields(p: Prefs, flags: Args.Flags, tags: seq<string>) {
    && p.loggedOut != Val(true) && p.wantRunning == Val(true)
    && NoWords(flags) && SwitchesAgree(p, flags)
    && HoldsText(p.hostname, SaidText(flags, "hostname")) && HoldsText(p.operatorUser, SaidText(flags, "operator"))
    && ControlAgrees(p, flags) && RoutesAgree(p, flags)
    && (p.noSNAT == Val(true) <==> Said(flags, "snat-subnet-routes").Some? && !On(flags, "snat-subnet-routes"))
    && ModeAgrees(p, flags) && TagsAgree(p, flags, tags)
    && "exit-node" !in flags && HoldsText(p.exitNodeID, "") && HoldsText(p.exitNodeIP, "")
    && p.runWebClient != Val(true) && p.postureChecking != Val(true)
    && (p.advertiseServices.Val? ==> p.advertiseServices.value == [])
    && KnownOnly(flags)
  }

  ghost predicate KnownOnly(flags: Args.Flags) { forall name :: name in flags ==> name in KNOWN }

  lemma GivenSaid(flags: Args.Flags, name: string, default: string)
    ensures Given(flags, name, default) == match Said(flags, name) case Some(v) => v case None => default
  {
  }

  lemma OtherLength(text: string)
    requires Trimmed(text) && |text| != 1 && |text| != 2 && |text| != 3 && |text| != 4
    ensures !TsBool(text)
  {
    YesExactly(text);
    TrimmedStays(text);
    hide TsBool, Strip, Trimmed;
  }

  lemma NoIsNo()
    ensures !TsBool("") && !TsBool("false")
  {
    OtherLength("");
    OtherLength("false");
    hide TsBool;
  }

  lemma TrueIsYes()
    ensures TsBool("true")
  {
    TrimmedStays("true");
    assert Lower("true") == "true";
    assert ["1", "true", "t", "yes", "y", "on"][1] == "true";
    hide Strip;
  }

  lemma SwitchesExactly(p: Prefs, flags: Args.Flags)
    ensures SwitchesAgree(p, flags) <==> SameSwitches(p, flags)
  {
    OneSwitch(p, flags, AcceptDns);
    OneSwitch(p, flags, AcceptRoutes);
    OneSwitch(p, flags, Ssh);
    OneSwitch(p, flags, ShieldsUp);
    OneSwitch(p, flags, ExitNodeAllowLan);
    hide On, TsBool, Given, WantBool;
    assert forall f :: f in BOOL_FLAGS <==> f in {AcceptDns, AcceptRoutes, Ssh, ShieldsUp, ExitNodeAllowLan};
  }

  lemma OneSwitch(p: Prefs, flags: Args.Flags, f: Flag)
    ensures WantBool(flags, f) <==> On(flags, Name(f)) || (Default(f) && Name(f) !in flags)
  {
    hide Yes, Name, TsBool, Default;
    NoIsNo();
    TrueIsYes();
    YesExactly(Given(flags, Name(f), ""));
  }

  lemma ListExactly(flags: Args.Flags, name: string, x: string)
    ensures x in Elems(TsList(Given(flags, name, ""))) <==> Listed(Said(flags, name), x)
  {
    var text := Given(flags, name, "");
    hide Strip, Cleaned;
    SortElems(Cleaned(Split(text, ',')));
    CleanedExactly(Split(text, ','), x);
    if Said(flags, name).None? {
      assert Split("", ',') == [""];
      TrimmedStays("");
    }
  }

  lemma {:induction false} CleanedExactly(parts: seq<string>, x: string)
    ensures x in Cleaned(parts) <==> x != "" && exists part :: part in parts && Strip(part) == x
  {
    hide Strip;
    if parts != [] {
      CleanedExactly(parts[1..], x);
      assert parts == [parts[0]] + parts[1..];
    }
  }

  lemma RoutesExactly(p: Prefs, flags: Args.Flags)
    ensures RoutesAgree(p, flags) <==> SameRoutes(p, flags)
  {
    hide TsList, TsBool, Given, On, Said, Listed;
    var have, want := List(p.advertiseRoutes), Elems(GivenRoutes(flags)) + if GivenExit(flags) then EXIT_ROUTES else {};
    ExitExactly(flags);
    forall r ensures r in want <==> || Listed(Said(flags, "advertise-routes"), r)
                                    || (On(flags, "advertise-exit-node") && (r == "0.0.0.0/0" || r == "::/0"))
    {
      ListExactly(flags, "advertise-routes", r);
    }
    forall r ensures HoldsEach(p.advertiseRoutes, r) <==> r in Elems(have) {}
    SameSet(Elems(have), want);
  }

  lemma SameSet<T(!new)>(a: set<T>, b: set<T>)
    ensures a == b <==> forall x :: x in a <==> x in b
  {
  }

  lemma ExitExactly(flags: Args.Flags)
    ensures GivenExit(flags) <==> On(flags, "advertise-exit-node")
  {
    NoIsNo();
    YesExactly(Given(flags, "advertise-exit-node", "false"));
    hide Yes, TsBool;
  }

  lemma TagsExactly(p: Prefs, flags: Args.Flags, tags: seq<string>)
    ensures TagsAgree(p, flags, tags) <==> SameTags(p, flags, tags)
  {
    hide TsList, Given, Said, Listed, WantedTag;
    var have := List(p.advertiseTags);
    var want := Elems(TsList(Given(flags, Name(AdvertiseTags), ""))) + (set t | t in tags :: Tagged(t));
    forall x ensures x in want <==> Listed(Said(flags, "advertise-tags"), x) || WantedTag(tags, x) {
      ListExactly(flags, "advertise-tags", x);
      TaggedExactly(tags, x);
    }
    forall x ensures HoldsEach(p.advertiseTags, x) <==> x in Elems(have) {}
    SameSet(Elems(have), want);
  }

  lemma TaggedExactly(tags: seq<string>, x: string)
    ensures x in (set t | t in tags :: Tagged(t)) <==> WantedTag(tags, x)
  {
  }

  lemma TextExactly(f: Field<string>, text: string)
    ensures HoldsText(f, text) <==> Str(f) == text
  {
  }

  lemma SlashesExactly(have: string, want: string)
    ensures RStripChar(have, '/') == RStripChar(want, '/') <==> SameButSlashes(have, want)
  {
    hide Repeat, RStripChar;
    SlashesOff(have);
    SlashesOff(want);
    forall n: nat, m: nat, base | have == base + Repeat('/', n) && want == base + Repeat('/', m)
      ensures RStripChar(have, '/') == RStripChar(want, '/')
    {
      SlashesIgnored(base, n);
      SlashesIgnored(base, m);
    }
  }

  lemma {:induction false} SlashesOff(s: string)
    ensures var r := RStripChar(s, '/'); |r| <= |s| && s == r + Repeat('/', |s| - |r|)
  {
    var r := RStripChar(s, '/');
    if s != "" && s[|s| - 1] == '/' {
      var k := |s| - 1;
      SlashesOff(s[..k]);
      RepeatSnoc('/', k - |r|);
      hide Repeat;
      assert s == s[..k] + ['/'];
      assert r + Repeat('/', k - |r|) + ['/'] == r + (Repeat('/', k - |r|) + ['/']);
    } else {
      assert Repeat('/', 0) == "";
    }
  }

  lemma {:induction false} SlashesIgnored(base: string, n: nat)
    ensures RStripChar(base + Repeat('/', n), '/') == RStripChar(base, '/')
  {
    if n == 0 {
      assert base + Repeat('/', 0) == base;
    } else {
      RepeatSnoc('/', n - 1);
      SlashesIgnored(base, n - 1);
      hide Repeat;
      assert base + Repeat('/', n) == base + Repeat('/', n - 1) + ['/'];
      LastSlash(base + Repeat('/', n - 1));
      hide RStripChar;
    }
  }

  lemma LastSlash(s: string)
    ensures RStripChar(s + ['/'], '/') == RStripChar(s, '/')
  {
    assert (s + ['/'])[..|s|] == s;
  }

  lemma ControlExactly(p: Prefs, flags: Args.Flags)
    ensures ControlAgrees(p, flags) <==> SameControl(p, flags)
  {
    var have, want := Str(p.controlURL), Given(flags, "login-server", "");
    GivenSaid(flags, "login-server", "");
    assert want == SaidText(flags, "login-server");
    SlashesExactly(have, want);
    forall text ensures HoldsText(p.controlURL, text) <==> have == text { TextExactly(p.controlURL, text); }
    assert Name(LoginServer) == "login-server";
    hide RStripChar, SameButSlashes, Given, Said, SaidText, HoldsText, Name;
  }

  lemma ModeExactly(p: Prefs, flags: Args.Flags)
    ensures ModeAgrees(p, flags) <==> SameMode(p, flags)
  {
    var mode := Given(flags, "netfilter-mode", "on");
    GivenSaid(flags, "netfilter-mode", "on");
    LowerExactly(mode, "off");
    LowerExactly(mode, "nodivert");
    LowerExactly(mode, "on");
    LowerExactly("on", "on");
    assert Lower("on") == "on";
    hide Lower, Lowers, Given, Said;
  }

  lemma NoWordsExactly(flags: Args.Flags)
    ensures NoWords(flags) <==> PositionalWords(flags) == []
  {
    if "_positional" in flags && flags["_positional"].Value? {
      assert |PositionalWords(flags)| == |flags["_positional"].text|;
    }
  }

  lemma KnownExactly(name: string)
    ensures name in KNOWN <==> name == Args.POSITIONAL_KEY || Checked(name)
  {
    TakenExactly(name);
    hide Taken, Name;
    assert KNOWN == ["_positional"] + TAKEN_NAMES + Args.IGNORED_NAMES;
  }

  const TAKEN_NAMES := ["accept-dns", "accept-routes", "ssh", "shields-up", "exit-node-allow-lan-access",
                        "hostname", "operator", "login-server", "advertise-routes", "advertise-exit-node",
                        "snat-subnet-routes", "netfilter-mode", "advertise-tags", "exit-node"]

  lemma TakenExactly(name: string)
    ensures name in Taken(14) <==> name in TAKEN_NAMES
  {
    forall f: Flag ensures Turn(f) < 14 <==> f != WebClient && f != ReportPosture {}
    forall f: Flag | Turn(f) < 14 ensures Name(f) == TAKEN_NAMES[Turn(f)] { TakenAt(f); }
    hide Name;
    assert |TAKEN_NAMES| == 14;
    if name in TAKEN_NAMES {
      var i :| 0 <= i < 14 && name == TAKEN_NAMES[i];
      var f := FlagAt(i);
      assert Turn(f) == i;
    }
  }

  ghost function FlagAt(i: nat): Flag
    requires i < 14
  {
    [AcceptDns, AcceptRoutes, Ssh, ShieldsUp, ExitNodeAllowLan, Hostname, Operator, LoginServer, AdvertiseRoutes,
     AdvertiseExitNode, SnatSubnetRoutes, NetfilterMode, AdvertiseTags, ExitNode][i]
  }

  lemma TakenAt(f: Flag)
    requires Turn(f) < 14
    ensures Name(f) == TAKEN_NAMES[Turn(f)]
  {
  }

  lemma RestExactly(p: Prefs, flags: Args.Flags)
    ensures HoldsText(p.hostname, SaidText(flags, "hostname")) <==> Str(p.hostname) == Given(flags, Name(Hostname), "")
    ensures HoldsText(p.operatorUser, SaidText(flags, "operator"))
            <==> Str(p.operatorUser) == Given(flags, Name(Operator), "")
    ensures (Said(flags, "snat-subnet-routes").Some? && !On(flags, "snat-subnet-routes"))
            <==> !TsBool(Given(flags, Name(SnatSubnetRoutes), "true"))
    ensures Name(ExitNode) == "exit-node"
    ensures HoldsText(p.exitNodeID, "") <==> Str(p.exitNodeID) == ""
    ensures HoldsText(p.exitNodeIP, "") <==> Str(p.exitNodeIP) == ""
    ensures (p.advertiseServices.Val? ==> p.advertiseServices.value == []) <==> List(p.advertiseServices) == []
  {
    TrueIsYes();
    YesExactly(Given(flags, "snat-subnet-routes", "true"));
    hide TsBool, Yes;
  }

  lemma StringsExactly(p: Prefs, flags: Args.Flags)
    ensures SameStrings(p, flags) <==>
            && Str(p.hostname) == Given(flags, Name(Hostname), "")
            && Str(p.operatorUser) == Given(flags, Name(Operator), "")
  {
    hide Name, Given, Str;
    assert forall f :: f in STRING_FLAGS <==> f in {Hostname, Operator};
  }

  lemma AgreesExactly(p: Prefs, flags: Args.Flags, tags: seq<string>)
    ensures Agrees(p, flags, tags) <==> AgreesOnFields(p, flags, tags)
  {
    NoWordsExactly(flags);
    SwitchesExactly(p, flags);
    StringsExactly(p, flags);
    ControlExactly(p, flags);
    RoutesExactly(p, flags);
    ModeExactly(p, flags);
    TagsExactly(p, flags, tags);
    RestExactly(p, flags);
    NamesExactly(flags);
    hide SwitchesAgree, SameSwitches, SameStrings, ControlAgrees, SameControl, RoutesAgree, SameRoutes, ModeAgrees,
         SameMode, TagsAgree, SameTags, HoldsText, KnownOnly, AllChecked, NoWords, PositionalWords, Given, Said,
         SaidText, On, TsBool, List, Str, Name;
  }

  lemma NamesExactly(flags: Args.Flags)
    ensures KnownOnly(flags) <==> AllChecked(flags)
  {
    forall name ensures name in KNOWN <==> name == Args.POSITIONAL_KEY || Checked(name) { KnownExactly(name); }
    hide KNOWN, Checked;
  }

  /** The comparison is silent exactly when the preferences document, field by field, is what the flags say. */
  lemma SilentOnFields(p: Prefs, flags: Args.Flags, tags: seq<string>)
    ensures Problems(p, flags, tags) == [] <==> AgreesOnFields(p, flags, tags)
  {
    hide *;
    SilentIffAgrees(p, flags, tags);
    AgreesExactly(p, flags, tags);
  }
}
