/** What an empty comparison means, and that the printed `tailscale set` line says what it means. */
module TailscaleReport {
  import opened Text
  import opened Ordering
  import opened Tailscale
  import opened TailscaleSet
  import Args = TailscaleArgs
  import Shlex

  /** `tailscale_prefs_problems`. */
  function PrefsProblems(prefs: Option<Prefs>, upArgs: string, tags: seq<string>): Args.Result<seq<Message>> {
    match Compared(prefs, upArgs, tags)
    case Ok(found) => Args.Ok(Messages(found))
    case Err(e) => Args.Err(e)
  }

  datatype Repair = Repair(set_: seq<string>, manual: seq<Message>)

  /** `tailscale_set_args`. */
  function SetArgs(prefs: Option<Prefs>, upArgs: string, tags: seq<string>): Args.Result<Repair> {
    match Compared(prefs, upArgs, tags)
    case Ok(found) => Args.Ok(Repair(SetTexts(found), Manual(found)))
    case Err(e) => Args.Err(e)
  }

  // -------------------------------------------------------------------------
  // No problem means agreement
  // -------------------------------------------------------------------------

  /** The node's settings are what the flags and tags denote, and every flag could be checked. */
  ghost predicate Agrees(p: Prefs, flags: Args.Flags, tags: seq<string>) {
    && p.loggedOut != Val(true) && p.wantRunning == Val(true)
    && PositionalWords(flags) == []
    && SameSwitches(p, flags) && SameStrings(p, flags) && SameControl(p, flags) && SameRoutes(p, flags)
    && (p.noSNAT == Val(true) <==> !TsBool(Given(flags, Name(SnatSubnetRoutes), "true")))
    && SameMode(p, flags) && SameTags(p, flags, tags)
    && Name(ExitNode) !in flags && Str(p.exitNodeID) == "" && Str(p.exitNodeIP) == ""
    && p.runWebClient != Val(true) && List(p.advertiseServices) == [] && p.postureChecking != Val(true)
    && AllChecked(flags)
  }

  ghost predicate SameSwitches(p: Prefs, flags: Args.Flags) {
    forall f :: f in BOOL_FLAGS ==> Truth(BoolPref(p, f), Default(f)) == WantBool(flags, f)
  }

  ghost predicate SameStrings(p: Prefs, flags: Args.Flags) {
    forall f :: f in STRING_FLAGS ==> Str(StringPref(p, f)) == Given(flags, Name(f), "")
  }

  ghost predicate SameRoutes(p: Prefs, flags: Args.Flags) {
    && Distinct(List(p.advertiseRoutes))
    && Elems(List(p.advertiseRoutes)) == Elems(GivenRoutes(flags)) + (if GivenExit(flags) then EXIT_ROUTES else {})
  }

  ghost predicate SameTags(p: Prefs, flags: Args.Flags, tags: seq<string>) {
    && Distinct(List(p.advertiseTags))
    && Elems(List(p.advertiseTags))
       == Elems(TsList(Given(flags, Name(AdvertiseTags), ""))) + (set t | t in tags :: Tagged(t))
  }

  ghost predicate AllChecked(flags: Args.Flags) {
    forall name :: name in flags ==> name == Args.POSITIONAL_KEY || Checked(name)
  }

  /** A flag the comparison reads or means to ignore. */
  ghost predicate Checked(name: string) { name in Taken(14) || name in Args.IGNORED_NAMES }

  lemma CheckedNames()
    ensures forall name :: name in COMPARED <==> name == Args.POSITIONAL_KEY || Checked(name)
    ensures !Checked(Args.POSITIONAL_KEY)
  {
    hide Name;
    forall f: Flag ensures Name(f) != Args.POSITIONAL_KEY { NameInjective(f, f); }
  }

  predicate SameControl(p: Prefs, flags: Args.Flags) {
    if Name(LoginServer) in flags then
      RStripChar(Str(p.controlURL), '/') == RStripChar(Given(flags, Name(LoginServer), ""), '/')
    else Str(p.controlURL) in CONTROL_DEFAULTS
  }

  predicate SameMode(p: Prefs, flags: Args.Flags) {
    var mode := ModeNumber(Given(flags, Name(NetfilterMode), "on"));
    mode.Some? && ModeIs(p.netfilterMode, mode.value)
  }

  lemma {:induction false} ConcatEmpty<T>(parts: seq<seq<T>>)
    ensures Concat(parts) == [] <==> forall k :: 0 <= k < |parts| ==> parts[k] == []
  {
    if parts != [] {
      var n := |parts| - 1;
      ConcatEmpty(parts[..n]);
      assert Concat(parts) == [] <==> Concat(parts[..n]) == [] && parts[n] == [];
    }
  }

  /** The comparison is silent exactly when the node is what the parser's dictionary says. */
  lemma SilentIffAgrees(p: Prefs, flags: Args.Flags, tags: seq<string>)
    ensures Problems(p, flags, tags) == [] <==> Agrees(p, flags, tags)
  {
    hide Sections, Name, TsBool, TsList, Sort, SortSet, Given, Tagged, WantBool, BoolPref, StringPref, ModeNumber,
         ModeIs, RStripChar, Concat, COMPARED, PositionalWords, RoutesFix;
    var s := Sections(p, flags, tags);
    ConcatEmpty(s);
    SectionList(p, flags, tags);
    hide BoolSection, StringSection, ControlSection, RoutesSection, SnatSection, ModeSection, TagsSection,
         ExitNodeSection, MustBeFalse, UnverifiedSection, Login, Checked, SameControl, SameMode, SameRoutes, SameTags,
         SameSwitches, SameStrings, Distinct, Elems, List, Truth, Default;
    RoutesSilent(p, flags);
    TagsSilent(p, flags, tags);
    LeftoverSilent(flags);
    CheckedNames();
    FlagsSilent(p, flags);
    RestSilent(p, flags);
    AllNineteen(s);
  }

  lemma AllNineteen<T>(s: seq<seq<T>>)
    requires |s| == 19
    ensures (forall k :: 0 <= k < 19 ==> s[k] == []) <==>
            (s[0] == [] && s[1] == [] && s[2] == [] && s[3] == [] && s[4] == [] && s[5] == [] && s[6] == []
                && s[7] == []
             && s[8] == [] && s[9] == [] && s[10] == [] && s[11] == [] && s[12] == [] && s[13] == [] && s[14] == []
             && s[15] == [] && s[16] == [] && s[17] == [] && s[18] == [])
  {
  }

  lemma RoutesSilent(p: Prefs, flags: Args.Flags)
    ensures RoutesSection(p, flags) == [] <==> SameRoutes(p, flags)
  {
    hide Name, Sort, SortSet, TsList, TsBool, Given, RoutesFix;
    SortIsSortSet(List(p.advertiseRoutes), Elems(GivenRoutes(flags)) + if GivenExit(flags) then EXIT_ROUTES else {});
  }

  lemma TagsSilent(p: Prefs, flags: Args.Flags, tags: seq<string>)
    ensures TagsSection(p, flags, tags) == [] <==> SameTags(p, flags, tags)
  {
    hide Name, Sort, SortSet, TsList, Given, Tagged;
    SortIsSortSet(List(p.advertiseTags),
                  Elems(TsList(Given(flags, Name(AdvertiseTags), ""))) + (set t | t in tags :: Tagged(t)));
  }

  lemma EmptyDifference<T>(a: set<T>, b: set<T>)
    ensures a - b == {} <==> a <= b
  {
    if a - b == {} {
      forall x | x in a ensures x in b {
        assert x !in a - b;
      }
    }
  }

  lemma LeftoverSilent(flags: Args.Flags)
    ensures UnverifiedSection(SortSet(flags.Keys - COMPARED)) == [] <==> flags.Keys <= COMPARED
  {
    hide COMPARED;
    var left := flags.Keys - COMPARED;
    var names := SortSet(left);
    ElemsEmpty(names);
    assert |UnverifiedSection(names)| == |names|;
    EmptyDifference(flags.Keys, COMPARED);
  }

  lemma FlagsSilent(p: Prefs, flags: Args.Flags)
    ensures SameSwitches(p, flags) <==>
            (BoolSection(p, flags, AcceptDns) == [] && BoolSection(p, flags, AcceptRoutes) == []
             && BoolSection(p, flags, Ssh) == [] && BoolSection(p, flags, ShieldsUp) == []
             && BoolSection(p, flags, ExitNodeAllowLan) == [])
    ensures SameStrings(p, flags) <==>
            (StringSection(p, flags, Hostname) == [] && StringSection(p, flags, Operator) == [])
  {
    hide Name, TsBool, Given, BoolPref, StringPref, WantBool, Default;
    assert forall f :: f in BOOL_FLAGS <==> f in {AcceptDns, AcceptRoutes, Ssh, ShieldsUp, ExitNodeAllowLan};
    assert forall f :: f in STRING_FLAGS <==> f in {Hostname, Operator};
  }

  lemma RestSilent(p: Prefs, flags: Args.Flags)
    ensures Login(p) == [] <==> p.loggedOut != Val(true) && p.wantRunning == Val(true)
    ensures ControlSection(p, flags) == [] <==> SameControl(p, flags)
    ensures SnatSection(p, flags) == []
            <==> (p.noSNAT == Val(true) <==> !TsBool(Given(flags, Name(SnatSubnetRoutes), "true")))
    ensures ModeSection(p, flags) == [] <==> SameMode(p, flags)
    ensures ExitNodeSection(p, flags) == []
            <==> Name(ExitNode) !in flags && Str(p.exitNodeID) == "" && Str(p.exitNodeIP) == ""
    ensures MustBeFalse(p.runWebClient, "RunWebClient", WebClient) == [] <==> p.runWebClient != Val(true)
    ensures MustBeFalse(p.postureChecking, "PostureChecking", ReportPosture) == [] <==> p.postureChecking != Val(true)
    ensures ServicesSection(p) == [] <==> List(p.advertiseServices) == []
  {
    hide Name, TsBool, Given, RStripChar, ModeNumber, ModeIs;
  }

  // -------------------------------------------------------------------------
  // Nothing on the command line goes unmentioned
  // -------------------------------------------------------------------------

  lemma {:induction false} InConcat<T>(parts: seq<seq<T>>, k: nat, x: T)
    requires k < |parts| && x in parts[k]
    ensures x in Concat(parts)
  {
    var n := |parts| - 1;
    if k < n {
      InConcat(parts[..n], k, x);
    }
  }

  /** Every word that is no flag, and every flag the comparison cannot check, is reported. */
  ghost predicate Accounted(found: seq<Problem>, items: seq<Args.Item>) {
    && (forall w :: w in Args.Words(items) ==> Problem(UnexpectedArgument(w), []) in found)
    && (forall i :: 0 <= i < |items| && items[i].Flag? && !Checked(items[i].name)
          ==> Problem(Unverifiable(items[i].name), []) in found)
  }

  /** The line is read, and every word and unchecked flag of it accounted for, exactly when no flag is
      spelled with the parser's own key. */
  lemma EveryTokenAccounted(p: Prefs, tokens: seq<string>, tags: seq<string>)
    ensures Args.NoReserved(Args.Items(tokens)) <==>
            && Args.ParseArgs(tokens).Ok?
            && Accounted(Problems(p, Args.ParseArgs(tokens).value, tags), Args.Items(tokens))
  {
    hide Sections, COMPARED, Checked, Args.Items, Args.FlagName, Args.FlagValue, Args.IsSwitch, Name, Problems;
    Args.ParseFaithful(tokens);
    CheckedNames();
    var items := Args.Items(tokens);
    if Args.NoReserved(items) {
      var flags := Args.ParseArgs(tokens).value;
      forall i | 0 <= i < |items| && items[i].Flag? && !Checked(items[i].name)
        ensures Problem(Unverifiable(items[i].name), []) in Problems(p, flags, tags)
      {
        FlagIsKept(items, i);
        SectionReports(p, flags, tags, items[i].name);
      }
      forall w | w in Args.Words(items) ensures Problem(UnexpectedArgument(w), []) in Problems(p, flags, tags) {
        WordReported(p, flags, tags, w);
      }
    } else if Args.ParseArgs(tokens).Ok? {
      ReservedNeverReported(p, Args.ParseArgs(tokens).value, tags);
    }
  }

  /** The parser's own key is never reported as a flag. */
  lemma ReservedNeverReported(p: Prefs, flags: Args.Flags, tags: seq<string>)
    ensures Problem(Unverifiable(Args.POSITIONAL_KEY), []) !in Problems(p, flags, tags)
  {
    hide Sections, COMPARED, Concat, Name, Checked, SortSet, UnverifiedSection, Login, Unexpected, PositionalWords,
         BoolSection, StringSection, ControlSection, RoutesSection, SnatSection, ModeSection, TagsSection,
         ExitNodeSection, MustBeFalse, ServicesSection;
    var s, x := Sections(p, flags, tags), Problem(Unverifiable(Args.POSITIONAL_KEY), []);
    assert |s| == 19 && s[18] == UnverifiedSection(SortSet(flags.Keys - COMPARED)) by { SectionList(p, flags, tags); }
    OnlyLeftovers(p, flags, tags);
    CheckedNames();
    var names := SortSet(flags.Keys - COMPARED);
    LeftoverNames(names);
    assert Args.POSITIONAL_KEY !in Elems(names);
    if x in Concat(s) {
      var k := FromConcat(s, x);
    }
  }

  lemma {:induction false} FromConcat<T>(parts: seq<seq<T>>, x: T) returns (k: nat)
    requires x in Concat(parts)
    ensures k < |parts| && x in parts[k]
  {
    var n := |parts| - 1;
    if x in parts[n] {
      k := n;
    } else {
      k := FromConcat(parts[..n], x);
    }
  }

  ghost predicate NoneUnverifiable(s: seq<Problem>) { forall x :: x in s ==> !x.what.Unverifiable? }

  lemma LeftoverNames(names: seq<string>)
    ensures forall x :: x in UnverifiedSection(names) ==> x.what.Unverifiable? && x.what.name in names
  {
  }

  lemma OnlyLeftovers(p: Prefs, flags: Args.Flags, tags: seq<string>)
    ensures var s := Sections(p, flags, tags);
            |s| == 19 && forall k :: 0 <= k < 18 ==> NoneUnverifiable(s[k])
  {
    hide Sections, Name, Sort, SortSet, TsBool, TsList, Given, WantBool, BoolPref, StringPref, RoutesFix, ModeNumber,
         ModeIs, RStripChar, WantTags, WantRoutes, Tagged, PositionalWords, UnverifiedSection, COMPARED;
    SectionList(p, flags, tags);
    var s := Sections(p, flags, tags);
    FirstSections(p, flags, tags);
    RestSections(p, flags, tags);
    hide Login, Unexpected, BoolSection, StringSection, ControlSection, RoutesSection, SnatSection, ModeSection,
         TagsSection, ExitNodeSection, MustBeFalse, ServicesSection, NoneUnverifiable;
  }

  lemma FirstSections(p: Prefs, flags: Args.Flags, tags: seq<string>)
    ensures NoneUnverifiable(Login(p)) && NoneUnverifiable(Unexpected(PositionalWords(flags)))
    ensures forall f :: NoneUnverifiable(BoolSection(p, flags, f)) && NoneUnverifiable(StringSection(p, flags, f))
  {
    hide Name, WantBool, Given, PositionalWords, BoolPref, StringPref;
  }

  lemma RestSections(p: Prefs, flags: Args.Flags, tags: seq<string>)
    ensures NoneUnverifiable(ControlSection(p, flags)) && NoneUnverifiable(RoutesSection(p, flags))
    ensures NoneUnverifiable(SnatSection(p, flags)) && NoneUnverifiable(ModeSection(p, flags))
    ensures NoneUnverifiable(TagsSection(p, flags, tags)) && NoneUnverifiable(ExitNodeSection(p, flags))
    ensures NoneUnverifiable(ServicesSection(p))
    ensures forall f, pref, reset :: NoneUnverifiable(MustBeFalse(f, pref, reset))
  {
    hide Name, Sort, SortSet, TsBool, TsList, Given, RoutesFix, ModeNumber, ModeIs, RStripChar, WantTags, WantRoutes;
  }

  /** The node agrees with a command line: with what the line says, and the line says nothing else. */
  ghost predicate AgreesWithLine(p: Prefs, tokens: seq<string>, tags: seq<string>) {
    && Args.ParseArgs(tokens).Ok? && Agrees(p, Args.ParseArgs(tokens).value, tags)
    && Args.Words(Args.Items(tokens)) == []
    && forall i :: 0 <= i < |Args.Items(tokens)| && Args.Items(tokens)[i].Flag? ==> Checked(Args.Items(tokens)[i].name)
  }

  /** `tailscale_prefs_problems` raises exactly on a line it cannot read. It is empty whenever the node agrees
      with the line, and an empty list means agreement exactly when no flag is spelled with the parser's
      own key. */
  lemma PrefsProblemsExactly(p: Prefs, upArgs: string, tags: seq<string>)
    ensures PrefsProblems(None, upArgs, tags) == Args.Ok([Unreadable])
    ensures var r, tokens := PrefsProblems(Some(p), upArgs, tags), Shlex.Words(Shlex.Splitter, upArgs);
            && (r.Err? <==> tokens.None? || Args.ParseArgs(tokens.value).Err?)
            && (r.Ok? ==>
                  && (AgreesWithLine(p, tokens.value, tags) ==> r.value == [])
                  && (r.value == [] ==>
                        (AgreesWithLine(p, tokens.value, tags) <==> Args.NoReserved(Args.Items(tokens.value)))))
  {
    assert Messages([Problem(Unreadable, [])]) == [Unreadable];
    hide Problems, Agrees, Checked, Args.Items, Args.ParseArgs, Shlex.Words, COMPARED;
    var tokens := Shlex.Words(Shlex.Splitter, upArgs);
    if tokens.Some? && Args.ParseArgs(tokens.value).Ok? {
      var flags, items := Args.ParseArgs(tokens.value).value, Args.Items(tokens.value);
      var found := Problems(p, flags, tags);
      EveryTokenAccounted(p, tokens.value, tags);
      SilentIffAgrees(p, flags, tags);
      CheckedNames();
      if Args.NoReserved(items) {
        NothingAccounted(found, items);
      }
      assert Messages(found) == [] <==> found == [] by { assert |Messages(found)| == |found|; }
      hide Accounted, Messages;
    }
  }

  lemma NothingAccounted(found: seq<Problem>, items: seq<Args.Item>)
    requires Accounted(found, items)
    ensures found == [] ==> Args.Words(items) == []
    ensures found == [] ==> forall i :: 0 <= i < |items| && items[i].Flag? ==> Checked(items[i].name)
  {
    hide Checked, Args.Words;
    assert Args.Words(items) != [] ==> Args.Words(items)[0] in Args.Words(items);
  }

  /** `tailscale_set_args`: once its settings are applied it asks for nothing, and leaves the same to be
      done by hand. */
  lemma SetArgsIsFixedPoint(p: Prefs, upArgs: string, tags: seq<string>)
    ensures var r := SetArgs(Some(p), upArgs, tags);
            r.Ok? ==>
              && Compared(Some(p), upArgs, tags).Ok?
              && SetArgs(Some(Apply(p, Settings(Compared(Some(p), upArgs, tags).value))), upArgs, tags)
                 == Args.Ok(Repair([], r.value.manual))
  {
    hide Problems, Apply, Settings, SetTexts, Manual, Args.ParsedText;
    if Args.ParsedText(upArgs).Ok? {
      RepairIsFixedPoint(p, Args.ParsedText(upArgs).value, tags);
    }
  }

  lemma WordReported(p: Prefs, flags: Args.Flags, tags: seq<string>, w: string)
    requires w in PositionalWords(flags)
    ensures Problem(UnexpectedArgument(w), []) in Problems(p, flags, tags)
  {
    hide Sections, PositionalWords, BoolSection, StringSection, ControlSection, RoutesSection, SnatSection, ModeSection,
         TagsSection, ExitNodeSection, MustBeFalse, UnverifiedSection, Login, SortSet, COMPARED, Unexpected,
         ServicesSection, Concat, Name;
    SectionList(p, flags, tags);
    UnexpectedHas(PositionalWords(flags), w);
    InConcat(Sections(p, flags, tags), 1, Problem(UnexpectedArgument(w), []));
  }

  lemma UnexpectedHas(words: seq<string>, w: string)
    requires w in words
    ensures Problem(UnexpectedArgument(w), []) in Unexpected(words)
  {
    var i :| 0 <= i < |words| && words[i] == w;
    assert Unexpected(words)[i] == Problem(UnexpectedArgument(w), []);
  }

  lemma SectionReports(p: Prefs, flags: Args.Flags, tags: seq<string>, name: string)
    requires name in flags && name !in COMPARED
    ensures Problem(Unverifiable(name), []) in Problems(p, flags, tags)
  {
    hide Sections, COMPARED;
    SectionList(p, flags, tags);
    LeftoverReported(flags, name);
    InConcat(Sections(p, flags, tags), 18, Problem(Unverifiable(name), []));
  }

  lemma LeftoverReported(flags: Args.Flags, name: string)
    requires name in flags && name !in COMPARED
    ensures Problem(Unverifiable(name), []) in UnverifiedSection(SortSet(flags.Keys - COMPARED))
  {
    hide COMPARED;
    var names := SortSet(flags.Keys - COMPARED);
    assert name in Elems(names);
    var j :| 0 <= j < |names| && names[j] == name;
    assert UnverifiedSection(names)[j] == Problem(Unverifiable(name), []);
  }

  lemma {:induction false} FlagIsKept(items: seq<Args.Item>, i: nat)
    requires i < |items| && items[i].Flag?
    ensures Args.LastValue(items, items[i].name).Some?
  {
    if i < |items| - 1 {
      FlagIsKept(items[..|items| - 1], i);
    }
  }

  /** The exception is real: on some node, `x --_positional=` reports nothing, although the
      command line holds the unexpected word `x`. */
  lemma ReservedFlagHidesWord()
    ensures "x" in Args.Words(Args.Items(["x", "--_positional="]))
    ensures Args.ParseArgs(["x", "--_positional="]).Ok?
    ensures exists p :: Problems(p, Args.ParseArgs(["x", "--_positional="]).value, []) == []
  {
    hide TsList, TsBool, SortSet, Sort, Given, Args.Items, Args.ParseArgs;
    Args.ReservedFlagDropsWord();
    var items := [Args.Word("x"), Args.Flag(Args.POSITIONAL_KEY, "", ["--_positional="])];
    assert items[..1][..0] == [];
    assert items[..1] == [Args.Word("x")];
    assert Args.Words(items[..1]) == [] + ["x"];
    var flags: Args.Flags := map[Args.POSITIONAL_KEY := Args.Value("")];
    AgreeingNode(flags);
  }

  /** A node that agrees with a command line giving no flag. */
  lemma AgreeingNode(flags: Args.Flags)
    requires flags.Keys == {Args.POSITIONAL_KEY} && PositionalWords(flags) == []
    ensures exists p :: Problems(p, flags, []) == []
  {
    hide TsList, TsBool, SortSet, Sort, PositionalWords, Problems, Name, ModeNumber, Tagged;
    var p := Prefs(Absent, Val(true), Absent, Absent, Absent, Absent, Absent, Absent, Absent, Absent,
                   Val(WantRoutes(flags)), Val(!TsBool("true")), Val(2), Val(WantTags(flags, [])), Absent, Absent,
                   Absent, Absent, Absent);
    NoFlagGiven(flags);
    LowerOn();
    assert Agrees(p, flags, []);
    SilentIffAgrees(p, flags, []);
  }

  lemma NoFlagGiven(flags: Args.Flags)
    requires flags.Keys == {Args.POSITIONAL_KEY}
    ensures forall f: Flag :: Name(f) !in flags
  {
    forall f: Flag ensures Name(f) !in flags { NameInjective(f, f); }
  }

  lemma LowerOn()
    ensures ModeNumber("on") == Some(2)
  {
    assert "on"[1..] == "n" && "n"[1..] == "";
    assert Lower("n") == "n";
    assert Lower("on") == "on";
  }

  // -------------------------------------------------------------------------
  // The printed line
  // -------------------------------------------------------------------------

  lemma SettingTextsAppend(a: seq<Setting>, b: seq<Setting>)
    ensures SettingTexts(a + b) == SettingTexts(a) + SettingTexts(b)
    ensures SettingTokens(a + b) == SettingTokens(a) + SettingTokens(b)
  {
    hide Name, SettingText, SettingToken;
  }

  /** The arguments of one problem are printed together; on the line they are like any others. */
  lemma {:induction false} LineOfSettings(found: seq<Problem>)
    ensures Join(SetTexts(found), " ") == Join(SettingTexts(Settings(found)), " ")
  {
    if found != [] {
      var front, last := found[..|found| - 1], found[|found| - 1];
      assert found == front + [last];
      LineOfSettings(front);
      LineOfOneMore(front, last);
    }
  }

  lemma LineOfOneMore(front: seq<Problem>, last: Problem)
    requires Join(SetTexts(front), " ") == Join(SettingTexts(Settings(front)), " ")
    ensures Join(SetTexts(front + [last]), " ") == Join(SettingTexts(Settings(front + [last])), " ")
  {
    hide SetTexts, Settings, Manual, Name, SettingText;
    SnocFacts(front, last);
    NothingDropped(front);
    SettingTextsAppend(Settings(front), last.fix);
    var a, b := SettingTexts(Settings(front)), SettingTexts(last.fix);
    if last.fix == [] {
      assert Settings(front) + [] == Settings(front) && SetTexts(front) + [] == SetTexts(front);
    } else if Settings(front) == [] {
      assert SetTexts(front) + [Join(b, " ")] == [Join(b, " ")] && [] + last.fix == last.fix;
    } else {
      JoinAppend(SetTexts(front), [Join(b, " ")], " ");
      JoinAppend(a, b, " ");
    }
  }

  predicate NameSafe(d: Shlex.Reader, text: string) {
    forall c :: c in text ==> !Shlex.IsSpecial(d, c)
  }

  lemma SafeIsOrdinary(d: Shlex.Reader, text: string)
    requires NameSafe(d, text)
    ensures Shlex.Ordinary(d, text)
  {
    forall i | 0 <= i < |text| ensures !Shlex.IsSpecial(d, text[i]) { assert text[i] in text; }
  }

  predicate Letters(text: string) {
    forall c :: c in text ==> 'a' <= c <= 'z' || c == '-'
  }

  lemma NameLettersEarly(f: Flag)
    requires Turn(f) < 8
    ensures Letters(Name(f))
  {
  }

  lemma NameLettersLate(f: Flag)
    requires Turn(f) >= 8
    ensures Letters(Name(f))
  {
  }

  lemma NameIsSafe(d: Shlex.Reader, f: Flag)
    ensures NameSafe(d, Name(f))
  {
    if Turn(f) < 8 {
      NameLettersEarly(f);
    } else {
      NameLettersLate(f);
    }
    hide Name;
  }

  lemma NamesAreSafe(d: Shlex.Reader, f: Flag)
    ensures NameSafe(d, "--" + Name(f) + "=")
  {
    NameIsSafe(d, f);
    hide Name;
    assert forall c :: c in "--" + Name(f) + "=" ==> c in Name(f) || c == '-' || c == '=';
  }

  /** A setting whose text the splitter reads as the flag and value it stands for. */
  lemma SettingSpells(d: Shlex.Reader, s: Setting)
    requires s.flag in STRING_FLAGS || Shlex.Ordinary(d, s.value)
    ensures Shlex.Spells(d, SettingText(s), SettingToken(s))
  {
    hide Name, Shlex.Quote, Shlex.Spells;
    var head := "--" + Name(s.flag) + "=";
    NamesAreSafe(d, s.flag);
    SafeIsOrdinary(d, head);
    if s.flag in STRING_FLAGS {
      Shlex.PrefixedQuoteSpells(d, head, s.value);
    } else {
      assert forall i :: 0 <= i < |head + s.value| ==>
          (head + s.value)[i] == if i < |head| then head[i] else s.value[i - |head|];
      Shlex.OrdinarySpells(d, head + s.value);
    }
  }

  /** Settings the splitter can only read one way. */
  ghost predicate Plain(d: Shlex.Reader, fix: seq<Setting>) {
    forall i :: 0 <= i < |fix| ==> fix[i].flag !in STRING_FLAGS && Shlex.Ordinary(d, fix[i].value)
  }

  ghost predicate Safe(d: Shlex.Reader, fix: seq<Setting>) {
    forall i :: 0 <= i < |fix| ==> fix[i].flag in STRING_FLAGS || Shlex.Ordinary(d, fix[i].value)
  }

  lemma PlainTexts(d: Shlex.Reader, fix: seq<Setting>)
    requires Plain(d, fix)
    ensures Shlex.AllOrdinary(d, SettingTexts(fix)) && SettingTexts(fix) == SettingTokens(fix)
  {
    hide Name;
    forall i | 0 <= i < |fix|
      ensures Shlex.Ordinary(d, SettingTexts(fix)[i]) && SettingTexts(fix)[i] != ""
              && SettingText(fix[i]) == SettingToken(fix[i])
    {
      var head, v := "--" + Name(fix[i].flag) + "=", fix[i].value;
      NamesAreSafe(d, fix[i].flag);
      SafeIsOrdinary(d, head);
      assert SettingText(fix[i]) == head + v;
      assert forall j :: 0 <= j < |head + v| ==> (head + v)[j] == if j < |head| then head[j] else v[j - |head|];
    }
  }

  /** A line of safe settings, one setting printed raw, and plain settings: a reader gets back the flags
      and values exactly when the raw value is ordinary to it. */
  lemma LineExact(d: Shlex.Reader, before: seq<Setting>, raw: Setting, after: seq<Setting>)
    requires Safe(d, before) && raw.flag !in STRING_FLAGS && Plain(d, after)
    ensures Shlex.Words(d, Join(SettingTexts(before + [raw] + after), " "))
            == Some(SettingTokens(before + [raw] + after))
            <==> Shlex.Ordinary(d, raw.value)
  {
    hide Name, Shlex.Words, Shlex.Spells, SettingToken;
    var text, head := SettingText(raw), "--" + Name(raw.flag) + "=";
    NamesAreSafe(d, raw.flag);
    SafeIsOrdinary(d, head);
    assert text == head + raw.value;
    assert Shlex.Ordinary(d, text) <==> Shlex.Ordinary(d, raw.value) by {
      assert forall i :: 0 <= i < |raw.value| ==> raw.value[i] == text[|head| + i];
      assert forall i :: 0 <= i < |head| ==> head[i] == text[i];
    }
    forall i | 0 <= i < |before| ensures Shlex.Spells(d, SettingTexts(before)[i], SettingTokens(before)[i]) {
      SettingSpells(d, before[i]);
    }
    PlainTexts(d, after);
    SameTextAndToken(raw);
    SettingTextsAppend(before, [raw]);
    SettingTextsAppend(before + [raw], after);
    assert SettingTexts([raw]) == [text] && SettingTokens([raw]) == [text];
    Shlex.RawInLineExact(d, SettingTexts(before), SettingTokens(before), text, SettingTexts(after));
  }

  lemma SameTextAndToken(s: Setting)
    requires s.flag !in STRING_FLAGS
    ensures SettingText(s) == SettingToken(s)
  {
  }

  lemma {:induction false} SafeConcat(d: Shlex.Reader, parts: seq<seq<Problem>>, low: nat, high: nat)
    requires forall k :: 0 <= k < |parts| ==> Safe(d, Settings(parts[k])) && OwnedWithin(Settings(parts[k]), low, high)
    ensures Safe(d, Settings(Concat(parts))) && OwnedWithin(Settings(Concat(parts)), low, high)
  {
    if parts != [] {
      var n := |parts| - 1;
      SafeConcat(d, parts[..n], low, high);
      ReportAppend(Concat(parts[..n]), parts[n]);
    }
  }

  ghost predicate OwnedWithin(fix: seq<Setting>, low: nat, high: nat) {
    forall i :: 0 <= i < |fix| ==> low <= Owner(fix[i].flag) < high
  }

  lemma LettersOrdinary(d: Shlex.Reader, text: string)
    requires Letters(text)
    ensures Shlex.Ordinary(d, text)
  {
    forall c | 'a' <= c <= 'z' || c == '-' ensures !Shlex.IsSpecial(d, c) { Shlex.PlainChar(d, c); }
    hide Shlex.IsSpecial;
    SafeIsOrdinary(d, text);
  }

  lemma WordsAreOrdinary(d: Shlex.Reader)
    ensures Shlex.Ordinary(d, "true") && Shlex.Ordinary(d, "false") && Shlex.Ordinary(d, "")
    ensures Shlex.Ordinary(d, "off") && Shlex.Ordinary(d, "nodivert") && Shlex.Ordinary(d, "on")
  {
    assert Letters("true") && Letters("false") && Letters("") && Letters("off") && Letters("nodivert") && Letters("on");
    hide Letters, Shlex.Ordinary;
    LettersOrdinary(d, "true");
    LettersOrdinary(d, "false");
    LettersOrdinary(d, "");
    LettersOrdinary(d, "off");
    LettersOrdinary(d, "nodivert");
    LettersOrdinary(d, "on");
  }

  /** Of a section's problems, at most one, and it asks for safe settings only. */
  ghost predicate AsksSafely(d: Shlex.Reader, s: seq<Problem>) {
    |s| <= 1 && (s != [] ==> Safe(d, s[0].fix))
  }

  lemma FlagSectionsSafe(d: Shlex.Reader, p: Prefs, flags: Args.Flags, f: Flag)
    ensures AsksSafely(d, BoolSection(p, flags, f))
    ensures f in STRING_FLAGS ==> AsksSafely(d, StringSection(p, flags, f))
  {
    hide Name, WantBool, Given, Shlex.Ordinary;
    WordsAreOrdinary(d);
  }

  lemma OtherSectionsSafe(d: Shlex.Reader, p: Prefs, flags: Args.Flags, tags: seq<string>)
    ensures AsksSafely(d, Login(p)) && AsksSafely(d, ControlSection(p, flags)) && AsksSafely(d, SnatSection(p, flags))
    ensures AsksSafely(d, TagsSection(p, flags, tags)) && AsksSafely(d, ExitNodeSection(p, flags))
    ensures AsksSafely(d, ServicesSection(p))
    ensures AsksSafely(d, MustBeFalse(p.runWebClient, "RunWebClient", WebClient))
    ensures AsksSafely(d, MustBeFalse(p.postureChecking, "PostureChecking", ReportPosture))
  {
    hide Name, TsBool, Given, Shlex.Ordinary, Sort, WantTags, RStripChar;
    WordsAreOrdinary(d);
  }

  lemma ModeSectionSafe(d: Shlex.Reader, p: Prefs, flags: Args.Flags)
    ensures AsksSafely(d, ModeSection(p, flags))
  {
    hide Name, Given, Shlex.Ordinary, Lower, ModeIs;
    WordsAreOrdinary(d);
  }

  lemma SafeSettings(d: Shlex.Reader, s: seq<Problem>)
    requires AsksSafely(d, s)
    ensures Safe(d, Settings(s))
  {
    if s != [] {
      assert s == [s[0]];
      SettingsOfOne(s[0]);
    }
  }

  lemma NoSettingIsSafe(d: Shlex.Reader)
    ensures Safe(d, [])
  {
  }

  lemma SectionSafe(d: Shlex.Reader, p: Prefs, flags: Args.Flags, tags: seq<string>, k: nat)
    requires k < 19 && k != 10
    ensures |Sections(p, flags, tags)| == 19 && Safe(d, Settings(Sections(p, flags, tags)[k]))
  {
    hide Name, SortSet, Login, Unexpected, PositionalWords, BoolSection, StringSection, ControlSection, RoutesSection,
         SnatSection, ModeSection, TagsSection, ExitNodeSection, MustBeFalse, ServicesSection, UnverifiedSection,
         Sections, COMPARED, Settings, AsksSafely, Safe;
    SectionList(p, flags, tags);
    FlagSectionsSafe(d, p, flags, AcceptDns);
    FlagSectionsSafe(d, p, flags, AcceptRoutes);
    FlagSectionsSafe(d, p, flags, Ssh);
    FlagSectionsSafe(d, p, flags, ShieldsUp);
    FlagSectionsSafe(d, p, flags, ExitNodeAllowLan);
    FlagSectionsSafe(d, p, flags, Hostname);
    FlagSectionsSafe(d, p, flags, Operator);
    OtherSectionsSafe(d, p, flags, tags);
    ModeSectionSafe(d, p, flags);
    ManualSectionsOwned(PositionalWords(flags), SortSet(flags.Keys - COMPARED));
    if k == 1 || k == 18 {
      NoSettingIsSafe(d);
    } else {
      SafeSettings(d, Sections(p, flags, tags)[k]);
    }
  }

  /** The settings before, of, and after the routes section. */
  lemma SettingsAround(d: Shlex.Reader, p: Prefs, flags: Args.Flags, tags: seq<string>)
    returns (before: seq<Setting>, after: seq<Setting>)
    ensures Settings(Problems(p, flags, tags)) == before + Settings(RoutesSection(p, flags)) + after
    ensures Safe(d, before) && OwnedWithin(before, 0, 10)
    ensures Safe(d, after) && OwnedWithin(after, 11, 19)
  {
    hide Sections, Settings, Manual, RoutesSection, Owner, Concat, Safe, OwnedBy, Name;
    var s := Sections(p, flags, tags);
    assert |s| == 19 && s[10] == RoutesSection(p, flags) by { SectionList(p, flags, tags); }
    forall k | 0 <= k < 19 && k != 10 ensures Safe(d, Settings(s[k])) && OwnedWithin(Settings(s[k]), k, k + 1) {
      SectionSafe(d, p, flags, tags, k);
      SectionOwned(p, flags, tags, k);
      OwnedIsWithin(Settings(s[k]), k);
    }
    var x, y := s[..10], s[11..];
    forall k | 0 <= k < 10 ensures OwnedWithin(Settings(x[k]), 0, 10) && Safe(d, Settings(x[k])) {
      assert x[k] == s[k];
    }
    forall k | 0 <= k < 8 ensures OwnedWithin(Settings(y[k]), 11, 19) && Safe(d, Settings(y[k])) {
      assert y[k] == s[11 + k];
    }
    SafeConcat(d, x, 0, 10);
    SafeConcat(d, y, 11, 19);
    before, after := Settings(Concat(x)), Settings(Concat(y));
    assert s == x + [s[10]] + y;
    ConcatAppend(x + [s[10]], y);
    ConcatSnoc(x, s[10]);
    ReportAppend(Concat(x) + s[10], Concat(y));
    ReportAppend(Concat(x), s[10]);
  }

  lemma OwnedIsWithin(fix: seq<Setting>, k: nat)
    requires OwnedBy(fix, k)
    ensures OwnedWithin(fix, k, k + 1)
  {
  }

  lemma AfterRoutesPlain(d: Shlex.Reader, after: seq<Setting>)
    requires Safe(d, after) && OwnedWithin(after, 10, 19)
    ensures Plain(d, after)
  {
  }

  /** The routes printed by the repair, if any. */
  predicate RoutesPrinted(p: Prefs, flags: Args.Flags) {
    && Sort(List(p.advertiseRoutes)) != WantRoutes(flags)
    && Sort(WithoutExit(Sort(List(p.advertiseRoutes)))) != GivenRoutes(flags)
  }

  lemma RoutesSettings(p: Prefs, flags: Args.Flags)
    ensures var r := Settings(RoutesSection(p, flags));
            var exit := Setting(AdvertiseExitNode, BoolText(GivenExit(flags)));
            if RoutesPrinted(p, flags) then
              var routes := Setting(AdvertiseRoutes, Join(GivenRoutes(flags), ","));
              r == [routes] || r == [routes, exit]
            else r == [] || r == [exit]
  {
    hide Name, Sort, SortSet, TsList, TsBool, Given, WithoutExit, Join;
    var s := RoutesSection(p, flags);
    if s != [] {
      SettingsOfOne(s[0]);
    }
  }

  lemma {:induction false} JoinedRoutesOrdinary(d: Shlex.Reader, routes: seq<string>)
    ensures Shlex.Ordinary(d, Join(routes, ",")) <==> forall i :: 0 <= i < |routes| ==> Shlex.Ordinary(d, routes[i])
  {
    if |routes| == 1 {
    } else if routes != [] {
      var a, b := routes[0], Join(routes[1..], ",");
      JoinedRoutesOrdinary(d, routes[1..]);
      OrdinaryAround(d, a, b);
      assert forall i :: 0 < i < |routes| ==> routes[i] == routes[1..][i - 1];
      assert forall i :: 0 <= i < |routes[1..]| ==> routes[1..][i] == routes[i + 1];
    }
  }

  lemma OrdinaryAround(d: Shlex.Reader, a: string, b: string)
    ensures Shlex.Ordinary(d, a + "," + b) <==> Shlex.Ordinary(d, a) && Shlex.Ordinary(d, b)
  {
    var t := a + "," + b;
    assert forall i :: 0 <= i < |a| ==> a[i] == t[i];
    assert forall i :: 0 <= i < |b| ==> b[i] == t[|a| + 1 + i];
    assert forall i :: 0 <= i < |t| ==> t[i] == if i < |a| then a[i] else if i == |a| then ',' else b[i - |a| - 1];
  }

  /** The whole repair, printed as one `tailscale set` line, is read back as exactly the settings it
      stands for if and only if no printed route holds a character that is special to the reader: the
      string flags are quoted, the routes are not. For `shlex.split` those are blanks, quotes and the
      backslash; for a shell also its operators, expansions, patterns and the end of the line. */
  lemma RepairLineExact(d: Shlex.Reader, p: Prefs, flags: Args.Flags, tags: seq<string>)
    ensures var found := Problems(p, flags, tags);
            Shlex.Words(d, Join(SetTexts(found), " ")) == Some(SettingTokens(Settings(found)))
            <==> (RoutesPrinted(p, flags) ==>
                    forall i :: 0 <= i < |GivenRoutes(flags)| ==> Shlex.Ordinary(d, GivenRoutes(flags)[i]))
  {
    hide Problems, Settings, SetTexts, Shlex.Words, SettingTexts, SettingTokens, GivenRoutes, RoutesPrinted, GivenExit,
         RoutesSection, Shlex.Ordinary, Name;
    var found := Problems(p, flags, tags);
    LineOfSettings(found);
    var before, after := SettingsAround(d, p, flags, tags);
    RoutesSettings(p, flags);
    JoinedRoutesOrdinary(d, GivenRoutes(flags));
    WordsAreOrdinary(d);
    var r := Settings(RoutesSection(p, flags));
    if RoutesPrinted(p, flags) {
      var rest := r[1..] + after;
      assert Safe(d, r[1..]) && OwnedWithin(r[1..], 10, 11);
      AfterRoutesPlain(d, rest);
      assert before + r + after == before + [r[0]] + rest;
      LineExact(d, before, r[0], rest);
    } else {
      assert Safe(d, before + r + after);
      SafeLine(d, before + r + after);
    }
  }

  /** A repair that the splitter reads back and a shell does not. */
  lemma SemicolonOnlySplits() returns (p: Prefs, flags: Args.Flags)
    ensures flags == map[Name(AdvertiseRoutes) := Args.Value("10.0.0.0/8;reboot")]
    ensures SplitsOnly(Problems(p, flags, []))
  {
    var route := "10.0.0.0/8;reboot";
    p := Prefs(Absent, Absent, Absent, Absent, Absent, Absent, Absent, Absent, Absent, Absent, Absent, Absent, Absent,
               Absent, Absent, Absent, Absent, Absent, Absent);
    flags := map[Name(AdvertiseRoutes) := Args.Value(route)];
    SemicolonIsActive(route);
    hide *;
    OneRoute(flags, route);
    NoRoutesYet(p, flags, route);
    ReadersDiffer(p, flags, route);
  }

  /** The printed repair is read back as its settings by `shlex.split`, but not by a shell. */
  ghost predicate SplitsOnly(found: seq<Problem>) {
    var line, tokens := Join(SetTexts(found), " "), SettingTokens(Settings(found));
    Shlex.Words(Shlex.Splitter, line) == Some(tokens) && Shlex.Words(Shlex.Shell, line) != Some(tokens)
  }

  lemma ReadersDiffer(p: Prefs, flags: Args.Flags, route: string)
    requires GivenRoutes(flags) == [route] && RoutesPrinted(p, flags)
    requires Shlex.Ordinary(Shlex.Splitter, route) && !Shlex.Ordinary(Shlex.Shell, route)
    ensures SplitsOnly(Problems(p, flags, []))
  {
    hide Problems, Settings, SetTexts, SettingTokens, GivenRoutes, RoutesPrinted, Shlex.Words, Shlex.Ordinary, Join;
    RepairLineExact(Shlex.Splitter, p, flags, []);
    RepairLineExact(Shlex.Shell, p, flags, []);
    assert GivenRoutes(flags)[0] == route;
  }

  lemma OneRoute(flags: Args.Flags, route: string)
    requires flags == map[Name(AdvertiseRoutes) := Args.Value(route)]
    requires Trimmed(route) && route != "" && ',' !in route
    ensures GivenRoutes(flags) == [route]
  {
    StripFacts(route);
    hide Name, Strip, Trimmed;
    assert Split(route, ',') == [route];
    assert [route][1..] == [];
    assert Cleaned([route]) == [route] + Cleaned([]) == [route];
    assert Sort([route]) == Insert(route, Sort([])) == [route];
  }

  lemma NoRoutesYet(p: Prefs, flags: Args.Flags, route: string)
    requires p.advertiseRoutes == Absent && GivenRoutes(flags) == [route]
    ensures RoutesPrinted(p, flags)
  {
    hide GivenRoutes, GivenExit, SortSet;
    assert Sort(List(p.advertiseRoutes)) == [];
    assert route in Elems(WantRoutes(flags)) by { assert route in Elems([route]); }
  }

  lemma SemicolonIsActive(route: string)
    requires route == "10.0.0.0/8;reboot"
    ensures Trimmed(route) && route != "" && ',' !in route
    ensures Shlex.Ordinary(Shlex.Splitter, route) && !Shlex.Ordinary(Shlex.Shell, route)
  {
    assert route[10] == ';' && Shlex.IsSpecial(Shlex.Shell, route[10]);
    forall i | 0 <= i < |route| ensures !Shlex.IsSpecial(Shlex.Splitter, route[i]) { assert route[i] in "0./8;rebot1"; }
  }

  lemma SafeLine(d: Shlex.Reader, fix: seq<Setting>)
    requires Safe(d, fix)
    ensures Shlex.Words(d, Join(SettingTexts(fix), " ")) == Some(SettingTokens(fix))
  {
    hide Name, Shlex.Words, Shlex.Spells, SettingText, SettingToken;
    forall i | 0 <= i < |fix| ensures Shlex.Spells(d, SettingTexts(fix)[i], SettingTokens(fix)[i]) {
      SettingSpells(d, fix[i]);
    }
    Shlex.SplitSpelled(d, SettingTexts(fix), SettingTokens(fix));
  }

  /** Read as a command line, the tokens of a repair give every flag the value the repair sets. */
  lemma {:induction false} TokensMeanSettings(fix: seq<Setting>, f: Flag)
    ensures var items := Args.Items(SettingTokens(fix));
            |items| == |fix| && Args.Words(items) == [] && Args.LastValue(items, Name(f)) == Lookup(fix, f)
  {
    hide Name, Args.Items, Args.Words, Args.LastValue;
    if fix == [] {
      assert SettingTokens(fix) == [];
      Args.NothingRead(Name(f));
    } else {
      var front, last := fix[..|fix| - 1], fix[|fix| - 1];
      assert fix == front + [last];
      TokensMeanSettings(front, f);
      LastTokenItem(front, last);
      Args.SnocFacts(Args.Items(SettingTokens(front)),
                     Args.Flag(Name(last.flag), last.value, [SettingToken(last)]), Name(f));
      NameInjective(last.flag, f);
    }
  }

  lemma LastTokenItem(front: seq<Setting>, last: Setting)
    ensures Args.Items(SettingTokens(front + [last]))
         == Args.Items(SettingTokens(front)) + [Args.Flag(Name(last.flag), last.value, [SettingToken(last)])]
  {
    hide Name, Args.FlagName, Args.FlagValue, Args.IsSwitch, Args.Items;
    SettingTextsAppend(front, [last]);
    var t := SettingToken(last);
    assert SettingTokens([last]) == [t];
    FlagNamesAreNames(last.flag);
    Args.NamedToken(Name(last.flag), last.value);
    Args.ItemsSplit(SettingTokens(front), [t]);
    Args.ItemsStep([t], 1);
    assert [t][..1] == [t] && [t][1..] == [];
    Args.CollectNothing();
  }

  lemma FlagNamesAreNames(f: Flag)
    ensures Args.IsName(Name(f))
  {
    if Turn(f) < 8 {
      NameLettersEarly(f);
    } else {
      NameLettersLate(f);
    }
    NameBegins(f);
    hide Name;
    assert '=' !in Name(f);
  }

  lemma NameBegins(f: Flag)
    ensures Name(f) != "" && Name(f)[0] != '-' && Name(f) != Args.POSITIONAL_KEY
  {
    NameInjective(f, f);
  }
}
