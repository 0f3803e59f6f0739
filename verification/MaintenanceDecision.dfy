/** What docker's packages lack, which files dockerd has not loaded, and whether a maintenance run
    must stop the node's containers. */
module MaintenanceDecision {
  import opened Text
  import opened Selection

  // -------------------------------------------------------------------------
  // Drift from the pinned packages
  // -------------------------------------------------------------------------

  datatype Pin = Pin(name: string, version: Option<string>)

  /** `split_pin`: `name=version`, or a bare name. */
  function SplitPin(entry: string): Pin {
    var i := Find(entry, '=');
    if i < |entry| then Pin(entry[..i], Some(entry[i + 1..])) else Pin(entry, None)
  }

  /** The name ends at the first `=`; without one there is no version. */
  lemma SplitPinExactly(entry: string, name: string, version: string)
    ensures SplitPin(entry) == Pin(name, Some(version)) <==> entry == name + "=" + version && '=' !in name
    ensures SplitPin(entry) == Pin(name, None) <==> entry == name && '=' !in name
  {
    FindFacts(entry, '=');
    var i := Find(entry, '=');
    assert i < |entry| ==> entry == entry[..i] + "=" + entry[i + 1..];
    if entry == name + "=" + version && '=' !in name {
      FindFirst(name, '=', version);
      assert entry == name + ['='] + version;
    }
  }

  datatype Drift = Drift(name: string, pin: Option<string>, installed: Option<string>)

  function Installed(installed: map<string, string>, name: string): Option<string> {
    if name in installed then Some(installed[name]) else None
  }

  predicate Drifts(installed: map<string, string>, pin: Pin) {
    var have := Installed(installed, pin.name);
    have.None? || (pin.version.Some? && have != pin.version)
  }

  function DriftOf(installed: map<string, string>, pins: seq<string>): seq<Drift> {
    if pins == [] then []
    else
      var n := |pins| - 1;
      var p := SplitPin(pins[n]);
      DriftOf(installed, pins[..n])
      + if Drifts(installed, p) then [Drift(p.name, p.version, Installed(installed, p.name))] else []
  }

  /** `docker_drift`. */
  method DockerDrift(installed: map<string, string>, pins: seq<string>) returns (out: seq<Drift>)
    ensures out == DriftOf(installed, pins)
  {
    hide SplitPin;
    out := [];
    for i := 0 to |pins|
      invariant out == DriftOf(installed, pins[..i])
    {
      assert pins[..i + 1][..i] == pins[..i];
      var p := SplitPin(pins[i]);
      var have := if p.name in installed then Some(installed[p.name]) else None;
      if have.None? || (p.version.Some? && have != p.version) {
        out := out + [Drift(p.name, p.version, have)];
      }
    }
    assert pins[..|pins|] == pins;
  }

  /** The package is there, at the pinned version when the entry names one. */
  predicate Satisfied(installed: map<string, string>, entry: string) {
    var p := SplitPin(entry);
    p.name in installed && (p.version.Some? ==> installed[p.name] == p.version.value)
  }

  function Report(installed: map<string, string>, entry: string): Drift {
    var p := SplitPin(entry);
    Drift(p.name, p.version, Installed(installed, p.name))
  }

  /** The drift reports exactly the unsatisfied entries, each with its pin and what is installed. */
  lemma {:induction false} DriftExactly(installed: map<string, string>, pins: seq<string>)
    ensures forall entry :: entry in pins && !Satisfied(installed, entry) ==>
            Report(installed, entry) in DriftOf(installed, pins)
    ensures forall d :: d in DriftOf(installed, pins) ==>
              exists entry :: entry in pins && !Satisfied(installed, entry) && d == Report(installed, entry)
    ensures DriftOf(installed, pins) == [] <==> forall entry :: entry in pins ==> Satisfied(installed, entry)
  {
    if pins != [] {
      var n := |pins| - 1;
      var last := pins[n];
      DriftExactly(installed, pins[..n]);
      assert DriftOf(installed, pins) == DriftOf(installed, pins[..n])
                                         + if Satisfied(installed, last) then [] else [Report(installed, last)];
      hide DriftOf, Satisfied, Report;
      assert pins == pins[..n] + [last];
      assert forall entry :: entry in pins <==> entry in pins[..n] || entry == last;
    }
  }

  /** An apt transaction that installs every reported package at its pin (a bare name at any version)
      and touches nothing else. */
  ghost predicate InstalledAtPins(before: map<string, string>, after: map<string, string>, drift: seq<Drift>) {
    && (forall d :: d in drift ==> d.name in after && (d.pin.Some? ==> after[d.name] == d.pin.value))
    && (forall name :: (forall d :: d in drift ==> d.name != name) ==>
       Installed(after, name) == Installed(before, name))
  }

  /** Two entries that ask for different versions of one package. */
  ghost predicate Conflict(pins: seq<string>) {
    exists a, b :: a in pins && b in pins && Clash(SplitPin(a), SplitPin(b))
  }

  predicate Clash(a: Pin, b: Pin) { a.name == b.name && a.version.Some? && b.version.Some? && a.version != b.version }

  /** Without conflicting pins, installing what drifts satisfies every pin. */
  lemma InstallEndsDrift(before: map<string, string>, after: map<string, string>, pins: seq<string>)
    requires !Conflict(pins) && InstalledAtPins(before, after, DriftOf(before, pins))
    ensures DriftOf(after, pins) == []
    ensures forall entry ::
              entry in pins
              && (forall other :: other in pins && SplitPin(other).name == SplitPin(entry).name ==>
                    Satisfied(before, other))
              ==> Installed(after, SplitPin(entry).name) == Installed(before, SplitPin(entry).name)
  {
    hide SplitPin, DriftOf;
    DriftExactly(before, pins);
    DriftExactly(after, pins);
    forall entry | entry in pins ensures Satisfied(after, entry) {
      EntrySatisfied(before, after, pins, entry);
    }
  }

  lemma EntrySatisfied(before: map<string, string>, after: map<string, string>, pins: seq<string>, entry: string)
    requires !Conflict(pins) && InstalledAtPins(before, after, DriftOf(before, pins)) && entry in pins
    ensures Satisfied(after, entry)
  {
    hide SplitPin, DriftOf;
    DriftExactly(before, pins);
    var drift, p := DriftOf(before, pins), SplitPin(entry);
    if d :| d in drift && d.name == p.name {
      var other :| other in pins && !Satisfied(before, other) && d == Report(before, other);
      assert !Clash(p, SplitPin(other)) && !Clash(SplitPin(other), p);
      if Satisfied(before, entry) {
        assert SplitPin(other).version.Some? && p.version.None?;
      } else {
        assert Report(before, entry) in drift;
      }
    } else {
      assert !Satisfied(before, entry) ==> Report(before, entry) in drift;
      assert Installed(after, p.name) == Installed(before, p.name);
    }
  }

  /** One version for every name, taken from a versioned entry where there is one. */
  function Wanted(pins: seq<string>, bare: string): map<string, string> {
    if pins == [] then map[]
    else
      var n := |pins| - 1;
      var p, rest := SplitPin(pins[n]), Wanted(pins[..n], bare);
      if p.version.Some? then rest[p.name := p.version.value]
      else if p.name in rest then rest
      else rest[p.name := bare]
  }

  lemma {:induction false} WantedSatisfies(pins: seq<string>, bare: string)
    requires !Conflict(pins)
    ensures forall entry :: entry in pins ==> Satisfied(Wanted(pins, bare), entry)
    ensures forall name :: name in Wanted(pins, bare) ==>
              Wanted(pins, bare)[name] == bare
              || exists e :: e in pins && SplitPin(e) == Pin(name, Some(Wanted(pins, bare)[name]))
  {
    hide SplitPin;
    if pins != [] {
      var n := |pins| - 1;
      assert forall e :: e in pins[..n] ==> e in pins;
      assert !Conflict(pins[..n]);
      WantedSatisfies(pins[..n], bare);
      var p := SplitPin(pins[n]);
      forall entry | entry in pins ensures Satisfied(Wanted(pins, bare), entry) {
        if entry != pins[n] {
          assert entry in pins[..n];
          assert !Clash(SplitPin(entry), p);
        }
      }
    }
  }

  /** Some set of installed packages satisfies every pin exactly when no two pins conflict. */
  lemma PinsSatisfiableExactly(pins: seq<string>)
    ensures (exists installed: map<string, string> :: DriftOf(installed, pins) == []) <==> !Conflict(pins)
  {
    hide SplitPin, DriftOf;
    if !Conflict(pins) {
      WantedSatisfies(pins, "");
      DriftExactly(Wanted(pins, ""), pins);
    } else {
      forall installed: map<string, string> ensures DriftOf(installed, pins) != [] {
        DriftExactly(installed, pins);
        if DriftOf(installed, pins) == [] {
          ConflictUnsatisfied(installed, pins);
        }
      }
    }
  }

  lemma ConflictUnsatisfied(installed: map<string, string>, pins: seq<string>)
    requires Conflict(pins)
    ensures exists entry :: entry in pins && !Satisfied(installed, entry)
  {
    hide SplitPin;
    var a, b :| a in pins && b in pins && Clash(SplitPin(a), SplitPin(b));
    assert !Satisfied(installed, a) || !Satisfied(installed, b);
  }

  // -------------------------------------------------------------------------
  // Files newer than the running dockerd
  // -------------------------------------------------------------------------

  /** A `stat` result: of one file, or one turn of a looped task (`stat` absent when it failed). */
  datatype FileStat =
    | Row(path: string, exists_: bool, mtime: Option<real>)
    | Turn(item: string, stat: Option<StatInfo>)
  {
    function Path(): string { if Row? then path else item }
    predicate Exists() { if Row? then exists_ else stat.Some? && stat.value.exists_ }
    function Modified(): real {
      if Row? then OrZero(mtime) else if stat.Some? then OrZero(stat.value.mtime) else 0.0
    }
  }
  datatype StatInfo = StatInfo(exists_: bool, mtime: Option<real>)

  function OrZero(t: Option<real>): real { if t.Some? then t.value else 0.0 }

  /** Compared in whole seconds. */
  predicate Newer(s: FileStat, epoch: real) { s.Exists() && s.Modified().Floor as real > epoch }

  function NewerPaths(stats: seq<FileStat>, epoch: real): seq<string> {
    if stats == [] then []
    else
      var n := |stats| - 1;
      NewerPaths(stats[..n], epoch) + if Newer(stats[n], epoch) then [stats[n].Path()] else []
  }

  /** `files_newer_than`; an epoch that is missing or is no number counts as zero. */
  method FilesNewerThan(stats: seq<FileStat>, epoch: Option<real>) returns (out: seq<string>)
    ensures out == NewerPaths(stats, OrZero(epoch))
  {
    var start := OrZero(epoch);
    out := [];
    for i := 0 to |stats|
      invariant out == NewerPaths(stats[..i], start)
    {
      assert stats[..i + 1][..i] == stats[..i];
      var row := match stats[i]
        case Row(_, _, _) => stats[i]
        case Turn(item, None) => Row(item, false, None)
        case Turn(item, Some(info)) => Row(item, info.exists_, info.mtime);
      if row.exists_ && OrZero(row.mtime).Floor as real > start {
        out := out + [row.path];
      }
    }
    assert stats[..|stats|] == stats;
  }

  lemma {:induction false} NewerMembers(stats: seq<FileStat>, epoch: real)
    ensures forall path :: path in NewerPaths(stats, epoch)
                           <==> exists s :: s in stats && Newer(s, epoch) && path == s.Path()
  {
    hide Newer;
    if stats != [] {
      var n := |stats| - 1;
      NewerMembers(stats[..n], epoch);
      assert stats == stats[..n] + [stats[n]];
    }
  }

  /** With the start as systemd prints it, truncated to the second, a file written at or before the
      start is never reported, and one written in any later second always is. */
  lemma NewerThanTheStart(stats: seq<FileStat>, s: FileStat, started: real)
    requires s in stats && s.Exists()
    ensures s.Modified() <= started ==> !Newer(s, started.Floor as real)
    ensures s.Modified().Floor > started.Floor ==> s.Path() in NewerPaths(stats, started.Floor as real)
    ensures s.Modified() >= started.Floor as real + 1.0 ==> s.Path() in NewerPaths(stats, started.Floor as real)
  {
    hide NewerPaths;
    NewerMembers(stats, started.Floor as real);
  }

  // -------------------------------------------------------------------------
  // The stop decision
  // -------------------------------------------------------------------------

  datatype Inputs = Inputs(drift: seq<Drift>, restartReasons: seq<string>, rebootPending: bool, force: bool)

  datatype Reason = DockerDrifts(drift: seq<Drift>) | MustRestart(why: string) | RebootPending | Forced

  datatype Decision = Decision(stop: bool, reasons: seq<Reason>, restartRequired: bool, restartReasons: seq<string>,
                               drift: seq<Drift>, rebootPending: bool, force: bool)

  /** The distinct non-blank reasons, stripped, in order of first appearance. */
  function Restarts(reasons: seq<string>): seq<string> {
    if reasons == [] then []
    else
      var n := |reasons| - 1;
      var before, r := Restarts(reasons[..n]), Strip(reasons[n]);
      if r != "" && r !in before then before + [r] else before
  }

  function RestartReasons(restarts: seq<string>): seq<Reason> {
    seq(|restarts|, i requires 0 <= i < |restarts| => MustRestart(restarts[i]))
  }

  function Decide(inputs: Inputs): Decision {
    var restart := Restarts(inputs.restartReasons);
    var reasons := (if inputs.drift != [] then [DockerDrifts(inputs.drift)] else [])
                   + RestartReasons(restart)
                   + (if inputs.rebootPending then [RebootPending] else [])
                   + (if inputs.force then [Forced] else []);
    Decision(reasons != [], reasons, restart != [], restart, inputs.drift, inputs.rebootPending, inputs.force)
  }

  method CleanRestarts(given: seq<string>) returns (restart: seq<string>)
    ensures restart == Restarts(given)
  {
    hide Strip;
    restart := [];
    for i := 0 to |given|
      invariant restart == Restarts(given[..i])
    {
      assert given[..i + 1][..i] == given[..i];
      var r := Strip(given[i]);
      if r != "" && r !in restart {
        restart := restart + [r];
      }
    }
    assert given[..|given|] == given;
  }

  method AddRestarts(before: seq<Reason>, restart: seq<string>) returns (reasons: seq<Reason>)
    ensures reasons == before + RestartReasons(restart)
  {
    reasons := before;
    for i := 0 to |restart|
      invariant |reasons| == |before| + i && reasons[..|before|] == before
      invariant forall k :: 0 <= k < i ==> reasons[|before| + k] == MustRestart(restart[k])
    {
      reasons := reasons + [MustRestart(restart[i])];
    }
  }

  /** `maintain_decide`. */
  method MaintainDecide(inputs: Inputs) returns (d: Decision)
    ensures d == Decide(inputs)
  {
    hide RestartReasons, Restarts;
    var restart := CleanRestarts(inputs.restartReasons);
    var reasons: seq<Reason> := [];
    if inputs.drift != [] {
      reasons := reasons + [DockerDrifts(inputs.drift)];
    }
    reasons := AddRestarts(reasons, restart);
    if inputs.rebootPending {
      reasons := reasons + [RebootPending];
    }
    if inputs.force {
      reasons := reasons + [Forced];
    }
    d := Decision(reasons != [], reasons, restart != [], restart, inputs.drift, inputs.rebootPending, inputs.force);
  }

  lemma {:induction false} RestartFacts(reasons: seq<string>)
    ensures forall r :: r in Restarts(reasons) <==> r != "" && exists s :: s in reasons && Strip(s) == r
    ensures forall i, j :: 0 <= i < j < |Restarts(reasons)| ==> Restarts(reasons)[i] != Restarts(reasons)[j]
  {
    hide Strip;
    if reasons != [] {
      var n := |reasons| - 1;
      RestartFacts(reasons[..n]);
      assert reasons == reasons[..n] + [reasons[n]];
    }
  }

  /** The run stops the containers exactly when something requires it, and says what. */
  lemma StopsExactly(inputs: Inputs)
    ensures var d := Decide(inputs);
            && (d.stop <==> inputs.drift != [] || d.restartRequired || inputs.rebootPending || inputs.force)
            && (d.restartRequired <==> exists s :: s in inputs.restartReasons && Strip(s) != "")
            && (DockerDrifts(inputs.drift) in d.reasons <==> inputs.drift != [])
            && (RebootPending in d.reasons <==> inputs.rebootPending) && (Forced in d.reasons <==> inputs.force)
            && (forall why :: MustRestart(why) in d.reasons <==> why in d.restartReasons)
  {
    hide Strip, Restarts, RestartReasons;
    RestartFacts(inputs.restartReasons);
    var restart := Restarts(inputs.restartReasons);
    assert restart != [] ==> restart[0] in restart;
    forall s | s in inputs.restartReasons && Strip(s) != "" ensures Strip(s) in restart {}
    RestartReasonsIn(restart);
    var a := if inputs.drift != [] then [DockerDrifts(inputs.drift)] else [];
    var b := RestartReasons(restart);
    var c := if inputs.rebootPending then [RebootPending] else [];
    var d := if inputs.force then [Forced] else [];
    InFour(a, b, c, d);
  }

  lemma InFour(a: seq<Reason>, b: seq<Reason>, c: seq<Reason>, d: seq<Reason>)
    ensures forall x :: x in a + b + c + d <==> x in a || x in b || x in c || x in d
    ensures a + b + c + d == [] <==> a == [] && b == [] && c == [] && d == []
  {
  }

  lemma RestartReasonsIn(restart: seq<string>)
    ensures forall why :: MustRestart(why) in RestartReasons(restart) <==> why in restart
    ensures forall x :: x in RestartReasons(restart) ==> x.MustRestart?
    ensures RestartReasons(restart) == [] <==> restart == []
  {
    forall why | why in restart ensures MustRestart(why) in RestartReasons(restart) {
      var i :| 0 <= i < |restart| && restart[i] == why;
      assert RestartReasons(restart)[i] == MustRestart(why);
    }
  }

  lemma {:induction false} CleanRestartsStay(restarts: seq<string>)
    requires forall i, j :: 0 <= i < j < |restarts| ==> restarts[i] != restarts[j]
    requires forall r :: r in restarts ==> r != "" && Strip(r) == r
    ensures Restarts(restarts) == restarts
  {
    hide Strip;
    if restarts != [] {
      var n := |restarts| - 1;
      assert restarts == restarts[..n] + [restarts[n]];
      assert forall r :: r in restarts[..n] ==> r in restarts;
      CleanRestartsStay(restarts[..n]);
    }
  }

  /** A resumed run that feeds the recorded decision's own fields back decides the same. */
  lemma DecisionIsFixed(inputs: Inputs)
    ensures var d := Decide(inputs);
            Decide(Inputs(d.drift, d.restartReasons, d.rebootPending, d.force)) == d
  {
    hide Strip;
    var restart := Restarts(inputs.restartReasons);
    RestartFacts(inputs.restartReasons);
    forall r | r in restart ensures r != "" && Strip(r) == r {
      var s :| s in inputs.restartReasons && Strip(s) == r;
      StripFacts(s);
      StripFacts(r);
    }
    hide Restarts;
    CleanRestartsStay(restart);
  }

  const NEWER_SUFFIX := " is newer than the running dockerd"

  function NewerReasons(paths: seq<string>): seq<string> {
    seq(|paths|, i requires 0 <= i < |paths| => paths[i] + NEWER_SUFFIX)
  }

  /** A file dockerd has not loaded stops the run by itself, even when the note that the converge
      deferred a restart was lost. */
  lemma UnloadedFileStops(stats: seq<FileStat>, s: FileStat, started: real, noted: seq<string>, drift: seq<Drift>,
                          reboot: bool, force: bool)
    requires s in stats && s.Exists() && s.Modified().Floor > started.Floor
    ensures var newer := NewerPaths(stats, started.Floor as real);
            var d := Decide(Inputs(drift, noted + NewerReasons(newer), reboot, force));
            d.stop && d.restartRequired && MustRestart(Strip(s.Path() + NEWER_SUFFIX)) in d.reasons
  {
    hide Decide, NewerPaths, Newer;
    var newer := NewerPaths(stats, started.Floor as real);
    var inputs := Inputs(drift, noted + NewerReasons(newer), reboot, force);
    NewerThanTheStart(stats, s, started);
    var i :| 0 <= i < |newer| && newer[i] == s.Path();
    var why := s.Path() + NEWER_SUFFIX;
    assert NewerReasons(newer)[i] == why;
    assert inputs.restartReasons[|noted| + i] == why;
    SuffixNotBlank(s.Path());
    hide Strip;
    StopsExactly(inputs);
    DecidedRestarts(inputs, why);
  }

  lemma DecidedRestarts(inputs: Inputs, why: string)
    requires why in inputs.restartReasons && Strip(why) != ""
    ensures Strip(why) in Decide(inputs).restartReasons
  {
    hide Strip, Restarts;
    RestartFacts(inputs.restartReasons);
  }

  lemma SuffixNotBlank(path: string)
    ensures Strip(path + NEWER_SUFFIX) != ""
  {
    assert !IsSpace('d');
    hide IsSpace;
    var s := path + NEWER_SUFFIX;
    assert s[|s| - 1] == 'd';
    LStripKeepsLast(s);
  }

  lemma {:induction false} LStripKeepsLast(s: string)
    requires s != "" && !IsSpace(s[|s| - 1])
    ensures LStrip(s) != "" && !IsSpace(LStrip(s)[|LStrip(s)| - 1]) && Strip(s) != ""
  {
    hide IsSpace;
    if IsSpace(s[0]) {
      LStripKeepsLast(s[1..]);
    }
  }

  // -------------------------------------------------------------------------
  // Entry by entry, file by file, reason by reason
  // -------------------------------------------------------------------------

  /** What an entry asks for, and what is reported of it. */
  lemma SatisfiedExactly(installed: map<string, string>, name: string, version: string)
    requires '=' !in name
    ensures Satisfied(installed, name) <==> name in installed
    ensures Satisfied(installed, name + "=" + version) <==> name in installed && installed[name] == version
    ensures var have := if name in installed then Some(installed[name]) else None;
            && Report(installed, name) == Drift(name, None, have)
            && Report(installed, name + "=" + version) == Drift(name, Some(version), have)
  {
    SplitPinExactly(name, name, "");
    SplitPinExactly(name + "=" + version, name, version);
    hide SplitPin;
  }

  /** Increasing positions list exactly the entries that are not satisfied, and each is reported as it is. */
  ghost predicate ReportsAt(at: seq<nat>, installed: map<string, string>, pins: seq<string>, out: seq<Drift>) {
    && |at| == |out| && (forall j, k :: 0 <= j < k < |at| ==> at[j] < at[k])
    && (forall j :: 0 <= j < |at| ==> at[j] < |pins| && out[j] == Report(installed, pins[at[j]]))
    && (forall i :: 0 <= i < |pins| ==> (i in at <==> !Satisfied(installed, pins[i])))
  }

  lemma DriftInOrder(installed: map<string, string>, pins: seq<string>) returns (at: seq<nat>)
    ensures ReportsAt(at, installed, pins, DriftOf(installed, pins))
  {
    hide DriftOf, Kept, Satisfied, Report;
    DriftKept(installed, pins);
    at := KeptAt(pins, entry => !Satisfied(installed, entry));
  }

  lemma {:induction false} DriftKept(installed: map<string, string>, pins: seq<string>)
    ensures var kept := Kept(pins, entry => !Satisfied(installed, entry));
            && |DriftOf(installed, pins)| == |kept|
            && forall j :: 0 <= j < |kept| ==> DriftOf(installed, pins)[j] == Report(installed, kept[j])
  {
    hide SplitPin;
    if pins != [] {
      DriftKept(installed, pins[..|pins| - 1]);
    }
  }

  /** A file counts when it exists and its time, zero when it has none, is in a later whole second; a turn whose
      `stat` failed does not. */
  lemma NewerExactly(path: string, exists_: bool, t: real, epoch: real)
    ensures Newer(Row(path, exists_, Some(t)), epoch) <==> exists_ && t.Floor as real > epoch
    ensures Newer(Row(path, exists_, None), epoch) <==> exists_ && epoch < 0.0
    ensures Newer(Turn(path, Some(StatInfo(exists_, Some(t)))), epoch) <==> exists_ && t.Floor as real > epoch
    ensures Newer(Turn(path, Some(StatInfo(exists_, None))), epoch) <==> exists_ && epoch < 0.0
    ensures !Newer(Turn(path, None), epoch)
    ensures Row(path, exists_, None).Path() == path == Turn(path, None).Path()
    ensures OrZero(None) == 0.0 && OrZero(Some(epoch)) == epoch
  {
    assert 0.0.Floor == 0;
  }

  ghost predicate NewerAt(at: seq<nat>, stats: seq<FileStat>, epoch: real, out: seq<string>) {
    && |at| == |out| && (forall j, k :: 0 <= j < k < |at| ==> at[j] < at[k])
    && (forall j :: 0 <= j < |at| ==> at[j] < |stats| && out[j] == stats[at[j]].Path())
    && (forall i :: 0 <= i < |stats| ==> (i in at <==> Newer(stats[i], epoch)))
  }

  /** The newer files, each in its place. */
  lemma NewerInOrder(stats: seq<FileStat>, epoch: real) returns (at: seq<nat>)
    ensures NewerAt(at, stats, epoch, NewerPaths(stats, epoch))
  {
    hide NewerPaths, Kept, Newer, FileStat.Path;
    NewerKept(stats, epoch);
    at := KeptAt(stats, s => Newer(s, epoch));
  }

  lemma {:induction false} NewerKept(stats: seq<FileStat>, epoch: real)
    ensures var kept := Kept(stats, s => Newer(s, epoch));
            && |NewerPaths(stats, epoch)| == |kept|
            && forall j :: 0 <= j < |kept| ==> NewerPaths(stats, epoch)[j] == kept[j].Path()
  {
    hide Newer, FileStat.Path;
    if stats != [] {
      NewerKept(stats[..|stats| - 1], epoch);
    }
  }

  /** The restart reasons in the order they first come up: each at the first position that says it. */
  ghost predicate FirstSaid(at: seq<nat>, reasons: seq<string>, out: seq<string>) {
    && |at| == |out| && (forall j, k :: 0 <= j < k < |at| ==> at[j] < at[k])
    && (forall j :: 0 <= j < |at| ==> at[j] < |reasons| && out[j] == Strip(reasons[at[j]]))
    && (forall i :: 0 <= i < |reasons| ==>
          (i in at <==> Strip(reasons[i]) != "" && forall k :: 0 <= k < i ==> Strip(reasons[k]) != Strip(reasons[i])))
  }

  lemma {:induction false} RestartsInOrder(reasons: seq<string>) returns (at: seq<nat>)
    ensures FirstSaid(at, reasons, Restarts(reasons))
  {
    hide Strip;
    if reasons == [] {
      return [];
    }
    var n := |reasons| - 1;
    var before := RestartsInOrder(reasons[..n]);
    RestartFacts(reasons[..n]);
    var r := Strip(reasons[n]);
    var said := Restarts(reasons[..n]);
    assert r in said <==> r != "" && exists k :: 0 <= k < n && Strip(reasons[k]) == r by {
      assert forall k :: 0 <= k < n ==> reasons[..n][k] == reasons[k] && reasons[k] in reasons[..n];
    }
    at := if r != "" && r !in said then before + [n] else before;
    hide Restarts;
    OneMoreSaid(before, reasons, said, at);
    assert Restarts(reasons) == if r != "" && r !in said then said + [r] else said by { LastReason(reasons); }
  }

  lemma LastReason(reasons: seq<string>)
    requires reasons != []
    ensures var n, r := |reasons| - 1, Strip(reasons[|reasons| - 1]);
            var said := Restarts(reasons[..n]);
            Restarts(reasons) == if r != "" && r !in said then said + [r] else said
  {
    hide Strip;
  }

  lemma OneMoreSaid(before: seq<nat>, reasons: seq<string>, said: seq<string>, at: seq<nat>)
    requires reasons != [] && FirstSaid(before, reasons[..|reasons| - 1], said)
    requires var n, r := |reasons| - 1, Strip(reasons[|reasons| - 1]);
             && (r in said <==> r != "" && exists k :: 0 <= k < n && Strip(reasons[k]) == r)
             && at == if r != "" && r !in said then before + [n] else before
    ensures var r := Strip(reasons[|reasons| - 1]);
            FirstSaid(at, reasons, if r != "" && r !in said then said + [r] else said)
  {
    hide Strip;
    var n, r := |reasons| - 1, Strip(reasons[|reasons| - 1]);
    forall i | 0 <= i < |reasons|
      ensures i in at <==> Strip(reasons[i]) != "" && forall k :: 0 <= k < i ==> Strip(reasons[k]) != Strip(reasons[i])
    {
      if i < n {
        assert reasons[..n][i] == reasons[i];
        assert forall k :: 0 <= k < i ==> reasons[..n][k] == reasons[k];
      } else if r != "" && r !in said {
        assert at[|before|] == n;
      }
    }
  }

  /** The reasons given: the drift first, then what must restart in its order, then the reboot, then the force;
      and the decision repeats what it was made from. */
  lemma ReasonsInOrder(inputs: Inputs)
    ensures var d := Decide(inputs);
            && d.drift == inputs.drift && d.rebootPending == inputs.rebootPending && d.force == inputs.force
            && d.restartReasons == Restarts(inputs.restartReasons)
            && (forall i, j :: 0 <= i < j < |d.reasons| ==> Precedes(d.reasons[i], d.reasons[j], d.restartReasons))
  {
    hide Restarts;
    var restart := Restarts(inputs.restartReasons);
    RestartFacts(inputs.restartReasons);
    var reasons := RestartReasons(restart);
    forall i, j | 0 <= i < j < |reasons| ensures Precedes(reasons[i], reasons[j], restart) {
      assert restart[i] != restart[j];
      assert PlaceOf(restart, restart[i], i) && PlaceOf(restart, restart[j], j);
    }
  }

  ghost predicate PlaceOf(list: seq<string>, s: string, i: nat) { i < |list| && list[i] == s }

  ghost predicate Precedes(a: Reason, b: Reason, restart: seq<string>) {
    match (a, b)
    case (DockerDrifts(_), _) => !b.DockerDrifts?
    case (MustRestart(x), MustRestart(y)) => exists i, j :: i < j && PlaceOf(restart, x, i) && PlaceOf(restart, y, j)
    case (MustRestart(_), _) => b.RebootPending? || b.Forced?
    case (RebootPending, _) => b.Forced?
    case _ => false
  }
}
