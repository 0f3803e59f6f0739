/** From which states a maintenance run can still reach its end, and what it leaves behind when it does. */
module MaintenanceResume {
  import opened Text
  import opened NodeContainers
  import D = MaintenanceDecision
  import opened Maintenance

  /** Every recorded entry still leads to a container, or may stay down. */
  ghost predicate Findable(cs: seq<Container>, st: State) {
    forall r :: r in st.recorded ==>
      ResolveOne(r, Rows(cs)).current.Some? || IsAcceptedDown(ResolveOne(r, Rows(cs)), st.acceptDown)
  }

  /** What the rest of the run needs: nothing once everything is started, else the hold. */
  predicate Able(n: Node, st: State) {
    n.held || (Converged in st.done && (st.Stops() ==> Started in st.done))
  }

  /** The names of the recorded entries that lead to no container and are not accepted down yet. */
  function Unfound(cs: seq<Container>, recorded: seq<Entry>, accepted: seq<string>): seq<string> {
    if recorded == [] then []
    else
      var e := ResolveOne(recorded[0], Rows(cs));
      (if e.current.None? && !IsAcceptedDown(e, accepted) then [e.name] else []) + Unfound(cs, recorded[1..], accepted)
  }

  lemma {:induction false} UnfoundMembers(cs: seq<Container>, recorded: seq<Entry>, accepted: seq<string>)
    ensures forall a :: a in Unfound(cs, recorded, accepted) <==>
              exists r :: r in recorded && r.name == a && ResolveOne(r, Rows(cs)).current.None?
                          && !IsAcceptedDown(ResolveOne(r, Rows(cs)), accepted)
  {
    hide CurrentRow, IsAcceptedDown, Rows;
    if recorded != [] {
      UnfoundMembers(cs, recorded[1..], accepted);
      assert forall r :: r in recorded <==> r == recorded[0] || r in recorded[1..];
    }
  }

  /** The next task, with docker, apt and the agent doing as they are told, and the operator accepting
      down what is not there any more. */
  function Todo(n: Node, st: State, inputs: D.Inputs): seq<Event> {
    match Next(st)
    case ToConverge => [StartConverge, RecordDecision(inputs)]
    case ToRecord => [RecordRunning]
    case ToStop => [ListToStop, AskStop(RunningIds(Now(n, st))), StopGate]
    case ToInstall => [Install(true, true)]
    case ToRestartDocker => [RestartDocker(false, true)]
    case ToReboot => [Reboot(true, true)]
    case ToStart =>
      [ListToStart(Unfound(n.containers, st.recorded, st.acceptDown)), AskStart(CurrentIds(Now(n, st))), StartGate]
    case ToRelease => [WriteReleasing, Off(true), Confirm(true)]
    case ToArchive => [Archive]
  }

  lemma AlikeRows(cs: seq<Container>, ds: seq<Container>)
    requires Alike(cs, ds)
    ensures |Rows(ds)| == |Rows(cs)|
    ensures forall i :: 0 <= i < |Rows(cs)| ==> Rows(ds)[i].id == Rows(cs)[i].id && Rows(ds)[i].name == Rows(cs)[i].name
  {
    hide LStripChar;
  }

  /** The state of the containers does not matter for which of them an entry leads to. */
  lemma AlikeResolve(cs: seq<Container>, ds: seq<Container>, r: Entry)
    requires Alike(cs, ds) && DistinctRows(Rows(cs))
    ensures ResolveOne(r, Rows(ds)).current == ResolveOne(r, Rows(cs)).current
  {
    AlikeRows(cs, ds);
    hide Alike, Rows;
    RowsResolve(Rows(cs), Rows(ds), r);
  }

  lemma RowsResolve(ps: seq<Row>, qs: seq<Row>, r: Entry)
    requires DistinctRows(ps) && |qs| == |ps|
    requires forall i :: 0 <= i < |ps| ==> qs[i].id == ps[i].id && qs[i].name == ps[i].name
    ensures ResolveOne(r, qs).current == ResolveOne(r, ps).current
  {
    hide CurrentRow, DistinctRows;
    CurrentRowFacts(r, ps);
    CurrentRowFacts(r, qs);
    SameHas(ps, qs, r.id, r.name);
    hide HasId, HasName;
    if CurrentRow(r, qs).Some? {
      var p, q := CurrentRow(r, ps).value, CurrentRow(r, qs).value;
      var i :| 0 <= i < |qs| && qs[i] == q;
      assert ps[i] in ps;
      RowHasId(ps, p);
      RowHasId(ps, ps[i]);
      SameRow(ps, p, ps[i]);
    }
  }

  lemma SameHas(ps: seq<Row>, qs: seq<Row>, id: string, name: string)
    requires |qs| == |ps| && forall i :: 0 <= i < |ps| ==> qs[i].id == ps[i].id && qs[i].name == ps[i].name
    ensures (HasId(ps, id) <==> HasId(qs, id)) && (HasName(ps, name) <==> HasName(qs, name))
  {
    forall p | p in ps ensures exists q :: q in qs && q.id == p.id && q.name == p.name {
      var i :| 0 <= i < |ps| && ps[i] == p;
      assert qs[i] in qs;
    }
    forall q | q in qs ensures exists p :: p in ps && q.id == p.id && q.name == p.name {
      var i :| 0 <= i < |qs| && qs[i] == q;
      assert ps[i] in ps;
    }
  }

  /** A resolved entry runs exactly when its container does. */
  lemma ResolvedRuns(cs: seq<Container>, r: Entry)
    requires DistinctRows(Rows(cs)) && ResolveOne(r, Rows(cs)).current.Some?
    ensures ResolveOne(r, Rows(cs)).running <==> Runs(cs, ResolveOne(r, Rows(cs)).current.value)
    ensures exists c :: c in cs && c.id == ResolveOne(r, Rows(cs)).current.value
  {
    hide CurrentRow, RowOf, Rows, DistinctRows;
    RowsMembers(cs);
    CurrentRowFacts(r, Rows(cs));
    var row := CurrentRow(r, Rows(cs)).value;
    assert row in Rows(cs) by { InRows(r, Rows(cs), row); }
    var c :| c in cs && row == RowOfContainer(c);
    forall d | d in cs && d.id == c.id ensures d == c { SameById(cs, d, c); }
  }

  lemma InRows(r: Entry, ps: seq<Row>, row: Row)
    requires RowOf(r, ps, row)
    ensures row in ps
  {
  }

  lemma SetRunningRuns(cs: seq<Container>, ids: set<string>, up: bool, id: string)
    ensures id in ids ==> (Runs(SetRunning(cs, ids, up), id) <==> up && exists c :: c in cs && c.id == id)
    ensures id !in ids ==> (Runs(SetRunning(cs, ids, up), id) <==> Runs(cs, id))
  {
    var ds := SetRunning(cs, ids, up);
    forall c | c in cs ensures (if c.id in ids then c.(running := up) else c) in ds {
      var i :| 0 <= i < |cs| && cs[i] == c;
      assert ds[i] == if c.id in ids then c.(running := up) else c;
    }
    forall d | d in ds ensures exists c :: c in cs && d == if c.id in ids then c.(running := up) else c {
      var i :| 0 <= i < |ds| && ds[i] == d;
      assert cs[i] in cs;
    }
  }

  lemma AllStopped(cs: seq<Container>, recorded: seq<Entry>)
    requires DistinctRows(Rows(cs))
    ensures var ids := RunningIds(Resolve(recorded, Rows(cs)));
            NoneRunning(Resolve(recorded, Rows(SetRunning(cs, ids, false))))
  {
    var es := Resolve(recorded, Rows(cs));
    var ids := RunningIds(es);
    var ds := SetRunning(cs, ids, false);
    SetRunningAlike(cs, ids, false);
    DistinctKept(cs, ds);
    hide Rows, SetRunning, DistinctRows, Alike, ResolveOne, Runs;
    forall i | 0 <= i < |recorded| ensures !ResolveOne(recorded[i], Rows(ds)).running {
      var r := recorded[i];
      AlikeResolve(cs, ds, r);
      ResolveExactly(recorded, Rows(ds));
      assert Resolve(recorded, Rows(ds))[i] == ResolveOne(r, Rows(ds)) && es[i] == ResolveOne(r, Rows(cs))
             && es[i] in es;
      if ResolveOne(r, Rows(ds)).current.Some? {
        ResolvedRuns(cs, r);
        ResolvedRuns(ds, r);
        SetRunningRuns(cs, ids, false, es[i].current.value);
      }
    }
  }

  lemma DistinctKept(cs: seq<Container>, ds: seq<Container>)
    requires DistinctRows(Rows(cs)) && Alike(cs, ds)
    ensures DistinctRows(Rows(ds))
  {
    AlikeRows(cs, ds);
    hide Rows, Alike;
  }

  lemma AllStarted(cs: seq<Container>, st: State)
    requires DistinctRows(Rows(cs)) && Findable(cs, st)
    ensures var ids := CurrentIds(Resolve(st.recorded, Rows(cs)));
            AllRunning(Kept(Resolve(st.recorded, Rows(SetRunning(cs, ids, true))), st.acceptDown, false))
  {
    var es := Resolve(st.recorded, Rows(cs));
    var ids := CurrentIds(es);
    var ds := SetRunning(cs, ids, true);
    SetRunningAlike(cs, ids, true);
    DistinctKept(cs, ds);
    hide Rows, SetRunning, DistinctRows, Alike, Runs, Kept, CurrentRow, IsAcceptedDown;
    var now := Resolve(st.recorded, Rows(ds));
    KeptMembers(now, st.acceptDown, false);
    forall e | e in now && !IsAcceptedDown(e, st.acceptDown) ensures e.running {
      var i :| 0 <= i < |now| && now[i] == e;
      var r := st.recorded[i];
      assert es[i] in es && r in st.recorded;
      AlikeResolve(cs, ds, r);
      SameAccepted(es[i], e, st.acceptDown);
      ResolvedRuns(cs, r);
      ResolvedRuns(ds, r);
      SetRunningRuns(cs, ids, true, es[i].current.value);
    }
  }

  lemma SameAccepted(a: Resolved, b: Resolved, names: seq<string>)
    requires a.id == b.id && a.name == b.name && a.current == b.current
    ensures IsAcceptedDown(a, names) <==> IsAcceptedDown(b, names)
  {
    assert forall k :: 0 <= k < |names| ==> NamedBy(a, names[k]) == NamedBy(b, names[k]);
  }

  // -------------------------------------------------------------------------
  // One task, then the rest
  // -------------------------------------------------------------------------

  /** Every recorded container that still exists runs, and so does every one that took the name of one
      that is gone. */
  ghost predicate AllUp(cs: seq<Container>, recorded: seq<Entry>) {
    forall c :: c in cs && LeadsTo(cs, recorded, c) ==> c.running
  }

  ghost predicate UpIfStarted(cs: seq<Container>, st: State) { Started in st.done ==> AllUp(cs, st.recorded) }

  /** The name of a recorded entry that leads to no container. */
  ghost predicate IsGone(cs: seq<Container>, recorded: seq<Entry>, name: string) {
    exists r :: r in recorded && r.name == name && ResolveOne(r, Rows(cs)).current.None?
  }

  /** Nothing recorded is missing where the list is still needed. */
  ghost predicate NothingMissing(cs: seq<Container>, st: State) {
    Recorded in st.done && Started !in st.done ==> Findable(cs, st)
  }

  /** What a task must leave: ready for the next one, with more done and still able to go on. */
  ghost predicate Advanced(m: Node, st: State) {
    m.file.Some? && m.run == Ready && st.done < m.file.value.done && Able(m, m.file.value)
  }

  /** From `st` on `cs` to `after` on `ds`: the same containers, the recorded list as it was, nothing accepted
      down but what is gone, and what was started up. */
  ghost predicate Tracks(cs: seq<Container>, st: State, ds: seq<Container>, after: State) {
    && Alike(cs, ds) && st.done <= after.done
    && (Recorded in st.done ==> after.recorded == st.recorded)
    && (forall a :: a in st.acceptDown ==> a in after.acceptDown)
    && (forall a :: a in after.acceptDown ==>
          a in st.acceptDown || (Recorded in after.done && IsGone(ds, after.recorded, a)))
    && (UpIfStarted(cs, st) ==> UpIfStarted(ds, after))
    && (NothingMissing(cs, st) ==>
          NothingMissing(ds, after) && forall a :: a in after.acceptDown ==> a in st.acceptDown)
  }

  lemma SelectedFindable(cs: seq<Container>, st: State)
    requires st.recorded == Selected(cs)
    ensures Findable(cs, st)
  {
    hide Selected, Rows, CurrentRow, HasId, HasName, IsAcceptedDown, RowOf;
    SelectedMembers(cs);
    RowsMembers(cs);
    forall r | r in st.recorded ensures ResolveOne(r, Rows(cs)).current.Some? {
      var c :| c in cs && RunningTenant(c) && r == EntryOf(c);
      RowHasId(Rows(cs), RowOfContainer(c));
      CurrentRowFacts(r, Rows(cs));
    }
  }

  lemma FindableAlike(cs: seq<Container>, ds: seq<Container>, st: State, after: State)
    requires Findable(cs, st) && Alike(cs, ds) && DistinctRows(Rows(cs))
    requires after.recorded == st.recorded && (forall a :: a in st.acceptDown ==> a in after.acceptDown)
    ensures Findable(ds, after)
  {
    hide Rows, Alike, CurrentRow, DistinctRows, IsAcceptedDown;
    forall r | r in after.recorded
      ensures ResolveOne(r, Rows(ds)).current.Some? || IsAcceptedDown(ResolveOne(r, Rows(ds)), after.acceptDown)
    {
      AlikeResolve(cs, ds, r);
      SameAccepted(ResolveOne(r, Rows(cs)), ResolveOne(r, Rows(ds)), st.acceptDown);
      MoreAccepted(ResolveOne(r, Rows(ds)), st.acceptDown, after.acceptDown);
    }
  }

  lemma AlikeItself(cs: seq<Container>)
    ensures Alike(cs, cs)
  {
  }

  lemma MoreAccepted(e: Resolved, a: seq<string>, b: seq<string>)
    requires forall x :: x in a ==> x in b
    ensures IsAcceptedDown(e, a) ==> IsAcceptedDown(e, b)
  {
    hide NamedBy;
    if IsAcceptedDown(e, a) {
      var k :| 0 <= k < |a| && NamedBy(e, a[k]);
      assert a[k] in b;
    }
  }

  // --- each task -----------------------------------------------------------------------

  /** A task that asks for no acceptance and starts nothing. */
  lemma PlainTracks(cs: seq<Container>, st: State, ds: seq<Container>, after: State)
    requires DistinctRows(Rows(cs)) && Alike(cs, ds) && after.acceptDown == st.acceptDown
    requires Recorded in st.done ==> after.recorded == st.recorded
    requires Recorded !in st.done && Recorded in after.done ==> Findable(ds, after)
    requires Started in st.done ==> Recorded in st.done && ds == cs
    requires st.done <= after.done && (Started in after.done ==> Started in st.done)
    ensures Tracks(cs, st, ds, after)
  {
    if Recorded in st.done && Findable(cs, st) {
      FindableAlike(cs, ds, st, after);
    }
    hide Alike, Findable, AllUp, IsGone, DistinctRows, Rows;
  }

  lemma ConvergeAdvances(n: Node, st: State, inputs: D.Inputs)
    requires Inv(n) && n.file == Some(st) && n.run == Ready && Able(n, st) && Next(st) == ToConverge
    ensures var m := History(n, Todo(n, st, inputs));
            Advanced(m, st) && Tracks(n.containers, st, m.containers, m.file.value)
  {
    Two(n, StartConverge, RecordDecision(inputs));
    AlikeItself(n.containers);
    hide AllMayTouch, AllBack, D.Decide, History, Findable, Selected, Tracks, DistinctRows, Rows, SameContainer;
    PlainTracks(n.containers, st, n.containers, History(n, Todo(n, st, inputs)).file.value);
  }

  lemma RecordAdvances(n: Node, st: State, inputs: D.Inputs)
    requires Inv(n) && n.file == Some(st) && n.run == Ready && Able(n, st) && Next(st) == ToRecord
    ensures var m := History(n, Todo(n, st, inputs));
            Advanced(m, st) && Tracks(n.containers, st, m.containers, m.file.value)
  {
    One(n, RecordRunning);
    SelectedFindable(n.containers, Happen(n, RecordRunning).file.value);
    AlikeItself(n.containers);
    hide AllMayTouch, AllBack, History, Findable, Selected, Tracks, DistinctRows, Rows, SameContainer;
    PlainTracks(n.containers, st, n.containers, History(n, Todo(n, st, inputs)).file.value);
  }

  lemma StopSteps(n: Node, st: State, ids: set<string>)
    requires n.file == Some(st) && n.run == Ready && Next(st) == ToStop && n.held && ids == RunningIds(Now(n, st))
    requires NoneRunning(Resolve(st.recorded, Rows(SetRunning(n.containers, ids, false))))
    ensures var m := History(n, [ListToStop, AskStop(ids), StopGate]);
            && m.file == Some(st.Mark(Stopped)) && m.run == Ready && m.held
            && m.containers == SetRunning(n.containers, ids, false)
  {
    hide History, Resolve, SetRunning, RunningIds, NoneRunning, Rows, Next;
    assert ids * ids == ids;
    Three(n, ListToStop, AskStop(ids), StopGate);
  }

  lemma HeldUntilStarted(n: Node, st: State)
    requires Able(n, st) && Ordered(st) && Next(st) != ToRelease && Next(st) != ToArchive
    ensures n.held && Started !in st.done && (Next(st) != ToConverge && Next(st) != ToRecord ==> Recorded in st.done)
  {
  }

  lemma StopAdvances(n: Node, st: State, inputs: D.Inputs)
    requires Inv(n) && n.file == Some(st) && n.run == Ready && Able(n, st) && Next(st) == ToStop
    ensures var m := History(n, Todo(n, st, inputs));
            Advanced(m, st) && Tracks(n.containers, st, m.containers, m.file.value)
  {
    var ids := RunningIds(Now(n, st));
    HeldUntilStarted(n, st);
    AllStopped(n.containers, st.recorded);
    StopSteps(n, st, ids);
    SetRunningAlike(n.containers, ids, false);
    hide AllMayTouch, AllBack, History, Resolve, SetRunning, RunningIds, NoneRunning, DistinctRows, Alike, Tracks, Rows,
         SameContainer, Ordered;
    PlainTracks(n.containers, st, SetRunning(n.containers, ids, false), st.Mark(Stopped));
  }

  lemma DownSteps(n: Node, st: State, inputs: D.Inputs, p: Phase)
    requires n.file == Some(st) && n.run == Ready && n.held && Marks(Next(st), p)
    ensures var m := History(n, Todo(n, st, inputs));
            m.file == Some(st.Mark(p)) && m.run == Ready && m.held && m.containers == Down(n.containers)
  {
    One(n, Todo(n, st, inputs)[0]);
    hide History, Down, Next, Unfound, Now, RunningIds, CurrentIds;
  }

  lemma DownAdvances(n: Node, st: State, inputs: D.Inputs, p: Phase)
    requires Inv(n) && n.file == Some(st) && n.run == Ready && Able(n, st) && Marks(Next(st), p)
    ensures var m := History(n, Todo(n, st, inputs));
            Advanced(m, st) && Tracks(n.containers, st, m.containers, m.file.value)
  {
    HeldUntilStarted(n, st);
    MarkedInOrder(st, p);
    NotMarkedYet(st, p);
    DownSteps(n, st, inputs, p);
    SetRunningAlike(n.containers, {}, false);
    hide AllMayTouch, AllBack, History, Down, DistinctRows, Alike, Tracks, Rows, SameContainer, Ordered, Todo, Next,
         Marks;
    PlainTracks(n.containers, st, Down(n.containers), st.Mark(p));
  }

  lemma NotMarkedYet(st: State, p: Phase)
    requires Marks(Next(st), p)
    ensures p !in st.done
  {
  }

  lemma StartSteps(n: Node, st: State, accept: seq<string>, ids: set<string>, after: State)
    requires n.file == Some(st) && n.run == Ready && Next(st) == ToStart && n.held && ids == CurrentIds(Now(n, st))
    requires after == st.(acceptDown := Unique(st.acceptDown + accept))
    requires AllRunning(Kept(Resolve(st.recorded, Rows(SetRunning(n.containers, ids, true))), after.acceptDown, false))
    ensures var m := History(n, [ListToStart(accept), AskStart(ids), StartGate]);
            && m.file == Some(after.Mark(Started)) && m.run == Ready && m.held
            && m.containers == SetRunning(n.containers, ids, true)
  {
    hide History, Resolve, SetRunning, CurrentIds, AllRunning, Kept, Unique, Rows, Next;
    assert ids * ids == ids;
    Three(n, ListToStart(accept), AskStart(ids), StartGate);
  }

  /** With the missing ones accepted down, nothing recorded is missing. */
  lemma AcceptedAreFindable(cs: seq<Container>, st: State, after: State)
    requires after == st.(acceptDown := Unique(st.acceptDown + Unfound(cs, st.recorded, st.acceptDown)))
    ensures Findable(cs, after)
    ensures forall a :: a in after.acceptDown <==> a in st.acceptDown || a in Unfound(cs, st.recorded, st.acceptDown)
  {
    var names := Unfound(cs, st.recorded, st.acceptDown);
    UniqueKeeps(st.acceptDown + names);
    UnfoundMembers(cs, st.recorded, st.acceptDown);
    hide Unfound, Unique, CurrentRow, Rows, IsAcceptedDown;
    forall r | r in st.recorded && ResolveOne(r, Rows(cs)).current.None?
      ensures IsAcceptedDown(ResolveOne(r, Rows(cs)), after.acceptDown)
    {
      var e := ResolveOne(r, Rows(cs));
      if IsAcceptedDown(e, st.acceptDown) {
        MoreAccepted(e, st.acceptDown, after.acceptDown);
      } else {
        assert e.name in names;
        NamedIsAccepted(e, after.acceptDown);
      }
    }
  }

  lemma NamedIsAccepted(e: Resolved, names: seq<string>)
    requires e.name in names
    ensures IsAcceptedDown(e, names)
  {
    var k :| 0 <= k < |names| && names[k] == e.name;
    assert NamedBy(e, names[k]);
  }

  /** Nothing is missing: nothing has to be accepted down. */
  lemma {:induction false} FindableNeedsNothing(cs: seq<Container>, recorded: seq<Entry>, accepted: seq<string>)
    requires forall r :: r in recorded ==>
               ResolveOne(r, Rows(cs)).current.Some? || IsAcceptedDown(ResolveOne(r, Rows(cs)), accepted)
    ensures Unfound(cs, recorded, accepted) == []
  {
    hide CurrentRow, Rows, IsAcceptedDown;
    if recorded != [] {
      FindableNeedsNothing(cs, recorded[1..], accepted);
    }
  }

  lemma AlikeLeadsTo(cs: seq<Container>, ds: seq<Container>, recorded: seq<Entry>, i: nat)
    requires Alike(cs, ds) && i < |cs|
    ensures LeadsTo(ds, recorded, ds[i]) <==> LeadsTo(cs, recorded, cs[i])
  {
    AlikeRows(cs, ds);
    assert BareName(ds[i]) == BareName(cs[i]);
    hide Rows, HasId, BareName;
    forall r ensures StandsIn(ds, r, ds[i]) <==> StandsIn(cs, r, cs[i]) {
      SameHas(Rows(cs), Rows(ds), r.id, r.name);
    }
    hide StandsIn;
  }

  /** What the run asks docker to start is all there is to start. */
  lemma StartedIsUp(cs: seq<Container>, recorded: seq<Entry>)
    requires DistinctRows(Rows(cs))
    ensures AllUp(SetRunning(cs, CurrentIds(Resolve(recorded, Rows(cs))), true), recorded)
  {
    var ids := CurrentIds(Resolve(recorded, Rows(cs)));
    var ds := SetRunning(cs, ids, true);
    SetRunningAlike(cs, ids, true);
    assert forall i :: 0 <= i < |cs| ==> ds[i] == if cs[i].id in ids then cs[i].(running := true) else cs[i];
    hide SetRunning, Rows, DistinctRows, Alike, CurrentIds, Resolve, LeadsTo;
    forall d | d in ds && LeadsTo(ds, recorded, d) ensures d.running {
      var i :| 0 <= i < |ds| && ds[i] == d;
      AlikeLength(cs, ds);
      AlikeLeadsTo(cs, ds, recorded, i);
      ListedExactly(cs, recorded, cs[i]);
    }
  }

  lemma AlikeLength(cs: seq<Container>, ds: seq<Container>)
    requires Alike(cs, ds)
    ensures |cs| == |ds|
  {
  }

  lemma StartTracks(cs: seq<Container>, st: State, after: State)
    requires DistinctRows(Rows(cs)) && Recorded in st.done && Started !in st.done
    requires after == st.(acceptDown := Unique(st.acceptDown + Unfound(cs, st.recorded, st.acceptDown)))
    ensures var ids := CurrentIds(Resolve(st.recorded, Rows(cs)));
            Tracks(cs, st, SetRunning(cs, ids, true), after.Mark(Started))
  {
    var ids := CurrentIds(Resolve(st.recorded, Rows(cs)));
    var ds := SetRunning(cs, ids, true);
    SetRunningAlike(cs, ids, true);
    StartedIsUp(cs, st.recorded);
    AcceptedAreFindable(cs, st, after);
    UnfoundAreGone(cs, ds, st);
    if Findable(cs, st) {
      FindableNeedsNothing(cs, st.recorded, st.acceptDown);
    }
    hide SetRunning, Rows, DistinctRows, Alike, CurrentIds, Resolve, AllUp, Unique, Findable, Unfound, IsGone;
  }

  lemma UnfoundAreGone(cs: seq<Container>, ds: seq<Container>, st: State)
    requires DistinctRows(Rows(cs)) && Alike(cs, ds)
    ensures forall a :: a in Unfound(cs, st.recorded, st.acceptDown) ==> IsGone(ds, st.recorded, a)
  {
    UnfoundMembers(cs, st.recorded, st.acceptDown);
    hide Unfound, Alike, Rows, DistinctRows, ResolveOne, IsAcceptedDown;
    forall a | a in Unfound(cs, st.recorded, st.acceptDown) ensures IsGone(ds, st.recorded, a) {
      GoneAlike(cs, ds, st.recorded, a);
    }
  }

  /** A missing entry stays missing whatever state the containers are in. */
  lemma GoneAlike(cs: seq<Container>, ds: seq<Container>, recorded: seq<Entry>, name: string)
    requires DistinctRows(Rows(cs)) && Alike(cs, ds) && IsGone(cs, recorded, name)
    ensures IsGone(ds, recorded, name)
  {
    hide Rows, Alike, DistinctRows, ResolveOne;
    var r :| r in recorded && r.name == name && ResolveOne(r, Rows(cs)).current.None?;
    AlikeResolve(cs, ds, r);
  }

  lemma StartAdvances(n: Node, st: State, inputs: D.Inputs)
    requires Inv(n) && n.file == Some(st) && n.run == Ready && Able(n, st) && Next(st) == ToStart
    ensures var m := History(n, Todo(n, st, inputs));
            Advanced(m, st) && Tracks(n.containers, st, m.containers, m.file.value)
  {
    var accept, ids := Unfound(n.containers, st.recorded, st.acceptDown), CurrentIds(Now(n, st));
    var after := st.(acceptDown := Unique(st.acceptDown + accept));
    HeldUntilStarted(n, st);
    AcceptedAreFindable(n.containers, st, after);
    AllStarted(n.containers, after);
    hide AllMayTouch, AllBack, History, Findable, Resolve, SetRunning, CurrentIds, AllRunning, Kept, DistinctRows,
         Alike, Unique, Unfound, Rows, Tracks, Ordered, SameContainer;
    StartSteps(n, st, accept, ids, after);
    StartTracks(n.containers, st, after);
  }

  lemma ReleaseAdvances(n: Node, st: State, inputs: D.Inputs)
    requires Inv(n) && n.file == Some(st) && n.run == Ready && Next(st) == ToRelease
    ensures var m := History(n, Todo(n, st, inputs));
            Advanced(m, st) && Tracks(n.containers, st, m.containers, m.file.value)
  {
    ReleaseSteps(n, st);
    StartedBefore(st);
    AlikeItself(n.containers);
    hide AllMayTouch, AllBack, History, Tracks, DistinctRows, Rows, SameContainer, Ordered, Next;
    PlainTracks(n.containers, st, n.containers, st.(releasing := true).Mark(Released));
  }

  lemma StartedBefore(st: State)
    requires Next(st) == ToRelease && Ordered(st)
    ensures Released !in st.done && Converged in st.done && (st.Stops() ==> Started in st.done)
    ensures Started in st.done ==> Recorded in st.done
  {
  }

  lemma ReleaseSteps(n: Node, st: State)
    requires n.file == Some(st) && n.run == Ready && Next(st) == ToRelease
    ensures var m := History(n, [WriteReleasing, Off(true), Confirm(true)]);
            && m.file == Some(st.(releasing := true).Mark(Released)) && m.run == Ready
            && m.containers == n.containers
  {
    Three(n, WriteReleasing, Off(true), Confirm(true));
    hide History, Next;
  }

  /** From any state the cycle can be in, its next task. */
  lemma TaskAdvances(n: Node, st: State, inputs: D.Inputs)
    requires Inv(n) && n.file == Some(st) && n.run == Ready && Able(n, st) && Next(st) != ToArchive
    ensures var m := History(n, Todo(n, st, inputs));
            Advanced(m, st) && Tracks(n.containers, st, m.containers, m.file.value)
  {
    hide Inv, Able, Advanced, Tracks, History, Todo;
    match Next(st)
    case ToConverge => ConvergeAdvances(n, st, inputs);
    case ToRecord => RecordAdvances(n, st, inputs);
    case ToStop => StopAdvances(n, st, inputs);
    case ToInstall => DownAdvances(n, st, inputs, Packages);
    case ToRestartDocker => DownAdvances(n, st, inputs, DockerRestarted);
    case ToReboot => DownAdvances(n, st, inputs, Rebooted);
    case ToStart => StartAdvances(n, st, inputs);
    case ToRelease => ReleaseAdvances(n, st, inputs);
  }

  const PHASES := {Held, Converged, Recorded, Stopped, Packages, DockerRestarted, Rebooted, Started, Released}

  lemma FewerLeft(a: set<Phase>, b: set<Phase>)
    requires a < b
    ensures |PHASES - b| < |PHASES - a|
  {
    var p :| p in b && p !in a;
    IsPhase(p);
    assert PHASES - b <= PHASES - a - {p};
    Smaller(PHASES - b, PHASES - a - {p});
  }

  lemma IsPhase(p: Phase)
    ensures p in PHASES
  {
    match p
    case Held | Converged | Recorded | Stopped | Packages | DockerRestarted | Rebooted | Started | Released =>
  }

  lemma TodoIsTheRun(n: Node, st: State, inputs: D.Inputs)
    ensures forall e :: e in Todo(n, st, inputs) ==> ByTheRun(e)
  {
    hide Now, Next, RunningIds, CurrentIds;
  }

  lemma {:induction false} Smaller(a: set<Phase>, b: set<Phase>)
    requires a <= b
    ensures |a| <= |b|
  {
    if a != {} {
      var p :| p in a;
      Smaller(a - {p}, b - {p});
    }
  }

  lemma AlikeTogether(a: seq<Container>, b: seq<Container>, c: seq<Container>)
    requires Alike(a, b) && Alike(b, c)
    ensures Alike(a, c)
  {
  }

  lemma TracksTogether(a: seq<Container>, sa: State, b: seq<Container>, sb: State, c: seq<Container>, sc: State)
    requires DistinctRows(Rows(b)) && Tracks(a, sa, b, sb) && Tracks(b, sb, c, sc)
    ensures Tracks(a, sa, c, sc)
  {
    AlikeTogether(a, b, c);
    forall x | x in sc.acceptDown ensures x in sa.acceptDown || (Recorded in sc.done && IsGone(c, sc.recorded, x)) {
      if x in sb.acceptDown && x !in sa.acceptDown {
        assert IsGone(b, sb.recorded, x);
        GoneAlike(b, c, sb.recorded, x);
      }
    }
    hide Alike, NothingMissing, UpIfStarted, IsGone, DistinctRows, Rows;
  }

  /** All that is left is to put the state file away. */
  predicate AtArchive(m: Node) { m.file.Some? && m.run == Ready && Next(m.file.value) == ToArchive }

  /** The run's own events, the last of which puts the finished run's state file away. */
  ghost predicate Finishes(n: Node, es: seq<Event>) {
    && (forall e :: e in es ==> ByTheRun(e))
    && es != [] && es[|es| - 1] == Archive && AtArchive(History(n, es[..|es| - 1]))
  }

  /** What a finished run leaves: whatever it started, it started every recorded container that exists, and
      it accepted nothing down but what was gone, and that only where something was missing. */
  ghost predicate LeavesInOrder(n: Node, st: State, es: seq<Event>)
    requires es != []
  {
    var m := History(n, es[..|es| - 1]);
    m.file.Some? &&
      var after := m.file.value;
      && (after.Stops() && Started !in st.done ==> AllUp(m.containers, after.recorded))
      && (forall a :: a in after.acceptDown ==> a in st.acceptDown || IsGone(m.containers, after.recorded, a))
      && (NothingMissing(n.containers, st) ==> forall a :: a in after.acceptDown ==> a in st.acceptDown)
  }

  lemma {:induction false} ReachArchive(n: Node, st: State, inputs: D.Inputs) returns (es: seq<Event>)
    requires Inv(n) && n.file == Some(st) && n.run == Ready && Able(n, st)
    ensures (forall e :: e in es ==> ByTheRun(e)) && AtArchive(History(n, es))
    ensures var m := History(n, es); Inv(m) && Tracks(n.containers, st, m.containers, m.file.value)
    decreases |PHASES - st.done|
  {
    hide Inv, Able, Todo, History, Next, ByTheRun, Happen, Tracks;
    if Next(st) == ToArchive {
      es := [];
      NoEvents(n);
      TracksItself(n, st);
    } else {
      var first := Todo(n, st, inputs);
      TodoIsTheRun(n, st, inputs);
      TaskAdvances(n, st, inputs);
      HistoryKeeps(n, first);
      var m := History(n, first);
      var after := m.file.value;
      FewerLeft(st.done, after.done);
      var rest := ReachArchive(m, after, inputs);
      HistoryAppend(n, first, rest);
      es := first + rest;
      DistinctHere(m);
      TracksTogether(n.containers, st, m.containers, after, History(n, es).containers, History(n, es).file.value);
    }
  }

  lemma DistinctHere(n: Node)
    requires Inv(n)
    ensures DistinctRows(Rows(n.containers))
  {
    hide FileOk, RunOk, AllBack, AllMayTouch, DistinctRows, SameContainer;
  }

  lemma TracksItself(n: Node, st: State)
    requires Inv(n) && n.file == Some(st)
    ensures Tracks(n.containers, st, n.containers, st)
  {
    AlikeItself(n.containers);
    hide Inv, Alike, NothingMissing, UpIfStarted, IsGone;
  }

  lemma NoEvents(n: Node)
    ensures History(n, []) == n
  {
  }

  lemma {:induction false} FinishFrom(n: Node, st: State, inputs: D.Inputs) returns (es: seq<Event>)
    requires Inv(n) && n.file == Some(st) && n.run == Ready && Able(n, st)
    ensures Finishes(n, es) && LeavesInOrder(n, st, es)
  {
    hide Inv, Able, History, Next, ByTheRun, Happen;
    var reach := ReachArchive(n, st, inputs);
    es := reach + [Archive];
    assert es[..|es| - 1] == reach;
    ArchiveIsTheRun();
    InOrderAtArchive(History(n, reach));
    hide Alike, NothingMissing, IsGone, AllUp;
  }

  lemma ArchiveIsTheRun()
    ensures ByTheRun(Archive)
  {
  }

  lemma InOrderAtArchive(m: Node)
    requires Inv(m) && AtArchive(m)
    ensures m.file.value.Stops() ==> Started in m.file.value.done
  {
    hide AllBack, AllMayTouch, NamesOk;
  }

  /** The same history, with what came before put in front. */
  lemma FinishesAfter(n: Node, first: seq<Event>, rest: seq<Event>)
    requires (forall e :: e in first ==> ByTheRun(e)) && Finishes(History(n, first), rest)
    ensures Finishes(n, first + rest)
    ensures History(n, (first + rest)[..|first + rest| - 1]) == History(History(n, first), rest[..|rest| - 1])
  {
    hide History, ByTheRun, AtArchive;
    var front := rest[..|rest| - 1];
    assert (first + rest)[..|first + rest| - 1] == first + front;
    HistoryAppend(n, first, front);
  }

  // -------------------------------------------------------------------------
  // From where a run can still finish
  // -------------------------------------------------------------------------

  lemma ResumableIsAble(n: Node, st: State)
    requires Inv(n) && n.file == Some(st) && MayResume(n, st)
    ensures Able(n, st)
  {
    hide NamesOk, AllMayTouch, AllBack, RunOk;
  }

  /** From wherever a run stopped or died, if the hold is still there or its release has begun, the run alone
      can go on to the archive, whatever the decision's inputs turn out to be: it starts everything recorded
      that still exists, and accepts nothing down but what is gone. */
  lemma ResumeFinishes(n: Node, st: State, inputs: D.Inputs) returns (es: seq<Event>)
    requires Inv(n) && n.file == Some(st) && MayResume(n, st)
    ensures Finishes(n, es) && LeavesInOrder(n, st, es)
  {
    hide *;
    var resume, m := [Crash, Begin(false, false)], n.(run := Ready);
    ResumeStarts(n, st);
    HistoryKeeps(n, resume);
    var rest := FinishFrom(m, st, inputs);
    FinishesAfter(n, resume, rest);
    es := resume + rest;
    NotEmpty(m, rest);
    SameEnd(n, m, st, es, rest);
  }

  lemma ResumeStarts(n: Node, st: State)
    requires Inv(n) && n.file == Some(st) && MayResume(n, st)
    ensures History(n, [Crash, Begin(false, false)]) == n.(run := Ready) && Able(n.(run := Ready), st)
    ensures forall e :: e in [Crash, Begin(false, false)] ==> ByTheRun(e)
  {
    ResumableIsAble(n, st);
    hide Inv;
    Two(n, Crash, Begin(false, false));
  }

  /** Two histories that end in one state, from nodes with the same containers, leave the same. */
  lemma SameEnd(n: Node, m: Node, st: State, es: seq<Event>, rest: seq<Event>)
    requires es != [] && rest != [] && History(n, es[..|es| - 1]) == History(m, rest[..|rest| - 1])
    requires LeavesInOrder(m, st, rest) && m.containers == n.containers
    ensures LeavesInOrder(n, st, es)
  {
    hide History, NothingMissing, IsGone, AllUp;
  }

  /** A node nobody holds can be maintained from beginning to end: hold, state file, and then, whatever
      the decision's inputs turn out to be, on to the archive. */
  lemma FreshRunCompletes(n: Node, inputs: D.Inputs) returns (es: seq<Event>)
    requires Inv(n) && n.file.None? && n.run == NoRun && !n.held
    ensures |es| > 2 && es[..2] == [Begin(true, true), WriteHeld] && History(n, es[..2]).file == Some(FRESH)
    ensures Finishes(n, es) && LeavesInOrder(n, FRESH, es)
    ensures forall a :: a in History(n, es[..|es| - 1]).file.value.acceptDown ==> a in FRESH.acceptDown
  {
    hide *;
    var first := [Begin(true, true), WriteHeld];
    FreshStarts(n);
    HistoryKeeps(n, first);
    var m := History(n, first);
    var rest := FinishFrom(m, FRESH, inputs);
    FinishesAfter(n, first, rest);
    es := first + rest;
    assert es[..2] == first;
    NotEmpty(m, rest);
    SameEnd(n, m, FRESH, es, rest);
    NothingAccepted(n, FRESH, es);
  }

  lemma NothingAccepted(n: Node, st: State, es: seq<Event>)
    requires es != [] && LeavesInOrder(n, st, es) && NothingMissing(n.containers, st)
    ensures var m := History(n, es[..|es| - 1]);
            m.file.Some? && forall a :: a in m.file.value.acceptDown ==> a in st.acceptDown
  {
    hide History, NothingMissing, IsGone, AllUp;
  }

  lemma FreshStarts(n: Node)
    requires n.file.None? && n.run == NoRun && !n.held
    ensures var m := History(n, [Begin(true, true), WriteHeld]);
            && m.file == Some(FRESH) && m.run == Ready && Able(m, FRESH) && m.containers == n.containers
            && NothingMissing(n.containers, FRESH)
    ensures forall e :: e in [Begin(true, true), WriteHeld] ==> ByTheRun(e)
  {
    Two(n, Begin(true, true), WriteHeld);
    hide Findable;
  }

  lemma NotEmpty(n: Node, es: seq<Event>)
    requires Finishes(n, es)
    ensures es != []
  {
  }

  /** A run that changed nothing yet and lost its hold clears up after itself and starts over. */
  lemma RescueFinishes(n: Node, st: State, inputs: D.Inputs) returns (es: seq<Event>)
    requires Inv(n) && n.file == Some(st) && n.run == NoRun && !n.held && MayRescue(st)
    ensures Finishes(n, es) && LeavesInOrder(n, st, es)
  {
    hide *;
    var first, m := [Begin(false, false), Rescue(true)], n.(file := None);
    RescueStarts(n, st);
    HistoryKeeps(n, first);
    var rest := FreshRunCompletes(m, inputs);
    FinishesAfter(n, first, rest);
    es := first + rest;
    NotEmpty(m, rest);
    SameEnd(n, m, FRESH, es, rest);
    AsFromFresh(n, st, es);
  }

  lemma RescueStarts(n: Node, st: State)
    requires n.file == Some(st) && n.run == NoRun && !n.held && MayRescue(st)
    ensures History(n, [Begin(false, false), Rescue(true)]) == n.(file := None)
    ensures forall e :: e in [Begin(false, false), Rescue(true)] ==> ByTheRun(e)
  {
    Two(n, Begin(false, false), Rescue(true));
  }

  /** What a fresh run leaves in order is in order whatever an earlier run had written. */
  lemma AsFromFresh(n: Node, st: State, es: seq<Event>)
    requires es != [] && LeavesInOrder(n, FRESH, es)
    ensures LeavesInOrder(n, st, es)
  {
    NothingInFresh(n);
    hide History, NothingMissing, IsGone, AllUp;
  }

  lemma NothingInFresh(n: Node)
    ensures NothingMissing(n.containers, FRESH) && Started !in FRESH.done && FRESH.acceptDown == []
  {
    hide Findable;
  }

  /** A run that lost its hold after it began to change the node, and before it began the release. */
  ghost predicate Stuck(n: Node, st: State) {
    && n.file == Some(st) && (n.run == NoRun || n.run == Refused) && !n.held && !MayResume(n, st) && !MayRescue(st)
  }

  lemma StuckStays(n: Node, st: State, e: Event)
    requires Stuck(n, st) && ByTheRun(e)
    ensures Stuck(Happen(n, e), st)
    ensures Happen(n, e) == n.(run := Happen(n, e).run)
  {
    hide Next, Now, Selected, NoneRunning, AllRunning, Kept, Rows, D.Decide, SetRunning, Down, RunningIds, CurrentIds,
         Unique, MayRescue;
  }

  lemma {:induction false} StuckForever(n: Node, st: State, es: seq<Event>)
    requires Stuck(n, st) && forall e :: e in es ==> ByTheRun(e)
    ensures Stuck(History(n, es), st) && History(n, es) == n.(run := History(n, es).run)
    decreases |es|
  {
    hide Stuck, Happen, ByTheRun;
    if es != [] {
      StuckStays(n, st, es[0]);
      StuckForever(Happen(n, es[0]), st, es[1..]);
    }
  }

  /** The exact condition: with no run alive, the run alone can still reach the archive if and only if the hold
      is there, its release has begun, or it has not begun to change the node. From any other reachable state
      it changes nothing any more, neither node nor state file, until somebody places the hold again. */
  lemma ResumeExactly(n: Node, st: State)
    requires Inv(n) && n.file == Some(st) && n.run == NoRun
    ensures (exists es :: Finishes(n, es)) <==> MayResume(n, st) || MayRescue(st)
    ensures !MayResume(n, st) && !MayRescue(st) ==>
              forall es :: (forall e :: e in es ==> ByTheRun(e)) ==> History(n, es) == n.(run := History(n, es).run)
  {
    var inputs := D.Inputs([], [], false, false);
    hide Inv, History, Finishes, LeavesInOrder, ByTheRun, MayRescue;
    if MayResume(n, st) {
      var es := ResumeFinishes(n, st, inputs);
    } else if MayRescue(st) {
      var es := RescueFinishes(n, st, inputs);
    } else {
      forall es | forall e :: e in es ==> ByTheRun(e)
        ensures Stuck(History(n, es), st) && History(n, es) == n.(run := History(n, es).run)
      {
        StuckForever(n, st, es);
      }
      forall es ensures !Finishes(n, es) { StuckNeverFinishes(n, st, es); }
    }
  }

  lemma StuckNeverFinishes(n: Node, st: State, es: seq<Event>)
    requires Stuck(n, st)
    ensures !Finishes(n, es)
  {
    hide ByTheRun, History, Next;
    if Finishes(n, es) {
      var front := es[..|es| - 1];
      assert forall e :: e in front ==> e in es;
      StuckForever(n, st, front);
    }
  }

  // -------------------------------------------------------------------------
  // Whose hold it is
  // -------------------------------------------------------------------------

  lemma {:induction false} HeldIsLeftAlone(n: Node, es: seq<Event>)
    requires n.file.None? && n.run == NoRun && n.held && forall e :: e in es ==> ByTheRun(e)
    ensures History(n, es) == n
    decreases |es|
  {
    hide Happen, ByTheRun;
    if es != [] {
      assert es[0] in es;
      HeldIgnores(n, es[0]);
      HeldIsLeftAlone(n, es[1..]);
    }
  }

  lemma HeldIgnores(n: Node, e: Event)
    requires n.file.None? && n.run == NoRun && n.held && ByTheRun(e)
    ensures Happen(n, e) == n
  {
    hide Step, MayResume;
  }

  /** A run never adopts a hold: with no run under way, the run alone gets to write a state file if and only if
      nobody holds the node; on a held one, however often it is tried, it changes nothing at all. */
  lemma FreshRunTakesItsOwnHold(n: Node)
    requires n.file.None? && n.run == NoRun
    ensures (exists es :: (forall e :: e in es ==> ByTheRun(e)) && History(n, es).file.Some?) <==> !n.held
    ensures n.held ==> forall es :: (forall e :: e in es ==> ByTheRun(e)) ==> History(n, es) == n
    ensures forall e :: Happen(n, e).run != NoRun ==> !n.held && Happen(n, e).held && Happen(n, e).run == Placed
  {
    if n.held {
      hide History, ByTheRun;
      forall es | forall e :: e in es ==> ByTheRun(e) ensures History(n, es) == n { HeldIsLeftAlone(n, es); }
    } else {
      var first := [Begin(true, true), WriteHeld];
      assert forall e :: e in first ==> ByTheRun(e);
      hide History, ByTheRun;
      Two(n, Begin(true, true), WriteHeld);
      assert History(n, first).file.Some?;
    }
  }
}
