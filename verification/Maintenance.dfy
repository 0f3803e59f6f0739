/** A maintenance run on one node as a state machine: its phases and state file, docker's containers,
    and whatever happens to both between two steps, crashes and resumed runs included. */
module Maintenance {
  import opened Text
  import opened NodeContainers
  import D = MaintenanceDecision

  // -------------------------------------------------------------------------
  // The state file and the order of the phases
  // -------------------------------------------------------------------------

  datatype Phase = Held | Converged | Recorded | Stopped | Packages | DockerRestarted | Rebooted | Started | Released

  /** `state.json`. */
  datatype State = State(done: set<Phase>, recorded: seq<Entry>, acceptDown: seq<string>, convergeStarted: bool,
                         releasing: bool, decision: Option<D.Decision>)
  {
    predicate Stops() { decision.Some? && decision.value.stop }
    predicate RestartsDocker() { decision.Some? && decision.value.restartRequired }
    function Mark(p: Phase): State { this.(done := done + {p}) }
  }

  datatype Task =
    | ToConverge | ToRecord | ToStop | ToInstall | ToRestartDocker | ToReboot | ToStart | ToRelease | ToArchive

  /** The first task of the cycle whose guard holds. */
  function Next(st: State): Task {
    if Converged !in st.done then ToConverge
    else if st.Stops() && Recorded !in st.done then ToRecord
    else if st.Stops() && Stopped !in st.done && Packages !in st.done && Started !in st.done then ToStop
    else if st.Stops() && Packages !in st.done then ToInstall
    else if st.Stops() && st.RestartsDocker() && DockerRestarted !in st.done && Started !in st.done then ToRestartDocker
    else if st.Stops() && Rebooted !in st.done then ToReboot
    else if st.Stops() && Started !in st.done then ToStart
    else if Released !in st.done then ToRelease
    else ToArchive
  }

  // -------------------------------------------------------------------------
  // The node
  // -------------------------------------------------------------------------

  /** Where a live run is: between two tasks, or inside one with what it has read so far. */
  datatype Run =
    | NoRun
    | Refused                          // a resumed run that found its hold gone; only its rescue is left
    | Placed                           // the hold is placed, state.json not written yet
    | Ready                            // about to take the next task
    | Converging
    | StopListed(ids: set<string>)     // what `docker stop` will be asked for
    | StopAsked
    | StartListed(ids: set<string>)    // what `docker start` will be asked for
    | StartAsked
    | Clearing                         // `releasing` is written, `off` comes next
    | Confirming                       // `off` has run

  /** What has happened, kept to state the guarantees: the containers when the list was recorded, every
      id ever seen, what this run asked docker to stop and to start, the rows its start gate passed on
      and the ids known then, and what stopped or went away on its own since. */
  datatype Log = Log(atRecord: seq<Container>, known: set<string>, stopped: set<string>, started: set<string>,
                     gate: seq<Row>, gateKnown: set<string>, gone: set<string>)

  datatype Node = Node(containers: seq<Container>, held: bool, file: Option<State>, run: Run, log: Log)

  function RowOfContainer(c: Container): Row { Row(c.id, BareName(c), c.running) }

  /** `docker ps -a`. */
  function Rows(cs: seq<Container>): seq<Row> {
    seq(|cs|, i requires 0 <= i < |cs| => RowOfContainer(cs[i]))
  }

  function SetRunning(cs: seq<Container>, ids: set<string>, up: bool): seq<Container> {
    seq(|cs|, i requires 0 <= i < |cs| => if cs[i].id in ids then cs[i].(running := up) else cs[i])
  }

  /** dockerd going down: no tenant container has a restart policy. */
  function Down(cs: seq<Container>): seq<Container> {
    seq(|cs|, i requires 0 <= i < |cs| => cs[i].(running := false))
  }

  function Without(cs: seq<Container>, id: string): seq<Container> {
    if cs == [] then [] else (if cs[0].id == id then [] else [cs[0]]) + Without(cs[1..], id)
  }

  function RunningIds(es: seq<Resolved>): set<string> {
    set e | e in es && e.running && e.current.Some? :: e.current.value
  }

  function CurrentIds(es: seq<Resolved>): set<string> {
    set e | e in es && e.current.Some? :: e.current.value
  }

  function Now(n: Node, st: State): seq<Resolved> { Resolve(st.recorded, Rows(n.containers)) }

  predicate NoneRunning(es: seq<Resolved>) { forall e :: e in es ==> !e.running }

  predicate AllRunning(es: seq<Resolved>) { forall e :: e in es ==> e.running }

  // -------------------------------------------------------------------------
  // What can happen
  // -------------------------------------------------------------------------

  /** The run's steps, each with what docker, apt or the agent made of it; then everybody else's. */
  datatype Event =
    | Begin(placed: bool, ok: bool)
    | WriteHeld
    | StartConverge
    | RecordDecision(inputs: D.Inputs)
    | RecordRunning
    | ListToStop
    | AskStop(obeyed: set<string>)
    | StopGate
    | Install(restarts: bool, ok: bool)
    | RestartDocker(skipped: bool, ok: bool)
    | Reboot(needed: bool, ok: bool)
    | ListToStart(accept: seq<string>)
    | AskStart(obeyed: set<string>)
    | StartGate
    | WriteReleasing
    | Off(ok: bool)
    | Confirm(ok: bool)
    | Archive
    | Crash
    | Rescue(aside: bool)              // the rescue of a failed run, with or without the state file set aside
    | StopsAlone(id: string)
    | StartedByHand(id: string)
    | Removed(id: string)
    | Created(c: Container)
    | HoldCleared
    | HoldPlaced

  predicate ByTheRun(e: Event) {
    !(e.StopsAlone? || e.StartedByHand? || e.Removed? || e.Created? || e.HoldCleared? || e.HoldPlaced?)
  }

  const FRESH := State({Held}, [], [], false, false, None)

  predicate MayResume(n: Node, st: State) { n.held || Released in st.done || st.releasing }

  /** Nothing was changed and nothing stopped: a failed run may clear its own hold. */
  predicate MayRescue(st: State) { !st.convergeStarted && !st.releasing && st.done <= {Held} }

  function Fail(n: Node): Node { n.(run := NoRun) }

  function Save(n: Node, st: State, run: Run): Node { n.(file := Some(st), run := run) }

  /** The state after one event; an event that is not due changes nothing. */
  function Happen(n: Node, e: Event): Node {
    match e
    case Begin(placed, ok) =>
      if n.run != NoRun then n
      else if n.file.Some? then n.(run := if MayResume(n, n.file.value) then Ready else Refused)
      else if n.held then n
      else n.(held := placed, run := if placed && ok then Placed else NoRun)
    case WriteHeld =>
      if n.run != Placed then n
      else Save(n, FRESH, Ready).(log := Log([], n.log.known, {}, {}, [], {}, {}))
    case Crash => Fail(n)
    case StopsAlone(id) =>
      n.(containers := SetRunning(n.containers, {id}, false), log := n.log.(gone := n.log.gone + {id}))
    case StartedByHand(id) => n.(containers := SetRunning(n.containers, {id}, true))
    case Removed(id) => n.(containers := Without(n.containers, id), log := n.log.(gone := n.log.gone + {id}))
    case Created(c) =>
      if c.id in n.log.known || HasName(Rows(n.containers), BareName(c)) then n
      else n.(containers := n.containers + [c], log := n.log.(known := n.log.known + {c.id}))
    case HoldCleared => n.(held := false)
    case HoldPlaced => n.(held := true)
    case _ => if n.file.None? then n else Step(n, n.file.value, e)
  }

  /** The steps of a run whose state file is `st`. */
  function Step(n: Node, st: State, e: Event): Node {
    var due := if n.run == Ready then Some(Next(st)) else None;
    match e
    case StartConverge => if due != Some(ToConverge) then n else Save(n, st.(convergeStarted := true), Converging)
    case RecordDecision(inputs) =>
      if n.run != Converging then n else Save(n, st.(decision := Some(D.Decide(inputs))).Mark(Converged), Ready)
    case RecordRunning =>
      if due != Some(ToRecord) then n
      else Save(n, st.(recorded := Selected(n.containers)).Mark(Recorded), Ready)
           .(log := n.log.(atRecord := n.containers))
    case ListToStop =>
      if due != Some(ToStop) then n else if !n.held then Fail(n) else n.(run := StopListed(RunningIds(Now(n, st))))
    case AskStop(obeyed) =>
      if !n.run.StopListed? then n
      else n.(containers := SetRunning(n.containers, n.run.ids * obeyed, false), run := StopAsked,
              log := n.log.(stopped := n.log.stopped + n.run.ids))
    case StopGate =>
      if n.run != StopAsked then n
      else if !NoneRunning(Now(n, st)) then Fail(n) else Save(n, st.Mark(Stopped), Ready)
    case Install(restarts, ok) =>
      if due != Some(ToInstall) then n else if !n.held then Fail(n) else TakenDown(n, restarts, st.Mark(Packages), ok)
    case RestartDocker(skipped, ok) =>
      if due != Some(ToRestartDocker) then n
      else if !skipped && !n.held then Fail(n) else TakenDown(n, !skipped, st.Mark(DockerRestarted), ok)
    case Reboot(needed, ok) =>
      if due != Some(ToReboot) then n
      else if needed && !n.held then Fail(n) else TakenDown(n, needed, st.Mark(Rebooted), ok)
    case ListToStart(accept) =>
      if due != Some(ToStart) then n
      else if !n.held then Fail(n)
      else Save(n, st.(acceptDown := Unique(st.acceptDown + accept)), StartListed(CurrentIds(Now(n, st))))
    case AskStart(obeyed) =>
      if !n.run.StartListed? then n
      else n.(containers := SetRunning(n.containers, n.run.ids * obeyed, true), run := StartAsked,
              log := n.log.(started := n.log.started + n.run.ids))
    case StartGate =>
      if n.run != StartAsked then n
      else if !AllRunning(Kept(Now(n, st), st.acceptDown, false)) then Fail(n)
      else Save(n, st.Mark(Started), Ready)
           .(log := n.log.(gate := Rows(n.containers), gateKnown := n.log.known, gone := {}))
    case WriteReleasing => if due != Some(ToRelease) then n else Save(n, st.(releasing := true), Clearing)
    case Off(ok) => if n.run != Clearing then n else if ok then n.(held := false, run := Confirming) else Fail(n)
    case Confirm(ok) => if n.run != Confirming then n else if ok then Save(n, st.Mark(Released), Ready) else Fail(n)
    case Archive => if due != Some(ToArchive) then n else n.(file := None, run := NoRun)
    case Rescue(aside) =>
      if n.run == NoRun || !MayRescue(st) then n
      else n.(held := false, file := if aside then None else n.file, run := NoRun)
    case _ => n
  }

  /** A step that may restart dockerd, and may die before it is marked done. */
  function TakenDown(n: Node, down: bool, marked: State, ok: bool): Node {
    var m := if down then n.(containers := Down(n.containers)) else n;
    if ok then Save(m, marked, Ready) else Fail(m)
  }

  /** `a | unique`. */
  function Unique(a: seq<string>): seq<string> {
    if a == [] then []
    else
      var before := Unique(a[..|a| - 1]);
      if a[|a| - 1] in before then before else before + [a[|a| - 1]]
  }

  function History(n: Node, es: seq<Event>): Node
    decreases |es|
  {
    if es == [] then n else History(Happen(n, es[0]), es[1..])
  }

  lemma {:induction false} HistoryAppend(n: Node, a: seq<Event>, b: seq<Event>)
    ensures History(n, a + b) == History(History(n, a), b)
    decreases |a|
  {
    hide Happen;
    if a == [] {
      assert a + b == b;
    } else {
      assert (a + b)[1..] == a[1..] + b;
      HistoryAppend(Happen(n, a[0]), a[1..], b);
    }
  }

  lemma One(n: Node, e: Event)
    ensures History(n, [e]) == Happen(n, e)
  {
    hide Happen;
    assert [e][1..] == [];
  }

  lemma Two(n: Node, e: Event, f: Event)
    ensures History(n, [e, f]) == Happen(Happen(n, e), f)
  {
    hide Happen;
    assert [e, f][1..] == [f];
    One(Happen(n, e), f);
  }

  lemma Three(n: Node, e: Event, f: Event, g: Event)
    ensures History(n, [e, f, g]) == Happen(Happen(Happen(n, e), f), g)
  {
    hide Happen;
    assert [e, f, g][1..] == [f, g];
    Two(Happen(n, e), f, g);
  }

  // -------------------------------------------------------------------------
  // What every reachable state keeps
  // -------------------------------------------------------------------------

  /** Docker's own guarantees: ids and names are unique, an id never comes back, and a container
      keeps its name and labels for life. */
  ghost predicate NamesOk(cs: seq<Container>, log: Log) {
    && DistinctRows(Rows(cs)) && DistinctRows(Rows(log.atRecord))
    && (forall c :: c in cs ==> c.id in log.known) && (forall a :: a in log.atRecord ==> a.id in log.known)
    && (forall c, a :: c in cs && a in log.atRecord && c.id == a.id ==> SameContainer(c, a))
  }

  predicate SameContainer(c: Container, a: Container) { c.name == a.name && c.labels == a.labels }

  /** A container of this id was a running tenant when the list was recorded, or did not exist then. */
  ghost predicate MayTouch(atRecord: seq<Container>, id: string) {
    forall a :: a in atRecord && a.id == id ==> RunningTenant(a)
  }

  ghost predicate AllMayTouch(atRecord: seq<Container>, ids: set<string>) {
    forall id :: id in ids ==> MayTouch(atRecord, id)
  }

  /** The phases are marked in the order of the cycle. */
  ghost predicate Ordered(st: State) {
    && Held in st.done
    && (Converged in st.done <==> st.decision.Some?) && (Converged in st.done ==> st.convergeStarted)
    && (Recorded in st.done ==> st.Stops())
    && (Stopped in st.done ==> Recorded in st.done)
    && (Packages in st.done ==> Stopped in st.done)
    && (DockerRestarted in st.done ==> Packages in st.done)
    && (Rebooted in st.done ==> Packages in st.done && (st.RestartsDocker() ==> DockerRestarted in st.done))
    && (Started in st.done ==> Rebooted in st.done)
    && (Released in st.done || st.releasing ==> Converged in st.done && (st.Stops() ==> Started in st.done))
  }

  ghost predicate FileOk(st: State, log: Log) {
    && Ordered(st)
    && (if Recorded in st.done then st.recorded == Selected(log.atRecord)
        else st.recorded == [] && log.stopped == {} && log.started == {})
  }

  ghost predicate RunOk(run: Run, st: State, log: Log) {
    match run
    case NoRun | Refused | Ready => true
    case Placed => false
    case Converging => Converged !in st.done && st.convergeStarted
    case StopListed(ids) => Next(st) == ToStop && AllMayTouch(log.atRecord, ids)
    case StopAsked => Next(st) == ToStop
    case StartListed(ids) => Next(st) == ToStart && AllMayTouch(log.atRecord, ids)
    case StartAsked => Next(st) == ToStart
    case Clearing | Confirming => Next(st) == ToRelease && st.releasing
  }

  predicate Runs(cs: seq<Container>, id: string) { exists c :: c in cs && c.id == id && c.running }

  /** The entry's container, or the one that took its name, ran when the start gate passed, and runs
      still unless it stopped or went away on its own. */
  ghost predicate Back(cs: seq<Container>, log: Log, r: Entry) {
    exists row :: RowOf(r, log.gate, row) && row.running && (Runs(cs, row.id) || row.id in log.gone)
  }

  ghost predicate AllBack(cs: seq<Container>, st: State, log: Log) {
    && (forall r :: r in st.recorded ==> IsAcceptedDown(ResolveOne(r, log.gate), st.acceptDown) || Back(cs, log, r))
    && (forall c :: c in cs && c.id in log.gateKnown ==> HasId(log.gate, c.id))
    && (forall a :: a in log.atRecord ==> a.id in log.gateKnown)
    && log.gateKnown <= log.known
  }

  ghost predicate Inv(n: Node) {
    && NamesOk(n.containers, n.log)
    && AllMayTouch(n.log.atRecord, n.log.stopped + n.log.started)
    && (n.file.None? ==> n.run == NoRun || n.run == Placed)
    && (n.file.Some? ==>
          && FileOk(n.file.value, n.log) && RunOk(n.run, n.file.value, n.log)
          && (Started in n.file.value.done ==> AllBack(n.containers, n.file.value, n.log)))
  }

  // --- containers that only stop, start or leave --------------------------------

  /** The same containers, possibly in another state. */
  ghost predicate Alike(cs: seq<Container>, ds: seq<Container>) {
    |cs| == |ds| && forall i :: 0 <= i < |cs| ==> ds[i] == cs[i].(running := ds[i].running)
  }

  lemma AlikeNames(cs: seq<Container>, ds: seq<Container>, log: Log)
    requires NamesOk(cs, log) && Alike(cs, ds)
    ensures NamesOk(ds, log)
  {
    hide RunningTenant;
    forall i | 0 <= i < |ds| ensures Rows(ds)[i].id == Rows(cs)[i].id && Rows(ds)[i].name == Rows(cs)[i].name {
      assert BareName(ds[i]) == BareName(cs[i]);
    }
    hide Rows, BareName;
    forall d | d in ds ensures exists c :: c in cs && c.id == d.id && SameContainer(d, c) {
      var i :| 0 <= i < |ds| && ds[i] == d;
      assert cs[i] in cs;
    }
  }

  lemma SetRunningAlike(cs: seq<Container>, ids: set<string>, up: bool)
    ensures Alike(cs, SetRunning(cs, ids, up)) && Alike(cs, Down(cs))
  {
  }

  lemma {:induction false} WithoutFacts(cs: seq<Container>, id: string)
    ensures forall c :: c in Without(cs, id) <==> c in cs && c.id != id
  {
    if cs != [] {
      WithoutFacts(cs[1..], id);
      assert cs == [cs[0]] + cs[1..];
    }
  }

  /** Distinct rows, said of the containers themselves. */
  ghost predicate DistinctContainers(cs: seq<Container>) {
    forall i, j :: 0 <= i < j < |cs| ==> cs[i].id != cs[j].id && BareName(cs[i]) != BareName(cs[j])
  }

  lemma DistinctBoth(cs: seq<Container>)
    ensures DistinctRows(Rows(cs)) <==> DistinctContainers(cs)
  {
    hide BareName;
    assert |Rows(cs)| == |cs| && forall i :: 0 <= i < |cs| ==> Rows(cs)[i] == RowOfContainer(cs[i]);
    hide Rows;
  }

  lemma {:induction false} WithoutDistinct(cs: seq<Container>, id: string)
    requires DistinctContainers(cs)
    ensures DistinctContainers(Without(cs, id))
  {
    hide BareName;
    if cs != [] {
      WithoutDistinct(cs[1..], id);
      WithoutFacts(cs[1..], id);
      forall c | c in Without(cs[1..], id) ensures c.id != cs[0].id && BareName(c) != BareName(cs[0]) {
        var j :| 0 <= j < |cs[1..]| && cs[1..][j] == c;
        assert cs[0].id != cs[j + 1].id;
      }
    }
  }

  lemma SameById(cs: seq<Container>, a: Container, b: Container)
    requires DistinctRows(Rows(cs)) && a in cs && b in cs && (a.id == b.id || BareName(a) == BareName(b))
    ensures a == b
  {
    hide BareName;
    DistinctBoth(cs);
    var i :| 0 <= i < |cs| && cs[i] == a;
    var j :| 0 <= j < |cs| && cs[j] == b;
  }

  lemma RowsMembers(cs: seq<Container>)
    ensures forall row :: row in Rows(cs) ==> exists c :: c in cs && row == RowOfContainer(c)
    ensures forall c :: c in cs ==> RowOfContainer(c) in Rows(cs)
  {
    hide RowOfContainer;
    forall c | c in cs ensures RowOfContainer(c) in Rows(cs) {
      var i :| 0 <= i < |cs| && cs[i] == c;
      assert Rows(cs)[i] == RowOfContainer(c);
    }
  }

  // --- what the resolved ids are ---------------------------------------------------

  /** A recorded entry can only lead to a running tenant of the record, or to a container made since. */
  lemma RowMayTouch(cs: seq<Container>, log: Log, r: Entry, row: Row)
    requires NamesOk(cs, log) && r in Selected(log.atRecord) && RowOf(r, Rows(cs), row)
    ensures MayTouch(log.atRecord, row.id)
  {
    hide RunningTenant, Selected, Rows, BareName, DistinctRows;
    SelectedMembers(log.atRecord);
    RowsMembers(cs);
    var first :| first in log.atRecord && RunningTenant(first) && r == EntryOf(first);
    var c :| c in cs && row == RowOfContainer(c);
    forall a | a in log.atRecord && a.id == row.id ensures RunningTenant(a) {
      assert SameContainer(c, a);
      SameName(c, a);
      SameById(log.atRecord, a, first);
    }
  }

  lemma SameName(c: Container, a: Container)
    requires SameContainer(c, a)
    ensures BareName(c) == BareName(a)
  {
  }

  lemma ResolvedMayTouch(cs: seq<Container>, log: Log)
    requires NamesOk(cs, log)
    ensures AllMayTouch(log.atRecord, CurrentIds(Resolve(Selected(log.atRecord), Rows(cs))))
    ensures AllMayTouch(log.atRecord, RunningIds(Resolve(Selected(log.atRecord), Rows(cs))))
  {
    hide NamesOk, Selected, Rows, CurrentRow, MayTouch, RowOf;
    var recorded, ps := Selected(log.atRecord), Rows(cs);
    forall e | e in Resolve(recorded, ps) && e.current.Some? ensures MayTouch(log.atRecord, e.current.value) {
      var i :| 0 <= i < |recorded| && Resolve(recorded, ps)[i] == e;
      CurrentRowFacts(recorded[i], ps);
      RowMayTouch(cs, log, recorded[i], CurrentRow(recorded[i], ps).value);
    }
  }

  /** The container bears the name of a recorded one that is gone. */
  predicate StandsIn(cs: seq<Container>, r: Entry, c: Container) {
    BareName(c) == r.name && !HasId(Rows(cs), r.id)
  }

  ghost predicate LeadsTo(cs: seq<Container>, recorded: seq<Entry>, c: Container) {
    exists r :: r in recorded && (r.id == c.id || StandsIn(cs, r, c))
  }

  lemma OneListed(cs: seq<Container>, r: Entry, c: Container)
    requires DistinctRows(Rows(cs)) && c in cs
    ensures ResolveOne(r, Rows(cs)).current == Some(c.id) <==> r.id == c.id || StandsIn(cs, r, c)
    ensures ResolveOne(r, Rows(cs)).current == Some(c.id) ==> ResolveOne(r, Rows(cs)).running == c.running
  {
    var ps, mine := Rows(cs), RowOfContainer(c);
    RowsMembers(cs);
    CurrentRowFacts(r, ps);
    hide Rows, CurrentRow, DistinctRows, BareName;
    assert mine in ps && mine.id == c.id && mine.name == BareName(c);
    if CurrentRow(r, ps).Some? {
      var row := CurrentRow(r, ps).value;
      if row.id == c.id || row.name == BareName(c) {
        SameRow(ps, row, mine);
      }
    }
  }

  /** Exactly the containers that the run will ask docker to start, or while they run to stop: the recorded
      ones that still exist, and those that bear the name of a recorded one that is gone. */
  lemma ListedExactly(cs: seq<Container>, recorded: seq<Entry>, c: Container)
    requires DistinctRows(Rows(cs)) && c in cs
    ensures var es := Resolve(recorded, Rows(cs));
            && (c.id in CurrentIds(es) <==> LeadsTo(cs, recorded, c))
            && (c.id in RunningIds(es) <==> c.running && LeadsTo(cs, recorded, c))
  {
    hide Rows, DistinctRows, ResolveOne, StandsIn;
    var es := Resolve(recorded, Rows(cs));
    forall r ensures ResolveOne(r, Rows(cs)).current == Some(c.id) <==> r.id == c.id || StandsIn(cs, r, c)
      ensures ResolveOne(r, Rows(cs)).current == Some(c.id) ==> ResolveOne(r, Rows(cs)).running == c.running
    {
      OneListed(cs, r, c);
    }
    assert forall e :: e in es ==> exists i :: 0 <= i < |recorded| && e == ResolveOne(recorded[i], Rows(cs));
    if LeadsTo(cs, recorded, c) {
      var r :| r in recorded && (r.id == c.id || StandsIn(cs, r, c));
      var i :| 0 <= i < |recorded| && recorded[i] == r;
      assert es[i] in es && es[i] == ResolveOne(r, Rows(cs));
    }
  }

  lemma RecordedIsNoSystem(cs: seq<Container>, log: Log, r: Entry, c: Container)
    requires NamesOk(cs, log) && r in Selected(log.atRecord) && c in cs && r.id == c.id
    ensures !IsSystem(c)
  {
    hide Selected, DistinctRows, BareName;
    SelectedMembers(log.atRecord);
    var a :| a in log.atRecord && RunningTenant(a) && r == EntryOf(a);
    assert SameContainer(c, a);
  }

  /** A system container is asked to start exactly when one bears the name of a recorded container that is
      gone, and asked to stop exactly when such a one runs. */
  lemma SystemListedExactly(cs: seq<Container>, log: Log)
    requires NamesOk(cs, log)
    ensures var recorded := Selected(log.atRecord);
            var es := Resolve(recorded, Rows(cs));
            && ((exists c :: c in cs && IsSystem(c) && c.id in CurrentIds(es))
                <==> exists r, c :: r in recorded && c in cs && IsSystem(c) && StandsIn(cs, r, c))
            && ((exists c :: c in cs && IsSystem(c) && c.id in RunningIds(es))
                <==> exists r, c :: r in recorded && c in cs && IsSystem(c) && StandsIn(cs, r, c) && c.running)
  {
    var recorded := Selected(log.atRecord);
    forall c | c in cs
      ensures c.id in CurrentIds(Resolve(recorded, Rows(cs))) <==> LeadsTo(cs, recorded, c)
      ensures c.id in RunningIds(Resolve(recorded, Rows(cs))) <==> c.running && LeadsTo(cs, recorded, c)
      ensures IsSystem(c) ==> (LeadsTo(cs, recorded, c) <==> exists r :: r in recorded && StandsIn(cs, r, c))
    {
      ListedExactly(cs, recorded, c);
      if IsSystem(c) {
        OnlyByName(cs, log, c);
      }
    }
    hide NamesOk, LeadsTo, StandsIn, IsSystem, Selected, Resolve, CurrentIds, RunningIds, Rows;
  }

  lemma OnlyByName(cs: seq<Container>, log: Log, c: Container)
    requires NamesOk(cs, log) && c in cs && IsSystem(c)
    ensures LeadsTo(cs, Selected(log.atRecord), c) <==> exists r :: r in Selected(log.atRecord) && StandsIn(cs, r, c)
  {
    hide NamesOk, StandsIn, Selected, IsSystem;
    forall r | r in Selected(log.atRecord) ensures r.id != c.id {
      if r.id == c.id {
        RecordedIsNoSystem(cs, log, r, c);
      }
    }
  }

  // --- the start gate ---------------------------------------------------------------

  lemma GateBringsBack(cs: seq<Container>, st: State, log: Log)
    requires NamesOk(cs, log) && AllRunning(Kept(Resolve(st.recorded, Rows(cs)), st.acceptDown, false))
    ensures AllBack(cs, st, log.(gate := Rows(cs), gateKnown := log.known, gone := {}))
  {
    hide DistinctRows, SameContainer, Rows, CurrentRow, IsAcceptedDown, Kept, RowOf, Runs, HasId;
    var ps, now := Rows(cs), Resolve(st.recorded, Rows(cs));
    var after := log.(gate := ps, gateKnown := log.known, gone := {});
    KeptMembers(now, st.acceptDown, false);
    RowsMembers(cs);
    forall r | r in st.recorded ensures IsAcceptedDown(ResolveOne(r, ps), st.acceptDown) || Back(cs, after, r) {
      var i :| 0 <= i < |st.recorded| && st.recorded[i] == r;
      assert now[i] == ResolveOne(r, ps) && now[i] in now;
      if !IsAcceptedDown(ResolveOne(r, ps), st.acceptDown) {
        CurrentRowFacts(r, ps);
        var row := CurrentRow(r, ps).value;
        RowRuns(cs, r, row);
      }
    }
    forall c | c in cs ensures HasId(ps, c.id) { RowHasId(ps, RowOfContainer(c)); }
  }

  lemma RowHasId(ps: seq<Row>, row: Row)
    requires row in ps
    ensures HasId(ps, row.id)
  {
  }

  lemma RowRuns(cs: seq<Container>, r: Entry, row: Row)
    requires RowOf(r, Rows(cs), row) && row.running
    ensures Runs(cs, row.id)
  {
    hide Rows;
    RowsMembers(cs);
  }

  /** Nothing that happens later takes a container back down but what happens to it on its own. */
  lemma StillBack(cs: seq<Container>, ds: seq<Container>, st: State, log: Log, after: Log)
    requires AllBack(cs, st, log)
    requires after.gate == log.gate && after.gateKnown == log.gateKnown && log.gone <= after.gone
    requires after.atRecord == log.atRecord && log.known <= after.known
    requires forall id :: Runs(cs, id) ==> Runs(ds, id) || id in after.gone
    requires forall d :: d in ds && d.id in log.gateKnown ==> exists c :: c in cs && c.id == d.id
    ensures AllBack(ds, st, after)
  {
    hide Runs, RowOf, IsAcceptedDown, ResolveOne, HasId;
    forall r | r in st.recorded ensures IsAcceptedDown(ResolveOne(r, after.gate), st.acceptDown) || Back(ds, after, r) {
      if !IsAcceptedDown(ResolveOne(r, after.gate), st.acceptDown) {
        assert Back(cs, log, r);
        var row :| RowOf(r, log.gate, row) && row.running && (Runs(cs, row.id) || row.id in log.gone);
        assert Runs(ds, row.id) || row.id in after.gone;
      }
    }
  }

  // --- everybody else ------------------------------------------------------------------

  lemma StopsAloneKeeps(n: Node, id: string)
    requires Inv(n)
    ensures Inv(Happen(n, StopsAlone(id)))
  {
    var m := Happen(n, StopsAlone(id));
    SetRunningAlike(n.containers, {id}, false);
    StoppedRuns(n.containers, id);
    hide SetRunning, Next, Alike, Runs, MayTouch;
    AlikeNames(n.containers, m.containers, n.log);
    AlikeIds(n.containers, m.containers);
    OtherLog(n.containers, m.containers, n.log, m.log);
    if n.file.Some? && Started in n.file.value.done {
      StillBack(n.containers, m.containers, n.file.value, n.log, m.log);
    }
  }

  lemma StoppedRuns(cs: seq<Container>, id: string)
    ensures forall other :: Runs(cs, other) && other != id ==> Runs(SetRunning(cs, {id}, false), other)
    ensures forall other :: Runs(cs, other) ==> Runs(SetRunning(cs, {id}, true), other)
  {
    forall c | c in cs ensures (if c.id in {id} then c.(running := false) else c) in SetRunning(cs, {id}, false)
      ensures (if c.id in {id} then c.(running := true) else c) in SetRunning(cs, {id}, true)
    {
      var i :| 0 <= i < |cs| && cs[i] == c;
      assert SetRunning(cs, {id}, false)[i] == if c.id in {id} then c.(running := false) else c;
      assert SetRunning(cs, {id}, true)[i] == if c.id in {id} then c.(running := true) else c;
    }
  }

  lemma AlikeIds(cs: seq<Container>, ds: seq<Container>)
    requires Alike(cs, ds)
    ensures forall d :: d in ds ==> exists c :: c in cs && c.id == d.id
  {
    forall d | d in ds ensures exists c :: c in cs && c.id == d.id {
      var i :| 0 <= i < |ds| && ds[i] == d;
      assert cs[i] in cs;
    }
  }

  /** The log's notes on the gate do not matter for names. */
  lemma OtherLog(cs: seq<Container>, ds: seq<Container>, log: Log, after: Log)
    requires NamesOk(ds, log) && after.atRecord == log.atRecord && log.known <= after.known
    ensures NamesOk(ds, after)
  {
    hide DistinctRows, SameContainer;
  }

  lemma StartedByHandKeeps(n: Node, id: string)
    requires Inv(n)
    ensures Inv(Happen(n, StartedByHand(id)))
  {
    var m := Happen(n, StartedByHand(id));
    SetRunningAlike(n.containers, {id}, true);
    StoppedRuns(n.containers, id);
    hide SetRunning, Next, Alike, Runs, MayTouch;
    AlikeNames(n.containers, m.containers, n.log);
    AlikeIds(n.containers, m.containers);
    if n.file.Some? && Started in n.file.value.done {
      StillBack(n.containers, m.containers, n.file.value, n.log, m.log);
    }
  }

  lemma RemovedKeeps(n: Node, id: string)
    requires Inv(n)
    ensures Inv(Happen(n, Removed(id)))
  {
    var m := Happen(n, Removed(id));
    WithoutFacts(n.containers, id);
    RemovedNames(n.containers, id, n.log);
    hide Without, Next, FileOk, RunOk, AllMayTouch, NamesOk;
    NamesKept(m.containers, n.log, m.log);
    RemovedRuns(n.containers, m.containers, id);
    hide Runs, Back;
    if n.file.Some? && Started in n.file.value.done {
      StillBack(n.containers, m.containers, n.file.value, n.log, m.log);
    }
  }

  lemma RemovedRuns(cs: seq<Container>, ds: seq<Container>, id: string)
    requires forall c :: c in ds <==> c in cs && c.id != id
    ensures forall other :: Runs(cs, other) && other != id ==> Runs(ds, other)
  {
  }

  lemma RemovedNames(cs: seq<Container>, id: string, log: Log)
    requires NamesOk(cs, log)
    ensures NamesOk(Without(cs, id), log)
  {
    WithoutFacts(cs, id);
    DistinctBoth(cs);
    WithoutDistinct(cs, id);
    DistinctBoth(Without(cs, id));
    hide Without, DistinctRows, DistinctContainers, SameContainer, Rows;
  }

  lemma CreatedKeeps(n: Node, c: Container)
    requires Inv(n)
    ensures Inv(Happen(n, Created(c)))
  {
    var m := Happen(n, Created(c));
    if m != n {
      CreatedDistinct(n.containers, c, n.log);
      hide Next, MayTouch, DistinctRows, SameContainer, HasName, BareName;
      assert forall d :: d in m.containers <==> d in n.containers || d == c;
      assert forall other :: Runs(n.containers, other) ==> Runs(m.containers, other);
      if n.file.Some? && Started in n.file.value.done {
        StillBack(n.containers, m.containers, n.file.value, n.log, m.log);
      }
    }
  }

  lemma CreatedDistinct(cs: seq<Container>, c: Container, log: Log)
    requires NamesOk(cs, log) && c.id !in log.known && !HasName(Rows(cs), BareName(c))
    ensures DistinctRows(Rows(cs + [c]))
  {
    DistinctBoth(cs);
    DistinctBoth(cs + [c]);
    RowsMembers(cs);
    hide Rows, DistinctRows, BareName;
    forall i | 0 <= i < |cs| ensures cs[i].id != c.id && BareName(cs[i]) != BareName(c) {
      assert cs[i] in cs && RowOfContainer(cs[i]) in Rows(cs);
    }
  }

  // --- the run's own steps ------------------------------------------------------------------

  /** Steps that only move the run on, or drop the state file. */
  predicate Moves(e: Event) { e.Begin? || e.Off? || e.Archive? || e.Crash? || e.Rescue? }

  /** Steps that only rewrite the state file. */
  predicate Writes(e: Event) {
    e.StartConverge? || e.RecordDecision? || e.StopGate? || e.WriteReleasing? || e.Confirm?
  }

  lemma MovesKeep(n: Node, e: Event)
    requires Inv(n) && Moves(e)
    ensures Inv(Happen(n, e)) && Happen(n, e).containers == n.containers && Happen(n, e).log == n.log
  {
    hide NamesOk, FileOk, AllMayTouch, AllBack;
  }

  lemma WritesKeep(n: Node, e: Event)
    requires Inv(n) && Writes(e)
    ensures Inv(Happen(n, e)) && Happen(n, e).containers == n.containers && Happen(n, e).log == n.log
  {
    if n.file.Some? {
      var st := n.file.value;
      WriteFits(n, st, e);
      hide Step, Ordered, RunOk, NamesOk, AllMayTouch, AllBack, Selected;
      SameLists(n.containers, st, Step(n, st, e).file.value, n.log);
    }
  }

  lemma StepsInOrder(st: State)
    requires Ordered(st)
    ensures Next(st) == ToStop ==> Ordered(st.Mark(Stopped))
    ensures Next(st) == ToRelease && st.releasing ==> Ordered(st.Mark(Released))
    ensures Next(st) == ToRelease ==> Ordered(st.(releasing := true)) && Next(st.(releasing := true)) == ToRelease
    ensures Next(st) == ToConverge ==> Ordered(st.(convergeStarted := true)) && Converged !in st.done
  {
  }

  lemma DecidedInOrder(st: State, d: D.Decision)
    requires Ordered(st) && st.convergeStarted && Converged !in st.done
    ensures Ordered(st.(decision := Some(d)).Mark(Converged))
  {
  }

  lemma WriteFits(n: Node, st: State, e: Event)
    requires n.file == Some(st) && Ordered(st) && RunOk(n.run, st, n.log) && Writes(e)
    ensures var m := Step(n, st, e);
            && m.containers == n.containers && m.log == n.log && m.file.Some?
            && var after := m.file.value;
               && Ordered(after) && RunOk(m.run, after, m.log)
               && after.recorded == st.recorded && after.acceptDown == st.acceptDown
               && (Started in after.done ==> Started in st.done) && (Recorded in after.done <==> Recorded in st.done)
  {
    StepsInOrder(st);
    if e.RecordDecision? && n.run == Converging {
      DecidedInOrder(st, D.Decide(e.inputs));
    }
    hide AllMayTouch, D.Decide, Now, NoneRunning, Selected, Rows, Ordered, Next;
  }

  lemma SameLists(cs: seq<Container>, st: State, after: State, log: Log)
    ensures after.recorded == st.recorded && after.acceptDown == st.acceptDown && AllBack(cs, st, log)
            ==> AllBack(cs, after, log)
  {
    hide Back, IsAcceptedDown, ResolveOne, HasId;
  }

  lemma WriteHeldKeeps(n: Node)
    requires Inv(n)
    ensures Inv(Happen(n, WriteHeld))
  {
    hide SameContainer, AllBack, MayTouch;
    assert DistinctRows(Rows([]));
  }

  lemma RecordKeeps(n: Node)
    requires Inv(n)
    ensures Inv(Happen(n, RecordRunning))
  {
    hide AllBack, MayTouch, Selected;
    var m := Happen(n, RecordRunning);
    if m != n {
      forall c, a | c in m.containers && a in m.log.atRecord && c.id == a.id ensures SameContainer(c, a) {
        SameById(n.containers, c, a);
      }
    }
    hide DistinctRows;
  }

  lemma ListToStopKeeps(n: Node)
    requires Inv(n)
    ensures Inv(Happen(n, ListToStop))
  {
    ResolvedMayTouch(n.containers, n.log);
    hide AllBack, NamesOk, AllMayTouch, RunningIds, CurrentIds, Resolve, Selected;
  }

  lemma ListToStartKeeps(n: Node, accept: seq<string>)
    requires Inv(n)
    ensures Inv(Happen(n, ListToStart(accept)))
  {
    ResolvedMayTouch(n.containers, n.log);
    hide AllBack, NamesOk, AllMayTouch, RunningIds, CurrentIds, Resolve, Selected;
  }

  lemma AskKeeps(n: Node, e: Event)
    requires Inv(n) && (e.AskStop? || e.AskStart?)
    ensures Inv(Happen(n, e))
  {
    var m := Happen(n, e);
    if m != n {
      var ids := n.run.ids * e.obeyed;
      SetRunningAlike(n.containers, ids, e.AskStart?);
      hide SetRunning, Alike, AllBack, MayTouch, Ordered;
      AlikeNames(n.containers, m.containers, n.log);
      OtherLog(n.containers, m.containers, n.log, m.log);
      NotStartedYet(n.file.value);
    }
  }

  lemma NotStartedYet(st: State)
    requires Next(st) == ToStop || Next(st) == ToStart || Next(st) == ToInstall || Next(st) == ToRestartDocker
             || Next(st) == ToReboot
    ensures Ordered(st) ==> Started !in st.done && Recorded in st.done
  {
  }

  lemma DownKeeps(n: Node, e: Event)
    requires Inv(n) && (e.Install? || e.RestartDocker? || e.Reboot?)
    ensures Inv(Happen(n, e))
  {
    hide Inv, TakenDown;
    FailKeeps(n);
    if n.file.Some? && n.run == Ready {
      var st := n.file.value;
      match e
      case Install(restarts, ok) =>
        if Next(st) == ToInstall { TakenDownKeeps(n, st, restarts, Packages, ok); }
      case RestartDocker(skipped, ok) =>
        if Next(st) == ToRestartDocker { TakenDownKeeps(n, st, !skipped, DockerRestarted, ok); }
      case Reboot(needed, ok) =>
        if Next(st) == ToReboot { TakenDownKeeps(n, st, needed, Rebooted, ok); }
    }
    hide Next;
  }

  lemma FailKeeps(n: Node)
    requires Inv(n)
    ensures Inv(Fail(n))
  {
    hide NamesOk, AllMayTouch, AllBack, FileOk;
  }

  /** The phases in which dockerd may go down, and the tasks they mark. */
  predicate Marks(t: Task, p: Phase) {
    (t == ToInstall && p == Packages) || (t == ToRestartDocker && p == DockerRestarted)
        || (t == ToReboot && p == Rebooted)
  }

  lemma MarkedInOrder(st: State, p: Phase)
    requires Ordered(st) && Marks(Next(st), p)
    ensures Ordered(st.Mark(p)) && Started !in st.done && Started !in st.Mark(p).done
    ensures Recorded in st.done && Recorded in st.Mark(p).done
  {
  }

  lemma TakenDownKeeps(n: Node, st: State, down: bool, p: Phase, ok: bool)
    requires Inv(n) && n.file == Some(st) && n.run == Ready && Marks(Next(st), p)
    ensures Inv(TakenDown(n, down, st.Mark(p), ok))
  {
    SetRunningAlike(n.containers, {}, true);
    AlikeNames(n.containers, Down(n.containers), n.log);
    MarkedInOrder(st, p);
    hide NamesOk, Down, AllBack, AllMayTouch, Selected, Alike, Ordered, Next, Marks;
  }

  lemma StartGateKeeps(n: Node)
    requires Inv(n)
    ensures Inv(Happen(n, StartGate))
  {
    var m := Happen(n, StartGate);
    if m != n && m.run == Ready {
      hide NamesOk, AllBack, AllMayTouch, AllRunning, Selected, Resolve, Kept;
      var st := n.file.value;
      GateBringsBack(n.containers, st, n.log);
      SameLists(m.containers, st, m.file.value, m.log);
      NamesKept(n.containers, n.log, m.log);
    } else {
      hide NamesOk, AllBack, AllMayTouch, AllRunning, Selected, Resolve, Kept;
    }
  }

  lemma NamesKept(cs: seq<Container>, log: Log, after: Log)
    requires NamesOk(cs, log) && after.atRecord == log.atRecord && after.known == log.known
    ensures NamesOk(cs, after)
  {
    hide DistinctRows, SameContainer;
  }

  lemma EventKeeps(n: Node, e: Event)
    requires Inv(n)
    ensures Inv(Happen(n, e))
  {
    hide Inv, Happen;
    match e
    case WriteHeld => WriteHeldKeeps(n);
    case RecordRunning => RecordKeeps(n);
    case ListToStop => ListToStopKeeps(n);
    case AskStop(_) => AskKeeps(n, e);
    case AskStart(_) => AskKeeps(n, e);
    case Install(_, _) => DownKeeps(n, e);
    case RestartDocker(_, _) => DownKeeps(n, e);
    case Reboot(_, _) => DownKeeps(n, e);
    case ListToStart(accept) => ListToStartKeeps(n, accept);
    case StartGate => StartGateKeeps(n);
    case StopsAlone(id) => StopsAloneKeeps(n, id);
    case StartedByHand(id) => StartedByHandKeeps(n, id);
    case Removed(id) => RemovedKeeps(n, id);
    case Created(c) => CreatedKeeps(n, c);
    case HoldCleared => HoldKeeps(n, e);
    case HoldPlaced => HoldKeeps(n, e);
    case _ => if Moves(e) { MovesKeep(n, e); } else { WritesKeep(n, e); }
  }

  lemma HoldKeeps(n: Node, e: Event)
    requires Inv(n) && (e.HoldCleared? || e.HoldPlaced?)
    ensures Inv(Happen(n, e))
  {
    hide NamesOk, FileOk, RunOk, AllBack, AllMayTouch;
  }

  // -------------------------------------------------------------------------
  // The main results
  // -------------------------------------------------------------------------

  /** A node no maintenance run has worked on: any containers, held or not. */
  ghost predicate Fresh(n: Node) {
    && n.file.None? && n.run == NoRun && n.log.atRecord == [] && n.log.stopped == {} && n.log.started == {}
    && DistinctRows(Rows(n.containers)) && forall c :: c in n.containers ==> c.id in n.log.known
  }

  lemma FreshKeepsAll(n: Node)
    requires Fresh(n)
    ensures Inv(n)
  {
    hide DistinctRows;
    DistinctBoth([]);
    assert DistinctContainers([]);
  }

  lemma {:induction false} HistoryKeeps(n: Node, es: seq<Event>)
    requires Inv(n)
    ensures Inv(History(n, es))
    decreases |es|
  {
    hide Inv, Happen;
    if es != [] {
      EventKeeps(n, es[0]);
      HistoryKeeps(Happen(n, es[0]), es[1..]);
    }
  }

  /** Whatever happens, in any order, with any crashes and resumed runs: when the run is about to clear
      the hold after stopping containers, every recorded container that still exists and is not
      accepted down runs, unless it stopped on its own after the start gate; one that was replaced
      came back as the container that bears its name. */
  lemma ReleaseBringsEverythingBack(n: Node, es: seq<Event>)
    requires Fresh(n)
    ensures var m := History(n, es);
            m.run == Clearing ==>
              && m.file.Some?
              && var st := m.file.value;
                 && (st.Stops() ==> st.recorded == Selected(m.log.atRecord))
                 && (!st.Stops() ==> m.log.stopped == {} && m.log.started == {})
                 && (st.Stops() ==> forall r :: r in st.recorded ==>
                       || IsAcceptedDown(ResolveOne(r, m.log.gate), st.acceptDown)
                       || (Back(m.containers, m.log, r)
                           && forall c :: c in m.containers && c.id == r.id ==> c.running || c.id in m.log.gone))
  {
    hide NamesOk, AllMayTouch, History;
    FreshKeepsAll(n);
    HistoryKeeps(n, es);
    var m := History(n, es);
    if m.run == Clearing && m.file.value.Stops() {
      var st := m.file.value;
      forall r, c | r in st.recorded && c in m.containers && c.id == r.id && Back(m.containers, m.log, r)
        ensures c.running || c.id in m.log.gone
      {
        SurvivorIsBack(m, st, r, c);
      }
    }
  }

  lemma SurvivorIsBack(m: Node, st: State, r: Entry, c: Container)
    requires NamesOk(m.containers, m.log) && AllBack(m.containers, st, m.log) && st.recorded == Selected(m.log.atRecord)
    requires r in st.recorded && c in m.containers && c.id == r.id && Back(m.containers, m.log, r)
    ensures c.running || c.id in m.log.gone
  {
    hide Selected, IsAcceptedDown, ResolveOne, HasId, SameContainer, BareName, RunningTenant;
    SelectedMembers(m.log.atRecord);
    var a :| a in m.log.atRecord && RunningTenant(a) && r == EntryOf(a);
    var row :| RowOf(r, m.log.gate, row) && row.running && (Runs(m.containers, row.id) || row.id in m.log.gone);
    assert HasId(m.log.gate, r.id) && row.id == r.id;
    if Runs(m.containers, row.id) {
      var d :| d in m.containers && d.id == row.id && d.running;
      hide Rows, DistinctRows, Back;
      SameById(m.containers, c, d);
    }
  }

  /** Over every history, of the containers that existed when the list was recorded the run asks docker to
      stop or start none but running tenants. (For those made later see `SystemListedExactly`.) */
  lemma NeverTouchesOthers(n: Node, es: seq<Event>, id: string, a: Container)
    requires Fresh(n) && id in History(n, es).log.stopped + History(n, es).log.started
    requires a in History(n, es).log.atRecord && a.id == id
    ensures a.running
    ensures "com.computestacks.role" in a.labels ==> a.labels["com.computestacks.role"] != "system"
  {
    TenantExactly(a);
    hide NamesOk, FileOk, RunOk, AllBack, History, IsSystem;
    FreshKeepsAll(n);
    HistoryKeeps(n, es);
  }

  // --- a system container that is started -----------------------------------------

  const TENANT := Container("t", "/w", true, map[])
  const SYSTEM := Container("s", "/w", false, map[ROLE_LABEL := SYSTEM_ROLE])

  function Forced(): D.Decision { D.Decide(D.Inputs([], [], false, true)) }

  lemma ForcedStops()
    ensures Forced().stop && !Forced().restartRequired
  {
    assert D.Restarts([]) == [];
  }

  lemma BareNames()
    ensures BareName(TENANT) == "w" && BareName(SYSTEM) == "w" && !IsSystem(TENANT) && IsSystem(SYSTEM)
  {
    assert "/w"[1..] == "w";
  }

  /** The run of a node with one tenant, at work on the phases `done` since it recorded `recorded`. */
  function At(cs: seq<Container>, run: Run, done: set<Phase>, recorded: seq<Entry>, decision: Option<D.Decision>,
      log: Log)
    : Node
  {
    Node(cs, true, Some(State(done, recorded, [], true, false, decision)), run, log)
  }

  function LogAt(atRecord: seq<Container>, known: set<string>, gone: set<string>): Log {
    Log(atRecord, known, {}, {}, [], {}, gone)
  }

  function OneTenant(): Node { Node([TENANT], false, None, NoRun, LogAt([], {"t"}, {})) }

  lemma OneTenantIsFresh()
    ensures Fresh(OneTenant())
  {
  }

  const RECORDED := [Entry("t", "w")]

  lemma ConvergeBegins()
    ensures History(OneTenant(), [Begin(true, true), WriteHeld, StartConverge])
            == At([TENANT], Converging, {Held}, [], None, LogAt([], {"t"}, {}))
  {
    Three(OneTenant(), Begin(true, true), WriteHeld, StartConverge);
  }

  lemma TenantDecided()
    ensures Happen(At([TENANT], Converging, {Held}, [], None, LogAt([], {"t"}, {})),
                   RecordDecision(D.Inputs([], [], false, true)))
            == At([TENANT], Ready, {Held} + {Converged}, [], Some(Forced()), LogAt([], {"t"}, {}))
  {
    hide D.Decide;
  }

  lemma TenantRecorded()
    ensures Happen(At([TENANT], Ready, {Held} + {Converged}, [], Some(Forced()), LogAt([], {"t"}, {})), RecordRunning)
            == At([TENANT], Ready, {Held} + {Converged} + {Recorded}, RECORDED, Some(Forced()),
                LogAt([TENANT], {"t"}, {}))
  {
    ForcedStops();
    BareNames();
    assert Selected([TENANT]) == RECORDED by { assert [TENANT][..0] == []; assert Selected([]) == []; }
    hide Forced, Selected, BareName, IsSystem;
  }

  lemma TenantRemoved()
    ensures Happen(At([TENANT], Ready, {Held} + {Converged} + {Recorded}, RECORDED, Some(Forced()),
                      LogAt([TENANT], {"t"}, {})), Removed("t"))
            == At([], Ready, {Held, Converged, Recorded}, RECORDED, Some(Forced()), LogAt([TENANT], {"t"}, {"t"}))
  {
    assert Without([TENANT], "t") == [] by { assert [TENANT][1..] == []; }
    assert {Held} + {Converged} + {Recorded} == {Held, Converged, Recorded};
    hide Forced, Without;
  }

  lemma TenantGoes()
    ensures History(At([TENANT], Converging, {Held}, [], None, LogAt([], {"t"}, {})),
                    [RecordDecision(D.Inputs([], [], false, true)), RecordRunning, Removed("t")])
            == At([], Ready, {Held, Converged, Recorded}, RECORDED, Some(Forced()), LogAt([TENANT], {"t"}, {"t"}))
  {
    hide *;
    TenantDecided();
    TenantRecorded();
    TenantRemoved();
    Three(At([TENANT], Converging, {Held}, [], None, LogAt([], {"t"}, {})),
          RecordDecision(D.Inputs([], [], false, true)), RecordRunning, Removed("t"));
  }

  lemma NothingToStop()
    ensures History(At([], Ready, {Held, Converged, Recorded}, RECORDED, Some(Forced()), LogAt([TENANT], {"t"}, {"t"})),
                    [ListToStop, AskStop({}), StopGate])
            == At([], Ready, {Held, Converged, Recorded, Stopped}, RECORDED, Some(Forced()),
                LogAt([TENANT], {"t"}, {"t"}))
  {
    ForcedStops();
    var n := At([], Ready, {Held, Converged, Recorded}, RECORDED, Some(Forced()), LogAt([TENANT], {"t"}, {"t"}));
    GoneResolves();
    NothingRuns();
    assert Happen(n, ListToStop) == n.(run := StopListed({})) by { hide Forced, Resolve, RunningIds; }
    hide Forced, Resolve, RunningIds, NoneRunning, Next;
    assert {Held, Converged, Recorded} + {Stopped} == {Held, Converged, Recorded, Stopped};
    Three(n, ListToStop, AskStop({}), StopGate);
  }

  lemma GoneResolves()
    ensures Resolve(RECORDED, Rows([])) == [Resolved("t", "w", None, false)]
  {
    assert Rows([]) == [];
  }

  lemma NothingRuns()
    ensures RunningIds([Resolved("t", "w", None, false)]) == {} && NoneRunning([Resolved("t", "w", None, false)])
    ensures SetRunning([], {}, false) == [] && Down([]) == []
  {
  }

  lemma SystemComes()
    ensures History(At([], Ready, {Held, Converged, Recorded, Stopped}, RECORDED, Some(Forced()),
                       LogAt([TENANT], {"t"}, {"t"})),
                    [Install(false, true), Reboot(false, true), Created(SYSTEM)])
            == At([SYSTEM], Ready, {Held, Converged, Recorded, Stopped, Packages, Rebooted}, RECORDED,
                  Some(Forced()), LogAt([TENANT], {"t", "s"}, {"t"}))
  {
    var log := LogAt([TENANT], {"t"}, {"t"});
    var n := At([], Ready, {Held, Converged, Recorded, Stopped}, RECORDED, Some(Forced()), log);
    var m := At([], Ready, {Held, Converged, Recorded, Stopped, Packages}, RECORDED, Some(Forced()), log);
    assert Happen(n, Install(false, true)) == m by {
      ForcedStops();
      hide Forced;
      assert {Held, Converged, Recorded, Stopped} + {Packages} == {Held, Converged, Recorded, Stopped, Packages};
    }
    var k := At([], Ready, {Held, Converged, Recorded, Stopped, Packages, Rebooted}, RECORDED, Some(Forced()), log);
    assert Happen(m, Reboot(false, true)) == k by {
      ForcedStops();
      hide Forced;
      assert {Held, Converged, Recorded, Stopped, Packages} + {Rebooted}
             == {Held, Converged, Recorded, Stopped, Packages, Rebooted};
    }
    SystemCreated(k);
    hide *;
    Three(n, Install(false, true), Reboot(false, true), Created(SYSTEM));
  }

  lemma SystemCreated(k: Node)
    requires k.containers == [] && k.log == LogAt([TENANT], {"t"}, {"t"})
    ensures Happen(k, Created(SYSTEM)) == k.(containers := [SYSTEM], log := LogAt([TENANT], {"t", "s"}, {"t"}))
  {
    assert Rows([]) == [];
    assert {"t"} + {"s"} == {"t", "s"};
    hide BareName;
  }

  lemma SystemResolves()
    ensures "s" in CurrentIds(Resolve(RECORDED, Rows([SYSTEM])))
  {
    BareNames();
    var cs, r := [SYSTEM], RECORDED[0];
    DistinctBoth(cs);
    assert Rows(cs) == [RowOfContainer(SYSTEM)];
    hide BareName;
    assert StandsIn(cs, r, SYSTEM);
    ListedExactly(cs, RECORDED, SYSTEM);
  }

  lemma SystemStarts()
    ensures var m := History(At([SYSTEM], Ready, {Held, Converged, Recorded, Stopped, Packages, Rebooted}, RECORDED,
                                Some(Forced()), LogAt([TENANT], {"t", "s"}, {"t"})),
                             [ListToStart([]), AskStart({"s"})]);
            "s" in m.log.started && SYSTEM.(running := true) in m.containers
  {
    ForcedStops();
    SystemResolves();
    var n := At([SYSTEM], Ready, {Held, Converged, Recorded, Stopped, Packages, Rebooted}, RECORDED,
                Some(Forced()), LogAt([TENANT], {"t", "s"}, {"t"}));
    hide Forced, CurrentIds, Resolve, Unique, SetRunning;
    Two(n, ListToStart([]), AskStart({"s"}));
    var ids := CurrentIds(Resolve(RECORDED, Rows([SYSTEM])));
    SystemRuns(ids * {"s"});
  }

  lemma SystemRuns(ids: set<string>)
    requires "s" in ids
    ensures SYSTEM.(running := true) in SetRunning([SYSTEM], ids, true)
  {
    assert SetRunning([SYSTEM], ids, true)[0] == SYSTEM.(running := true);
  }

  /** The recorded tenant goes, a system container is made under its name, and the run starts it. */
  lemma SystemContainerIsStarted() returns (n: Node, es: seq<Event>, c: Container)
    ensures Fresh(n) && c in History(n, es).containers && IsSystem(c) && c.id in History(n, es).log.started
  {
    n, c := OneTenant(), SYSTEM.(running := true);
    var a := [Begin(true, true), WriteHeld, StartConverge];
    var b := [RecordDecision(D.Inputs([], [], false, true)), RecordRunning, Removed("t")];
    var d := [ListToStop, AskStop({}), StopGate];
    var e := [Install(false, true), Reboot(false, true), Created(SYSTEM)];
    var f := [ListToStart([]), AskStart({"s"})];
    es := a + (b + (d + (e + f)));
    OneTenantIsFresh();
    BareNames();
    assert IsSystem(c);
    hide *;
    ConvergeBegins();
    TenantGoes();
    NothingToStop();
    SystemComes();
    SystemStarts();
    HistoryAppend(n, a, b + (d + (e + f)));
    HistoryAppend(History(n, a), b, d + (e + f));
    HistoryAppend(History(History(n, a), b), d, e + f);
    HistoryAppend(History(History(History(n, a), b), d), e, f);
  }

  /** The run's own steps neither add nor remove containers; one comes up only when docker was asked to
      start it, and goes down only when docker was asked to stop it, or with dockerd itself after the
      stop gate and before the start gate. */
  lemma RunChangesOnly(n: Node, e: Event)
    requires Inv(n) && ByTheRun(e)
    ensures var m := Happen(n, e);
            && |m.containers| == |n.containers|
            && forall i :: 0 <= i < |n.containers| ==>
                 var c, d := n.containers[i], m.containers[i];
                 && d == c.(running := d.running)
                 && (!c.running && d.running ==> e.AskStart? && c.id in m.log.started)
                 && (c.running && !d.running ==>
                       || (e.AskStop? && c.id in m.log.stopped)
                       || ((e.Install? || e.RestartDocker? || e.Reboot?) && n.file.Some?
                           && Stopped in n.file.value.done && Started !in n.file.value.done))
  {
    if e.AskStop? || e.AskStart? {
      hide Inv;
    } else if e.Install? || e.RestartDocker? || e.Reboot? {
      DownOrNot(n, e);
      hide Happen, Inv;
    } else {
      OthersLeave(n, e);
      hide Happen, Inv;
    }
  }

  lemma OthersLeave(n: Node, e: Event)
    requires ByTheRun(e) && !(e.AskStop? || e.AskStart? || e.Install? || e.RestartDocker? || e.Reboot?)
    ensures Happen(n, e).containers == n.containers
  {
    hide Next, Now, Selected, NoneRunning, AllRunning, Kept, Rows, MayResume, MayRescue, RunningIds, CurrentIds, Unique;
  }

  lemma DownOrNot(n: Node, e: Event)
    requires Inv(n) && (e.Install? || e.RestartDocker? || e.Reboot?)
    ensures var m := Happen(n, e);
            || m.containers == n.containers
            || (m.containers == Down(n.containers) && n.file.Some?
                && Stopped in n.file.value.done && Started !in n.file.value.done)
  {
    hide NamesOk, AllMayTouch, AllBack, Down;
    if n.file.Some? {
      DueAfterStop(n.file.value);
      hide Next, Ordered;
    }
  }

  lemma DueAfterStop(st: State)
    requires Ordered(st)
    ensures Next(st) == ToInstall || Next(st) == ToRestartDocker || Next(st) == ToReboot
            ==> Stopped in st.done && Started !in st.done
  {
  }

  /** The list is recorded once, before anything is stopped; the decision is taken once; a marked phase
      stays marked until the state file is put away. */
  lemma RecordedOnce(n: Node, e: Event)
    requires Inv(n) && n.file.Some? && Happen(n, e).file.Some?
    ensures var st, after := n.file.value, Happen(n, e).file.value;
            && st.done <= after.done
            && (Recorded in st.done ==> after.recorded == st.recorded && Happen(n, e).log.atRecord == n.log.atRecord)
            && (Recorded !in st.done ==> n.log.stopped == {} && n.log.started == {})
            && (Converged in st.done ==> after.decision == st.decision)
            && (forall a :: a in st.acceptDown ==> a in after.acceptDown)
            && (Started in st.done ==> after.acceptDown == st.acceptDown)
  {
    StepWritesOnce(n, n.file.value, e);
    hide Step, Ordered, NamesOk, AllMayTouch, AllBack, Now, Selected, RowOfContainer, Rows;
  }

  lemma StepWritesOnce(n: Node, st: State, e: Event)
    requires n.file == Some(st) && Ordered(st) && RunOk(n.run, st, n.log)
    ensures var m := Step(n, st, e);
            m.file.Some? ==>
              && st.done <= m.file.value.done
              && (Recorded in st.done ==> m.file.value.recorded == st.recorded && m.log.atRecord == n.log.atRecord)
              && (Converged in st.done ==> m.file.value.decision == st.decision)
              && (Started in st.done ==> m.file.value.acceptDown == st.acceptDown)
              && (forall a :: a in st.acceptDown ==> a in m.file.value.acceptDown)
  {
    ListWritesOnce(n, st, e);
    DoneOnlyGrows(n, st, e);
    hide Step, Ordered, RunOk;
  }

  lemma ListWritesOnce(n: Node, st: State, e: Event)
    requires n.file == Some(st) && Ordered(st)
    ensures var m := Step(n, st, e);
            m.file.Some? ==>
              && (Started in st.done ==> m.file.value.acceptDown == st.acceptDown)
              && (forall a :: a in st.acceptDown ==> a in m.file.value.acceptDown)
  {
    if e.ListToStart? {
      UniqueKeeps(st.acceptDown + e.accept);
      hide Unique, Now, CurrentIds;
    } else {
      AcceptsUnchanged(n, st, e);
      hide Step;
    }
  }

  lemma AcceptsUnchanged(n: Node, st: State, e: Event)
    requires n.file == Some(st) && !e.ListToStart?
    ensures var m := Step(n, st, e); m.file.Some? ==> m.file.value.acceptDown == st.acceptDown
  {
    hide Next, Now, Selected, NoneRunning, AllRunning, Kept, Rows, D.Decide, SetRunning, Down, RunningIds, MayRescue;
  }

  lemma DoneOnlyGrows(n: Node, st: State, e: Event)
    requires n.file == Some(st) && Ordered(st) && RunOk(n.run, st, n.log)
    ensures var m := Step(n, st, e);
            m.file.Some? ==>
              && st.done <= m.file.value.done
              && (Recorded in st.done ==> m.file.value.recorded == st.recorded && m.log.atRecord == n.log.atRecord)
              && (Converged in st.done ==> m.file.value.decision == st.decision)
  {
    NotDueTwice(st);
    hide Next, Ordered, Unique, AllMayTouch, Now, Selected, NoneRunning, AllRunning, Kept, Rows, D.Decide, SetRunning,
         Down, RunningIds, CurrentIds, MayRescue;
  }

  lemma NotDueTwice(st: State)
    ensures Next(st) == ToRecord ==> Recorded !in st.done
  {
  }

  lemma {:induction false} UniqueKeeps(a: seq<string>)
    ensures forall x :: x in Unique(a) <==> x in a
  {
    if a != [] {
      UniqueKeeps(a[..|a| - 1]);
      assert a == a[..|a| - 1] + [a[|a| - 1]];
    }
  }

  /** What each dangerous step has proved first: `stopped` is marked with no recorded container running,
      `started` with every required one running; a list to stop or start is made, and dockerd taken
      down, under the hold alone; a new run never adopts a hold, and only one that began its release
      is resumed without it. */
  lemma StepsAreGuarded(n: Node, e: Event)
    requires Inv(n) && ByTheRun(e) && n.file.Some?
    ensures var st, m := n.file.value, Happen(n, e);
            && (m.file.Some? && Stopped in m.file.value.done && Stopped !in st.done ==> NoneRunning(Now(m, st)))
            && (m.file.Some? && Started in m.file.value.done && Started !in st.done ==>
                  AllRunning(Kept(Now(m, st), st.acceptDown, false)))
            && (m.run != n.run && (m.run.StopListed? || m.run.StartListed?) ==> n.held)
            && (m.containers != n.containers && !e.AskStop? && !e.AskStart? ==> n.held)
            && (n.run == NoRun && m.run != NoRun && m.run != Refused ==> n.held || st.releasing || Released in st.done)
  {
    GatesAreGuarded(n, e);
    HeldForChanges(n, e);
    hide Happen, Inv, NoneRunning, AllRunning, Kept, Now;
  }

  /** The two gates: each marks its phase only over what it has just seen. */
  lemma GatesAreGuarded(n: Node, e: Event)
    requires ByTheRun(e) && n.file.Some?
    ensures var st, m := n.file.value, Happen(n, e);
            && (m.file.Some? && Stopped in m.file.value.done && Stopped !in st.done ==> NoneRunning(Now(m, st)))
            && (m.file.Some? && Started in m.file.value.done && Started !in st.done ==>
                  AllRunning(Kept(Now(m, st), st.acceptDown, false)))
  {
    if !e.StopGate? && !e.StartGate? {
      OthersMarkNeither(n, e);
      hide Happen;
    }
    hide Next, NoneRunning, AllRunning, Kept, Resolve, Rows;
  }

  lemma OthersMarkNeither(n: Node, e: Event)
    requires ByTheRun(e) && n.file.Some? && !e.StopGate? && !e.StartGate?
    ensures var st, m := n.file.value, Happen(n, e);
            m.file.Some? ==> (Stopped in m.file.value.done ==> Stopped in st.done)
                             && (Started in m.file.value.done ==> Started in st.done)
  {
    if e.Install? || e.RestartDocker? || e.Reboot? {
      hide Next, Rows, Down;
    } else {
      RestMarkNeither(n, e);
      hide Happen;
    }
  }

  lemma RestMarkNeither(n: Node, e: Event)
    requires ByTheRun(e) && n.file.Some? && !e.StopGate? && !e.StartGate?
             && !(e.Install? || e.RestartDocker? || e.Reboot?)
    ensures var st, m := n.file.value, Happen(n, e);
            m.file.Some? ==> (Stopped in m.file.value.done ==> Stopped in st.done)
                             && (Started in m.file.value.done ==> Started in st.done)
  {
    hide Next, Now, Selected, NoneRunning, AllRunning, Kept, Rows, D.Decide, SetRunning, RunningIds, CurrentIds, Unique,
         MayRescue, MayResume;
  }

  /** Lists are made, and dockerd is taken down, under the hold alone. */
  lemma HeldForChanges(n: Node, e: Event)
    requires ByTheRun(e) && n.file.Some?
    ensures var st, m := n.file.value, Happen(n, e);
            && (m.run != n.run && (m.run.StopListed? || m.run.StartListed?) ==> n.held)
            && (m.containers != n.containers && !e.AskStop? && !e.AskStart? ==> n.held)
            && (n.run == NoRun && m.run != NoRun && m.run != Refused ==> n.held || st.releasing || Released in st.done)
  {
    if !(e.AskStop? || e.AskStart? || e.Install? || e.RestartDocker? || e.Reboot?) {
      OthersLeave(n, e);
    }
    hide Next, Now, Selected, NoneRunning, AllRunning, Kept, Rows, D.Decide, SetRunning, Down, RunningIds, CurrentIds,
         Unique, MayRescue;
  }

  /** The run clears the hold only once everything is started again, or when it stopped nothing. */
  lemma HoldOutlivesTheStop(n: Node, e: Event)
    requires Inv(n) && ByTheRun(e) && n.held && !Happen(n, e).held
    ensures n.file.Some?
    ensures || (e.Off? && (n.file.value.Stops() ==> Started in n.file.value.done))
            || (e.Rescue? && n.log.stopped == {} && n.log.started == {} && !n.file.value.convergeStarted)
  {
    OnlyTwoClear(n, e);
    if e.Off? {
      StartedBeforeOff(n);
    }
    hide NamesOk, AllMayTouch, AllBack, Next;
  }

  lemma OnlyTwoClear(n: Node, e: Event)
    requires ByTheRun(e) && n.held && !Happen(n, e).held
    ensures n.file.Some? && ((e.Off? && n.run == Clearing) || (e.Rescue? && MayRescue(n.file.value)))
  {
    hide Next, Now, Selected, NoneRunning, AllRunning, Kept, Rows, D.Decide, SetRunning, Down, RunningIds, CurrentIds,
         Unique, MayRescue, MayResume;
  }

  lemma StartedBeforeOff(n: Node)
    requires Inv(n) && n.run == Clearing
    ensures n.file.Some? && (n.file.value.Stops() ==> Started in n.file.value.done)
  {
    hide NamesOk, AllMayTouch, AllBack;
  }
}
