/** A node's data disk over time: converge runs that may die between two tasks, reboots, Docker
    writing to its directories, and what the classifier guarantees over every such history. */
module DiskWorld {
  import opened Text
  import Ordering
  import Blkid
  import opened NodeStorage
  import opened DiskSoundness

  // -------------------------------------------------------------------------
  // The role's configuration and the state of the node
  // -------------------------------------------------------------------------

  datatype Config = Config(dev: string, mount: string, fsLabel: string, options: string, binds: seq<Bind>)
  {
    function Paths(): seq<string> { Allowed(mount, binds) }
  }

  /** A device name without brackets or blanks, quota-enforcing mount options, real paths. */
  ghost predicate ValidConfig(c: Config) {
    && Trimmed(c.dev) && '[' !in c.dev && '\n' !in c.dev && Blkid.GoodValue(c.dev)
    && KName(c.dev) != "" && KName(KName(c.dev)) == KName(c.dev)
    && Blkid.GoodValue(c.fsLabel) && HasPrjquota(c.options)
    && (forall p :: p in c.Paths() ==> p != "" && p[|p| - 1] != '/') && Ordering.Distinct(c.Paths())
    && (forall i :: 0 <= i < |c.binds| ==> '\n' !in c.binds[i].subdir && c.binds[i].subdir != "")
  }

  /** One of the role's paths: what it is on the root disk, whether the root disk holds entries
      there, whether it can be listed, and the filesystem mounted over it. */
  datatype PathState = PathState(kind: PathType, full: bool, listable: bool, fs: Option<Fs>)

  /** `disk` is what blkid finds on the device. `formats` counts the runs of mkfs; `harm` records
      a format over data or while a path holds entries, and a mount over a directory that was not empty. */
  datatype World = World(
    disk: map<string, string>, deviceData: bool, kind: string, children: seq<Node>,
    paths: map<string, PathState>, elsewhere: seq<string>, fstab: set<string>, formats: nat, harm: bool)

  predicate FromDevice(c: Config, fs: Option<Fs>) {
    fs.Some? && KName(SplitSource(fs.value.source).0) == KName(c.dev)
  }

  function OurExport(c: Config): map<string, string> { map["TYPE" := "xfs", "LABEL" := c.fsLabel] }

  predicate HoldsOurs(c: Config, w: World) {
    && Get(w.disk, "TYPE") == "xfs" && "LABEL" in w.disk && w.disk["LABEL"] == c.fsLabel
    && Get(w.disk, "PTTYPE") == ""
  }

  /** The filesystem the role mounts at one of its paths. */
  function RoleFs(c: Config, path: string): Fs {
    if path == c.mount then Fs(c.dev, c.options)
    else Fs(c.dev + "[/" + SubdirFor(path, c.binds) + "]", c.options)
  }

  /** What holds of any node the role meets: a mounted device shows a signature, and the role's own
      fstab entries are mounted. Data on the device may show none. */
  ghost predicate Consistent(c: Config, w: World) {
    && (forall p :: p in w.paths <==> p in c.Paths())
    && (forall p :: p in w.paths && w.paths[p].kind == Absent ==> !w.paths[p].full)
    && Blkid.AllGood(w.disk) && "DEVNAME" !in w.disk
    && (w.elsewhere != [] ==> w.disk != map[]) && "" !in w.elsewhere
    && (forall p :: p in w.paths && FromDevice(c, w.paths[p].fs) ==> w.disk != map[])
    && (forall p :: p in w.fstab ==> p in w.paths && HoldsOurs(c, w) && FromDevice(c, w.paths[p].fs))
  }

  /** Data on the device shows a signature that blkid finds. */
  predicate Signed(w: World) { w.deviceData ==> w.disk != map[] }

  // -------------------------------------------------------------------------
  // What the probe's commands print on such a node
  // -------------------------------------------------------------------------

  function SeenAs(s: PathState): PathType { if s.fs.Some? then Directory else s.kind }

  function StatOf(s: PathState): PathStat {
    match SeenAs(s)
    case Unknown => StatFailed
    case Absent => Stat(false, false, false, false)
    case Directory => Stat(true, false, true, false)
    case Symlink => Stat(true, true, false, false)
    case File => Stat(true, false, false, true)
    case Other => Stat(true, false, false, false)
  }

  function FindOf(s: PathState): Cmd<string> {
    if SeenAs(s) == Absent then Ran(1, "", "No such file or directory")
    else if !s.listable then Ran(1, "", "Permission denied")
    else Ran(0, if s.full then "entry" else "", "")
  }

  function FindmntOf(s: PathState): Cmd<seq<Fs>> {
    match s.fs case Some(fs) => Ran(0, [fs], "") case None => Ran(1, [], "")
  }

  function MountedHere(c: Config, w: World, paths: seq<string>): seq<string> {
    if paths == [] then []
    else (if paths[0] in w.paths && FromDevice(c, w.paths[paths[0]].fs) then [paths[0]] else [])
         + MountedHere(c, w, paths[1..])
  }

  function SomeAll(points: seq<string>): seq<Option<string>> {
    seq(|points|, i requires 0 <= i < |points| => Some(points[i]))
  }

  function LsblkNode(c: Config, w: World): Node {
    Node(KName(c.dev), c.dev, w.kind, Get(w.disk, "TYPE"),
         Some(SomeAll(MountedHere(c, w, c.Paths()) + w.elsewhere) + [None]), None, w.children)
  }

  /** What blkid exports: the device's own name, and every signature it found. */
  function Exported(c: Config, w: World): map<string, string> { w.disk["DEVNAME" := c.dev] }

  function BlkidOf(c: Config, w: World): Cmd<string> {
    if w.disk == map[] then Ran(2, "", "")
    else Ran(0, Blkid.Print(KeyList(Exported(c, w)), Exported(c, w), {}), "")
  }

  function KeyList(m: map<string, string>): (keys: seq<string>)
    ensures forall k :: k in keys <==> k in m
  {
    var keys := Ordering.SortSet(m.Keys);
    assert forall k :: k in keys <==> k in Ordering.Elems(keys);
    keys
  }

  function StateAt(w: World, path: string): PathState {
    if path in w.paths then w.paths[path] else PathState(Absent, false, true, None)
  }

  function ResultsOf(c: Config, w: World): Results {
    var ps := c.Paths();
    Results(c.dev, Ran(0, c.dev, ""), DeviceStat(true, true), BlkidOf(c, w), Ran(0, [LsblkNode(c, w)], ""),
            seq(|ps|, i requires 0 <= i < |ps| => MountResult(ps[i], FindmntOf(StateAt(w, ps[i])))),
            seq(|ps|, i requires 0 <= i < |ps| => FindResult(ps[i], FindOf(StateAt(w, ps[i])))),
            seq(|ps|, i requires 0 <= i < |ps| => StatResult(ps[i], StatOf(StateAt(w, ps[i])))))
  }

  /** What the role decides on this node: the code's probe and the code's classifier. */
  function VerdictOn(c: Config, w: World): Verdict {
    Classified(ProbeOf(ResultsOf(c, w)), c.mount, c.fsLabel, c.binds)
  }

  // -------------------------------------------------------------------------
  // Histories
  // -------------------------------------------------------------------------

  /** One task of apply.yml: format, mount with its fstab entry, or the fstab entry alone for a
      path the probe found mounted. */
  datatype Action = Format | MountAt(path: string) | Remember(path: string)

  function PlaceAll(w: World, paths: seq<string>): seq<Action> {
    seq(|paths|, i requires 0 <= i < |paths| =>
      if StateAt(w, paths[i]).fs.Some? then Remember(paths[i]) else MountAt(paths[i]))
  }

  function Plan(c: Config, w: World): seq<Action> {
    var v := VerdictOn(c, w);
    if v.Refuse? then [] else (if v.Blank? then [Format] else []) + PlaceAll(w, c.Paths())
  }

  /** Root-disk entries that a mount at the path would hide. */
  predicate HoldsRootData(s: PathState) { s.fs.None? && s.full }

  /** The path once the role's filesystem is mounted on it; mounting makes a missing directory. */
  function Covered(c: Config, s: PathState, p: string): PathState {
    PathState(if s.kind == Absent then Directory else s.kind, s.full, true, Some(RoleFs(c, p)))
  }

  function Act(c: Config, w: World, a: Action): World {
    match a
    case Format =>
      w.(disk := OurExport(c), formats := w.formats + 1,
         harm := w.harm || w.deviceData || w.disk != map[]
                 || exists p :: p in w.paths && HoldsRootData(w.paths[p]))
    case Remember(p) => w.(fstab := w.fstab + {p})
    case MountAt(p) =>
      var s := StateAt(w, p);
      w.(fstab := w.fstab + {p}, harm := w.harm || HoldsRootData(s),
         paths := w.paths[p := Covered(c, s, p)])
  }

  function ActAll(c: Config, w: World, actions: seq<Action>): World
    decreases |actions|
  {
    if actions == [] then w else ActAll(c, Act(c, w, actions[0]), actions[1..])
  }

  /** What happens between the probe of a run and its end: its next task, or something of Docker's. */
  datatype Step = Task | Written(path: string) | Mounted(point: string)

  datatype Event =
    | Run(steps: seq<Step>)                                 // a converge run, which may die before its last task
    | DockerWrite(path: string)                             // Docker or containerd writes to one of its directories
    | VolumeMount(point: string)                            // a container mounts a directory of the device
    | Reboot(kept: set<string>, keepElsewhere: bool)        // foreign mounts may or may not come back

  function AfterWrite(c: Config, w: World, p: string): World {
    if p !in w.paths then w
    else
      var s := w.paths[p];
      if s.fs.Some? then (if FromDevice(c, s.fs) then w.(deviceData := true) else w)
      else if s.kind == Absent then w.(paths := w.paths[p := PathState(Directory, true, true, None)])
      else if s.kind == Directory then w.(paths := w.paths[p := s.(full := true)])
      else w
  }

  function AfterBoot(c: Config, w: World, kept: set<string>, p: string): PathState {
    var s := StateAt(w, p);
    if p in w.fstab then Covered(c, s, p)
    else if p in kept then s
    else s.(fs := None)
  }

  function AfterVolume(c: Config, w: World, point: string): World {
    if point != "" && point != "/" && IsAllowed(point, c.Paths())
       && exists p :: p in w.paths && FromDevice(c, w.paths[p].fs)
    then w.(elsewhere := w.elsewhere + [point]) else w
  }

  /** How many tasks have run. */
  function TasksIn(steps: seq<Step>): nat {
    if steps == [] then 0
    else TasksIn(steps[..|steps| - 1]) + (if steps[|steps| - 1] == Task then 1 else 0)
  }

  function TakeStep(c: Config, w: World, plan: seq<Action>, k: nat, s: Step): World {
    match s
    case Task => if k < |plan| then Act(c, w, plan[k]) else w
    case Written(p) => AfterWrite(c, w, p)
    case Mounted(point) => AfterVolume(c, w, point)
  }

  /** The tasks of the plan in turn, and whatever else happens between them. */
  function RunSteps(c: Config, w: World, plan: seq<Action>, steps: seq<Step>): World
    decreases |steps|
  {
    if steps == [] then w
    else
      var before := steps[..|steps| - 1];
      TakeStep(c, RunSteps(c, w, plan, before), plan, TasksIn(before), steps[|steps| - 1])
  }

  /** So many tasks, and nothing between them. */
  function Only(n: nat): seq<Step> { if n == 0 then [] else Only(n - 1) + [Task] }

  /** A run that nothing disturbs: it dies after `n` tasks, or finishes. */
  function Converge(n: nat): Event { Run(Only(n)) }

  /** The tasks of a run that dies after `n` of them. */
  function Cut<T>(tasks: seq<T>, n: nat): seq<T> { if n < |tasks| then tasks[..n] else tasks }

  function Happen(c: Config, w: World, e: Event): World {
    match e
    case Run(steps) => RunSteps(c, w, Plan(c, w), steps)
    case DockerWrite(p) => AfterWrite(c, w, p)
    case VolumeMount(point) => AfterVolume(c, w, point)
    case Reboot(kept, keepElsewhere) =>
      w.(paths := map p | p in w.paths :: AfterBoot(c, w, kept, p),
         elsewhere := if keepElsewhere then w.elsewhere else [],
         harm := w.harm || exists p :: p in w.paths && p in w.fstab && HoldsRootData(w.paths[p]))
  }

  function History(c: Config, w: World, es: seq<Event>): World
    decreases |es|
  {
    if es == [] then w else Happen(c, History(c, w, es[..|es| - 1]), es[|es| - 1])
  }

  // -------------------------------------------------------------------------
  // The probe of such a node
  // -------------------------------------------------------------------------

  lemma {:induction false} MountsOfPaths(rs: seq<MountResult>, w: World, ps: seq<string>)
    requires |rs| == |ps| && forall i :: 0 <= i < |ps| ==> rs[i] == MountResult(ps[i], FindmntOf(StateAt(w, ps[i])))
    ensures forall p :: p in ps ==> p in Mounts(rs) && Mounts(rs)[p] == StateAt(w, p).fs
    ensures forall p :: p in Mounts(rs) ==> p in ps
  {
    if ps != [] {
      var n := |ps| - 1;
      MountsOfPaths(rs[..n], w, ps[..n]);
      assert ps == ps[..n] + [ps[n]];
    }
  }

  lemma {:induction false} TypesOfPaths(rs: seq<StatResult>, w: World, ps: seq<string>)
    requires |rs| == |ps| && forall i :: 0 <= i < |ps| ==> rs[i] == StatResult(ps[i], StatOf(StateAt(w, ps[i])))
    requires forall i :: 0 <= i < |ps| ==> ps[i] != ""
    ensures forall p :: p in ps ==> p in Types(rs) && Types(rs)[p] == SeenAs(StateAt(w, p))
  {
    if ps != [] {
      var n := |ps| - 1;
      TypesOfPaths(rs[..n], w, ps[..n]);
      assert ps == ps[..n] + [ps[n]];
    }
  }

  predicate FoundEntries(s: PathState) { s.fs.None? && s.kind == Directory && s.listable && s.full }

  lemma ListedFacts(s: PathState)
    ensures SeenAs(s) == Directory ==> (Listed(FindOf(s)) <==> s.listable)
    ensures SeenAs(s) == Directory && s.listable ==> (Strip(FindOf(s).stdout) != "" <==> s.full)
  {
    StripFacts("entry");
    StripFacts("");
  }

  lemma {:induction false} FindsOfPaths(rs: seq<FindResult>, w: World, ps: seq<string>,
                                        mounts: map<string, Option<Fs>>, types: map<string, PathType>)
    requires |rs| == |ps| && forall i :: 0 <= i < |ps| ==> rs[i] == FindResult(ps[i], FindOf(StateAt(w, ps[i])))
    requires forall i :: 0 <= i < |ps| ==> ps[i] != ""
    requires forall p :: p in ps ==> p in mounts && mounts[p] == StateAt(w, p).fs
    requires forall p :: p in ps ==> p in types && types[p] == SeenAs(StateAt(w, p))
    ensures forall p :: p in ps ==>
              p in Nonempty(rs, mounts, types) && (Nonempty(rs, mounts, types)[p] <==> FoundEntries(StateAt(w, p)))
    ensures forall p :: p in ps ==>
              (p in FindErrors(rs, types) <==> SeenAs(StateAt(w, p)) == Directory && !StateAt(w, p).listable)
    ensures forall p :: p in FindErrors(rs, types) ==> p in ps
  {
    hide FindOf, Listed, Strip, StateAt, ReadFindError;
    if ps != [] {
      var n := |ps| - 1;
      assert ps == ps[..n] + [ps[n]];
      FindsOfPaths(rs[..n], w, ps[..n], mounts, types);
      ListedFacts(StateAt(w, ps[n]));
      assert rs[n].path == ps[n] && rs[n].cmd == FindOf(StateAt(w, ps[n]));
    }
  }

  lemma {:induction false} PointsOfSome(points: seq<string>)
    requires forall p :: p in points ==> p != ""
    ensures Points(SomeAll(points) + [None]) == points
  {
    if points == [] {
      var none: seq<Option<string>> := [None];
      assert SomeAll(points) + none == none && none[1..] == [];
      assert Points(none) == [] + Points([]) == [];
    } else {
      assert points[0] in points && forall p :: p in points[1..] ==> p in points;
      var s := SomeAll(points) + [None];
      assert s[0] == Some(points[0]) && s[1..] == SomeAll(points[1..]) + [None];
      PointsOfSome(points[1..]);
    }
  }

  lemma {:induction false} MountedHereFacts(c: Config, w: World, paths: seq<string>)
    ensures forall p :: p in MountedHere(c, w, paths) <==> p in paths && p in w.paths && FromDevice(c, w.paths[p].fs)
  {
    if paths != [] {
      MountedHereFacts(c, w, paths[1..]);
      assert forall p :: p in paths <==> p == paths[0] || p in paths[1..];
    }
  }

  lemma NoNameNoDevice()
    ensures KName("") == ""
  {
  }

  lemma DevicePlain(c: Config, w: World)
    requires ValidConfig(c)
    ensures Strip(c.dev) == c.dev && c.dev != "" && Names(c.dev, LsblkNode(c, w)) == {KName(c.dev)}
    ensures IsBlock(ResultsOf(c, w)) && DeviceOf(ResultsOf(c, w)) == c.dev
  {
    DeviceTrimmed(c);
    NodeName(c, w);
    DeviceResults(c, w);
    hide ValidConfig, KName, Strip, LsblkNode, ResultsOf, Names;
  }

  lemma DeviceResults(c: Config, w: World)
    ensures ResultsOf(c, w).realpath == Ran(0, c.dev, "") && ResultsOf(c, w).stat == DeviceStat(true, true)
  {
    hide LsblkNode, BlkidOf, FindmntOf, FindOf, StatOf, StateAt, Allowed;
  }

  lemma NodeName(c: Config, w: World)
    requires KName(c.dev) != "" && KName(KName(c.dev)) == KName(c.dev) && KName("") == ""
    ensures Names(c.dev, LsblkNode(c, w)) == {KName(c.dev)}
  {
    hide KName, MountedHere, SomeAll, Get;
  }

  lemma DeviceTrimmed(c: Config)
    requires ValidConfig(c)
    ensures Strip(c.dev) == c.dev && c.dev != "" && KName(c.dev) != "" && KName(KName(c.dev)) == KName(c.dev)
            && KName("") == ""
  {
    StripFacts(c.dev);
    NoNameNoDevice();
    hide KName, Strip, Blkid.GoodValue, HasPrjquota, Allowed;
  }

  lemma BlkidRead(c: Config, w: World)
    requires ValidConfig(c) && Consistent(c, w)
    ensures Signature(ReadBlkid(BlkidOf(c, w))) == w.disk && BlkidError(BlkidOf(c, w)) == ""
    ensures forall k :: k != "DEVNAME" ==> Get(ReadBlkid(BlkidOf(c, w)), k) == Get(w.disk, k)
    ensures forall k :: k != "DEVNAME" ==> (k in ReadBlkid(BlkidOf(c, w)) <==> k in w.disk)
  {
    hide Blkid.Parse, Blkid.Print, KeyList, KName, HasPrjquota, FromDevice, HoldsOurs;
    if w.disk == map[] {
      StripFacts("");
    } else {
      var e := Exported(c, w);
      ExportedFacts(c, w);
      hide Blkid.AllGood, Consistent, ValidConfig;
      Blkid.ParsePrintExact(e, KeyList(e), {});
    }
  }

  lemma ExportedFacts(c: Config, w: World)
    requires ValidConfig(c) && Consistent(c, w)
    ensures Blkid.AllGood(Exported(c, w)) && Signature(Exported(c, w)) == w.disk
  {
    hide KName, HasPrjquota, FromDevice, HoldsOurs, Blkid.GoodKey, Blkid.GoodValue, Trimmed;
    DevNameIsGood();
  }

  lemma DevNameIsGood()
    ensures Blkid.GoodKey("DEVNAME")
  {
    assert forall ch :: ch in "DEVNAME" ==> 'A' <= ch <= 'Z';
    forall i | 0 <= i < |"DEVNAME"| ensures !Blkid.IsLineBreak("DEVNAME"[i]) { assert "DEVNAME"[i] in "DEVNAME"; }
  }

  /** Everything the classifier reads, in terms of the node. */
  ghost predicate Sees(c: Config, w: World, p: Probe) {
    && p.device == c.dev && p.isBlock && p.blkidError == ""
    && Signature(p.blkid) == w.disk
    && (forall k :: k != "DEVNAME" ==> Get(p.blkid, k) == Get(w.disk, k) && (k in p.blkid <==> k in w.disk))
    && p.lsblk == Some(LsblkNode(c, w))
    && MountPoints(LsblkNode(c, w)) == MountedHere(c, w, c.Paths()) + w.elsewhere
    && (forall q :: q in c.Paths() ==> SeesPath(w, p, q))
  }

  ghost predicate SeesPath(w: World, p: Probe, q: string) {
    var s := StateAt(w, q);
    && q in p.mounts && p.mounts[q] == s.fs
    && q in p.types && p.types[q] == SeenAs(s)
    && q in p.nonempty && (p.nonempty[q] <==> FoundEntries(s))
    && (q in p.errors <==> SeenAs(s) == Directory && !s.listable)
  }

  lemma PathsNamed(c: Config, w: World)
    requires ValidConfig(c) && Consistent(c, w)
    ensures "" !in w.elsewhere
    ensures forall p :: p in c.Paths() ==> p != ""
    ensures forall i :: 0 <= i < |c.Paths()| ==> c.Paths()[i] != ""
  {
    forall i | 0 <= i < |c.Paths()| ensures c.Paths()[i] != "" { assert c.Paths()[i] in c.Paths(); }
  }

  lemma ProbeSees(c: Config, w: World)
    requires ValidConfig(c) && Consistent(c, w)
    ensures Sees(c, w, ProbeOf(ResultsOf(c, w)))
  {
    hide ReadBlkid, BlkidError, BlkidOf, Mounts, Types, Nonempty, FindErrors, KName, SplitSource, StateAt, FindOf,
         StatOf, FindmntOf, Signature, MountedHere, Points, IsBlock, DeviceOf, Strip, ValidConfig, Consistent,
         FoundEntries, SeenAs;
    PathsNamed(c, w);
    var r := ResultsOf(c, w);
    DevicePlain(c, w);
    BlkidRead(c, w);
    MountsOfPaths(r.findmnt, w, c.Paths());
    TypesOfPaths(r.pathStat, w, c.Paths());
    FindsOfPaths(r.find, w, c.Paths(), Mounts(r.findmnt), Types(r.pathStat));
    MountedHereFacts(c, w, c.Paths());
    PointsOfSome(MountedHere(c, w, c.Paths()) + w.elsewhere);
    SignatureKey(ReadBlkid(BlkidOf(c, w)), w.disk);
  }

  lemma SignatureKey(m: map<string, string>, disk: map<string, string>)
    requires Signature(m) == disk
    ensures forall k :: k != "DEVNAME" ==> (k in m <==> k in disk)
  {
    forall k | k != "DEVNAME" ensures k in m <==> k in disk {
      assert k in m <==> k in Signature(m);
    }
  }

  // -------------------------------------------------------------------------
  // The verdict, in terms of the node
  // -------------------------------------------------------------------------

  ghost predicate PlainDisk(c: Config, w: World) {
    w.kind == "disk" && w.children == [] && "/" !in w.elsewhere
  }

  /** Nothing mounted, and nothing that a mount would hide. */
  ghost predicate Coverable(s: PathState) {
    s.fs.None? && (s.kind == Absent || (s.kind == Directory && s.listable && !s.full))
  }

  /** Mounted from this device as the role mounts it, and readable. */
  ghost predicate RightlyMounted(c: Config, p: string, s: PathState) {
    && s.fs.Some? && s.listable
    && var (src, sub) := SplitSource(s.fs.value.source);
       KName(src) == KName(c.dev)
       && (if p == c.mount then sub == "/" && HasPrjquota(s.fs.value.options) else sub == "/" + SubdirFor(p, c.binds))
  }

  ghost predicate BlankWorld(c: Config, w: World) {
    && PlainDisk(c, w) && w.disk == map[] && w.elsewhere == []
    && forall p :: p in c.Paths() ==> Coverable(StateAt(w, p))
  }

  ghost predicate OursWorld(c: Config, w: World) {
    && PlainDisk(c, w) && w.disk != map[] && HoldsOurs(c, w)
    && (forall point :: point in w.elsewhere ==> IsAllowed(point, c.Paths()))
    && forall p :: p in c.Paths() ==> Coverable(StateAt(w, p)) || RightlyMounted(c, p, StateAt(w, p))
  }

  ghost predicate ReadyWorld(c: Config, w: World) {
    OursWorld(c, w) && forall p :: p in c.Paths() ==> StateAt(w, p).fs.Some?
  }

  lemma SafePathSeen(w: World, p: Probe, q: string)
    requires SeesPath(w, p, q) && StateAt(w, q).fs.None?
    ensures SafeToCover(p, q) && q !in p.errors <==> Coverable(StateAt(w, q))
  {
  }

  lemma MountSeen(c: Config, w: World, p: Probe, q: string)
    requires ValidConfig(c) && Sees(c, w, p) && q in c.Paths() && StateAt(w, q).fs.Some?
    ensures p.lsblk.Some?
    ensures MountedAsOurs(p, q, c.mount, c.binds) && q !in p.errors <==> RightlyMounted(c, q, StateAt(w, q))
  {
    hide SplitSource, KName, HasPrjquota, SubdirFor, MountedHere, MountPoints, Points, Signature, StateAt;
    DevicePlain(c, w);
    assert SeesPath(w, p, q);
  }

  lemma PathsSeen(c: Config, w: World, p: Probe)
    requires ValidConfig(c) && Sees(c, w, p)
    ensures p.lsblk.Some?
    ensures PathsInOrder(p, c.mount, c.binds) <==>
            forall q :: q in c.Paths() ==> Coverable(StateAt(w, q)) || RightlyMounted(c, q, StateAt(w, q))
  {
    hide MountedAsOurs, SafeToCover, RightlyMounted, Sees, StateAt;
    OneSeen(c, w, p, c.mount);
    forall q | q in c.Paths()
      ensures (if IsMounted(p.mounts, q) then MountedAsOurs(p, q, c.mount, c.binds) else SafeToCover(p, q))
              && q !in p.errors
              <==> Coverable(StateAt(w, q)) || RightlyMounted(c, q, StateAt(w, q))
    {
      OneSeen(c, w, p, q);
      if StateAt(w, q).fs.None? {
        SafePathSeen(w, p, q);
        NotRightly(c, q, StateAt(w, q));
      } else {
        MountSeen(c, w, p, q);
      }
    }
  }

  lemma NotRightly(c: Config, q: string, s: PathState)
    ensures s.fs.None? ==> !RightlyMounted(c, q, s)
  {
  }

  lemma OneSeen(c: Config, w: World, p: Probe, q: string)
    requires Sees(c, w, p) && q in c.Paths()
    ensures SeesPath(w, p, q) && p.lsblk.Some? && (IsMounted(p.mounts, q) <==> StateAt(w, q).fs.Some?)
  {
  }

  lemma SlashIsNoPath(c: Config, w: World)
    requires ValidConfig(c)
    ensures "/" !in MountedHere(c, w, c.Paths())
  {
    hide KName, FromDevice;
    MountedHereFacts(c, w, c.Paths());
  }

  /** What the classifier reads about the device itself. */
  lemma NodeSeen(c: Config, w: World, p: Probe)
    requires Sees(c, w, p)
    ensures p.lsblk == Some(LsblkNode(c, w)) && p.device == c.dev && p.isBlock && p.blkidError == ""
    ensures Signature(p.blkid) == w.disk && Get(p.blkid, "PTTYPE") == Get(w.disk, "PTTYPE")
    ensures Get(p.blkid, "TYPE") == Get(w.disk, "TYPE") && Get(p.blkid, "LABEL") == Get(w.disk, "LABEL")
    ensures "LABEL" in p.blkid <==> "LABEL" in w.disk
    ensures MountPoints(LsblkNode(c, w)) == MountedHere(c, w, c.Paths()) + w.elsewhere
  {
    hide SeesPath, Signature, MountPoints, KName, MountedHere, LsblkNode;
  }

  lemma DiskSeen(c: Config, w: World, p: Probe)
    requires ValidConfig(c) && Sees(c, w, p)
    ensures p.lsblk.Some? && Signature(p.blkid) == w.disk
    ensures WholeDisk(p) <==> PlainDisk(c, w) && Get(w.disk, "PTTYPE") == ""
    ensures OurSignature(p, c.fsLabel) && Get(w.disk, "PTTYPE") == "" <==> HoldsOurs(c, w)
    ensures p.lsblk.value.fstype == Get(w.disk, "TYPE")
    ensures MountPoints(p.lsblk.value) == MountedHere(c, w, c.Paths()) + w.elsewhere
  {
    DevicePlain(c, w);
    SlashIsNoPath(c, w);
    NodeSeen(c, w, p);
    hide Sees, SeesPath, Signature, MountPoints, KName, MountedHere, ValidConfig, StateAt, FromDevice, IsBlock,
         DeviceOf;
  }

  /** The code calls the node blank exactly when nothing on it could be lost. */
  lemma BlankInWorld(c: Config, w: World)
    requires ValidConfig(c) && Consistent(c, w)
    ensures VerdictOn(c, w) == Blank <==> BlankWorld(c, w)
  {
    hide Sees, MountPoints, PathsInOrder, WholeDisk, Signature, SplitSource, KName, HasPrjquota, Classified, ProbeOf,
         ResultsOf, StateAt, PlainDisk, MountedHere, OurSignature;
    var p := ProbeOf(ResultsOf(c, w));
    ProbeSees(c, w);
    DiskSeen(c, w, p);
    PathsSeen(c, w, p);
    BlankExactly(p, c.mount, c.fsLabel, c.binds);
    MountedHereFacts(c, w, c.Paths());
    NothingMounted(c, w);
    var here := MountedHere(c, w, c.Paths());
    assert here + w.elsewhere == [] <==> here == [] && w.elsewhere == [];
  }

  lemma NothingMounted(c: Config, w: World)
    requires Consistent(c, w)
    ensures w.disk == map[] ==> forall p :: p in c.Paths() ==> !RightlyMounted(c, p, StateAt(w, p))
    ensures w.disk == map[] ==> MountedHere(c, w, c.Paths()) == []
  {
    MountedHereFacts(c, w, c.Paths());
    var here := MountedHere(c, w, c.Paths());
    if here != [] {
      assert here[0] in here;
    }
  }

  lemma OnlyAllowedSeen(c: Config, w: World, p: Probe)
    requires ValidConfig(c) && Sees(c, w, p)
    ensures OnlyAllowedMounts(p, c.mount, c.binds) <==>
            forall point :: point in w.elsewhere ==> IsAllowed(point, c.Paths())
  {
    hide Signature, KName, SeesPath, Beneath, MountPoints;
    MountedHereFacts(c, w, c.Paths());
    var here := MountedHere(c, w, c.Paths());
    assert forall q :: q in here + w.elsewhere <==> q in here || q in w.elsewhere;
    forall q | q in here ensures IsAllowed(q, c.Paths()) {
      var i :| 0 <= i < |c.Paths()| && c.Paths()[i] == q;
      BeneathItself(q);
      assert Beneath(q, c.Paths()[i]);
    }
  }

  lemma BeneathItself(p: string)
    requires p != "" && p[|p| - 1] != '/'
    ensures Beneath(p, p)
  {
  }

  lemma OursInWorld(c: Config, w: World)
    requires ValidConfig(c) && Consistent(c, w)
    ensures VerdictOn(c, w).Ours? || VerdictOn(c, w).Ready? <==> OursWorld(c, w)
    ensures VerdictOn(c, w).Ready? <==> ReadyWorld(c, w)
  {
    hide Sees, MountPoints, PathsInOrder, WholeDisk, Signature, SplitSource, KName, HasPrjquota, Classified, ProbeOf,
         ResultsOf, StateAt, PlainDisk, OurSignature, OnlyAllowedMounts, RightlyMounted, HoldsOurs, MountedAsOurs;
    var p := ProbeOf(ResultsOf(c, w));
    ProbeSees(c, w);
    DiskSeen(c, w, p);
    PathsSeen(c, w, p);
    OnlyAllowedSeen(c, w, p);
    OursAndReadyExactly(p, c.mount, c.fsLabel, c.binds);
    forall q | q in c.Paths()
      ensures MountedAsOurs(p, q, c.mount, c.binds) ==> StateAt(w, q).fs.Some?
      ensures PathsInOrder(p, c.mount, c.binds) && StateAt(w, q).fs.Some? ==> MountedAsOurs(p, q, c.mount, c.binds)
    {
      OneSeen(c, w, p, q);
      MountedIsMounted(p, q, c.mount, c.binds);
      InOrderAt(p, q, c.mount, c.binds);
    }
  }

  lemma MountedIsMounted(p: Probe, q: string, mount: string, binds: seq<Bind>)
    requires p.lsblk.Some?
    ensures MountedAsOurs(p, q, mount, binds) ==> IsMounted(p.mounts, q)
  {
  }

  lemma InOrderAt(p: Probe, q: string, mount: string, binds: seq<Bind>)
    requires p.lsblk.Some? && q in Allowed(mount, binds)
    ensures PathsInOrder(p, mount, binds) && IsMounted(p.mounts, q) ==> MountedAsOurs(p, q, mount, binds)
  {
  }

  // -------------------------------------------------------------------------
  // Every history
  // -------------------------------------------------------------------------

  /** The role formats at most once, and what it formatted is its own. */
  ghost predicate Kept(c: Config, w: World) {
    Consistent(c, w) && w.formats <= 1 && (w.formats == 1 ==> HoldsOurs(c, w))
  }

  lemma RoleFsIsRight(c: Config, p: string)
    requires ValidConfig(c) && p in c.Paths()
    ensures FromDevice(c, Some(RoleFs(c, p)))
    ensures forall s: PathState :: RightlyMounted(c, p, Covered(c, s, p))
  {
    hide KName, HasPrjquota;
    NoNameNoDevice();
    if p == c.mount {
      PlainSource(c.dev);
    } else {
      AllowedIsMountOrTarget(c.mount, c.binds);
      SubdirKnown(p, c.binds);
      BindSource(c.dev, SubdirFor(p, c.binds));
    }
  }

  lemma PlainSource(dev: string)
    requires Trimmed(dev) && '[' !in dev
    ensures SplitSource(dev) == (dev, "/")
  {
    StripFacts(dev);
    FindFacts(dev, '[');
  }

  lemma {:induction false} SubdirKnown(p: string, binds: seq<Bind>)
    requires p in Targets(binds)
    requires forall i :: 0 <= i < |binds| ==> '\n' !in binds[i].subdir && binds[i].subdir != ""
    ensures '\n' !in SubdirFor(p, binds) && SubdirFor(p, binds) != ""
  {
    if binds[0].target != p {
      var i :| 0 <= i < |binds| && Targets(binds)[i] == p;
      assert Targets(binds[1..])[i - 1] == p;
      SubdirKnown(p, binds[1..]);
    }
  }

  /** The source findmnt prints for a bind mount splits into the device and the directory. */
  lemma BindSource(dev: string, sub: string)
    requires Trimmed(dev) && dev != "" && '[' !in dev && '\n' !in dev && '\n' !in sub && sub != ""
    ensures SplitSource(dev + "[/" + sub + "]") == (dev, "/" + sub)
  {
    var rest := "/" + sub + "]";
    var s := dev + ['['] + rest;
    assert dev + "[/" + sub + "]" == s;
    FindFirst(dev, '[', rest);
    StrippedSource(dev, rest);
    hide Strip, Find, SplitSource, Trimmed;
    assert '\n' !in s;
    assert s[..|dev|] == dev && s[|dev| + 1..|s| - 1] == "/" + sub;
    BracketSplits(s, |dev|);
  }

  lemma StrippedSource(dev: string, rest: string)
    requires Trimmed(dev) && dev != "" && rest != "" && rest[|rest| - 1] == ']'
    ensures Strip(dev + ['['] + rest) == dev + ['['] + rest
  {
    var s := dev + ['['] + rest;
    assert s[0] == dev[0] && s[|s| - 1] == ']';
    StripFacts(s);
    hide Strip;
  }

  lemma BracketSplits(s: string, i: nat)
    requires Strip(s) == s && Find(s, '[') == i && i + 2 < |s| && s[|s| - 1] == ']' && '\n' !in s
    ensures SplitSource(s) == (s[..i], s[i + 1..|s| - 1])
  {
    hide Strip, Find;
  }

  // --- the apply tasks --------------------------------------------------------

  /** On a node called blank the format keeps everything in place, and it loses something exactly when
      there is data on the device that shows no signature. */
  lemma FormatIsSafe(c: Config, w: World)
    requires ValidConfig(c) && Kept(c, w) && BlankWorld(c, w)
    ensures var v := Act(c, w, Format);
            && Kept(c, v) && OursWorld(c, v) && v.paths == w.paths && v.formats == 1 && Signed(v)
            && (v.harm <==> w.harm || w.deviceData)
  {
    var v := Act(c, w, Format);
    KeptIsConsistent(c, w);
    BlankIsEmpty(c, w);
    FormatKeeps(c, w);
    BlankHidesNothing(c, w);
    BlankThenOurs(c, w, v);
    hide *;
  }

  lemma BlankThenOurs(c: Config, w: World, v: World)
    requires BlankWorld(c, w) && v.paths == w.paths && v.kind == w.kind && v.children == w.children
    requires v.elsewhere == w.elsewhere && v.disk != map[] && HoldsOurs(c, v)
    ensures OursWorld(c, v)
  {
    hide HoldsOurs, Coverable, RightlyMounted, IsAllowed;
    forall p ensures StateAt(v, p) == StateAt(w, p) {}
  }

  /** The format of an empty device, whatever the paths hold. */
  lemma FormatKeeps(c: Config, w: World)
    requires ValidConfig(c) && Kept(c, w) && w.disk == map[]
    ensures var v := Act(c, w, Format);
            && Kept(c, v) && HoldsOurs(c, v) && v.disk != map[] && w.formats == 0 && v.formats == 1
               && v.paths == w.paths
            && v.kind == w.kind && v.children == w.children && v.elsewhere == w.elsewhere && Signed(v)
            && (v.harm <==> w.harm || w.deviceData || exists p :: p in w.paths && HoldsRootData(w.paths[p]))
  {
    var v := Act(c, w, Format);
    FreshExport(c);
    NotYetFormatted(c, w);
    hide ValidConfig, Consistent, HoldsOurs, Blkid.AllGood, OurExport, HoldsRootData;
    assert HoldsOurs(c, v);
    NewDisk(c, w, v);
  }

  /** Only the device's contents changed. */
  lemma NewDisk(c: Config, w: World, v: World)
    requires Consistent(c, w) && w.fstab == {}
    requires v.paths == w.paths && v.fstab == w.fstab
    requires v.elsewhere == w.elsewhere
    requires Blkid.AllGood(v.disk) && "DEVNAME" !in v.disk && v.disk != map[]
    ensures Consistent(c, v)
  {
    hide KName, SplitSource, Blkid.AllGood, FromDevice, HoldsOurs;
  }

  lemma NotYetFormatted(c: Config, w: World)
    requires Kept(c, w) && w.disk == map[]
    ensures w.formats == 0 && w.fstab == {}
  {
    hide KName, SplitSource, Blkid.AllGood, FromDevice;
    assert !HoldsOurs(c, w);
    hide HoldsOurs;
    if p :| p in w.fstab {
      assert false;
    }
  }

  lemma BlankIsEmpty(c: Config, w: World)
    requires BlankWorld(c, w)
    ensures w.disk == map[]
  {
    hide PlainDisk, Coverable;
  }

  lemma BlankHidesNothing(c: Config, w: World)
    requires Consistent(c, w) && BlankWorld(c, w)
    ensures forall p :: p in w.paths ==> !HoldsRootData(w.paths[p])
  {
    hide KName, SplitSource, IsAllowed, Blkid.AllGood, PlainDisk, HoldsOurs, FromDevice;
    forall p | p in w.paths ensures !HoldsRootData(w.paths[p]) {
      assert Coverable(StateAt(w, p));
    }
  }

  lemma FreshExport(c: Config)
    requires ValidConfig(c)
    ensures Blkid.AllGood(OurExport(c)) && "DEVNAME" !in OurExport(c) && OurExport(c) != map[]
    ensures forall w: World :: w.disk == OurExport(c) ==> HoldsOurs(c, w)
  {
    hide Blkid.GoodKey, Blkid.GoodValue, KName, HasPrjquota, Trimmed;
    LabelKeysGood();
    XfsIsGood();
    var e := OurExport(c);
    assert "TYPE" in e && forall k :: k in e ==> k == "TYPE" || k == "LABEL";
  }

  lemma XfsIsGood()
    ensures Blkid.GoodValue("xfs")
  {
  }

  lemma LabelKeysGood()
    ensures Blkid.GoodKey("TYPE") && Blkid.GoodKey("LABEL")
  {
    assert forall ch :: ch in "TYPE" ==> 'A' <= ch <= 'Z';
    assert forall ch :: ch in "LABEL" ==> 'A' <= ch <= 'Z';
    forall i | 0 <= i < |"TYPE"| ensures !Blkid.IsLineBreak("TYPE"[i]) { assert "TYPE"[i] in "TYPE"; }
    forall i | 0 <= i < |"LABEL"| ensures !Blkid.IsLineBreak("LABEL"[i]) { assert "LABEL"[i] in "LABEL"; }
  }

  /** Putting one path in place keeps everything in place, and the path is mounted afterwards. */
  lemma PlaceIsSafe(c: Config, w: World, p: string, a: Action)
    requires ValidConfig(c) && Kept(c, w) && OursWorld(c, w) && p in c.Paths()
    requires a == if StateAt(w, p).fs.Some? then Remember(p) else MountAt(p)
    ensures var v := Act(c, w, a);
            && Kept(c, v) && OursWorld(c, v) && v.fstab == w.fstab + {p} && v.formats == w.formats && v.harm == w.harm
            && StateAt(v, p).fs.Some?
            && forall q :: q != p ==> StateAt(v, q) == StateAt(w, q)
  {
    hide Kept, OursWorld;
    if StateAt(w, p).fs.Some? {
      RememberIsSafe(c, w, p);
    } else {
      MountIsSafe(c, w, p);
    }
  }

  lemma RememberIsSafe(c: Config, w: World, p: string)
    requires Kept(c, w) && OursWorld(c, w) && p in c.Paths() && StateAt(w, p).fs.Some?
    ensures var v := Act(c, w, Remember(p));
            Kept(c, v) && OursWorld(c, v) && v.paths == w.paths && v.harm == w.harm
  {
    hide KName, SplitSource, HasPrjquota, IsAllowed, Blkid.AllGood, SubdirFor, Get, RightlyMounted, FromDevice,
         HoldsOurs, PlainDisk;
    var v := Act(c, w, Remember(p));
    SameDisk(c, w, v);
    MountedFromDevice(c, p, w.paths[p]);
    forall q ensures StateAt(v, q) == StateAt(w, q) {}
  }

  lemma MountIsSafe(c: Config, w: World, p: string)
    requires ValidConfig(c) && Kept(c, w) && OursWorld(c, w) && p in c.Paths() && StateAt(w, p).fs.None?
    ensures var v := Act(c, w, MountAt(p));
            && Kept(c, v) && OursWorld(c, v) && StateAt(v, p).fs.Some? && v.harm == w.harm
            && forall q :: q != p ==> StateAt(v, q) == StateAt(w, q)
  {
    var v, s := Act(c, w, MountAt(p)), StateAt(w, p);
    KeptIsConsistent(c, w);
    MountHidesNothing(c, w, p);
    MountFields(c, w, p);
    hide Act, ValidConfig, Covered, RightlyMounted, HoldsOurs, PlainDisk, FromDevice, Consistent, OursWorld, StateAt,
         HoldsRootData;
    RoleFsIsRight(c, p);
    CoveredIsMounted(c, s, p);
    SameDisk(c, w, v);
    OnePathChanged(c, w, v, p, Covered(c, s, p));
    OnePathMounted(c, w, v, p, Covered(c, s, p));
  }

  lemma MountFields(c: Config, w: World, p: string)
    ensures var v := Act(c, w, MountAt(p));
            && OnlyPath(w, v, p, Covered(c, StateAt(w, p), p)) && v.formats == w.formats
            && v.harm == (w.harm || HoldsRootData(StateAt(w, p)))
  {
    hide Covered, StateAt, HoldsRootData;
  }

  lemma MountHidesNothing(c: Config, w: World, p: string)
    requires Consistent(c, w) && OursWorld(c, w) && p in c.Paths() && StateAt(w, p).fs.None?
    ensures !HoldsRootData(StateAt(w, p)) && w.disk != map[] && HoldsOurs(c, w) && PlainDisk(c, w)
  {
    hide PlainDisk, HoldsOurs, IsAllowed, FromDevice, Blkid.AllGood;
    NotRightly(c, p, StateAt(w, p));
    assert Coverable(StateAt(w, p)) || RightlyMounted(c, p, StateAt(w, p));
    hide RightlyMounted;
  }

  /** Mounting one path changes that path and its fstab entry only. */
  ghost predicate OnlyPath(w: World, v: World, p: string, s: PathState) {
    && v.paths == w.paths[p := s] && v.fstab == w.fstab + {p} && v.disk == w.disk && v.deviceData == w.deviceData
    && v.kind == w.kind && v.children == w.children && v.elsewhere == w.elsewhere
  }

  lemma OnePathChanged(c: Config, w: World, v: World, p: string, s: PathState)
    requires Consistent(c, w) && w.disk != map[] && p in c.Paths() && OnlyPath(w, v, p, s)
    requires HoldsOurs(c, w) && HoldsOurs(c, v) && FromDevice(c, s.fs) && s.kind != Absent
    ensures Consistent(c, v)
  {
    hide KName, SplitSource, Blkid.AllGood, FromDevice, HoldsOurs;
    forall q ensures q in v.paths <==> q in c.Paths() {}
    forall q | q in v.fstab ensures q in v.paths && FromDevice(c, v.paths[q].fs) {}
  }

  lemma OnePathMounted(c: Config, w: World, v: World, p: string, s: PathState)
    requires OursWorld(c, w) && OnlyPath(w, v, p, s) && RightlyMounted(c, p, s) && s.fs.Some?
    requires HoldsOurs(c, v) && PlainDisk(c, v)
    ensures OursWorld(c, v) && StateAt(v, p).fs.Some? && forall q :: q != p ==> StateAt(v, q) == StateAt(w, q)
  {
    hide RightlyMounted, HoldsOurs, PlainDisk, Coverable, IsAllowed;
    forall q | q != p ensures StateAt(v, q) == StateAt(w, q) {}
    assert StateAt(v, p) == s;
  }

  lemma SameDisk(c: Config, w: World, v: World)
    requires v.disk == w.disk && v.kind == w.kind && v.children == w.children && v.elsewhere == w.elsewhere
    ensures (HoldsOurs(c, v) <==> HoldsOurs(c, w)) && (PlainDisk(c, v) <==> PlainDisk(c, w))
  {
  }

  lemma MountedFromDevice(c: Config, p: string, s: PathState)
    requires RightlyMounted(c, p, s)
    ensures FromDevice(c, s.fs)
  {
  }

  lemma CoveredIsMounted(c: Config, s: PathState, p: string)
    ensures Covered(c, s, p).fs == Some(RoleFs(c, p)) && Covered(c, s, p).kind != Absent
  {
  }

  // --- a converge run, whole or cut short ---------------------------------------

  lemma PlanStep(w: World, v: World, paths: seq<string>)
    requires paths != [] && Ordering.Distinct(paths)
    requires forall q :: q != paths[0] ==> StateAt(v, q) == StateAt(w, q)
    ensures PlaceAll(w, paths) == [if StateAt(w, paths[0]).fs.Some? then Remember(paths[0]) else MountAt(paths[0])]
                                  + PlaceAll(v, paths[1..])
  {
    hide StateAt;
  }

  /** The paths are in place, and everything that was in place still is. */
  ghost predicate Placed(c: Config, w: World, v: World, paths: seq<string>) {
    && Kept(c, v) && OursWorld(c, v) && v.formats == w.formats && w.fstab <= v.fstab && v.harm == w.harm
    && (forall p :: p in paths ==> p in v.fstab && StateAt(v, p).fs.Some?)
    && (forall p :: StateAt(w, p).fs.Some? ==> StateAt(v, p).fs.Some?)
  }

  /** The placements of a run that may be cut short: the paths so far are mounted and in fstab, the others untouched. */
  lemma {:induction false} PlacementsAreSafe(c: Config, w: World, paths: seq<string>, n: nat)
    requires ValidConfig(c) && Kept(c, w) && OursWorld(c, w)
    requires Ordering.Distinct(paths) && (forall p :: p in paths ==> p in c.Paths())
    ensures Placed(c, w, ActAll(c, w, Cut(PlaceAll(w, paths), n)), Cut(paths, n))
    decreases |paths|
  {
    hide ValidConfig, Kept, OursWorld, StateAt, Act;
    if n == 0 || paths == [] {
      assert Cut(PlaceAll(w, paths), n) == [] && Cut(paths, n) == [];
    } else {
      var p := paths[0];
      var a := if StateAt(w, p).fs.Some? then Remember(p) else MountAt(p);
      var u := Act(c, w, a);
      PlaceIsSafe(c, w, p, a);
      PlanStep(w, u, paths);
      assert Cut(paths, n) == [p] + Cut(paths[1..], n - 1);
      hide PlaceAll, Cut, ActAll, Placed;
      FirstThenRest(c, w, a, PlaceAll(u, paths[1..]), n);
      PlacementsAreSafe(c, u, paths[1..], n - 1);
      PlacedFirst(c, w, u, ActAll(c, u, Cut(PlaceAll(u, paths[1..]), n - 1)), p, Cut(paths[1..], n - 1));
    }
  }

  lemma PlacedFirst(c: Config, w: World, u: World, v: World, p: string, rest: seq<string>)
    requires u.fstab == w.fstab + {p} && u.formats == w.formats && u.harm == w.harm && StateAt(u, p).fs.Some?
    requires (forall q :: q != p ==> StateAt(u, q) == StateAt(w, q)) && Placed(c, u, v, rest)
    ensures Placed(c, w, v, [p] + rest)
  {
    hide Kept, OursWorld, StateAt;
  }

  /** Every path mounted and remembered: what an uninterrupted run leaves. */
  ghost predicate Finished(c: Config, w: World) {
    ReadyWorld(c, w) && forall p :: p in c.Paths() ==> p in w.fstab
  }

  lemma DistinctPaths(c: Config)
    requires ValidConfig(c)
    ensures Ordering.Distinct(c.Paths())
  {
  }

  lemma {:induction false} ActLast(c: Config, w: World, actions: seq<Action>, a: Action)
    ensures ActAll(c, w, actions + [a]) == Act(c, ActAll(c, w, actions), a)
    decreases |actions|
  {
    hide Act;
    if actions == [] {
      assert actions + [a] == [a] && [a][1..] == [];
    } else {
      assert (actions + [a])[1..] == actions[1..] + [a];
      ActLast(c, Act(c, w, actions[0]), actions[1..], a);
    }
  }

  lemma {:induction false} OnlyTasks(n: nat)
    ensures |Only(n)| == n && TasksIn(Only(n)) == n && forall s :: s in Only(n) ==> s == Task
  {
    if n > 0 {
      OnlyTasks(n - 1);
      assert Only(n)[..n - 1] == Only(n - 1);
    }
  }

  lemma {:induction false} UndisturbedSteps(c: Config, w: World, plan: seq<Action>, n: nat)
    ensures RunSteps(c, w, plan, Only(n)) == ActAll(c, w, Cut(plan, n))
  {
    hide *;
    if n == 0 {
      NoTasks(c, w, plan);
    } else {
      UndisturbedSteps(c, w, plan, n - 1);
      OneMoreTask(c, w, plan, n);
      CutOneMore(plan, n);
      if n <= |plan| {
        ActLast(c, w, Cut(plan, n - 1), plan[n - 1]);
      }
    }
  }

  lemma NoTasks(c: Config, w: World, plan: seq<Action>)
    ensures RunSteps(c, w, plan, Only(0)) == w && ActAll(c, w, Cut(plan, 0)) == w
  {
    assert Cut(plan, 0) == [];
  }

  lemma CutOneMore(plan: seq<Action>, n: nat)
    requires n > 0
    ensures Cut(plan, n) == if n <= |plan| then Cut(plan, n - 1) + [plan[n - 1]] else Cut(plan, n - 1)
  {
  }

  lemma OneMoreTask(c: Config, w: World, plan: seq<Action>, n: nat)
    requires n > 0
    ensures var u := RunSteps(c, w, plan, Only(n - 1));
            RunSteps(c, w, plan, Only(n)) == if n <= |plan| then Act(c, u, plan[n - 1]) else u
  {
    hide Act, TasksIn;
    OnlyTasks(n - 1);
    OnlyTasks(n);
    assert Only(n)[..n - 1] == Only(n - 1) && Only(n)[n - 1] == Task;
  }

  lemma ConvergeRuns(c: Config, w: World, n: nat)
    ensures Happen(c, w, Converge(n)) == ActAll(c, w, Cut(Plan(c, w), n))
  {
    hide Plan, Only, RunSteps, ActAll, Cut;
    UndisturbedSteps(c, w, Plan(c, w), n);
  }

  lemma PlanByVerdict(c: Config, w: World)
    ensures var places := PlaceAll(w, c.Paths());
            && (VerdictOn(c, w).Refuse? ==> Plan(c, w) == [])
            && (VerdictOn(c, w).Blank? ==> Plan(c, w) == [Format] + places)
            && (VerdictOn(c, w).Ours? || VerdictOn(c, w).Ready? ==> Plan(c, w) == places)
  {
    hide VerdictOn, PlaceAll;
    assert [] + PlaceAll(w, c.Paths()) == PlaceAll(w, c.Paths());
  }

  /** On a node that is the role's already, a run that nothing disturbs is its placements. */
  lemma OursPlan(c: Config, w: World, n: nat)
    requires VerdictOn(c, w).Ours? || VerdictOn(c, w).Ready?
    ensures Happen(c, w, Converge(n)) == ActAll(c, w, Cut(PlaceAll(w, c.Paths()), n))
  {
    hide *;
    ConvergeRuns(c, w, n);
    PlanByVerdict(c, w);
  }

  lemma KeptIsConsistent(c: Config, w: World)
    requires Kept(c, w)
    ensures Consistent(c, w)
  {
  }

  lemma FirstThenRest(c: Config, w: World, first: Action, rest: seq<Action>, n: nat)
    requires n > 0
    ensures ActAll(c, w, Cut([first] + rest, n)) == ActAll(c, Act(c, w, first), Cut(rest, n - 1))
  {
    hide Act;
    assert Cut([first] + rest, n) == [first] + Cut(rest, n - 1);
    assert ([first] + Cut(rest, n - 1))[1..] == Cut(rest, n - 1);
  }

  lemma BlankPlan(c: Config, w: World, n: nat)
    requires VerdictOn(c, w) == Blank
    ensures Happen(c, w, Converge(n)) == ActAll(c, w, Cut([Format] + PlaceAll(w, c.Paths()), n))
  {
    hide *;
    ConvergeRuns(c, w, n);
    PlanByVerdict(c, w);
  }

  // --- the other events -----------------------------------------------------------

  lemma WriteIsSafe(c: Config, w: World, p: string)
    requires Kept(c, w)
    ensures var v := AfterWrite(c, w, p);
            && Kept(c, v) && v.formats == w.formats && v.harm == w.harm && v.disk == w.disk
            && (w.disk == map[] ==> v.deviceData == w.deviceData) && (Signed(w) ==> Signed(v))
  {
    var v := AfterWrite(c, w, p);
    if p in w.paths && w.paths[p].fs.None? {
      WriteFields(c, w, p);
      hide AfterWrite, FromDevice;
      WriteOnRoot(c, w, v, p);
    } else {
      WriteOnDevice(c, w, p);
    }
  }

  lemma WriteOnDevice(c: Config, w: World, p: string)
    requires Kept(c, w) && (p in w.paths ==> w.paths[p].fs.Some?)
    ensures var v := AfterWrite(c, w, p);
            && Kept(c, v) && v.formats == w.formats && v.harm == w.harm && v.disk == w.disk
            && (w.disk == map[] ==> v.deviceData == w.deviceData) && (Signed(w) ==> Signed(v))
  {
    hide KName, SplitSource, Blkid.AllGood, HoldsOurs, FromDevice;
    SameHoldsOurs(c, w, AfterWrite(c, w, p));
  }

  /** Only an unmounted path changed. */
  lemma WriteOnRoot(c: Config, w: World, v: World, p: string)
    requires Kept(c, w) && p in w.paths && w.paths[p].fs.None?
    requires v == w.(paths := v.paths) && v.paths.Keys == w.paths.Keys && v.paths[p].fs.None?
    requires forall q :: q in w.paths && q != p ==> v.paths[q] == w.paths[q]
    requires v.paths[p].kind == Absent ==> v.paths[p] == w.paths[p]
    ensures Kept(c, v)
  {
    SameHoldsOurs(c, w, v);
    NoneIsNotFromDevice(c);
    hide HoldsOurs, FromDevice;
    forall q | q in w.paths ensures SameMount(c, w.paths[q], v.paths[q]) {
      SoundPath(c, w, q);
      hide Consistent;
    }
    SameMounts(c, w, v);
  }

  /** The path is mounted from the device as before, and a path that is not there holds nothing. */
  ghost predicate SameMount(c: Config, s: PathState, t: PathState) {
    (FromDevice(c, t.fs) <==> FromDevice(c, s.fs)) && (t.kind == Absent ==> !t.full)
  }

  lemma SoundPath(c: Config, w: World, q: string)
    requires Kept(c, w) && q in w.paths
    ensures w.paths[q].kind == Absent ==> !w.paths[q].full
  {
    hide HoldsOurs, FromDevice, Blkid.AllGood;
  }

  lemma SameMounts(c: Config, w: World, v: World)
    requires Kept(c, w) && v == w.(paths := v.paths) && v.paths.Keys == w.paths.Keys
    requires forall q :: q in w.paths ==> SameMount(c, w.paths[q], v.paths[q])
    ensures Kept(c, v)
  {
    SameHoldsOurs(c, w, v);
    hide Blkid.AllGood, HoldsOurs, FromDevice, Allowed;
    forall q ensures q in v.paths <==> q in w.paths { assert q in v.paths.Keys <==> q in w.paths.Keys; }
  }

  lemma NoneIsNotFromDevice(c: Config)
    ensures !FromDevice(c, None)
  {
  }

  lemma WriteFields(c: Config, w: World, p: string)
    requires p in w.paths && w.paths[p].fs.None?
    ensures var v := AfterWrite(c, w, p);
            && v == w.(paths := v.paths) && v.paths.Keys == w.paths.Keys && v.paths[p].fs.None?
            && (forall q :: q in w.paths && q != p ==> v.paths[q] == w.paths[q])
            && (v.paths[p].kind == Absent ==> v.paths[p] == w.paths[p])
  {
    hide FromDevice;
  }

  lemma SameHoldsOurs(c: Config, w: World, v: World)
    requires v.disk == w.disk
    ensures HoldsOurs(c, v) <==> HoldsOurs(c, w)
  {
  }

  lemma VolumeIsSafe(c: Config, w: World, point: string)
    requires Kept(c, w)
    ensures var v := AfterVolume(c, w, point);
            && Kept(c, v) && v.formats == w.formats && v.harm == w.harm && (Signed(w) ==> Signed(v))
  {
    hide KName, SplitSource, Blkid.AllGood, HoldsOurs, IsAllowed;
    SameHoldsOurs(c, w, AfterVolume(c, w, point));
  }

  // --- a run that Docker's writes may fall into ------------------------------------

  /** The task meets something written since the probe: it mounts over that path, or formats the
      device that is to be mounted there. */
  ghost predicate Meets(a: Action, plan: seq<Action>, before: seq<Step>) {
    match a
    case Format => exists p :: Written(p) in before && MountAt(p) in plan
    case MountAt(p) => Written(p) in before
    case Remember(_) => false
  }

  ghost predicate RaceAt(plan: seq<Action>, steps: seq<Step>, j: int)
    requires 0 <= j < |steps|
  {
    var k := TasksIn(steps[..j]);
    steps[j] == Task && k < |plan| && Meets(plan[k], plan, steps[..j])
  }

  /** Some write falls between the probe and the mount of the path it wrote to. */
  ghost predicate Raced(plan: seq<Action>, steps: seq<Step>) {
    exists j :: 0 <= j < |steps| && RaceAt(plan, steps, j)
  }

  /** The run has a format to do, and gets to it. */
  predicate Formats(plan: seq<Action>, steps: seq<Step>) {
    plan != [] && plan[0] == Format && TasksIn(steps) > 0
  }

  function Target(a: Action): Option<string> {
    match a case Format => None case MountAt(p) => Some(p) case Remember(p) => Some(p)
  }

  /** The plan formats at most first, and names each path once. */
  ghost predicate Orderly(c: Config, plan: seq<Action>) {
    && (forall i, j :: 0 <= i < j < |plan| ==> Target(plan[i]) != Target(plan[j]))
    && (forall i :: 1 <= i < |plan| ==> plan[i] != Format)
    && (plan != [] && plan[0] == Format ==> forall p :: p in c.Paths() ==> MountAt(p) in plan)
  }

  /** What the probe saw of a path still holds when its task comes, but for what was written there. */
  ghost predicate Due(c: Config, u: World, a: Action, steps: seq<Step>) {
    match a
    case Format => true
    case Remember(p) => p in c.Paths() && FromDevice(c, StateAt(u, p).fs)
    case MountAt(p) => p in c.Paths() && Waiting(StateAt(u, p), Written(p) in steps)
  }

  ghost predicate Waiting(s: PathState, written: bool) {
    s.fs.None? && (s.kind == Absent || (s.kind == Directory && s.listable)) && (s.full <==> written)
  }

  ghost predicate MidRun(c: Config, w: World, u: World, plan: seq<Action>, steps: seq<Step>) {
    var k := TasksIn(steps);
    && Kept(c, u)
    && (k < |plan| && plan[k] == Format ==> u.disk == map[] && u.deviceData == w.deviceData)
    && (k < |plan| && plan[k] != Format ==> u.disk != map[] && HoldsOurs(c, u))
    && (forall i :: k <= i < |plan| ==> Due(c, u, plan[i], steps))
  }

  lemma PlanIsOrderly(c: Config, w: World)
    requires ValidConfig(c) && Consistent(c, w)
    ensures Orderly(c, Plan(c, w))
  {
    hide *;
    DistinctPaths(c);
    PlacesEach(c, w);
    PlanByVerdict(c, w);
    BlankInWorld(c, w);
    if BlankWorld(c, w) {
      BlankPlaces(c, w);
      FormatFirst(c, PlaceAll(w, c.Paths()));
    } else if VerdictOn(c, w).Refuse? {
      NoPlan(c);
    }
  }

  lemma NoPlan(c: Config)
    ensures Orderly(c, [])
  {
  }

  lemma PlacesEach(c: Config, w: World)
    requires Ordering.Distinct(c.Paths())
    ensures var places := PlaceAll(w, c.Paths());
            Orderly(c, places) && forall i :: 0 <= i < |places| ==> places[i] != Format
  {
    hide StateAt, Allowed;
  }

  lemma BlankPlaces(c: Config, w: World)
    requires BlankWorld(c, w)
    ensures forall p :: p in c.Paths() ==> MountAt(p) in PlaceAll(w, c.Paths())
  {
    hide StateAt;
    forall p | p in c.Paths() ensures MountAt(p) in PlaceAll(w, c.Paths()) {
      var i :| 0 <= i < |c.Paths()| && c.Paths()[i] == p;
      assert Coverable(StateAt(w, p));
      assert PlaceAll(w, c.Paths())[i] == MountAt(p);
    }
  }

  lemma FormatFirst(c: Config, places: seq<Action>)
    requires Orderly(c, places) && forall i :: 0 <= i < |places| ==> places[i] != Format
    requires forall p :: p in c.Paths() ==> MountAt(p) in places
    ensures Orderly(c, [Format] + places)
  {
    var plan := [Format] + places;
    forall i, j | 0 <= i < j < |plan| ensures Target(plan[i]) != Target(plan[j]) {
      assert plan[j] == places[j - 1];
      if i > 0 {
        assert plan[i] == places[i - 1];
      }
    }
    forall p | p in c.Paths() ensures MountAt(p) in plan { assert MountAt(p) in places; }
  }

  lemma PlanStarts(c: Config, w: World)
    requires ValidConfig(c) && Kept(c, w)
    ensures MidRun(c, w, w, Plan(c, w), [])
    ensures Plan(c, w) != [] && Plan(c, w)[0] == Format ==> BlankWorld(c, w)
  {
    hide *;
    KeptIsConsistent(c, w);
    BlankInWorld(c, w);
    OursInWorld(c, w);
    PlanByVerdict(c, w);
    PlacesOnly(w, c.Paths());
    if BlankWorld(c, w) {
      PlacesAreDue(c, w, c.Paths());
      BlankStarts(c, w, PlaceAll(w, c.Paths()));
    } else if OursWorld(c, w) {
      PlacesAreDue(c, w, c.Paths());
      OursStarts(c, w, PlaceAll(w, c.Paths()));
    } else {
      RefusedStarts(c, w);
    }
  }

  lemma BlankStarts(c: Config, w: World, places: seq<Action>)
    requires Kept(c, w) && BlankWorld(c, w) && forall i :: 0 <= i < |places| ==> Due(c, w, places[i], [])
    ensures MidRun(c, w, w, [Format] + places, [])
  {
    hide Kept, StateAt, FromDevice, PlainDisk;
    var plan := [Format] + places;
    forall i | 0 <= i < |plan| ensures Due(c, w, plan[i], []) {
      if i > 0 { assert plan[i] == places[i - 1]; }
    }
    hide Due;
  }

  lemma OursStarts(c: Config, w: World, places: seq<Action>)
    requires Kept(c, w) && OursWorld(c, w) && forall i :: 0 <= i < |places| ==> Due(c, w, places[i], [])
    requires forall i :: 0 <= i < |places| ==> places[i] != Format
    ensures MidRun(c, w, w, places, [])
  {
    hide Kept, Due, HoldsOurs, PlainDisk, Coverable, RightlyMounted, IsAllowed;
  }

  lemma RefusedStarts(c: Config, w: World)
    requires Kept(c, w)
    ensures MidRun(c, w, w, [], [])
  {
    hide Kept;
  }

  lemma PlacesOnly(w: World, paths: seq<string>)
    ensures forall i :: 0 <= i < |PlaceAll(w, paths)| ==> PlaceAll(w, paths)[i] != Format
  {
    hide StateAt;
  }

  lemma PlacesAreDue(c: Config, w: World, paths: seq<string>)
    requires Consistent(c, w) && (BlankWorld(c, w) || OursWorld(c, w)) && forall p :: p in paths ==> p in c.Paths()
    ensures forall i :: 0 <= i < |PlaceAll(w, paths)| ==> Due(c, w, PlaceAll(w, paths)[i], [])
  {
    forall i | 0 <= i < |PlaceAll(w, paths)| ensures Due(c, w, PlaceAll(w, paths)[i], []) {
      assert paths[i] in paths;
      PlaceIsDue(c, w, paths[i]);
    }
  }

  lemma PlaceIsDue(c: Config, w: World, p: string)
    requires Consistent(c, w) && (BlankWorld(c, w) || OursWorld(c, w)) && p in c.Paths()
    ensures Due(c, w, if StateAt(w, p).fs.Some? then Remember(p) else MountAt(p), [])
  {
    hide KName, SplitSource, HasPrjquota, SubdirFor, Blkid.AllGood, HoldsOurs, PlainDisk, IsAllowed;
    var s := StateAt(w, p);
    assert Coverable(s) || RightlyMounted(c, p, s);
    assert s.kind == Absent ==> !s.full;
    if s.fs.Some? {
      MountedFromDevice(c, p, s);
    }
  }

  /** What a task, a write and a mount each do in the middle of a run. */
  ghost predicate StepKeeps(c: Config, w: World, u: World, plan: seq<Action>, before: seq<Step>, s: Step) {
    var k := TasksIn(before);
    var v := TakeStep(c, u, plan, k, s);
    var first := s == Task && k < |plan| && plan[k] == Format;
    && MidRun(c, w, v, plan, before + [s])
    && v.formats == u.formats + (if first then 1 else 0)
    && (v.harm <==> u.harm || (first && w.deviceData) || (s == Task && k < |plan| && Meets(plan[k], plan, before)))
    && (Signed(u) ==> Signed(v))
  }

  lemma TasksOneMore(before: seq<Step>, s: Step)
    ensures TasksIn(before + [s]) == TasksIn(before) + (if s == Task then 1 else 0)
    ensures forall p :: Written(p) in before + [s] <==> Written(p) in before || s == Written(p)
  {
    assert (before + [s])[..|before|] == before;
  }

  lemma TaskKeeps(c: Config, w: World, u: World, plan: seq<Action>, before: seq<Step>)
    requires ValidConfig(c) && Orderly(c, plan) && MidRun(c, w, u, plan, before)
    ensures StepKeeps(c, w, u, plan, before, Task)
  {
    var k := TasksIn(before);
    TasksOneMore(before, Task);
    hide ValidConfig, Orderly, Kept, HoldsOurs, TasksIn, StepKeeps, Act;
    if k >= |plan| {
      NothingLeft(c, w, u, plan, before);
    } else {
      hide MidRun;
      match plan[k]
      case Format => FormatStep(c, w, u, plan, before);
      case MountAt(p) => MountStep(c, w, u, plan, before, p);
      case Remember(p) => RememberStep(c, w, u, plan, before, p);
    }
  }

  lemma NothingLeft(c: Config, w: World, u: World, plan: seq<Action>, before: seq<Step>)
    requires MidRun(c, w, u, plan, before) && TasksIn(before) >= |plan|
    ensures StepKeeps(c, w, u, plan, before, Task)
  {
    TasksOneMore(before, Task);
    hide Kept, HoldsOurs, TasksIn, Due, Meets;
  }

  /** The device is still empty when the format comes. */
  lemma FormatStep(c: Config, w: World, u: World, plan: seq<Action>, before: seq<Step>)
    requires ValidConfig(c) && Orderly(c, plan) && MidRun(c, w, u, plan, before)
    requires TasksIn(before) < |plan| && plan[TasksIn(before)] == Format
    ensures StepKeeps(c, w, u, plan, before, Task)
  {
    var k, v := TasksIn(before), Act(c, u, Format);
    TasksOneMore(before, Task);
    hide ValidConfig, TasksIn, Act, HoldsOurs, Meets;
    KeptIsConsistent(c, u);
    FormatKeeps(c, u);
    FormatMeets(c, u, plan, before, k);
    hide Kept, Consistent, HoldsRootData;
    assert k == 0;
    forall q ensures StateAt(v, q) == StateAt(u, q) {}
    RestIsDue(c, u, v, plan, before, k);
    hide StateAt, Due;
  }

  /** A path holds entries by now exactly when it was written to since the probe. */
  lemma FormatMeets(c: Config, u: World, plan: seq<Action>, before: seq<Step>, k: nat)
    requires Consistent(c, u) && Orderly(c, plan) && k < |plan| && plan[k] == Format
    requires forall i :: k <= i < |plan| ==> Due(c, u, plan[i], before)
    ensures Meets(Format, plan, before) <==> exists p :: p in u.paths && HoldsRootData(u.paths[p])
  {
    assert k == 0;
    forall p | p in u.paths ensures HoldsRootData(u.paths[p]) <==> Written(p) in before {
      AllToMount(c, u, plan, before, p);
    }
    hide HoldsRootData, Due;
    forall p | MountAt(p) in plan ensures p in u.paths {
      MountsAPath(c, u, plan, before, p);
    }
    forall p | p in u.paths ensures MountAt(p) in plan { assert p in c.Paths(); }
  }

  lemma AllToMount(c: Config, u: World, plan: seq<Action>, before: seq<Step>, p: string)
    requires Orderly(c, plan) && plan != [] && plan[0] == Format && p in c.Paths() && p in u.paths
    requires forall i :: 0 <= i < |plan| ==> Due(c, u, plan[i], before)
    ensures HoldsRootData(u.paths[p]) <==> Written(p) in before
  {
    var i :| 0 <= i < |plan| && plan[i] == MountAt(p);
    assert Due(c, u, plan[i], before);
  }

  lemma MountsAPath(c: Config, u: World, plan: seq<Action>, before: seq<Step>, p: string)
    requires Consistent(c, u) && MountAt(p) in plan
    requires forall i :: 0 <= i < |plan| ==> Due(c, u, plan[i], before)
    ensures p in u.paths
  {
    hide KName, SplitSource, Blkid.AllGood, HoldsOurs, FromDevice, Waiting;
    var i :| 0 <= i < |plan| && plan[i] == MountAt(p);
    assert Due(c, u, plan[i], before);
  }

  /** A task that does not concern the path leaves it as it was. */
  lemma SameDue(c: Config, u: World, v: World, a: Action, before: seq<Step>, s: Step)
    requires Due(c, u, a, before) && (a.Format? || (StateAt(v, a.path) == StateAt(u, a.path) && s != Written(a.path)))
    ensures Due(c, v, a, before + [s])
  {
    TasksOneMore(before, s);
    hide StateAt, FromDevice, Waiting, TasksIn;
  }

  /** A task leaves the tasks after it due. */
  lemma RestIsDue(c: Config, u: World, v: World, plan: seq<Action>, before: seq<Step>, k: nat)
    requires Orderly(c, plan) && k < |plan| && forall i :: k <= i < |plan| ==> Due(c, u, plan[i], before)
    requires forall q :: Target(plan[k]) != Some(q) ==> StateAt(v, q) == StateAt(u, q)
    ensures forall i :: k + 1 <= i < |plan| ==> Due(c, v, plan[i], before + [Task])
  {
    hide StateAt, Due;
    forall i | k + 1 <= i < |plan| ensures Due(c, v, plan[i], before + [Task]) {
      assert Target(plan[k]) != Target(plan[i]);
      assert Due(c, u, plan[i], before);
      SameDue(c, u, v, plan[i], before, Task);
    }
  }

  lemma NextIsDue(c: Config, w: World, v: World, plan: seq<Action>, before: seq<Step>)
    requires Orderly(c, plan) && Kept(c, v) && v.disk != map[] && HoldsOurs(c, v) && TasksIn(before) < |plan|
    requires forall i :: TasksIn(before) + 1 <= i < |plan| ==> Due(c, v, plan[i], before + [Task])
    ensures MidRun(c, w, v, plan, before + [Task])
  {
    TasksOneMore(before, Task);
    hide Kept, HoldsOurs, TasksIn, Due, Target;
  }

  lemma MountStep(c: Config, w: World, u: World, plan: seq<Action>, before: seq<Step>, p: string)
    requires ValidConfig(c) && Orderly(c, plan) && MidRun(c, w, u, plan, before)
    requires TasksIn(before) < |plan| && plan[TasksIn(before)] == MountAt(p)
    ensures StepKeeps(c, w, u, plan, before, Task)
  {
    var k, v := TasksIn(before), Act(c, u, MountAt(p));
    TasksOneMore(before, Task);
    hide ValidConfig, TasksIn, Act, HoldsOurs, StateAt, Consistent;
    MountOfDue(c, u, p, before, plan[k]);
    RestIsDue(c, u, v, plan, before, k);
    NextIsDue(c, w, v, plan, before);
    hide Due, Orderly, Kept, Target, AfterWrite, AfterVolume, MidRun;
  }

  /** The mount of a path that waits for it. */
  lemma MountOfDue(c: Config, u: World, p: string, before: seq<Step>, a: Action)
    requires ValidConfig(c) && Kept(c, u) && u.disk != map[] && HoldsOurs(c, u) && a == MountAt(p)
             && Due(c, u, a, before)
    ensures var v := Act(c, u, a);
            && Kept(c, v) && HoldsOurs(c, v) && v.disk == u.disk && v.deviceData == u.deviceData
               && v.formats == u.formats
            && (v.harm <==> u.harm || Written(p) in before)
            && forall q :: q != p ==> StateAt(v, q) == StateAt(u, q)
  {
    var v, s := Act(c, u, a), StateAt(u, p);
    MountFields(c, u, p);
    hide Act, ValidConfig, Covered, FromDevice, HoldsOurs, Consistent;
    RoleFsIsRight(c, p);
    CoveredIsMounted(c, s, p);
    SameHoldsOurs(c, u, v);
    OnePathChanged(c, u, v, p, Covered(c, s, p));
  }

  lemma RememberStep(c: Config, w: World, u: World, plan: seq<Action>, before: seq<Step>, p: string)
    requires ValidConfig(c) && Orderly(c, plan) && MidRun(c, w, u, plan, before)
    requires TasksIn(before) < |plan| && plan[TasksIn(before)] == Remember(p)
    ensures StepKeeps(c, w, u, plan, before, Task)
  {
    var k, v := TasksIn(before), Act(c, u, Remember(p));
    TasksOneMore(before, Task);
    hide ValidConfig, TasksIn, Act, HoldsOurs, StateAt, Consistent;
    RememberOfDue(c, u, p, before, plan[k]);
    RestIsDue(c, u, v, plan, before, k);
    NextIsDue(c, w, v, plan, before);
    hide Due, Orderly, Kept, Target, AfterWrite, AfterVolume, MidRun;
  }

  /** The fstab entry of a path that is mounted. */
  lemma RememberOfDue(c: Config, u: World, p: string, before: seq<Step>, a: Action)
    requires Kept(c, u) && HoldsOurs(c, u) && a == Remember(p) && Due(c, u, a, before)
    ensures var v := Act(c, u, a);
            && Kept(c, v) && HoldsOurs(c, v) && v.disk == u.disk && v.deviceData == u.deviceData
               && v.formats == u.formats
            && v.harm == u.harm && forall q :: StateAt(v, q) == StateAt(u, q)
  {
    var v := Act(c, u, a);
    hide FromDevice, HoldsOurs, Consistent;
    SameHoldsOurs(c, u, v);
    Remembered(c, u, p);
  }

  lemma SamePaths(u: World, v: World, a: Action)
    requires v.paths == u.paths
    ensures a.Format? || StateAt(v, a.path) == StateAt(u, a.path)
  {
  }

  lemma Remembered(c: Config, u: World, p: string)
    requires Consistent(c, u) && HoldsOurs(c, u) && p in c.Paths() && FromDevice(c, StateAt(u, p).fs)
    ensures Consistent(c, Act(c, u, Remember(p)))
  {
    hide KName, SplitSource, Blkid.AllGood, FromDevice, HoldsOurs;
    SameHoldsOurs(c, u, Act(c, u, Remember(p)));
  }

  lemma WriteKeeps(c: Config, w: World, u: World, plan: seq<Action>, before: seq<Step>, p: string)
    requires MidRun(c, w, u, plan, before)
    ensures StepKeeps(c, w, u, plan, before, Written(p))
  {
    var k, v := TasksIn(before), AfterWrite(c, u, p);
    TasksOneMore(before, Written(p));
    KeptIsConsistent(c, u);
    WriteIsSafe(c, u, p);
    SameHoldsOurs(c, u, v);
    hide AfterWrite, TasksIn, Kept, HoldsOurs, Meets;
    forall i | k <= i < |plan| ensures Due(c, v, plan[i], before + [Written(p)]) {
      assert Due(c, u, plan[i], before);
      WrittenDue(c, u, plan[i], before, p);
    }
    hide Due, Consistent;
  }

  /** A write fills a directory that waits for its mount, and changes no mount. */
  lemma WrittenDue(c: Config, u: World, a: Action, before: seq<Step>, p: string)
    requires Consistent(c, u) && Due(c, u, a, before)
    ensures Due(c, AfterWrite(c, u, p), a, before + [Written(p)])
  {
    TasksOneMore(before, Written(p));
    hide KName, SplitSource, Blkid.AllGood, HoldsOurs, TasksIn;
    if !a.Format? && a.path != p {
      WriteElsewhere(c, u, p, a.path);
      hide AfterWrite, StateAt, FromDevice;
    } else if a.Remember? {
      hide FromDevice;
    }
  }

  lemma WriteElsewhere(c: Config, u: World, p: string, q: string)
    requires p != q
    ensures StateAt(AfterWrite(c, u, p), q) == StateAt(u, q)
  {
    hide FromDevice;
  }

  lemma VolumeKeeps(c: Config, w: World, u: World, plan: seq<Action>, before: seq<Step>, point: string)
    requires MidRun(c, w, u, plan, before)
    ensures StepKeeps(c, w, u, plan, before, Mounted(point))
  {
    var v := AfterVolume(c, u, point);
    MidRunIsKept(c, w, u, plan, before);
    VolumeIsSafe(c, u, point);
    VolumeFields(c, u, point);
    SameHoldsOurs(c, u, v);
    VolumeMidRun(c, w, u, v, plan, before, point);
    hide AfterVolume, TasksIn, MidRun, Meets;
  }

  lemma VolumeMidRun(c: Config, w: World, u: World, v: World, plan: seq<Action>, before: seq<Step>, point: string)
    requires MidRun(c, w, u, plan, before) && Kept(c, v) && v == u.(elsewhere := v.elsewhere)
    requires HoldsOurs(c, v) <==> HoldsOurs(c, u)
    ensures MidRun(c, w, v, plan, before + [Mounted(point)])
  {
    TasksOneMore(before, Mounted(point));
    hide TasksIn, Kept, HoldsOurs, StateAt, Due;
    forall i | TasksIn(before) <= i < |plan| ensures Due(c, v, plan[i], before + [Mounted(point)]) {
      assert Due(c, u, plan[i], before);
      SamePaths(u, v, plan[i]);
      SameDue(c, u, v, plan[i], before, Mounted(point));
    }
  }

  lemma AnyStepKeeps(c: Config, w: World, u: World, plan: seq<Action>, before: seq<Step>, s: Step)
    requires ValidConfig(c) && Orderly(c, plan) && MidRun(c, w, u, plan, before)
    ensures StepKeeps(c, w, u, plan, before, s)
  {
    hide ValidConfig, Orderly, MidRun, StepKeeps;
    match s
    case Task => TaskKeeps(c, w, u, plan, before);
    case Written(p) => WriteKeeps(c, w, u, plan, before, p);
    case Mounted(point) => VolumeKeeps(c, w, u, plan, before, point);
  }

  lemma RacedLast(plan: seq<Action>, before: seq<Step>, s: Step)
    ensures Raced(plan, before + [s])
            <==> Raced(plan, before)
                 || (s == Task && TasksIn(before) < |plan| && Meets(plan[TasksIn(before)], plan, before))
  {
    hide Meets, TasksIn;
    var steps, n := before + [s], |before|;
    assert steps[..n] == before && steps[n] == s;
    forall j | 0 <= j < n ensures RaceAt(plan, steps, j) <==> RaceAt(plan, before, j) {
      assert steps[..j] == before[..j] && steps[j] == before[j];
    }
    assert RaceAt(plan, steps, n)
           <==> s == Task && TasksIn(before) < |plan| && Meets(plan[TasksIn(before)], plan, before);
    hide RaceAt;
  }

  lemma {:induction false} RunKeeps(c: Config, w: World, plan: seq<Action>, steps: seq<Step>)
    requires ValidConfig(c) && Orderly(c, plan) && MidRun(c, w, w, plan, [])
    ensures var v := RunSteps(c, w, plan, steps);
            && MidRun(c, w, v, plan, steps) && v.formats == w.formats + (if Formats(plan, steps) then 1 else 0)
            && (v.harm <==> w.harm || (Formats(plan, steps) && w.deviceData) || Raced(plan, steps))
            && (Signed(w) ==> Signed(v))
    decreases |steps|
  {
    hide ValidConfig, MidRun, Meets, TakeStep, Signed;
    if steps == [] {
    } else {
      var before, s := steps[..|steps| - 1], steps[|steps| - 1];
      assert steps == before + [s];
      RunKeeps(c, w, plan, before);
      AnyStepKeeps(c, w, RunSteps(c, w, plan, before), plan, before, s);
      TasksOneMore(before, s);
      RacedLast(plan, before, s);
      hide Raced, TasksIn;
      FormatsLast(c, plan, before, s);
    }
  }

  lemma FormatsLast(c: Config, plan: seq<Action>, before: seq<Step>, s: Step)
    requires Orderly(c, plan)
    ensures var k := TasksIn(before);
            var first := s == Task && k < |plan| && plan[k] == Format;
            && (Formats(plan, before + [s]) <==> Formats(plan, before) || first)
            && !(Formats(plan, before) && first)
  {
    TasksOneMore(before, s);
    hide TasksIn;
  }

  /** A run, whatever Docker does between its tasks: it formats exactly when it gets to the format of a
      blank node, and it loses something exactly when that format meets data that shows no signature,
      or a path was written to between the probe and its mount. */
  lemma RunIsSafe(c: Config, w: World, steps: seq<Step>)
    requires ValidConfig(c) && Kept(c, w)
    ensures var plan, v := Plan(c, w), Happen(c, w, Run(steps));
            && Kept(c, v)
            && v.formats == w.formats + (if Formats(plan, steps) then 1 else 0)
            && (Formats(plan, steps) <==> BlankWorld(c, w) && TasksIn(steps) > 0)
            && (v.harm <==> w.harm || (Formats(plan, steps) && w.deviceData) || Raced(plan, steps))
            && (Signed(w) ==> Signed(v))
  {
    KeptIsConsistent(c, w);
    PlanIsOrderly(c, w);
    PlanStarts(c, w);
    BlankHasFormat(c, w);
    hide Plan, Orderly, ValidConfig, Kept, BlankWorld, Raced, TasksIn, RunSteps, Signed, Consistent;
    RunKeeps(c, w, Plan(c, w), steps);
    MidRunIsKept(c, w, Happen(c, w, Run(steps)), Plan(c, w), steps);
  }

  lemma MidRunIsKept(c: Config, w: World, u: World, plan: seq<Action>, steps: seq<Step>)
    requires MidRun(c, w, u, plan, steps)
    ensures Kept(c, u)
  {
  }

  lemma BlankHasFormat(c: Config, w: World)
    requires ValidConfig(c) && Consistent(c, w)
    ensures BlankWorld(c, w) ==> Plan(c, w) != [] && Plan(c, w)[0] == Format
  {
    hide *;
    BlankInWorld(c, w);
    PlanByVerdict(c, w);
  }

  lemma VolumeFields(c: Config, w: World, point: string)
    ensures var v := AfterVolume(c, w, point); v == w.(elsewhere := v.elsewhere)
  {
    hide IsAllowed, FromDevice;
  }

  // --- what a run leaves, disturbed or cut short ---------------------------------------

  /** What a task put in place. */
  ghost predicate Settled(c: Config, u: World, a: Action) {
    a.Format? || (a.path in u.fstab && RightlyMounted(c, a.path, StateAt(u, a.path)))
  }

  /** The device as the role wants it: whole, and mounted nowhere else. */
  ghost predicate Undivided(c: Config, u: World) {
    PlainDisk(c, u) && forall point :: point in u.elsewhere ==> IsAllowed(point, c.Paths())
  }

  /** After `k` tasks: the device is the role's unless its format is still to come, what the tasks did is in
      place, and what the probe found mounted still is. */
  ghost predicate InPlace(c: Config, u: World, plan: seq<Action>, k: nat) {
    && Undivided(c, u)
    && (plan != [] && (k > 0 || plan[0] != Format) ==> u.disk != map[] && HoldsOurs(c, u))
    && (forall i :: 0 <= i < |plan| && i < k ==> Settled(c, u, plan[i]))
    && (forall i :: k <= i < |plan| && plan[i].Remember? ==> RightlyMounted(c, plan[i].path, StateAt(u, plan[i].path)))
  }

  /** Whatever is rightly mounted stays so. */
  ghost predicate Leaves(c: Config, u: World, v: World) {
    u.fstab <= v.fstab && forall q :: RightlyMounted(c, q, StateAt(u, q)) ==> StateAt(v, q) == StateAt(u, q)
  }

  lemma NextInPlace(c: Config, u: World, v: World, plan: seq<Action>, k: nat, next: nat)
    requires InPlace(c, u, plan, k) && Leaves(c, u, v) && Undivided(c, v) && (next == k || next == k + 1)
    requires next > k && k < |plan| ==> Settled(c, v, plan[k])
    requires plan != [] && (next > 0 || plan[0] != Format) ==> v.disk != map[] && HoldsOurs(c, v)
    ensures InPlace(c, v, plan, next)
  {
    hide Undivided, HoldsOurs, RightlyMounted, StateAt;
    forall i | 0 <= i < |plan| && i < k ensures Settled(c, v, plan[i]) { assert Settled(c, u, plan[i]); }
  }

  lemma TaskInPlace(c: Config, w: World, u: World, plan: seq<Action>, before: seq<Step>)
    requires ValidConfig(c) && Orderly(c, plan) && MidRun(c, w, u, plan, before) && InPlace(c, u, plan, TasksIn(before))
    ensures var k := TasksIn(before); InPlace(c, TakeStep(c, u, plan, k, Task), plan, k + 1)
  {
    var k := TasksIn(before);
    hide ValidConfig, Orderly, MidRun, InPlace, TasksIn, Act;
    if k >= |plan| {
      NoTaskInPlace(c, u, plan, k);
    } else {
      match plan[k]
      case Format => FormatInPlace(c, w, u, plan, before);
      case MountAt(p) => MountInPlace(c, w, u, plan, before, p);
      case Remember(p) => RememberInPlace(c, u, plan, k, p);
    }
  }

  lemma NoTaskInPlace(c: Config, u: World, plan: seq<Action>, k: nat)
    requires InPlace(c, u, plan, k) && k >= |plan|
    ensures InPlace(c, u, plan, k + 1)
  {
    hide Undivided, HoldsOurs, RightlyMounted, StateAt, Settled;
  }

  lemma SameUndivided(c: Config, u: World, v: World)
    requires Undivided(c, u) && v.kind == u.kind && v.children == u.children && v.elsewhere == u.elsewhere
    ensures Undivided(c, v)
  {
    hide IsAllowed;
  }

  lemma FormatInPlace(c: Config, w: World, u: World, plan: seq<Action>, before: seq<Step>)
    requires ValidConfig(c) && Orderly(c, plan) && MidRun(c, w, u, plan, before) && InPlace(c, u, plan, TasksIn(before))
    requires TasksIn(before) < |plan| && plan[TasksIn(before)] == Format
    ensures InPlace(c, Act(c, u, Format), plan, TasksIn(before) + 1)
  {
    hide *;
    var k, v := TasksIn(before), Act(c, u, Format);
    EmptyBeforeFormat(c, w, u, plan, before);
    FormatKeeps(c, u);
    FormatKeepsTable(c, u);
    InPlaceIsUndivided(c, u, plan, k);
    SameUndivided(c, u, v);
    SamePathsLeave(c, u, v);
    FormatSettled(c, v);
    NextInPlace(c, u, v, plan, k, k + 1);
  }

  lemma EmptyBeforeFormat(c: Config, w: World, u: World, plan: seq<Action>, before: seq<Step>)
    requires MidRun(c, w, u, plan, before) && TasksIn(before) < |plan| && plan[TasksIn(before)] == Format
    ensures Kept(c, u) && u.disk == map[]
  {
    hide Kept, Due, TasksIn;
  }

  lemma FormatSettled(c: Config, v: World)
    ensures Settled(c, v, Format)
  {
  }

  lemma SamePathsLeave(c: Config, u: World, v: World)
    requires v.paths == u.paths && u.fstab <= v.fstab
    ensures Leaves(c, u, v)
  {
    hide RightlyMounted;
    forall q ensures StateAt(v, q) == StateAt(u, q) {}
  }

  lemma FormatKeepsTable(c: Config, u: World)
    ensures Act(c, u, Format).fstab == u.fstab
  {
  }

  lemma MountInPlace(c: Config, w: World, u: World, plan: seq<Action>, before: seq<Step>, p: string)
    requires ValidConfig(c) && Orderly(c, plan) && MidRun(c, w, u, plan, before) && InPlace(c, u, plan, TasksIn(before))
    requires TasksIn(before) < |plan| && plan[TasksIn(before)] == MountAt(p)
    ensures InPlace(c, Act(c, u, MountAt(p)), plan, TasksIn(before) + 1)
  {
    hide *;
    var k, v := TasksIn(before), Act(c, u, MountAt(p));
    NowDue(c, w, u, plan, before);
    MountLeaves(c, u, p, before);
    SameHoldsOurs(c, u, v);
    InPlaceIsUndivided(c, u, plan, k);
    SameUndivided(c, u, v);
    NextInPlace(c, u, v, plan, k, k + 1);
  }

  lemma NowDue(c: Config, w: World, u: World, plan: seq<Action>, before: seq<Step>)
    requires MidRun(c, w, u, plan, before) && TasksIn(before) < |plan| && plan[TasksIn(before)] != Format
    ensures Due(c, u, plan[TasksIn(before)], before) && u.disk != map[] && HoldsOurs(c, u)
  {
    hide Kept, Due, TasksIn, HoldsOurs;
  }

  /** A mount puts its own path in place and leaves the others. */
  lemma MountLeaves(c: Config, u: World, p: string, before: seq<Step>)
    requires ValidConfig(c) && Due(c, u, MountAt(p), before)
    ensures var v := Act(c, u, MountAt(p));
            && Leaves(c, u, v) && Settled(c, v, MountAt(p)) && v.disk == u.disk && v.kind == u.kind
            && v.children == u.children && v.elsewhere == u.elsewhere
  {
    var v := Act(c, u, MountAt(p));
    MountFields(c, u, p);
    RoleFsIsRight(c, p);
    NotRightly(c, p, StateAt(u, p));
    hide Act, ValidConfig, Covered, RightlyMounted;
    assert StateAt(v, p) == Covered(c, StateAt(u, p), p);
    forall q | q != p ensures StateAt(v, q) == StateAt(u, q) {}
  }

  lemma RememberInPlace(c: Config, u: World, plan: seq<Action>, k: nat, p: string)
    requires InPlace(c, u, plan, k) && k < |plan| && plan[k] == Remember(p) && Orderly(c, plan)
    ensures InPlace(c, Act(c, u, Remember(p)), plan, k + 1)
  {
    var v := Act(c, u, Remember(p));
    RememberFields(c, u, p);
    SameHoldsOurs(c, u, v);
    FirstIsNoFormat(c, plan, k);
    hide Act, HoldsOurs, Undivided, RightlyMounted, Orderly, Leaves, StateAt;
    SameUndivided(c, u, v);
    SamePathsLeave(c, u, v);
    NextInPlace(c, u, v, plan, k, k + 1);
  }

  lemma RememberFields(c: Config, u: World, p: string)
    ensures Act(c, u, Remember(p)) == u.(fstab := u.fstab + {p})
  {
  }

  lemma FirstIsNoFormat(c: Config, plan: seq<Action>, k: nat)
    requires Orderly(c, plan) && k < |plan| && plan[k] != Format
    ensures k > 0 || plan[0] != Format
  {
  }

  lemma WriteInPlace(c: Config, u: World, plan: seq<Action>, k: nat, p: string)
    requires InPlace(c, u, plan, k)
    ensures InPlace(c, AfterWrite(c, u, p), plan, k)
  {
    var v := AfterWrite(c, u, p);
    WriteLeaves(c, u, p);
    SameHoldsOurs(c, u, v);
    hide AfterWrite, HoldsOurs, Undivided, RightlyMounted, StateAt, Leaves;
    SameUndivided(c, u, v);
    NextInPlace(c, u, v, plan, k, k);
  }

  lemma WriteLeaves(c: Config, u: World, p: string)
    ensures var v := AfterWrite(c, u, p);
            && Leaves(c, u, v) && v.disk == u.disk && v.kind == u.kind && v.children == u.children
            && v.elsewhere == u.elsewhere
  {
    hide FromDevice, RightlyMounted;
    forall q | RightlyMounted(c, q, StateAt(u, q)) ensures StateAt(AfterWrite(c, u, p), q) == StateAt(u, q) {
      RightlyIsMounted(c, q, StateAt(u, q));
    }
  }

  lemma RightlyIsMounted(c: Config, q: string, s: PathState)
    requires RightlyMounted(c, q, s)
    ensures s.fs.Some?
  {
  }

  lemma VolumeInPlace(c: Config, u: World, plan: seq<Action>, k: nat, point: string)
    requires InPlace(c, u, plan, k)
    ensures InPlace(c, AfterVolume(c, u, point), plan, k)
  {
    var v := AfterVolume(c, u, point);
    VolumeFields(c, u, point);
    VolumeUndivided(c, u, point);
    SameHoldsOurs(c, u, v);
    hide AfterVolume, HoldsOurs, Undivided, RightlyMounted;
    hide Leaves, StateAt;
    SamePathsLeave(c, u, v);
    NextInPlace(c, u, v, plan, k, k);
  }

  lemma VolumeUndivided(c: Config, u: World, point: string)
    requires Undivided(c, u)
    ensures Undivided(c, AfterVolume(c, u, point))
  {
    hide IsAllowed, FromDevice;
  }

  lemma PlanBegins(c: Config, w: World)
    requires ValidConfig(c) && Consistent(c, w) && !VerdictOn(c, w).Refuse?
    ensures InPlace(c, w, Plan(c, w), 0) && Plan(c, w) != []
    ensures forall p :: p in c.Paths() ==> exists i :: 0 <= i < |Plan(c, w)| && Target(Plan(c, w)[i]) == Some(p)
    ensures |Plan(c, w)| <= |c.Paths()| + 1
  {
    hide *;
    BlankInWorld(c, w);
    OursInWorld(c, w);
    PlanByVerdict(c, w);
    PlacesAll(c, w);
    if BlankWorld(c, w) {
      BlankBegins(c, w, PlaceAll(w, c.Paths()));
    } else {
      OursBegins(c, w);
    }
  }

  lemma PlacesAll(c: Config, w: World)
    ensures |PlaceAll(w, c.Paths())| == |c.Paths()| > 0
    ensures forall i :: 0 <= i < |c.Paths()| ==>
              PlaceAll(w, c.Paths())[i]
              == if StateAt(w, c.Paths()[i]).fs.Some? then Remember(c.Paths()[i]) else MountAt(c.Paths()[i])
    ensures forall p :: p in c.Paths() ==>
              exists i :: 0 <= i < |c.Paths()| && Target(PlaceAll(w, c.Paths())[i]) == Some(p)
  {
    hide StateAt, Targets;
    forall p | p in c.Paths() ensures exists i :: 0 <= i < |c.Paths()| && Target(PlaceAll(w, c.Paths())[i]) == Some(p) {
      var i :| 0 <= i < |c.Paths()| && c.Paths()[i] == p;
      assert Target(PlaceAll(w, c.Paths())[i]) == Some(p);
    }
  }

  lemma BlankBegins(c: Config, w: World, places: seq<Action>)
    requires BlankWorld(c, w) && |places| == |c.Paths()|
    requires forall i :: 0 <= i < |places| ==>
               places[i] == if StateAt(w, c.Paths()[i]).fs.Some? then Remember(c.Paths()[i]) else MountAt(c.Paths()[i])
    requires forall p :: p in c.Paths() ==> exists i :: 0 <= i < |places| && Target(places[i]) == Some(p)
    ensures InPlace(c, w, [Format] + places, 0)
    ensures var plan := [Format] + places;
            forall p :: p in c.Paths() ==> exists i :: 0 <= i < |plan| && Target(plan[i]) == Some(p)
  {
    var plan := [Format] + places;
    OneLater(c, places);
    hide StateAt, RightlyMounted, HoldsOurs, PlainDisk, IsAllowed, Target, Allowed;
    forall i | 0 < i < |plan| ensures !plan[i].Remember? {
      assert plan[i] == places[i - 1] && c.Paths()[i - 1] in c.Paths();
      assert Coverable(StateAt(w, c.Paths()[i - 1]));
    }
  }

  lemma OneLater(c: Config, places: seq<Action>)
    requires forall p :: p in c.Paths() ==> exists i :: 0 <= i < |places| && Target(places[i]) == Some(p)
    ensures var plan := [Format] + places;
            forall p :: p in c.Paths() ==> exists i :: 0 <= i < |plan| && Target(plan[i]) == Some(p)
  {
    hide Target, Allowed;
    var plan := [Format] + places;
    forall p | p in c.Paths() ensures exists i :: 0 <= i < |plan| && Target(plan[i]) == Some(p) {
      var i :| 0 <= i < |places| && Target(places[i]) == Some(p);
      assert plan[i + 1] == places[i];
    }
  }

  lemma OursBegins(c: Config, w: World)
    requires OursWorld(c, w)
    requires |PlaceAll(w, c.Paths())| == |c.Paths()| > 0
    requires forall i :: 0 <= i < |c.Paths()| ==>
               PlaceAll(w, c.Paths())[i]
               == if StateAt(w, c.Paths()[i]).fs.Some? then Remember(c.Paths()[i]) else MountAt(c.Paths()[i])
    ensures InPlace(c, w, PlaceAll(w, c.Paths()), 0)
  {
    hide StateAt, RightlyMounted, HoldsOurs, PlainDisk, IsAllowed, PlaceAll, Allowed;
    var plan := PlaceAll(w, c.Paths());
    forall i | 0 <= i < |plan| && plan[i].Remember? ensures RightlyMounted(c, plan[i].path, StateAt(w, plan[i].path)) {
      assert c.Paths()[i] in c.Paths();
      assert Coverable(StateAt(w, c.Paths()[i])) || RightlyMounted(c, c.Paths()[i], StateAt(w, c.Paths()[i]));
    }
  }

  lemma StepInPlace(c: Config, w: World, u: World, plan: seq<Action>, before: seq<Step>, s: Step)
    requires ValidConfig(c) && Orderly(c, plan) && MidRun(c, w, u, plan, before) && InPlace(c, u, plan, TasksIn(before))
    ensures InPlace(c, TakeStep(c, u, plan, TasksIn(before), s), plan, TasksIn(before + [s]))
  {
    TasksOneMore(before, s);
    var k := TasksIn(before);
    hide ValidConfig, Orderly, MidRun, InPlace, Act, AfterWrite, AfterVolume, TasksIn;
    match s
    case Task => TaskInPlace(c, w, u, plan, before);
    case Written(p) => WriteInPlace(c, u, plan, k, p);
    case Mounted(point) => VolumeInPlace(c, u, plan, k, point);
  }

  lemma {:induction false} RunInPlace(c: Config, w: World, plan: seq<Action>, steps: seq<Step>)
    requires ValidConfig(c) && Orderly(c, plan) && MidRun(c, w, w, plan, []) && InPlace(c, w, plan, 0)
    ensures InPlace(c, RunSteps(c, w, plan, steps), plan, TasksIn(steps))
    decreases |steps|
  {
    hide ValidConfig, Orderly, MidRun, InPlace, TakeStep, Raced;
    if steps != [] {
      var before, s := steps[..|steps| - 1], steps[|steps| - 1];
      assert steps == before + [s];
      RunKeeps(c, w, plan, before);
      RunInPlace(c, w, plan, before);
      StepInPlace(c, w, RunSteps(c, w, plan, before), plan, before, s);
    }
  }

  /** A path was written to, and its mount is still to come. */
  ghost predicate LeftWritten(plan: seq<Action>, steps: seq<Step>) {
    exists i :: TasksIn(steps) <= i < |plan| && plan[i].MountAt? && Written(plan[i].path) in steps
  }

  lemma AbsentIsEmpty(c: Config, v: World, p: string)
    requires Kept(c, v)
    ensures StateAt(v, p).kind == Absent ==> !StateAt(v, p).full
  {
    hide HoldsOurs, FromDevice, Blkid.AllGood;
  }

  /** A planned path is rightly mounted, or waits for its mount as the writes left it. */
  lemma PathAfterRun(c: Config, w: World, v: World, plan: seq<Action>, steps: seq<Step>, i: nat, p: string)
    requires MidRun(c, w, v, plan, steps) && InPlace(c, v, plan, TasksIn(steps)) && i < |plan|
             && Target(plan[i]) == Some(p)
    ensures i < TasksIn(steps) || !plan[i].MountAt? ==> RightlyMounted(c, p, StateAt(v, p))
    ensures i >= TasksIn(steps) && plan[i].MountAt? ==>
              (Coverable(StateAt(v, p)) <==> Written(p) !in steps) && !RightlyMounted(c, p, StateAt(v, p))
    ensures i < TasksIn(steps) ==> p in v.fstab
  {
    MidRunIsKept(c, w, v, plan, steps);
    AbsentIsEmpty(c, v, p);
    NotRightly(c, p, StateAt(v, p));
    hide TasksIn, Kept, HoldsOurs, Undivided, FromDevice, StateAt, RightlyMounted;
    if i >= TasksIn(steps) {
      assert Due(c, v, plan[i], steps);
    } else {
      assert Settled(c, v, plan[i]);
    }
  }

  lemma BootedFromDevice(c: Config, w: World, kept: set<string>, p: string)
    requires ValidConfig(c) && p in c.Paths() && p in w.paths
    ensures p in w.fstab ==> FromDevice(c, AfterBoot(c, w, kept, p).fs)
    ensures FromDevice(c, AfterBoot(c, w, kept, p).fs) ==> p in w.fstab || FromDevice(c, w.paths[p].fs)
    ensures (w.paths[p].kind == Absent ==> !w.paths[p].full)
            ==> (AfterBoot(c, w, kept, p).kind == Absent ==> !AfterBoot(c, w, kept, p).full)
  {
    RoleFsIsRight(c, p);
  }

  /** A reboot leaves the device alone and mounts nothing from it but what fstab lists. */
  ghost predicate Booted(c: Config, w: World, v: World) {
    && v.disk == w.disk && v.deviceData == w.deviceData && v.fstab == w.fstab && v.paths.Keys == w.paths.Keys
    && (v.elsewhere == w.elsewhere || v.elsewhere == []) && v.formats == w.formats
    && forall p :: p in w.paths ==>
         && (p in w.fstab ==> FromDevice(c, v.paths[p].fs))
         && (FromDevice(c, v.paths[p].fs) ==> p in w.fstab || FromDevice(c, w.paths[p].fs))
         && (v.paths[p].kind == Absent ==> !v.paths[p].full)
  }

  lemma BootedIsConsistent(c: Config, w: World, v: World)
    requires Consistent(c, w) && Booted(c, w, v)
    ensures Consistent(c, v)
  {
    hide KName, SplitSource, Blkid.AllGood, HoldsOurs, FromDevice;
    SameHoldsOurs(c, w, v);
    forall p ensures p in v.paths <==> p in c.Paths() { assert p in v.paths.Keys <==> p in w.paths.Keys; }
  }

  /** What a reboot changes. */
  lemma BootFields(c: Config, w: World, kept: set<string>, keep: bool)
    ensures var v := Happen(c, w, Reboot(kept, keep));
            && v.disk == w.disk && v.deviceData == w.deviceData && v.fstab == w.fstab && v.formats == w.formats
            && v.kind == w.kind && v.children == w.children && v.paths.Keys == w.paths.Keys
            && (v.elsewhere == w.elsewhere || v.elsewhere == [])
            && (forall p :: p in w.paths ==> v.paths[p] == AfterBoot(c, w, kept, p))
  {
    hide AfterBoot, HoldsRootData;
  }

  lemma BootBoots(c: Config, w: World, kept: set<string>, keep: bool)
    requires ValidConfig(c) && Consistent(c, w)
    ensures Booted(c, w, Happen(c, w, Reboot(kept, keep)))
  {
    var v := Happen(c, w, Reboot(kept, keep));
    BootFields(c, w, kept, keep);
    hide Happen, ValidConfig, KName, SplitSource, Blkid.AllGood, HoldsOurs, AfterBoot, FromDevice, HoldsRootData;
    forall p | p in w.paths
      ensures p in w.fstab ==> FromDevice(c, v.paths[p].fs)
      ensures FromDevice(c, v.paths[p].fs) ==> p in w.fstab || FromDevice(c, w.paths[p].fs)
      ensures v.paths[p].kind == Absent ==> !v.paths[p].full
    {
      BootedFromDevice(c, w, kept, p);
    }
    hide Consistent;
  }

  lemma BootIsSafe(c: Config, w: World, kept: set<string>, keep: bool)
    requires ValidConfig(c) && Kept(c, w)
    ensures var v := Happen(c, w, Reboot(kept, keep));
            && Kept(c, v) && v.formats == w.formats && v.fstab == w.fstab && v.harm == w.harm
            && (Signed(w) ==> Signed(v))
  {
    var v := Happen(c, w, Reboot(kept, keep));
    KeptIsConsistent(c, w);
    BootHarmless(c, w, kept, keep);
    BootFields(c, w, kept, keep);
    BootBoots(c, w, kept, keep);
    hide Happen, ValidConfig, Consistent, HoldsOurs, Booted, AfterBoot;
    SameHoldsOurs(c, w, v);
    BootedIsConsistent(c, w, v);
  }

  lemma BootHarmless(c: Config, w: World, kept: set<string>, keep: bool)
    requires Consistent(c, w)
    ensures Happen(c, w, Reboot(kept, keep)).harm == w.harm
  {
    NoDataUnderFstab(c, w);
    hide Consistent, AfterBoot, HoldsRootData;
  }

  lemma NoDataUnderFstab(c: Config, w: World)
    requires Consistent(c, w)
    ensures forall p :: p in w.paths && p in w.fstab ==> !HoldsRootData(w.paths[p])
  {
    hide KName, SplitSource, Blkid.AllGood, HoldsOurs;
  }

  /** An event in which the role loses something. */
  ghost predicate Loses(c: Config, w: World, e: Event) {
    e.Run? && ((w.deviceData && Formats(Plan(c, w), e.steps)) || Raced(Plan(c, w), e.steps))
  }

  lemma EventIsSafe(c: Config, w: World, e: Event)
    requires ValidConfig(c) && Kept(c, w)
    ensures var v := Happen(c, w, e);
            && Kept(c, v) && (Signed(w) ==> Signed(v))
            && (v.harm <==> w.harm || Loses(c, w, e))
            && v.formats >= w.formats && (v.formats > w.formats ==> e.Run? && BlankWorld(c, w))
  {
    hide Kept, ValidConfig, AfterWrite, AfterVolume, BlankWorld, Signed, Raced, Plan, RunSteps, Formats;
    match e
    case Run(steps) => RunIsSafe(c, w, steps);
    case DockerWrite(p) => WriteIsSafe(c, w, p);
    case VolumeMount(point) => VolumeIsSafe(c, w, point);
    case Reboot(kept, keep) => BootIsSafe(c, w, kept, keep);
  }

  // -------------------------------------------------------------------------
  // The main results
  // -------------------------------------------------------------------------

  /** A node the role has not touched yet; `Consistent` is all that is known of its disk and its paths. */
  ghost predicate Untouched(c: Config, w: World) {
    Consistent(c, w) && w.formats == 0 && !w.harm
  }

  ghost predicate LosesAt(c: Config, w: World, es: seq<Event>, k: int)
    requires 0 <= k < |es|
  {
    Loses(c, History(c, w, es[..k]), es[k])
  }

  ghost predicate RacedAt(c: Config, w: World, es: seq<Event>, k: int)
    requires 0 <= k < |es|
  {
    es[k].Run? && Raced(Plan(c, History(c, w, es[..k])), es[k].steps)
  }

  /** Over every history of runs, crashes, reboots and writes, from any node the role has not touched:
      the disk is formatted at most once, and what was formatted stays the role's. Where data on the
      device always shows a signature, something is lost exactly when a path was written to between the
      probe of a run and the mount of that path. */
  lemma NeverHarmed(c: Config, w: World, es: seq<Event>)
    requires ValidConfig(c) && Untouched(c, w)
    ensures var v := History(c, w, es);
            && v.formats <= 1 && (v.formats == 1 ==> HoldsOurs(c, v))
            && (Signed(w) ==> (v.harm <==> exists k :: 0 <= k < |es| && RacedAt(c, w, es, k)))
  {
    HarmExactly(c, w, es);
    HistoryIsSafe(c, w, es);
    if Signed(w) {
      forall k | 0 <= k < |es| ensures LosesAt(c, w, es, k) <==> RacedAt(c, w, es, k) {
        HistoryIsSafe(c, w, es[..k]);
        SignedFormatsSafely(c, History(c, w, es[..k]), es[k]);
      }
    }
    hide ValidConfig, Consistent, History, HoldsOurs, LosesAt, RacedAt;
  }

  /** What the classifier cannot see: on a node it calls blank, the format loses something exactly when the
      device holds data that shows no signature. */
  lemma FormatLosesExactly(c: Config, w: World)
    requires ValidConfig(c) && Kept(c, w) && !w.harm && VerdictOn(c, w) == Blank
    ensures Act(c, w, Format).harm <==> w.deviceData
  {
    hide *;
    KeptIsConsistent(c, w);
    BlankInWorld(c, w);
    FormatIsSafe(c, w);
  }

  lemma SignedFormatsSafely(c: Config, w: World, e: Event)
    requires ValidConfig(c) && Kept(c, w) && Signed(w)
    ensures Loses(c, w, e) <==> e.Run? && Raced(Plan(c, w), e.steps)
  {
    hide ValidConfig, Kept, Raced, Plan, TasksIn;
    if e.Run? {
      PlanStarts(c, w);
    }
  }

  /** Every loss is one of the two: a format of data that shows no signature, or a path written to
      between the probe of a run and its mount. */
  lemma {:induction false} HarmExactly(c: Config, w: World, es: seq<Event>)
    requires ValidConfig(c) && Kept(c, w)
    ensures History(c, w, es).harm <==> w.harm || exists k :: 0 <= k < |es| && LosesAt(c, w, es, k)
    decreases |es|
  {
    hide ValidConfig, Kept, Happen, Loses, Signed, BlankWorld;
    if es != [] {
      var n := |es| - 1;
      HarmExactly(c, w, es[..n]);
      HistoryIsSafe(c, w, es[..n]);
      EventIsSafe(c, History(c, w, es[..n]), es[n]);
      forall k | 0 <= k < n ensures LosesAt(c, w, es, k) <==> LosesAt(c, w, es[..n], k) {
        assert es[..n][..k] == es[..k];
      }
      assert LosesAt(c, w, es, n) <==> Loses(c, History(c, w, es[..n]), es[n]);
      hide LosesAt;
    }
  }

  lemma {:induction false} HistoryIsSafe(c: Config, w: World, es: seq<Event>)
    requires ValidConfig(c) && Kept(c, w)
    ensures Kept(c, History(c, w, es)) && (Signed(w) ==> Signed(History(c, w, es)))
    decreases |es|
  {
    hide ValidConfig, Kept, Happen, Signed;
    if es != [] {
      HistoryIsSafe(c, w, es[..|es| - 1]);
      EventIsSafe(c, History(c, w, es[..|es| - 1]), es[|es| - 1]);
    }
  }

  lemma OursAfterRun(c: Config, w: World, v: World, plan: seq<Action>, steps: seq<Step>)
    requires MidRun(c, w, v, plan, steps) && InPlace(c, v, plan, TasksIn(steps)) && Orderly(c, plan) && plan != []
    requires forall p :: p in c.Paths() ==> exists i :: 0 <= i < |plan| && Target(plan[i]) == Some(p)
    requires TasksIn(steps) > 0 || plan[0] != Format
    ensures v.disk != map[] && (OursWorld(c, v) <==> !LeftWritten(plan, steps))
    ensures TasksIn(steps) >= |plan| ==> Finished(c, v)
  {
    hide TasksIn, HoldsOurs, PlainDisk, IsAllowed, RightlyMounted, Coverable, StateAt, MidRun, Kept, Settled, Allowed;
    forall p | p in c.Paths()
      ensures exists i :: 0 <= i < |plan| && Target(plan[i]) == Some(p)
                && (Coverable(StateAt(v, p)) || RightlyMounted(c, p, StateAt(v, p))
                    <==> i < TasksIn(steps) || !plan[i].MountAt? || Written(p) !in steps)
                && (TasksIn(steps) >= |plan| ==> p in v.fstab && StateAt(v, p).fs.Some?)
    {
      var i :| 0 <= i < |plan| && Target(plan[i]) == Some(p);
      PathAfterRun(c, w, v, plan, steps, i, p);
      if TasksIn(steps) >= |plan| {
        RightlyIsMounted(c, p, StateAt(v, p));
      }
    }
    if LeftWritten(plan, steps) {
      var i :| TasksIn(steps) <= i < |plan| && plan[i].MountAt? && Written(plan[i].path) in steps;
      PlannedPath(c, w, v, plan, steps, i);
      PathAfterRun(c, w, v, plan, steps, i, plan[i].path);
    }
    hide InPlace, Orderly;
    assert Undivided(c, v) by { InPlaceIsUndivided(c, v, plan, TasksIn(steps)); }
  }

  lemma InPlaceIsUndivided(c: Config, v: World, plan: seq<Action>, k: nat)
    requires InPlace(c, v, plan, k)
    ensures Undivided(c, v)
  {
    hide Undivided, Settled, RightlyMounted, HoldsOurs;
  }

  lemma PlannedPath(c: Config, w: World, v: World, plan: seq<Action>, steps: seq<Step>, i: nat)
    requires MidRun(c, w, v, plan, steps) && TasksIn(steps) <= i < |plan| && plan[i].MountAt?
    ensures plan[i].path in c.Paths()
  {
    hide Kept, HoldsOurs, TasksIn, Waiting;
    assert Due(c, v, plan[i], steps);
  }

  /** Before its format a blank node is still blank, but for what was written to it. */
  lemma BlankAfterRun(c: Config, w: World, v: World, plan: seq<Action>, steps: seq<Step>)
    requires MidRun(c, w, v, plan, steps) && InPlace(c, v, plan, TasksIn(steps)) && Orderly(c, plan) && plan != []
    requires TasksIn(steps) == 0 && plan[0] == Format
    ensures v.disk == map[] && (BlankWorld(c, v) <==> !LeftWritten(plan, steps))
  {
    NothingElsewhere(c, v);
    hide TasksIn, HoldsOurs, PlainDisk, IsAllowed, RightlyMounted, Coverable, StateAt, Kept, Settled, Allowed, Due;
    forall p | p in c.Paths() ensures MountAt(p) in plan && (Coverable(StateAt(v, p)) <==> Written(p) !in steps) {
      var i :| 0 <= i < |plan| && plan[i] == MountAt(p);
      PathAfterRun(c, w, v, plan, steps, i, p);
    }
    if LeftWritten(plan, steps) {
      var i :| TasksIn(steps) <= i < |plan| && plan[i].MountAt? && Written(plan[i].path) in steps;
      PlannedPath(c, w, v, plan, steps, i);
    }
  }

  lemma NothingElsewhere(c: Config, v: World)
    requires Kept(c, v)
    ensures v.disk == map[] ==> v.elsewhere == []
  {
    hide HoldsOurs, FromDevice, Blkid.AllGood;
  }

  /** What any run that is not refused leaves, whatever Docker does between its tasks and wherever it dies. The
      next verdict refuses exactly when a path was written to and its mount did not come; once the device is
      formatted it is never blank again; and a run that does all its tasks finishes the node, so that even a
      path mounted over what was just written shows no more. */
  lemma RunFinishes(c: Config, w: World, steps: seq<Step>)
    requires ValidConfig(c) && Kept(c, w) && !VerdictOn(c, w).Refuse?
    ensures var plan, v := Plan(c, w), Happen(c, w, Run(steps));
            && Kept(c, v)
            && (VerdictOn(c, v).Refuse? <==> LeftWritten(plan, steps))
            && (VerdictOn(c, v).Blank? ==> VerdictOn(c, w).Blank? && TasksIn(steps) == 0)
            && (TasksIn(steps) >= |plan| ==> Finished(c, v) && VerdictOn(c, v) == Ready)
            && |plan| <= |c.Paths()| + 1
  {
    hide *;
    var plan, v := Plan(c, w), Happen(c, w, Run(steps));
    KeptIsConsistent(c, w);
    RunIsSafe(c, w, steps);
    KeptIsConsistent(c, v);
    BlankInWorld(c, v);
    OursInWorld(c, v);
    PlanIsOrderly(c, w);
    PlanStarts(c, w);
    PlanBegins(c, w);
    RunKeeps(c, w, plan, steps);
    RunInPlace(c, w, plan, steps);
    RunIsItsSteps(c, w, steps);
    BlankFirst(c, w);
    if TasksIn(steps) > 0 || plan[0] != Format {
      OursAfterRun(c, w, v, plan, steps);
      OursIsNotBlank(c, v);
      FinishedIsReady(c, v);
    } else {
      BlankAfterRun(c, w, v, plan, steps);
      OursIsNotBlank(c, v);
    }
  }

  lemma RunIsItsSteps(c: Config, w: World, steps: seq<Step>)
    ensures Happen(c, w, Run(steps)) == RunSteps(c, w, Plan(c, w), steps)
  {
    hide Plan, RunSteps;
  }

  lemma BlankFirst(c: Config, w: World)
    requires !VerdictOn(c, w).Refuse?
    ensures Plan(c, w) != [] && Plan(c, w)[0] == Format ==> VerdictOn(c, w).Blank?
  {
    PlanByVerdict(c, w);
    PlacesOnly(w, c.Paths());
    hide VerdictOn, Plan, PlaceAll;
  }

  lemma OursIsNotBlank(c: Config, v: World)
    ensures BlankWorld(c, v) ==> v.disk == map[]
    ensures OursWorld(c, v) ==> v.disk != map[]
  {
    hide PlainDisk, Coverable, HoldsOurs, RightlyMounted, IsAllowed;
  }

  lemma FinishedIsReady(c: Config, v: World)
    ensures Finished(c, v) ==> ReadyWorld(c, v)
  {
    hide ReadyWorld;
  }

  lemma FinishedStays(c: Config, w: World, e: Event)
    requires ValidConfig(c) && Kept(c, w) && Finished(c, w)
    ensures Finished(c, Happen(c, w, e)) && Happen(c, w, e).formats == w.formats
  {
    KeptIsConsistent(c, w);
    hide Kept, ValidConfig, Consistent, Finished, AfterWrite, AfterVolume, RunSteps, Plan;
    match e
    case Run(steps) =>
      FinishedPlan(c, w);
      FinishedRun(c, w, Plan(c, w), steps);
    case DockerWrite(p) => WriteFinished(c, w, p);
    case VolumeMount(point) => VolumeFinished(c, w, point);
    case Reboot(kept, keep) => BootFinished(c, w, kept, keep);
  }

  /** A run on a finished node only writes its fstab entries again. */
  ghost predicate Remembers(c: Config, plan: seq<Action>) {
    forall i :: 0 <= i < |plan| ==> plan[i].Remember? && plan[i].path in c.Paths()
  }

  lemma FinishedPlan(c: Config, w: World)
    requires ValidConfig(c) && Consistent(c, w) && Finished(c, w)
    ensures Remembers(c, Plan(c, w))
  {
    OursInWorld(c, w);
    AllRemembered(c, w);
    PlanByVerdict(c, w);
    hide VerdictOn, ValidConfig, Consistent, PlaceAll, OursWorld, Plan, Remembers;
  }

  lemma AllRemembered(c: Config, w: World)
    requires Finished(c, w)
    ensures Remembers(c, PlaceAll(w, c.Paths()))
  {
    hide StateAt, OursWorld;
    forall i | 0 <= i < |c.Paths()| ensures StateAt(w, c.Paths()[i]).fs.Some? { assert c.Paths()[i] in c.Paths(); }
  }

  lemma {:induction false} FinishedRun(c: Config, w: World, plan: seq<Action>, steps: seq<Step>)
    requires Kept(c, w) && Finished(c, w) && Remembers(c, plan)
    ensures var v := RunSteps(c, w, plan, steps); Kept(c, v) && Finished(c, v) && v.formats == w.formats
    decreases |steps|
  {
    hide Kept, Finished, AfterWrite, AfterVolume, Act, TasksIn;
    if steps != [] {
      var before := steps[..|steps| - 1];
      FinishedRun(c, w, plan, before);
      var u, k := RunSteps(c, w, plan, before), TasksIn(before);
      KeptIsConsistent(c, u);
      match steps[|steps| - 1]
      case Task =>
        if k < |plan| {
          RememberFinished(c, u, plan[k].path);
        }
      case Written(p) =>
        WriteIsSafe(c, u, p);
        WriteFinished(c, u, p);
      case Mounted(point) =>
        VolumeIsSafe(c, u, point);
        VolumeFinished(c, u, point);
    }
  }

  lemma RememberFinished(c: Config, w: World, p: string)
    requires Kept(c, w) && Finished(c, w) && p in c.Paths()
    ensures var v := Act(c, w, Remember(p)); Kept(c, v) && Finished(c, v) && v.formats == w.formats
  {
    RememberIsSafe(c, w, p);
    hide Kept, OursWorld;
    forall q ensures StateAt(Act(c, w, Remember(p)), q) == StateAt(w, q) {}
  }

  lemma WriteFinished(c: Config, w: World, p: string)
    requires Consistent(c, w) && Finished(c, w)
    ensures Finished(c, AfterWrite(c, w, p)) && AfterWrite(c, w, p).formats == w.formats
  {
    hide HoldsOurs, PlainDisk, RightlyMounted, IsAllowed, FromDevice, Coverable;
    SameDisk(c, w, AfterWrite(c, w, p));
    assert p in w.paths ==> StateAt(w, p).fs.Some?;
    forall q ensures StateAt(AfterWrite(c, w, p), q) == StateAt(w, q) {}
  }

  lemma VolumeFinished(c: Config, w: World, point: string)
    requires Finished(c, w)
    ensures Finished(c, AfterVolume(c, w, point)) && AfterVolume(c, w, point).formats == w.formats
  {
    hide HoldsOurs, RightlyMounted, IsAllowed, FromDevice, Coverable;
    var v := AfterVolume(c, w, point);
    SameHoldsOurs(c, w, v);
    forall q ensures StateAt(v, q) == StateAt(w, q) {}
  }

  lemma BootFinished(c: Config, w: World, kept: set<string>, keep: bool)
    requires ValidConfig(c) && Consistent(c, w) && Finished(c, w)
    ensures Finished(c, Happen(c, w, Reboot(kept, keep)))
    ensures Happen(c, w, Reboot(kept, keep)).formats == w.formats
  {
    var v := Happen(c, w, Reboot(kept, keep));
    BootFields(c, w, kept, keep);
    hide Happen, ValidConfig, Consistent, RightlyMounted, IsAllowed, FromDevice, AfterBoot, StateAt, HoldsOurs;
    SameHoldsOurs(c, w, v);
    forall p | p in c.Paths() ensures RightlyMounted(c, p, StateAt(v, p)) && StateAt(v, p).fs.Some? {
      BootRemounts(c, w, v, kept, p);
    }
  }

  lemma BootRemounts(c: Config, w: World, v: World, kept: set<string>, p: string)
    requires ValidConfig(c) && Consistent(c, w) && p in c.Paths() && p in w.fstab
    requires v.paths.Keys == w.paths.Keys && forall q :: q in w.paths ==> v.paths[q] == AfterBoot(c, w, kept, q)
    ensures RightlyMounted(c, p, StateAt(v, p)) && StateAt(v, p).fs.Some?
  {
    RoleFsIsRight(c, p);
    hide ValidConfig, RightlyMounted, HoldsOurs, FromDevice, Covered;
    assert p in w.paths && p in v.paths.Keys;
    CoveredIsMounted(c, w.paths[p], p);
  }

  /** Once a run has finished the node, it is `ready` after every further history, and never
      formatted again. */
  lemma ReadyForever(c: Config, w: World, es: seq<Event>)
    requires ValidConfig(c) && Kept(c, w) && Finished(c, w)
    ensures var v := History(c, w, es);
            VerdictOn(c, v) == Ready && v.formats == w.formats
  {
    hide ValidConfig, Kept, History, VerdictOn, OursWorld;
    FinishedForever(c, w, es);
    KeptIsConsistent(c, History(c, w, es));
    OursInWorld(c, History(c, w, es));
  }

  lemma {:induction false} FinishedForever(c: Config, w: World, es: seq<Event>)
    requires ValidConfig(c) && Kept(c, w) && Finished(c, w)
    ensures var v := History(c, w, es); Kept(c, v) && Finished(c, v) && v.formats == w.formats
    decreases |es|
  {
    hide ValidConfig, Happen, Kept, Finished;
    if es != [] {
      var u := History(c, w, es[..|es| - 1]);
      FinishedForever(c, w, es[..|es| - 1]);
      EventIsSafe(c, u, es[|es| - 1]);
      FinishedStays(c, u, es[|es| - 1]);
    }
  }

  /** A path Docker wrote to while nothing was mounted there. */
  ghost predicate Spoiled(c: Config, w: World, p: string) {
    p in c.Paths() && p in w.paths && p !in w.fstab
    && w.paths[p].fs.None? && w.paths[p].full && w.paths[p].kind == Directory
  }

  lemma SpoiledIsRefused(c: Config, w: World, p: string)
    requires ValidConfig(c) && Consistent(c, w) && Spoiled(c, w, p)
    ensures VerdictOn(c, w).Refuse?
  {
    hide VerdictOn, ValidConfig, Consistent;
    BlankInWorld(c, w);
    OursInWorld(c, w);
    NotRightly(c, p, w.paths[p]);
    assert StateAt(w, p) == w.paths[p];
    assert !Coverable(StateAt(w, p));
  }

  lemma SpoiledStays(c: Config, w: World, p: string, e: Event)
    requires ValidConfig(c) && Kept(c, w) && Spoiled(c, w, p)
    ensures Spoiled(c, Happen(c, w, e), p)
  {
    match e
    case Run(steps) =>
      hide VerdictOn, Kept, ValidConfig, Spoiled, Consistent, RunSteps;
      KeptIsConsistent(c, w);
      SpoiledIsRefused(c, w, p);
      SpoiledRun(c, w, p, steps);
    case DockerWrite(q) => WriteSpoiled(c, w, q, p);
    case VolumeMount(point) =>
      hide Kept, ValidConfig, AfterVolume;
      VolumeFields(c, w, point);
    case Reboot(kept, keep) => BootSpoiled(c, w, p, kept, keep);
  }

  lemma BootSpoiled(c: Config, w: World, p: string, kept: set<string>, keep: bool)
    requires Spoiled(c, w, p)
    ensures Spoiled(c, Happen(c, w, Reboot(kept, keep)), p)
  {
    BootFields(c, w, kept, keep);
    hide Happen, Covered;
    assert p in w.paths.Keys;
  }

  lemma WriteSpoiled(c: Config, w: World, q: string, p: string)
    requires Spoiled(c, w, p)
    ensures Spoiled(c, AfterWrite(c, w, q), p)
  {
    hide FromDevice;
  }

  /** A refused run has no tasks; what Docker does meanwhile leaves the path as it is. */
  lemma {:induction false} SpoiledRun(c: Config, w: World, p: string, steps: seq<Step>)
    requires Spoiled(c, w, p)
    ensures Spoiled(c, RunSteps(c, w, [], steps), p)
    decreases |steps|
  {
    hide AfterWrite, AfterVolume, TasksIn;
    if steps != [] {
      var u := RunSteps(c, w, [], steps[..|steps| - 1]);
      SpoiledRun(c, w, p, steps[..|steps| - 1]);
      match steps[|steps| - 1]
      case Task =>
      case Written(q) => WriteSpoiled(c, u, q, p);
      case Mounted(point) => VolumeFields(c, u, point);
    }
  }

  /** Docker writing to an unmounted, ordinary path makes the role refuse the node from then on,
      whatever happens next (only a hand could clear it). */
  lemma WriteRefusesForever(c: Config, w: World, p: string, es: seq<Event>)
    requires ValidConfig(c) && Kept(c, w) && p in c.Paths()
    requires StateAt(w, p).fs.None? && (StateAt(w, p).kind == Absent || StateAt(w, p).kind == Directory)
    ensures VerdictOn(c, History(c, Happen(c, w, DockerWrite(p)), es)).Refuse?
  {
    hide VerdictOn, ValidConfig, History;
    var v := Happen(c, w, DockerWrite(p));
    assert p in w.paths && p !in w.fstab;
    EventIsSafe(c, w, DockerWrite(p));
    hide Happen;
    SpoiledForever(c, v, p, es);
    KeptIsConsistent(c, History(c, v, es));
    SpoiledIsRefused(c, History(c, v, es), p);
  }

  lemma {:induction false} SpoiledForever(c: Config, w: World, p: string, es: seq<Event>)
    requires ValidConfig(c) && Kept(c, w) && Spoiled(c, w, p)
    ensures Kept(c, History(c, w, es)) && Spoiled(c, History(c, w, es), p)
    decreases |es|
  {
    hide ValidConfig, Kept, Spoiled, Happen;
    if es != [] {
      var u := History(c, w, es[..|es| - 1]);
      SpoiledForever(c, w, p, es[..|es| - 1]);
      EventIsSafe(c, u, es[|es| - 1]);
      SpoiledStays(c, u, p, es[|es| - 1]);
    }
  }

  // -------------------------------------------------------------------------
  // A node to run on
  // -------------------------------------------------------------------------

  /** A whole disk without a signature, and directories that do not exist yet. */
  function EmptyNode(c: Config): World {
    World(map[], false, "disk", [], map p | p in c.Paths() :: PathState(Absent, false, true, None), [], {}, 0, false)
  }

  function Small(): Config { Config("d", "m", "l", "prjquota", [Bind("b", "s")]) }

  lemma SmallIsValid()
    ensures ValidConfig(Small()) && |Small().Paths()| == 2
  {
    var c := Small();
    SmallDevice(c);
    SmallPaths(c);
    hide Small;
    TwoPaths(c);
  }

  lemma SmallDevice(c: Config)
    requires c == Small()
    ensures Trimmed(c.dev) && '[' !in c.dev && '\n' !in c.dev && Blkid.GoodValue(c.dev) && Blkid.GoodValue(c.fsLabel)
    ensures KName(c.dev) != "" && KName(KName(c.dev)) == KName(c.dev) && HasPrjquota(c.options)
  {
    DiskNames();
    QuotaOption();
    hide KName, HasPrjquota;
  }

  lemma SmallPaths(c: Config)
    requires c == Small()
    ensures |c.Paths()| == 2 && |c.Paths()[0]| == 1 && |c.Paths()[1]| == 1
    ensures c.Paths()[0][0] == 'm' && c.Paths()[1][0] == 'b'
    ensures |c.binds| == 1 && |c.binds[0].subdir| == 1 && c.binds[0].subdir[0] == 's'
  {
    assert Targets(c.binds) == ["b"];
  }

  lemma TwoPaths(c: Config)
    requires Trimmed(c.dev) && '[' !in c.dev && '\n' !in c.dev && Blkid.GoodValue(c.dev) && Blkid.GoodValue(c.fsLabel)
    requires KName(c.dev) != "" && KName(KName(c.dev)) == KName(c.dev) && HasPrjquota(c.options)
    requires |c.Paths()| == 2 && |c.Paths()[0]| == 1 && |c.Paths()[1]| == 1
    requires c.Paths()[0][0] == 'm' && c.Paths()[1][0] == 'b'
    requires |c.binds| == 1 && |c.binds[0].subdir| == 1 && c.binds[0].subdir[0] == 's'
    ensures ValidConfig(c)
  {
    hide KName, HasPrjquota, Trimmed, Blkid.GoodValue, Allowed;
  }

  lemma EmptyNodeIsBlank(c: Config)
    requires ValidConfig(c)
    ensures Untouched(c, EmptyNode(c)) && BlankWorld(c, EmptyNode(c))
  {
    hide ValidConfig, HoldsOurs, KName, SplitSource;
  }

  /** On an empty node the whole road is open: blank, then, cut short after the format, ours, and after
      an uninterrupted run ready. */
  lemma EmptyNodeIsFinished() returns (c: Config, w: World)
    ensures ValidConfig(c) && Untouched(c, w) && VerdictOn(c, w) == Blank && c.binds != []
    ensures VerdictOn(c, Happen(c, w, Converge(1))).Ours?
    ensures VerdictOn(c, Happen(c, w, Converge(4))) == Ready
  {
    c, w := Small(), EmptyNode(Small());
    SmallIsValid();
    EmptyNodeIsBlank(c);
    FormattedOnly(c, w);
    hide VerdictOn, ValidConfig, Untouched, Kept, BlankWorld, Happen, EmptyNode, Consistent, OursWorld, ReadyWorld;
    KeptIsConsistent(c, w);
    BlankInWorld(c, w);
    OnlyFinishes(c, w, 1);
    OnlyFinishes(c, w, 4);
    RunIsSafe(c, w, Only(1));
    KeptIsConsistent(c, Happen(c, w, Converge(1)));
    OursInWorld(c, Happen(c, w, Converge(1)));
  }

  /** Both ways of losing something happen: a raw device whose data shows no signature is called blank and
      formatted, and a directory written to after the probe is mounted over. */
  lemma BothLossesHappen() returns (c: Config, raw: World, empty: World)
    ensures ValidConfig(c) && Untouched(c, raw) && Untouched(c, empty) && Signed(empty)
    ensures raw.deviceData && VerdictOn(c, raw) == Blank && Happen(c, raw, Converge(1)).harm
    ensures !Happen(c, empty, Converge(4)).harm && Happen(c, empty, Run([Task, Written(c.mount), Task])).harm
  {
    c, empty := Small(), EmptyNode(Small());
    raw := empty.(deviceData := true);
    SmallIsValid();
    EmptyNodeIsBlank(c);
    RawNodeIsBlank(c, empty, raw);
    hide VerdictOn, ValidConfig, EmptyNode, Small;
    UntouchedIsKept(c, raw);
    UntouchedIsKept(c, empty);
    BlankInWorld(c, raw);
    RawIsLost(c, raw);
    WrittenIsLost(c, empty);
    RunIsSafe(c, empty, Only(4));
    OnlyIsNotRaced(Plan(c, empty), 4);
  }

  lemma RawNodeIsBlank(c: Config, w: World, v: World)
    requires Untouched(c, w) && BlankWorld(c, w) && v == w.(deviceData := true)
    ensures Untouched(c, v) && BlankWorld(c, v)
  {
    hide FromDevice, HoldsOurs, Blkid.AllGood, Coverable;
    forall p ensures StateAt(v, p) == StateAt(w, p) {}
    SameHoldsOurs(c, w, v);
  }

  lemma UntouchedIsKept(c: Config, w: World)
    requires Untouched(c, w)
    ensures Kept(c, w) && Consistent(c, w)
  {
    hide Consistent;
  }

  lemma RawIsLost(c: Config, w: World)
    requires ValidConfig(c) && Kept(c, w) && BlankWorld(c, w) && w.deviceData
    ensures Happen(c, w, Converge(1)).harm
  {
    RunIsSafe(c, w, Only(1));
    OnlyTasks(1);
  }

  lemma OnlyIsNotRaced(plan: seq<Action>, n: nat)
    ensures !Raced(plan, Only(n))
  {
    OnlyTasks(n);
    hide TasksIn;
    forall j | 0 <= j < n ensures !RaceAt(plan, Only(n), j) {
      forall s | s in Only(n)[..j] ensures s == Task { assert s in Only(n); }
    }
    hide RaceAt;
  }

  lemma WrittenIsLost(c: Config, w: World)
    requires ValidConfig(c) && Kept(c, w) && BlankWorld(c, w)
    ensures Happen(c, w, Run([Task, Written(c.mount), Task])).harm
  {
    hide *;
    KeptIsConsistent(c, w);
    BlankInWorld(c, w);
    FirstPlaced(c, w);
    WriteThenMount(Plan(c, w), c.mount);
    RunIsSafe(c, w, [Task, Written(c.mount), Task]);
  }

  lemma WriteThenMount(plan: seq<Action>, p: string)
    requires |plan| > 1 && plan[1] == MountAt(p)
    ensures Raced(plan, [Task, Written(p), Task])
  {
    var steps := [Task, Written(p), Task];
    assert steps[..2] == [Task, Written(p)] && steps[..2][..1] == [Task];
    assert TasksIn(steps[..2][..1]) == 1;
    assert TasksIn(steps[..2]) == 1;
    assert steps[..2][1] == Written(p);
    hide TasksIn;
    assert RaceAt(plan, steps, 2);
  }

  lemma FirstPlaced(c: Config, w: World)
    requires VerdictOn(c, w) == Blank && BlankWorld(c, w)
    ensures |Plan(c, w)| > 1 && Plan(c, w)[1] == MountAt(c.mount)
  {
    PlanByVerdict(c, w);
    hide VerdictOn, Plan, StateAt;
    assert c.Paths()[0] == c.mount && c.mount in c.Paths();
    assert Coverable(StateAt(w, c.mount));
  }

  /** A run that nothing disturbs leaves nothing refused. */
  lemma OnlyFinishes(c: Config, w: World, n: nat)
    requires ValidConfig(c) && Kept(c, w) && !VerdictOn(c, w).Refuse?
    ensures var v := Happen(c, w, Converge(n));
            && (n > |c.Paths()| ==> VerdictOn(c, v) == Ready)
            && (n > 0 ==> VerdictOn(c, v).Ours? || VerdictOn(c, v).Ready?)
  {
    hide VerdictOn, ValidConfig, Kept, Happen, Plan, Finished;
    OnlyTasks(n);
    RunFinishes(c, w, Only(n));
    hide Only, TasksIn;
  }

  lemma FormattedOnly(c: Config, w: World)
    requires ValidConfig(c) && Consistent(c, w) && BlankWorld(c, w)
    ensures !ReadyWorld(c, Happen(c, w, Converge(1)))
  {
    var v := Happen(c, w, Converge(1));
    assert v.paths == w.paths by { FormatLeavesPaths(c, w); }
    hide ValidConfig, Consistent, VerdictOn, Happen, RightlyMounted, OursWorld;
    assert c.mount in c.Paths() by { assert c.Paths()[0] == c.mount; }
    assert Coverable(StateAt(w, c.mount));
    assert StateAt(v, c.mount) == StateAt(w, c.mount);
  }

  lemma FormatLeavesPaths(c: Config, w: World)
    requires ValidConfig(c) && Consistent(c, w) && BlankWorld(c, w)
    ensures Happen(c, w, Converge(1)).paths == w.paths
  {
    hide ValidConfig, Consistent, BlankWorld, VerdictOn, Act, ActAll, Happen, PlaceAll, Cut;
    BlankInWorld(c, w);
    BlankPlan(c, w, 1);
    FirstThenRest(c, w, Format, PlaceAll(w, c.Paths()), 1);
    NothingMore(c, Act(c, w, Format), PlaceAll(w, c.Paths()));
    FormatFields(c, w);
  }

  lemma NothingMore(c: Config, w: World, tasks: seq<Action>)
    ensures ActAll(c, w, Cut(tasks, 0)) == w
  {
    assert Cut(tasks, 0) == [];
  }

  lemma FormatFields(c: Config, w: World)
    ensures Act(c, w, Format).paths == w.paths
  {
  }
}
