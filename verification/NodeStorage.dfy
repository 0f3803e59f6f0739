/** The data-disk classifier: command results, the probe built from them, and the verdict
    that decides whether a disk may be formatted. */
module NodeStorage {
  import opened Text
  import Blkid

  // -------------------------------------------------------------------------
  // What the commands registered
  // -------------------------------------------------------------------------

  /** A registered command: skipped, or its exit status and output. */
  datatype Cmd<+T> = NotRun | Ran(rc: int, stdout: T, stderr: string)

  /** One `lsblk` device. `mountpoints` is the list of newer releases (null for "not mounted"),
      `mountpoint` the single entry of older ones. */
  datatype Node = Node(name: string, path: string, kind: string, fstype: string,
                       mountpoints: Option<seq<Option<string>>>, mountpoint: Option<string>, children: seq<Node>)

  /** One `findmnt` filesystem. */
  datatype Fs = Fs(source: string, options: string)

  datatype DeviceStat = NoStat | DeviceStat(present: bool, isBlock: bool)
  datatype PathStat = StatFailed | Stat(present: bool, isLink: bool, isDir: bool, isRegular: bool)
  datatype PathType = Absent | Directory | Symlink | File | Other | Unknown

  datatype MountResult = MountResult(path: string, cmd: Cmd<seq<Fs>>)
  datatype StatResult = StatResult(path: string, stat: PathStat)
  datatype FindResult = FindResult(path: string, cmd: Cmd<string>)

  datatype Results = Results(
    input: string, realpath: Cmd<string>, stat: DeviceStat, blkid: Cmd<string>, lsblk: Cmd<seq<Node>>,
    findmnt: seq<MountResult>, find: seq<FindResult>, pathStat: seq<StatResult>)

  datatype FindError = Said(text: string) | Exited(rc: int) | DidNotRun

  datatype Probe = Probe(
    input: string, device: string, isBlock: bool, blkid: map<string, string>, blkidError: string, lsblk: Option<Node>,
    mounts: map<string, Option<Fs>>, types: map<string, PathType>, nonempty: map<string, bool>,
    errors: map<string, FindError>)

  datatype Bind = Bind(target: string, subdir: string)

  // -------------------------------------------------------------------------
  // Reading one result
  // -------------------------------------------------------------------------

  /** `_blkid`: nothing found, or not run; the export; or the exit status of a failed probe. */
  function ReadBlkid(r: Cmd<string>): map<string, string> {
    match r
    case NotRun => map[]
    case Ran(rc, stdout, _) =>
      if rc == 2 then map[] else if rc == 0 then Blkid.Parse(stdout) else map["BLKID_RC" := Decimal(rc)]
  }

  /** `_blkid_error`: exit status 2 with a complaint is a device that could not be read. */
  function BlkidError(r: Cmd<string>): string {
    if r.Ran? && r.rc == 2 then Strip(r.stderr) else ""
  }

  function ReadLsblk(r: Cmd<seq<Node>>): Option<Node> {
    if r.Ran? && r.rc == 0 && r.stdout != [] then Some(r.stdout[0]) else None
  }

  /** `_findmnt`: of several stacked filesystems the last one is visible. */
  function ReadFindmnt(r: Cmd<seq<Fs>>): Option<Fs> {
    if r.Ran? && r.rc == 0 && r.stdout != [] then Some(r.stdout[|r.stdout| - 1]) else None
  }

  /** `_path_type`: a symlink is a symlink, whatever it points at. */
  function ReadType(s: PathStat): PathType {
    match s
    case StatFailed => Unknown
    case Stat(present, isLink, isDir, isRegular) =>
      if !present then Absent else if isLink then Symlink else if isDir then Directory
      else if isRegular then File else Other
  }

  predicate Listed(r: Cmd<string>) { r.Ran? && r.rc == 0 }

  function ReadFindError(r: Cmd<string>): FindError {
    if r.Ran? && Strip(r.stderr) != "" then Said(Strip(r.stderr)) else if r.Ran? then Exited(r.rc) else DidNotRun
  }

  // -------------------------------------------------------------------------
  // The probe
  // -------------------------------------------------------------------------

  function Mounts(rs: seq<MountResult>): map<string, Option<Fs>> {
    if rs == [] then map[]
    else
      var r := rs[|rs| - 1];
      Mounts(rs[..|rs| - 1])[r.path := ReadFindmnt(r.cmd)]
  }

  function Types(rs: seq<StatResult>): map<string, PathType> {
    if rs == [] then map[]
    else
      var r, before := rs[|rs| - 1], Types(rs[..|rs| - 1]);
      if r.path == "" then before else before[r.path := ReadType(r.stat)]
  }

  predicate IsMounted(mounts: map<string, Option<Fs>>, path: string) {
    path in mounts && mounts[path].Some?
  }

  predicate IsType(types: map<string, PathType>, path: string, t: PathType) {
    path in types && types[path] == t
  }

  function Nonempty(rs: seq<FindResult>, mounts: map<string, Option<Fs>>, types: map<string, PathType>)
    : map<string, bool>
  {
    if rs == [] then map[]
    else
      var r, before := rs[|rs| - 1], Nonempty(rs[..|rs| - 1], mounts, types);
      if r.path == "" then before
      else before[r.path := IsType(types, r.path, Directory) && Listed(r.cmd) && Strip(r.cmd.stdout) != ""
                            && !IsMounted(mounts, r.path)]
  }

  function FindErrors(rs: seq<FindResult>, types: map<string, PathType>): map<string, FindError> {
    if rs == [] then map[]
    else
      var r, before := rs[|rs| - 1], FindErrors(rs[..|rs| - 1], types);
      if r.path != "" && IsType(types, r.path, Directory) && !Listed(r.cmd)
      then before[r.path := ReadFindError(r.cmd)] else before
  }

  function DeviceOf(r: Results): string {
    if r.realpath.Ran? && r.realpath.rc == 0 then Strip(r.realpath.stdout) else ""
  }

  predicate IsBlock(r: Results) {
    DeviceOf(r) != "" && r.stat.DeviceStat? && r.stat.present && r.stat.isBlock
  }

  function ProbeOf(r: Results): Probe {
    var mounts, types := Mounts(r.findmnt), Types(r.pathStat);
    var block := IsBlock(r);
    Probe(r.input, DeviceOf(r), block,
          if block then ReadBlkid(r.blkid) else map[], if block then BlkidError(r.blkid) else "",
          if block then ReadLsblk(r.lsblk) else None,
          mounts, types, Nonempty(r.find, mounts, types), FindErrors(r.find, types))
  }

  lemma OneMore<T>(s: seq<T>, i: nat)
    requires i < |s|
    ensures s[..i + 1][..|s[..i + 1]| - 1] == s[..i] && s[..i + 1][|s[..i + 1]| - 1] == s[i] && s[..i + 1] != []
  {
  }

  lemma Whole<T>(s: seq<T>)
    ensures s[..|s|] == s
  {
  }

  method BuildMounts(rs: seq<MountResult>) returns (mounts: map<string, Option<Fs>>)
    ensures mounts == Mounts(rs)
  {
    hide ReadFindmnt;
    mounts := map[];
    for i := 0 to |rs|
      invariant mounts == Mounts(rs[..i])
    {
      mounts := mounts[rs[i].path := ReadFindmnt(rs[i].cmd)];
      OneMore(rs, i);
    }
    Whole(rs);
  }

  method BuildTypes(rs: seq<StatResult>) returns (types: map<string, PathType>)
    ensures types == Types(rs)
  {
    hide ReadType;
    types := map[];
    for i := 0 to |rs|
      invariant types == Types(rs[..i])
    {
      if rs[i].path != "" {
        types := types[rs[i].path := ReadType(rs[i].stat)];
      }
      OneMore(rs, i);
    }
    Whole(rs);
  }

  method BuildListings(rs: seq<FindResult>, mounts: map<string, Option<Fs>>, types: map<string, PathType>)
      returns (nonempty: map<string, bool>, errors: map<string, FindError>)
    ensures nonempty == Nonempty(rs, mounts, types) && errors == FindErrors(rs, types)
  {
    hide Strip, ReadFindError, IsType, IsMounted;
    nonempty, errors := map[], map[];
    for i := 0 to |rs|
      invariant nonempty == Nonempty(rs[..i], mounts, types)
      invariant errors == FindErrors(rs[..i], types)
    {
      var f := rs[i];
      OneMore(rs, i);
      if f.path == "" {
        continue;
      }
      if !IsType(types, f.path, Directory) {
        nonempty := nonempty[f.path := false];
        continue;
      }
      if !Listed(f.cmd) {
        errors := errors[f.path := ReadFindError(f.cmd)];
        nonempty := nonempty[f.path := false];
        continue;
      }
      var found := Strip(f.cmd.stdout) != "";
      nonempty := nonempty[f.path := found && !IsMounted(mounts, f.path)];
    }
    Whole(rs);
  }

  /** `node_storage_build_probe`. */
  method BuildProbe(r: Results) returns (probe: Probe)
    ensures probe == ProbeOf(r)
  {
    hide Mounts, Types, Nonempty, FindErrors, Strip, ReadBlkid, BlkidError, ReadLsblk;
    var device := if r.realpath.Ran? && r.realpath.rc == 0 then Strip(r.realpath.stdout) else "";
    var block := device != "" && r.stat.DeviceStat? && r.stat.present && r.stat.isBlock;
    var mounts := BuildMounts(r.findmnt);
    var types := BuildTypes(r.pathStat);
    var nonempty, errors := BuildListings(r.find, mounts, types);
    probe := Probe(r.input, device, block,
                   if block then ReadBlkid(r.blkid) else map[], if block then BlkidError(r.blkid) else "",
                   if block then ReadLsblk(r.lsblk) else None, mounts, types, nonempty, errors);
  }

  // -------------------------------------------------------------------------
  // Reading the probe
  // -------------------------------------------------------------------------

  /** The part of a path after its last slash. */
  function BaseName(path: string): string {
    if path == "" then ""
    else if path[|path| - 1] == '/' then ""
    else BaseName(path[..|path| - 1]) + [path[|path| - 1]]
  }

  /** `_kname`: `/dev/xvdb` is `xvdb`. */
  function KName(path: string): string { BaseName(RStripChar(Strip(path), '/')) }

  /** `_split_source`: a bind mount's source is the device with the directory in brackets. */
  function SplitSource(source: string): (string, string) {
    var s := Strip(source);
    var i := Find(s, '[');
    if i < |s| && s[|s| - 1] == ']' && '\n' !in s then
      (s[..i], if i + 1 == |s| - 1 then "/" else s[i + 1..|s| - 1])
    else (s, "/")
  }

  /** `_beneath`: the path itself or anything below it, on a path boundary. */
  predicate Beneath(path: string, base: string) {
    var b := if RStripChar(base, '/') == "" then "/" else RStripChar(base, '/');
    path == b || StartsWith(path, b + "/")
  }

  function Points(points: seq<Option<string>>): seq<string> {
    if points == [] then []
    else (if points[0].None? || points[0].value == "" then [] else [points[0].value]) + Points(points[1..])
  }

  /** `_mountpoints`. */
  function MountPoints(n: Node): seq<string> {
    match n.mountpoints
    case Some(points) => Points(points)
    case None => Points([n.mountpoint])
  }

  /** `_walk`: the node and every device stacked below it, depth first. */
  function Walk(n: Node): seq<Node> {
    [n] + WalkAll(n.children)
  }

  function WalkAll(ns: seq<Node>): seq<Node> {
    if ns == [] then [] else Walk(ns[0]) + WalkAll(ns[1..])
  }

  /** The device itself, or one stacked on it at any depth. */
  ghost predicate InTree(n: Node, root: Node)
    decreases root
  {
    n == root || exists i :: 0 <= i < |root.children| && InTree(n, root.children[i])
  }

  /** The walk meets exactly the devices of the tree. */
  lemma {:induction false} WalkMeetsAll(root: Node, n: Node)
    ensures n in Walk(root) <==> InTree(n, root)
    decreases root, 1
  {
    WalkAllMeets(root.children, n, root);
    assert n in [root] + WalkAll(root.children) <==> n == root || n in WalkAll(root.children);
  }

  lemma {:induction false} WalkAllMeets(ns: seq<Node>, n: Node, root: Node)
    requires forall i :: 0 <= i < |ns| ==> ns[i] < root
    ensures n in WalkAll(ns) <==> exists i :: 0 <= i < |ns| && InTree(n, ns[i])
    decreases root, 0, |ns|
  {
    if ns != [] {
      assert forall i :: 0 <= i < |ns[1..]| ==> ns[1..][i] == ns[i + 1];
      WalkMeetsAll(ns[0], n);
      WalkAllMeets(ns[1..], n, root);
      hide Walk, InTree;
      assert WalkAll(ns) == Walk(ns[0]) + WalkAll(ns[1..]);
    }
  }

  const PRJQUOTA_OPTIONS := ["prjquota", "pquota"]

  function HasOption(options: seq<string>, wanted: seq<string>): bool {
    exists i :: 0 <= i < |options| && Strip(options[i]) in wanted
  }

  /** `_has_prjquota`: project quotas enforced, not merely accounted. */
  predicate HasPrjquota(options: string) { HasOption(Split(options, ','), PRJQUOTA_OPTIONS) }

  // -------------------------------------------------------------------------
  // The verdict
  // -------------------------------------------------------------------------

  /** Why a disk is refused, in the order the rules are tried. */
  datatype Refusal =
    | NoDevice
    | NotABlockDevice
    | LsblkUnreadable
    | HoldsRoot
    | NotAWholeDisk(kind: string)
    | HasChildren
    | BlkidUnreadable(text: string)
    | PartitionTable(kind: string)
    | ForeignSignature(fstype: string)
    | UnknownSignature
    | ForeignLabel
    | LsblkDisagrees(fstype: string)
    | MountedWithoutSignature(points: seq<string>)
    | MountedOutside(points: seq<string>)
    | MountedFromElsewhere(path: string)
    | MountedFromSubdir(path: string)
    | NoProjectQuota(path: string)
    | WrongBindSource(path: string)
    | PathUnchecked(path: string)
    | NotADirectory(path: string, type_: PathType)
    | Unlistable(path: string)
    | Unlisted(path: string)
    | AlreadyWritten(paths: seq<string>)
    | DataMountNotEmpty

  datatype Verdict = Blank | Ours(missing: seq<string>) | Ready | Refuse(why: Refusal)

  function Targets(binds: seq<Bind>): seq<string> {
    seq(|binds|, i requires 0 <= i < |binds| => binds[i].target)
  }

  function Allowed(mount: string, binds: seq<Bind>): seq<string> { [mount] + Targets(binds) }

  function Names(device: string, node: Node): set<string> {
    {KName(device), KName(node.path), KName(node.name)} - {""}
  }

  function Get(m: map<string, string>, key: string): string { if key in m then m[key] else "" }

  /** Everything blkid found except the device's own name. */
  function Signature(blkid: map<string, string>): map<string, string> { blkid - {"DEVNAME"} }

  predicate HoldsRootFs(nodes: seq<Node>) {
    exists i :: 0 <= i < |nodes| && "/" in MountPoints(nodes[i])
  }

  /** What is wrong with the device itself: missing, unreadable, in use, or holding data. */
  function DeviceProblem(p: Probe, fsLabel: string): Option<Refusal> {
    if p.device == "" then Some(NoDevice)
    else if !p.isBlock then Some(NotABlockDevice)
    else if p.lsblk.None? then Some(LsblkUnreadable)
    else if HoldsRootFs(Walk(p.lsblk.value)) then Some(HoldsRoot)
    else if p.lsblk.value.kind != "disk" then Some(NotAWholeDisk(p.lsblk.value.kind))
    else if p.lsblk.value.children != [] then Some(HasChildren)
    else if p.blkidError != "" then Some(BlkidUnreadable(p.blkidError))
    else if Get(p.blkid, "PTTYPE") != "" then Some(PartitionTable(p.blkid["PTTYPE"]))
    else SignatureProblem(Signature(p.blkid), p.lsblk.value.fstype, fsLabel)
  }

  function SignatureProblem(signature: map<string, string>, fstype: string, fsLabel: string): Option<Refusal> {
    if signature != map[] then
      if Get(signature, "TYPE") == "" then Some(UnknownSignature)
      else if Get(signature, "TYPE") != "xfs" then Some(ForeignSignature(signature["TYPE"]))
      else if "LABEL" !in signature || signature["LABEL"] != fsLabel then Some(ForeignLabel)
      else None
    else if fstype != "" then Some(LsblkDisagrees(fstype))
    else None
  }

  predicate IsAllowed(point: string, allowed: seq<string>) {
    exists i :: 0 <= i < |allowed| && Beneath(point, allowed[i])
  }

  function Outside(points: seq<string>, allowed: seq<string>): seq<string> {
    if points == [] then []
    else (if IsAllowed(points[0], allowed) then [] else [points[0]]) + Outside(points[1..], allowed)
  }

  function SubdirFor(path: string, binds: seq<Bind>): string {
    if binds == [] then "" else if binds[0].target == path then binds[0].subdir else SubdirFor(path, binds[1..])
  }

  /** What is wrong with the filesystem mounted at one of the role's paths. */
  function MountProblem(p: Probe, node: Node, path: string, mount: string, binds: seq<Bind>): Option<Refusal> {
    if !IsMounted(p.mounts, path) then None
    else
      var fs := p.mounts[path].value;
      var (src, sub) := SplitSource(fs.source);
      if KName(src) !in Names(p.device, node) then Some(MountedFromElsewhere(path))
      else if path == mount then
        if sub != "/" then Some(MountedFromSubdir(path))
        else if !HasPrjquota(fs.options) then Some(NoProjectQuota(path))
        else None
      else if sub != "/" + SubdirFor(path, binds) then Some(WrongBindSource(path))
      else None
  }

  function TypeProblem(p: Probe, path: string): Option<Refusal> {
    if IsMounted(p.mounts, path) then None
    else if path !in p.types || p.types[path] == Unknown then Some(PathUnchecked(path))
    else if p.types[path] != Absent && p.types[path] != Directory then Some(NotADirectory(path, p.types[path]))
    else None
  }

  function ListingProblem(p: Probe, path: string): Option<Refusal> {
    if path in p.errors then Some(Unlistable(path))
    else if !IsMounted(p.mounts, path) && IsType(p.types, path, Directory) && path !in p.nonempty then
      Some(Unlisted(path))
    else None
  }

  predicate HasContents(p: Probe, path: string) {
    !IsMounted(p.mounts, path) && path in p.nonempty && p.nonempty[path]
  }

  function FirstOf(problem: string -> Option<Refusal>, paths: seq<string>): Option<Refusal> {
    if paths == [] then None
    else if problem(paths[0]).Some? then problem(paths[0])
    else FirstOf(problem, paths[1..])
  }

  function WrittenTargets(p: Probe, targets: seq<string>): seq<string> {
    if targets == [] then []
    else (if HasContents(p, targets[0]) then [targets[0]] else []) + WrittenTargets(p, targets[1..])
  }

  function Missing(p: Probe, allowed: seq<string>): seq<string> {
    if allowed == [] then []
    else (if IsMounted(p.mounts, allowed[0]) then [] else [allowed[0]]) + Missing(p, allowed[1..])
  }

  /** What is wrong with where the device is mounted and with the role's paths. */
  function PlacementProblem(p: Probe, node: Node, mount: string, binds: seq<Bind>): Option<Refusal> {
    var allowed := Allowed(mount, binds);
    var ours := Signature(p.blkid) != map[];
    var points := MountPoints(node);
    if points != [] && !ours then Some(MountedWithoutSignature(points))
    else if Outside(points, allowed) != [] then Some(MountedOutside(Outside(points, allowed)))
    else
      var m := FirstOf(path => MountProblem(p, node, path, mount, binds), allowed);
      var t := FirstOf(path => TypeProblem(p, path), allowed);
      var l := FirstOf(path => ListingProblem(p, path), allowed);
      if m.Some? then m
      else if t.Some? then t
      else if l.Some? then l
      else if WrittenTargets(p, Targets(binds)) != [] then Some(AlreadyWritten(WrittenTargets(p, Targets(binds))))
      else if HasContents(p, mount) then Some(DataMountNotEmpty)
      else None
  }

  /** `node_storage_classify`. */
  function Classified(p: Probe, mount: string, fsLabel: string, binds: seq<Bind>): Verdict {
    match DeviceProblem(p, fsLabel)
    case Some(why) => Refuse(why)
    case None =>
      match PlacementProblem(p, p.lsblk.value, mount, binds)
      case Some(why) => Refuse(why)
      case None =>
        var missing := Missing(p, Allowed(mount, binds));
        if Signature(p.blkid) == map[] then Blank
        else if missing != [] then Ours(missing)
        else Ready
  }

  // -------------------------------------------------------------------------
  // The classifier as the source runs it: early refusals, and two passes over
  // the role's paths around a dictionary of the mounted ones
  // -------------------------------------------------------------------------

  lemma FirstOfStep(problem: string -> Option<Refusal>, paths: seq<string>, i: nat)
    requires i < |paths|
    ensures FirstOf(problem, paths[i..])
         == if problem(paths[i]).Some? then problem(paths[i]) else FirstOf(problem, paths[i + 1..])
  {
    assert paths[i..][0] == paths[i] && paths[i..][1..] == paths[i + 1..];
  }

  ghost predicate RootInTree(device: Node) { exists n :: InTree(n, device) && "/" in MountPoints(n) }

  lemma RootIsMet(device: Node)
    ensures HoldsRootFs(Walk(device)) <==> RootInTree(device)
  {
    hide Walk, InTree, MountPoints;
    var nodes := Walk(device);
    forall n ensures n in nodes <==> InTree(n, device) { WalkMeetsAll(device, n); }
    if HoldsRootFs(nodes) {
      var i :| 0 <= i < |nodes| && "/" in MountPoints(nodes[i]);
      assert nodes[i] in nodes;
    }
  }

  /** Does the device, or anything stacked on it at any depth, hold the root filesystem? */
  method FindRoot(device: Node) returns (found: bool)
    ensures found <==> RootInTree(device)
  {
    RootIsMet(device);
    hide RootInTree, MountPoints, Walk;
    var nodes := Walk(device);
    for i := 0 to |nodes|
      invariant forall j :: 0 <= j < i ==> "/" !in MountPoints(nodes[j])
    {
      if "/" in MountPoints(nodes[i]) {
        return true;
      }
    }
    return false;
  }

  method CheckDevice(p: Probe, fsLabel: string) returns (why: Option<Refusal>)
    ensures why == DeviceProblem(p, fsLabel)
    ensures why.None? <==>
            && WholeDisk(p)
            && (if Signature(p.blkid) == map[] then p.lsblk.value.fstype == "" else OurSignature(p, fsLabel))
    ensures why == Some(HoldsRoot) <==> p.device != "" && p.isBlock && p.lsblk.Some? && RootInTree(p.lsblk.value)
  {
    DeviceClear(p, fsLabel);
    if p.lsblk.Some? {
      RootIsMet(p.lsblk.value);
    }
    hide WholeDisk, OurSignature, HoldsRootFs, RootInTree, Walk;
    if p.device == "" {
      return Some(NoDevice);
    }
    if !p.isBlock {
      return Some(NotABlockDevice);
    }
    if p.lsblk.None? {
      return Some(LsblkUnreadable);
    }
    var node := p.lsblk.value;
    var root := FindRoot(node);
    if root {
      return Some(HoldsRoot);
    }
    if node.kind != "disk" {
      return Some(NotAWholeDisk(node.kind));
    }
    if node.children != [] {
      return Some(HasChildren);
    }
    if p.blkidError != "" {
      return Some(BlkidUnreadable(p.blkidError));
    }
    if Get(p.blkid, "PTTYPE") != "" {
      return Some(PartitionTable(p.blkid["PTTYPE"]));
    }
    return SignatureProblem(Signature(p.blkid), node.fstype, fsLabel);
  }

  /** What sits at each path must come from this device; `mounted` remembers which paths do. */
  method CheckMounts(p: Probe, node: Node, mount: string, binds: seq<Bind>)
      returns (why: Option<Refusal>, mounted: map<string, bool>)
    ensures why == FirstOf(path => MountProblem(p, node, path, mount, binds), Allowed(mount, binds))
    ensures why.None? ==>
              forall path :: path in Allowed(mount, binds) ==> (path in mounted <==> IsMounted(p.mounts, path))
  {
    hide SplitSource, KName, HasPrjquota, SubdirFor, Names;
    var allowed := Allowed(mount, binds);
    var names := Names(p.device, node);
    ghost var problem := path => MountProblem(p, node, path, mount, binds);
    mounted := map[];
    for i := 0 to |allowed|
      invariant FirstOf(problem, allowed) == FirstOf(problem, allowed[i..])
      invariant forall path :: path in mounted <==> path in allowed[..i] && IsMounted(p.mounts, path)
    {
      FirstOfStep(problem, allowed, i);
      assert allowed[..i + 1] == allowed[..i] + [allowed[i]];
      var path := allowed[i];
      if !IsMounted(p.mounts, path) {
        continue;
      }
      var fs := p.mounts[path].value;
      var (src, sub) := SplitSource(fs.source);
      if KName(src) !in names {
        return Some(MountedFromElsewhere(path)), mounted;
      }
      if path == mount {
        if sub != "/" {
          return Some(MountedFromSubdir(path)), mounted;
        }
        if !HasPrjquota(fs.options) {
          return Some(NoProjectQuota(path)), mounted;
        }
      } else {
        var want := "/" + SubdirFor(path, binds);
        if sub != want {
          return Some(WrongBindSource(path)), mounted;
        }
      }
      mounted := mounted[path := true];
    }
    assert allowed[..|allowed|] == allowed;
    why := None;
  }

  method CheckTypes(p: Probe, allowed: seq<string>, mounted: map<string, bool>) returns (why: Option<Refusal>)
    requires forall path :: path in allowed ==> (path in mounted <==> IsMounted(p.mounts, path))
    ensures why == FirstOf(path => TypeProblem(p, path), allowed)
  {
    ghost var problem := path => TypeProblem(p, path);
    for i := 0 to |allowed|
      invariant FirstOf(problem, allowed) == FirstOf(problem, allowed[i..])
    {
      FirstOfStep(problem, allowed, i);
      var path := allowed[i];
      if path in mounted {
        continue;
      }
      var t := if path in p.types then p.types[path] else Unknown;
      if t == Unknown {
        return Some(PathUnchecked(path));
      }
      if t != Absent && t != Directory {
        return Some(NotADirectory(path, t));
      }
    }
    why := None;
  }

  method CheckListings(p: Probe, allowed: seq<string>, mounted: map<string, bool>) returns (why: Option<Refusal>)
    requires forall path :: path in allowed ==> (path in mounted <==> IsMounted(p.mounts, path))
    ensures why == FirstOf(path => ListingProblem(p, path), allowed)
  {
    ghost var problem := path => ListingProblem(p, path);
    for i := 0 to |allowed|
      invariant FirstOf(problem, allowed) == FirstOf(problem, allowed[i..])
    {
      FirstOfStep(problem, allowed, i);
      var path := allowed[i];
      if path in p.errors {
        return Some(Unlistable(path));
      }
      if path !in mounted && IsType(p.types, path, Directory) && path !in p.nonempty {
        return Some(Unlisted(path));
      }
    }
    why := None;
  }

  method Classify(p: Probe, mount: string, fsLabel: string, binds: seq<Bind>) returns (v: Verdict)
    ensures v == Classified(p, mount, fsLabel, binds)
  {
    hide DeviceProblem, MountProblem, TypeProblem, ListingProblem, FirstOf, Outside, WrittenTargets, Missing,
         HasContents;
    var targets := Targets(binds);
    var allowed := [mount] + targets;
    var why := CheckDevice(p, fsLabel);
    if why.Some? {
      return Refuse(why.value);
    }
    DeviceReadable(p, fsLabel);
    var node := p.lsblk.value;
    var ours := Signature(p.blkid) != map[];
    var points := MountPoints(node);
    if points != [] && !ours {
      return Refuse(MountedWithoutSignature(points));
    }
    var outside := Outside(points, allowed);
    if outside != [] {
      return Refuse(MountedOutside(outside));
    }
    var mounted;
    why, mounted := CheckMounts(p, node, mount, binds);
    if why.Some? {
      return Refuse(why.value);
    }
    why := CheckTypes(p, allowed, mounted);
    if why.Some? {
      return Refuse(why.value);
    }
    why := CheckListings(p, allowed, mounted);
    if why.Some? {
      return Refuse(why.value);
    }
    var written := WrittenTargets(p, targets);
    if written != [] {
      return Refuse(AlreadyWritten(written));
    }
    if HasContents(p, mount) {
      return Refuse(DataMountNotEmpty);
    }
    if !ours {
      return Blank;
    }
    var missing := Missing(p, allowed);
    if missing != [] {
      return Ours(missing);
    }
    return Ready;
  }

  lemma DeviceReadable(p: Probe, fsLabel: string)
    ensures DeviceProblem(p, fsLabel).None? ==> p.lsblk.Some?
  {
  }

  // -------------------------------------------------------------------------
  // What each verdict means
  // -------------------------------------------------------------------------

  /** A whole disk, readable, with nothing stacked on it and nothing of the root filesystem. */
  ghost predicate WholeDisk(p: Probe) {
    && p.device != "" && p.isBlock && p.lsblk.Some?
    && p.lsblk.value.kind == "disk" && p.lsblk.value.children == []
    && "/" !in MountPoints(p.lsblk.value)
    && p.blkidError == "" && Get(p.blkid, "PTTYPE") == ""
  }

  /** A path where nothing of the root disk would be hidden: absent, or an empty listed directory. */
  ghost predicate SafeToCover(p: Probe, path: string) {
    && path in p.types && (p.types[path] == Absent || p.types[path] == Directory)
    && (p.types[path] == Directory ==> path in p.nonempty)
    && (path in p.nonempty ==> !p.nonempty[path])
  }

  /** Mounted from this device, the way the role mounts it. */
  ghost predicate MountedAsOurs(p: Probe, path: string, mount: string, binds: seq<Bind>)
    requires p.lsblk.Some?
  {
    && IsMounted(p.mounts, path)
    && MountProblem(p, p.lsblk.value, path, mount, binds).None?
  }

  /** Every one of the role's paths is either the role's own mount or safe to cover. */
  ghost predicate PathsInOrder(p: Probe, mount: string, binds: seq<Bind>)
    requires p.lsblk.Some?
  {
    forall path :: path in Allowed(mount, binds) ==>
      && (if IsMounted(p.mounts, path) then MountedAsOurs(p, path, mount, binds) else SafeToCover(p, path))
      && path !in p.errors
  }

  ghost predicate OnlyAllowedMounts(p: Probe, mount: string, binds: seq<Bind>)
    requires p.lsblk.Some?
  {
    forall point :: point in MountPoints(p.lsblk.value) ==> IsAllowed(point, Allowed(mount, binds))
  }

  ghost predicate OurSignature(p: Probe, fsLabel: string) {
    Get(Signature(p.blkid), "TYPE") == "xfs" && "LABEL" in p.blkid && p.blkid["LABEL"] == fsLabel
  }

  lemma {:induction false} FirstOfNone(problem: string -> Option<Refusal>, paths: seq<string>)
    ensures FirstOf(problem, paths).None? <==> forall path :: path in paths ==> problem(path).None?
  {
    if paths != [] {
      FirstOfNone(problem, paths[1..]);
      assert forall path :: path in paths <==> path == paths[0] || path in paths[1..];
    }
  }

  lemma {:induction false} OutsideNone(points: seq<string>, allowed: seq<string>)
    ensures Outside(points, allowed) == [] <==> forall p :: p in points ==> IsAllowed(p, allowed)
  {
    if points != [] {
      OutsideNone(points[1..], allowed);
      assert forall p :: p in points <==> p == points[0] || p in points[1..];
    }
  }

  lemma {:induction false} WrittenNone(p: Probe, targets: seq<string>)
    ensures WrittenTargets(p, targets) == [] <==> forall t :: t in targets ==> !HasContents(p, t)
  {
    if targets != [] {
      WrittenNone(p, targets[1..]);
      assert forall t :: t in targets <==> t == targets[0] || t in targets[1..];
    }
  }

  lemma {:induction false} MissingNone(p: Probe, allowed: seq<string>)
    ensures Missing(p, allowed) == [] <==> forall path :: path in allowed ==> IsMounted(p.mounts, path)
    ensures forall path :: path in Missing(p, allowed) <==> path in allowed && !IsMounted(p.mounts, path)
  {
    if allowed != [] {
      MissingNone(p, allowed[1..]);
      assert forall t :: t in allowed <==> t == allowed[0] || t in allowed[1..];
    }
  }

  lemma AllowedIsMountOrTarget(mount: string, binds: seq<Bind>)
    ensures forall path :: path in Allowed(mount, binds) <==> path == mount || path in Targets(binds)
  {
  }

  lemma PlacementClear(p: Probe, mount: string, binds: seq<Bind>)
    requires p.lsblk.Some?
    ensures PlacementProblem(p, p.lsblk.value, mount, binds).None? <==>
            && (Signature(p.blkid) == map[] ==> MountPoints(p.lsblk.value) == [])
            && OnlyAllowedMounts(p, mount, binds) && PathsInOrder(p, mount, binds)
  {
    hide Beneath, SplitSource, KName, HasPrjquota, SubdirFor, Names, MountPoints, FirstOf, Outside, WrittenTargets,
         Signature, IsAllowed, Allowed, Targets, MountProblem;
    var node, allowed := p.lsblk.value, Allowed(mount, binds);
    FirstOfNone(path => MountProblem(p, node, path, mount, binds), allowed);
    FirstOfNone(path => TypeProblem(p, path), allowed);
    FirstOfNone(path => ListingProblem(p, path), allowed);
    OutsideNone(MountPoints(node), allowed);
    WrittenNone(p, Targets(binds));
    AllowedIsMountOrTarget(mount, binds);
    assert PathsInOrder(p, mount, binds) <==>
           forall path :: path in allowed ==>
             && MountProblem(p, node, path, mount, binds).None? && TypeProblem(p, path).None?
             && ListingProblem(p, path).None? && !HasContents(p, path) by {
      forall path | path in allowed
        ensures (if IsMounted(p.mounts, path) then MountedAsOurs(p, path, mount, binds) else SafeToCover(p, path))
                  && path !in p.errors
                <==> MountProblem(p, node, path, mount, binds).None? && TypeProblem(p, path).None?
                     && ListingProblem(p, path).None? && !HasContents(p, path)
      {
        NotMountedNoProblem(p, node, path, mount, binds);
      }
    }
  }

  lemma NotMountedNoProblem(p: Probe, node: Node, path: string, mount: string, binds: seq<Bind>)
    ensures !IsMounted(p.mounts, path) ==> MountProblem(p, node, path, mount, binds).None?
  {
  }

  lemma WalkOfLeaf(n: Node)
    requires n.children == []
    ensures Walk(n) == [n]
  {
    assert WalkAll([]) == [];
  }

  lemma DeviceClear(p: Probe, fsLabel: string)
    ensures DeviceProblem(p, fsLabel).None? <==>
            && WholeDisk(p)
            && (if Signature(p.blkid) == map[] then p.lsblk.value.fstype == "" else OurSignature(p, fsLabel))
  {
    hide MountPoints;
    if p.lsblk.Some? {
      var n := p.lsblk.value;
      if n.children == [] {
        WalkOfLeaf(n);
        assert Walk(n)[0] == n;
        assert HoldsRootFs(Walk(n)) <==> "/" in MountPoints(n);
      }
    }
  }

  /** The only verdict that is formatted: a whole disk without any signature, mounted nowhere,
      and every path of the role either safe to cover or (so the code) mounted as the role does. */
  lemma BlankExactly(p: Probe, mount: string, fsLabel: string, binds: seq<Bind>)
    ensures Classified(p, mount, fsLabel, binds) == Blank <==>
            && WholeDisk(p) && Signature(p.blkid) == map[] && p.lsblk.value.fstype == ""
            && MountPoints(p.lsblk.value) == [] && PathsInOrder(p, mount, binds)
  {
    hide DeviceProblem, PlacementProblem, WholeDisk, PathsInOrder, OurSignature, MountPoints, Signature;
    DeviceClear(p, fsLabel);
    if p.lsblk.Some? {
      PlacementClear(p, mount, binds);
    }
    WholeDiskListed(p);
  }

  lemma WholeDiskListed(p: Probe)
    ensures WholeDisk(p) ==> p.lsblk.Some?
  {
  }

  /** The role's filesystem on a whole disk, mounted only where the role mounts it; `Ours` while a
      path is missing, `Ready` when none is. */
  lemma OursAndReadyExactly(p: Probe, mount: string, fsLabel: string, binds: seq<Bind>)
    ensures var v, allowed := Classified(p, mount, fsLabel, binds), Allowed(mount, binds);
            (v.Ours? || v.Ready?) <==>
            && WholeDisk(p) && Signature(p.blkid) != map[] && OurSignature(p, fsLabel)
            && OnlyAllowedMounts(p, mount, binds) && PathsInOrder(p, mount, binds)
    ensures var v, allowed := Classified(p, mount, fsLabel, binds), Allowed(mount, binds);
            (v.Ours? || v.Ready?) ==>
            && (v.Ready? <==> forall path :: path in allowed ==> MountedAsOurs(p, path, mount, binds))
            && (v.Ours? ==> forall path :: path in v.missing <==> path in allowed && !IsMounted(p.mounts, path))
  {
    hide DeviceProblem, PlacementProblem, WholeDisk, OurSignature, MountPoints, Signature, OnlyAllowedMounts, Missing,
         Allowed, MountProblem;
    DeviceClear(p, fsLabel);
    if p.lsblk.Some? {
      PlacementClear(p, mount, binds);
    }
    WholeDiskListed(p);
    MissingNone(p, Allowed(mount, binds));
  }
}
