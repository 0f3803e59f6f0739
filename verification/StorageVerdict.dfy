/** The verdict on a disk, rule by rule, in the fields of the probe. */
module StorageVerdict {
  import opened Text
  import opened Selection
  import opened NodeStorage
  import opened StorageReads

  // -------------------------------------------------------------------------
  // What each rule asks
  // -------------------------------------------------------------------------

  ghost predicate Mounted(p: Probe, path: string) { path in p.mounts && p.mounts[path].Some? }

  /** The source is this device, under any of the names lsblk and the configuration give it. */
  ghost predicate FromHere(p: Probe, node: Node, source: string) {
    KName(source) != "" && KName(source) in [KName(p.device), KName(node.path), KName(node.name)]
  }

  /** The directory is that of the first bind entry for the path. */
  ghost predicate BindFrom(binds: seq<Bind>, path: string, sub: string) {
    exists k :: 0 <= k < |binds| && binds[k].target == path && sub == "/" + binds[k].subdir
                && forall j :: 0 <= j < k ==> binds[j].target != path
  }

  /** What is mounted at a path is this device: at the data mount from its root with project quotas enforced,
      at a bind target from the directory the role binds there. */
  ghost predicate RightSource(p: Probe, node: Node, path: string, mount: string, binds: seq<Bind>)
    requires Mounted(p, path)
  {
    var fs := p.mounts[path].value;
    var (src, sub) := SplitSource(fs.source);
    && FromHere(p, node, src)
    && if path == mount then sub == "/" && QuotaListed(Split(fs.options, ',')) else BindFrom(binds, path, sub)
  }

  ghost predicate MountFine(p: Probe, node: Node, path: string, mount: string, binds: seq<Bind>) {
    Mounted(p, path) ==> RightSource(p, node, path, mount, binds)
  }

  ghost predicate TypeFine(p: Probe, path: string) {
    Mounted(p, path) || (path in p.types && (p.types[path] == Absent || p.types[path] == Directory))
  }

  ghost predicate ListingFine(p: Probe, path: string) {
    && path !in p.errors
    && (Mounted(p, path) || !(path in p.types && p.types[path] == Directory) || path in p.nonempty)
  }

  ghost predicate Empty(p: Probe, path: string) {
    Mounted(p, path) || path !in p.nonempty || !p.nonempty[path]
  }

  lemma MountFineExactly(p: Probe, node: Node, path: string, mount: string, binds: seq<Bind>)
    requires path in Allowed(mount, binds)
    ensures MountProblem(p, node, path, mount, binds).None? <==> MountFine(p, node, path, mount, binds)
  {
    if Mounted(p, path) {
      RightSourceExactly(p, node, path, mount, binds);
    }
    hide SplitSource, KName, HasPrjquota, QuotaListed, Split, BindFrom, SubdirFor, Allowed, Names, RightSource;
  }

  lemma RightSourceExactly(p: Probe, node: Node, path: string, mount: string, binds: seq<Bind>)
    requires path in Allowed(mount, binds) && Mounted(p, path)
    ensures RightSource(p, node, path, mount, binds) <==>
            var fs := p.mounts[path].value;
            var (src, sub) := SplitSource(fs.source);
            && KName(src) in Names(p.device, node)
            && if path == mount then sub == "/" && HasPrjquota(fs.options) else sub == "/" + SubdirFor(path, binds)
  {
    var fs := p.mounts[path].value;
    QuotaInOptions(fs.options);
    FromHereExactly(p, node, SplitSource(fs.source).0);
    if path != mount {
      TargetIsBound(path, mount, binds);
    }
    hide SplitSource, KName, HasPrjquota, QuotaListed, Split, BindFrom, SubdirFor, Allowed, Names, FromHere;
  }

  lemma FromHereExactly(p: Probe, node: Node, source: string)
    ensures FromHere(p, node, source) <==> KName(source) in Names(p.device, node)
  {
    hide KName;
  }

  lemma TargetIsBound(path: string, mount: string, binds: seq<Bind>)
    requires path in Allowed(mount, binds) && path != mount
    ensures forall sub :: BindFrom(binds, path, sub) <==> sub == "/" + SubdirFor(path, binds)
  {
    var i :| 0 <= i < |Targets(binds)| && Targets(binds)[i] == path;
    var k := FirstBind(path, binds, i);
  }

  lemma {:induction false} FirstBind(path: string, binds: seq<Bind>, i: nat) returns (k: nat)
    requires i < |binds| && binds[i].target == path
    ensures k < |binds| && binds[k].target == path && SubdirFor(path, binds) == binds[k].subdir
    ensures forall j :: 0 <= j < k ==> binds[j].target != path
  {
    if binds[0].target == path {
      k := 0;
    } else {
      k := FirstBind(path, binds[1..], i - 1);
      k := k + 1;
    }
  }

  lemma TypeFineExactly(p: Probe, path: string)
    ensures TypeProblem(p, path).None? <==> TypeFine(p, path)
  {
  }

  lemma ListingFineExactly(p: Probe, path: string)
    ensures ListingProblem(p, path).None? <==> ListingFine(p, path)
  {
  }

  lemma EmptyExactly(p: Probe, path: string)
    ensures HasContents(p, path) <==> !Empty(p, path)
  {
  }

  // -------------------------------------------------------------------------
  // The rules in their order
  // -------------------------------------------------------------------------

  ghost predicate DeviceRead(p: Probe) { p.device != "" && p.isBlock && p.lsblk.Some? }

  ghost predicate AloneOnDisk(p: Probe) {
    && DeviceRead(p) && !RootInTree(p.lsblk.value)
    && p.lsblk.value.kind == "disk" && p.lsblk.value.children == []
  }

  ghost predicate Unpartitioned(p: Probe) {
    AloneOnDisk(p) && p.blkidError == "" && ("PTTYPE" in p.blkid ==> p.blkid["PTTYPE"] == "")
  }

  /** blkid found something other than the name of the device itself. */
  ghost predicate Signed(p: Probe) { exists key :: key in p.blkid && key != "DEVNAME" }

  ghost predicate OursOnDisk(p: Probe, fsLabel: string) {
    && Unpartitioned(p) && Signed(p)
    && "TYPE" in p.blkid && p.blkid["TYPE"] == "xfs" && "LABEL" in p.blkid && p.blkid["LABEL"] == fsLabel
  }

  ghost predicate BareDisk(p: Probe) { Unpartitioned(p) && !Signed(p) && p.lsblk.value.fstype == "" }

  /** Mounted only where the role's paths are or beneath them, and a bare disk nowhere. */
  ghost predicate PlacedRight(p: Probe, mount: string, fsLabel: string, binds: seq<Bind>) {
    && (OursOnDisk(p, fsLabel) || BareDisk(p))
    && (!Signed(p) ==> MountPoints(p.lsblk.value) == [])
    && forall point :: point in MountPoints(p.lsblk.value) ==> IsAllowed(point, Allowed(mount, binds))
  }

  ghost predicate MountsRight(p: Probe, mount: string, fsLabel: string, binds: seq<Bind>) {
    && PlacedRight(p, mount, fsLabel, binds)
    && forall path :: path in Allowed(mount, binds) ==> MountFine(p, p.lsblk.value, path, mount, binds)
  }

  ghost predicate TypesRight(p: Probe, mount: string, fsLabel: string, binds: seq<Bind>) {
    MountsRight(p, mount, fsLabel, binds) && forall path :: path in Allowed(mount, binds) ==> TypeFine(p, path)
  }

  ghost predicate ListingsRight(p: Probe, mount: string, fsLabel: string, binds: seq<Bind>) {
    TypesRight(p, mount, fsLabel, binds) && forall path :: path in Allowed(mount, binds) ==> ListingFine(p, path)
  }

  /** The path is the first one that is not fine. */
  ghost predicate FirstBad(paths: seq<string>, path: string, fine: string -> bool) {
    exists i :: 0 <= i < |paths| && paths[i] == path && !fine(path) && forall j :: 0 <= j < i ==> fine(paths[j])
  }

  /** Why a disk is refused: the rule that fails, every rule before it having passed. */
  ghost predicate Refused(p: Probe, mount: string, fsLabel: string, binds: seq<Bind>, why: Refusal) {
    match why
    case NoDevice => p.device == ""
    case NotABlockDevice => p.device != "" && !p.isBlock
    case LsblkUnreadable => p.device != "" && p.isBlock && p.lsblk.None?
    case HoldsRoot => DeviceRead(p) && RootInTree(p.lsblk.value)
    case NotAWholeDisk(kind) =>
      DeviceRead(p) && !RootInTree(p.lsblk.value) && p.lsblk.value.kind == kind && kind != "disk"
    case HasChildren =>
      && DeviceRead(p) && !RootInTree(p.lsblk.value)
      && p.lsblk.value.kind == "disk" && p.lsblk.value.children != []
    case BlkidUnreadable(text) => AloneOnDisk(p) && p.blkidError == text && text != ""
    case PartitionTable(kind) =>
      AloneOnDisk(p) && p.blkidError == "" && kind != "" && "PTTYPE" in p.blkid && p.blkid["PTTYPE"] == kind
    case UnknownSignature => Unpartitioned(p) && Signed(p) && ("TYPE" in p.blkid ==> p.blkid["TYPE"] == "")
    case ForeignSignature(fstype) =>
      && Unpartitioned(p) && Signed(p)
      && "TYPE" in p.blkid && p.blkid["TYPE"] == fstype && fstype != "" && fstype != "xfs"
    case ForeignLabel =>
      && Unpartitioned(p) && Signed(p) && "TYPE" in p.blkid && p.blkid["TYPE"] == "xfs"
      && ("LABEL" in p.blkid ==> p.blkid["LABEL"] != fsLabel)
    case LsblkDisagrees(fstype) =>
      Unpartitioned(p) && !Signed(p) && p.lsblk.value.fstype == fstype && fstype != ""
    case MountedWithoutSignature(points) => BareDisk(p) && MountPoints(p.lsblk.value) == points && points != []
    case MountedOutside(points) =>
      && (OursOnDisk(p, fsLabel) || BareDisk(p)) && (!Signed(p) ==> MountPoints(p.lsblk.value) == [])
      && points != [] && Selects(MountPoints(p.lsblk.value), points, x => !IsAllowed(x, Allowed(mount, binds)))
    case MountedFromElsewhere(path) =>
      && PlacedRight(p, mount, fsLabel, binds) && BadMount(p, mount, binds, path)
      && !FromHere(p, p.lsblk.value, SplitSource(p.mounts[path].value.source).0)
    case MountedFromSubdir(path) =>
      && PlacedRight(p, mount, fsLabel, binds) && BadMount(p, mount, binds, path) && path == mount
      && FromHere(p, p.lsblk.value, SplitSource(p.mounts[path].value.source).0)
      && SplitSource(p.mounts[path].value.source).1 != "/"
    case NoProjectQuota(path) =>
      && PlacedRight(p, mount, fsLabel, binds) && BadMount(p, mount, binds, path) && path == mount
      && FromHere(p, p.lsblk.value, SplitSource(p.mounts[path].value.source).0)
      && SplitSource(p.mounts[path].value.source).1 == "/"
    case WrongBindSource(path) =>
      && PlacedRight(p, mount, fsLabel, binds) && BadMount(p, mount, binds, path) && path != mount
      && FromHere(p, p.lsblk.value, SplitSource(p.mounts[path].value.source).0)
    case PathUnchecked(path) =>
      && MountsRight(p, mount, fsLabel, binds) && FirstBad(Allowed(mount, binds), path, x => TypeFine(p, x))
      && (path in p.types ==> p.types[path] == Unknown)
    case NotADirectory(path, type_) =>
      && MountsRight(p, mount, fsLabel, binds) && FirstBad(Allowed(mount, binds), path, x => TypeFine(p, x))
      && path in p.types && p.types[path] == type_ && type_ != Unknown
    case Unlistable(path) =>
      && TypesRight(p, mount, fsLabel, binds) && FirstBad(Allowed(mount, binds), path, x => ListingFine(p, x))
      && path in p.errors
    case Unlisted(path) =>
      && TypesRight(p, mount, fsLabel, binds) && FirstBad(Allowed(mount, binds), path, x => ListingFine(p, x))
      && path !in p.errors
    case AlreadyWritten(paths) =>
      ListingsRight(p, mount, fsLabel, binds) && paths != [] && Selects(Targets(binds), paths, x => !Empty(p, x))
    case DataMountNotEmpty =>
      && ListingsRight(p, mount, fsLabel, binds) && (forall t :: t in Targets(binds) ==> Empty(p, t))
      && !Empty(p, mount)
  }

  ghost predicate BadMount(p: Probe, mount: string, binds: seq<Bind>, path: string)
    ensures BadMount(p, mount, binds, path) ==> p.lsblk.Some? && path in p.mounts && p.mounts[path].Some?
  {
    p.lsblk.Some? && FirstBad(Allowed(mount, binds), path, x => MountFine(p, p.lsblk.value, x, mount, binds))
  }

  // -------------------------------------------------------------------------
  // The device
  // -------------------------------------------------------------------------

  lemma SignedExactly(p: Probe)
    ensures Signed(p) <==> Signature(p.blkid) != map[]
    ensures forall key :: key != "DEVNAME" ==> (key in Signature(p.blkid) <==> key in p.blkid)
    ensures forall key :: key in Signature(p.blkid) ==> Signature(p.blkid)[key] == p.blkid[key]
  {
    var s := Signature(p.blkid);
    if s != map[] {
      assert exists key :: key in s;
    }
    if Signed(p) {
      var key :| key in p.blkid && key != "DEVNAME";
      assert key in s;
    }
  }

  ghost predicate OfDevice(why: Refusal) {
    || why.NoDevice? || why.NotABlockDevice? || why.LsblkUnreadable? || why.HoldsRoot? || why.NotAWholeDisk?
    || why.HasChildren? || why.BlkidUnreadable? || why.PartitionTable? || why.UnknownSignature?
    || why.ForeignSignature? || why.ForeignLabel? || why.LsblkDisagrees?
  }

  lemma DeviceExactly(p: Probe, mount: string, fsLabel: string, binds: seq<Bind>)
    ensures DeviceProblem(p, fsLabel).None? <==> OursOnDisk(p, fsLabel) || BareDisk(p)
    ensures forall why :: DeviceProblem(p, fsLabel) == Some(why) <==>
                          OfDevice(why) && Refused(p, mount, fsLabel, binds, why)
  {
    SignedExactly(p);
    if p.lsblk.Some? {
      RootIsMet(p.lsblk.value);
    }
    hide Signed, Signature, Walk, HoldsRootFs, RootInTree, MountPoints, PlacedRight, MountsRight, TypesRight,
         ListingsRight, BadMount, FromHere, SplitSource, IsAllowed, Selects, FirstBad, Allowed, Targets, Empty;
  }

  // -------------------------------------------------------------------------
  // The role's paths
  // -------------------------------------------------------------------------

  lemma {:induction false} FirstOfExactly(problem: string -> Option<Refusal>, paths: seq<string>, fine: string -> bool,
                                          path: string, why: Refusal)
    requires forall x :: x in paths ==> (problem(x).None? <==> fine(x))
    requires forall x :: x in paths && problem(x) == Some(why) ==> x == path
    ensures FirstOf(problem, paths).None? <==> forall x :: x in paths ==> fine(x)
    ensures FirstOf(problem, paths) == Some(why) <==> FirstBad(paths, path, fine) && problem(path) == Some(why)
  {
    if paths != [] {
      assert paths == [paths[0]] + paths[1..];
      FirstOfExactly(problem, paths[1..], fine, path, why);
      FirstBadRest(paths, path, fine);
    }
  }

  lemma FirstBadRest(paths: seq<string>, path: string, fine: string -> bool)
    requires paths != []
    ensures FirstBad(paths, path, fine) <==>
            if fine(paths[0]) then FirstBad(paths[1..], path, fine) else path == paths[0]
  {
    if fine(paths[0]) {
      if i :| 0 <= i < |paths[1..]| && paths[1..][i] == path && !fine(path)
              && forall j :: 0 <= j < i ==> fine(paths[1..][j])
      {
        assert forall j :: 0 < j < i + 1 ==> paths[j] == paths[1..][j - 1];
        assert paths[i + 1] == path && forall j :: 0 <= j < i + 1 ==> fine(paths[j]);
      }
      if i :| 0 <= i < |paths| && paths[i] == path && !fine(path) && forall j :: 0 <= j < i ==> fine(paths[j]) {
        assert paths[1..][i - 1] == path && forall j :: 0 <= j < i - 1 ==> fine(paths[1..][j]);
      }
    } else {
      assert paths[0] == path ==> FirstBad(paths, path, fine);
    }
  }

  /** The path a refusal is about. */
  ghost function Named(why: Refusal): string {
    match why
    case MountedFromElsewhere(path) => path
    case MountedFromSubdir(path) => path
    case NoProjectQuota(path) => path
    case WrongBindSource(path) => path
    case PathUnchecked(path) => path
    case NotADirectory(path, _) => path
    case Unlistable(path) => path
    case Unlisted(path) => path
    case _ => ""
  }

  ghost predicate OfMounts(why: Refusal) {
    why.MountedFromElsewhere? || why.MountedFromSubdir? || why.NoProjectQuota? || why.WrongBindSource?
  }

  lemma MountSays(p: Probe, node: Node, x: string, mount: string, binds: seq<Bind>, why: Refusal)
    requires x in Allowed(mount, binds)
    ensures MountProblem(p, node, x, mount, binds) == Some(why) <==>
            && OfMounts(why) && Named(why) == x && !MountFine(p, node, x, mount, binds)
            && var (src, sub) := SplitSource(p.mounts[x].value.source);
            && (why.MountedFromElsewhere? <==> !FromHere(p, node, src))
            && (why.MountedFromSubdir? ==> x == mount && sub != "/")
            && (why.NoProjectQuota? ==> x == mount && sub == "/")
            && (why.WrongBindSource? ==> x != mount)
  {
    MountFineExactly(p, node, x, mount, binds);
    if Mounted(p, x) {
      FromHereExactly(p, node, SplitSource(p.mounts[x].value.source).0);
    }
    hide SplitSource, KName, HasPrjquota, RightSource, BindFrom, SubdirFor, Allowed, Names, FromHere;
  }

  lemma TypeSays(p: Probe, x: string, why: Refusal)
    ensures TypeProblem(p, x) == Some(why) <==>
            && (why.PathUnchecked? || why.NotADirectory?) && Named(why) == x && !TypeFine(p, x)
            && (why.PathUnchecked? <==> (x in p.types ==> p.types[x] == Unknown))
            && (why.NotADirectory? ==> x in p.types && p.types[x] == why.type_)
  {
  }

  lemma ListingSays(p: Probe, x: string, why: Refusal)
    ensures ListingProblem(p, x) == Some(why) <==>
            && (why.Unlistable? || why.Unlisted?) && Named(why) == x && !ListingFine(p, x)
            && (why.Unlistable? <==> x in p.errors)
  {
  }

  lemma {:induction false} OutsideKept(points: seq<string>, allowed: seq<string>)
    ensures Outside(points, allowed) == Kept(points, x => !IsAllowed(x, allowed))
  {
    if points != [] {
      OutsideKept(points[1..], allowed);
      KeptFront(points[0], points[1..], x => !IsAllowed(x, allowed));
      assert points == [points[0]] + points[1..];
    }
  }

  lemma {:induction false} WrittenKept(p: Probe, targets: seq<string>)
    ensures WrittenTargets(p, targets) == Kept(targets, x => !Empty(p, x))
  {
    hide HasContents, Empty;
    if targets != [] {
      WrittenKept(p, targets[1..]);
      EmptyExactly(p, targets[0]);
      KeptFront(targets[0], targets[1..], x => !Empty(p, x));
      assert targets == [targets[0]] + targets[1..];
    }
  }

  lemma {:induction false} MissingKept(p: Probe, allowed: seq<string>)
    ensures Missing(p, allowed) == Kept(allowed, x => !Mounted(p, x))
  {
    if allowed != [] {
      MissingKept(p, allowed[1..]);
      KeptFront(allowed[0], allowed[1..], x => !Mounted(p, x));
      assert allowed == [allowed[0]] + allowed[1..];
    }
  }

  ghost predicate MountRefused(p: Probe, mount: string, binds: seq<Bind>, why: Refusal) {
    && OfMounts(why) && BadMount(p, mount, binds, Named(why))
    && var (src, sub) := SplitSource(p.mounts[Named(why)].value.source);
    && (why.MountedFromElsewhere? <==> !FromHere(p, p.lsblk.value, src))
    && (why.MountedFromSubdir? ==> Named(why) == mount && sub != "/")
    && (why.NoProjectQuota? ==> Named(why) == mount && sub == "/")
    && (why.WrongBindSource? ==> Named(why) != mount)
  }

  lemma MountsExactly(p: Probe, mount: string, binds: seq<Bind>, why: Refusal)
    requires p.lsblk.Some?
    ensures var node, allowed := p.lsblk.value, Allowed(mount, binds);
            var found := FirstOf(path => MountProblem(p, node, path, mount, binds), allowed);
            && (found.None? <==> forall path :: path in allowed ==> MountFine(p, node, path, mount, binds))
            && (found == Some(why) <==> MountRefused(p, mount, binds, why))
  {
    var node, allowed := p.lsblk.value, Allowed(mount, binds);
    var problem := path => MountProblem(p, node, path, mount, binds);
    var fine := path => MountFine(p, node, path, mount, binds);
    forall x | x in allowed
      ensures problem(x).None? <==> fine(x)
      ensures problem(x) == Some(why) ==> x == Named(why)
    {
      MountFineExactly(p, node, x, mount, binds);
      MountSays(p, node, x, mount, binds, why);
    }
    FirstOfExactly(problem, allowed, fine, Named(why), why);
    BadIsThere(allowed, Named(why), fine);
    if Named(why) in allowed {
      MountSays(p, node, Named(why), mount, binds, why);
    }
    hide SplitSource, FromHere, MountProblem, MountFine, Allowed, FirstOf, FirstBad, OfMounts, Named;
  }

  lemma BadIsThere(paths: seq<string>, path: string, fine: string -> bool)
    ensures FirstBad(paths, path, fine) ==> path in paths && !fine(path)
  {
  }

  lemma TypesExactly(p: Probe, allowed: seq<string>, why: Refusal)
    ensures var found := FirstOf(path => TypeProblem(p, path), allowed);
            && (found.None? <==> forall path :: path in allowed ==> TypeFine(p, path))
            && (found == Some(why) <==> TypeRefused(p, allowed, why))
  {
    var problem, fine := path => TypeProblem(p, path), x => TypeFine(p, x);
    forall x
      ensures problem(x).None? <==> fine(x)
      ensures problem(x) == Some(why) ==> x == Named(why)
    {
      TypeFineExactly(p, x);
      TypeSays(p, x, why);
    }
    FirstOfExactly(problem, allowed, fine, Named(why), why);
    BadIsThere(allowed, Named(why), fine);
    TypeSays(p, Named(why), why);
    hide TypeProblem, TypeFine, FirstOf, FirstBad, Named;
  }

  lemma ListingsExactly(p: Probe, allowed: seq<string>, why: Refusal)
    ensures var found := FirstOf(path => ListingProblem(p, path), allowed);
            && (found.None? <==> forall path :: path in allowed ==> ListingFine(p, path))
            && (found == Some(why) <==> ListingRefused(p, allowed, why))
  {
    var problem, fine := path => ListingProblem(p, path), x => ListingFine(p, x);
    forall x
      ensures problem(x).None? <==> fine(x)
      ensures problem(x) == Some(why) ==> x == Named(why)
    {
      ListingFineExactly(p, x);
      ListingSays(p, x, why);
    }
    FirstOfExactly(problem, allowed, fine, Named(why), why);
    BadIsThere(allowed, Named(why), fine);
    ListingSays(p, Named(why), why);
    hide ListingProblem, ListingFine, FirstOf, FirstBad, Named;
  }

  ghost predicate AllEmpty(p: Probe, mount: string, binds: seq<Bind>) {
    (forall t :: t in Targets(binds) ==> Empty(p, t)) && Empty(p, mount)
  }

  lemma WrittenExactly(p: Probe, binds: seq<Bind>, paths: seq<string>)
    ensures WrittenTargets(p, Targets(binds)) == paths <==> Selects(Targets(binds), paths, x => !Empty(p, x))
    ensures WrittenTargets(p, Targets(binds)) == [] <==> forall t :: t in Targets(binds) ==> Empty(p, t)
  {
    hide Empty, WrittenTargets, Selects, Kept;
    WrittenKept(p, Targets(binds));
    SelectsExactly(Targets(binds), paths, x => !Empty(p, x));
    KeptMembers(Targets(binds), x => !Empty(p, x));
  }

  lemma OutsideExactly(points: seq<string>, allowed: seq<string>, out: seq<string>)
    ensures Outside(points, allowed) == out <==> Selects(points, out, x => !IsAllowed(x, allowed))
    ensures Outside(points, allowed) == [] <==> forall x :: x in points ==> IsAllowed(x, allowed)
  {
    hide IsAllowed, Outside, Selects, Kept;
    OutsideKept(points, allowed);
    SelectsExactly(points, out, x => !IsAllowed(x, allowed));
    KeptMembers(points, x => !IsAllowed(x, allowed));
  }

  ghost predicate OfTypes(why: Refusal) { why.PathUnchecked? || why.NotADirectory? }

  ghost predicate OfListings(why: Refusal) { why.Unlistable? || why.Unlisted? }

  ghost predicate TypeRefused(p: Probe, allowed: seq<string>, why: Refusal) {
    && OfTypes(why) && FirstBad(allowed, Named(why), x => TypeFine(p, x))
    && (why.PathUnchecked? <==> (Named(why) in p.types ==> p.types[Named(why)] == Unknown))
    && (why.NotADirectory? ==> Named(why) in p.types && p.types[Named(why)] == why.type_)
  }

  ghost predicate ListingRefused(p: Probe, allowed: seq<string>, why: Refusal) {
    && OfListings(why) && FirstBad(allowed, Named(why), x => ListingFine(p, x))
    && (why.Unlistable? <==> Named(why) in p.errors)
  }

  ghost predicate ContentsRefused(p: Probe, mount: string, binds: seq<Bind>, why: Refusal) {
    match why
    case AlreadyWritten(paths) => paths != [] && Selects(Targets(binds), paths, x => !Empty(p, x))
    case DataMountNotEmpty => (forall t :: t in Targets(binds) ==> Empty(p, t)) && !Empty(p, mount)
    case _ => false
  }

  lemma MountRules(p: Probe, mount: string, fsLabel: string, binds: seq<Bind>, why: Refusal)
    requires OfMounts(why)
    ensures Refused(p, mount, fsLabel, binds, why) <==>
            PlacedRight(p, mount, fsLabel, binds) && MountRefused(p, mount, binds, why)
  {
    hide PlacedRight, MountsRight, TypesRight, ListingsRight, BadMount, FromHere, SplitSource, Selects, Allowed,
         Targets, Empty, OursOnDisk, BareDisk, Signed, RootInTree, MountPoints, IsAllowed, MountFine;
    if BadMount(p, mount, binds, Named(why)) {
      BadMountIs(p, mount, binds, Named(why));
    }
    hide FirstBad, TypeFine, ListingFine;
  }

  lemma TypeRules(p: Probe, mount: string, fsLabel: string, binds: seq<Bind>, why: Refusal)
    requires OfTypes(why)
    ensures Refused(p, mount, fsLabel, binds, why) <==>
            MountsRight(p, mount, fsLabel, binds) && TypeRefused(p, Allowed(mount, binds), why)
  {
    hide PlacedRight, MountsRight, TypesRight, ListingsRight, BadMount, FromHere, SplitSource, Selects, Allowed,
         Targets, Empty, OursOnDisk, BareDisk, Signed, RootInTree, MountPoints, IsAllowed, FirstBad, TypeFine,
         ListingFine;
  }

  lemma ListingRules(p: Probe, mount: string, fsLabel: string, binds: seq<Bind>, why: Refusal)
    requires OfListings(why)
    ensures Refused(p, mount, fsLabel, binds, why) <==>
            TypesRight(p, mount, fsLabel, binds) && ListingRefused(p, Allowed(mount, binds), why)
  {
    hide PlacedRight, MountsRight, TypesRight, ListingsRight, BadMount, FromHere, SplitSource, Selects, Allowed,
         Targets, Empty, OursOnDisk, BareDisk, Signed, RootInTree, MountPoints, IsAllowed, FirstBad, TypeFine,
         ListingFine;
  }

  lemma ContentsRules(p: Probe, mount: string, fsLabel: string, binds: seq<Bind>, why: Refusal)
    requires why.AlreadyWritten? || why.DataMountNotEmpty?
    ensures Refused(p, mount, fsLabel, binds, why) <==>
            ListingsRight(p, mount, fsLabel, binds) && ContentsRefused(p, mount, binds, why)
  {
    hide PlacedRight, MountsRight, TypesRight, ListingsRight, BadMount, FromHere, SplitSource, Selects, Allowed,
         Targets, Empty, OursOnDisk, BareDisk, Signed, RootInTree, MountPoints, IsAllowed, FirstBad, TypeFine,
         ListingFine;
  }

  lemma BadMountIs(p: Probe, mount: string, binds: seq<Bind>, path: string)
    requires BadMount(p, mount, binds, path)
    ensures p.lsblk.Some? && !MountFine(p, p.lsblk.value, path, mount, binds)
  {
    BadIsThere(Allowed(mount, binds), path, x => MountFine(p, p.lsblk.value, x, mount, binds));
  }

  /** The first of the answers that is one. */
  ghost function Earliest(m: Option<Refusal>, t: Option<Refusal>, l: Option<Refusal>, rest: Option<Refusal>)
    : Option<Refusal>
  {
    if m.Some? then m else if t.Some? then t else if l.Some? then l else rest
  }

  ghost function ContentsProblem(p: Probe, mount: string, binds: seq<Bind>): Option<Refusal> {
    if WrittenTargets(p, Targets(binds)) != [] then Some(AlreadyWritten(WrittenTargets(p, Targets(binds))))
    else if HasContents(p, mount) then Some(DataMountNotEmpty)
    else None
  }

  lemma ContentsExactly(p: Probe, mount: string, binds: seq<Bind>, why: Refusal)
    ensures ContentsProblem(p, mount, binds).None? <==> AllEmpty(p, mount, binds)
    ensures ContentsProblem(p, mount, binds) == Some(why) <==> ContentsRefused(p, mount, binds, why)
  {
    WrittenExactly(p, binds, if why.AlreadyWritten? then why.paths else []);
    EmptyExactly(p, mount);
    hide Empty, WrittenTargets, Selects, HasContents, Targets;
  }

  lemma PathsLast(p: Probe, mount: string, fsLabel: string, binds: seq<Bind>)
    requires PlacedRight(p, mount, fsLabel, binds)
    ensures var node, allowed := p.lsblk.value, Allowed(mount, binds);
            PlacementProblem(p, node, mount, binds)
            == Earliest(FirstOf(path => MountProblem(p, node, path, mount, binds), allowed),
                        FirstOf(path => TypeProblem(p, path), allowed),
                        FirstOf(path => ListingProblem(p, path), allowed), ContentsProblem(p, mount, binds))
  {
    SignedExactly(p);
    OutsideNone(MountPoints(p.lsblk.value), Allowed(mount, binds));
    PointsFine(p, mount, fsLabel, binds);
    hide Signed, Signature, MountPoints, IsAllowed, Allowed, Targets, FirstOf, Outside, WrittenTargets, HasContents,
         MountProblem, TypeProblem, ListingProblem, PlacedRight;
  }

  lemma PointsFine(p: Probe, mount: string, fsLabel: string, binds: seq<Bind>)
    requires PlacedRight(p, mount, fsLabel, binds)
    ensures Signed(p) || MountPoints(p.lsblk.value) == []
    ensures forall point :: point in MountPoints(p.lsblk.value) ==> IsAllowed(point, Allowed(mount, binds))
  {
    hide Signed, MountPoints, IsAllowed, Allowed;
  }

  ghost predicate OfPoints(why: Refusal) { why.MountedWithoutSignature? || why.MountedOutside? }

  ghost predicate PointsRefused(p: Probe, mount: string, binds: seq<Bind>, why: Refusal)
    requires p.lsblk.Some?
  {
    match why
    case MountedWithoutSignature(points) => !Signed(p) && MountPoints(p.lsblk.value) == points && points != []
    case MountedOutside(points) =>
      && (!Signed(p) ==> MountPoints(p.lsblk.value) == []) && points != []
      && Selects(MountPoints(p.lsblk.value), points, x => !IsAllowed(x, Allowed(mount, binds)))
    case _ => false
  }

  lemma PointsRule(p: Probe, mount: string, fsLabel: string, binds: seq<Bind>, why: Refusal)
    requires OursOnDisk(p, fsLabel) || BareDisk(p)
    ensures OfPoints(why) ==> (Refused(p, mount, fsLabel, binds, why) <==> PointsRefused(p, mount, binds, why))
    ensures PlacedRight(p, mount, fsLabel, binds) <==>
            && (Signed(p) || MountPoints(p.lsblk.value) == [])
            && forall point :: point in MountPoints(p.lsblk.value) ==> IsAllowed(point, Allowed(mount, binds))
  {
    BareOrOurs(p, fsLabel);
    hide Signed, MountPoints, IsAllowed, Selects, Allowed, Targets, OursOnDisk, BareDisk, MountsRight, TypesRight,
         ListingsRight, BadMount, FromHere, SplitSource, FirstBad, RootInTree, Empty;
  }

  lemma PointsFirst(p: Probe, mount: string, fsLabel: string, binds: seq<Bind>, why: Refusal)
    requires OursOnDisk(p, fsLabel) || BareDisk(p)
    ensures PlacedRight(p, mount, fsLabel, binds) ==> !PointsRefused(p, mount, binds, why)
    ensures !PlacedRight(p, mount, fsLabel, binds) ==>
              && PlacementProblem(p, p.lsblk.value, mount, binds).Some?
              && (PlacementProblem(p, p.lsblk.value, mount, binds) == Some(why) <==>
                    PointsRefused(p, mount, binds, why))
  {
    PointsRule(p, mount, fsLabel, binds, why);
    SignedExactly(p);
    OutsideExactly(MountPoints(p.lsblk.value), Allowed(mount, binds), if why.MountedOutside? then why.points else []);
    hide Signed, Signature, MountPoints, IsAllowed, Selects, Allowed, Targets, FirstOf, Outside, PlacedRight, Refused,
         WrittenTargets, HasContents, MountProblem, TypeProblem, ListingProblem, OursOnDisk, BareDisk;
  }

  lemma BareOrOurs(p: Probe, fsLabel: string)
    ensures BareDisk(p) ==> !Signed(p)
    ensures OursOnDisk(p, fsLabel) ==> Signed(p)
  {
    hide Signed;
  }

  /** Each set of paths is right when the one before it is and every path passes the next rule. */
  lemma Rights(p: Probe, mount: string, fsLabel: string, binds: seq<Bind>)
    requires PlacedRight(p, mount, fsLabel, binds)
    ensures p.lsblk.Some?
    ensures MountsRight(p, mount, fsLabel, binds) <==>
            forall path :: path in Allowed(mount, binds) ==> MountFine(p, p.lsblk.value, path, mount, binds)
    ensures TypesRight(p, mount, fsLabel, binds) <==>
            MountsRight(p, mount, fsLabel, binds) && forall path :: path in Allowed(mount, binds) ==> TypeFine(p, path)
    ensures ListingsRight(p, mount, fsLabel, binds) <==>
            && TypesRight(p, mount, fsLabel, binds)
            && forall path :: path in Allowed(mount, binds) ==> ListingFine(p, path)
  {
    hide MountFine, TypeFine, ListingFine, Allowed, IsAllowed, MountPoints, Signed;
  }

  lemma EarliestIs(m: Option<Refusal>, t: Option<Refusal>, l: Option<Refusal>, rest: Option<Refusal>, why: Refusal)
    ensures Earliest(m, t, l, rest) == Some(why) <==>
            || m == Some(why) || (m.None? && t == Some(why)) || (m.None? && t.None? && l == Some(why))
            || (m.None? && t.None? && l.None? && rest == Some(why))
    ensures Earliest(m, t, l, rest).None? <==> m.None? && t.None? && l.None? && rest.None?
  {
  }

  lemma Kinds(p: Probe, mount: string, binds: seq<Bind>, why: Refusal)
    requires p.lsblk.Some?
    ensures MountRefused(p, mount, binds, why) ==> OfMounts(why)
    ensures TypeRefused(p, Allowed(mount, binds), why) ==> OfTypes(why)
    ensures ListingRefused(p, Allowed(mount, binds), why) ==> OfListings(why)
    ensures ContentsRefused(p, mount, binds, why) ==> why.AlreadyWritten? || why.DataMountNotEmpty?
    ensures PointsRefused(p, mount, binds, why) ==> OfPoints(why)
    ensures OfMounts(why) ==> !OfTypes(why) && !OfListings(why) && !OfPoints(why) && !OfDevice(why)
    ensures OfTypes(why) ==> !OfListings(why) && !OfPoints(why) && !OfDevice(why)
    ensures OfListings(why) ==> !OfPoints(why) && !OfDevice(why)
    ensures OfPoints(why) ==> !OfDevice(why)
    ensures why.AlreadyWritten? || why.DataMountNotEmpty? <==>
            !OfMounts(why) && !OfTypes(why) && !OfListings(why) && !OfPoints(why) && !OfDevice(why)
  {
    hide BadMount, FromHere, SplitSource, FirstBad, Selects, Allowed, Targets, Empty, MountPoints, Signed, Named;
  }

  lemma PathsExactly(p: Probe, mount: string, fsLabel: string, binds: seq<Bind>, why: Refusal)
    requires PlacedRight(p, mount, fsLabel, binds) && p.lsblk.Some?
    ensures PlacementProblem(p, p.lsblk.value, mount, binds).None? <==>
            ListingsRight(p, mount, fsLabel, binds) && AllEmpty(p, mount, binds)
    ensures PlacementProblem(p, p.lsblk.value, mount, binds) == Some(why) <==>
            !OfDevice(why) && !OfPoints(why) && Refused(p, mount, fsLabel, binds, why)
  {
    hide *;
    var node, allowed := p.lsblk.value, Allowed(mount, binds);
    PathsLast(p, mount, fsLabel, binds);
    EarliestIs(FirstOf(path => MountProblem(p, node, path, mount, binds), allowed),
               FirstOf(path => TypeProblem(p, path), allowed),
               FirstOf(path => ListingProblem(p, path), allowed), ContentsProblem(p, mount, binds), why);
    MountsExactly(p, mount, binds, why);
    TypesExactly(p, allowed, why);
    ListingsExactly(p, allowed, why);
    ContentsExactly(p, mount, binds, why);
    Rights(p, mount, fsLabel, binds);
    Kinds(p, mount, binds, why);
    if OfMounts(why) {
      MountRules(p, mount, fsLabel, binds, why);
    } else if OfTypes(why) {
      TypeRules(p, mount, fsLabel, binds, why);
    } else if OfListings(why) {
      ListingRules(p, mount, fsLabel, binds, why);
    } else if why.AlreadyWritten? || why.DataMountNotEmpty? {
      ContentsRules(p, mount, fsLabel, binds, why);
    }
  }

  lemma PlacementExactly(p: Probe, mount: string, fsLabel: string, binds: seq<Bind>, why: Refusal)
    requires (OursOnDisk(p, fsLabel) || BareDisk(p)) && p.lsblk.Some?
    ensures PlacementProblem(p, p.lsblk.value, mount, binds).None? <==>
            ListingsRight(p, mount, fsLabel, binds) && AllEmpty(p, mount, binds)
    ensures PlacementProblem(p, p.lsblk.value, mount, binds) == Some(why) <==>
            !OfDevice(why) && Refused(p, mount, fsLabel, binds, why)
  {
    hide *;
    PointsFirst(p, mount, fsLabel, binds, why);
    PointsRule(p, mount, fsLabel, binds, why);
    Kinds(p, mount, binds, why);
    NeedsPlaced(p, mount, fsLabel, binds, why);
    if PlacedRight(p, mount, fsLabel, binds) {
      PathsExactly(p, mount, fsLabel, binds, why);
    }
  }

  lemma NeedsPlaced(p: Probe, mount: string, fsLabel: string, binds: seq<Bind>, why: Refusal)
    ensures ListingsRight(p, mount, fsLabel, binds) ==> PlacedRight(p, mount, fsLabel, binds)
    ensures Refused(p, mount, fsLabel, binds, why) && !OfDevice(why) && !OfPoints(why) ==>
              PlacedRight(p, mount, fsLabel, binds)
  {
    hide PlacedRight, BadMount, FromHere, SplitSource, FirstBad, Selects, Allowed, Targets, Empty, MountPoints, Signed,
         MountFine, TypeFine, ListingFine, IsAllowed, RootInTree;
  }

  /** The paths where nothing is mounted, in their order. */
  ghost predicate NotMounted(p: Probe, paths: seq<string>, missing: seq<string>) {
    Selects(paths, missing, path => !Mounted(p, path))
  }

  // -------------------------------------------------------------------------
  // The verdict
  // -------------------------------------------------------------------------

  /** A disk is refused for the first rule that fails and for no other reason. One that passes them all is blank
      when nothing is on it; the role's own disk is ready when all its paths are mounted, and otherwise the
      paths that are not are listed in their order. */
  lemma VerdictExactly(p: Probe, mount: string, fsLabel: string, binds: seq<Bind>)
    ensures forall why ::
              Classified(p, mount, fsLabel, binds) == Refuse(why) <==> Refused(p, mount, fsLabel, binds, why)
    ensures var passes := ListingsRight(p, mount, fsLabel, binds) && AllEmpty(p, mount, binds);
            && (Classified(p, mount, fsLabel, binds) == Blank <==> passes && BareDisk(p))
            && (Classified(p, mount, fsLabel, binds) == Ready <==>
                  passes && OursOnDisk(p, fsLabel) && forall path :: path in Allowed(mount, binds) ==> Mounted(p, path))
            && forall missing :: Classified(p, mount, fsLabel, binds) == Ours(missing) <==>
                  && passes && OursOnDisk(p, fsLabel) && missing != []
                  && NotMounted(p, Allowed(mount, binds), missing)
  {
    hide *;
    var allowed := Allowed(mount, binds);
    DeviceExactly(p, mount, fsLabel, binds);
    NeedsDevice(p, mount, fsLabel, binds);
    forall why ensures Classified(p, mount, fsLabel, binds) == Refuse(why) <==> Refused(p, mount, fsLabel, binds, why) {
      RefusedOnly(p, mount, fsLabel, binds, why);
    }
    if OursOnDisk(p, fsLabel) || BareDisk(p) {
      PlacementExactly(p, mount, fsLabel, binds, NoDevice);
      Accepted(p, mount, fsLabel, binds);
      MissingMounted(p, allowed, []);
      forall missing ensures Missing(p, allowed) == missing <==> NotMounted(p, allowed, missing) {
        MissingMounted(p, allowed, missing);
      }
    } else {
      RefusedDevice(p, mount, fsLabel, binds);
    }
  }

  lemma NeedsDevice(p: Probe, mount: string, fsLabel: string, binds: seq<Bind>)
    ensures ListingsRight(p, mount, fsLabel, binds) ==> OursOnDisk(p, fsLabel) || BareDisk(p)
    ensures OursOnDisk(p, fsLabel) || BareDisk(p) ==> p.lsblk.Some?
  {
    hide MountFine, TypeFine, ListingFine, Allowed, IsAllowed, MountPoints, Signed, RootInTree;
  }

  lemma RefusedDevice(p: Probe, mount: string, fsLabel: string, binds: seq<Bind>)
    requires DeviceProblem(p, fsLabel).Some?
    ensures Classified(p, mount, fsLabel, binds) == Refuse(DeviceProblem(p, fsLabel).value)
  {
    hide DeviceProblem, PlacementProblem;
  }

  lemma RefusedPlace(p: Probe, mount: string, fsLabel: string, binds: seq<Bind>, why: Refusal)
    requires DeviceProblem(p, fsLabel).None? && p.lsblk.Some?
    ensures Classified(p, mount, fsLabel, binds) == Refuse(why) <==>
            PlacementProblem(p, p.lsblk.value, mount, binds) == Some(why)
  {
    hide DeviceProblem, PlacementProblem, Missing, Signature, Allowed;
  }

  lemma RefusedOnly(p: Probe, mount: string, fsLabel: string, binds: seq<Bind>, why: Refusal)
    ensures Classified(p, mount, fsLabel, binds) == Refuse(why) <==> Refused(p, mount, fsLabel, binds, why)
  {
    hide *;
    DeviceExactly(p, mount, fsLabel, binds);
    NeedsDevice(p, mount, fsLabel, binds);
    if OursOnDisk(p, fsLabel) || BareDisk(p) {
      RefusedPlace(p, mount, fsLabel, binds, why);
      PlacementExactly(p, mount, fsLabel, binds, why);
    } else {
      RefusedDevice(p, mount, fsLabel, binds);
      PlacedNeedsDevice(p, mount, fsLabel, binds, why);
    }
  }

  lemma PlacedNeedsDevice(p: Probe, mount: string, fsLabel: string, binds: seq<Bind>, why: Refusal)
    ensures Refused(p, mount, fsLabel, binds, why) && !OfDevice(why) ==> OursOnDisk(p, fsLabel) || BareDisk(p)
  {
    hide BadMount, FromHere, SplitSource, FirstBad, Selects, Allowed, Targets, Empty, MountPoints, Signed, OursOnDisk,
         BareDisk, MountFine, TypeFine, ListingFine, IsAllowed, RootInTree;
  }

  lemma Accepted(p: Probe, mount: string, fsLabel: string, binds: seq<Bind>)
    requires OursOnDisk(p, fsLabel) || BareDisk(p)
    requires DeviceProblem(p, fsLabel).None? && p.lsblk.Some?
    ensures PlacementProblem(p, p.lsblk.value, mount, binds).Some? ==> Classified(p, mount, fsLabel, binds).Refuse?
    ensures PlacementProblem(p, p.lsblk.value, mount, binds).None? ==>
              var missing := Missing(p, Allowed(mount, binds));
              Classified(p, mount, fsLabel, binds)
              == if BareDisk(p) then Blank else if missing != [] then Ours(missing) else Ready
    ensures BareDisk(p) <==> !OursOnDisk(p, fsLabel)
  {
    BareOrOurs(p, fsLabel);
    SignedExactly(p);
    hide DeviceProblem, PlacementProblem, Missing, Signature, Allowed, OursOnDisk, BareDisk, Signed;
  }

  lemma MissingMounted(p: Probe, allowed: seq<string>, missing: seq<string>)
    ensures Missing(p, allowed) == missing <==> NotMounted(p, allowed, missing)
    ensures Missing(p, allowed) == [] <==> forall path :: path in allowed ==> Mounted(p, path)
  {
    hide Mounted, Missing, Selects, Kept;
    MissingKept(p, allowed);
    SelectsExactly(allowed, missing, path => !Mounted(p, path));
    KeptMembers(allowed, path => !Mounted(p, path));
  }
}
