/** From raw command results to the verdict: what a `blank` disk really was, and what
    `_beneath` decides about paths. */
module DiskSoundness {
  import opened Text
  import Blkid
  import opened NodeStorage

  // -------------------------------------------------------------------------
  // Reading the probe back to the command results
  // -------------------------------------------------------------------------

  /** The last `findmnt` result for a path, which is the one that counts. */
  function LastMount(rs: seq<MountResult>, path: string): Option<MountResult> {
    if rs == [] then None
    else if rs[|rs| - 1].path == path then Some(rs[|rs| - 1])
    else LastMount(rs[..|rs| - 1], path)
  }

  function LastStat(rs: seq<StatResult>, path: string): Option<StatResult> {
    if rs == [] then None
    else if rs[|rs| - 1].path == path then Some(rs[|rs| - 1])
    else LastStat(rs[..|rs| - 1], path)
  }

  function LastFind(rs: seq<FindResult>, path: string): Option<FindResult> {
    if rs == [] then None
    else if rs[|rs| - 1].path == path then Some(rs[|rs| - 1])
    else LastFind(rs[..|rs| - 1], path)
  }

  lemma {:induction false} MountsAt(rs: seq<MountResult>, path: string)
    ensures path in Mounts(rs) <==> LastMount(rs, path).Some?
    ensures path in Mounts(rs) ==> Mounts(rs)[path] == ReadFindmnt(LastMount(rs, path).value.cmd)
  {
    if rs != [] {
      MountsAt(rs[..|rs| - 1], path);
    }
  }

  lemma {:induction false} TypesAt(rs: seq<StatResult>, path: string)
    requires path != ""
    ensures path in Types(rs) <==> LastStat(rs, path).Some?
    ensures path in Types(rs) ==> Types(rs)[path] == ReadType(LastStat(rs, path).value.stat)
  {
    if rs != [] {
      TypesAt(rs[..|rs| - 1], path);
    }
  }

  lemma {:induction false} NonemptyAt(rs: seq<FindResult>, mounts: map<string, Option<Fs>>,
                                      types: map<string, PathType>,
                                      path: string)
    requires path != ""
    ensures var m, last := Nonempty(rs, mounts, types), LastFind(rs, path);
            && (path in m <==> last.Some?)
            && (path in m ==> (m[path] <==> IsType(types, path, Directory) && Listed(last.value.cmd)
                                            && Strip(last.value.cmd.stdout) != "" && !IsMounted(mounts, path)))
  {
    if rs != [] {
      NonemptyAt(rs[..|rs| - 1], mounts, types, path);
    }
  }

  lemma {:induction false} ErrorsAt(rs: seq<FindResult>, types: map<string, PathType>, path: string)
    requires path != ""
    ensures path in FindErrors(rs, types) <==>
            IsType(types, path, Directory) && exists i :: 0 <= i < |rs| && rs[i].path == path && !Listed(rs[i].cmd)
  {
    if rs != [] {
      var n := |rs| - 1;
      ErrorsAt(rs[..n], types, path);
      if path in FindErrors(rs[..n], types) {
        var i :| 0 <= i < n && rs[..n][i].path == path && !Listed(rs[..n][i].cmd);
        assert rs[i].path == path && !Listed(rs[i].cmd);
      }
      if IsType(types, path, Directory) && exists i :: 0 <= i < |rs| && rs[i].path == path && !Listed(rs[i].cmd) {
        var i :| 0 <= i < |rs| && rs[i].path == path && !Listed(rs[i].cmd);
        if i < n {
          assert rs[..n][i] == rs[i];
        }
      }
    }
  }

  // -------------------------------------------------------------------------
  // What a blank verdict says about the commands
  // -------------------------------------------------------------------------

  /** Every `find` of a directory listed it cleanly, and the last one found nothing. */
  ghost predicate ListedEmpty(rs: seq<FindResult>, path: string) {
    && LastFind(rs, path).Some?
    && (forall i :: 0 <= i < |rs| && rs[i].path == path ==> Listed(rs[i].cmd))
    && Listed(LastFind(rs, path).value.cmd) && Strip(LastFind(rs, path).value.cmd.stdout) == ""
  }

  /** The path is absent, or a plain directory that was listed and is empty. */
  ghost predicate AbsentOrEmpty(r: Results, path: string) {
    var stat := LastStat(r.pathStat, path);
    && stat.Some?
    && (ReadType(stat.value.stat) == Absent
        || (ReadType(stat.value.stat) == Directory && ListedEmpty(r.find, path)))
  }

  /** `findmnt` reports a filesystem at the path. */
  ghost predicate Reported(r: Results, path: string) {
    LastMount(r.findmnt, path).Some? && ReadFindmnt(LastMount(r.findmnt, path).value.cmd).Some?
  }

  ghost predicate BlankNode(n: Node) {
    n.kind == "disk" && n.children == [] && n.fstype == "" && MountPoints(n) == []
  }

  ghost predicate WholeBlankDisk(r: Results) {
    && IsBlock(r) && ReadLsblk(r.lsblk).Some? && BlankNode(ReadLsblk(r.lsblk).value)
    && BlkidError(r.blkid) == ""
    && Signature(ReadBlkid(r.blkid)) == map[]
  }

  /** blkid ran, read the device, and found no signature. */
  ghost predicate NoSignatureFound(blkid: Cmd<string>) {
    && blkid.Ran?
    && ((blkid.rc == 2 && Strip(blkid.stderr) == "")
       || (blkid.rc == 0 && Signature(Blkid.Parse(blkid.stdout)) == map[]))
  }

  /** First condition: blkid was not skipped. */
  ghost predicate BlkidRan(r: Results) { r.blkid.Ran? }

  /** Second condition: a filesystem of this device at one of the paths shows in lsblk's list. */
  ghost predicate MountsAgree(r: Results, paths: seq<string>) {
    ReadLsblk(r.lsblk).Some? ==>
      forall path :: path in paths && FromThisDevice(r, path) ==> MountPoints(ReadLsblk(r.lsblk).value) != []
  }

  ghost predicate FromThisDevice(r: Results, path: string)
    requires ReadLsblk(r.lsblk).Some?
  {
    && Reported(r, path)
    && KName(SplitSource(ReadFindmnt(LastMount(r.findmnt, path).value.cmd).value.source).0)
       in Names(DeviceOf(r), ReadLsblk(r.lsblk).value)
  }

  lemma SafePathRead(r: Results, path: string)
    requires path != "" && !IsMounted(Mounts(r.findmnt), path)
    ensures SafeToCover(ProbeOf(r), path) && path !in ProbeOf(r).errors <==> AbsentOrEmpty(r, path)
  {
    hide Mounts, Types, Nonempty, FindErrors, ReadType, Listed, Strip, DeviceOf, IsBlock, ReadBlkid, BlkidError,
         ReadLsblk;
    var mounts, types := Mounts(r.findmnt), Types(r.pathStat);
    TypesAt(r.pathStat, path);
    NonemptyAt(r.find, mounts, types, path);
    ErrorsAt(r.find, types, path);
    LastFindIsOne(r.find, path);
  }

  lemma {:induction false} LastFindIsOne(rs: seq<FindResult>, path: string)
    ensures LastFind(rs, path).Some? ==>
              exists i :: 0 <= i < |rs| && rs[i].path == path && rs[i] == LastFind(rs, path).value
  {
    if rs != [] && rs[|rs| - 1].path != path {
      LastFindIsOne(rs[..|rs| - 1], path);
      if LastFind(rs[..|rs| - 1], path).Some? {
        var i :| 0 <= i < |rs| - 1 && rs[..|rs| - 1][i].path == path
            && rs[..|rs| - 1][i] == LastFind(rs[..|rs| - 1], path).value;
        assert rs[i] == LastFind(rs, path).value;
      }
    }
  }

  lemma ReportedIsMounted(r: Results, path: string)
    ensures IsMounted(Mounts(r.findmnt), path) <==> Reported(r, path)
  {
    MountsAt(r.findmnt, path);
  }

  /** A blank verdict in terms of the commands alone, for every set of results: nothing is assumed
      about what ran. What it does not say -- that blkid ran, and that the paths are unmounted --
      the code does not check. */
  lemma BlankVerdictExactly(r: Results, mount: string, fsLabel: string, binds: seq<Bind>)
    requires forall path :: path in Allowed(mount, binds) ==> path != ""
    ensures Classified(ProbeOf(r), mount, fsLabel, binds) == Blank <==>
            && WholeBlankDisk(r)
            && forall path :: path in Allowed(mount, binds) ==>
                 if Reported(r, path) then
                   MountedAsOurs(ProbeOf(r), path, mount, binds) && path !in ProbeOf(r).errors
                 else AbsentOrEmpty(r, path)
  {
    hide Allowed, Mounts, Types, Nonempty, FindErrors, ReadBlkid, BlkidError, MountPoints, Signature, MountedAsOurs,
         SafeToCover, AbsentOrEmpty, Reported, DeviceOf;
    var p := ProbeOf(r);
    BlankExactly(p, mount, fsLabel, binds);
    forall path | path in Allowed(mount, binds)
      ensures IsMounted(p.mounts, path) <==> Reported(r, path)
      ensures !Reported(r, path) ==> (SafeToCover(p, path) && path !in p.errors <==> AbsentOrEmpty(r, path))
    {
      ReportedIsMounted(r, path);
      if !Reported(r, path) {
        SafePathRead(r, path);
      }
    }
    NoPartitionTable(ReadBlkid(r.blkid));
    NotRootWithoutPoints(p);
  }

  lemma NoPartitionTable(blkid: map<string, string>)
    ensures Signature(blkid) == map[] ==> Get(blkid, "PTTYPE") == ""
  {
    if "PTTYPE" in blkid {
      assert "PTTYPE" in Signature(blkid);
    }
  }

  lemma NotRootWithoutPoints(p: Probe)
    ensures p.lsblk.Some? && MountPoints(p.lsblk.value) == [] ==> "/" !in MountPoints(p.lsblk.value)
  {
  }

  /** The node is what a blank verdict is taken to mean: blkid read the device and found no signature,
      and each path is unmounted, and absent or an empty, cleanly listed, plain directory. */
  ghost predicate TrulyBlank(r: Results, paths: seq<string>) {
    && WholeBlankDisk(r) && NoSignatureFound(r.blkid)
    && forall path :: path in paths ==> !Reported(r, path) && AbsentOrEmpty(r, path)
  }

  /** End to end: the device of a blank verdict is an unmounted whole disk without children, and the
      verdict is right exactly when blkid ran and lsblk shows the mounts that findmnt shows. */
  lemma BlankIsSound(r: Results, mount: string, fsLabel: string, binds: seq<Bind>)
    requires forall path :: path in Allowed(mount, binds) ==> path != ""
    requires Classified(ProbeOf(r), mount, fsLabel, binds) == Blank
    ensures WholeBlankDisk(r)
    ensures TrulyBlank(r, Allowed(mount, binds)) <==> BlkidRan(r) && MountsAgree(r, Allowed(mount, binds))
  {
    BlankVerdictExactly(r, mount, fsLabel, binds);
    if BlkidRan(r) && MountsAgree(r, Allowed(mount, binds)) {
      AgreeingIsBlank(r, mount, fsLabel, binds);
    }
    hide Allowed, Classified, AbsentOrEmpty, SplitSource, KName, Reported, MountPoints, Names, Strip, WholeBlankDisk;
  }

  lemma AgreeingIsBlank(r: Results, mount: string, fsLabel: string, binds: seq<Bind>)
    requires forall path :: path in Allowed(mount, binds) ==> path != ""
    requires BlkidRan(r) && MountsAgree(r, Allowed(mount, binds))
    requires Classified(ProbeOf(r), mount, fsLabel, binds) == Blank
    ensures TrulyBlank(r, Allowed(mount, binds))
  {
    hide Allowed, Classified, AbsentOrEmpty, SplitSource, KName, HasPrjquota, MountPoints, SubdirFor, Names, Strip;
    BlankVerdictExactly(r, mount, fsLabel, binds);
    BlkidSilent(r.blkid);
    forall path | path in Allowed(mount, binds) ensures !Reported(r, path) {
      if Reported(r, path) {
        MountsAt(r.findmnt, path);
      }
    }
  }

  lemma FailedBlkidIsSignature(rc: int)
    ensures Signature(map["BLKID_RC" := Decimal(rc)]) != map[]
  {
    hide Decimal;
    assert "BLKID_RC" in Signature(map["BLKID_RC" := Decimal(rc)]);
  }

  lemma BlkidSilent(blkid: Cmd<string>)
    requires blkid.Ran? && BlkidError(blkid) == "" && Signature(ReadBlkid(blkid)) == map[]
    ensures NoSignatureFound(blkid)
  {
    hide Blkid.Parse, Strip, Decimal, Signature;
    FailedBlkidIsSignature(blkid.rc);
  }

  // -------------------------------------------------------------------------
  // Both conditions can fail
  // -------------------------------------------------------------------------

  const DISK := Node("d", "d", "disk", "", None, None, [])

  lemma DiskNames()
    ensures MountPoints(DISK) == [] && KName("d") == "d" && Strip("d") == "d" && SplitSource("d") == ("d", "/")
  {
    StripFacts("d");
    assert Points([None]) == [] by { assert Points([]) == []; }
    assert "d"[..0] == "" && BaseName("") == "";
  }

  lemma QuotaOption()
    ensures HasPrjquota("prjquota")
  {
    StripFacts("prjquota");
    NoComma("prjquota");
    assert Strip(Split("prjquota", ',')[0]) == "prjquota";
  }

  lemma NoComma(s: string)
    requires ',' !in s
    ensures Split(s, ',') == [s]
  {
  }

  /** A block device whose blkid was skipped is called blank. */
  lemma BlankWithoutBlkid()
    returns (r: Results)
    ensures !BlkidRan(r) && Classified(ProbeOf(r), "m", "l", []) == Blank
  {
    r := Results("d", Ran(0, "d", ""), DeviceStat(true, true), NotRun, Ran(0, [DISK], ""), [], [],
                 [StatResult("m", Stat(false, false, false, false))]);
    DiskNames();
    QuotaOption();
    hide Classified, KName, Strip, SplitSource, HasPrjquota, MountPoints;
    assert Targets([]) == [];
    BlankVerdictExactly(r, "m", "l", []);
  }

  /** A path mounted from the device itself, project quotas on, passes as long as lsblk does not
      list the mount: the verdict is blank although the path is mounted. */
  lemma BlankOverMount()
    returns (r: Results)
    ensures BlkidRan(r) && Reported(r, "m") && Classified(ProbeOf(r), "m", "l", []) == Blank
  {
    r := Results("d", Ran(0, "d", ""), DeviceStat(true, true), Ran(2, "", ""), Ran(0, [DISK], ""),
                 [MountResult("m", Ran(0, [Fs("d", "prjquota")], ""))], [], []);
    DiskNames();
    QuotaOption();
    hide Classified, KName, Strip, SplitSource, HasPrjquota, MountPoints;
    assert Targets([]) == [];
    assert r.findmnt[..0] == [];
    StripFacts("");
    assert Mounts(r.findmnt) == map["m" := Some(Fs("d", "prjquota"))];
    BlankVerdictExactly(r, "m", "l", []);
  }

  // -------------------------------------------------------------------------
  // `_beneath` on paths
  // -------------------------------------------------------------------------

  /** A path component: not empty, and without a slash. */
  ghost predicate IsComponent(c: string) { c != "" && '/' !in c }

  ghost predicate AreComponents(cs: seq<string>) { forall i :: 0 <= i < |cs| ==> IsComponent(cs[i]) }

  /** The normalized absolute path of some components; nothing for the root. */
  function Path(cs: seq<string>): string {
    if cs == [] then "" else "/" + cs[0] + Path(cs[1..])
  }

  predicate SlashOrEnd(s: string) { s == "" || s[0] == '/' }

  /** A component is cut off at the first slash after it. */
  lemma ComponentEnds(c: string, rest: string)
    requires '/' !in c && SlashOrEnd(rest)
    ensures Find(c + rest, '/') == |c|
  {
    if rest == "" {
      assert c + rest == c;
      FindFacts(c, '/');
    } else {
      FindFirst(c, '/', rest[1..]);
      assert c + ['/'] + rest[1..] == c + rest;
    }
  }

  lemma FindIsFirst(s: string, c: char, n: nat)
    requires n < |s| && s[n] == c && c !in s[..n]
    ensures Find(s, c) == n
  {
    FindFirst(s[..n], c, s[n + 1..]);
    assert s == s[..n] + [c] + s[n + 1..];
  }

  lemma SameHead(a: string, x: string, b: string, y: string)
    requires '/' !in a && '/' !in b && x != "" && x[0] == '/' && SlashOrEnd(y)
    requires a + x <= b + y
    ensures a == b && x <= y
  {
    ComponentEnds(b, y);
    assert (b + y)[|a|] == (a + x)[|a|] == '/';
    assert (b + y)[..|a|] == (a + x)[..|a|] == a;
    FindIsFirst(b + y, '/', |a|);
    assert (b + y)[..|a|] == b;
    assert forall i :: 0 <= i < |x| ==> x[i] == (a + x)[|a| + i];
  }

  lemma PathSlash(cs: seq<string>)
    ensures SlashOrEnd(Path(cs)) && (Path(cs) == "" <==> cs == [])
  {
  }

  lemma {:induction false} ProperPrefix(base: seq<string>, path: seq<string>)
    requires AreComponents(base) && AreComponents(path)
    ensures Path(base) + "/" <= Path(path) <==> base < path
  {
    PathSlash(path);
    if base == [] {
      assert Path(base) + "/" == "/";
    } else if path == [] {
      assert |Path(base) + "/"| > 0;
    } else {
      PathParts(base);
      PathParts(path);
      ProperPrefix(base[1..], path[1..]);
      TextStep(base[0], Path(base[1..]), path[0], Path(path[1..]));
      PrefixStep(base, path);
      hide *;
    }
  }

  lemma PathParts(cs: seq<string>)
    requires AreComponents(cs) && cs != []
    ensures Path(cs) == "/" + cs[0] + Path(cs[1..]) && '/' !in cs[0] && SlashOrEnd(Path(cs[1..]))
  {
    PathSlash(cs[1..]);
  }

  lemma PrefixStep(base: seq<string>, path: seq<string>)
    requires base != [] && path != []
    ensures base < path <==> base[0] == path[0] && base[1..] < path[1..]
  {
    assert base == [base[0]] + base[1..] && path == [path[0]] + path[1..];
  }

  lemma PrefixTail(h: string, x: string, y: string)
    ensures h + x <= h + y <==> x <= y
  {
    if h + x <= h + y {
      assert forall i :: 0 <= i < |x| ==> x[i] == (h + x)[|h| + i] == (h + y)[|h| + i] == y[i];
    }
  }

  lemma SlashAppended(x: string)
    requires SlashOrEnd(x)
    ensures (x + "/")[0] == '/'
  {
  }

  /** One component of either path: the texts agree up to a slash exactly when the components and the rests do. */
  lemma TextStep(a: string, x: string, b: string, y: string)
    requires '/' !in a && '/' !in b && SlashOrEnd(x) && SlashOrEnd(y)
    ensures "/" + a + x + "/" <= "/" + b + y <==> a == b && x + "/" <= y
  {
    hide *;
    assert "/" + a + x + "/" == "/" + (a + (x + "/")) && "/" + b + y == "/" + (b + y);
    PrefixTail("/", a + (x + "/"), b + y);
    if a + (x + "/") <= b + y {
      SlashAppended(x);
      SameHead(a, x + "/", b, y);
    } else if a == b {
      PrefixTail(a, x + "/", y);
    }
  }

  lemma PathEnds(cs: seq<string>)
    requires AreComponents(cs) && cs != []
    ensures Path(cs) != "" && Path(cs)[|Path(cs)| - 1] != '/'
    decreases |cs|
  {
    if |cs| == 1 {
      assert Path(cs) == "/" + cs[0];
    } else {
      PathEnds(cs[1..]);
    }
  }

  lemma FirstComponent(a: string, x: string, b: string, y: string)
    requires '/' !in a && '/' !in b && SlashOrEnd(x) && SlashOrEnd(y) && a + x == b + y
    ensures a == b && x == y
  {
    ComponentEnds(a, x);
    ComponentEnds(b, y);
    hide Find, SlashOrEnd;
    assert a == (a + x)[..|a|] && b == (b + y)[..|b|];
    assert x == (a + x)[|a|..] && y == (b + y)[|b|..];
  }

  lemma PathInjective(p: seq<string>, q: seq<string>)
    requires AreComponents(p) && AreComponents(q) && Path(p) == Path(q)
    ensures p == q
    decreases |p|
  {
    PathSlash(p);
    PathSlash(q);
    if p != [] {
      var a, x, b, y := p[0], Path(p[1..]), q[0], Path(q[1..]);
      PathSlash(p[1..]);
      PathSlash(q[1..]);
      assert Path(p)[1..] == a + x && Path(q)[1..] == b + y;
      FirstComponent(a, x, b, y);
      hide Path, SlashOrEnd;
      PathInjective(p[1..], q[1..]);
      assert p == [a] + p[1..] && q == [b] + q[1..];
    }
  }

  /** The string test is the component test: a path is beneath another exactly when the other's
      components begin it. (`/var/lib/docker-data` is not beneath `/var/lib/docker`.) */
  lemma BeneathIsPrefix(path: seq<string>, base: seq<string>)
    requires AreComponents(path) && AreComponents(base) && base != []
    ensures Beneath(Path(path), Path(base)) <==> base <= path
  {
    hide *;
    PathEnds(base);
    BeneathByText(Path(path), Path(base));
    ProperPrefix(base, path);
    if Path(path) == Path(base) {
      PathInjective(path, base);
    }
    PrefixOrEqual(base, path);
  }

  lemma PrefixOrEqual(base: seq<string>, path: seq<string>)
    ensures base <= path <==> base == path || base < path
  {
  }

  lemma BeneathByText(path: string, base: string)
    requires base != "" && base[|base| - 1] != '/'
    ensures Beneath(path, base) <==> path == base || base + "/" <= path
  {
  }

  /** The root as a base is the exception: nothing but the root itself counts as beneath it. */
  lemma BeneathRoot(path: seq<string>)
    requires AreComponents(path)
    ensures path != [] ==> !Beneath(Path(path), "/")
    ensures Beneath("/", "/")
  {
    assert "/"[..0] == "";
    assert RStripChar("/", '/') == "";
    if path != [] {
      PathEnds(path);
      assert path[0][0] in path[0];
      assert Path(path)[1] == path[0][0] != '/';
      assert "//"[1] == '/';
    }
  }

  /** Nothing is outside exactly when every mountpoint lies in the subtree of an allowed path. */
  lemma OutsideExactly(points: seq<seq<string>>, allowed: seq<seq<string>>)
    requires forall i :: 0 <= i < |points| ==> AreComponents(points[i])
    requires forall i :: 0 <= i < |allowed| ==> AreComponents(allowed[i]) && allowed[i] != []
    ensures Outside(Paths(points), Paths(allowed)) == []
            <==> forall i :: 0 <= i < |points| ==> exists j :: 0 <= j < |allowed| && allowed[j] <= points[i]
  {
    var ps, as_ := Paths(points), Paths(allowed);
    OutsideNone(ps, as_);
    forall i | 0 <= i < |points|
      ensures IsAllowed(ps[i], as_) <==> exists j :: 0 <= j < |allowed| && allowed[j] <= points[i]
    {
      forall j | 0 <= j < |allowed| ensures Beneath(ps[i], as_[j]) <==> allowed[j] <= points[i] {
        BeneathIsPrefix(points[i], allowed[j]);
      }
    }
    assert forall i :: 0 <= i < |points| ==> ps[i] in ps;
    assert forall p :: p in ps ==> exists i :: 0 <= i < |points| && ps[i] == p;
  }

  function Paths(css: seq<seq<string>>): seq<string> {
    seq(|css|, i requires 0 <= i < |css| => Path(css[i]))
  }
}
