/** What the classifier reads out of each command's text and fields, in the literals the source compares with. */
module StorageReads {
  import opened Text
  import Blkid
  import opened NodeStorage

  // -------------------------------------------------------------------------
  // Mount options
  // -------------------------------------------------------------------------

  /** One of the options between the commas, without the whitespace around it, enforces project quotas. */
  ghost predicate QuotaListed(parts: seq<string>) {
    exists i :: 0 <= i < |parts| && (Strip(parts[i]) == "prjquota" || Strip(parts[i]) == "pquota")
  }

  lemma OptionsExactly(parts: seq<string>)
    ensures HasOption(parts, PRJQUOTA_OPTIONS) <==> QuotaListed(parts)
  {
    hide Strip;
    assert forall s :: s in PRJQUOTA_OPTIONS <==> s == "prjquota" || s == "pquota";
  }

  /** Quotas are on exactly when some option is `prjquota` or `pquota`; `noquota` and `pqnoenforce` do not count. */
  lemma QuotaExactly(parts: seq<string>)
    requires parts != [] && forall i :: 0 <= i < |parts| ==> ',' !in parts[i]
    ensures HasPrjquota(Join(parts, ",")) <==>
            exists i :: 0 <= i < |parts| && (Strip(parts[i]) == "prjquota" || Strip(parts[i]) == "pquota")
  {
    SplitJoin(parts, ',');
    assert [','] == ",";
    OptionsExactly(parts);
    hide Join, Split, Strip, HasOption, PRJQUOTA_OPTIONS;
  }

  lemma QuotaInOptions(options: string)
    ensures HasPrjquota(options) <==> QuotaListed(Split(options, ','))
  {
    OptionsExactly(Split(options, ','));
    hide Split, HasOption, PRJQUOTA_OPTIONS, QuotaListed;
  }

  lemma AccountingIsNotEnough()
    ensures !HasPrjquota("rw,noatime,noquota") && !HasPrjquota("rw,pqnoenforce") && HasPrjquota("rw,prjquota")
  {
    hide *;
    JoinedOptions();
    QuotaExactly(["rw", "noatime", "noquota"]);
    QuotaExactly(["rw", "pqnoenforce"]);
    PlainOptions();
    var options := ["rw", "prjquota"];
    QuotaExactly(options);
    assert Strip(options[1]) == "prjquota";
  }

  lemma JoinedOptions()
    ensures Join(["rw", "noatime", "noquota"], ",") == "rw,noatime,noquota"
    ensures Join(["rw", "pqnoenforce"], ",") == "rw,pqnoenforce" && Join(["rw", "prjquota"], ",") == "rw,prjquota"
  {
    hide Join;
    JoinedTwo("rw", "pqnoenforce");
    JoinedTwo("rw", "prjquota");
    JoinedTwo("noatime", "noquota");
    JoinedMore("rw", ["noatime", "noquota"]);
    assert ["rw"] + ["noatime", "noquota"] == ["rw", "noatime", "noquota"];
  }

  lemma JoinedTwo(a: string, b: string)
    ensures Join([a, b], ",") == a + "," + b
  {
    assert [a, b][1..] == [b];
  }

  lemma JoinedMore(a: string, rest: seq<string>)
    requires rest != []
    ensures Join([a] + rest, ",") == a + "," + Join(rest, ",")
  {
    assert ([a] + rest)[1..] == rest;
  }

  lemma PlainOptions()
    ensures Strip("rw") == "rw" && Strip("noatime") == "noatime" && Strip("noquota") == "noquota"
    ensures Strip("pqnoenforce") == "pqnoenforce" && Strip("prjquota") == "prjquota"
  {
    TrimmedStays("rw");
    TrimmedStays("noatime");
    TrimmedStays("noquota");
    TrimmedStays("pqnoenforce");
    TrimmedStays("prjquota");
    hide Strip;
  }

  // -------------------------------------------------------------------------
  // Sources and device names
  // -------------------------------------------------------------------------

  /** A source with a bracketed directory at its end is the device before the first bracket, and the directory;
      any other is a device mounted from its root. Whitespace around it does not matter. */
  lemma SourceExactly(padded: string, dev: string, sub: string)
    requires '[' !in dev && '\n' !in dev && '\n' !in sub && Strip(padded) == dev + "[" + sub + "]"
    ensures SplitSource(padded) == (dev, if sub == "" then "/" else sub)
  {
    hide Strip;
    var s := dev + "[" + sub + "]";
    assert s == dev + ['['] + (sub + "]");
    FindFirst(dev, '[', sub + "]");
    hide Find;
    assert s[..|dev|] == dev && s[|dev| + 1..|s| - 1] == sub && s[|s| - 1] == ']';
    assert forall c :: c in s ==> c in dev || c == '[' || c in sub || c == ']';
  }

  lemma PlainSource(padded: string)
    requires var s := Strip(padded); '[' !in s || s[|s| - 1] != ']' || '\n' in s
    ensures SplitSource(padded) == (Strip(padded), "/")
  {
    FindFacts(Strip(padded), '[');
    hide Strip, Find;
  }

  /** The kernel name of a device is what follows the last slash, slashes at the end apart. */
  lemma KNameExactly(padded: string, dir: string, base: string, slashes: nat)
    requires '/' !in base && Strip(padded) == dir + base + Repeat('/', slashes)
    requires dir == "" || (dir[|dir| - 1] == '/' && base != "")
    ensures KName(padded) == base
  {
    hide Strip, Repeat, RStripChar, BaseName;
    assert base != "" ==> (dir + base)[|dir + base| - 1] == base[|base| - 1] && base[|base| - 1] in base;
    RStripCharExactly(dir + base, '/', slashes);
    LastPart(dir, base);
  }

  lemma {:induction false} LastPart(dir: string, base: string)
    requires '/' !in base && (dir == "" || dir[|dir| - 1] == '/')
    ensures BaseName(dir + base) == base
  {
    if base == "" {
      assert dir + base == dir;
    } else {
      var n := |base| - 1;
      LastPart(dir, base[..n]);
      assert base[n] in base;
      OneMoreOfName(dir + base[..n], base[n]);
      hide BaseName;
      assert dir + base == dir + base[..n] + [base[n]] && base == base[..n] + [base[n]];
    }
  }

  lemma OneMoreOfName(path: string, c: char)
    requires c != '/'
    ensures BaseName(path + [c]) == BaseName(path) + [c]
  {
    assert (path + [c])[..|path|] == path;
  }

  // -------------------------------------------------------------------------
  // Mount points
  // -------------------------------------------------------------------------

  /** The mount points of a device in order, without nulls and empty texts; the single one of older releases
      is read only where there is no list. */
  lemma PointsAppend(a: seq<Option<string>>, b: seq<Option<string>>)
    ensures Points(a + b) == Points(a) + Points(b)
  {
    if a == [] {
      assert a + b == b;
    } else {
      assert (a + b)[1..] == a[1..] + b;
      PointsAppend(a[1..], b);
    }
  }

  lemma OnePoint(p: Option<string>)
    ensures Points([]) == []
    ensures Points([p]) == if p == None || p == Some("") then [] else [p.value]
  {
    assert [p][1..] == [];
  }

  lemma MountPointsExactly(n: Node, x: string)
    ensures x in MountPoints(n) <==>
            && x != ""
            && (if n.mountpoints.Some? then Some(x) in n.mountpoints.value else n.mountpoint == Some(x))
  {
    InPoints(if n.mountpoints.Some? then n.mountpoints.value else [n.mountpoint], x);
    hide Points;
  }

  lemma {:induction false} InPoints(points: seq<Option<string>>, x: string)
    ensures x in Points(points) <==> x != "" && Some(x) in points
  {
    if points != [] {
      InPoints(points[1..], x);
      assert points == [points[0]] + points[1..];
    }
  }

  // -------------------------------------------------------------------------
  // Command results
  // -------------------------------------------------------------------------

  /** The visible filesystem is the last one listed, of a run that succeeded. */
  lemma FindmntExactly(r: Cmd<seq<Fs>>, fs: Fs)
    ensures ReadFindmnt(r) == Some(fs) <==> exists below :: r.Ran? && r.rc == 0 && r.stdout == below + [fs]
  {
    if ReadFindmnt(r) == Some(fs) {
      var n := |r.stdout| - 1;
      assert r.stdout == r.stdout[..n] + [fs];
    }
  }

  /** The device is the first one listed, of a run that succeeded. */
  lemma LsblkExactly(r: Cmd<seq<Node>>, n: Node)
    ensures ReadLsblk(r) == Some(n) <==> exists others :: r.Ran? && r.rc == 0 && r.stdout == [n] + others
  {
    if ReadLsblk(r) == Some(n) {
      assert r.stdout == [n] + r.stdout[1..];
    }
  }

  /** What a path is, flag by flag: a link before anything it may point at. */
  lemma TypeExactly(s: PathStat)
    ensures ReadType(s) == Unknown <==> s == StatFailed
    ensures ReadType(s) == Absent <==> s.Stat? && !s.present
    ensures ReadType(s) == Symlink <==> s.Stat? && s.present && s.isLink
    ensures ReadType(s) == Directory <==> s.Stat? && s.present && !s.isLink && s.isDir
    ensures ReadType(s) == File <==> s.Stat? && s.present && !s.isLink && !s.isDir && s.isRegular
    ensures ReadType(s) == Other <==> s.Stat? && s.present && !s.isLink && !s.isDir && !s.isRegular
  {
  }

  /** blkid is believed when it exits 0, silent or not; status 2 is nothing found, or a complaint; any other
      status is a signature of its own. */
  lemma BlkidExactly(r: Cmd<string>)
    ensures r == NotRun || r.rc == 2 ==> ReadBlkid(r) == map[]
    ensures r.Ran? && r.rc == 0 ==> ReadBlkid(r) == Blkid.Parse(r.stdout)
    ensures r.Ran? && r.rc != 0 && r.rc != 2 ==> ReadBlkid(r) == map["BLKID_RC" := Decimal(r.rc)]
    ensures BlkidError(r) != "" <==> r.Ran? && r.rc == 2 && Strip(r.stderr) != ""
    ensures BlkidError(r) != "" ==> BlkidError(r) == Strip(r.stderr)
  {
    hide Strip, Blkid.Parse, Decimal;
  }

  lemma FindExactly(r: Cmd<string>)
    ensures Listed(r) <==> r.Ran? && r.rc == 0
    ensures r == NotRun ==> ReadFindError(r) == DidNotRun
    ensures r.Ran? && Strip(r.stderr) == "" ==> ReadFindError(r) == Exited(r.rc)
    ensures r.Ran? && Strip(r.stderr) != "" ==> ReadFindError(r) == Said(Strip(r.stderr))
  {
    hide Strip;
  }

  /** Of several results for one path the last one counts. */
  lemma {:induction false} LastMountCounts(rs: seq<MountResult>, i: nat)
    requires i < |rs| && forall j :: i < j < |rs| ==> rs[j].path != rs[i].path
    ensures rs[i].path in Mounts(rs) && Mounts(rs)[rs[i].path] == ReadFindmnt(rs[i].cmd)
  {
    hide ReadFindmnt;
    var n := |rs| - 1;
    if i < n {
      assert rs[..n][i] == rs[i];
      LastMountCounts(rs[..n], i);
    }
  }

  lemma {:induction false} LastStatCounts(rs: seq<StatResult>, i: nat)
    requires i < |rs| && rs[i].path != "" && forall j :: i < j < |rs| ==> rs[j].path != rs[i].path
    ensures rs[i].path in Types(rs) && Types(rs)[rs[i].path] == ReadType(rs[i].stat)
  {
    hide ReadType;
    var n := |rs| - 1;
    if i < n {
      assert rs[..n][i] == rs[i];
      LastStatCounts(rs[..n], i);
    }
  }

  lemma {:induction false} LastListingCounts(rs: seq<FindResult>, mounts: map<string, Option<Fs>>,
                                             types: map<string, PathType>, i: nat)
    requires i < |rs| && rs[i].path != "" && forall j :: i < j < |rs| ==> rs[j].path != rs[i].path
    ensures rs[i].path in Nonempty(rs, mounts, types)
    ensures Nonempty(rs, mounts, types)[rs[i].path] <==>
            && rs[i].path in types && types[rs[i].path] == Directory
            && rs[i].cmd.Ran? && rs[i].cmd.rc == 0 && Strip(rs[i].cmd.stdout) != ""
            && (rs[i].path in mounts ==> mounts[rs[i].path] == None)
  {
    hide Strip;
    var n := |rs| - 1;
    if i < n {
      assert rs[..n][i] == rs[i];
      LastListingCounts(rs[..n], mounts, types, i);
    }
  }

  /** The device is what `realpath` printed when it succeeded, and none otherwise; what blkid and lsblk say of it
      counts only when it is a block device. */
  lemma DeviceExactly(r: Results)
    ensures var p := ProbeOf(r);
            && (r.realpath.Ran? && r.realpath.rc == 0 ==> p.device == Strip(r.realpath.stdout))
            && (r.realpath == NotRun || r.realpath.rc != 0 ==> p.device == "")
            && (p.isBlock <==> p.device != "" && r.stat.DeviceStat? && r.stat.present && r.stat.isBlock)
            && (p.isBlock ==>
                  p.blkid == ReadBlkid(r.blkid) && p.blkidError == BlkidError(r.blkid) && p.lsblk == ReadLsblk(r.lsblk))
            && (!p.isBlock ==> p.blkid == map[] && p.blkidError == "" && p.lsblk.None?)
  {
    hide Strip, ReadBlkid, BlkidError, ReadLsblk, Mounts, Types, Nonempty, FindErrors;
  }
}
