/** Which containers a maintenance run records, finds again and may leave down. */
module NodeContainers {
  import opened Text

  /** One `docker container inspect` document; docker prints the name with a leading slash. */
  datatype Container = Container(id: string, name: string, running: bool, labels: map<string, string>)

  /** One `docker ps -a` row. */
  datatype Row = Row(id: string, name: string, running: bool)

  datatype Entry = Entry(id: string, name: string)

  /** A recorded entry matched against the current list; `current` is None when it is gone. */
  datatype Resolved = Resolved(id: string, name: string, current: Option<string>, running: bool)

  // -------------------------------------------------------------------------
  // Selecting what a run must stop and bring back
  // -------------------------------------------------------------------------

  const ROLE_LABEL := "com.computestacks.role"
  const SYSTEM_ROLE := "system"

  predicate IsSystem(c: Container) { ROLE_LABEL in c.labels && c.labels[ROLE_LABEL] == SYSTEM_ROLE }

  function BareName(c: Container): string { LStripChar(c.name, '/') }

  predicate RunningTenant(c: Container) { c.running && !IsSystem(c) }

  function EntryOf(c: Container): Entry { Entry(c.id, BareName(c)) }

  function Selected(cs: seq<Container>): seq<Entry> {
    if cs == [] then []
    else
      var n := |cs| - 1;
      Selected(cs[..n]) + if RunningTenant(cs[n]) then [EntryOf(cs[n])] else []
  }

  /** `select_running_tenants`. */
  method SelectRunningTenants(cs: seq<Container>) returns (out: seq<Entry>)
    ensures out == Selected(cs)
  {
    out := [];
    for i := 0 to |cs|
      invariant out == Selected(cs[..i])
    {
      assert cs[..i + 1][..i] == cs[..i];
      if cs[i].running && !IsSystem(cs[i]) {
        out := out + [EntryOf(cs[i])];
      }
    }
    assert cs[..|cs|] == cs;
  }

  /** Who is left running: the label, the value and the flag that decide. */
  lemma TenantExactly(c: Container)
    ensures RunningTenant(c) <==>
            c.running && ("com.computestacks.role" !in c.labels || c.labels["com.computestacks.role"] != "system")
    ensures IsSystem(c) <==> "com.computestacks.role" in c.labels && c.labels["com.computestacks.role"] == "system"
  {
  }

  /** The name without the slashes in front of it, all of them and nothing else. */
  ghost predicate IsBare(name: string, bare: string) {
    !StartsWith(bare, "/") && exists n: nat :: name == Repeat('/', n) + bare
  }

  lemma BareExactly(c: Container, bare: string)
    ensures BareName(c) == bare <==> IsBare(c.name, bare)
  {
    SlashesThenName(c.name);
    hide LStripChar;
    forall n: nat | c.name == Repeat('/', n) + bare && !StartsWith(bare, "/") ensures BareName(c) == bare {
      LStripCharExactly('/', n, bare);
    }
  }

  lemma {:induction false} SlashesThenName(s: string)
    ensures IsBare(s, LStripChar(s, '/'))
  {
    var bare := LStripChar(s, '/');
    if s != "" && s[0] == '/' {
      SlashesThenName(s[1..]);
      var n: nat :| s[1..] == Repeat('/', n) + bare;
      assert Repeat('/', n + 1) == ['/'] + Repeat('/', n);
      hide Repeat;
      assert s == ['/'] + s[1..];
      assert s == Repeat('/', n + 1) + bare;
    } else {
      assert s == Repeat('/', 0) + bare;
    }
  }

  /** `at` lists, in order, the positions of exactly the containers that run without the label
      `com.computestacks.role` set to `system`, and `out` their ids and their names without leading slashes. */
  ghost predicate Picks(at: seq<nat>, cs: seq<Container>, out: seq<Entry>) {
    && |at| == |out|
    && (forall j, k :: 0 <= j < k < |at| ==> at[j] < at[k])
    && (forall k :: 0 <= k < |at| ==>
          at[k] < |cs| && out[k].id == cs[at[k]].id && IsBare(cs[at[k]].name, out[k].name))
    && (forall i :: 0 <= i < |cs| ==>
          (i in at <==>
             && cs[i].running
             && ("com.computestacks.role" !in cs[i].labels || cs[i].labels["com.computestacks.role"] != "system")))
  }

  /** The selection is every running tenant, once, in input order, and nothing else. */
  lemma {:induction false} SelectedExactly(cs: seq<Container>) returns (at: seq<nat>)
    ensures Picks(at, cs, Selected(cs))
  {
    if cs == [] {
      at := [];
    } else {
      var n := |cs| - 1;
      var before := SelectedExactly(cs[..n]);
      at := before + if RunningTenant(cs[n]) then [n] else [];
      assert cs == cs[..n] + [cs[n]];
      hide RunningTenant, EntryOf, Picks;
      OneMorePicked(before, cs[..n], Selected(cs[..n]), cs[n]);
    }
  }

  lemma OneMorePicked(at: seq<nat>, cs: seq<Container>, out: seq<Entry>, c: Container)
    requires Picks(at, cs, out)
    ensures if RunningTenant(c) then Picks(at + [|cs|], cs + [c], out + [EntryOf(c)]) else Picks(at, cs + [c], out)
  {
    var all, more := cs + [c], at + if RunningTenant(c) then [|cs|] else [];
    TenantExactly(c);
    BareExactly(c, BareName(c));
    hide RunningTenant, BareName, IsBare;
    forall i | 0 <= i < |all|
      ensures i in more <==>
              && all[i].running
              && ("com.computestacks.role" !in all[i].labels || all[i].labels["com.computestacks.role"] != "system")
    {
      if i < |cs| {
        assert all[i] == cs[i];
      } else if RunningTenant(c) {
        assert more[|at|] == i;
      }
    }
  }

  lemma {:induction false} SelectedMembers(cs: seq<Container>)
    ensures forall e :: e in Selected(cs) <==> exists c :: c in cs && RunningTenant(c) && e == EntryOf(c)
  {
    hide RunningTenant, EntryOf;
    if cs != [] {
      var n := |cs| - 1;
      SelectedMembers(cs[..n]);
      assert cs == cs[..n] + [cs[n]];
    }
  }

  // -------------------------------------------------------------------------
  // Finding the recorded containers again
  // -------------------------------------------------------------------------

  function ById(ps: seq<Row>): map<string, Row> {
    if ps == [] then map[] else ById(ps[..|ps| - 1])[ps[|ps| - 1].id := ps[|ps| - 1]]
  }

  function ByName(ps: seq<Row>): map<string, Row> {
    if ps == [] then map[] else ByName(ps[..|ps| - 1])[ps[|ps| - 1].name := ps[|ps| - 1]]
  }

  /** The current row of a recorded entry: by id, else by name. */
  function CurrentRow(r: Entry, ps: seq<Row>): Option<Row> {
    if r.id in ById(ps) then Some(ById(ps)[r.id])
    else if r.name in ByName(ps) then Some(ByName(ps)[r.name])
    else None
  }

  function ResolveOne(r: Entry, ps: seq<Row>): Resolved {
    match CurrentRow(r, ps)
    case Some(row) => Resolved(r.id, r.name, Some(row.id), row.running)
    case None => Resolved(r.id, r.name, None, false)
  }

  function Resolve(recorded: seq<Entry>, ps: seq<Row>): seq<Resolved> {
    seq(|recorded|, i requires 0 <= i < |recorded| => ResolveOne(recorded[i], ps))
  }

  /** `resolve_recorded`. */
  method ResolveRecorded(recorded: seq<Entry>, ps: seq<Row>) returns (out: seq<Resolved>)
    ensures out == Resolve(recorded, ps)
  {
    var byId: map<string, Row>, byName: map<string, Row> := map[], map[];
    for i := 0 to |ps|
      invariant byId == ById(ps[..i]) && byName == ByName(ps[..i])
    {
      assert ps[..i + 1][..i] == ps[..i];
      byId, byName := byId[ps[i].id := ps[i]], byName[ps[i].name := ps[i]];
    }
    assert ps[..|ps|] == ps;
    out := [];
    for i := 0 to |recorded|
      invariant |out| == i && forall k :: 0 <= k < i ==> out[k] == ResolveOne(recorded[k], ps)
    {
      var r := recorded[i];
      var cur := if r.id in byId then Some(byId[r.id]) else if r.name in byName then Some(byName[r.name]) else None;
      out := out + [Resolved(r.id, r.name, if cur.Some? then Some(cur.value.id) else None,
                             cur.Some? && cur.value.running)];
    }
  }

  predicate HasId(ps: seq<Row>, id: string) { exists row :: row in ps && row.id == id }

  predicate HasName(ps: seq<Row>, name: string) { exists row :: row in ps && row.name == name }

  lemma {:induction false} IndexFacts(ps: seq<Row>)
    ensures forall id :: id in ById(ps) <==> HasId(ps, id)
    ensures forall id :: id in ById(ps) ==> ById(ps)[id] in ps && ById(ps)[id].id == id
    ensures forall name :: name in ByName(ps) <==> HasName(ps, name)
    ensures forall name :: name in ByName(ps) ==> ByName(ps)[name] in ps && ByName(ps)[name].name == name
  {
    if ps != [] {
      var n := |ps| - 1;
      IndexFacts(ps[..n]);
      assert ps == ps[..n] + [ps[n]];
      assert forall row :: row in ps <==> row in ps[..n] || row == ps[n];
    }
  }

  /** Of several rows with one id, or one name, the last one counts. */
  lemma {:induction false} LastRowCounts(ps: seq<Row>, i: nat)
    requires i < |ps|
    ensures (forall j :: i < j < |ps| ==> ps[j].id != ps[i].id) ==> ps[i].id in ById(ps) && ById(ps)[ps[i].id] == ps[i]
    ensures (forall j :: i < j < |ps| ==> ps[j].name != ps[i].name) ==>
              ps[i].name in ByName(ps) && ByName(ps)[ps[i].name] == ps[i]
  {
    var n := |ps| - 1;
    if i < n {
      assert ps[..n][i] == ps[i];
      LastRowCounts(ps[..n], i);
    }
  }

  /** What the row of a recorded entry is: the same container, or, with that container gone, one
      that now bears its name. */
  predicate RowOf(r: Entry, ps: seq<Row>, row: Row) {
    row in ps && (row.id == r.id || (row.name == r.name && !HasId(ps, r.id)))
  }

  lemma CurrentRowFacts(r: Entry, ps: seq<Row>)
    ensures CurrentRow(r, ps).Some? <==> HasId(ps, r.id) || HasName(ps, r.name)
    ensures CurrentRow(r, ps).Some? ==> RowOf(r, ps, CurrentRow(r, ps).value)
  {
    hide ById, ByName, HasId, HasName;
    IndexFacts(ps);
  }

  /** Order and length are kept; an entry is found exactly when its id or its name still exists, and
      then reports the id and the state of that container. */
  lemma ResolveExactly(recorded: seq<Entry>, ps: seq<Row>)
    ensures |Resolve(recorded, ps)| == |recorded|
    ensures forall i :: 0 <= i < |recorded| ==>
              var r, e := recorded[i], Resolve(recorded, ps)[i];
              && e.id == r.id && e.name == r.name
              && (e.current.Some? <==> HasId(ps, r.id) || HasName(ps, r.name))
              && (e.current.Some? ==>
                    exists row :: RowOf(r, ps, row) && e.current == Some(row.id) && e.running == row.running)
              && (e.current.None? ==> !e.running)
  {
    hide CurrentRow, RowOf, HasId, HasName;
    forall i | 0 <= i < |recorded|
      ensures var r, e := recorded[i], Resolve(recorded, ps)[i];
              && (e.current.Some? <==> HasId(ps, r.id) || HasName(ps, r.name))
              && (e.current.Some? ==>
                    exists row :: RowOf(r, ps, row) && e.current == Some(row.id) && e.running == row.running)
    {
      CurrentRowFacts(recorded[i], ps);
    }
  }

  ghost predicate DistinctRows(ps: seq<Row>) {
    forall i, j :: 0 <= i < j < |ps| ==> ps[i].id != ps[j].id && ps[i].name != ps[j].name
  }

  ghost predicate DistinctEntries(recorded: seq<Entry>) {
    forall i, j :: 0 <= i < j < |recorded| ==> recorded[i].id != recorded[j].id && recorded[i].name != recorded[j].name
  }

  lemma SameRow(ps: seq<Row>, a: Row, b: Row)
    requires DistinctRows(ps) && a in ps && b in ps && (a.id == b.id || a.name == b.name)
    ensures a == b
  {
    var i :| 0 <= i < |ps| && ps[i] == a;
    var j :| 0 <= j < |ps| && ps[j] == b;
  }

  /** A surviving recorded container that took the name of a recorded one that is gone. */
  ghost predicate TookName(recorded: seq<Entry>, ps: seq<Row>, i: int, j: int) {
    && 0 <= i < |recorded| && 0 <= j < |recorded| && i != j
    && HasBoth(ps, recorded[i].id, recorded[j].name) && !HasId(ps, recorded[j].id)
  }

  predicate HasBoth(ps: seq<Row>, id: string, name: string) {
    exists row :: row in ps && row.id == id && row.name == name
  }

  /** Two recorded entries never resolve to one container, exactly when no surviving one was renamed
      to the name of one that is gone. */
  lemma ResolveInjectiveExactly(recorded: seq<Entry>, ps: seq<Row>)
    requires DistinctRows(ps) && DistinctEntries(recorded)
    ensures (forall i, j :: 0 <= i < |recorded| && 0 <= j < |recorded| && i != j ==>
               Resolve(recorded, ps)[i].current.None?
                   || Resolve(recorded, ps)[i].current != Resolve(recorded, ps)[j].current)
            <==> !exists i, j :: TookName(recorded, ps, i, j)
  {
    hide TookName;
    forall i, j | 0 <= i < |recorded| && 0 <= j < |recorded| && i != j
      ensures Resolve(recorded, ps)[i].current.Some?
              && Resolve(recorded, ps)[i].current == Resolve(recorded, ps)[j].current
              ==> TookName(recorded, ps, i, j) || TookName(recorded, ps, j, i)
    {
      if Resolve(recorded, ps)[i].current.Some?
         && Resolve(recorded, ps)[i].current == Resolve(recorded, ps)[j].current {
        OneRowForTwo(recorded, ps, i, j);
      }
    }
    forall i, j | TookName(recorded, ps, i, j)
      ensures 0 <= i < |recorded| && 0 <= j < |recorded| && i != j
      ensures Resolve(recorded, ps)[i].current == Some(recorded[i].id) == Resolve(recorded, ps)[j].current
    {
      TakenResolves(recorded, ps, i, j);
    }
  }

  lemma OneRowForTwo(recorded: seq<Entry>, ps: seq<Row>, i: nat, j: nat)
    requires DistinctRows(ps) && DistinctEntries(recorded) && i < |recorded| && j < |recorded| && i != j
    requires Resolve(recorded, ps)[i].current.Some?
             && Resolve(recorded, ps)[i].current == Resolve(recorded, ps)[j].current
    ensures TookName(recorded, ps, i, j) || TookName(recorded, ps, j, i)
  {
    hide CurrentRow, HasId, HasName, DistinctRows;
    var a, b := recorded[i], recorded[j];
    CurrentRowFacts(a, ps);
    CurrentRowFacts(b, ps);
    var row := CurrentRow(a, ps).value;
    SameRow(ps, row, CurrentRow(b, ps).value);
    assert a.id != b.id && a.name != b.name by {
      if i < j { assert recorded[i].id != recorded[j].id; } else { assert recorded[j].id != recorded[i].id; }
    }
    assert row in ps;
  }

  lemma TakenResolves(recorded: seq<Entry>, ps: seq<Row>, i: int, j: int)
    requires DistinctRows(ps) && TookName(recorded, ps, i, j)
    ensures 0 <= i < |recorded| && 0 <= j < |recorded| && i != j
    ensures Resolve(recorded, ps)[i].current == Some(recorded[i].id) == Resolve(recorded, ps)[j].current
  {
    hide CurrentRow, DistinctRows;
    var a, b := recorded[i], recorded[j];
    var row :| row in ps && row.id == a.id && row.name == b.name;
    assert HasId(ps, a.id) && HasName(ps, b.name);
    CurrentRowFacts(a, ps);
    CurrentRowFacts(b, ps);
    SameRow(ps, CurrentRow(a, ps).value, row);
    SameRow(ps, CurrentRow(b, ps).value, row);
  }

  // -------------------------------------------------------------------------
  // Accepted down
  // -------------------------------------------------------------------------

  const SHORT_ID := 12

  predicate IdMatches(a: string, id: string) { id != "" && |a| >= SHORT_ID && StartsWith(id, a) }

  /** Named in the accept-down list by name, by id, or by a prefix of at least twelve characters. */
  predicate IsAcceptedDown(e: Resolved, accepted: seq<string>) {
    exists k :: 0 <= k < |accepted| && NamedBy(e, accepted[k])
  }

  predicate NamedBy(e: Resolved, a: string) {
    a == e.name || IdMatches(a, e.id) || (e.current.Some? && IdMatches(a, e.current.value))
  }

  /** A container may stay down when the list has its name, or at least twelve characters that begin
      its recorded or its current id. */
  lemma AcceptedExactly(e: Resolved, accepted: seq<string>)
    ensures IsAcceptedDown(e, accepted) <==>
            exists a :: a in accepted &&
              (a == e.name || (|a| >= 12 && (a <= e.id || (e.current.Some? && a <= e.current.value))))
  {
    forall a ensures NamedBy(e, a) <==>
                     a == e.name || (|a| >= 12 && (a <= e.id || (e.current.Some? && a <= e.current.value)))
    {
    }
    hide NamedBy;
    if IsAcceptedDown(e, accepted) {
      var k :| 0 <= k < |accepted| && NamedBy(e, accepted[k]);
      assert accepted[k] in accepted;
    }
  }

  /** `is_accepted_down`. */
  method AcceptedDown(e: Resolved, accepted: seq<string>) returns (yes: bool)
    ensures yes <==> IsAcceptedDown(e, accepted)
  {
    for i := 0 to |accepted|
      invariant forall k :: 0 <= k < i ==> !NamedBy(e, accepted[k])
    {
      var a := accepted[i];
      if a == e.name {
        return true;
      }
      if e.id != "" && |a| >= SHORT_ID && a <= e.id {
        return true;
      }
      if e.current.Some? && e.current.value != "" && |a| >= SHORT_ID && a <= e.current.value {
        return true;
      }
    }
    return false;
  }

  /** The entries that are, or are not, accepted down. */
  function Kept(entries: seq<Resolved>, accepted: seq<string>, down: bool): seq<Resolved> {
    if entries == [] then []
    else
      var n := |entries| - 1;
      Kept(entries[..n], accepted, down) + if IsAcceptedDown(entries[n], accepted) == down then [entries[n]] else []
  }

  /** `partition_accepted`. */
  method PartitionAccepted(entries: seq<Resolved>, names: seq<string>)
    returns (required: seq<Resolved>, accepted: seq<Resolved>)
    ensures required == Kept(entries, names, false) && accepted == Kept(entries, names, true)
  {
    hide IsAcceptedDown;
    required, accepted := [], [];
    for i := 0 to |entries|
      invariant required == Kept(entries[..i], names, false) && accepted == Kept(entries[..i], names, true)
    {
      assert entries[..i + 1][..i] == entries[..i];
      var down := AcceptedDown(entries[i], names);
      if down {
        accepted := accepted + [entries[i]];
      } else {
        required := required + [entries[i]];
      }
    }
    assert entries[..|entries|] == entries;
  }

  /** `all` interleaves `a` and `b`, keeping the order of each. */
  ghost predicate IsMerge<T>(a: seq<T>, b: seq<T>, all: seq<T>) {
    if all == [] then a == [] && b == []
    else
      var last := all[|all| - 1];
      || (a != [] && a[|a| - 1] == last && IsMerge(a[..|a| - 1], b, all[..|all| - 1]))
      || (b != [] && b[|b| - 1] == last && IsMerge(a, b[..|b| - 1], all[..|all| - 1]))
  }

  lemma {:induction false} MergeConserves<T>(a: seq<T>, b: seq<T>, all: seq<T>)
    requires IsMerge(a, b, all)
    ensures multiset(a) + multiset(b) == multiset(all)
  {
    if all != [] {
      var last, rest := all[|all| - 1], all[..|all| - 1];
      assert all == rest + [last];
      if a != [] && a[|a| - 1] == last && IsMerge(a[..|a| - 1], b, rest) {
        assert a == a[..|a| - 1] + [last];
        MergeConserves(a[..|a| - 1], b, rest);
      } else {
        assert b == b[..|b| - 1] + [last];
        MergeConserves(a, b[..|b| - 1], rest);
      }
    }
  }

  lemma {:induction false} KeptMembers(entries: seq<Resolved>, names: seq<string>, down: bool)
    ensures forall e :: e in Kept(entries, names, down) <==> e in entries && IsAcceptedDown(e, names) == down
  {
    hide IsAcceptedDown;
    if entries != [] {
      var n := |entries| - 1;
      KeptMembers(entries[..n], names, down);
      assert entries == entries[..n] + [entries[n]];
    }
  }

  lemma {:induction false} KeptMerge(entries: seq<Resolved>, names: seq<string>)
    ensures IsMerge(Kept(entries, names, false), Kept(entries, names, true), entries)
  {
    hide IsAcceptedDown;
    if entries != [] {
      var n := |entries| - 1;
      KeptMerge(entries[..n], names);
      var r, a := Kept(entries, names, false), Kept(entries, names, true);
      if IsAcceptedDown(entries[n], names) {
        assert a[..|a| - 1] == Kept(entries[..n], names, true) && r == Kept(entries[..n], names, false);
      } else {
        assert r[..|r| - 1] == Kept(entries[..n], names, false) && a == Kept(entries[..n], names, true);
      }
    }
  }

  /** The two lists are what is accepted and what is not; interleaved again they are the input. */
  lemma PartitionConserves(entries: seq<Resolved>, names: seq<string>)
    ensures var required, accepted := Kept(entries, names, false), Kept(entries, names, true);
            && IsMerge(required, accepted, entries)
            && (forall e :: e in accepted <==> e in entries && IsAcceptedDown(e, names))
            && (forall e :: e in required <==> e in entries && !IsAcceptedDown(e, names))
            && multiset(required) + multiset(accepted) == multiset(entries)
  {
    hide Kept, IsAcceptedDown, IsMerge;
    KeptMerge(entries, names);
    KeptMembers(entries, names, true);
    KeptMembers(entries, names, false);
    MergeConserves(Kept(entries, names, false), Kept(entries, names, true), entries);
  }
}
