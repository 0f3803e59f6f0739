/** Does a task list, blocks and all, name the wanted tasks in the wanted order? */
module MaintainStatic {
  import opened Text

  /** A parsed task: anything that is no mapping, or a task with what it may carry. */
  datatype Task = NotATask | Task(name: Option<string>, meta: Option<string>, block: seq<Task>)

  const META_PREFIX := "meta:"

  predicate Given(s: Option<string>) { s.Some? && s.value != "" }

  /** A task's name, or its meta action, or nothing. */
  function Label(name: Option<string>, meta: Option<string>): string {
    if Given(name) then name.value else if Given(meta) then META_PREFIX + meta.value else ""
  }

  function Flat(tasks: seq<Task>): seq<string> {
    if tasks == [] then []
    else
      (match tasks[0]
       case NotATask => []
       case Task(name, meta, block) => [Label(name, meta)] + Flat(block))
      + Flat(tasks[1..])
  }

  /** `flattened_task_names`. */
  method FlattenedTaskNames(tasks: seq<Task>) returns (out: seq<string>)
    ensures out == Flat(tasks)
    decreases tasks
  {
    out := [];
    for i := 0 to |tasks|
      invariant Flat(tasks) == out + Flat(tasks[i..])
    {
      var t := tasks[i];
      assert tasks[i..][0] == t && tasks[i..][1..] == tasks[i + 1..];
      if t.Task? {
        var inner := FlattenedTaskNames(t.block);
        assert out + ([Label(t.name, t.meta)] + inner + Flat(tasks[i + 1..]))
               == (out + [Label(t.name, t.meta)]) + inner + Flat(tasks[i + 1..]);
        out := out + [Label(t.name, t.meta)];
        out := out + inner;
      } else {
        assert [] + Flat(tasks[i + 1..]) == Flat(tasks[i + 1..]);
      }
    }
    assert tasks[|tasks|..] == [];
  }

  // -------------------------------------------------------------------------
  // In order
  // -------------------------------------------------------------------------

  /** `names.index(w, start)`, or `|names|`. */
  function IndexFrom(names: seq<string>, w: string, start: nat): (i: nat)
    requires start <= |names|
    ensures start <= i <= |names| && (i < |names| ==> names[i] == w)
    ensures forall k :: start <= k < i ==> names[k] != w
    decreases |names| - start
  {
    if start == |names| || names[start] == w then start else IndexFrom(names, w, start + 1)
  }

  /** Increasing positions of `names` that spell `wanted`. */
  ghost predicate Spells(at: seq<nat>, names: seq<string>, wanted: seq<string>) {
    && |at| == |wanted|
    && (forall k :: 0 <= k < |at| ==> at[k] < |names| && names[at[k]] == wanted[k])
    && (forall j, k :: 0 <= j < k < |at| ==> at[j] < at[k])
  }

  ghost predicate Embeds(names: seq<string>, wanted: seq<string>) {
    exists at :: Spells(at, names, wanted)
  }

  /** `in_order`: true exactly when some increasing choice of positions spells the wanted names. */
  method InOrder(names: seq<string>, wanted: seq<string>) returns (yes: bool)
    ensures yes <==> Embeds(names, wanted)
  {
    var pos := 0;
    ghost var at: seq<nat> := [];
    for i := 0 to |wanted|
      invariant pos <= |names| && Spells(at, names, wanted[..i]) && (i > 0 ==> pos == at[i - 1] + 1)
                && (i == 0 ==> pos == 0)
      invariant forall other :: Spells(other, names, wanted) && i > 0 ==> other[i - 1] + 1 >= pos
    {
      var next := IndexFrom(names, wanted[i], pos);
      forall other | Spells(other, names, wanted) ensures next <= other[i] < |names| {
        assert i > 0 ==> other[i - 1] < other[i];
      }
      if next == |names| {
        return false;
      }
      assert wanted[..i + 1] == wanted[..i] + [wanted[i]];
      at := at + [next];
      pos := next + 1;
    }
    assert wanted[..|wanted|] == wanted;
    return true;
  }

  // -------------------------------------------------------------------------
  // Positions in a nested list
  // -------------------------------------------------------------------------

  /** A task's place: its index, then its index in the block it is in, and so on inwards. */
  predicate Placed(tasks: seq<Task>, path: seq<nat>)
    decreases |path|
  {
    && path != [] && path[0] < |tasks| && tasks[path[0]].Task?
    && (|path| > 1 ==> Placed(tasks[path[0]].block, path[1..]))
  }

  function NameAt(tasks: seq<Task>, path: seq<nat>): string
    requires Placed(tasks, path)
    decreases |path|
  {
    var t := tasks[path[0]];
    if |path| == 1 then Label(t.name, t.meta) else NameAt(t.block, path[1..])
  }

  /** The order in which the tasks run: a block before what is in it, and from first to last. */
  predicate RunsBefore(a: seq<nat>, b: seq<nat>)
    decreases |a|
  {
    if b == [] then false
    else if a == [] then true
    else a[0] < b[0] || (a[0] == b[0] && RunsBefore(a[1..], b[1..]))
  }

  function Under(i: nat, paths: seq<seq<nat>>): seq<seq<nat>> {
    seq(|paths|, k requires 0 <= k < |paths| => [i] + paths[k])
  }

  /** Every place from the `i`-th task on, depth first. */
  function Places(tasks: seq<Task>, i: nat): seq<seq<nat>>
    decreases tasks, |tasks| - i
  {
    if i >= |tasks| then []
    else (if tasks[i].Task? then [[i]] + Under(i, Places(tasks[i].block, 0)) else []) + Places(tasks, i + 1)
  }

  /** The places and the flattened names go together, one for one. */
  lemma {:induction false} PlacesName(tasks: seq<Task>, i: nat)
    requires i <= |tasks|
    ensures |Places(tasks, i)| == |Flat(tasks[i..])|
    ensures forall k :: 0 <= k < |Places(tasks, i)| ==>
              && Placed(tasks, Places(tasks, i)[k]) && Places(tasks, i)[k][0] >= i
              && NameAt(tasks, Places(tasks, i)[k]) == Flat(tasks[i..])[k]
    decreases tasks, |tasks| - i
  {
    if i < |tasks| {
      PlacesName(tasks, i + 1);
      var t := tasks[i];
      assert tasks[i..][0] == t && tasks[i..][1..] == tasks[i + 1..];
      if t.Task? {
        PlacesName(t.block, 0);
        assert t.block[0..] == t.block;
        var here := [[i]] + Under(i, Places(t.block, 0));
        var names := [Label(t.name, t.meta)] + Flat(t.block);
        assert |here| == |names| && Places(tasks, i) == here + Places(tasks, i + 1);
        assert Flat(tasks[i..]) == names + Flat(tasks[i + 1..]);
        forall k | 0 <= k < |here|
          ensures Placed(tasks, here[k]) && here[k][0] >= i && NameAt(tasks, here[k]) == names[k]
        {
          PlaceInBlock(tasks, i, k);
        }
      }
    }
  }

  lemma PlaceInBlock(tasks: seq<Task>, i: nat, k: nat)
    requires i < |tasks| && tasks[i].Task?
    requires var inner := Places(tasks[i].block, 0);
             k <= |inner| && |inner| == |Flat(tasks[i].block)|
             && (k > 0 ==> Placed(tasks[i].block, inner[k - 1])
                           && NameAt(tasks[i].block, inner[k - 1]) == Flat(tasks[i].block)[k - 1])
    ensures var here := [[i]] + Under(i, Places(tasks[i].block, 0));
            var names := [Label(tasks[i].name, tasks[i].meta)] + Flat(tasks[i].block);
            Placed(tasks, here[k]) && here[k][0] == i && NameAt(tasks, here[k]) == names[k]
  {
    hide Places, Flat;
    var inner := Places(tasks[i].block, 0);
    if k > 0 {
      var p := [i] + inner[k - 1];
      assert p[1..] == inner[k - 1];
    }
  }

  /** The places come in running order. */
  lemma {:induction false} PlacesInOrder(tasks: seq<Task>, i: nat)
    requires i <= |tasks|
    ensures forall j, k :: 0 <= j < k < |Places(tasks, i)| ==> RunsBefore(Places(tasks, i)[j], Places(tasks, i)[k])
    decreases tasks, |tasks| - i
  {
    if i < |tasks| {
      PlacesInOrder(tasks, i + 1);
      PlacesName(tasks, i + 1);
      if tasks[i].Task? {
        var inner := Places(tasks[i].block, 0);
        PlacesInOrder(tasks[i].block, 0);
        PlacesName(tasks[i].block, 0);
        var here, later := [[i]] + Under(i, inner), Places(tasks, i + 1);
        BlockInOrder(i, inner);
        hide RunsBefore, Under, Flat, Placed, NameAt;
        assert Places(tasks, i) == here + later;
        assert forall k :: 0 <= k < |here| ==> here[k] != [] && here[k][0] == i by { HereStarts(i, inner); }
        forall j, k | 0 <= j < |here| && 0 <= k < |later| ensures RunsBefore(here[j], later[k]) {
          FirstDecides(here[j], later[k]);
        }
      }
    }
  }

  lemma HereStarts(i: nat, inner: seq<seq<nat>>)
    ensures var here := [[i]] + Under(i, inner);
            forall k :: 0 <= k < |here| ==> here[k] != [] && here[k][0] == i
  {
  }

  lemma FirstDecides(a: seq<nat>, b: seq<nat>)
    requires a != [] && b != [] && a[0] < b[0]
    ensures RunsBefore(a, b)
  {
  }

  lemma BlockInOrder(i: nat, inner: seq<seq<nat>>)
    requires forall j, k :: 0 <= j < k < |inner| ==> RunsBefore(inner[j], inner[k])
    requires forall k :: 0 <= k < |inner| ==> inner[k] != []
    ensures var here := [[i]] + Under(i, inner);
            forall j, k :: 0 <= j < k < |here| ==> RunsBefore(here[j], here[k])
  {
    var here := [[i]] + Under(i, inner);
    forall j, k | 0 <= j < k < |here| ensures RunsBefore(here[j], here[k]) {
      assert here[k] == [i] + inner[k - 1] && here[k][1..] == inner[k - 1];
      if j > 0 {
        assert here[j] == [i] + inner[j - 1] && here[j][1..] == inner[j - 1];
      } else {
        assert here[j][1..] == [];
      }
    }
  }

  /** Every task is among them. */
  lemma {:induction false} PlacesComplete(tasks: seq<Task>, i: nat, path: seq<nat>)
    requires i <= |tasks| && Placed(tasks, path) && path[0] >= i
    ensures path in Places(tasks, i)
    decreases tasks, |tasks| - i
  {
    if path[0] == i {
      var inner := Places(tasks[i].block, 0);
      var here := [[i]] + Under(i, inner);
      assert Places(tasks, i) == here + Places(tasks, i + 1);
      if |path| == 1 {
        assert path == [i] == here[0];
      } else {
        PlacesComplete(tasks[i].block, 0, path[1..]);
        var k :| 0 <= k < |inner| && inner[k] == path[1..];
        assert here[k + 1] == [i] + inner[k] == path;
      }
    } else {
      PlacesComplete(tasks, i + 1, path);
    }
  }

  /** Places, one after another in running order, that spell `wanted`. */
  ghost predicate SpellsInTree(paths: seq<seq<nat>>, tasks: seq<Task>, wanted: seq<string>) {
    && |paths| == |wanted|
    && (forall k :: 0 <= k < |paths| ==> Placed(tasks, paths[k]) && NameAt(tasks, paths[k]) == wanted[k])
    && (forall j, k :: 0 <= j < k < |paths| ==> RunsBefore(paths[j], paths[k]))
  }

  lemma {:induction false} NeverBeforeItself(a: seq<nat>, b: seq<nat>)
    ensures !RunsBefore(a, a)
    ensures RunsBefore(a, b) ==> !RunsBefore(b, a)
    decreases |a|
  {
    if a != [] {
      NeverBeforeItself(a[1..], if b == [] then [] else b[1..]);
    }
  }

  /** Asking for names in order over the flattened list decides the running order of the tasks,
      however they are nested in blocks. */
  lemma InOrderDecidesRunningOrder(tasks: seq<Task>, wanted: seq<string>)
    ensures Embeds(Flat(tasks), wanted) <==> exists paths :: SpellsInTree(paths, tasks, wanted)
  {
    hide Flat, Places, Placed, NameAt, RunsBefore;
    var places := Places(tasks, 0);
    PlacesName(tasks, 0);
    PlacesInOrder(tasks, 0);
    assert tasks[0..] == tasks;
    if Embeds(Flat(tasks), wanted) {
      var at :| Spells(at, Flat(tasks), wanted);
      var paths := seq(|at|, k requires 0 <= k < |at| => places[at[k]]);
      assert SpellsInTree(paths, tasks, wanted);
    }
    forall paths | SpellsInTree(paths, tasks, wanted) ensures Embeds(Flat(tasks), wanted) {
      TreeEmbeds(tasks, wanted, paths);
    }
  }

  lemma TreeEmbeds(tasks: seq<Task>, wanted: seq<string>, paths: seq<seq<nat>>)
    requires SpellsInTree(paths, tasks, wanted)
    ensures Embeds(Flat(tasks), wanted)
  {
    hide Flat, Places, NameAt, RunsBefore;
    var places := Places(tasks, 0);
    PlacesName(tasks, 0);
    PlacesInOrder(tasks, 0);
    assert tasks[0..] == tasks;
    var at := PositionsOf(tasks, paths);
    forall j, k | 0 <= j < k < |at| ensures at[j] < at[k] {
      NeverBeforeItself(paths[j], paths[k]);
    }
    assert Spells(at, Flat(tasks), wanted);
  }

  lemma {:induction false} PositionsOf(tasks: seq<Task>, paths: seq<seq<nat>>) returns (at: seq<nat>)
    requires forall k :: 0 <= k < |paths| ==> Placed(tasks, paths[k])
    ensures |at| == |paths| && forall k :: 0 <= k < |at| ==>
              at[k] < |Places(tasks, 0)| && Places(tasks, 0)[at[k]] == paths[k]
  {
    if paths == [] {
      at := [];
    } else {
      var n := |paths| - 1;
      var before := PositionsOf(tasks, paths[..n]);
      PlacesComplete(tasks, 0, paths[n]);
      var i :| 0 <= i < |Places(tasks, 0)| && Places(tasks, 0)[i] == paths[n];
      at := before + [i];
    }
  }

  /** A task goes by its name, else by `meta:` and its meta action, else by nothing; an empty text does not count. */
  lemma LabelExactly(name: Option<string>, meta: Option<string>)
    ensures name.Some? && name.value != "" ==> Label(name, meta) == name.value
    ensures (name == None || name == Some("")) && meta.Some? && meta.value != "" ==>
              Label(name, meta) == "meta:" + meta.value
    ensures (name == None || name == Some("")) && (meta == None || meta == Some("")) ==> Label(name, meta) == ""
  {
  }
}
