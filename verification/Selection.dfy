/** The part of a list that meets a condition, by the positions it stands at. */
module Selection {

  /** Increasing positions list exactly the places whose elements are kept, and `kept` is what stands there. */
  ghost predicate SelectsAt<T(!new)>(at: seq<nat>, all: seq<T>, kept: seq<T>, keep: T -> bool) {
    && |at| == |kept| && (forall j, k :: 0 <= j < k < |at| ==> at[j] < at[k])
    && (forall j :: 0 <= j < |at| ==> at[j] < |all| && kept[j] == all[at[j]])
    && (forall i :: 0 <= i < |all| ==> (i in at <==> keep(all[i])))
  }

  ghost predicate Selects<T(!new)>(all: seq<T>, kept: seq<T>, keep: T -> bool) {
    exists at :: SelectsAt(at, all, kept, keep)
  }

  ghost function Kept<T(!new)>(all: seq<T>, keep: T -> bool): seq<T> {
    if all == [] then []
    else
      var n := |all| - 1;
      Kept(all[..n], keep) + if keep(all[n]) then [all[n]] else []
  }

  lemma {:induction false} KeptSelects<T(!new)>(all: seq<T>, keep: T -> bool)
    ensures Selects(all, Kept(all, keep), keep)
  {
    hide SelectsAt;
    if all == [] {
      NothingSelected(keep);
    } else {
      var n := |all| - 1;
      KeptSelects(all[..n], keep);
      var at :| SelectsAt(at, all[..n], Kept(all[..n], keep), keep);
      SelectsMore(at, all, Kept(all[..n], keep), keep);
    }
  }

  lemma NothingSelected<T(!new)>(keep: T -> bool)
    ensures SelectsAt([], [], [], keep)
  {
  }

  lemma KeptAt<T(!new)>(all: seq<T>, keep: T -> bool) returns (at: seq<nat>)
    ensures SelectsAt(at, all, Kept(all, keep), keep)
  {
    KeptSelects(all, keep);
    at :| SelectsAt(at, all, Kept(all, keep), keep);
  }

  lemma SelectsMore<T(!new)>(at: seq<nat>, all: seq<T>, kept: seq<T>, keep: T -> bool)
    requires all != [] && SelectsAt(at, all[..|all| - 1], kept, keep)
    ensures var n := |all| - 1;
            SelectsAt(if keep(all[n]) then at + [n] else at, all, kept + (if keep(all[n]) then [all[n]] else []), keep)
  {
    var n := |all| - 1;
    var before := all[..n];
    assert forall i :: 0 <= i < n ==> before[i] == all[i];
    if keep(all[n]) {
      SelectsLast(at, before, kept, keep, all[n]);
      assert all == before + [all[n]];
    } else {
      assert kept + [] == kept;
      assert n !in at;
    }
  }

  lemma SelectsLast<T(!new)>(at: seq<nat>, before: seq<T>, kept: seq<T>, keep: T -> bool, last: T)
    requires SelectsAt(at, before, kept, keep) && keep(last)
    ensures SelectsAt(at + [|before|], before + [last], kept + [last], keep)
  {
    var n, all, more, longer := |before|, before + [last], at + [|before|], kept + [last];
    forall j, k | 0 <= j < k < |more| ensures more[j] < more[k] {
      assert more[j] == at[j];
    }
    forall j | 0 <= j < |more| ensures more[j] < |all| && longer[j] == all[more[j]] {
      if j < |at| {
        assert more[j] == at[j] && longer[j] == kept[j];
      }
    }
    forall i | 0 <= i < |all| ensures i in more <==> keep(all[i]) {
      if i < n {
        assert all[i] == before[i];
      } else {
        assert more[|at|] == n;
      }
    }
  }

  /** There is one such part. */
  lemma {:induction false} SelectsExactly<T(!new)>(all: seq<T>, kept: seq<T>, keep: T -> bool)
    ensures Selects(all, kept, keep) <==> kept == Kept(all, keep)
  {
    KeptSelects(all, keep);
    if Selects(all, kept, keep) {
      var at :| SelectsAt(at, all, kept, keep);
      SelectedIsKept(at, all, kept, keep);
    }
  }

  lemma {:induction false} SelectedIsKept<T(!new)>(at: seq<nat>, all: seq<T>, kept: seq<T>, keep: T -> bool)
    requires SelectsAt(at, all, kept, keep)
    ensures kept == Kept(all, keep)
  {
    if kept != [] {
      SomeSelected(at, all, kept, keep);
    }
    if all != [] {
      var n := |all| - 1;
      if keep(all[n]) {
        LastSelected(at, all, kept, keep);
        SelectedIsKept(at[..|at| - 1], all[..n], kept[..|at| - 1], keep);
        assert kept == kept[..|at| - 1] + [all[n]];
      } else {
        assert SelectsAt(at, all[..n], kept, keep);
        SelectedIsKept(at, all[..n], kept, keep);
      }
    }
  }

  lemma SomeSelected<T(!new)>(at: seq<nat>, all: seq<T>, kept: seq<T>, keep: T -> bool)
    requires SelectsAt(at, all, kept, keep) && kept != []
    ensures all != []
  {
    assert at[0] < |all|;
  }

  lemma LastSelected<T(!new)>(at: seq<nat>, all: seq<T>, kept: seq<T>, keep: T -> bool)
    requires all != [] && SelectsAt(at, all, kept, keep) && keep(all[|all| - 1])
    ensures at != [] && at[|at| - 1] == |all| - 1
    ensures SelectsAt(at[..|at| - 1], all[..|all| - 1], kept[..|at| - 1], keep)
  {
    var n, m := |all| - 1, |at| - 1;
    assert n in at;
    var k :| 0 <= k < |at| && at[k] == n;
    assert k == m || at[k] < at[m];
    forall i | 0 <= i < n ensures i in at[..m] <==> keep(all[..n][i]) {
      assert i in at <==> keep(all[i]);
      assert at == at[..m] + [n];
    }
  }

  lemma {:induction false} KeptFront<T(!new)>(x: T, all: seq<T>, keep: T -> bool)
    ensures Kept([x] + all, keep) == (if keep(x) then [x] else []) + Kept(all, keep)
  {
    if all == [] {
      assert [x] + all == [x] && [x][..0] == [];
    } else {
      var n := |all| - 1;
      KeptFront(x, all[..n], keep);
      assert ([x] + all)[..n + 1] == [x] + all[..n];
    }
  }

  lemma {:induction false} KeptMembers<T(!new)>(all: seq<T>, keep: T -> bool)
    ensures forall x :: x in Kept(all, keep) <==> x in all && keep(x)
    ensures Kept(all, keep) == [] <==> forall x :: x in all ==> !keep(x)
  {
    if all != [] {
      var n := |all| - 1;
      KeptMembers(all[..n], keep);
      assert all == all[..n] + [all[n]];
      var before := Kept(all[..n], keep);
      assert before != [] ==> before[0] in before;
      assert Kept(all, keep) != [] ==> Kept(all, keep)[0] in Kept(all, keep);
    }
  }
}
