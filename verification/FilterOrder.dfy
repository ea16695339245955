/** Filters of one stream are applied in the order they were registered, however they travel. */
module FilterOrder {
  import opened StreamFlow

  // ---------- Subsequences ----------

  ghost predicate Sub(a: seq<nat>, b: seq<nat>)
    decreases |b|
  {
    || a == []
    || (b != [] && (Sub(a, b[..|b| - 1]) || (a[|a| - 1] == b[|b| - 1] && Sub(a[..|a| - 1], b[..|b| - 1]))))
  }

  lemma {:induction false} SubGrows(a: seq<nat>, b: seq<nat>, more: seq<nat>)
    requires Sub(a, b)
    ensures Sub(a, b + more)
    decreases |more|
  {
    if more == [] {
      assert b + [] == b;
    } else {
      SubGrows(a, b, more[..|more| - 1]);
      assert (b + more)[..|b + more| - 1] == b + more[..|more| - 1];
    }
  }

  lemma SubBoth(a: seq<nat>, b: seq<nat>, x: nat)
    requires Sub(a, b)
    ensures Sub(a + [x], b + [x])
  {
    assert (a + [x])[..|a|] == a && (b + [x])[..|b|] == b;
  }

  lemma {:induction false} SubBehind(a: seq<nat>, before: seq<nat>, b: seq<nat>)
    requires Sub(a, b)
    ensures Sub(a, before + b)
    decreases |b|
  {
    if a != [] {
      var init := b[..|b| - 1];
      assert (before + b)[..|before + b| - 1] == before + init;
      if Sub(a, init) {
        SubBehind(a, before, init);
      } else {
        SubBehind(a[..|a| - 1], before, init);
      }
    }
  }

  // ---------- Where filters are ----------

  /** Whatever a stream's filters reach keeps them in the order they were registered. */
  ghost predicate InOrder(flow: seq<Flow>, registered: seq<seq<nat>>) {
    && |registered| == |flow|
    && forall k: nat, j: nat :: k < |flow| && j < |flow| && Reaches(flow, k, j) ==> Sub(registered[k], flow[j].filters)
  }

  /** Registering a filter anywhere keeps the order. */
  lemma RegistrationKeepsOrder(flow: seq<Flow>, registered: seq<seq<nat>>, k: nat, f: nat)
    requires InOrder(flow, registered) && k < |flow|
    ensures InOrder(Pushed(flow, k, f), registered[k := registered[k] + [f]])
  {
    hide Pushed, Reaches, Sub;
    PushReaches(flow, k, f);
    var after, more := Pushed(flow, k, f), registered[k := registered[k] + [f]];
    forall i: nat, j: nat | i < |flow| && j < |flow| && Reaches(after, i, j)
      ensures Sub(more[i], after[j].filters)
    {
      ReachesSame(flow, after, i, j);
      var added := if Reaches(flow, k, j) then [f] else [];
      assert after[j].filters == flow[j].filters + added;
      if i == k {
        SubBoth(registered[k], flow[j].filters, f);
      } else {
        SubGrows(registered[i], flow[j].filters, added);
      }
    }
  }

  /** What reaches a level once another hands down came the old way, or through that one. */
  lemma {:induction false} ReachesThrough(flow: seq<Flow>, k: nat, i: nat, j: nat)
    requires 0 < k < |flow| && i < |flow| && j < |flow|
    ensures var marked := flow[k := flow[k].(resolved := true)];
      Reaches(marked, i, j) ==> Reaches(flow, i, j) || (Reaches(flow, i, k) && Reaches(marked, k - 1, j))
    decreases i
  {
    if i > 0 && i != k {
      ReachesThrough(flow, k, i - 1, j);
    }
  }

  lemma {:induction false} MarkingReaches(flow: seq<Flow>, k: nat, i: nat, j: nat)
    requires k < |flow| && i < |flow| && (k == 0 || flow[k].mapped)
    ensures Reaches(flow[k := flow[k].(resolved := true)], i, j) <==> Reaches(flow, i, j)
    decreases i
  {
    if i > 0 {
      MarkingReaches(flow, k, i - 1, j);
    }
  }

  lemma HandingKeepsOrder(flow: seq<Flow>, registered: seq<seq<nat>>, k: nat)
    requires InOrder(flow, registered) && 0 < k < |flow| && !flow[k].resolved && !flow[k].mapped
    ensures InOrder(Resolved(flow, k), registered)
  {
    hide PushedAll, Reaches, Sub;
    var marked := flow[k := flow[k].(resolved := true)];
    var after := Resolved(flow, k);
    assert after == PushedAll(marked, k - 1, flow[k].filters);
    PushAllReaches(marked, k - 1, flow[k].filters);
    forall i: nat, j: nat | i < |flow| && j < |flow| && Reaches(after, i, j)
      ensures Sub(registered[i], after[j].filters)
    {
      ReachesSame(marked, after, i, j);
      ReachesThrough(flow, k, i, j);
      var added := if Reaches(marked, k - 1, j) then flow[k].filters else [];
      assert after[j].filters == flow[j].filters + added;
      if Reaches(flow, i, j) {
        SubGrows(registered[i], flow[j].filters, added);
      } else {
        SubBehind(registered[i], flow[j].filters, flow[k].filters);
      }
    }
  }

  /** Resolving a stream keeps the order. */
  lemma ResolutionKeepsOrder(flow: seq<Flow>, registered: seq<seq<nat>>, k: nat)
    requires InOrder(flow, registered) && k < |flow|
    ensures InOrder(Resolved(flow, k), registered)
  {
    hide Reaches, Sub, PushedAll;
    if !flow[k].resolved {
      if k > 0 && !flow[k].mapped {
        HandingKeepsOrder(flow, registered, k);
      } else {
        var marked := flow[k := flow[k].(resolved := true)];
        assert Resolved(flow, k) == marked;
        forall i: nat, j: nat | i < |flow| && j < |flow| && Reaches(marked, i, j)
          ensures Sub(registered[i], marked[j].filters)
        {
          MarkingReaches(flow, k, i, j);
        }
      }
    }
  }

  lemma {:induction false} ResolutionDownKeepsOrder(flow: seq<Flow>, registered: seq<seq<nat>>, k: nat)
    requires InOrder(flow, registered) && k < |flow|
    ensures InOrder(ResolvedDown(flow, k), registered)
    decreases k
  {
    hide InOrder, Resolved;
    ResolutionKeepsOrder(flow, registered, k);
    if k > 0 {
      ResolutionDownKeepsOrder(Resolved(flow, k), registered, k - 1);
    }
  }

  // ---------- Where filters are applied ----------

  /** The filters an update has passed, in order. */
  function Passed(trace: seq<Stamp>): seq<nat> {
    if trace == [] then []
    else Passed(trace[..|trace| - 1]) + (match trace[|trace| - 1] case Filtered(id) => [id] case _ => [])
  }

  lemma {:induction false} PassedAdds(a: seq<Stamp>, b: seq<Stamp>)
    ensures Passed(a + b) == Passed(a) + Passed(b)
  {
    if b == [] {
      assert a + [] == a;
    } else {
      PassedAdds(a, b[..|b| - 1]);
      assert (a + b)[..|a + b| - 1] == a + b[..|b| - 1];
    }
  }

  lemma {:induction false} StampsPass(filters: seq<nat>)
    ensures Passed(Stamps(filters)) == filters
  {
    if filters != [] {
      var init := filters[..|filters| - 1];
      StampsPass(init);
      assert Stamps(filters)[..|filters| - 1] == Stamps(init);
      assert filters == init + [filters[|filters| - 1]];
    }
  }

  lemma {:induction false} NonePassed(trace: seq<Stamp>)
    requires forall s :: s in trace ==> !s.Filtered?
    ensures Passed(trace) == []
  {
    if trace != [] {
      NonePassed(trace[..|trace| - 1]);
    }
  }

  /** A level that applies its filters lets an update pass them behind those it passed below. */
  lemma EnteredPasses(flow: seq<Flow>, k: nat, below: Update)
    requires k < |flow|
    ensures Passed(Entered(flow, k, below).trace)
         == Passed(below.trace) + (if flow[k].mapped || k == 0 then flow[k].filters else [])
  {
    hide Passed, Stamps;
    var mark := if flow[k].mapped then [Mapped(k)] else [];
    var stamps := if flow[k].mapped || k == 0 then Stamps(flow[k].filters) else [];
    PassedAdds(below.trace, mark);
    PassedAdds(below.trace + mark, stamps);
    NonePassed(mark);
    NonePassed([]);
    StampsPass(flow[k].filters);
    assert Passed(below.trace) + [] == Passed(below.trace);
  }

  lemma LeavingPasses(flow: seq<Flow>, k: nat, u: Update)
    requires k < |flow|
    ensures Passed(Leaving(flow, k, u).trace) == Passed(u.trace)
  {
    hide Passed;
    var hooks := seq(flow[k].hooks, i requires 0 <= i < flow[k].hooks => Hooked(k));
    PassedAdds(u.trace, hooks);
    NonePassed(hooks);
    assert Passed(u.trace) + [] == Passed(u.trace);
  }

  /** Every level where filters are applied contributes them in the order kept. */
  lemma {:induction false} LevelPasses(flow: seq<Flow>, k: nat, j: nat, raw: int, a: seq<nat>)
    requires j <= k < |flow| && (flow[j].mapped || j == 0) && Sub(a, flow[j].filters)
    ensures Sub(a, Passed(Yielded(flow, k, raw).trace))
    decreases k
  {
    hide Passed, Sub, Entered, Leaving;
    var below := if k == 0 then Update(raw, []) else Yielded(flow, k - 1, raw);
    EnteredPasses(flow, k, below);
    LeavingPasses(flow, k, Entered(flow, k, below));
    if j == k {
      SubBehind(a, Passed(below.trace), flow[k].filters);
    } else {
      LevelPasses(flow, k - 1, j, raw, a);
      SubGrows(a, Passed(below.trace), if flow[k].mapped || k == 0 then flow[k].filters else []);
    }
  }

  /** In a chain resolved as far as a stream every registration there comes to a level that applies it. */
  lemma {:induction false} ComesToApply(flow: seq<Flow>, k: nat) returns (j: nat)
    requires k < |flow| && forall i :: 0 < i <= k ==> flow[i].resolved
    ensures j <= k && Reaches(flow, k, j) && (flow[j].mapped || j == 0)
    decreases k
  {
    if k == 0 || flow[k].mapped {
      j := k;
    } else {
      j := ComesToApply(flow, k - 1);
    }
  }

  /** An update pulled through a chain passes the filters of any stream of it in the order they were registered there,
      before or after resolution. */
  lemma PassedInOrder(flow: seq<Flow>, registered: seq<seq<nat>>, top: nat, k: nat, raw: int)
    requires InOrder(flow, registered) && k <= top < |flow|
    ensures Sub(registered[k], Passed(Yielded(ResolvedDown(flow, top), top, raw).trace))
  {
    hide Reaches, Sub, ResolvedDown, Yielded;
    ResolutionDownKeepsOrder(flow, registered, top);
    ResolutionDownSettles(flow, top);
    var after := ResolvedDown(flow, top);
    var j := ComesToApply(after, k);
    LevelPasses(after, top, j, raw, registered[k]);
  }

  /** At a stream that maps, an update is mapped behind everything done to it below and before the filters kept there. */
  lemma MapsFirst(flow: seq<Flow>, k: nat, raw: int)
    requires 0 < k < |flow| && flow[k].mapped
    ensures Yielded(flow, k - 1, raw).trace + [Mapped(k)] <= Joined(flow, k, raw).trace <= Yielded(flow, k, raw).trace
    ensures forall i :: |Yielded(flow, k - 1, raw).trace| < i < |Joined(flow, k, raw).trace| ==>
              Joined(flow, k, raw).trace[i].Filtered?
  {
  }
}
