/** What assembly makes of a whole stream: usage, and every object once. */
module AssemblyLaws {
  import opened Values
  import opened Contents
  import opened Landing
  import opened Assembly

  // ---------- Usage ----------

  /** The usage snapshots of a stream, in order. */
  function SnapshotsOf(fragments: seq<Fragment>): seq<UsageDetails> {
    if fragments == [] then []
    else
      var last := fragments[|fragments| - 1].content;
      SnapshotsOf(fragments[..|fragments| - 1]) + (if last.Usage? then [UsageOr(last.details)] else [])
  }

  function Emitted(updates: seq<Update>): seq<Fragment> {
    if updates == [] then [] else Emitted(updates[..|updates| - 1]) + updates[|updates| - 1].fragments
  }

  ghost predicate Reports(snapshots: seq<UsageDetails>, i: nat, key: string) {
    i < |snapshots| && key in snapshots[i] && !snapshots[i][key].Null?
  }

  /** Key by key the last value that is not null. */
  ghost predicate IsLatest(usage: UsageDetails, snapshots: seq<UsageDetails>) {
    && (forall key :: key in usage ==> exists i: nat :: Reports(snapshots, i, key))
    && (forall key, i: nat ::
          Reports(snapshots, i, key) && (forall j: nat :: Reports(snapshots, j, key) ==> j <= i) ==>
            key in usage && usage[key] == snapshots[i][key])
    && (forall key, i: nat :: Reports(snapshots, i, key) ==> key in usage)
    && (forall key :: key in usage ==> !usage[key].Null?)
  }

  lemma NormalizedIsLatest(usage: UsageDetails, snapshots: seq<UsageDetails>, snapshot: UsageDetails)
    requires IsLatest(usage, snapshots)
    ensures IsLatest(Normalized(usage, snapshot), snapshots + [snapshot])
  {
    var more, merged := snapshots + [snapshot], Normalized(usage, snapshot);
    assert forall i: nat, key :: i < |snapshots| ==> (Reports(more, i, key) <==> Reports(snapshots, i, key));
    forall key | key in merged
      ensures exists i: nat :: Reports(more, i, key)
    {
      if key in NonNull(snapshot) {
        assert Reports(more, |snapshots|, key);
      } else {
        var i: nat :| Reports(snapshots, i, key);
        assert Reports(more, i, key);
      }
    }
    forall key, i: nat | Reports(more, i, key) && forall j: nat :: Reports(more, j, key) ==> j <= i
      ensures key in merged && merged[key] == more[i][key]
    {
      if i < |snapshots| {
        assert Reports(snapshots, i, key);
        assert !Reports(more, |snapshots|, key);
      }
    }
  }

  ghost predicate UsageSettled(latest: Option<UsageDetails>, snapshots: seq<UsageDetails>) {
    if snapshots == [] then latest.None? else latest.Some? && IsLatest(latest.value, snapshots)
  }

  lemma {:induction false} AbsorbingReports(p: Pass, fragments: seq<Fragment>, earlier: seq<UsageDetails>)
    requires UsageSettled(p.latest, earlier)
    ensures var q := AbsorbAll(p, fragments);
      q.Some? ==> UsageSettled(q.value.latest, earlier + SnapshotsOf(fragments))
  {
    hide IsLatest, Land, AddUsage, Normalized;
    if fragments == [] {
      assert earlier + [] == earlier;
    } else {
      var init, last := fragments[..|fragments| - 1], fragments[|fragments| - 1].content;
      AbsorbingReports(p, init, earlier);
      var before := AbsorbAll(p, init);
      if before.Some? && last.Usage? {
        assert earlier + SnapshotsOf(fragments) == earlier + SnapshotsOf(init) + [UsageOr(last.details)];
        if earlier + SnapshotsOf(init) == [] {
          NothingIsLatest();
        }
        NormalizedIsLatest(UsageOr(before.value.latest), earlier + SnapshotsOf(init), UsageOr(last.details));
      } else if !last.Usage? {
        assert SnapshotsOf(fragments) == SnapshotsOf(init);
      }
    }
  }

  lemma NothingIsLatest()
    ensures IsLatest(map[], [])
  {
  }

  lemma {:induction false} SnapshotsAppend(a: seq<Fragment>, b: seq<Fragment>)
    ensures SnapshotsOf(a + b) == SnapshotsOf(a) + SnapshotsOf(b)
  {
    if b == [] {
      assert a + [] == a;
    } else {
      SnapshotsAppend(a, b[..|b| - 1]);
      assert (a + b)[..|a + b| - 1] == a + b[..|b| - 1];
    }
  }

  /** The usage of a finished response is, key by key, the last value of the whole stream that is not null. */
  lemma {:induction false} UsageIsLatest(updates: seq<Update>)
    ensures var s := Run(EMPTY, updates); s.Some? ==> UsageSettled(s.value.latest, SnapshotsOf(Emitted(updates)))
  {
    hide IsLatest, Addressee, Placed;
    if updates != [] {
      var init, u := updates[..|updates| - 1], updates[|updates| - 1];
      UsageIsLatest(init);
      var before := Run(EMPTY, init);
      SnapshotsAppend(Emitted(init), u.fragments);
      if before.Some? {
        if Ignored(u) {
          assert Emitted(updates) == Emitted(init);
        } else {
          AbsorbingReports(Start(before.value, u), u.fragments, SnapshotsOf(Emitted(init)));
        }
      }
    }
  }

  lemma FinalUsageIsLatest(updates: seq<Update>)
    requires Assembled(updates).Some?
    ensures UsageSettled(Assembled(updates).value.usage, SnapshotsOf(Emitted(updates)))
  {
    UsageIsLatest(updates);
    if Run(EMPTY, updates).value.latest.None? {
      NoSnapshotNoUsage(updates);
    }
  }

  lemma {:induction false} AbsorbsNoUsage(p: Pass, fragments: seq<Fragment>)
    ensures var q := AbsorbAll(p, fragments); q.Some? && q.value.latest.None? ==> q.value.usage == p.usage && p.latest.None?
  {
    hide Land, AddUsage, Normalized;
    if fragments != [] {
      AbsorbsNoUsage(p, fragments[..|fragments| - 1]);
    }
  }

  lemma {:induction false} NoSnapshotNoUsage(updates: seq<Update>)
    ensures var s := Run(EMPTY, updates); s.Some? && s.value.latest.None? ==> s.value.usage.None?
  {
    hide Addressee, Placed, AbsorbAll;
    if updates != [] {
      var u := updates[|updates| - 1];
      NoSnapshotNoUsage(updates[..|updates| - 1]);
      var before := Run(EMPTY, updates[..|updates| - 1]);
      if before.Some? {
        AbsorbsNoUsage(Start(before.value, u), u.fragments);
      }
    }
  }

  /** While a response is assembled its usage is the sum of the snapshots so far. */
  function SumAt(snapshots: seq<UsageDetails>, key: string): int {
    if snapshots == [] then 0
    else
      var last := snapshots[|snapshots| - 1];
      SumAt(snapshots[..|snapshots| - 1], key)
      + (if key in last then NumberOf(last[key]) else 0)
  }

  /** Numbers, booleans and nulls only. */
  ghost predicate Countable(snapshots: seq<UsageDetails>) {
    forall i, key :: 0 <= i < |snapshots| && key in snapshots[i] ==>
      snapshots[i][key].Int? || snapshots[i][key].Bool? || snapshots[i][key].Null?
  }

  ghost predicate Summed(usage: UsageDetails, snapshots: seq<UsageDetails>) {
    && (forall key :: key in usage <==> exists i :: 0 <= i < |snapshots| && key in snapshots[i])
    && (forall key :: key in usage ==> usage[key] == Int(SumAt(snapshots, key)))
  }

  lemma {:induction false} NeverMentioned(snapshots: seq<UsageDetails>, key: string)
    requires forall i :: 0 <= i < |snapshots| ==> key !in snapshots[i]
    ensures SumAt(snapshots, key) == 0
  {
    if snapshots != [] {
      NeverMentioned(snapshots[..|snapshots| - 1], key);
    }
  }

  function NumberOf(value: Value): int {
    match value
    case Int(i) => i
    case Bool(b) => if b then 1 else 0
    case _ => 0
  }

  /** One more snapshot. */
  lemma SumAtNext(snapshots: seq<UsageDetails>, last: UsageDetails, key: string)
    ensures SumAt(snapshots + [last], key) == SumAt(snapshots, key) + (if key in last then NumberOf(last[key]) else 0)
    ensures (exists i :: 0 <= i < |snapshots + [last]| && key in (snapshots + [last])[i])
            <==> key in last || exists i :: 0 <= i < |snapshots| && key in snapshots[i]
  {
    var more := snapshots + [last];
    assert more[..|snapshots|] == snapshots && more[|snapshots|] == last;
    if i :| 0 <= i < |snapshots| && key in snapshots[i] {
      assert key in more[i];
    }
  }

  lemma LastCounts(snapshots: seq<UsageDetails>, last: UsageDetails, key: string)
    requires Countable(snapshots + [last]) && key in last
    ensures CountAt(last, key) == Some(NumberOf(last[key]))
  {
    assert (snapshots + [last])[|snapshots|] == last;
  }

  lemma AddingSums(usage: UsageDetails, snapshots: seq<UsageDetails>, details: Option<UsageDetails>)
    requires Summed(usage, snapshots) && Countable(snapshots + [UsageOr(details)])
    ensures Summed(AddUsage(usage, details), snapshots + [UsageOr(details)])
  {
    hide SumAt, Countable;
    var last, sum := UsageOr(details), AddUsage(usage, details);
    forall key
      ensures key in sum <==> exists i :: 0 <= i < |snapshots + [last]| && key in (snapshots + [last])[i]
      ensures key in sum ==> sum[key] == Int(SumAt(snapshots + [last], key))
    {
      SumAtNext(snapshots, last, key);
      if key in last {
        LastCounts(snapshots, last, key);
      }
      if key !in usage {
        NeverMentioned(snapshots, key);
      }
    }
  }

  ghost predicate UsageSummed(usage: Option<UsageDetails>, snapshots: seq<UsageDetails>) {
    if snapshots == [] then usage.None? else usage.Some? && (Countable(snapshots) ==> Summed(usage.value, snapshots))
  }

  lemma {:induction false} AbsorbingSums(p: Pass, fragments: seq<Fragment>, earlier: seq<UsageDetails>)
    requires UsageSummed(p.usage, earlier)
    ensures var q := AbsorbAll(p, fragments);
      q.Some? ==> UsageSummed(q.value.usage, earlier + SnapshotsOf(fragments))
  {
    hide Summed, Countable, Land, AddUsage, Normalized;
    if fragments == [] {
      assert earlier + [] == earlier;
    } else {
      var init, last := fragments[..|fragments| - 1], fragments[|fragments| - 1].content;
      AbsorbingSums(p, init, earlier);
      var before, sofar := AbsorbAll(p, init), earlier + SnapshotsOf(init);
      if before.Some? && last.Usage? {
        assert earlier + SnapshotsOf(fragments) == sofar + [UsageOr(last.details)];
        SumsNext(before.value.usage, sofar, last.details);
      } else if !last.Usage? {
        assert SnapshotsOf(fragments) == SnapshotsOf(init);
      }
    }
  }

  lemma SumsNext(usage: Option<UsageDetails>, snapshots: seq<UsageDetails>, details: Option<UsageDetails>)
    requires UsageSummed(usage, snapshots)
    ensures UsageSummed(Some(AddUsage(UsageOr(usage), details)), snapshots + [UsageOr(details)])
  {
    hide AddUsage, Summed;
    var more := snapshots + [UsageOr(details)];
    if Countable(more) {
      assert Countable(snapshots) by {
        assert forall i :: 0 <= i < |snapshots| ==> more[i] == snapshots[i];
      }
      if snapshots == [] {
        assert Summed(map[], []) by { NothingSums(); }
      }
      AddingSums(UsageOr(usage), snapshots, details);
    }
  }

  lemma NothingSums()
    ensures Summed(map[], [])
  {
  }

  /** While a stream comes in, the usage so far is, key by key, the sum over its snapshots. */
  lemma {:induction false} UsageIsSummed(updates: seq<Update>)
    ensures var s := Run(EMPTY, updates); s.Some? ==> UsageSummed(s.value.usage, SnapshotsOf(Emitted(updates)))
  {
    hide UsageSummed, Addressee, Placed;
    if updates == [] {
      assert UsageSummed(None, []) by { NothingReported(); }
    } else {
      var init, u := updates[..|updates| - 1], updates[|updates| - 1];
      UsageIsSummed(init);
      var before := Run(EMPTY, init);
      SnapshotsAppend(Emitted(init), u.fragments);
      if before.Some? {
        if Ignored(u) {
          assert Emitted(updates) == Emitted(init);
        } else {
          AbsorbingSums(Start(before.value, u), u.fragments, SnapshotsOf(Emitted(init)));
        }
      }
    }
  }

  lemma NothingReported()
    ensures UsageSummed(None, [])
  {
  }

  // ---------- Every object once ----------

  function Objects(fragments: seq<Fragment>): set<nat> {
    set f | f in fragments && !f.content.Usage? :: f.id
  }

  /** The contents of a stream, usage apart, each object where it is emitted first. */
  function FirstEmissions(fragments: seq<Fragment>): seq<Content> {
    if fragments == [] then []
    else
      var init, last := fragments[..|fragments| - 1], fragments[|fragments| - 1];
      FirstEmissions(init) + (if last.content.Usage? || last.id in Objects(init) then [] else [last.content])
  }

  function Flattened(groups: seq<seq<Content>>): seq<Content> {
    if groups == [] then [] else Flattened(groups[..|groups| - 1]) + groups[|groups| - 1]
  }

  /** Every message is what its group of contents lands as. */
  ghost predicate Grouped(messages: seq<Msg>, groups: seq<seq<Content>>) {
    && |groups| == |messages|
    && forall i :: 0 <= i < |messages| ==> LandAll([], groups[i]) == Some(messages[i].contents)
  }

  lemma ObjectsAdd(fragments: seq<Fragment>, f: Fragment)
    ensures Objects(fragments + [f]) == if f.content.Usage? then Objects(fragments) else Objects(fragments) + {f.id}
  {
    assert forall g :: g in fragments + [f] <==> g in fragments || g == f;
    if !f.content.Usage? {
      assert f in fragments + [f];
    }
  }

  /** One fragment: left out if seen before, otherwise landed. */
  lemma AbsorbLands(p: Pass, group: seq<Content>, earlier: seq<Fragment>, f: Fragment) returns (more: seq<Content>)
    requires p.seen == Objects(earlier) && LandAll([], group) == Some(p.contents)
    requires Absorb(p, f).Some?
    ensures var q := Absorb(p, f).value;
      && q.seen == Objects(earlier + [f])
      && LandAll([], group + more) == Some(q.contents)
      && FirstEmissions(earlier + [f]) == FirstEmissions(earlier) + more
  {
    hide Land, AddUsage, Normalized, Objects;
    ObjectsAdd(earlier, f);
    assert (earlier + [f])[..|earlier|] == earlier;
    if f.content.Usage? || f.id in p.seen {
      more := [];
      assert group + [] == group;
    } else {
      more := [f.content];
      assert (group + more)[..|group|] == group;
    }
  }

  /** The fragments of one update, in order. */
  lemma {:induction false} AbsorbingLands(p: Pass, group: seq<Content>, earlier: seq<Fragment>, fragments: seq<Fragment>)
    returns (more: seq<Content>)
    requires p.seen == Objects(earlier) && LandAll([], group) == Some(p.contents)
    requires AbsorbAll(p, fragments).Some?
    ensures var q := AbsorbAll(p, fragments).value;
      && q.seen == Objects(earlier + fragments)
      && LandAll([], group + more) == Some(q.contents)
      && FirstEmissions(earlier + fragments) == FirstEmissions(earlier) + more
  {
    hide Absorb, Objects, FirstEmissions, LandAll;
    if fragments == [] {
      more := [];
      assert group + [] == group && earlier + fragments == earlier;
    } else {
      var init, last := fragments[..|fragments| - 1], fragments[|fragments| - 1];
      var some := AbsorbingLands(p, group, earlier, init);
      var one := AbsorbLands(AbsorbAll(p, init).value, group + some, earlier + init, last);
      more := some + one;
      assert earlier + fragments == earlier + init + [last] && group + more == group + some + one;
    }
  }

  lemma FlattenedAdds(groups: seq<seq<Content>>, group: seq<Content>)
    ensures Flattened(groups + [group]) == Flattened(groups) + group
  {
    assert (groups + [group])[..|groups|] == groups;
  }

  /** Landing keeps what is there: only an empty group lands as nothing. */
  lemma {:induction false} LandingIsNotEmpty(group: seq<Content>)
    requires LandAll([], group) == Some([])
    ensures group == []
  {
    hide Add;
  }

  /** Whatever the updates repeat, the messages of the response hold every object of the stream exactly once, in the
      order of first emission. */
  lemma {:induction false} IncorporatesOnce(updates: seq<Update>) returns (groups: seq<seq<Content>>)
    requires Run(EMPTY, updates).Some?
    ensures Grouped(Run(EMPTY, updates).value.messages, groups)
    ensures Flattened(groups) == FirstEmissions(Emitted(updates))
    ensures Run(EMPTY, updates).value.seen == Objects(Emitted(updates))
  {
    hide Step, Objects, FirstEmissions, Grouped;
    if updates == [] {
      groups := [];
      NothingIsGrouped();
    } else {
      var init := updates[..|updates| - 1];
      groups := IncorporatesOnce(init);
      groups := StepIncorporates(Run(EMPTY, init).value, updates[|updates| - 1], groups, Emitted(init));
    }
  }

  lemma NothingIsGrouped()
    ensures Grouped([], []) && FirstEmissions([]) == [] && Objects([]) == {}
  {
  }

  lemma StepIncorporates(s: State, u: Update, groups: seq<seq<Content>>, earlier: seq<Fragment>)
    returns (next: seq<seq<Content>>)
    requires Step(s, u).Some? && Grouped(s.messages, groups)
    requires Flattened(groups) == FirstEmissions(earlier) && s.seen == Objects(earlier)
    ensures Grouped(Step(s, u).value.messages, next)
    ensures Flattened(next) == FirstEmissions(earlier + u.fragments)
    ensures Step(s, u).value.seen == Objects(earlier + u.fragments)
  {
    hide Land, AddUsage, Normalized, Objects, FirstEmissions, Opens, Flattened, LandAll, AbsorbAll;
    if Ignored(u) {
      next := groups;
      assert earlier + u.fragments == earlier;
    } else {
      var opens := Opens(s.messages, u);
      OpenWithoutMessages(s.messages, u);
      assert LandAll([], []) == Some([]) by { NothingLands(); }
      var group := if opens then [] else groups[|groups| - 1];
      var more := AbsorbingLands(Start(s, u), group, earlier, u.fragments);
      var p := AbsorbAll(Start(s, u), u.fragments).value;
      if opens {
        next := groups + [more];
        assert [] + more == more;
        FlattenedAdds(groups, more);
        if p.skipped && p.contents == [] {
          LandingIsNotEmpty(more);
          next := groups;
        }
      } else {
        var before := groups[..|groups| - 1];
        next := before + [group + more];
        assert groups == before + [group];
        FlattenedAdds(before, group);
        FlattenedAdds(before, group + more);
      }
    }
  }

  lemma OpenWithoutMessages(messages: seq<Msg>, u: Update)
    ensures messages == [] ==> Opens(messages, u)
  {
  }

  lemma NothingLands()
    ensures LandAll([], []) == Some([])
  {
  }
}
