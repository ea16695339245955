/** A chain of response streams: pulling, finalizing and closing, with the filters of `StreamFlow`. */
module ResponseStreams {
  import opened StreamFlow

  /** How far a stream has come. */
  datatype Life = Life(consumed: bool, finalized: bool, cleanupRun: bool, closed: bool, abandoned: bool)

  datatype Item = Raw(value: int) | Fault

  /** A pull yields an update, ends the iteration or raises. */
  datatype Result = Yield(update: Update) | Stop | Raised

  /** Cleanup hooks ran; the finalizer and the result hooks ran on these updates. */
  datatype Event = Cleaned(level: nat) | Finalization(level: nat, updates: seq<Update>)

  // ---------- Invariants ----------

  /** An abandoned stream is closed, not finalized, and shielded from the stream around it. */
  ghost predicate Safe(wrapping: seq<bool>, life: seq<Life>) {
    && |wrapping| == |life|
    && forall k :: 0 <= k < |life| && life[k].abandoned ==>
         life[k].closed && !life[k].finalized && Shielded(wrapping, life, k)
  }

  /** The stream around, if any, is closed and will not finalize this one. */
  ghost predicate Shielded(wrapping: seq<bool>, life: seq<Life>, k: nat)
    requires |wrapping| == |life|
  {
    k + 1 < |life| ==>
      life[k + 1].closed && (wrapping[k + 1] ==> life[k + 1].abandoned || life[k + 1].finalized)
  }

  /** A result hook at a stream would make it finalize an abandoned stream that it wraps. */
  predicate HookHarms(life: seq<Life>, flow: seq<Flow>, k: nat)
    requires k < |life| == |flow|
  {
    k > 0 && life[k].finalized && flow[k].wraps && life[k - 1].abandoned
  }

  function CleanupCount(log: seq<Event>, k: nat): nat {
    if log == [] then 0 else CleanupCount(log[..|log| - 1], k) + (if log[|log| - 1] == Cleaned(k) then 1 else 0)
  }

  ghost predicate CleanedOnce(life: seq<Life>, log: seq<Event>) {
    forall k: nat :: CleanupCount(log, k) == if k < |life| && life[k].cleanupRun then 1 else 0
  }

  function FinalizationCount(log: seq<Event>, k: nat): nat {
    if log == [] then 0
    else
      var last := log[|log| - 1];
      FinalizationCount(log[..|log| - 1], k) + (if last.Finalization? && last.level == k then 1 else 0)
  }

  /** Every level was finalized at most once, and once more for each result hook registered at it. */
  ghost predicate FinalizedPerHook(life: seq<Life>, log: seq<Event>, hooked: seq<nat>) {
    && |hooked| == |life|
    && forall k: nat :: FinalizationCount(log, k) <= if k < |life| then hooked[k] + (if life[k].finalized then 1 else 0) else 0
  }

  ghost predicate Ever(log: seq<Event>, k: int) {
    exists i :: 0 <= i < |log| && log[i].Finalization? && log[i].level == k
  }

  /** No level is finalized before the level inside it was. */
  ghost predicate InnerFirst(log: seq<Event>) {
    forall i :: 0 <= i < |log| && log[i].Finalization? && log[i].level > 0 ==> Ever(log[..i], log[i].level - 1)
  }

  /** What keeps that order: streams close from the outside in, and a stream that is over was finalized or abandoned,
      except for the pending ones. */
  ghost predicate Orderly(life: seq<Life>, log: seq<Event>, pending: set<nat>) {
    && InnerFirst(log)
    && (forall k :: 0 <= k < |life| && life[k].finalized ==> Ever(log, k))
    && (forall k :: 0 <= k < |life| && k !in pending && (life[k].consumed || life[k].closed) && !life[k].abandoned ==>
          Ever(log, k))
    && (forall k :: 0 <= k < |life| - 1 && life[k].closed ==> life[k + 1].closed)
  }

  /** A step from an orderly state leads to an orderly state. */
  ghost predicate OrderKept(life: seq<Life>, log: seq<Event>, life': seq<Life>, log': seq<Event>) {
    Orderly(life, log, {}) ==> Orderly(life', log', {})
  }

  lemma OrderStays(life: seq<Life>, log: seq<Event>)
    ensures OrderKept(life, log, life, log)
  {
  }

  lemma OrderTwice(a: seq<Life>, f: seq<Event>, b: seq<Life>, g: seq<Event>, c: seq<Life>, h: seq<Event>)
    requires OrderKept(a, f, b, g) && OrderKept(b, g, c, h)
    ensures OrderKept(a, f, c, h)
  {
  }

  lemma EverAdds(log: seq<Event>, e: Event)
    ensures forall k :: Ever(log, k) ==> Ever(log + [e], k)
    ensures e.Finalization? ==> Ever(log + [e], e.level)
  {
    var longer := log + [e];
    assert longer[|log|] == e;
    forall k | Ever(log, k)
      ensures Ever(longer, k)
    {
      var i :| 0 <= i < |log| && log[i].Finalization? && log[i].level == k;
      assert longer[i] == log[i];
    }
  }

  lemma EverStays(log: seq<Event>, log': seq<Event>, k: int)
    requires log <= log'
    ensures Ever(log, k) ==> Ever(log', k)
  {
    if Ever(log, k) {
      var i :| 0 <= i < |log| && log[i].Finalization? && log[i].level == k;
      assert log'[i] == log[i];
    }
  }

  lemma InnerFirstAdds(log: seq<Event>, e: Event)
    requires InnerFirst(log) && (e.Finalization? && e.level > 0 ==> Ever(log, e.level - 1))
    ensures InnerFirst(log + [e])
  {
    var longer := log + [e];
    forall i | 0 <= i < |longer| && longer[i].Finalization? && longer[i].level > 0
      ensures Ever(longer[..i], longer[i].level - 1)
    {
      if i < |log| {
        assert longer[i] == log[i] && longer[..i] == log[..i];
      } else {
        assert longer[..i] == log;
      }
    }
  }

  /** What was finalized had the level inside it finalized before. */
  lemma EverInner(log: seq<Event>, k: nat)
    requires InnerFirst(log) && Ever(log, k) && k > 0
    ensures Ever(log, k - 1)
  {
    var i :| 0 <= i < |log| && log[i].Finalization? && log[i].level == k;
    var j :| 0 <= j < i && log[..i][j].Finalization? && log[..i][j].level == k - 1;
    assert log[j] == log[..i][j];
  }

  lemma FinalizingIsOrderly(life: seq<Life>, log: seq<Event>, k: nat, updates: seq<Update>, pending: set<nat>)
    requires Orderly(life, log, pending) && k < |life| && (k > 0 ==> Ever(log, k - 1))
    ensures Orderly(life[k := life[k].(finalized := true)], log + [Finalization(k, updates)], pending - {k})
  {
    hide Ever, InnerFirst;
    EverAdds(log, Finalization(k, updates));
    InnerFirstAdds(log, Finalization(k, updates));
  }

  lemma CleaningIsOrderly(life: seq<Life>, log: seq<Event>, k: nat, pending: set<nat>)
    requires Orderly(life, log, pending) && k < |life|
    ensures Orderly(life[k := life[k].(cleanupRun := true)], log + (if life[k].cleanupRun then [] else [Cleaned(k)]), pending)
  {
    EverAdds(log, Cleaned(k));
    InnerFirstAdds(log, Cleaned(k));
    assert log + [] == log;
    hide Ever, InnerFirst;
  }

  lemma ConsumingIsOrderly(life: seq<Life>, log: seq<Event>, k: nat)
    requires Orderly(life, log, {}) && k < |life|
    ensures Orderly(life[k := life[k].(consumed := true)], log, {k})
  {
    hide Ever, InnerFirst;
  }

  lemma ClosingIsOrderly(life: seq<Life>, log: seq<Event>, k: nat)
    requires Orderly(life, log, {}) && k < |life| && (k + 1 < |life| ==> life[k + 1].closed)
    ensures Orderly(Closing(life, k), log, {})
  {
    hide Ever, InnerFirst;
  }

  lemma HookingIsOrderly(life: seq<Life>, log: seq<Event>, k: nat)
    requires Orderly(life, log, {}) && k < |life|
    ensures Orderly(life[k := life[k].(finalized := false)], log, {})
  {
    hide Ever, InnerFirst;
  }

  /** A stream whose result is not refused and that needs no more pulling was finalized before. */
  lemma ReadyWasFinalized(life: seq<Life>, log: seq<Event>, k: nat)
    requires Orderly(life, log, {}) && k < |life|
    requires life[k].finalized || ((life[k].consumed || life[k].closed) && !life[k].abandoned)
    ensures Ever(log, k) && (k > 0 ==> Ever(log, k - 1)) && Orderly(life, log, {k})
  {
    if k > 0 {
      EverInner(log, k);
    }
    hide Ever, InnerFirst;
  }

  /** A stream that refuses its result, or was finalized, has nothing pending. */
  lemma NothingPending(life: seq<Life>, log: seq<Event>, k: nat)
    requires k < |life| && (life[k].abandoned || life[k].finalized)
    ensures Orderly(life, log, {k}) ==> Orderly(life, log, {})
  {
    hide Ever, InnerFirst;
  }

  lemma InnerOfInner(life: seq<Life>, log: seq<Event>, k: nat)
    requires k > 0
    ensures Orderly(life, log, {k}) && Ever(log, k - 1) && k > 1 ==> Ever(log, k - 2)
  {
    if Orderly(life, log, {k}) && Ever(log, k - 1) && k > 1 {
      EverInner(log, k - 1);
    }
  }

  lemma {:induction false} FinalizationCountAdds(log: seq<Event>, e: Event, k: nat)
    ensures FinalizationCount(log + [e], k) == FinalizationCount(log, k) + (if e.Finalization? && e.level == k then 1 else 0)
  {
    assert (log + [e])[..|log|] == log;
  }

  /** No finalizer or result hook of a stream abandoned before ran in between, and it is still abandoned. */
  ghost predicate Quiet(life: seq<Life>, log: seq<Event>, life': seq<Life>, log': seq<Event>) {
    && |life| == |life'| && log <= log'
    && (forall k :: 0 <= k < |life| && life[k].abandoned ==> life'[k].abandoned)
    && forall i :: |log| <= i < |log'| && log'[i].Finalization? && log'[i].level < |life| ==> !life[log'[i].level].abandoned
  }

  /** A step from a safe state leads to a safe state, quietly. */
  ghost predicate Proper(wrapping: seq<bool>, life: seq<Life>, log: seq<Event>, life': seq<Life>, log': seq<Event>) {
    Safe(wrapping, life) ==> Safe(wrapping, life') && Quiet(life, log, life', log')
  }

  lemma ProperTwice(wrapping: seq<bool>, a: seq<Life>, f: seq<Event>, b: seq<Life>, g: seq<Event>, c: seq<Life>,
                    h: seq<Event>)
    requires Proper(wrapping, a, f, b, g) && Proper(wrapping, b, g, c, h)
    ensures Proper(wrapping, a, f, c, h)
  {
    if Safe(wrapping, a) {
      forall i | |f| <= i < |h| && h[i].Finalization? && h[i].level < |a|
        ensures !a[h[i].level].abandoned
      {
        if i < |g| {
          assert g[i] == h[i];
        }
      }
    }
  }

  lemma ProperStays(wrapping: seq<bool>, life: seq<Life>, log: seq<Event>)
    ensures Proper(wrapping, life, log, life, log)
  {
  }

  lemma FinalizingIsProper(wrapping: seq<bool>, life: seq<Life>, log: seq<Event>, k: nat, updates: seq<Update>)
    requires k < |life| && !life[k].abandoned
    ensures Proper(wrapping, life, log, life[k := life[k].(finalized := true)], log + [Finalization(k, updates)])
  {
  }

  lemma CleaningIsProper(wrapping: seq<bool>, life: seq<Life>, log: seq<Event>, k: nat)
    requires k < |life|
    ensures Proper(wrapping, life, log, life[k := life[k].(cleanupRun := true)],
                   log + (if life[k].cleanupRun then [] else [Cleaned(k)]))
  {
  }

  lemma ConsumingIsProper(wrapping: seq<bool>, life: seq<Life>, log: seq<Event>, k: nat)
    requires k < |life|
    ensures Proper(wrapping, life, log, life[k := life[k].(consumed := true)], log)
  {
  }

  /** The stream as `aclose` marks it. */
  function Closing(life: seq<Life>, k: nat): seq<Life>
    requires k < |life|
  {
    life[k := life[k].(closed := true, abandoned := life[k].abandoned || !life[k].finalized)]
  }

  lemma ClosingIsProper(wrapping: seq<bool>, life: seq<Life>, log: seq<Event>, k: nat)
    requires k < |life| == |wrapping| && Shielded(wrapping, life, k)
    ensures Proper(wrapping, life, log, Closing(life, k), log)
    ensures k > 0 ==> Shielded(wrapping, Closing(life, k), k - 1)
  {
  }

  /** A stream may finalize the one it wraps: in a safe state that one is not abandoned. */
  lemma InnerFinalizingIsProper(wrapping: seq<bool>, life: seq<Life>, log: seq<Event>, k: nat, updates: seq<Update>)
    requires 0 < k < |life| == |wrapping| && wrapping[k] && !life[k].abandoned && !life[k].finalized
    ensures Proper(wrapping, life, log, life[k - 1 := life[k - 1].(finalized := true)], log + [Finalization(k - 1, updates)])
  {
  }

  ghost predicate SameFinalized(life: seq<Life>, life': seq<Life>) {
    |life| == |life'| && forall k :: 0 <= k < |life| ==> life'[k].finalized == life[k].finalized
  }

  /** Nothing opened or closed, and nothing undone. */
  ghost predicate SameClosing(life: seq<Life>, life': seq<Life>) {
    |life| == |life'| && forall k :: 0 <= k < |life| ==>
      && life'[k].closed == life[k].closed && life'[k].abandoned == life[k].abandoned
      && (life[k].consumed ==> life'[k].consumed) && (life[k].cleanupRun ==> life'[k].cleanupRun)
      && (life[k].finalized ==> life'[k].finalized)
  }

  /** The iteration of the stream is over, its cleanup hooks and its finalizer have run. */
  predicate Ended(life: Life) {
    life.consumed && life.cleanupRun && life.finalized
  }

  /** No stream from level `j` to level `k` is closed. */
  predicate OpenBetween(life: seq<Life>, j: nat, k: nat)
    requires k < |life|
  {
    forall i :: j <= i <= k ==> !life[i].closed
  }

  /** Every level that an open pull at level `k` came to has ended. */
  ghost predicate EndedDown(before: seq<Life>, k: nat, after: seq<Life>)
    requires k < |before| == |after|
  {
    forall j: nat :: j <= k && OpenBetween(before, j, k) ==> Ended(after[j])
  }

  lemma EndedStays(before: seq<Life>, k: nat, middle: seq<Life>, after: seq<Life>)
    requires k < |before| == |middle| && EndedDown(before, k, middle) && SameClosing(middle, after)
    ensures |after| == |before| && EndedDown(before, k, after)
  {
  }

  lemma EndedAbove(before: seq<Life>, k: nat, after: seq<Life>)
    requires k < |before| == |after| && Ended(after[k]) && (k > 0 ==> EndedDown(before, k - 1, after))
    ensures EndedDown(before, k, after)
  {
    forall j: nat | j <= k && OpenBetween(before, j, k)
      ensures Ended(after[j])
    {
      if j < k {
        assert OpenBetween(before, j, k - 1);
      }
    }
  }

  /** How one pull of the raw source ends. */
  predicate Follows(source: seq<Item>, rest: seq<Item>, r: Result) {
    if source == [] then r.Stop? && rest == []
    else rest == source[1..] && (if source[0].Raw? then r.Yield? else r.Raised?)
  }

  /** How a pull at level `k` ends: as the raw source does where no stream on the way is closed, and else without
      touching it. */
  predicate Answers(life: seq<Life>, source: seq<Item>, k: nat, rest: seq<Item>, r: Result)
    requires k < |life|
  {
    if OpenBetween(life, 0, k) then Follows(source, rest, r) else r.Stop? && rest == source
  }

  lemma ClosedAnswers(life: seq<Life>, source: seq<Item>, k: nat)
    requires k < |life| && life[k].closed
    ensures Answers(life, source, k, source, Stop)
  {
  }

  /** An open stream ends its pulls as what is inside it does. */
  lemma OpenAnswers(life: seq<Life>, source: seq<Item>, k: nat, rest: seq<Item>, r: Result)
    requires k < |life| && !life[k].closed
    requires if k == 0 then Follows(source, rest, r) else Answers(life, source, k - 1, rest, r)
    ensures Answers(life, source, k, rest, r)
    ensures r.Yield? ==> forall u :: Answers(life, source, k, rest, Yield(u))
  {
    if k > 0 {
      assert OpenBetween(life, 0, k) <==> OpenBetween(life, 0, k - 1);
    }
  }

  /** Streams are abandoned by closing them. */
  ghost predicate AbandonedClosed(life: seq<Life>) {
    forall k :: 0 <= k < |life| && life[k].abandoned ==> life[k].closed
  }

  /** The raw values behind some updates. */
  function Raws(updates: seq<Update>): seq<int> {
    seq(|updates|, i requires 0 <= i < |updates| => updates[i].raw)
  }

  /** The raw value that a pull took. */
  function Taken(r: Result): seq<int> {
    if r.Yield? then [r.update.raw] else []
  }

  predicate AllRaw(source: seq<Item>) {
    forall i :: 0 <= i < |source| ==> source[i].Raw?
  }

  function Values(source: seq<Item>): seq<int>
    requires AllRaw(source)
  {
    seq(|source|, i requires 0 <= i < |source| => source[i].value)
  }

  lemma FirstValue(source: seq<Item>)
    requires source != []
    ensures AllRaw(source) <==> source[0].Raw? && AllRaw(source[1..])
    ensures AllRaw(source) ==> Values(source) == [source[0].value] + Values(source[1..])
  {
    if source[0].Raw? && AllRaw(source[1..]) {
      assert source == [source[0]] + source[1..];
    }
  }

  /** The updates of level `k` and of those inside it grew by one for each raw value, in order. */
  ghost predicate Gained(flow: seq<Flow>, flow': seq<Flow>, k: int, raws: seq<int>) {
    |flow'| == |flow| && forall j :: 0 <= j < |flow| ==>
      Raws(flow'[j].updates) == Raws(flow[j].updates) + (if j <= k then raws else [])
  }

  lemma GainedNothing(flow: seq<Flow>, flow': seq<Flow>, k: int)
    requires |flow'| == |flow| && forall j :: 0 <= j < |flow| ==> flow'[j].updates == flow[j].updates
    ensures Gained(flow, flow', k, [])
  {
  }

  lemma GainedTwice(a: seq<Flow>, b: seq<Flow>, c: seq<Flow>, k: int, first: seq<int>, second: seq<int>)
    requires Gained(a, b, k, first) && Gained(b, c, k, second)
    ensures Gained(a, c, k, first + second)
  {
    hide Raws;
    forall j | 0 <= j < |a|
      ensures Raws(c[j].updates) == Raws(a[j].updates) + (if j <= k then first + second else [])
    {
      assert Raws(b[j].updates) == Raws(a[j].updates) + (if j <= k then first else []);
      assert Raws(c[j].updates) == Raws(b[j].updates) + (if j <= k then second else []);
    }
  }

  lemma GainedRaw(flow: seq<Flow>, raws: seq<int>)
    ensures Gained(flow, flow, -1, raws)
  {
  }

  lemma GainedInside(a: seq<Flow>, b: seq<Flow>, k: nat)
    requires Gained(a, b, k - 1, [])
    ensures Gained(a, b, k, [])
  {
  }

  /** What comes out of the level inside joins this one. */
  lemma GainedHere(a: seq<Flow>, b: seq<Flow>, k: nat, u: Update)
    requires k < |a| && Gained(a, b, k - 1, [u.raw])
    ensures Gained(a, b[k := b[k].(updates := b[k].updates + [u])], k, [u.raw])
  {
    assert Raws(b[k].updates + [u]) == Raws(b[k].updates) + [u.raw];
  }

  lemma ResolutionGains(flow: seq<Flow>, k: nat, j: int)
    requires k < |flow|
    ensures Gained(flow, Resolved(flow, k), j, [])
  {
    hide Resolved;
    ResolutionSettles(flow, k);
    forall i: nat | i < |flow|
      ensures Resolved(flow, k)[i].updates == flow[i].updates
    {
      assert SettlesAt(flow, Resolved(flow, k), k, i);
    }
    GainedNothing(flow, Resolved(flow, k), j);
  }

  /** What was finalized in between was finalized on the updates it has now. */
  ghost predicate Carries(log: seq<Event>, log': seq<Event>, flow: seq<Flow>, k: int) {
    && log <= log'
    && forall i :: |log| <= i < |log'| && log'[i].Finalization? ==>
         log'[i].level <= k && log'[i].level < |flow| && log'[i].updates == flow[log'[i].level].updates
  }

  lemma CarriesTwice(f: seq<Event>, g: seq<Event>, h: seq<Event>, flow: seq<Flow>, j: int, k: int)
    requires Carries(f, g, flow, j) && Carries(g, h, flow, k) && j <= k
    ensures Carries(f, h, flow, k)
  {
    forall i | |f| <= i < |h| && h[i].Finalization?
      ensures h[i].level <= k && h[i].level < |flow| && h[i].updates == flow[h[i].level].updates
    {
      if i < |g| {
        assert h[i] == g[i];
      }
    }
  }

  /** Where nothing was finalized it does not matter how the updates grow. */
  lemma CarriesAnywhere(f: seq<Event>, g: seq<Event>, flow: seq<Flow>, flow': seq<Flow>)
    requires Carries(f, g, flow, -1)
    ensures Carries(f, g, flow', -1)
  {
  }

  lemma CarriesNothing(log: seq<Event>, flow: seq<Flow>, k: int)
    ensures Carries(log, log, flow, k)
  {
  }

  lemma CleaningCarries(log: seq<Event>, flow: seq<Flow>, j: nat, added: bool, k: int)
    ensures Carries(log, log + (if added then [] else [Cleaned(j)]), flow, k)
  {
  }

  /** Where draining a source has come: what was taken is gone from it, and it ends where the source does. */
  ghost predicate Drains(first: seq<Item>, rest: seq<Item>, taken: seq<int>, r: Result) {
    && (r.Raised? ==> !AllRaw(first))
    && (r.Yield? ==> (AllRaw(first) <==> AllRaw(rest)))
    && (r.Yield? && AllRaw(first) && AllRaw(rest) ==> Values(first) == taken + Values(rest))
    && (r.Stop? ==> AllRaw(first) && Values(first) == taken)
  }

  lemma DrainStarts(life: seq<Life>, source: seq<Item>, k: nat, rest: seq<Item>, r: Result)
    requires k < |life| && Answers(life, source, k, rest, r)
    requires r.Yield? ==> source != [] && source[0].Raw? && r.update.raw == source[0].value
    ensures OpenBetween(life, 0, k) ==> Drains(source, rest, Taken(r), r)
  {
    if source != [] {
      FirstValue(source);
    }
  }

  lemma DrainGoesOn(open: seq<Life>, life: seq<Life>, k: nat, first: seq<Item>, source: seq<Item>, taken: seq<int>,
                    before: Result, rest: seq<Item>, r: Result)
    requires SameClosing(open, life) && k < |open| && OpenBetween(open, 0, k) && Answers(life, source, k, rest, r)
    requires Drains(first, source, taken, before) && before.Yield?
    requires r.Yield? ==> source != [] && source[0].Raw? && r.update.raw == source[0].value
    ensures Drains(first, rest, taken + Taken(r), r)
  {
    hide Values, AllRaw;
    assert OpenBetween(life, 0, k);
    DrainStarts(life, source, k, rest, r);
    assert taken + [] == taken;
    if r.Yield? && AllRaw(first) {
      assert taken + (Taken(r) + Values(rest)) == taken + Taken(r) + Values(rest);
    }
  }

  lemma DrainEnds(first: seq<Item>, rest: seq<Item>, taken: seq<int>, r: Result)
    requires !r.Yield?
    ensures Drains(first, rest, taken, r) ==> (r.Stop? <==> AllRaw(first)) && (r.Stop? ==> Values(first) == taken)
  {
  }

  lemma CarriesMore(f: seq<Event>, g: seq<Event>, flow: seq<Flow>, j: int, k: int)
    requires Carries(f, g, flow, j) && j <= k
    ensures Carries(f, g, flow, k)
  {
  }

  /** The fixed part of the streams. */
  ghost predicate SameLayout(flow: seq<Flow>, flow': seq<Flow>) {
    |flow| == |flow'| && forall k :: 0 <= k < |flow| ==>
      && flow'[k] == flow[k].(resolved := flow'[k].resolved, filters := flow'[k].filters, updates := flow'[k].updates)
      && (flow[k].resolved ==> flow'[k].resolved)
  }

  lemma {:induction false} CleanupCountAdds(log: seq<Event>, e: Event, k: nat)
    ensures CleanupCount(log + [e], k) == CleanupCount(log, k) + (if e == Cleaned(k) then 1 else 0)
  {
    assert (log + [e])[..|log|] == log;
  }

  lemma LayoutSettles(flow: seq<Flow>, after: seq<Flow>, k: nat)
    requires Settles(flow, after, k) && WellFormed(flow)
    ensures SameLayout(flow, after) && WellFormed(after)
  {
    forall j: nat | j < |flow|
      ensures after[j] == flow[j].(resolved := after[j].resolved, filters := after[j].filters, updates := after[j].updates)
      ensures flow[j].resolved ==> after[j].resolved
    {
      assert SettlesAt(flow, after, k, j);
    }
  }

  lemma LayoutTwice(a: seq<Flow>, b: seq<Flow>, c: seq<Flow>)
    requires SameLayout(a, b) && SameLayout(b, c)
    ensures SameLayout(a, c)
  {
  }

  lemma LayoutStays(flow: seq<Flow>)
    ensures SameLayout(flow, flow)
  {
  }

  lemma ClosingTwice(a: seq<Life>, b: seq<Life>, c: seq<Life>)
    requires SameClosing(a, b) && SameClosing(b, c)
    ensures SameClosing(a, c)
  {
  }

  lemma ClosingStays(life: seq<Life>)
    ensures SameClosing(life, life)
  {
  }

  /** Accumulating leaves the filters where they are. */
  lemma AccumulationDelivers(flow: seq<Flow>, after: seq<Flow>, registered: seq<multiset<nat>>)
    requires Delivered(flow, registered) && |after| == |flow|
    requires forall j :: 0 <= j < |flow| ==> after[j] == flow[j].(updates := after[j].updates)
    ensures Delivered(after, registered)
  {
    forall j | 0 <= j < |flow|
      ensures Received(after, registered, j) == Received(flow, registered, j)
    {
      ReceivedAfter(flow, after, registered, j);
    }
  }

  lemma {:induction false} ReceivedAfter(flow: seq<Flow>, after: seq<Flow>, registered: seq<multiset<nat>>, j: nat)
    requires |after| == |flow| == |registered| && j < |flow|
    requires forall i :: 0 <= i < |flow| ==> after[i] == flow[i].(updates := after[i].updates)
    ensures Received(after, registered, j) == Received(flow, registered, j)
    decreases |flow| - j
  {
    if j + 1 < |flow| {
      ReceivedAfter(flow, after, registered, j + 1);
    }
  }

  lemma SameLengths(flow: seq<Flow>, after: seq<Flow>)
    requires SameLayout(flow, after)
    ensures |after| == |flow|
  {
  }

  lemma StaysOpen(before: seq<Life>, after: seq<Life>, k: nat)
    requires SameClosing(before, after) && k < |before| && !before[k].closed
    ensures |after| == |before| && !after[k].closed
  {
  }

  lemma CleaningKeepsOpen(life: seq<Life>, k: nat)
    requires k < |life|
    ensures SameClosing(life, life[k := life[k].(cleanupRun := true)])
  {
  }

  /** Nothing is left to pull, and finalizing is not refused. */
  predicate Ready(life: seq<Life>, k: nat) {
    k < |life| && (life[k].consumed || life[k].closed) && !(life[k].abandoned && !life[k].finalized)
  }

  /** What finalizing stream `k` adds to the log: a wrapping stream first finalizes the stream it wraps. */
  function Conclusion(life: seq<Life>, flow: seq<Flow>, k: nat): seq<Event>
    requires WellFormed(flow) && k < |flow| == |life|
  {
    if life[k].finalized then []
    else (if flow[k].wraps && !life[k - 1].finalized then [Finalization(k - 1, flow[k - 1].updates)] else [])
         + [Finalization(k, flow[k].updates)]
  }

  lemma ConclusionCarries(life: seq<Life>, flow: seq<Flow>, k: nat, log: seq<Event>)
    requires WellFormed(flow) && k < |flow| == |life|
    ensures Carries(log, log + Conclusion(life, flow, k), flow, k)
  {
  }

  function Concluded(life: seq<Life>, flow: seq<Flow>, k: nat): seq<Life>
    requires WellFormed(flow) && k < |flow| == |life|
  {
    if life[k].finalized then life
    else (if flow[k].wraps then life[k - 1 := life[k - 1].(finalized := true)] else life)[k := life[k].(finalized := true)]
  }

  lemma ConcludedKeepsOpen(life: seq<Life>, flow: seq<Flow>, k: nat)
    requires WellFormed(flow) && k < |flow| == |life|
    ensures var after := Concluded(life, flow, k);
      SameClosing(life, after) && after[k] == life[k].(finalized := true)
  {
  }

  lemma HarmlessHookIsSafe(wrapping: seq<bool>, life: seq<Life>, log: seq<Event>, flow: seq<Flow>, k: nat)
    requires Safe(wrapping, life) && k < |life| == |flow| && wrapping[k] == flow[k].wraps && !HookHarms(life, flow, k)
    ensures var after := life[k := life[k].(finalized := false)];
      Safe(wrapping, after) && Quiet(life, log, after, log)
  {
  }

  lemma HarmedIsClosed(wrapping: seq<bool>, life: seq<Life>, flow: seq<Flow>, k: nat)
    requires Safe(wrapping, life) && k < |life| == |flow| && HookHarms(life, flow, k)
    ensures life[k].closed && !life[k].abandoned && !life[k - 1].finalized
  {
    assert Shielded(wrapping, life, k - 1);
  }

  /** The levels that closing stream `k` comes to. */
  predicate CloseReaches(life: seq<Life>, flow: seq<Flow>, k: nat, j: nat)
    requires k < |life| == |flow|
  {
    !life[k].closed && (j == k || (j < k && (flow[k].resolved || !flow[k].lazy) && CloseReaches(life, flow, k - 1, j)))
  }

  /** They are those from which no stream up to it is closed and every stream above has what it wraps: unless it is still
      to be awaited. */
  lemma {:induction false} CloseReachesIs(life: seq<Life>, flow: seq<Flow>, k: nat, j: nat)
    requires k < |life| == |flow|
    ensures CloseReaches(life, flow, k, j) <==>
            && j <= k && (forall i :: j <= i <= k ==> !life[i].closed)
            && forall i :: j < i <= k && flow[i].lazy ==> flow[i].resolved
  {
    if j < k {
      CloseReachesIs(life, flow, k - 1, j);
    }
  }

  predicate TookOne(source: seq<Item>, rest: seq<Item>) {
    source != [] && source[0].Raw? && rest == source[1..]
  }

  /** What level `k` finds when it pulls what is inside it, already resolved itself. */
  ghost predicate Below(flow: seq<Flow>, next: seq<Flow>, k: nat, raw: int, below: Update) {
    && k < |flow| == |next|
    && if k == 0 then next == flow && below == Update(raw, [])
       else Pulled(flow, next, k - 1, raw) && below == Yielded(ResolvedDown(flow, k - 1), k - 1, raw)
  }

  lemma BelowComposes(flow: seq<Flow>, next: seq<Flow>, k: nat, raw: int, below: Update)
    requires k < |flow| && Below(Resolved(flow, k), next, k, raw, below)
    ensures |next| == |flow|
    ensures Pulled(flow, next[k := next[k].(updates := next[k].updates + [Entered(next, k, below)])], k, raw)
    ensures Leaving(next, k, Entered(next, k, below)) == Yielded(ResolvedDown(flow, k), k, raw)
  {
    hide Pulled, Resolved;
    PullComposes(flow, next, k, raw, below);
  }

  /** A call at one of the streams. */
  datatype Op = PullAt(k: nat) | FinalAt(k: nat) | CloseAll | FilterAt(k: nat, f: nat) | HookAt(k: nat)

  /** The result hooks that some calls register at a level. */
  function HookCount(ops: seq<Op>, k: nat): nat {
    if ops == [] then 0 else HookCount(ops[..|ops| - 1], k) + (if ops[|ops| - 1] == HookAt(k) then 1 else 0)
  }

  lemma HookCountAdds(ops: seq<Op>, i: nat, k: nat)
    requires i < |ops|
    ensures HookCount(ops[..i + 1], k) == HookCount(ops[..i], k) + (if ops[i] == HookAt(k) then 1 else 0)
  {
    assert ops[..i + 1][..i] == ops[..i];
  }

  lemma AbandonedStays(life: seq<Life>, log: seq<Event>, life': seq<Life>, log': seq<Event>, k: nat)
    requires Quiet(life, log, life', log') && k < |life|
    ensures |life'| == |life| && (life[k].abandoned ==> life'[k].abandoned)
  {
  }

  lemma QuietMeans(life: seq<Life>, log: seq<Event>, life': seq<Life>, log': seq<Event>)
    requires Quiet(life, log, life', log')
    ensures log <= log' && |life'| == |life|
    ensures forall i :: |log| <= i < |log'| && log'[i].Finalization? && log'[i].level < |life| ==> !life[log'[i].level].abandoned
  {
  }

  lemma CountsOnce(life: seq<Life>, log: seq<Event>)
    requires CleanedOnce(life, log)
    ensures forall k: nat :: CleanupCount(log, k) <= 1
  {
  }

  lemma QuietStays(life: seq<Life>, log: seq<Event>)
    ensures Quiet(life, log, life, log)
  {
  }

  lemma QuietTwice(a: seq<Life>, f: seq<Event>, b: seq<Life>, g: seq<Event>, c: seq<Life>, h: seq<Event>)
    requires Quiet(a, f, b, g) && Quiet(b, g, c, h)
    ensures Quiet(a, f, c, h)
  {
    forall i | |f| <= i < |h| && h[i].Finalization? && h[i].level < |a|
      ensures !a[h[i].level].abandoned
    {
      if i < |g| {
        assert g[i] == h[i];
      }
    }
  }

  lemma {:induction false} CloseReachesSame(a: seq<Life>, b: seq<Life>, flow: seq<Flow>, k: nat, j: nat)
    requires k < |a| == |b| == |flow| && forall i :: 0 <= i <= k ==> a[i] == b[i]
    ensures CloseReaches(a, flow, k, j) <==> CloseReaches(b, flow, k, j)
    ensures CloseReaches(a, flow, k, j) ==> j <= k
  {
    if k > 0 {
      CloseReachesSame(a, b, flow, k - 1, j);
    }
  }

  /** Closing a stream and then what is inside it. */
  ghost predicate ClosedDown(before: seq<Life>, flow: seq<Flow>, k: nat, after: seq<Life>)
    requires k < |before| == |flow|
  {
    |after| == |before| && forall j: nat :: j < |before| ==>
      after[j] == if CloseReaches(before, flow, k, j) then Closing(before, j)[j].(cleanupRun := true) else before[j]
  }

  lemma ClosedAlready(life: seq<Life>, flow: seq<Flow>, k: nat)
    requires k < |life| == |flow| && life[k].closed
    ensures ClosedDown(life, flow, k, life)
  {
  }

  lemma ClosedInside(before: seq<Life>, flow: seq<Flow>, k: nat, after: seq<Life>)
    requires k < |before| == |flow| && !before[k].closed
    requires if k > 0 && (flow[k].resolved || !flow[k].lazy) then ClosedDown(Closing(before, k), flow, k - 1, after)
             else after == Closing(before, k)
    ensures ClosedDown(before, flow, k, after[k := after[k].(cleanupRun := true)])
  {
    var marked := Closing(before, k);
    forall j: nat | j < |before|
      ensures after[k := after[k].(cleanupRun := true)][j]
           == if CloseReaches(before, flow, k, j) then Closing(before, j)[j].(cleanupRun := true) else before[j]
    {
      if k > 0 {
        CloseReachesSame(before, marked, flow, k - 1, j);
      }
    }
  }

  lemma FinalizingCounts(life: seq<Life>, log: seq<Event>, hooked: seq<nat>, k: nat, updates: seq<Update>)
    requires CleanedOnce(life, log) && FinalizedPerHook(life, log, hooked) && k < |life| && !life[k].finalized
    ensures var after, written := life[k := life[k].(finalized := true)], log + [Finalization(k, updates)];
      CleanedOnce(after, written) && FinalizedPerHook(after, written, hooked)
  {
    var e := Finalization(k, updates);
    forall j: nat
      ensures CleanupCount(log + [e], j) == CleanupCount(log, j)
      ensures FinalizationCount(log + [e], j) == FinalizationCount(log, j) + (if j == k then 1 else 0)
    {
      CleanupCountAdds(log, e, j);
      FinalizationCountAdds(log, e, j);
    }
  }

  lemma CleaningCounts(life: seq<Life>, log: seq<Event>, hooked: seq<nat>, k: nat)
    requires CleanedOnce(life, log) && FinalizedPerHook(life, log, hooked) && k < |life| && !life[k].cleanupRun
    ensures var after, written := life[k := life[k].(cleanupRun := true)], log + [Cleaned(k)];
      CleanedOnce(after, written) && FinalizedPerHook(after, written, hooked)
  {
    forall j: nat
      ensures CleanupCount(log + [Cleaned(k)], j) == CleanupCount(log, j) + (if j == k then 1 else 0)
      ensures FinalizationCount(log + [Cleaned(k)], j) == FinalizationCount(log, j)
    {
      CleanupCountAdds(log, Cleaned(k), j);
      FinalizationCountAdds(log, Cleaned(k), j);
    }
  }

  lemma StaysResolved(flow: seq<Flow>, after: seq<Flow>, k: nat)
    requires SameLayout(flow, after) && k < |flow| && flow[k].resolved
    ensures |after| == |flow| && after[k].resolved
  {
  }

  lemma ClosedEndsNothing(life: seq<Life>, k: nat)
    requires k < |life| && life[k].closed
    ensures EndedDown(life, k, life)
  {
    assert forall j: nat :: j <= k ==> !OpenBetween(life, j, k);
  }

  /** The end of what is inside, and then of the stream itself. */
  lemma StoppedEnds(before: seq<Life>, k: nat, middle: seq<Life>, after: seq<Life>)
    requires k < |before| == |middle| && SameClosing(middle, after) && Ended(after[k])
    requires k > 0 ==> EndedDown(before, k - 1, middle)
    ensures EndedDown(before, k, after)
  {
    hide EndedDown;
    if k > 0 {
      EndedStays(before, k - 1, middle, after);
    }
    EndedAbove(before, k, after);
  }

  /** An open stream whose inner pull stopped finds the level inside finalized. */
  lemma StoppedKept(before: seq<Life>, f: seq<Event>, middle: seq<Life>, g: seq<Event>, after: seq<Life>, h: seq<Event>,
                    k: nat)
    requires k < |before| == |middle| && !before[k].closed
    requires OrderKept(before, f, middle, g) && (k > 0 ==> EndedDown(before, k - 1, middle))
    requires (k > 0 ==> Ever(g, k - 1)) ==> OrderKept(middle, g, after, h)
    ensures OrderKept(before, f, after, h)
  {
    hide Ever, InnerFirst;
    if Orderly(before, f, {}) && k > 0 {
      assert !before[k - 1].closed;
      assert OpenBetween(before, k - 1, k - 1) && Ended(middle[k - 1]);
    }
  }

  lemma PulledEnds(first: seq<Life>, before: seq<Life>, k: nat, after: seq<Life>)
    requires SameClosing(first, before) && k < |first| && |after| == |before|
    ensures EndedDown(before, k, after) && !first[k].closed ==> Ended(after[k])
  {
    if EndedDown(before, k, after) && !first[k].closed {
      assert OpenBetween(before, k, k);
    }
  }

  lemma ConcludesOrderly(life: seq<Life>, log: seq<Event>, k: nat)
    requires k < |life|
    requires life[k].finalized || ((life[k].consumed || life[k].closed) && !life[k].abandoned)
    ensures Orderly(life, log, {}) ==> Orderly(life, log, {k}) && (k > 0 ==> Ever(log, k - 1))
  {
    if Orderly(life, log, {}) {
      ReadyWasFinalized(life, log, k);
    }
  }

  lemma EndedRemains(before: seq<Life>, after: seq<Life>, k: nat)
    requires SameClosing(before, after) && k < |before|
    ensures Ended(before[k]) ==> Ended(after[k])
  {
  }

  /** Which streams wrap the one inside is fixed. */
  ghost predicate WrapsAs(flow: seq<Flow>, wrapping: seq<bool>) {
    |wrapping| == |flow| && forall k :: 0 <= k < |flow| ==> wrapping[k] == flow[k].wraps
  }

  lemma PushedLayout(flow: seq<Flow>, k: nat, f: nat, wrapping: seq<bool>)
    requires WellFormed(flow) && WrapsAs(flow, wrapping) && k < |flow|
    ensures WellFormed(Pushed(flow, k, f)) && WrapsAs(Pushed(flow, k, f), wrapping)
  {
    PushReaches(flow, k, f);
  }

  /** Before the first call nothing is registered, finalized or closed. */
  lemma FreshDelivers(flow: seq<Flow>, registered: seq<multiset<nat>>)
    requires |registered| == |flow| && forall k :: 0 <= k < |flow| ==> registered[k] == multiset{}
    requires forall k :: 0 <= k < |flow| ==> flow[k].filters == [] && !flow[k].resolved
    ensures Delivered(flow, registered)
  {
    assert forall k: nat :: 0 < k < |flow| ==> !Hands(flow, k);
    forall j | 0 <= j < |flow|
      ensures multiset(flow[j].filters) == Received(flow, registered, j)
    {
    }
  }

  lemma FreshLives(wrapping: seq<bool>, life: seq<Life>, hooked: seq<nat>)
    requires |wrapping| == |life| == |hooked|
    requires forall k :: 0 <= k < |life| ==> life[k] == Life(false, false, false, false, false) && hooked[k] == 0
    ensures CleanedOnce(life, []) && FinalizedPerHook(life, [], hooked)
    ensures Safe(wrapping, life) && Orderly(life, [], {})
  {
    hide Ever;
  }

  class Chain {
    var flow: seq<Flow>
    var life: seq<Life>
    var source: seq<Item>
    var log: seq<Event>
    ghost const wrapping: seq<bool>
    ghost var registered: seq<multiset<nat>>
    ghost var hooked: seq<nat>

    ghost predicate Valid()
      reads this
    {
      && WellFormed(flow) && |life| == |flow| && WrapsAs(flow, wrapping)
      && Delivered(flow, registered)
      && CleanedOnce(life, log)
      && FinalizedPerHook(life, log, hooked)
      && AbandonedClosed(life)
    }

    constructor (flow: seq<Flow>, source: seq<Item>)
      requires WellFormed(flow)
      requires forall k :: 0 <= k < |flow| ==> !flow[k].resolved && flow[k].filters == [] && flow[k].updates == []
      ensures Valid() && Safe(wrapping, life) && Orderly(life, log, {})
      ensures this.flow == flow && this.source == source && log == []
      ensures forall k :: 0 <= k < |life| ==> life[k] == Life(false, false, false, false, false) && hooked[k] == 0
    {
      this.flow, this.source, log := flow, source, [];
      wrapping := seq(|flow|, i requires 0 <= i < |flow| => flow[i].wraps);
      life := seq(|flow|, i => Life(false, false, false, false, false));
      registered := seq(|flow|, i => multiset{});
      hooked := seq(|flow|, i => 0);
      new;
      hide Delivered, CleanedOnce, FinalizedPerHook, Safe, Orderly;
      FreshDelivers(this.flow, registered);
      FreshLives(wrapping, life, hooked);
    }

    /** `with_update_filter`. */
    method AddFilter(k: nat, f: nat)
      requires Valid() && k < |flow|
      modifies this`flow, this`registered
      ensures Valid() && flow == Pushed(old(flow), k, f)
      ensures registered == old(registered)[k := old(registered)[k] + multiset{f}]
    {
      assert |flow| == |registered| by { IsValid(); }
      hide Delivered, CleanedOnce, FinalizedPerHook, Pushed, WellFormed, WrapsAs;
      ghost var more := registered[k := registered[k] + multiset{f}];
      var pushed := Pushed(flow, k, f);
      assert Delivered(pushed, more) by { RegistrationDelivers(flow, registered, k, f); }
      PushedLayout(flow, k, f, wrapping);
      flow, registered := pushed, more;
    }

    /** `with_result_hook`: a finalized stream has to finalize again. */
    method AddResultHook(k: nat)
      requires Valid() && k < |flow|
      modifies this`life, this`hooked
      ensures Valid() && life == old(life)[k := old(life)[k].(finalized := false)]
      ensures |hooked| == |old(hooked)| == |life| && hooked == old(hooked)[k := old(hooked)[k] + 1]
      ensures OrderKept(old(life), log, life, log)
    {
      hide Delivered;
      if Orderly(life, log, {}) {
        HookingIsOrderly(life, log, k);
      }
      life, hooked := life[k := life[k].(finalized := false)], hooked[k := hooked[k] + 1];
      hide Orderly;
    }

    /** `_run_cleanup_hooks`. */
    method Clean(k: nat, ghost pending: set<nat>)
      requires Valid() && k < |flow|
      modifies this`life, this`log
      ensures Valid() && life == old(life)[k := old(life)[k].(cleanupRun := true)]
      ensures log == old(log) + (if old(life)[k].cleanupRun then [] else [Cleaned(k)])
      ensures Proper(wrapping, old(life), old(log), life, log)
      ensures Orderly(old(life), old(log), pending) ==> Orderly(life, log, pending)
    {
      hide Proper, Orderly, Delivered, CleanedOnce, FinalizedPerHook;
      CleaningIsProper(wrapping, life, log, k);
      if Orderly(life, log, pending) {
        CleaningIsOrderly(life, log, k, pending);
      }
      if !life[k].cleanupRun {
        CleaningCounts(life, log, hooked, k);
        life, log := life[k := life[k].(cleanupRun := true)], log + [Cleaned(k)];
      }
    }

    /** The finalizer and the result hooks of one stream. */
    method Finalize(k: nat, ghost pending: set<nat>)
      requires Valid() && k < |flow| && !life[k].finalized
      modifies this`life, this`log
      ensures Valid() && life == old(life)[k := old(life)[k].(finalized := true)]
      ensures log == old(log) + [Finalization(k, flow[k].updates)]
      ensures !old(life)[k].abandoned ==> Proper(wrapping, old(life), old(log), life, log)
      ensures Orderly(old(life), old(log), pending) && (k > 0 ==> Ever(old(log), k - 1)) ==>
                Orderly(life, log, pending - {k})
    {
      hide Proper, Orderly, Delivered, Ever, CleanedOnce, FinalizedPerHook;
      if !life[k].abandoned {
        FinalizingIsProper(wrapping, life, log, k, flow[k].updates);
      }
      var e := Finalization(k, flow[k].updates);
      if Orderly(life, log, pending) && (k > 0 ==> Ever(log, k - 1)) {
        FinalizingIsOrderly(life, log, k, flow[k].updates, pending);
      }
      FinalizingCounts(life, log, hooked, k, flow[k].updates);
      life, log := life[k := life[k].(finalized := true)], log + [e];
    }

    /** The finalizing part of `get_final_response`: a wrapping stream first finalizes the stream it wraps. */
    method Conclude(k: nat)
      requires Valid() && k < |flow|
      modifies this`life, this`log
      ensures Valid() && SameClosing(old(life), life) && life[k].finalized
      ensures log == old(log) + Conclusion(old(life), flow, k)
      ensures life == Concluded(old(life), flow, k)
      ensures Orderly(old(life), old(log), {k}) && (k > 0 ==> Ever(old(log), k - 1)) ==> Orderly(life, log, {})
      ensures !old(life)[k].abandoned || old(life)[k].finalized ==> Proper(wrapping, old(life), old(log), life, log)
    {
      hide Valid, Safe, Proper, Delivered, Orderly, Ever, SameClosing;
      assert WellFormed(flow) && |life| == |flow| by { IsValid(); }
      ProperStays(wrapping, life, log);
      ConcludedKeepsOpen(life, flow, k);
      if life[k].finalized {
        assert Orderly(life, log, {k}) ==> Orderly(life, log, {}) by { NothingPending(life, log, k); }
        return;
      }
      if flow[k].wraps {
        if !life[k - 1].finalized {
          ConcludeInner(k);
        } else {
          assert life[k - 1 := life[k - 1].(finalized := true)] == life;
        }
      }
      ghost var middle, written := life, log;
      Finalize(k, {k});
      assert {k} - {k} == {};
      if !old(life)[k].abandoned {
        ProperTwice(wrapping, old(life), old(log), middle, written, life, log);
      }
    }

    method ConcludeInner(k: nat)
      requires Valid() && 0 < k < |flow| && flow[k].wraps && !life[k].finalized && !life[k - 1].finalized
      modifies this`life, this`log
      ensures Valid() && life == old(life)[k - 1 := old(life)[k - 1].(finalized := true)]
      ensures log == old(log) + [Finalization(k - 1, flow[k - 1].updates)]
      ensures Orderly(old(life), old(log), {k}) && Ever(old(log), k - 1) ==>
                Orderly(life, log, {k}) && Ever(log, k - 1)
      ensures !old(life)[k].abandoned ==> Proper(wrapping, old(life), old(log), life, log)
    {
      hide Valid, Proper, Delivered, Orderly, Ever;
      assert |life| == |flow| == |wrapping| && wrapping[k] == flow[k].wraps by { IsValid(); }
      if !life[k].abandoned {
        InnerFinalizingIsProper(wrapping, life, log, k, flow[k - 1].updates);
      }
      assert Orderly(life, log, {k}) && Ever(log, k - 1) && k > 1 ==> Ever(log, k - 2) by { InnerOfInner(life, log, k); }
      Finalize(k - 1, {k});
      assert {k} - {k - 1} == {k};
      assert Ever(log, k - 1) by { EverAdds(old(log), Finalization(k - 1, flow[k - 1].updates)); }
    }

    /** `aclose`: an inner stream that an unresolved awaitable would bring does not exist yet. */
    method Close(k: nat)
      requires Valid() && k < |flow|
      modifies this`life, this`log
      ensures Valid() && SameFinalized(old(life), life) && |life| == |flow| == |old(life)| == |wrapping|
      ensures ClosedDown(old(life), flow, k, life)
      ensures (k + 1 < |old(life)| ==> old(life)[k + 1].closed) ==> OrderKept(old(life), old(log), life, log)
      ensures Shielded(wrapping, old(life), k) ==> Proper(wrapping, old(life), old(log), life, log)
      decreases k
    {
      hide Valid, Proper, Orderly, Shielded, Delivered, WellFormed, ClosedDown, CloseReaches;
      assert |life| == |flow| == |wrapping| by { IsValid(); }
      ProperStays(wrapping, life, log);
      OrderStays(life, log);
      if life[k].closed {
        assert ClosedDown(life, flow, k, life) by { ClosedAlready(life, flow, k); }
        return;
      }
      ghost var shielded := Shielded(wrapping, life, k);
      ghost var outward := k + 1 < |life| ==> life[k + 1].closed;
      MarkClosed(k);
      if k > 0 && (flow[k].resolved || !flow[k].lazy) {
        ghost var marked, written := life, log;
        Close(k - 1);
        if shielded {
          ProperTwice(wrapping, old(life), old(log), marked, written, life, log);
        }
        if outward {
          OrderTwice(old(life), old(log), marked, written, life, log);
        }
      }
      ghost var inner, written := life, log;
      assert |life| == |flow| by { IsValid(); }
      ClosedInside(old(life), flow, k, life);
      Clean(k, {});
      if shielded {
        ProperTwice(wrapping, old(life), old(log), inner, written, life, log);
      }
      if outward {
        OrderTwice(old(life), old(log), inner, written, life, log);
      }
    }

    method MarkClosed(k: nat)
      requires Valid() && k < |flow|
      modifies this`life
      ensures Valid() && life == Closing(old(life), k) && life[k].closed
      ensures (k + 1 < |old(life)| ==> old(life)[k + 1].closed) ==> OrderKept(old(life), log, life, log)
      ensures Shielded(wrapping, old(life), k) ==>
                Proper(wrapping, old(life), log, life, log) && (k > 0 ==> Shielded(wrapping, life, k - 1))
    {
      hide Proper, Orderly, Shielded, Delivered;
      if Shielded(wrapping, life, k) {
        ClosingIsProper(wrapping, life, log, k);
      }
      if Orderly(life, log, {}) && (k + 1 < |life| ==> life[k + 1].closed) {
        ClosingIsOrderly(life, log, k);
      }
      life := Closing(life, k);
    }

    /** The stream source is resolved on the first pull, and hands its filters down then. */
    method Resolve(k: nat)
      requires Valid() && k < |flow|
      modifies this`flow
      ensures Valid() && flow == Resolved(old(flow), k) && SameLayout(old(flow), flow) && flow[k].resolved
    {
      ResolutionDelivers(flow, registered, k);
      ResolutionSettles(flow, k);
      LayoutSettles(flow, Resolved(flow, k), k);
      flow := Resolved(flow, k);
    }

    /** An update joins the updates of a stream. */
    method Accumulate(k: nat, below: Update) returns (u: Update)
      requires Valid() && k < |flow|
      modifies this`flow
      ensures Valid() && SameLayout(old(flow), flow)
      ensures flow == old(flow)[k := old(flow)[k].(updates := old(flow)[k].updates + [Entered(old(flow), k, below)])]
      ensures u == Leaving(old(flow), k, Entered(old(flow), k, below))
    {
      hide Entered, Leaving, Delivered, CleanedOnce;
      var entered := Entered(flow, k, below);
      u := Leaving(flow, k, entered);
      ghost var before := flow;
      flow := flow[k := flow[k].(updates := flow[k].updates + [entered])];
      AccumulationDelivers(before, flow, registered);
    }

    /** The raw source. */
    method NextRaw() returns (r: Result)
      requires Valid()
      modifies this`source
      ensures Valid() && |source| <= |old(source)|
      ensures Follows(old(source), source, r)
      ensures r.Yield? ==> TookOne(old(source), source) && r.update == Update(old(source)[0].value, [])
    {
      if source == [] {
        return Stop;
      }
      var item := source[0];
      source := source[1..];
      return match item case Raw(value) => Yield(Update(value, [])) case Fault => Raised;
    }

    /** What a stream pulls: the raw source, or the stream inside. */
    method Next(k: nat) returns (r: Result)
      requires Valid() && k < |flow|
      modifies this`flow, this`life, this`source, this`log
      ensures Valid() && SameLayout(old(flow), flow) && SameClosing(old(life), life)
      ensures Proper(wrapping, old(life), old(log), life, log)
      ensures OrderKept(old(life), old(log), life, log)
      ensures |life| == |old(life)| == |flow|
      ensures r.Stop? && k > 0 ==> EndedDown(old(life), k - 1, life)
      ensures if k == 0 then Follows(old(source), source, r) else Answers(old(life), old(source), k - 1, source, r)
      ensures |source| <= |old(source)|
      ensures r.Yield? ==> TookOne(old(source), source) && Below(old(flow), flow, k, old(source)[0].value, r.update)
      ensures r.Yield? ==> r.update.raw == old(source)[0].value
      ensures Gained(old(flow), flow, k - 1, Taken(r))
      ensures Carries(old(log), log, flow, if r.Stop? then k - 1 else -1)
      decreases k, 0
    {
      hide Valid, Proper, OrderKept, Pulled, SameLayout, SameClosing, ResolvedDown, EndedDown, Answers, Gained, Carries;
      assert |life| == |flow| by { IsValid(); }
      LayoutStays(flow);
      ClosingStays(life);
      ProperStays(wrapping, life, log);
      OrderStays(life, log);
      if k > 0 {
        r := Pull(k - 1);
        SameLengths(old(flow), flow);
        assert |life| == |flow| by { IsValid(); }
      } else {
        r := NextRaw();
        CarriesNothing(log, flow, -1);
        GainedRaw(flow, Taken(r));
      }
    }

    /** The end of the iteration: cleanup, then finalization. */
    method AfterStop(k: nat) returns (r: Result)
      requires Valid() && k < |flow|
      modifies this`life, this`log
      ensures Valid() && SameClosing(old(life), life) && !r.Yield?
      ensures Proper(wrapping, old(life), old(log), life, log)
      ensures life[k].cleanupRun && (r.Stop? ==> Ended(life[k])) && (r.Raised? ==> old(life)[k].closed)
      ensures Carries(old(log), log, flow, k)
      ensures (k > 0 ==> Ever(old(log), k - 1)) ==> OrderKept(old(life), old(log), life, log)
    {
      hide Valid, Proper, Orderly, Ever, Carries;
      assert |life| == |flow| && WellFormed(flow) by { IsValid(); }
      assert life[k].abandoned ==> life[k].closed by { IsValid(); }
      Consume(k);
      ghost var life1, log1 := life, log;
      Clean(k, {k});
      CleaningCarries(log1, flow, k, life1[k].cleanupRun, k);
      ProperTwice(wrapping, old(life), old(log), life1, log1, life, log);
      if life[k].abandoned && !life[k].finalized {
        NothingPending(life, log, k);
        return Raised;
      }
      ghost var life2, log2 := life, log;
      assert Ever(old(log), k - 1) ==> Ever(log, k - 1) by { EverStays(old(log), log, k - 1); }
      ConclusionCarries(life, flow, k, log);
      Conclude(k);
      CarriesTwice(old(log), log2, log, flow, k, k);
      ProperTwice(wrapping, old(life), old(log), life2, log2, life, log);
      ClosingTwice(old(life), life2, life);
      return Stop;
    }

    method Consume(k: nat)
      requires Valid() && k < |flow|
      modifies this`life
      ensures Valid() && life == old(life)[k := old(life)[k].(consumed := true)]
      ensures Proper(wrapping, old(life), log, life, log)
      ensures Orderly(old(life), log, {}) ==> Orderly(life, log, {k})
    {
      hide Proper, Orderly, Delivered;
      if Orderly(life, log, {}) {
        ConsumingIsOrderly(life, log, k);
      }
      ConsumingIsProper(wrapping, life, log, k);
      life := life[k := life[k].(consumed := true)];
    }

    /** `__anext__` at a stream of the chain. */
    method Pull(k: nat) returns (r: Result)
      requires Valid() && k < |flow|
      modifies this`flow, this`life, this`source, this`log
      ensures Valid() && SameLayout(old(flow), flow) && SameClosing(old(life), life)
      ensures Proper(wrapping, old(life), old(log), life, log)
      ensures OrderKept(old(life), old(log), life, log)
      ensures |life| == |old(life)| == |flow|
      ensures r.Stop? ==> EndedDown(old(life), k, life)
      ensures Answers(old(life), old(source), k, source, r)
      ensures r.Raised? ==> life[k].cleanupRun
      ensures !old(life)[k].closed ==> flow[k].resolved
      ensures |source| <= |old(source)|
      ensures r.Yield? ==>
                && TookOne(old(source), source) && Pulled(old(flow), flow, k, old(source)[0].value)
                && r.update == Yielded(ResolvedDown(old(flow), k), k, old(source)[0].value)
      ensures r.Yield? ==> r.update.raw == old(source)[0].value
      ensures Gained(old(flow), flow, k, Taken(r))
      ensures Carries(old(log), log, flow, if r.Stop? then k else -1)
      ensures old(life)[k].closed ==> r.Stop? && flow == old(flow) && life == old(life) && log == old(log)
      decreases k, 1
    {
      hide Valid, Proper, Orderly, Delivered, SameLayout, SameClosing, WellFormed;
      hide Pulled, Resolved, ResolvedDown, Below, EndedDown, Ever, Answers, Gained, Carries;
      assert |life| == |flow| by { IsValid(); }
      LayoutStays(flow);
      ClosingStays(life);
      ProperStays(wrapping, life, log);
      OrderStays(life, log);
      if life[k].closed {
        assert EndedDown(life, k, life) by { ClosedEndsNothing(life, k); }
        ClosedAnswers(life, source, k);
        GainedNothing(flow, flow, k);
        CarriesNothing(log, flow, k);
        return Stop;
      }
      ResolutionGains(flow, k, k - 1);
      Resolve(k);
      ghost var flow1 := flow;
      r := Next(k);
      OpenAnswers(old(life), old(source), k, source, r);
      GainedTwice(old(flow), flow1, flow, k - 1, [], Taken(r));
      assert [] + Taken(r) == Taken(r);
      ghost var flow2, life2, log2 := flow, life, log;
      LayoutTwice(old(flow), flow1, flow2);
      StaysResolved(flow1, flow2, k);
      assert |life| == |flow| == |old(flow)| by { IsValid(); SameLengths(old(flow), flow); }
      match r
      case Stop =>
        StaysOpen(old(life), life, k);
        r := AfterStop(k);
        GainedInside(old(flow), flow, k);
        CarriesTwice(old(log), log2, log, flow, k - 1, k);
        ClosingTwice(old(life), life2, life);
        ProperTwice(wrapping, old(life), old(log), life2, log2, life, log);
        StoppedKept(old(life), old(log), life2, log2, life, log, k);
        StoppedEnds(old(life), k, life2, life);
      case Raised =>
        Clean(k, {});
        GainedInside(old(flow), flow, k);
        CleaningCarries(log2, flow, k, life2[k].cleanupRun, -1);
        CarriesTwice(old(log), log2, log, flow, -1, -1);
        CleaningKeepsOpen(life2, k);
        ClosingTwice(old(life), life2, life);
        ProperTwice(wrapping, old(life), old(log), life2, log2, life, log);
      case Yield(below) =>
        BelowComposes(old(flow), flow2, k, old(source)[0].value, below);
        GainedHere(old(flow), flow2, k, Entered(flow2, k, below));
        CarriesAnywhere(old(log), log, flow2, flow2[k := flow2[k].(updates := flow2[k].updates + [Entered(flow2, k, below)])]);
        var u := Accumulate(k, below);
        LayoutTwice(old(flow), flow2, flow);
        StaysResolved(flow2, flow, k);
        r := Yield(u);
    }

    /** Pulls until the iteration ends; false where a pull raises. */
    method Drain(k: nat) returns (ok: bool)
      requires Valid() && k < |flow|
      modifies this`flow, this`life, this`source, this`log
      ensures Valid() && SameLayout(old(flow), flow) && SameClosing(old(life), life)
      ensures Proper(wrapping, old(life), old(log), life, log)
      ensures OrderKept(old(life), old(log), life, log)
      ensures |life| == |old(life)| == |flow| && (old(life)[k].closed ==> ok && life == old(life) && log == old(log))
      ensures ok && !old(life)[k].closed ==> Ended(life[k])
      ensures Carries(old(log), log, flow, k)
      ensures OpenBetween(old(life), 0, k) ==>
                (ok <==> AllRaw(old(source))) && (ok ==> Gained(old(flow), flow, k, Values(old(source))))
    {
      hide Valid, Proper, Orderly, Delivered, SameLayout, SameClosing, WellFormed, Pulled, ResolvedDown, EndedDown;
      hide Gained, Carries, AllRaw, Values, Answers, OpenBetween;
      assert |life| == |flow| by { IsValid(); }
      var r := Pull(k);
      assert |life| == |flow| by { IsValid(); }
      SameLengths(old(flow), flow);
      PulledEnds(old(life), old(life), k, life);
      ghost var taken := Taken(r);
      DrainStarts(old(life), old(source), k, source, r);
      while r.Yield?
        invariant Valid() && SameLayout(old(flow), flow) && SameClosing(old(life), life) && k < |flow|
        invariant Proper(wrapping, old(life), old(log), life, log)
        invariant OrderKept(old(life), old(log), life, log)
        invariant |life| == |old(life)| == |flow|
        invariant r.Stop? && !old(life)[k].closed ==> Ended(life[k])
        invariant old(life)[k].closed ==> r.Stop? && life == old(life) && log == old(log)
        invariant Carries(old(log), log, flow, if r.Stop? then k else -1)
        invariant Gained(old(flow), flow, k, taken)
        invariant OpenBetween(old(life), 0, k) ==> Drains(old(source), source, taken, r)
        decreases if r.Yield? then 1 else 0, |source|
      {
        ghost var flow1, life1, log1, source1, r1 := flow, life, log, source, r;
        r := Pull(k);
        LayoutTwice(old(flow), flow1, flow);
        ClosingTwice(old(life), life1, life);
        ProperTwice(wrapping, old(life), old(log), life1, log1, life, log);
        SameLengths(flow1, flow);
        assert |life| == |flow| by { IsValid(); }
        PulledEnds(old(life), life1, k, life);
        CarriesAnywhere(old(log), log1, flow1, flow);
        CarriesTwice(old(log), log1, log, flow, -1, if r.Stop? then k else -1);
        GainedTwice(old(flow), flow1, flow, k, taken, Taken(r));
        if OpenBetween(old(life), 0, k) {
          DrainGoesOn(old(life), life1, k, old(source), source1, taken, r1, source, r);
        }
        taken := taken + Taken(r);
      }
      CarriesMore(old(log), log, flow, if r.Stop? then k else -1, k);
      DrainEnds(old(source), source, taken, r);
      return r.Stop?;
    }

    /** What `get_final_response` does before it finalizes: resolves a wrapping stream, and pulls what is left. */
    method Exhaust(k: nat) returns (ok: bool)
      requires Valid() && k < |flow| && !(life[k].abandoned && !life[k].finalized)
      modifies this`flow, this`life, this`source, this`log
      ensures Valid() && SameLayout(old(flow), flow) && SameClosing(old(life), life)
      ensures Proper(wrapping, old(life), old(log), life, log)
      ensures OrderKept(old(life), old(log), life, log)
      ensures |life| == |old(life)| == |flow|
      ensures ok ==> life[k].finalized || Ready(life, k)
      ensures old(life)[k].finalized || Ready(old(life), k) ==> ok && life == old(life) && log == old(log)
      ensures ok && !old(life)[k].finalized && !Ready(old(life), k) ==> Ended(life[k])
      ensures Carries(old(log), log, flow, k)
      ensures !old(life)[k].finalized && !old(life)[k].consumed && OpenBetween(old(life), 0, k) ==>
                (ok <==> AllRaw(old(source))) && (ok ==> Gained(old(flow), flow, k, Values(old(source))))
    {
      hide Valid, Proper, Orderly, Delivered, SameLayout, SameClosing, Gained, Carries, AllRaw, Values, OpenBetween;
      assert |life| == |flow| && WellFormed(flow) by { IsValid(); }
      CarriesNothing(log, flow, k);
      GainedNothing(flow, flow, k);
      LayoutStays(flow);
      ClosingStays(life);
      ProperStays(wrapping, life, log);
      if flow[k].wraps {
        ResolutionGains(flow, k, k);
        Resolve(k);
      }
      ok := true;
      CarriesNothing(log, flow, k);
      if !life[k].finalized && !life[k].consumed {
        ghost var flow1 := flow;
        ok := Drain(k);
        LayoutTwice(old(flow), flow1, flow);
        if OpenBetween(old(life), 0, k) && ok {
          GainedTwice(old(flow), flow1, flow, k, [], Values(old(source)));
          assert [] + Values(old(source)) == Values(old(source));
        }
      }
    }

    /** `get_final_response`; false where it raises. */
    method GetFinal(k: nat) returns (ok: bool)
      requires Valid() && k < |flow|
      modifies this`flow, this`life, this`source, this`log
      ensures Valid() && SameLayout(old(flow), flow) && SameClosing(old(life), life)
      ensures Proper(wrapping, old(life), old(log), life, log)
      ensures OrderKept(old(life), old(log), life, log)
      ensures |life| == |old(life)| == |flow|
      ensures old(life)[k].abandoned && !old(life)[k].finalized ==> !ok && log == old(log)
      ensures ok ==> life[k].finalized
      ensures ok && !old(life)[k].finalized && !Ready(old(life), k) ==> Ended(life[k])
      ensures Ready(old(life), k) ==> ok && log == old(log) + Conclusion(old(life), flow, k)
      ensures Carries(old(log), log, flow, k)
      ensures !old(life)[k].finalized && !old(life)[k].consumed && OpenBetween(old(life), 0, k) ==>
                (ok <==> AllRaw(old(source))) && (ok ==> Gained(old(flow), flow, k, Values(old(source))))
    {
      hide Valid, Proper, Orderly, Ever, Delivered, SameLayout, SameClosing, Conclusion;
      hide Gained, Carries, AllRaw, Values;
      CarriesNothing(log, flow, k);
      assert life[k].abandoned ==> life[k].closed by { IsValid(); }
      assert |life| == |flow| && WellFormed(flow) by { IsValid(); }
      LayoutStays(flow);
      ClosingStays(life);
      ProperStays(wrapping, life, log);
      if life[k].abandoned && !life[k].finalized {
        return false;
      }
      ok := Exhaust(k);
      if !ok {
        return;
      }
      ghost var life2, log2 := life, log;
      ConcludesOrderly(life, log, k);
      assert |life| == |flow| && WellFormed(flow) by { IsValid(); }
      ConclusionCarries(life, flow, k, log);
      Conclude(k);
      CarriesTwice(old(log), log2, log, flow, k, k);
      ClosingTwice(old(life), life2, life);
      ProperTwice(wrapping, old(life), old(log), life2, log2, life, log);
      assert Ended(life2[k]) ==> Ended(life[k]) by { EndedRemains(life2, life, k); }
    }

    lemma IsValid()
      requires Valid()
      ensures WellFormed(flow) && |life| == |flow| == |registered| == |wrapping| == |hooked|
      ensures forall k :: 0 <= k < |flow| ==> wrapping[k] == flow[k].wraps
      ensures Delivered(flow, registered) && CleanedOnce(life, log) && FinalizedPerHook(life, log, hooked)
      ensures AbandonedClosed(life)
    {
    }

    /** A pull at the outermost stream: what comes out has passed every registered filter exactly as often as it was
        registered, wherever and whenever that was. */
    method PullOutermost() returns (r: Result)
      requires Valid()
      modifies this`flow, this`life, this`source, this`log
      ensures Valid() && SameLayout(old(flow), flow) && SameClosing(old(life), life)
      ensures Proper(wrapping, old(life), old(log), life, log)
      ensures r.Yield? ==> FilterIds(r.update.trace) == Sum(registered, |registered| - 1)
    {
      hide Valid, Delivered, CleanedOnce, WellFormed, Settles;
      hide Proper, SameLayout, SameClosing, Pulled, Yielded, ResolvedDown, Sum, FilterIds;
      ghost var before := flow;
      assert |flow| > 0 by { IsValid(); }
      assert |flow| == |registered| && Delivered(flow, registered) by { IsValid(); }
      var top := |flow| - 1;
      r := Pull(top);
      if r.Yield? {
        ResolutionDownDelivers(before, registered, top);
        ResolutionDownSettles(before, top);
        EveryFilterOnce(ResolvedDown(before, top), registered, old(source)[0].value);
      }
    }

    /** One call at some stream of the chain; closing happens at the outermost one, and `careful` calls register no
        harmful result hook. */
    method Perform(op: Op, careful: bool)
      requires Valid()
      modifies this
      ensures Valid() && |flow| == |old(flow)| == |hooked| == |old(hooked)|
      ensures careful && Safe(wrapping, old(life)) ==> Safe(wrapping, life) && Quiet(old(life), old(log), life, log)
      ensures OrderKept(old(life), old(log), life, log)
      ensures forall k: nat :: k < |hooked| ==> hooked[k] <= old(hooked)[k] + (if op == HookAt(k) then 1 else 0)
    {
      hide Valid, Delivered, CleanedOnce, FinalizedPerHook, Orderly;
      assert |life| == |flow| == |hooked| && flow != [] by { IsValid(); }
      OrderStays(life, log);
      match op
      case PullAt(k) => if k < |flow| { var r := Pull(k); }
      case FinalAt(k) => if k < |flow| { var ok := GetFinal(k); }
      case CloseAll => Close(|flow| - 1);
      case FilterAt(k, f) => if k < |flow| { AddFilter(k, f); }
      case HookAt(k) =>
        if k < |flow| && !(careful && HookHarms(life, flow, k)) {
          assert |wrapping| == |flow| && wrapping[k] == flow[k].wraps by { IsValid(); }
          if careful && Safe(wrapping, life) {
            HarmlessHookIsSafe(wrapping, life, log, flow, k);
          }
          AddResultHook(k);
        }
    }

    method PerformAll(ops: seq<Op>, careful: bool)
      requires Valid()
      modifies this
      ensures Valid() && |flow| == |old(flow)| == |hooked| == |old(hooked)|
      ensures careful && Safe(wrapping, old(life)) ==> Safe(wrapping, life) && Quiet(old(life), old(log), life, log)
      ensures OrderKept(old(life), old(log), life, log)
      ensures forall k: nat :: k < |hooked| ==> hooked[k] <= old(hooked)[k] + HookCount(ops, k)
    {
      hide Valid, Safe, Orderly;
      QuietStays(life, log);
      assert |flow| == |hooked| by { IsValid(); }
      for i := 0 to |ops|
        invariant Valid() && |flow| == |old(flow)| == |hooked| == |old(hooked)|
        invariant careful && Safe(wrapping, old(life)) ==> Safe(wrapping, life) && Quiet(old(life), old(log), life, log)
        invariant OrderKept(old(life), old(log), life, log)
        invariant forall k: nat :: k < |hooked| ==> hooked[k] <= old(hooked)[k] + HookCount(ops[..i], k)
      {
        ghost var life1, log1 := life, log;
        Perform(ops[i], careful);
        if careful && Safe(wrapping, old(life)) {
          QuietTwice(old(life), old(log), life1, log1, life, log);
        }
        forall k: nat
          ensures HookCount(ops[..i + 1], k) == HookCount(ops[..i], k) + (if ops[i] == HookAt(k) then 1 else 0)
        {
          HookCountAdds(ops, i, k);
        }
      }
      assert ops[..|ops|] == ops;
    }

    /** Whatever was called before and whatever is called after closing the outermost stream: cleanup hooks run at most
        once per stream, the streams the close came to before they were finalized never finalize, and asking any of
        them for its result fails. */
    method CloseBetween(before: seq<Op>, after: seq<Op>, asked: nat)
      returns (ghost earlier: seq<Life>, ghost shape: seq<Flow>, ghost closed: seq<Life>, ghost written: seq<Event>, ok: bool)
      requires Valid() && Safe(wrapping, life) && asked < |flow|
      modifies this
      ensures forall k: nat :: CleanupCount(log, k) <= 1
      ensures |earlier| == |shape| == |closed| == |old(flow)| && closed[|closed| - 1].closed
      ensures forall k: nat :: k < |closed| ==>
                (closed[k].abandoned <==>
                 earlier[k].abandoned || (CloseReaches(earlier, shape, |shape| - 1, k) && !earlier[k].finalized))
      ensures closed[asked].abandoned ==> !ok
      ensures written <= log && forall i :: |written| <= i < |log| && log[i].Finalization? && log[i].level < |closed| ==>
                !closed[log[i].level].abandoned
    {
      hide Valid, Safe, Quiet, CleanedOnce, Delivered;
      PerformAll(before, true);
      assert |life| == |flow| > 0 by { IsValid(); }
      earlier, shape := life, flow;
      CloseOutermost(|flow| - 1);
      closed, written := life, log;
      PerformAll(after, true);
      ghost var life1, log1 := life, log;
      assert |life| == |flow| by { IsValid(); }
      AbandonedStays(closed, written, life, log, asked);
      ok := FinalOf(asked);
      QuietTwice(closed, written, life1, log1, life, log);
      QuietMeans(closed, written, life, log);
      assert CleanedOnce(life, log) by { IsValid(); }
      CountsOnce(life, log);
    }

    method CloseOutermost(top: nat)
      requires Valid() && Safe(wrapping, life) && top + 1 == |flow|
      modifies this`life, this`log
      ensures Valid() && Safe(wrapping, life) && |life| == |flow| == |old(life)| && life[top].closed
      ensures forall k: nat :: k < |life| ==>
                (life[k].abandoned <==>
                 old(life)[k].abandoned || (CloseReaches(old(life), flow, top, k) && !old(life)[k].finalized))
    {
      IsValid();
      Close(top);
    }

    method FinalOf(k: nat) returns (ok: bool)
      requires Valid() && Safe(wrapping, life) && k < |flow| == |life|
      modifies this
      ensures Valid() && Quiet(old(life), old(log), life, log)
      ensures old(life)[k].abandoned ==> !ok
    {
      hide Valid, Quiet;
      assert old(life)[k].abandoned ==> !old(life)[k].finalized;
      ok := GetFinal(k);
    }

    /** Any other result hook is harmful: the next request for the result finalizes the abandoned stream inside. */
    method HarmfulHook(k: nat) returns (ok: bool)
      requires Valid() && Safe(wrapping, life) && k < |flow| && HookHarms(life, flow, k)
      modifies this
      ensures ok && |flow| == |old(flow)| && old(life)[k - 1].abandoned
      ensures log == old(log) + [Finalization(k - 1, flow[k - 1].updates), Finalization(k, flow[k].updates)]
    {
      hide Delivered, CleanedOnce, Proper, SameClosing;
      assert life[k].closed && !life[k].abandoned by { HarmedIsClosed(wrapping, life, flow, k); }
      ghost var wraps := flow[k].wraps;
      AddResultHook(k);
      ghost var hooked := life;
      ok := GetFinal(k);
      assert flow[k].wraps;
      assert Conclusion(hooked, flow, k)
          == [Finalization(k - 1, flow[k - 1].updates)] + [Finalization(k, flow[k].updates)];
    }
  }

  /** Any calls at any streams of a new chain, closing at the outermost one, harmful result hooks or not: cleanup hooks
      run at most once per stream, finalizers at most once and once more per result hook registered there, and never
      before those of the stream inside have run. */
  method AnyRun(flow: seq<Flow>, source: seq<Item>, ops: seq<Op>) returns (c: Chain)
    requires WellFormed(flow)
    requires forall k :: 0 <= k < |flow| ==> !flow[k].resolved && flow[k].filters == [] && flow[k].updates == []
    ensures forall k: nat :: CleanupCount(c.log, k) <= 1
    ensures forall k: nat :: FinalizationCount(c.log, k) <= 1 + HookCount(ops, k)
    ensures InnerFirst(c.log)
  {
    hide Chain.Valid, CleanedOnce, FinalizedPerHook, InnerFirst, Safe;
    c := new Chain(flow, source);
    assert |c.life| == |c.flow| == |c.hooked| by { c.IsValid(); }
    c.PerformAll(ops, false);
    assert CleanedOnce(c.life, c.log) && FinalizedPerHook(c.life, c.log, c.hooked) by { c.IsValid(); }
    CountsOnce(c.life, c.log);
    CountsPerHook(c.life, c.log, c.hooked);
  }

  /** Asking a stream of a new chain over raw values for its result: it and every stream inside it are finalized once, on
      one update per raw value with the values in order, and no other stream is. */
  method FinalOfNew(flow: seq<Flow>, values: seq<int>, k: nat) returns (c: Chain)
    requires WellFormed(flow) && k < |flow|
    requires forall j :: 0 <= j < |flow| ==> !flow[j].resolved && flow[j].filters == [] && flow[j].updates == []
    ensures k < |c.life| && c.life[k].finalized
    ensures forall j: nat :: FinalizationCount(c.log, j) == if j <= k then 1 else 0
    ensures forall i :: 0 <= i < |c.log| && c.log[i].Finalization? ==> Raws(c.log[i].updates) == values
  {
    hide Chain.Valid, CleanedOnce, FinalizedPerHook, Safe, Gained, Carries, FinalizationCount, InnerFirst, Ever, Raws;
    var source := seq(|values|, i requires 0 <= i < |values| => Raw(values[i]));
    assert Values(source) == values;
    c := new Chain(flow, source);
    assert |c.life| == |flow| == |c.hooked| by { c.IsValid(); }
    var ok := c.GetFinal(k);
    assert FinalizedPerHook(c.life, c.log, c.hooked) by { c.IsValid(); }
    assert Ever(c.log, k);
    FinalizedDown(c.life, c.log, c.hooked, c.flow, k);
    CarriesRaws(c.log, flow, c.flow, k, values);
  }

  /** Where no result hook was registered every level inside a finalized one was finalized once. */
  lemma FinalizedDown(life: seq<Life>, log: seq<Event>, hooked: seq<nat>, flow: seq<Flow>, k: nat)
    requires FinalizedPerHook(life, log, hooked) && InnerFirst(log) && Ever(log, k) && Carries([], log, flow, k)
    requires k < |hooked| && forall j :: 0 <= j < |hooked| ==> hooked[j] == 0
    ensures forall j: nat :: FinalizationCount(log, j) == if j <= k then 1 else 0
  {
    forall j: nat
      ensures FinalizationCount(log, j) == if j <= k then 1 else 0
    {
      if j <= k {
        EverDown(log, k, j);
        EverCounts(log, j);
      } else if FinalizationCount(log, j) > 0 {
        CountedEver(log, j);
        assert false;
      }
    }
  }

  lemma {:induction false} EverDown(log: seq<Event>, k: nat, j: nat)
    requires InnerFirst(log) && Ever(log, k) && j <= k
    ensures Ever(log, j)
  {
    if j < k {
      EverInner(log, k);
      EverDown(log, k - 1, j);
    }
  }

  lemma {:induction false} EverCounts(log: seq<Event>, k: nat)
    requires Ever(log, k)
    ensures FinalizationCount(log, k) > 0
  {
    var i :| 0 <= i < |log| && log[i].Finalization? && log[i].level == k;
    if i < |log| - 1 {
      assert log[..|log| - 1][i] == log[i];
      EverCounts(log[..|log| - 1], k);
    }
  }

  lemma {:induction false} CountedEver(log: seq<Event>, k: nat)
    requires FinalizationCount(log, k) > 0
    ensures Ever(log, k)
  {
    if !(log[|log| - 1].Finalization? && log[|log| - 1].level == k) {
      CountedEver(log[..|log| - 1], k);
      EverStays(log[..|log| - 1], log, k);
    }
  }

  lemma CarriesRaws(log: seq<Event>, flow: seq<Flow>, after: seq<Flow>, k: nat, raws: seq<int>)
    requires Carries([], log, after, k) && Gained(flow, after, k, raws)
    requires forall j :: 0 <= j < |flow| ==> flow[j].updates == []
    ensures forall i :: 0 <= i < |log| && log[i].Finalization? ==> Raws(log[i].updates) == raws
  {
    assert [] + raws == raws;
  }

  lemma CountsPerHook(life: seq<Life>, log: seq<Event>, hooked: seq<nat>)
    requires FinalizedPerHook(life, log, hooked)
    ensures forall k: nat :: FinalizationCount(log, k) <= if k < |hooked| then hooked[k] + 1 else 0
  {
  }

  /** Chains come to a harmful hook: a stream wrapped by another, pulled to the end of an empty source, gets a result
      hook and is abandoned by the close, and a result hook at the outer stream then finalizes it. */
  method LateResultHook(flow: seq<Flow>) returns (c: Chain, ghost closed: seq<Life>, ghost written: nat)
    requires WellFormed(flow) && |flow| == 2 && flow[1].wraps
    requires forall k :: 0 <= k < |flow| ==> !flow[k].resolved && flow[k].filters == [] && flow[k].updates == []
    ensures |c.flow| == |closed| == 2 && closed[0].abandoned && !closed[0].finalized
    ensures written < |c.log| && c.log[written] == Finalization(0, c.flow[0].updates)
  {
    hide Proper, Delivered, CleanedOnce, FinalizedPerHook, Orderly;
    c := new Chain(flow, []);
    var r := c.Pull(1);
    assert r.Stop? && OpenBetween(c.life, 0, 1) && OpenBetween(c.life, 1, 1);
    assert forall k :: 0 <= k < 2 ==> c.life[k] == Life(true, true, true, false, false);
    c.AddResultHook(0);
    assert CloseReaches(c.life, c.flow, 1, 1) && CloseReaches(c.life, c.flow, 1, 0);
    c.Close(1);
    assert c.life[1] == Life(true, true, true, true, false) && c.life[0] == Life(true, false, true, true, true);
    closed, written := c.life, |c.log|;
    var ok := c.HarmfulHook(1);
  }
}
