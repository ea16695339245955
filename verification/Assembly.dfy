/** Assembly of a streamed response, one update at a time. */
module Assembly {
  import opened Values
  import opened Contents
  import opened Landing

  /** A content object of the stream; two emissions of one object have the same identity. */
  datatype Fragment = Fragment(id: nat, content: Content)

  /** A streamed update. `agent` says that it is an update of an agent run, `marker` that the raw representation is the
      transport's heartbeat marker (of an agent's update: that it is such a heartbeat), `bare` that none of the response
      data its heartbeat check looks at is set besides those given here, `retry` that the retry boundary property is
      true. */
  datatype Update = Update(
    role: Option<string>,
    author: Option<string>,
    messageId: Option<string>,
    fragments: seq<Fragment>,
    agent: bool,
    marker: bool,
    bare: bool,
    retry: bool)

  datatype Msg = Msg(role: string, author: Option<string>, messageId: Option<string>, contents: seq<Content>)

  type UsageDetails = map<string, Value>

  /** The response under assembly, and the objects already incorporated. */
  datatype State = State(messages: seq<Msg>, usage: Option<UsageDetails>, latest: Option<UsageDetails>, seen: set<nat>)

  const EMPTY := State([], None, None, {})
  const FRESH_MESSAGE := Msg("assistant", None, None, [])

  /** Heartbeats and retry boundaries; the author's name matters to the heartbeats of a chat client alone. */
  predicate Ignored(u: Update) {
    && u.fragments == []
    && (u.retry || (u.marker && u.bare && u.role.None? && (u.agent || u.author.None?) && u.messageId.None?))
  }

  // ---------- Usage ----------

  /** The number a usage entry counts as; nothing for an entry that is skipped. */
  function CountOf(value: Value): Option<int> {
    match value
    case Null => Some(0)
    case Int(i) => Some(i)
    case Bool(b) => Some(if b then 1 else 0)
    case _ => None
  }

  function CountAt(usage: UsageDetails, key: string): Option<int> {
    if key in usage then CountOf(usage[key]) else Some(0)
  }

  /** `add_usage_details` with a first operand. */
  function AddUsage(left: UsageDetails, right: Option<UsageDetails>): UsageDetails {
    if right.None? then left
    else
      map key | key in left.Keys + right.value.Keys && CountAt(left, key).Some? && CountAt(right.value, key).Some?
        :: Int(CountAt(left, key).value + CountAt(right.value, key).value)
  }

  function NonNull(usage: UsageDetails): UsageDetails {
    map key | key in usage && !usage[key].Null? :: usage[key]
  }

  function UsageOr(usage: Option<UsageDetails>): UsageDetails {
    if usage.Some? then usage.value else map[]
  }

  /** `normalize_stream_usage` of two snapshots. */
  function Normalized(earlier: UsageDetails, later: UsageDetails): UsageDetails {
    NonNull(earlier) + NonNull(later)
  }

  // ---------- One update ----------

  /** Whether an update opens a message: there is none, or its message id or role disagrees with the last one's. */
  predicate Opens(messages: seq<Msg>, u: Update) {
    || messages == []
    || (var last := messages[|messages| - 1];
        || (Filled(u.messageId) && Filled(last.messageId) && last.messageId != u.messageId)
        || (Filled(u.role) && last.role != u.role.value))
  }

  function Addressed(message: Msg, u: Update): Msg {
    Msg(if u.role.Some? then u.role.value else message.role,
        if u.author.Some? then u.author else message.author,
        if Filled(u.messageId) then u.messageId else message.messageId,
        message.contents)
  }

  /** The contents of the addressed message while the fragments of an update come in. */
  datatype Pass = Pass(contents: seq<Content>, usage: Option<UsageDetails>, latest: Option<UsageDetails>, seen: set<nat>,
                       skipped: bool)

  /** One fragment; nothing where landing raises. */
  function Absorb(p: Pass, f: Fragment): Option<Pass> {
    if f.content.Usage? then
      Some(p.(usage := Some(AddUsage(UsageOr(p.usage), f.content.details)),
              latest := Some(Normalized(UsageOr(p.latest), UsageOr(f.content.details)))))
    else if f.id in p.seen then Some(p.(skipped := true))
    else
      var landed := Land(p.contents, f.content);
      if landed.None? then None else Some(p.(contents := landed.value, seen := p.seen + {f.id}))
  }

  function AbsorbAll(p: Pass, fragments: seq<Fragment>): Option<Pass> {
    if fragments == [] then Some(p)
    else
      var before := AbsorbAll(p, fragments[..|fragments| - 1]);
      if before.None? then None else Absorb(before.value, fragments[|fragments| - 1])
  }

  function Addressee(messages: seq<Msg>, u: Update): Msg {
    Addressed(if Opens(messages, u) then FRESH_MESSAGE else messages[|messages| - 1], u)
  }

  function Start(s: State, u: Update): Pass {
    Pass(Addressee(s.messages, u).contents, s.usage, s.latest, s.seen, false)
  }

  /** The messages once the pass is over: a message opened by duplicates alone is not kept. */
  function Placed(messages: seq<Msg>, u: Update, p: Pass): seq<Msg> {
    var message := Addressee(messages, u).(contents := p.contents);
    if !Opens(messages, u) then messages[|messages| - 1 := message]
    else if p.skipped && p.contents == [] then messages
    else messages + [message]
  }

  function Step(s: State, u: Update): Option<State> {
    if Ignored(u) then Some(s)
    else
      var p := AbsorbAll(Start(s, u), u.fragments);
      if p.None? then None
      else Some(State(Placed(s.messages, u, p.value), p.value.usage, p.value.latest, p.value.seen))
  }

  function Run(s: State, updates: seq<Update>): Option<State> {
    if updates == [] then Some(s)
    else
      var before := Run(s, updates[..|updates| - 1]);
      if before.None? then None else Step(before.value, updates[|updates| - 1])
  }

  // ---------- The end of the stream ----------

  function Settled(message: Msg): Option<Msg> {
    var texts := Coalesced(message.contents, false);
    if texts.None? then None
    else
      var all := Coalesced(texts.value, true);
      if all.None? then None else Some(message.(contents := all.value))
  }

  function SettledAll(messages: seq<Msg>): Option<seq<Msg>> {
    if messages == [] then Some([])
    else
      var before, last := SettledAll(messages[..|messages| - 1]), Settled(messages[|messages| - 1]);
      if before.None? || last.None? then None else Some(before.value + [last.value])
  }

  /** What a finished response holds. */
  datatype Final = Final(messages: seq<Msg>, usage: Option<UsageDetails>)

  function Finalized(s: State): Option<Final> {
    var messages := SettledAll(s.messages);
    if messages.None? then None
    else Some(Final(messages.value, if s.latest.Some? then s.latest else s.usage))
  }

  function Assembled(updates: seq<Update>): Option<Final> {
    var s := Run(EMPTY, updates);
    if s.None? then None else Finalized(s.value)
  }

  lemma {:induction false} AbsorbFails(p: Pass, fragments: seq<Fragment>, n: nat)
    requires n <= |fragments| && AbsorbAll(p, fragments[..n]).None?
    ensures AbsorbAll(p, fragments).None?
    decreases |fragments| - n
  {
    if n == |fragments| {
      assert fragments[..n] == fragments;
    } else {
      assert fragments[..n + 1][..n] == fragments[..n];
      AbsorbFails(p, fragments, n + 1);
    }
  }

  lemma {:induction false} RunFails(s: State, updates: seq<Update>, n: nat)
    requires n <= |updates| && Run(s, updates[..n]).None?
    ensures Run(s, updates).None?
    decreases |updates| - n
  {
    if n == |updates| {
      assert updates[..n] == updates;
    } else {
      assert updates[..n + 1][..n] == updates[..n];
      RunFails(s, updates, n + 1);
    }
  }

  lemma {:induction false} SettlingFails(messages: seq<Msg>, n: nat)
    requires n <= |messages| && SettledAll(messages[..n]).None?
    ensures SettledAll(messages).None?
    decreases |messages| - n
  {
    if n == |messages| {
      assert messages[..n] == messages;
    } else {
      assert messages[..n + 1][..n] == messages[..n];
      SettlingFails(messages, n + 1);
    }
  }

  /** A response while it is assembled. */
  class Response {
    var messages: seq<Msg>
    var usage: Option<UsageDetails>
    var latest: Option<UsageDetails>
    var seen: set<nat>

    ghost function View(): State
      reads this
    {
      State(messages, usage, latest, seen)
    }

    constructor ()
      ensures View() == EMPTY
    {
      messages, usage, latest, seen := [], None, None, {};
    }

    /** `_process_update`; false where it raises. */
    method ProcessUpdate(u: Update) returns (ok: bool)
      modifies this
      ensures ok <==> Step(old(View()), u).Some?
      ensures ok ==> View() == Step(old(View()), u).value
    {
      hide Land, Addressed, AddUsage, Normalized;
      if Ignored(u) {
        return true;
      }
      var opens := Opens(messages, u);
      var message := Addressed(if opens then FRESH_MESSAGE else messages[|messages| - 1], u);
      var skipped := false;
      ghost var start := Start(View(), u);
      for i := 0 to |u.fragments|
        invariant messages == old(messages)
        invariant message == Addressee(messages, u).(contents := message.contents)
        invariant AbsorbAll(start, u.fragments[..i]) == Some(Pass(message.contents, usage, latest, seen, skipped))
      {
        assert u.fragments[..i + 1][..i] == u.fragments[..i];
        var f := u.fragments[i];
        if f.content.Usage? {
          usage := Some(AddUsage(UsageOr(usage), f.content.details));
          latest := Some(Normalized(UsageOr(latest), UsageOr(f.content.details)));
        } else if f.id in seen {
          skipped := true;
        } else {
          seen := seen + {f.id};
          var landed := Land(message.contents, f.content);
          if landed.None? {
            AbsorbFails(start, u.fragments, i + 1);
            return false;
          }
          message := message.(contents := landed.value);
        }
      }
      assert u.fragments[..|u.fragments|] == u.fragments;
      if !opens {
        messages := messages[|messages| - 1 := message];
      } else if !(skipped && message.contents == []) {
        messages := messages + [message];
      }
      return true;
    }

    /** `_finalize_response`; false where it raises. */
    method Finalize() returns (ok: bool)
      modifies this
      ensures ok <==> Finalized(old(View())).Some?
      ensures ok ==> Final(messages, usage) == Finalized(old(View())).value
    {
      hide Settled;
      if latest.Some? {
        usage := latest;
      }
      ghost var before := messages;
      for i := 0 to |messages|
        invariant |messages| == |before| && messages[i..] == before[i..]
        invariant SettledAll(before[..i]) == Some(messages[..i])
        invariant usage == if old(latest).Some? then old(latest) else old(usage)
      {
        assert messages[i] == messages[i..][0] == before[i..][0] == before[i];
        var settled := SettleMessage(messages[i]);
        SettlingSteps(before, i);
        if settled.None? {
          SettlingFails(before, i + 1);
          return false;
        }
        ghost var done, rest := messages[..i], messages[i..];
        messages := messages[i := settled.value];
        assert messages[..i + 1] == done + [settled.value];
        assert messages[i + 1..] == rest[1..] == before[i + 1..];
      }
      assert before[..|before|] == before && messages[..|messages|] == messages;
      return true;
    }
  }

  lemma SettlingSteps(messages: seq<Msg>, n: nat)
    requires n < |messages|
    ensures SettledAll(messages[..n + 1])
         == var before, last := SettledAll(messages[..n]), Settled(messages[n]);
            if before.None? || last.None? then None else Some(before.value + [last.value])
  {
    hide Settled;
    assert messages[..n + 1][..n] == messages[..n];
  }

  method SettleMessage(message: Msg) returns (settled: Option<Msg>)
    ensures settled == Settled(message)
  {
    hide Coalesced;
    var texts := CoalesceTextContent(message.contents, false);
    if texts.None? {
      return None;
    }
    var all := CoalesceTextContent(texts.value, true);
    return if all.None? then None else Some(message.(contents := all.value));
  }

  /** `from_updates`. */
  method FromUpdates(updates: seq<Update>) returns (final: Option<Final>)
    ensures final == Assembled(updates)
  {
    var response := new Response();
    for i := 0 to |updates|
      invariant Run(EMPTY, updates[..i]) == Some(response.View())
    {
      assert updates[..i + 1][..i] == updates[..i];
      var ok := response.ProcessUpdate(updates[i]);
      if !ok {
        RunFails(EMPTY, updates, i + 1);
        return None;
      }
    }
    assert updates[..|updates|] == updates;
    var ok := response.Finalize();
    return if ok then Some(Final(response.messages, response.usage)) else None;
  }
}
