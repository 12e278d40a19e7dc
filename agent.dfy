/** The agent adapter, `run_agent`: it restores the session's tool context
    into the shared tool-context store, trims the transcript to a window,
    converts the window to typed messages, invokes the external agent, and
    reads back the new messages, the reply, a snapshot of the tool context
    and any reservation JSON the reservation tool emitted. */
module AgentAdapter {
  import opened Wrappers
  import opened JsonValues
  import opened Messages
  import Sentinel

  /** The number of transcript messages sent to the agent (about six exchanges). */
  const MaxHistoryMessages: nat := 12

  /** The only tool-context slot persisted across turns. */
  const AvailabilityKey: string := "availability"

  /** The tool-context store shared by the tools. A key that is absent reads
      as `None`. */
  type Store = map<string, Json>

  /** The tool context kept in the session: a slot may hold `None`. */
  type ToolContext = map<string, Option<Json>>

  /** A slot holds a value that `value is not None` accepts. Python's `None`
      appears here both as a missing value and as JSON `null`, the form a
      `None` that a tool stored takes once it is in the store. */
  predicate Holds(v: Option<Json>) {
    v.Some? && v.value != JNull
  }

  /** What one invocation of the external agent yields: the full message list
      it returns, and the store as its tools left it. */
  datatype Invocation = Invocation(messages: seq<LcMessage>, store: Store)

  /** The external agent, an opaque function of the messages sent in and the
      store the tools see. */
  datatype Agent = Agent(invoke: (seq<LcMessage>, Store) -> Invocation)

  /** The dictionary `run_agent` returns. */
  datatype AgentOutput = AgentOutput(
    output: string,
    newMessages: seq<Record>,
    toolContext: ToolContext,
    reservationJson: Option<string>)

  /** The output of one run together with the store it leaves behind. */
  datatype AgentRun = AgentRun(result: AgentOutput, store: Store)

  // ---------------------------------------------------------------------------
  // Tool context
  // ---------------------------------------------------------------------------

  /** `get_tool_context(key)`: the stored value, or `None` for an absent key. */
  function Lookup(store: Store, key: string): (v: Option<Json>)
    ensures v.Some? <==> key in store
    ensures v.Some? ==> v.value == store[key]
  {
    if key in store then Some(store[key]) else None
  }

  /** Two stores that read the same at every key are equal. */
  lemma StoreExtensionality(a: Store, b: Store)
    requires forall k :: Lookup(a, k) == Lookup(b, k)
    ensures a == b
  {
    assert a.Keys == b.Keys by {
      forall k ensures k in a <==> k in b {
        assert Lookup(a, k).Some? == Lookup(b, k).Some?;
      }
    }
    forall k | k in a ensures a[k] == b[k] {
      assert Lookup(a, k) == Lookup(b, k);
    }
  }

  /** The store after restoring `ctx`: every slot holding a value overwrites
      the store, a slot holding `None` (missing or `null`) leaves the store as
      it was, and keys the context does not name are untouched. */
  function Restored(store: Store, ctx: ToolContext): (r: Store)
    ensures forall k :: Lookup(r, k) == if k in ctx && Holds(ctx[k]) then ctx[k] else Lookup(store, k)
  {
    map k | k in store.Keys + (set k | k in ctx && Holds(ctx[k])) ::
      if k in ctx && Holds(ctx[k]) then ctx[k].value else store[k]
  }

  /** A context whose slots all hold `None`, in either form, restores
      nothing. */
  lemma RestoreSkipsNone(store: Store, ctx: ToolContext)
    requires forall k :: k in ctx ==> ctx[k] in {None, Some(JNull)}
    ensures Restored(store, ctx) == store
  {
    forall k ensures Lookup(Restored(store, ctx), k) == Lookup(store, k) {
      if k in ctx {
        assert !Holds(ctx[k]);
      }
    }
    StoreExtensionality(Restored(store, ctx), store);
  }

  /** The part of `ctx` whose keys are outside `pending`. */
  function Done(ctx: ToolContext, pending: set<string>): ToolContext {
    map k | k in ctx && k !in pending :: ctx[k]
  }

  /** The restore loop of `run_agent`: `set_tool_context(key, value)` for
      every slot whose value is not `None`. */
  method RestoreToolContext(store: Store, ctx: ToolContext) returns (r: Store)
    ensures r == Restored(store, ctx)
  {
    r := store;
    if ctx != map[] {
      var pending := ctx.Keys;
      while pending != {}
        invariant pending <= ctx.Keys
        invariant forall k :: Lookup(r, k) == Lookup(Restored(store, Done(ctx, pending)), k)
        decreases pending
      {
        var key :| key in pending;
        ghost var before := Restored(store, Done(ctx, pending));
        ghost var after := Restored(store, Done(ctx, pending - {key}));
        if Holds(ctx[key]) {
          r := r[key := ctx[key].value];
        }
        forall k ensures Lookup(r, k) == Lookup(after, k) {
          if k != key {
            assert Lookup(after, k) == Lookup(before, k);
          }
        }
        pending := pending - {key};
      }
      assert Done(ctx, {}) == ctx;
    } else {
      assert forall k :: Lookup(r, k) == Lookup(Restored(store, ctx), k);
    }
    StoreExtensionality(r, Restored(store, ctx));
  }

  /** The snapshot `{'availability': get_tool_context('availability')}`:
      exactly one slot, read from the store. */
  function Snapshot(store: Store): (t: ToolContext)
    ensures t.Keys == {AvailabilityKey}
    ensures t[AvailabilityKey] == Lookup(store, AvailabilityKey)
  {
    map[AvailabilityKey := Lookup(store, AvailabilityKey)]
  }

  /** Restoring a snapshot and taking a new one gives the snapshot back when
      it held a value; when it held `None` (the slot was absent or `null`)
      the store's own value, possibly left there by an earlier turn, shows
      through. */
  lemma SnapshotAfterRestore(store: Store, previous: Store)
    ensures var ctx := Snapshot(previous);
      Snapshot(Restored(store, ctx)) == if Holds(Lookup(previous, AvailabilityKey)) then ctx else Snapshot(store)
  {
  }

  // ---------------------------------------------------------------------------
  // History window and role mapping
  // ---------------------------------------------------------------------------

  /** The sliding window: the last `MaxHistoryMessages` messages of the
      transcript in their original order, or all of it when it is shorter. */
  function Window(history: seq<Record>): (w: seq<Record>)
    ensures |w| == if |history| > MaxHistoryMessages then MaxHistoryMessages else |history|
    ensures forall i :: 0 <= i < |w| ==> w[i] == history[|history| - |w| + i]
  {
    if |history| > MaxHistoryMessages then history[|history| - MaxHistoryMessages..] else history
  }

  /** The typed messages built from `window`, one per record of a known role,
      in order; records of any other role are skipped. */
  function TypedMessages(window: seq<Record>): (lc: seq<LcMessage>)
    ensures |lc| <= |window|
    decreases |window|
  {
    if window == [] then []
    else
      var front := TypedMessages(window[..|window| - 1]);
      match Typed(window[|window| - 1])
      case Some(m) => front + [m]
      case None => front
  }

  /** The role-mapping loop of `run_agent`. */
  method ToTypedMessages(window: seq<Record>) returns (lc: seq<LcMessage>)
    ensures lc == TypedMessages(window)
  {
    lc := [];
    for i := 0 to |window|
      invariant lc == TypedMessages(window[..i])
    {
      assert window[..i + 1][..i] == window[..i];
      var msg := window[i];
      var role := msg.role;
      if role == Some(UserRole) {
        lc := lc + [Human(msg.content)];
      } else if role == Some(AssistantRole) {
        lc := lc + [AI(msg.content)];
      } else if role == Some(ToolRole) {
        lc := lc + [ToolMsg(msg.content, msg.name.GetOr(""), msg.toolCallId.GetOr(""))];
      }
    }
    assert window[..|window|] == window;
  }

  /** Role mapping distributes over concatenation: it keeps the order of the
      records and converts each one on its own. */
  lemma {:induction false} TypedMessagesAppend(a: seq<Record>, b: seq<Record>)
    ensures TypedMessages(a + b) == TypedMessages(a) + TypedMessages(b)
    decreases |b|
  {
    if b == [] {
      assert a + b == a;
    } else {
      var b' := b[..|b| - 1];
      assert (a + b)[..|a + b| - 1] == a + b';
      assert (a + b)[|a + b| - 1] == b[|b| - 1];
      TypedMessagesAppend(a, b');
    }
  }

  /** A record of an unknown role is dropped without a trace. */
  lemma UnknownRoleDropped(a: seq<Record>, r: Record, b: seq<Record>)
    requires !KnownRole(r.role)
    ensures TypedMessages(a + [r] + b) == TypedMessages(a + b)
  {
    TypedMessagesAppend(a + [r], b);
    TypedMessagesAppend(a, [r]);
    TypedMessagesAppend(a, b);
    assert [r][..0] == [];
  }

  /** Nothing is dropped exactly when every record has a known role, and
      then the i-th typed message comes from the i-th record. */
  lemma {:induction false} TypedMessagesKnown(window: seq<Record>)
    ensures |TypedMessages(window)| == |window| <==> forall i :: 0 <= i < |window| ==> KnownRole(window[i].role)
    ensures (forall i :: 0 <= i < |window| ==> KnownRole(window[i].role)) ==>
      forall i :: 0 <= i < |window| ==> TypedMessages(window)[i] == Typed(window[i]).value
    decreases |window|
  {
    if window != [] {
      var front := window[..|window| - 1];
      TypedMessagesKnown(front);
      assert forall i :: 0 <= i < |front| ==> front[i] == window[i];
    }
  }

  /** The messages sent to the agent on a turn end with that turn's user
      message, since the transcript it comes from ends with it. */
  lemma SentEndsWithUser(history: seq<Record>, user: string)
    ensures var sent := TypedMessages(Window(history + [UserRecord(user)]));
      |sent| > 0 && sent[|sent| - 1] == Human(user) && |sent| <= MaxHistoryMessages
  {
    var w := Window(history + [UserRecord(user)]);
    assert w[|w| - 1] == UserRecord(user);
  }

  // ---------------------------------------------------------------------------
  // Reading the response
  // ---------------------------------------------------------------------------

  /** `[_serialize_message(m) for m in ms]` */
  function SerializeAll(ms: seq<LcMessage>): (rs: seq<Record>)
    ensures |rs| == |ms|
    ensures forall i :: 0 <= i < |ms| ==> rs[i] == Serialize(ms[i])
    decreases |ms|
  {
    if ms == [] then [] else SerializeAll(ms[..|ms| - 1]) + [Serialize(ms[|ms| - 1])]
  }

  /** The messages the agent appended after the `sent` it was given,
      serialized; empty when the response is no longer than that. */
  function NewMessages(response: seq<LcMessage>, sent: nat): (rs: seq<Record>)
    ensures |rs| == if |response| > sent then |response| - sent else 0
    ensures forall i :: 0 <= i < |rs| ==> rs[i] == Serialize(response[sent + i])
  {
    if sent < |response| then SerializeAll(response[sent..]) else []
  }

  /** When the agent echoes its input and appends `added`, the new messages
      are exactly `added`, serialized. */
  lemma NewMessagesOfEcho(sent: seq<LcMessage>, added: seq<LcMessage>)
    ensures NewMessages(sent + added, |sent|) == SerializeAll(added)
  {
    assert (sent + added)[|sent|..] == added;
  }

  /** The typed messages without those of unrecognized classes. */
  function WithoutOther(ms: seq<LcMessage>): (r: seq<LcMessage>)
    ensures |r| <= |ms|
    decreases |ms|
  {
    if ms == [] then []
    else if ms[|ms| - 1].Other? then WithoutOther(ms[..|ms| - 1])
    else WithoutOther(ms[..|ms| - 1]) + [ms[|ms| - 1]]
  }

  /** Persisting messages and sending them back in on a later turn gives the
      agent the same messages, less those of unrecognized classes. */
  lemma {:induction false} TypedSerializeAll(ms: seq<LcMessage>)
    ensures TypedMessages(SerializeAll(ms)) == WithoutOther(ms)
    decreases |ms|
  {
    if ms != [] {
      var rs := SerializeAll(ms);
      assert rs[..|rs| - 1] == SerializeAll(ms[..|ms| - 1]);
      TypedSerialize(ms[|ms| - 1]);
      TypedSerializeAll(ms[..|ms| - 1]);
    }
  }

  /** A message that can be the reply: an AI message with non-empty content. */
  predicate IsReply(m: LcMessage) {
    m.AI? && m.content != ""
  }

  /** The content of the last reply anywhere in `response`, or `""`. */
  function LastReply(response: seq<LcMessage>): (out: string)
    ensures out == "" <==> forall i :: 0 <= i < |response| ==> !IsReply(response[i])
    ensures out != "" ==>
      exists k :: 0 <= k < |response| && IsReply(response[k]) && response[k].content == out
        && forall j :: k < j < |response| ==> !IsReply(response[j])
    decreases |response|
  {
    if response == [] then ""
    else if IsReply(response[|response| - 1]) then response[|response| - 1].content
    else LastReply(response[..|response| - 1])
  }

  /** The reply-selection loop of `run_agent`: scan from the end and stop at
      the first AI message with content. */
  method SelectReply(response: seq<LcMessage>) returns (output: string)
    ensures output == LastReply(response)
  {
    output := "";
    var i := |response|;
    assert response[..i] == response;
    while i > 0
      invariant 0 <= i <= |response|
      invariant output == ""
      invariant LastReply(response[..i]) == LastReply(response)
      decreases i
    {
      var msg := response[i - 1];
      assert response[..i][..i - 1] == response[..i - 1];
      if msg.AI? && msg.content != "" {
        output := msg.content;
        break;
      }
      i := i - 1;
    }
  }

  /** The reply may be stale: when the agent appends no reply of its own,
      the output is the last reply among the messages it echoed back. */
  lemma {:induction false} LastReplyStale(echoed: seq<LcMessage>, added: seq<LcMessage>)
    requires forall i :: 0 <= i < |added| ==> !IsReply(added[i])
    ensures LastReply(echoed + added) == LastReply(echoed)
    decreases |added|
  {
    if added == [] {
      assert echoed + added == echoed;
    } else {
      var added' := added[..|added| - 1];
      assert (echoed + added)[..|echoed + added| - 1] == echoed + added';
      LastReplyStale(echoed, added');
    }
  }

  /** What the extraction pattern captures from one response message: the
      reservation JSON of a tool message, and nothing from any other. */
  function Capture(m: LcMessage): (c: Option<string>)
    ensures c.Some? ==> m.ToolMsg? && Sentinel.Braced(c.value)
  {
    if m.ToolMsg? then Sentinel.Extract(m.content) else None
  }

  /** The index of the last message of `response` with a capture, or -1
      when there is none: every later message has none. */
  function LastCarrier(response: seq<LcMessage>): (k: int)
    ensures -1 <= k < |response|
    ensures k >= 0 ==> Capture(response[k]).Some?
    ensures forall j :: k < j < |response| ==> Capture(response[j]).None?
    decreases |response|
  {
    if response == [] then -1
    else if Capture(response[|response| - 1]).Some? then |response| - 1
    else
      var front := response[..|response| - 1];
      var k := LastCarrier(front);
      assert forall j :: k < j < |front| ==> front[j] == response[j];
      k
  }

  /** `reservation_json`: the capture from the last tool message that
      carries one, or `None`. */
  function LastReservationJson(response: seq<LcMessage>): (rj: Option<string>)
    ensures rj.Some? ==> Sentinel.Braced(rj.value)
  {
    var k := LastCarrier(response);
    if k < 0 then None else Capture(response[k])
  }

  /** There is no reservation JSON exactly when no message carries the
      sentinel. */
  lemma NoReservationJson(response: seq<LcMessage>)
    ensures LastReservationJson(response).None? <==> forall i :: 0 <= i < |response| ==> Capture(response[i]).None?
  {
  }

  /** Last match wins: the reservation JSON is the capture from the last tool
      message that carries one, whatever earlier ones carried. */
  lemma LastReservationJsonIsLast(response: seq<LcMessage>)
    requires LastReservationJson(response).Some?
    ensures exists k :: (0 <= k < |response| && response[k].ToolMsg?
      && Capture(response[k]) == LastReservationJson(response)
      && forall j :: k < j < |response| ==> Capture(response[j]).None?)
  {
    var k := LastCarrier(response);
    assert response[k].ToolMsg?;
  }

  /** The extraction loop of `run_agent`: every tool message is searched and
      a later match overwrites an earlier one. */
  method ExtractReservationJson(response: seq<LcMessage>) returns (rj: Option<string>)
    ensures rj == LastReservationJson(response)
  {
    rj := None;
    for i := 0 to |response|
      invariant rj == LastReservationJson(response[..i])
    {
      assert response[..i + 1][..i] == response[..i];
      var msg := response[i];
      if msg.ToolMsg? {
        var found := Sentinel.Extract(msg.content);
        if found.Some? {
          rj := found;
        }
      }
    }
    assert response[..|response|] == response;
  }

  // ---------------------------------------------------------------------------
  // One run
  // ---------------------------------------------------------------------------

  /** What `run_agent` computes, as a function of the agent, the store, the
      transcript and the session's tool context. */
  function RunAgentSpec(agent: Agent, store: Store, history: seq<Record>, ctx: ToolContext): (r: AgentRun)
    ensures r.result.toolContext == Snapshot(r.store)
    ensures r.result.reservationJson.Some? ==> Sentinel.Braced(r.result.reservationJson.value)
  {
    var sent := TypedMessages(Window(history));
    var inv := agent.invoke(sent, Restored(store, ctx));
    AgentRun(
      AgentOutput(LastReply(inv.messages), NewMessages(inv.messages, |sent|), Snapshot(inv.store), LastReservationJson(inv.messages)),
      inv.store)
  }

  /** `run_agent` without its logging. */
  method RunAgent(agent: Agent, store: Store, history: seq<Record>, ctx: ToolContext)
    returns (out: AgentOutput, store': Store)
    ensures AgentRun(out, store') == RunAgentSpec(agent, store, history, ctx)
  {
    var restored := RestoreToolContext(store, ctx);
    var window := history;
    if |window| > MaxHistoryMessages {
      window := window[|window| - MaxHistoryMessages..];
    }
    var sent := ToTypedMessages(window);
    var response := agent.invoke(sent, restored);
    store' := response.store;
    var newMessages := NewMessages(response.messages, |sent|);
    var output := SelectReply(response.messages);
    var toolContext := Snapshot(store');
    var reservationJson := ExtractReservationJson(response.messages);
    out := AgentOutput(output, newMessages, toolContext, reservationJson);
  }

  /** The agent is given at most `MaxHistoryMessages` messages, and the
      snapshot it hands back holds the `availability` slot only. */
  lemma RunAgentBounds(agent: Agent, store: Store, history: seq<Record>, ctx: ToolContext)
    ensures |TypedMessages(Window(history))| <= MaxHistoryMessages
    ensures RunAgentSpec(agent, store, history, ctx).result.toolContext.Keys == {AvailabilityKey}
  {
  }
}
