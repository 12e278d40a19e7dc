# BiteBot session reconciliation, in Dafny

BiteBot is a Flask chat front end for a restaurant-booking LLM agent. The
only logic it owns is a thin layer that reconciles the per-user web session
with the external agent. This project models that layer and proves what it
does.

- `run_agent` (`src/agent.py`):
  - restores the session's tool context into the tools' shared store;
  - trims the transcript to the last 12 messages and converts the plain
    records to typed messages;
  - invokes the agent, then reads back the serialized new messages, the
    reply, a snapshot of the `availability` slot, and any reservation JSON
    that the reservation tool left behind its
    `IMPORTANT: This reservation data includes: {...}` sentinel.
- The `/chat` handler (`app.py`):
  - rejects an uninitialised agent and an empty message;
  - appends the stripped user message to the transcript, then runs the
    agent;
  - records the reservation unless its id is already known;
  - scrubs the sentinel out of the reply, appends the cleaned reply, and
    writes the new tool context back;
  - `/` creates the missing session keys and `/reset` empties all three.

Files:

- `wrappers.dfy`: `Option`.
- `json.dfy`: JSON values, which stand for the opaque tool-context and
  reservation values.
- `messages.dfy`: the plain session record and the typed framework message.
  It contains `_serialize_message` and the one-record role mapping, with the
  round trips between them.
- `sentinel.dfy`: the two regular expressions that handle the sentinel,
  written out by hand.
  - Extraction is a greedy `({.*})` search: the leftmost match, captured up
    to the last `}` on its line.
  - Scrubbing is `re.sub` of the lazy `\n*...{.*?}\n*`, scanning left to
    right.
    Its lemmas are proved for any prefix text that, like the sentinel,
    starts with its only `I` and holds no newline, and are then applied
    to the sentinel.
- `agent.dfy`: `run_agent`. It has a method for each of its loops (restore,
  role mapping, reverse reply scan, reservation scan), and each is proved
  equal to a specification function. `RunAgent` composes them and is proved
  equal to `RunAgentSpec`.
- `app.dfy`: `str.strip`, the reservation ledger, and the session as a class
  whose `Index`, `Reset` and `Chat` methods update its fields. The class
  keeps two invariants: the transcript alternates user / assistant, and
  reservation ids are unique.

The external pieces are parameters:

- The agent is `Agent(invoke)`, an uninterpreted function. It takes the
  messages sent and the tool store, and returns the message list together
  with the store as the tools left it.
- The tool store behind `set_tool_context`/`get_tool_context` is a
  `map<string, Json>`. It is threaded through `RunAgent` and `Chat` by
  value. An absent key reads as `None`. Python's `None` inside a tool
  context is either a missing value or JSON `null`, and the restore skips
  both (`Holds`).
- `json.loads` of the reservation JSON is a parameter `decode`, where `None`
  stands for `JSONDecodeError`.

### Where the code and its design description differ (the model follows the code)

- **Unknown roles.** The design says a record with an unknown role makes the
  turn fail. The code skips such a record silently (`UnknownRoleDropped`).
- **Which reservation JSON is kept.** The design says the first sentinel
  match wins. The extraction loop has no `break`, so the last matching tool
  message wins (`LastReservationJsonIsLast`).
- **Scrubbing is not idempotent.** The design says it is. Removing one span
  can splice the text on either side into a new sentinel
  (`ScrubNotIdempotent`). Only the unmentioned case holds
  (`ScrubUnmentioned`).
- **Empty reply.** The design says the caller substitutes a fallback message
  for an empty reply. `run_agent` always returns an `output` key, so the
  fallback in `response.get('output', ...)` is never used. An empty reply is
  stored and returned as `""`.
- **Order of the guards.** The agent check comes before the empty-message
  check, so an empty message with no agent gets the 500 response.

The greedy and lazy patterns differ on nested JSON. For a sentinel that
carries a nested object, extraction captures the whole object, but scrubbing
stops at the first `}` and leaves the outer closing brace in the reply
(`ScrubNestedLeavesBrace`).

## Model

| member | source | states |
|---|---|---|
| Messages.Serialize | src/agent.py:120-139 | a Human message becomes a user record, an AI message an assistant record, and a Tool message a tool record with its name and call id, each with its content and exactly the keys of its role; any other class gets the role `unknown` and its printed form |
| Messages.Typed | src/agent.py:173-183 | user, assistant and tool records become Human, AI and Tool messages with their content; a missing `name` or `tool_call_id` becomes `""`; a record of any other role yields nothing |
| Messages.TypedSerialize | src/agent.py:120-183 | serializing a message and converting it back gives the message again, and drops a message of an unrecognized class |
| Messages.SerializeTyped | src/agent.py:120-183 | a user, assistant or tool record with exactly the keys the serializer emits survives conversion and re-serialization unchanged |
| AgentAdapter.Lookup | src/agent.py:216 | `get_tool_context(key)` reads the stored value, and `None` exactly when the key is absent |
| AgentAdapter.Restored | src/agent.py:154-157 | after restoring, a key whose context slot holds a value other than `None` reads that value; a slot holding `None`, missing or JSON `null`, and a key the context does not name leave the store's value |
| AgentAdapter.RestoreToolContext | src/agent.py:154-157 | the restore loop, over the context's keys in any order, yields exactly `Restored(store, ctx)` |
| AgentAdapter.RestoreSkipsNone | src/agent.py:155-157 | a context whose slots all hold `None`, missing or JSON `null`, leaves the store as it was |
| AgentAdapter.Snapshot | src/agent.py:215-217 | the snapshot has exactly the key `availability`, holding the store's value or `None` |
| AgentAdapter.SnapshotAfterRestore | src/agent.py:154-217 | restoring a snapshot and taking a new one gives it back when it held a value other than `None`; a `None` slot, missing or JSON `null`, lets the store's older value show through |
| AgentAdapter.Window | src/agent.py:166-169 | the window has length min(\|history\|, 12) and is the history's suffix in original order |
| AgentAdapter.TypedMessages | src/agent.py:171-183 | the typed messages built from the window are never more than its records |
| AgentAdapter.ToTypedMessages | src/agent.py:171-183 | the role-mapping loop yields `TypedMessages(window)`, which is never longer than the window |
| AgentAdapter.TypedMessagesAppend | src/agent.py:171-183 | role mapping preserves order: it distributes over concatenation |
| AgentAdapter.UnknownRoleDropped | src/agent.py:172-183 | a record with an unknown role is dropped without affecting anything around it |
| AgentAdapter.TypedMessagesKnown | src/agent.py:171-183 | nothing is dropped iff every role is known, and then the i-th typed message is the conversion of the i-th record |
| AgentAdapter.SentEndsWithUser | src/agent.py:166-183 | the messages sent on a turn are at most 12 and end with that turn's user message |
| AgentAdapter.SerializeAll | src/agent.py:203 | element-wise serialization of a message list, same length |
| AgentAdapter.NewMessages | src/agent.py:200-203 | the new messages are the response after index `len(lc_messages)`, serialized element-wise, and empty when the response is no longer than that |
| AgentAdapter.NewMessagesOfEcho | src/agent.py:198-203 | when the agent echoes its input and appends `added`, the new messages are exactly `added`, serialized |
| AgentAdapter.TypedSerializeAll | src/agent.py:171-203 | persisting messages and sending them back in gives the agent the same messages, less those of unrecognized classes |
| AgentAdapter.LastReply | src/agent.py:206-210 | the output is `""` iff no AI message has content; otherwise it is the content of the last AI message with content |
| AgentAdapter.SelectReply | src/agent.py:206-210 | the reverse scan with `break` yields `LastReply(response)` |
| AgentAdapter.LastReplyStale | src/agent.py:207-210 | when the agent appends no reply, the output is the last reply among the echoed messages |
| AgentAdapter.Capture | src/agent.py:223-227 | only a tool message can yield reservation JSON, and what it yields starts with `{`, ends with `}` and holds no newline |
| AgentAdapter.LastCarrier | src/agent.py:222-227 | the index of the last message that yields a capture, with none after it, or -1 |
| AgentAdapter.LastReservationJson | src/agent.py:222-227 | the reservation JSON, when there is one, starts with `{`, ends with `}` and holds no newline |
| AgentAdapter.NoReservationJson | src/agent.py:222-227 | the reservation JSON is `None` iff no message yields a capture |
| AgentAdapter.LastReservationJsonIsLast | src/agent.py:222-227 | the reservation JSON is the capture from the last tool message that carries one |
| AgentAdapter.ExtractReservationJson | src/agent.py:222-227 | the forward loop that overwrites on every match yields `LastReservationJson(response)` |
| AgentAdapter.RunAgentSpec | src/agent.py:142-234 | the tool context `run_agent` returns is the snapshot of the store the run leaves, and its reservation JSON, when present, is braced and on one line |
| AgentAdapter.RunAgent | src/agent.py:142-234 | `run_agent` yields the output, new messages, snapshot, reservation JSON and store of `RunAgentSpec`, the composition of the proved pieces |
| AgentAdapter.RunAgentBounds | src/agent.py:166-217 | the message list sent to the LLM holds at most 12 messages, and the returned tool context holds the `availability` slot only |
| Sentinel.CaptureAtSpec | src/agent.py:225 | the extraction pattern matches at `i` iff the prefix and a `{` with a `}` later on its line follow, and the capture runs from that `{` to the last `}` of the line |
| Sentinel.SearchFromNone | src/agent.py:225 | the search from `i` finds nothing iff the pattern matches at no position from `i` on |
| Sentinel.SearchFromLeftmost | src/agent.py:225 | a search that finds something returns the capture at the leftmost matching position |
| Sentinel.Extract | src/agent.py:225 | a capture of the extraction pattern starts with `{`, ends with `}` and holds no newline |
| Sentinel.ExtractSpec | src/agent.py:225 | `re.search` of the extraction pattern: no match iff no position matches, else the leftmost position's capture |
| Sentinel.ExtractUnmentioned | src/agent.py:225 | text without the sentinel prefix yields no reservation JSON |
| Sentinel.SpanAt | app.py:86 | a scrub match at the start of the text is non-empty, no longer than the text, and has the prefix after its leading newlines |
| Sentinel.Scrub | app.py:86 | the scrubbed reply is never longer than the reply; what it removes and keeps is stated by the lemmas below |
| Sentinel.ScrubUnmentioned | app.py:86 | a reply without the sentinel prefix passes through scrubbing unchanged |
| Sentinel.SpanMatches | app.py:86 | for any prefix text shaped like the sentinel's (its one `I` first, no newline), the lazy pattern matches a whole span of newlines, prefix, one-line `{body}` without `}`, and newlines, when no further newline follows |
| Sentinel.ScrubAppend | app.py:86 | for such a prefix text, text in front that does not contain it and does not end in a newline is kept as it is when what follows starts with a newline or `I` |
| Sentinel.ScrubRemovesSpan | app.py:86 | a sentinel span of newlines, prefix, `{body}` and newlines is removed from the reply, and the text before it is kept |
| Sentinel.ScrubNotIdempotent | app.py:86 | a reply whose scrub splices a new sentinel together: scrubbing twice differs from scrubbing once |
| Sentinel.ScrubNestedLeavesBrace | app.py:86 | a sentinel carrying a nested object leaves its outer `}` in the reply |
| App.LStrip | app.py:53 | the result is a suffix of the input, everything before it is whitespace, and it does not start with whitespace |
| App.RStrip | app.py:53 | the result is a prefix of the input, everything after it is whitespace, and it does not end with whitespace |
| App.Strip | app.py:53 | `str.strip` is `RStrip` after `LStrip` and never lengthens the message; its meaning is stated by `StripSpec`, `StripEnds` and `StripEmpty` |
| App.StripSpec | app.py:53 | the stripped message is the input between a whitespace prefix and a whitespace suffix |
| App.StripEnds | app.py:53 | a non-empty stripped message starts and ends with a non-space character |
| App.StripEmpty | app.py:53-56 | a message strips to empty, and is rejected, iff it is all whitespace |
| App.LedgerAfter | app.py:73-83 | absent, empty or unparsable reservation JSON leaves the list unchanged; a parsed reservation is in the list afterwards, appended only when its id was new |
| App.LedgerKeepsIdsUnique | app.py:77-81 | reservation ids stay unique |
| App.LedgerIdempotent | app.py:77-81 | delivering the same reservation JSON twice equals delivering it once |
| App.ExchangeKeepsAlternating | app.py:63-96 | appending the user record and then the assistant record keeps the transcript alternating |
| App.WindowOfExchanges | src/agent.py:166-169 | for an alternating transcript the window ends with the new user message and, once trimmed, starts with an assistant reply |
| App.Session.constructor | app.py:33-38 | a new session holds none of the three keys |
| App.Session.Index | app.py:33-38 | each missing key is created empty; existing keys are left alone |
| App.Session.Reset | app.py:117-121 | transcript, reservations and tool context all become empty |
| App.Session.Reservations | app.py:128-130 | `session.get('reservations', [])`: empty when the key is missing, and free of duplicate ids while the session invariant holds |
| App.Session.RecordReservation | app.py:72-83 | the reservation list becomes `LedgerAfter` of the old one; transcript and tool context unchanged |
| App.Session.Chat | app.py:44-106 | no agent: 500 and nothing changes; blank message: 400 and nothing changes; otherwise the transcript is the old one plus the stripped user message and the scrubbed reply, untrimmed, the ledger is updated, the tool context is replaced by the snapshot, and the invariants are kept |
| App.Session.Turn | app.py:59-101 | a successful turn: the transcript gains the user message and the scrubbed reply, the ledger is updated from the run's reservation JSON, the tool context becomes the snapshot, and the invariants are kept |

## Left out

- Agent construction, the model, the system prompt and the tool list
  (`create_bitebot_agent`): configuration of external objects. A failed
  initialisation is the `agent: None` argument of `Chat`.
- The agent call itself: it is the `invoke` parameter. A call that raises is
  not modelled.
- Logging, Flask routing, JSON and template rendering, `/health`,
  `/reservations` beyond `Session.Reservations`, and the secret-key and port
  set-up: I/O and framework glue.
- `src/tools` is not part of this model. `set_conversation_context` has no
  effect in the model. In `run_agent` it hands the tools the whole untrimmed
  transcript, but the model's `invoke` sees only the window and the store,
  so a reply that depends on messages outside the window is not captured. The store behind `set_tool_context`/`get_tool_context`
  is assumed to be a plain dictionary whose `get` returns `None` for an
  absent key.
- The exception path of `/chat` (the 500 response with the exception text).
  Requests it covers are not modelled:
  - a body that is not a JSON object;
  - a `message` that is not a string;
  - reservation JSON without a `reservation_id` key, or that is not an
    object.
  Whether the in-place append to the session list persists on that path
  depends on Flask's cookie-session change tracking.
- `App.Session.Chat`: `decode` always yields a reservation with an id, so a
  `KeyError` on `reservation['reservation_id']` is not modelled.
- Message contents are strings. Multimodal list contents and the printing
  of a non-string content by `str(msg.content)` are not modelled.
- Tool-call metadata on AI messages is not carried, because
  `_serialize_message` drops it anyway.
- `new_messages` is computed and proved but not used by `/chat`, which
  persists only the final reply.
- Concurrent requests on one session (last write wins) are not modelled:
  each handler call is one atomic method call.
- General regular-expression semantics: only the two patterns used are
  written out.
