/** The web layer: the per-user session and the handlers that read and
    update it. The chat handler appends the user message, runs the agent
    adapter, records a new reservation at most once, scrubs the sentinel out
    of the reply, appends the cleaned reply and writes the tool context back. */
module App {
  import opened Wrappers
  import opened JsonValues
  import opened Messages
  import opened AgentAdapter
  import Sentinel

  /** A reservation record as parsed from the reservation JSON; `id` is its
      `reservation_id`. */
  datatype Reservation = Reservation(id: string, fields: seq<(string, Json)>)

  /** The JSON body and status of a chat response. */
  datatype ChatResponse =
    | ChatReply(message: string, reservations: seq<Reservation>)
    | ChatError(status: nat, error: string)

  const AgentNotInitialized: string := "Agent not initialized. Please check your configuration."
  const EmptyMessage: string := "Empty message"

  // ---------------------------------------------------------------------------
  // The user message
  // ---------------------------------------------------------------------------

  /** The characters Python's `str.isspace` accepts. */
  predicate IsSpace(c: char) {
    || c == ' ' || c == '\t' || c == '\n' || c == '\r' || c == '\U{0B}' || c == '\U{0C}'
    || ('\U{1C}' <= c <= '\U{1F}') || c == '\U{85}' || c == '\U{A0}' || c == '\U{1680}'
    || ('\U{2000}' <= c <= '\U{200A}') || c == '\U{2028}' || c == '\U{2029}'
    || c == '\U{202F}' || c == '\U{205F}' || c == '\U{3000}'
  }

  /** Every character of `t` is whitespace. */
  predicate AllSpace(t: string) {
    forall k :: 0 <= k < |t| ==> IsSpace(t[k])
  }

  /** `s.lstrip()`: `s` without its leading whitespace. */
  function LStrip(s: string): (r: string)
    ensures |r| <= |s| && r == s[|s| - |r|..] && AllSpace(s[..|s| - |r|])
    ensures r != [] ==> !IsSpace(r[0])
  {
    if s != [] && IsSpace(s[0]) then
      var r := LStrip(s[1..]);
      LeadLayout(s, r);
      r
    else s
  }

  /** One step of `LStrip`: a whitespace character in front of a stripped
      tail joins the stripped prefix. */
  lemma LeadLayout(s: string, r: string)
    requires s != [] && IsSpace(s[0])
    requires |r| <= |s| - 1 && r == s[1..][|s| - 1 - |r|..] && AllSpace(s[1..][..|s| - 1 - |r|])
    ensures r == s[|s| - |r|..] && AllSpace(s[..|s| - |r|])
  {
    assert s[..|s| - |r|] == [s[0]] + s[1..][..|s| - 1 - |r|];
  }

  /** `s.rstrip()`: `s` without its trailing whitespace. */
  function RStrip(s: string): (r: string)
    ensures |r| <= |s| && r == s[..|r|] && AllSpace(s[|r|..])
    ensures r != [] ==> !IsSpace(r[|r| - 1])
  {
    if s != [] && IsSpace(s[|s| - 1]) then
      var r := RStrip(s[..|s| - 1]);
      TrailLayout(s, r);
      r
    else s
  }

  /** One step of `RStrip`: a whitespace character behind a stripped front
      joins the stripped suffix. */
  lemma TrailLayout(s: string, r: string)
    requires s != [] && IsSpace(s[|s| - 1])
    requires |r| <= |s| - 1 && r == s[..|s| - 1][..|r|] && AllSpace(s[..|s| - 1][|r|..])
    ensures r == s[..|r|] && AllSpace(s[|r|..])
  {
    assert s[|r|..] == s[..|s| - 1][|r|..] + [s[|s| - 1]];
  }

  /** `s.strip()`: `s` without its leading and trailing whitespace. */
  function Strip(s: string): (r: string)
    ensures |r| <= |s|
  {
    RStrip(LStrip(s))
  }

  /** The stripped message is what remains of `s` between a whitespace
      prefix and a whitespace suffix. */
  lemma StripSpec(s: string)
    ensures exists pre, post :: s == pre + Strip(s) + post && AllSpace(pre) && AllSpace(post)
  {
    var l := LStrip(s);
    Trisect(s, l, RStrip(l));
  }

  /** A non-empty stripped message starts and ends with a non-space
      character, so stripping removes all of the surrounding whitespace. */
  lemma StripEnds(s: string)
    ensures Strip(s) != [] ==> !IsSpace(Strip(s)[0]) && !IsSpace(Strip(s)[|Strip(s)| - 1])
  {
    var l := LStrip(s);
    var r := RStrip(l);
    if r != [] {
      assert r[0] == l[0];
    }
  }

  /** Splitting `s` around a suffix `l` with a whitespace prefix before it,
      and a prefix `r` of that suffix with whitespace after it. */
  lemma Trisect(s: string, l: string, r: string)
    requires |l| <= |s| && l == s[|s| - |l|..] && AllSpace(s[..|s| - |l|])
    requires |r| <= |l| && r == l[..|r|] && AllSpace(l[|r|..])
    ensures exists pre, post :: s == pre + r + post && AllSpace(pre) && AllSpace(post)
  {
    assert l == r + l[|r|..];
    assert s == s[..|s| - |l|] + r + l[|r|..];
  }

  /** A message strips to nothing exactly when it is all whitespace. */
  lemma StripEmpty(s: string)
    ensures Strip(s) == [] <==> AllSpace(s)
  {
    var l := LStrip(s);
    var r := RStrip(l);
    if r != [] {
      assert s[|s| - |l|] == r[0];
    }
  }

  // ---------------------------------------------------------------------------
  // The reservation ledger
  // ---------------------------------------------------------------------------

  /** `id in [r['reservation_id'] for r in reservations]` */
  predicate HasId(reservations: seq<Reservation>, id: string) {
    exists i :: 0 <= i < |reservations| && reservations[i].id == id
  }

  /** No two reservations in the list share an id. */
  ghost predicate UniqueIds(reservations: seq<Reservation>) {
    forall i, j :: 0 <= i < j < |reservations| ==> reservations[i].id != reservations[j].id
  }

  /** The reservations after one chat turn: a reservation parsed from
      non-empty reservation JSON is appended when its id is new; absent
      JSON, JSON that does not parse, and a known id leave the list as it
      was (including a list that was never created). */
  function LedgerAfter(current: Option<seq<Reservation>>, reservationJson: Option<string>,
                       decode: string -> Option<Reservation>): (next: Option<seq<Reservation>>)
    ensures reservationJson.None? || reservationJson.value == "" || decode(reservationJson.value).None? ==>
      next == current
    ensures reservationJson.Some? && reservationJson.value != "" && decode(reservationJson.value).Some? ==>
      var r := decode(reservationJson.value).value;
      && next.Some? && HasId(next.value, r.id)
      && (next == current || next == Some(current.GetOr([]) + [r]))
      && (HasId(current.GetOr([]), r.id) ==> next == current)
  {
    if reservationJson.Some? && reservationJson.value != "" then
      match decode(reservationJson.value)
      case None => current
      case Some(r) =>
        var reservations := current.GetOr([]);
        if HasId(reservations, r.id) then current
        else
          var next := reservations + [r];
          assert next[|reservations|].id == r.id;
          Some(next)
    else current
  }

  /** Ids stay unique in the ledger. */
  lemma LedgerKeepsIdsUnique(current: Option<seq<Reservation>>, reservationJson: Option<string>,
                             decode: string -> Option<Reservation>)
    requires current.Some? ==> UniqueIds(current.value)
    ensures var next := LedgerAfter(current, reservationJson, decode);
      next.Some? ==> UniqueIds(next.value)
  {
    var next := LedgerAfter(current, reservationJson, decode);
    if next != current {
      var reservations := current.GetOr([]);
      var r := decode(reservationJson.value).value;
      assert !HasId(reservations, r.id);
      assert forall i :: 0 <= i < |reservations| ==> next.value[i] == reservations[i];
    }
  }

  /** Delivering the same reservation JSON twice has the effect of
      delivering it once. */
  lemma LedgerIdempotent(current: Option<seq<Reservation>>, reservationJson: Option<string>,
                         decode: string -> Option<Reservation>)
    ensures var once := LedgerAfter(current, reservationJson, decode);
      LedgerAfter(once, reservationJson, decode) == once
  {
    var once := LedgerAfter(current, reservationJson, decode);
    if once != current {
      var r := decode(reservationJson.value).value;
      assert once.value[|once.value| - 1] == r;
    }
  }

  // ---------------------------------------------------------------------------
  // The transcript
  // ---------------------------------------------------------------------------

  /** The transcript alternates: a user record at every even position and an
      assistant record at every odd one, in whole exchanges. */
  ghost predicate Alternating(transcript: seq<Record>) {
    && |transcript| % 2 == 0
    && forall i :: 0 <= i < |transcript| ==>
         transcript[i].role == (if i % 2 == 0 then Some(UserRole) else Some(AssistantRole))
  }

  /** A chat turn appends one exchange, so the transcript keeps
      alternating. */
  lemma ExchangeKeepsAlternating(transcript: seq<Record>, user: string, reply: string)
    requires Alternating(transcript)
    ensures Alternating(transcript + [UserRecord(user)] + [AssistantRecord(reply)])
  {
    var next := transcript + [UserRecord(user)] + [AssistantRecord(reply)];
    forall i | 0 <= i < |next|
      ensures next[i].role == (if i % 2 == 0 then Some(UserRole) else Some(AssistantRole))
    {
      if i < |transcript| {
        assert next[i] == transcript[i];
      }
    }
  }

  /** In an alternating transcript the window sent to the agent after the
      user message is appended ends with that user message; once the
      transcript is trimmed, the window starts with an assistant reply whose
      question was cut off. */
  lemma WindowOfExchanges(transcript: seq<Record>, user: string)
    requires Alternating(transcript)
    ensures var w := Window(transcript + [UserRecord(user)]);
      w[|w| - 1] == UserRecord(user)
      && (|transcript| + 1 > MaxHistoryMessages ==> w[0].role == Some(AssistantRole))
  {
    var h := transcript + [UserRecord(user)];
    var w := Window(h);
    if |h| > MaxHistoryMessages {
      assert w[0] == h[|h| - MaxHistoryMessages] == transcript[|h| - MaxHistoryMessages];
    }
  }

  // ---------------------------------------------------------------------------
  // The session
  // ---------------------------------------------------------------------------

  /** The signed-cookie session of one user. A `None` field is a key the
      session does not hold yet. */
  class Session {
    var messages: Option<seq<Record>>
    var reservations: Option<seq<Reservation>>
    var toolContext: Option<ToolContext>

    /** The transcript alternates between the user and the assistant, and
      the reservation ids recorded in the session are unique. */
    ghost predicate Valid()
      reads this
    {
      && (messages.Some? ==> Alternating(messages.value))
      && (reservations.Some? ==> UniqueIds(reservations.value))
    }

    /** A new session holds no keys. */
    constructor ()
      ensures messages.None? && reservations.None? && toolContext.None?
      ensures Valid()
    {
      messages, reservations, toolContext := None, None, None;
    }

    /** `session.get('reservations', [])`, what `/reservations` returns. */
    function Reservations(): (r: seq<Reservation>)
      reads this
      ensures reservations.None? ==> r == []
      ensures Valid() ==> UniqueIds(r)
    {
      reservations.GetOr([])
    }

    /** The page handler `/`: creates each missing key empty and leaves
      existing ones alone. */
    method Index()
      modifies this
      ensures messages == if old(messages).None? then Some([]) else old(messages)
      ensures reservations == if old(reservations).None? then Some([]) else old(reservations)
      ensures toolContext == if old(toolContext).None? then Some(map[]) else old(toolContext)
      ensures old(Valid()) ==> Valid()
    {
      if messages.None? {
        messages := Some([]);
      }
      if reservations.None? {
        reservations := Some([]);
      }
      if toolContext.None? {
        toolContext := Some(map[]);
      }
    }

    /** `/reset`: the transcript, the reservations and the tool context all
      become empty. */
    method Reset()
      modifies this
      ensures messages == Some([]) && reservations == Some([]) && toolContext == Some(map[])
      ensures Valid() && Reservations() == []
    {
      messages := Some([]);
      reservations := Some([]);
      toolContext := Some(map[]);
    }

    /** The reservation step of `/chat`: a reservation parsed from the
      turn's reservation JSON is appended unless its id is already recorded. */
    method RecordReservation(reservationJson: Option<string>, decode: string -> Option<Reservation>)
      modifies this
      ensures reservations == LedgerAfter(old(reservations), reservationJson, decode)
      ensures messages == old(messages) && toolContext == old(toolContext)
      ensures old(Valid()) ==> Valid()
    {
      if Valid() {
        LedgerKeepsIdsUnique(reservations, reservationJson, decode);
      }
      if reservationJson.Some? && reservationJson.value != "" {
        var reservation := decode(reservationJson.value);
        if reservation.Some? {
          var current := reservations.GetOr([]);
          if !HasId(current, reservation.value.id) {
            reservations := Some(current + [reservation.value]);
          }
        }
      }
    }

    /** `/chat`. `agent` is `None` when the agent failed to initialise,
      `message` is the request's `message` field if present, `store` is the
      shared tool-context store, and `decode` is the JSON parser (`None` for
      text that does not parse). */
    method Chat(agent: Option<Agent>, message: Option<string>, store: Store,
                decode: string -> Option<Reservation>)
      returns (response: ChatResponse, store': Store)
      modifies this
      ensures agent.None? ==>
        response == ChatError(500, AgentNotInitialized) && unchanged(this) && store' == store
      ensures agent.Some? && Strip(message.GetOr("")) == [] ==>
        response == ChatError(400, EmptyMessage) && unchanged(this) && store' == store
      ensures agent.Some? && Strip(message.GetOr("")) != [] ==>
        var user := Strip(message.GetOr(""));
        var history := old(messages).GetOr([]) + [UserRecord(user)];
        var run := RunAgentSpec(agent.value, store, history, old(toolContext).GetOr(map[]));
        var clean := Sentinel.Scrub(run.result.output);
        && messages == Some(history + [AssistantRecord(clean)])
        && reservations == LedgerAfter(old(reservations), run.result.reservationJson, decode)
        && toolContext == Some(run.result.toolContext)
        && store' == run.store
        && response == ChatReply(clean, Reservations())
      ensures old(Valid()) ==> Valid()
    {
      if agent.None? {
        return ChatError(500, AgentNotInitialized), store;
      }
      var userMessage := Strip(message.GetOr(""));
      if userMessage == [] {
        return ChatError(400, EmptyMessage), store;
      }
      response, store' := Turn(agent.value, userMessage, store, decode);
    }

    /** The successful path of `/chat` for the stripped message `user`: the
      transcript gains the user message and the scrubbed reply and is never
      trimmed, the reservation ledger is updated, and the tool context is
      replaced by the agent's snapshot. */
    method Turn(agent: Agent, user: string, store: Store, decode: string -> Option<Reservation>)
      returns (response: ChatResponse, store': Store)
      modifies this
      ensures
        var history := old(messages).GetOr([]) + [UserRecord(user)];
        var run := RunAgentSpec(agent, store, history, old(toolContext).GetOr(map[]));
        var clean := Sentinel.Scrub(run.result.output);
        && messages == Some(history + [AssistantRecord(clean)])
        && reservations == LedgerAfter(old(reservations), run.result.reservationJson, decode)
        && toolContext == Some(run.result.toolContext)
        && store' == run.store
        && response == ChatReply(clean, Reservations())
      ensures old(Valid()) ==> Valid()
    {
      var conversationHistory := messages.GetOr([]);
      ghost var wasAlternating := Alternating(conversationHistory);
      assert Valid() ==> wasAlternating;
      var context := toolContext.GetOr(map[]);
      conversationHistory := conversationHistory + [UserRecord(user)];

      var out;
      out, store' := RunAgent(agent, store, conversationHistory, context);
      var assistantMessage := out.output;

      RecordReservation(out.reservationJson, decode);

      var cleanMessage := Sentinel.Scrub(assistantMessage);
      conversationHistory := conversationHistory + [AssistantRecord(cleanMessage)];
      if wasAlternating {
        ExchangeKeepsAlternating(old(messages).GetOr([]), user, cleanMessage);
      }
      messages := Some(conversationHistory);
      toolContext := Some(out.toolContext);
      response := ChatReply(cleanMessage, Reservations());
    }
  }
}
