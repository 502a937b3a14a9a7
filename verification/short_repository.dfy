/** The paginating chat-memory repository: conversation ids of the form
    `actor:session` (or a bare actor with a configured default session),
    reads that follow the store's cursor up to an optional total-events cap,
    a batch save as one event, and a single-page delete sweep. Every SDK
    failure is wrapped in a memory-access error; validation, id parsing and
    role-mapping errors are not. */
module ShortRepository {
  import opened Wrappers
  import opened JavaStrings
  import opened Store
  import opened RoleMapping

  const Separator: char := ':'
  const MemoryIdMessage: string := "MemoryId cannot be null or empty"
  const ConversationIdMessage: string := "ConversationId cannot be null or empty"
  const FetchFailedMessage: string := "Failed to fetch events"

  function SaveFailedMessage(conversationId: string): string {
    "Failed to save messages for conversation: " + conversationId
  }

  function DeleteFailedMessage(conversationId: string): string {
    "Failed to delete conversation: " + conversationId
  }

  function UnsupportedRole(r: Role): string {
    "Unsupported role: " + RoleName(r)
  }

  function UnsupportedType(m: Message): string {
    "Unsupported message type: " + SimpleName(m)
  }

  datatype Repository = Repository(
    memoryId: string,
    totalEventsLimit: Option<int>,
    defaultSession: string,
    pageSize: int,
    ignoreUnknownRoles: bool)

  /** The constructor: rejects a null or blank memory id and keeps every
      argument otherwise unchanged (the memory id is not trimmed). */
  function NewRepository(memoryId: Option<string>, totalEventsLimit: Option<int>, defaultSession: string,
                         pageSize: int, ignoreUnknownRoles: bool): (r: Result<Repository>)
    ensures r.Failure? <==> memoryId.None? || forall i :: 0 <= i < |memoryId.value| ==> Trimmable(memoryId.value[i])
    ensures r.Failure? ==> r.error == IllegalArgument(MemoryIdMessage)
    ensures r.Success? ==>
      && r.value.memoryId == memoryId.value
      && r.value.totalEventsLimit == totalEventsLimit
      && r.value.defaultSession == defaultSession
      && r.value.pageSize == pageSize
      && r.value.ignoreUnknownRoles == ignoreUnknownRoles
  {
    if memoryId.None? then Failure(IllegalArgument(MemoryIdMessage))
    else
      BlankIffAllTrimmable(memoryId.value);
      if IsBlank(memoryId.value) then Failure(IllegalArgument(MemoryIdMessage))
      else Success(Repository(memoryId.value, totalEventsLimit, defaultSession, pageSize, ignoreUnknownRoles))
  }

  /** Accepts exactly the non-null ids that have a character above U+0020. */
  function ValidateConversationId(conversationId: Option<string>): (r: Result<string>)
    ensures r.Failure? <==>
      conversationId.None? || forall i :: 0 <= i < |conversationId.value| ==> Trimmable(conversationId.value[i])
    ensures r.Failure? ==> r.error == IllegalArgument(ConversationIdMessage)
    ensures r.Success? ==> r.value == conversationId.value
  {
    if conversationId.None? then Failure(IllegalArgument(ConversationIdMessage))
    else
      BlankIffAllTrimmable(conversationId.value);
      if IsBlank(conversationId.value) then Failure(IllegalArgument(ConversationIdMessage))
      else Success(conversationId.value)
  }

  /** `actorAndSession`: an id with a ':' is split Java-style and its first
      two pieces are taken; an id without one is the actor of the default
      session. */
  function ParseConversationId(repo: Repository, conversationId: string): (r: Result<ActorAndSession>)
    ensures Separator !in conversationId ==> r == Success(ActorAndSession(conversationId, repo.defaultSession))
    ensures r.Failure? ==> r.error == IndexOutOfBounds(0) || r.error == IndexOutOfBounds(1)
  {
    if Separator in conversationId then PairOf(Split(conversationId, Separator))
    else Success(ActorAndSession(conversationId, repo.defaultSession))
  }

  /** The actor is the text before the first ':' and the session the text
      between the first and the second ':'. Parsing fails with an index error
      when nothing but ':' follows the first ':' (index 1), or when the id is
      nothing but ':' (index 0). */
  lemma ParseCharacterised(repo: Repository, conversationId: string)
    ensures Separator !in conversationId ==>
      ParseConversationId(repo, conversationId) == Success(ActorAndSession(conversationId, repo.defaultSession))
    ensures Separator in conversationId ==>
      var rest := After(conversationId, Separator);
      && (HasContent(rest, Separator) ==>
            ParseConversationId(repo, conversationId)
              == Success(ActorAndSession(Before(conversationId, Separator), Before(rest, Separator))))
      && (!HasContent(rest, Separator) ==>
            ParseConversationId(repo, conversationId)
              == Failure(IndexOutOfBounds(if HasContent(conversationId, Separator) then 1 else 0)))
  {
    if Separator in conversationId {
      SplitFirstTwo(conversationId, Separator);
    }
  }

  /** An id built as actor, ':' and a non-empty session, neither containing
      ':', parses back to that actor and session. */
  lemma ParseJoined(repo: Repository, actor: string, session: string)
    requires Separator !in actor && Separator !in session && session != ""
    ensures ParseConversationId(repo, actor + [Separator] + session) == Success(ActorAndSession(actor, session))
  {
    SplitJoinedPair(actor, session, Separator);
  }

  /** The unit-test cases: an id with one ':' and an id without one. */
  lemma ParseUnitTestCases(repo: Repository)
    ensures ParseConversationId(repo, "actor123:session456") == Success(ActorAndSession("actor123", "session456"))
    ensures ParseConversationId(repo, "actor123") == Success(ActorAndSession("actor123", repo.defaultSession))
  {
    assert Separator !in "actor123" by {
      assert forall i :: 0 <= i < |"actor123"| ==> "actor123"[i] != Separator;
    }
    assert Separator !in "session456" by {
      assert forall i :: 0 <= i < |"session456"| ==> "session456"[i] != Separator;
    }
    ParseJoined(repo, "actor123", "session456");
    assert "actor123:session456" == "actor123" + [Separator] + "session456";
  }

  /** A third piece is ignored: "a:b:c" is actor "a" of session "b". */
  lemma ParseThreePieces(repo: Repository)
    ensures ParseConversationId(repo, "a:b:c") == Success(ActorAndSession("a", "b"))
  {
    var parts := ["a", "b", "c"];
    assert Join(parts[2..], Separator) == "c";
    assert Join(parts[1..], Separator) == "b:c";
    assert Join(parts, Separator) == "a:b:c";
    PiecesOfJoin(parts, Separator);
    assert "a:b:c"[1] == Separator;
    assert Split("a:b:c", Separator) == parts;
  }

  /** A trailing ':' leaves one piece, so reading the session fails. */
  lemma ParseTrailingSeparator(repo: Repository)
    ensures ParseConversationId(repo, "a:") == Failure(IndexOutOfBounds(1))
  {
    ParseCharacterised(repo, "a:");
    assert IndexOf("a:", Separator) == 1;
    assert After("a:", Separator) == "";
    assert "a:"[0] != Separator;
  }

  /** An id that is a lone ':' leaves no piece, so reading the actor fails. */
  lemma ParseLoneSeparator(repo: Repository)
    ensures ParseConversationId(repo, ":") == Failure(IndexOutOfBounds(0))
  {
    ParseCharacterised(repo, ":");
    assert ":"[0] == Separator;
  }

  /** An id in the '/' style is, under ':' parsing, all actor of the default
      session. */
  lemma ParseSlashStyleId(repo: Repository)
    ensures ParseConversationId(repo, "testActorId/testSessionId")
         == Success(ActorAndSession("testActorId/testSessionId", repo.defaultSession))
  {
    assert forall i :: 0 <= i < |"testActorId/testSessionId"| ==> "testActorId/testSessionId"[i] != Separator;
  }

  /** The maxResults of every read request: the page size, lowered to the
      total-events limit when one is set. */
  function RequestPageSize(repo: Repository): (n: int)
    ensures repo.totalEventsLimit.None? ==> n == repo.pageSize
    ensures repo.totalEventsLimit.Some? ==>
      n <= repo.pageSize && n <= repo.totalEventsLimit.value && (n == repo.pageSize || n == repo.totalEventsLimit.value)
  {
    if repo.totalEventsLimit.Some? && repo.totalEventsLimit.value < repo.pageSize then repo.totalEventsLimit.value
    else repo.pageSize
  }

  /** The page-size table of the unit test, for a page size of 100. */
  lemma PageSizeTable(repo: Repository)
    requires repo.pageSize == 100
    ensures repo.totalEventsLimit == None ==> RequestPageSize(repo) == 100
    ensures repo.totalEventsLimit == Some(200) ==> RequestPageSize(repo) == 100
    ensures repo.totalEventsLimit == Some(50) ==> RequestPageSize(repo) == 50
    ensures repo.totalEventsLimit == Some(100) ==> RequestPageSize(repo) == 100
    ensures repo.totalEventsLimit == Some(1) ==> RequestPageSize(repo) == 1
  {
  }

  /** The read request for the given cursor. */
  function ReadRequest(repo: Repository, who: ActorAndSession, token: Option<string>): ListRequest {
    ListRequest(repo.memoryId, who.actor, who.session, true, RequestPageSize(repo), token)
  }

  /** A limit is set and `count` events have reached it. */
  predicate LimitReached(limit: Option<int>, count: int) {
    limit.Some? && count >= limit.value
  }

  /** `events.size() <= limit ? events : events.subList(0, limit)`, and the
      events unchanged when no limit is set. A negative limit makes
      `subList` throw. */
  function CapToLimit(events: seq<Event>, limit: Option<int>): (r: Result<seq<Event>>)
    ensures r.Failure? <==> limit.Some? && limit.value < 0
    ensures r.Failure? ==> r.error == SubListRange(limit.value)
    ensures r.Success? ==> r.value <= events
    ensures r.Success? && limit.Some? ==> |r.value| == if |events| < limit.value then |events| else limit.value
    ensures limit.None? ==> r == Success(events)
  {
    if limit.None? || |events| <= limit.value then Success(events)
    else if limit.value < 0 then Failure(SubListRange(limit.value))
    else Success(events[..limit.value])
  }

  /** After the list request numbered `i`, the read goes on: the first i + 1
      replies are pages, the last carries a cursor, and the limit (if any)
      is not yet reached by the events delivered so far. */
  predicate Continues(repo: Repository, c: Client, i: nat) {
    && PagesUpTo(c, i + 1)
    && ListReplyAt(c, i).nextToken.Some?
    && !LimitReached(repo.totalEventsLimit, |Delivered(c, i + 1)|)
  }

  /** A read that issues exactly `n` list requests: each of the first n - 1
      continues the read and the last one does not. */
  predicate StopsAfter(repo: Repository, c: Client, n: nat) {
    && n >= 1
    && (forall i :: 0 <= i < n - 1 ==> Continues(repo, c, i))
    && !Continues(repo, c, n - 1)
  }

  /** The cursor carried by the list request numbered `i`: none for the
      first, the previous page's cursor for every later one. */
  function TokenBefore(c: Client, i: nat): Option<string> {
    if i == 0 || ListReplyAt(c, i - 1).ListFailed? then None else ListReplyAt(c, i - 1).nextToken
  }

  /** What a read that stops after `n` requests returns: the memory-access
      failure if the last request failed, otherwise everything delivered,
      capped to the limit. */
  function FetchOutcome(repo: Repository, c: Client, n: nat): Result<seq<Event>>
    requires n >= 1 && PagesUpTo(c, n - 1)
  {
    if ListReplyAt(c, n - 1).ListFailed? then Failure(MemoryAccess(FetchFailedMessage))
    else
      assert PagesUpTo(c, n) by {
        assert forall i :: 0 <= i < n - 1 ==> ListReplyAt(c, i).Page?;
      }
      CapToLimit(Delivered(c, n), repo.totalEventsLimit)
  }

  /** The number of list requests a read issues is determined by the store's
      replies. */
  lemma StopsAfterUnique(repo: Repository, c: Client, n: nat, m: nat)
    requires StopsAfter(repo, c, n) && StopsAfter(repo, c, m)
    ensures n == m
  {
  }

  /** `fetchAllEvents`: the do-while loop that follows the store's cursor. */
  method FetchAllEvents(repo: Repository, who: ActorAndSession, c: Client)
    returns (result: Result<seq<Event>>, calls: seq<Call>)
    ensures StopsAfter(repo, c, |calls|)
    ensures forall i :: 0 <= i < |calls| ==> calls[i] == ListEvents(ReadRequest(repo, who, TokenBefore(c, i)))
    ensures PagesUpTo(c, |calls| - 1) && result == FetchOutcome(repo, c, |calls|)
  {
    var events: seq<Event> := [];
    var token: Option<string> := None;
    calls := [];
    var size := RequestPageSize(repo);
    while true
      invariant |calls| <= |c.listReplies|
      invariant PagesUpTo(c, |calls|) && events == Delivered(c, |calls|)
      invariant forall i :: 0 <= i < |calls| ==> Continues(repo, c, i)
      invariant token == TokenBefore(c, |calls|)
      invariant forall i :: 0 <= i < |calls| ==> calls[i] == ListEvents(ReadRequest(repo, who, TokenBefore(c, i)))
      decreases |c.listReplies| - |calls|
    {
      var k := |calls|;
      calls := calls + [ListEvents(ListRequest(repo.memoryId, who.actor, who.session, true, size, token))];
      var reply := ListReplyAt(c, k);
      if reply.ListFailed? {
        result := Failure(MemoryAccess(FetchFailedMessage));
        return;
      }
      events := events + reply.events;
      token := reply.nextToken;
      if repo.totalEventsLimit.Some? && |events| >= repo.totalEventsLimit.value {
        result := CapToLimit(events, repo.totalEventsLimit);
        return;
      }
      if token.None? {
        result := Success(events);
        return;
      }
    }
  }

  /** What a finished read keeps: a prefix of everything the store
      delivered, never more events than a non-negative limit, and, with no
      limit, everything up to the page that had no cursor. */
  lemma FetchKeepsPrefix(repo: Repository, c: Client, n: nat)
    requires StopsAfter(repo, c, n)
    ensures PagesUpTo(c, n - 1)
    ensures FetchOutcome(repo, c, n).Success? ==>
      && PagesUpTo(c, n)
      && FetchOutcome(repo, c, n).value <= Delivered(c, n)
      && (repo.totalEventsLimit.Some? && repo.totalEventsLimit.value >= 0 ==>
            |FetchOutcome(repo, c, n).value| <= repo.totalEventsLimit.value)
      && (repo.totalEventsLimit.None? ==>
            FetchOutcome(repo, c, n).value == Delivered(c, n) && ListReplyAt(c, n - 1).nextToken.None?)
  {
    if n >= 2 {
      assert Continues(repo, c, n - 2);
    }
    if ListReplyAt(c, n - 1).Page? {
      assert PagesUpTo(c, n) by {
        assert forall i :: 0 <= i < n - 1 ==> ListReplyAt(c, i).Page?;
      }
    }
  }

  /** The unit test with a limit of one: a page of two events yields the
      first event only, after a single request. */
  lemma LimitOneKeepsFirstEvent(repo: Repository, c: Client, first: Event, second: Event)
    requires repo.totalEventsLimit == Some(1)
    requires |c.listReplies| >= 1 && c.listReplies[0] == Page([first, second], None)
    ensures StopsAfter(repo, c, 1)
    ensures FetchOutcome(repo, c, 1) == Success([first])
    ensures first.payloads == [Payload(User, "first message")] ==>
      ReadPayloads(FlattenPayloads([first]), repo.ignoreUnknownRoles, UnsupportedRole)
        == Success([UserMessage("first message")])
  {
    assert Delivered(c, 1) == [first, second];
    assert [first, second][..1] == [first];
    assert [first][1..] == [];
    assert FlattenPayloads([first]) == first.payloads;
    if first.payloads == [Payload(User, "first message")] {
      var ps := first.payloads;
      assert ps[1..] == [];
      assert ReadPayloads(ps[1..], repo.ignoreUnknownRoles, UnsupportedRole) == Success([]);
      assert ToMessage(ps[0]) == UserMessage("first message");
      assert [UserMessage("first message")] + [] == [UserMessage("first message")];
    }
  }

  /** The limit caps events, not messages: a single event holding two
      payloads passes a limit of one and yields two messages. */
  lemma LimitCountsEventsNotMessages(repo: Repository, c: Client, e: Event)
    requires repo.totalEventsLimit == Some(1)
    requires |c.listReplies| >= 1 && c.listReplies[0] == Page([e], None)
    requires e.payloads == [Payload(User, "a"), Payload(Assistant, "b")]
    ensures StopsAfter(repo, c, 1)
    ensures FetchOutcome(repo, c, 1) == Success([e])
    ensures ReadPayloads(FlattenPayloads([e]), repo.ignoreUnknownRoles, UnsupportedRole)
         == Success([UserMessage("a"), AssistantMessage("b")])
  {
    assert Delivered(c, 1) == [e];
    assert [e][1..] == [];
    assert FlattenPayloads([e]) == e.payloads;
    var ps := e.payloads;
    assert ps[1..] == [Payload(Assistant, "b")];
    assert ps[1..][1..] == [];
    assert ReadPayloads(ps[1..][1..], repo.ignoreUnknownRoles, UnsupportedRole) == Success([]);
    assert [AssistantMessage("b")] + [] == [AssistantMessage("b")];
    assert ReadPayloads(ps[1..], repo.ignoreUnknownRoles, UnsupportedRole) == Success([AssistantMessage("b")]);
    assert [UserMessage("a")] + [AssistantMessage("b")] == [UserMessage("a"), AssistantMessage("b")];
  }

  /** Pages are followed while they carry a cursor: two pages of one event
      each, the first with a cursor, are read with two requests, the second
      carrying that cursor, and both events are kept; the payloads read are
      the first page's followed by the second page's. */
  lemma FollowsCursor(repo: Repository, c: Client, e1: Event, e2: Event, token: string)
    requires repo.totalEventsLimit.None? || repo.totalEventsLimit.value >= 2
    requires c.listReplies == [Page([e1], Some(token)), Page([e2], None)]
    ensures StopsAfter(repo, c, 2)
    ensures TokenBefore(c, 0) == None && TokenBefore(c, 1) == Some(token)
    ensures FetchOutcome(repo, c, 2) == Success([e1, e2])
    ensures FlattenPayloads(FetchOutcome(repo, c, 2).value) == e1.payloads + e2.payloads
  {
    assert Delivered(c, 1) == [e1];
    assert Delivered(c, 2) == [e1, e2];
    assert Continues(repo, c, 0);
    FlattenAppend([e1], [e2]);
    assert [e1] + [e2] == [e1, e2];
    assert FlattenPayloads([e1]) == e1.payloads + FlattenPayloads([e1][1..]);
    assert FlattenPayloads([e2]) == e2.payloads + FlattenPayloads([e2][1..]);
  }

  /** `findConversationIds` is not supported, whatever the repository. */
  function FindConversationIds(repo: Repository): (r: Run<seq<string>>)
    ensures r.result == Failure(Unsupported) && r.calls == []
  {
    Run(Failure(Unsupported), [])
  }

  /** `findByConversationId`: validate, parse, read every page up to the
      limit, then map the payloads of the kept events in order. */
  method FindByConversationId(repo: Repository, conversationId: Option<string>, c: Client)
    returns (result: Result<seq<Message>>, calls: seq<Call>)
    ensures ValidateConversationId(conversationId).Failure? ==>
      result == Failure(IllegalArgument(ConversationIdMessage)) && calls == []
    ensures ValidateConversationId(conversationId).Success? &&
            ParseConversationId(repo, conversationId.value).Failure? ==>
      result == Failure(ParseConversationId(repo, conversationId.value).error) && calls == []
    ensures ValidateConversationId(conversationId).Success? &&
            ParseConversationId(repo, conversationId.value).Success? ==>
      var who := ParseConversationId(repo, conversationId.value).value;
      && StopsAfter(repo, c, |calls|)
      && (forall i :: 0 <= i < |calls| ==> calls[i] == ListEvents(ReadRequest(repo, who, TokenBefore(c, i))))
      && PagesUpTo(c, |calls| - 1)
      && result == match FetchOutcome(repo, c, |calls|)
                   case Failure(e) => Failure(e)
                   case Success(events) =>
                     ReadPayloads(FlattenPayloads(events), repo.ignoreUnknownRoles, UnsupportedRole)
  {
    var valid := ValidateConversationId(conversationId);
    if valid.Failure? {
      return Failure(valid.error), [];
    }
    var parsed := ParseConversationId(repo, valid.value);
    if parsed.Failure? {
      return Failure(parsed.error), [];
    }
    var fetched;
    fetched, calls := FetchAllEvents(repo, parsed.value, c);
    if fetched.Failure? {
      return Failure(fetched.error), calls;
    }
    result := ReadPayloads(FlattenPayloads(fetched.value), repo.ignoreUnknownRoles, UnsupportedRole);
  }

  /** `saveAll`: validate; send nothing for a null or empty batch; parse
      the id and map the messages, then send one createEvent carrying every
      payload, wrapping its failure. */
  function SaveAll(repo: Repository, conversationId: Option<string>, messages: Option<seq<Message>>, c: Client)
    : (r: Run<()>)
    ensures ValidateConversationId(conversationId).Failure? ==>
      r == Run(Failure(IllegalArgument(ConversationIdMessage)), [])
    ensures ValidateConversationId(conversationId).Success? && (messages.None? || messages.value == []) ==>
      r == Run(Success(()), [])
    ensures ValidateConversationId(conversationId).Success? && messages.Some? && messages.value != []
            && ParseConversationId(repo, conversationId.value).Failure? ==>
      r == Run(Failure(ParseConversationId(repo, conversationId.value).error), [])
    ensures |r.calls| <= 1 && (r.calls != [] ==> r.calls[0].CreateEvent?)
    ensures r.result.Success? && r.calls == [] ==> messages.None? || messages.value == []
    ensures r.calls != [] ==> (r.result.Success? <==> !c.createFails)
    ensures r.calls != [] && r.result.Failure? ==>
      r.result.error == MemoryAccess(SaveFailedMessage(conversationId.value))
  {
    var valid := ValidateConversationId(conversationId);
    if valid.Failure? then Run(Failure(valid.error), [])
    else if messages.None? || messages.value == [] then Run(Success(()), [])
    else
      var parsed := ParseConversationId(repo, valid.value);
      if parsed.Failure? then Run(Failure(parsed.error), [])
      else
        var payloads := WriteMessages(messages.value, repo.ignoreUnknownRoles, UnsupportedType);
        if payloads.Failure? then Run(Failure(payloads.error), [])
        else
          var request := CreateRequest(repo.memoryId, parsed.value.actor, parsed.value.session, payloads.value);
          if c.createFails then Run(Failure(MemoryAccess(SaveFailedMessage(valid.value))), [CreateEvent(request)])
          else Run(Success(()), [CreateEvent(request)])
  }

  /** A valid, parseable, non-empty batch is sent as exactly one
      createEvent when unknown types are ignored or every message is a user
      or assistant message (even if every message was skipped); and every
      request a save sends is that createEvent, naming the parsed actor and
      session and carrying the user and assistant messages in input order
      with their text unchanged. */
  lemma SaveAllSendsOneEvent(repo: Repository, conversationId: Option<string>, messages: Option<seq<Message>>,
                             c: Client)
    ensures var r := SaveAll(repo, conversationId, messages, c);
      r.calls != [] ==>
        var ms := messages.value;
        var who := ParseConversationId(repo, conversationId.value).value;
        && ValidateConversationId(conversationId).Success?
        && ms != []
        && ParseConversationId(repo, conversationId.value).Success?
        && (!repo.ignoreUnknownRoles ==> forall i :: 0 <= i < |ms| ==> Supported(ms[i]))
        && r.calls == [CreateEvent(CreateRequest(repo.memoryId, who.actor, who.session,
                                                 AsPayloads(SupportedMessages(ms))))]
    ensures ValidateConversationId(conversationId).Success? && messages.Some? && messages.value != []
            && ParseConversationId(repo, conversationId.value).Success?
            && (repo.ignoreUnknownRoles || forall i :: 0 <= i < |messages.value| ==> Supported(messages.value[i])) ==>
      SaveAll(repo, conversationId, messages, c).calls != []
  {
    if messages.Some? {
      LenientWrite(messages.value, UnsupportedType);
      StrictWrite(messages.value, UnsupportedType);
      AllSupportedKept(messages.value);
    }
  }

  /** A batch with a message that is neither user nor assistant, when
      unknown types are not ignored, fails naming the first such message's
      type, before any request; a batch that fails without any request for
      another reason than validation or parsing fails this way. */
  lemma SaveAllRejectsUnknownTypes(repo: Repository, conversationId: Option<string>, messages: Option<seq<Message>>,
                                   c: Client)
    ensures var r := SaveAll(repo, conversationId, messages, c);
      r.calls == [] && r.result.Failure? && r.result.error.IllegalState? ==>
        var ms := messages.value;
        && !repo.ignoreUnknownRoles
        && exists k :: 0 <= k < |ms| && !Supported(ms[k]) && (forall j :: 0 <= j < k ==> Supported(ms[j]))
             && r.result.error == IllegalState(UnsupportedType(ms[k]))
    ensures ValidateConversationId(conversationId).Success? && messages.Some? && !repo.ignoreUnknownRoles
            && ParseConversationId(repo, conversationId.value).Success?
            && (exists k :: 0 <= k < |messages.value| && !Supported(messages.value[k])) ==>
      var r := SaveAll(repo, conversationId, messages, c);
      r.calls == [] && r.result.Failure? && r.result.error.IllegalState?
  {
    if messages.Some? {
      LenientWrite(messages.value, UnsupportedType);
      StrictWrite(messages.value, UnsupportedType);
    }
  }

  /** Saving a non-empty batch of user and assistant messages under
      `actor:session` sends exactly one createEvent for that actor and
      session, holding one payload per message in order, and succeeds when
      the store accepts it. */
  lemma SaveAllOfSupported(repo: Repository, actor: string, session: string, ms: seq<Message>, c: Client)
    requires Separator !in actor && Separator !in session && session != ""
    requires ms != [] && forall i :: 0 <= i < |ms| ==> Supported(ms[i])
    requires !c.createFails
    ensures SaveAll(repo, Some(actor + [Separator] + session), Some(ms), c)
         == Run(Success(()), [CreateEvent(CreateRequest(repo.memoryId, actor, session, AsPayloads(ms)))])
  {
    var id := actor + [Separator] + session;
    assert id[|actor|] == Separator;
    assert !Trimmable(id[|actor|]);
    ParseJoined(repo, actor, session);
    StrictWrite(ms, UnsupportedType);
    LenientWrite(ms, UnsupportedType);
    AllSupportedKept(ms);
  }

  /** A store whose only page is one event holding the payloads of a batch
      of user and assistant messages is read with one request, and the read
      gives back that batch in order, under either role policy, when the
      limit admits that one event. */
  lemma FindReadsSavedEvent(repo: Repository, ms: seq<Message>, eventId: string, later: Client)
    requires forall i :: 0 <= i < |ms| ==> Supported(ms[i])
    requires repo.totalEventsLimit.None? || repo.totalEventsLimit.value >= 1
    requires later.listReplies == [Page([Event(eventId, AsPayloads(ms))], None)]
    ensures StopsAfter(repo, later, 1)
    ensures FetchOutcome(repo, later, 1) == Success([Event(eventId, AsPayloads(ms))])
    ensures ReadPayloads(FlattenPayloads(FetchOutcome(repo, later, 1).value), repo.ignoreUnknownRoles, UnsupportedRole)
         == Success(ms)
  {
    assert Delivered(later, 1) == [Event(eventId, AsPayloads(ms))];
    assert [Event(eventId, AsPayloads(ms))][1..] == [];
    assert FlattenPayloads([Event(eventId, AsPayloads(ms))]) == AsPayloads(ms);
    StrictWrite(ms, UnsupportedType);
    ReadAfterWrite(ms, false, repo.ignoreUnknownRoles, UnsupportedType, UnsupportedRole);
    AllSupportedKept(ms);
  }

  /** Saving a batch of user and assistant messages sends one event holding
      their payloads; reading that event back, as the store's only page,
      gives the same messages in the same order, when the limit admits that
      one event. */
  lemma SaveThenFind(repo: Repository, actor: string, session: string, ms: seq<Message>, c: Client,
                     eventId: string, later: Client)
    requires Separator !in actor && Separator !in session && session != ""
    requires ms != [] && forall i :: 0 <= i < |ms| ==> Supported(ms[i])
    requires !c.createFails
    requires repo.totalEventsLimit.None? || repo.totalEventsLimit.value >= 1
    requires later.listReplies == [Page([Event(eventId, AsPayloads(ms))], None)]
    ensures SaveAll(repo, Some(actor + [Separator] + session), Some(ms), c)
         == Run(Success(()), [CreateEvent(CreateRequest(repo.memoryId, actor, session, AsPayloads(ms)))])
    ensures StopsAfter(repo, later, 1) && FetchOutcome(repo, later, 1).Success?
    ensures ReadPayloads(FlattenPayloads(FetchOutcome(repo, later, 1).value), repo.ignoreUnknownRoles, UnsupportedRole)
         == Success(ms)
  {
    SaveAllOfSupported(repo, actor, session, ms, c);
    FindReadsSavedEvent(repo, ms, eventId, later);
  }

  /** `deleteByConversationId`: one list request for a single page without
      payloads (at most the page size, no cursor), then one deleteEvent per
      listed event, in order. Events on later pages are not listed and so
      not deleted. Every SDK failure is wrapped with the id. */
  method DeleteByConversationId(repo: Repository, conversationId: Option<string>, c: Client)
    returns (result: Result<()>, calls: seq<Call>)
    ensures ValidateConversationId(conversationId).Failure? ==>
      result == Failure(IllegalArgument(ConversationIdMessage)) && calls == []
    ensures ValidateConversationId(conversationId).Success? &&
            ParseConversationId(repo, conversationId.value).Failure? ==>
      result == Failure(ParseConversationId(repo, conversationId.value).error) && calls == []
    ensures ValidateConversationId(conversationId).Success? &&
            ParseConversationId(repo, conversationId.value).Success? ==>
      var who := ParseConversationId(repo, conversationId.value).value;
      && Swept(repo.memoryId, who, ListRequest(repo.memoryId, who.actor, who.session, false, repo.pageSize, None),
               ListReplyAt(c, 0), c.deleteFailsAt, calls, result.Success?)
      && (result.Failure? ==> result.error == MemoryAccess(DeleteFailedMessage(conversationId.value)))
  {
    var valid := ValidateConversationId(conversationId);
    if valid.Failure? {
      return Failure(valid.error), [];
    }
    var parsed := ParseConversationId(repo, valid.value);
    if parsed.Failure? {
      return Failure(parsed.error), [];
    }
    var who := parsed.value;
    var ok;
    ok, calls := SweepPage(repo.memoryId, who, ListRequest(repo.memoryId, who.actor, who.session, false, repo.pageSize, None),
                           ListReplyAt(c, 0), c.deleteFailsAt);
    result := if ok then Success(()) else Failure(MemoryAccess(DeleteFailedMessage(valid.value)));
  }
}
