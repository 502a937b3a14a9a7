/** The earlier chat-memory repository: conversation ids of the form
    `actor/session` with no default session and no validation, one read
    request of at most 100 events (no cursor following), strict role mapping
    in both directions, a batch save as one event, and a single-page delete
    sweep. SDK failures propagate unwrapped. */
module MemoryRepository {
  import opened Wrappers
  import opened JavaStrings
  import opened Store
  import opened RoleMapping

  const Separator: char := '/'
  const MaxResults: int := 100

  function UnexpectedRole(r: Role): string {
    "Unexpected value: " + RoleName(r)
  }

  function UnexpectedMessage(m: Message): string {
    "Unexpected value: " + Printed(m)
  }

  /** The message's `toString()`; only that of an unsupported message is
      ever printed. */
  function Printed(m: Message): string {
    if m.OtherMessage? then m.printed else SimpleName(m)
  }

  /** The constructor keeps the memory id as given. */
  datatype Repository = Repository(memoryId: string)

  /** `actorAndSession`: split on '/' and take the first two pieces. A null
      id fails on the split itself. */
  function ParseConversationId(conversationId: Option<string>): (r: Result<ActorAndSession>)
    ensures conversationId.None? ==> r == Failure(NullPointer)
    ensures r.Success? ==>
      && Separator in conversationId.value
    ensures r.Failure? && conversationId.Some? ==> r.error == IndexOutOfBounds(0) || r.error == IndexOutOfBounds(1)
  {
    if conversationId.None? then Failure(NullPointer)
    else PairOf(Split(conversationId.value, Separator))
  }

  /** The id `actor/session`. */
  function ConversationId(actor: string, session: string): (id: string)
    ensures |id| == |actor| + 1 + |session|
    ensures id[|actor|] == Separator && id[..|actor|] == actor && id[|actor| + 1..] == session
  {
    actor + [Separator] + session
  }

  /** The actor is the text before the first '/' and the session the text
      between the first and second '/'. An id without '/' is one piece and
      fails at index 1: there is no default session. */
  lemma ParseCharacterised(conversationId: string)
    ensures Separator !in conversationId ==>
      ParseConversationId(Some(conversationId)) == Failure(IndexOutOfBounds(1))
    ensures Separator in conversationId ==>
      var rest := After(conversationId, Separator);
      && (HasContent(rest, Separator) ==>
            ParseConversationId(Some(conversationId))
              == Success(ActorAndSession(Before(conversationId, Separator), Before(rest, Separator))))
      && (!HasContent(rest, Separator) ==>
            ParseConversationId(Some(conversationId))
              == Failure(IndexOutOfBounds(if HasContent(conversationId, Separator) then 1 else 0)))
  {
    if Separator in conversationId {
      SplitFirstTwo(conversationId, Separator);
    }
  }

  /** Formatting and parsing are inverse for an actor and a non-empty
      session that do not contain '/'. */
  lemma ParseFormatted(actor: string, session: string)
    requires Separator !in actor && Separator !in session && session != ""
    ensures ParseConversationId(Some(ConversationId(actor, session))) == Success(ActorAndSession(actor, session))
  {
    SplitJoinedPair(actor, session, Separator);
  }

  /** The ':' ids of this repository's unit test do not parse: with no '/'
      they are a single piece. */
  lemma ColonIdsDoNotParse()
    ensures ParseConversationId(Some("actor123:session456")) == Failure(IndexOutOfBounds(1))
    ensures ParseConversationId(Some("actor123")) == Failure(IndexOutOfBounds(1))
  {
    assert forall i :: 0 <= i < |"actor123:session456"| ==> "actor123:session456"[i] != Separator;
    assert forall i :: 0 <= i < |"actor123"| ==> "actor123"[i] != Separator;
  }

  /** `findConversationIds` is not supported, whatever the repository. */
  function FindConversationIds(repo: Repository): (r: Run<seq<string>>)
    ensures r.result == Failure(Unsupported) && r.calls == []
  {
    Run(Failure(Unsupported), [])
  }

  /** `findByConversationId`: one list request with payloads and at most
      100 events, no cursor; every payload must have a user or assistant
      role. */
  function FindByConversationId(repo: Repository, conversationId: Option<string>, c: Client)
    : (r: Run<seq<Message>>)
    ensures ParseConversationId(conversationId).Failure? ==>
      r == Run(Failure(ParseConversationId(conversationId).error), [])
    ensures ParseConversationId(conversationId).Success? ==>
      var who := ParseConversationId(conversationId).value;
      r.calls == [ListEvents(ListRequest(repo.memoryId, who.actor, who.session, true, MaxResults, None))]
    ensures ParseConversationId(conversationId).Success? && ListReplyAt(c, 0).ListFailed? ==>
      r.result == Failure(SdkFailure)
    ensures ParseConversationId(conversationId).Success? && ListReplyAt(c, 0).Page? ==>
      var payloads := FlattenPayloads(ListReplyAt(c, 0).events);
      && (r.result.Success? <==> forall i :: 0 <= i < |payloads| ==> Readable(payloads[i]))
      && (r.result.Success? ==> r.result.value == AsMessages(payloads))
      && (r.result.Failure? ==>
            exists k :: 0 <= k < |payloads| && !Readable(payloads[k])
              && (forall j :: 0 <= j < k ==> Readable(payloads[j]))
              && r.result.error == ReadFailure(payloads[k], UnexpectedRole))
  {
    var parsed := ParseConversationId(conversationId);
    if parsed.Failure? then Run(Failure(parsed.error), [])
    else
      var request := ListRequest(repo.memoryId, parsed.value.actor, parsed.value.session, true, MaxResults, None);
      var reply := ListReplyAt(c, 0);
      if reply.ListFailed? then Run(Failure(SdkFailure), [ListEvents(request)])
      else
        StrictRead(FlattenPayloads(reply.events), UnexpectedRole);
        Run(ReadPayloads(FlattenPayloads(reply.events), false, UnexpectedRole), [ListEvents(request)])
  }

  /** `saveAll`: exactly one createEvent with one payload per message, in
      order, even for an empty batch; a message that is neither user nor
      assistant fails the save before any request, and a null batch fails on
      the stream. */
  function SaveAll(repo: Repository, conversationId: Option<string>, messages: Option<seq<Message>>, c: Client)
    : (r: Run<()>)
    ensures ParseConversationId(conversationId).Failure? ==>
      r == Run(Failure(ParseConversationId(conversationId).error), [])
    ensures ParseConversationId(conversationId).Success? && messages.None? ==> r == Run(Failure(NullPointer), [])
    ensures ParseConversationId(conversationId).Success? && messages.Some? ==>
      var ms := messages.value;
      var who := ParseConversationId(conversationId).value;
      && ((forall i :: 0 <= i < |ms| ==> Supported(ms[i])) ==>
            && r.calls == [CreateEvent(CreateRequest(repo.memoryId, who.actor, who.session, AsPayloads(ms)))]
            && (r.result.Success? <==> !c.createFails)
            && (r.result.Failure? ==> r.result.error == SdkFailure))
      && (!(forall i :: 0 <= i < |ms| ==> Supported(ms[i])) ==>
            && r.calls == []
            && exists k :: 0 <= k < |ms| && !Supported(ms[k]) && (forall j :: 0 <= j < k ==> Supported(ms[j]))
                 && r.result == Failure(IllegalState(UnexpectedMessage(ms[k]))))
  {
    var parsed := ParseConversationId(conversationId);
    if parsed.Failure? then Run(Failure(parsed.error), [])
    else if messages.None? then Run(Failure(NullPointer), [])
    else
      var payloads := WriteMessages(messages.value, false, UnexpectedMessage);
      StrictWrite(messages.value, UnexpectedMessage);
      if payloads.Failure? then Run(Failure(payloads.error), [])
      else
        var request := CreateRequest(repo.memoryId, parsed.value.actor, parsed.value.session, payloads.value);
        Run(if c.createFails then Failure(SdkFailure) else Success(()), [CreateEvent(request)])
  }

  /** Saving a batch of user and assistant messages sends one event holding
      their payloads; reading that event back gives the same messages in the
      same order. */
  lemma SaveThenFind(repo: Repository, actor: string, session: string, ms: seq<Message>, c: Client,
                     eventId: string, later: Client)
    requires Separator !in actor && Separator !in session && session != ""
    requires forall i :: 0 <= i < |ms| ==> Supported(ms[i])
    requires !c.createFails
    requires later.listReplies == [Page([Event(eventId, AsPayloads(ms))], None)]
    ensures SaveAll(repo, Some(ConversationId(actor, session)), Some(ms), c)
         == Run(Success(()), [CreateEvent(CreateRequest(repo.memoryId, actor, session, AsPayloads(ms)))])
    ensures FindByConversationId(repo, Some(ConversationId(actor, session)), later).result == Success(ms)
  {
    ParseFormatted(actor, session);
    StrictWrite(ms, UnexpectedMessage);
    ReadAfterWrite(ms, false, false, UnexpectedMessage, UnexpectedRole);
    AllSupportedKept(ms);
    assert FlattenPayloads([Event(eventId, AsPayloads(ms))]) == AsPayloads(ms);
  }

  /** `deleteByConversationId`: one list request without payloads for at
      most 100 events and no cursor, then one deleteEvent per listed event,
      in order; events beyond that page remain. SDK failures propagate
      unwrapped. */
  method DeleteByConversationId(repo: Repository, conversationId: Option<string>, c: Client)
    returns (result: Result<()>, calls: seq<Call>)
    ensures ParseConversationId(conversationId).Failure? ==>
      result == Failure(ParseConversationId(conversationId).error) && calls == []
    ensures ParseConversationId(conversationId).Success? ==>
      var who := ParseConversationId(conversationId).value;
      && Swept(repo.memoryId, who, ListRequest(repo.memoryId, who.actor, who.session, false, MaxResults, None),
               ListReplyAt(c, 0), c.deleteFailsAt, calls, result.Success?)
      && (result.Failure? ==> result.error == SdkFailure)
  {
    var parsed := ParseConversationId(conversationId);
    if parsed.Failure? {
      return Failure(parsed.error), [];
    }
    var who := parsed.value;
    var ok;
    ok, calls := SweepPage(repo.memoryId, who, ListRequest(repo.memoryId, who.actor, who.session, false, MaxResults, None),
                           ListReplyAt(c, 0), c.deleteFailsAt);
    result := if ok then Success(()) else Failure(SdkFailure);
  }
}
