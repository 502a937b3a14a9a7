/** The remote event store as the repositories see it: stored payloads and
    events, the three requests the repositories issue, and a scripted client
    that answers the requests of one repository operation. */
module Store {
  import opened Wrappers

  /** The conversational role the store records for a payload; the SDK's
      other roles are kept by their printed name. */
  datatype Role = User | Assistant | OtherRole(name: string)

  /** The role's printed name, as the SDK enum prints it. */
  function RoleName(r: Role): string {
    match r
    case User => "USER"
    case Assistant => "ASSISTANT"
    case OtherRole(name) => name
  }

  /** One unit inside an event: a role-tagged text (a conversational
      payload) or a blob, which has no conversational part. */
  datatype Payload = Payload(role: Role, text: string) | BlobPayload

  /** A stored event; one event may carry many payloads. */
  datatype Event = Event(eventId: string, payloads: seq<Payload>)

  /** The (actor, session) pair a conversation id resolves to. */
  datatype ActorAndSession = ActorAndSession(actor: string, session: string)

  datatype ListRequest = ListRequest(
    memoryId: string,
    actorId: string,
    sessionId: string,
    includePayloads: bool,
    maxResults: int,
    nextToken: Option<string>)

  datatype CreateRequest = CreateRequest(memoryId: string, actorId: string, sessionId: string, payloads: seq<Payload>)

  datatype DeleteRequest = DeleteRequest(memoryId: string, actorId: string, sessionId: string, eventId: string)

  /** One request issued to the store, in the order issued. The event
      timestamp of a create request is the wall clock and is not recorded. */
  datatype Call =
    | ListEvents(list: ListRequest)
    | CreateEvent(create: CreateRequest)
    | DeleteEvent(delete: DeleteRequest)

  /** The outcome of one repository operation together with the requests it
      issued, in order. */
  datatype Run<+T> = Run(result: Result<T>, calls: seq<Call>)

  /** The store's answer to a listEvents request: a page of events with the
      cursor of the next page, or an SDK failure. */
  datatype ListReply = Page(events: seq<Event>, nextToken: Option<string>) | ListFailed

  /** The scripted store seen by one repository operation: the k-th
      listEvents request gets `listReplies[k]` (an SDK failure once the script
      is exhausted), createEvent fails when `createFails`, and the deleteEvent
      request numbered `deleteFailsAt` (counting from 0) fails. */
  datatype Client = Client(listReplies: seq<ListReply>, createFails: bool, deleteFailsAt: Option<nat>)

  function ListReplyAt(c: Client, k: nat): (r: ListReply)
    ensures k >= |c.listReplies| ==> r.ListFailed?
  {
    if k < |c.listReplies| then c.listReplies[k] else ListFailed
  }

  /** `new ActorAndSession(parts[0], parts[1])`: the index that is out of
      bounds first fails the construction. */
  function PairOf(parts: seq<string>): (r: Result<ActorAndSession>)
    ensures r.Success? <==> |parts| >= 2
    ensures r.Success? ==> r.value == ActorAndSession(parts[0], parts[1])
    ensures r.Failure? ==> r.error == IndexOutOfBounds(|parts|)
  {
    if |parts| == 0 then Failure(IndexOutOfBounds(0))
    else if |parts| == 1 then Failure(IndexOutOfBounds(1))
    else Success(ActorAndSession(parts[0], parts[1]))
  }

  /** The first `n` list replies of the script are all pages. */
  predicate PagesUpTo(c: Client, n: nat) {
    forall i :: 0 <= i < n ==> ListReplyAt(c, i).Page?
  }

  /** The events of the first `n` pages, in arrival order. */
  function Delivered(c: Client, n: nat): seq<Event>
    requires PagesUpTo(c, n)
  {
    if n == 0 then [] else Delivered(c, n - 1) + ListReplyAt(c, n - 1).events
  }

  /** The payloads of `events`, in event order and then payload order. */
  function FlattenPayloads(events: seq<Event>): seq<Payload> {
    if events == [] then [] else events[0].payloads + FlattenPayloads(events[1..])
  }

  /** Flattening distributes over concatenation, so it keeps the order of
      events and, inside each event, the order of its payloads. */
  lemma {:induction false} FlattenAppend(a: seq<Event>, b: seq<Event>)
    ensures FlattenPayloads(a + b) == FlattenPayloads(a) + FlattenPayloads(b)
  {
    if a != [] {
      assert (a + b)[0] == a[0];
      assert (a + b)[1..] == a[1..] + b;
      FlattenAppend(a[1..], b);
    } else {
      assert a + b == b;
    }
  }

  /** One deleteEvent request per event, in order, each naming that event's id
      and the given memory, actor and session, stopping after the first
      request the store rejects. `ok` tells whether every request succeeded. */
  method DeleteEach(memoryId: string, who: ActorAndSession, events: seq<Event>, failsAt: Option<nat>)
    returns (ok: bool, calls: seq<Call>)
    ensures ok <==> (failsAt.None? || failsAt.value >= |events|)
    ensures |calls| == if ok then |events| else failsAt.value + 1
    ensures forall i :: 0 <= i < |calls| ==>
      calls[i] == DeleteEvent(DeleteRequest(memoryId, who.actor, who.session, events[i].eventId))
  {
    calls := [];
    var i := 0;
    while i < |events|
      invariant 0 <= i <= |events|
      invariant |calls| == i
      invariant failsAt.Some? ==> failsAt.value >= i
      invariant forall j :: 0 <= j < i ==>
        calls[j] == DeleteEvent(DeleteRequest(memoryId, who.actor, who.session, events[j].eventId))
    {
      calls := calls + [DeleteEvent(DeleteRequest(memoryId, who.actor, who.session, events[i].eventId))];
      if failsAt == Some(i) {
        return false, calls;
      }
      i := i + 1;
    }
    ok := true;
  }

  /** The requests and outcome of a list-then-delete sweep of one page: the
      list request `list` first; if the store answered it with a page, one
      deleteEvent per listed event, in order, each naming that event's id
      and the given memory, actor and session, stopping right after the
      first request the store rejects. `ok` tells whether the sweep
      succeeded: a failed list request or a rejected delete fails it. */
  predicate Swept(memoryId: string, who: ActorAndSession, list: ListRequest, reply: ListReply,
                  failsAt: Option<nat>, calls: seq<Call>, ok: bool) {
    && |calls| >= 1
    && calls[0] == ListEvents(list)
    && (reply.ListFailed? ==> |calls| == 1 && !ok)
    && (reply.Page? ==>
          && |calls| - 1 <= |reply.events|
          && (forall i :: 1 <= i < |calls| ==>
                calls[i] == DeleteEvent(DeleteRequest(memoryId, who.actor, who.session, reply.events[i - 1].eventId)))
          && (ok <==> failsAt.None? || failsAt.value >= |reply.events|)
          && (ok ==> |calls| - 1 == |reply.events|)
          && (!ok ==> failsAt == Some(|calls| - 2)))
  }

  /** Lists one page with `list`, then deletes every listed event. */
  method SweepPage(memoryId: string, who: ActorAndSession, list: ListRequest, reply: ListReply, failsAt: Option<nat>)
    returns (ok: bool, calls: seq<Call>)
    ensures Swept(memoryId, who, list, reply, failsAt, calls, ok)
  {
    calls := [ListEvents(list)];
    if reply.ListFailed? {
      return false, calls;
    }
    var deletes;
    ok, deletes := DeleteEach(memoryId, who, reply.events, failsAt);
    calls := calls + deletes;
  }
}
