# Chat-memory repository over an event store, in Dafny

This project models the chat-memory repository adapter of the Spring AI
Bedrock AgentCore integration. The adapter presents a remote event store as
an ordered list of chat messages. The store is append-only and scoped by
actor and session. The model covers three pieces:

- **The paginating repository** (`AgentCoreShortMemoryRepository`, module
  `ShortRepository`). It:
  - validates the memory id and the conversation id;
  - parses `actor:session` ids, falling back to a default session when the
    id has no `:`;
  - follows the store's `nextToken` cursor until the store runs out or a
    `totalEventsLimit` is reached, then truncates;
  - maps stored roles to messages and back under the `ignoreUnknownRoles`
    policy;
  - saves a batch as one event;
  - deletes with a single-page list-then-delete sweep.
- **The earlier repository** (`AgentCoreMemoryRepository`, module
  `MemoryRepository`). It uses `actor/session` ids with a formatter and has
  no default session. It reads strictly from one page of at most 100
  events, saves one event per batch with no empty-batch shortcut, and makes
  one single-page delete sweep.
- **The configuration record** (`AgentCoreShortMemoryRepositoryConfiguration`,
  module `Configuration`). Its canonical constructor fills in the default
  session name and page size.

Supporting modules:

- `Wrappers`: `Option`, `Result` and the `Error` datatype. Each variant of
  `Error` stands for one Java exception the repositories can raise.
- `JavaStrings`: `String.trim`/`isEmpty` blankness and `String.split` with a
  one-character separator. `split` splits at every occurrence and drops
  trailing empty strings. Leading empty strings are kept.
- `Store`: payloads, events, and the three requests (`listEvents`,
  `createEvent`, `deleteEvent`). It also holds the scripted client and the
  delete sweep loop.
- `RoleMapping`: the message/payload mapping in both directions, with the
  strict and lenient policies.

The AWS client is a parameter. A `Client` value scripts the answers that one
repository operation will see:

- the k-th `listEvents` call gets the k-th scripted page, or an SDK failure
  once the script runs out;
- `createEvent` fails or succeeds as the script says;
- `deleteFailsAt` names the one `deleteEvent` call that fails, if any.

Every operation returns its `Result` together with the sequence of requests
it issued, in order. "No request before validation", "exactly one
createEvent" and "one delete per listed event" are therefore statements
about that sequence. Java `null` is `Option.None`, and exceptions are
`Failure` values.

Behaviour of the code worth noting:

- `totalEventsLimit` caps **events**, not messages. One event may carry
  several payloads, so a read can return more messages than the limit
  (`ShortRepository.LimitCountsEventsNotMessages`).
- A payload that is a blob has no conversational part, so asking for its
  role dereferences null. That error is not an SDK exception, so it escapes
  unwrapped, and ignoring unknown roles does not suppress it
  (`RoleMapping.LenientRead`).
- Conversation ids are split at **every** separator, and pieces 0 and 1 are
  taken:
  - `"a:b:c"` is actor `a` of session `b`;
  - `"a:"` fails at index 1;
  - `":"` fails at index 0.
- A failed read is wrapped with the message `"Failed to fetch events"`. The
  message does not include the conversation id. The outer handler in
  `findByConversationId` only catches SDK exceptions, so it never re-wraps.
- A negative `totalEventsLimit` makes `subList` throw
  `IllegalArgumentException`, which is not wrapped
  (`ShortRepository.CapToLimit`).
- The earlier repository's own unit test expects `:` ids and a default
  session. Its code splits on `/` and has no default, so those ids fail
  (`MemoryRepository.ColonIdsDoNotParse`).
- The earlier repository's `saveAll` sends a `createEvent` even for an
  empty batch. It fails with a null-pointer error for a null batch only
  after it has parsed the id.
- The paginating repository's integration test uses `/` ids. Under `:`
  parsing, such an id is the actor of the default session
  (`ShortRepository.ParseSlashStyleId`).

## Model

| member | source | states |
|---|---|---|
| ShortRepository.NewRepository | spring-ai-memory-repository-bedrock-agentcore/src/main/java/org/springaicommunity/agentcore/memory/AgentCoreShortMemoryRepository.java:33-51 | Construction fails with "MemoryId cannot be null or empty" exactly when the memory id is null or every character is at most U+0020. Otherwise every argument is stored unchanged, and the memory id is not trimmed. |
| ShortRepository.ValidateConversationId | spring-ai-memory-repository-bedrock-agentcore/src/main/java/org/springaicommunity/agentcore/memory/AgentCoreShortMemoryRepository.java:53-57 | A conversation id is rejected with "ConversationId cannot be null or empty" exactly when it is null or blank after trimming. Otherwise it passes through unchanged. |
| ShortRepository.ParseConversationId | spring-ai-memory-repository-bedrock-agentcore/src/main/java/org/springaicommunity/agentcore/memory/AgentCoreShortMemoryRepository.java:59-65 | An id without ':' is the actor of the default session. Parsing fails only with an index error, at index 0 or 1, from reading a missing piece. The full characterisation of the actor and session is `ShortRepository.ParseCharacterised`. |
| ShortRepository.ParseCharacterised | spring-ai-memory-repository-bedrock-agentcore/src/main/java/org/springaicommunity/agentcore/memory/AgentCoreShortMemoryRepository.java:59-65 | An id without ':' is the actor of the default session. With a ':', the actor is the text before the first ':' and the session is the text between the first and second ':'. It fails at index 1 when only ':' follows the first ':', and at index 0 when the id is all ':'. |
| ShortRepository.ParseJoined | spring-ai-memory-repository-bedrock-agentcore/src/main/java/org/springaicommunity/agentcore/memory/AgentCoreShortMemoryRepository.java:59-62 | `actor + ":" + session` parses back to (actor, session) when neither part contains ':' and the session is non-empty. |
| ShortRepository.ParseUnitTestCases | spring-ai-memory-bedrock-agentcore/src/test/java/org/springaicommunity/agentcore/memory/AgentCoreShortMemoryRepositoryTest.java:136-150 | "actor123:session456" parses to ("actor123", "session456"), and "actor123" parses to ("actor123", default session). |
| ShortRepository.ParseThreePieces | spring-ai-memory-repository-bedrock-agentcore/src/main/java/org/springaicommunity/agentcore/memory/AgentCoreShortMemoryRepository.java:60-62 | "a:b:c" parses to ("a", "b"), and the third piece is ignored. |
| ShortRepository.ParseTrailingSeparator | spring-ai-memory-repository-bedrock-agentcore/src/main/java/org/springaicommunity/agentcore/memory/AgentCoreShortMemoryRepository.java:60-62 | "a:" splits into one piece, so reading `parts[1]` fails with index 1. |
| ShortRepository.ParseLoneSeparator | spring-ai-memory-repository-bedrock-agentcore/src/main/java/org/springaicommunity/agentcore/memory/AgentCoreShortMemoryRepository.java:60-62 | ":" splits into no piece, so reading `parts[0]` fails with index 0. |
| ShortRepository.ParseSlashStyleId | spring-ai-memory-repository-bedrock-agentcore/src/test/java/org/springaicommunity/agentcore/memory/AgentCoreShortMemoryRepositoryIntegrationTest.java:61-63 | The '/' id the integration test uses contains no ':', so the whole id becomes the actor of the default session. |
| ShortRepository.RequestPageSize | spring-ai-memory-repository-bedrock-agentcore/src/main/java/org/springaicommunity/agentcore/memory/AgentCoreShortMemoryRepository.java:112 | Every read request's maxResults is the page size when no limit is set. Otherwise it is the smaller of the page size and the limit: at most both, and equal to one of them. |
| ShortRepository.PageSizeTable | spring-ai-memory-bedrock-agentcore/src/test/java/org/springaicommunity/agentcore/memory/AgentCoreShortMemoryRepositoryTest.java:183-214 | With a page size of 100, the limits null, 200, 50, 100 and 1 give maxResults 100, 100, 50, 100 and 1. |
| ShortRepository.CapToLimit | spring-ai-memory-repository-bedrock-agentcore/src/main/java/org/springaicommunity/agentcore/memory/AgentCoreShortMemoryRepository.java:131-133 | Truncation keeps a prefix of the events, of length min(size, limit). No limit keeps all events. Only a negative limit fails, with the sublist range error. |
| ShortRepository.StopsAfterUnique | spring-ai-memory-repository-bedrock-agentcore/src/main/java/org/springaicommunity/agentcore/memory/AgentCoreShortMemoryRepository.java:115-135 | The store's replies alone determine how many list requests a read issues. |
| ShortRepository.FetchAllEvents | spring-ai-memory-repository-bedrock-agentcore/src/main/java/org/springaicommunity/agentcore/memory/AgentCoreShortMemoryRepository.java:109-144 | The read stops at the first request after which the loop must not continue. A reply with no cursor, a reached limit or an SDK failure each stop it. Request i carries the read's memory id, actor, session, includePayloads=true and the computed page size. It carries no token when i is 0, and the previous page's cursor otherwise. The result is "Failed to fetch events" if the last request failed. Otherwise it is all delivered events in arrival order, capped to the limit. |
| ShortRepository.FetchKeepsPrefix | spring-ai-memory-repository-bedrock-agentcore/src/main/java/org/springaicommunity/agentcore/memory/AgentCoreShortMemoryRepository.java:109-137 | A successful read returns a prefix of the concatenated pages. It returns never more than a non-negative limit. With no limit, it returns every page up to one without a cursor. |
| ShortRepository.LimitOneKeepsFirstEvent | spring-ai-memory-bedrock-agentcore/src/test/java/org/springaicommunity/agentcore/memory/AgentCoreShortMemoryRepositoryTest.java:152-181 | With limit 1 and a page of two events, one request is made and only the first event is kept, which reads back as the one message "first message". |
| ShortRepository.LimitCountsEventsNotMessages | spring-ai-memory-repository-bedrock-agentcore/src/main/java/org/springaicommunity/agentcore/memory/AgentCoreShortMemoryRepository.java:131-133 | The cap counts events. With limit 1, one event holding two payloads passes whole and yields two messages. |
| ShortRepository.FollowsCursor | spring-ai-memory-repository-bedrock-agentcore/src/main/java/org/springaicommunity/agentcore/memory/AgentCoreShortMemoryRepository.java:123-135 | A page with a cursor is followed by a request that carries that cursor. The pages' events are concatenated in order, and the payloads read are the first page's followed by the second page's. |
| ShortRepository.FindConversationIds | spring-ai-memory-repository-bedrock-agentcore/src/main/java/org/springaicommunity/agentcore/memory/AgentCoreShortMemoryRepository.java:67-70 | Always fails with an unsupported-operation error and issues no request. |
| ShortRepository.FindByConversationId | spring-ai-memory-repository-bedrock-agentcore/src/main/java/org/springaicommunity/agentcore/memory/AgentCoreShortMemoryRepository.java:72-107 | An invalid id, or one that does not parse, fails before any request. Otherwise the result is the paged read's failure, or the payloads of the kept events read in event order and then payload order under the repository's role policy. |
| ShortRepository.SaveAll | spring-ai-memory-repository-bedrock-agentcore/src/main/java/org/springaicommunity/agentcore/memory/AgentCoreShortMemoryRepository.java:146-199 | An invalid id fails with no request. A null or empty batch succeeds with no request. A non-empty batch whose id does not parse fails with that index error and no request, before any message is mapped. Any other batch makes at most one request, a createEvent. The save succeeds exactly when that request succeeds, and its failure is wrapped as "Failed to save messages for conversation: " + id. |
| ShortRepository.SaveAllSendsOneEvent | spring-ai-memory-repository-bedrock-agentcore/src/main/java/org/springaicommunity/agentcore/memory/AgentCoreShortMemoryRepository.java:146-192 | A valid, parseable, non-empty batch sends a request when unknown types are ignored or every message is a user or assistant message, even if every message was skipped. Every save that sends a request sends exactly one createEvent for the parsed actor and session. That event carries the user and assistant messages in input order with their text unchanged. In strict mode it is sent only if every message is a user or assistant message. |
| ShortRepository.SaveAllRejectsUnknownTypes | spring-ai-memory-repository-bedrock-agentcore/src/main/java/org/springaicommunity/agentcore/memory/AgentCoreShortMemoryRepository.java:159-182 | In strict mode, a batch with an unsupported message fails before any request. The error is "Unsupported message type: " + the simple name of the first such message. This is the only way a save fails with an illegal-state error. |
| ShortRepository.SaveAllOfSupported | spring-ai-memory-repository-bedrock-agentcore/src/main/java/org/springaicommunity/agentcore/memory/AgentCoreShortMemoryRepository.java:146-192 | Saving a non-empty batch of user and assistant messages under `actor:session` succeeds with exactly one createEvent for that actor and session, carrying one payload per message in order. |
| ShortRepository.FindReadsSavedEvent | spring-ai-memory-repository-bedrock-agentcore/src/main/java/org/springaicommunity/agentcore/memory/AgentCoreShortMemoryRepository.java:72-137 | A store whose only page is one event holding such a batch's payloads is read with one request. Under either role policy, the read gives back the batch in order. |
| ShortRepository.SaveThenFind | spring-ai-memory-repository-bedrock-agentcore/src/main/java/org/springaicommunity/agentcore/memory/AgentCoreShortMemoryRepository.java:72-192 | Saving a non-empty batch of user and assistant messages under `actor:session` succeeds with exactly one createEvent for that actor and session, carrying one payload per message. Reading that event back gives the same messages in the same order. |
| ShortRepository.DeleteByConversationId | spring-ai-memory-repository-bedrock-agentcore/src/main/java/org/springaicommunity/agentcore/memory/AgentCoreShortMemoryRepository.java:201-232 | An invalid id, or one that does not parse, fails before any request. Otherwise the requests are a one-page sweep (`Store.Swept`) with the list request includePayloads=false, maxResults=page size and no token. The delete succeeds exactly when the sweep does, and a failure is wrapped as "Failed to delete conversation: " + id. |
| MemoryRepository.ConversationId | spring-ai-starter-model-chat-memory-repository-bedrock-agentcore/src/main/java/org/springaicommunity/agentcore/memory/AgentCoreMemoryRepository.java:32-34 | The id is the actor, then '/', then the session. |
| MemoryRepository.ParseConversationId | spring-ai-starter-model-chat-memory-repository-bedrock-agentcore/src/main/java/org/springaicommunity/agentcore/memory/AgentCoreMemoryRepository.java:26-30 | A null id fails with a null-pointer error. A successful parse needs a '/' in the id. Any other failure is an index error, at index 0 or 1. The full characterisation is `MemoryRepository.ParseCharacterised`. |
| MemoryRepository.ParseCharacterised | spring-ai-starter-model-chat-memory-repository-bedrock-agentcore/src/main/java/org/springaicommunity/agentcore/memory/AgentCoreMemoryRepository.java:26-30 | An id without '/' fails at index 1, because there is no default session. Otherwise the actor and session are the first two '/'-pieces, with the same index failures as the ':' parser. |
| MemoryRepository.ParseFormatted | spring-ai-starter-model-chat-memory-repository-bedrock-agentcore/src/main/java/org/springaicommunity/agentcore/memory/AgentCoreMemoryRepository.java:26-34 | Parsing undoes formatting when neither part contains '/' and the session is non-empty. |
| MemoryRepository.ColonIdsDoNotParse | spring-ai-starter-model-chat-memory-repository-bedrock-agentcore/src/test/java/org/springaicommunity/agentcore/memory/AgentCoreMemoryRepositoryTest.java:81-95 | The ':' ids of the unit test fail with an index error instead of parsing. |
| MemoryRepository.FindConversationIds | spring-ai-starter-model-chat-memory-repository-bedrock-agentcore/src/main/java/org/springaicommunity/agentcore/memory/AgentCoreMemoryRepository.java:36-39 | Always fails with an unsupported-operation error and issues no request. |
| MemoryRepository.FindByConversationId | spring-ai-starter-model-chat-memory-repository-bedrock-agentcore/src/main/java/org/springaicommunity/agentcore/memory/AgentCoreMemoryRepository.java:41-65 | It makes exactly one list request (includePayloads=true, maxResults=100, no token) and never follows a cursor. An SDK failure propagates. The read succeeds exactly when every payload is conversational with a user or assistant role, and then gives one message per payload in order. Otherwise it fails on the first other payload: a blob with a null-pointer error, and an unknown role with "Unexpected value: " + the role. |
| MemoryRepository.SaveAll | spring-ai-starter-model-chat-memory-repository-bedrock-agentcore/src/main/java/org/springaicommunity/agentcore/memory/AgentCoreMemoryRepository.java:67-99 | A batch of user and assistant messages, empty ones included, gives exactly one createEvent with one payload per message, in order. A batch with any other message fails before any request, naming the first such message. A null batch fails with a null-pointer error. |
| MemoryRepository.SaveThenFind | spring-ai-starter-model-chat-memory-repository-bedrock-agentcore/src/main/java/org/springaicommunity/agentcore/memory/AgentCoreMemoryRepository.java:41-99 | Saving a batch of user and assistant messages under `actor/session` succeeds with exactly one createEvent for that actor and session, carrying one payload per message. Reading that event back gives the same messages in order. |
| MemoryRepository.DeleteByConversationId | spring-ai-starter-model-chat-memory-repository-bedrock-agentcore/src/main/java/org/springaicommunity/agentcore/memory/AgentCoreMemoryRepository.java:101-125 | A failed parse issues no request. Otherwise the requests are a one-page sweep (`Store.Swept`) with the list request includePayloads=false, maxResults=100 and no token. Deletes are issued for the listed events up to and including the first rejected one, and events beyond that page are never named. SDK failures propagate unwrapped. |
| Configuration.NewConfig | spring-ai-memory-repository-bedrock-agentcore/src/main/java/org/springaicommunity/agentcore/memory/AgentCoreShortMemoryRepositoryConfiguration.java:9-16 | A null session name becomes "default-session", and a page size that is not positive becomes 100. Every other component is kept, and every record has a positive page size. |
| Configuration.NormalisedIsFixedPoint | spring-ai-memory-repository-bedrock-agentcore/src/main/java/org/springaicommunity/agentcore/memory/AgentCoreShortMemoryRepositoryConfiguration.java:13-14 | A record with a positive page size is rebuilt unchanged from its own components. |
| Configuration.NormalisationIdempotent | spring-ai-memory-repository-bedrock-agentcore/src/main/java/org/springaicommunity/agentcore/memory/AgentCoreShortMemoryRepositoryConfiguration.java:13-14 | Rebuilding a constructed record from its components gives the same record. |
| Configuration.ConfigurationExamples | spring-ai-memory-bedrock-agentcore/src/test/java/org/springaicommunity/agentcore/memory/AgentCoreShortMemoryRepositoryConfigurationTest.java:9-26 | The defaults case and the all-components case of the record's unit test. |
| RoleMapping.ToPayload | spring-ai-memory-repository-bedrock-agentcore/src/main/java/org/springaicommunity/agentcore/memory/AgentCoreShortMemoryRepository.java:162-181 | A user message is stored with role USER and an assistant message with role ASSISTANT. The text is unchanged. |
| RoleMapping.ToMessage | spring-ai-memory-repository-bedrock-agentcore/src/main/java/org/springaicommunity/agentcore/memory/AgentCoreShortMemoryRepository.java:84-86 | A conversational USER payload is read as a user message and an ASSISTANT one as an assistant message. The text is unchanged. |
| RoleMapping.ToMessageUndoesToPayload | spring-ai-memory-repository-bedrock-agentcore/src/main/java/org/springaicommunity/agentcore/memory/AgentCoreShortMemoryRepository.java:84-86 | Reading a stored user or assistant message gives that message back. |
| RoleMapping.ToPayloadUndoesToMessage | spring-ai-memory-repository-bedrock-agentcore/src/main/java/org/springaicommunity/agentcore/memory/AgentCoreShortMemoryRepository.java:162-181 | Storing a message read from a conversational USER or ASSISTANT payload gives that payload back. |
| RoleMapping.ReadPayloads | spring-ai-memory-repository-bedrock-agentcore/src/main/java/org/springaicommunity/agentcore/memory/AgentCoreShortMemoryRepository.java:81-98 | A successful read gives at most one message per payload, and exactly one per payload in strict mode. A read fails only with a null-pointer error, from a blob, or, in strict mode, with an illegal-state error. |
| RoleMapping.LenientRead | spring-ai-memory-repository-bedrock-agentcore/src/main/java/org/springaicommunity/agentcore/memory/AgentCoreShortMemoryRepository.java:81-98 | With unknown roles ignored, a read fails exactly when some payload is a blob, and then with a null-pointer error. Otherwise it gives the messages of exactly the user and assistant payloads, in their original order. |
| RoleMapping.StrictRead | spring-ai-memory-repository-bedrock-agentcore/src/main/java/org/springaicommunity/agentcore/memory/AgentCoreShortMemoryRepository.java:84-96 | With unknown roles rejected, a read succeeds exactly when every payload is conversational with a known role, and then gives one message per payload in order. Otherwise it fails on the first other payload: a blob with a null-pointer error, and an unknown role with `describe(role)`. |
| RoleMapping.LenientWrite | spring-ai-memory-repository-bedrock-agentcore/src/main/java/org/springaicommunity/agentcore/memory/AgentCoreShortMemoryRepository.java:159-182 | With unknown types ignored, a write never fails. It gives the payloads of exactly the user and assistant messages, in input order. |
| RoleMapping.StrictWrite | spring-ai-memory-repository-bedrock-agentcore/src/main/java/org/springaicommunity/agentcore/memory/AgentCoreShortMemoryRepository.java:159-182 | With unknown types rejected, a write succeeds exactly when every message is supported, and then gives one payload per message in order. Otherwise it fails naming the first unsupported message. |
| RoleMapping.ReadAfterWrite | spring-ai-memory-repository-bedrock-agentcore/src/main/java/org/springaicommunity/agentcore/memory/AgentCoreShortMemoryRepository.java:81-182 | Reading back what a successful write produced gives the supported messages in input order, under either policy. |
| RoleMapping.WriteMessages | spring-ai-memory-repository-bedrock-agentcore/src/main/java/org/springaicommunity/agentcore/memory/AgentCoreShortMemoryRepository.java:159-182 | A lenient write never fails. A successful write gives at most one payload per message, exactly one in strict mode, and only conversational user or assistant payloads. A failure is an illegal-state error. |
| RoleMapping.KnownPayloads | spring-ai-memory-repository-bedrock-agentcore/src/main/java/org/springaicommunity/agentcore/memory/AgentCoreShortMemoryRepository.java:87-97 | The filter keeps exactly the conversational payloads with a known role and is no longer than its input. |
| RoleMapping.SupportedMessages | spring-ai-memory-repository-bedrock-agentcore/src/main/java/org/springaicommunity/agentcore/memory/AgentCoreShortMemoryRepository.java:168-182 | The filter keeps exactly the user and assistant messages and is no longer than its input. |
| RoleMapping.AllSupportedKept | spring-ai-starter-model-chat-memory-repository-bedrock-agentcore/src/main/java/org/springaicommunity/agentcore/memory/AgentCoreMemoryRepository.java:71-88 | When every message is supported, filtering keeps the whole batch. |
| JavaStrings.BlankIffAllTrimmable | spring-ai-memory-repository-bedrock-agentcore/src/main/java/org/springaicommunity/agentcore/memory/AgentCoreShortMemoryRepository.java:54 | `trim().isEmpty()` holds exactly when every character is at most U+0020. |
| JavaStrings.TrimStart | spring-ai-memory-repository-bedrock-agentcore/src/main/java/org/springaicommunity/agentcore/memory/AgentCoreShortMemoryRepository.java:47 | `trim()`'s left half removes a leading run of characters at most U+0020 and leaves a suffix of the input. That suffix is empty or starts with a character above U+0020. |
| JavaStrings.TrimEnd | spring-ai-memory-repository-bedrock-agentcore/src/main/java/org/springaicommunity/agentcore/memory/AgentCoreShortMemoryRepository.java:54 | `trim()`'s right half removes a trailing run of characters at most U+0020 and leaves a prefix of the input. That prefix is empty or ends with a character above U+0020. |
| JavaStrings.Pieces | spring-ai-memory-repository-bedrock-agentcore/src/main/java/org/springaicommunity/agentcore/memory/AgentCoreShortMemoryRepository.java:61 | Splitting at every separator gives at least one piece, and no piece contains the separator. Rejoining the pieces gives the input back. The first piece is the text before the first separator. |
| JavaStrings.PiecesOfJoin | spring-ai-memory-repository-bedrock-agentcore/src/main/java/org/springaicommunity/agentcore/memory/AgentCoreShortMemoryRepository.java:61 | Splitting a join of separator-free parts gives the parts back. |
| JavaStrings.PiecesHaveContent | spring-ai-memory-repository-bedrock-agentcore/src/main/java/org/springaicommunity/agentcore/memory/AgentCoreShortMemoryRepository.java:61 | Some piece is non-empty exactly when the string has a character other than the separator. |
| JavaStrings.Split | spring-ai-memory-repository-bedrock-agentcore/src/main/java/org/springaicommunity/agentcore/memory/AgentCoreShortMemoryRepository.java:61 | `split` of a string without the separator is the whole string. Otherwise it is a prefix of the pieces between separators that ends with a non-empty piece, and every piece it drops is empty. |
| JavaStrings.SplitEmpty | spring-ai-memory-repository-bedrock-agentcore/src/main/java/org/springaicommunity/agentcore/memory/AgentCoreShortMemoryRepository.java:61-62 | `split` of a string that contains the separator is empty exactly when the string is all separators. |
| JavaStrings.SplitFirstTwo | spring-ai-memory-repository-bedrock-agentcore/src/main/java/org/springaicommunity/agentcore/memory/AgentCoreShortMemoryRepository.java:61-62 | For a string that contains the separator, `split` is empty exactly when the string is all separators. It has two or more pieces exactly when something other than separators follows the first one. Piece 0 is the text before the first separator, and piece 1 is the text between the first and second. |
| JavaStrings.SplitJoinedPair | spring-ai-starter-model-chat-memory-repository-bedrock-agentcore/src/main/java/org/springaicommunity/agentcore/memory/AgentCoreMemoryRepository.java:28-33 | `a + sep + b` splits into exactly [a, b] when neither contains the separator and b is non-empty. |
| JavaStrings.DropTrailingEmpty | spring-ai-memory-repository-bedrock-agentcore/src/main/java/org/springaicommunity/agentcore/memory/AgentCoreShortMemoryRepository.java:61 | `split` drops only trailing empty strings: the result is a prefix of the pieces, and whatever was dropped is empty. |
| Store.PairOf | spring-ai-memory-repository-bedrock-agentcore/src/main/java/org/springaicommunity/agentcore/memory/AgentCoreShortMemoryRepository.java:62 | `new ActorAndSession(parts[0], parts[1])` succeeds exactly when there are two or more pieces. Otherwise it fails at the first index out of bounds. |
| Store.FlattenAppend | spring-ai-memory-repository-bedrock-agentcore/src/main/java/org/springaicommunity/agentcore/memory/AgentCoreShortMemoryRepository.java:81-83 | Flattening payloads distributes over concatenating events, so the result is in event order and then payload order. |
| Store.DeleteEach | spring-ai-memory-repository-bedrock-agentcore/src/main/java/org/springaicommunity/agentcore/memory/AgentCoreShortMemoryRepository.java:219-224 | One deleteEvent per event, in order, each naming that event's id, memory, actor and session. The sweep stops right after the first rejected request and succeeds exactly when none is rejected. |
| Store.SweepPage | spring-ai-memory-repository-bedrock-agentcore/src/main/java/org/springaicommunity/agentcore/memory/AgentCoreShortMemoryRepository.java:209-224 | The list request comes first. A failed list ends the sweep. Otherwise one deleteEvent per listed event follows, in order, stopping right after the first rejected one, and the sweep succeeds exactly when none is rejected. |

## Left out

- I/O and the SDK itself: request builders, the network, and the HTTP
  layer. The client is a scripted parameter, and a call's failure is
  whatever the script says.
- `Instant.now()` event timestamps: the wall clock is not recorded in the
  create request.
- Logging: it has no effect on results.
- Thread safety of the SDK client: the model is sequential.
- A `null` default session passed straight to the paginating repository's
  constructor. Through the configuration record it is never null, and the
  constructor does not check it.
- A `null` memory id passed to the earlier repository: it is stored as
  given and only reaches the SDK's request validation, which is not part
  of this model.
- `null` elements inside a message list, and messages whose text is
  `null`.
- A store that hands out cursors forever: the scripted client answers with
  an SDK failure once its script runs out, so every modelled read
  terminates. An endless cursor chain under the real client is not
  modelled.
- Java's 32-bit `int`/`Integer`: the page size and the limit are only
  compared and passed on, never summed. The event count of a read is
  unbounded here and would overflow in Java only past 2^31 events.
- The exact text of Java's `subList` and index exceptions: the model keeps
  the offending index (`IndexOutOfBounds`, `SubListRange`), not the
  message.
- `toString()` of user and assistant messages: the earlier repository only
  prints a message it rejects. A rejected message is an `OtherMessage`,
  which carries its printed form.
- The auto-configuration and bean-style configuration classes: they are
  dependency-injection wiring.
- The MCP client, the controllers and the example applications.
- `MessageWindowChatMemory` trimming: it belongs to the Spring AI library,
  which is not part of this model.
- The configuration test beside the record in the repository module: it
  uses getters and a no-argument constructor that the record does not
  have.
- Integration and end-to-end tests: they need a live account and a
  language model. Only the `/` ids they pass to the `:` parser are
  modelled.
- `AgentCoreMemoryException` is the `MemoryAccess` error variant; its cause
  is not kept.
- ShortRepository.SaveAll: its own contract states the request shape and
  the outcome, including the index error of an id that does not parse.
  That a request is sent, and what the created event
  carries, are stated by `ShortRepository.SaveAllSendsOneEvent` and
  `ShortRepository.SaveAllRejectsUnknownTypes`.
- The data of a blob payload: the model keeps only that a blob has no
  conversational part.
