/** The configuration record of the paginating repository, whose canonical
    constructor fills in a default session name and a default page size. */
module Configuration {
  import opened Wrappers

  const DefaultSessionName: string := "default-session"
  const DefaultPageSize: int := 100

  /** The record's components after normalisation. `memoryId` may still be
      null here; the repository constructor rejects that. */
  datatype Config = Config(
    memoryId: Option<string>,
    totalEventsLimit: Option<int>,
    defaultSession: string,
    pageSize: int,
    ignoreUnknownRoles: bool)

  /** What every constructed record satisfies. */
  predicate Normalised(c: Config) {
    c.pageSize > 0
  }

  /** The canonical constructor: a null session name becomes
      "default-session" and a page size that is not positive becomes 100;
      every other component is kept as given. */
  function NewConfig(memoryId: Option<string>, totalEventsLimit: Option<int>, defaultSession: Option<string>,
                     pageSize: int, ignoreUnknownRoles: bool): (c: Config)
    ensures Normalised(c)
    ensures defaultSession.Some? ==> c.defaultSession == defaultSession.value
    ensures defaultSession.None? ==> c.defaultSession == DefaultSessionName
    ensures pageSize > 0 ==> c.pageSize == pageSize
    ensures pageSize <= 0 ==> c.pageSize == DefaultPageSize
    ensures c.memoryId == memoryId && c.totalEventsLimit == totalEventsLimit
    ensures c.ignoreUnknownRoles == ignoreUnknownRoles
  {
    Config(memoryId, totalEventsLimit,
           if defaultSession.Some? then defaultSession.value else DefaultSessionName,
           if pageSize > 0 then pageSize else DefaultPageSize,
           ignoreUnknownRoles)
  }

  /** A normalised record is a fixed point of the constructor. */
  lemma NormalisedIsFixedPoint(c: Config)
    requires Normalised(c)
    ensures NewConfig(c.memoryId, c.totalEventsLimit, Some(c.defaultSession), c.pageSize, c.ignoreUnknownRoles) == c
  {
  }

  /** Normalisation is idempotent: rebuilding a record from its own
      components changes nothing. */
  lemma NormalisationIdempotent(memoryId: Option<string>, totalEventsLimit: Option<int>,
                                defaultSession: Option<string>, pageSize: int, ignoreUnknownRoles: bool)
    ensures var c := NewConfig(memoryId, totalEventsLimit, defaultSession, pageSize, ignoreUnknownRoles);
      NewConfig(c.memoryId, c.totalEventsLimit, Some(c.defaultSession), c.pageSize, c.ignoreUnknownRoles) == c
  {
    NormalisedIsFixedPoint(NewConfig(memoryId, totalEventsLimit, defaultSession, pageSize, ignoreUnknownRoles));
  }

  /** The two cases of the record's unit test: all defaults, and all
      components given. */
  lemma ConfigurationExamples()
    ensures NewConfig(None, None, Some("default-session"), 100, false).defaultSession == "default-session"
    ensures NewConfig(None, None, Some("default-session"), 100, false).pageSize == 100
    ensures NewConfig(Some("test-memory-id"), Some(500), Some("custom-session"), 50, true)
         == Config(Some("test-memory-id"), Some(500), "custom-session", 50, true)
  {
  }
}
