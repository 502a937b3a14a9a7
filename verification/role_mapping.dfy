/** Chat messages and their mapping to and from stored payloads. A message or
    a stored role that is neither user nor assistant is either skipped or
    rejected with an IllegalStateException, as the caller's policy says; the
    surviving elements keep their relative order. A blob payload fails every
    read with a NullPointerException, whatever the policy. */
module RoleMapping {
  import opened Wrappers
  import opened Store

  /** A chat message. `OtherMessage` stands for every other message class
      (system and tool messages): `typeName` is its simple class name and
      `printed` its `toString()`. */
  datatype Message =
    | UserMessage(text: string)
    | AssistantMessage(text: string)
    | OtherMessage(typeName: string, text: string, printed: string)

  predicate Supported(m: Message) {
    !m.OtherMessage?
  }

  /** `getClass().getSimpleName()` */
  function SimpleName(m: Message): string {
    match m
    case UserMessage(_) => "UserMessage"
    case AssistantMessage(_) => "AssistantMessage"
    case OtherMessage(name, _, _) => name
  }

  predicate KnownRole(r: Role) {
    !r.OtherRole?
  }

  /** A payload the repositories can read as a message: a conversational
      payload with a user or assistant role. */
  predicate Readable(p: Payload) {
    p.Payload? && KnownRole(p.role)
  }

  /** Why a payload that is not readable fails a strict read: a blob has no
      conversational part, so asking for its role dereferences null; any
      other role is rejected with `describe(role)`. */
  function ReadFailure(p: Payload, describe: Role -> string): Error {
    if p.BlobPayload? then NullPointer else IllegalState(describe(p.role))
  }

  /** The payload a user or assistant message is stored as. */
  function ToPayload(m: Message): (p: Payload)
    requires Supported(m)
    ensures Readable(p) && p.text == m.text
    ensures m.UserMessage? <==> p.role == User
  {
    match m
    case UserMessage(t) => Payload(User, t)
    case AssistantMessage(t) => Payload(Assistant, t)
  }

  /** The message a user or assistant payload is read back as. */
  function ToMessage(p: Payload): (m: Message)
    requires Readable(p)
    ensures Supported(m) && m.text == p.text
    ensures m.UserMessage? <==> p.role == User
  {
    match p.role
    case User => UserMessage(p.text)
    case Assistant => AssistantMessage(p.text)
  }

  lemma ToMessageUndoesToPayload(m: Message)
    requires Supported(m)
    ensures ToMessage(ToPayload(m)) == m
  {
  }

  lemma ToPayloadUndoesToMessage(p: Payload)
    requires Readable(p)
    ensures ToPayload(ToMessage(p)) == p
  {
  }

  // ---------------------------------------------------------------------
  // Read direction: payloads to messages

  /** Maps the payloads in order. A blob fails the whole read with a null
      dereference whatever the policy. An unknown role is dropped when
      `skipUnknown`, and otherwise fails the whole read with
      `IllegalState(describe(role))`. The first payload that fails decides
      the error. */
  function ReadPayloads(ps: seq<Payload>, skipUnknown: bool, describe: Role -> string): (r: Result<seq<Message>>)
    ensures r.Success? ==> |r.value| <= |ps|
    ensures r.Success? && !skipUnknown ==> |r.value| == |ps|
    ensures r.Failure? ==> r.error == NullPointer || (!skipUnknown && r.error.IllegalState?)
  {
    if ps == [] then Success([])
    else if ps[0].BlobPayload? then Failure(NullPointer)
    else if !KnownRole(ps[0].role) && !skipUnknown then Failure(IllegalState(describe(ps[0].role)))
    else
      match ReadPayloads(ps[1..], skipUnknown, describe)
      case Failure(e) => Failure(e)
      case Success(rest) => Success(if Readable(ps[0]) then [ToMessage(ps[0])] + rest else rest)
  }

  /** The readable payloads, in their original order. */
  function KnownPayloads(ps: seq<Payload>): (r: seq<Payload>)
    ensures |r| <= |ps|
    ensures forall i :: 0 <= i < |r| ==> Readable(r[i])
    ensures forall p :: p in r <==> p in ps && Readable(p)
  {
    if ps == [] then []
    else if Readable(ps[0]) then [ps[0]] + KnownPayloads(ps[1..])
    else KnownPayloads(ps[1..])
  }

  /** The messages of payloads that are all readable, position by position. */
  function AsMessages(ps: seq<Payload>): (r: seq<Message>)
    requires forall i :: 0 <= i < |ps| ==> Readable(ps[i])
    ensures |r| == |ps|
  {
    seq(|ps|, i requires 0 <= i < |ps| => ToMessage(ps[i]))
  }

  lemma AsMessagesCons(p: Payload, ps: seq<Payload>)
    requires Readable(p)
    requires forall i :: 0 <= i < |ps| ==> Readable(ps[i])
    ensures AsMessages([p] + ps) == [ToMessage(p)] + AsMessages(ps)
  {
    assert forall i :: 1 <= i <= |ps| ==> ([p] + ps)[i] == ps[i - 1];
  }

  /** A lenient read fails only on a blob, with a null dereference; without
      blobs it is the readable payloads, filtered in order and then mapped. */
  lemma {:induction false} LenientRead(ps: seq<Payload>, describe: Role -> string)
    ensures ReadPayloads(ps, true, describe).Success? <==> forall i :: 0 <= i < |ps| ==> ps[i].Payload?
    ensures ReadPayloads(ps, true, describe).Success? ==>
      ReadPayloads(ps, true, describe).value == AsMessages(KnownPayloads(ps))
    ensures ReadPayloads(ps, true, describe).Failure? ==> ReadPayloads(ps, true, describe).error == NullPointer
  {
    if ps != [] {
      LenientRead(ps[1..], describe);
      assert forall i :: 1 <= i < |ps| ==> ps[i] == ps[1..][i - 1];
      if Readable(ps[0]) && ReadPayloads(ps[1..], true, describe).Success? {
        AsMessagesCons(ps[0], KnownPayloads(ps[1..]));
      }
    }
  }

  /** A strict read succeeds exactly when every payload is readable, and
      then yields one message per payload in order; otherwise it fails on
      the first payload that is not. */
  lemma {:induction false} StrictRead(ps: seq<Payload>, describe: Role -> string)
    ensures ReadPayloads(ps, false, describe).Success? <==> forall i :: 0 <= i < |ps| ==> Readable(ps[i])
    ensures ReadPayloads(ps, false, describe).Success? ==> ReadPayloads(ps, false, describe).value == AsMessages(ps)
    ensures ReadPayloads(ps, false, describe).Failure? ==>
      exists k :: 0 <= k < |ps| && !Readable(ps[k]) && (forall j :: 0 <= j < k ==> Readable(ps[j]))
        && ReadPayloads(ps, false, describe).error == ReadFailure(ps[k], describe)
  {
    if ps != [] {
      StrictRead(ps[1..], describe);
      var r := ReadPayloads(ps, false, describe);
      if Readable(ps[0]) {
        if r.Success? {
          AsMessagesCons(ps[0], ps[1..]);
          assert [ps[0]] + ps[1..] == ps;
        } else {
          var k :| 0 <= k < |ps[1..]| && !Readable(ps[1..][k])
            && (forall j :: 0 <= j < k ==> Readable(ps[1..][j]))
            && r.error == ReadFailure(ps[1..][k], describe);
          assert ps[k + 1] == ps[1..][k];
          assert forall j :: 1 <= j < k + 1 ==> ps[j] == ps[1..][j - 1];
        }
      }
    }
  }

  // ---------------------------------------------------------------------
  // Write direction: messages to payloads

  /** Maps the messages in order. An unsupported message is dropped when
      `skipUnknown`, and otherwise fails the whole write with
      `IllegalState(describe(message))` for the first such message. */
  function WriteMessages(ms: seq<Message>, skipUnknown: bool, describe: Message -> string): (r: Result<seq<Payload>>)
    ensures skipUnknown ==> r.Success?
    ensures r.Success? ==> |r.value| <= |ms| && forall i :: 0 <= i < |r.value| ==> Readable(r.value[i])
    ensures r.Success? && !skipUnknown ==> |r.value| == |ms|
    ensures r.Failure? ==> r.error.IllegalState?
  {
    if ms == [] then Success([])
    else if !Supported(ms[0]) && !skipUnknown then Failure(IllegalState(describe(ms[0])))
    else
      match WriteMessages(ms[1..], skipUnknown, describe)
      case Failure(e) => Failure(e)
      case Success(rest) => Success(if Supported(ms[0]) then [ToPayload(ms[0])] + rest else rest)
  }

  /** The user and assistant messages, in their original order. */
  function SupportedMessages(ms: seq<Message>): (r: seq<Message>)
    ensures |r| <= |ms|
    ensures forall i :: 0 <= i < |r| ==> Supported(r[i])
    ensures forall m :: m in r <==> m in ms && Supported(m)
  {
    if ms == [] then []
    else if Supported(ms[0]) then [ms[0]] + SupportedMessages(ms[1..])
    else SupportedMessages(ms[1..])
  }

  /** Filtering keeps every message when all are supported. */
  lemma {:induction false} AllSupportedKept(ms: seq<Message>)
    ensures (forall i :: 0 <= i < |ms| ==> Supported(ms[i])) ==> SupportedMessages(ms) == ms
  {
    if ms != [] && forall i :: 0 <= i < |ms| ==> Supported(ms[i]) {
      AllSupportedKept(ms[1..]);
      assert [ms[0]] + ms[1..] == ms;
    }
  }

  /** The payloads of messages that are all supported, position by position. */
  function AsPayloads(ms: seq<Message>): (r: seq<Payload>)
    requires forall i :: 0 <= i < |ms| ==> Supported(ms[i])
    ensures |r| == |ms|
  {
    seq(|ms|, i requires 0 <= i < |ms| => ToPayload(ms[i]))
  }

  lemma AsPayloadsCons(m: Message, ms: seq<Message>)
    requires Supported(m)
    requires forall i :: 0 <= i < |ms| ==> Supported(ms[i])
    ensures AsPayloads([m] + ms) == [ToPayload(m)] + AsPayloads(ms)
  {
    assert forall i :: 1 <= i <= |ms| ==> ([m] + ms)[i] == ms[i - 1];
  }

  /** A lenient write never fails: it is the supported messages, filtered
      in order and then mapped, texts unchanged. */
  lemma {:induction false} LenientWrite(ms: seq<Message>, describe: Message -> string)
    ensures WriteMessages(ms, true, describe) == Success(AsPayloads(SupportedMessages(ms)))
  {
    if ms != [] {
      LenientWrite(ms[1..], describe);
      if Supported(ms[0]) {
        AsPayloadsCons(ms[0], SupportedMessages(ms[1..]));
      }
    }
  }

  /** A strict write succeeds exactly when every message is supported, and
      then yields one payload per message in order; otherwise it fails
      naming the first unsupported message. */
  lemma {:induction false} StrictWrite(ms: seq<Message>, describe: Message -> string)
    ensures WriteMessages(ms, false, describe).Success? <==> forall i :: 0 <= i < |ms| ==> Supported(ms[i])
    ensures WriteMessages(ms, false, describe).Success? ==> WriteMessages(ms, false, describe).value == AsPayloads(ms)
    ensures WriteMessages(ms, false, describe).Failure? ==>
      exists k :: 0 <= k < |ms| && !Supported(ms[k]) && (forall j :: 0 <= j < k ==> Supported(ms[j]))
        && WriteMessages(ms, false, describe).error == IllegalState(describe(ms[k]))
  {
    if ms != [] {
      StrictWrite(ms[1..], describe);
      var r := WriteMessages(ms, false, describe);
      if Supported(ms[0]) {
        if r.Success? {
          AsPayloadsCons(ms[0], ms[1..]);
          assert [ms[0]] + ms[1..] == ms;
        } else {
          var k :| 0 <= k < |ms[1..]| && !Supported(ms[1..][k])
            && (forall j :: 0 <= j < k ==> Supported(ms[1..][j]))
            && r.error == IllegalState(describe(ms[1..][k]));
          assert ms[k + 1] == ms[1..][k];
          assert forall j :: 1 <= j < k + 1 ==> ms[j] == ms[1..][j - 1];
        }
      }
    }
  }

  /** Reading back what a write produced gives the supported messages in
      their original order, whatever the read policy: a written payload
      never has an unknown role. */
  lemma {:induction false} ReadAfterWrite(ms: seq<Message>, skipOnWrite: bool, skipOnRead: bool,
                                          describeMessage: Message -> string, describeRole: Role -> string)
    requires WriteMessages(ms, skipOnWrite, describeMessage).Success?
    ensures ReadPayloads(WriteMessages(ms, skipOnWrite, describeMessage).value, skipOnRead, describeRole)
         == Success(SupportedMessages(ms))
  {
    if ms != [] {
      ReadAfterWrite(ms[1..], skipOnWrite, skipOnRead, describeMessage, describeRole);
      var ps := WriteMessages(ms, skipOnWrite, describeMessage).value;
      if Supported(ms[0]) {
        assert ps[0] == ToPayload(ms[0]);
        assert ps[1..] == WriteMessages(ms[1..], skipOnWrite, describeMessage).value;
      }
    }
  }
}
