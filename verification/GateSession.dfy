/** One client connection through the read gate: what is forwarded to the relay, what is
    answered, and what is delivered back. */
module GateSession {
  import GiftBudget
  import opened ReadPolicy
  import opened Text
  import opened Wrappers

  const AUTH_REQUIRED := "auth-required: NIP-42 AUTH required before REQ"
  const PUBLISH_AUTH_REQUIRED := "auth-required: NIP-42 AUTH required before publishing"
  const COUNT_DISABLED := "restricted: COUNT is disabled"
  const NEG_DISABLED := "restricted: negentropy sync is disabled"
  const RATE_LIMITED := "rate-limited: too many events"
  const PLAIN_DM_BLOCKED := "blocked: kind 4 plain DMs are not accepted"
  const MISSING_AUTH_EVENT := "auth-required: missing AUTH event"

  // --------------------------------------------------------------------- Frames

  /** An element of a tag: a string, or some other JSON value. */
  datatype Part = Text(text: string) | NotText

  datatype JsonTag = Parts(parts: seq<Part>) | NotParts

  /** The fields of a JSON value that the gate looks up, and the rest of it, of which only the verifier
      makes use: the signature, the content and what else there is. A field is `None` where the value is no
      object, has no such field, or has one of another type. */
  datatype JsonEvent = JsonEvent(id: Option<string>, pubkey: Option<string>, kind: Option<nat>, tags: Option<seq<JsonTag>>, rest: string)

  /** The element after the head of a frame. */
  datatype Second = Missing | Str(text: string) | Obj(event: JsonEvent)

  /** What the head of a client frame asks for. */
  datatype Verb = REQ | COUNT | NEG | EVENT | CLOSE | AUTH | OTHER

  predicate StartsWith(s: string, prefix: string) {
    prefix <= s
  }

  function VerbOf(head: string): Verb {
    if head == "REQ" then REQ
    else if head == "COUNT" then COUNT
    else if StartsWith(head, "NEG") then NEG
    else if head == "EVENT" then EVENT
    else if head == "CLOSE" then CLOSE
    else if head == "AUTH" then AUTH
    else OTHER
  }

  /** A text frame from the client: an array with a string at its head, or nothing of the kind. */
  datatype ClientFrame = NotAFrame | Frame(head: string, second: Second) {

    function Verb(): Verb {
      if Frame? then VerbOf(head) else OTHER
    }

    function SubId(): string {
      if Frame? && second.Str? then second.text else ""
    }

    function Event(): JsonEvent {
      if Frame? && second.Obj? then second.event else JsonEvent(None, None, None, None, "")
    }
  }

  /** A text frame from the relay. Its event, if it has one, is the third element. */
  datatype RelayFrame = NotARelayFrame | RelayFrame(head: string, third: Option<JsonEvent>)

  datatype Reply = Closed(subId: string, reason: string) | OkReply(eventId: string, accepted: bool, message: string)

  datatype ClientOutcome = ClientOutcome(toClient: seq<Reply>, toRelay: seq<ClientFrame>)

  /** Checks a signed AUTH event against the challenge; the key it proves, or why it does not. */
  type Verifier = (Second, string) -> Result<string, string>

  function IdOf(event: JsonEvent): string {
    if event.id.Some? then event.id.value else ""
  }

  // ---------------------------------------------------------------- Frame lookup

  /** The well-formed keys of the `p` tags, in order, repeats included. */
  function Recipients(event: JsonEvent): seq<string> {
    match event.tags
    case None => []
    case Some(tags) => RecipientsIn(tags)
  }

  function RecipientsIn(tags: seq<JsonTag>): seq<string> {
    if tags == [] then []
    else
      var front, tag := tags[..|tags| - 1], tags[|tags| - 1];
      RecipientsIn(front) +
      (if tag.Parts? && |tag.parts| >= 2 && tag.parts[0] == Text("p") && tag.parts[1].Text?
          && IsHex64(Canonical(tag.parts[1].text))
       then [Canonical(tag.parts[1].text)] else [])
  }

  method RecipientPubkeys(event: JsonEvent) returns (out: seq<string>)
    ensures out == Recipients(event)
  {
    out := [];
    if event.tags.None? {
      return;
    }
    var tags := event.tags.value;
    for i := 0 to |tags|
      invariant out == RecipientsIn(tags[..i])
    {
      assert tags[..i + 1][..i] == tags[..i];
      if tags[i].NotParts? {
        continue;
      }
      var parts := tags[i].parts;
      if |parts| == 0 || parts[0] != Text("p") {
        continue;
      }
      if |parts| < 2 || !parts[1].Text? {
        continue;
      }
      var pubkey := Canonical(parts[1].text);
      if |pubkey| == 64 && IsHex64(pubkey) {
        out := out + [pubkey];
      }
    }
    assert tags[..|tags|] == tags;
  }

  lemma {:induction false} RecipientsAreKeys(tags: seq<JsonTag>)
    ensures forall recipient :: recipient in RecipientsIn(tags) ==> IsHex64(recipient)
  {
    if tags != [] {
      RecipientsAreKeys(tags[..|tags| - 1]);
    }
  }

  function Strings(parts: seq<Part>): Tag {
    if parts == [] then []
    else (if parts[0].Text? then [parts[0].text] else []) + Strings(parts[1..])
  }

  function StringTags(tags: seq<JsonTag>): seq<Tag> {
    if tags == [] then []
    else (if tags[0].Parts? then [Strings(tags[0].parts)] else []) + StringTags(tags[1..])
  }

  /** The event as the read policy sees it, if it has a key and a kind. */
  function ViewOf(event: JsonEvent): Option<EventView> {
    if event.pubkey.None? || event.kind.None? then None
    else Some(EventView(Canonical(event.pubkey.value), event.kind.value,
                        if event.tags.Some? then StringTags(event.tags.value) else []))
  }

  // -------------------------------------------------------------------- The rules

  /** Session state and the shared budget's buckets. */
  datatype State = State(authed: Option<string>, buckets: GiftBudget.Buckets)

  /** What one client frame meets: the directory and the clock of the moment. */
  datatype Moment = Moment(dir: ReadDirectory, now: nat)

  datatype Limits = Limits(limit: nat, window: nat)

  function WrapKeys(authed: string, frame: ClientFrame): seq<string> {
    GiftBudget.KeysOf(authed, Recipients(frame.Event()))
  }

  predicate GiftAllowed(state: State, limits: Limits, frame: ClientFrame, now: nat)
    requires state.authed.Some?
  {
    GiftBudget.AllHaveRoom(state.buckets, limits.limit, limits.window, WrapKeys(state.authed.value, frame), now)
  }

  function AfterEvent(state: State, limits: Limits, frame: ClientFrame, at: Moment): (State, ClientOutcome) {
    var id := IdOf(frame.Event());
    if state.authed.None? || at.dir.Reader(state.authed.value).None? then
      (state, ClientOutcome([OkReply(id, false, PUBLISH_AUTH_REQUIRED)], []))
    else if frame.Event().kind == Some(PLAIN_DM_KIND) then
      (state, ClientOutcome([OkReply(id, false, PLAIN_DM_BLOCKED)], []))
    else if frame.Event().kind != Some(GIFT_WRAP_KIND) then
      (state, ClientOutcome([], [frame]))
    else
      var keys := WrapKeys(state.authed.value, frame);
      var state' := state.(buckets := GiftBudget.AfterAllow(state.buckets, limits.limit, limits.window, keys, at.now));
      (state', if GiftAllowed(state, limits, frame, at.now)
               then ClientOutcome([], [frame])
               else ClientOutcome([OkReply(id, false, RATE_LIMITED)], []))
  }

  function AfterAuth(state: State, challenge: string, verifier: Verifier, frame: ClientFrame): (State, ClientOutcome)
    requires frame.Frame?
  {
    var id := IdOf(frame.Event());
    if frame.second.Missing? then
      (state, ClientOutcome([OkReply(id, false, MISSING_AUTH_EVENT)], []))
    else
      match verifier(frame.second, challenge)
      case Ok(pubkey) => (state.(authed := Some(Canonical(pubkey))), ClientOutcome([OkReply(id, true, "")], []))
      case Err(reason) => (state, ClientOutcome([OkReply(id, false, "auth-required: " + reason)], []))
  }

  function AfterClient(state: State, challenge: string, verifier: Verifier, limits: Limits, frame: ClientFrame, at: Moment)
    : (State, ClientOutcome)
  {
    match frame.Verb()
    case REQ =>
      (state, if state.authed.None? then ClientOutcome([Closed(frame.SubId(), AUTH_REQUIRED)], [])
              else ClientOutcome([], [frame]))
    case COUNT => (state, ClientOutcome([Closed(frame.SubId(), COUNT_DISABLED)], []))
    case NEG => (state, ClientOutcome([Closed(frame.SubId(), NEG_DISABLED)], []))
    case EVENT => AfterEvent(state, limits, frame, at)
    case CLOSE => (state, ClientOutcome([], [frame]))
    case AUTH => AfterAuth(state, challenge, verifier, frame)
    case OTHER => (state, ClientOutcome([], []))
  }

  /** `None` drops the frame. */
  function OnRelayText(authed: Option<string>, frame: RelayFrame, dir: ReadDirectory): Option<RelayFrame> {
    if frame.NotARelayFrame? || frame.head == "AUTH" then None
    else if frame.head == "EVENT" then
      if frame.third.None? || ViewOf(frame.third.value).None? then None
      else if AllowEvent(authed, ViewOf(frame.third.value).value, dir) == Ok(()) then Some(frame)
      else None
    else Some(frame)
  }

  class GateSession {
    const challenge: string
    var authedPubkey: Option<string>

    constructor (challenge: string)
      ensures this.challenge == challenge && authedPubkey == None
    {
      this.challenge := challenge;
      authedPubkey := None;
    }

    method OnClientText(frame: ClientFrame, verifier: Verifier, dir: ReadDirectory, gifts: GiftBudget.GiftBudget, now: nat)
      returns (outcome: ClientOutcome)
      modifies this, gifts
      ensures
        var (state, result) := AfterClient(State(old(authedPubkey), old(gifts.buckets)), challenge, verifier,
                                           Limits(gifts.limit, gifts.window), frame, Moment(dir, now));
        State(authedPubkey, gifts.buckets) == state && outcome == result
    {
      if frame.NotAFrame? {
        return ClientOutcome([], []);
      }
      match frame.Verb()
      case REQ =>
        outcome := GateReq(frame);
      case COUNT =>
        outcome := ClientOutcome([Closed(frame.SubId(), COUNT_DISABLED)], []);
      case NEG =>
        outcome := ClientOutcome([Closed(frame.SubId(), NEG_DISABLED)], []);
      case EVENT =>
        outcome := GateEvent(frame, dir, gifts, now);
      case CLOSE =>
        outcome := ClientOutcome([], [frame]);
      case AUTH =>
        outcome := OnAuth(frame, verifier);
      case OTHER =>
        outcome := ClientOutcome([], []);
    }

    method GateReq(frame: ClientFrame) returns (outcome: ClientOutcome)
      ensures outcome ==
        if authedPubkey.None? then ClientOutcome([Closed(frame.SubId(), AUTH_REQUIRED)], []) else ClientOutcome([], [frame])
    {
      if authedPubkey.None? {
        return ClientOutcome([Closed(frame.SubId(), AUTH_REQUIRED)], []);
      }
      outcome := ClientOutcome([], [frame]);
    }

    method GateEvent(frame: ClientFrame, dir: ReadDirectory, gifts: GiftBudget.GiftBudget, now: nat)
      returns (outcome: ClientOutcome)
      modifies gifts
      ensures
        var (state, result) := AfterEvent(State(authedPubkey, old(gifts.buckets)),
                                          Limits(gifts.limit, gifts.window), frame, Moment(dir, now));
        gifts.buckets == state.buckets && outcome == result
    {
      var event := frame.Event();
      if authedPubkey.None? {
        return ClientOutcome([OkReply(IdOf(event), false, PUBLISH_AUTH_REQUIRED)], []);
      }
      if dir.Reader(authedPubkey.value).None? {
        return ClientOutcome([OkReply(IdOf(event), false, PUBLISH_AUTH_REQUIRED)], []);
      }
      if event.kind == Some(PLAIN_DM_KIND) {
        return ClientOutcome([OkReply(IdOf(event), false, PLAIN_DM_BLOCKED)], []);
      }
      if event.kind == Some(GIFT_WRAP_KIND) {
        var recipients := RecipientPubkeys(event);
        var allowed := gifts.Allow(authedPubkey.value, recipients, now);
        if !allowed {
          return ClientOutcome([OkReply(IdOf(event), false, RATE_LIMITED)], []);
        }
      }
      outcome := ClientOutcome([], [frame]);
    }

    method OnAuth(frame: ClientFrame, verifier: Verifier) returns (outcome: ClientOutcome)
      requires frame.Frame?
      modifies this
      ensures forall buckets ::
        AfterAuth(State(old(authedPubkey), buckets), challenge, verifier, frame) == (State(authedPubkey, buckets), outcome)
    {
      var id := IdOf(frame.Event());
      if frame.second.Missing? {
        return ClientOutcome([OkReply(id, false, MISSING_AUTH_EVENT)], []);
      }
      match verifier(frame.second, challenge)
      case Ok(pubkey) =>
        authedPubkey := Some(Canonical(pubkey));
        outcome := ClientOutcome([OkReply(id, true, "")], []);
      case Err(reason) =>
        outcome := ClientOutcome([OkReply(id, false, "auth-required: " + reason)], []);
    }
  }
}
