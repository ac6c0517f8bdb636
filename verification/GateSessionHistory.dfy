/** What holds in every run of a session, with directories that change and a budget that
    other connections share. */
module GateSessionHistory {
  import GiftBudget
  import opened GateSession
  import opened ReadPolicy
  import opened Text
  import opened Wrappers

  /** `Others` is what the other connections and the sweeper do to the shared budget. */
  datatype Step =
    | Client(frame: ClientFrame, at: Moment)
    | Relay(message: RelayFrame, dir: ReadDirectory)
    | Others(buckets: GiftBudget.Buckets)

  /** What a connection is set up with. */
  datatype Setup = Setup(challenge: string, verifier: Verifier, limits: Limits)

  function Run(setup: Setup, steps: seq<Step>): State {
    if steps == [] then State(None, map[])
    else
      var state := Run(setup, steps[..|steps| - 1]);
      match steps[|steps| - 1]
      case Relay(_, _) => state
      case Others(buckets) => state.(buckets := buckets)
      case Client(frame, at) => AfterClient(state, setup.challenge, setup.verifier, setup.limits, frame, at).0
  }

  /** What the run sends to the relay at step `k`. */
  function Forwarded(setup: Setup, steps: seq<Step>, k: nat): seq<ClientFrame>
    requires k < |steps| && steps[k].Client?
  {
    AfterClient(Run(setup, steps[..k]), setup.challenge, setup.verifier, setup.limits, steps[k].frame, steps[k].at).1.toRelay
  }

  /** What the run delivers to the client at step `k`. */
  function Delivered(setup: Setup, steps: seq<Step>, k: nat): Option<RelayFrame>
    requires k < |steps| && steps[k].Relay?
  {
    OnRelayText(Run(setup, steps[..k]).authed, steps[k].message, steps[k].dir)
  }

  /** The step is an AUTH frame that the verifier accepts on this connection's challenge. */
  predicate ProvesSome(setup: Setup, step: Step) {
    && step.Client? && step.frame.Verb() == AUTH && !step.frame.second.Missing?
    && setup.verifier(step.frame.second, setup.challenge).Ok?
  }

  /** The step proves `key`. */
  predicate Proves(setup: Setup, step: Step, key: string) {
    && ProvesSome(setup, step)
    && Canonical(setup.verifier(step.frame.second, setup.challenge).value) == key
  }

  /** Step `j` proves `key`, and no step after it and before `n` proves any. */
  ghost predicate ProvedAt(setup: Setup, steps: seq<Step>, n: nat, key: string, j: int)
    requires n <= |steps|
  {
    0 <= j < n && Proves(setup, steps[j], key) && forall i :: j < i < n ==> !ProvesSome(setup, steps[i])
  }

  /** `key` was proved before step `n`, and no other key since. */
  ghost predicate LatestProved(setup: Setup, steps: seq<Step>, n: nat, key: string)
    requires n <= |steps|
  {
    exists j :: ProvedAt(setup, steps, n, key, j)
  }

  lemma {:induction false} StepAuth(setup: Setup, steps: seq<Step>)
    requires steps != []
    ensures
      var before, step := Run(setup, steps[..|steps| - 1]), steps[|steps| - 1];
      && (ProvesSome(setup, step) ==> Run(setup, steps).authed.Some? && Proves(setup, step, Run(setup, steps).authed.value))
      && (!ProvesSome(setup, step) ==> Run(setup, steps).authed == before.authed)
  {
  }

  /** The session is signed in with exactly the key that was proved last. */
  lemma {:induction false} AuthedIsLatestProved(setup: Setup, steps: seq<Step>, key: string)
    ensures Run(setup, steps).authed == Some(key) <==> LatestProved(setup, steps, |steps|, key)
  {
    if steps != [] {
      var last := |steps| - 1;
      var front := steps[..last];
      AuthedIsLatestProved(setup, front, key);
      StepAuth(setup, steps);
      if ProvesSome(setup, steps[last]) {
        if LatestProved(setup, steps, |steps|, key) {
          var j :| ProvedAt(setup, steps, |steps|, key, j);
          assert j == last;
        }
        if Run(setup, steps).authed == Some(key) {
          assert ProvedAt(setup, steps, |steps|, key, last);
        }
      } else {
        if LatestProved(setup, front, last, key) {
          var j :| ProvedAt(setup, front, last, key, j);
          assert ProvedAt(setup, steps, |steps|, key, j);
        }
        if LatestProved(setup, steps, |steps|, key) {
          var j :| ProvedAt(setup, steps, |steps|, key, j);
          assert ProvedAt(setup, front, last, key, j);
        }
      }
    }
  }

  lemma {:induction false} PrefixProved(setup: Setup, steps: seq<Step>, k: nat, key: string)
    requires k <= |steps|
    ensures LatestProved(setup, steps[..k], k, key) <==> LatestProved(setup, steps, k, key)
  {
    var front := steps[..k];
    if LatestProved(setup, front, k, key) {
      var j :| ProvedAt(setup, front, k, key, j);
      assert ProvedAt(setup, steps, k, key, j);
    }
    if LatestProved(setup, steps, k, key) {
      var j :| ProvedAt(setup, steps, k, key, j);
      assert ProvedAt(setup, front, k, key, j);
    }
  }

  // ------------------------------------------------------------------ Main theorems

  /** A wrap within the budget of its sender for each recipient, or no wrap at all. */
  predicate WithinBudget(setup: Setup, state: State, frame: ClientFrame, now: nat)
    requires state.authed.Some?
  {
    frame.Event().kind == Some(GIFT_WRAP_KIND) ==> GiftAllowed(state, setup.limits, frame, now)
  }

  lemma {:induction false} VerbsAreHeads(frame: ClientFrame)
    ensures frame.Verb() == CLOSE <==> frame.Frame? && frame.head == "CLOSE"
    ensures frame.Verb() == REQ <==> frame.Frame? && frame.head == "REQ"
    ensures frame.Verb() == EVENT <==> frame.Frame? && frame.head == "EVENT"
    ensures frame.Verb() == AUTH <==> frame.Frame? && frame.head == "AUTH"
    ensures frame.Verb() == COUNT <==> frame.Frame? && frame.head == "COUNT"
    ensures frame.Verb() == NEG <==> frame.Frame? && |frame.head| >= 3 && frame.head[..3] == "NEG"
  {
    assert "CLOSE"[0] == 'C' && "COUNT"[0] == 'C' && "COUNT"[1] == 'O' && "CLOSE"[1] == 'L';
    assert "REQ"[0] == 'R' && "EVENT"[0] == 'E' && "AUTH"[0] == 'A' && "NEG"[0] == 'N';
    assert frame.Frame? && StartsWith(frame.head, "NEG") ==> frame.head[0] == 'N' && frame.head[..3] == "NEG";
  }

  lemma {:induction false} ProvedIsAuthed(setup: Setup, steps: seq<Step>, k: nat)
    requires k <= |steps|
    ensures forall key :: LatestProved(setup, steps, k, key) <==> Run(setup, steps[..k]).authed == Some(key)
  {
    forall key
      ensures LatestProved(setup, steps, k, key) <==> Run(setup, steps[..k]).authed == Some(key)
    {
      AuthedIsLatestProved(setup, steps[..k], key);
      PrefixProved(setup, steps, k, key);
    }
  }

  /** Exactly what reaches the relay, at every step of every run, and it is never altered: CLOSE always;
      REQ once some key was proved on this challenge; EVENT when the key proved last is then a member's,
      the kind is not 4, and a wrap is within budget. COUNT, negentropy and the rest never do. */
  lemma {:induction false} ForwardedExactly(setup: Setup, steps: seq<Step>, k: nat)
    requires k < |steps| && steps[k].Client?
    ensures Forwarded(setup, steps, k) == [steps[k].frame] || Forwarded(setup, steps, k) == []
    ensures Forwarded(setup, steps, k) != [] <==>
      && steps[k].frame.Frame?
      && (|| steps[k].frame.head == "CLOSE"
          || (steps[k].frame.head == "REQ" && exists key :: LatestProved(setup, steps, k, key))
          || (&& steps[k].frame.head == "EVENT"
              && exists key :: && LatestProved(setup, steps, k, key)
                               && Lower(Trim(key)) in steps[k].at.dir.readers
                               && steps[k].frame.Event().kind != Some(4)
                               && WithinBudget(setup, State(Some(key), Run(setup, steps[..k]).buckets), steps[k].frame, steps[k].at.now)))
  {
    var state := Run(setup, steps[..k]);
    VerbsAreHeads(steps[k].frame);
    ProvedIsAuthed(setup, steps, k);
    if state.authed.Some? {
      assert LatestProved(setup, steps, k, state.authed.value);
    }
  }

  /** COUNT and negentropy frames are never forwarded, whatever came before. */
  lemma {:induction false} CountAndSyncStayHere(setup: Setup, steps: seq<Step>, k: nat)
    requires k < |steps| && steps[k].Client? && steps[k].frame.Frame?
    requires steps[k].frame.head == "COUNT" || (|steps[k].frame.head| >= 3 && steps[k].frame.head[..3] == "NEG")
    ensures Forwarded(setup, steps, k) == []
  {
    VerbsAreHeads(steps[k].frame);
  }

  /** The read policy sees an event that has a key and a kind, with its strings as tags. */
  lemma {:induction false} ViewExactly(event: JsonEvent)
    ensures ViewOf(event).Some? <==> event.pubkey.Some? && event.kind.Some?
    ensures ViewOf(event).Some? ==>
      && ViewOf(event).value.kind == event.kind.value
      && ViewOf(event).value.pubkey == Lower(Trim(event.pubkey.value))
      && ViewOf(event).value.tags == if event.tags.Some? then StringTags(event.tags.value) else []
  {
  }

  /** The strings of a tag, in order: what is no string is skipped. */
  lemma {:induction false} StringsExactly(parts: seq<Part>, more: seq<Part>, text: string)
    ensures Strings([Text(text)]) == [text] && Strings([NotText]) == []
    ensures Strings(parts + more) == Strings(parts) + Strings(more)
  {
    if parts == [] {
      assert parts + more == more;
    } else {
      assert (parts + more)[1..] == parts[1..] + more;
      StringsExactly(parts[1..], more, text);
    }
  }

  /** The tags, in order: what is no array is skipped. */
  lemma {:induction false} StringTagsExactly(tags: seq<JsonTag>, more: seq<JsonTag>, parts: seq<Part>)
    ensures StringTags([Parts(parts)]) == [Strings(parts)] && StringTags([NotParts]) == []
    ensures StringTags(tags + more) == StringTags(tags) + StringTags(more)
  {
    if tags == [] {
      assert tags + more == more;
    } else {
      assert (tags + more)[1..] == tags[1..] + more;
      StringTagsExactly(tags[1..], more, parts);
    }
  }

  /** Exactly what is delivered, at every step of every run, and it is never altered: every frame but text
      that is no frame and the relay's own AUTH challenge; of events those that the key proved last may
      receive under the directory of the moment. A signed-out client is sent no event. */
  lemma {:induction false} DeliveredFramesExactly(setup: Setup, steps: seq<Step>, k: nat)
    requires k < |steps| && steps[k].Relay?
    ensures Delivered(setup, steps, k) == Some(steps[k].message) || Delivered(setup, steps, k) == None
    ensures Delivered(setup, steps, k).Some? <==>
      && steps[k].message.RelayFrame? && steps[k].message.head != "AUTH"
      && (steps[k].message.head == "EVENT" ==>
            && steps[k].message.third.Some? && ViewOf(steps[k].message.third.value).Some?
            && exists key :: && LatestProved(setup, steps, k, key)
                             && MayReceive(key, ViewOf(steps[k].message.third.value).value, steps[k].dir))
  {
    var state := Run(setup, steps[..k]);
    ProvedIsAuthed(setup, steps, k);
    var message := steps[k].message;
    if message.RelayFrame? && message.third.Some? && ViewOf(message.third.value).Some? {
      DeliveredExactly(state.authed, ViewOf(message.third.value).value, steps[k].dir);
    }
    if state.authed.Some? {
      assert LatestProved(setup, steps, k, state.authed.value);
    }
  }

  /** So a wrap is delivered exactly to the members that it is addressed to, on every connection. */
  lemma {:induction false} DeliveredWrapsExactly(setup: Setup, steps: seq<Step>, k: nat, view: EventView)
    requires k < |steps| && steps[k].Relay? && steps[k].message.RelayFrame? && steps[k].message.head == "EVENT"
    requires KeyedByPubkey(steps[k].dir)
    requires steps[k].message.third.Some? && ViewOf(steps[k].message.third.value) == Some(view) && view.kind == 1059
    ensures Delivered(setup, steps, k).Some? <==>
      exists key :: LatestProved(setup, steps, k, key) && Lower(Trim(key)) in steps[k].dir.readers && Addressed(view.tags, Lower(Trim(key)))
  {
    var authed := Run(setup, steps[..k]).authed;
    ProvedIsAuthed(setup, steps, k);
    if authed.Some? {
      WrapsReachTheirRecipients(authed.value, view, steps[k].dir);
      assert LatestProved(setup, steps, k, authed.value);
    }
  }

  // ------------------------------------------------------------------ Single steps

  /** A frame that the gate knows is forwarded or answered, never both, by one reply that names its
      subscription or event; the answer is an acceptance only for an AUTH event that proves a key. */
  lemma {:induction false} AnsweredOrForwarded(setup: Setup, state: State, frame: ClientFrame, at: Moment)
    ensures
      var outcome := AfterClient(state, setup.challenge, setup.verifier, setup.limits, frame, at).1;
      && |outcome.toClient| + |outcome.toRelay| == (if frame.Verb() == OTHER then 0 else 1)
      && forall reply :: reply in outcome.toClient ==>
           if reply.Closed? then frame.Verb() in {REQ, COUNT, NEG} && reply.subId == frame.SubId()
           else && frame.Verb() in {EVENT, AUTH} && reply.eventId == IdOf(frame.Event())
                && (reply.accepted <==> ProvesSome(setup, Client(frame, at)))
  {
  }

  /** Why a publish is refused: not by a member, a plain message, or over the budget, looked at in this order. */
  lemma {:induction false} RefusedExactly(setup: Setup, state: State, frame: ClientFrame, at: Moment)
    requires frame.Frame? && frame.head == "EVENT"
    ensures
      var replies := AfterClient(state, setup.challenge, setup.verifier, setup.limits, frame, at).1.toClient;
      var member := state.authed.Some? && Lower(Trim(state.authed.value)) in at.dir.readers;
      replies ==
        if !member then [OkReply(IdOf(frame.Event()), false, "auth-required: NIP-42 AUTH required before publishing")]
        else if frame.Event().kind == Some(4) then [OkReply(IdOf(frame.Event()), false, "blocked: kind 4 plain DMs are not accepted")]
        else if WithinBudget(setup, state, frame, at.now) then []
        else [OkReply(IdOf(frame.Event()), false, "rate-limited: too many events")]
  {
    VerbsAreHeads(frame);
  }

  /** Which subscriptions are closed and why: a REQ before a proof, every COUNT and every negentropy frame. */
  lemma {:induction false} ClosedExactly(setup: Setup, state: State, frame: ClientFrame, at: Moment, reason: string)
    requires frame.Frame?
    ensures
      var replies := AfterClient(state, setup.challenge, setup.verifier, setup.limits, frame, at).1.toClient;
      Closed(frame.SubId(), reason) in replies <==>
        || (frame.head == "REQ" && state.authed.None? && reason == "auth-required: NIP-42 AUTH required before REQ")
        || (frame.head == "COUNT" && reason == "restricted: COUNT is disabled")
        || (|frame.head| >= 3 && frame.head[..3] == "NEG" && reason == "restricted: negentropy sync is disabled")
  {
    VerbsAreHeads(frame);
  }

  /** The budget is touched only by a gift wrap of a signed-in member, which is then forwarded. */
  lemma {:induction false} BudgetIsForWraps(setup: Setup, state: State, frame: ClientFrame, at: Moment)
    ensures
      var (after, outcome) := AfterClient(state, setup.challenge, setup.verifier, setup.limits, frame, at);
      after.buckets != state.buckets ==>
        && frame.Verb() == EVENT && frame.Event().kind == Some(GIFT_WRAP_KIND)
        && state.authed.Some? && at.dir.Reader(state.authed.value).Some?
        && outcome.toRelay == [frame]
  {
  }
}
