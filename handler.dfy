/** The bridge module's message handler (x/proximax-bridge/handler.go):
    a dispatch over the message variants, each handled against the
    module's keeper, with the events it emits collected by an event manager
    made fresh for every message. The keeper it calls is abstract: a log of
    the calls made to it, a function per call giving its answer, and the
    events each call emits into the same event manager (the context is
    shared, so the keeper's bank transfers emit there too). */
module Handler {
  import opened BridgeTypes

  // ---------------------------------------------------------------------
  // Event names. The first three are the SDK's own; the event types and
  // attribute keys of the module are defined in a file that is not part
  // of this model, so their text here is a stand-in.

  const EventTypeMessage := "message"
  const AttributeKeyModule := "module"
  const AttributeKeySender := "sender"
  const EventTypeCreateClaim := "create_claim"
  const AttributeKeyMainchainTxHash := "mainchain_tx_hash"
  const AttributeKeyCosmosReceiver := "cosmos_receiver"
  const EventTypeProphecyStatus := "prophecy_status"
  const AttributeKeyStatus := "status"
  const EventTypeUnpeg := "unpeg"
  const AttributeKeyCosmosSender := "cosmos_sender"
  const AttributeKeyMainchainReceiver := "mainchain_receiver"

  /** The messages a handler can be given: the three it routes, the
      invitation claim (a bridge message it has no case for) and any other
      message, named by its Go type. */
  datatype Msg =
    | PegClaimMsg(peg: MsgPegClaim)
    | UnpegMsg(unpeg: MsgUnpeg)
    | UnpegNotCosignedClaimMsg(notCosigned: MsgUnpegNotCosignedClaim)
    | InvitationNotCosignedClaimMsg(invitation: MsgInvitationNotCosignedClaim)
    | OtherMsg(typeName: string)

  /** The Go type name `%T` prints for a message the handler does not route. */
  function UnroutedTypeName(msg: Msg): string {
    match msg
    case InvitationNotCosignedClaimMsg(_) => "types.MsgInvitationNotCosignedClaim"
    case OtherMsg(t) => t
    case _ => ""
  }

  /** `sdk.Result`: the events of the handled message. */
  datatype HandlerResult = HandlerResult(events: seq<Event>)

  /** What the handler closes over: the address formatter, the module's name
      (in the unknown-request message) and its event category. */
  datatype HandlerConfig = HandlerConfig(lib: Library, moduleName: string, category: string)

  /** A call made to the keeper. */
  datatype KeeperCall =
    | ProcessPegClaimCall(msg: MsgPegClaim)
    | ProcessSuccessfulPegClaimCall(finalClaim: string)
    | ProcessUnpegNotCosignedClaimCall(notCosigned: MsgUnpegNotCosignedClaim)
    | ProcessSuccessfulUnpegNotCosignedClaimCall(claim: string)

  predicate IsSettlement(c: KeeperCall) {
    c.ProcessSuccessfulPegClaimCall? || c.ProcessSuccessfulUnpegNotCosignedClaimCall?
  }

  /** What the keeper answers to each call, given the calls before it, and
      the events the call emits into the context's event manager. */
  datatype KeeperResponses = KeeperResponses(
    pegClaim: (seq<KeeperCall>, MsgPegClaim) -> Result<Status, Error>,
    successfulPegClaim: (seq<KeeperCall>, string) -> Option<Error>,
    notCosignedClaim: (seq<KeeperCall>, MsgUnpegNotCosignedClaim) -> Result<Status, Error>,
    successfulNotCosignedClaim: (seq<KeeperCall>, string) -> Option<Error>,
    emitted: (seq<KeeperCall>, KeeperCall) -> seq<Event>)

  // ---------------------------------------------------------------------
  // Events

  function MessageEvent(category: string, sender: string): (e: Event) {
    Event(EventTypeMessage, [Pair(AttributeKeyModule, category), Pair(AttributeKeySender, sender)])
  }

  /** The events of a handled peg claim. The receiver attribute carries the
      claim's sender address, as the handler writes it. */
  function PegClaimEvents(cfg: HandlerConfig, msg: MsgPegClaim, status: Status): seq<Event> {
    var sender := ValAddressText(cfg.lib, msg.address);
    [ MessageEvent(cfg.category, sender),
      Event(EventTypeCreateClaim, [Pair(AttributeKeyMainchainTxHash, msg.mainchainTxHash),
                                   Pair(AttributeKeyCosmosReceiver, sender)]),
      Event(EventTypeProphecyStatus, [Pair(AttributeKeyStatus, StatusString(status.text))]) ]
  }

  function UnpegEvents(cfg: HandlerConfig, msg: MsgUnpeg): seq<Event> {
    var sender := AccAddressText(cfg.lib, msg.address);
    [ MessageEvent(cfg.category, sender),
      Event(EventTypeUnpeg, [Pair(AttributeKeyCosmosSender, sender),
                             Pair(AttributeKeyMainchainReceiver, msg.mainchainAddress)]) ]
  }

  function NotCosignedClaimEvents(cfg: HandlerConfig, msg: MsgUnpegNotCosignedClaim): seq<Event> {
    [ MessageEvent(cfg.category, ValAddressText(cfg.lib, msg.address)) ]
  }

  // ---------------------------------------------------------------------
  // The handler as a function of the keeper's answers

  /** A handled message: the handler's result, the keeper's call log
      afterwards, and every event emitted into the message's event manager,
      by the keeper and by the handler, in order. */
  datatype Step = Step(result: Result<HandlerResult, Error>, calls: seq<KeeperCall>, events: seq<Event>)

  function PegClaimStep(cfg: HandlerConfig, resp: KeeperResponses, h: seq<KeeperCall>, msg: MsgPegClaim): Step {
    var c1 := ProcessPegClaimCall(msg);
    var h1 := h + [c1];
    var e1 := resp.emitted(h, c1);
    match resp.pegClaim(h, msg)
    case Failure(e) => Step(Failure(e), h1, e1)
    case Success(status) =>
      if status.text == SuccessStatusText then
        var c2 := ProcessSuccessfulPegClaimCall(status.finalClaim);
        var e2 := e1 + resp.emitted(h1, c2);
        match resp.successfulPegClaim(h1, status.finalClaim)
        case Some(e) => Step(Failure(e), h1 + [c2], e2)
        case None =>
          var evs := e2 + PegClaimEvents(cfg, msg, status);
          Step(Success(HandlerResult(evs)), h1 + [c2], evs)
      else
        var evs := e1 + PegClaimEvents(cfg, msg, status);
        Step(Success(HandlerResult(evs)), h1, evs)
  }

  function NotCosignedClaimStep(cfg: HandlerConfig, resp: KeeperResponses, h: seq<KeeperCall>,
                                msg: MsgUnpegNotCosignedClaim): Step {
    var c1 := ProcessUnpegNotCosignedClaimCall(msg);
    var h1 := h + [c1];
    var e1 := resp.emitted(h, c1);
    match resp.notCosignedClaim(h, msg)
    case Failure(e) => Step(Failure(e), h1, e1)
    case Success(status) =>
      if status.text == SuccessStatusText then
        var c2 := ProcessSuccessfulUnpegNotCosignedClaimCall(status.finalClaim);
        var e2 := e1 + resp.emitted(h1, c2);
        match resp.successfulNotCosignedClaim(h1, status.finalClaim)
        case Some(e) => Step(Failure(e), h1 + [c2], e2)
        case None =>
          var evs := e2 + NotCosignedClaimEvents(cfg, msg);
          Step(Success(HandlerResult(evs)), h1 + [c2], evs)
      else
        var evs := e1 + NotCosignedClaimEvents(cfg, msg);
        Step(Success(HandlerResult(evs)), h1, evs)
  }

  /** The closure `NewHandler` returns: route by message type. */
  function Dispatch(cfg: HandlerConfig, resp: KeeperResponses, h: seq<KeeperCall>, msg: Msg): (s: Step)
    ensures h <= s.calls
    ensures s.result.Success? ==> s.result.value.events == s.events
  {
    match msg
    case PegClaimMsg(m) => PegClaimStep(cfg, resp, h, m)
    case UnpegMsg(m) => Step(Success(HandlerResult(UnpegEvents(cfg, m))), h, UnpegEvents(cfg, m))
    case UnpegNotCosignedClaimMsg(m) => NotCosignedClaimStep(cfg, resp, h, m)
    case _ => Step(Failure(UnknownRequest(
                "unrecognized " + cfg.moduleName + " message type: " + UnroutedTypeName(msg))), h, [])
  }

  // ---------------------------------------------------------------------
  // What the handler promises

  /** A message the handler has no case for, the invitation claim among
      them, is an unknown request and reaches no keeper method. */
  lemma UnroutedMessageRejected(cfg: HandlerConfig, resp: KeeperResponses, h: seq<KeeperCall>, msg: Msg)
    requires msg.InvitationNotCosignedClaimMsg? || msg.OtherMsg?
    ensures var s := Dispatch(cfg, resp, h, msg);
      && s.result == Failure(UnknownRequest("unrecognized " + cfg.moduleName + " message type: " + UnroutedTypeName(msg)))
      && s.calls == h
      && s.events == []
  {
  }

  /** Only the two claim messages call the keeper, and every call they make
      is appended to the log. */
  lemma KeeperCalledOnlyForClaims(cfg: HandlerConfig, resp: KeeperResponses, h: seq<KeeperCall>, msg: Msg)
    ensures var s := Dispatch(cfg, resp, h, msg);
      (s.calls != h) <==> (msg.PegClaimMsg? || msg.UnpegNotCosignedClaimMsg?)
  {
  }

  /** A peg claim the keeper refuses returns the keeper's error as it is,
      with no settlement; the manager holds only what that keeper call
      emitted. */
  lemma PegClaimErrorPropagates(cfg: HandlerConfig, resp: KeeperResponses, h: seq<KeeperCall>, msg: MsgPegClaim)
    requires resp.pegClaim(h, msg).Failure?
    ensures Dispatch(cfg, resp, h, PegClaimMsg(msg))
         == Step(Failure(resp.pegClaim(h, msg).error), h + [ProcessPegClaimCall(msg)],
                 resp.emitted(h, ProcessPegClaimCall(msg)))
  {
  }

  /** A peg claim is settled exactly when the oracle's status is Success;
      settlement gets the status's final claim, and its error is the
      handler's error. */
  lemma PegClaimSettlesIffSuccess(cfg: HandlerConfig, resp: KeeperResponses, h: seq<KeeperCall>,
                                  msg: MsgPegClaim, status: Status)
    requires resp.pegClaim(h, msg) == Success(status)
    ensures var s := Dispatch(cfg, resp, h, PegClaimMsg(msg));
      var h1 := h + [ProcessPegClaimCall(msg)];
      && (status.text == SuccessStatusText ==>
            && s.calls == h1 + [ProcessSuccessfulPegClaimCall(status.finalClaim)]
            && (s.result.Failure? <==> resp.successfulPegClaim(h1, status.finalClaim).Some?)
            && (s.result.Failure? ==> s.result.error == resp.successfulPegClaim(h1, status.finalClaim).value))
      && (status.text != SuccessStatusText ==> s.calls == h1 && s.result.Success?)
      && ((exists i :: |h| <= i < |s.calls| && IsSettlement(s.calls[i])) <==> status.text == SuccessStatusText)
  {
    var s := Dispatch(cfg, resp, h, PegClaimMsg(msg));
    var h1 := h + [ProcessPegClaimCall(msg)];
    if status.text == SuccessStatusText {
      assert IsSettlement(s.calls[|h| + 1]);
    } else {
      assert forall i :: |h| <= i < |s.calls| ==> s.calls[i] == ProcessPegClaimCall(msg);
    }
  }

  /** A handled peg claim carries the events its keeper calls emitted (the
      claim's, then the settlement's when there is one), followed by exactly
      three events of the handler, in order: the message event (module,
      sender), the claim event (mainchain tx hash, receiver) and the
      prophecy status event (status text). */
  lemma PegClaimEventsInOrder(cfg: HandlerConfig, resp: KeeperResponses, h: seq<KeeperCall>, msg: MsgPegClaim)
    requires Dispatch(cfg, resp, h, PegClaimMsg(msg)).result.Success?
    ensures var status := resp.pegClaim(h, msg).value;
      var h1 := h + [ProcessPegClaimCall(msg)];
      var keeperEvents := resp.emitted(h, ProcessPegClaimCall(msg))
        + (if status.text == SuccessStatusText
           then resp.emitted(h1, ProcessSuccessfulPegClaimCall(status.finalClaim)) else []);
      var evs := Dispatch(cfg, resp, h, PegClaimMsg(msg)).result.value.events;
      && resp.pegClaim(h, msg).Success?
      && evs == keeperEvents + [
           Event(EventTypeMessage, [Pair(AttributeKeyModule, cfg.category),
                                    Pair(AttributeKeySender, ValAddressText(cfg.lib, msg.address))]),
           Event(EventTypeCreateClaim, [Pair(AttributeKeyMainchainTxHash, msg.mainchainTxHash),
                                        Pair(AttributeKeyCosmosReceiver, ValAddressText(cfg.lib, msg.address))]),
           Event(EventTypeProphecyStatus, [Pair(AttributeKeyStatus, StatusString(status.text))])]
  {
  }

  /** An unpeg makes no keeper call and carries exactly the message event
      and the unpeg event (sender, mainchain receiver). */
  lemma UnpegOnlyEmits(cfg: HandlerConfig, resp: KeeperResponses, h: seq<KeeperCall>, msg: MsgUnpeg)
    ensures var s := Dispatch(cfg, resp, h, UnpegMsg(msg));
      && s.calls == h
      && s.result == Success(HandlerResult([
           Event(EventTypeMessage, [Pair(AttributeKeyModule, cfg.category), Pair(AttributeKeySender, AccAddressText(cfg.lib, msg.address))]),
           Event(EventTypeUnpeg, [Pair(AttributeKeyCosmosSender, AccAddressText(cfg.lib, msg.address)),
                                  Pair(AttributeKeyMainchainReceiver, msg.mainchainAddress)])]))
  {
  }

  /** The not-cosigned claim follows the peg claim's pattern: the keeper's
      error as it is, settlement exactly on Success, and on success the
      keeper calls' events followed by the single message event. */
  lemma NotCosignedClaimFollowsPegPattern(cfg: HandlerConfig, resp: KeeperResponses, h: seq<KeeperCall>,
                                          msg: MsgUnpegNotCosignedClaim)
    ensures var s := Dispatch(cfg, resp, h, UnpegNotCosignedClaimMsg(msg));
      var h1 := h + [ProcessUnpegNotCosignedClaimCall(msg)];
      match resp.notCosignedClaim(h, msg)
      case Failure(e) => s == Step(Failure(e), h1, resp.emitted(h, ProcessUnpegNotCosignedClaimCall(msg)))
      case Success(status) =>
        && (status.text == SuccessStatusText <==> s.calls == h1 + [ProcessSuccessfulUnpegNotCosignedClaimCall(status.finalClaim)])
        && (status.text != SuccessStatusText ==> s.calls == h1)
        && (s.result.Failure? <==>
              status.text == SuccessStatusText && resp.successfulNotCosignedClaim(h1, status.finalClaim).Some?)
        && (s.result.Failure? && status.text == SuccessStatusText ==>
              s.result.error == resp.successfulNotCosignedClaim(h1, status.finalClaim).value)
        && (s.result.Success? ==>
              s.result.value.events
              == resp.emitted(h, ProcessUnpegNotCosignedClaimCall(msg))
                 + (if status.text == SuccessStatusText
                    then resp.emitted(h1, ProcessSuccessfulUnpegNotCosignedClaimCall(status.finalClaim)) else [])
                 + [Event(EventTypeMessage,
                     [Pair(AttributeKeyModule, cfg.category), Pair(AttributeKeySender, ValAddressText(cfg.lib, msg.address))])])
  {
  }

  // ---------------------------------------------------------------------
  // The objects

  /** `sdk.EventManager`: the events emitted so far, in order. */
  class EventManager {
    var events: seq<Event>

    constructor ()
      ensures events == []
    {
      events := [];
    }

    method EmitEvents(evs: seq<Event>)
      modifies this
      ensures events == old(events) + evs
    {
      events := events + evs;
    }
  }

  /** The keeper as the handler sees it. Each call is given the context's
      event manager and emits its events there. */
  class Keeper {
    const responses: KeeperResponses
    var calls: seq<KeeperCall>

    constructor (responses: KeeperResponses)
      ensures this.responses == responses && calls == []
    {
      this.responses := responses;
      calls := [];
    }

    method ProcessPegClaim(em: EventManager, msg: MsgPegClaim) returns (r: Result<Status, Error>)
      modifies this, em
      ensures r == responses.pegClaim(old(calls), msg) && calls == old(calls) + [ProcessPegClaimCall(msg)]
      ensures em.events == old(em.events) + responses.emitted(old(calls), ProcessPegClaimCall(msg))
    {
      r := responses.pegClaim(calls, msg);
      em.EmitEvents(responses.emitted(calls, ProcessPegClaimCall(msg)));
      calls := calls + [ProcessPegClaimCall(msg)];
    }

    method ProcessSuccessfulPegClaim(em: EventManager, finalClaim: string) returns (err: Option<Error>)
      modifies this, em
      ensures err == responses.successfulPegClaim(old(calls), finalClaim)
      ensures calls == old(calls) + [ProcessSuccessfulPegClaimCall(finalClaim)]
      ensures em.events == old(em.events) + responses.emitted(old(calls), ProcessSuccessfulPegClaimCall(finalClaim))
    {
      err := responses.successfulPegClaim(calls, finalClaim);
      em.EmitEvents(responses.emitted(calls, ProcessSuccessfulPegClaimCall(finalClaim)));
      calls := calls + [ProcessSuccessfulPegClaimCall(finalClaim)];
    }

    method ProcessUnpegNotCosignedClaim(em: EventManager, msg: MsgUnpegNotCosignedClaim) returns (r: Result<Status, Error>)
      modifies this, em
      ensures r == responses.notCosignedClaim(old(calls), msg)
      ensures calls == old(calls) + [ProcessUnpegNotCosignedClaimCall(msg)]
      ensures em.events == old(em.events) + responses.emitted(old(calls), ProcessUnpegNotCosignedClaimCall(msg))
    {
      r := responses.notCosignedClaim(calls, msg);
      em.EmitEvents(responses.emitted(calls, ProcessUnpegNotCosignedClaimCall(msg)));
      calls := calls + [ProcessUnpegNotCosignedClaimCall(msg)];
    }

    method ProcessSuccessfulUnpegNotCosignedClaim(em: EventManager, claim: string) returns (err: Option<Error>)
      modifies this, em
      ensures err == responses.successfulNotCosignedClaim(old(calls), claim)
      ensures calls == old(calls) + [ProcessSuccessfulUnpegNotCosignedClaimCall(claim)]
      ensures em.events == old(em.events) + responses.emitted(old(calls), ProcessSuccessfulUnpegNotCosignedClaimCall(claim))
    {
      err := responses.successfulNotCosignedClaim(calls, claim);
      em.EmitEvents(responses.emitted(calls, ProcessSuccessfulUnpegNotCosignedClaimCall(claim)));
      calls := calls + [ProcessSuccessfulUnpegNotCosignedClaimCall(claim)];
    }
  }

  /** The handler `NewHandler` builds, over one keeper. */
  class MsgHandler {
    const cfg: HandlerConfig
    const keeper: Keeper

    constructor (cfg: HandlerConfig, keeper: Keeper)
      ensures this.cfg == cfg && this.keeper == keeper
    {
      this.cfg := cfg;
      this.keeper := keeper;
    }

    /** Each message gets a new event manager, so its result holds only the
        events emitted while handling it. */
    method Handle(msg: Msg) returns (r: Result<HandlerResult, Error>)
      modifies keeper
      ensures var s := Dispatch(cfg, keeper.responses, old(keeper.calls), msg);
        r == s.result && keeper.calls == s.calls
    {
      var em := new EventManager();
      match msg {
        case PegClaimMsg(m) =>
          r := HandleMsgPegClaim(em, m);
          assert em.events == PegClaimStep(cfg, keeper.responses, old(keeper.calls), m).events;
        case UnpegMsg(m) =>
          r := HandleMsgUnpeg(em, m);
          assert em.events == UnpegEvents(cfg, m);
        case UnpegNotCosignedClaimMsg(m) =>
          r := HandleMsgUnpegNotCosignedClaim(em, m);
          assert em.events == NotCosignedClaimStep(cfg, keeper.responses, old(keeper.calls), m).events;
        case _ =>
          r := Failure(UnknownRequest("unrecognized " + cfg.moduleName + " message type: " + UnroutedTypeName(msg)));
      }
    }

    method HandleMsgPegClaim(em: EventManager, msg: MsgPegClaim) returns (r: Result<HandlerResult, Error>)
      modifies keeper, em
      ensures var s := PegClaimStep(cfg, keeper.responses, old(keeper.calls), msg);
        && keeper.calls == s.calls
        && em.events == old(em.events) + s.events
        && (s.result.Failure? ==> r == s.result)
        && (s.result.Success? ==> r == Success(HandlerResult(em.events)))
    {
      var status := keeper.ProcessPegClaim(em, msg);
      if status.Failure? {
        return Failure(status.error);
      }
      if status.value.text == SuccessStatusText {
        var err := keeper.ProcessSuccessfulPegClaim(em, status.value.finalClaim);
        if err.Some? {
          return Failure(err.value);
        }
      }
      em.EmitEvents(PegClaimEvents(cfg, msg, status.value));
      return Success(HandlerResult(em.events));
    }

    method HandleMsgUnpeg(em: EventManager, msg: MsgUnpeg) returns (r: Result<HandlerResult, Error>)
      modifies em
      ensures em.events == old(em.events) + UnpegEvents(cfg, msg)
      ensures r == Success(HandlerResult(em.events))
    {
      em.EmitEvents(UnpegEvents(cfg, msg));
      return Success(HandlerResult(em.events));
    }

    method HandleMsgUnpegNotCosignedClaim(em: EventManager, msg: MsgUnpegNotCosignedClaim)
      returns (r: Result<HandlerResult, Error>)
      modifies keeper, em
      ensures var s := NotCosignedClaimStep(cfg, keeper.responses, old(keeper.calls), msg);
        && keeper.calls == s.calls
        && em.events == old(em.events) + s.events
        && (s.result.Failure? ==> r == s.result)
        && (s.result.Success? ==> r == Success(HandlerResult(em.events)))
    {
      var status := keeper.ProcessUnpegNotCosignedClaim(em, msg);
      if status.Failure? {
        return Failure(status.error);
      }
      if status.value.text == SuccessStatusText {
        var err := keeper.ProcessSuccessfulUnpegNotCosignedClaim(em, status.value.finalClaim);
        if err.Some? {
          return Failure(err.value);
        }
      }
      em.EmitEvents(NotCosignedClaimEvents(cfg, msg));
      return Success(HandlerResult(em.events));
    }
  }
}
