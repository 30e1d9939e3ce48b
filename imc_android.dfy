/**
 * The Android Integrity Measurement Collector (IMC): the entry points of
 * sections 3.8.1 to 3.8.8 of the TCG TNC IF-IMC Specification 1.3, the
 * per-connection state registry they drive, and the dispatch of inbound
 * PA-TNC attributes to the platform's measurement provider.
 *
 * Collaborators whose code is not part of this model enter as parameters:
 * the measurement provider is a function from a requested attribute type
 * (and optional string arguments) to the measured octets or nothing; the
 * outcome of creating the agent, of parsing an inbound message and of
 * handing a message to the transport are given by the caller.
 */
module ImcAndroid {
  import opened Wrappers
  import opened Bytes
  import opened Pen

  type ConnectionId = Uint32
  type ImcId = Uint32
  type Version = Uint32

  /** TNC_IFIMC_VERSION_1, the only IF-IMC version this IMC speaks */
  const IfImcVersion1: Version := 1

  /** TNC_Result codes */
  datatype TncResult =
    | Success | NotInitialized | AlreadyInitialized | NoCommonVersion | CantRetry | WontRetry
    | InvalidParameter | CantRespond | IllegalOperation | Other | Fatal

  /** TNC_ConnectionState values */
  datatype ConnectionState = Create | Handshake | AccessAllowed | AccessIsolated | AccessNone | Delete

  /** TNC_IMV_Evaluation_Result values */
  datatype EvaluationResult = Compliant | MinorNonCompliant | MajorNonCompliant | Error | DontKnow

  /** One connection's record in the registry; no result until one is set */
  datatype ConnRecord = ConnRecord(state: ConnectionState, result: Option<EvaluationResult>)

  /** An outbound PA-TNC attribute made from a measurement */
  datatype Attr = Attr(attrType: PenType, value: seq<Byte>)

  /** The decoded content of an inbound attribute */
  datatype AttrBody =
    | AttributeRequest(entries: seq<PenType>)
    | GetSettings(names: seq<string>)
    | Opaque(value: seq<Byte>)

  /** An inbound attribute: its type and its decoded content */
  datatype InAttr = InAttr(attrType: PenType, body: AttrBody)

  /** The outcome of parsing an inbound message (in_msg->receive) */
  datatype Received = Received(result: TncResult, fatalError: bool, attrs: seq<InAttr>)

  /** A message handed to the transport */
  datatype Message = Message(connId: ConnectionId, exclusive: bool, attrs: seq<Attr>)

  /** The platform's measurement provider: data for a type, given optional arguments */
  type Provider = (PenType, Option<seq<string>>) -> Option<seq<Byte>>

  const AttributeRequestType: PenType := PenType(PenIetf, IetfAttrAttributeRequest)
  const ProductInformationType: PenType := PenType(PenIetf, IetfAttrProductInformation)
  const StringVersionType: PenType := PenType(PenIetf, IetfAttrStringVersion)
  const GetSettingsType: PenType := PenType(PenIta, ItaAttrGetSettings)
  const SettingsType: PenType := PenType(PenIta, ItaAttrSettings)

  /** The parser gives an Attribute Request and a Get Settings attribute their decoded lists */
  predicate WellTyped(a: InAttr) {
    && (a.attrType == AttributeRequestType ==> a.body.AttributeRequest?)
    && (a.attrType == GetSettingsType ==> a.body.GetSettings?)
  }

  predicate AllWellTyped(attrs: seq<InAttr>) {
    forall i :: 0 <= i < |attrs| ==> WellTyped(attrs[i])
  }

  // ----------------------------------------------------------------------
  // What the replies contain
  // ----------------------------------------------------------------------

  /** The attribute a measurement contributes: one if the provider has data, none otherwise */
  function Measurement(provider: Provider, attrType: PenType, args: Option<seq<string>>): (r: seq<Attr>)
    ensures r == [] <==> provider(attrType, args).None?
    ensures r != [] ==> r == [Attr(attrType, provider(attrType, args).value)]
  {
    match provider(attrType, args)
    case Some(data) => [Attr(attrType, data)]
    case None => []
  }

  /** One measurement per requested type, without arguments, in request order */
  function Requested(provider: Provider, entries: seq<PenType>): (r: seq<Attr>)
    ensures |r| <= |entries|
    decreases |entries|
  {
    if entries == [] then []
    else Requested(provider, entries[..|entries| - 1]) + Measurement(provider, entries[|entries| - 1], None)
  }

  /** The requested types the provider has data for, in request order */
  function Available(provider: Provider, entries: seq<PenType>): seq<PenType>
    decreases |entries|
  {
    if entries == [] then []
    else
      var last := entries[|entries| - 1];
      Available(provider, entries[..|entries| - 1]) + (if provider(last, None).Some? then [last] else [])
  }

  /** What an IETF attribute contributes: only an Attribute Request does */
  function IetfReply(provider: Provider, attr: InAttr): (r: seq<Attr>)
    requires attr.attrType.vendorId == PenIetf && WellTyped(attr)
    ensures attr.attrType != AttributeRequestType ==> r == []
    ensures attr.attrType == AttributeRequestType ==> |r| <= |attr.body.entries|
  {
    if attr.attrType.attrType == IetfAttrAttributeRequest then Requested(provider, attr.body.entries) else []
  }

  /** What an ITA attribute contributes: only Get Settings does, one Settings measurement */
  function ItaReply(provider: Provider, attr: InAttr): (r: seq<Attr>)
    requires attr.attrType.vendorId == PenIta && WellTyped(attr)
    ensures attr.attrType != GetSettingsType ==> r == []
    ensures |r| <= 1 && forall a :: a in r ==> a.attrType == SettingsType
  {
    if attr.attrType.attrType == ItaAttrGetSettings then Measurement(provider, SettingsType, Some(attr.body.names)) else []
  }

  /** Dispatch by vendor id, then by type */
  function AttrReply(provider: Provider, attr: InAttr): (r: seq<Attr>)
    requires WellTyped(attr)
    ensures attr.attrType != AttributeRequestType && attr.attrType != GetSettingsType ==> r == []
    ensures attr.attrType == AttributeRequestType ==> |r| <= |attr.body.entries|
    ensures attr.attrType == GetSettingsType ==> |r| <= 1 && forall a :: a in r ==> a.attrType == SettingsType
  {
    if attr.attrType.vendorId == PenIetf then IetfReply(provider, attr)
    else if attr.attrType.vendorId == PenIta then ItaReply(provider, attr)
    else []
  }

  /** The reply to a sequence of inbound attributes */
  function Reply(provider: Provider, attrs: seq<InAttr>): seq<Attr>
    requires AllWellTyped(attrs)
    decreases |attrs|
  {
    if attrs == [] then []
    else Reply(provider, attrs[..|attrs| - 1]) + AttrReply(provider, attrs[|attrs| - 1])
  }

  /** BeginHandshake's message: product information, then string version */
  function Baseline(provider: Provider): (r: seq<Attr>)
    ensures |r| <= 2 && forall a :: a in r ==> a.attrType == ProductInformationType || a.attrType == StringVersionType
    ensures |r| == 2 <==> provider(ProductInformationType, None).Some? && provider(StringVersionType, None).Some?
  {
    Measurement(provider, ProductInformationType, None) + Measurement(provider, StringVersionType, None)
  }

  /** What receive_message returns and sends, given the parse outcome */
  function ReceiveOutcome(connId: ConnectionId, received: Received, provider: Provider, sendResult: TncResult)
    : (r: (TncResult, seq<Message>))
    requires AllWellTyped(received.attrs)
    ensures received.result != Success ==> r.0 == received.result
    ensures received.result == Success && received.fatalError ==> r.0 == Fatal
    ensures |r.1| <= 1 && (r.1 != [] <==> received.result == Success && !received.fatalError)
    ensures r.1 != [] ==> r.0 == sendResult && r.1[0] == Message(connId, true, Reply(provider, received.attrs))
  {
    if received.result != Success then (received.result, [])
    else if received.fatalError then (Fatal, [])
    else (sendResult, [Message(connId, true, Reply(provider, received.attrs))])
  }

  // ----------------------------------------------------------------------
  // Properties of the replies
  // ----------------------------------------------------------------------

  /** Requests concatenate */
  lemma {:induction false} RequestedAppend(provider: Provider, xs: seq<PenType>, ys: seq<PenType>)
    ensures Requested(provider, xs + ys) == Requested(provider, xs) + Requested(provider, ys)
    decreases |ys|
  {
    if ys != [] {
      var ys' := ys[..|ys| - 1];
      assert (xs + ys)[..|xs + ys| - 1] == xs + ys';
      RequestedAppend(provider, xs, ys');
    } else {
      assert xs + ys == xs;
    }
  }

  /** Availability filters concatenate */
  lemma {:induction false} AvailableAppend(provider: Provider, xs: seq<PenType>, ys: seq<PenType>)
    ensures Available(provider, xs + ys) == Available(provider, xs) + Available(provider, ys)
    decreases |ys|
  {
    if ys != [] {
      var ys' := ys[..|ys| - 1];
      assert (xs + ys)[..|xs + ys| - 1] == xs + ys';
      AvailableAppend(provider, xs, ys');
    } else {
      assert xs + ys == xs;
    }
  }

  /**
   * The answer to an Attribute Request is, in request order, exactly one
   * attribute per requested type the provider has data for, carrying that
   * type and the provider's data.
   */
  lemma {:induction false} RequestedIsAvailable(provider: Provider, entries: seq<PenType>)
    ensures var r, a := Requested(provider, entries), Available(provider, entries);
            && |r| == |a|
            && forall k :: 0 <= k < |r| ==>
                 r[k].attrType == a[k] && provider(a[k], None) == Some(r[k].value)
    decreases |entries|
  {
    if entries != [] {
      RequestedIsAvailable(provider, entries[..|entries| - 1]);
    }
  }

  /** When the provider has every requested type, each is answered, in order */
  lemma {:induction false} AllAvailable(provider: Provider, entries: seq<PenType>)
    requires forall k :: 0 <= k < |entries| ==> provider(entries[k], None).Some?
    ensures Available(provider, entries) == entries
    decreases |entries|
  {
    if entries != [] {
      AllAvailable(provider, entries[..|entries| - 1]);
    }
  }

  /** When the provider has none of the requested types, nothing is answered */
  lemma {:induction false} NoneAvailable(provider: Provider, entries: seq<PenType>)
    requires forall k :: 0 <= k < |entries| ==> provider(entries[k], None).None?
    ensures Available(provider, entries) == [] && Requested(provider, entries) == []
    decreases |entries|
  {
    if entries != [] {
      NoneAvailable(provider, entries[..|entries| - 1]);
    }
  }

  /** The available types of a request with exactly one type missing are the others, in order */
  lemma {:induction false} AvailableWithout(provider: Provider, entries: seq<PenType>, k: nat)
    requires k < |entries| && provider(entries[k], None).None?
    requires forall j :: 0 <= j < |entries| && j != k ==> provider(entries[j], None).Some?
    ensures Available(provider, entries) == entries[..k] + entries[k + 1..]
    decreases |entries|
  {
    var n := |entries| - 1;
    var init, last := entries[..n], entries[n];
    if k == n {
      forall j | 0 <= j < |init| ensures provider(init[j], None).Some? {
        assert init[j] == entries[j];
      }
      AllAvailable(provider, init);
      assert entries[k + 1..] == [];
    } else {
      forall j | 0 <= j < |init| && j != k ensures provider(init[j], None).Some? {
        assert init[j] == entries[j];
      }
      assert init[k] == entries[k];
      AvailableWithout(provider, init, k);
      assert init[..k] == entries[..k];
      assert init[k + 1..] + [last] == entries[k + 1..];
    }
  }

  /**
   * Partial-failure isolation: one unavailable measurement among N requested
   * types leaves the other N - 1 in the reply, in order.
   */
  lemma OneUnavailable(provider: Provider, entries: seq<PenType>, k: nat)
    requires k < |entries| && provider(entries[k], None).None?
    requires forall j :: 0 <= j < |entries| && j != k ==> provider(entries[j], None).Some?
    ensures Available(provider, entries) == entries[..k] + entries[k + 1..]
    ensures |Requested(provider, entries)| == |entries| - 1
  {
    AvailableWithout(provider, entries, k);
    RequestedIsAvailable(provider, entries);
  }

  /** Replies concatenate */
  lemma {:induction false} ReplyAppend(provider: Provider, xs: seq<InAttr>, ys: seq<InAttr>)
    requires AllWellTyped(xs) && AllWellTyped(ys)
    ensures AllWellTyped(xs + ys)
    ensures Reply(provider, xs + ys) == Reply(provider, xs) + Reply(provider, ys)
    decreases |ys|
  {
    assert AllWellTyped(xs + ys) by {
      forall i | 0 <= i < |xs + ys| ensures WellTyped((xs + ys)[i]) {
        if i >= |xs| { assert (xs + ys)[i] == ys[i - |xs|]; }
      }
    }
    if ys != [] {
      var ys' := ys[..|ys| - 1];
      assert (xs + ys)[..|xs + ys| - 1] == xs + ys';
      ReplyAppend(provider, xs, ys');
    } else {
      assert xs + ys == xs;
    }
  }

  /** Without an Attribute Request or a Get Settings among the attributes, the reply is empty */
  lemma {:induction false} NothingRequested(provider: Provider, attrs: seq<InAttr>)
    requires AllWellTyped(attrs)
    requires forall i :: 0 <= i < |attrs| ==>
               attrs[i].attrType != AttributeRequestType && attrs[i].attrType != GetSettingsType
    ensures Reply(provider, attrs) == []
    decreases |attrs|
  {
    if attrs != [] {
      var init := attrs[..|attrs| - 1];
      assert forall i :: 0 <= i < |init| ==> init[i] == attrs[i];
      NothingRequested(provider, init);
    }
  }

  /** An attribute that is neither an IETF Attribute Request nor an ITA Get Settings adds nothing */
  lemma OthersIgnored(provider: Provider, xs: seq<InAttr>, attr: InAttr, ys: seq<InAttr>)
    requires AllWellTyped(xs) && AllWellTyped(ys)
    requires attr.attrType != AttributeRequestType && attr.attrType != GetSettingsType
    ensures AllWellTyped(xs + [attr] + ys) && AllWellTyped(xs + ys)
    ensures Reply(provider, xs + [attr] + ys) == Reply(provider, xs + ys)
  {
    var one := [attr];
    assert AllWellTyped(one) by { assert one[0] == attr; }
    assert Reply(provider, one) == [] by {
      assert one[..0] == [];
      assert AttrReply(provider, attr) == [];
    }
    var left := xs + one;
    ReplyAppend(provider, xs, one);
    assert Reply(provider, left) == Reply(provider, xs);
    ReplyAppend(provider, left, ys);
    ReplyAppend(provider, xs, ys);
  }

  // ----------------------------------------------------------------------
  // The connection state registry (imc_agent's state list)
  // ----------------------------------------------------------------------

  /** The agent's registry: at most one record per connection id */
  class Agent {
    var states: map<ConnectionId, ConnRecord>
    /** The result the registry gives when it refuses a request */
    const failure: TncResult

    constructor (failure: TncResult)
      requires failure != Success
      ensures states == map[] && this.failure == failure
    {
      states := map[];
      this.failure := failure;
    }

    /** get_state: whether a record exists for the connection */
    function HasState(connId: ConnectionId): bool reads this {
      connId in states
    }

    /** create_state: refuses a connection id that already has a record */
    method CreateState(connId: ConnectionId) returns (r: TncResult)
      modifies this
      ensures connId in old(states) ==> r == failure && states == old(states)
      ensures connId !in old(states) ==> r == Success && states == old(states)[connId := ConnRecord(Create, None)]
    {
      if connId in states {
        return failure;
      }
      states := states[connId := ConnRecord(Create, None)];
      return Success;
    }

    /** change_state: refuses a connection id without a record */
    method ChangeState(connId: ConnectionId, newState: ConnectionState) returns (r: TncResult)
      modifies this
      ensures connId !in old(states) ==> r == failure && states == old(states)
      ensures connId in old(states) ==>
                r == Success && states == old(states)[connId := old(states)[connId].(state := newState)]
    {
      if connId !in states {
        return failure;
      }
      states := states[connId := states[connId].(state := newState)];
      return Success;
    }

    /** delete_state: refuses a connection id without a record */
    method DeleteState(connId: ConnectionId) returns (r: TncResult)
      modifies this
      ensures connId !in old(states) ==> r == failure && states == old(states)
      ensures connId in old(states) ==> r == Success && states == old(states) - {connId}
    {
      if connId !in states {
        return failure;
      }
      states := states - {connId};
      return Success;
    }

    /** set_result on a connection's state */
    method SetResult(connId: ConnectionId, result: EvaluationResult)
      requires connId in states
      modifies this
      ensures states == old(states)[connId := old(states)[connId].(result := Some(result))]
    {
      states := states[connId := states[connId].(result := Some(result))];
    }
  }

  // ----------------------------------------------------------------------
  // Outbound messages
  // ----------------------------------------------------------------------

  /** An outbound PA-TNC message being assembled (imc_msg_t) */
  class ImcMsg {
    const connId: ConnectionId
    var attrs: seq<Attr>

    constructor (connId: ConnectionId)
      ensures this.connId == connId && attrs == []
    {
      this.connId := connId;
      attrs := [];
    }

    method AddAttribute(attr: Attr)
      modifies this
      ensures attrs == old(attrs) + [attr]
    {
      attrs := attrs + [attr];
    }
  }

  /** add_measurement: append the provider's attribute when there is one, else skip it */
  method AddMeasurement(attrType: PenType, msg: ImcMsg, args: Option<seq<string>>, provider: Provider)
    modifies msg
    ensures msg.attrs == old(msg.attrs) + Measurement(provider, attrType, args)
  {
    var data := provider(attrType, args);
    if data.Some? {
      msg.AddAttribute(Attr(attrType, data.value));
      return;
    }
    // no measurement available: only a diagnostic is logged
  }

  /** handle_ietf_attribute: an Attribute Request yields one measurement per entry */
  method HandleIetfAttribute(attrType: PenType, attr: InAttr, msg: ImcMsg, provider: Provider)
    requires attrType == attr.attrType && attrType.vendorId == PenIetf && WellTyped(attr)
    modifies msg
    ensures msg.attrs == old(msg.attrs) + IetfReply(provider, attr)
  {
    if attrType.attrType == IetfAttrAttributeRequest {
      var entries := attr.body.entries;
      var i := 0;
      while i < |entries|
        invariant 0 <= i <= |entries|
        invariant msg.attrs == old(msg.attrs) + Requested(provider, entries[..i])
      {
        assert entries[..i + 1][..i] == entries[..i];
        AddMeasurement(entries[i], msg, None, provider);
        i := i + 1;
      }
      assert entries[..i] == entries;
    }
  }

  /** handle_ita_attribute: a Get Settings yields one Settings measurement with the names as arguments */
  method HandleItaAttribute(attrType: PenType, attr: InAttr, msg: ImcMsg, provider: Provider)
    requires attrType == attr.attrType && attrType.vendorId == PenIta && WellTyped(attr)
    modifies msg
    ensures msg.attrs == old(msg.attrs) + ItaReply(provider, attr)
  {
    if attrType.attrType == ItaAttrGetSettings {
      AddMeasurement(SettingsType, msg, Some(attr.body.names), provider);
    }
  }

  // ----------------------------------------------------------------------
  // The IMC
  // ----------------------------------------------------------------------

  /** The process-wide IMC: the agent pointer, the measurement library and the transport's log */
  class Imc {
    /** imc_android: null until Initialize, null again after Terminate */
    var agent: Agent?
    /** Whether libpts has been initialised and not yet deinitialised */
    var ptsInitialized: bool
    /** Every message handed to the transport, in order */
    var sent: seq<Message>

    ghost predicate Valid() reads this {
      agent != null ==> agent.failure != Success
    }

    constructor ()
      ensures Valid() && agent == null && !ptsInitialized && sent == []
    {
      agent := null;
      ptsInitialized := false;
      sent := [];
    }

    /** Whether the IMC is initialised */
    function Initialized(): bool reads this {
      agent != null
    }

    /**
     * TNC_IMC_Initialize (section 3.8.1). `created` is what imc_agent_create
     * returned: a new agent with no connection records, or null when it failed.
     */
    method Initialize(imcId: ImcId, minVersion: Version, maxVersion: Version, created: Agent?)
      returns (r: TncResult)
      requires Valid()
      requires created != null ==> created.failure != Success && created.states == map[]
      modifies this`agent, this`ptsInitialized
      ensures Valid()
      ensures old(Initialized()) ==>
                r == AlreadyInitialized && agent == old(agent) && ptsInitialized == old(ptsInitialized)
      ensures !old(Initialized()) && created == null ==>
                r == Fatal && !Initialized() && ptsInitialized == old(ptsInitialized)
      ensures !old(Initialized()) && created != null ==>
                && agent == created && ptsInitialized
                && r == (if minVersion > IfImcVersion1 || maxVersion < IfImcVersion1 then NoCommonVersion else Success)
    {
      if Initialized() {
        return AlreadyInitialized;
      }
      agent := created;
      if agent == null {
        return Fatal;
      }
      ptsInitialized := true;
      if minVersion > IfImcVersion1 || maxVersion < IfImcVersion1 {
        return NoCommonVersion;
      }
      return Success;
    }

    /** TNC_IMC_NotifyConnectionChange (section 3.8.2) */
    method NotifyConnectionChange(imcId: ImcId, connId: ConnectionId, newState: ConnectionState)
      returns (r: TncResult)
      requires Valid()
      modifies agent
      ensures !Initialized() ==> r == NotInitialized
      ensures Initialized() && newState == Create ==>
                if connId in old(agent.states)
                then r == agent.failure && agent.states == old(agent.states)
                else r == Success && agent.states == old(agent.states)[connId := ConnRecord(Create, None)]
      ensures Initialized() && newState == Handshake ==>
                if connId in old(agent.states)
                then r == Success && agent.states == old(agent.states)[connId := ConnRecord(Handshake, Some(DontKnow))]
                else r == Fatal && agent.states == old(agent.states)
      ensures Initialized() && newState == Delete ==>
                if connId in old(agent.states)
                then r == Success && agent.states == old(agent.states) - {connId}
                else r == agent.failure && agent.states == old(agent.states)
      ensures Initialized() && newState !in {Create, Handshake, Delete} ==>
                if connId in old(agent.states)
                then r == Success && agent.states == old(agent.states)[connId := old(agent.states)[connId].(state := newState)]
                else r == agent.failure && agent.states == old(agent.states)
    {
      if !Initialized() {
        return NotInitialized;
      }
      match newState
      case Create =>
        r := agent.CreateState(connId);
      case Handshake =>
        var changed := agent.ChangeState(connId, newState);
        if changed != Success {
          return Fatal;
        }
        agent.SetResult(connId, DontKnow);
        return Success;
      case Delete =>
        r := agent.DeleteState(connId);
      case _ =>
        r := agent.ChangeState(connId, newState);
    }

    /** Hands a message to the transport, which answers sendResult */
    method Send(msg: ImcMsg, exclusive: bool, sendResult: TncResult) returns (r: TncResult)
      modifies this`sent
      ensures sent == old(sent) + [Message(msg.connId, exclusive, msg.attrs)] && r == sendResult
    {
      sent := sent + [Message(msg.connId, exclusive, msg.attrs)];
      r := sendResult;
    }

    /**
     * TNC_IMC_BeginHandshake (section 3.8.3). `sendOsInfo` is the setting
     * android.imc.send_os_info.
     */
    method BeginHandshake(imcId: ImcId, connId: ConnectionId, sendOsInfo: bool,
                          provider: Provider, sendResult: TncResult)
      returns (r: TncResult)
      modifies this`sent
      ensures !Initialized() ==> r == NotInitialized && sent == old(sent)
      ensures Initialized() && connId !in agent.states ==> r == Fatal && sent == old(sent)
      ensures Initialized() && connId in agent.states && !sendOsInfo ==> r == Success && sent == old(sent)
      ensures Initialized() && connId in agent.states && sendOsInfo ==>
                r == sendResult && sent == old(sent) + [Message(connId, false, Baseline(provider))]
    {
      if !Initialized() {
        return NotInitialized;
      }
      if !agent.HasState(connId) {
        return Fatal;
      }
      r := Success;
      if sendOsInfo {
        var outMsg := new ImcMsg(connId);
        AddMeasurement(ProductInformationType, outMsg, None, provider);
        AddMeasurement(StringVersionType, outMsg, None, provider);
        assert outMsg.attrs == Baseline(provider);
        // the exclusive flag is not set
        r := Send(outMsg, false, sendResult);
      }
    }

    /** receive_message: dispatch the parsed attributes and send the reply */
    method ReceiveParsed(connId: ConnectionId, received: Received, provider: Provider, sendResult: TncResult)
      returns (r: TncResult)
      requires AllWellTyped(received.attrs)
      modifies this`sent
      ensures r == ReceiveOutcome(connId, received, provider, sendResult).0
      ensures sent == old(sent) + ReceiveOutcome(connId, received, provider, sendResult).1
    {
      if received.result != Success {
        assert old(sent) + [] == old(sent);
        return received.result;
      }
      var outMsg := new ImcMsg(connId);
      var attrs := received.attrs;
      var i := 0;
      while i < |attrs|
        invariant 0 <= i <= |attrs|
        invariant outMsg.attrs == Reply(provider, attrs[..i])
        invariant sent == old(sent)
      {
        var attr := attrs[i];
        var attrType := attr.attrType;
        assert attrs[..i + 1][..i] == attrs[..i];
        if attrType.vendorId == PenIetf {
          HandleIetfAttribute(attrType, attr, outMsg, provider);
        } else if attrType.vendorId == PenIta {
          HandleItaAttribute(attrType, attr, outMsg, provider);
        }
        i := i + 1;
      }
      assert attrs[..i] == attrs;
      assert outMsg.attrs == Reply(provider, received.attrs);
      if received.fatalError {
        r := Fatal;
      } else {
        r := Send(outMsg, true, sendResult);
      }
    }

    /** TNC_IMC_ReceiveMessage (section 3.8.4); `received` is the parsed message */
    method ReceiveMessage(imcId: ImcId, connId: ConnectionId, msgType: Uint32, received: Received,
                          provider: Provider, sendResult: TncResult)
      returns (r: TncResult)
      requires AllWellTyped(received.attrs)
      modifies this`sent
      ensures !Initialized() ==> r == NotInitialized && sent == old(sent)
      ensures Initialized() && connId !in agent.states ==> r == Fatal && sent == old(sent)
      ensures Initialized() && connId in agent.states ==>
                && r == ReceiveOutcome(connId, received, provider, sendResult).0
                && sent == old(sent) + ReceiveOutcome(connId, received, provider, sendResult).1
    {
      if !Initialized() {
        return NotInitialized;
      }
      if !agent.HasState(connId) {
        return Fatal;
      }
      r := ReceiveParsed(connId, received, provider, sendResult);
    }

    /** TNC_IMC_ReceiveMessageLong; the routing fields only address the reply */
    method ReceiveMessageLong(imcId: ImcId, connId: ConnectionId, msgFlags: Uint32,
                              msgVid: Uint32, msgSubtype: Uint32, srcImvId: Uint32, dstImcId: Uint32,
                              received: Received, provider: Provider, sendResult: TncResult)
      returns (r: TncResult)
      requires AllWellTyped(received.attrs)
      modifies this`sent
      ensures !Initialized() ==> r == NotInitialized && sent == old(sent)
      ensures Initialized() && connId !in agent.states ==> r == Fatal && sent == old(sent)
      ensures Initialized() && connId in agent.states ==>
                && r == ReceiveOutcome(connId, received, provider, sendResult).0
                && sent == old(sent) + ReceiveOutcome(connId, received, provider, sendResult).1
    {
      if !Initialized() {
        return NotInitialized;
      }
      if !agent.HasState(connId) {
        return Fatal;
      }
      r := ReceiveParsed(connId, received, provider, sendResult);
    }

    /** TNC_IMC_BatchEnding (section 3.8.7) */
    method BatchEnding(imcId: ImcId, connId: ConnectionId) returns (r: TncResult)
      ensures r == (if !Initialized() then NotInitialized else Success)
    {
      if !Initialized() {
        return NotInitialized;
      }
      return Success;
    }

    /** TNC_IMC_Terminate (section 3.8.8): libpts goes first, then the agent */
    method Terminate(imcId: ImcId) returns (r: TncResult)
      modifies this`agent, this`ptsInitialized
      ensures Valid()
      ensures !old(Initialized()) ==> r == NotInitialized && !Initialized() && ptsInitialized == old(ptsInitialized)
      ensures old(Initialized()) ==> r == Success && !Initialized() && !ptsInitialized
    {
      if !Initialized() {
        return NotInitialized;
      }
      ptsInitialized := false;
      agent := null;
      return Success;
    }

    /** TNC_IMC_ProvideBindFunction; bindResult is what bind_functions answers */
    method ProvideBindFunction(imcId: ImcId, bindResult: TncResult) returns (r: TncResult)
      ensures r == (if !Initialized() then NotInitialized else bindResult)
    {
      if !Initialized() {
        return NotInitialized;
      }
      return bindResult;
    }
  }

  // ----------------------------------------------------------------------
  // Lifecycle scenarios
  // ----------------------------------------------------------------------

  /** A second Initialize is refused, also after a version mismatch */
  method InitializeTwice(imcId: ImcId, minVersion: Version, maxVersion: Version, failure: TncResult)
    returns (first: TncResult, second: TncResult)
    requires failure != Success
    ensures first == (if minVersion > IfImcVersion1 || maxVersion < IfImcVersion1 then NoCommonVersion else Success)
    ensures second == AlreadyInitialized
  {
    var imc := new Imc();
    var agent := new Agent(failure);
    first := imc.Initialize(imcId, minVersion, maxVersion, agent);
    var other := new Agent(failure);
    second := imc.Initialize(imcId, minVersion, maxVersion, other);
  }

  /** After Terminate every entry point but Initialize reports NotInitialized */
  method AfterTerminate(imcId: ImcId, connId: ConnectionId, failure: TncResult, provider: Provider,
                        received: Received, bindResult: TncResult)
    returns (terminated: TncResult, results: seq<TncResult>)
    requires failure != Success && AllWellTyped(received.attrs)
    ensures terminated == Success
    ensures |results| == 7 && forall k :: 0 <= k < |results| ==> results[k] == NotInitialized
  {
    var imc := new Imc();
    var agent := new Agent(failure);
    var _ := imc.Initialize(imcId, IfImcVersion1, IfImcVersion1, agent);
    terminated := imc.Terminate(imcId);
    var r0 := imc.NotifyConnectionChange(imcId, connId, Create);
    var r1 := imc.BeginHandshake(imcId, connId, true, provider, Success);
    var r2 := imc.ReceiveMessage(imcId, connId, 0, received, provider, Success);
    var r3 := imc.ReceiveMessageLong(imcId, connId, 0, 0, 0, 0, 0, received, provider, Success);
    var r4 := imc.BatchEnding(imcId, connId);
    var r5 := imc.ProvideBindFunction(imcId, bindResult);
    var r6 := imc.Terminate(imcId);
    results := [r0, r1, r2, r3, r4, r5, r6];
  }

  /** Creating the same connection twice is refused the second time */
  method CreateTwice(imcId: ImcId, connId: ConnectionId, failure: TncResult)
    returns (first: TncResult, second: TncResult)
    requires failure != Success
    ensures first == Success && second == failure && second != Success
  {
    var imc := new Imc();
    var agent := new Agent(failure);
    var _ := imc.Initialize(imcId, IfImcVersion1, IfImcVersion1, agent);
    first := imc.NotifyConnectionChange(imcId, connId, Create);
    second := imc.NotifyConnectionChange(imcId, connId, Create);
  }

  /** The reply to one Attribute Request for product information, string version and a type the provider lacks */
  lemma ScenarioReply(provider: Provider, unknown: PenType, productInfo: seq<Byte>, version: seq<Byte>)
    requires provider(ProductInformationType, None) == Some(productInfo)
    requires provider(StringVersionType, None) == Some(version)
    requires provider(unknown, None).None?
    ensures var request := InAttr(AttributeRequestType,
                                  AttributeRequest([ProductInformationType, StringVersionType, unknown]));
            AllWellTyped([request])
            && Reply(provider, [request]) == [Attr(ProductInformationType, productInfo), Attr(StringVersionType, version)]
  {
    var entries := [ProductInformationType, StringVersionType, unknown];
    var request := InAttr(AttributeRequestType, AttributeRequest(entries));
    assert entries[..2] == [ProductInformationType, StringVersionType];
    assert entries[..2][..1] == [ProductInformationType];
    assert entries[..2][..1][..0] == [];
    assert Requested(provider, entries[..2][..1]) == [Attr(ProductInformationType, productInfo)];
    assert Requested(provider, entries) == Requested(provider, entries[..2]);
    assert [request][..0] == [];
    assert Reply(provider, [request]) == Requested(provider, entries);
  }

  /**
   * An Attribute Request for product information, string version and an
   * unknown vendor's type, where the provider has the first two only: the
   * reply holds those two, in that order, and the call succeeds.
   */
  method AttributeRequestScenario(imcId: ImcId, connId: ConnectionId, unknown: PenType,
                                  productInfo: seq<Byte>, version: seq<Byte>)
    returns (r: TncResult, reply: seq<Attr>)
    requires unknown != ProductInformationType && unknown != StringVersionType
    ensures r == Success
    ensures reply == [Attr(ProductInformationType, productInfo), Attr(StringVersionType, version)]
  {
    var provider: Provider := (t: PenType, args: Option<seq<string>>) =>
      if t == ProductInformationType then Some(productInfo)
      else if t == StringVersionType then Some(version)
      else None;
    var imc := new Imc();
    var agent := new Agent(Fatal);
    var _ := imc.Initialize(imcId, IfImcVersion1, IfImcVersion1, agent);
    var _ := imc.NotifyConnectionChange(imcId, connId, Create);
    var _ := imc.NotifyConnectionChange(imcId, connId, Handshake);
    var request := InAttr(AttributeRequestType,
                          AttributeRequest([ProductInformationType, StringVersionType, unknown]));
    var received := Received(Success, false, [request]);
    ScenarioReply(provider, unknown, productInfo, version);
    r := imc.ReceiveMessage(imcId, connId, 0, received, provider, Success);
    reply := imc.sent[|imc.sent| - 1].attrs;
  }
}
