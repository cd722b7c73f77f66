/** Requests and responses as wire frames. */
module Envelope {
  import opened Common
  import opened Wire

  /** A message type is a Go string: any bytes. */
  type MessageType = Bytes

  // "\x00hb" and "\x00ack"
  const HEARTBEAT: MessageType := [0, 0x68, 0x62]
  const ACK: MessageType := [0, 0x61, 0x63, 0x6B]

  const CONTROL_HEARTBEAT: byte := 0xCA
  const CONTROL_ACK: byte := 0xCB

  datatype Response = Response(
    id: Bytes, responseToId: Bytes, msgType: MessageType, error: Bytes, binary: Bytes, ackId: Bytes)

  datatype Request = Request(id: Bytes, msgType: MessageType, binary: Bytes)

  function ControlCodeFor(mt: MessageType): Option<byte> {
    if mt == HEARTBEAT then Some(CONTROL_HEARTBEAT)
    else if mt == ACK then Some(CONTROL_ACK)
    else None
  }

  function MessageTypeFor(code: byte): MessageType {
    if code == CONTROL_HEARTBEAT then HEARTBEAT
    else if code == CONTROL_ACK then ACK
    else []
  }

  function ToFrame(mt: MessageType, id: Bytes, responseToId: Bytes, error: Bytes, ackId: Bytes, binary: Bytes): Frame {
    var code := ControlCodeFor(mt);
    if code.Some? then Frame([], code.value, id, responseToId, ackId, error, binary)
    else Frame(mt, 0, id, responseToId, ackId, error, binary)
  }

  function MsgTypeFromFrame(f: Frame): MessageType {
    if f.msgType == [] then MessageTypeFor(f.controlCode) else f.msgType
  }

  function ResponseFrame(r: Response): Frame {
    ToFrame(r.msgType, r.id, r.responseToId, r.error, r.ackId, r.binary)
  }

  function RequestFrame(r: Request): Frame {
    ToFrame(r.msgType, r.id, [], [], [], r.binary)
  }

  /** The bytes of a response, or nil (None) when a field is over its limit. */
  method MarshallResponse(r: Response) returns (data: Option<Bytes>)
    ensures data.Some? <==> Fits(ResponseFrame(r))
    ensures data.Some? ==> data.value == Layout(Needed(ResponseFrame(r)), ResponseFrame(r))
  {
    var encoded, _ := Encode(ResponseFrame(r));
    data := if encoded.Success? then Some(encoded.value) else None;
  }

  method MarshallRequest(r: Request) returns (data: Option<Bytes>)
    ensures data.Some? <==> Fits(RequestFrame(r))
    ensures data.Some? ==> data.value == Layout(Needed(RequestFrame(r)), RequestFrame(r))
  {
    var encoded, _ := Encode(RequestFrame(r));
    data := if encoded.Success? then Some(encoded.value) else None;
  }

  function ResponseOf(f: Frame): Response {
    Response(f.id, f.responseToId, MsgTypeFromFrame(f), f.error, f.binary, f.ackId)
  }

  function RequestOf(f: Frame): Request {
    Request(f.id, MsgTypeFromFrame(f), f.binary)
  }

  method UnmarshallResponse(data: Bytes) returns (r: Result<Response, WireError>)
    ensures r.Success? <==> DecodeFrame(data).Success?
    ensures r.Success? ==> r.value == ResponseOf(DecodeFrame(data).value)
    ensures r.Failure? ==> r.error == DecodeFrame(data).error
  {
    var f := Decode(data);
    r := match f case Success(frame) => Success(ResponseOf(frame)) case Failure(e) => Failure(e);
  }

  method UnmarshallRequest(data: Bytes) returns (r: Result<Request, WireError>)
    ensures r.Success? <==> DecodeFrame(data).Success?
    ensures r.Success? ==> r.value == RequestOf(DecodeFrame(data).value)
    ensures r.Failure? ==> r.error == DecodeFrame(data).error
  {
    var f := Decode(data);
    r := match f case Success(frame) => Success(RequestOf(frame)) case Failure(e) => Failure(e);
  }

  /** Control codes and control message types name each other. */
  lemma ControlCodesInvert(mt: MessageType, code: byte)
    ensures ControlCodeFor(mt) == Some(code) <==> MessageTypeFor(code) == mt && mt != []
    ensures MessageTypeFor(code) == [] <==> forall t: MessageType :: ControlCodeFor(t) != Some(code)
  {
    assert code == CONTROL_HEARTBEAT ==> ControlCodeFor(HEARTBEAT) == Some(code);
    assert code == CONTROL_ACK ==> ControlCodeFor(ACK) == Some(code);
  }

  /** A message type survives the frame, also the empty one and the two control types. */
  lemma MessageTypeSurvives(mt: MessageType, id: Bytes, responseToId: Bytes, error: Bytes, ackId: Bytes, binary: Bytes)
    ensures var f := ToFrame(mt, id, responseToId, error, ackId, binary);
      MsgTypeFromFrame(Canonical(f)) == mt
  {
  }

  /** The two control types are the codes 0xCA and 0xCB on the wire, and no other type is sent as a code. */
  lemma ControlTypesOnTheWire(mt: MessageType)
    ensures ToFrame([0, 0x68, 0x62], [], [], [], [], []) == Frame([], 0xCA, [], [], [], [], [])
    ensures ToFrame([0, 0x61, 0x63, 0x6B], [], [], [], [], []) == Frame([], 0xCB, [], [], [], [], [])
    ensures mt != HEARTBEAT && mt != ACK ==> ToFrame(mt, [], [], [], [], []).msgType == mt
  {
  }

  /**
   Marshalling and unmarshalling a response is the identity whenever it marshals at all,
   and it marshals exactly when its fields fit; a control type always fits.
   */
  method ResponseRoundTrip(r: Response) returns (back: Option<Response>)
    ensures back == if Fits(ResponseFrame(r)) then Some(r) else None
    ensures Fits(ResponseFrame(r)) <==>
      && (|r.msgType| <= MAX_SHORT_FIELD || ControlCodeFor(r.msgType).Some?)
      && |r.id| <= MAX_SHORT_FIELD && |r.responseToId| <= MAX_SHORT_FIELD && |r.ackId| <= MAX_SHORT_FIELD
      && |r.error| <= MAX_ERROR_LEN
  {
    var data := MarshallResponse(r);
    if data.None? {
      return None;
    }
    RoundTrip(ResponseFrame(r));
    MessageTypeSurvives(r.msgType, r.id, r.responseToId, r.error, r.ackId, r.binary);
    var decoded := UnmarshallResponse(data.value);
    back := Some(decoded.value);
  }

  /** The same for requests. */
  method RequestRoundTrip(r: Request) returns (back: Option<Request>)
    ensures back == if Fits(RequestFrame(r)) then Some(r) else None
    ensures Fits(RequestFrame(r)) <==>
      (|r.msgType| <= MAX_SHORT_FIELD || ControlCodeFor(r.msgType).Some?) && |r.id| <= MAX_SHORT_FIELD
  {
    var data := MarshallRequest(r);
    if data.None? {
      return None;
    }
    RoundTrip(RequestFrame(r));
    MessageTypeSurvives(r.msgType, r.id, [], [], [], r.binary);
    var decoded := UnmarshallRequest(data.value);
    back := Some(decoded.value);
  }
}
