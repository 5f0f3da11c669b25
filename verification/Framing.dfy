/** The wire protocol of host and agent: messages, frames, and frames out of a byte stream. */
module Framing {
  import opened Words
  import opened Options

  datatype MsgType = THello | TScriptLoad | TScriptUnload | TRpcCall | TRpcReply | TSend | TLog | TPost
  {
    function Byte(): u8 {
      match this
      case THello => 1 case TScriptLoad => 2 case TScriptUnload => 3 case TRpcCall => 4
      case TRpcReply => 5 case TSend => 6 case TLog => 7 case TPost => 8
    }
  }

  function MsgTypeOf(b: u8): Option<MsgType> {
    match b
    case 1 => Some(THello) case 2 => Some(TScriptLoad) case 3 => Some(TScriptUnload) case 4 => Some(TRpcCall)
    case 5 => Some(TRpcReply) case 6 => Some(TSend) case 7 => Some(TLog) case 8 => Some(TPost)
    case _ => None
  }

  /** The bodies that are one JSON document. */
  datatype Record =
    | Hello(pid: u32, package: string, sdkInt: u32, abi: string, version: string)
    | ScriptLoad(scriptId: u32, source: string)
    | ScriptUnload(scriptId: u32)
    | RpcCall(scriptId: u32, callId: u32, fnName: string, argsJson: string)
    | RpcReply(callId: u32, resultJson: Option<string>, error: Option<string>)
    | LogMsg(level: string, message: string)
  {
    function Type(): MsgType {
      match this
      case Hello(_, _, _, _, _) => THello
      case ScriptLoad(_, _) => TScriptLoad
      case ScriptUnload(_) => TScriptUnload
      case RpcCall(_, _, _, _) => TRpcCall
      case RpcReply(_, _, _) => TRpcReply
      case LogMsg(_, _) => TLog
    }
  }

  datatype SendPayload = SendPayload(scriptId: u32, payloadJson: string)

  datatype Message =
    | Plain(record: Record)
    | Send(meta: SendPayload, data: Option<seq<u8>>)
    | Post(meta: SendPayload, data: Option<seq<u8>>)
  {
    function Type(): MsgType {
      match this
      case Plain(record) => record.Type()
      case Send(_, _) => TSend
      case Post(_, _) => TPost
    }

    /** No data and data of no bytes are the same on the wire. */
    function Normal(): Message {
      match this
      case Plain(_) => this
      case Send(meta, data) => if data == Some([]) then Send(meta, None) else this
      case Post(meta, data) => if data == Some([]) then Post(meta, None) else this
    }
  }

  /** The JSON library, known only by its round trip. */
  datatype Codec = Codec(
    toVec: Record -> seq<u8>,
    fromSlice: (MsgType, seq<u8>) -> Option<Record>,
    sendToVec: SendPayload -> seq<u8>,
    sendFromSlice: seq<u8> -> Option<SendPayload>)
  {
    ghost predicate Lawful() {
      && (forall r: Record :: fromSlice(r.Type(), toVec(r)) == Some(r))
      && (forall p: SendPayload :: sendFromSlice(sendToVec(p)) == Some(p))
    }
  }

  datatype ProtoError =
    | Truncated(need: nat, have: nat)
    | UnknownType(b: u8)
    | BadLength(len: u32)
    | Json
    | MalformedSend
  datatype Result<+T> = Ok(value: T) | Err(error: ProtoError)

  // ---------- encoding ----------

  function DataBytes(data: Option<seq<u8>>): seq<u8> {
    if data.Some? then data.value else []
  }

  function EncodeSendBody(json: seq<u8>, data: seq<u8>): seq<u8> {
    LE32(Wrap32(|json|)) + json + LE32(Wrap32(|data|)) + data
  }

  function EncodePayload(codec: Codec, m: Message): seq<u8> {
    match m
    case Plain(record) => codec.toVec(record)
    case Send(meta, data) => EncodeSendBody(codec.sendToVec(meta), DataBytes(data))
    case Post(meta, data) => EncodeSendBody(codec.sendToVec(meta), DataBytes(data))
  }

  /** The length of the payload is truncated to 32 bits before the type byte is added. */
  function Encode(codec: Codec, m: Message): Result<seq<u8>> {
    var payload := EncodePayload(codec, m);
    if Wrap32(|payload|) + 1 >= P32 then Err(BadLength(P32 - 1))
    else Ok(LE32(Wrap32(|payload|) + 1) + [m.Type().Byte()] + payload)
  }

  method EncodeMessage(codec: Codec, m: Message) returns (r: Result<seq<u8>>)
    ensures r == Encode(codec, m)
  {
    hide LE32, Wrap32;
    var payload := BuildPayload(codec, m);
    var len := Wrap32(|payload|);
    if 1 + len >= P32 {
      return Err(BadLength(P32 - 1));
    }
    var out: seq<u8> := [];
    out := out + LE32(len + 1);
    out := out + [m.Type().Byte()];
    out := out + payload;
    assert out == LE32(len + 1) + [m.Type().Byte()] + payload;
    return Ok(out);
  }

  method BuildPayload(codec: Codec, m: Message) returns (body: seq<u8>)
    ensures body == EncodePayload(codec, m)
  {
    hide LE32, Wrap32;
    if m.Plain? {
      return codec.toVec(m.record);
    }
    var json := codec.sendToVec(m.meta);
    var data := DataBytes(m.data);
    body := [];
    body := body + LE32(Wrap32(|json|));
    body := body + json;
    body := body + LE32(Wrap32(|data|));
    body := body + data;
  }

  // ---------- decoding ----------

  function FrameLen(buf: seq<u8>): Result<nat> {
    if |buf| < 4 then Err(Truncated(4, |buf|))
    else
      var total := FromLE32(buf[..4]);
      if total < 1 then Err(BadLength(total)) else Ok(4 + total)
  }

  function DecodeSend(codec: Codec, isPost: bool, payload: seq<u8>): Result<Message> {
    if |payload| < 8 then Err(MalformedSend)
    else
      var jsonLen := FromLE32(payload[..4]);
      if |payload| < 4 + jsonLen + 4 then Err(MalformedSend)
      else
        var dataLen := FromLE32(payload[4 + jsonLen..4 + jsonLen + 4]);
        var dataStart := 4 + jsonLen + 4;
        if |payload| < dataStart + dataLen then Err(MalformedSend)
        else
          var meta := codec.sendFromSlice(payload[4..4 + jsonLen]);
          if meta.None? then Err(Json)
          else
            var data := if dataLen == 0 then None else Some(payload[dataStart..dataStart + dataLen]);
            Ok(if isPost then Post(meta.value, data) else Send(meta.value, data))
  }

  function DecodePayload(codec: Codec, t: MsgType, payload: seq<u8>): Result<Message> {
    if t == TSend || t == TPost then DecodeSend(codec, t == TPost, payload)
    else
      var record := codec.fromSlice(t, payload);
      if record.None? then Err(Json) else Ok(Plain(record.value))
  }

  function Decode(codec: Codec, buf: seq<u8>): Result<Message> {
    if |buf| < 5 then Err(Truncated(5, |buf|))
    else
      var total := FromLE32(buf[..4]);
      if total < 1 then Err(BadLength(total))
      else if |buf| < 4 + total then Err(Truncated(4 + total, |buf|))
      else
        var t := MsgTypeOf(buf[4]);
        if t.None? then Err(UnknownType(buf[4])) else DecodePayload(codec, t.value, buf[5..4 + total])
  }

  // ---------- round trips ----------

  lemma TypeRoundTrip(t: MsgType, b: u8)
    ensures MsgTypeOf(t.Byte()) == Some(t)
    ensures MsgTypeOf(b).Some? ==> MsgTypeOf(b).value.Byte() == b
  {}

  /** `payload` is JSON and data, each behind its length, and perhaps more. */
  ghost predicate SendLaid(payload: seq<u8>, json: seq<u8>, data: seq<u8>, more: seq<u8>) {
    |json| < P32 && |data| < P32 && payload == EncodeSendBody(json, data) + more
  }

  /** What the parts of a body make of it; more bytes behind them are ignored. */
  lemma LaidSendDecodes(codec: Codec, isPost: bool, payload: seq<u8>, json: seq<u8>, data: seq<u8>, more: seq<u8>)
    requires SendLaid(payload, json, data, more)
    ensures DecodeSend(codec, isPost, payload)
         == match codec.sendFromSlice(json)
            case None => Err(Json)
            case Some(meta) => Ok(if isPost then Post(meta, Some(data)).Normal() else Send(meta, Some(data)).Normal())
  {
    hide LE32, FromLE32;
    LE32RoundTrip(|json|);
    LE32RoundTrip(|data|);
    Parts(LE32(|json|), json, LE32(|data|), data, more);
  }

  lemma Parts(a: seq<u8>, b: seq<u8>, c: seq<u8>, d: seq<u8>, e: seq<u8>)
    ensures var all := a + b + c + d + e;
      var i, j, k := |a|, |a| + |b|, |a| + |b| + |c|;
      all[..i] == a && all[i..j] == b && all[j..k] == c && all[k..k + |d|] == d
  {}

  lemma SendRoundTrip(codec: Codec, meta: SendPayload, data: Option<seq<u8>>, isPost: bool)
    requires codec.Lawful() && |EncodeSendBody(codec.sendToVec(meta), DataBytes(data))| < P32
    ensures var m := if isPost then Post(meta, data) else Send(meta, data);
      DecodeSend(codec, isPost, EncodeSendBody(codec.sendToVec(meta), DataBytes(data))) == Ok(m.Normal())
  {
    hide DecodeSend, LE32;
    var json, bytes := codec.sendToVec(meta), DataBytes(data);
    var body := EncodeSendBody(json, bytes);
    assert body + [] == body;
    LaidSendDecodes(codec, isPost, body, json, bytes, []);
  }

  lemma PayloadRoundTrip(codec: Codec, m: Message)
    requires codec.Lawful() && |EncodePayload(codec, m)| < P32
    ensures DecodePayload(codec, m.Type(), EncodePayload(codec, m)) == Ok(m.Normal())
  {
    hide DecodeSend, EncodeSendBody;
    match m
    case Plain(record) =>
    case Send(meta, data) => SendRoundTrip(codec, meta, data, false);
    case Post(meta, data) => SendRoundTrip(codec, meta, data, true);
  }

  /** An encoded message comes back, data of no bytes as none, whatever follows it in the buffer. */
  lemma EncodeDecode(codec: Codec, m: Message, rest: seq<u8>)
    requires codec.Lawful() && |EncodePayload(codec, m)| < P32 - 1
    ensures var r := Encode(codec, m);
      && r.Ok? && FrameLen(r.value + rest) == Ok(|r.value|)
      && Decode(codec, r.value + rest) == Ok(m.Normal())
      && (m.Normal() == m <==> (m.Plain? || m.data != Some([])))
  {
    hide LE32, FromLE32, DecodePayload, EncodePayload;
    var payload := EncodePayload(codec, m);
    var b := Encode(codec, m).value;
    LE32RoundTrip(|payload| + 1);
    assert (b + rest)[..4] == LE32(|payload| + 1);
    assert (b + rest)[5..5 + |payload|] == payload;
    TypeRoundTrip(m.Type(), 0);
    PayloadRoundTrip(codec, m);
  }

  /** Encoding fails exactly for payloads one short of a multiple of 2^32. */
  lemma EncodeFails(codec: Codec, m: Message)
    ensures Encode(codec, m).Err? <==> |EncodePayload(codec, m)| % P32 == P32 - 1
    ensures Encode(codec, m).Err? ==> Encode(codec, m) == Err(BadLength(P32 - 1))
  {
    hide EncodePayload, LE32;
  }

  /** The length prefix is right exactly for payloads below 2^32 bytes; beyond, it cuts the frame short. */
  lemma PrefixIsLength(codec: Codec, m: Message)
    requires Encode(codec, m).Ok?
    ensures var b := Encode(codec, m).value;
      && FrameLen(b).Ok? && FrameLen(b).value <= |b|
      && (FrameLen(b).value == |b| <==> |EncodePayload(codec, m)| < P32)
  {
    hide EncodePayload, LE32, FromLE32;
    var payload := EncodePayload(codec, m);
    var b := Encode(codec, m).value;
    LE32RoundTrip(Wrap32(|payload|) + 1);
    assert b[..4] == LE32(Wrap32(|payload|) + 1);
  }

  /** Decoding looks at one frame only. */
  lemma DecodeIgnoresRest(codec: Codec, buf: seq<u8>)
    requires FrameLen(buf).Ok? && FrameLen(buf).value <= |buf|
    ensures Decode(codec, buf) == Decode(codec, buf[..FrameLen(buf).value])
  {
    hide FromLE32, DecodePayload;
    var n := FrameLen(buf).value;
    assert buf[..n][..4] == buf[..4];
    assert buf[..n][5..n] == buf[5..n];
  }

  /** Every strict prefix of an encoded message is reported as truncated, with what it needs at least. */
  lemma PrefixIsTruncated(codec: Codec, m: Message, n: nat)
    requires |EncodePayload(codec, m)| < P32 - 1 && n < |Encode(codec, m).value|
    ensures var b := Encode(codec, m).value;
      Decode(codec, b[..n]) == Err(Truncated(if n < 5 then 5 else |b|, n))
  {
    hide LE32, FromLE32, EncodePayload;
    var payload := EncodePayload(codec, m);
    var b := Encode(codec, m).value;
    if n >= 5 {
      LE32RoundTrip(|payload| + 1);
      assert b[..n][..4] == LE32(|payload| + 1);
    }
  }

  // ---------- what is refused ----------

  /** A complete frame is of unknown type exactly if no message type has its type byte. */
  lemma UnknownTypeExactly(codec: Codec, buf: seq<u8>, b: u8)
    requires FrameLen(buf).Ok? && FrameLen(buf).value <= |buf|
    ensures Decode(codec, buf) == Err(UnknownType(b)) <==> b == buf[4] && forall t: MsgType :: t.Byte() != b
  {
    hide FromLE32;
    if MsgTypeOf(buf[4]).Some? {
      TypeRoundTrip(MsgTypeOf(buf[4]).value, buf[4]);
    }
    if t: MsgType :| t.Byte() == buf[4] {
      TypeRoundTrip(t, buf[4]);
    }
  }

  /** A frame is reported as truncated exactly if it is; one of length zero is refused once five bytes are there. */
  lemma TruncatedExactly(codec: Codec, buf: seq<u8>)
    ensures Decode(codec, buf).Err? && Decode(codec, buf).error.Truncated?
       <==> |buf| < 5 || (FromLE32(buf[..4]) > 0 && |buf| < 4 + FromLE32(buf[..4]))
    ensures Decode(codec, buf).Err? && Decode(codec, buf).error.BadLength? <==> |buf| >= 5 && buf[..4] == [0, 0, 0, 0]
  {
    if |buf| >= 5 {
      ZeroPrefix(buf[..4]);
    }
    hide FromLE32;
  }

  lemma ZeroPrefix(b: seq<u8>)
    requires |b| == 4
    ensures FromLE32(b) == 0 <==> b == [0, 0, 0, 0]
  {}

  /** A body is malformed exactly if it is not laid out so. */
  lemma MalformedExactly(codec: Codec, isPost: bool, payload: seq<u8>)
    ensures DecodeSend(codec, isPost, payload) == Err(MalformedSend)
       <==> !exists json, data, more :: SendLaid(payload, json, data, more)
  {
    hide LE32, FromLE32;
    if json, data, more :| SendLaid(payload, json, data, more) {
      LaidSendDecodes(codec, isPost, payload, json, data, more);
    }
    if DecodeSend(codec, isPost, payload) != Err(MalformedSend) {
      var n: int := FromLE32(payload[..4]);
      var at := 4 + n + 4;
      var k: int := FromLE32(payload[4 + n..at]);
      LaidOut(payload, n, k);
    }
  }

  lemma LaidOut(payload: seq<u8>, n: nat, k: nat)
    requires 8 + n + k <= |payload|
    requires FromLE32(payload[..4]) == n && FromLE32(payload[4 + n..8 + n]) == k
    ensures SendLaid(payload, payload[4..4 + n], payload[8 + n..8 + n + k], payload[8 + n + k..])
  {
    hide LE32, FromLE32;
    FromLE32Back(payload[..4]);
    FromLE32Back(payload[4 + n..8 + n]);
    var json, data, more := payload[4..4 + n], payload[8 + n..8 + n + k], payload[8 + n + k..];
    assert payload == payload[..4] + json + payload[4 + n..8 + n] + data + more;
  }

  lemma FromLE32Back(b: seq<u8>)
    requires |b| == 4
    ensures LE32(FromLE32(b)) == b
  {
    var w := FromLE32(b);
    BytesOfWord(w, b[0], b[1], b[2], b[3]);
    assert LE32(w) == [b[0], b[1], b[2], b[3]];
  }

  lemma BytesOfWord(w: int, b0: int, b1: int, b2: int, b3: int)
    requires 0 <= b0 < 0x100 && 0 <= b1 < 0x100 && 0 <= b2 < 0x100 && 0 <= b3 < 0x100
    requires w == b0 + 0x100 * b1 + 0x1_0000 * b2 + 0x100_0000 * b3
    ensures w % 0x100 == b0 && w / 0x100 % 0x100 == b1 && w / 0x1_0000 % 0x100 == b2 && w / 0x100_0000 == b3
  {
    assert w / 0x100 == b1 + 0x100 * (b2 + 0x100 * b3);
    assert w / 0x1_0000 == b2 + 0x100 * b3;
    assert w / 0x100_0000 == b3;
  }

  // ---------- the client on the other side ----------

  /** What the dump client makes of a frame; its own type numbers are written out. */
  datatype Heard =
    | HeardHello(record: Record)
    | HeardLog(record: Record)
    | HeardSend(meta: Option<SendPayload>, data: seq<u8>)
    | HeardOther(b: u8)

  /** Slices of the client end where the buffer does. */
  function Slice(b: seq<u8>, lo: nat, hi: nat): seq<u8> {
    if lo <= hi <= |b| then b[lo..hi] else if lo <= |b| < hi then b[lo..] else []
  }

  function HearSend(codec: Codec, payload: seq<u8>): Option<Heard> {
    if |payload| < 8 then Some(HeardSend(None, []))
    else
      var jsonLen := FromLE32(payload[..4]);
      var meta := codec.sendFromSlice(Slice(payload, 4, 4 + jsonLen));
      if meta.None? || |payload| < 4 + jsonLen + 4 then None
      else
        var dataLen := FromLE32(payload[4 + jsonLen..4 + jsonLen + 4]);
        Some(HeardSend(meta, Slice(payload, 4 + jsonLen + 4, 4 + jsonLen + 4 + dataLen)))
  }

  /** None where the client raises an exception. */
  function Hear(codec: Codec, frame: seq<u8>): Option<Heard> {
    if |frame| < 5 then None
    else
      var payload := Slice(frame, 5, 4 + FromLE32(frame[..4]));
      if frame[4] == 0x01 then
        var r := codec.fromSlice(THello, payload);
        if r.None? then None else Some(HeardHello(r.value))
      else if frame[4] == 0x07 then
        var r := codec.fromSlice(TLog, payload);
        if r.None? then None else Some(HeardLog(r.value))
      else if frame[4] == 0x06 then HearSend(codec, payload)
      else Some(HeardOther(frame[4]))
  }

  /** What the agent sends, the client hears: greetings, log lines, and payloads with all their data. */
  lemma ClientHearsAgent(codec: Codec, m: Message)
    requires codec.Lawful() && |EncodePayload(codec, m)| < P32 - 1
    ensures Hear(codec, Encode(codec, m).value)
         == Some(match m
                 case Send(meta, data) => HeardSend(Some(meta), DataBytes(data))
                 case Post(_, _) => HeardOther(0x08)
                 case Plain(r) =>
                   if r.Hello? then HeardHello(r)
                   else if r.LogMsg? then HeardLog(r)
                   else if r.ScriptLoad? then HeardOther(0x02)
                   else if r.ScriptUnload? then HeardOther(0x03)
                   else if r.RpcCall? then HeardOther(0x04)
                   else HeardOther(0x05))
  {
    hide LE32, FromLE32, HearSend, EncodePayload;
    var payload, b := EncodePayload(codec, m), Encode(codec, m).value;
    LE32RoundTrip(|payload| + 1);
    assert b[..4] == LE32(|payload| + 1);
    assert Slice(b, 5, 5 + |payload|) == payload;
    PlainPayload(codec, m);
    if m.Send? {
      HearsSend(codec, m.meta, m.data);
    }
  }

  lemma PlainPayload(codec: Codec, m: Message)
    ensures m.Plain? ==> EncodePayload(codec, m) == codec.toVec(m.record)
    ensures m.Send? ==> EncodePayload(codec, m) == EncodeSendBody(codec.sendToVec(m.meta), DataBytes(m.data))
  {}

  lemma HearsSend(codec: Codec, meta: SendPayload, data: Option<seq<u8>>)
    requires codec.Lawful() && |EncodeSendBody(codec.sendToVec(meta), DataBytes(data))| < P32
    ensures HearSend(codec, EncodeSendBody(codec.sendToVec(meta), DataBytes(data)))
         == Some(HeardSend(Some(meta), DataBytes(data)))
  {
    hide LE32, FromLE32;
    var json, bytes := codec.sendToVec(meta), DataBytes(data);
    var body := EncodeSendBody(json, bytes);
    LE32RoundTrip(|json|);
    LE32RoundTrip(|bytes|);
    assert body + [] == body;
    Parts(LE32(|json|), json, LE32(|bytes|), bytes, []);
  }

  /** The frame in which the client sends a script. */
  function ClientScriptLoad(json: seq<u8>): seq<u8>
    requires |json| < P32 - 1
  {
    LE32(1 + |json|) + [0x02] + json
  }

  /** What the client sends, the agent decodes as a script to load, or refuses as bad JSON. */
  lemma AgentHearsClient(codec: Codec, json: seq<u8>, rest: seq<u8>)
    requires |json| < P32 - 1
    ensures FrameLen(ClientScriptLoad(json) + rest) == Ok(5 + |json|)
    ensures Decode(codec, ClientScriptLoad(json) + rest)
         == match codec.fromSlice(TScriptLoad, json) case None => Err(Json) case Some(r) => Ok(Plain(r))
  {
    hide LE32, FromLE32;
    var b := ClientScriptLoad(json) + rest;
    LE32RoundTrip(1 + |json|);
    assert b[..4] == LE32(1 + |json|);
    assert b[5..5 + |json|] == json;
  }

  // ---------- frames out of a stream ----------

  function Flat(chunks: seq<seq<u8>>): seq<u8> {
    if chunks == [] then [] else chunks[0] + Flat(chunks[1..])
  }

  /** How many bytes the frame at the head of `buf` takes, if it is complete. */
  function Complete(buf: seq<u8>): Option<nat> {
    if |buf| < 4 then None
    else
      var need := 4 + FromLE32(buf[..4]);
      if |buf| >= need then Some(need) else None
  }

  /** The frames of a stream, in order, up to the first incomplete one. */
  function Frames(stream: seq<u8>): seq<seq<u8>>
    decreases |stream|
  {
    var need := Complete(stream);
    if need.None? then [] else [stream[..need.value]] + Frames(stream[need.value..])
  }

  /** `f` is one whole frame. */
  predicate IsFrame(f: seq<u8>) { Complete(f) == Some(|f|) }

  /** More bytes do not change the frame at the head. */
  lemma CompleteStays(a: seq<u8>, b: seq<u8>)
    requires Complete(a).Some?
    ensures Complete(a + b) == Complete(a)
  {
    assert (a + b)[..4] == a[..4];
  }

  lemma {:induction false} FramesOfFlat(frames: seq<seq<u8>>)
    requires forall k :: 0 <= k < |frames| ==> IsFrame(frames[k])
    ensures Frames(Flat(frames)) == frames
    decreases |frames|
  {
    if frames != [] {
      var rest := Flat(frames[1..]);
      CompleteStays(frames[0], rest);
      FramesOfFlat(frames[1..]);
      assert (frames[0] + rest)[..|frames[0]|] == frames[0];
      assert (frames[0] + rest)[|frames[0]|..] == rest;
    }
  }

  /** A client session; `incoming` are the chunks that the socket will yield before it is closed. */
  class Session {
    var buf: seq<u8>
    var incoming: seq<seq<u8>>

    constructor (incoming: seq<seq<u8>>)
      requires forall k :: 0 <= k < |incoming| ==> incoming[k] != []
      ensures Valid() && Stream() == Flat(incoming)
    {
      buf := [];
      this.incoming := incoming;
    }

    ghost predicate Valid()
      reads this
    {
      forall k :: 0 <= k < |incoming| ==> incoming[k] != []
    }

    /** All bytes not yet handed out. */
    ghost function Stream(): seq<u8>
      reads this
    {
      buf + Flat(incoming)
    }

    /** One frame, however the stream was cut into chunks; none if the agent closes the connection first. */
    method ReadFrame() returns (r: Option<seq<u8>>)
      requires Valid()
      modifies this
      ensures Valid()
      ensures r.Some? ==> IsFrame(r.value) && old(Stream()) == r.value + Stream()
      ensures r.None? ==> Stream() == old(Stream()) && Complete(Stream()) == None
    {
      hide FromLE32;
      while true
        invariant Valid() && Stream() == old(Stream())
        decreases |incoming|
      {
        if |buf| >= 4 {
          var need := 4 + FromLE32(buf[..4]);
          if |buf| >= need {
            var frame := buf[..need];
            assert frame[..4] == buf[..4];
            assert buf == frame + buf[need..];
            buf := buf[need..];
            assert old(Stream()) == frame + Stream();
            return Some(frame);
          }
        }
        if incoming == [] {
          assert Stream() == buf;
          return None;
        }
        assert buf + (incoming[0] + Flat(incoming[1..])) == buf + incoming[0] + Flat(incoming[1..]);
        buf := buf + incoming[0];
        incoming := incoming[1..];
      }
    }

    /** Reads until the agent closes the connection. */
    method ReadAll() returns (frames: seq<seq<u8>>)
      requires Valid()
      modifies this
      ensures frames == Frames(old(Stream()))
    {
      frames := [];
      while true
        invariant Valid()
        invariant Frames(old(Stream())) == frames + Frames(Stream())
        decreases |Stream()|
      {
        ghost var stream := Stream();
        var r := ReadFrame();
        if r.None? {
          return;
        }
        CompleteStays(r.value, Stream());
        assert stream[..|r.value|] == r.value && stream[|r.value|..] == Stream();
        frames := frames + [r.value];
      }
    }
  }

  function EncodeAll(codec: Codec, msgs: seq<Message>): (frames: seq<seq<u8>>)
    requires forall k :: 0 <= k < |msgs| ==> |EncodePayload(codec, msgs[k])| < P32 - 1
    ensures |frames| == |msgs|
  {
    seq(|msgs|, k requires 0 <= k < |msgs| => Encode(codec, msgs[k]).value)
  }

  /**
   * Any list of messages, sent one after the other and received in any pieces, arrives: the frames of
   * the stream are the encodings, in order, and each decodes to its message.
   */
  lemma StreamDelivers(codec: Codec, msgs: seq<Message>, chunks: seq<seq<u8>>)
    requires codec.Lawful() && forall k :: 0 <= k < |msgs| ==> |EncodePayload(codec, msgs[k])| < P32 - 1
    requires Flat(chunks) == Flat(EncodeAll(codec, msgs))
    ensures var frames := Frames(Flat(chunks));
      |frames| == |msgs| && forall k :: 0 <= k < |msgs| ==> Decode(codec, frames[k]) == Ok(msgs[k].Normal())
  {
    hide EncodePayload, Encode, Decode, FromLE32;
    var frames := EncodeAll(codec, msgs);
    forall k | 0 <= k < |msgs|
      ensures IsFrame(frames[k]) && Decode(codec, frames[k]) == Ok(msgs[k].Normal())
    {
      EncodeDecode(codec, msgs[k], []);
      assert frames[k] + [] == frames[k];
    }
    FramesOfFlat(frames);
  }
}
