/** Wire codec of the Doubao transport: base-128 varints, length-delimited
    fields, the request encoder and the response decoder.

    The encoding is that of the Protocol Buffers Encoding specification,
    sections "Base 128 Varints", "Message Structure" and "Last One Wins".
    Every malformation is `None`: callers discard which one it was. */
module Protobuf {
  import opened Base
  import Utf8

  const MAX_MESSAGE_BYTES := 4 * 1024 * 1024
  const U64_RANGE := 0x1_0000_0000_0000_0000
  const U32_RANGE := 0x1_0000_0000

  // ----- varints

  function EncodeVarint(value: nat): (b: bytes)
    ensures b != []
  {
    if value < 0x80 then [value] else [value % 0x80 + 0x80] + EncodeVarint(value / 0x80)
  }

  method WriteVarint(output: bytes, value: nat) returns (written: bytes)
    ensures written == output + EncodeVarint(value)
  {
    written := output;
    var rest := value;
    while rest >= 0x80
      invariant written + EncodeVarint(rest) == output + EncodeVarint(value)
    {
      written := written + [rest % 0x80 + 0x80];
      rest := rest / 0x80;
    }
    written := written + [rest];
  }

  /** How much a varint may still add once k of its ten bytes are read. */
  function Room(k: nat): (r: nat)
    requires k <= 9
    ensures r >= 2
    decreases 9 - k
  {
    if k == 9 then 2 else 0x80 * Room(k + 1)
  }

  lemma RoomIsU64()
    ensures Room(0) == U64_RANGE
  {
    assert Room(6) == 0x80 * 0x80 * 0x80 * 2;
    assert Room(3) == 0x80 * 0x80 * 0x80 * Room(6);
  }

  /** Reads byte k onwards of a varint at the front of b: the value and the bytes used. */
  function ReadVarintFrom(b: bytes, k: nat): (r: Option<(nat, nat)>)
    requires k <= 9
    ensures r.Some? ==> r.value.0 < Room(k) && 0 < r.value.1 <= |b| && r.value.1 <= 10 - k
    decreases 9 - k
  {
    if b == [] then None
    else if k == 9 then (if b[0] > 1 then None else Some((b[0], 1)))
    else if b[0] < 0x80 then Some((b[0], 1))
    else
      var rest :- ReadVarintFrom(b[1..], k + 1);
      Some((b[0] % 0x80 + 0x80 * rest.0, rest.1 + 1))
  }

  function ReadVarint(b: bytes): (r: Option<(nat, nat)>)
    ensures r.Some? ==> r.value.0 < U64_RANGE && 0 < r.value.1 <= |b| && r.value.1 <= 10
  {
    RoomIsU64();
    ReadVarintFrom(b, 0)
  }

  /** A reading of the remaining bytes, completed with the bits collected before them. */
  function Resume(value: nat, scale: nat, k: nat, rest: Option<(nat, nat)>)
    : Option<(nat, nat)>
  {
    match rest
    case Some((high, used)) => Some((value + scale * high, k + used))
    case None => None
  }

  lemma ReadVarintStep(b: bytes, k: nat)
    requires k <= 9 && b != []
    ensures k == 9 && b[0] > 1 ==> ReadVarintFrom(b, k) == None
    ensures k == 9 && b[0] <= 1 ==> ReadVarintFrom(b, k) == Some((b[0], 1))
    ensures k < 9 && b[0] < 0x80 ==> ReadVarintFrom(b, k) == Some((b[0], 1))
    ensures k < 9 && b[0] >= 0x80 ==>
              ReadVarintFrom(b, k) ==
              match ReadVarintFrom(b[1..], k + 1)
              case Some((high, used)) => Some((b[0] % 0x80 + 0x80 * high, used + 1))
              case None => None
  {
  }

  lemma Distribute(scale: int, low: int, high: int)
    ensures scale * (low + 0x80 * high) == scale * low + scale * 0x80 * high
  {
  }

  lemma ResumeMore(value: nat, scale: nat, k: nat, low: nat, high: nat, used: nat)
    ensures Resume(value, scale, k, Some((low + 0x80 * high, used + 1)))
            == Resume(value + scale * low, scale * 0x80, k + 1, Some((high, used)))
  {
    Distribute(scale, low, high);
  }

  lemma ResumeLast(value: nat, scale: nat, k: nat, low: nat)
    ensures Resume(value, scale, k, Some((low, 1))) == Some((value + scale * low, k + 1))
    ensures Resume(value, scale, k, None) == None
  {
  }

  lemma ResumeStep(value: nat, scale: nat, b: bytes, k: nat)
    requires k <= 9 && b != []
    ensures Resume(value, scale, k, ReadVarintFrom(b, k)) ==
            if k == 9 && b[0] > 1 then None
            else if b[0] < 0x80 then Some((value + scale * (b[0] % 0x80), k + 1))
            else Resume(value + scale * (b[0] % 0x80), scale * 0x80, k + 1, ReadVarintFrom(b[1..], k + 1))
  {
    hide ReadVarintFrom;
    hide Resume;
    var low := b[0] % 0x80;
    ReadVarintStep(b, k);
    ResumeLast(value, scale, k, b[0]);
    ResumeLast(value + scale * low, scale * 0x80, k + 1, 0);
    if k < 9 && b[0] >= 0x80 {
      var rest := ReadVarintFrom(b[1..], k + 1);
      if rest.Some? {
        ResumeMore(value, scale, k, low, rest.value.0, rest.value.1);
      }
    }
  }

  method ReadVarintAt(message: bytes, cursor: nat) returns (r: Option<(nat, nat)>)
    requires cursor <= |message|
    ensures r.Some? <==> ReadVarint(message[cursor..]).Some?
    ensures r.Some? ==> r.value == (ReadVarint(message[cursor..]).value.0, cursor + ReadVarint(message[cursor..]).value.1)
  {
    hide ReadVarintFrom;
    var value: nat, scale: nat, at := 0, 1, cursor;
    ghost var goal := ReadVarint(message[cursor..]);
    for k := 0 to 10
      invariant at == cursor + k <= |message|
      invariant k == 10 ==> goal.None?
      invariant k < 10 ==> goal == Resume(value, scale, k, ReadVarintFrom(message[at..], k))
    {
      if at >= |message| {
        return None;
      }
      var b := message[at];
      ghost var rest := message[at..];
      assert rest[0] == b && rest[1..] == message[at + 1..];
      ResumeStep(value, scale, rest, k);
      at := at + 1;
      if k == 9 && b > 1 {
        return None;
      }
      value := value + scale * (b % 0x80);
      if b < 0x80 {
        return Some((value, at));
      }
      scale := scale * 0x80;
    }
    return None;
  }

  lemma ReadVarintMore(low: nat, rest: bytes, k: nat)
    requires k < 9 && low < 0x80
    ensures ReadVarintFrom([low + 0x80] + rest, k)
         == match ReadVarintFrom(rest, k + 1)
            case Some((high, used)) => Some((low + 0x80 * high, used + 1))
            case None => None
  {
    var b: bytes := [low + 0x80] + rest;
    assert b[1..] == rest;
  }

  /** A reading that ends with its first byte. */
  lemma ReadVarintLast(b: bytes, k: nat)
    requires k <= 9
    ensures b == [] ==> ReadVarintFrom(b, k).None?
    ensures b != [] && (k == 9 || b[0] < 0x80) ==>
              ReadVarintFrom(b, k) == if k == 9 && b[0] > 1 then None else Some((b[0], 1))
  {
  }

  lemma {:induction false} ReadVarintFromOfEncode(value: nat, k: nat, tail: bytes)
    requires k <= 9 && value < Room(k)
    ensures |EncodeVarint(value)| <= 10 - k
    ensures ReadVarintFrom(EncodeVarint(value) + tail, k) == Some((value, |EncodeVarint(value)|))
    decreases 9 - k
  {
    hide ReadVarintFrom;
    if value < 0x80 {
      ReadVarintLast([value] + tail, k);
    } else {
      var high, low := value / 0x80, value % 0x80;
      assert EncodeVarint(value) == [low + 0x80] + EncodeVarint(high);
      hide EncodeVarint;
      ReadVarintFromOfEncode(high, k + 1, tail);
      ReadVarintMore(low, EncodeVarint(high) + tail, k);
      assert EncodeVarint(value) + tail == [low + 0x80] + (EncodeVarint(high) + tail);
    }
  }

  /** Reading inverts writing on every 64-bit value, in at most ten bytes, whatever follows. */
  lemma ReadVarintOfEncode(value: nat, tail: bytes)
    requires value < U64_RANGE
    ensures |EncodeVarint(value)| <= 10
    ensures ReadVarint(EncodeVarint(value) + tail) == Some((value, |EncodeVarint(value)|))
  {
    RoomIsU64();
    ReadVarintFromOfEncode(value, 0, tail);
  }

  lemma {:induction false} ReadVarintFromPrefix(b: bytes, k: nat, tail: bytes)
    requires k <= 9 && ReadVarintFrom(b, k).Some?
    ensures ReadVarintFrom(b + tail, k) == ReadVarintFrom(b, k)
    decreases 9 - k
  {
    hide ReadVarintFrom;
    ReadVarintLast(b, k);
    ReadVarintLast(b + tail, k);
    if k < 9 && b[0] >= 0x80 {
      var low: nat, rest := b[0] - 0x80, b[1..];
      assert b == [low + 0x80] + rest && b + tail == [low + 0x80] + (rest + tail);
      ReadVarintMore(low, rest, k);
      ReadVarintMore(low, rest + tail, k);
      ReadVarintFromPrefix(rest, k + 1, tail);
    }
  }

  // ----- fields

  datatype Payload = Varint(value: nat) | Delimited(data: bytes) | Fixed(data: bytes)
  datatype Field = Field(number: nat, payload: Payload)

  /** A length-delimited value at the front of b, and the bytes used. */
  function ReadBytes(b: bytes): (r: Option<(bytes, nat)>)
    ensures r.Some? ==> 0 < r.value.1 <= |b|
  {
    var (length, used) :- ReadVarint(b);
    if used + length > |b| then None else Some((b[used..used + length], used + length))
  }

  /** The value of one field with the given wire type at the front of b. */
  function ReadPayload(b: bytes, wire: nat): (r: Option<(Payload, nat)>)
    ensures r.Some? ==> 0 < r.value.1 <= |b|
  {
    match wire
    case 0 => var (value, used) :- ReadVarint(b); Some((Varint(value), used))
    case 1 => if |b| < 8 then None else Some((Fixed(b[..8]), 8))
    case 2 => var (data, used) :- ReadBytes(b); Some((Delimited(data), used))
    case 5 => if |b| < 4 then None else Some((Fixed(b[..4]), 4))
    case _ => None
  }

  /** Wire type 1 is eight bytes, 5 is four, 2 a length and as many bytes, 0 a varint; there are no others. */
  lemma PayloadsByType(b: bytes, wire: nat)
    ensures wire == 1 ==> ReadPayload(b, wire) == if |b| < 8 then None else Some((Fixed(b[..8]), 8))
    ensures wire == 5 ==> ReadPayload(b, wire) == if |b| < 4 then None else Some((Fixed(b[..4]), 4))
    ensures wire == 2 && ReadPayload(b, wire).Some? ==>
              var (length, used) := ReadVarint(b).value;
              ReadPayload(b, wire).value == (Delimited(b[used..used + length]), used + length)
    ensures wire == 0 && ReadPayload(b, wire).Some? ==>
              ReadPayload(b, wire).value == (Varint(ReadVarint(b).value.0), ReadVarint(b).value.1)
    ensures wire !in {0, 1, 2, 5} ==> ReadPayload(b, wire) == None
  {
    hide ReadVarint;
  }

  /** One complete field (key and value) at the front of b, and the bytes used. */
  function ReadField(b: bytes): (r: Option<(Field, nat)>)
    ensures r.Some? ==> 0 < r.value.1 <= |b|
  {
    var (key, used) :- ReadVarint(b);
    if key / 8 >= U32_RANGE then None
    else
      var (payload, more) :- ReadPayload(b[used..], key % 8);
      Some((Field(key / 8, payload), used + more))
  }

  /** A whole message as its sequence of fields: the reference reading of the wire format. */
  function Fields(b: bytes): (r: Option<seq<Field>>) {
    if b == [] then Some([])
    else
      var (field, used) :- ReadField(b);
      var rest :- Fields(b[used..]);
      Some([field] + rest)
  }

  lemma ReadBytesPrefix(b: bytes, tail: bytes)
    requires ReadBytes(b).Some?
    ensures ReadBytes(b + tail) == ReadBytes(b)
  {
    hide ReadVarintFrom;
    ReadVarintFromPrefix(b, 0, tail);
    var (length, used) := ReadVarint(b).value;
    assert (b + tail)[used..used + length] == b[used..used + length];
  }

  lemma ReadPayloadPrefix(b: bytes, wire: nat, tail: bytes)
    requires ReadPayload(b, wire).Some?
    ensures ReadPayload(b + tail, wire) == ReadPayload(b, wire)
  {
    match wire
    case 0 => ReadVarintFromPrefix(b, 0, tail);
    case 1 => assert (b + tail)[..8] == b[..8];
    case 2 => ReadBytesPrefix(b, tail);
    case _ => assert |b| >= 4 ==> (b + tail)[..4] == b[..4];
  }

  lemma ReadFieldPrefix(b: bytes, tail: bytes)
    requires ReadField(b).Some?
    ensures ReadField(b + tail) == ReadField(b)
  {
    hide ReadVarintFrom;
    hide ReadPayload;
    ReadVarintFromPrefix(b, 0, tail);
    var (key, used) := ReadVarint(b).value;
    assert (b + tail)[used..] == b[used..] + tail;
    ReadPayloadPrefix(b[used..], key % 8, tail);
  }

  lemma FieldsUnfold(b: bytes)
    requires b != [] && ReadField(b).Some?
    ensures var (f, used) := ReadField(b).value;
            Fields(b) == match Fields(b[used..]) case Some(fs) => Some([f] + fs) case None => None
  {
    hide ReadField;
  }

  /** Concatenating messages concatenates their fields. */
  lemma {:induction false} FieldsConcat(a: bytes, b: bytes)
    requires Fields(a).Some?
    ensures Fields(a + b) == match Fields(b) case Some(fs) => Some(Fields(a).value + fs) case None => None
  {
    hide ReadField;
    if a == [] {
      assert a + b == b;
      assert Fields(b).Some? ==> [] + Fields(b).value == Fields(b).value;
    } else {
      FieldsUnfold(a);
      ReadFieldPrefix(a, b);
      FieldsUnfold(a + b);
      hide Fields;
      var (f, used) := ReadField(a).value;
      assert (a + b)[used..] == a[used..] + b;
      FieldsConcat(a[used..], b);
      if Fields(b).Some? {
        assert [f] + (Fields(a[used..]).value + Fields(b).value) == ([f] + Fields(a[used..]).value) + Fields(b).value;
      }
    }
  }

  // ----- requests

  datatype FrameState = First | Middle | Last

  function FrameCode(state: Option<FrameState>): nat {
    match state
    case None => 0
    case Some(First) => 1
    case Some(Middle) => 3
    case Some(Last) => 9
  }

  datatype Verb = StartTask | StartSession | TaskRequest | FinishSession

  function VerbText(verb: Verb): string {
    match verb
    case StartTask => "StartTask"
    case StartSession => "StartSession"
    case TaskRequest => "TaskRequest"
    case FinishSession => "FinishSession"
  }

  /** The arguments of one request envelope. */
  datatype Request = Request(token: string, verb: Verb, json: bytes, audio: bytes, requestId: string,
                             state: Option<FrameState>)

  /** Wire types 0 and 2, the two the requests use. */
  function EncodeField(f: Field): bytes
    requires !f.payload.Fixed?
  {
    match f.payload
    case Varint(value) => EncodeVarint(f.number * 8) + EncodeVarint(value)
    case Delimited(data) => EncodeVarint(f.number * 8 + 2) + (EncodeVarint(|data|) + data)
  }

  function EncodeFields(fs: seq<Field>): bytes
    requires forall f :: f in fs ==> !f.payload.Fixed?
  {
    if fs == [] then [] else EncodeField(fs[0]) + EncodeFields(fs[1..])
  }

  /** Field numbers fit 32 bits, and a Rust slice is never longer than a 64-bit length can say. */
  predicate Encodable(f: Field) {
    f.number < U32_RANGE / 8
    && match f.payload
       case Varint(value) => value < U64_RANGE
       case Delimited(data) => |data| < U64_RANGE
       case Fixed(_) => false
  }

  lemma ReadFieldOfKey(key: bytes, number: nat, wire: nat, body: bytes)
    requires number < U32_RANGE && wire < 8 && ReadPayload(body, wire).Some?
    requires ReadVarint(key + body) == Some((number * 8 + wire, |key|))
    ensures ReadField(key + body) == Some((Field(number, ReadPayload(body, wire).value.0),
                                           |key| + ReadPayload(body, wire).value.1))
  {
    hide ReadPayload;
    hide ReadVarint;
    assert (key + body)[|key|..] == body;
    assert (number * 8 + wire) / 8 == number && (number * 8 + wire) % 8 == wire;
  }

  lemma ReadVarintField(number: nat, value: nat, tail: bytes)
    requires number < U32_RANGE / 8 && value < U64_RANGE
    ensures var b := EncodeVarint(number * 8) + EncodeVarint(value);
            ReadField(b + tail) == Some((Field(number, Varint(value)), |b|))
  {
    hide ReadField;
    hide ReadVarint;
    hide EncodeVarint;
    var key, body := EncodeVarint(number * 8), EncodeVarint(value);
    ReadVarintOfEncode(number * 8, body + tail);
    ReadVarintOfEncode(value, tail);
    assert ReadPayload(body + tail, 0) == Some((Varint(value), |body|));
    ReadFieldOfKey(key, number, 0, body + tail);
    assert key + body + tail == key + (body + tail);
  }

  lemma ReadDelimitedField(number: nat, data: bytes, tail: bytes)
    requires number < U32_RANGE / 8 && |data| < U64_RANGE
    ensures var b := EncodeVarint(number * 8 + 2) + (EncodeVarint(|data|) + data);
            ReadField(b + tail) == Some((Field(number, Delimited(data)), |b|))
  {
    hide ReadField;
    hide ReadVarint;
    hide EncodeVarint;
    var key, body := EncodeVarint(number * 8 + 2), EncodeVarint(|data|) + data;
    ReadVarintOfEncode(number * 8 + 2, body + tail);
    ReadBytesOfEncode(data, tail);
    assert ReadPayload(body + tail, 2) == Some((Delimited(data), |body|));
    ReadFieldOfKey(key, number, 2, body + tail);
    assert key + body + tail == key + (body + tail);
  }

  lemma ReadFieldOfEncode(f: Field, tail: bytes)
    requires Encodable(f)
    ensures ReadField(EncodeField(f) + tail) == Some((f, |EncodeField(f)|))
  {
    hide ReadField;
    hide EncodeVarint;
    match f.payload
    case Varint(value) => ReadVarintField(f.number, value, tail);
    case Delimited(data) => ReadDelimitedField(f.number, data, tail);
  }

  lemma ReadBytesOfEncode(data: bytes, tail: bytes)
    requires |data| < U64_RANGE
    ensures ReadBytes(EncodeVarint(|data|) + data + tail) == Some((data, |EncodeVarint(|data|) + data|))
  {
    var length := EncodeVarint(|data|);
    assert length + data + tail == length + (data + tail);
    ReadVarintOfEncode(|data|, data + tail);
  }

  /** A field reader recovers exactly the fields written, in order. */
  lemma {:induction false} FieldsOfEncode(fs: seq<Field>)
    requires forall f :: f in fs ==> !f.payload.Fixed? && Encodable(f)
    ensures Fields(EncodeFields(fs)) == Some(fs)
  {
    if fs != [] {
      var b, e := EncodeFields(fs), EncodeField(fs[0]);
      ReadFieldOfEncode(fs[0], EncodeFields(fs[1..]));
      assert b[|e|..] == EncodeFields(fs[1..]);
      FieldsOfEncode(fs[1..]);
      assert [fs[0]] + fs[1..] == fs;
    }
  }

  /** The seven fields of a request; a missing frame state is an explicit zero. */
  function RequestFields(r: Request): (fs: seq<Field>)
    ensures |fs| == 7
    ensures forall f :: f in fs ==> !f.payload.Fixed?
  {
    [Field(2, Delimited(Utf8.Encode(r.token))), Field(3, Delimited(Utf8.Encode("ASR"))),
     Field(5, Delimited(Utf8.Encode(VerbText(r.verb)))), Field(6, Delimited(r.json)), Field(7, Delimited(r.audio)),
     Field(8, Delimited(Utf8.Encode(r.requestId))), Field(9, Varint(FrameCode(r.state)))]
  }

  function EncodeRequest(r: Request): bytes {
    EncodeFields(RequestFields(r))
  }

  predicate Addressable(r: Request) {
    |Utf8.Encode(r.token)| < U64_RANGE && |r.json| < U64_RANGE
    && |r.audio| < U64_RANGE && |Utf8.Encode(r.requestId)| < U64_RANGE
  }

  lemma RequestIsEncodable(r: Request)
    requires Addressable(r)
    ensures forall f :: f in RequestFields(r) ==> Encodable(f)
  {
    hide Utf8.Encode;
    Utf8.EncodeLength("ASR");
    Utf8.EncodeLength(VerbText(r.verb));
  }

  /** Values below 128 take one byte and those below 16384 two, the low seven bits first. */
  lemma ShortVarints(value: nat)
    ensures value < 128 ==> EncodeVarint(value) == [value]
    ensures 128 <= value < 16384 ==> EncodeVarint(value) == [128 + value % 128, value / 128]
  {
    if 128 <= value < 16384 {
      assert EncodeVarint(value / 128) == [value / 128];
    }
  }

  /** A short field is its number and wire type in one byte, its length, and its bytes. */
  lemma ShortFields(number: nat, data: bytes, value: nat)
    requires number <= 15
    ensures |data| < 128 ==> EncodeField(Field(number, Delimited(data))) == [8 * number + 2, |data|] + data
    ensures value < 128 ==> EncodeField(Field(number, Varint(value))) == [8 * number, value]
  {
    ShortVarints(8 * number + 2);
    ShortVarints(8 * number);
    if |data| < 128 {
      ShortVarints(|data|);
      assert [8 * number + 2] + ([|data|] + data) == [8 * number + 2, |data|] + data;
    }
    if value < 128 {
      ShortVarints(value);
    }
    hide EncodeVarint;
  }

  /** All seven fields of a request are recovered from its bytes: the token, the service, the method, the JSON, the audio,
      the request id and the frame state, under these numbers. */
  lemma FieldsOfRequest(r: Request)
    requires Addressable(r)
    ensures Fields(EncodeRequest(r)) == Some(RequestFields(r))
    ensures RequestFields(r) ==
            [Field(2, Delimited(Utf8.Encode(r.token))), Field(3, Delimited(Utf8.Encode("ASR"))),
             Field(5, Delimited(Utf8.Encode(match r.verb
                                            case StartTask => "StartTask"
                                            case StartSession => "StartSession"
                                            case TaskRequest => "TaskRequest"
                                            case FinishSession => "FinishSession"))),
             Field(6, Delimited(r.json)), Field(7, Delimited(r.audio)), Field(8, Delimited(Utf8.Encode(r.requestId))),
             Field(9, Varint(match r.state
                             case None => 0
                             case Some(First) => 1
                             case Some(Middle) => 3
                             case Some(Last) => 9))]
  {
    NumbersOfRequest(r);
    hide Utf8.Encode;
    hide EncodeFields;
    hide Fields;
    hide Encodable;
    hide RequestFields;
    RequestIsEncodable(r);
    FieldsOfEncode(RequestFields(r));
  }

  lemma NumbersOfRequest(r: Request)
    ensures RequestFields(r) ==
            [Field(2, Delimited(Utf8.Encode(r.token))), Field(3, Delimited(Utf8.Encode("ASR"))),
             Field(5, Delimited(Utf8.Encode(match r.verb
                                            case StartTask => "StartTask"
                                            case StartSession => "StartSession"
                                            case TaskRequest => "TaskRequest"
                                            case FinishSession => "FinishSession"))),
             Field(6, Delimited(r.json)), Field(7, Delimited(r.audio)), Field(8, Delimited(Utf8.Encode(r.requestId))),
             Field(9, Varint(match r.state
                             case None => 0
                             case Some(First) => 1
                             case Some(Middle) => 3
                             case Some(Last) => 9))]
  {
    hide Utf8.Encode;
  }

  lemma VerbTextInjective(v: Verb, w: Verb)
    requires VerbText(v) == VerbText(w)
    ensures v == w
  {
    assert |VerbText(StartTask)| == 9 && |VerbText(StartSession)| == 12 && |VerbText(TaskRequest)| == 11
        && |VerbText(FinishSession)| == 13;
  }

  lemma RequestFieldsInjective(r: Request, q: Request)
    requires RequestFields(r) == RequestFields(q)
    ensures r == q
  {
    hide VerbText;
    hide Utf8.Encode;
    var fs, gs := RequestFields(r), RequestFields(q);
    assert FrameCode(r.state) == fs[6].payload.value == gs[6].payload.value == FrameCode(q.state);
    assert fs[0].payload.data == gs[0].payload.data;
    Utf8.EncodeInjective(r.token, q.token);
    assert fs[2].payload.data == gs[2].payload.data;
    Utf8.EncodeInjective(VerbText(r.verb), VerbText(q.verb));
    VerbTextInjective(r.verb, q.verb);
    assert fs[5].payload.data == gs[5].payload.data;
    Utf8.EncodeInjective(r.requestId, q.requestId);
    assert r.json == fs[3].payload.data == gs[3].payload.data == q.json;
    assert r.audio == fs[4].payload.data == gs[4].payload.data == q.audio;
  }

  /** Two requests with the same bytes are the same request. */
  lemma EncodeRequestInjective(r: Request, q: Request)
    requires Addressable(r) && Addressable(q)
    requires EncodeRequest(r) == EncodeRequest(q)
    ensures r == q
  {
    FieldsOfRequest(r);
    FieldsOfRequest(q);
    RequestFieldsInjective(r, q);
  }

  // ----- responses

  datatype Envelope = Envelope(requestId: string, taskId: string, service: string, messageType: string,
                               statusCode: nat, statusMessage: string, resultJson: bytes)

  const EMPTY_ENVELOPE := Envelope("", "", "", "", 0, "", [])

  function Text(data: bytes): Option<string> {
    match Utf8.Decode(data)
    case Some(s) => Some(s)
    case None => None
  }

  /** What one field does to the envelope read so far; unknown numbers and unexpected wire types do nothing. */
  function Absorb(e: Envelope, f: Field): (r: Option<Envelope>) {
    match f
    case Field(1, Delimited(d)) => var s :- Text(d); Some(e.(requestId := s))
    case Field(2, Delimited(d)) => var s :- Text(d); Some(e.(taskId := s))
    case Field(3, Delimited(d)) => var s :- Text(d); Some(e.(service := s))
    case Field(4, Delimited(d)) => var s :- Text(d); Some(e.(messageType := s))
    case Field(5, Varint(v)) => Some(e.(statusCode := v))
    case Field(6, Delimited(d)) => var s :- Text(d); Some(e.(statusMessage := s))
    case Field(7, Delimited(d)) => Some(e.(resultJson := d))
    case _ => Some(e)
  }

  function AbsorbAll(e: Envelope, fs: seq<Field>): (r: Option<Envelope>)
    decreases |fs|
  {
    if fs == [] then Some(e)
    else
      var next :- Absorb(e, fs[0]);
      AbsorbAll(next, fs[1..])
  }

  /** The meaning of a response: its fields in order, the last one winning. */
  function DecodeResponse(message: bytes): (r: Option<Envelope>) {
    if |message| > MAX_MESSAGE_BYTES then None
    else
      var fs :- Fields(message);
      AbsorbAll(EMPTY_ENVELOPE, fs)
  }

  method ReadFieldAt(message: bytes, cursor: nat) returns (r: Option<(Field, nat)>)
    requires cursor <= |message|
    ensures r.Some? <==> ReadField(message[cursor..]).Some?
    ensures r.Some? ==> r.value == (ReadField(message[cursor..]).value.0, cursor + ReadField(message[cursor..]).value.1)
  {
    hide ReadVarint;
    hide ReadPayload;
    var key := ReadVarintAt(message, cursor);
    if key.None? {
      return None;
    }
    var (k, at) := key.value;
    if k / 8 >= U32_RANGE {
      return None;
    }
    assert message[cursor..][at - cursor..] == message[at..];
    var payload := ReadPayload(message[at..], k % 8);
    if payload.None? {
      return None;
    }
    return Some((Field(k / 8, payload.value.0), at + payload.value.1));
  }

  /** The decoder's single pass with a cursor; malformed data stops it wherever it is met. */
  method DecodeResponseBytes(message: bytes) returns (r: Option<Envelope>)
    ensures r == DecodeResponse(message)
  {
    if |message| > MAX_MESSAGE_BYTES {
      return None;
    }
    var cursor, response := 0, EMPTY_ENVELOPE;
    assert message[0..] == message;
    while cursor < |message|
      invariant cursor <= |message|
      invariant DecodeResponse(message) == AbsorbRest(response, message[cursor..])
      decreases |message| - cursor
    {
      ghost var rest := message[cursor..];
      var field := ReadFieldAt(message, cursor);
      if field.None? {
        return None;
      }
      var (f, end) := field.value;
      AbsorbRestStep(response, rest);
      assert rest[end - cursor..] == message[end..];
      var next := Absorb(response, f);
      if next.None? {
        return None;
      }
      response, cursor := next.value, end;
    }
    return Some(response);
  }

  lemma AbsorbRestStep(e: Envelope, rest: bytes)
    requires rest != []
    ensures AbsorbRest(e, rest) == match ReadField(rest)
                                   case None => None
                                   case Some((f, used)) =>
                                     match Absorb(e, f)
                                     case Some(next) => AbsorbRest(next, rest[used..])
                                     case None => None
  {
    if ReadField(rest).Some? {
      var (f, used) := ReadField(rest).value;
      if Fields(rest[used..]).Some? {
        var fs := Fields(rest[used..]).value;
        assert Fields(rest).value == [f] + fs;
        assert ([f] + fs)[1..] == fs;
        assert AbsorbRest(e, rest) == AbsorbAll(e, [f] + fs);
      } else {
        assert Fields(rest).None?;
      }
    }
  }

  /** What is still to be decoded, on top of an envelope read so far. */
  function AbsorbRest(e: Envelope, rest: bytes): Option<Envelope> {
    var fs :- Fields(rest);
    AbsorbAll(e, fs)
  }

  lemma {:induction false} AbsorbAllConcat(e: Envelope, fs: seq<Field>, gs: seq<Field>)
    ensures AbsorbAll(e, fs + gs) ==
            match AbsorbAll(e, fs) case Some(mid) => AbsorbAll(mid, gs) case None => None
    decreases |fs|
  {
    if fs == [] {
      assert fs + gs == gs;
    } else {
      assert (fs + gs)[1..] == fs[1..] + gs;
      if Absorb(e, fs[0]).Some? {
        AbsorbAllConcat(Absorb(e, fs[0]).value, fs[1..], gs);
      }
    }
  }

  /** Decoding a ++ b is decoding b's fields on top of what a decoded to. */
  lemma DecodeConcat(a: bytes, b: bytes)
    requires |a + b| <= MAX_MESSAGE_BYTES && DecodeResponse(a).Some?
    ensures DecodeResponse(a + b) == AbsorbRest(DecodeResponse(a).value, b)
  {
    FieldsConcat(a, b);
    if Fields(b).Some? {
      AbsorbAllConcat(EMPTY_ENVELOPE, Fields(a).value, Fields(b).value);
    }
  }

  /** A well-formed field the decoder does not know. */
  predicate UnknownField(u: bytes) {
    ReadField(u).Some? && ReadField(u).value.1 == |u|
    && var f := ReadField(u).value.0;
       match f.payload
       case Varint(_) => f.number != 5
       case Delimited(_) => !(1 <= f.number <= 4 || f.number == 6 || f.number == 7)
       case Fixed(_) => true
  }

  /** Deleting a well-formed unknown field changes nothing, wherever it stands between complete fields. */
  lemma DecodeIgnoresUnknown(a: bytes, u: bytes, b: bytes)
    requires |a + u + b| <= MAX_MESSAGE_BYTES && DecodeResponse(a).Some? && UnknownField(u)
    ensures DecodeResponse(a + u + b) == DecodeResponse(a + b)
  {
    var e, f := DecodeResponse(a).value, ReadField(u).value.0;
    assert u[|u|..] == [];
    assert Fields(u) == Some([f]) by { assert [f] + [] == [f]; }
    assert AbsorbAll(e, [f]) == Some(e);
    DecodeConcat(a, u);
    DecodeConcat(a + u, b);
    DecodeConcat(a, b);
  }

  // ----- every envelope has a message

  /** The seven fields of a response envelope. */
  function ResponseFields(e: Envelope): (fs: seq<Field>)
    ensures |fs| == 7
    ensures forall f :: f in fs ==> !f.payload.Fixed?
  {
    [Field(1, Delimited(Utf8.Encode(e.requestId))), Field(2, Delimited(Utf8.Encode(e.taskId))),
     Field(3, Delimited(Utf8.Encode(e.service))), Field(4, Delimited(Utf8.Encode(e.messageType))),
     Field(5, Varint(e.statusCode)), Field(6, Delimited(Utf8.Encode(e.statusMessage))),
     Field(7, Delimited(e.resultJson))]
  }

  function EncodeResponse(e: Envelope): bytes {
    EncodeFields(ResponseFields(e))
  }

  predicate Sendable(e: Envelope) {
    (forall f :: f in ResponseFields(e) ==> Encodable(f)) && |EncodeResponse(e)| <= MAX_MESSAGE_BYTES
  }

  lemma VarintWidthStep(value: nat)
    requires value >= 0x80
    ensures |EncodeVarint(value)| == 1 + |EncodeVarint(value / 0x80)|
    ensures value < 0x4000 ==> |EncodeVarint(value)| == 2
  {
  }

  lemma VarintWidth(value: nat)
    requires value < 0x20_0000
    ensures |EncodeVarint(value)| <= 3
  {
    if value >= 0x80 {
      VarintWidthStep(value);
      if value / 0x80 >= 0x80 {
        VarintWidthStep(value / 0x80);
      }
    }
  }

  lemma {:induction false} FieldsWidth(fs: seq<Field>, width: nat)
    requires forall f :: f in fs ==> !f.payload.Fixed? && |EncodeField(f)| <= width
    ensures |EncodeFields(fs)| <= |fs| * width
  {
    hide EncodeField;
    if fs != [] {
      FieldsWidth(fs[1..], width);
      assert |fs| * width == |fs[1..]| * width + width;
    }
  }

  lemma FieldWidth(f: Field)
    requires f.number <= 15 && !f.payload.Fixed?
    requires f.payload.Varint? ==> f.payload.value < 0x20_0000
    requires f.payload.Delimited? ==> |f.payload.data| <= 0x6_0000
    ensures Encodable(f) && |EncodeField(f)| <= 0x6_0006
  {
    hide EncodeVarint;
    match f.payload
    case Varint(value) => VarintWidth(f.number * 8); VarintWidth(value);
    case Delimited(data) => VarintWidth(f.number * 8 + 2); VarintWidth(|data|);
  }

  /** Envelopes of ordinary size fit a message. */
  lemma SmallIsSendable(e: Envelope)
    requires |Utf8.Encode(e.requestId)| <= 0x6_0000 && |Utf8.Encode(e.taskId)| <= 0x6_0000
    requires |Utf8.Encode(e.service)| <= 0x6_0000 && |Utf8.Encode(e.messageType)| <= 0x6_0000
    requires |Utf8.Encode(e.statusMessage)| <= 0x6_0000 && |e.resultJson| <= 0x6_0000 && e.statusCode < 0x20_0000
    ensures Sendable(e)
  {
    hide Utf8.Encode;
    hide EncodeField;
    hide EncodeFields;
    hide Encodable;
    var fs := ResponseFields(e);
    forall f | f in fs ensures Encodable(f) && |EncodeField(f)| <= 0x6_0006 {
      FieldWidth(f);
    }
    FieldsWidth(fs, 0x6_0006);
  }

  lemma AbsorbTexts(e: Envelope)
    ensures var fs := ResponseFields(e);
            && Absorb(EMPTY_ENVELOPE, fs[0]) == Some(EMPTY_ENVELOPE.(requestId := e.requestId))
            && Absorb(EMPTY_ENVELOPE.(requestId := e.requestId), fs[1])
               == Some(EMPTY_ENVELOPE.(requestId := e.requestId, taskId := e.taskId))
            && Absorb(EMPTY_ENVELOPE.(requestId := e.requestId, taskId := e.taskId), fs[2])
               == Some(EMPTY_ENVELOPE.(requestId := e.requestId, taskId := e.taskId, service := e.service))
            && Absorb(e.(messageType := "", statusCode := 0, statusMessage := "", resultJson := []), fs[3])
               == Some(e.(statusCode := 0, statusMessage := "", resultJson := []))
            && Absorb(e.(statusCode := 0, statusMessage := "", resultJson := []), fs[4])
               == Some(e.(statusMessage := "", resultJson := []))
            && Absorb(e.(statusMessage := "", resultJson := []), fs[5]) == Some(e.(resultJson := []))
            && Absorb(e.(resultJson := []), fs[6]) == Some(e)
  {
    hide Utf8.Encode;
    hide Utf8.Decode;
    Utf8.DecodeOfEncode(e.requestId);
    Utf8.DecodeOfEncode(e.taskId);
    Utf8.DecodeOfEncode(e.service);
    Utf8.DecodeOfEncode(e.messageType);
    Utf8.DecodeOfEncode(e.statusMessage);
  }

  lemma AbsorbOne(e: Envelope, fs: seq<Field>, k: nat, next: Envelope)
    requires k < |fs| && Absorb(e, fs[k]) == Some(next)
    ensures AbsorbAll(e, fs[k..]) == AbsorbAll(next, fs[k + 1..])
  {
    hide Absorb;
    assert fs[k..][0] == fs[k] && fs[k..][1..] == fs[k + 1..];
  }

  /** The fields of a response envelope and their numbers. */
  lemma NumbersOfResponse(e: Envelope)
    requires Sendable(e)
    ensures Fields(EncodeResponse(e)) == Some(
              [Field(1, Delimited(Utf8.Encode(e.requestId))), Field(2, Delimited(Utf8.Encode(e.taskId))),
               Field(3, Delimited(Utf8.Encode(e.service))), Field(4, Delimited(Utf8.Encode(e.messageType))),
               Field(5, Varint(e.statusCode)), Field(6, Delimited(Utf8.Encode(e.statusMessage))),
               Field(7, Delimited(e.resultJson))])
  {
    hide Encodable;
    hide EncodeFields;
    hide Fields;
    hide Utf8.Encode;
    FieldsOfEncode(ResponseFields(e));
  }

  /** A message of more than four mebibytes is refused unread. */
  lemma LongMessagesAreRefused(message: bytes)
    requires |message| > 4_194_304
    ensures DecodeResponse(message) == None
  {
    hide Fields;
  }

  /** Whatever envelope a provider means, as far as it fits a message, is what the client decodes. */
  lemma ResponseRoundTrip(e: Envelope)
    requires Sendable(e)
    ensures DecodeResponse(EncodeResponse(e)) == Some(e)
  {
    hide Absorb;
    hide ResponseFields;
    hide EncodeFields;
    hide Encodable;
    hide Fields;
    var fs, start := ResponseFields(e), EMPTY_ENVELOPE;
    FieldsOfEncode(fs);
    AbsorbTexts(e);
    AbsorbOne(start, fs, 0, start.(requestId := e.requestId));
    AbsorbOne(start.(requestId := e.requestId), fs, 1, start.(requestId := e.requestId, taskId := e.taskId));
    AbsorbOne(start.(requestId := e.requestId, taskId := e.taskId), fs, 2,
              e.(messageType := "", statusCode := 0, statusMessage := "", resultJson := []));
    AbsorbOne(e.(messageType := "", statusCode := 0, statusMessage := "", resultJson := []), fs, 3,
              e.(statusCode := 0, statusMessage := "", resultJson := []));
    AbsorbOne(e.(statusCode := 0, statusMessage := "", resultJson := []), fs, 4,
              e.(statusMessage := "", resultJson := []));
    AbsorbOne(e.(statusMessage := "", resultJson := []), fs, 5, e.(resultJson := []));
    AbsorbOne(e.(resultJson := []), fs, 6, e);
    assert fs[0..] == fs && fs[7..] == [];
  }
}
