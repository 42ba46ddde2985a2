/** The Halo link codec: fixed 18-byte fragment headers, bounded messages, and the typed input payloads. */
module HaloCodec {
  import opened Common

  const MAGIC: Bytes := [0x53, 0x48]
  const PROTOCOL_VERSION: byte := 1
  const HEADER_BYTES: nat := 18
  const MAX_MESSAGE_BYTES: nat := 2048
  const MAX_FRAGMENT_BYTES: nat := 180
  const MAX_FRAGMENTS: nat := 16
  const MAX_PENDING_EVENTS: nat := 32

  datatype ProxyError =
    | Malformed | Oversized | WrongVersion | StaleSession | Replay
    | Inactive | ConsentRequired | QueueFull | FragmentOrder

  datatype MessageKind = Button | Sensor | LinkState | Display | Clear

  datatype GlassesInput =
    | ButtonInput(name: string, pressed: bool)
    | SensorInput(name: string, valueMilli: int)
    | LinkInput(connected: bool)

  datatype SurfaceCommand = DisplayCells(cells: Bytes) | ClearSurface

  datatype Message = Message(kind: MessageKind, session: u32, sequence: u32, payload: Bytes)

  datatype Fragment = Fragment(
    kind: MessageKind, session: u32, sequence: u32, index: byte, count: byte, total: u16, payload: Bytes)

  function KindByte(kind: MessageKind): byte {
    match kind
    case Button => 1
    case Sensor => 2
    case LinkState => 3
    case Display => 16
    case Clear => 17
  }

  function KindOf(code: byte): Option<MessageKind> {
    match code
    case 1 => Some(Button)
    case 2 => Some(Sensor)
    case 3 => Some(LinkState)
    case 16 => Some(Display)
    case 17 => Some(Clear)
    case _ => None
  }

  function U16Bytes(n: u16): (r: Bytes)
    ensures |r| == 2
  {
    [n / 0x100, n % 0x100]
  }

  function U32Bytes(n: u32): (r: Bytes)
    ensures |r| == 4
  {
    U16Bytes(n / 0x1_0000) + U16Bytes(n % 0x1_0000)
  }

  function ToU16(b: Bytes): u16
    requires |b| == 2
  {
    b[0] as int * 0x100 + b[1] as int
  }

  function ToU32(b: Bytes): u32
    requires |b| == 4
  {
    ToU16(b[..2]) as int * 0x1_0000 + ToU16(b[2..]) as int
  }

  lemma WordOfHalves(high: u16, low: u16)
    ensures (high as int * 0x1_0000 + low as int) / 0x1_0000 == high
    ensures (high as int * 0x1_0000 + low as int) % 0x1_0000 == low
  {
  }

  lemma U32RoundTrip(n: u32)
    ensures ToU32(U32Bytes(n)) == n
  {
    var b := U32Bytes(n);
    assert b[..2] == U16Bytes(n / 0x1_0000) && b[2..] == U16Bytes(n % 0x1_0000);
  }

  lemma U16Canonical(b: Bytes)
    requires |b| == 2
    ensures U16Bytes(ToU16(b)) == b
  {
  }

  lemma U32Canonical(b: Bytes)
    requires |b| == 4
    ensures U32Bytes(ToU32(b)) == b
  {
    U16Canonical(b[..2]);
    U16Canonical(b[2..]);
    WordOfHalves(ToU16(b[..2]), ToU16(b[2..]));
    assert b == b[..2] + b[2..];
  }

  /** The fragments the wire format can carry. */
  predicate ValidFragment(f: Fragment) {
    1 <= f.count <= MAX_FRAGMENTS && f.index < f.count && f.total <= MAX_MESSAGE_BYTES
    && |f.payload| <= MAX_FRAGMENT_BYTES
  }

  function Header(f: Fragment): (r: Bytes)
    requires |f.payload| < 0x1_0000
    ensures |r| == HEADER_BYTES
  {
    MAGIC + [PROTOCOL_VERSION, KindByte(f.kind)] + U32Bytes(f.session) + U32Bytes(f.sequence)
    + U16Bytes(f.total) + [f.index, f.count] + U16Bytes(|f.payload|)
  }

  function Frame(f: Fragment): Bytes
    requires |f.payload| < 0x1_0000
  {
    Header(f) + f.payload
  }

  function DecodeFragment(bytes: Bytes): (r: Result<Fragment, ProxyError>) {
    if |bytes| < HEADER_BYTES || |bytes| > HEADER_BYTES + MAX_FRAGMENT_BYTES || bytes[..2] != MAGIC then Err(Malformed)
    else if bytes[2] != PROTOCOL_VERSION then Err(WrongVersion)
    else if KindOf(bytes[3]).None? then Err(Malformed)
    else
      var total, index, count, length := ToU16(bytes[12..14]), bytes[14], bytes[15], ToU16(bytes[16..18]);
      if count == 0 || count > MAX_FRAGMENTS || index >= count || total > MAX_MESSAGE_BYTES
         || length != |bytes| - HEADER_BYTES
      then Err(Malformed)
      else Ok(Fragment(KindOf(bytes[3]).value, ToU32(bytes[4..8]), ToU32(bytes[8..12]), index, count, total,
                       bytes[HEADER_BYTES..]))
  }

  /** Where the header fields lie in a frame. */
  lemma FrameLayout(f: Fragment)
    requires |f.payload| < 0x1_0000
    ensures var b := Frame(f);
            && |b| == HEADER_BYTES + |f.payload|
            && b[..2] == MAGIC && b[2] == PROTOCOL_VERSION && b[3] == KindByte(f.kind)
            && b[4..8] == U32Bytes(f.session) && b[8..12] == U32Bytes(f.sequence)
            && b[12..14] == U16Bytes(f.total) && b[14] == f.index && b[15] == f.count
            && b[16..18] == U16Bytes(|f.payload|) && b[18..] == f.payload
  {
  }

  /** Decoding inverts framing on every valid fragment. */
  lemma FrameDecodes(f: Fragment)
    requires ValidFragment(f)
    ensures DecodeFragment(Frame(f)) == Ok(f)
  {
    FrameLayout(f);
    U32RoundTrip(f.session);
    U32RoundTrip(f.sequence);
  }

  /** The octets of a frame on the wire: magic, version, kind, session, sequence, total, index, count, length. */
  lemma FrameOctets(f: Fragment)
    requires |f.payload| < 0x1_0000
    ensures var b := Frame(f);
            && |b| == 18 + |f.payload| && b[18..] == f.payload
            && b[0] == 0x53 && b[1] == 0x48 && b[2] == 1
            && b[3] == (match f.kind
                        case Button => 1 case Sensor => 2 case LinkState => 3 case Display => 16 case Clear => 17)
            && f.session == 0x100_0000 * b[4] as int + 0x1_0000 * b[5] as int + 0x100 * b[6] as int + b[7] as int
            && f.sequence == 0x100_0000 * b[8] as int + 0x1_0000 * b[9] as int + 0x100 * b[10] as int + b[11] as int
            && f.total == 0x100 * b[12] as int + b[13] as int && b[14] == f.index && b[15] == f.count
            && |f.payload| == 0x100 * b[16] as int + b[17] as int
  {
    FrameLayout(f);
    BigEndian(Frame(f), 4, f.session);
    BigEndian(Frame(f), 8, f.sequence);
    assert Frame(f)[12..14][0] == Frame(f)[12] && Frame(f)[12..14][1] == Frame(f)[13];
    assert Frame(f)[16..18][0] == Frame(f)[16] && Frame(f)[16..18][1] == Frame(f)[17];
    assert Frame(f)[..2][0] == Frame(f)[0] && Frame(f)[..2][1] == Frame(f)[1];
  }

  lemma BigEndian(b: Bytes, k: nat, n: u32)
    requires k + 4 <= |b| && b[k..k + 4] == U32Bytes(n)
    ensures n == 0x100_0000 * b[k] as int + 0x1_0000 * b[k + 1] as int + 0x100 * b[k + 2] as int + b[k + 3] as int
  {
    var high, low := n / 0x1_0000, n % 0x1_0000;
    assert b[k] == b[k..k + 4][0] == high / 0x100 && b[k + 1] == b[k..k + 4][1] == high % 0x100;
    assert b[k + 2] == b[k..k + 4][2] == low / 0x100 && b[k + 3] == b[k..k + 4][3] == low % 0x100;
  }

  lemma FieldsDetermineFrame(b: Bytes, c: Bytes)
    requires |b| >= HEADER_BYTES && |c| >= HEADER_BYTES
    requires b[..2] == c[..2] && b[2] == c[2] && b[3] == c[3] && b[4..8] == c[4..8] && b[8..12] == c[8..12]
    requires b[12..14] == c[12..14] && b[14] == c[14] && b[15] == c[15] && b[16..18] == c[16..18]
    requires b[18..] == c[18..]
    ensures b == c
  {
    assert b[2..4] == c[2..4] && b[14..16] == c[14..16];
    assert b == b[..2] + b[2..4] + b[4..8] + b[8..12] + b[12..14] + b[14..16] + b[16..18] + b[18..];
    assert c == c[..2] + c[2..4] + c[4..8] + c[8..12] + c[12..14] + c[14..16] + c[16..18] + c[18..];
  }

  /** Whatever the decoder accepts is valid and is the one frame of what it decoded to. */
  lemma AcceptedFramesAreCanonical(bytes: Bytes)
    requires DecodeFragment(bytes).Ok?
    ensures ValidFragment(DecodeFragment(bytes).value)
    ensures Frame(DecodeFragment(bytes).value) == bytes
  {
    var f := DecodeFragment(bytes).value;
    FrameLayout(f);
    U32Canonical(bytes[4..8]);
    U32Canonical(bytes[8..12]);
    FieldsDetermineFrame(Frame(f), bytes);
  }

  /**
   Only the frames of valid fragments are accepted. Of the others, those of a possible length that begin with the
   magic and another version are told so, and all the rest are malformed.
   */
  lemma RefusedFrames(bytes: Bytes)
    ensures DecodeFragment(bytes).Err? <==> forall f | ValidFragment(f) :: Frame(f) != bytes
    ensures DecodeFragment(bytes).Err? ==>
              DecodeFragment(bytes).error
              == if 18 <= |bytes| <= 198 && bytes[0] == 0x53 && bytes[1] == 0x48 && bytes[2] != 1 then WrongVersion
                 else Malformed
  {
    if DecodeFragment(bytes).Ok? {
      AcceptedFramesAreCanonical(bytes);
    } else {
      forall f | ValidFragment(f) ensures Frame(f) != bytes {
        FrameDecodes(f);
      }
    }
    if |bytes| >= 2 {
      assert bytes[..2] == [bytes[0], bytes[1]];
    }
  }

  // ---------- Splitting a message into fragments ----------

  /** The fragment of `message` that carries part `i` of `parts`. */
  function PartFragment(message: Message, parts: seq<Bytes>, i: nat): Fragment
    requires i < |parts| <= MAX_FRAGMENTS && |message.payload| <= MAX_MESSAGE_BYTES
  {
    Fragment(message.kind, message.session, message.sequence, i, |parts|, |message.payload|, parts[i])
  }

  predicate Splits(parts: seq<Bytes>, payload: Bytes) {
    && 1 <= |parts| <= MAX_FRAGMENTS
    && |payload| <= MAX_MESSAGE_BYTES
    && (forall i | 0 <= i < |parts| :: |parts[i]| <= MAX_FRAGMENT_BYTES)
    && Concat(parts) == payload
  }

  function Frames(message: Message, parts: seq<Bytes>): (frames: seq<Bytes>)
    requires Splits(parts, message.payload)
    ensures |frames| == |parts|
  {
    seq(|parts|, i requires 0 <= i < |parts| => Frame(PartFragment(message, parts, i)))
  }

  function FragmentCount(payload: Bytes): nat {
    ((if |payload| == 0 then 1 else |payload|) + MAX_FRAGMENT_BYTES - 1) / MAX_FRAGMENT_BYTES
  }

  function Chunk(payload: Bytes, i: nat): Bytes
    requires i * MAX_FRAGMENT_BYTES <= |payload|
  {
    payload[i * MAX_FRAGMENT_BYTES..Min((i + 1) * MAX_FRAGMENT_BYTES, |payload|)]
  }

  /** The even split the encoder uses: full fragments, then the remainder. */
  function Chunks(payload: Bytes): (parts: seq<Bytes>)
    ensures |parts| == FragmentCount(payload)
  {
    seq(FragmentCount(payload), i requires 0 <= i < FragmentCount(payload) => Chunk(payload, i))
  }

  lemma {:induction false} ChunksUpTo(payload: Bytes, n: nat)
    requires n <= FragmentCount(payload)
    ensures Concat(Chunks(payload)[..n]) == payload[..Min(n * MAX_FRAGMENT_BYTES, |payload|)]
  {
    var parts := Chunks(payload);
    if n > 0 {
      ChunksUpTo(payload, n - 1);
      assert parts[..n] == parts[..n - 1] + [parts[n - 1]];
      ConcatSnoc(parts[..n - 1], parts[n - 1]);
    }
  }

  lemma ChunksSplit(payload: Bytes)
    requires |payload| <= MAX_MESSAGE_BYTES
    ensures Splits(Chunks(payload), payload)
  {
    var n := FragmentCount(payload);
    ChunksUpTo(payload, n);
    assert Chunks(payload)[..n] == Chunks(payload);
  }

  /** The order in which the encoder appends the header fields. */
  lemma FrameAssembles(f: Fragment)
    requires |f.payload| < 0x1_0000
    ensures MAGIC + [PROTOCOL_VERSION] + [KindByte(f.kind)] + U32Bytes(f.session) + U32Bytes(f.sequence)
            + U16Bytes(f.total) + [f.index] + [f.count] + U16Bytes(|f.payload|) + f.payload
         == Frame(f)
  {
  }

  /** Encodes a message: refused exactly when it is too long, and otherwise the frames of its even split. */
  method EncodeMessage(message: Message) returns (r: Result<seq<Bytes>, ProxyError>)
    ensures |message.payload| > MAX_MESSAGE_BYTES ==> r == Err(Oversized)
    ensures |message.payload| <= MAX_MESSAGE_BYTES ==>
              Splits(Chunks(message.payload), message.payload)
              && r == Ok(Frames(message, Chunks(message.payload)))
  {
    if |message.payload| > MAX_MESSAGE_BYTES {
      return Err(Oversized);
    }
    ChunksSplit(message.payload);
    var count := FragmentCount(message.payload);
    if count > MAX_FRAGMENTS {
      return Err(Oversized);
    }
    var frames := [];
    for index := 0 to count
      invariant |frames| == index
      invariant forall i | 0 <= i < index :: frames[i] == Frames(message, Chunks(message.payload))[i]
    {
      var start := index * MAX_FRAGMENT_BYTES;
      var end := Min(start + MAX_FRAGMENT_BYTES, |message.payload|);
      var payload := message.payload[start..end];
      var frame := MAGIC;
      frame := frame + [PROTOCOL_VERSION];
      frame := frame + [KindByte(message.kind)];
      frame := frame + U32Bytes(message.session);
      frame := frame + U32Bytes(message.sequence);
      frame := frame + U16Bytes(|message.payload|);
      frame := frame + [index];
      frame := frame + [count];
      frame := frame + U16Bytes(|payload|);
      frame := frame + payload;
      FrameAssembles(PartFragment(message, Chunks(message.payload), index));
      frames := frames + [frame];
    }
    assert frames == Frames(message, Chunks(message.payload));
    return Ok(frames);
  }

  // ---------- Typed payloads ----------

  /** UTF-8 decoding, which this model takes as a parameter. */
  type Utf8 = Bytes -> Option<string>

  predicate IsControl(c: char) {
    c as int < 0x20 || 0x7F <= c as int < 0xA0
  }

  function Short(utf8: Utf8, bytes: Bytes, max: nat): Result<string, ProxyError> {
    if bytes == [] || |bytes| > max then Err(Malformed)
    else
      match utf8(bytes)
      case None => Err(Malformed)
      case Some(text) => if exists k :: 0 <= k < |text| && IsControl(text[k]) then Err(Malformed) else Ok(text)
  }

  function DecodeInput(utf8: Utf8, kind: MessageKind, payload: Bytes): Result<GlassesInput, ProxyError> {
    if kind.Button? && |payload| >= 2 then
      match Short(utf8, payload[1..], 32)
      case Err(e) => Err(e)
      case Ok(name) => Ok(ButtonInput(name, payload[0] != 0))
    else if kind.Sensor? && |payload| >= 5 then
      match Short(utf8, payload[4..], 48)
      case Err(e) => Err(e)
      case Ok(name) =>
        var raw := ToU32(payload[..4]);
        Ok(SensorInput(name, if raw < 0x8000_0000 then raw else raw - 0x1_0000_0000))
    else if kind.LinkState? && |payload| == 1 then Ok(LinkInput(payload[0] != 0))
    else Err(Malformed)
  }

  /** The payload a device sends for an input whose name has the UTF-8 octets `name`. */
  function InputPayload(input: GlassesInput, name: Bytes): (MessageKind, Bytes)
    requires input.SensorInput? ==> -0x8000_0000 <= input.valueMilli < 0x8000_0000
  {
    match input
    case ButtonInput(_, pressed) => (Button, [if pressed then 1 else 0] + name)
    case SensorInput(_, value) => (Sensor, U32Bytes(if value < 0 then value + 0x1_0000_0000 else value) + name)
    case LinkInput(connected) => (LinkState, [if connected then 1 else 0])
  }

  /** Names are between one octet and the limit of their kind, and hold no control character. */
  predicate GoodName(utf8: Utf8, text: string, name: Bytes, max: nat) {
    1 <= |name| <= max && utf8(name) == Some(text)
    && forall k | 0 <= k < |text| :: 0x20 <= text[k] as int <= 0x7E || 0xA0 <= text[k] as int
  }

  /** Every well-formed input is decoded to itself; sensor values keep their sign. */
  lemma InputsDecode(utf8: Utf8, input: GlassesInput, name: Bytes)
    requires input.ButtonInput? ==> GoodName(utf8, input.name, name, 32)
    requires input.SensorInput? ==> GoodName(utf8, input.name, name, 48)
    requires input.SensorInput? ==> -0x8000_0000 <= input.valueMilli < 0x8000_0000
    ensures var (kind, payload) := InputPayload(input, name); DecodeInput(utf8, kind, payload) == Ok(input)
  {
    var (kind, payload) := InputPayload(input, name);
    match input
    case ButtonInput(_, _) =>
      assert payload[1..] == name;
    case SensorInput(_, value) =>
      U32RoundTrip(if value < 0 then value + 0x1_0000_0000 else value);
      assert payload[4..] == name && payload[..4] == U32Bytes(if value < 0 then value + 0x1_0000_0000 else value);
    case LinkInput(_) =>
  }

  /** What the octets of an input message say. */
  predicate Says(utf8: Utf8, kind: MessageKind, payload: Bytes, input: GlassesInput) {
    match input
    case ButtonInput(text, pressed) =>
      kind == Button && payload != [] && (pressed <==> payload[0] != 0) && GoodName(utf8, text, payload[1..], 32)
    case SensorInput(text, value) =>
      && kind == Sensor && |payload| >= 4 && GoodName(utf8, text, payload[4..], 48)
      && -0x8000_0000 <= value < 0x8000_0000
      && (0x100_0000 * payload[0] as int + 0x1_0000 * payload[1] as int + 0x100 * payload[2] as int
          + payload[3] as int == if value < 0 then value + 0x1_0000_0000 else value)
    case LinkInput(connected) =>
      kind == LinkState && |payload| == 1 && (connected <==> payload[0] != 0)
  }

  /** An input message is accepted exactly when its octets say something, and as just that. */
  lemma InputsAreWhatTheySay(utf8: Utf8, kind: MessageKind, payload: Bytes, input: GlassesInput)
    ensures DecodeInput(utf8, kind, payload) == Ok(input) <==> Says(utf8, kind, payload, input)
    ensures DecodeInput(utf8, kind, payload).Err? ==> DecodeInput(utf8, kind, payload) == Err(Malformed)
  {
    if |payload| >= 4 {
      U32Canonical(payload[..4]);
      BigEndian(payload, 0, ToU32(payload[..4]));
    }
  }

  function SurfacePayload(command: SurfaceCommand): Result<(MessageKind, Bytes), ProxyError> {
    match command
    case DisplayCells(cells) => if |cells| <= 1024 then Ok((Display, cells)) else Err(Oversized)
    case ClearSurface => Ok((Clear, []))
  }

  /** The payload that a list of frames carries, as its receiver puts it together. */
  function CarriedPayload(frames: seq<Bytes>): Bytes {
    if frames == [] then []
    else
      var front, last := frames[..|frames| - 1], DecodeFragment(frames[|frames| - 1]);
      CarriedPayload(front) + if last.Ok? then last.value.payload else []
  }

  /** The frames decode to the fragments of one message with these fields, in order, which make up the payload. */
  predicate Carries(frames: seq<Bytes>, kind: MessageKind, session: u32, sequence: u32, payload: Bytes) {
    && 1 <= |frames| <= 16 && CarriedPayload(frames) == payload
    && forall i | 0 <= i < |frames| :: IsFragment(frames, i, kind, session, sequence, |payload|)
  }

  predicate IsFragment(frames: seq<Bytes>, i: nat, kind: MessageKind, session: u32, sequence: u32, total: nat)
    requires i < |frames|
  {
    match DecodeFragment(frames[i])
    case Err(_) => false
    case Ok(f) =>
      f.kind == kind && f.session == session && f.sequence == sequence && f.index == i && f.count == |frames|
      && f.total == total && |f.payload| <= 180
  }

  lemma FrameIsFragment(message: Message, parts: seq<Bytes>, i: nat)
    requires Splits(parts, message.payload) && i < |parts|
    ensures DecodeFragment(Frames(message, parts)[i]) == Ok(PartFragment(message, parts, i))
    ensures IsFragment(Frames(message, parts), i, message.kind, message.session, message.sequence, |message.payload|)
  {
    FrameDecodes(PartFragment(message, parts, i));
  }

  lemma CarriedSnoc(frames: seq<Bytes>, n: nat, part: Bytes)
    requires 0 < n <= |frames| && DecodeFragment(frames[n - 1]).Ok?
    requires DecodeFragment(frames[n - 1]).value.payload == part
    ensures CarriedPayload(frames[..n]) == CarriedPayload(frames[..n - 1]) + part
  {
    assert frames[..n][..n - 1] == frames[..n - 1] && frames[..n][n - 1] == frames[n - 1];
  }

  lemma {:induction false} FramesCarryParts(message: Message, parts: seq<Bytes>, n: nat)
    requires Splits(parts, message.payload) && n <= |parts|
    ensures CarriedPayload(Frames(message, parts)[..n]) == Concat(parts[..n])
  {
    var frames := Frames(message, parts);
    if n == 0 {
      assert frames[..0] == [] && parts[..0] == [];
    } else {
      FramesCarryParts(message, parts, n - 1);
      FrameIsFragment(message, parts, n - 1);
      CarriedSnoc(frames, n, parts[n - 1]);
      assert parts[..n] == parts[..n - 1] + [parts[n - 1]];
      ConcatSnoc(parts[..n - 1], parts[n - 1]);
    }
  }

  /** The frames of any split of a message carry that message. */
  lemma FramesCarryMessage(message: Message, parts: seq<Bytes>)
    requires Splits(parts, message.payload)
    ensures Carries(Frames(message, parts), message.kind, message.session, message.sequence, message.payload)
  {
    FramesCarryParts(message, parts, |parts|);
    assert parts[..|parts|] == parts && Frames(message, parts)[..|parts|] == Frames(message, parts);
    forall i | 0 <= i < |parts|
      ensures IsFragment(Frames(message, parts), i, message.kind, message.session, message.sequence, |message.payload|)
    {
      FrameIsFragment(message, parts, i);
    }
  }
}
