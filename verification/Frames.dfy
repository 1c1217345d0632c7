// D-Bus message frames: size of a frame from its fixed prefix, parsing, encoding, and the
// builder for multi-argument bodies.

module Frames {
  import opened Prelude
  import opened Wire

  const FIXED_HEADER_LEN: nat := 16
  const MAX_MESSAGE_SIZE: nat := 128 * 1024 * 1024
  const USIZE_MAX: nat := 0xFFFF_FFFF_FFFF_FFFF

  datatype FrameError =
    | InvalidEndian(b: u8)
    | InvalidKind(b: u8)
    | WrongProtocolVersion(v: u8)
    | ZeroSerial
    | TooShort
    | SizeOverflow
    | MessageTooLarge(size: nat)
    | HeaderFieldsParse

  datatype MessageKind = MethodCall | MethodReturn | ErrorReply | Signal

  datatype Headers = Headers(
    path: Option<bytes>,
    interface: Option<bytes>,
    member: Option<bytes>,
    errorName: Option<bytes>,
    destination: Option<bytes>,
    sender: Option<bytes>,
    signature: Option<bytes>,
    replySerial: Option<u32>,
    unixFds: Option<u32>)

  const NO_HEADERS := Headers(None, None, None, None, None, None, None, None, None)

  datatype Frame = Frame(
    endian: Endian,
    kind: MessageKind,
    flags: u8,
    serial: u32,
    headers: Headers,
    body: bytes)

  function ParseEndian(b: u8): Result<Endian, FrameError> {
    if b == 'l' as u8 then Ok(Little)
    else if b == 'B' as u8 then Ok(Big)
    else Err(InvalidEndian(b))
  }

  function EndianByte(e: Endian): u8 {
    if e.Little? then 'l' as u8 else 'B' as u8
  }

  function ParseKind(b: u8): Result<MessageKind, FrameError> {
    match b
    case 1 => Ok(MethodCall)
    case 2 => Ok(MethodReturn)
    case 3 => Ok(ErrorReply)
    case 4 => Ok(Signal)
    case _ => Err(InvalidKind(b))
  }

  function KindByte(k: MessageKind): u8 {
    match k
    case MethodCall => 1
    case MethodReturn => 2
    case ErrorReply => 3
    case Signal => 4
  }

  function CheckedAdd(a: nat, b: nat): Result<nat, FrameError> {
    if a + b > USIZE_MAX then Err(SizeOverflow) else Ok(a + b)
  }

  // Round up to a multiple of eight.
  function Align8(n: nat): Result<nat, FrameError> {
    match CheckedAdd(n, 7)
    case Err(e) => Err(e)
    case Ok(m) => Ok(m - m % 8)
  }

  function U32At(e: Endian, buf: bytes, pos: nat): (n: nat)
    requires pos + 4 <= |buf|
    ensures n < 0x1_0000_0000
  {
    DecodeUIntBound(e, buf[pos..pos + 4]);
    Pow256Small();
    DecodeUInt(e, buf[pos..pos + 4])
  }

  // Size of the frame at the start of `buf`; None while the fixed prefix is incomplete.
  function BytesNeeded(buf: bytes): (r: Result<Option<nat>, FrameError>)
    ensures r.Ok? && r.value.Some? ==> FIXED_HEADER_LEN <= r.value.value <= MAX_MESSAGE_SIZE
    ensures r == Ok(None) <==> |buf| < FIXED_HEADER_LEN
  {
    if |buf| < FIXED_HEADER_LEN then Ok(None)
    else
      match ParseEndian(buf[0])
      case Err(e) => Err(e)
      case Ok(endian) =>
        if buf[3] != 1 then Err(WrongProtocolVersion(buf[3]))
        else
          match CheckedAdd(FIXED_HEADER_LEN, U32At(endian, buf, 12))
          case Err(e) => Err(e)
          case Ok(headerSection) =>
            match Align8(headerSection)
            case Err(e) => Err(e)
            case Ok(bodyStart) =>
              match CheckedAdd(bodyStart, U32At(endian, buf, 4))
              case Err(e) => Err(e)
              case Ok(total) =>
                if total > MAX_MESSAGE_SIZE then Err(MessageTooLarge(total)) else Ok(Some(total))
  }

  // Only the first 16 bytes matter.
  lemma BytesNeededPrefix(buf: bytes, more: bytes)
    requires |buf| >= FIXED_HEADER_LEN
    ensures BytesNeeded(buf + more) == BytesNeeded(buf)
  {
    assert (buf + more)[4..8] == buf[4..8];
    assert (buf + more)[12..16] == buf[12..16];
  }

  // ---------------------------------------------------------------------
  // Header fields
  // ---------------------------------------------------------------------

  const FIELD_TYPE := TStruct([TFixed('y' as u8), TVariant])
  const HEADER_TYPE := TArray(FIELD_TYPE)

  // A signature that is one parenthesised struct loses its parentheses when it is read back.
  function NoParens(s: bytes): bytes {
    match ParseSig(s)
    case None => s
    case Some(ts) => if |ts| == 1 && ts[0].TStruct? then Sigs(ts[0].fields) else s
  }

  function AsText(v: Val): Option<bytes> {
    if v.VText? && v.code == 's' as u8 then Some(v.text) else None
  }

  function AsU32(v: Val): Option<u32> {
    if v.VFixed? && v.code == 'u' as u8 && v.bits < 0x1_0000_0000 then Some(v.bits) else None
  }

  // Record one wire field; unknown codes are ignored.
  function Record(h: Headers, code: int, v: Val): Headers {
    match code
    case 1 => if v.VText? && v.code == 'o' as u8 then h.(path := Some(v.text)) else h
    case 2 => h.(interface := AsText(v))
    case 3 => h.(member := AsText(v))
    case 4 => h.(errorName := AsText(v))
    case 5 => h.(replySerial := AsU32(v))
    case 6 => h.(destination := AsText(v))
    case 7 => h.(sender := AsText(v))
    case 8 => if v.VSig? then h.(signature := Some(NoParens(v.sig))) else h
    case 9 => h.(unixFds := AsU32(v))
    case _ => h
  }

  function FieldCode(item: Val): int {
    if item.VStruct? && |item.members| == 2 && item.members[0].VFixed? then item.members[0].bits else 0
  }

  function FieldValue(item: Val): Val {
    if item.VStruct? && |item.members| == 2 && item.members[1].VVariant? then item.members[1].inner else item
  }

  function FromRaw(h: Headers, items: seq<Val>): Headers
    decreases |items|
  {
    if items == [] then h
    else FromRaw(Record(h, FieldCode(items[0]), FieldValue(items[0])), items[1..])
  }

  function Field(code: u8, v: Val): Val {
    VStruct([VFixed('y' as u8, code as nat), VVariant(v)])
  }

  function PathField(p: Option<bytes>): seq<Val> {
    if p.Some? && ValidPath(p.value) then [Field(1, VText('o' as u8, p.value))] else []
  }

  function TextField(code: u8, s: Option<bytes>): seq<Val> {
    if s.Some? then [Field(code, VText('s' as u8, s.value))] else []
  }

  function U32Field(code: u8, n: Option<u32>): seq<Val> {
    if n.Some? then [Field(code, VFixed('u' as u8, n.value))] else []
  }

  function SigField(s: Option<bytes>): seq<Val> {
    if s.Some? then [Field(8, VSig(s.value))] else []
  }

  // The fields in the order they are written; an invalid object path is skipped.
  function FieldItems(h: Headers): seq<Val> {
    PathField(h.path) + TextField(2, h.interface) + TextField(3, h.member) + TextField(4, h.errorName)
    + U32Field(5, h.replySerial) + TextField(6, h.destination) + TextField(7, h.sender)
    + SigField(h.signature) + U32Field(9, h.unixFds)
  }

  function HeaderVal(h: Headers): Val {
    VArray(FIELD_TYPE, FieldItems(h))
  }

  // ---------------------------------------------------------------------
  // Parse and encode
  // ---------------------------------------------------------------------

  function Parse(buf: bytes): Result<Frame, FrameError> {
    if |buf| < FIXED_HEADER_LEN then Err(TooShort)
    else
      match ParseEndian(buf[0])
      case Err(e) => Err(e)
      case Ok(endian) =>
        if buf[3] != 1 then Err(WrongProtocolVersion(buf[3]))
        else
          match ParseKind(buf[1])
          case Err(e) => Err(e)
          case Ok(kind) =>
            if U32At(endian, buf, 8) == 0 then Err(ZeroSerial)
            else ParseRest(endian, kind, buf)
  }

  // The a(yv) field array at offset 12.
  function ReadHeaders(endian: Endian, data: bytes): Option<Headers>
    requires |data| >= FIXED_HEADER_LEN
  {
    match Unmarshal(endian, HEADER_TYPE, data, 12)
    case None => None
    case Some((raw, _)) => Some(FromRaw(NO_HEADERS, if raw.VArray? then raw.items else []))
  }

  // The variable part, once the fixed prefix is accepted.
  function ParseRest(endian: Endian, kind: MessageKind, buf: bytes): Result<Frame, FrameError>
    requires |buf| >= FIXED_HEADER_LEN
  {
    match CheckedAdd(FIXED_HEADER_LEN, U32At(endian, buf, 12))
    case Err(e) => Err(e)
    case Ok(fieldsEnd) =>
      if |buf| < fieldsEnd then Err(TooShort)
      else
        match ReadHeaders(endian, buf[..fieldsEnd])
        case None => Err(HeaderFieldsParse)
        case Some(headers) =>
          match Align8(fieldsEnd)
          case Err(e) => Err(e)
          case Ok(bodyStart) =>
            match CheckedAdd(bodyStart, U32At(endian, buf, 4))
            case Err(e) => Err(e)
            case Ok(bodyEnd) =>
              if |buf| < bodyEnd then Err(TooShort)
              else Ok(Frame(endian, kind, buf[2], U32At(endian, buf, 8), headers, buf[bodyStart..bodyEnd]))
  }

  function FixedPrefix(f: Frame): (p: bytes)
    ensures |p| == 12
  {
    [EndianByte(f.endian), KindByte(f.kind), f.flags, 1]
    + EncodeUInt(f.endian, |f.body|, 4)
    + EncodeUInt(f.endian, f.serial, 4)
  }

  function Head(f: Frame): bytes {
    FixedPrefix(f) + Marshal(f.endian, HeaderVal(f.headers), 12)
  }

  function Encode(f: Frame): bytes {
    Head(f) + Padding(|Head(f)|, 8) + f.body
  }

  // ---------------------------------------------------------------------
  // Round trip
  // ---------------------------------------------------------------------

  predicate NoNulOpt(s: Option<bytes>) {
    s.Some? ==> NoNul(s.value)
  }

  // Header values that marshal: no NUL in a string, and a body signature that is a signature.
  predicate ValidHeaders(h: Headers) {
    && NoNulOpt(h.interface)
    && NoNulOpt(h.member)
    && NoNulOpt(h.errorName)
    && NoNulOpt(h.destination)
    && NoNulOpt(h.sender)
    && (h.signature.Some? ==> ValidSig(h.signature.value))
  }

  // What a frame keeps on the wire: an invalid object path is dropped, a signature that is one
  // parenthesised struct loses its parentheses.
  function Normalize(h: Headers): Headers {
    h.(path := if h.path.Some? && ValidPath(h.path.value) then h.path else None,
       signature := if h.signature.Some? then Some(NoParens(h.signature.value)) else None)
  }

  lemma {:induction false} FromRawAppend(h: Headers, a: seq<Val>, b: seq<Val>)
    ensures FromRaw(h, a + b) == FromRaw(FromRaw(h, a), b)
    decreases |a|
  {
    if a == [] {
      assert a + b == b;
    } else {
      assert (a + b)[1..] == a[1..] + b && (a + b)[0] == a[0];
      FromRawAppend(Record(h, FieldCode(a[0]), FieldValue(a[0])), a[1..], b);
    }
  }

  lemma FromRawOne(h: Headers, code: u8, v: Val)
    ensures FromRaw(h, [Field(code, v)]) == Record(h, code as int, v)
  {
    assert FromRaw(h, [Field(code, v)]) == FromRaw(Record(h, code as int, v), [Field(code, v)][1..]);
  }

  lemma TextFieldRead(h: Headers, code: u8, s: Option<bytes>)
    ensures FromRaw(h, TextField(code, s)) ==
            if s.Some? then Record(h, code as int, VText('s' as u8, s.value)) else h
  {
    if s.Some? {
      FromRawOne(h, code, VText('s' as u8, s.value));
    }
  }

  lemma U32FieldRead(h: Headers, code: u8, n: Option<u32>)
    ensures FromRaw(h, U32Field(code, n)) ==
            if n.Some? then Record(h, code as int, VFixed('u' as u8, n.value)) else h
  {
    if n.Some? {
      FromRawOne(h, code, VFixed('u' as u8, n.value));
    }
  }

  lemma ReadNext(a: seq<Val>, ha: Headers, part: seq<Val>, hb: Headers)
    requires FromRaw(NO_HEADERS, a) == ha && FromRaw(ha, part) == hb
    ensures FromRaw(NO_HEADERS, a + part) == hb
  {
    FromRawAppend(NO_HEADERS, a, part);
  }

  lemma ReadText(a: seq<Val>, ha: Headers, code: u8, s: Option<bytes>, hb: Headers)
    requires FromRaw(NO_HEADERS, a) == ha
    requires hb == if s.Some? then Record(ha, code as int, VText('s' as u8, s.value)) else ha
    ensures FromRaw(NO_HEADERS, a + TextField(code, s)) == hb
  {
    TextFieldRead(ha, code, s);
    ReadNext(a, ha, TextField(code, s), hb);
  }

  lemma ReadU32(a: seq<Val>, ha: Headers, code: u8, n: Option<u32>, hb: Headers)
    requires FromRaw(NO_HEADERS, a) == ha
    requires hb == if n.Some? then Record(ha, code as int, VFixed('u' as u8, n.value)) else ha
    ensures FromRaw(NO_HEADERS, a + U32Field(code, n)) == hb
  {
    U32FieldRead(ha, code, n);
    ReadNext(a, ha, U32Field(code, n), hb);
  }

  lemma EarlyFieldsReadBack(h: Headers) returns (a: seq<Val>, h4: Headers)
    ensures a == PathField(h.path) + TextField(2, h.interface) + TextField(3, h.member) + TextField(4, h.errorName)
    ensures h4 == NO_HEADERS.(path := Normalize(h).path, interface := h.interface,
                              member := h.member, errorName := h.errorName)
    ensures FromRaw(NO_HEADERS, a) == h4
  {
    var h1 := NO_HEADERS.(path := Normalize(h).path);
    if h.path.Some? && ValidPath(h.path.value) {
      FromRawOne(NO_HEADERS, 1, VText('o' as u8, h.path.value));
    }
    a := PathField(h.path);
    var h2 := h1.(interface := h.interface);
    ReadText(a, h1, 2, h.interface, h2);
    a := a + TextField(2, h.interface);
    var h3 := h2.(member := h.member);
    ReadText(a, h2, 3, h.member, h3);
    a := a + TextField(3, h.member);
    h4 := h3.(errorName := h.errorName);
    ReadText(a, h3, 4, h.errorName, h4);
    a := a + TextField(4, h.errorName);
  }

  // Reading the written fields gives the headers back, up to `Normalize`.
  lemma FieldsReadBack(h: Headers)
    ensures FromRaw(NO_HEADERS, FieldItems(h)) == Normalize(h)
  {
    var a, h4 := EarlyFieldsReadBack(h);
    var h5 := h4.(replySerial := h.replySerial);
    ReadU32(a, h4, 5, h.replySerial, h5);
    a := a + U32Field(5, h.replySerial);
    var h6 := h5.(destination := h.destination);
    ReadText(a, h5, 6, h.destination, h6);
    a := a + TextField(6, h.destination);
    var h7 := h6.(sender := h.sender);
    ReadText(a, h6, 7, h.sender, h7);
    a := a + TextField(7, h.sender);
    var h8 := h7.(signature := Normalize(h).signature);
    if h.signature.Some? {
      FromRawOne(h7, 8, VSig(h.signature.value));
    }
    ReadNext(a, h7, SigField(h.signature), h8);
    a := a + SigField(h.signature);
    ReadU32(a, h8, 9, h.unixFds, Normalize(h));
    assert a + U32Field(9, h.unixFds) == FieldItems(h);
  }

  predicate GoodField(item: Val) {
    Valid(item) && TypeOf(item) == FIELD_TYPE
  }

  lemma FieldGood(code: u8, v: Val)
    requires Valid(v) && WellFormed(TypeOf(v)) && |Sig(TypeOf(v))| == 1
    ensures GoodField(Field(code, v))
  {
    Pow256Small();
    var ms := [VFixed('y' as u8, code as nat), VVariant(v)];
    assert ms[1..] == [VVariant(v)];
    assert Valid(VVariant(v));
    assert AllValid([VVariant(v)]);
    assert Valid(ms[0]);
    assert AllValid(ms);
    assert TypesOf(ms) == [TFixed('y' as u8)] + TypesOf(ms[1..]) == [TFixed('y' as u8), TVariant];
  }

  lemma TextFieldGood(code: u8, s: Option<bytes>)
    requires NoNulOpt(s)
    ensures forall x :: x in TextField(code, s) ==> GoodField(x)
  {
    if s.Some? {
      FieldGood(code, VText('s' as u8, s.value));
    }
  }

  lemma U32FieldGood(code: u8, n: Option<u32>)
    ensures forall x :: x in U32Field(code, n) ==> GoodField(x)
  {
    Pow256Small();
    if n.Some? {
      FieldGood(code, VFixed('u' as u8, n.value));
    }
  }

  lemma PathNoNul(p: bytes)
    requires ValidPath(p)
    ensures NoNul(p)
  {}

  lemma FieldItemsGood(h: Headers)
    requires ValidHeaders(h)
    ensures forall x :: x in FieldItems(h) ==> GoodField(x)
  {
    if h.path.Some? && ValidPath(h.path.value) {
      PathNoNul(h.path.value);
      FieldGood(1, VText('o' as u8, h.path.value));
    }
    TextFieldGood(2, h.interface);
    TextFieldGood(3, h.member);
    TextFieldGood(4, h.errorName);
    U32FieldGood(5, h.replySerial);
    TextFieldGood(6, h.destination);
    TextFieldGood(7, h.sender);
    if h.signature.Some? {
      FieldGood(8, VSig(h.signature.value));
    }
    U32FieldGood(9, h.unixFds);
  }

  lemma {:induction false} AllValidItems(items: seq<Val>)
    requires forall x :: x in items ==> Valid(x)
    ensures AllValid(items)
  {
    if items != [] {
      AllValidItems(items[1..]);
    }
  }

  lemma HeaderValValid(h: Headers)
    requires ValidHeaders(h)
    ensures Valid(HeaderVal(h))
  {
    FieldItemsGood(h);
    var items := FieldItems(h);
    forall x | x in items ensures Valid(x) && TypeOf(x) == FIELD_TYPE {
      assert GoodField(x);
    }
    AllValidItems(items);
    assert AllWellFormed([TVariant]);
    var fs := [TFixed('y' as u8), TVariant];
    assert fs[1..] == [TVariant];
    assert AllWellFormed(fs);
  }

  // The length prefix sits at offset 12 and the first field at 16, so neither is padded.
  lemma HeaderBytes(e: Endian, h: Headers)
    ensures var m := Marshal(e, HeaderVal(h), 12);
            |m| >= 4 && m[..4] == EncodeUInt(e, |m| - 4, 4)
  {
    var body := MarshalAll(e, FieldItems(h), 16);
    assert Padding(12, 4) == [] && Padding(16, 8) == [];
    assert Marshal(e, HeaderVal(h), 12) == EncodeUInt(e, |body|, 4) + body;
  }

  // The sixteen bytes that give the size of a frame.
  function SizePrefix(f: Frame): (p: bytes)
    ensures |p| == 16
  {
    FixedPrefix(f) + EncodeUInt(f.endian, if |Head(f)| < 16 then 0 else |Head(f)| - 16, 4)
  }

  lemma SizePrefixAt(f: Frame, buf: bytes)
    requires At(buf, 0, Encode(f))
    ensures |Head(f)| >= 16
    ensures |buf| >= 16 && buf[..16] == SizePrefix(f)
  {
    HeadAt(f, buf);
    HeadStart(f);
    assert buf[..16] == buf[..|Head(f)|][..16];
  }

  lemma HeadStart(f: Frame)
    ensures |Head(f)| >= 16 && Head(f)[..16] == SizePrefix(f)
  {
    HeaderBytes(f.endian, f.headers);
    var fields := Marshal(f.endian, HeaderVal(f.headers), 12);
    assert (FixedPrefix(f) + fields)[..16] == FixedPrefix(f) + fields[..4];
  }

  lemma PrefixBytes(f: Frame, buf: bytes)
    requires |Encode(f)| < 0x1_0000_0000
    requires At(buf, 0, Encode(f))
    ensures |buf| >= FIXED_HEADER_LEN
    ensures buf[0] == EndianByte(f.endian) && buf[1] == KindByte(f.kind) && buf[2] == f.flags && buf[3] == 1
    ensures U32At(f.endian, buf, 4) == |f.body|
    ensures U32At(f.endian, buf, 8) == f.serial
    ensures U32At(f.endian, buf, 12) == |Head(f)| - 16
  {
    SizePrefixAt(f, buf);
    HeadAt(f, buf);
    assert forall i :: 0 <= i < 4 ==> buf[i] == buf[..16][i];
    U32Of(f.endian, buf, 4, |f.body|);
    U32Of(f.endian, buf, 8, f.serial);
    U32Of(f.endian, buf, 12, |Head(f)| - 16);
  }

  lemma U32Of(e: Endian, buf: bytes, pos: nat, n: u32)
    requires pos + 4 <= 16 <= |buf| && buf[..16][pos..pos + 4] == EncodeUInt(e, n, 4)
    ensures U32At(e, buf, pos) == n
  {
    Pow256Small();
    assert buf[pos..pos + 4] == buf[..16][pos..pos + 4];
    UIntRoundTrip(e, n, 4);
  }

  lemma HeadAt(f: Frame, buf: bytes)
    requires At(buf, 0, Encode(f))
    ensures |Head(f)| <= |buf| && buf[..|Head(f)|] == Head(f)
    ensures |Head(f)| <= |Encode(f)|
  {
    AtSplit(buf, 0, Head(f), Padding(|Head(f)|, 8) + f.body) by {
      assert Encode(f) == Head(f) + (Padding(|Head(f)|, 8) + f.body);
    }
  }

  lemma HeadersReadBack(f: Frame)
    requires ValidHeaders(f.headers)
    requires 16 <= |Head(f)| < 0x1_0000_0000
    ensures ReadHeaders(f.endian, Head(f)) == Some(Normalize(f.headers))
  {
    var m := Marshal(f.endian, HeaderVal(f.headers), 12);
    assert Head(f)[12..12 + |m|] == m;
    HeaderValValid(f.headers);
    RoundTrip(f.endian, HeaderVal(f.headers), Head(f), 12);
    FieldsReadBack(f.headers);
  }

  lemma BodyBytes(f: Frame, buf: bytes)
    requires |Encode(f)| < 0x1_0000_0000
    requires At(buf, 0, Encode(f))
    ensures var start := |Head(f)| + |Padding(|Head(f)|, 8)|;
            && Align8(|Head(f)|) == Ok(start)
            && start + |f.body| == |Encode(f)| <= |buf|
            && buf[start..start + |f.body|] == f.body
  {
    BodyAt(Head(f), f.body, buf);
  }

  lemma BodyAt(head: bytes, body: bytes, buf: bytes)
    requires |head| + |body| < 0x2_0000_0000
    requires At(buf, 0, head + Padding(|head|, 8) + body)
    ensures var start := |head| + |Padding(|head|, 8)|;
            && Align8(|head|) == Ok(start)
            && start + |body| <= |buf|
            && buf[start..start + |body|] == body
  {
    Align8IsPadding(|head|);
    AtSplit(buf, 0, head + Padding(|head|, 8), body);
  }

  lemma Align8IsPadding(n: nat)
    ensures Align8(n) == if n + 7 > USIZE_MAX then Err(SizeOverflow) else Ok(n + |Padding(n, 8)|)
  {
    RoundUp(n);
  }

  lemma RoundUp(n: nat)
    ensures n + 7 - (n + 7) % 8 == n + (8 - n % 8) % 8
  {
    var q, r := n / 8, n % 8;
    if r == 0 {
      assert n + 7 == 8 * q + 7;
    } else {
      assert n + 7 == 8 * (q + 1) + (r - 1);
    }
  }

  // Parsing an encoded frame gives the frame back, whatever follows it in the buffer.
  lemma ParseEncode(f: Frame, buf: bytes)
    requires ValidHeaders(f.headers) && f.serial != 0
    requires |Encode(f)| < 0x1_0000_0000
    requires At(buf, 0, Encode(f))
    ensures Parse(buf) == Ok(f.(headers := Normalize(f.headers)))
  {
    PrefixBytes(f, buf);
    ParseRestEncode(f, buf);
    ParseFixed(f.endian, f.kind, buf);
  }

  lemma ParseFixed(endian: Endian, kind: MessageKind, buf: bytes)
    requires |buf| >= FIXED_HEADER_LEN
    requires buf[0] == EndianByte(endian) && buf[1] == KindByte(kind) && buf[3] == 1
    requires U32At(endian, buf, 8) != 0
    ensures Parse(buf) == ParseRest(endian, kind, buf)
  {}

  lemma ParseRestEncode(f: Frame, buf: bytes)
    requires ValidHeaders(f.headers)
    requires |Encode(f)| < 0x1_0000_0000
    requires At(buf, 0, Encode(f)) && |buf| >= FIXED_HEADER_LEN
    requires U32At(f.endian, buf, 4) == |f.body|
    requires U32At(f.endian, buf, 8) == f.serial
    requires U32At(f.endian, buf, 12) == |Head(f)| - 16
    requires buf[2] == f.flags
    ensures ParseRest(f.endian, f.kind, buf) == Ok(f.(headers := Normalize(f.headers)))
  {
    HeadAt(f, buf);
    HeadersReadBack(f);
    BodyBytes(f, buf);
    ParseRestParts(f.endian, f.kind, buf, |Head(f)|, Normalize(f.headers), |Head(f)| + |Padding(|Head(f)|, 8)|,
        |f.body|);
  }

  lemma ParseRestParts(endian: Endian, kind: MessageKind, buf: bytes, fieldsEnd: nat, h: Headers, start: nat, n: u32)
    requires 16 <= fieldsEnd < 0x1_0000_0010 && fieldsEnd <= start && start + n <= |buf| && start < 0x2_0000_0000
    requires U32At(endian, buf, 12) == fieldsEnd - 16 && U32At(endian, buf, 4) == n
    requires ReadHeaders(endian, buf[..fieldsEnd]) == Some(h)
    requires Align8(fieldsEnd) == Ok(start)
    ensures ParseRest(endian, kind, buf) ==
            Ok(Frame(endian, kind, buf[2], U32At(endian, buf, 8), h, buf[start..start + n]))
  {}

  // The exact condition for a faithful round trip.
  lemma RoundTripIff(f: Frame, tail: bytes)
    requires ValidHeaders(f.headers) && f.serial != 0
    requires |Encode(f)| < 0x1_0000_0000
    ensures Parse(Encode(f) + tail) == Ok(f) <==>
            && (f.headers.path.Some? ==> ValidPath(f.headers.path.value))
            && (f.headers.signature.Some? ==> !OneStruct(f.headers.signature.value))
  {
    assert (Encode(f) + tail)[0..|Encode(f)|] == Encode(f);
    ParseEncode(f, Encode(f) + tail);
    if f.headers.signature.Some? && OneStruct(f.headers.signature.value) {
      OneStructShape(f.headers.signature.value);
    }
  }

  // The signature of exactly one type, a struct.
  predicate OneStruct(s: bytes) {
    ParseSig(s).Some? && |ParseSig(s).value| == 1 && ParseSig(s).value[0].TStruct?
  }

  lemma OneStructShape(s: bytes)
    requires OneStruct(s)
    ensures var fs := ParseSig(s).value[0].fields;
            AllWellFormed(fs) && NoParens(s) == Sigs(fs) && |Sigs(fs)| + 2 == |s|
  {
    SigsOfParseSig(s);
    SigsCons(ParseSig(s).value);
  }

  const TWO_INTS := TStruct([TFixed('i' as u8), TFixed('i' as u8)])

  lemma TwoIntsSig()
    ensures Sig(TWO_INTS) == Sigs([TWO_INTS]) == ['(' as u8, 'i' as u8, 'i' as u8, ')' as u8]
    ensures WellFormed(TWO_INTS) && ValidSig(Sig(TWO_INTS)) && OneStruct(Sig(TWO_INTS))
  {
    var i := TFixed('i' as u8);
    SigsCons([i, i]);
    SigsCons([i]);
    SigsCons([TWO_INTS]);
    assert [i, i][1..] == [i] && [i][1..] == [] && [TWO_INTS][1..] == [];
    assert Sigs([i]) == ['i' as u8] && Sigs([i, i]) == ['i' as u8, 'i' as u8];
    WellFormedCons(i, []);
    WellFormedCons(i, [i]);
    assert [i] + [i] == [i, i] && [i] + [] == [i] && [TWO_INTS] + [] == [TWO_INTS];
    WellFormedCons(TWO_INTS, []);
    ParseSigOfSigs([TWO_INTS]);
  }

  lemma WellFormedCons(t: Ty, ts: seq<Ty>)
    requires WellFormed(t) && AllWellFormed(ts)
    ensures AllWellFormed([t] + ts)
  {
    assert ([t] + ts)[1..] == ts;
  }

  lemma ValidCons(v: Val, vs: seq<Val>)
    requires Valid(v) && AllValid(vs)
    ensures AllValid([v] + vs)
  {
    assert ([v] + vs)[1..] == vs;
  }

  // A signal whose body signature is one struct comes back with another signature.
  lemma StructSignatureChanges(f: Frame)
    requires f == Frame(Little, Signal, 0, 1, NO_HEADERS.(signature := Some(Sig(TWO_INTS))), [])
    ensures Parse(Encode(f)) != Ok(f)
  {
    TwoIntsSig();
    BoundedLength(f);
    assert Encode(f) + [] == Encode(f);
    RoundTripIff(f, []);
  }

  // The splitter sees exactly the encoded length, or refuses a frame over the limit.
  lemma BytesNeededEncode(f: Frame, tail: bytes)
    requires |Encode(f)| < 0x1_0000_0000
    ensures BytesNeeded(Encode(f) + tail) ==
            if |Encode(f)| <= MAX_MESSAGE_SIZE then Ok(Some(|Encode(f)|))
            else Err(MessageTooLarge(|Encode(f)|))
  {
    var buf := Encode(f) + tail;
    assert buf[0..|Encode(f)|] == Encode(f);
    PrefixBytes(f, buf);
    BodyBytes(f, buf);
    BytesNeededParts(f.endian, buf, |Head(f)|, |Head(f)| + |Padding(|Head(f)|, 8)|, |f.body|);
  }

  // The fixed prefix alone already tells the whole length.
  lemma LengthFromPrefix(f: Frame)
    requires |Encode(f)| <= MAX_MESSAGE_SIZE
    ensures |Encode(f)| >= FIXED_HEADER_LEN
    ensures BytesNeeded(Encode(f)[..FIXED_HEADER_LEN]) == Ok(Some(|Encode(f)|))
  {
    var all := Encode(f);
    assert all + [] == all;
    BytesNeededEncode(f, []);
    assert all == all[..FIXED_HEADER_LEN] + all[FIXED_HEADER_LEN..];
    BytesNeededPrefix(all[..FIXED_HEADER_LEN], all[FIXED_HEADER_LEN..]);
  }

  lemma BytesNeededParts(e: Endian, buf: bytes, fieldsEnd: nat, start: nat, n: u32)
    requires |buf| >= 16 && buf[0] == EndianByte(e) && buf[3] == 1
    requires 16 <= fieldsEnd < 0x1_0000_0000 && Align8(fieldsEnd) == Ok(start) && start < 0x2_0000_0000
    requires U32At(e, buf, 12) == fieldsEnd - 16 && U32At(e, buf, 4) == n
    ensures BytesNeeded(buf) ==
            if start + n <= MAX_MESSAGE_SIZE then Ok(Some(start + n)) else Err(MessageTooLarge(start + n))
  {}

  // ---------------------------------------------------------------------
  // What a parsed frame guarantees about its strings
  // ---------------------------------------------------------------------

  predicate TextWithin(s: Option<bytes>, n: nat) {
    s.Some? ==> NoNul(s.value) && |s.value| <= n
  }

  predicate TextsWithin(h: Headers, n: nat) {
    && TextWithin(h.interface, n)
    && TextWithin(h.member, n)
    && TextWithin(h.errorName, n)
    && TextWithin(h.destination, n)
    && TextWithin(h.sender, n)
  }

  predicate PathAndSigGood(h: Headers, n: nat) {
    && (h.path.Some? ==> ValidPath(h.path.value) && |h.path.value| <= n)
    && (h.signature.Some? ==> ValidSig(h.signature.value))
  }

  // A value read off the wire: its text is well formed and no longer than the buffer.
  predicate GoodValue(v: Val, n: nat) {
    && (v.VText? ==> ValidText(v.code, v.text) && |v.text| <= n)
    && (v.VSig? ==> ValidSig(v.sig))
  }

  lemma UnmarshalledValue(e: Endian, t: Ty, buf: bytes, pos: nat)
    requires pos <= |buf| && Unmarshal(e, t, buf, pos).Some?
    ensures GoodValue(Unmarshal(e, t, buf, pos).value.0, |buf|)
  {}

  lemma UnmarshalledField(e: Endian, buf: bytes, pos: nat)
    requires pos <= |buf| && Unmarshal(e, FIELD_TYPE, buf, pos).Some?
    ensures GoodValue(FieldValue(Unmarshal(e, FIELD_TYPE, buf, pos).value.0), |buf|)
  {
    var p := SkipPadding(buf, pos, 8).value;
    var ts := FIELD_TYPE.fields;
    assert ts[1..] == [TVariant];
    var (_, q) := Unmarshal(e, ts[0], buf, p).value;
    var vs := UnmarshalAll(e, ts[1..], buf, q).value.0;
    var w := Unmarshal(e, TVariant, buf, q).value.0;
    assert vs[0] == w;
    var (s, r) := ReadSig(buf, q).value;
    UnmarshalledValue(e, ParseSig(s).value[0], buf, r);
  }

  ghost predicate ItemsWithin(items: seq<Val>, n: nat) {
    forall i :: 0 <= i < |items| ==> GoodValue(FieldValue(items[i]), n)
  }

  lemma {:induction false} UnmarshalledFields(e: Endian, buf: bytes, pos: nat, end: nat)
    requires pos <= |buf| && end <= |buf| && UnmarshalItems(e, FIELD_TYPE, buf, pos, end).Some?
    ensures ItemsWithin(UnmarshalItems(e, FIELD_TYPE, buf, pos, end).value, |buf|)
    decreases |buf| - pos
  {
    if pos != end {
      UnmarshalItemsStep(e, FIELD_TYPE, buf, pos, end);
      UnmarshalledField(e, buf, pos);
      UnmarshalledFields(e, buf, Unmarshal(e, FIELD_TYPE, buf, pos).value.1, end);
    }
  }

  lemma RecordWithin(h: Headers, code: int, v: Val, n: nat)
    requires TextsWithin(h, n) && GoodValue(v, n)
    ensures TextsWithin(Record(h, code, v), n)
  {
    AsTextWithin(v, n);
    RecordTexts(h, code, v);
  }

  lemma RecordTexts(h: Headers, code: int, v: Val)
    ensures var r := Record(h, code, v);
            && r.interface == (if code == 2 then AsText(v) else h.interface)
            && r.member == (if code == 3 then AsText(v) else h.member)
            && r.errorName == (if code == 4 then AsText(v) else h.errorName)
            && r.destination == (if code == 6 then AsText(v) else h.destination)
            && r.sender == (if code == 7 then AsText(v) else h.sender)
  {}

  lemma AsTextWithin(v: Val, n: nat)
    requires GoodValue(v, n)
    ensures TextWithin(AsText(v), n)
  {}

  lemma RecordPathAndSig(h: Headers, code: int, v: Val, n: nat)
    requires PathAndSigGood(h, n) && GoodValue(v, n)
    ensures PathAndSigGood(Record(h, code, v), n)
  {
    if code == 8 && v.VSig? {
      NoParensValid(v.sig);
    }
  }

  // Without its outer parentheses a signature is still one.
  lemma NoParensValid(s: bytes)
    requires ValidSig(s)
    ensures ValidSig(NoParens(s))
  {
    if OneStruct(s) {
      var fs := ParseSig(s).value[0].fields;
      OneStructShape(s);
      ParseSigOfSigs(fs);
      SigsNoNul(fs);
    }
  }

  lemma {:induction false} FieldsWithin(h: Headers, items: seq<Val>, n: nat)
    requires TextsWithin(h, n) && PathAndSigGood(h, n) && ItemsWithin(items, n)
    ensures TextsWithin(FromRaw(h, items), n) && PathAndSigGood(FromRaw(h, items), n)
    decreases |items|
  {
    if items != [] {
      RecordWithin(h, FieldCode(items[0]), FieldValue(items[0]), n);
      RecordPathAndSig(h, FieldCode(items[0]), FieldValue(items[0]), n);
      FieldsWithin(Record(h, FieldCode(items[0]), FieldValue(items[0])), items[1..], n);
    }
  }

  // Header strings read off the wire hold no NUL and are no longer than the frame; the path is an
  // object path and the signature a signature.
  lemma ParsedTexts(buf: bytes)
    requires Parse(buf).Ok?
    ensures TextsWithin(Parse(buf).value.headers, |buf|)
    ensures PathAndSigGood(Parse(buf).value.headers, |buf|)
  {
    var e := ParseEndian(buf[0]).value;
    var data := buf[..16 + U32At(e, buf, 12)];
    var (n, p) := ReadUInt(e, data, 12, 4).value;
    var start := SkipPadding(data, p, 8).value;
    var items := UnmarshalItems(e, FIELD_TYPE, data, start, start + n).value;
    UnmarshalledFields(e, data, start, start + n);
    GoodLonger(items, |data|, |buf|);
    FieldsWithin(NO_HEADERS, items, |buf|);
  }

  lemma GoodLonger(items: seq<Val>, m: nat, n: nat)
    requires ItemsWithin(items, m) && m <= n
    ensures ItemsWithin(items, n)
  {}

  // ---------------------------------------------------------------------
  // Size of a frame with bounded header strings
  // ---------------------------------------------------------------------

  const FIELD_BOUND: nat := MAX_MESSAGE_SIZE + 64

  predicate Bounded(h: Headers) {
    && TextsWithin(h, MAX_MESSAGE_SIZE)
    && h.path.None?
    && (h.signature.Some? ==> |h.signature.value| < 256)
  }

  predicate SmallField(item: Val) {
    && item.VStruct? && |item.members| == 2
    && item.members[0].VFixed? && item.members[0].code == 'y' as u8
    && item.members[1].VVariant?
    && match item.members[1].inner
       case VText(_, s) => |s| <= MAX_MESSAGE_SIZE
       case VFixed(c, _) => c == 'u' as u8
       case VSig(s) => |s| < 256
       case _ => false
  }

  lemma SmallFieldLength(e: Endian, item: Val, pos: nat)
    requires SmallField(item)
    ensures |Marshal(e, item, pos)| <= FIELD_BOUND
  {
    var ms, w := item.members, item.members[1].inner;
    var p := pos + |Padding(pos, 8)|;
    assert |Marshal(e, ms[0], p)| == 1;
    assert ms[1..] == [ms[1]];
    MarshalOne(e, ms[1], p + 1);
    var head := MarshalSig(Sig(TypeOf(w)));
    assert |head| == 3;
    assert |Marshal(e, w, p + 1 + 3)| <= MAX_MESSAGE_SIZE + 8;
  }

  lemma MarshalOne(e: Endian, v: Val, pos: nat)
    ensures MarshalAll(e, [v], pos) == Marshal(e, v, pos)
  {
    assert [v][1..] == [];
  }

  lemma {:induction false} SmallFieldsLength(e: Endian, items: seq<Val>, pos: nat)
    requires forall x :: x in items ==> SmallField(x)
    ensures |MarshalAll(e, items, pos)| <= |items| * FIELD_BOUND
    decreases |items|
  {
    if items != [] {
      SmallFieldLength(e, items[0], pos);
      SmallFieldsLength(e, items[1..], pos + |Marshal(e, items[0], pos)|);
      assert |items| * FIELD_BOUND == FIELD_BOUND + |items[1..]| * FIELD_BOUND;
    }
  }

  lemma SmallTextField(code: u8, s: Option<bytes>)
    requires TextWithin(s, MAX_MESSAGE_SIZE)
    ensures forall x :: x in TextField(code, s) ==> SmallField(x)
    ensures |TextField(code, s)| <= 1
  {}

  lemma SmallU32Field(code: u8, n: Option<u32>)
    ensures forall x :: x in U32Field(code, n) ==> SmallField(x)
    ensures |U32Field(code, n)| <= 1
  {}

  lemma SmallFields(h: Headers)
    requires Bounded(h)
    ensures forall x :: x in FieldItems(h) ==> SmallField(x)
    ensures |FieldItems(h)| <= 8
  {
    SmallTextField(2, h.interface);
    SmallTextField(3, h.member);
    SmallTextField(4, h.errorName);
    SmallU32Field(5, h.replySerial);
    SmallTextField(6, h.destination);
    SmallTextField(7, h.sender);
    forall x | x in SigField(h.signature) ensures SmallField(x) {}
    assert |SigField(h.signature)| <= 1;
    SmallU32Field(9, h.unixFds);
    assert PathField(h.path) == [];
  }

  // A frame whose header strings come from messages within the size limit stays far below 2^32.
  lemma BoundedLength(f: Frame)
    requires Bounded(f.headers) && |f.body| <= MAX_MESSAGE_SIZE
    ensures |Encode(f)| < 0x1_0000_0000
  {
    var items := FieldItems(f.headers);
    SmallFields(f.headers);
    SmallFieldsLength(f.endian, items, 16);
    HeaderLength(f);
    EncodedLength(f);
    FewFields(|items|);
  }

  lemma FewFields(n: nat)
    requires n <= 8
    ensures n * FIELD_BOUND <= 8 * FIELD_BOUND < 0x5000_0000
  {}

  lemma EncodedLength(f: Frame)
    ensures |Encode(f)| <= |Head(f)| + 7 + |f.body|
  {}

  lemma HeaderLength(f: Frame)
    ensures |Head(f)| == 16 + |MarshalAll(f.endian, FieldItems(f.headers), 16)|
  {
    NoPadding();
    ArrayBytes(f.endian, FIELD_TYPE, FieldItems(f.headers), 12);
    assert ArrayStart(FIELD_TYPE, 12) == 16;
  }

  lemma NoPadding()
    ensures |Padding(12, 4)| == 0 && |Padding(16, 8)| == 0
  {}

  // ---------------------------------------------------------------------
  // Multi-argument bodies
  // ---------------------------------------------------------------------

  // A body under construction: the bytes so far and the concatenated argument signatures.
  datatype BodyBuilder = BodyBuilder(body: bytes, sig: bytes)

  const NO_BODY := BodyBuilder([], [])

  function AddArg(b: BodyBuilder, v: Val): BodyBuilder {
    BodyBuilder(b.body + Marshal(Little, v, |b.body|), b.sig + NoParens(Sig(TypeOf(v))))
  }

  function AddArgs(b: BodyBuilder, vs: seq<Val>): BodyBuilder
    decreases |vs|
  {
    if vs == [] then b else AddArgs(AddArg(b, vs[0]), vs[1..])
  }

  function FinishedSignature(b: BodyBuilder): Option<bytes> {
    if b.sig == [] then None else Some(b.sig)
  }

  // Read a body by the signature its header declares; trailing bytes are ignored.
  function DecodeBody(e: Endian, signature: Option<bytes>, body: bytes): Option<seq<Val>> {
    match signature
    case None => None
    case Some(sig) =>
      match ParseSig(sig)
      case None => None
      case Some(ts) =>
        match UnmarshalAll(e, ts, body, 0)
        case None => None
        case Some((vs, _)) => Some(vs)
  }

  // What one declared argument looks like to a reader.
  function Members(t: Ty): seq<Ty> {
    if t.TStruct? then t.fields else [t]
  }

  // The argument types a reader of the declared signature sees.
  function Spread(ts: seq<Ty>): seq<Ty> {
    if ts == [] then [] else Members(ts[0]) + Spread(ts[1..])
  }

  lemma NoParensIsMembers(t: Ty)
    requires WellFormed(t)
    ensures NoParens(Sig(t)) == Sigs(Members(t))
  {
    VariantSig(t);
    SigsCons([t]);
  }

  lemma SpreadCons(ts: seq<Ty>)
    requires ts != []
    ensures Sigs(Spread(ts)) == Sigs(Members(ts[0])) + Sigs(Spread(ts[1..]))
  {
    SigsAppend(Members(ts[0]), Spread(ts[1..]));
  }

  lemma {:induction false} AddArgsSig(b: BodyBuilder, vs: seq<Val>)
    requires AllValid(vs)
    ensures AddArgs(b, vs).sig == b.sig + Sigs(Spread(TypesOf(vs)))
    decreases |vs|
  {
    if vs != [] {
      var ts := TypesOf(vs);
      assert ts[0] == TypeOf(vs[0]) && ts[1..] == TypesOf(vs[1..]);
      AddArgsSig(AddArg(b, vs[0]), vs[1..]);
      ValidType(vs[0]);
      NoParensIsMembers(ts[0]);
      SpreadCons(ts);
      Assoc(b.sig, Sigs(Members(ts[0])), Sigs(Spread(ts[1..])));
    }
  }

  lemma {:induction false} AddArgsBody(b: BodyBuilder, vs: seq<Val>)
    ensures AddArgs(b, vs).body == b.body + MarshalAll(Little, vs, |b.body|)
    decreases |vs|
  {
    if vs != [] {
      var m := Marshal(Little, vs[0], |b.body|);
      var rest := MarshalAll(Little, vs[1..], |b.body| + |m|);
      AddArgsBody(AddArg(b, vs[0]), vs[1..]);
      Assoc(b.body, m, rest);
    }
  }

  // Appending arguments one at a time lays out the same bytes as marshalling the whole tuple.
  lemma IncrementalMarshalling(vs: seq<Val>)
    ensures AddArgs(NO_BODY, vs).body == MarshalAll(Little, vs, 0)
  {
    AddArgsBody(NO_BODY, vs);
  }

  predicate HasStruct(ts: seq<Ty>) {
    exists i :: 0 <= i < |ts| && ts[i].TStruct?
  }

  function Size(t: Ty): (n: nat)
    ensures n > 0
  {
    match t
    case TArray(el) => 1 + Size(el)
    case TStruct(fs) => 1 + Sizes(fs)
    case _ => 1
  }

  function Sizes(ts: seq<Ty>): nat {
    if ts == [] then 0 else Size(ts[0]) + Sizes(ts[1..])
  }

  lemma {:induction false} SizesAppend(a: seq<Ty>, b: seq<Ty>)
    ensures Sizes(a + b) == Sizes(a) + Sizes(b)
    decreases |a|
  {
    if a == [] {
      assert a + b == b;
    } else {
      SizesAppend(a[1..], b);
      assert (a + b)[1..] == a[1..] + b && (a + b)[0] == a[0];
    }
  }

  lemma {:induction false} SpreadSize(ts: seq<Ty>)
    ensures Sizes(Spread(ts)) <= Sizes(ts)
    ensures HasStruct(ts) ==> Sizes(Spread(ts)) < Sizes(ts)
    decreases |ts|
  {
    if ts != [] {
      SpreadSize(ts[1..]);
      SizesAppend(Members(ts[0]), Spread(ts[1..]));
      assert Sizes([ts[0]]) == Size(ts[0]) + Sizes([ts[0]][1..]);
      if HasStruct(ts) && !ts[0].TStruct? {
        var i :| 0 <= i < |ts| && ts[i].TStruct?;
        assert ts[1..][i - 1].TStruct?;
      }
    }
  }

  lemma {:induction false} SpreadPlain(ts: seq<Ty>)
    requires !HasStruct(ts)
    ensures Spread(ts) == ts
    decreases |ts|
  {
    if ts != [] {
      forall i | 0 <= i < |ts[1..]| ensures !ts[1..][i].TStruct? {
        assert ts[1..][i] == ts[i + 1];
      }
      SpreadPlain(ts[1..]);
      assert !ts[0].TStruct?;
      assert [ts[0]] + ts[1..] == ts;
    }
  }

  lemma {:induction false} SpreadWellFormed(ts: seq<Ty>)
    requires AllWellFormed(ts)
    ensures AllWellFormed(Spread(ts))
    decreases |ts|
  {
    if ts != [] {
      SpreadWellFormed(ts[1..]);
      WellFormedAppend(Members(ts[0]), Spread(ts[1..]));
    }
  }

  lemma {:induction false} WellFormedAppend(a: seq<Ty>, b: seq<Ty>)
    requires AllWellFormed(a) && AllWellFormed(b)
    ensures AllWellFormed(a + b)
    decreases |a|
  {
    if a == [] {
      assert a + b == b;
    } else {
      WellFormedAppend(a[1..], b);
      assert (a + b)[1..] == a[1..] + b;
    }
  }

  lemma {:induction false} UnmarshalledTypes(e: Endian, ts: seq<Ty>, buf: bytes, pos: nat)
    requires pos <= |buf| && UnmarshalAll(e, ts, buf, pos).Some?
    ensures TypesOf(UnmarshalAll(e, ts, buf, pos).value.0) == ts
    decreases ts, 1
  {
    if ts != [] {
      var (v, p) := Unmarshal(e, ts[0], buf, pos).value;
      UnmarshalledType(e, ts[0], buf, pos);
      UnmarshalledTypes(e, ts[1..], buf, p);
      var vs := UnmarshalAll(e, ts[1..], buf, p).value.0;
      assert ([v] + vs)[1..] == vs;
      assert [ts[0]] + ts[1..] == ts;
    }
  }

  lemma {:induction false} UnmarshalledType(e: Endian, t: Ty, buf: bytes, pos: nat)
    requires pos <= |buf| && Unmarshal(e, t, buf, pos).Some?
    ensures TypeOf(Unmarshal(e, t, buf, pos).value.0) == t
    decreases t, 0
  {
    if t.TStruct? {
      UnmarshalledTypes(e, t.fields, buf, SkipPadding(buf, pos, 8).value);
    }
  }

  // Decoding by the concatenated signature gives the arguments back exactly when none of them
  // is a struct: a struct argument is declared without its parentheses, so a reader takes its
  // members for separate arguments.
  lemma DecodeBodyIff(vs: seq<Val>)
    requires vs != [] && AllValid(vs)
    requires |AddArgs(NO_BODY, vs).body| < 0x1_0000_0000
    ensures var b := AddArgs(NO_BODY, vs);
            DecodeBody(Little, FinishedSignature(b), b.body) == Some(vs) <==> !HasStruct(TypesOf(vs))
  {
    var b, ts := AddArgs(NO_BODY, vs), TypesOf(vs);
    IncrementalMarshalling(vs);
    AddArgsSig(NO_BODY, vs);
    assert b.sig == Sigs(Spread(ts));
    ValidTypes(vs);
    SpreadWellFormed(ts);
    ParseSigOfSigs(Spread(ts));
    if !HasStruct(ts) {
      SpreadPlain(ts);
      SigsCons(ts);
      assert b.body[0..|b.body|] == b.body;
      AllRoundTrip(Little, ts, vs, b.body, 0, |b.body|);
    } else if DecodeBody(Little, FinishedSignature(b), b.body) == Some(vs) {
      UnmarshalledTypes(Little, Spread(ts), b.body, 0);
      SpreadSize(ts);
    }
  }

  // The smallest case: a body that is one struct of two integers.
  lemma StructBodyChanges(vs: seq<Val>)
    requires vs == [VStruct([VFixed('i' as u8, 1), VFixed('i' as u8, 2)])]
    ensures var b := AddArgs(NO_BODY, vs); DecodeBody(Little, FinishedSignature(b), b.body) != Some(vs)
  {
    var i, j := VFixed('i' as u8, 1), VFixed('i' as u8, 2);
    Pow256Small();
    assert [i, j][1..] == [j] && [j][1..] == [] && vs[1..] == [];
    ValidCons(j, []);
    ValidCons(i, [j]);
    assert [j] + [] == [j] && [i] + [j] == [i, j] && [vs[0]] + [] == vs;
    ValidCons(vs[0], []);
    assert TypesOf(vs)[0].TStruct?;
    IncrementalMarshalling(vs);
    MarshalOne(Little, vs[0], 0);
    MarshalOne(Little, j, 4);
    assert |MarshalAll(Little, [i, j], 0)| == |Marshal(Little, i, 0)| + |MarshalAll(Little, [j], 4)|;
    DecodeBodyIff(vs);
  }
}
