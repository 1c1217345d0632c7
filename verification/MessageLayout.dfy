// Messages as the D-Bus Specification lays them out, section "Message Format": parsing accepts
// exactly those, and says what their header fields say.

module MessageLayout {
  import opened Prelude
  import opened Wire
  import opened WireLayout
  import opened Frames

  function KindCode(k: MessageKind): int {
    match k
    case MethodCall => 1
    case MethodReturn => 2
    case ErrorReply => 3
    case Signal => 4
  }

  // ---------------------------------------------------------------------
  // Header fields
  // ---------------------------------------------------------------------

  // An entry of the header array: a field code and a variant.
  predicate IsField(item: Val) {
    && item.VStruct? && |item.members| == 2
    && item.members[0].VFixed? && item.members[0].code == 'y' as u8
    && item.members[1].VVariant?
  }

  predicate SaysCode(item: Val, code: nat) {
    IsField(item) && item.members[0].bits == code
  }

  // What the last entry with the code says.
  function Said(items: seq<Val>, code: nat): Option<Val> {
    if items == [] then None
    else
      var last := items[|items| - 1];
      if SaysCode(last, code) then Some(last.members[1].inner) else Said(items[..|items| - 1], code)
  }

  predicate IsPath(v: Val) {
    v.VText? && v.code == 'o' as u8
  }

  // The same, passing over entries of another type than an object path, or a signature.
  function SaidPath(items: seq<Val>): Option<bytes> {
    if items == [] then None
    else
      var last := items[|items| - 1];
      if SaysCode(last, 1) && IsPath(last.members[1].inner) then Some(last.members[1].inner.text)
      else SaidPath(items[..|items| - 1])
  }

  function SaidSig(items: seq<Val>): Option<bytes> {
    if items == [] then None
    else
      var last := items[|items| - 1];
      if SaysCode(last, 8) && last.members[1].inner.VSig? then Some(last.members[1].inner.sig)
      else SaidSig(items[..|items| - 1])
  }

  function SaidText(items: seq<Val>, code: nat): Option<bytes> {
    match Said(items, code)
    case Some(VText(c, s)) => if c == 's' as u8 then Some(s) else None
    case _ => None
  }

  function SaidNumber(items: seq<Val>, code: nat): Option<nat> {
    match Said(items, code)
    case Some(VFixed(c, n)) => if c == 'u' as u8 then Some(n) else None
    case _ => None
  }

  // A signature that is exactly one struct type is taken without its parentheses.
  function Unwrapped(s: Option<bytes>): Option<bytes> {
    if s.Some? then Some(NoParens(s.value)) else None
  }

  // The table of header fields.
  predicate HeadersSay(items: seq<Val>, h: Headers) {
    && h.path == SaidPath(items)
    && h.interface == SaidText(items, 2)
    && h.member == SaidText(items, 3)
    && h.errorName == SaidText(items, 4)
    && h.replySerial == SaidNumber(items, 5)
    && h.destination == SaidText(items, 6)
    && h.sender == SaidText(items, 7)
    && h.signature == Unwrapped(SaidSig(items))
    && h.unixFds == SaidNumber(items, 9)
  }

  const ENTRY := TStruct([TFixed('y' as u8), TVariant])

  lemma EntryIsField(item: Val)
    requires Valid(item) && TypeOf(item) == ENTRY
    ensures IsField(item) && Valid(item.members[0]) && Valid(item.members[1].inner)
  {
    var ms := item.members;
    assert |TypesOf(ms)| == 2 && TypesOf(ms)[0] == TypeOf(ms[0]) && TypesOf(ms)[1..] == TypesOf(ms[1..]);
    assert TypesOf(ms[1..])[0] == TypeOf(ms[1]);
    assert ms[1..][0] == ms[1];
    assert AllValid(ms) && Valid(ms[0]) && AllValid(ms[1..]) && Valid(ms[1]);
  }

  lemma SmallU32(v: Val)
    requires Valid(v) && v.VFixed? && v.code == 'u' as u8
    ensures v.bits < 0x1_0000_0000
  {
    Pow256Small();
  }

  lemma SaidSnoc(items: seq<Val>, item: Val, code: nat)
    ensures Said(items + [item], code) ==
            if SaysCode(item, code) then Some(item.members[1].inner) else Said(items, code)
  {
    assert (items + [item])[..|items|] == items;
  }

  lemma SaidTextSnoc(items: seq<Val>, item: Val, code: nat)
    ensures SaidText(items + [item], code) ==
            if SaysCode(item, code) then AsText(item.members[1].inner) else SaidText(items, code)
  {
    SaidSnoc(items, item, code);
  }

  lemma SaidNumberSnoc(items: seq<Val>, item: Val, code: nat)
    requires IsField(item) && Valid(item.members[1].inner)
    ensures SaidNumber(items + [item], code) ==
            if SaysCode(item, code) then AsU32(item.members[1].inner) else SaidNumber(items, code)
  {
    SaidSnoc(items, item, code);
    var v := item.members[1].inner;
    if v.VFixed? && v.code == 'u' as u8 {
      SmallU32(v);
    }
  }

  lemma SaidPathSnoc(items: seq<Val>, item: Val)
    ensures SaidPath(items + [item]) ==
            if SaysCode(item, 1) && IsPath(item.members[1].inner) then Some(item.members[1].inner.text)
            else SaidPath(items)
  {
    assert (items + [item])[..|items|] == items;
  }

  lemma SaidSigSnoc(items: seq<Val>, item: Val)
    ensures SaidSig(items + [item]) ==
            if SaysCode(item, 8) && item.members[1].inner.VSig? then Some(item.members[1].inner.sig)
            else SaidSig(items)
  {
    assert (items + [item])[..|items|] == items;
  }

  lemma RecordSays(items: seq<Val>, item: Val, h: Headers)
    requires Valid(item) && TypeOf(item) == ENTRY && HeadersSay(items, h)
    ensures HeadersSay(items + [item], Record(h, FieldCode(item), FieldValue(item)))
  {
    EntryIsField(item);
    SaidPathSnoc(items, item);
    SaidTextSnoc(items, item, 2);
    SaidTextSnoc(items, item, 3);
    SaidTextSnoc(items, item, 4);
    SaidNumberSnoc(items, item, 5);
    SaidTextSnoc(items, item, 6);
    SaidTextSnoc(items, item, 7);
    SaidSigSnoc(items, item);
    SaidNumberSnoc(items, item, 9);
    SameCode(item);
  }

  lemma SameCode(item: Val)
    requires IsField(item)
    ensures FieldValue(item) == item.members[1].inner
    ensures forall code: nat :: SaysCode(item, code) <==> FieldCode(item) == code
  {}

  lemma {:induction false} HeadersAre(items: seq<Val>)
    requires AllValid(items) && AllOfType(items, ENTRY)
    ensures HeadersSay(items, FromRaw(NO_HEADERS, items))
    decreases |items|
  {
    if items != [] {
      var n := |items| - 1;
      var most, item := items[..n], items[n];
      assert items == most + [item];
      AllValidParts(most, [item]);
      HeadersAre(most);
      FromRawAppend(NO_HEADERS, most, [item]);
      RecordSays(most, item, FromRaw(NO_HEADERS, most));
      assert [item][1..] == [];
    }
  }

  lemma {:induction false} AllValidParts(a: seq<Val>, b: seq<Val>)
    requires AllValid(a + b)
    ensures AllValid(a) && AllValid(b)
  {
    if a == [] {
      assert a + b == b;
    } else {
      assert (a + b)[1..] == a[1..] + b && (a + b)[0] == a[0];
      AllValidParts(a[1..], b);
    }
  }

  // ---------------------------------------------------------------------
  // Whole messages
  // ---------------------------------------------------------------------

  function Fields(items: seq<Val>): Val {
    VArray(ENTRY, items)
  }

  predicate FixedPart(buf: bytes, f: Frame) {
    && |buf| >= 16
    && buf[0] == (if f.endian.Little? then 'l' as u8 else 'B' as u8)
    && buf[1] as int == KindCode(f.kind) && buf[2] == f.flags && buf[3] == 1
    && NumberAt(f.endian, buf, 4, 4, |f.body|)
    && NumberAt(f.endian, buf, 8, 4, f.serial) && f.serial != 0
  }

  predicate FieldsPart(buf: bytes, f: Frame, items: seq<Val>) {
    Valid(Fields(items)) && LaidOut(f.endian, Fields(items), buf, 12) && HeadersSay(items, f.headers)
  }

  predicate BodyPart(buf: bytes, f: Frame, start: nat) {
    start + |f.body| <= |buf| && buf[start..start + |f.body|] == f.body
  }

  // The fixed part, the header array at offset 12, and the body at the next multiple of eight.
  predicate IsMessage(buf: bytes, f: Frame, items: seq<Val>) {
    FixedPart(buf, f) && FieldsPart(buf, f, items) && BodyPart(buf, f, Up(EndOf(Fields(items), 12), 8))
  }

  // A value that stands in one buffer stands in every buffer with the same bytes there.
  lemma {:induction false} StandsThere(e: Endian, v: Val, a: bytes, b: bytes, pos: nat)
    requires LaidOut(e, v, a, pos) && Agree(a, b, pos, EndOf(v, pos))
    ensures LaidOut(e, v, b, pos)
    decreases v, 0
  {
    match v
    case VFixed(_, _) => LeafStandsThere(e, v, a, b, pos);
    case VText(_, _) => LeafStandsThere(e, v, a, b, pos);
    case VSig(_) => LeafStandsThere(e, v, a, b, pos);
    case VVariant(w) =>
      StandsThere(e, w, a, b, pos + 1 + |Sig(TypeOf(w))| + 1);
      VariantStandsThere(e, v, a, b, pos);
    case VArray(el, vs) =>
      ElementsStand(e, v, a, pos);
      AllStandThere(e, vs, a, b, ElementsAt(el, pos));
      ArrayStandsThere(e, v, a, b, pos);
    case VStruct(vs) =>
      AllStandThere(e, vs, a, b, Up(pos, 8));
      StructStandsThere(e, v, a, b, pos);
  }

  lemma {:induction false} AllStandThere(e: Endian, vs: seq<Val>, a: bytes, b: bytes, pos: nat)
    requires AllLaidOut(e, vs, a, pos) && Agree(a, b, pos, EndAll(vs, pos))
    ensures AllLaidOut(e, vs, b, pos)
    decreases vs, 1
  {
    if vs != [] {
      StandsThere(e, vs[0], a, b, pos);
      AllStandThere(e, vs[1..], a, b, EndOf(vs[0], pos));
    }
  }

  lemma NumberSame(e: Endian, a: bytes, b: bytes, pos: nat, size: nat, n: nat)
    requires NumberAt(e, a, pos, size, n) && Agree(a, b, pos, pos + size)
    ensures NumberAt(e, b, pos, size, n)
  {
    forall i | 0 <= i < size
      ensures ByteIs(b, pos + if e.Little? then i else size - 1 - i, Shifted(n, i) % 256)
    {
      assert ByteIs(a, pos + if e.Little? then i else size - 1 - i, Shifted(n, i) % 256);
    }
  }

  lemma TextSame(a: bytes, b: bytes, pos: nat, s: bytes)
    requires TextStands(a, pos, s) && Agree(a, b, pos, pos + |s| + 1)
    ensures TextStands(b, pos, s)
  {
    AgreeSlices(a, b, pos, pos + |s|);
  }

  lemma SigSame(a: bytes, b: bytes, pos: nat, s: bytes)
    requires SigStands(a, pos, s) && Agree(a, b, pos, pos + 1 + |s| + 1)
    ensures SigStands(b, pos, s)
  {
    TextSame(a, b, pos + 1, s);
  }

  lemma LeafStandsThere(e: Endian, v: Val, a: bytes, b: bytes, pos: nat)
    requires v.VFixed? || v.VText? || v.VSig?
    requires LaidOut(e, v, a, pos) && Agree(a, b, pos, EndOf(v, pos))
    ensures LaidOut(e, v, b, pos)
  {
    match v
    case VFixed(c, n) => NumberSame(e, a, b, Up(pos, Boundary(TFixed(c))), SizeOf(c), n);
    case VText(_, s) =>
      NumberSame(e, a, b, Up(pos, 4), 4, |s|);
      TextSame(a, b, Up(pos, 4) + 4, s);
    case VSig(s) => SigSame(a, b, pos, s);
  }

  lemma VariantStandsThere(e: Endian, v: Val, a: bytes, b: bytes, pos: nat)
    requires v.VVariant? && LaidOut(e, v, a, pos) && Agree(a, b, pos, EndOf(v, pos))
    requires LaidOut(e, v.inner, b, pos + 1 + |Sig(TypeOf(v.inner))| + 1)
    ensures LaidOut(e, v, b, pos)
  {
    SigSame(a, b, pos, Sig(TypeOf(v.inner)));
  }

  lemma StructStandsThere(e: Endian, v: Val, a: bytes, b: bytes, pos: nat)
    requires v.VStruct? && LaidOut(e, v, a, pos) && Agree(a, b, pos, EndOf(v, pos))
    requires AllLaidOut(e, v.members, b, Up(pos, 8))
    ensures LaidOut(e, v, b, pos)
  {}

  lemma ArrayStandsThere(e: Endian, v: Val, a: bytes, b: bytes, pos: nat)
    requires v.VArray? && LaidOut(e, v, a, pos) && Agree(a, b, pos, EndOf(v, pos))
    requires AllLaidOut(e, v.items, b, ElementsAt(v.elem, pos))
    ensures LaidOut(e, v, b, pos)
  {
    var p, start := Up(pos, 4), ElementsAt(v.elem, pos);
    NumberSame(e, a, b, p, 4, EndAll(v.items, start) - start);
    assert Padded(b, pos, p) && Padded(b, p + 4, start);
  }

  lemma NumberIs(e: Endian, buf: bytes, pos: nat, n: nat)
    requires pos + 4 <= |buf|
    ensures NumberAt(e, buf, pos, 4, n) <==> n == U32At(e, buf, pos)
  {
    NumberIff(e, buf, pos, 4, n);
  }

  // The header array of a message: its length is the number at offset 12.
  lemma FieldsEnd(e: Endian, buf: bytes, items: seq<Val>)
    requires |buf| >= 16 && LaidOut(e, Fields(items), buf, 12)
    ensures EndOf(Fields(items), 12) == 16 + U32At(e, buf, 12) <= |buf|
  {
    LaidOutInside(e, Fields(items), buf, 12);
    assert Up(12, 4) == 12 && ElementsAt(ENTRY, 12) == 16;
    NumberIs(e, buf, 12, EndAll(items, 16) - 16);
  }

  lemma Align8IsUp(n: nat)
    requires n < 0x2_0000_0000
    ensures Align8(n) == Ok(Up(n, 8))
  {
    Align8IsPadding(n);
    PaddingReaches(n, 8);
  }

  lemma EntryWellFormed()
    ensures WellFormed(TArray(ENTRY))
  {
    var ts := [TFixed('y' as u8), TVariant];
    assert ts[1..] == [TVariant] && [TVariant][1..] == [];
    assert AllWellFormed([TVariant]) && AllWellFormed(ts);
  }

  // Reading the headers finds exactly the laid-out array.
  lemma ReadHeadersIf(e: Endian, buf: bytes, n: nat) returns (items: seq<Val>)
    requires 16 <= n <= |buf| && n == 16 + U32At(e, buf, 12) && ReadHeaders(e, buf[..n]).Some?
    ensures Valid(Fields(items)) && LaidOut(e, Fields(items), buf, 12) && EndOf(Fields(items), 12) == n
    ensures HeadersSay(items, ReadHeaders(e, buf[..n]).value)
  {
    var data := buf[..n];
    var (raw, end) := Unmarshal(e, HEADER_TYPE, data, 12).value;
    EntryWellFormed();
    ReadIsLaidOut(e, HEADER_TYPE, data, 12);
    items := raw.items;
    LaidOutInside(e, raw, data, 12);
    StandsThere(e, raw, data, buf, 12);
    FieldsEnd(e, buf, items);
    HeadersAre(items);
  }

  lemma ReadHeadersOf(e: Endian, buf: bytes, n: nat, items: seq<Val>)
    requires 16 <= n <= |buf| && n == EndOf(Fields(items), 12)
    requires Valid(Fields(items)) && LaidOut(e, Fields(items), buf, 12)
    ensures ReadHeaders(e, buf[..n]).Some? && HeadersSay(items, ReadHeaders(e, buf[..n]).value)
  {
    var data := buf[..n];
    StandsThere(e, Fields(items), buf, data, 12);
    LaidOutIsRead(e, Fields(items), data, 12);
    HeadersAre(items);
  }

  lemma SameHeaders(items: seq<Val>, g: Headers, h: Headers)
    requires HeadersSay(items, g) && HeadersSay(items, h)
    ensures g == h
  {}

  // A buffer that parses as a frame is that message.
  lemma ParsedIsMessage(buf: bytes) returns (items: seq<Val>)
    requires Parse(buf).Ok?
    ensures IsMessage(buf, Parse(buf).value, items)
    ensures EndOf(Fields(items), 12) == 16 + U32At(Parse(buf).value.endian, buf, 12)
  {
    var f := Parse(buf).value;
    var n := 16 + U32At(f.endian, buf, 12);
    ParsedParts(buf, n);
    items := ReadHeadersIf(f.endian, buf, n);
    NumberIs(f.endian, buf, 4, |f.body|);
    NumberIs(f.endian, buf, 8, f.serial);
  }

  lemma ParsedParts(buf: bytes, n: nat)
    requires Parse(buf).Ok? && n == 16 + U32At(Parse(buf).value.endian, buf, 12)
    ensures var f := Parse(buf).value;
            && |buf| >= 16 && n <= |buf|
            && buf[0] == EndianByte(f.endian) && buf[1] == KindByte(f.kind) && buf[2] == f.flags && buf[3] == 1
            && |f.body| == U32At(f.endian, buf, 4) && f.serial == U32At(f.endian, buf, 8) && f.serial != 0
            && ReadHeaders(f.endian, buf[..n]) == Some(f.headers)
            && BodyPart(buf, f, Up(n, 8))
  {
    Align8IsUp(n);
  }

  lemma FixedPartParses(buf: bytes, f: Frame)
    requires FixedPart(buf, f)
    ensures Parse(buf) == ParseRest(f.endian, f.kind, buf)
    ensures U32At(f.endian, buf, 4) == |f.body| && U32At(f.endian, buf, 8) == f.serial
  {
    NumberIs(f.endian, buf, 4, |f.body|);
    NumberIs(f.endian, buf, 8, f.serial);
    ParseFixed(f.endian, f.kind, buf);
  }

  // A message parses as its frame.
  lemma MessageIsParsed(buf: bytes, f: Frame, items: seq<Val>)
    requires IsMessage(buf, f, items)
    ensures Parse(buf) == Ok(f)
  {
    var n := EndOf(Fields(items), 12);
    FixedPartParses(buf, f);
    FieldsPartParses(buf, f, items, n);
    RestParses(buf, f, n);
  }

  lemma FieldsPartParses(buf: bytes, f: Frame, items: seq<Val>, n: nat)
    requires |buf| >= 16 && FieldsPart(buf, f, items) && n == EndOf(Fields(items), 12)
    ensures n == 16 + U32At(f.endian, buf, 12) <= |buf| && ReadHeaders(f.endian, buf[..n]) == Some(f.headers)
  {
    FieldsEnd(f.endian, buf, items);
    ReadHeadersOf(f.endian, buf, n, items);
    SameHeaders(items, ReadHeaders(f.endian, buf[..n]).value, f.headers);
  }

  lemma RestParses(buf: bytes, f: Frame, n: nat)
    requires |buf| >= 16 && n == 16 + U32At(f.endian, buf, 12) <= |buf|
    requires ReadHeaders(f.endian, buf[..n]) == Some(f.headers) && BodyPart(buf, f, Up(n, 8))
    requires U32At(f.endian, buf, 4) == |f.body| && U32At(f.endian, buf, 8) == f.serial && buf[2] == f.flags
    ensures ParseRest(f.endian, f.kind, buf) == Ok(f)
  {
    Align8IsUp(n);
    ParseRestParts(f.endian, f.kind, buf, n, f.headers, Up(n, 8), |f.body|);
  }

  // Parsing gives a frame exactly when the buffer is that message for some header array.
  lemma ParseIff(buf: bytes, f: Frame)
    ensures Parse(buf) == Ok(f) <==> exists items :: IsMessage(buf, f, items)
  {
    if Parse(buf) == Ok(f) {
      var items := ParsedIsMessage(buf);
    }
    if items :| IsMessage(buf, f, items) {
      MessageIsParsed(buf, f, items);
    }
  }

  // So every frame with valid headers is encoded as the message that it is, up to what the wire
  // cannot carry.
  lemma EncodedIsMessage(f: Frame) returns (items: seq<Val>)
    requires ValidHeaders(f.headers) && f.serial != 0 && |Encode(f)| < 0x1_0000_0000
    ensures IsMessage(Encode(f), f.(headers := Normalize(f.headers)), items)
    ensures |Encode(f)| == Up(EndOf(Fields(items), 12), 8) + |f.body|
  {
    var m := Encode(f);
    assert At(m, 0, m);
    ParseEncode(f, m);
    items := ParsedIsMessage(m);
    PrefixBytes(f, m);
    BodyBytes(f, m);
    PaddingReaches(|Head(f)|, 8);
  }
}
