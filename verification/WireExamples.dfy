// Bodies of the fcitx interface, and a message, byte by byte, in both directions.

module WireExamples {
  import opened Prelude
  import opened Wire
  import opened WireLayout
  import opened Frames
  import opened MessageLayout

  const STRING := TText('s' as u8)

  function Text(s: bytes): Val {
    VText('s' as u8, s)
  }

  function Int(n: nat): Val {
    VFixed('i' as u8, n)
  }

  function UInt(n: nat): Val {
    VFixed('u' as u8, n)
  }

  lemma SmallNumber(buf: bytes, pos: nat, n: nat)
    requires pos + 4 <= |buf| && n < 256 && buf[pos] as int == n
    requires buf[pos + 1] == 0 && buf[pos + 2] == 0 && buf[pos + 3] == 0
    ensures NumberAt(Little, buf, pos, 4, n)
  {
    assert Shifted(n, 1) == Shifted(n / 256, 0) == 0;
    assert Shifted(n, 2) == Shifted(n / 256, 1) == 0;
    assert Shifted(n, 3) == Shifted(n / 256, 2) == 0;
    assert Shifted(n, 4) == Shifted(n / 256, 3) == 0;
  }

  // A string of one letter at a multiple of four.
  lemma LetterStands(buf: bytes, pos: nat, c: u8)
    requires pos % 4 == 0 && pos + 6 <= |buf| && c != 0
    requires buf[pos] == 1 && buf[pos + 1] == buf[pos + 2] == buf[pos + 3] == 0
    requires buf[pos + 4] == c && buf[pos + 5] == 0
    ensures Valid(Text([c])) && LaidOut(Little, Text([c]), buf, pos) && EndOf(Text([c]), pos) == pos + 6
  {
    SmallNumber(buf, pos, 1);
    assert buf[pos + 4..pos + 5] == [c];
  }

  // A number below 256, after padding.
  lemma WordStands(buf: bytes, pos: nat, p: nat, n: nat)
    requires p == Up(pos, 4) && Padded(buf, pos, p) && p + 4 <= |buf| && n < 256
    requires buf[p] as int == n && buf[p + 1] == buf[p + 2] == buf[p + 3] == 0
    ensures Valid(Int(n)) && LaidOut(Little, Int(n), buf, pos) && EndOf(Int(n), pos) == p + 4
    ensures Valid(UInt(n)) && LaidOut(Little, UInt(n), buf, pos) && EndOf(UInt(n), pos) == p + 4
  {
    Pow256Small();
    SmallNumber(buf, p, n);
  }

  // The values fill the buffer from `pos` on.
  predicate Fills(vs: seq<Val>, buf: bytes, pos: nat) {
    pos <= |buf| && AllValid(vs) && AllLaidOut(Little, vs, buf, pos) && EndAll(vs, pos) == |buf|
  }

  lemma Before(v: Val, vs: seq<Val>, buf: bytes, pos: nat, mid: nat)
    requires Valid(v) && LaidOut(Little, v, buf, pos) && mid == EndOf(v, pos) && Fills(vs, buf, mid)
    ensures Fills([v] + vs, buf, pos)
  {
    assert ([v] + vs)[1..] == vs;
  }

  // What both directions make of a body that is laid out.
  predicate Means(body: bytes, vs: seq<Val>) {
    MarshalAll(Little, vs, 0) == body && UnmarshalAll(Little, TypesOf(vs), body, 0) == Some((vs, |body|))
  }

  lemma FillsMeans(body: bytes, vs: seq<Val>)
    requires Fills(vs, body, 0) && |body| < 0x1_0000_0000
    ensures Means(body, vs)
  {
    AllEndIsLength(Little, vs, 0);
    BodyIff(Little, vs, body);
  }

  // suu: text, cursor and anchor.
  lemma SurroundingText()
    ensures Means([1, 0, 0, 0, 120, 0, 0, 0, 5, 0, 0, 0, 9, 0, 0, 0], [Text([120]), UInt(5), UInt(9)])
  {
    var b: bytes := [1, 0, 0, 0, 120, 0, 0, 0, 5, 0, 0, 0, 9, 0, 0, 0];
    LetterStands(b, 0, 120);
    WordStands(b, 6, 8, 5);
    WordStands(b, 12, 12, 9);
    Before(UInt(9), [], b, 12, 16);
    Before(UInt(5), [UInt(9)] + [], b, 6, 12);
    Before(Text([120]), [UInt(5)] + ([UInt(9)] + []), b, 0, 6);
    assert [Text([120])] + ([UInt(5)] + ([UInt(9)] + [])) == [Text([120]), UInt(5), UInt(9)];
    FillsMeans(b, [Text([120]), UInt(5), UInt(9)]);
  }

  const ONE: nat := 0x3FF0_0000_0000_0000    // the double 1.0

  // iiiid: a rectangle and the scale 1.0.
  lemma CursorRect()
    ensures Means([1, 0, 0, 0, 2, 0, 0, 0, 3, 0, 0, 0, 4, 0, 0, 0, 0, 0, 0, 0, 0, 0, 240, 63],
                  [Int(1), Int(2), Int(3), Int(4), VFixed('d' as u8, ONE)])
  {
    var b: bytes := [1, 0, 0, 0, 2, 0, 0, 0, 3, 0, 0, 0, 4, 0, 0, 0, 0, 0, 0, 0, 0, 0, 240, 63];
    var d := VFixed('d' as u8, ONE);
    DoubleStands(b, 16);
    WordStands(b, 12, 12, 4);
    WordStands(b, 8, 8, 3);
    WordStands(b, 4, 4, 2);
    WordStands(b, 0, 0, 1);
    Before(d, [], b, 16, 24);
    Before(Int(4), [d] + [], b, 12, 16);
    Before(Int(3), [Int(4)] + ([d] + []), b, 8, 12);
    Before(Int(2), [Int(3)] + ([Int(4)] + ([d] + [])), b, 4, 8);
    Before(Int(1), [Int(2)] + ([Int(3)] + ([Int(4)] + ([d] + []))), b, 0, 4);
    FiveInARow(Int(1), Int(2), Int(3), Int(4), d);
    FillsMeans(b, [Int(1), Int(2), Int(3), Int(4), d]);
  }

  lemma FiveInARow(a: Val, b: Val, c: Val, d: Val, e: Val)
    ensures [a] + ([b] + ([c] + ([d] + ([e] + [])))) == [a, b, c, d, e]
  {}

  lemma DoubleStands(buf: bytes, pos: nat)
    requires pos % 8 == 0 && pos + 8 == |buf| && buf[pos + 6] == 240 && buf[pos + 7] == 63
    requires forall i :: pos <= i < pos + 6 ==> buf[i] == 0
    ensures var d := VFixed('d' as u8, ONE);
            Valid(d) && LaidOut(Little, d, buf, pos) && EndOf(d, pos) == pos + 8
  {
    Pow256Small();
    assert Shifted(ONE, 1) == Shifted(0x3F_F000_0000_0000, 0);
    assert Shifted(ONE, 2) == Shifted(0x3F_F000_0000_0000, 1) == Shifted(0x3FF0_0000_0000, 0);
    ShiftedMore();
    forall i | 0 <= i < 8 ensures ByteIs(buf, pos + i, Shifted(ONE, i) % 256) {}
  }

  lemma ShiftedMore()
    ensures Shifted(ONE, 3) == 0x3F_F000_0000 && Shifted(ONE, 4) == 0x3FF0_0000 && Shifted(ONE, 5) == 0x3F_F000
    ensures Shifted(ONE, 6) == 0x3FF0 && Shifted(ONE, 7) == 0x3F && Shifted(ONE, 8) == 0
  {
    ShiftedTwice(ONE, 2, 1);
    ShiftedTwice(ONE, 3, 1);
    ShiftedTwice(ONE, 4, 1);
    ShiftedTwice(ONE, 5, 1);
    ShiftedTwice(ONE, 6, 1);
    ShiftedTwice(ONE, 7, 1);
  }

  lemma {:induction false} ShiftedTwice(n: nat, i: nat, j: nat)
    ensures Shifted(n, i + j) == Shifted(Shifted(n, i), j)
  {
    if i > 0 {
      ShiftedTwice(n / 256, i - 1, j);
    }
  }

  function Path(s: bytes): Val {
    VText('o' as u8, s)
  }

  function Bytes(s: bytes): Val {
    VArray(TFixed('y' as u8), seq(|s|, i requires 0 <= i < |s| => VFixed('y' as u8, s[i] as nat)))
  }

  lemma ByteStands(buf: bytes, pos: nat)
    requires pos < |buf|
    ensures var y := VFixed('y' as u8, buf[pos] as nat);
            Valid(y) && LaidOut(Little, y, buf, pos) && EndOf(y, pos) == pos + 1
  {
    Pow256Small();
    assert Shifted(buf[pos] as nat, 1) == Shifted(buf[pos] as nat / 256, 0);
    assert ByteIs(buf, pos, Shifted(buf[pos] as nat, 0) % 256);
  }

  // oay: the path "/" and two bytes.
  lemma PathAndBytes()
    ensures Means([1, 0, 0, 0, 47, 0, 0, 0, 2, 0, 0, 0, 7, 9], [Path([47]), Bytes([7, 9])])
  {
    var b: bytes := [1, 0, 0, 0, 47, 0, 0, 0, 2, 0, 0, 0, 7, 9];
    BytesStand(b);
    RootStands(b);
    Before(Bytes([7, 9]), [], b, 6, 14);
    Before(Path([47]), [Bytes([7, 9])] + [], b, 0, 6);
    TwoInARow(Path([47]), Bytes([7, 9]));
    FillsMeans(b, [Path([47]), Bytes([7, 9])]);
  }

  lemma TwoInARow(a: Val, b: Val)
    ensures [a] + ([b] + []) == [a, b]
  {}

  lemma RootStands(b: bytes)
    requires b == [1, 0, 0, 0, 47, 0, 0, 0, 2, 0, 0, 0, 7, 9]
    ensures Valid(Path([47])) && LaidOut(Little, Path([47]), b, 0) && EndOf(Path([47]), 0) == 6
  {
    LetterStands(b, 0, 47);
    PathLike(b, 0, 47);
  }

  lemma BytesStand(b: bytes)
    requires b == [1, 0, 0, 0, 47, 0, 0, 0, 2, 0, 0, 0, 7, 9]
    ensures var ay := Bytes([7, 9]); Valid(ay) && LaidOut(Little, ay, b, 6) && EndOf(ay, 6) == 14
  {
    var y, z := VFixed('y' as u8, 7), VFixed('y' as u8, 9);
    assert Bytes([7, 9]).items == [y, z];
    ByteStands(b, 12);
    ByteStands(b, 13);
    Before(z, [], b, 13, 14);
    Before(y, [z] + [], b, 12, 13);
    assert [y] + ([z] + []) == [y, z];
    SmallNumber(b, 8, 2);
  }

  // A path is laid out like a string.
  lemma PathLike(buf: bytes, pos: nat, c: u8)
    requires c == '/' as u8 && LaidOut(Little, Text([c]), buf, pos)
    ensures Valid(Path([c])) && LaidOut(Little, Path([c]), buf, pos)
    ensures EndOf(Path([c]), pos) == EndOf(Text([c]), pos)
  {}

  // a(ss): one hint, a pair of strings.
  lemma OneHint()
    ensures Means([14, 0, 0, 0, 0, 0, 0, 0, 1, 0, 0, 0, 97, 0, 0, 0, 1, 0, 0, 0, 98, 0],
                  [VArray(TStruct([STRING, STRING]), [VStruct([Text([97]), Text([98])])])])
  {
    var b: bytes := [14, 0, 0, 0, 0, 0, 0, 0, 1, 0, 0, 0, 97, 0, 0, 0, 1, 0, 0, 0, 98, 0];
    var x, y := Text([97]), Text([98]);
    var pair := VStruct([x, y]);
    LetterStands(b, 8, 97);
    AfterPadding(b, 14, 16, 98);
    Before(y, [], b, 14, 22);
    Before(x, [y] + [], b, 8, 14);
    TwoInARow(x, y);
    PairStands(b, x, y);
    Before(pair, [], b, 8, 22);
    assert [pair] + [] == [pair];
    HintsStand(b, pair);
    var hints := VArray(TStruct([STRING, STRING]), [pair]);
    Before(hints, [], b, 0, 22);
    assert [hints] + [] == [hints];
    FillsMeans(b, [hints]);
  }

  lemma AfterPadding(buf: bytes, pos: nat, p: nat, c: u8)
    requires p == Up(pos, 4) && Padded(buf, pos, p) && p + 6 <= |buf| && c != 0
    requires buf[p] == 1 && buf[p + 1] == buf[p + 2] == buf[p + 3] == 0 && buf[p + 4] == c && buf[p + 5] == 0
    ensures Valid(Text([c])) && LaidOut(Little, Text([c]), buf, pos) && EndOf(Text([c]), pos) == p + 6
  {
    LetterStands(buf, p, c);
  }

  lemma PairStands(b: bytes, x: Val, y: Val)
    requires |b| == 22 && Fills([x, y], b, 8) && TypeOf(x) == TypeOf(y) == STRING
    ensures var pair := VStruct([x, y]);
            && Valid(pair) && LaidOut(Little, pair, b, 8) && EndOf(pair, 8) == 22
            && TypeOf(pair) == TStruct([STRING, STRING])
  {
    assert [x, y][1..] == [y] && [y][1..] == [];
    assert TypesOf([y]) == [STRING] && TypesOf([x, y]) == [STRING, STRING];
  }

  lemma HintsStand(b: bytes, pair: Val)
    requires |b| == 22 && b[0] == 14 && forall i :: 1 <= i < 8 ==> b[i] == 0
    requires Fills([pair], b, 8) && TypeOf(pair) == TStruct([STRING, STRING])
    ensures var hints := VArray(TStruct([STRING, STRING]), [pair]);
            Valid(hints) && LaidOut(Little, hints, b, 0) && EndOf(hints, 0) == 22
  {
    SmallNumber(b, 0, 14);
    assert ElementsAt(TStruct([STRING, STRING]), 0) == 8;
    PairType();
  }

  lemma PairType()
    ensures WellFormed(TStruct([STRING, STRING]))
  {
    assert [STRING, STRING][1..] == [STRING] && [STRING][1..] == [];
    assert AllWellFormed([STRING]) && AllWellFormed([STRING, STRING]);
  }

  // ---------------------------------------------------------------------
  // A message
  // ---------------------------------------------------------------------

  // A call without arguments: the member "M" on the path "/", serial 7. Little-endian, a call, no
  // body; a header array of 26 bytes; field 1, an object path; field 3, a string; padding.
  const FIXED_PART: bytes := [108, 1, 0, 1, 0, 0, 0, 0, 7, 0, 0, 0, 26, 0, 0, 0]
  const PATH_PART: bytes := [1, 1, 111, 0, 1, 0, 0, 0, 47, 0, 0, 0, 0, 0, 0, 0]
  const MEMBER_PART: bytes := [3, 1, 115, 0, 1, 0, 0, 0, 77, 0]
  const CALL: bytes := FIXED_PART + PATH_PART + MEMBER_PART + [0, 0, 0, 0, 0, 0]

  const CALL_FRAME := Frame(Little, MethodCall, 0, 7, NO_HEADERS.(path := Some([47]), member := Some([77])), [])

  function Entry(code: nat, v: Val): Val {
    VStruct([VFixed('y' as u8, code), VVariant(v)])
  }

  lemma CallParts()
    ensures |CALL| == 48
    ensures forall i :: 0 <= i < 16 ==> CALL[i] == FIXED_PART[i]
    ensures forall i :: 16 <= i < 32 ==> CALL[i] == PATH_PART[i - 16]
    ensures forall i :: 32 <= i < 42 ==> CALL[i] == MEMBER_PART[i - 32]
  {}

  lemma EntryStands(buf: bytes, pos: nat, code: u8, v: Val, letter: u8, end: nat)
    requires pos % 8 == 0 && pos + 4 <= |buf| && Valid(v) && TypeOf(v) == TText(letter)
    requires buf[pos] == code && buf[pos + 1] == 1 && buf[pos + 2] == letter && buf[pos + 3] == 0
    requires LaidOut(Little, v, buf, pos + 4) && end == EndOf(v, pos + 4)
    ensures var entry := Entry(code as nat, v);
            && Valid(entry) && TypeOf(entry) == ENTRY
            && LaidOut(Little, entry, buf, pos) && EndOf(entry, pos) == end
  {
    var y, w := VFixed('y' as u8, code as nat), VVariant(v);
    ByteStands(buf, pos);
    TagStands(buf, pos + 1, v, letter, end);
    TwoStand(y, w, buf, pos, pos + 1, end);
  }

  lemma TwoStand(v: Val, w: Val, buf: bytes, pos: nat, mid: nat, end: nat)
    requires Valid(v) && LaidOut(Little, v, buf, pos) && mid == EndOf(v, pos)
    requires Valid(w) && LaidOut(Little, w, buf, mid) && end == EndOf(w, mid)
    ensures AllValid([v, w]) && AllLaidOut(Little, [v, w], buf, pos) && EndAll([v, w], pos) == end
    ensures TypesOf([v, w]) == [TypeOf(v), TypeOf(w)]
  {
    OneStands(w, buf, mid, end);
    assert [v, w][1..] == [w];
  }

  lemma OneStands(w: Val, buf: bytes, pos: nat, end: nat)
    requires Valid(w) && LaidOut(Little, w, buf, pos) && end == EndOf(w, pos)
    ensures AllValid([w]) && AllLaidOut(Little, [w], buf, pos) && EndAll([w], pos) == end
    ensures TypesOf([w]) == [TypeOf(w)]
  {
    assert [w][1..] == [];
  }

  lemma TagStands(buf: bytes, pos: nat, v: Val, letter: u8, end: nat)
    requires pos + 3 <= |buf| && Valid(v) && TypeOf(v) == TText(letter)
    requires buf[pos] == 1 && buf[pos + 1] == letter && buf[pos + 2] == 0
    requires LaidOut(Little, v, buf, pos + 3) && end == EndOf(v, pos + 3)
    ensures Valid(VVariant(v)) && LaidOut(Little, VVariant(v), buf, pos) && EndOf(VVariant(v), pos) == end
  {
    assert buf[pos + 1..pos + 2] == [letter];
    ValidType(v);
    assert Sig(TypeOf(v)) == [letter];
  }

  lemma PathStands()
    ensures var p := Entry(1, Path([47]));
            Valid(p) && TypeOf(p) == ENTRY && LaidOut(Little, p, CALL, 16) && EndOf(p, 16) == 26
  {
    CallParts();
    assert CALL[20] == PATH_PART[4] && CALL[21] == PATH_PART[5] && CALL[22] == PATH_PART[6];
    assert CALL[23] == PATH_PART[7] && CALL[24] == PATH_PART[8] && CALL[25] == PATH_PART[9];
    LetterStands(CALL, 20, 47);
    PathLike(CALL, 20, 47);
    EntryStands(CALL, 16, 1, Path([47]), 'o' as u8, 26);
  }

  lemma MemberStands()
    ensures var m := Entry(3, Text([77]));
            Valid(m) && TypeOf(m) == ENTRY && LaidOut(Little, m, CALL, 26) && EndOf(m, 26) == 42
  {
    CallParts();
    assert CALL[36] == MEMBER_PART[4] && CALL[37] == MEMBER_PART[5] && CALL[38] == MEMBER_PART[6];
    assert CALL[39] == MEMBER_PART[7] && CALL[40] == MEMBER_PART[8] && CALL[41] == MEMBER_PART[9];
    LetterStands(CALL, 36, 77);
    EntryStands(CALL, 32, 3, Text([77]), 's' as u8, 42);
    PaddingStands();
  }

  lemma PaddingStands()
    ensures Padded(CALL, 26, 32)
  {
    CallParts();
    forall i | 26 <= i < 32 ensures CALL[i] == 0 {
      assert CALL[i] == PATH_PART[i - 16];
    }
  }

  lemma CallFields()
    ensures var items := [Entry(1, Path([47])), Entry(3, Text([77]))];
            Valid(Fields(items)) && LaidOut(Little, Fields(items), CALL, 12) && EndOf(Fields(items), 12) == 42
  {
    var p, m := Entry(1, Path([47])), Entry(3, Text([77]));
    PathStands();
    MemberStands();
    TwoStand(p, m, CALL, 16, 26, 42);
    LengthStands();
    EntryWellFormed();
    FieldsStand([p, m]);
  }

  lemma LengthStands()
    ensures NumberAt(Little, CALL, 12, 4, 26)
  {
    CallParts();
    assert CALL[12] == FIXED_PART[12] && CALL[13] == FIXED_PART[13];
    SmallNumber(CALL, 12, 26);
  }

  lemma FieldsStand(items: seq<Val>)
    requires AllValid(items) && AllOfType(items, ENTRY) && WellFormed(TArray(ENTRY))
    requires AllLaidOut(Little, items, CALL, 16) && EndAll(items, 16) == 42 && NumberAt(Little, CALL, 12, 4, 26)
    ensures Valid(Fields(items)) && LaidOut(Little, Fields(items), CALL, 12) && EndOf(Fields(items), 12) == 42
  {
    assert ElementsAt(ENTRY, 12) == 16 && Up(12, 4) == 12;
  }

  lemma CallHeaders()
    ensures HeadersSay([Entry(1, Path([47])), Entry(3, Text([77]))], CALL_FRAME.headers)
  {
    var p, m := Entry(1, Path([47])), Entry(3, Text([77]));
    SaidPathSnoc([], p);
    SaidPathSnoc([p], m);
    SaidSigSnoc([], p);
    SaidSigSnoc([p], m);
    assert [] + [p] == [p] && [p] + [m] == [p, m];
    CallSays(2);
    CallSays(3);
    CallSays(4);
    CallSays(5);
    CallSays(6);
    CallSays(7);
    CallSays(9);
  }

  lemma CallSays(code: nat)
    requires code > 1
    ensures Said([Entry(1, Path([47])), Entry(3, Text([77]))], code) == if code == 3 then Some(Text([77])) else None
  {
    var p, m := Entry(1, Path([47])), Entry(3, Text([77]));
    assert [] + [p] == [p] && [p] + [m] == [p, m];
    SaidSnoc([], p, code);
    SaidSnoc([p], m, code);
  }

  // It parses as that frame.
  lemma CallByteByByte()
    ensures Parse(CALL) == Ok(CALL_FRAME)
  {
    var items := [Entry(1, Path([47])), Entry(3, Text([77]))];
    CallFields();
    CallHeaders();
    CallParts();
    FixedNumbers();
    assert CALL[48..48] == [];
    MessageIsParsed(CALL, CALL_FRAME, items);
  }

  lemma FixedNumbers()
    ensures NumberAt(Little, CALL, 4, 4, 0) && NumberAt(Little, CALL, 8, 4, 7)
    ensures CALL[0] == 108 && CALL[1] == 1 && CALL[2] == 0 && CALL[3] == 1
  {
    CallParts();
    assert CALL[4] == FIXED_PART[4] && CALL[5] == FIXED_PART[5] && CALL[6] == FIXED_PART[6];
    assert CALL[8] == FIXED_PART[8] && CALL[9] == FIXED_PART[9] && CALL[10] == FIXED_PART[10];
    SmallNumber(CALL, 4, 0);
    SmallNumber(CALL, 8, 7);
  }

  lemma CallItems()
    ensures HeaderVal(CALL_FRAME.headers) == Fields([Entry(1, Path([47])), Entry(3, Text([77]))])
  {
    var p, m := Entry(1, Path([47])), Entry(3, Text([77]));
    assert PathField(Some([47])) == [p] && TextField(3, Some([77])) == [m];
    assert [p] + [] + [m] + [] + [] + [] + [] + [] + [] == [p, m];
  }

  lemma CallHead()
    ensures Head(CALL_FRAME) == CALL[..42]
  {
    var v := Fields([Entry(1, Path([47])), Entry(3, Text([77]))]);
    CallItems();
    CallFields();
    EndIsLength(Little, v, 12);
    WriterIff(Little, v, CALL, 12);
    CallPrefix();
    assert CALL[..42] == CALL[..12] + CALL[12..42];
  }

  lemma CallPrefix()
    ensures FixedPrefix(CALL_FRAME) == CALL[..12]
  {
    CallParts();
    assert CALL[..12] == FIXED_PART[..12];
    SmallBytes(0);
    SmallBytes(7);
    assert [108, 1, 0, 1] + [0, 0, 0, 0] + [7, 0, 0, 0] == FIXED_PART[..12];
  }

  lemma SmallBytes(n: u8)
    ensures EncodeUInt(Little, n as nat, 4) == [n, 0, 0, 0]
  {
    assert EncodeUInt(Little, 0, 1) == [0] + EncodeUInt(Little, 0, 0) == [0];
    assert EncodeUInt(Little, 0, 2) == [0] + EncodeUInt(Little, 0, 1) == [0, 0];
    assert EncodeUInt(Little, 0, 3) == [0] + EncodeUInt(Little, 0, 2) == [0, 0, 0];
    assert n as nat / 256 == 0 && n as nat % 256 == n as nat;
    assert EncodeUInt(Little, n as nat, 4) == [n] + EncodeUInt(Little, 0, 3);
  }

  // And the frame encodes to these bytes.
  lemma CallEncodes()
    ensures Encode(CALL_FRAME) == CALL
  {
    CallHead();
    SixZeros();
    TailOfCall();
  }

  lemma SixZeros()
    ensures Padding(42, 8) == [0, 0, 0, 0, 0, 0]
  {}

  lemma TailOfCall()
    ensures |CALL| == 48 && CALL[..42] + [0, 0, 0, 0, 0, 0] + [] == CALL
  {}
}
