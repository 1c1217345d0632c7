// The fcitx5 front end the broker answers itself: recognising its method calls, allocating
// input-context paths, and building the replies.

module Fcitx {
  import opened Prelude
  import opened Decimal
  import opened Wire
  import opened Frames
  import opened ObjectPaths

  const INPUT_METHOD_INTERFACE: bytes := Ascii("org.fcitx.Fcitx.InputMethod1")
  const INPUT_CONTEXT_INTERFACE: bytes := Ascii("org.fcitx.Fcitx.InputContext1")
  const INPUT_CONTEXT_INTERFACE_FCITX4: bytes := Ascii("org.fcitx.Fcitx.InputContext")

  function Element(s: string): bytes {
    ['/' as u8] + Ascii(s)
  }

  // "/org/freedesktop/portal/inputcontext/"
  const PATH_PREFIX: bytes :=
    Element("org") + Element("freedesktop") + Element("portal") + Element("inputcontext") + ['/' as u8]

  datatype Method =
    | CreateInputContext | FocusIn | FocusOut | Reset | DestroyIC
    | SetCapability | SetCursorRect | SetCursorRectV2 | SetCursorLocation
    | SetSurroundingText | SetSurroundingTextPosition

  // A recognised call with the object path it was made on and its arguments.
  datatype Call = Call(what: Method, path: Option<bytes>, args: seq<Val>)

  function MethodFor(iface: bytes, member: bytes, sig: bytes): Option<Method> {
    if iface == INPUT_METHOD_INTERFACE then
      if member == Ascii("CreateInputContext") && sig == Ascii("a(ss)") then Some(CreateInputContext) else None
    else if iface == INPUT_CONTEXT_INTERFACE then
      if member == Ascii("FocusIn") && sig == [] then Some(FocusIn)
      else if member == Ascii("FocusOut") && sig == [] then Some(FocusOut)
      else if member == Ascii("Reset") && sig == [] then Some(Reset)
      else if member == Ascii("DestroyIC") && sig == [] then Some(DestroyIC)
      else if member == Ascii("SetCapability") && sig == Ascii("t") then Some(SetCapability)
      else if member == Ascii("SetCursorRect") && sig == Ascii("iiii") then Some(SetCursorRect)
      else if member == Ascii("SetCursorRectV2") && sig == Ascii("iiiid") then Some(SetCursorRectV2)
      else if member == Ascii("SetSurroundingText") && sig == Ascii("suu") then Some(SetSurroundingText)
      else if member == Ascii("SetSurroundingTextPosition") && sig == Ascii("uu") then Some(SetSurroundingTextPosition)
      else None
    else if iface == INPUT_CONTEXT_INTERFACE_FCITX4 then
      if member == Ascii("SetCursorLocation") && sig == Ascii("ii") then Some(SetCursorLocation) else None
    else None
  }

  predicate HasBody(m: Method) {
    !(m.FocusIn? || m.FocusOut? || m.Reset? || m.DestroyIC?)
  }

  function Classify(f: Frame): Option<Call> {
    if f.headers.interface.None? || f.headers.member.None? then None
    else
      var sig := if f.headers.signature.Some? then f.headers.signature.value else [];
      match MethodFor(f.headers.interface.value, f.headers.member.value, sig)
      case None => None
      case Some(m) =>
        var args := if HasBody(m) then DecodeBody(f.endian, f.headers.signature, f.body) else Some([]);
        if args.None? || (!m.CreateInputContext? && f.headers.path.None?) then None
        else Some(Call(m, f.headers.path, args.value))
  }

  // ---------------------------------------------------------------------
  // Serials and input-context paths
  // ---------------------------------------------------------------------

  // The next broker serial: wraps at 2^32 and skips zero.
  function Bump(counter: u32): (serial: u32)
    ensures serial != 0
  {
    if counter == 0xFFFF_FFFF then 1 else counter + 1
  }

  function Bumps(counter: u32, n: nat): u32 {
    Iterate(Bump, counter, n)
  }

  lemma {:induction false} BumpsValue(counter: u32, n: nat)
    requires n > 0
    ensures Bumps(counter, n) ==
            if counter == 0 then 1 + (n - 1) % 0xFFFF_FFFF else 1 + (counter - 1 + n) % 0xFFFF_FFFF
  {
    if n == 1 {
      assert Bumps(counter, 0) == counter;
    } else {
      BumpsValue(counter, n - 1);
      NextMod(if counter == 0 then n - 2 else counter - 1 + (n - 1));
    }
  }

  lemma NextMod(x: nat)
    ensures (x + 1) % 0xFFFF_FFFF == if x % 0xFFFF_FFFF == 0xFFFF_FFFE then 0 else x % 0xFFFF_FFFF + 1
  {}

  // Any 2^32 - 1 consecutive broker serials are non-zero and pairwise distinct.
  lemma SerialsDistinct(counter: u32, i: nat, j: nat)
    requires 0 < i < j < i + 0xFFFF_FFFF
    ensures Bumps(counter, i) != 0 && Bumps(counter, j) != 0 && Bumps(counter, i) != Bumps(counter, j)
  {
    BumpsValue(counter, i);
    BumpsValue(counter, j);
    var a := if counter == 0 then i - 1 else counter - 1 + i;
    DistinctMod(a, j - i);
  }

  lemma DistinctMod(a: nat, d: nat)
    requires 0 < d < 0xFFFF_FFFF
    ensures a % 0xFFFF_FFFF != (a + d) % 0xFFFF_FFFF
  {}

  // The `n`-th serial a connection uses, counting from zero.
  function SerialAt(n: nat): u32 {
    Bumps(0, n + 1)
  }

  // A 64-bit id counter.
  function NextId(id: u64): u64 {
    if id == 0xFFFF_FFFF_FFFF_FFFF then 0 else id + 1
  }

  // The `n`-th context id a connection allocates, counting from zero.
  function IdAt(n: nat): u64 {
    Iterate(NextId, 1, n)
  }

  lemma {:induction false} IdValue(n: nat)
    ensures IdAt(n) == (n + 1) % 0x1_0000_0000_0000_0000
  {
    if n > 0 {
      IdValue(n - 1);
      NextMod64(n);
    }
  }

  lemma NextMod64(x: nat)
    ensures (x + 1) % 0x1_0000_0000_0000_0000 ==
            if x % 0x1_0000_0000_0000_0000 == 0xFFFF_FFFF_FFFF_FFFF then 0 else x % 0x1_0000_0000_0000_0000 + 1
  {}

  lemma IdsDistinct(i: nat, j: nat)
    requires i < j < i + 0x1_0000_0000_0000_0000
    ensures IdAt(i) != IdAt(j)
  {
    IdValue(i);
    IdValue(j);
    DistinctMod64(i + 1, j - i);
  }

  lemma DistinctMod64(a: nat, d: nat)
    requires 0 < d < 0x1_0000_0000_0000_0000
    ensures a % 0x1_0000_0000_0000_0000 != (a + d) % 0x1_0000_0000_0000_0000
  {}

  function ContextPath(id: u64): bytes {
    PATH_PREFIX + Print(id)
  }

  function Uuid(id: u64): bytes {
    EncodeUInt(Little, id, 8) + Zeros(8)
  }

  // The path and uuid as clients see them: the portal's prefix and the id in decimal; the id's
  // eight bytes, lowest first, then eight zeros.
  lemma ContextIs(id: u64)
    ensures ContextPath(id) == Ascii("/org/freedesktop/portal/inputcontext/") + Print(id)
    ensures |Uuid(id)| == 16
    ensures forall i :: 0 <= i < 16 ==> Uuid(id)[i] as int == if i < 8 then Shifted(id, i) % 256 else 0
  {
    PrefixIs();
    forall i | 0 <= i < 8 ensures Uuid(id)[i] as int == Shifted(id, i) % 256 {
      ByteOf(Little, id, 8, i);
    }
  }

  lemma PrefixIs()
    ensures PATH_PREFIX == Ascii("/org/freedesktop/portal/inputcontext/")
  {
    var a, b, c := Ascii("/org/freedesktop"), Ascii("/portal"), Ascii("/inputcontext/");
    HeadIs();
    assert Element("portal") == b;
    assert Element("inputcontext") + ['/' as u8] == c;
    Assoc(a + b, Element("inputcontext"), ['/' as u8]);
    PartsAre();
  }

  lemma PartsAre()
    ensures Ascii("/org/freedesktop") + Ascii("/portal") + Ascii("/inputcontext/") ==
            Ascii("/org/freedesktop/portal/inputcontext/")
  {}

  lemma HeadIs()
    ensures Element("org") + Element("freedesktop") == Ascii("/org/freedesktop")
  {}

  // Different ids give different paths.
  lemma ContextPathsDistinct(i: u64, j: u64)
    requires ContextPath(i) == ContextPath(j)
    ensures i == j
  {
    assert Print(i) == ContextPath(i)[|PATH_PREFIX|..] == ContextPath(j)[|PATH_PREFIX|..] == Print(j);
    ParseOfPrint(i);
    ParseOfPrint(j);
  }

  lemma WordIsElement(s: string)
    requires s != [] && forall i :: 0 <= i < |s| ==> 'a' <= s[i] <= 'z'
    ensures IsElement(Ascii(s))
  {}

  lemma WordsAreElements()
    ensures IsElement(Ascii("org")) && IsElement(Ascii("freedesktop"))
    ensures IsElement(Ascii("portal")) && IsElement(Ascii("inputcontext"))
  {
    WordIsElement("org");
    WordIsElement("freedesktop");
    WordIsElement("portal");
    WordIsElement("inputcontext");
  }

  lemma NumberIsElement(id: u64)
    ensures IsElement(Print(id))
  {}

  lemma ContextPathValid(id: u64)
    ensures ValidPath(ContextPath(id)) && |ContextPath(id)| <= 57
  {
    var slash, n := ['/' as u8], Print(id);
    var a, b, c, d := Element("org"), Element("freedesktop"), Element("portal"), Element("inputcontext");
    PrintU64Length(id);
    WordsAreElements();
    NumberIsElement(id);
    ElementAppended([], Ascii("org"));
    assert [] + a == a;
    ElementAppended(a, Ascii("freedesktop"));
    ElementAppended(a + b, Ascii("portal"));
    ElementAppended(a + b + c, Ascii("inputcontext"));
    ElementAppended(a + b + c + d, n);
    Assoc(a + b + c + d, slash, n);
  }

  // ---------------------------------------------------------------------
  // Replies
  // ---------------------------------------------------------------------

  function ByteVals(b: bytes): seq<Val> {
    seq(|b|, i requires 0 <= i < |b| => VFixed('y' as u8, b[i] as nat))
  }

  // The two top-level results of CreateInputContext: object path and uuid.
  function ContextResult(ic: u64): seq<Val> {
    [VText('o' as u8, ContextPath(ic)), VArray(TFixed('y' as u8), ByteVals(Uuid(ic)))]
  }

  function ReplyHeaders(request: Frame): Headers {
    NO_HEADERS.(replySerial := Some(request.serial),
                destination := request.headers.sender,
                sender := request.headers.destination)
  }

  function ReplyFrame(request: Frame, m: Method, ic: u64, serial: u32): Frame {
    if m.CreateInputContext? then
      var b := AddArgs(NO_BODY, ContextResult(ic));
      Frame(Little, MethodReturn, 0, serial, ReplyHeaders(request).(signature := FinishedSignature(b)), b.body)
    else
      Frame(Little, MethodReturn, 0, serial, ReplyHeaders(request), [])
  }

  // The encoded reply, the next context id and the bumped serial counter.
  function BuildReply(request: Frame, m: Method, ic: u64, counter: u32): (bytes, u64, u32) {
    var serial := Bump(counter);
    (Encode(ReplyFrame(request, m, ic, serial)), if m.CreateInputContext? then NextId(ic) else ic, serial)
  }

  lemma {:induction false} ByteValsValid(vs: seq<Val>)
    requires forall x :: x in vs ==> x.VFixed? && x.code == 'y' as u8 && x.bits < 256
    ensures AllValid(vs) && AllOfType(vs, TFixed('y' as u8))
    decreases |vs|
  {
    Pow256Small();
    if vs != [] {
      ByteValsValid(vs[1..]);
    }
  }

  lemma {:induction false} ByteValsLength(vs: seq<Val>, pos: nat)
    requires forall x :: x in vs ==> x.VFixed? && x.code == 'y' as u8
    ensures |MarshalAll(Little, vs, pos)| == |vs|
    decreases |vs|
  {
    if vs != [] {
      assert |Marshal(Little, vs[0], pos)| == 1;
      ByteValsLength(vs[1..], pos + 1);
    }
  }

  lemma ContextResultValid(ic: u64)
    ensures AllValid(ContextResult(ic))
    ensures TypesOf(ContextResult(ic)) == [TText('o' as u8), TArray(TFixed('y' as u8))]
  {
    var vs := ContextResult(ic);
    ContextPathValid(ic);
    PathNoNul(ContextPath(ic));
    ByteValsValid(ByteVals(Uuid(ic)));
    assert vs[1..] == [vs[1]] && vs[1..][1..] == [];
    assert Valid(vs[1]);
    assert AllValid([vs[1]]);
    assert TypesOf(vs) == [TypeOf(vs[0])] + TypesOf(vs[1..]);
    assert TypesOf([vs[1]]) == [TypeOf(vs[1])] + TypesOf([vs[1]][1..]);
  }

  lemma ContextResultLength(ic: u64)
    ensures |MarshalAll(Little, ContextResult(ic), 0)| <= 200
  {
    var vs := ContextResult(ic);
    ContextPathValid(ic);
    assert vs[1..] == [vs[1]];
    var p := |Marshal(Little, vs[0], 0)|;
    assert p <= 65;
    MarshalOne(Little, vs[1], p);
    ByteValsLength(ByteVals(Uuid(ic)), ArrayStart(TFixed('y' as u8), p));
  }

  lemma ResultSigs()
    ensures var ts := [TText('o' as u8), TArray(TFixed('y' as u8))];
            Sigs(ts) == ['o' as u8, 'a' as u8, 'y' as u8] && Spread(ts) == ts
  {
    var o, ay := TText('o' as u8), TArray(TFixed('y' as u8));
    SpreadPlain([o, ay]);
    SigsCons([o, ay]);
    SigsCons([ay]);
    assert [o, ay][1..] == [ay] && [ay][1..] == [];
    assert Sig(ay) == ['a' as u8] + Sig(TFixed('y' as u8)) == ['a' as u8, 'y' as u8];
    assert Sigs([ay]) == ['a' as u8, 'y' as u8];
  }

  lemma ContextSignature(ic: u64)
    ensures var b := AddArgs(NO_BODY, ContextResult(ic));
            b.sig == Ascii("oay") && ValidSig(b.sig) && NoParens(b.sig) == b.sig
  {
    ContextResultValid(ic);
    AddArgsSig(NO_BODY, ContextResult(ic));
    ResultSigs();
    OayIs();
    ValidTypes(ContextResult(ic));
    ParseSigOfSigs([TText('o' as u8), TArray(TFixed('y' as u8))]);
    assert [] + Ascii("oay") == Ascii("oay");
  }

  lemma OayIs()
    ensures Ascii("oay") == ['o' as u8, 'a' as u8, 'y' as u8] && NoNul(Ascii("oay"))
  {}

  // The header of every reply: the request's serial, its endpoints swapped, and nothing else but
  // the signature of a body.
  predicate AnswerHeaders(h: Headers, request: Frame, signature: Option<bytes>) {
    && h.replySerial == Some(request.serial)
    && h.destination == request.headers.sender
    && h.sender == request.headers.destination
    && h.signature == signature
    && h.path == None && h.interface == None && h.member == None && h.errorName == None && h.unixFds == None
  }

  // A client that parses the reply to a message it sent sees a method return, for its serial,
  // with the endpoints swapped; for CreateInputContext its body, of two arguments `oay`, decodes to
  // the allocated path and uuid, and for every other call there is none.
  lemma ReplyAnswers(msg: bytes, m: Method, ic: u64, counter: u32)
    requires Parse(msg).Ok? && |msg| <= MAX_MESSAGE_SIZE
    ensures var request := Parse(msg).value;
            var p := Parse(BuildReply(request, m, ic, counter).0);
            && p.Ok?
            && p.value.kind == MethodReturn
            && p.value.serial == Bump(counter)
            && AnswerHeaders(p.value.headers, request, if m.CreateInputContext? then Some(Ascii("oay")) else None)
            && (!m.CreateInputContext? ==> p.value.body == [])
            && (m.CreateInputContext? ==>
                  DecodeBody(p.value.endian, p.value.headers.signature, p.value.body) == Some(ContextResult(ic)))
  {
    var request := Parse(msg).value;
    var f := ReplyFrame(request, m, ic, Bump(counter));
    ParsedTexts(msg);
    if m.CreateInputContext? {
      ContextSignature(ic);
      ContextBody(ic);
    }
    BoundedLength(f);
    assert Encode(f)[0..|Encode(f)|] == Encode(f);
    ParseEncode(f, Encode(f));
  }

  lemma ContextBody(ic: u64)
    ensures var b := AddArgs(NO_BODY, ContextResult(ic));
            |b.body| <= 200 && DecodeBody(Little, FinishedSignature(b), b.body) == Some(ContextResult(ic))
  {
    var vs := ContextResult(ic);
    ContextResultValid(ic);
    ContextResultLength(ic);
    IncrementalMarshalling(vs);
    DecodeBodyIff(vs);
  }
}
