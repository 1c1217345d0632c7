// The fcitx5 interface as its clients know it, and the calls the broker answers: exactly those of
// this table.

module FcitxCalls {
  import opened Prelude
  import opened Decimal
  import opened Wire
  import opened Frames
  import opened Fcitx

  // One call of the interface. The signature is given twice, as text and as types.
  datatype Row = Row(interface: string, member: string, signature: string, args: seq<Ty>)

  const S := TText('s' as u8)
  const I := TFixed('i' as u8)
  const U := TFixed('u' as u8)
  const T := TFixed('t' as u8)
  const D := TFixed('d' as u8)
  const HINTS := TArray(TStruct([S, S]))

  const METHOD1 := "org.fcitx.Fcitx.InputMethod1"
  const CONTEXT1 := "org.fcitx.Fcitx.InputContext1"
  const FCITX4 := "org.fcitx.Fcitx.InputContext"

  function RowOf(m: Method): Row {
    match m
    case CreateInputContext => Row(METHOD1, "CreateInputContext", "a(ss)", [HINTS])
    case FocusIn => Row(CONTEXT1, "FocusIn", "", [])
    case FocusOut => Row(CONTEXT1, "FocusOut", "", [])
    case Reset => Row(CONTEXT1, "Reset", "", [])
    case DestroyIC => Row(CONTEXT1, "DestroyIC", "", [])
    case SetCapability => Row(CONTEXT1, "SetCapability", "t", [T])
    case SetCursorRect => Row(CONTEXT1, "SetCursorRect", "iiii", [I, I, I, I])
    case SetCursorRectV2 => Row(CONTEXT1, "SetCursorRectV2", "iiiid", [I, I, I, I, D])
    case SetCursorLocation => Row(FCITX4, "SetCursorLocation", "ii", [I, I])
    case SetSurroundingText => Row(CONTEXT1, "SetSurroundingText", "suu", [S, U, U])
    case SetSurroundingTextPosition => Row(CONTEXT1, "SetSurroundingTextPosition", "uu", [U, U])
  }

  // The frame names the call: its interface, its member and its argument signature, which is left
  // out when there are no arguments.
  predicate Names(m: Method, f: Frame) {
    var r := RowOf(m);
    && f.headers.interface == Some(Ascii(r.interface))
    && f.headers.member == Some(Ascii(r.member))
    && (if f.headers.signature.Some? then f.headers.signature.value else []) == Ascii(r.signature)
  }

  function ArgsOf(m: Method, f: Frame): Option<seq<Val>> {
    if RowOf(m).args == [] then Some([]) else DecodeBody(f.endian, f.headers.signature, f.body)
  }

  // The frame is that call: its arguments can be read, and it is made on an object path unless it
  // asks for a new context.
  predicate IsCall(m: Method, f: Frame) {
    Names(m, f) && ArgsOf(m, f).Some? && (m.CreateInputContext? || f.headers.path.Some?)
  }

  // ---------------------------------------------------------------------
  // Names
  // ---------------------------------------------------------------------

  lemma InterfacesDiffer()
    ensures Ascii(METHOD1) != Ascii(CONTEXT1) && Ascii(METHOD1) != Ascii(FCITX4) && Ascii(CONTEXT1) != Ascii(FCITX4)
  {
    assert Ascii(METHOD1)[21] == 'M' as u8 && Ascii(FCITX4)[21] == 'C' as u8;
    assert |METHOD1| == |FCITX4| == 28 && |CONTEXT1| == 29;
  }

  // Within one interface two calls differ in the length of their signature or of their name.
  lemma MethodForIff(iface: bytes, member: bytes, sig: bytes, m: Method)
    ensures MethodFor(iface, member, sig) == Some(m) <==>
            var r := RowOf(m);
            iface == Ascii(r.interface) && member == Ascii(r.member) && sig == Ascii(r.signature)
  {
    InterfacesDiffer();
    assert Ascii("") == [];
  }

  lemma MethodOf(f: Frame, m: Method)
    ensures Names(m, f) <==>
            && f.headers.interface.Some? && f.headers.member.Some?
            && MethodFor(f.headers.interface.value, f.headers.member.value,
                         if f.headers.signature.Some? then f.headers.signature.value else []) == Some(m)
  {
    if f.headers.interface.Some? && f.headers.member.Some? {
      MethodForIff(f.headers.interface.value, f.headers.member.value,
                   if f.headers.signature.Some? then f.headers.signature.value else [], m);
    }
  }

  lemma ArgsAgree(m: Method)
    ensures HasBody(m) <==> RowOf(m).args != []
  {}

  // A frame is recognised as a call exactly when it is that call, with its path and arguments.
  lemma ClassifiedIff(f: Frame, m: Method)
    ensures (Classify(f).Some? && Classify(f).value.what == m) <==> IsCall(m, f)
    ensures IsCall(m, f) ==> Classify(f) == Some(Call(m, f.headers.path, ArgsOf(m, f).value))
  {
    MethodOf(f, m);
    ArgsAgree(m);
  }

  // So nothing else is: a key event, for one, is left to the bus, whatever its interface,
  // signature and body.
  lemma KeyEventsAreForwarded(f: Frame)
    requires f.headers.member == Some(Ascii("ProcessKeyEvent"))
    ensures Classify(f) == None
  {
    if Classify(f).Some? {
      var m := Classify(f).value.what;
      ClassifiedIff(f, m);
      NoKeyEvent(m);
    }
  }

  lemma NoKeyEvent(m: Method)
    ensures Ascii(RowOf(m).member) != Ascii("ProcessKeyEvent")
  {
    if |RowOf(m).member| == 15 {
      assert Ascii(RowOf(m).member)[0] == 'S' as u8 && Ascii("ProcessKeyEvent")[0] == 'P' as u8;
    }
  }

  // ---------------------------------------------------------------------
  // Signatures
  // ---------------------------------------------------------------------

  predicate OneLetter(t: Ty) {
    t.TFixed? || t.TText?
  }

  function Letter(t: Ty): u8
    requires OneLetter(t)
  {
    t.code
  }

  lemma {:induction false} LetterSigs(ts: seq<Ty>, s: bytes)
    requires |ts| == |s| && forall i :: 0 <= i < |ts| ==> OneLetter(ts[i]) && Letter(ts[i]) == s[i]
    ensures Sigs(ts) == s
  {
    if ts != [] {
      LetterSigs(ts[1..], s[1..]);
      SigsCons(ts);
      assert [s[0]] + s[1..] == s;
    } else {
      assert s == [];
    }
  }

  lemma HintsSig()
    ensures Sigs([HINTS]) == Ascii("a(ss)")
  {
    LetterSigs([S, S], ['s' as u8, 's' as u8]);
    SigsCons([HINTS]);
    assert [HINTS][1..] == [];
    var a, open, close: u8 := 'a' as u8, '(' as u8, ')' as u8;
    assert Sig(TStruct([S, S])) == [open] + ['s' as u8, 's' as u8] + [close];
    assert Sig(HINTS) == [a] + ([open] + ['s' as u8, 's' as u8] + [close]);
  }

  // The two forms of every signature agree.
  lemma RowSignature(m: Method)
    ensures Sigs(RowOf(m).args) == Ascii(RowOf(m).signature)
  {
    if m.CreateInputContext? {
      HintsSig();
    } else {
      LetterSigs(RowOf(m).args, Ascii(RowOf(m).signature));
    }
  }

  lemma {:induction false} WellFormedAll(ts: seq<Ty>)
    requires forall i :: 0 <= i < |ts| ==> WellFormed(ts[i])
    ensures AllWellFormed(ts)
  {
    if ts != [] {
      WellFormedAll(ts[1..]);
    }
  }

  lemma RowWellFormed(m: Method)
    ensures AllWellFormed(RowOf(m).args) && !HasStruct(RowOf(m).args)
  {
    WellFormedAll([S, S]);
    assert WellFormed(HINTS);
    WellFormedAll(RowOf(m).args);
  }

  lemma RowParses(m: Method)
    ensures ValidSig(Ascii(RowOf(m).signature)) && ParseSig(Ascii(RowOf(m).signature)) == Some(RowOf(m).args)
    ensures NoParens(Ascii(RowOf(m).signature)) == Ascii(RowOf(m).signature)
  {
    RowSignature(m);
    RowWellFormed(m);
    ParseSigOfSigs(RowOf(m).args);
    SigsNoNul(RowOf(m).args);
  }

  // ---------------------------------------------------------------------
  // Calls as clients send them
  // ---------------------------------------------------------------------

  // A message that makes the call with these arguments, whatever else its header says.
  predicate Makes(f: Frame, m: Method, args: seq<Val>) {
    && Names(m, f)
    && (f.headers.path.Some? ==> ValidPath(f.headers.path.value))
    && (m.CreateInputContext? || f.headers.path.Some?)
    && ValidHeaders(f.headers) && f.serial != 0 && |Encode(f)| < 0x1_0000_0000
    && AllValid(args) && TypesOf(args) == RowOf(m).args
    && f.body == MarshalAll(f.endian, args, 0)
  }

  // Every such message, in either byte order, is recognised on arrival with exactly its path and
  // arguments.
  lemma CallsAreRecognised(f: Frame, m: Method, args: seq<Val>)
    requires Makes(f, m, args)
    ensures Parse(Encode(f)) == Ok(f) && Classify(f) == Some(Call(m, f.headers.path, args))
  {
    RowParses(m);
    assert Encode(f) + [] == Encode(f);
    RoundTripIff(f, []);
    if f.headers.signature.Some? {
      NotOneStruct(m);
    }
    ArgsRead(f, m, args);
    ClassifiedIff(f, m);
  }

  lemma NotOneStruct(m: Method)
    ensures !OneStruct(Ascii(RowOf(m).signature))
  {
    RowParses(m);
    RowWellFormed(m);
  }

  lemma ArgsRead(f: Frame, m: Method, args: seq<Val>)
    requires Makes(f, m, args)
    ensures ArgsOf(m, f) == Some(args)
  {
    if RowOf(m).args == [] {
      assert args == [];
    } else {
      RowParses(m);
      SignatureIsThere(f, m);
      BodyIsShort(f);
      assert f.body[0..|f.body|] == f.body;
      AllRoundTrip(f.endian, RowOf(m).args, args, f.body, 0, |f.body|);
    }
  }

  lemma SignatureIsThere(f: Frame, m: Method)
    requires Names(m, f) && RowOf(m).args != []
    ensures f.headers.signature == Some(Ascii(RowOf(m).signature))
  {
    assert |RowOf(m).signature| > 0;
  }

  lemma BodyIsShort(f: Frame)
    ensures |f.body| <= |Encode(f)|
  {}
}
