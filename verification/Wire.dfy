// D-Bus values on the wire: type signatures, marshalling and unmarshalling.
//
// The broker leaves this to zvariant; the rules are those of the D-Bus Specification, sections
// "Type System" and "Marshaling (Wire Format)". Positions are absolute offsets in the message,
// which is what decides the padding. Integers and doubles are kept as raw unsigned bits.

module Wire {
  import opened Prelude

  // ---------------------------------------------------------------------
  // Types and their signatures
  // ---------------------------------------------------------------------

  datatype Ty =
    | TFixed(code: u8)   // y b n q i u x t d h
    | TText(code: u8)    // s o
    | TSig               // g
    | TVariant           // v
    | TArray(elem: Ty)
    | TStruct(fields: seq<Ty>)

  function Width(code: u8): nat {
    if code == 'y' as u8 then 1
    else if code == 'n' as u8 || code == 'q' as u8 then 2
    else if code == 'b' as u8 || code == 'i' as u8 || code == 'u' as u8 || code == 'h' as u8 then 4
    else if code == 'x' as u8 || code == 't' as u8 || code == 'd' as u8 then 8
    else 0
  }

  predicate IsTextCode(code: u8) {
    code == 's' as u8 || code == 'o' as u8
  }

  predicate WellFormed(t: Ty) {
    match t
    case TFixed(c) => Width(c) > 0
    case TText(c) => IsTextCode(c)
    case TSig => true
    case TVariant => true
    case TArray(el) => WellFormed(el)
    case TStruct(fs) => fs != [] && AllWellFormed(fs)
  }

  predicate AllWellFormed(ts: seq<Ty>) {
    ts != [] ==> WellFormed(ts[0]) && AllWellFormed(ts[1..])
  }

  function Sig(t: Ty): (s: bytes)
    ensures s != []
  {
    match t
    case TFixed(c) => [c]
    case TText(c) => [c]
    case TSig => ['g' as u8]
    case TVariant => ['v' as u8]
    case TArray(el) => ['a' as u8] + Sig(el)
    case TStruct(fs) => ['(' as u8] + Sigs(fs) + [')' as u8]
  }

  function Sigs(ts: seq<Ty>): bytes {
    if ts == [] then [] else Sig(ts[0]) + Sigs(ts[1..])
  }

  // One complete type and what follows it.
  function ParseTy(s: bytes): (r: Option<(Ty, bytes)>)
    ensures r.Some? ==> |r.value.1| < |s|
    decreases |s|, 0
  {
    if s == [] then None
    else if Width(s[0]) > 0 then Some((TFixed(s[0]), s[1..]))
    else if IsTextCode(s[0]) then Some((TText(s[0]), s[1..]))
    else if s[0] == 'g' as u8 then Some((TSig, s[1..]))
    else if s[0] == 'v' as u8 then Some((TVariant, s[1..]))
    else if s[0] == 'a' as u8 then
      match ParseTy(s[1..])
      case None => None
      case Some((el, rest)) => Some((TArray(el), rest))
    else if s[0] == '(' as u8 then
      match ParseFields(s[1..])
      case None => None
      case Some((fs, rest)) => if fs == [] then None else Some((TStruct(fs), rest))
    else None
  }

  // Types up to the closing parenthesis.
  function ParseFields(s: bytes): (r: Option<(seq<Ty>, bytes)>)
    ensures r.Some? ==> |r.value.1| < |s|
    decreases |s|, 1
  {
    if s == [] then None
    else if s[0] == ')' as u8 then Some(([], s[1..]))
    else
      match ParseTy(s)
      case None => None
      case Some((t, rest)) =>
        match ParseFields(rest)
        case None => None
        case Some((ts, rest')) => Some(([t] + ts, rest'))
  }

  // A whole signature: zero or more complete types.
  function ParseSig(s: bytes): Option<seq<Ty>>
    decreases |s|
  {
    if s == [] then Some([])
    else
      match ParseTy(s)
      case None => None
      case Some((t, rest)) =>
        match ParseSig(rest)
        case None => None
        case Some(ts) => Some([t] + ts)
  }

  lemma {:induction false} ParseTyOfSig(t: Ty, rest: bytes)
    requires WellFormed(t)
    ensures ParseTy(Sig(t) + rest) == Some((t, rest))
    decreases t, 0
  {
    var s := Sig(t) + rest;
    match t
    case TArray(el) =>
      assert s[1..] == Sig(el) + rest;
      ParseTyOfSig(el, rest);
    case TStruct(fs) =>
      assert s[1..] == Sigs(fs) + [')' as u8] + rest;
      ParseFieldsOfSigs(fs, rest);
    case _ => ParseBasic(t, rest);
  }

  // Types whose signature is one letter.
  lemma ParseBasic(t: Ty, rest: bytes)
    requires WellFormed(t) && !t.TArray? && !t.TStruct?
    ensures ParseTy(Sig(t) + rest) == Some((t, rest))
  {
    assert (Sig(t) + rest)[1..] == rest;
  }

  lemma SigStart(t: Ty)
    requires WellFormed(t)
    ensures Sig(t)[0] != ')' as u8
  {}

  lemma {:induction false} ParseFieldsOfSigs(ts: seq<Ty>, rest: bytes)
    requires AllWellFormed(ts)
    ensures ParseFields(Sigs(ts) + [')' as u8] + rest) == Some((ts, rest))
    decreases ts, 1
  {
    var s := Sigs(ts) + [')' as u8] + rest;
    if ts == [] {
      assert s[1..] == rest;
    } else {
      SigStart(ts[0]);
      var tail := Sigs(ts[1..]) + [')' as u8] + rest;
      assert s == Sig(ts[0]) + tail;
      ParseTyOfSig(ts[0], tail);
      ParseFieldsOfSigs(ts[1..], rest);
      assert [ts[0]] + ts[1..] == ts;
    }
  }

  // Signatures concatenate without ambiguity.
  lemma {:induction false} ParseSigOfSigs(ts: seq<Ty>)
    requires AllWellFormed(ts)
    ensures ParseSig(Sigs(ts)) == Some(ts)
  {
    if ts != [] {
      ParseTyOfSig(ts[0], Sigs(ts[1..]));
      ParseSigOfSigs(ts[1..]);
      assert [ts[0]] + ts[1..] == ts;
    }
  }

  // What parses as a type is that type's signature: parsing and printing are inverse.
  lemma {:induction false} SigOfParseTy(s: bytes)
    requires ParseTy(s).Some?
    ensures var (t, rest) := ParseTy(s).value; WellFormed(t) && s == Sig(t) + rest
    decreases |s|, 0
  {
    var (t, rest) := ParseTy(s).value;
    assert s == [s[0]] + s[1..];
    if t.TArray? {
      SigOfParseTy(s[1..]);
      Assoc([s[0]], Sig(t.elem), rest);
    } else if t.TStruct? {
      SigsOfParseFields(s[1..]);
      Assoc([s[0]] + Sigs(t.fields), [')' as u8], rest);
      Assoc([s[0]], Sigs(t.fields) + [')' as u8], rest);
      Assoc([s[0]], Sigs(t.fields), [')' as u8]);
    }
  }

  lemma {:induction false} SigsOfParseFields(s: bytes)
    requires ParseFields(s).Some?
    ensures var (ts, rest) := ParseFields(s).value; AllWellFormed(ts) && s == (Sigs(ts) + [')' as u8]) + rest
    decreases |s|, 1
  {
    if s[0] == ')' as u8 {
      assert s == ([] + [s[0]]) + s[1..];
    } else {
      SigOfParseTy(s);
      var (t, rest) := ParseTy(s).value;
      SigsOfParseFields(rest);
      var (ts, rest') := ParseFields(rest).value;
      assert ([t] + ts)[1..] == ts;
      SigsCons([t] + ts);
      Assoc(Sig(t), Sigs(ts) + [')' as u8], rest');
      Assoc(Sig(t), Sigs(ts), [')' as u8]);
    }
  }

  lemma {:induction false} SigsOfParseSig(s: bytes)
    requires ParseSig(s).Some?
    ensures AllWellFormed(ParseSig(s).value) && Sigs(ParseSig(s).value) == s
    decreases |s|
  {
    if s != [] {
      SigOfParseTy(s);
      var (t, rest) := ParseTy(s).value;
      SigsOfParseSig(rest);
      var ts := ParseSig(rest).value;
      assert ([t] + ts)[1..] == ts;
      SigsCons([t] + ts);
    }
  }

  lemma {:induction false} SigsAppend(a: seq<Ty>, b: seq<Ty>)
    ensures Sigs(a + b) == Sigs(a) + Sigs(b)
  {
    if a == [] {
      assert a + b == b;
    } else {
      var all := a + b;
      SigsAppend(a[1..], b);
      assert all[1..] == a[1..] + b && all[0] == a[0];
      SigsCons(all);
      SigsCons(a);
      Assoc(Sig(a[0]), Sigs(a[1..]), Sigs(b));
    }
  }

  lemma SigsCons(ts: seq<Ty>)
    requires ts != []
    ensures Sigs(ts) == Sig(ts[0]) + Sigs(ts[1..])
  {}

  // ---------------------------------------------------------------------
  // Values
  // ---------------------------------------------------------------------

  datatype Val =
    | VFixed(code: u8, bits: nat)
    | VText(code: u8, text: bytes)
    | VSig(sig: bytes)
    | VVariant(inner: Val)
    | VArray(elem: Ty, items: seq<Val>)
    | VStruct(members: seq<Val>)

  function TypeOf(v: Val): Ty {
    match v
    case VFixed(c, _) => TFixed(c)
    case VText(c, _) => TText(c)
    case VSig(_) => TSig
    case VVariant(_) => TVariant
    case VArray(el, _) => TArray(el)
    case VStruct(vs) => TStruct(TypesOf(vs))
  }

  function TypesOf(vs: seq<Val>): (ts: seq<Ty>)
    ensures |ts| == |vs|
  {
    if vs == [] then [] else [TypeOf(vs[0])] + TypesOf(vs[1..])
  }

  predicate PathChar(b: u8) {
    || 'a' as u8 <= b <= 'z' as u8
    || 'A' as u8 <= b <= 'Z' as u8
    || '0' as u8 <= b <= '9' as u8
    || b == '_' as u8
  }

  // Object paths: "/", or '/'-separated non-empty elements.
  predicate ValidPath(p: bytes) {
    && p != []
    && p[0] == '/' as u8
    && (|p| > 1 ==> p[|p| - 1] != '/' as u8)
    && (forall i :: 0 <= i < |p| ==> p[i] == '/' as u8 || PathChar(p[i]))
    && (forall i :: 0 < i < |p| && p[i] == '/' as u8 ==> p[i - 1] != '/' as u8)
  }

  predicate NoNul(s: bytes) {
    forall i :: 0 <= i < |s| ==> s[i] != 0
  }

  predicate ValidText(code: u8, s: bytes) {
    IsTextCode(code) && NoNul(s) && (code == 'o' as u8 ==> ValidPath(s))
  }

  predicate ValidSig(s: bytes) {
    |s| < 256 && NoNul(s) && ParseSig(s).Some?
  }

  predicate ValidFixed(code: u8, bits: nat) {
    Width(code) > 0 && bits < Pow256(Width(code)) && (code == 'b' as u8 ==> bits <= 1)
  }

  // Values every marshaller accepts.
  predicate Valid(v: Val) {
    match v
    case VFixed(c, n) => ValidFixed(c, n)
    case VText(c, s) => ValidText(c, s)
    case VSig(s) => ValidSig(s)
    case VVariant(w) => Valid(w) && WellFormed(TypeOf(w)) && |Sig(TypeOf(w))| < 256
    case VArray(el, vs) => WellFormed(el) && AllValid(vs) && AllOfType(vs, el)
    case VStruct(vs) => vs != [] && AllValid(vs)
  }

  predicate AllValid(vs: seq<Val>) {
    vs != [] ==> Valid(vs[0]) && AllValid(vs[1..])
  }

  predicate AllOfType(vs: seq<Val>, t: Ty) {
    forall i :: 0 <= i < |vs| ==> TypeOf(vs[i]) == t
  }

  // ---------------------------------------------------------------------
  // Marshalling
  // ---------------------------------------------------------------------

  function Alignment(t: Ty): (a: nat)
    ensures a > 0
  {
    match t
    case TFixed(c) => if Width(c) == 0 then 1 else Width(c)
    case TText(_) => 4
    case TSig => 1
    case TVariant => 1
    case TArray(_) => 4
    case TStruct(_) => 8
  }

  function Zeros(n: nat): (z: bytes)
    ensures |z| == n
  {
    seq(n, _ => 0)
  }

  // Zero bytes up to the next multiple of `a`.
  function Padding(pos: nat, a: nat): bytes
    requires a > 0
  {
    Zeros((a - pos % a) % a)
  }

  function MarshalUInt(e: Endian, n: nat, w: nat, pos: nat): bytes
    requires w > 0
  {
    Padding(pos, w) + EncodeUInt(e, n, w)
  }

  function MarshalSig(s: bytes): bytes {
    [(|s| % 256) as u8] + s + [0]
  }

  function Marshal(e: Endian, v: Val, pos: nat): bytes
    decreases v, 0
  {
    match v
    case VFixed(c, n) => if Width(c) == 0 then [] else MarshalUInt(e, n, Width(c), pos)
    case VText(_, s) => MarshalUInt(e, |s|, 4, pos) + (s + [0])
    case VSig(s) => MarshalSig(s)
    case VVariant(w) =>
      var head := MarshalSig(Sig(TypeOf(w)));
      head + Marshal(e, w, pos + |head|)
    case VArray(el, vs) =>
      var start := ArrayStart(el, pos);
      var body := MarshalAll(e, vs, start);
      var len := MarshalUInt(e, |body|, 4, pos);
      len + Padding(pos + |len|, Alignment(el)) + body
    case VStruct(vs) =>
      var pad := Padding(pos, 8);
      pad + MarshalAll(e, vs, pos + |pad|)
  }

  // Where the first element goes: after the length and the padding of the element type.
  function ArrayStart(el: Ty, pos: nat): nat {
    var p := pos + |Padding(pos, 4)| + 4;
    p + |Padding(p, Alignment(el))|
  }

  function MarshalAll(e: Endian, vs: seq<Val>, pos: nat): bytes
    decreases vs, 1
  {
    if vs == [] then []
    else
      var m := Marshal(e, vs[0], pos);
      m + MarshalAll(e, vs[1..], pos + |m|)
  }

  // ---------------------------------------------------------------------
  // Unmarshalling
  // ---------------------------------------------------------------------

  predicate AllZero(s: bytes) {
    forall i :: 0 <= i < |s| ==> s[i] == 0
  }

  // Step over padding, which has to be zero.
  function SkipPadding(buf: bytes, pos: nat, a: nat): (r: Option<nat>)
    requires a > 0
    ensures r.Some? ==> pos <= r.value <= |buf|
  {
    var p := pos + |Padding(pos, a)|;
    if p <= |buf| && AllZero(buf[pos..p]) then Some(p) else None
  }

  function ReadUInt(e: Endian, buf: bytes, pos: nat, w: nat): (r: Option<(nat, nat)>)
    requires w > 0
    ensures r.Some? ==> pos + w <= r.value.1 <= |buf| && r.value.0 < Pow256(w)
  {
    match SkipPadding(buf, pos, w)
    case None => None
    case Some(p) =>
      if p + w > |buf| then None
      else
        DecodeUIntBound(e, buf[p..p + w]);
        Some((DecodeUInt(e, buf[p..p + w]), p + w))
  }

  // `len` bytes and a NUL.
  function ReadText(buf: bytes, pos: nat, len: nat): (r: Option<(bytes, nat)>)
    ensures r.Some? ==> pos < r.value.1 <= |buf| && |r.value.0| <= |buf|
  {
    if pos + len + 1 > |buf| || buf[pos + len] != 0 then None
    else Some((buf[pos..pos + len], pos + len + 1))
  }

  function ReadSig(buf: bytes, pos: nat): (r: Option<(bytes, nat)>)
    ensures r.Some? ==> pos < r.value.1 <= |buf| && |r.value.0| <= |buf| && ValidSig(r.value.0)
  {
    if pos >= |buf| then None
    else
      match ReadText(buf, pos + 1, buf[pos] as nat)
      case None => None
      case Some((s, p)) => if ValidSig(s) then Some((s, p)) else None
  }

  function Unmarshal(e: Endian, t: Ty, buf: bytes, pos: nat): (r: Option<(Val, nat)>)
    requires pos <= |buf|
    ensures r.Some? ==> pos < r.value.1 <= |buf|
    decreases |buf| - pos, t, 0
  {
    match t
    case TFixed(c) =>
      if Width(c) == 0 then None
      else
        (match ReadUInt(e, buf, pos, Width(c))
         case None => None
         case Some((n, p)) => if ValidFixed(c, n) then Some((VFixed(c, n), p)) else None)
    case TText(c) =>
      (match ReadUInt(e, buf, pos, 4)
       case None => None
       case Some((n, p)) =>
         match ReadText(buf, p, n)
         case None => None
         case Some((s, p')) => if ValidText(c, s) then Some((VText(c, s), p')) else None)
    case TSig =>
      (match ReadSig(buf, pos)
       case None => None
       case Some((s, p)) => Some((VSig(s), p)))
    case TVariant =>
      (match ReadSig(buf, pos)
       case None => None
       case Some((s, p)) =>
         var ts := ParseSig(s).value;
         if |ts| != 1 then None
         else
           match Unmarshal(e, ts[0], buf, p)
           case None => None
           case Some((w, p')) => Some((VVariant(w), p')))
    case TArray(el) =>
      (match ReadUInt(e, buf, pos, 4)
       case None => None
       case Some((n, p)) =>
         match SkipPadding(buf, p, Alignment(el))
         case None => None
         case Some(start) =>
           if start + n > |buf| then None
           else
             match UnmarshalItems(e, el, buf, start, start + n)
             case None => None
             case Some(vs) => Some((VArray(el, vs), start + n)))
    case TStruct(ts) =>
      match SkipPadding(buf, pos, 8)
      case None => None
      case Some(p) =>
        if ts == [] then None
        else
          match UnmarshalAll(e, ts, buf, p)
          case None => None
          case Some((vs, p')) => Some((VStruct(vs), p'))
  }

  // Array elements up to `end`; an element that runs past it is an error.
  function UnmarshalItems(e: Endian, t: Ty, buf: bytes, pos: nat, end: nat): Option<seq<Val>>
    requires pos <= |buf| && end <= |buf|
    decreases |buf| - pos, t, 1
  {
    if pos == end then Some([])
    else if pos > end then None
    else
      match Unmarshal(e, t, buf, pos)
      case None => None
      case Some((v, p)) =>
        match UnmarshalItems(e, t, buf, p, end)
        case None => None
        case Some(vs) => Some([v] + vs)
  }

  lemma UnmarshalItemsStep(e: Endian, t: Ty, buf: bytes, pos: nat, end: nat)
    requires pos <= |buf| && end <= |buf| && pos != end && UnmarshalItems(e, t, buf, pos, end).Some?
    ensures Unmarshal(e, t, buf, pos).Some?
    ensures var (v, p) := Unmarshal(e, t, buf, pos).value;
            && UnmarshalItems(e, t, buf, p, end).Some?
            && UnmarshalItems(e, t, buf, pos, end).value == [v] + UnmarshalItems(e, t, buf, p, end).value
  {}

  // One value of each type in turn.
  function UnmarshalAll(e: Endian, ts: seq<Ty>, buf: bytes, pos: nat): (r: Option<(seq<Val>, nat)>)
    requires pos <= |buf|
    ensures r.Some? ==> pos <= r.value.1 <= |buf| && |r.value.0| == |ts|
    ensures r.Some? && ts != [] ==> pos < r.value.1
    decreases |buf| - pos, ts, 0
  {
    if ts == [] then Some(([], pos))
    else
      match Unmarshal(e, ts[0], buf, pos)
      case None => None
      case Some((v, p)) =>
        match UnmarshalAll(e, ts[1..], buf, p)
        case None => None
        case Some((vs, p')) => Some(([v] + vs, p'))
  }

  // ---------------------------------------------------------------------
  // Round trip
  // ---------------------------------------------------------------------

  ghost predicate At(buf: bytes, pos: nat, m: bytes) {
    pos + |m| <= |buf| && buf[pos..pos + |m|] == m
  }

  lemma AtSplit(buf: bytes, pos: nat, a: bytes, b: bytes)
    requires At(buf, pos, a + b)
    ensures At(buf, pos, a) && At(buf, pos + |a|, b)
  {
    assert buf[pos..pos + |a|] == (a + b)[..|a|];
    assert buf[pos + |a|..pos + |a| + |b|] == (a + b)[|a|..];
  }

  lemma {:induction false} ValidTypes(vs: seq<Val>)
    requires AllValid(vs)
    ensures AllWellFormed(TypesOf(vs))
    decreases vs, 1
  {
    if vs != [] {
      ValidType(vs[0]);
      ValidTypes(vs[1..]);
    }
  }

  lemma {:induction false} ValidType(v: Val)
    requires Valid(v)
    ensures WellFormed(TypeOf(v))
    decreases v, 0
  {
    if v.VStruct? {
      ValidTypes(v.members);
    }
  }

  lemma SkipPaddingAt(buf: bytes, pos: nat, a: nat)
    requires a > 0 && At(buf, pos, Padding(pos, a))
    ensures SkipPadding(buf, pos, a) == Some(pos + |Padding(pos, a)|)
  {}

  lemma ReadUIntAt(e: Endian, buf: bytes, pos: nat, n: nat, w: nat)
    requires w > 0 && n < Pow256(w) && At(buf, pos, MarshalUInt(e, n, w, pos))
    ensures ReadUInt(e, buf, pos, w) == Some((n, pos + |MarshalUInt(e, n, w, pos)|))
  {
    AtSplit(buf, pos, Padding(pos, w), EncodeUInt(e, n, w));
    UIntRoundTrip(e, n, w);
  }

  lemma ReadTextAt(buf: bytes, pos: nat, s: bytes)
    requires At(buf, pos, s + [0])
    ensures ReadText(buf, pos, |s|) == Some((s, pos + |s| + 1))
  {
    AtSplit(buf, pos, s, [0]);
    assert buf[pos + |s|] == buf[pos + |s|..pos + |s| + 1][0];
  }

  lemma ReadSigAt(buf: bytes, pos: nat, s: bytes)
    requires ValidSig(s) && At(buf, pos, MarshalSig(s))
    ensures ReadSig(buf, pos) == Some((s, pos + |MarshalSig(s)|))
  {
    assert MarshalSig(s) == [|s| as u8] + (s + [0]);
    AtSplit(buf, pos, [|s| as u8], s + [0]);
    assert buf[pos] == buf[pos..pos + 1][0];
    ReadTextAt(buf, pos + 1, s);
  }

  // Unmarshalling at the type of a valid value gives the value back and stops where it ends,
  // wherever in a buffer its bytes lie.
  lemma {:induction false} RoundTrip(e: Endian, v: Val, buf: bytes, pos: nat)
    requires Valid(v)
    requires At(buf, pos, Marshal(e, v, pos))
    requires |Marshal(e, v, pos)| < 0x1_0000_0000
    ensures Unmarshal(e, TypeOf(v), buf, pos) == Some((v, pos + |Marshal(e, v, pos)|))
    decreases v, 1
  {
    match v
    case VFixed(_, _) => FixedRoundTrip(e, v, buf, pos);
    case VText(_, _) => TextRoundTrip(e, v, buf, pos);
    case VSig(_) => SigRoundTrip(e, v, buf, pos);
    case VVariant(w) => VariantRoundTrip(e, v, buf, pos);
    case VArray(el, vs) => ArrayRoundTrip(e, v, buf, pos);
    case VStruct(vs) => StructRoundTrip(e, v, buf, pos);
  }

  lemma FixedRoundTrip(e: Endian, v: Val, buf: bytes, pos: nat)
    requires v.VFixed? && Valid(v) && At(buf, pos, Marshal(e, v, pos))
    ensures Unmarshal(e, TypeOf(v), buf, pos) == Some((v, pos + |Marshal(e, v, pos)|))
  {
    ReadUIntAt(e, buf, pos, v.bits, Width(v.code));
  }

  lemma SigRoundTrip(e: Endian, v: Val, buf: bytes, pos: nat)
    requires v.VSig? && Valid(v) && At(buf, pos, Marshal(e, v, pos))
    ensures Unmarshal(e, TypeOf(v), buf, pos) == Some((v, pos + |Marshal(e, v, pos)|))
  {
    ReadSigAt(buf, pos, v.sig);
  }

  lemma TextRoundTrip(e: Endian, v: Val, buf: bytes, pos: nat)
    requires v.VText? && Valid(v) && At(buf, pos, Marshal(e, v, pos))
    requires |Marshal(e, v, pos)| < 0x1_0000_0000
    ensures Unmarshal(e, TypeOf(v), buf, pos) == Some((v, pos + |Marshal(e, v, pos)|))
  {
    var c, s := v.code, v.text;
    var p := pos + |MarshalUInt(e, |s|, 4, pos)|;
    assert v == VText(c, s);
    TextLength(e, c, s, pos);
    TextAt(e, s, buf, pos, p);
    UnmarshalText(e, c, s, buf, pos, p);
  }

  lemma TextLength(e: Endian, c: u8, s: bytes, pos: nat)
    ensures |Marshal(e, VText(c, s), pos)| == |MarshalUInt(e, |s|, 4, pos)| + |s| + 1
  {}

  lemma UnmarshalText(e: Endian, c: u8, s: bytes, buf: bytes, pos: nat, p: nat)
    requires ValidText(c, s) && pos <= p <= |buf|
    requires ReadUInt(e, buf, pos, 4) == Some((|s|, p)) && ReadText(buf, p, |s|) == Some((s, p + |s| + 1))
    ensures Unmarshal(e, TText(c), buf, pos) == Some((VText(c, s), p + |s| + 1))
  {}

  lemma TextAt(e: Endian, s: bytes, buf: bytes, pos: nat, p: nat)
    requires |s| < 0x1_0000_0000 && p == pos + |MarshalUInt(e, |s|, 4, pos)|
    requires At(buf, pos, MarshalUInt(e, |s|, 4, pos) + (s + [0]))
    ensures ReadUInt(e, buf, pos, 4) == Some((|s|, p))
    ensures ReadText(buf, p, |s|) == Some((s, p + |s| + 1))
  {
    AtSplit(buf, pos, MarshalUInt(e, |s|, 4, pos), s + [0]);
    Pow256Small();
    ReadUIntAt(e, buf, pos, |s|, 4);
    ReadTextAt(buf, p, s);
  }

  lemma {:induction false} StructRoundTrip(e: Endian, v: Val, buf: bytes, pos: nat)
    requires v.VStruct? && Valid(v)
    requires At(buf, pos, Marshal(e, v, pos))
    requires |Marshal(e, v, pos)| < 0x1_0000_0000
    ensures Unmarshal(e, TypeOf(v), buf, pos) == Some((v, pos + |Marshal(e, v, pos)|))
    decreases v, 0
  {
    var ts, vs, p := TypesOf(v.members), v.members, pos + |Padding(pos, 8)|;
    var end := p + |MarshalAll(e, vs, p)|;
    StructHeadAt(buf, pos, MarshalAll(e, vs, p));
    AllRoundTrip(e, ts, vs, buf, p, end);
    UnmarshalStruct(e, ts, vs, buf, pos, p, end);
    StructLength(e, vs, pos);
  }

  lemma StructLength(e: Endian, vs: seq<Val>, pos: nat)
    ensures pos + |Marshal(e, VStruct(vs), pos)| ==
            pos + |Padding(pos, 8)| + |MarshalAll(e, vs, pos + |Padding(pos, 8)|)|
  {}

  lemma UnmarshalStruct(e: Endian, ts: seq<Ty>, vs: seq<Val>, buf: bytes, pos: nat, p: nat, end: nat)
    requires pos <= p <= |buf| && ts != [] && SkipPadding(buf, pos, 8) == Some(p)
    requires UnmarshalAll(e, ts, buf, p) == Some((vs, end))
    ensures Unmarshal(e, TStruct(ts), buf, pos) == Some((VStruct(vs), end))
  {}

  lemma StructHeadAt(buf: bytes, pos: nat, body: bytes)
    requires At(buf, pos, Padding(pos, 8) + body)
    ensures SkipPadding(buf, pos, 8) == Some(pos + |Padding(pos, 8)|)
    ensures At(buf, pos + |Padding(pos, 8)|, body)
  {
    AtSplit(buf, pos, Padding(pos, 8), body);
    SkipPaddingAt(buf, pos, 8);
  }

  lemma {:induction false} VariantRoundTrip(e: Endian, v: Val, buf: bytes, pos: nat)
    requires v.VVariant? && Valid(v)
    requires At(buf, pos, Marshal(e, v, pos))
    requires |Marshal(e, v, pos)| < 0x1_0000_0000
    ensures Unmarshal(e, TVariant, buf, pos) == Some((v, pos + |Marshal(e, v, pos)|))
    decreases v, 0
  {
    var w := v.inner;
    var p := pos + |MarshalSig(Sig(TypeOf(w)))|;
    var end := p + |Marshal(e, w, p)|;
    assert v == VVariant(w);
    VariantBytes(e, w, pos);
    VariantInside(TypeOf(w), Marshal(e, w, p), buf, pos, p);
    RoundTrip(e, w, buf, p);
    UnmarshalVariant(e, TypeOf(w), w, buf, pos, p, end);
  }

  lemma VariantInside(t: Ty, body: bytes, buf: bytes, pos: nat, p: nat)
    requires WellFormed(t) && |Sig(t)| < 256 && p == pos + |MarshalSig(Sig(t))|
    requires At(buf, pos, MarshalSig(Sig(t)) + body)
    ensures p <= |buf| && At(buf, p, body)
    ensures ReadSig(buf, pos) == Some((Sig(t), p)) && ParseSig(Sig(t)) == Some([t])
  {
    AtSplit(buf, pos, MarshalSig(Sig(t)), body);
    VariantSig(t);
    ReadSigAt(buf, pos, Sig(t));
  }

  lemma VariantBytes(e: Endian, w: Val, pos: nat)
    ensures var head := MarshalSig(Sig(TypeOf(w)));
            && Marshal(e, VVariant(w), pos) == head + Marshal(e, w, pos + |head|)
            && |Marshal(e, VVariant(w), pos)| == |head| + |Marshal(e, w, pos + |head|)|
  {}

  lemma UnmarshalVariant(e: Endian, t: Ty, w: Val, buf: bytes, pos: nat, p: nat, end: nat)
    requires p <= |buf| && ReadSig(buf, pos) == Some((Sig(t), p)) && ParseSig(Sig(t)) == Some([t])
    requires Unmarshal(e, t, buf, p) == Some((w, end))
    ensures pos <= |buf| && Unmarshal(e, TVariant, buf, pos) == Some((VVariant(w), end))
  {}

  lemma VariantSig(t: Ty)
    requires WellFormed(t)
    ensures ParseSig(Sig(t)) == Some([t]) && NoNul(Sig(t))
  {
    SigNoNul(t);
    SigsCons([t]);
    assert Sigs([t]) == Sig(t);
    assert AllWellFormed([t]);
    ParseSigOfSigs([t]);
  }

  lemma {:induction false} ArrayRoundTrip(e: Endian, v: Val, buf: bytes, pos: nat)
    requires v.VArray? && Valid(v)
    requires At(buf, pos, Marshal(e, v, pos))
    requires |Marshal(e, v, pos)| < 0x1_0000_0000
    ensures Unmarshal(e, TArray(v.elem), buf, pos) == Some((v, pos + |Marshal(e, v, pos)|))
    decreases v, 0
  {
    var el, vs := v.elem, v.items;
    var start := ArrayStart(el, pos);
    var body := MarshalAll(e, vs, start);
    assert v == VArray(el, vs);
    ArrayBytes(e, el, vs, pos);
    ArrayHeadAt(e, el, body, buf, pos);
    ItemsRoundTrip(e, el, vs, buf, start, start + |body|);
    UnmarshalArray(e, el, vs, buf, pos, |body|);
  }

  lemma ArrayBytes(e: Endian, el: Ty, vs: seq<Val>, pos: nat)
    ensures var start := ArrayStart(el, pos);
            var body := MarshalAll(e, vs, start);
            var len := MarshalUInt(e, |body|, 4, pos);
            && Marshal(e, VArray(el, vs), pos) == len + Padding(pos + |len|, Alignment(el)) + body
            && pos + |Marshal(e, VArray(el, vs), pos)| == start + |body|
  {}

  lemma UnmarshalArray(e: Endian, el: Ty, vs: seq<Val>, buf: bytes, pos: nat, n: nat)
    requires pos <= ArrayStart(el, pos) <= ArrayStart(el, pos) + n <= |buf|
    requires var r := ReadUInt(e, buf, pos, 4);
             && r.Some?
             && r.value.0 == n
             && SkipPadding(buf, r.value.1, Alignment(el)) == Some(ArrayStart(el, pos))
    requires UnmarshalItems(e, el, buf, ArrayStart(el, pos), ArrayStart(el, pos) + n) == Some(vs)
    ensures Unmarshal(e, TArray(el), buf, pos) == Some((VArray(el, vs), ArrayStart(el, pos) + n))
  {}

  lemma ArrayHeadAt(e: Endian, el: Ty, body: bytes, buf: bytes, pos: nat)
    requires |body| < 0x1_0000_0000
    requires var len := MarshalUInt(e, |body|, 4, pos);
             At(buf, pos, len + Padding(pos + |len|, Alignment(el)) + body)
    ensures var r := ReadUInt(e, buf, pos, 4);
            && r.Some?
            && r.value.0 == |body|
            && SkipPadding(buf, r.value.1, Alignment(el)) == Some(ArrayStart(el, pos))
            && At(buf, ArrayStart(el, pos), body)
  {
    Pow256Small();
    var p := pos + |Padding(pos, 4)| + 4;
    LengthSize(e, |body|, pos);
    ThreeParts(buf, pos, MarshalUInt(e, |body|, 4, pos), Padding(p, Alignment(el)), body);
    ReadUIntAt(e, buf, pos, |body|, 4);
    PaddedTo(buf, p, Alignment(el), ArrayStart(el, pos), body);
  }

  lemma LengthSize(e: Endian, n: nat, pos: nat)
    ensures |MarshalUInt(e, n, 4, pos)| == |Padding(pos, 4)| + 4
  {}

  lemma PaddedTo(buf: bytes, p: nat, a: nat, start: nat, body: bytes)
    requires a > 0 && At(buf, p, Padding(p, a)) && start == p + |Padding(p, a)| && At(buf, p + |Padding(p, a)|, body)
    ensures SkipPadding(buf, p, a) == Some(start) && At(buf, start, body)
  {
    SkipPaddingAt(buf, p, a);
  }

  lemma ThreeParts(buf: bytes, pos: nat, a: bytes, b: bytes, c: bytes)
    requires At(buf, pos, a + b + c)
    ensures At(buf, pos, a) && At(buf, pos + |a|, b) && At(buf, pos + |a| + |b|, c)
  {
    AtSplit(buf, pos, a + b, c);
    AtSplit(buf, pos, a, b);
  }

  lemma {:induction false} SigNoNul(t: Ty)
    requires WellFormed(t)
    ensures NoNul(Sig(t))
    decreases t, 0
  {
    match t
    case TFixed(_) =>
    case TText(_) =>
    case TSig =>
    case TVariant =>
    case TArray(el) => SigNoNul(el);
    case TStruct(fs) => SigsNoNul(fs);
  }

  lemma {:induction false} SigsNoNul(ts: seq<Ty>)
    requires AllWellFormed(ts)
    ensures NoNul(Sigs(ts))
    decreases ts, 1
  {
    if ts != [] {
      SigNoNul(ts[0]);
      SigsNoNul(ts[1..]);
    }
  }

  // The first value's bytes, then those of the others, from where it ends.
  lemma MarshalAllCons(e: Endian, vs: seq<Val>, buf: bytes, pos: nat) returns (p: nat)
    requires vs != [] && AllValid(vs)
    requires At(buf, pos, MarshalAll(e, vs, pos))
    requires |MarshalAll(e, vs, pos)| < 0x1_0000_0000
    ensures Valid(vs[0]) && AllValid(vs[1..])
    ensures p == pos + |Marshal(e, vs[0], pos)| && p <= |buf|
    ensures pos + |MarshalAll(e, vs, pos)| == p + |MarshalAll(e, vs[1..], p)| <= |buf|
    ensures At(buf, pos, Marshal(e, vs[0], pos)) && |Marshal(e, vs[0], pos)| < 0x1_0000_0000
    ensures At(buf, p, MarshalAll(e, vs[1..], p)) && |MarshalAll(e, vs[1..], p)| < 0x1_0000_0000
  {
    p := pos + |Marshal(e, vs[0], pos)|;
    AtSplit(buf, pos, Marshal(e, vs[0], pos), MarshalAll(e, vs[1..], p));
  }

  lemma {:induction false} ItemsRoundTrip(e: Endian, t: Ty, vs: seq<Val>, buf: bytes, pos: nat, end: nat)
    requires AllValid(vs) && AllOfType(vs, t)
    requires At(buf, pos, MarshalAll(e, vs, pos))
    requires |MarshalAll(e, vs, pos)| < 0x1_0000_0000 && end == pos + |MarshalAll(e, vs, pos)|
    ensures UnmarshalItems(e, t, buf, pos, end) == Some(vs)
    decreases vs, 2
  {
    if vs != [] {
      var p := MarshalAllCons(e, vs, buf, pos);
      TypeOfAll(t, vs);
      RoundTrip(e, vs[0], buf, pos);
      ItemsRoundTrip(e, t, vs[1..], buf, p, end);
      UnmarshalItemsCons(e, t, buf, pos, end, p, vs);
    }
  }

  lemma TypeOfAll(t: Ty, vs: seq<Val>)
    requires AllOfType(vs, t) && vs != []
    ensures TypeOf(vs[0]) == t && AllOfType(vs[1..], t)
  {}

  lemma UnmarshalItemsCons(e: Endian, t: Ty, buf: bytes, pos: nat, end: nat, p: nat, vs: seq<Val>)
    requires pos < p <= end <= |buf| && vs != []
    requires Unmarshal(e, t, buf, pos) == Some((vs[0], p))
    requires UnmarshalItems(e, t, buf, p, end) == Some(vs[1..])
    ensures UnmarshalItems(e, t, buf, pos, end) == Some(vs)
  {
    assert [vs[0]] + vs[1..] == vs;
  }

  lemma UnmarshalAllCons(e: Endian, t: Ty, ts: seq<Ty>, buf: bytes, pos: nat, p: nat, vs: seq<Val>, end: nat)
    requires vs != [] && pos <= |buf| && p <= |buf|
    requires Unmarshal(e, t, buf, pos) == Some((vs[0], p))
    requires UnmarshalAll(e, ts, buf, p) == Some((vs[1..], end))
    ensures UnmarshalAll(e, [t] + ts, buf, pos) == Some((vs, end))
  {
    assert ([t] + ts)[1..] == ts && [vs[0]] + vs[1..] == vs;
  }

  lemma {:induction false} AllRoundTrip(e: Endian, ts: seq<Ty>, vs: seq<Val>, buf: bytes, pos: nat, end: nat)
    requires AllValid(vs)
    requires At(buf, pos, MarshalAll(e, vs, pos))
    requires |MarshalAll(e, vs, pos)| < 0x1_0000_0000
    requires ts == TypesOf(vs) && end == pos + |MarshalAll(e, vs, pos)|
    ensures UnmarshalAll(e, ts, buf, pos) == Some((vs, end))
    decreases vs, 2
  {
    if vs != [] {
      var p := MarshalAllCons(e, vs, buf, pos);
      RoundTrip(e, vs[0], buf, pos);
      AllRoundTrip(e, TypesOf(vs[1..]), vs[1..], buf, p, end);
      UnmarshalAllCons(e, TypeOf(vs[0]), TypesOf(vs[1..]), buf, pos, p, vs, end);
    }
  }
}
