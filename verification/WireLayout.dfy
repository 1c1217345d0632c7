// The wire format as the D-Bus Specification lays it out, section "Marshaling (Wire Format)":
// where each byte of a value stands. What is written is laid out so, and what is read is exactly
// what is laid out so.

module WireLayout {
  import opened Prelude
  import opened Wire

  // The size of each fixed type, which is also its boundary.
  function SizeOf(code: u8): nat {
    if code == 'y' as u8 then 1                                    // byte
    else if code == 'n' as u8 then 2                               // int16
    else if code == 'q' as u8 then 2                               // uint16
    else if code == 'b' as u8 then 4                               // boolean
    else if code == 'i' as u8 then 4                               // int32
    else if code == 'u' as u8 then 4                               // uint32
    else if code == 'h' as u8 then 4                               // index of a descriptor
    else if code == 'x' as u8 then 8                               // int64
    else if code == 't' as u8 then 8                               // uint64
    else if code == 'd' as u8 then 8                               // double
    else 0
  }

  // A value starts at a multiple of this.
  function Boundary(t: Ty): (b: nat)
    ensures b == 1 || b == 2 || b == 4 || b == 8
  {
    match t
    case TFixed(c) => if SizeOf(c) == 0 then 1 else SizeOf(c)
    case TText(_) => 4      // that of its length
    case TSig => 1          // its length is one byte
    case TVariant => 1      // starts with a signature
    case TArray(_) => 4     // that of its length
    case TStruct(_) => 8    // whatever its first field
  }

  // The first multiple of `n` from `pos` on.
  function Up(pos: nat, n: nat): (p: nat)
    requires n > 0
    ensures p >= pos
  {
    if pos % n == 0 then pos else pos + (n - pos % n)
  }

  predicate Padded(buf: bytes, from: nat, to: nat) {
    from <= to <= |buf| && forall i :: from <= i < to ==> buf[i] == 0
  }

  // `size` bytes that make up `n`: the lowest first, or last.
  predicate NumberAt(e: Endian, buf: bytes, pos: nat, size: nat, n: nat) {
    && pos + size <= |buf|
    && Shifted(n, size) == 0
    && forall i :: 0 <= i < size ==> ByteIs(buf, pos + if e.Little? then i else size - 1 - i, Shifted(n, i) % 256)
  }

  predicate ByteIs(buf: bytes, at: int, b: int)
    requires 0 <= at < |buf|
  {
    buf[at] as int == b
  }

  // The bytes of a string and a NUL.
  predicate TextStands(buf: bytes, pos: nat, s: bytes) {
    pos + |s| + 1 <= |buf| && buf[pos..pos + |s|] == s && buf[pos + |s|] == 0
  }

  // A length byte, the signature and a NUL.
  predicate SigStands(buf: bytes, pos: nat, s: bytes) {
    pos < |buf| && buf[pos] as int == |s| && TextStands(buf, pos + 1, s)
  }

  // Where the elements of an array start; the padding before them is not part of its length.
  function ElementsAt(el: Ty, pos: nat): (start: nat)
    ensures start > pos
  {
    Up(Up(pos, 4) + 4, Boundary(el))
  }

  // Where a value that starts at or after `pos` ends.
  function EndOf(v: Val, pos: nat): (end: nat)
    ensures end >= pos
    decreases v, 0
  {
    match v
    case VFixed(c, _) => Up(pos, Boundary(TFixed(c))) + SizeOf(c)
    case VText(_, s) => Up(pos, 4) + 4 + |s| + 1
    case VSig(s) => pos + 1 + |s| + 1
    case VVariant(w) => EndOf(w, pos + 1 + |Sig(TypeOf(w))| + 1)
    case VArray(el, vs) => EndAll(vs, ElementsAt(el, pos))
    case VStruct(vs) => EndAll(vs, Up(pos, 8))
  }

  function EndAll(vs: seq<Val>, pos: nat): (end: nat)
    ensures end >= pos
    decreases vs, 1
  {
    if vs == [] then pos else EndAll(vs[1..], EndOf(vs[0], pos))
  }

  // The bytes of the buffer from `pos` on are the value, up to `EndOf`.
  predicate LaidOut(e: Endian, v: Val, buf: bytes, pos: nat)
    decreases v, 0
  {
    match v
    case VFixed(c, n) =>
      var p := Up(pos, Boundary(TFixed(c)));
      SizeOf(c) > 0 && Padded(buf, pos, p) && NumberAt(e, buf, p, SizeOf(c), n)
    case VText(_, s) =>
      var p := Up(pos, 4);
      Padded(buf, pos, p) && NumberAt(e, buf, p, 4, |s|) && TextStands(buf, p + 4, s)
    case VSig(s) => SigStands(buf, pos, s)
    case VVariant(w) =>
      var s := Sig(TypeOf(w));
      SigStands(buf, pos, s) && LaidOut(e, w, buf, pos + 1 + |s| + 1)
    case VArray(el, vs) =>
      var p, start := Up(pos, 4), ElementsAt(el, pos);
      && Padded(buf, pos, p) && NumberAt(e, buf, p, 4, EndAll(vs, start) - start)
      && Padded(buf, p + 4, start) && AllLaidOut(e, vs, buf, start)
    case VStruct(vs) =>
      Padded(buf, pos, Up(pos, 8)) && AllLaidOut(e, vs, buf, Up(pos, 8))
  }

  // Values one after the other.
  predicate AllLaidOut(e: Endian, vs: seq<Val>, buf: bytes, pos: nat)
    decreases vs, 1
  {
    vs != [] ==> LaidOut(e, vs[0], buf, pos) && AllLaidOut(e, vs[1..], buf, EndOf(vs[0], pos))
  }

  // ---------------------------------------------------------------------
  // The code's sizes, boundaries and padding
  // ---------------------------------------------------------------------

  lemma WidthIsSize(c: u8)
    ensures Width(c) == SizeOf(c)
  {}

  lemma AlignmentIsBoundary(t: Ty)
    ensures Alignment(t) == Boundary(t)
  {}

  lemma PaddingReaches(pos: nat, n: nat)
    requires n > 0
    ensures pos + |Padding(pos, n)| == Up(pos, n)
  {
    var r := pos % n;
    if r > 0 {
      assert (n - r) % n == n - r;
    }
  }

  lemma SkipPaddingIs(buf: bytes, pos: nat, n: nat)
    requires n > 0
    ensures SkipPadding(buf, pos, n) == if Padded(buf, pos, Up(pos, n)) then Some(Up(pos, n)) else None
  {
    PaddingReaches(pos, n);
    var q := Up(pos, n);
    if q <= |buf| {
      assert AllZero(buf[pos..q]) <==> Padded(buf, pos, q) by {
        assert forall i :: pos <= i < q ==> buf[i] == buf[pos..q][i - pos];
      }
    }
  }

  lemma {:induction false} FitsIff(n: nat, size: nat)
    ensures Shifted(n, size) == 0 <==> n < Pow256(size)
  {
    if size > 0 {
      FitsIff(n / 256, size - 1);
    }
  }

  // Each byte of a buffer is that byte of the number the buffer decodes to.
  lemma {:induction false} ByteOfDecode(e: Endian, b: bytes, i: nat)
    requires i < |b|
    ensures b[if e.Little? then i else |b| - 1 - i] as int == Shifted(DecodeUInt(e, b), i) % 256
  {
    var low, rest := if e.Little? then b[0] else b[|b| - 1], if e.Little? then b[1..] else b[..|b| - 1];
    LowByte(low, DecodeUInt(e, rest));
    if i > 0 {
      ByteOfDecode(e, rest, i - 1);
    }
  }

  lemma LowByte(low: u8, high: nat)
    ensures (low as int + 256 * high) % 256 == low as int && (low as int + 256 * high) / 256 == high
  {}

  // A number stands in the buffer exactly when its bytes decode to it.
  lemma NumberIff(e: Endian, buf: bytes, pos: nat, size: nat, n: nat)
    requires pos + size <= |buf|
    ensures NumberAt(e, buf, pos, size, n) <==> n == DecodeUInt(e, buf[pos..pos + size])
  {
    var b := buf[pos..pos + size];
    FitsIff(n, size);
    if n == DecodeUInt(e, b) {
      DecodeUIntBound(e, b);
      forall i | 0 <= i < size
        ensures ByteIs(buf, pos + if e.Little? then i else size - 1 - i, Shifted(n, i) % 256)
      {
        ByteOfDecode(e, b, i);
      }
    }
    if NumberAt(e, buf, pos, size, n) {
      SameNumber(e, buf, pos, size, n);
      UIntRoundTrip(e, n, size);
    }
  }

  lemma SameNumber(e: Endian, buf: bytes, pos: nat, size: nat, n: nat)
    requires NumberAt(e, buf, pos, size, n)
    ensures buf[pos..pos + size] == EncodeUInt(e, n, size)
  {
    var b := buf[pos..pos + size];
    forall k | 0 <= k < size ensures b[k] == EncodeUInt(e, n, size)[k] {
      var i := if e.Little? then k else size - 1 - k;
      ByteOf(e, n, size, i);
      assert ByteIs(buf, pos + k, Shifted(n, i) % 256);
    }
  }

  lemma ReadUIntIff(e: Endian, buf: bytes, pos: nat, w: nat, n: nat, end: nat)
    requires w > 0
    ensures ReadUInt(e, buf, pos, w) == Some((n, end)) <==>
            && Padded(buf, pos, Up(pos, w)) && NumberAt(e, buf, Up(pos, w), w, n) && end == Up(pos, w) + w
  {
    var p := Up(pos, w);
    SkipPaddingIs(buf, pos, w);
    if Padded(buf, pos, p) {
      ReadUIntFrom(e, buf, pos, w, p);
      if p + w <= |buf| {
        NumberIff(e, buf, p, w, n);
      }
    }
  }

  lemma ReadUIntFrom(e: Endian, buf: bytes, pos: nat, w: nat, p: nat)
    requires w > 0 && p <= |buf| && SkipPadding(buf, pos, w) == Some(p)
    ensures ReadUInt(e, buf, pos, w) ==
            if p + w <= |buf| then Some((DecodeUInt(e, buf[p..p + w]), p + w)) else None
  {}

  lemma ReadTextIff(buf: bytes, pos: nat, s: bytes, end: nat)
    ensures ReadText(buf, pos, |s|) == Some((s, end)) <==> TextStands(buf, pos, s) && end == pos + |s| + 1
  {}

  lemma ReadSigIff(buf: bytes, pos: nat, s: bytes, end: nat)
    ensures ReadSig(buf, pos) == Some((s, end)) <==>
            ValidSig(s) && SigStands(buf, pos, s) && end == pos + 1 + |s| + 1
  {}

  // ---------------------------------------------------------------------
  // What is read
  // ---------------------------------------------------------------------

  lemma {:induction false} LaidOutInside(e: Endian, v: Val, buf: bytes, pos: nat)
    requires LaidOut(e, v, buf, pos)
    ensures EndOf(v, pos) <= |buf| && (Valid(v) ==> pos < EndOf(v, pos))
    decreases v, 0
  {
    match v
    case VFixed(_, _) =>
    case VText(_, _) =>
    case VSig(_) =>
    case VVariant(w) => LaidOutInside(e, w, buf, pos + 1 + |Sig(TypeOf(w))| + 1);
    case VArray(el, vs) => AllLaidOutInside(e, vs, buf, ElementsAt(el, pos));
    case VStruct(vs) => AllLaidOutInside(e, vs, buf, Up(pos, 8));
  }

  lemma {:induction false} AllLaidOutInside(e: Endian, vs: seq<Val>, buf: bytes, pos: nat)
    requires AllLaidOut(e, vs, buf, pos) && pos <= |buf|
    ensures EndAll(vs, pos) <= |buf| && (AllValid(vs) && vs != [] ==> pos < EndAll(vs, pos))
    decreases vs, 1
  {
    if vs != [] {
      LaidOutInside(e, vs[0], buf, pos);
      AllLaidOutInside(e, vs[1..], buf, EndOf(vs[0], pos));
    }
  }

  // What was read is the value that is laid out there.
  predicate Stands(e: Endian, t: Ty, buf: bytes, pos: nat, r: (Val, nat)) {
    Valid(r.0) && TypeOf(r.0) == t && LaidOut(e, r.0, buf, pos) && r.1 == EndOf(r.0, pos)
  }

  // The reader gives a value of the type only where one is laid out.
  lemma {:induction false} ReadIsLaidOut(e: Endian, t: Ty, buf: bytes, pos: nat)
    requires WellFormed(t) && pos <= |buf| && Unmarshal(e, t, buf, pos).Some?
    ensures Stands(e, t, buf, pos, Unmarshal(e, t, buf, pos).value)
    decreases |buf| - pos, t, 0
  {
    match t
    case TFixed(c) => ReadFixed(e, c, buf, pos);
    case TText(c) => ReadString(e, c, buf, pos);
    case TSig =>
      var (s, end) := ReadSig(buf, pos).value;
      ReadSigIff(buf, pos, s, end);
    case TVariant =>
      var (s, p) := ReadSig(buf, pos).value;
      var inner := ParseSig(s).value[0];
      VariantType(s);
      ReadIsLaidOut(e, inner, buf, p);
      ReadVariant(e, buf, pos, s, p, inner);
    case TArray(el) =>
      var start, n := ReadArrayHead(e, el, buf, pos);
      ItemsAreLaidOut(e, el, buf, start, start + n);
      ReadArray(e, el, buf, pos, start, n);
    case TStruct(ts) =>
      var p := SkipPadding(buf, pos, 8).value;
      AllReadLaidOut(e, ts, buf, p);
      ReadStruct(e, ts, buf, pos, p);
  }

  lemma ReadVariant(e: Endian, buf: bytes, pos: nat, s: bytes, p: nat, inner: Ty)
    requires pos <= |buf| && ReadSig(buf, pos) == Some((s, p)) && Sig(inner) == s
    requires WellFormed(inner) && Unmarshal(e, inner, buf, p).Some?
    requires Stands(e, inner, buf, p, Unmarshal(e, inner, buf, p).value)
    ensures Unmarshal(e, TVariant, buf, pos).Some?
    ensures Stands(e, TVariant, buf, pos, Unmarshal(e, TVariant, buf, pos).value)
  {
    var (w, end) := Unmarshal(e, inner, buf, p).value;
    ReadSigIff(buf, pos, s, p);
    VariantSig(inner);
    UnmarshalVariant(e, inner, w, buf, pos, p, end);
    VariantStands(e, w, buf, pos, s, p, end);
  }

  lemma VariantStands(e: Endian, w: Val, buf: bytes, pos: nat, s: bytes, p: nat, end: nat)
    requires ValidSig(s) && SigStands(buf, pos, s) && p == pos + 1 + |s| + 1 && s == Sig(TypeOf(w))
    requires WellFormed(TypeOf(w)) && Stands(e, TypeOf(w), buf, p, (w, end))
    ensures Stands(e, TVariant, buf, pos, (VVariant(w), end))
  {}

  // The length and the padding in front of the elements.
  lemma ReadArrayHead(e: Endian, el: Ty, buf: bytes, pos: nat) returns (start: nat, n: nat)
    requires pos <= |buf| && Unmarshal(e, TArray(el), buf, pos).Some?
    ensures start == ElementsAt(el, pos) && start + n <= |buf|
    ensures Padded(buf, pos, Up(pos, 4)) && NumberAt(e, buf, Up(pos, 4), 4, n) && Padded(buf, Up(pos, 4) + 4, start)
    ensures UnmarshalItems(e, el, buf, start, start + n).Some?
    ensures Unmarshal(e, TArray(el), buf, pos).value ==
            (VArray(el, UnmarshalItems(e, el, buf, start, start + n).value), start + n)
  {
    var (m, p) := ReadUInt(e, buf, pos, 4).value;
    n, start := m, SkipPadding(buf, p, Alignment(el)).value;
    ReadUIntIff(e, buf, pos, 4, n, p);
    AlignmentIsBoundary(el);
    SkipPaddingIs(buf, p, Alignment(el));
  }

  lemma ReadArray(e: Endian, el: Ty, buf: bytes, pos: nat, start: nat, n: nat)
    requires WellFormed(el) && pos <= |buf| && start == ElementsAt(el, pos) && start + n <= |buf|
    requires Padded(buf, pos, Up(pos, 4)) && NumberAt(e, buf, Up(pos, 4), 4, n) && Padded(buf, Up(pos, 4) + 4, start)
    requires UnmarshalItems(e, el, buf, start, start + n).Some?
    requires var vs := UnmarshalItems(e, el, buf, start, start + n).value;
             AllValid(vs) && AllOfType(vs, el) && AllLaidOut(e, vs, buf, start) && start + n == EndAll(vs, start)
    ensures Stands(e, TArray(el), buf, pos,
                   (VArray(el, UnmarshalItems(e, el, buf, start, start + n).value), start + n))
  {}

  lemma ReadStruct(e: Endian, ts: seq<Ty>, buf: bytes, pos: nat, p: nat)
    requires pos <= p <= |buf| && ts != [] && SkipPadding(buf, pos, 8) == Some(p) && UnmarshalAll(e, ts, buf, p).Some?
    requires var (vs, end) := UnmarshalAll(e, ts, buf, p).value;
             AllValid(vs) && TypesOf(vs) == ts && AllLaidOut(e, vs, buf, p) && end == EndAll(vs, p)
    ensures Unmarshal(e, TStruct(ts), buf, pos).Some?
    ensures Stands(e, TStruct(ts), buf, pos, Unmarshal(e, TStruct(ts), buf, pos).value)
  {
    SkipPaddingIs(buf, pos, 8);
  }

  lemma ReadFixed(e: Endian, c: u8, buf: bytes, pos: nat)
    requires pos <= |buf| && Unmarshal(e, TFixed(c), buf, pos).Some?
    ensures Stands(e, TFixed(c), buf, pos, Unmarshal(e, TFixed(c), buf, pos).value)
  {
    WidthIsSize(c);
    var (n, end) := ReadUInt(e, buf, pos, Width(c)).value;
    ReadUIntIff(e, buf, pos, Width(c), n, end);
  }

  lemma ReadString(e: Endian, c: u8, buf: bytes, pos: nat)
    requires pos <= |buf| && Unmarshal(e, TText(c), buf, pos).Some?
    ensures Stands(e, TText(c), buf, pos, Unmarshal(e, TText(c), buf, pos).value)
  {
    var (n, p) := ReadUInt(e, buf, pos, 4).value;
    var (s, end) := ReadText(buf, p, n).value;
    ReadUIntIff(e, buf, pos, 4, n, p);
    ReadTextIff(buf, p, s, end);
  }

  lemma VariantType(s: bytes)
    requires ParseSig(s).Some? && |ParseSig(s).value| == 1
    ensures WellFormed(ParseSig(s).value[0]) && Sig(ParseSig(s).value[0]) == s
  {
    SigsOfParseSig(s);
    SigsCons(ParseSig(s).value);
  }

  lemma {:induction false} ItemsAreLaidOut(e: Endian, t: Ty, buf: bytes, pos: nat, end: nat)
    requires WellFormed(t) && pos <= |buf| && end <= |buf| && UnmarshalItems(e, t, buf, pos, end).Some?
    ensures var vs := UnmarshalItems(e, t, buf, pos, end).value;
            AllValid(vs) && AllOfType(vs, t) && AllLaidOut(e, vs, buf, pos) && end == EndAll(vs, pos)
    decreases |buf| - pos, t, 1
  {
    if pos != end {
      var (v, p) := Unmarshal(e, t, buf, pos).value;
      var vs := UnmarshalItems(e, t, buf, p, end).value;
      ReadIsLaidOut(e, t, buf, pos);
      ItemsAreLaidOut(e, t, buf, p, end);
      assert ([v] + vs)[1..] == vs;
    }
  }

  lemma {:induction false} AllReadLaidOut(e: Endian, ts: seq<Ty>, buf: bytes, pos: nat)
    requires AllWellFormed(ts) && pos <= |buf| && UnmarshalAll(e, ts, buf, pos).Some?
    ensures var (vs, end) := UnmarshalAll(e, ts, buf, pos).value;
            AllValid(vs) && TypesOf(vs) == ts && AllLaidOut(e, vs, buf, pos) && end == EndAll(vs, pos)
    decreases |buf| - pos, ts, 0
  {
    if ts != [] {
      var (v, p) := Unmarshal(e, ts[0], buf, pos).value;
      var (vs, end) := UnmarshalAll(e, ts[1..], buf, p).value;
      ReadIsLaidOut(e, ts[0], buf, pos);
      AllReadLaidOut(e, ts[1..], buf, p);
      assert ([v] + vs)[1..] == vs;
      assert [ts[0]] + ts[1..] == ts;
    }
  }

  // And wherever a valid value is laid out, the reader gives it.
  lemma {:induction false} LaidOutIsRead(e: Endian, v: Val, buf: bytes, pos: nat)
    requires Valid(v) && LaidOut(e, v, buf, pos)
    ensures pos <= |buf| && Unmarshal(e, TypeOf(v), buf, pos) == Some((v, EndOf(v, pos)))
    decreases v, 0
  {
    match v
    case VFixed(c, n) => FixedIsRead(e, v, buf, pos);
    case VText(c, s) => TextIsRead(e, v, buf, pos);
    case VSig(s) => ReadSigIff(buf, pos, s, EndOf(v, pos));
    case VVariant(w) =>
      LaidOutIsRead(e, w, buf, pos + 1 + |Sig(TypeOf(w))| + 1);
      VariantIsRead(e, v, buf, pos);
    case VArray(el, vs) =>
      AllLaidOutInside(e, vs, buf, ElementsAt(el, pos));
      ItemsAreRead(e, el, vs, buf, ElementsAt(el, pos));
      ArrayIsRead(e, v, buf, pos);
    case VStruct(vs) =>
      AllLaidOutRead(e, vs, buf, Up(pos, 8));
      SkipPaddingIs(buf, pos, 8);
      UnmarshalStruct(e, TypesOf(vs), vs, buf, pos, Up(pos, 8), EndOf(v, pos));
  }

  lemma FixedIsRead(e: Endian, v: Val, buf: bytes, pos: nat)
    requires v.VFixed? && Valid(v) && LaidOut(e, v, buf, pos)
    ensures pos <= |buf| && Unmarshal(e, TypeOf(v), buf, pos) == Some((v, EndOf(v, pos)))
  {
    WidthIsSize(v.code);
    ReadUIntIff(e, buf, pos, Width(v.code), v.bits, EndOf(v, pos));
  }

  lemma TextIsRead(e: Endian, v: Val, buf: bytes, pos: nat)
    requires v.VText? && Valid(v) && LaidOut(e, v, buf, pos)
    ensures pos <= |buf| && Unmarshal(e, TypeOf(v), buf, pos) == Some((v, EndOf(v, pos)))
  {
    var s, p := v.text, Up(pos, 4) + 4;
    ReadUIntIff(e, buf, pos, 4, |s|, p);
    ReadTextIff(buf, p, s, EndOf(v, pos));
    UnmarshalText(e, v.code, s, buf, pos, p);
  }

  lemma VariantIsRead(e: Endian, v: Val, buf: bytes, pos: nat)
    requires v.VVariant? && Valid(v) && LaidOut(e, v, buf, pos)
    requires var p := pos + 1 + |Sig(TypeOf(v.inner))| + 1;
             p <= |buf| && Unmarshal(e, TypeOf(v.inner), buf, p) == Some((v.inner, EndOf(v.inner, p)))
    ensures pos <= |buf| && Unmarshal(e, TypeOf(v), buf, pos) == Some((v, EndOf(v, pos)))
  {
    var t := TypeOf(v.inner);
    var p := pos + 1 + |Sig(t)| + 1;
    VariantSig(t);
    ReadSigIff(buf, pos, Sig(t), p);
    UnmarshalVariant(e, t, v.inner, buf, pos, p, EndOf(v.inner, p));
  }

  lemma ArrayIsRead(e: Endian, v: Val, buf: bytes, pos: nat)
    requires v.VArray? && Valid(v) && LaidOut(e, v, buf, pos)
    requires var start := ElementsAt(v.elem, pos);
             && EndAll(v.items, start) <= |buf|
             && UnmarshalItems(e, v.elem, buf, start, EndAll(v.items, start)) == Some(v.items)
    ensures pos <= |buf| && Unmarshal(e, TypeOf(v), buf, pos) == Some((v, EndOf(v, pos)))
  {
    var p, start := Up(pos, 4) + 4, ElementsAt(v.elem, pos);
    ReadUIntIff(e, buf, pos, 4, EndAll(v.items, start) - start, p);
    AlignmentIsBoundary(v.elem);
    SkipPaddingIs(buf, p, Alignment(v.elem));
    StartsThere(v.elem, pos);
    UnmarshalArray(e, v.elem, v.items, buf, pos, EndAll(v.items, start) - start);
  }

  lemma StartsThere(el: Ty, pos: nat)
    ensures ArrayStart(el, pos) == ElementsAt(el, pos)
  {
    PaddingReaches(pos, 4);
    AlignmentIsBoundary(el);
    PaddingReaches(Up(pos, 4) + 4, Alignment(el));
  }

  lemma {:induction false} ItemsAreRead(e: Endian, t: Ty, vs: seq<Val>, buf: bytes, pos: nat)
    requires AllValid(vs) && AllOfType(vs, t) && AllLaidOut(e, vs, buf, pos) && pos <= |buf|
    ensures EndAll(vs, pos) <= |buf| && UnmarshalItems(e, t, buf, pos, EndAll(vs, pos)) == Some(vs)
    decreases vs, 1
  {
    AllLaidOutInside(e, vs, buf, pos);
    if vs != [] {
      TypeOfAll(t, vs);
      LaidOutIsRead(e, vs[0], buf, pos);
      ItemsAreRead(e, t, vs[1..], buf, EndOf(vs[0], pos));
      UnmarshalItemsCons(e, t, buf, pos, EndAll(vs, pos), EndOf(vs[0], pos), vs);
    }
  }

  lemma {:induction false} AllLaidOutRead(e: Endian, vs: seq<Val>, buf: bytes, pos: nat)
    requires AllValid(vs) && AllLaidOut(e, vs, buf, pos) && pos <= |buf|
    ensures UnmarshalAll(e, TypesOf(vs), buf, pos) == Some((vs, EndAll(vs, pos)))
    decreases vs, 1
  {
    if vs != [] {
      var ts := TypesOf(vs);
      assert ts[0] == TypeOf(vs[0]) && ts[1..] == TypesOf(vs[1..]);
      LaidOutIsRead(e, vs[0], buf, pos);
      AllLaidOutRead(e, vs[1..], buf, EndOf(vs[0], pos));
      assert [vs[0]] + vs[1..] == vs;
    }
  }

  // Reading a type gives a value and where it ends exactly when that value is valid, of the type,
  // laid out there, and ends there.
  lemma ReaderIff(e: Endian, t: Ty, buf: bytes, pos: nat, v: Val, end: nat)
    requires WellFormed(t) && pos <= |buf|
    ensures Unmarshal(e, t, buf, pos) == Some((v, end)) <==> Stands(e, t, buf, pos, (v, end))
  {
    if Unmarshal(e, t, buf, pos) == Some((v, end)) {
      ReadIsLaidOut(e, t, buf, pos);
    }
    if Stands(e, t, buf, pos, (v, end)) {
      LaidOutIsRead(e, v, buf, pos);
    }
  }

  // ---------------------------------------------------------------------
  // What is written
  // ---------------------------------------------------------------------

  lemma {:induction false} EndIsLength(e: Endian, v: Val, pos: nat)
    requires Valid(v)
    ensures EndOf(v, pos) == pos + |Marshal(e, v, pos)|
    decreases v, 0
  {
    match v
    case VFixed(_, _) => LeafEnd(e, v, pos);
    case VText(_, _) => LeafEnd(e, v, pos);
    case VSig(_) => LeafEnd(e, v, pos);
    case VVariant(w) =>
      EndIsLength(e, w, pos + 1 + |Sig(TypeOf(w))| + 1);
      VariantEnd(e, v, pos);
    case VArray(el, vs) =>
      AllEndIsLength(e, vs, ElementsAt(el, pos));
      StartsThere(el, pos);
      ArrayBytes(e, el, vs, pos);
    case VStruct(vs) =>
      AllEndIsLength(e, vs, Up(pos, 8));
      PaddingReaches(pos, 8);
      StructLength(e, vs, pos);
  }

  lemma LeafEnd(e: Endian, v: Val, pos: nat)
    requires Valid(v) && (v.VFixed? || v.VText? || v.VSig?)
    ensures EndOf(v, pos) == pos + |Marshal(e, v, pos)|
  {
    match v
    case VFixed(c, _) =>
      WidthIsSize(c);
      PaddingReaches(pos, Width(c));
    case VText(_, _) => PaddingReaches(pos, 4);
    case VSig(_) =>
  }

  lemma VariantEnd(e: Endian, v: Val, pos: nat)
    requires v.VVariant?
    requires var p := pos + 1 + |Sig(TypeOf(v.inner))| + 1; EndOf(v.inner, p) == p + |Marshal(e, v.inner, p)|
    ensures EndOf(v, pos) == pos + |Marshal(e, v, pos)|
  {
    VariantBytes(e, v.inner, pos);
  }

  lemma {:induction false} AllEndIsLength(e: Endian, vs: seq<Val>, pos: nat)
    requires AllValid(vs)
    ensures EndAll(vs, pos) == pos + |MarshalAll(e, vs, pos)|
    decreases vs, 1
  {
    if vs != [] {
      EndIsLength(e, vs[0], pos);
      AllEndIsLength(e, vs[1..], EndOf(vs[0], pos));
    }
  }

  predicate Agree(a: bytes, b: bytes, from: nat, to: nat) {
    from <= to <= |a| && to <= |b| && forall i :: from <= i < to ==> a[i] == b[i]
  }

  lemma NumbersAgree(e: Endian, a: bytes, b: bytes, pos: nat, size: nat, n: nat)
    requires NumberAt(e, a, pos, size, n) && NumberAt(e, b, pos, size, n)
    ensures Agree(a, b, pos, pos + size)
  {
    SameNumber(e, a, pos, size, n);
    SameNumber(e, b, pos, size, n);
    SlicesAgree(a, b, pos, pos + size);
  }

  lemma SlicesAgree(a: bytes, b: bytes, from: nat, to: nat)
    requires from <= to <= |a| && to <= |b| && a[from..to] == b[from..to]
    ensures Agree(a, b, from, to)
  {
    forall i | from <= i < to ensures a[i] == b[i] {
      assert a[i] == a[from..to][i - from] && b[i] == b[from..to][i - from];
    }
  }

  lemma TextsAgree(a: bytes, b: bytes, pos: nat, s: bytes)
    requires TextStands(a, pos, s) && TextStands(b, pos, s)
    ensures Agree(a, b, pos, pos + |s| + 1)
  {
    SlicesAgree(a, b, pos, pos + |s|);
  }

  // A value can be laid out in one way only.
  lemma {:induction false} LayoutIsUnique(e: Endian, v: Val, a: bytes, b: bytes, pos: nat)
    requires LaidOut(e, v, a, pos) && LaidOut(e, v, b, pos)
    ensures Agree(a, b, pos, EndOf(v, pos))
    decreases v, 0
  {
    match v
    case VFixed(_, _) => LeafIsUnique(e, v, a, b, pos);
    case VText(_, _) => LeafIsUnique(e, v, a, b, pos);
    case VSig(_) => LeafIsUnique(e, v, a, b, pos);
    case VVariant(w) =>
      LayoutIsUnique(e, w, a, b, pos + 1 + |Sig(TypeOf(w))| + 1);
      VariantIsUnique(e, v, a, b, pos);
    case VArray(el, vs) =>
      ElementsStand(e, v, a, pos);
      ElementsStand(e, v, b, pos);
      AllLayoutIsUnique(e, vs, a, b, ElementsAt(el, pos));
      ArrayIsUnique(e, v, a, b, pos);
    case VStruct(vs) =>
      AllLayoutIsUnique(e, vs, a, b, Up(pos, 8));
      StructIsUnique(e, v, a, b, pos);
  }

  lemma ElementsStand(e: Endian, v: Val, buf: bytes, pos: nat)
    requires v.VArray? && LaidOut(e, v, buf, pos)
    ensures var start := ElementsAt(v.elem, pos);
            start <= |buf| && AllLaidOut(e, v.items, buf, start) && EndOf(v, pos) == EndAll(v.items, start)
  {}

  lemma StructIsUnique(e: Endian, v: Val, a: bytes, b: bytes, pos: nat)
    requires v.VStruct? && LaidOut(e, v, a, pos) && LaidOut(e, v, b, pos)
    requires Agree(a, b, Up(pos, 8), EndOf(v, pos))
    ensures Agree(a, b, pos, EndOf(v, pos))
  {}

  lemma LeafIsUnique(e: Endian, v: Val, a: bytes, b: bytes, pos: nat)
    requires v.VFixed? || v.VText? || v.VSig?
    requires LaidOut(e, v, a, pos) && LaidOut(e, v, b, pos)
    ensures Agree(a, b, pos, EndOf(v, pos))
  {
    match v
    case VFixed(c, n) => NumbersAgree(e, a, b, Up(pos, Boundary(TFixed(c))), SizeOf(c), n);
    case VText(_, s) =>
      NumbersAgree(e, a, b, Up(pos, 4), 4, |s|);
      TextsAgree(a, b, Up(pos, 4) + 4, s);
    case VSig(s) => TextsAgree(a, b, pos + 1, s);
  }

  lemma VariantIsUnique(e: Endian, v: Val, a: bytes, b: bytes, pos: nat)
    requires v.VVariant? && LaidOut(e, v, a, pos) && LaidOut(e, v, b, pos)
    requires Agree(a, b, pos + 1 + |Sig(TypeOf(v.inner))| + 1, EndOf(v, pos))
    ensures Agree(a, b, pos, EndOf(v, pos))
  {
    TextsAgree(a, b, pos + 1, Sig(TypeOf(v.inner)));
  }

  lemma ArrayIsUnique(e: Endian, v: Val, a: bytes, b: bytes, pos: nat)
    requires v.VArray? && LaidOut(e, v, a, pos) && LaidOut(e, v, b, pos)
    requires Agree(a, b, ElementsAt(v.elem, pos), EndOf(v, pos))
    ensures Agree(a, b, pos, EndOf(v, pos))
  {
    var p, start := Up(pos, 4), ElementsAt(v.elem, pos);
    NumbersAgree(e, a, b, p, 4, EndAll(v.items, start) - start);
    assert Agree(a, b, pos, p) && Agree(a, b, p + 4, start);
  }

  lemma {:induction false} AllLayoutIsUnique(e: Endian, vs: seq<Val>, a: bytes, b: bytes, pos: nat)
    requires AllLaidOut(e, vs, a, pos) && AllLaidOut(e, vs, b, pos) && pos <= |a| && pos <= |b|
    ensures Agree(a, b, pos, EndAll(vs, pos))
    decreases vs, 1
  {
    if vs != [] {
      LayoutIsUnique(e, vs[0], a, b, pos);
      AllLayoutIsUnique(e, vs[1..], a, b, EndOf(vs[0], pos));
    }
  }

  // The writer's bytes are the layout: a value is laid out in a buffer exactly when its marshalled
  // bytes stand there.
  lemma WriterIff(e: Endian, v: Val, buf: bytes, pos: nat)
    requires Valid(v) && |Marshal(e, v, pos)| < 0x1_0000_0000
    ensures LaidOut(e, v, buf, pos) <==> At(buf, pos, Marshal(e, v, pos))
    ensures EndOf(v, pos) == pos + |Marshal(e, v, pos)|
  {
    EndIsLength(e, v, pos);
    if At(buf, pos, Marshal(e, v, pos)) {
      WrittenIsLaidOut(e, v, buf, pos);
    }
    if LaidOut(e, v, buf, pos) {
      var written := Zeros(pos) + Marshal(e, v, pos);
      AfterZeros(pos, Marshal(e, v, pos));
      WrittenIsLaidOut(e, v, written, pos);
      LayoutIsUnique(e, v, buf, written, pos);
      AgreeSlices(buf, written, pos, EndOf(v, pos));
    }
  }

  lemma WrittenIsLaidOut(e: Endian, v: Val, buf: bytes, pos: nat)
    requires Valid(v) && |Marshal(e, v, pos)| < 0x1_0000_0000 && At(buf, pos, Marshal(e, v, pos))
    ensures LaidOut(e, v, buf, pos)
  {
    ValidType(v);
    RoundTrip(e, v, buf, pos);
    ReadIsLaidOut(e, TypeOf(v), buf, pos);
  }

  lemma AfterZeros(pos: nat, m: bytes)
    ensures At(Zeros(pos) + m, pos, m)
  {}

  lemma AgreeSlices(a: bytes, b: bytes, from: nat, to: nat)
    requires Agree(a, b, from, to)
    ensures a[from..to] == b[from..to]
  {}

  // The same for the arguments of a whole body.
  lemma BodyIff(e: Endian, vs: seq<Val>, body: bytes)
    requires AllValid(vs) && |MarshalAll(e, vs, 0)| < 0x1_0000_0000
    ensures AllLaidOut(e, vs, body, 0) && EndAll(vs, 0) == |body| <==> body == MarshalAll(e, vs, 0)
    ensures AllLaidOut(e, vs, body, 0) ==> UnmarshalAll(e, TypesOf(vs), body, 0) == Some((vs, EndAll(vs, 0)))
  {
    var m := MarshalAll(e, vs, 0);
    AllEndIsLength(e, vs, 0);
    assert At(m, 0, m);
    AllRoundTrip(e, TypesOf(vs), vs, m, 0, |m|);
    ValidTypes(vs);
    AllReadLaidOut(e, TypesOf(vs), m, 0);
    if AllLaidOut(e, vs, body, 0) {
      AllLaidOutRead(e, vs, body, 0);
      AllLayoutIsUnique(e, vs, body, m, 0);
      AgreeSlices(body, m, 0, |m|);
    }
  }
}
