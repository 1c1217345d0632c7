// The SASL handshake scanner: finds where `BEGIN\r\n` ends in the client's byte stream.
//
// `FindBeginEnd` follows the code's loop. The reference it is proved against is a grammar:
// a handshake is a NUL byte, then CRLF-terminated command lines, the last of which is BEGIN.

module Sasl {
  import opened Prelude

  datatype SaslError = MissingNulPrefix | InvalidAuthLine | AuthLineTooLong

  datatype Scan = Incomplete | Found(end: nat) | Failed(error: SaslError)

  const MAX_AUTH_BUFFER: nat := 16 * 1024
  const CR: u8 := 0x0D
  const LF: u8 := 0x0A
  const CRLF: bytes := [CR, LF]
  const BEGIN: bytes := [0x42, 0x45, 0x47, 0x49, 0x4E]

  // Offset of the first CRLF.
  function FindSentinel(s: bytes): (r: Option<nat>)
    ensures r.Some? ==> r.value + 2 <= |s|
  {
    if |s| < 2 then None
    else if s[..2] == CRLF then Some(0)
    else
      match FindSentinel(s[1..])
      case None => None
      case Some(i) => Some(i + 1)
  }

  predicate ValidByte(b: u8) {
    0x20 <= b <= 0x7E
  }

  predicate ValidLine(line: bytes) {
    && line != []
    && 0x41 <= line[0] <= 0x5A
    && forall i :: 0 <= i < |line| ==> ValidByte(line[i])
  }

  predicate IsBeginLine(line: bytes) {
    && |line| >= |BEGIN|
    && line[..|BEGIN|] == BEGIN
    && (|line| == |BEGIN| || line[|BEGIN|] == 0x20 || line[|BEGIN|] == 0x09)
  }

  datatype LineScan = NoBegin | BeginAt(end: nat) | BadLine

  // The line loop, on the bytes after the NUL.
  function ScanLines(lines: bytes): (r: LineScan)
    ensures r.BeginAt? ==> r.end <= |lines|
    decreases |lines|
  {
    match FindSentinel(lines)
    case None => NoBegin
    case Some(rel) =>
      var line, after := lines[..rel], rel + 2;
      if !ValidLine(line) then BadLine
      else if IsBeginLine(line) then BeginAt(after)
      else Shift(ScanLines(lines[after..]), after)
  }

  function Shift(r: LineScan, n: nat): LineScan {
    if r.BeginAt? then BeginAt(n + r.end) else r
  }

  function FindBeginEnd(buf: bytes): (r: Scan)
    ensures r.Found? ==> 0 < r.end <= |buf|
  {
    if buf == [] then Incomplete
    else if buf[0] != 0 then Failed(MissingNulPrefix)
    else
      match ScanLines(buf[1..])
      case BadLine => Failed(InvalidAuthLine)
      case BeginAt(e) => Found(1 + e)
      case NoBegin => if |buf| > MAX_AUTH_BUFFER then Failed(AuthLineTooLong) else Incomplete
  }

  // ---------------------------------------------------------------------
  // The loops of the code
  // ---------------------------------------------------------------------

  method ValidateLine(line: bytes) returns (ok: bool)
    ensures ok == ValidLine(line)
  {
    if line == [] || !(0x41 <= line[0] <= 0x5A) {
      return false;
    }
    for i := 0 to |line|
      invariant forall j :: 0 <= j < i ==> ValidByte(line[j])
    {
      if !ValidByte(line[i]) {
        return false;
      }
    }
    return true;
  }

  lemma ScanOneLine(lines: bytes, offset: nat)
    requires offset <= |lines| && FindSentinel(lines[offset..]).Some?
    ensures var rel := FindSentinel(lines[offset..]).value;
            var line, after := lines[offset..offset + rel], offset + rel + 2;
            Shift(ScanLines(lines[offset..]), offset) ==
              if !ValidLine(line) then BadLine
              else if IsBeginLine(line) then BeginAt(after)
              else Shift(ScanLines(lines[after..]), after)
  {
    var rel := FindSentinel(lines[offset..]).value;
    assert lines[offset..][..rel] == lines[offset..offset + rel];
    assert lines[offset..][rel + 2..] == lines[offset + rel + 2..];
  }

  method ScanForBegin(buf: bytes) returns (r: Scan)
    ensures r == FindBeginEnd(buf)
  {
    if buf == [] {
      return Incomplete;
    }
    if buf[0] != 0 {
      return Failed(MissingNulPrefix);
    }
    var lines := buf[1..];
    var offset := 0;
    var next := FindSentinel(lines[offset..]);
    while next.Some?
      invariant 0 <= offset <= |lines|
      invariant next == FindSentinel(lines[offset..])
      invariant ScanLines(lines) == Shift(ScanLines(lines[offset..]), offset)
      decreases |lines| - offset
    {
      var line := lines[offset..offset + next.value];
      ScanOneLine(lines, offset);
      var ok := ValidateLine(line);
      if !ok {
        return Failed(InvalidAuthLine);
      }
      var afterLine := offset + next.value + 2;
      if IsBeginLine(line) {
        return Found(1 + afterLine);
      }
      offset := afterLine;
      next := FindSentinel(lines[offset..]);
    }
    if |buf| > MAX_AUTH_BUFFER {
      return Failed(AuthLineTooLong);
    }
    return Incomplete;
  }

  // ---------------------------------------------------------------------
  // The grammar
  // ---------------------------------------------------------------------

  function Unlines(ls: seq<bytes>): bytes {
    if ls == [] then [] else ls[0] + CRLF + Unlines(ls[1..])
  }

  // Valid command lines, of which exactly the last is BEGIN.
  ghost predicate HandshakeLines(ls: seq<bytes>) {
    && ls != []
    && (forall i :: 0 <= i < |ls| ==> ValidLine(ls[i]))
    && (forall i :: 0 <= i < |ls| ==> (IsBeginLine(ls[i]) <==> i == |ls| - 1))
  }

  ghost predicate IsHandshake(h: bytes) {
    exists ls :: HandshakeLines(ls) && h == [0] + Unlines(ls)
  }

  lemma {:induction false} SentinelAfterLine(line: bytes, rest: bytes)
    requires forall i :: 0 <= i < |line| ==> ValidByte(line[i])
    ensures FindSentinel(line + CRLF + rest) == Some(|line|)
  {
    var s := line + CRLF + rest;
    if line == [] {
      assert s[..2] == CRLF;
    } else {
      assert s[0] == line[0] && s[..2][0] != CR;
      assert s[1..] == line[1..] + CRLF + rest;
      SentinelAfterLine(line[1..], rest);
    }
  }

  lemma {:induction false} SentinelSplits(s: bytes)
    requires FindSentinel(s).Some?
    ensures var i := FindSentinel(s).value; s == s[..i] + CRLF + s[i + 2..]
  {
    var i := FindSentinel(s).value;
    if s[..2] == CRLF {
      assert s == s[..2] + s[2..];
    } else {
      SentinelSplits(s[1..]);
      var t := s[1..];
      assert s == [s[0]] + t;
      assert t == t[..i - 1] + CRLF + t[i - 1 + 2..];
      assert s[..i] == [s[0]] + t[..i - 1];
      assert s[i + 2..] == t[i + 1..];
    }
  }

  lemma {:induction false} LinesAreFound(ls: seq<bytes>, rest: bytes)
    requires HandshakeLines(ls)
    ensures ScanLines(Unlines(ls) + rest) == BeginAt(|Unlines(ls)|)
  {
    var tail := Unlines(ls[1..]) + rest;
    var s := Unlines(ls) + rest;
    assert s == ls[0] + CRLF + tail;
    SentinelAfterLine(ls[0], tail);
    assert s[..|ls[0]|] == ls[0];
    if |ls| > 1 {
      assert HandshakeLines(ls[1..]);
      LinesAreFound(ls[1..], rest);
      assert s[|ls[0]| + 2..] == tail;
    }
  }

  lemma {:induction false} FoundIsLines(s: bytes) returns (ls: seq<bytes>)
    requires ScanLines(s).BeginAt?
    ensures HandshakeLines(ls) && s[..ScanLines(s).end] == Unlines(ls)
    decreases |s|
  {
    var i := FindSentinel(s).value;
    SentinelSplits(s);
    if IsBeginLine(s[..i]) {
      ls := [s[..i]];
      assert Unlines(ls) == s[..i] + CRLF + Unlines([]);
    } else {
      var rest := s[i + 2..];
      var more := FoundIsLines(rest);
      ls := [s[..i]] + more;
      assert ls[1..] == more;
      assert s[..ScanLines(s).end] == s[..i] + CRLF + rest[..ScanLines(rest).end];
    }
  }

  // `Found(end)` means exactly that `buf[..end]` is a handshake: whatever follows is ignored.
  lemma FoundIffHandshake(buf: bytes, end: nat)
    ensures FindBeginEnd(buf) == Found(end) <==> end <= |buf| && IsHandshake(buf[..end])
  {
    if FindBeginEnd(buf) == Found(end) {
      var ls := FoundIsLines(buf[1..]);
      assert buf[..end] == [buf[0]] + buf[1..][..end - 1];
    }
    if end <= |buf| && IsHandshake(buf[..end]) {
      var ls :| HandshakeLines(ls) && buf[..end] == [0] + Unlines(ls);
      LinesAreFound(ls, buf[end..]);
      assert buf == buf[..end] + buf[end..];
      assert buf[1..] == Unlines(ls) + buf[end..];
      assert buf[0] == buf[..end][0];
    }
  }

  // Valid commands other than BEGIN, then a first line that is not valid.
  ghost predicate BadLineAfter(ls: seq<bytes>, bad: bytes) {
    && (forall i :: 0 <= i < |ls| ==> ValidLine(ls[i]) && !IsBeginLine(ls[i]))
    && FindSentinel(bad + CRLF) == Some(|bad|)
    && !ValidLine(bad)
  }

  ghost predicate IsRejected(h: bytes) {
    exists ls, bad :: BadLineAfter(ls, bad) && h == [0] + (Unlines(ls) + bad + CRLF)
  }

  lemma {:induction false} BadLineIsRejected(ls: seq<bytes>, bad: bytes, rest: bytes)
    requires BadLineAfter(ls, bad)
    ensures ScanLines(Unlines(ls) + bad + CRLF + rest).BadLine?
  {
    var s := Unlines(ls) + bad + CRLF + rest;
    if ls == [] {
      SentinelExtends(bad + CRLF, rest);
      assert s == bad + CRLF + rest && s[..|bad|] == bad;
    } else {
      var tail := Unlines(ls[1..]) + bad + CRLF + rest;
      assert s == ls[0] + CRLF + tail;
      SentinelAfterLine(ls[0], tail);
      assert s[..|ls[0]|] == ls[0] && s[|ls[0]| + 2..] == tail;
      BadLineIsRejected(ls[1..], bad, rest);
    }
  }

  lemma {:induction false} RejectedIsBadLine(s: bytes) returns (ls: seq<bytes>, bad: bytes, n: nat)
    requires ScanLines(s).BadLine?
    ensures BadLineAfter(ls, bad) && n <= |s| && s[..n] == Unlines(ls) + bad + CRLF
    decreases |s|
  {
    var i := FindSentinel(s).value;
    SentinelSplits(s);
    if !ValidLine(s[..i]) {
      ls, bad, n := [], s[..i], i + 2;
      SentinelOfPrefix(s, i + 2);
      assert s[..n] == bad + CRLF;
    } else {
      var more, b, m := RejectedIsBadLine(s[i + 2..]);
      ls, bad, n := [s[..i]] + more, b, i + 2 + m;
      assert ls[1..] == more;
      PrefixThroughLine(s, i, m);
      Assoc(s[..i] + CRLF, Unlines(more), b);
      Assoc(s[..i] + CRLF, Unlines(more) + b, CRLF);
    }
  }

  lemma PrefixThroughLine(s: bytes, i: nat, m: nat)
    requires i + 2 + m <= |s| && s[i..i + 2] == CRLF
    ensures s[..i + 2 + m] == (s[..i] + CRLF) + s[i + 2..][..m]
  {
    assert s[..i + 2] == s[..i] + s[i..i + 2];
  }

  lemma {:induction false} SentinelOfPrefix(s: bytes, n: nat)
    requires FindSentinel(s).Some? && FindSentinel(s).value + 2 <= n <= |s|
    ensures FindSentinel(s[..n]) == FindSentinel(s)
  {
    assert s[..n][..2] == s[..2];
    if s[..2] != CRLF {
      SentinelOfPrefix(s[1..], n - 1);
      assert s[..n][1..] == s[1..][..n - 1];
    }
  }

  lemma RejectedPrefixIsInvalid(buf: bytes, n: nat)
    requires n <= |buf| && IsRejected(buf[..n])
    ensures FindBeginEnd(buf) == Failed(InvalidAuthLine)
  {
    var h := buf[..n];
    var ls, bad :| BadLineAfter(ls, bad) && h == [0] + (Unlines(ls) + bad + CRLF);
    BadLineIsRejected(ls, bad, buf[n..]);
    AfterNul(buf, n, Unlines(ls) + bad + CRLF);
  }

  lemma AfterNul(buf: bytes, n: nat, body: bytes)
    requires n <= |buf| && buf[..n] == [0] + body
    ensures buf[0] == 0 && buf[1..] == body + buf[n..]
  {
    assert buf == buf[..n] + buf[n..];
    assert ([0] + body + buf[n..])[1..] == body + buf[n..];
  }

  lemma InvalidHasRejectedPrefix(buf: bytes) returns (n: nat)
    requires FindBeginEnd(buf) == Failed(InvalidAuthLine)
    ensures n <= |buf| && IsRejected(buf[..n])
  {
    var ls, bad, m := RejectedIsBadLine(buf[1..]);
    n := m + 1;
    assert buf[..n] == [0] + buf[1..][..m];
    assert buf[..n] == [0] + Unlines(ls) + bad + CRLF;
  }

  // The stream is refused as invalid exactly when some prefix of it is a refused one.
  lemma InvalidIffRejected(buf: bytes)
    ensures FindBeginEnd(buf) == Failed(InvalidAuthLine) <==>
            exists n: nat :: n <= |buf| && IsRejected(buf[..n])
  {
    if FindBeginEnd(buf) == Failed(InvalidAuthLine) {
      var n := InvalidHasRejectedPrefix(buf);
    } else if exists n: nat :: n <= |buf| && IsRejected(buf[..n]) {
      var n: nat :| n <= |buf| && IsRejected(buf[..n]);
      RejectedPrefixIsInvalid(buf, n);
    }
  }

  // ---------------------------------------------------------------------
  // Scanning a growing buffer
  // ---------------------------------------------------------------------

  lemma {:induction false} SentinelExtends(s: bytes, more: bytes)
    requires FindSentinel(s).Some?
    ensures FindSentinel(s + more) == FindSentinel(s)
  {
    assert (s + more)[..2] == s[..2];
    if s[..2] != CRLF {
      SentinelExtends(s[1..], more);
      assert (s + more)[1..] == s[1..] + more;
    }
  }

  lemma {:induction false} ScanLinesExtends(s: bytes, more: bytes)
    requires !ScanLines(s).NoBegin?
    ensures ScanLines(s + more) == ScanLines(s)
    decreases |s|
  {
    SentinelExtends(s, more);
    var i := FindSentinel(s).value;
    assert (s + more)[..i] == s[..i];
    if ValidLine(s[..i]) && !IsBeginLine(s[..i]) {
      ScanLinesExtends(s[i + 2..], more);
      assert (s + more)[i + 2..] == s[i + 2..] + more;
    }
  }

  // A verdict other than "incomplete" or "too long" is final.
  lemma ScanExtends(buf: bytes, more: bytes)
    requires !FindBeginEnd(buf).Incomplete? && FindBeginEnd(buf) != Failed(AuthLineTooLong)
    ensures FindBeginEnd(buf + more) == FindBeginEnd(buf)
  {
    assert (buf + more)[1..] == buf[1..] + more;
    if buf[0] == 0 {
      ScanLinesExtends(buf[1..], more);
    }
  }

  // A prefix that is long enough already gives the whole buffer's answer, and a shorter one
  // never sees a bad line: it is merely incomplete unless it already passed the 16 KiB guard.
  lemma ScanOfPrefix(buf: bytes, n: nat)
    requires n <= |buf| && FindBeginEnd(buf).Found?
    ensures FindBeginEnd(buf[..n]) ==
            if n >= FindBeginEnd(buf).end then FindBeginEnd(buf)
            else if n > MAX_AUTH_BUFFER then Failed(AuthLineTooLong)
            else Incomplete
  {
    assert buf == buf[..n] + buf[n..];
    var r, end := FindBeginEnd(buf[..n]), FindBeginEnd(buf).end;
    if n >= end {
      FoundIffHandshake(buf, end);
      assert buf[..n][..end] == buf[..end];
      FoundIffHandshake(buf[..n], end);
    } else if !r.Incomplete? && r != Failed(AuthLineTooLong) {
      ScanExtends(buf[..n], buf[n..]);
    }
  }

  // ---------------------------------------------------------------------
  // Handshakes as clients send them
  // ---------------------------------------------------------------------

  // A command line: a capital letter first, then anything from a space to a tilde.
  lemma ValidLineIff(line: bytes)
    ensures ValidLine(line) <==>
            && line != [] && 'A' as u8 <= line[0] <= 'Z' as u8
            && forall i :: 0 <= i < |line| ==> ' ' as u8 <= line[i] <= '~' as u8
  {
    forall i | 0 <= i < |line| ensures ValidByte(line[i]) <==> ' ' as u8 <= line[i] <= '~' as u8 {}
  }

  // "AUTH EXTERNAL 1", "NEGOTIATE_UNIX_FD" and "BEGIN".
  const AUTH: bytes := [65, 85, 84, 72, 32, 69, 88, 84, 69, 82, 78, 65, 76, 32, 49]
  const NEGOTIATE: bytes := [78, 69, 71, 79, 84, 73, 65, 84, 69, 95, 85, 78, 73, 88, 95, 70, 68]

  // A usual handshake is found, whatever follows it, and ends behind BEGIN's line end.
  lemma UsualHandshake(rest: bytes)
    ensures var h := [0] + (AUTH + [13, 10]) + (NEGOTIATE + [13, 10]) + ([66, 69, 71, 73, 78] + [13, 10]);
            |h| == 44 && FindBeginEnd(h + rest) == Found(44)
  {
    var begin: bytes := [66, 69, 71, 73, 78];
    var ls := [AUTH, NEGOTIATE, begin];
    assert ls[1..] == [NEGOTIATE, begin] && ls[1..][1..] == [begin] && [begin][1..] == [];
    var h := [0] + (AUTH + [13, 10]) + (NEGOTIATE + [13, 10]) + (begin + [13, 10]);
    assert Unlines([begin]) == begin + [13, 10];
    assert Unlines([NEGOTIATE, begin]) == NEGOTIATE + [13, 10] + Unlines([begin]);
    assert Unlines(ls) == AUTH + [13, 10] + Unlines([NEGOTIATE, begin]);
    assert h == [0] + Unlines(ls);
    UsualLines();
    assert (h + rest)[..44] == h;
    FoundIffHandshake(h + rest, 44);
  }

  lemma UsualLines()
    ensures HandshakeLines([AUTH, NEGOTIATE, [66, 69, 71, 73, 78]])
  {
    assert AUTH[..5][0] == 65 && NEGOTIATE[..5][0] == 78 && BEGIN[0] == 66;
    assert ValidLine(AUTH) && ValidLine(NEGOTIATE) && ValidLine(BEGIN) && IsBeginLine(BEGIN);
  }
}
