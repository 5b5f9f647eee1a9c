/** Rust's text operations on bytes: UTF-8 validation and repair, lines, trimming, splitting. */
module Text {
  import opened Net

  type byte = b: int | 0 <= b < 256

  type Bytes = seq<byte>

  const CR: byte := 13
  const LF: byte := 10
  const COLON: byte := 58

  /** The bytes of a literal of printable ASCII and spaces. */
  function Ascii(s: string): (b: Bytes)
    requires forall i :: 0 <= i < |s| ==> 32 <= s[i] as int < 127
    ensures |b| == |s| && IsLine(b)
    ensures forall i :: 0 <= i < |s| ==> b[i] == s[i] as int
  {
    seq(|s|, i requires 0 <= i < |s| => s[i] as int as byte)
  }

  /** One line: ASCII without line breaks. */
  predicate IsLine(s: Bytes) {
    forall i :: 0 <= i < |s| ==> s[i] < 128 && s[i] != CR && s[i] != LF
  }

  predicate IsAscii(s: Bytes) {
    forall i :: 0 <= i < |s| ==> s[i] < 128
  }

  function StripPrefix(s: Bytes, prefix: Bytes): Option<Bytes> {
    if |s| >= |prefix| && s[..|prefix|] == prefix then Some(s[|prefix|..]) else None
  }

  // ---------------------------------------------------------------------------------------------
  // UTF-8 (section 4 of RFC 3629)
  // ---------------------------------------------------------------------------------------------

  /** What a decoder finds at the front: a whole character, or an invalid prefix to be replaced. */
  datatype Scan = Good(width: nat) | Bad(width: nat)

  predicate Continues(s: Bytes, i: nat) {
    i < |s| && 0x80 <= s[i] <= 0xBF
  }

  predicate SecondOf3(s: Bytes)
    requires s != []
  {
    |s| > 1 && (if s[0] == 0xE0 then 0xA0 <= s[1] <= 0xBF
                else if s[0] == 0xED then 0x80 <= s[1] <= 0x9F
                else 0x80 <= s[1] <= 0xBF)
  }

  predicate SecondOf4(s: Bytes)
    requires s != []
  {
    |s| > 1 && (if s[0] == 0xF0 then 0x90 <= s[1] <= 0xBF
                else if s[0] == 0xF4 then 0x80 <= s[1] <= 0x8F
                else 0x80 <= s[1] <= 0xBF)
  }

  function ScanChar(s: Bytes): (r: Scan)
    requires s != []
    ensures 1 <= r.width <= |s|
  {
    if s[0] < 0x80 then Good(1)
    else if 0xC2 <= s[0] <= 0xDF then
      if Continues(s, 1) then Good(2) else Bad(1)
    else if 0xE0 <= s[0] <= 0xEF then
      if !SecondOf3(s) then Bad(1) else if !Continues(s, 2) then Bad(2) else Good(3)
    else if 0xF0 <= s[0] <= 0xF4 then
      if !SecondOf4(s) then Bad(1)
      else if !Continues(s, 2) then Bad(2)
      else if !Continues(s, 3) then Bad(3)
      else Good(4)
    else Bad(1)
  }

  /** `String::from_utf8` succeeds. */
  predicate ValidUtf8(s: Bytes) {
    s == [] || (ScanChar(s).Good? && ValidUtf8(s[ScanChar(s).width..]))
  }

  /** `String::from_utf8_lossy`: each invalid prefix becomes U+FFFD. */
  function Lossy(s: Bytes): Bytes {
    if s == [] then []
    else
      var front := ScanChar(s);
      (if front.Good? then s[..front.width] else [0xEF, 0xBF, 0xBD]) + Lossy(s[front.width..])
  }

  lemma {:induction false} ValidConcat(a: Bytes, b: Bytes)
    requires ValidUtf8(a) && ValidUtf8(b)
    ensures ValidUtf8(a + b)
  {
    if a == [] {
      assert a + b == b;
    } else {
      var w := ScanChar(a).width;
      assert ScanChar(a + b) == ScanChar(a);
      assert (a + b)[w..] == a[w..] + b;
      ValidConcat(a[w..], b);
    }
  }

  lemma {:induction false} LossyKeepsValid(s: Bytes)
    requires ValidUtf8(s)
    ensures Lossy(s) == s
  {
    if s != [] { LossyKeepsValid(s[ScanChar(s).width..]); }
  }

  lemma {:induction false} LossyIsValid(s: Bytes)
    ensures ValidUtf8(Lossy(s))
  {
    if s != [] {
      var w := ScanChar(s).width;
      LossyIsValid(s[w..]);
      var front := if ScanChar(s).Good? then s[..w] else [0xEF, 0xBF, 0xBD];
      OneCharIsValid(s);
      ValidConcat(front, Lossy(s[w..]));
    }
  }

  lemma OneCharIsValid(s: Bytes)
    requires s != []
    ensures ScanChar(s).Good? ==> ValidUtf8(s[..ScanChar(s).width])
    ensures ValidUtf8([0xEF, 0xBF, 0xBD])
  {
    var w := ScanChar(s).width;
    if ScanChar(s).Good? {
      assert ScanChar(s[..w]) == Good(w) && s[..w][w..] == [];
    }
    assert ScanChar([0xEF, 0xBF, 0xBD]) == Good(3);
    assert [0xEF, 0xBF, 0xBD][3..] == [];
  }

  lemma {:induction false} AsciiIsValid(s: Bytes)
    requires IsAscii(s)
    ensures ValidUtf8(s)
  {
    if s != [] { AsciiIsValid(s[1..]); }
  }

  // ---------------------------------------------------------------------------------------------
  // Lines
  // ---------------------------------------------------------------------------------------------

  function IndexOf(s: Bytes, b: byte): (k: nat)
    ensures k <= |s|
    ensures k < |s| ==> s[k] == b
    ensures forall i :: 0 <= i < k ==> s[i] != b
  {
    if s == [] || s[0] == b then 0 else 1 + IndexOf(s[1..], b)
  }

  /** `str::lines`: a line ends at LF or CR LF; the last one may be unterminated. */
  function Lines(s: Bytes): seq<Bytes> {
    if s == [] then []
    else
      var k := IndexOf(s, LF);
      if k == |s| then [s]
      else [if k > 0 && s[k - 1] == CR then s[..k - 1] else s[..k]] + Lines(s[k + 1..])
  }

  lemma LinesOfTerminated(line: Bytes, rest: Bytes)
    requires LF !in line
    ensures Lines(line + [CR, LF] + rest) == [line] + Lines(rest)
  {
    var s := line + [CR, LF] + rest;
    var k := |line| + 1;
    assert s[k] == LF && s[k - 1] == CR;
    assert forall i :: 0 <= i < |line| ==> s[i] == line[i];
    assert IndexOf(s, LF) >= |line| by {
      assert forall i :: 0 <= i < |line| ==> line[i] in line;
    }
    assert s[|line|] == CR;
    assert s[..k - 1] == line && s[k + 1..] == rest;
  }

  lemma LinesOfLf(line: Bytes, rest: Bytes)
    requires LF !in line && (line != [] ==> line[|line| - 1] != CR)
    ensures Lines(line + [LF] + rest) == [line] + Lines(rest)
  {
    var s, k := line + [LF] + rest, |line|;
    assert s[k] == LF;
    assert forall i :: 0 <= i < k ==> s[i] == line[i] && line[i] in line;
    assert IndexOf(s, LF) == k;
    assert s[..k] == line && s[k + 1..] == rest;
    assert k > 0 ==> s[k - 1] == line[k - 1];
  }

  /** With the two laws before it, this determines the lines of every text. */
  lemma LinesOfLast(line: Bytes)
    requires LF !in line
    ensures Lines(line) == if line == [] then [] else [line]
  {
  }

  // ---------------------------------------------------------------------------------------------
  // Trimming
  // ---------------------------------------------------------------------------------------------

  // The White_Space characters that UTF-8 encodes in one, two and three bytes.

  predicate Space1(a: byte) {
    9 <= a <= 13 || a == 32
  }

  predicate Space2(a: byte, b: byte) {
    a == 0xC2 && (b == 0x85 || b == 0xA0)
  }

  predicate Space3(a: byte, b: byte, c: byte) {
    || (a == 0xE1 && b == 0x9A && c == 0x80)
    || (a == 0xE2 && b == 0x80 && (0x80 <= c <= 0x8A || c == 0xA8 || c == 0xA9 || c == 0xAF))
    || (a == 0xE2 && b == 0x81 && c == 0x9F)
    || (a == 0xE3 && b == 0x80 && c == 0x80)
  }

  /** Width of the whitespace character at the front, or 0. */
  function SpaceWidth(s: Bytes): (w: nat)
    ensures w <= |s|
  {
    if |s| >= 1 && Space1(s[0]) then 1
    else if |s| >= 2 && Space2(s[0], s[1]) then 2
    else if |s| >= 3 && Space3(s[0], s[1], s[2]) then 3
    else 0
  }

  /** Width of the whitespace character at the end, or 0. */
  function TrailingSpaceWidth(s: Bytes): (w: nat)
    ensures w <= |s|
  {
    var n := |s|;
    if n >= 1 && Space1(s[n - 1]) then 1
    else if n >= 2 && Space2(s[n - 2], s[n - 1]) then 2
    else if n >= 3 && Space3(s[n - 3], s[n - 2], s[n - 1]) then 3
    else 0
  }

  function TrimStart(s: Bytes): Bytes {
    if SpaceWidth(s) == 0 then s else TrimStart(s[SpaceWidth(s)..])
  }

  function TrimEnd(s: Bytes): Bytes {
    if TrailingSpaceWidth(s) == 0 then s else TrimEnd(s[..|s| - TrailingSpaceWidth(s)])
  }

  function Trim(s: Bytes): Bytes {
    TrimEnd(TrimStart(s))
  }

  predicate Printable(b: byte) {
    32 < b < 127
  }

  lemma TrimKeepsPrintable(s: Bytes)
    requires s != [] && Printable(s[0]) && Printable(s[|s| - 1])
    ensures Trim(s) == s
  {
  }

  /** White space from front to back. */
  predicate IsSpace(s: Bytes) {
    s == [] || (SpaceWidth(s) > 0 && IsSpace(s[SpaceWidth(s)..]))
  }

  /** White space from back to front. */
  predicate IsTrailingSpace(s: Bytes) {
    s == [] || (TrailingSpaceWidth(s) > 0 && IsTrailingSpace(s[..|s| - TrailingSpaceWidth(s)]))
  }

  lemma {:induction false} TrimStartDrops(s: Bytes) returns (front: Bytes)
    ensures s == front + TrimStart(s) && IsSpace(front) && SpaceWidth(TrimStart(s)) == 0
  {
    var w := SpaceWidth(s);
    if w == 0 {
      front := [];
    } else {
      var more := TrimStartDrops(s[w..]);
      front := s[..w] + more;
      SpaceBefore(s, s[..w], more, TrimStart(s[w..]));
    }
  }

  lemma SpaceBefore(s: Bytes, first: Bytes, space: Bytes, rest: Bytes)
    requires 0 < |first| == SpaceWidth(s) && s == first + (space + rest) && IsSpace(space)
    ensures IsSpace(first + space) && s == first + space + rest
  {
    var all := first + space;
    assert all[|first|..] == space;
    SameStart(all, s, |first|);
  }

  lemma SameStart(a: Bytes, b: Bytes, w: nat)
    requires 0 < w == SpaceWidth(b) && w <= |a| && a[..w] == b[..w]
    ensures SpaceWidth(a) == w
  {
    assert a[0] == a[..w][0] == b[0];
    if w > 1 { assert a[1] == a[..w][1] == b[1]; }
    if w > 2 { assert a[2] == a[..w][2] == b[2]; }
  }

  lemma {:induction false} TrimEndDrops(s: Bytes) returns (back: Bytes)
    ensures s == TrimEnd(s) + back && IsTrailingSpace(back) && TrailingSpaceWidth(TrimEnd(s)) == 0
  {
    var w := TrailingSpaceWidth(s);
    if w == 0 {
      back := [];
    } else {
      var front, last := s[..|s| - w], s[|s| - w..];
      var more := TrimEndDrops(front);
      back := more + last;
      SpaceBehind(s, TrimEnd(front), more, last);
    }
  }

  lemma SpaceBehind(s: Bytes, rest: Bytes, space: Bytes, last: Bytes)
    requires 0 < |last| == TrailingSpaceWidth(s) && s == rest + space + last && IsTrailingSpace(space)
    ensures IsTrailingSpace(space + last) && s == rest + (space + last)
  {
    var all := space + last;
    assert all[..|all| - |last|] == space;
    SameEnd(all, s, last);
  }

  lemma SameEnd(a: Bytes, b: Bytes, end: Bytes)
    requires 0 < |end| == TrailingSpaceWidth(b) && |end| <= |a|
    requires a[|a| - |end|..] == end == b[|b| - |end|..]
    ensures TrailingSpaceWidth(a) == |end|
  {
    var w := |end|;
    assert a[|a| - 1] == end[w - 1] == b[|b| - 1];
    if w > 1 { assert a[|a| - 2] == end[w - 2] == b[|b| - 2]; }
    if w > 2 { assert a[|a| - 3] == end[w - 3] == b[|b| - 3]; }
  }

  /** Trimming takes off white space, only white space, and all of it. */
  lemma TrimIsExact(s: Bytes) returns (front: Bytes, back: Bytes)
    ensures s == front + Trim(s) + back && IsSpace(front) && IsTrailingSpace(back)
    ensures TrailingSpaceWidth(Trim(s)) == 0 && SpaceWidth(Trim(s) + back) == 0
  {
    front := TrimStartDrops(s);
    back := TrimEndDrops(TrimStart(s));
    assert front + (Trim(s) + back) == front + Trim(s) + back;
  }
}
