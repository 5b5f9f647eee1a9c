/** The proxy's Base64 (section 4 of RFC 4648): three bytes to four characters and back. */
module Base64 {
  import opened Net
  import opened Text

  const UPPER := "ABCDEFGHIJKLMNOPQRSTUVWXYZ"
  const LOWER := "abcdefghijklmnopqrstuvwxyz"
  const DIGITS := "0123456789"
  const ALPHABET := UPPER + LOWER + DIGITS + "+/"

  const PAD: byte := 61

  const WORD: nat := 0x1_0000_0000

  type sextet = v: int | 0 <= v < 64

  // ---------------------------------------------------------------------------------------------
  // Characters
  // ---------------------------------------------------------------------------------------------

  /** `BASE64_CHARS[v]`. */
  function CharOf(v: sextet): byte {
    if v < 26 then 65 + v
    else if v < 52 then 97 + (v - 26)
    else if v < 62 then 48 + (v - 52)
    else if v == 62 then 43
    else 47
  }

  /** The decoder's classification of one character. */
  function ValueOf(c: byte): Option<sextet> {
    if 65 <= c <= 90 then Some(c - 65)
    else if 97 <= c <= 122 then Some(c - 97 + 26)
    else if 48 <= c <= 57 then Some(c - 48 + 52)
    else if c == 43 then Some(62)
    else if c == 47 then Some(63)
    else None
  }

  /** From position `v` on, the characters follow one another in code order. */
  predicate Consecutive(s: string, first: int, v: nat)
    requires v <= |s|
    decreases |s| - v
  {
    v == |s| || (s[v] as int == first + v && Consecutive(s, first, v + 1))
  }

  lemma {:induction false} ConsecutiveAt(s: string, first: int, v: nat, w: nat)
    requires v <= w < |s| && Consecutive(s, first, v)
    ensures s[w] as int == first + w
    decreases |s| - v
  {
    if v < w { ConsecutiveAt(s, first, v + 1, w); }
  }

  lemma UpperRuns()
    ensures |UPPER| == 26 && Consecutive(UPPER, 65, 0)
  {
    assert Consecutive(UPPER, 65, 22);
    assert Consecutive(UPPER, 65, 18);
    assert Consecutive(UPPER, 65, 14);
    assert Consecutive(UPPER, 65, 10);
    assert Consecutive(UPPER, 65, 6);
    assert Consecutive(UPPER, 65, 3);
  }

  lemma LowerRuns()
    ensures |LOWER| == 26 && Consecutive(LOWER, 97, 0)
  {
    assert Consecutive(LOWER, 97, 22);
    assert Consecutive(LOWER, 97, 18);
    assert Consecutive(LOWER, 97, 14);
    assert Consecutive(LOWER, 97, 10);
    assert Consecutive(LOWER, 97, 6);
    assert Consecutive(LOWER, 97, 3);
  }

  lemma DigitsRun()
    ensures |DIGITS| == 10 && Consecutive(DIGITS, 48, 0)
  {
    assert Consecutive(DIGITS, 48, 5);
  }

  lemma TableAt(upper: string, lower: string, digits: string, rest: string, v: sextet)
    requires |upper| == 26 && Consecutive(upper, 65, 0) && |lower| == 26 && Consecutive(lower, 97, 0)
    requires |digits| == 10 && Consecutive(digits, 48, 0) && rest == "+/"
    ensures (upper + lower + digits + rest)[v] as int == CharOf(v)
  {
    if v < 26 { ConsecutiveAt(upper, 65, 0, v); }
    else if v < 52 { ConsecutiveAt(lower, 97, 0, v - 26); }
    else if v < 62 { ConsecutiveAt(digits, 48, 0, v - 52); }
  }

  /** The arithmetic above is the alphabet's table. */
  lemma CharOfIsAlphabet(v: sextet)
    ensures |ALPHABET| == 64 && ALPHABET[v] as int == CharOf(v)
  {
    UpperRuns();
    LowerRuns();
    DigitsRun();
    TableAt(UPPER, LOWER, DIGITS, "+/", v);
  }

  lemma CharsAreDistinct(v: sextet)
    ensures ValueOf(CharOf(v)) == Some(v) && CharOf(v) != PAD && Printable(CharOf(v))
  {
  }

  /** A character has a value exactly when it stands at that place of the alphabet. */
  lemma ValueIsPlaceInAlphabet(c: byte, v: sextet)
    ensures ValueOf(c) == Some(v) <==> |ALPHABET| == 64 && ALPHABET[v] as int == c
  {
    CharOfIsAlphabet(v);
  }

  // ---------------------------------------------------------------------------------------------
  // Encoding
  // ---------------------------------------------------------------------------------------------

  function ByteAt(s: Bytes, i: nat): byte {
    if i < |s| then s[i] else 0
  }

  /** The 24-bit group of the first three bytes, missing ones read as zero. */
  function Group(s: Bytes): nat {
    ByteAt(s, 0) * 65536 + ByteAt(s, 1) * 256 + ByteAt(s, 2)
  }

  function Sextet(n: nat, i: nat): sextet
    requires i < 4
  {
    if i == 0 then n / 262144 % 64 else if i == 1 then n / 4096 % 64 else if i == 2 then n / 64 % 64 else n % 64
  }

  function Quad(s: Bytes): Bytes
    requires s != []
  {
    var n := Group(s);
    [CharOf(Sextet(n, 0)), CharOf(Sextet(n, 1)),
     if |s| > 1 then CharOf(Sextet(n, 2)) else PAD,
     if |s| > 2 then CharOf(Sextet(n, 3)) else PAD]
  }

  function Encode(s: Bytes): Bytes {
    if s == [] then [] else Quad(s) + Encode(s[if |s| < 3 then |s| else 3..])
  }

  method EncodeBytes(input: Bytes) returns (output: Bytes)
    ensures output == Encode(input)
  {
    output := [];
    var at := 0;
    while at < |input|
      invariant 0 <= at <= |input|
      invariant output + Encode(input[at..]) == Encode(input)
    {
      var size := if |input| - at < 3 then |input| - at else 3;
      var quad := EncodeChunk(input[at..at + size]);
      EncodeNext(output, input, at, size);
      output := output + quad;
      at := at + size;
    }
  }

  lemma QuadOfFront(s: Bytes, size: nat)
    requires s != [] && size == (if |s| < 3 then |s| else 3)
    ensures Quad(s[..size]) == Quad(s)
  {
  }

  lemma EncodeNext(output: Bytes, input: Bytes, at: nat, size: nat)
    requires at < |input| && size == (if |input| - at < 3 then |input| - at else 3)
    ensures output + Encode(input[at..]) == output + Quad(input[at..at + size]) + Encode(input[at + size..])
  {
    var rest := input[at..];
    assert rest[..size] == input[at..at + size] && rest[size..] == input[at + size..];
    QuadOfFront(rest, size);
    EncodeUnfolds(rest, size);
    Regroup(output, Quad(rest), Encode(rest[size..]));
  }

  lemma EncodeUnfolds(s: Bytes, size: nat)
    requires s != [] && size == (if |s| < 3 then |s| else 3)
    ensures Encode(s) == Quad(s) + Encode(s[size..])
  {
  }

  lemma Regroup(a: Bytes, b: Bytes, c: Bytes)
    ensures a + (b + c) == a + b + c
  {
  }

  method EncodeChunk(chunk: Bytes) returns (quad: Bytes)
    requires 1 <= |chunk| <= 3
    ensures quad == Quad(chunk)
  {
    var b1: int, b2: int, b3: int := chunk[0], if |chunk| > 1 then chunk[1] else 0, if |chunk| > 2 then chunk[2] else 0;
    var n := b1 * 65536 + b2 * 256 + b3;
    quad := [CharOf(n / 262144 % 64), CharOf(n / 4096 % 64)];
    quad := quad + [if |chunk| > 1 then CharOf(n / 64 % 64) else PAD];
    quad := quad + [if |chunk| > 2 then CharOf(n % 64) else PAD];
  }

  // ---------------------------------------------------------------------------------------------
  // Decoding
  // ---------------------------------------------------------------------------------------------

  /** `trim_end_matches('=')`. */
  function TrimPads(s: Bytes): Bytes {
    if s != [] && s[|s| - 1] == PAD then TrimPads(s[..|s| - 1]) else s
  }

  /** Bits waiting in the accumulator between characters. */
  type pending = b: nat | b == 0 || b == 2 || b == 4 || b == 6

  /** The lowest `bits` bits. */
  function Low(n: nat, bits: pending): nat {
    if bits == 0 then 0 else if bits == 2 then n % 4 else if bits == 4 then n % 16 else n % 64
  }

  /** Bits left after one more character: a byte leaves when eight have gathered. */
  function BitsAfter(bits: pending): pending {
    if bits == 0 then 6 else bits - 2
  }

  /** `(n << 6) | val` in 32 bits. */
  function Shifted(n: nat, v: sextet): nat {
    n * 64 % WORD + v
  }

  /** `(n >> bits) & 0xFF`. */
  function ByteOut(n: nat, bits: pending): byte {
    (if bits == 0 then n else if bits == 2 then n / 4 else if bits == 4 then n / 16 else n / 64) % 256
  }

  function Prepend(b: byte, rest: Option<Bytes>): Option<Bytes> {
    if rest.None? then None else Some([b] + rest.value)
  }

  /** The decoder's loop: `n` is never masked, its high bits just fall off. */
  function DecodeFrom(n: nat, bits: pending, s: Bytes): Option<Bytes>
    decreases |s|
  {
    if s == [] then Some([])
    else
      match ValueOf(s[0])
      case None => None
      case Some(v) =>
        var n', bits' := Shifted(n, v), BitsAfter(bits);
        var rest := DecodeFrom(n', bits', s[1..]);
        if bits == 0 then rest else Prepend(ByteOut(n', bits'), rest)
  }

  /** Output so far, followed by whatever the rest decodes to. */
  function Appended(output: Bytes, rest: Option<Bytes>): Option<Bytes> {
    if rest.None? then None else Some(output + rest.value)
  }

  function Decode(s: Bytes): Option<Bytes> {
    DecodeFrom(0, 0, TrimPads(s))
  }

  method DecodeBytes(input: Bytes) returns (result: Option<Bytes>)
    ensures result == Decode(input)
  {
    var text := TrimPads(input);
    var output: Bytes := [];
    var n: nat, bits: nat := 0, 0;
    assert text[0..] == text;
    AppendedNothing(DecodeFrom(0, 0, text));
    for i := 0 to |text|
      invariant bits == 0 || bits == 2 || bits == 4 || bits == 6
      invariant Decode(input) == Appended(output, DecodeFrom(n, bits, text[i..]))
    {
      var v := ValueOf(text[i]);
      assert text[i..][1..] == text[i + 1..];
      if v.None? {
        return None;
      }
      n := Shifted(n, v.value);
      bits := bits + 6;
      if bits >= 8 {
        bits := bits - 8;
        AppendedByte(output, ByteOut(n, bits), DecodeFrom(n, bits, text[i + 1..]));
        output := output + [ByteOut(n, bits)];
      }
    }
    assert text[|text|..] == [] && output + [] == output;
    return Some(output);
  }

  lemma AppendedNothing(rest: Option<Bytes>)
    ensures Appended([], rest) == rest
  {
    if rest.Some? { assert [] + rest.value == rest.value; }
  }

  lemma AppendedByte(output: Bytes, b: byte, rest: Option<Bytes>)
    ensures Appended(output, Prepend(b, rest)) == Appended(output + [b], rest)
  {
    if rest.Some? { assert output + ([b] + rest.value) == output + [b] + rest.value; }
  }

  // ---------------------------------------------------------------------------------------------
  // The unmasked accumulator
  // ---------------------------------------------------------------------------------------------

  /** A reference decoder that keeps only the pending bits. */
  function Masked(m: nat, bits: pending, s: Bytes): Option<Bytes>
    decreases |s|
  {
    if s == [] then Some([])
    else
      match ValueOf(s[0])
      case None => None
      case Some(v) =>
        var bits' := BitsAfter(bits);
        var x := m * 64 + v;
        var rest := Masked(Low(x, bits'), bits', s[1..]);
        if bits == 0 then rest else Prepend(ByteOut(x, bits'), rest)
  }

  // Multiples of 256 * 2^bits disappear from the byte and from what stays behind.

  lemma Vanish0(x: nat, y: nat, t: int)
    requires y == x + 256 * t
    ensures y % 256 == x % 256
  {
  }

  lemma Vanish2(x: nat, y: nat, t: int)
    requires y == x + 1024 * t
    ensures y % 4 == x % 4 && y / 4 % 256 == x / 4 % 256
  {
    Vanish0(x / 4, y / 4, t);
  }

  lemma Vanish4(x: nat, y: nat, t: int)
    requires y == x + 4096 * t
    ensures y % 16 == x % 16 && y / 16 % 256 == x / 16 % 256
  {
    Vanish0(x / 16, y / 16, t);
  }

  lemma ShiftedIs(n: nat, v: sextet)
    ensures Shifted(n, v) == 64 * n + v - WORD * (n * 64 / WORD)
  {
  }

  predicate FallsOff(n: nat, bits: pending, v: sextet) {
    var bits', x := BitsAfter(bits), Low(n, bits) * 64 + v;
    && Low(Shifted(n, v), bits') == Low(x, bits')
    && (bits != 0 ==> ByteOut(Shifted(n, v), bits') == ByteOut(x, bits'))
  }

  lemma FallsOff0(n: nat, v: sextet)
    ensures FallsOff(n, 0, v)
  {
    ShiftedIs(n, v);
    var q := n * 64 / WORD;
    assert Shifted(n, v) == v + 64 * (n - 0x400_0000 * q);
  }

  lemma FallsOff2(n: nat, v: sextet)
    ensures FallsOff(n, 2, v)
  {
    ShiftedIs(n, v);
    Vanish0(n % 4 * 64 + v, Shifted(n, v), n / 4 - 0x100_0000 * (n * 64 / WORD));
  }

  lemma FallsOff4(n: nat, v: sextet)
    ensures FallsOff(n, 4, v)
  {
    ShiftedIs(n, v);
    Vanish2(n % 16 * 64 + v, Shifted(n, v), n / 16 - 0x40_0000 * (n * 64 / WORD));
  }

  lemma FallsOff6(n: nat, v: sextet)
    ensures FallsOff(n, 6, v)
  {
    ShiftedIs(n, v);
    Vanish4(n % 64 * 64 + v, Shifted(n, v), n / 64 - 0x10_0000 * (n * 64 / WORD));
  }

  /** What leaves and what stays depend only on the pending bits. */
  lemma HighBitsFallOff(n: nat, bits: pending, v: sextet)
    ensures FallsOff(n, bits, v)
  {
    if bits == 0 {
      FallsOff0(n, v);
    } else if bits == 2 {
      FallsOff2(n, v);
    } else if bits == 4 {
      FallsOff4(n, v);
    } else {
      FallsOff6(n, v);
    }
  }

  /** Never masking the accumulator makes no difference. */
  lemma {:induction false} UnmaskedIsHarmless(n: nat, bits: pending, s: Bytes)
    ensures DecodeFrom(n, bits, s) == Masked(Low(n, bits), bits, s)
    decreases |s|
  {
    if s != [] && ValueOf(s[0]).Some? {
      var v := ValueOf(s[0]).value;
      HighBitsFallOff(n, bits, v);
      UnmaskedIsHarmless(Shifted(n, v), BitsAfter(bits), s[1..]);
    }
  }

  // ---------------------------------------------------------------------------------------------
  // Round trip
  // ---------------------------------------------------------------------------------------------

  predicate IsCode(s: Bytes) {
    forall i :: 0 <= i < |s| ==> ValueOf(s[i]).Some?
  }

  /** The encoding without its padding. */
  function Unpadded(s: Bytes): Bytes {
    if |s| >= 3 then Quad(s) + Unpadded(s[3..]) else if s == [] then [] else Quad(s)[..|s| + 1]
  }

  function Pads(s: Bytes): Bytes {
    if |s| % 3 == 1 then [PAD, PAD] else if |s| % 3 == 2 then [PAD] else []
  }

  lemma IsCodeConcat(a: Bytes, b: Bytes)
    requires IsCode(a) && IsCode(b)
    ensures IsCode(a + b)
  {
  }

  lemma QuadIsCode(s: Bytes)
    requires s != []
    ensures IsCode(if |s| >= 3 then Quad(s) else Quad(s)[..|s| + 1])
  {
    CharsAreDistinct(Sextet(Group(s), 0));
    CharsAreDistinct(Sextet(Group(s), 1));
    CharsAreDistinct(Sextet(Group(s), 2));
    CharsAreDistinct(Sextet(Group(s), 3));
  }

  lemma {:induction false} UnpaddedIsCode(s: Bytes)
    ensures IsCode(Unpadded(s))
  {
    if s != [] {
      QuadIsCode(s);
      if |s| >= 3 {
        UnpaddedIsCode(s[3..]);
        IsCodeConcat(Quad(s), Unpadded(s[3..]));
      }
    }
  }

  lemma QuadPads(s: Bytes)
    requires s != []
    ensures |Quad(s)| == 4
    ensures |s| == 1 ==> Quad(s)[2] == PAD
    ensures |s| <= 2 ==> Quad(s)[3] == PAD
  {
  }

  lemma FourSplit(q: Bytes, k: nat)
    requires |q| == 4 && 2 <= k <= 3 && forall i :: k <= i < 4 ==> q[i] == PAD
    ensures q == q[..k] + if k == 2 then [PAD, PAD] else [PAD]
  {
  }

  lemma EncodeTail(s: Bytes)
    requires 1 <= |s| <= 2
    ensures Encode(s) == Unpadded(s) + Pads(s) && |Encode(s)| == 4
  {
    QuadPads(s);
    FourSplit(Quad(s), |s| + 1);
    assert s[|s|..] == [] && Encode([]) == [];
    assert Encode(s) == Quad(s) + Encode(s[|s|..]);
    assert Quad(s) + [] == Quad(s);
  }

  lemma UnpaddedStep(s: Bytes)
    requires |s| >= 3
    ensures Unpadded(s) == Quad(s) + Unpadded(s[3..])
  {
  }

  lemma PadsStep(s: Bytes)
    requires |s| >= 3
    ensures Pads(s) == Pads(s[3..])
  {
    assert |s| % 3 == (|s| - 3) % 3;
  }

  lemma {:induction false} EncodeIsPadded(s: Bytes)
    ensures Encode(s) == Unpadded(s) + Pads(s)
  {
    if |s| >= 3 {
      EncodeUnfolds(s, 3);
      UnpaddedStep(s);
      PadsStep(s);
      var quad, unpadded, pads := Quad(s), Unpadded(s[3..]), Pads(s[3..]);
      EncodeIsPadded(s[3..]);
      assert quad + (unpadded + pads) == quad + unpadded + pads;
    } else if s != [] {
      EncodeTail(s);
    }
  }

  lemma {:induction false} EncodedLength(s: Bytes)
    ensures |Encode(s)| == 4 * ((|s| + 2) / 3)
  {
    if |s| >= 3 {
      EncodeUnfolds(s, 3);
      EncodedLength(s[3..]);
    } else if s != [] {
      EncodeTail(s);
    }
  }

  lemma {:induction false} TrimPadsStopsAtCode(s: Bytes, pads: Bytes)
    requires IsCode(s) && forall i :: 0 <= i < |pads| ==> pads[i] == PAD
    ensures TrimPads(s + pads) == s
  {
    var all := s + pads;
    if pads == [] {
      assert all == s;
      assert s != [] ==> ValueOf(s[|s| - 1]).Some?;
    } else {
      assert all[..|all| - 1] == s + pads[..|pads| - 1];
      TrimPadsStopsAtCode(s, pads[..|pads| - 1]);
    }
  }

  lemma Group18(n: nat, b1: byte, low: nat)
    requires n == b1 * 65536 + low && low < 65536
    ensures n / 262144 == b1 / 4
  {
  }

  lemma Group12(n: nat, b1: byte, b2: byte, b3: byte)
    requires n == b1 * 65536 + b2 * 256 + b3
    ensures n / 4096 == b1 * 16 + b2 / 16
  {
    assert n == 4096 * (b1 * 16 + b2 / 16) + (b2 % 16 * 256 + b3);
  }

  lemma Group6(n: nat, b1: byte, b2: byte, b3: byte)
    requires n == b1 * 65536 + b2 * 256 + b3
    ensures n / 64 == b1 * 1024 + b2 * 4 + b3 / 64
  {
  }

  lemma FirstSextets(b1: byte, high: nat)
    requires high < 16
    ensures b1 / 4 % 64 * 64 + (b1 * 16 + high) % 64 == b1 * 16 + high
  {
    assert b1 * 16 + high == 64 * (b1 / 4) + (b1 % 4 * 16 + high);
  }

  lemma ThirdSextet(b1: byte, b2: byte, high: nat)
    requires high < 4
    ensures b2 / 16 * 64 + (b1 * 1024 + b2 * 4 + high) % 64 == b2 * 4 + high
  {
    assert b1 * 1024 + b2 * 4 + high == 64 * (b1 * 16 + b2 / 16) + (b2 % 16 * 4 + high);
  }

  lemma FourthSextet(b1: byte, b2: byte, b3: byte)
    ensures b3 / 64 * 64 + (b1 * 65536 + b2 * 256 + b3) % 64 == b3
  {
    assert b1 * 65536 + b2 * 256 + b3 == 64 * (b1 * 1024 + b2 * 4 + b3 / 64) + b3 % 64;
  }

  /** How the four sextets of a group share its three bytes. */
  lemma GroupParts(n: nat, b1: byte, b2: byte, b3: byte)
    requires n == b1 * 65536 + b2 * 256 + b3
    ensures Sextet(n, 0) * 64 + Sextet(n, 1) == b1 * 16 + b2 / 16
    ensures b2 / 16 * 64 + Sextet(n, 2) == b2 * 4 + b3 / 64
    ensures b3 / 64 * 64 + Sextet(n, 3) == b3
  {
    Group18(n, b1, b2 * 256 + b3);
    Group12(n, b1, b2, b3);
    Group6(n, b1, b2, b3);
    FirstSextets(b1, b2 / 16);
    ThirdSextet(b1, b2, b3 / 64);
    FourthSextet(b1, b2, b3);
  }

  predicate Starts(s: Bytes, v: sextet, rest: Bytes) {
    s != [] && ValueOf(s[0]) == Some(v) && s[1..] == rest
  }

  lemma Uncode(v: sextet, s: Bytes, rest: Bytes)
    requires s == [CharOf(v)] + rest
    ensures Starts(s, v, rest)
  {
    CharsAreDistinct(v);
  }

  lemma MaskedStep(m: nat, bits: pending, v: sextet, s: Bytes, rest: Bytes)
    requires Starts(s, v, rest)
    ensures var bits', x := BitsAfter(bits), m * 64 + v;
            var after := Masked(Low(x, bits'), bits', rest);
            Masked(m, bits, s) == if bits == 0 then after else Prepend(ByteOut(x, bits'), after)
  {
  }

  // One character at each position of a group.

  lemma FirstChar(v: sextet, s: Bytes, rest: Bytes)
    requires Starts(s, v, rest)
    ensures Masked(0, 0, s) == Masked(v, 6, rest)
  {
    assert Low(0 * 64 + v, 6) == v;
    MaskedStep(0, 0, v, s, rest);
  }

  lemma SplitAt16(b: byte, left: nat)
    requires left < 16
    ensures (b * 16 + left) / 16 == b && (b * 16 + left) % 16 == left
  {
  }

  lemma SecondChar(m: nat, v: sextet, b: byte, left: nat, s: Bytes, rest: Bytes)
    requires Starts(s, v, rest) && m * 64 + v == b * 16 + left && left < 16
    ensures Masked(m, 6, s) == Prepend(b, Masked(left, 4, rest))
  {
    MaskedStep(m, 6, v, s, rest);
    SplitAt16(b, left);
  }

  lemma SplitAt4(b: byte, left: nat)
    requires left < 4
    ensures (b * 4 + left) / 4 == b && (b * 4 + left) % 4 == left
  {
  }

  lemma ThirdChar(m: nat, v: sextet, b: byte, left: nat, s: Bytes, rest: Bytes)
    requires Starts(s, v, rest) && m * 64 + v == b * 4 + left && left < 4
    ensures Masked(m, 4, s) == Prepend(b, Masked(left, 2, rest))
  {
    MaskedStep(m, 4, v, s, rest);
    SplitAt4(b, left);
  }

  lemma FourthChar(m: nat, v: sextet, b: byte, s: Bytes, rest: Bytes)
    requires Starts(s, v, rest) && m * 64 + v == b
    ensures Masked(m, 2, s) == Prepend(b, Masked(0, 0, rest))
  {
    MaskedStep(m, 2, v, s, rest);
  }

  /** Four characters give back the three bytes they came from and leave nothing pending. */
  lemma FourDecode(b1: byte, b2: byte, b3: byte, v0: sextet, v1: sextet, v2: sextet, v3: sextet, p: nat, q: nat,
                   rest: Bytes)
    requires v0 * 64 + v1 == b1 * 16 + p && p < 16
    requires p * 64 + v2 == b2 * 4 + q && q < 4
    requires q * 64 + v3 == b3
    ensures Masked(0, 0, [CharOf(v0), CharOf(v1), CharOf(v2), CharOf(v3)] + rest)
         == Prepend(b1, Prepend(b2, Prepend(b3, Masked(0, 0, rest))))
  {
    var t3 := [CharOf(v3)] + rest;
    var t2 := [CharOf(v2)] + t3;
    var t1 := [CharOf(v1)] + t2;
    var t0 := [CharOf(v0)] + t1;
    assert [CharOf(v0), CharOf(v1), CharOf(v2), CharOf(v3)] + rest == t0;
    Uncode(v0, t0, t1);
    Uncode(v1, t1, t2);
    Uncode(v2, t2, t3);
    Uncode(v3, t3, rest);
    FirstChar(v0, t0, t1);
    SecondChar(v0, v1, b1, p, t1, t2);
    ThirdChar(p, v2, b2, q, t2, t3);
    FourthChar(q, v3, b3, t3, rest);
  }

  lemma QuadDecodes(s: Bytes, rest: Bytes)
    requires |s| >= 3
    ensures Masked(0, 0, Quad(s) + rest) == Appended(s[..3], Masked(0, 0, rest))
  {
    var n := Group(s);
    GroupParts(n, s[0], s[1], s[2]);
    FourDecode(s[0], s[1], s[2], Sextet(n, 0), Sextet(n, 1), Sextet(n, 2), Sextet(n, 3), s[1] / 16, s[2] / 64, rest);
    PrependThree(s, Masked(0, 0, rest));
  }

  lemma PrependThree(s: Bytes, more: Option<Bytes>)
    requires |s| >= 3
    ensures Prepend(s[0], Prepend(s[1], Prepend(s[2], more))) == Appended(s[..3], more)
  {
    if more.Some? { assert [s[0]] + ([s[1]] + ([s[2]] + more.value)) == s[..3] + more.value; }
  }

  /** A last group of one or two bytes gives back those bytes; the bits left over are dropped. */
  lemma OneDecodes(b1: byte, v0: sextet, v1: sextet)
    requires v0 * 64 + v1 == b1 * 16
    ensures Masked(0, 0, [CharOf(v0), CharOf(v1)]) == Some([b1])
  {
    var t1 := [CharOf(v1)] + [];
    Uncode(v0, [CharOf(v0)] + t1, t1);
    Uncode(v1, t1, []);
    FirstChar(v0, [CharOf(v0)] + t1, t1);
    SecondChar(v0, v1, b1, 0, t1, []);
    assert [CharOf(v0)] + t1 == [CharOf(v0), CharOf(v1)];
    assert [b1] + [] == [b1];
  }

  lemma TwoDecode(b1: byte, b2: byte, v0: sextet, v1: sextet, v2: sextet, p: nat)
    requires v0 * 64 + v1 == b1 * 16 + p && p < 16
    requires p * 64 + v2 == b2 * 4
    ensures Masked(0, 0, [CharOf(v0), CharOf(v1), CharOf(v2)]) == Some([b1, b2])
  {
    var t2 := [CharOf(v2)] + [];
    var t1 := [CharOf(v1)] + t2;
    Uncode(v0, [CharOf(v0)] + t1, t1);
    Uncode(v1, t1, t2);
    Uncode(v2, t2, []);
    FirstChar(v0, [CharOf(v0)] + t1, t1);
    SecondChar(v0, v1, b1, p, t1, t2);
    ThirdChar(p, v2, b2, 0, t2, []);
    assert [CharOf(v0)] + t1 == [CharOf(v0), CharOf(v1), CharOf(v2)];
    assert [b1] + ([b2] + []) == [b1, b2];
  }

  lemma TailOfOne(s: Bytes, n: nat)
    requires |s| == 1 && n == Group(s)
    ensures Masked(0, 0, Unpadded(s)) == Some(s)
  {
    GroupParts(n, s[0], 0, 0);
    OneDecodes(s[0], Sextet(n, 0), Sextet(n, 1));
    assert Unpadded(s) == [CharOf(Sextet(n, 0)), CharOf(Sextet(n, 1))];
    assert s == [s[0]];
  }

  lemma TailOfTwo(s: Bytes, n: nat)
    requires |s| == 2 && n == Group(s)
    ensures Masked(0, 0, Unpadded(s)) == Some(s)
  {
    GroupParts(n, s[0], s[1], 0);
    TwoDecode(s[0], s[1], Sextet(n, 0), Sextet(n, 1), Sextet(n, 2), s[1] / 16);
    assert Unpadded(s) == [CharOf(Sextet(n, 0)), CharOf(Sextet(n, 1)), CharOf(Sextet(n, 2))];
    assert s == [s[0], s[1]];
  }

  lemma {:induction false} UnpaddedDecodes(s: Bytes)
    ensures Masked(0, 0, Unpadded(s)) == Some(s)
  {
    if |s| >= 3 {
      UnpaddedDecodes(s[3..]);
      QuadDecodes(s, Unpadded(s[3..]));
      assert s[..3] + s[3..] == s;
    } else if |s| == 2 {
      TailOfTwo(s, Group(s));
    } else if |s| == 1 {
      TailOfOne(s, Group(s));
    }
  }

  /** Decoding an encoding gives back the bytes, for every byte string. */
  lemma RoundTrip(s: Bytes)
    ensures Decode(Encode(s)) == Some(s)
    ensures |Encode(s)| == 4 * ((|s| + 2) / 3)
  {
    EncodedLength(s);
    EncodeIsPadded(s);
    UnpaddedIsCode(s);
    TrimPadsStopsAtCode(Unpadded(s), Pads(s));
    UnmaskedIsHarmless(0, 0, Unpadded(s));
    UnpaddedDecodes(s);
  }

  /** Any number of pads at the end is ignored. */
  lemma {:induction false} PadsAreIgnored(s: Bytes, pads: Bytes)
    requires forall i :: 0 <= i < |pads| ==> pads[i] == PAD
    ensures Decode(s + pads) == Decode(s)
    ensures s != [] && s[|s| - 1] != PAD ==> Decode(s) == DecodeFrom(0, 0, s)
  {
    var all := s + pads;
    if pads == [] {
      assert all == s;
    } else {
      assert all[..|all| - 1] == s + pads[..|pads| - 1];
      PadsAreIgnored(s, pads[..|pads| - 1]);
    }
  }

  /** Exactly what the decoder accepts, and how much it returns. */
  lemma {:induction false} DecodesExactlyCode(n: nat, bits: pending, s: Bytes)
    ensures DecodeFrom(n, bits, s).Some? <==> IsCode(s)
    ensures DecodeFrom(n, bits, s).Some? ==> |DecodeFrom(n, bits, s).value| == (bits + 6 * |s|) / 8
    decreases |s|
  {
    if s != [] {
      if ValueOf(s[0]).Some? {
        var v := ValueOf(s[0]).value;
        DecodesExactlyCode(Shifted(n, v), BitsAfter(bits), s[1..]);
        assert s == [s[0]] + s[1..];
      }
    }
  }

  // ---------------------------------------------------------------------------------------------
  // The bytes a decoding consists of
  // ---------------------------------------------------------------------------------------------

  /** `high` followed by the characters' six-bit values, read as one number. */
  function CodeNumber(high: nat, s: Bytes): nat
    requires IsCode(s)
    decreases |s|
  {
    if s == [] then high else assert IsCode(s[1..]); CodeNumber(high * 64 + ValueOf(s[0]).value, s[1..])
  }

  /** `high` followed by the bytes, read as one number. */
  function ByteNumber(high: nat, s: Bytes): nat
    decreases |s|
  {
    if s == [] then high else ByteNumber(high * 256 + s[0], s[1..])
  }

  /** `high` with `bits` more bits below it. */
  function Above(high: nat, bits: pending, low: nat): nat {
    low + if bits == 0 then high else if bits == 2 then 4 * high else if bits == 4 then 16 * high else 64 * high
  }

  /** The number without its last `bits` bits. */
  function Dropped(n: nat, bits: pending): nat {
    if bits == 0 then n else if bits == 2 then n / 4 else if bits == 4 then n / 16 else n / 64
  }

  /** Bits left over after `count` more characters. */
  function BitsLeft(bits: pending, count: nat): pending
    decreases count
  {
    if count == 0 then bits else BitsLeft(BitsAfter(bits), count - 1)
  }

  predicate Fits(m: nat, bits: pending) {
    m < if bits == 0 then 1 else if bits == 2 then 4 else if bits == 4 then 16 else 64
  }

  lemma {:induction false} BitsLeftIs(bits: pending, count: nat)
    ensures BitsLeft(bits, count) == (bits + 6 * count) % 8
    decreases count
  {
    if count > 0 {
      BitsLeftIs(BitsAfter(bits), count - 1);
      assert bits + 6 * count == (if bits == 0 then 0 else 8) + (BitsAfter(bits) + 6 * (count - 1));
    }
  }

  lemma NextByte(high: nat, m: nat, bits: pending, v: sextet)
    requires bits != 0 && Fits(m, bits)
    ensures var x, bits' := m * 64 + v, BitsAfter(bits);
            && Fits(Low(x, bits'), bits')
            && Above(high, bits, m) * 64 + v == Above(high * 256 + ByteOut(x, bits'), bits', Low(x, bits'))
  {
    var x := m * 64 + v;
    if bits == 2 {
      assert x / 1 % 256 == x;
    } else if bits == 4 {
      assert x == 4 * (x / 4) + x % 4 && x / 4 % 256 == x / 4;
    } else {
      assert x == 16 * (x / 16) + x % 16 && x / 16 % 256 == x / 16;
    }
  }

  ghost predicate Numbered(high: nat, m: nat, bits: pending, s: Bytes)
    requires IsCode(s)
  {
    var out := Masked(m, bits, s);
    out.Some? && ByteNumber(high, out.value) == Dropped(CodeNumber(Above(high, bits, m), s), BitsLeft(bits, |s|))
  }

  lemma {:induction false} MaskedNumber(high: nat, m: nat, bits: pending, s: Bytes)
    requires IsCode(s) && Fits(m, bits)
    ensures Numbered(high, m, bits, s)
    decreases |s|
  {
    if s != [] {
      var v := ValueOf(s[0]).value;
      assert IsCode(s[1..]);
      if bits == 0 {
        MaskedNumber(high, v, 6, s[1..]);
        NumberedFirst(high, v, s);
      } else {
        var x, bits' := m * 64 + v, BitsAfter(bits);
        NextByte(high, m, bits, v);
        MaskedNumber(high * 256 + ByteOut(x, bits'), Low(x, bits'), bits', s[1..]);
        NumberedNext(high, m, bits, v, s);
      }
    }
  }

  lemma NumberedFirst(high: nat, v: sextet, s: Bytes)
    requires IsCode(s) && s != [] && ValueOf(s[0]) == Some(v) && IsCode(s[1..])
    requires Numbered(high, v, 6, s[1..])
    ensures Numbered(high, 0, 0, s)
  {
    assert Low(v, 6) == v;
    MaskedStep(0, 0, v, s, s[1..]);
    CodeUnfolds(high, v, s);
  }

  lemma CodeUnfolds(high: nat, v: sextet, s: Bytes)
    requires IsCode(s) && s != [] && ValueOf(s[0]) == Some(v) && IsCode(s[1..])
    ensures CodeNumber(high, s) == CodeNumber(high * 64 + v, s[1..])
  {
  }

  lemma NumberedNext(high: nat, m: nat, bits: pending, v: sextet, s: Bytes)
    requires IsCode(s) && s != [] && ValueOf(s[0]) == Some(v) && IsCode(s[1..]) && bits != 0 && Fits(m, bits)
    requires var x, bits' := m * 64 + v, BitsAfter(bits);
             Numbered(high * 256 + ByteOut(x, bits'), Low(x, bits'), bits', s[1..])
    ensures Numbered(high, m, bits, s)
  {
    var x, bits' := m * 64 + v, BitsAfter(bits);
    MaskedStep(m, bits, v, s, s[1..]);
    NextByte(high, m, bits, v);
    CodeUnfolds(Above(high, bits, m), v, s);
    PrependNumber(high, ByteOut(x, bits'), Masked(Low(x, bits'), bits', s[1..]).value);
  }

  lemma PrependNumber(high: nat, b: byte, rest: Bytes)
    ensures ByteNumber(high, [b] + rest) == ByteNumber(high * 256 + b, rest)
  {
    assert ([b] + rest)[1..] == rest;
  }

  /**
   Whatever text of the alphabet is decoded, canonical or not, its bytes are the leading whole bytes of
   its bits: as a number, the code without its last `6 * |s| % 8` bits.
   */
  lemma DecodedBytes(s: Bytes)
    requires IsCode(s)
    ensures var bytes, left := DecodeFrom(0, 0, s), BitsLeft(0, |s|);
            && left == 6 * |s| % 8
            && bytes.Some? && |bytes.value| == 6 * |s| / 8
            && ByteNumber(0, bytes.value) == Dropped(CodeNumber(0, s), left)
  {
    DecodesExactlyCode(0, 0, s);
    UnmaskedIsHarmless(0, 0, s);
    MaskedNumber(0, 0, 0, s);
    BitsLeftIs(0, |s|);
  }

  /** Length and number determine the bytes. */
  lemma {:induction false} NumberDeterminesBytes(high: nat, high': nat, a: Bytes, b: Bytes)
    requires |a| == |b| && ByteNumber(high, a) == ByteNumber(high', b)
    ensures a == b && high == high'
    decreases |a|
  {
    if a != [] {
      NumberDeterminesBytes(high * 256 + a[0], high' * 256 + b[0], a[1..], b[1..]);
      assert a == [a[0]] + a[1..] && b == [b[0]] + b[1..];
    }
  }

  /** Encoded text is printable throughout, so it has no line breaks or spaces. */
  lemma EncodedIsPrintable(s: Bytes)
    ensures forall i :: 0 <= i < |Encode(s)| ==> Printable(Encode(s)[i])
  {
    EncodeIsPadded(s);
    UnpaddedIsCode(s);
  }

  lemma EncodedIsNonempty(s: Bytes)
    requires s != []
    ensures |Encode(s)| >= 4
  {
  }
}
