/**
 The proxy's authentication exchange: the client's request, the incremental search for the end of its
 headers over reads of any size, and the parse that hands the rest of the stream on.
 */
module AuthStream {
  import opened Net
  import opened Text
  import opened ProxyAuth
  import Base64

  const HEADER_LIMIT: nat := 64 * 1024
  const CHUNK: nat := 512

  // ---------------------------------------------------------------------------------------------
  // The end of the headers
  // ---------------------------------------------------------------------------------------------

  predicate TerminatorAt(data: Bytes, i: nat) {
    i + 4 <= |data| && data[i] == CR && data[i + 1] == LF && data[i + 2] == CR && data[i + 3] == LF
  }

  /** `windows(4).position(|w| w == b"\r\n\r\n")`. */
  function FirstTerminator(data: Bytes): (r: Option<nat>)
    ensures r.Some? ==> TerminatorAt(data, r.value)
  {
    if |data| < 4 then None
    else if TerminatorAt(data, 0) then Some(0)
    else
      var rest := FirstTerminator(data[1..]);
      if rest.None? then None else Some(rest.value + 1)
  }

  lemma {:induction false} FirstTerminatorIsFirst(data: Bytes, i: nat)
    requires TerminatorAt(data, i)
    ensures FirstTerminator(data).Some? && FirstTerminator(data).value <= i
  {
    if !TerminatorAt(data, 0) {
      assert TerminatorAt(data[1..], i - 1);
      FirstTerminatorIsFirst(data[1..], i - 1);
    }
  }

  lemma FirstTerminatorIs(data: Bytes, i: nat)
    requires TerminatorAt(data, i) && forall j: nat :: j < i ==> !TerminatorAt(data, j)
    ensures FirstTerminator(data) == Some(i)
  {
    FirstTerminatorIsFirst(data, i);
  }

  function SearchFrom(previousLen: nat): nat {
    if previousLen < 3 then 0 else previousLen - 3
  }

  /** A terminator that ends in the new data starts at most three bytes before it. */
  lemma NoTerminatorBefore(data: Bytes, chunk: Bytes, i: nat)
    requires FirstTerminator(data).None? && TerminatorAt(data + chunk, i)
    ensures i >= SearchFrom(|data|)
  {
    if i + 4 <= |data| {
      assert TerminatorAt(data, i);
      FirstTerminatorIsFirst(data, i);
    }
  }

  /** Searching again from three bytes before the new data finds the first terminator of the whole buffer. */
  lemma IncrementalSearchIsComplete(data: Bytes, chunk: Bytes)
    requires FirstTerminator(data).None?
    ensures var from := SearchFrom(|data|);
            var tail := FirstTerminator((data + chunk)[from..]);
            FirstTerminator(data + chunk) == if tail.None? then None else Some(from + tail.value)
  {
    var all, from := data + chunk, SearchFrom(|data|);
    if FirstTerminator(all).Some? {
      NoTerminatorBefore(data, chunk, FirstTerminator(all).value);
    }
    SearchTail(all, from);
  }

  lemma {:induction false} SearchTail(all: Bytes, from: nat)
    requires from <= |all| && (FirstTerminator(all).Some? ==> FirstTerminator(all).value >= from)
    ensures var tail := FirstTerminator(all[from..]);
            FirstTerminator(all) == if tail.None? then None else Some(from + tail.value)
  {
    if from == 0 {
      assert all[0..] == all;
    } else {
      assert all[1..][from - 1..] == all[from..];
      SearchTail(all[1..], from - 1);
    }
  }

  // ---------------------------------------------------------------------------------------------
  // Parsing
  // ---------------------------------------------------------------------------------------------

  datatype Outcome =
    | Accepted(trailing: Bytes) | InvalidCredentials | AuthorizationRequired | ConnectionClosed | TooLarge

  const AUTHORIZATION: Bytes := Ascii("Authorization: ")

  /** The value of the first line with the header's prefix. */
  function AuthorizationValue(lines: seq<Bytes>): Option<Bytes> {
    if lines == [] then None
    else
      var value := StripPrefix(lines[0], AUTHORIZATION);
      if value.Some? then value else AuthorizationValue(lines[1..])
  }

  function HeaderEnd(data: Bytes): (k: nat)
    ensures k <= |data|
  {
    var first := FirstTerminator(data);
    if first.None? then |data| else first.value + 4
  }

  function HeaderLines(data: Bytes): seq<Bytes> {
    Lines(Lossy(data[..HeaderEnd(data)]))
  }

  /** `parse_http_auth_from_bytes`: the request line itself is skipped. */
  function ParseHttpAuth(data: Bytes, auth: Auth): Outcome {
    var lines := HeaderLines(data);
    var value := AuthorizationValue(if lines == [] then [] else lines[1..]);
    if value.None? then AuthorizationRequired
    else if ValidateHeader(auth, Trim(value.value)) then Accepted(data[HeaderEnd(data)..])
    else InvalidCredentials
  }

  predicate IsAuthorization(line: Bytes) {
    |line| >= |AUTHORIZATION| && line[..|AUTHORIZATION|] == AUTHORIZATION
  }

  /** Line `i` is the first after the request line that carries the header. */
  predicate FirstAuthorization(lines: seq<Bytes>, i: nat) {
    && 1 <= i < |lines| && IsAuthorization(lines[i])
    && forall k :: 1 <= k < i ==> !IsAuthorization(lines[k])
  }

  function HeaderValue(line: Bytes): Bytes
    requires IsAuthorization(line)
  {
    Trim(line[|AUTHORIZATION|..])
  }

  lemma {:induction false} ValueOfFirst(lines: seq<Bytes>, i: nat)
    requires i < |lines| && IsAuthorization(lines[i])
    requires forall k :: 0 <= k < i ==> !IsAuthorization(lines[k])
    ensures AuthorizationValue(lines) == Some(lines[i][|AUTHORIZATION|..])
  {
    if i > 0 { ValueOfFirst(lines[1..], i - 1); }
  }

  lemma {:induction false} NoValue(lines: seq<Bytes>)
    requires forall k :: 0 <= k < |lines| ==> !IsAuthorization(lines[k])
    ensures AuthorizationValue(lines).None?
  {
    if lines != [] { NoValue(lines[1..]); }
  }

  /** The header is asked for if and only if no line after the first carries it. */
  lemma RequiredIffMissing(data: Bytes, auth: Auth)
    ensures ParseHttpAuth(data, auth) == AuthorizationRequired
       <==> forall i :: 1 <= i < |HeaderLines(data)| ==> !IsAuthorization(HeaderLines(data)[i])
  {
    var lines := HeaderLines(data);
    if i :| 1 <= i < |lines| && IsAuthorization(lines[i]) {
      var first := FirstOf(lines, i);
      FirstDecides(data, auth, first);
    } else if lines != [] {
      NoValue(lines[1..]);
    }
  }

  lemma {:induction false} FirstOf(lines: seq<Bytes>, i: nat) returns (first: nat)
    requires 1 <= i < |lines| && IsAuthorization(lines[i])
    ensures FirstAuthorization(lines, first)
  {
    if k :| 1 <= k < i && IsAuthorization(lines[k]) {
      first := FirstOf(lines, k);
    } else {
      first := i;
    }
  }

  /** The first line that carries it decides: its trimmed value is accepted or the credentials are invalid. */
  lemma FirstDecides(data: Bytes, auth: Auth, i: nat)
    requires FirstAuthorization(HeaderLines(data), i)
    ensures ParseHttpAuth(data, auth)
         == if ValidateHeader(auth, HeaderValue(HeaderLines(data)[i])) then Accepted(data[HeaderEnd(data)..])
            else InvalidCredentials
  {
    var lines := HeaderLines(data);
    ValueOfFirst(lines[1..], i - 1);
  }

  /** The headers prove these credentials: the first line that carries them decodes to them. */
  ghost predicate Proves(data: Bytes, user: Bytes, pass: Bytes) {
    exists i: nat :: FirstAuthorization(HeaderLines(data), i) && Spells(HeaderValue(HeaderLines(data)[i]), user, pass)
  }

  predicate Spells(value: Bytes, user: Bytes, pass: Bytes) {
    && |value| >= |BASIC| && value[..|BASIC|] == BASIC
    && Base64.Decode(value[|BASIC|..]) == Some(Credentials(user, pass))
    && COLON !in user
  }

  /** The parser accepts if and only if the headers prove the server's credentials. */
  lemma AcceptedIffProved(data: Bytes, user: Bytes, pass: Bytes)
    requires WellFormed(Basic(user, pass))
    ensures ParseHttpAuth(data, Basic(user, pass)).Accepted? <==> Proves(data, user, pass)
  {
    var lines := HeaderLines(data);
    RequiredIffMissing(data, Basic(user, pass));
    if i :| 1 <= i < |lines| && IsAuthorization(lines[i]) {
      var first := FirstOf(lines, i);
      FirstDecides(data, Basic(user, pass), first);
      ValidateIsExact(user, pass, HeaderValue(lines[first]));
      FirstIsUnique(lines, first);
    }
  }

  lemma FirstIsUnique(lines: seq<Bytes>, i: nat)
    requires FirstAuthorization(lines, i)
    ensures forall k: nat :: FirstAuthorization(lines, k) ==> k == i
  {
  }

  // ---------------------------------------------------------------------------------------------
  // Reading
  // ---------------------------------------------------------------------------------------------

  /** What the exchange comes to, and the reads it leaves, by whole-buffer search after each read. */
  function Receive(data: Bytes, chunks: seq<Bytes>, auth: Auth): (Outcome, seq<Bytes>)
    decreases |chunks|
  {
    if chunks == [] || chunks[0] == [] then (ConnectionClosed, if chunks == [] then [] else chunks[1..])
    else
      var grown := data + chunks[0];
      if FirstTerminator(grown).Some? then (ParseHttpAuth(grown, auth), chunks[1..])
      else if |grown| > HEADER_LIMIT then (TooLarge, chunks[1..])
      else Receive(grown, chunks[1..], auth)
  }

  /** `chunks` are the results of successive reads; a read past them, like an empty one, is end of stream. */
  method ValidateHttpAuthStream(chunks: seq<Bytes>, auth: Auth) returns (outcome: Outcome, unread: seq<Bytes>,
                                buffered: nat)
    requires forall i :: 0 <= i < |chunks| ==> |chunks[i]| <= CHUNK
    ensures (outcome, unread) == Receive([], chunks, auth)
    ensures buffered <= HEADER_LIMIT + CHUNK
  {
    var data: Bytes := [];
    var at := 0;
    while true
      invariant 0 <= at <= |chunks| && |data| <= HEADER_LIMIT && FirstTerminator(data).None?
      invariant Receive([], chunks, auth) == Receive(data, chunks[at..], auth)
      decreases |chunks| - at
    {
      if at == |chunks| {
        return ConnectionClosed, [], |data|;
      }
      var chunk := chunks[at];
      at := at + 1;
      assert chunks[at - 1..][1..] == chunks[at..];
      if |chunk| == 0 {
        return ConnectionClosed, chunks[at..], |data|;
      }
      var previousLen := |data|;
      IncrementalSearchIsComplete(data, chunk);
      data := data + chunk;
      if FirstTerminator(data[SearchFrom(previousLen)..]).Some? {
        break;
      }
      if |data| > HEADER_LIMIT {
        return TooLarge, chunks[at..], |data|;
      }
    }
    outcome := ParseHttpAuth(data, auth);
    unread := chunks[at..];
    buffered := |data|;
  }

  // ---------------------------------------------------------------------------------------------
  // The client's request
  // ---------------------------------------------------------------------------------------------

  const CRLF: Bytes := [CR, LF]

  /** The address as text; socket addresses print without spaces or line breaks. */
  predicate IsAddressText(a: Bytes) {
    forall i :: 0 <= i < |a| ==> Printable(a[i])
  }

  function RequestLine(addr: Bytes): Bytes {
    Ascii("CONNECT ") + addr + Ascii(" HTTP/1.1")
  }

  function HostLine(addr: Bytes): Bytes {
    Ascii("Host: ") + addr
  }

  function AuthLine(header: Bytes): Bytes {
    AUTHORIZATION + header
  }

  /** The bytes `ProxyClient::connect` writes. */
  function Request(addr: Bytes, header: Bytes): Bytes {
    ThreeLines(RequestLine(addr), HostLine(addr), AuthLine(header))
  }

  /** A client without credentials writes nothing. */
  function ClientBytes(addr: Bytes, auth: Auth): Bytes {
    var header := EncodeHeader(auth);
    if header.None? then [] else Request(addr, header.value)
  }

  function ThreeLines(l1: Bytes, l2: Bytes, l3: Bytes): Bytes {
    l1 + CRLF + (l2 + CRLF + (l3 + CRLF + CRLF))
  }

  lemma {:induction false} TerminatorAfterLine(line: Bytes, rest: Bytes)
    requires IsLine(line) && rest != [] && rest[0] != CR
    ensures FirstTerminator(line + CRLF + rest)
         == var r := FirstTerminator(rest); if r.None? then None else Some(|line| + 2 + r.value)
  {
    var s := line + CRLF + rest;
    if line == [] {
      assert s[1..][1..] == rest;
    } else {
      assert s[1..] == line[1..] + CRLF + rest;
      TerminatorAfterLine(line[1..], rest);
    }
  }

  lemma TerminatorAfterLastLine(line: Bytes, rest: Bytes)
    requires IsLine(line)
    ensures FirstTerminator(line + CRLF + CRLF + rest) == Some(|line|)
  {
    FirstTerminatorIs(line + CRLF + CRLF + rest, |line|);
  }

  /** Three lines and a blank one: the first terminator is where the blank line begins. */
  lemma TerminatorOfThree(l1: Bytes, l2: Bytes, l3: Bytes, payload: Bytes)
    requires IsLine(l1) && IsLine(l2) && IsLine(l3) && l2 != [] && l3 != []
    ensures FirstTerminator(ThreeLines(l1, l2, l3) + payload) == Some(|ThreeLines(l1, l2, l3)| - 4)
  {
    var tail3 := l3 + CRLF + CRLF + payload;
    var tail2 := l2 + CRLF + tail3;
    TerminatorAfterLastLine(l3, payload);
    TerminatorAfterLine(l2, tail3);
    TerminatorAfterLine(l1, tail2);
    assert l1 + CRLF + (l2 + CRLF + (l3 + CRLF + CRLF)) + payload == l1 + CRLF + tail2;
  }

  lemma LinesOfThree(l1: Bytes, l2: Bytes, l3: Bytes)
    requires IsLine(l1) && IsLine(l2) && IsLine(l3)
    ensures Lines(ThreeLines(l1, l2, l3)) == [l1, l2, l3, []]
  {
    LinesOfTerminated([], []);
    assert [] + CRLF + [] == CRLF && Lines(CRLF) == [[]] + Lines([]);
    var r3 := l3 + CRLF + CRLF;
    var r2 := l2 + CRLF + r3;
    LinesOfTerminated(l3, CRLF);
    LinesOfTerminated(l2, r3);
    LinesOfTerminated(l1, r2);
    ListOfThree(l1, l2, l3, Lines(CRLF), Lines(r3), Lines(r2));
  }

  lemma ListOfThree(l1: Bytes, l2: Bytes, l3: Bytes, last: seq<Bytes>, tail: seq<Bytes>, all: seq<Bytes>)
    requires last == [[]] + [] && tail == [l3] + last && all == [l2] + tail
    ensures [l1] + all == [l1, l2, l3, []]
  {
  }

  lemma LineConcat(a: Bytes, b: Bytes)
    requires IsLine(a) && IsLine(b)
    ensures IsLine(a + b)
  {
  }

  lemma RequestLineIsLine(addr: Bytes)
    requires IsLine(addr)
    ensures IsLine(RequestLine(addr))
  {
    var verb, version := Ascii("CONNECT "), Ascii(" HTTP/1.1");
    LineConcat(verb, addr);
    LineConcat(verb + addr, version);
  }

  lemma HeaderLinesAreLines(addr: Bytes, header: Bytes)
    requires IsLine(addr) && IsLine(header)
    ensures IsLine(HostLine(addr)) && IsLine(AuthLine(header))
  {
    LineConcat(Ascii("Host: "), addr);
    LineConcat(AUTHORIZATION, header);
  }

  lemma ThreeLinesAreAscii(l1: Bytes, l2: Bytes, l3: Bytes)
    requires IsLine(l1) && IsLine(l2) && IsLine(l3)
    ensures IsAscii(ThreeLines(l1, l2, l3))
  {
  }

  lemma HeaderIsLine(user: Bytes, pass: Bytes)
    ensures var h := EncodeHeader(Basic(user, pass)).value; IsLine(h) && |h| >= 10 && Trim(h) == h
  {
    var code := Base64.Encode(Credentials(user, pass));
    Base64.EncodedIsPrintable(Credentials(user, pass));
    Base64.EncodedIsNonempty(Credentials(user, pass));
    assert IsLine(BASIC);
    LineConcat(BASIC, code);
    var h := BASIC + code;
    assert h[0] == BASIC[0] == 66 && h[|h| - 1] == code[|code| - 1];
    TrimKeepsPrintable(h);
  }

  /** What the client writes, as the server's lines: request line, host, credentials, and the blank line. */
  lemma ClientLines(addr: Bytes, user: Bytes, pass: Bytes)
    requires IsAddressText(addr)
    ensures ClientBytes(addr, NoAuth) == []
    ensures HeaderLines(ClientBytes(addr, Basic(user, pass))) ==
              [Ascii("CONNECT ") + addr + Ascii(" HTTP/1.1"),
               Ascii("Host: ") + addr,
               Ascii("Authorization: ") + EncodeHeader(Basic(user, pass)).value,
               []]
  {
    var header := EncodeHeader(Basic(user, pass)).value;
    HeaderIsLine(user, pass);
    RequestLineIsLine(addr);
    HeaderLinesAreLines(addr, header);
    HostIsNotAuthorization(addr);
    AuthorizationStart();
    HeaderOfThree(RequestLine(addr), HostLine(addr), AuthLine(header), []);
    assert Request(addr, header) + [] == Request(addr, header);
  }

  /** Parsing three lines of which the last is the authorization header. */
  lemma ThreeLinesParse(l1: Bytes, l2: Bytes, l3: Bytes, value: Bytes, payload: Bytes, auth: Auth)
    requires IsLine(l1) && IsLine(l2) && IsLine(l3) && l2 != [] && l3 != []
    requires StripPrefix(l2, AUTHORIZATION).None? && StripPrefix(l3, AUTHORIZATION) == Some(value)
    requires Trim(value) == value
    ensures ParseHttpAuth(ThreeLines(l1, l2, l3) + payload, auth)
         == if ValidateHeader(auth, value) then Accepted(payload) else InvalidCredentials
  {
    var data := ThreeLines(l1, l2, l3) + payload;
    HeaderOfThree(l1, l2, l3, payload);
    var lines := HeaderLines(data);
    ValueInThree(lines, value);
  }

  lemma HeaderOfThree(l1: Bytes, l2: Bytes, l3: Bytes, payload: Bytes)
    requires IsLine(l1) && IsLine(l2) && IsLine(l3) && l2 != [] && l3 != []
    ensures var data := ThreeLines(l1, l2, l3) + payload;
            && data[HeaderEnd(data)..] == payload
            && Lines(Lossy(data[..HeaderEnd(data)])) == [l1, l2, l3, []]
  {
    var request := ThreeLines(l1, l2, l3);
    TerminatorOfThree(l1, l2, l3, payload);
    var data := request + payload;
    assert data[..|request|] == request && data[|request|..] == payload;
    ThreeLinesAreAscii(l1, l2, l3);
    AsciiIsValid(request);
    LossyKeepsValid(request);
    LinesOfThree(l1, l2, l3);
  }

  lemma ValueInThree(lines: seq<Bytes>, value: Bytes)
    requires |lines| == 4 && StripPrefix(lines[1], AUTHORIZATION).None?
    requires StripPrefix(lines[2], AUTHORIZATION) == Some(value)
    ensures AuthorizationValue(lines[1..]) == Some(value)
  {
    ValueInRest(lines[1..]);
    ValueInFirst(lines[1..][1..], value);
  }

  lemma ValueInFirst(lines: seq<Bytes>, value: Bytes)
    requires lines != [] && StripPrefix(lines[0], AUTHORIZATION) == Some(value)
    ensures AuthorizationValue(lines) == Some(value)
  {
  }

  lemma ValueInRest(lines: seq<Bytes>)
    requires lines != [] && StripPrefix(lines[0], AUTHORIZATION).None?
    ensures AuthorizationValue(lines) == AuthorizationValue(lines[1..])
  {
  }

  lemma DifferentStart(s: Bytes, prefix: Bytes)
    requires s != [] && prefix != [] && s[0] != prefix[0]
    ensures StripPrefix(s, prefix).None?
  {
    if |s| >= |prefix| { assert s[..|prefix|][0] == s[0]; }
  }

  lemma AuthorizationStart()
    ensures AUTHORIZATION != [] && AUTHORIZATION[0] == 65
  {
  }

  lemma HostStart(addr: Bytes)
    ensures HostLine(addr) != [] && HostLine(addr)[0] == 72
  {
    assert Ascii("Host: ")[0] == 72;
  }

  lemma HostIsNotAuthorization(addr: Bytes)
    ensures HostLine(addr) != [] && StripPrefix(HostLine(addr), AUTHORIZATION).None?
  {
    AuthorizationStart();
    HostStart(addr);
    DifferentStart(HostLine(addr), AUTHORIZATION);
  }

  lemma PrefixStrips(prefix: Bytes, value: Bytes)
    ensures StripPrefix(prefix + value, prefix) == Some(value)
  {
    assert (prefix + value)[..|prefix|] == prefix && (prefix + value)[|prefix|..] == value;
  }

  /** With this payload behind it, the request's first terminator is its own end and it is answered. */
  predicate Answered(request: Bytes, auth: Auth, ok: bool, payload: Bytes)
    requires |request| >= 4
  {
    && FirstTerminator(request + payload) == Some(|request| - 4)
    && ParseHttpAuth(request + payload, auth) == if ok then Accepted(payload) else InvalidCredentials
  }

  ghost predicate ParsesBack(request: Bytes, auth: Auth, ok: bool) {
    |request| >= 4 && forall payload: Bytes :: Answered(request, auth, ok, payload)
  }

  lemma ThreeLinesParseBack(l1: Bytes, l2: Bytes, l3: Bytes, value: Bytes, auth: Auth)
    requires IsLine(l1) && IsLine(l2) && IsLine(l3) && l2 != [] && l3 != []
    requires StripPrefix(l2, AUTHORIZATION).None? && StripPrefix(l3, AUTHORIZATION) == Some(value)
    requires Trim(value) == value
    ensures ParsesBack(ThreeLines(l1, l2, l3), auth, ValidateHeader(auth, value))
  {
    forall payload: Bytes ensures Answered(ThreeLines(l1, l2, l3), auth, ValidateHeader(auth, value), payload) {
      TerminatorOfThree(l1, l2, l3, payload);
      ThreeLinesParse(l1, l2, l3, value, payload, auth);
    }
  }

  predicate ColonFree(user: Bytes) { COLON !in user }

  /** The parser finds the client's own header and hands on exactly what follows the request. */
  lemma RequestParsesBack(addr: Bytes, user: Bytes, pass: Bytes)
    requires IsAddressText(addr) && WellFormed(Basic(user, pass))
    ensures var ok := ColonFree(user);
            ParsesBack(Request(addr, EncodeHeader(Basic(user, pass)).value), Basic(user, pass), ok)
  {
    var header := EncodeHeader(Basic(user, pass)).value;
    HeaderIsLine(user, pass);
    RequestLineIsLine(addr);
    HeaderLinesAreLines(addr, header);
    HostIsNotAuthorization(addr);
    PrefixStrips(AUTHORIZATION, header);
    EncodedHeaderValidates(user, pass);
    ThreeLinesParseBack(RequestLine(addr), HostLine(addr), AuthLine(header), header, Basic(user, pass));
  }

  // ---------------------------------------------------------------------------------------------
  // End to end
  // ---------------------------------------------------------------------------------------------

  function Concat(chunks: seq<Bytes>): Bytes {
    if chunks == [] then [] else chunks[0] + Concat(chunks[1..])
  }

  /** The results of successive reads of a stream, none of them empty. */
  predicate Splits(chunks: seq<Bytes>, stream: Bytes) {
    Concat(chunks) == stream && forall c <- chunks :: c != []
  }

  /** The first `end` bytes hold no terminator. */
  predicate Unterminated(stream: Bytes, end: nat) {
    FirstTerminator(stream).None? || end < FirstTerminator(stream).value + 4
  }

  lemma UnterminatedPrefix(stream: Bytes, data: Bytes, rest: Bytes)
    requires stream == data + rest && Unterminated(stream, |data|)
    ensures FirstTerminator(data).None?
  {
    if FirstTerminator(data).Some? {
      assert TerminatorAt(stream, FirstTerminator(data).value);
      FirstTerminatorIsFirst(stream, FirstTerminator(data).value);
    }
  }

  lemma CutAfter(block: Bytes, payload: Bytes, grown: Bytes, rest: Bytes) returns (handedOn: Bytes)
    requires grown + rest == block + payload && |grown| >= |block|
    ensures grown == block + handedOn && payload == handedOn + rest
  {
    handedOn := grown[|block|..];
    assert grown[..|block|] == (grown + rest)[..|block|] == block;
    assert payload == (block + payload)[|block|..] == (grown + rest)[|block|..];
  }

  /** A header block, well formed or not: it ends with its first terminator. */
  predicate IsBlock(block: Bytes) {
    |block| >= 4 && FirstTerminator(block) == Some(|block| - 4)
  }

  /** The same answer, with more bytes behind it. */
  function FollowedBy(answer: Outcome, rest: Bytes): Outcome {
    if answer.Accepted? then Accepted(answer.trailing + rest) else answer
  }

  lemma BlockEndsHeaders(block: Bytes, rest: Bytes)
    requires IsBlock(block)
    ensures FirstTerminator(block + rest) == Some(|block| - 4)
  {
    FirstStays(block, rest, |block| - 4);
  }

  /** Bytes behind a block change nothing but what is handed on. */
  lemma BlockDecides(block: Bytes, rest: Bytes, auth: Auth)
    requires IsBlock(block)
    ensures ParseHttpAuth(block + rest, auth) == FollowedBy(ParseHttpAuth(block, auth), rest)
  {
    BlockEndsHeaders(block, rest);
    assert (block + rest)[..|block|] == block == block[..|block|];
    assert (block + rest)[|block|..] == rest == block[|block|..] + rest;
  }

  /** The exchange ends with the block's own answer, and all that followed the block is still to come. */
  predicate Answers(end: (Outcome, seq<Bytes>), answer: Outcome, payload: Bytes) {
    if answer.Accepted? then end.0.Accepted? && end.0.trailing + Concat(end.1) == answer.trailing + payload
    else end.0 == answer
  }

  lemma ConcatSplit(chunks: seq<Bytes>, data: Bytes)
    requires chunks != []
    ensures data + Concat(chunks) == data + chunks[0] + Concat(chunks[1..])
  {
  }

  lemma BlockGoesOn(block: Bytes, payload: Bytes, auth: Auth, data: Bytes, chunks: seq<Bytes>)
    requires IsBlock(block) && |block| <= HEADER_LIMIT + 1 && chunks != [] && chunks[0] != []
    requires data + chunks[0] + Concat(chunks[1..]) == block + payload && |data + chunks[0]| < |block|
    ensures Receive(data, chunks, auth) == Receive(data + chunks[0], chunks[1..], auth)
  {
    BlockEndsHeaders(block, payload);
    UnterminatedPrefix(block + payload, data + chunks[0], Concat(chunks[1..]));
  }

  lemma BlockComplete(block: Bytes, payload: Bytes, auth: Auth, data: Bytes, chunks: seq<Bytes>)
    requires IsBlock(block) && chunks != [] && chunks[0] != []
    requires data + chunks[0] + Concat(chunks[1..]) == block + payload && |data + chunks[0]| >= |block|
    ensures Answers(Receive(data, chunks, auth), ParseHttpAuth(block, auth), payload)
  {
    var rest := Concat(chunks[1..]);
    var handedOn := CutAfter(block, payload, data + chunks[0], rest);
    BlockEndsHeaders(block, handedOn);
    BlockDecides(block, handedOn, auth);
    var answer := ParseHttpAuth(block, auth);
    if answer.Accepted? {
      assert answer.trailing + handedOn + rest == answer.trailing + (handedOn + rest);
    }
  }

  /** From any point of the exchange before the end of the block. */
  lemma {:induction false} ExchangeContinues(block: Bytes, payload: Bytes, auth: Auth, data: Bytes, chunks: seq<Bytes>)
    requires IsBlock(block) && |block| <= HEADER_LIMIT + 1
    requires data + Concat(chunks) == block + payload && |data| < |block|
    requires forall c <- chunks :: c != []
    ensures Answers(Receive(data, chunks, auth), ParseHttpAuth(block, auth), payload)
    decreases |chunks|
  {
    if chunks == [] {
      assert false;
    } else {
      assert chunks[0] in chunks;
      ConcatSplit(chunks, data);
      assert forall c <- chunks[1..] :: c in chunks;
      if |data + chunks[0]| < |block| {
        BlockGoesOn(block, payload, auth, data, chunks);
        ExchangeContinues(block, payload, auth, data + chunks[0], chunks[1..]);
      } else {
        BlockComplete(block, payload, auth, data, chunks);
      }
    }
  }

  /**
   Any header block from anyone, of at most one byte over 64 KiB, with any payload behind it and any
   split into nonempty reads: the exchange gives the answer the parser gives the block alone, and if it
   accepts, what it hands on followed by what it leaves unread is exactly the payload.
   */
  lemma AnySplitAnswers(block: Bytes, payload: Bytes, auth: Auth, chunks: seq<Bytes>)
    requires IsBlock(block) && |block| <= HEADER_LIMIT + 1 && Splits(chunks, block + payload)
    ensures var (outcome, unread) := Receive([], chunks, auth);
            if ParseHttpAuth(block, auth).Accepted?
            then outcome.Accepted? && outcome.trailing + Concat(unread) == payload
            else outcome == ParseHttpAuth(block, auth)
  {
    assert [] + Concat(chunks) == Concat(chunks);
    ExchangeContinues(block, payload, auth, [], chunks);
    assert block[|block|..] + payload == payload;
  }

  /** A block of that size is accepted, in any split, if and only if it proves the server's credentials. */
  lemma AnySplitAcceptsIffProved(block: Bytes, payload: Bytes, user: Bytes, pass: Bytes, chunks: seq<Bytes>)
    requires IsBlock(block) && |block| <= HEADER_LIMIT + 1 && Splits(chunks, block + payload)
    requires WellFormed(Basic(user, pass))
    ensures Receive([], chunks, Basic(user, pass)).0.Accepted? <==> Proves(block, user, pass)
  {
    AnySplitAnswers(block, payload, Basic(user, pass), chunks);
    AcceptedIffProved(block, user, pass);
  }

  /** Whatever is sent, in whatever reads, nobody is accepted whose headers do not prove the credentials. */
  lemma {:induction false} AcceptanceIsProved(user: Bytes, pass: Bytes, data: Bytes, chunks: seq<Bytes>)
    requires WellFormed(Basic(user, pass)) && Receive(data, chunks, Basic(user, pass)).0.Accepted?
    ensures Proves(data + Concat(chunks), user, pass)
    decreases |chunks|
  {
    assert chunks != [] && chunks[0] != [];
    ConcatSplit(chunks, data);
    if FirstTerminator(data + chunks[0]).Some? {
      AcceptedIffProved(data + chunks[0], user, pass);
      MoreStillProves(data + chunks[0], Concat(chunks[1..]), user, pass);
    } else {
      AcceptanceIsProved(user, pass, data + chunks[0], chunks[1..]);
    }
  }

  lemma SameHeaderLines(data: Bytes, rest: Bytes)
    requires FirstTerminator(data).Some?
    ensures HeaderLines(data + rest) == HeaderLines(data)
  {
    var end := FirstTerminator(data).value;
    FirstStays(data, rest, end);
    SameFront(data, rest, end + 4);
  }

  lemma SameFront(data: Bytes, rest: Bytes, n: nat)
    requires n <= |data|
    ensures (data + rest)[..n] == data[..n]
  {
  }

  lemma FirstStays(data: Bytes, rest: Bytes, end: nat)
    requires FirstTerminator(data) == Some(end)
    ensures FirstTerminator(data + rest) == Some(end)
  {
    var all := data + rest;
    assert TerminatorAt(all, end);
    forall j: nat | j < end ensures !TerminatorAt(all, j) {
      if TerminatorAt(all, j) {
        assert TerminatorAt(data, j);
        FirstTerminatorIsFirst(data, j);
      }
    }
    FirstTerminatorIs(all, end);
  }

  lemma MoreStillProves(data: Bytes, rest: Bytes, user: Bytes, pass: Bytes)
    requires FirstTerminator(data).Some? && Proves(data, user, pass)
    ensures Proves(data + rest, user, pass)
  {
    SameHeaderLines(data, rest);
  }

  /**
   The client's own request, in any split: accepted exactly when the user name has no colon, and what
   is handed on followed by what is left unread is exactly the payload.
   */
  lemma AnySplitAuthenticates(addr: Bytes, user: Bytes, pass: Bytes, request: Bytes, payload: Bytes, chunks: seq<Bytes>)
    requires IsAddressText(addr) && WellFormed(Basic(user, pass))
    requires request == Request(addr, EncodeHeader(Basic(user, pass)).value) && |request| <= HEADER_LIMIT + 1
    requires Splits(chunks, request + payload)
    ensures var (outcome, unread) := Receive([], chunks, Basic(user, pass));
            if ColonFree(user) then outcome.Accepted? && outcome.trailing + Concat(unread) == payload
            else outcome == InvalidCredentials
  {
    var ok := ColonFree(user);
    RequestParsesBack(addr, user, pass);
    RequestIsBlock(request, Basic(user, pass), ok);
    AnySplitAnswers(request, payload, Basic(user, pass), chunks);
  }

  lemma RequestIsBlock(request: Bytes, auth: Auth, ok: bool)
    requires ParsesBack(request, auth, ok)
    ensures IsBlock(request) && ParseHttpAuth(request, auth) == if ok then Accepted([]) else InvalidCredentials
  {
    assert Answered(request, auth, ok, []);
    assert request + [] == request;
  }

  // ---------------------------------------------------------------------------------------------
  // Streams that are not a short block
  // ---------------------------------------------------------------------------------------------

  predicate ReadsOfChunk(chunks: seq<Bytes>) {
    forall c <- chunks :: |c| <= CHUNK
  }

  /** A stream that ends within 64 KiB without a terminator comes to a closed connection. */
  lemma {:induction false} UnfinishedIsClosed(stream: Bytes, auth: Auth, data: Bytes, chunks: seq<Bytes>)
    requires data + Concat(chunks) == stream && |stream| <= HEADER_LIMIT && FirstTerminator(stream).None?
    requires forall c <- chunks :: c != []
    ensures Receive(data, chunks, auth).0 == ConnectionClosed
    decreases |chunks|
  {
    if chunks != [] {
      ConcatSplit(chunks, data);
      UnterminatedPrefix(stream, data + chunks[0], Concat(chunks[1..]));
      assert chunks[0] in chunks && forall c <- chunks[1..] :: c in chunks;
      UnfinishedIsClosed(stream, auth, data + chunks[0], chunks[1..]);
    }
  }

  /** A stream without a terminator in its first 64 KiB + 512 bytes, or before its end, is too large. */
  lemma {:induction false} OversizeIsRefused(stream: Bytes, auth: Auth, data: Bytes, chunks: seq<Bytes>)
    requires data + Concat(chunks) == stream && |data| <= HEADER_LIMIT < |stream|
    requires Unterminated(stream, if |stream| < HEADER_LIMIT + CHUNK then |stream| else HEADER_LIMIT + CHUNK)
    requires ReadsOfChunk(chunks) && forall c <- chunks :: c != []
    ensures Receive(data, chunks, auth).0 == TooLarge
    decreases |chunks|
  {
    if chunks == [] {
      assert false;
    } else {
      assert chunks[0] in chunks;
      ConcatSplit(chunks, data);
      UnterminatedPrefix(stream, data + chunks[0], Concat(chunks[1..]));
      assert forall c <- chunks[1..] :: c in chunks;
      if |data + chunks[0]| <= HEADER_LIMIT {
        OversizeIsRefused(stream, auth, data + chunks[0], chunks[1..]);
      }
    }
  }

  /** Reads that neither finish the headers nor exceed the limit only fill the buffer. */
  lemma {:induction false} ReadsThrough(data: Bytes, chunks: seq<Bytes>, more: seq<Bytes>, auth: Auth, stream: Bytes)
    requires data + Concat(chunks) == stream && |stream| <= HEADER_LIMIT && FirstTerminator(stream).None?
    requires forall c <- chunks :: c != []
    ensures Receive(data, chunks + more, auth) == Receive(stream, more, auth)
    decreases |chunks|
  {
    if chunks == [] {
      assert data == stream && chunks + more == more;
    } else {
      ConcatSplit(chunks, data);
      UnterminatedPrefix(stream, data + chunks[0], Concat(chunks[1..]));
      assert chunks[0] in chunks && forall c <- chunks[1..] :: c in chunks;
      assert (chunks + more)[0] == chunks[0] && (chunks + more)[1..] == chunks[1..] + more;
      ReadsThrough(data + chunks[0], chunks[1..], more, auth, stream);
    }
  }

  /** A read of nothing ends the exchange, whatever would have come after it. */
  lemma EmptyReadCloses(chunks: seq<Bytes>, more: seq<Bytes>, auth: Auth, stream: Bytes)
    requires Splits(chunks, stream) && |stream| <= HEADER_LIMIT && FirstTerminator(stream).None?
    ensures Receive([], chunks + ([[]] + more), auth) == (ConnectionClosed, more)
  {
    assert [] + Concat(chunks) == stream;
    ReadsThrough([], chunks, [[]] + more, auth, stream);
    assert ([[]] + more)[0] == [] && ([[]] + more)[1..] == more;
  }

  /** Full reads, and a last one with what is left. */
  function FullReads(stream: Bytes): seq<Bytes>
    decreases |stream|
  {
    if stream == [] then []
    else if |stream| <= CHUNK then [stream]
    else [stream[..CHUNK]] + FullReads(stream[CHUNK..])
  }

  lemma {:induction false} FullReadsSplit(stream: Bytes)
    ensures Splits(FullReads(stream), stream) && ReadsOfChunk(FullReads(stream))
    decreases |stream|
  {
    if |stream| > CHUNK {
      FullReadsSplit(stream[CHUNK..]);
      assert stream[..CHUNK] + stream[CHUNK..] == stream;
      var rest := FullReads(stream[CHUNK..]);
      assert ([stream[..CHUNK]] + rest)[1..] == rest;
    }
  }

  lemma {:induction false} ConcatAppend(chunks: seq<Bytes>, more: seq<Bytes>)
    ensures Concat(chunks + more) == Concat(chunks) + Concat(more)
  {
    if chunks == [] {
      assert chunks + more == more;
    } else {
      assert (chunks + more)[0] == chunks[0] && (chunks + more)[1..] == chunks[1..] + more;
      ConcatAppend(chunks[1..], more);
      assert chunks[0] + (Concat(chunks[1..]) + Concat(more)) == chunks[0] + Concat(chunks[1..]) + Concat(more);
    }
  }

  lemma SomeReadsAnswer(block: Bytes, front: Bytes, last: Bytes, auth: Auth) returns (chunks: seq<Bytes>)
    requires IsBlock(block) && front + last == block && |front| == HEADER_LIMIT && 0 < |last| <= CHUNK
    ensures Splits(chunks, block) && ReadsOfChunk(chunks) && Receive([], chunks, auth).0 == ParseHttpAuth(block, auth)
  {
    FullReadsSplit(front);
    UnterminatedPrefix(block, front, last);
    EndsWith([last], last);
    chunks := LastReads(block, front, last, FullReads(front), [last]);
    LastReadAnswers(front, last, block, auth);
    assert [] + Concat(FullReads(front)) == front;
    ReadsThrough([], FullReads(front), [last], auth, front);
  }

  lemma SomeReadsRefuse(block: Bytes, front: Bytes, one: Bytes, rest: Bytes, auth: Auth) returns (chunks: seq<Bytes>)
    requires IsBlock(block) && front + (one + rest) == block
    requires |front| == HEADER_LIMIT && |one| == 1 && 0 < |rest| <= CHUNK
    ensures Splits(chunks, block) && ReadsOfChunk(chunks) && Receive([], chunks, auth).0 == TooLarge
  {
    FullReadsSplit(front);
    UnterminatedPrefix(block, front, one + rest);
    EndsWith([one, rest], one + rest);
    chunks := LastReads(block, front, one + rest, FullReads(front), [one, rest]);
    LastReadRefused(front, one, rest, block, auth);
    assert [] + Concat(FullReads(front)) == front;
    ReadsThrough([], FullReads(front), [one, rest], auth, front);
  }

  lemma EndsWith(ends: seq<Bytes>, last: Bytes)
    requires (|ends| == 1 && ends[0] == last) || (|ends| == 2 && ends[0] + ends[1] == last)
    ensures Concat(ends) == last
  {
    assert Concat([]) == [];
    if |ends| == 1 {
      assert ends[1..] == [];
      assert Concat(ends) == ends[0] + [];
    } else {
      assert ends[1..] == [ends[1]] && ends[1..][1..] == [];
      assert Concat(ends[1..]) == ends[1] + [];
    }
  }

  /**
   For a block of the sizes in between the answer depends on the split: some reads of at most 512 bytes
   get the block's answer, others find it too large.
   */
  lemma OutcomeDependsOnSplit(block: Bytes, auth: Auth) returns (answered: seq<Bytes>, refused: seq<Bytes>)
    requires IsBlock(block) && HEADER_LIMIT + 2 <= |block| <= HEADER_LIMIT + CHUNK
    ensures Splits(answered, block) && ReadsOfChunk(answered)
    ensures Splits(refused, block) && ReadsOfChunk(refused)
    ensures Receive([], answered, auth).0 == ParseHttpAuth(block, auth)
    ensures Receive([], refused, auth).0 == TooLarge
  {
    var front, last := block[..HEADER_LIMIT], block[HEADER_LIMIT..];
    answered := SomeReadsAnswer(block, front, last, auth);
    assert last[..1] + last[1..] == last;
    refused := SomeReadsRefuse(block, front, last[..1], last[1..], auth);
  }

  lemma LastReads(block: Bytes, front: Bytes, last: Bytes, full: seq<Bytes>,
                  ends: seq<Bytes>) returns (chunks: seq<Bytes>)
    requires front + last == block && Splits(full, front) && ReadsOfChunk(full)
    requires Splits(ends, last) && ReadsOfChunk(ends)
    ensures chunks == full + ends && Splits(chunks, block) && ReadsOfChunk(chunks)
  {
    chunks := full + ends;
    ConcatAppend(full, ends);
  }

  lemma LastReadAnswers(front: Bytes, last: Bytes, block: Bytes, auth: Auth)
    requires IsBlock(block) && front + last == block && last != []
    ensures Receive(front, [last], auth).0 == ParseHttpAuth(block, auth)
  {
  }

  lemma LastReadRefused(front: Bytes, one: Bytes, rest: Bytes, block: Bytes, auth: Auth)
    requires IsBlock(block) && front + (one + rest) == block
    requires |front| == HEADER_LIMIT && |one| == 1 && |block| >= HEADER_LIMIT + 2
    ensures Receive(front, [one, rest], auth).0 == TooLarge
  {
    assert front + one + rest == block;
    UnterminatedPrefix(block, front + one, rest);
  }
}
