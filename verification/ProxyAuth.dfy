/** Basic credentials in a header (section 2 of RFC 7617) and their check. */
module ProxyAuth {
  import opened Net
  import opened Text
  import Base64

  /** User name and password are UTF-8 text. */
  datatype Auth = NoAuth | Basic(user: Bytes, pass: Bytes)

  const BASIC: Bytes := Ascii("Basic ")

  function Credentials(user: Bytes, pass: Bytes): Bytes {
    user + [COLON] + pass
  }

  function EncodeHeader(auth: Auth): Option<Bytes> {
    match auth
    case NoAuth => None
    case Basic(user, pass) => Some(BASIC + Base64.Encode(Credentials(user, pass)))
  }

  /** `split_once(':')`. */
  function SplitOnce(s: Bytes): Option<(Bytes, Bytes)> {
    var k := IndexOf(s, COLON);
    if k == |s| then None else Some((s[..k], s[k + 1..]))
  }

  predicate ValidateHeader(auth: Auth, header: Bytes) {
    match auth
    case NoAuth => false
    case Basic(user, pass) =>
      match StripPrefix(header, BASIC)
      case None => false
      case Some(payload) =>
        match Base64.Decode(payload)
        case None => false
        case Some(decoded) =>
          ValidUtf8(decoded) &&
          match SplitOnce(decoded)
          case None => false
          case Some((u, p)) => u == user && p == pass
  }

  ghost predicate WellFormed(auth: Auth) {
    auth.Basic? ==> ValidUtf8(auth.user) && ValidUtf8(auth.pass)
  }

  lemma SplitOnceIsExact(s: Bytes, user: Bytes, pass: Bytes)
    ensures SplitOnce(s) == Some((user, pass)) <==> s == Credentials(user, pass) && COLON !in user
  {
    var k := IndexOf(s, COLON);
    if s == Credentials(user, pass) && COLON !in user {
      assert s[|user|] == COLON;
      assert k >= |user| by { assert forall i :: 0 <= i < |user| ==> s[i] == user[i] && user[i] in user; }
      assert s[..k] == user && s[k + 1..] == pass;
    }
    if k < |s| { assert s == s[..k] + [COLON] + s[k + 1..]; }
  }

  lemma CredentialsAreValid(user: Bytes, pass: Bytes)
    requires ValidUtf8(user) && ValidUtf8(pass)
    ensures ValidUtf8(Credentials(user, pass))
  {
    AsciiIsValid([COLON]);
    ValidConcat(user, [COLON]);
    ValidConcat(user + [COLON], pass);
  }

  /** A header is accepted exactly when it is "Basic " and text that decodes to user ":" pass, user colon-free. */
  lemma ValidateIsExact(user: Bytes, pass: Bytes, header: Bytes)
    requires WellFormed(Basic(user, pass))
    ensures ValidateHeader(Basic(user, pass), header) <==>
              && |header| >= |BASIC| && header[..|BASIC|] == BASIC
              && Base64.Decode(header[|BASIC|..]) == Some(Credentials(user, pass))
              && COLON !in user
  {
    CredentialsAreValid(user, pass);
    if |header| >= |BASIC| && Base64.Decode(header[|BASIC|..]).Some? {
      SplitOnceIsExact(Base64.Decode(header[|BASIC|..]).value, user, pass);
    }
  }

  /** The header, spelled out. */
  lemma HeaderText(user: Bytes, pass: Bytes)
    ensures EncodeHeader(Basic(user, pass)) == Some([66, 97, 115, 105, 99, 32] + Base64.Encode(user + [58] + pass))
  {
    assert BASIC == [66, 97, 115, 105, 99, 32];
  }

  /** Without credentials there is no header, and no header is accepted. */
  lemma NoAuthAcceptsNothing(header: Bytes)
    ensures EncodeHeader(NoAuth).None? && !ValidateHeader(NoAuth, header)
  {
  }

  /** Encoded credentials are accepted by their owner exactly when the user name has no colon. */
  lemma EncodedHeaderValidates(user: Bytes, pass: Bytes)
    requires WellFormed(Basic(user, pass))
    ensures ValidateHeader(Basic(user, pass), EncodeHeader(Basic(user, pass)).value) <==> COLON !in user
  {
    var header := EncodeHeader(Basic(user, pass)).value;
    ValidateIsExact(user, pass, header);
    Base64.RoundTrip(Credentials(user, pass));
    assert header[..|BASIC|] == BASIC && header[|BASIC|..] == Base64.Encode(Credentials(user, pass));
  }

  /** Credentials with a colon-free user accept each other's headers only if they are the same. */
  lemma HeadersIdentifyCredentials(a: Auth, b: Auth)
    requires a.Basic? && b.Basic? && WellFormed(a) && WellFormed(b)
    requires COLON !in a.user && COLON !in b.user
    ensures ValidateHeader(b, EncodeHeader(a).value) <==> a == b
  {
    var header := EncodeHeader(a).value;
    ValidateIsExact(b.user, b.pass, header);
    Base64.RoundTrip(Credentials(a.user, a.pass));
    assert header[..|BASIC|] == BASIC && header[|BASIC|..] == Base64.Encode(Credentials(a.user, a.pass));
    SplitOnceIsExact(Credentials(a.user, a.pass), a.user, a.pass);
    SplitOnceIsExact(Credentials(a.user, a.pass), b.user, b.pass);
  }
}
