/** Preview paths: how they are printed, and how the proxy takes them apart. */
module ProxyPath {
  import opened Prelude
  import Strings = Text
  import Uri = UriComponent
  import Identity
  import Base64Url

  // ----- The patterns -----

  const STANDARD := "/proxy/"
  const SIGNED := "/proxy/" + "signed/"
  const PORTS := "/ports/"

  /** What a pattern captures. */
  datatype Parts = Parts(segment: string, digits: string, tail: string)

  predicate NotSlash(c: char) { c != '/' }

  predicate Digit(c: char) { '0' <= c <= '9' }

  /** What a dot in a pattern matches. */
  predicate NotTerminator(c: char) {
    c != '\n' && c != '\r' && c != '\U{2028}' && c != '\U{2029}'
  }

  predicate All(ok: char -> bool, s: string) {
    forall i :: 0 <= i < |s| ==> ok(s[i])
  }

  predicate IsTail(s: string) {
    s == "" || (s[0] == '/' && All(NotTerminator, s[1..]))
  }

  predicate WellFormed(p: Parts) {
    && p.segment != "" && All(NotSlash, p.segment)
    && p.digits != "" && All(Digit, p.digits)
    && IsTail(p.tail)
  }

  /** The meaning of the pattern that starts with `prefix`. */
  ghost predicate Matches(prefix: string, path: string, p: Parts) {
    WellFormed(p) && path == prefix + (p.segment + (PORTS + (p.digits + p.tail)))
  }

  // ----- A matcher that never goes back -----

  /** How many characters at the front are `ok`. */
  function Span(ok: char -> bool, s: string): (n: nat)
    ensures n <= |s|
  {
    if s != "" && ok(s[0]) then 1 + Span(ok, s[1..]) else 0
  }

  function MatchEnd(segment: string, s: string): Option<Parts> {
    var n := Span(Digit, s);
    if n > 0 && IsTail(s[n..]) then Some(Parts(segment, s[..n], s[n..])) else None
  }

  function MatchRest(s: string): Option<Parts> {
    var n := Span(NotSlash, s);
    if n > 0 && PORTS <= s[n..] then MatchEnd(s[..n], s[n..][|PORTS|..]) else None
  }

  function Match(prefix: string, path: string): Option<Parts> {
    if prefix <= path then MatchRest(path[|prefix|..]) else None
  }

  lemma {:induction false} SpanMeaning(ok: char -> bool, s: string)
    ensures var n := Span(ok, s);
            All(ok, s[..n]) && (n < |s| ==> !ok(s[n]))
    decreases |s|
  {
    if s != "" && ok(s[0]) {
      SpanMeaning(ok, s[1..]);
      var n := Span(ok, s);
      assert s[..n] == [s[0]] + s[1..][..n - 1];
    }
  }

  lemma {:induction false} SpanOfConcat(ok: char -> bool, a: string, b: string)
    requires All(ok, a) && (b == "" || !ok(b[0]))
    ensures Span(ok, a + b) == |a| && (a + b)[..|a|] == a && (a + b)[|a|..] == b
    decreases |a|
  {
    if a == "" {
      assert a + b == b;
    } else {
      assert (a + b)[1..] == a[1..] + b;
      SpanOfConcat(ok, a[1..], b);
    }
  }

  lemma MatchEndExactly(segment: string, s: string, p: Parts)
    requires segment != "" && All(NotSlash, segment)
    ensures MatchEnd(segment, s) == Some(p) <==> WellFormed(p) && p.segment == segment && s == p.digits + p.tail
  {
    if MatchEnd(segment, s) == Some(p) {
      SpanMeaning(Digit, s);
    }
    if WellFormed(p) && p.segment == segment && s == p.digits + p.tail {
      SpanOfConcat(Digit, p.digits, p.tail);
    }
  }

  lemma MatchRestExactly(s: string, p: Parts)
    ensures MatchRest(s) == Some(p) <==> WellFormed(p) && s == p.segment + (PORTS + (p.digits + p.tail))
  {
    if MatchRest(s) == Some(p) {
      var n := Span(NotSlash, s);
      SpanMeaning(NotSlash, s);
      MatchEndExactly(s[..n], s[n..][|PORTS|..], p);
      assert s == s[..n] + (PORTS + s[n..][|PORTS|..]);
    }
    if WellFormed(p) && s == p.segment + (PORTS + (p.digits + p.tail)) {
      var rest := PORTS + (p.digits + p.tail);
      SpanOfConcat(NotSlash, p.segment, rest);
      assert rest[|PORTS|..] == p.digits + p.tail;
      MatchEndExactly(p.segment, p.digits + p.tail, p);
    }
  }

  /** The matcher finds a way to match exactly when there is one, and there is at most one. */
  lemma MatchExactly(prefix: string, path: string, p: Parts)
    ensures Match(prefix, path) == Some(p) <==> Matches(prefix, path, p)
  {
    var rest := p.segment + (PORTS + (p.digits + p.tail));
    if prefix <= path {
      MatchRestExactly(path[|prefix|..], p);
      assert path == prefix + path[|prefix|..];
      if path == prefix + rest {
        assert path[|prefix|..] == rest;
      }
    }
  }

  /** No path matches both patterns. */
  lemma PatternsAreDisjoint(path: string)
    ensures Match(SIGNED, path) == None || Match(STANDARD, path) == None
  {
    if Match(SIGNED, path).Some? && Match(STANDARD, path).Some? {
      var p, q := Match(SIGNED, path).value, Match(STANDARD, path).value;
      MatchExactly(SIGNED, path, p);
      MatchExactly(STANDARD, path, q);
      NotBoth(p, q);
    }
  }

  /** A path has one first segment. */
  lemma OneFirstSegment(x: string, a: string, y: string, b: string)
    requires All(NotSlash, x) && All(NotSlash, y)
    requires a != "" && a[0] == '/' && b != "" && b[0] == '/'
    requires x + a == y + b
    ensures x == y && a == b
  {
    SpanOfConcat(NotSlash, x, a);
    SpanOfConcat(NotSlash, y, b);
  }

  lemma NotBoth(p: Parts, q: Parts)
    requires WellFormed(p) && WellFormed(q)
    ensures SIGNED + (p.segment + (PORTS + (p.digits + p.tail))) != STANDARD +
        (q.segment + (PORTS + (q.digits + q.tail)))
  {
    var x, y := p.digits + p.tail, q.digits + q.tail;
    if SIGNED + (p.segment + (PORTS + x)) == STANDARD + (q.segment + (PORTS + y)) {
      Within(p.segment + (PORTS + x), q.segment + (PORTS + y));
      OneFirstSegment("signed", "/" + (p.segment + (PORTS + x)), q.segment, PORTS + y);
      assert (PORTS + y)[1..] == "ports" + ("/" + y);
      assert ("/" + (p.segment + (PORTS + x)))[1..] == p.segment + (PORTS + x);
      assert (PORTS + x)[1] == 'p' && ("/" + y)[1] == y[0] && Digit(y[0]);
      OneFirstSegment(p.segment, PORTS + x, "ports", "/" + y);
    }
  }

  lemma Within(x: string, y: string)
    requires SIGNED + x == STANDARD + y
    ensures "signed" + ("/" + x) == y
  {
    assert SIGNED + x == STANDARD + ("signed" + ("/" + x));
    assert (STANDARD + y)[|STANDARD|..] == y;
  }

  // ----- Decimal numbers -----

  function DigitChar(n: nat): char
    requires n < 10
  {
    '0' + n as char
  }

  function Decimal(n: nat): string {
    if n < 10 then [DigitChar(n)] else Decimal(n / 10) + [DigitChar(n % 10)]
  }

  function Number(digits: string): nat
    requires All(Digit, digits)
  {
    if digits == "" then 0
    else 10 * Number(digits[..|digits| - 1]) + (digits[|digits| - 1] as int - '0' as int)
  }

  lemma {:induction false} NumberOfDecimal(n: nat)
    ensures Decimal(n) != "" && All(Digit, Decimal(n)) && Number(Decimal(n)) == n
    ensures n > 0 ==> Decimal(n)[0] != '0'
    ensures n == 0 ==> Decimal(n) == "0"
    decreases n
  {
    if n >= 10 {
      NumberOfDecimal(n / 10);
      assert Decimal(n)[..|Decimal(n)| - 1] == Decimal(n / 10);
    }
  }

  // ----- Taking a request apart -----

  datatype Header = Absent | One(value: string) | Many(values: seq<string>)

  datatype ProxyMatch =
    | Standard(sandboxId: string, port: nat, path: string, token: Option<string>)
    | Signed(signedToken: string, port: nat, path: string)

  /** The request cannot be read: its segment is not an encoded text. */
  datatype UriError = UriError

  function NonBlank(s: Option<string>): Option<string> {
    if s.Some? && Strings.Trim(s.value) != "" then Some(Strings.Trim(s.value)) else None
  }

  function HeaderText(header: Header): Option<string> {
    match header
    case Absent => None
    case One(value) => Some(value)
    case Many(values) => if values == [] then None else Some(values[0])
  }

  function ReadPreviewToken(header: Header, query: Option<string>): Option<string> {
    if NonBlank(HeaderText(header)).Some? then NonBlank(HeaderText(header)) else NonBlank(query)
  }

  function Forwarded(tail: string, search: string): string {
    (if tail == "" then "/" else tail) + search
  }

  /** The value of captured digits; the patterns capture nothing else. */
  function PortOf(digits: string): nat {
    if All(Digit, digits) then Number(digits) else 0
  }

  function Extract(pathname: string, search: string, header: Header,
                   query: Option<string>): Result<Option<ProxyMatch>, UriError> {
    match Match(SIGNED, pathname)
    case Some(p) => (
      match Uri.Decode(p.segment)
      case None => Err(UriError)
      case Some(token) => Ok(Some(Signed(token, PortOf(p.digits), Forwarded(p.tail, search)))))
    case None =>
      match Match(STANDARD, pathname)
      case None => Ok(None)
      case Some(p) =>
        match Uri.Decode(p.segment)
        case None => Err(UriError)
        case Some(id) => Ok(Some(Standard(id, PortOf(p.digits), Forwarded(p.tail, search),
            ReadPreviewToken(header, query))))
  }

  // ----- Printing -----

  function StandardPath(sandboxId: string, port: nat): string {
    "/proxy/" + Uri.Encode(sandboxId) + "/ports/" + Decimal(port)
  }

  function SignedPath(token: string, port: nat): string {
    "/proxy/" + "signed/" + Uri.Encode(token) + "/ports/" + Decimal(port)
  }

  lemma PartsMatch(prefix: string, p: Parts)
    requires WellFormed(p)
    ensures Match(prefix, prefix + p.segment + PORTS + p.digits + p.tail) == Some(p)
  {
    var path := prefix + p.segment + PORTS + p.digits + p.tail;
    assert path == prefix + (p.segment + (PORTS + (p.digits + p.tail)));
    MatchExactly(prefix, path, p);
  }

  lemma PrintedIsWellFormed(id: string, port: nat, tail: string)
    requires id != "" && IsTail(tail)
    ensures WellFormed(Parts(Uri.Encode(id), Decimal(port), tail))
  {
    NumberOfDecimal(port);
    Uri.EncodeIsOpaque(id);
  }

  lemma PrintedMatches(prefix: string, id: string, port: nat, tail: string)
    requires id != "" && IsTail(tail)
    ensures Match(prefix, prefix + Uri.Encode(id) + PORTS + Decimal(port) + tail)
        == Some(Parts(Uri.Encode(id), Decimal(port), tail))
  {
    PrintedIsWellFormed(id, port, tail);
    PartsMatch(prefix, Parts(Uri.Encode(id), Decimal(port), tail));
  }

  /** Requests for a printed standard path go to that sandbox and that port, with that tail, or `/` for none, and with
      their query; an identity may also be `signed`. */
  lemma ExtractStandard(sandboxId: string, port: nat, tail: string, search: string, header: Header,
                        query: Option<string>)
    requires sandboxId != "" && IsTail(tail)
    ensures var r := Extract(StandardPath(sandboxId, port) + tail, search, header, query);
            && r.Ok? && r.value.Some? && r.value.value.Standard?
            && r.value.value.sandboxId == sandboxId && r.value.value.port == port
            && r.value.value.path == (if tail == "" then "/" else tail) + search
  {
    var path := StandardPath(sandboxId, port) + tail;
    PrintedMatches(STANDARD, sandboxId, port, tail);
    PatternsAreDisjoint(path);
    Uri.DecodeEncode(sandboxId);
    NumberOfDecimal(port);
  }

  lemma ExtractSigned(token: string, port: nat, tail: string, search: string, header: Header, query: Option<string>)
    requires token != "" && IsTail(tail)
    ensures Extract(SignedPath(token, port) + tail, search, header, query)
         == Ok(Some(Signed(token, port, (if tail == "" then "/" else tail) + search)))
  {
    PrintedMatches(SIGNED, token, port, tail);
    Uri.DecodeEncode(token);
    NumberOfDecimal(port);
  }

  /** The header that counts: a single value, or the first of several; a blank one does not. */
  predicate HeaderSays(header: Header, value: string) {
    Strings.Trim(value) != "" &&
    match header
    case Absent => false
    case One(text) => value == text
    case Many(texts) => texts != [] && value == texts[0]
  }

  /** The trimmed header if it is not blank, else the trimmed query parameter if it is not blank, else none. */
  ghost predicate Presented(header: Header, query: Option<string>, token: Option<string>) {
    && (forall v :: HeaderSays(header, v) ==> token == Some(Strings.Trim(v)))
    && ((forall v :: !HeaderSays(header, v)) ==>
          token == if query.Some? && Strings.Trim(query.value) != "" then Some(Strings.Trim(query.value)) else None)
  }

  lemma ReadIsExact(header: Header, query: Option<string>)
    ensures Presented(header, query, ReadPreviewToken(header, query))
  {
    if header.One? && Strings.Trim(header.value) != "" {
      assert HeaderSays(header, header.value);
    }
    if header.Many? && header.values != [] && Strings.Trim(header.values[0]) != "" {
      assert HeaderSays(header, header.values[0]);
    }
  }

  /** The access token of every request for a sandbox. */
  lemma TokenIsExact(pathname: string, search: string, header: Header, query: Option<string>)
    ensures var r := Extract(pathname, search, header, query);
            r.Ok? && r.value.Some? && r.value.value.Standard? ==> Presented(header, query, r.value.value.token)
  {
    ReadIsExact(header, query);
  }

  /** Every path: it is taken for a signed one exactly if that pattern matches it, else for a standard one exactly if
      that
      one does, and its segment must be an encoded text. */
  lemma ExtractIsExact(pathname: string, search: string, header: Header, query: Option<string>, p: Parts)
    ensures var r := Extract(pathname, search, header, query);
            && (Matches("/proxy/" + "signed/", pathname, p) ==>
                  if Uri.Decode(p.segment).None? then r == Err(UriError)
                  else r == Ok(Some(Signed(Uri.Decode(p.segment).value, Number(p.digits),
                                           (if p.tail == "" then "/" else p.tail) + search))))
            && (Matches("/proxy/", pathname, p) ==>
                  if Uri.Decode(p.segment).None? then r == Err(UriError)
                  else r.Ok? && r.value.Some? && r.value.value.Standard?
                       && r.value.value.sandboxId == Uri.Decode(p.segment).value
                       && r.value.value.port == Number(p.digits)
                       && r.value.value.path == (if p.tail == "" then "/" else p.tail) + search)
            && (r != Ok(None) ==> exists q ::
                Matches("/proxy/" + "signed/", pathname, q) || Matches("/proxy/", pathname, q))
  {
    MatchExactly(SIGNED, pathname, p);
    MatchExactly(STANDARD, pathname, p);
    PatternsAreDisjoint(pathname);
    var signed, standard := Match(SIGNED, pathname), Match(STANDARD, pathname);
    if signed.Some? {
      MatchExactly(SIGNED, pathname, signed.value);
    }
    if standard.Some? {
      MatchExactly(STANDARD, pathname, standard.value);
    }
  }

  /** A normalised identity stands in its path as it is. */
  lemma IdentityIsPrintedPlainly(sandboxId: string, port: nat)
    requires Identity.Normalized(sandboxId)
    ensures StandardPath(sandboxId, port) == "/proxy/" + sandboxId + "/ports/" + Decimal(port)
  {
    Uri.EncodeFixesUnreserved(sandboxId);
  }

  /** ... and so does a token as it is generated. */
  lemma TokenIsPrintedPlainly(bytes: seq<Octet>, port: nat)
    ensures SignedPath(Base64Url.Encode(bytes), port)
        == "/proxy/" + "signed/" + Base64Url.Encode(bytes) + "/ports/" + Decimal(port)
  {
    Uri.EncodeFixesUnreserved(Base64Url.Encode(bytes));
  }
}
