/** Proxy tokens: signed claims about one sandbox, good until they expire. */
module ProxyToken {
  import opened Prelude
  import opened Base64Url

  /** What a field of parsed JSON may hold, as far as verification looks. */
  datatype Field = Str(text: string) | Num(number: real) | Other

  datatype Claims = Claims(sub: Field, aud: Field, sandboxId: Field, sandbox: Field, runtimeId: Field, exp: Field)

  datatype TokenError = MalformedToken | BadSignature | BadJson | AudienceMismatch | SandboxIdMismatch | ExpiredToken

  /** The keyed hash and the JSON library. */
  datatype Env = Env(mac: string -> seq<Octet>, stringify: Claims -> seq<Octet>, parse: seq<Octet> -> Option<Claims>)

  const AUDIENCE := "microsandbox-cloud-proxy"

  /** What a token is issued for; times are in milliseconds, the time to live in seconds. */
  datatype Grant = Grant(sandboxId: string, runtimeId: string, sandboxName: string, at: nat, ttl: int)

  function ClaimsOf(g: Grant): Claims {
    Claims(Str(g.sandboxId), Str(AUDIENCE), Str(g.sandboxId), Str(g.sandboxName), Str(g.runtimeId),
           Num(((g.at + g.ttl * 1000) / 1000) as real))
  }

  function Payload(env: Env, g: Grant): string {
    Encode(env.stringify(ClaimsOf(g)))
  }

  function Signature(env: Env, payload: string): string {
    Encode(env.mac(payload))
  }

  function Sign(env: Env, g: Grant): string {
    Payload(env, g) + "." + Signature(env, Payload(env, g))
  }

  /** `split('.')` */
  function Split(s: string): (parts: seq<string>)
    ensures parts != []
  {
    if s == "" then [""]
    else if s[0] == '.' then [""] + Split(s[1..])
    else var rest := Split(s[1..]); [[s[0]] + rest[0]] + rest[1..]
  }

  function Verify(env: Env, token: string, sandboxId: string, now: nat): Result<Claims, TokenError> {
    var parts := Split(token);
    if |parts| < 2 || parts[0] == "" || parts[1] == "" then Err(MalformedToken)
    else if parts[1] != Signature(env, parts[0]) then Err(BadSignature)
    else match env.parse(Decode(parts[0]))
      case None => Err(BadJson)
      case Some(claims) => Check(claims, sandboxId, now)
  }

  function Check(claims: Claims, sandboxId: string, now: nat): Result<Claims, TokenError> {
    if claims.aud != Str(AUDIENCE) then Err(AudienceMismatch)
    else if claims.sandboxId != Str(sandboxId) || claims.sub != Str(sandboxId) then Err(SandboxIdMismatch)
    else if !claims.exp.Num? || claims.exp.number <= (now / 1000) as real then Err(ExpiredToken)
    else Ok(claims)
  }

  // ----- What the libraries are trusted for -----

  /** Parsing undoes printing on claims that are signed; neither a JSON object nor a hash is empty. */
  ghost predicate Sound(env: Env) {
    && (forall g: Grant ::
        env.stringify(ClaimsOf(g)) != [] && env.parse(env.stringify(ClaimsOf(g))) == Some(ClaimsOf(g)))
    && (forall p :: env.mac(p) != [])
  }

  // ----- Splitting -----

  predicate DotFree(s: string) {
    forall i :: 0 <= i < |s| ==> s[i] != '.'
  }

  lemma {:induction false} SplitFirst(a: string, rest: string)
    requires DotFree(a)
    ensures Split(a) == [a]
    ensures Split(a + "." + rest) == [a] + Split(rest)
    decreases |a|
  {
    if a == "" {
      assert a + "." + rest == "." + rest;
      assert ("." + rest)[1..] == rest;
    } else {
      SplitFirst(a[1..], rest);
      assert (a + "." + rest)[1..] == a[1..] + "." + rest;
      assert [a[0]] + a[1..] == a;
      assert ([a[1..]] + Split(rest))[1..] == Split(rest);
    }
  }

  /** What follows the first dot. */
  function AfterDot(s: string): string {
    if s == "" then "" else if s[0] == '.' then s[1..] else AfterDot(s[1..])
  }

  lemma {:induction false} SplitInverse(s: string)
    ensures var parts := Split(s);
            && DotFree(parts[0])
            && (|parts| == 1 ==> s == parts[0])
            && (|parts| > 1 ==> s == parts[0] + "." + AfterDot(s) && Split(AfterDot(s)) == parts[1..])
    decreases |s|
  {
    var parts := Split(s);
    if s != "" && s[0] == '.' {
      assert s == parts[0] + "." + s[1..];
      assert Split(s[1..]) == parts[1..];
    } else if s != "" {
      SplitInverse(s[1..]);
      var tail := Split(s[1..]);
      assert [s[0]] + s[1..] == s;
      if |parts| > 1 {
        assert s == parts[0] + "." + AfterDot(s);
      }
    }
  }

  /** `token` is `a.b`, or goes on with a dot after it. */
  predicate Starts(token: string, a: string, b: string) {
    token == a + "." + b || a + "." + b + "." <= token
  }

  lemma StartsSplits(token: string, a: string, b: string)
    requires DotFree(a) && DotFree(b) && Starts(token, a, b)
    ensures |Split(token)| >= 2 && Split(token)[0] == a && Split(token)[1] == b
  {
    if token == a + "." + b {
      SplitFirst(a, b);
      SplitFirst(b, "");
    } else {
      var n := |a + "." + b + "."|;
      var rest := token[n..];
      assert token == a + "." + (b + "." + rest);
      SplitFirst(a, b + "." + rest);
      SplitFirst(b, rest);
    }
  }

  lemma SplitStarts(token: string)
    requires |Split(token)| >= 2
    ensures DotFree(Split(token)[0]) && DotFree(Split(token)[1]) && Starts(token, Split(token)[0], Split(token)[1])
  {
    var a, rest := Split(token)[0], AfterDot(token);
    SplitInverse(token);
    SplitInverse(rest);
    var b := Split(rest)[0];
    assert Split(token)[1] == b;
    if |Split(rest)| > 1 {
      assert token == a + "." + b + "." + AfterDot(rest);
    }
  }

  // ----- Tokens -----

  /** An issued token, with or without more dotted parts: for its own sandbox it is good exactly until it expires, and
      gives the claims it was issued with; for any other it is refused. */
  lemma VerifyIssued(env: Env, g: Grant, token: string, sandboxId: string, now: nat)
    requires Sound(env) && Starts(token, Payload(env, g), Signature(env, Payload(env, g)))
    ensures Verify(env, token, sandboxId, now)
         == if sandboxId != g.sandboxId then Err(SandboxIdMismatch)
            else if now / 1000 < g.at / 1000 + g.ttl then Ok(ClaimsOf(g))
            else Err(ExpiredToken)
  {
    var octets := env.stringify(ClaimsOf(g));
    EncodeIsPlain(octets);
    EncodeIsPlain(env.mac(Payload(env, g)));
    StartsSplits(token, Payload(env, g), Signature(env, Payload(env, g)));
    DecodeEncode(octets);
    assert (g.at + g.ttl * 1000) / 1000 == g.at / 1000 + g.ttl;
  }

  /** A token as it is issued: for its own sandbox it is good exactly until it expires, and gives these claims; for any
      other it is refused. */
  lemma VerifySigned(env: Env, g: Grant, sandboxId: string, now: nat)
    requires Sound(env)
    ensures Verify(env, Sign(env, g), sandboxId, now)
         == if sandboxId != g.sandboxId then Err(SandboxIdMismatch)
            else if now / 1000 < g.at / 1000 + g.ttl then
              Ok(Claims(Str(g.sandboxId), Str("microsandbox-cloud-proxy"), Str(g.sandboxId), Str(g.sandboxName),
                        Str(g.runtimeId), Num((g.at / 1000 + g.ttl) as real)))
            else Err(ExpiredToken)
  {
    VerifyIssued(env, g, Sign(env, g), sandboxId, now);
    assert (g.at + g.ttl * 1000) / 1000 == g.at / 1000 + g.ttl;
  }

  /** Verification of every token, check by check: two nonempty parts, the signature of the first one, JSON, the
      audience, the sandbox in both places, and an expiry that is a number and has not come. What follows a second dot
          is
      not looked at. */
  lemma VerifyIsExact(env: Env, token: string, a: string, b: string, sandboxId: string, now: nat)
    requires DotFree(a) && DotFree(b)
    ensures DotFree(token) ==> Verify(env, token, sandboxId, now) == Err(MalformedToken)
    ensures Starts(token, a, b) ==>
              var r := Verify(env, token, sandboxId, now);
              var parsed := env.parse(Decode(a));
              if a == "" || b == "" then r == Err(MalformedToken)
              else if b != Encode(env.mac(a)) then r == Err(BadSignature)
              else if parsed.None? then r == Err(BadJson)
              else if parsed.value.aud != Str("microsandbox-cloud-proxy") then r == Err(AudienceMismatch)
              else if !(parsed.value.sandboxId == Str(sandboxId) && parsed.value.sub == Str(sandboxId))
              then r == Err(SandboxIdMismatch)
              else if parsed.value.exp.Num? && parsed.value.exp.number > (now / 1000) as real then r == Ok(parsed.value)
              else r == Err(ExpiredToken)
  {
    if DotFree(token) {
      SplitFirst(token, "");
    }
    if Starts(token, a, b) {
      StartsSplits(token, a, b);
    }
  }

  /** Whoever made the token knew no signature but those that were issued. */
  ghost predicate NotForged(env: Env, issued: set<Grant>, token: string) {
    forall p :: DotFree(p) && Starts(token, p, Signature(env, p)) ==> exists g :: g in issued && p == Payload(env, g)
  }

  ghost predicate GoodFor(env: Env, g: Grant, token: string, sandboxId: string, now: nat) {
    && Starts(token, Payload(env, g), Signature(env, Payload(env, g)))
    && g.sandboxId == sandboxId && now / 1000 < g.at / 1000 + g.ttl
  }

  /** A token is accepted exactly when one of the issued tokens, for this sandbox and not yet expired, is in it; and
      then with the claims of that one. */
  lemma AcceptedExactly(env: Env, issued: set<Grant>, token: string, sandboxId: string, now: nat, claims: Claims)
    requires Sound(env) && NotForged(env, issued, token)
    ensures Verify(env, token, sandboxId, now) == Ok(claims)
       <==> exists g :: g in issued && GoodFor(env, g, token, sandboxId, now) && claims == ClaimsOf(g)
  {
    if Verify(env, token, sandboxId, now) == Ok(claims) {
      var p := Split(token)[0];
      SplitStarts(token);
      assert Starts(token, p, Signature(env, p));
      var g :| g in issued && p == Payload(env, g);
      VerifyIssued(env, g, token, sandboxId, now);
      assert GoodFor(env, g, token, sandboxId, now);
    }
    forall g | g in issued && GoodFor(env, g, token, sandboxId, now) && claims == ClaimsOf(g)
      ensures Verify(env, token, sandboxId, now) == Ok(claims)
    {
      VerifyIssued(env, g, token, sandboxId, now);
    }
  }
}
