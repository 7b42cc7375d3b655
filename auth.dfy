/**
 * The bearer-token gate (backend/middleware/auth.js, duplicated with other
 * messages at server.js:98-113). The token is the second space-separated
 * field of the Authorization header; a missing or empty token and a token
 * that fails verification are refused with 401, otherwise the decoded payload
 * becomes `req.user` and the next handler runs once.
 */
module Auth {
  import opened Common

  /** `s.split(" ")`: the maximal runs between single spaces, empty runs included. */
  function Fields(s: string): (r: seq<string>)
    ensures |r| >= 1
    ensures forall i :: 0 <= i < |r| ==> ' ' !in r[i]
    ensures |r| > 1 <==> ' ' in s
  {
    if s == [] then [""]
    else
      var rest := Fields(s[1..]);
      if s[0] == ' ' then [""] + rest
      else [[s[0]] + rest[0]] + rest[1..]
  }

  /** `parts.join(" ")` */
  function Join(parts: seq<string>): (s: string)
    requires |parts| >= 1
  {
    if |parts| == 1 then parts[0] else parts[0] + " " + Join(parts[1..])
  }

  /** Splitting loses nothing: joining the fields with single spaces gives back the header. */
  lemma {:induction false} JoinFields(s: string)
    ensures Join(Fields(s)) == s
  {
    if s != [] {
      var rest := Fields(s[1..]);
      JoinFields(s[1..]);
      if s[0] == ' ' {
        assert Fields(s) == [""] + rest;
        assert Join(Fields(s)) == "" + " " + Join(rest);
        assert s == [' '] + s[1..];
      } else {
        var parts := [[s[0]] + rest[0]] + rest[1..];
        if |rest| == 1 {
          assert Join(parts) == [s[0]] + rest[0];
        } else {
          assert Join(parts) == [s[0]] + rest[0] + " " + Join(rest[1..]);
          assert Join(rest) == rest[0] + " " + Join(rest[1..]);
        }
        assert s == [s[0]] + s[1..];
      }
    }
  }

  /** A space-free prefix joins the first field of whatever follows it. */
  lemma {:induction false} FieldsAfterWord(a: string, b: string)
    requires ' ' !in a
    ensures Fields(a + b) == [a + Fields(b)[0]] + Fields(b)[1..]
  {
    if a != [] {
      var f := Fields(b);
      assert (a + b)[0] == a[0] && (a + b)[1..] == a[1..] + b;
      FieldsAfterWord(a[1..], b);
      var rest := Fields(a[1..] + b);
      assert rest[0] == a[1..] + f[0] && rest[1..] == f[1..];
      assert Fields(a + b) == [[a[0]] + rest[0]] + rest[1..];
      assert [a[0]] + (a[1..] + f[0]) == a + f[0];
    } else {
      var f := Fields(b);
      assert a + b == b;
      assert a + f[0] == f[0];
      assert f == [f[0]] + f[1..];
    }
  }

  /** `req.header("Authorization")?.split(" ")[1]`; None stands for `undefined`. */
  function BearerToken(header: Option<string>): (r: Option<string>)
    ensures r.Some? <==> header.Some? && ' ' in header.value
    ensures r.Some? ==> ' ' !in r.value
  {
    match header
    case None => None
    case Some(h) =>
      var fields := Fields(h);
      if |fields| > 1 then Some(fields[1]) else None
  }

  /** The header `scheme + " " + token`, possibly followed by more space-separated text, carries exactly `token`. */
  lemma BearerTokenOf(scheme: string, token: string, rest: string)
    requires ' ' !in scheme && ' ' !in token
    requires rest == [] || rest[0] == ' '
    ensures BearerToken(Some(scheme + " " + token + rest)) == Some(token)
  {
    var h := scheme + " " + token + rest;
    assert h == scheme + (" " + (token + rest));
    FieldsAfterWord(scheme, " " + (token + rest));
    assert (" " + (token + rest))[1..] == token + rest;
    FieldsAfterWord(token, rest);
    if rest != [] {
      assert rest == [' '] + rest[1..];
    }
    assert Fields(rest)[0] == "";
    assert Fields(h)[1] == token;
  }

  /** The three ways the gate can decide. */
  datatype Verdict = NoToken | BadToken | Verified(claims: Claims)

  /** The decision shared by both copies of the middleware: `!token`, then `jwt.verify`. */
  function Check(header: Option<string>, verify: string -> Option<Claims>): (r: Verdict)
    ensures r.NoToken? <==> BearerToken(header).None? || BearerToken(header) == Some("")
    ensures r.BadToken? <==> BearerToken(header).Some? && BearerToken(header).value != ""
                             && verify(BearerToken(header).value).None?
    ensures r.Verified? ==> verify(BearerToken(header).value) == Some(r.claims)
  {
    var token := BearerToken(header);
    if token.None? || token.value == "" then NoToken
    else match verify(token.value)
      case None => BadToken
      case Some(c) => Verified(c)
  }

  /** Refusal with a status code and message, or acceptance with `req.user` set and the next handler called once. */
  datatype AuthResult = Reject(code: nat, message: string) | Accept(user: Claims)

  const NO_TOKEN := "No token provided"
  const INVALID_TOKEN := "Invalid token"

  /** `authMiddleware` of backend/middleware/auth.js. */
  function Gate(header: Option<string>, verify: string -> Option<Claims>): (r: AuthResult)
    ensures r == Reject(401, NO_TOKEN) <==> Check(header, verify).NoToken?
    ensures r == Reject(401, INVALID_TOKEN) <==> Check(header, verify).BadToken?
    ensures r.Accept? <==> Check(header, verify).Verified?
    ensures r.Accept? ==> Check(header, verify) == Verified(r.user)
  {
    match Check(header, verify)
    case NoToken => Reject(401, NO_TOKEN)
    case BadToken => Reject(401, INVALID_TOKEN)
    case Verified(c) => Accept(c)
  }

  /**
   * A token minted by `sign` and sent as the front end sends it,
   * `Bearer <token>`, opens the gate with exactly the signed claims.
   */
  lemma SignedTokenAccepted(sign: Claims -> string, verify: string -> Option<Claims>, c: Claims)
    requires verify(sign(c)) == Some(c)
    requires sign(c) != "" && ' ' !in sign(c)
    ensures Gate(Some("Bearer " + sign(c)), verify) == Accept(c)
  {
    BearerTokenOf("Bearer", sign(c), "");
    assert "Bearer " + sign(c) == "Bearer" + " " + sign(c) + "";
  }

  /** Without an Authorization header, or with one that has no space, the gate refuses before any verification. */
  lemma NoHeaderRefused(header: Option<string>, verify: string -> Option<Claims>)
    requires header.None? || ' ' !in header.value
    ensures Gate(header, verify) == Reject(401, NO_TOKEN)
  {
  }
}
