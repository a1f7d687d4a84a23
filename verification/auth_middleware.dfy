/** The authentication middleware (app/middleware/auth_middleware.ts): the
    classification of the `Authorization` header into one of three 401
    responses or a call of the next handler with the resolved user. */
module AuthMiddleware {
  import opened Base
  import opened UserEntity
  import opened Crypto
  import Users = UserRepository
  import Auth = AuthService

  const MissingToken: string := "Token de acesso não fornecido"
  const BadFormat: string := "Formato de token inválido"
  const BadToken: string := "Token inválido ou expirado"

  /** A 401 response with its message, or `next()` run with `authUser` set. */
  datatype Outcome = Unauthorized(message: string) | Next(authUser: User)

  /** `s.split(sep)` on a one-character separator: the maximal runs between
      separators, empty runs included. */
  function Split(s: string, sep: char): (parts: seq<string>)
    ensures |parts| >= 1
    ensures forall i :: 0 <= i < |parts| ==> sep !in parts[i]
  {
    if |s| == 0 then [""]
    else
      var rest := Split(s[1..], sep);
      if s[0] == sep then [""] + rest
      else [[s[0]] + rest[0]] + rest[1..]
  }

  /** `parts.join(sep)`. */
  function Join(parts: seq<string>, sep: char): string
    requires |parts| >= 1
  {
    if |parts| == 1 then parts[0] else parts[0] + [sep] + Join(parts[1..], sep)
  }

  /** Joining the parts of a split gives back the string. */
  lemma {:induction false} JoinSplit(s: string, sep: char)
    ensures Join(Split(s, sep), sep) == s
  {
    if |s| > 0 {
      var rest := Split(s[1..], sep);
      JoinSplit(s[1..], sep);
      if s[0] == sep {
        assert Split(s, sep)[1..] == rest;
      } else if |rest| > 1 {
        assert Split(s, sep)[1..] == rest[1..];
        assert Join(rest, sep) == rest[0] + [sep] + Join(rest[1..], sep);
      }
    }
  }

  /** A string without the separator splits into itself alone. */
  lemma {:induction false} SplitPlain(a: string, sep: char)
    requires sep !in a
    ensures Split(a, sep) == [a]
  {
    if |a| > 0 {
      SplitPlain(a[1..], sep);
      assert [a[0]] + a[1..] == a;
    }
  }

  /** A separator-free prefix ending at a separator is the first part. */
  lemma {:induction false} SplitAfter(a: string, b: string, sep: char)
    requires sep !in a
    ensures Split(a + [sep] + b, sep) == [a] + Split(b, sep)
  {
    var s := a + [sep] + b;
    if |a| == 0 {
      assert s[1..] == b;
    } else {
      assert s[1..] == a[1..] + [sep] + b;
      SplitAfter(a[1..], b, sep);
      assert [a[0]] + a[1..] == a;
    }
  }

  /** Splitting a join of separator-free parts gives back the parts. */
  lemma {:induction false} SplitJoin(parts: seq<string>, sep: char)
    requires |parts| >= 1
    requires forall i :: 0 <= i < |parts| ==> sep !in parts[i]
    ensures Split(Join(parts, sep), sep) == parts
  {
    if |parts| == 1 {
      SplitPlain(parts[0], sep);
    } else {
      SplitJoin(parts[1..], sep);
      SplitAfter(parts[0], Join(parts[1..], sep), sep);
    }
  }

  /** `const [bearer, token] = authHeader.split(' ')` followed by the format
      check `bearer !== 'Bearer' || !token`: the token when the header passes. */
  function BearerToken(header: string): Option<string>
  {
    var parts := Split(header, ' ');
    var token := if |parts| > 1 then Some(parts[1]) else None;
    if parts[0] != "Bearer" || token.None? || token.value == "" then None else token
  }

  /** The accepted header shape: `Bearer`, one space, a non-empty token without
      spaces, and then either the end or a space followed by anything. */
  predicate HasBearerShape(header: string, token: string)
  {
    && token != "" && ' ' !in token
    && |header| >= 7 + |token|
    && header[..7 + |token|] == "Bearer " + token
    && (|header| == 7 + |token| || header[7 + |token|] == ' ')
  }

  /** The format check accepts a header exactly when it has the bearer shape,
      and then extracts that token; whatever follows the token is ignored. */
  lemma BearerTokenShape(header: string, token: string)
    ensures BearerToken(header) == Some(token) <==> HasBearerShape(header, token)
  {
    var n := 7 + |token|;
    if BearerToken(header) == Some(token) {
      var parts := Split(header, ' ');
      JoinSplit(header, ' ');
      assert parts[0] == "Bearer" && parts[1] == token;
      assert ' ' !in parts[1];
      var tail := if |parts| == 2 then "" else [' '] + Join(parts[2..], ' ');
      assert Join(parts[1..], ' ') == token + tail by {
        if |parts| > 2 {
          assert parts[1..][1..] == parts[2..];
        }
      }
      assert header == "Bearer " + token + tail;
      assert header[..n] == "Bearer " + token;
    }
    if HasBearerShape(header, token) {
      var tail := header[n..];
      assert header == "Bearer" + [' '] + (token + tail);
      SplitAfter("Bearer", token + tail, ' ');
      if |tail| == 0 {
        assert token + tail == token;
        SplitPlain(token, ' ');
      } else {
        assert token + tail == token + [' '] + tail[1..];
        SplitAfter(token, tail[1..], ' ');
      }
    }
  }

  /** `handle(ctx, next)`: missing header, then format, then token validity;
      only a header that passes all three runs the next handler. */
  function Handle(s: Users.Store, j: Jwt, header: Option<string>): (o: Outcome)
    ensures o == Unauthorized(MissingToken) <==> header.None? || header.value == ""
    ensures o == Unauthorized(BadFormat) <==>
      header.Some? && header.value != "" && forall t :: !HasBearerShape(header.value, t)
    ensures o == Unauthorized(BadToken) <==>
      header.Some? && exists t :: HasBearerShape(header.value, t) && Auth.GetAuthUser(s, j, t).None?
    ensures o.Next? <==>
      header.Some? && exists t :: HasBearerShape(header.value, t) && Auth.GetAuthUser(s, j, t).Some?
    ensures o.Next? ==>
      exists t :: HasBearerShape(header.value, t) && Auth.GetAuthUser(s, j, t) == Some(o.authUser)
  {
    if header.None? || header.value == "" then
      Unauthorized(MissingToken)
    else
      var h := header.value;
      forall t ensures BearerToken(h) == Some(t) <==> HasBearerShape(h, t) {
        BearerTokenShape(h, t);
      }
      match BearerToken(h)
      case None => Unauthorized(BadFormat)
      case Some(token) =>
        match Auth.GetAuthUser(s, j, token)
        case None => Unauthorized(BadToken)
        case Some(user) => Next(user)
  }

  /** A non-empty header the format check refuses gets the format 401. */
  lemma FormatRejected(s: Users.Store, j: Jwt, header: string)
    requires header != "" && BearerToken(header).None?
    ensures Handle(s, j, Some(header)) == Unauthorized(BadFormat)
  {
    forall t ensures !HasBearerShape(header, t) {
      BearerTokenShape(header, t);
    }
  }

  /** A bare `Bearer` and `Bearer` with a trailing space carry no token. */
  lemma MissingTokenPartRejected(s: Users.Store, j: Jwt)
    ensures Handle(s, j, Some("Bearer")) == Unauthorized(BadFormat)
    ensures Handle(s, j, Some("Bearer ")) == Unauthorized(BadFormat)
  {
    SplitPlain("Bearer", ' ');
    FormatRejected(s, j, "Bearer");
    assert "Bearer " == "Bearer" + [' '] + "";
    SplitAfter("Bearer", "", ' ');
    FormatRejected(s, j, "Bearer ");
  }

  /** Two spaces before the token leave an empty second part, which fails. */
  lemma DoubleSpaceRejected(s: Users.Store, j: Jwt, token: string)
    ensures Handle(s, j, Some("Bearer  " + token)) == Unauthorized(BadFormat)
  {
    var h := "Bearer  " + token;
    assert h == "Bearer" + [' '] + ("" + [' '] + token);
    SplitAfter("Bearer", "" + [' '] + token, ' ');
    SplitAfter("", token, ' ');
    assert Split(h, ' ')[1] == "";
    FormatRejected(s, j, h);
  }

  /** The scheme name is compared exactly: `bearer` is not `Bearer`. */
  lemma SchemeIsCaseSensitive(s: Users.Store, j: Jwt, token: string)
    ensures Handle(s, j, Some("bearer " + token)) == Unauthorized(BadFormat)
  {
    var h := "bearer " + token;
    assert h == "bearer" + [' '] + token;
    SplitAfter("bearer", token, ' ');
    assert Split(h, ' ')[0] == "bearer";
    FormatRejected(s, j, h);
  }

  /** `Bearer <token>` with a token that resolves runs the next handler with
      the resolved user. */
  lemma WellFormedHeader(s: Users.Store, j: Jwt, token: string, u: User)
    requires token != "" && ' ' !in token
    requires Auth.GetAuthUser(s, j, token) == Some(u)
    ensures Handle(s, j, Some("Bearer " + token)) == Next(u)
  {
    BearerTokenShape("Bearer " + token, token);
  }

  /** `Bearer <token>` with a token that does not resolve gets the bad-token
      401. */
  lemma UnresolvedTokenRejected(s: Users.Store, j: Jwt, token: string)
    requires token != "" && ' ' !in token
    requires Auth.GetAuthUser(s, j, token).None?
    ensures Handle(s, j, Some("Bearer " + token)) == Unauthorized(BadToken)
  {
    BearerTokenShape("Bearer " + token, token);
  }

  /** Anything after a further space is ignored. */
  lemma TrailingTextIgnored(s: Users.Store, j: Jwt, token: string, rest: string)
    requires token != "" && ' ' !in token
    ensures Handle(s, j, Some("Bearer " + token + " " + rest)) == Handle(s, j, Some("Bearer " + token))
  {
    BearerTokenShape("Bearer " + token, token);
    var h := "Bearer " + token + " " + rest;
    assert h[..7 + |token|] == "Bearer " + token;
    assert h[7 + |token|] == ' ';
    BearerTokenShape(h, token);
  }
}
