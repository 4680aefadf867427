/** The decision of the admin area's HTTP Basic authentication
    (`adminAuth`, src/server.js:34-57). Decoding base64 is a parameter
    `decode`, and the configured credentials are the two environment
    variables, `None` when unset. */
module AdminAuth {
  import opened Wrappers
  import opened Strings

  /** `process.env.ADMIN_USER` and `process.env.ADMIN_PASS`. */
  datatype Env = Env(adminUser: Option<string>, adminPass: Option<string>)

  /** Either the request goes on to the admin handler, or it is answered with
      401, a `WWW-Authenticate: Basic realm="Admin"` header and this text. */
  datatype Decision = Allow | Challenge(message: string)

  const Missing := "Autenticacao necessaria."
  const Invalid := "Credenciais invalidas."

  /** A falsy variable falls back to "admin". */
  function User(env: Env): (u: string)
    ensures u != ""
  {
    if env.adminUser.Some? && env.adminUser.value != "" then env.adminUser.value else "admin"
  }

  function Pass(env: Env): (p: string)
    ensures p != ""
  {
    if env.adminPass.Some? && env.adminPass.value != "" then env.adminPass.value else "admin"
  }

  /** The token: the second space-separated word of a header that starts with
      "Basic ", or `null`. */
  function TokenOf(header: Option<string>): (token: Option<string>)
    ensures token.Some? ==> ' ' !in token.value
    ensures token.Some? <==> header.Some? && StartsWith(header.value, "Basic ")
  {
    var authHeader := header.GetOr("");
    if StartsWith(authHeader, "Basic ") then
      assert OccursAt(authHeader, " ", 5);
      var parts := Split(authHeader, " ");
      SplitPiecesAvoidSeparator(authHeader, ' ');
      Some(parts[1])
    else None
  }

  /** The decision as the code makes it: the decoded text is split at every
      ':', the first piece is the user name and the second (`undefined` when
      there is none) the password. */
  function AdminAuthAsWritten(env: Env, header: Option<string>, decode: string -> string): Decision {
    var token := TokenOf(header);
    if token.None? || token.value == "" then Challenge(Missing)
    else
      var parts := Split(decode(token.value), ":");
      var username := parts[0];
      var password := if |parts| > 1 then Some(parts[1]) else None;
      if username != User(env) || password != Some(Pass(env)) then Challenge(Invalid)
      else Allow
  }

  /** The decision as section 2 of RFC 7617 reads the credentials: the user
      name ends at the first ':' and the password is everything after it. */
  function Credentials(decoded: string): (r: (string, Option<string>))
    ensures r.1.Some? ==> decoded == r.0 + ":" + r.1.value && ':' !in r.0
    ensures r.1.None? ==> r.0 == decoded && ':' !in decoded
  {
    match IndexOf(decoded, ":")
    case None =>
      CharAbsentBefore(decoded, ':', |decoded|);
      (decoded, None)
    case Some(i) =>
      CharAbsentBefore(decoded, ':', i);
      assert decoded[i..i + 1] == ":";
      assert decoded == decoded[..i] + decoded[i..i + 1] + decoded[i + 1..];
      (decoded[..i], Some(decoded[i + 1..]))
  }

  function AdminAuthDecision(env: Env, header: Option<string>, decode: string -> string): Decision {
    var token := TokenOf(header);
    if token.None? || token.value == "" then Challenge(Missing)
    else
      var (username, password) := Credentials(decode(token.value));
      if username != User(env) || password != Some(Pass(env)) then Challenge(Invalid)
      else Allow
  }

  /** Reading the credentials at the first ':' recovers the user name and the
      password of `user:pass` whenever the user name has no ':'. */
  lemma CredentialsOfPair(user: string, pass: string)
    requires ':' !in user
    ensures Credentials(user + ":" + pass) == (user, Some(pass))
  {
    var d := user + [':'] + pass;
    assert d[..|user|] == user;
    IndexOfChar(d, ':', |user|);
    assert d[|user| + 1..] == pass;
  }

  /** Access is granted only to a non-empty token that decodes to exactly
      `user:pass`, and always to such a token when the configured user name
      has no ':'. */
  lemma DecisionAllowsExactCredentials(env: Env, header: Option<string>, decode: string -> string)
    ensures AdminAuthDecision(env, header, decode) == Allow ==>
              TokenOf(header).Some? && TokenOf(header).value != ""
              && decode(TokenOf(header).value) == User(env) + ":" + Pass(env)
    ensures ':' !in User(env) && TokenOf(header).Some? && TokenOf(header).value != ""
              && decode(TokenOf(header).value) == User(env) + ":" + Pass(env) ==>
              AdminAuthDecision(env, header, decode) == Allow
  {
    var token := TokenOf(header);
    if ':' !in User(env) && token.Some? && token.value != "" && decode(token.value) == User(env) + ":" + Pass(env) {
      CredentialsOfPair(User(env), Pass(env));
    }
  }

  /** Every refusal carries one of the two texts: a missing token is asked for,
      a wrong one is declared invalid. */
  lemma DecisionMessages(env: Env, header: Option<string>, decode: string -> string)
    ensures AdminAuthDecision(env, header, decode) == Challenge(Missing) <==>
              TokenOf(header).None? || TokenOf(header).value == ""
    ensures AdminAuthDecision(env, header, decode).Challenge? ==>
              AdminAuthDecision(env, header, decode).message in {Missing, Invalid}
  {
  }

  /** A request without an authorization header is refused without looking at
      the credentials. */
  lemma NoHeaderChallenged(env: Env, decode: string -> string)
    ensures AdminAuthDecision(env, None, decode) == Challenge(Missing)
    ensures AdminAuthAsWritten(env, None, decode) == Challenge(Missing)
  {
  }

  /** The token of "Basic " followed by a word without spaces is that word. */
  lemma BasicToken(tok: string)
    requires ' ' !in tok
    ensures TokenOf(Some("Basic " + tok)) == Some(tok)
  {
    assert "Basic " + tok == "Basic" + [' '] + tok;
    SplitAtChar("Basic", ' ', tok);
    SplitWithoutSeparator(tok, ' ');
  }

  /** A decoded text is of the shape the code accepts for `user` and `pass`. */
  predicate AcceptedShape(d: string, user: string, pass: string) {
    d == user + ":" + pass || user + ":" + pass + ":" <= d
  }

  /** A text with more than one ':'-piece is its first piece, a ':' and the
      rest, whose pieces are the other ones. */
  lemma FirstColon(d: string) returns (rest: string)
    requires |Split(d, ":")| > 1
    ensures d == Split(d, ":")[0] + ":" + rest
    ensures Split(d, ":")[1] == Split(rest, ":")[0]
  {
    var i := IndexOf(d, ":").value;
    rest := d[i + 1..];
    assert Split(d, ":") == [d[..i]] + Split(rest, ":");
    assert d[i..i + 1] == ":";
    assert d == d[..i] + d[i..i + 1] + rest;
  }

  lemma PrefixAfter(a: string, p: string, rest: string)
    requires p <= rest
    ensures a + p <= a + rest
  {
    assert (a + rest)[..|a + p|] == a + p;
  }

  /** A text whose first two ':'-pieces are `user` and `pass` has that shape. */
  lemma PiecesGiveShape(d: string, user: string, pass: string)
    requires |Split(d, ":")| > 1 && Split(d, ":")[0] == user && Split(d, ":")[1] == pass
    ensures AcceptedShape(d, user, pass)
  {
    var rest := FirstColon(d);
    SplitHead(rest, ':');
    if pass != rest {
      assert pass + ":" <= rest;
      PrefixAfter(user + ":", pass + ":", rest);
    }
  }

  /** Conversely, with no ':' in `user` or `pass`, that shape has them as its
      first two pieces. */
  lemma ShapeGivesPieces(d: string, user: string, pass: string)
    requires ':' !in user && ':' !in pass && AcceptedShape(d, user, pass)
    ensures |Split(d, ":")| > 1 && Split(d, ":")[0] == user && Split(d, ":")[1] == pass
  {
    if d == user + ":" + pass {
      assert d == user + [':'] + pass;
      SplitAtChar(user, ':', pass);
      SplitWithoutSeparator(pass, ':');
    } else {
      var tail := d[|user| + |pass| + 2..];
      assert d == user + [':'] + (pass + [':'] + tail);
      SplitAtChar(user, ':', pass + [':'] + tail);
      SplitAtChar(pass, ':', tail);
    }
  }

  /** The credentials the code accepts: a non-empty token that decodes to
      `user:pass`, or to `user:pass:` followed by anything; with no ':' in the
      configured user name and password, every such token is accepted. */
  lemma AsWrittenAllows(env: Env, header: Option<string>, decode: string -> string)
    ensures AdminAuthAsWritten(env, header, decode) == Allow ==>
              TokenOf(header).Some? && TokenOf(header).value != ""
              && AcceptedShape(decode(TokenOf(header).value), User(env), Pass(env))
    ensures ':' !in User(env) && ':' !in Pass(env) && TokenOf(header).Some? && TokenOf(header).value != ""
              && AcceptedShape(decode(TokenOf(header).value), User(env), Pass(env)) ==>
              AdminAuthAsWritten(env, header, decode) == Allow
  {
    var token := TokenOf(header);
    if token.Some? && token.value != "" {
      var d := decode(token.value);
      if AdminAuthAsWritten(env, header, decode) == Allow {
        PiecesGiveShape(d, User(env), Pass(env));
      }
      if ':' !in User(env) && ':' !in Pass(env) && AcceptedShape(d, User(env), Pass(env)) {
        ShapeGivesPieces(d, User(env), Pass(env));
      }
    }
  }

  /** A configured password with a ':' is refused by the code on every
      request, since no ':'-piece holds a ':'; reading the credentials at the
      first ':' lets the right ones in. */
  lemma ColonPasswordRefused(env: Env, header: Option<string>, decode: string -> string)
    requires ':' in Pass(env)
    ensures AdminAuthAsWritten(env, header, decode) != Allow
    ensures ':' !in User(env) && TokenOf(header).Some? && TokenOf(header).value != ""
              && decode(TokenOf(header).value) == User(env) + ":" + Pass(env) ==>
              AdminAuthDecision(env, header, decode) == Allow
  {
    var token := TokenOf(header);
    if token.Some? && token.value != "" {
      var d := decode(token.value);
      SplitPiecesAvoidSeparator(d, ':');
      if |Split(d, ":")| > 1 {
        assert ':' !in Split(d, ":")[1];
      }
    }
    DecisionAllowsExactCredentials(env, header, decode);
  }

  /** The right credentials `user:p:q` for the password `p:q` are refused. */
  lemma ColonPasswordExample(user: string, p: string, q: string, tok: string, decode: string -> string)
    requires user != "" && ':' !in user && ' ' !in tok && tok != ""
    requires decode(tok) == user + ":" + p + ":" + q
    ensures AdminAuthAsWritten(Env(Some(user), Some(p + ":" + q)), Some("Basic " + tok), decode) == Challenge(Invalid)
    ensures AdminAuthDecision(Env(Some(user), Some(p + ":" + q)), Some("Basic " + tok), decode) == Allow
  {
    BasicToken(tok);
    var env := Env(Some(user), Some(p + ":" + q));
    assert (p + ":" + q)[|p|] == ':';
    assert User(env) + ":" + Pass(env) == decode(tok);
    ColonPasswordRefused(env, Some("Basic " + tok), decode);
  }

  /** With the password "p", the code also lets in "user:p:" followed by
      anything, which the right reading refuses. */
  lemma TrailingTextAccepted(user: string, p: string, q: string, tok: string, decode: string -> string)
    requires user != "" && ':' !in user && p != "" && ':' !in p && ' ' !in tok && tok != ""
    requires decode(tok) == user + ":" + p + ":" + q
    ensures AdminAuthAsWritten(Env(Some(user), Some(p)), Some("Basic " + tok), decode) == Allow
    ensures AdminAuthDecision(Env(Some(user), Some(p)), Some("Basic " + tok), decode) == Challenge(Invalid)
  {
    BasicToken(tok);
    var env := Env(Some(user), Some(p));
    var d := decode(tok);
    assert AcceptedShape(d, user, p);
    AsWrittenAllows(env, Some("Basic " + tok), decode);
    DecisionAllowsExactCredentials(env, Some("Basic " + tok), decode);
    assert |d| > |user + ":" + p|;
  }
}
