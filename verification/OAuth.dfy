/** The MCP server's OAuth state: registered clients, authorization codes waiting to be
    exchanged, and access tokens. The three handlers are the steps; each runs to its end
    before the next starts. Client ids, codes and token strings, the clock, and the answer
    of the upstream login come with the request. */
module OAuth {
  import opened Numbers
  import opened Wrappers
  import Base64Url
  import Text

  /** Seconds an authorization code may be exchanged. */
  const CODE_TTL := 600

  /** SHA-256 of a verifier's bytes: a library call, so any function. */
  type Digest = string -> seq<Base64Url.Byte>

  datatype Auth = Auth(
    clientId: string, redirectUri: string, scope: Option<string>, email: string, verified: bool,
    challenge: Option<string>, challengeMethod: Option<string>, expiresAt: int)

  datatype AccessToken = AccessToken(clientId: string, scope: Option<string>, email: string, verified: bool)

  /** Client secrets by client id, codes and tokens by their text. */
  datatype State = State(clients: map<string, string>, codes: map<string, Auth>, tokens: map<string, AccessToken>)

  /** How the upstream login went; `Broken` is any failure it has no error class for, and an
      accepted login may carry no email of its own. */
  datatype Upstream = Rejected | Unavailable | Broken | Accepted(email: Option<string>, verified: bool)

  /** An absent email or password is empty; an email of None is a null, which cannot be stripped. */
  datatype LoginForm = LoginForm(
    email: Option<string>, password: string, clientId: Option<string>, redirectUri: Option<string>,
    scope: Option<string>, challenge: Option<string>, challengeMethod: Option<string>)

  datatype Credentials = Credentials(id: string, secret: string)

  datatype TokenForm = TokenForm(
    grantType: Option<string>, code: Option<string>, redirectUri: Option<string>,
    clientId: Option<string>, secret: Option<string>, basic: Option<Credentials>, verifier: Option<string>)

  datatype Request =
    | Register(id: string, secret: string)
    | Login(login: LoginForm, upstream: Upstream, newCode: string, now: int)
    | Token(form: TokenForm, now: int, token: string)

  datatype Response =
    | Registered(id: string, secret: string)
    | Redirect(code: string)
    | Granted(token: string, idToken: bool)
    | Failed(status: int, error: string)

  predicate Given(o: Option<string>) { o.Some? && o.value != "" }

  /** Python's `in` between strings. */
  predicate Contains(s: string, sub: string) {
    sub <= s || (s != "" && Contains(s[1..], sub))
  }

  predicate VerifyPkce(sha: Digest, verifier: string, challenge: string, challengeMethod: Option<string>) {
    if challengeMethod == Some("S256") then Base64Url.UrlEncode(sha(verifier)) == challenge
    else challengeMethod == Some("plain") && verifier == challenge
  }

  /** Form fields win over the Basic header; an empty field counts as absent. */
  function ClientId(f: TokenForm): Option<string> {
    if !Given(f.clientId) && f.basic.Some? then Some(f.basic.value.id) else f.clientId
  }

  function Secret(f: TokenForm): Option<string> {
    if !Given(f.secret) && f.basic.Some? then Some(f.basic.value.secret) else f.secret
  }

  /** Where the credentials come from: a non-empty form field, else the Basic header. */
  lemma CredentialsExactly(f: TokenForm)
    ensures f.clientId.Some? && f.clientId.value != "" ==> ClientId(f) == f.clientId
    ensures f.secret.Some? && f.secret.value != "" ==> Secret(f) == f.secret
    ensures f.basic.Some? && (f.clientId.None? || f.clientId == Some("")) ==> ClientId(f) == Some(f.basic.value.id)
    ensures f.basic.Some? && (f.secret.None? || f.secret == Some("")) ==> Secret(f) == Some(f.basic.value.secret)
    ensures f.basic.None? ==> ClientId(f) == f.clientId && Secret(f) == f.secret
  {
  }

  /** `Contains` finds exactly what stands at some position. */
  lemma {:induction false} ContainsExactly(s: string, sub: string)
    ensures Contains(s, sub) <==> exists k :: 0 <= k <= |s| && sub <= s[k..]
  {
    assert s[0..] == s;
    if s != "" && !(sub <= s) {
      var t := s[1..];
      ContainsExactly(t, sub);
      if Contains(t, sub) {
        var k :| 0 <= k <= |t| && sub <= t[k..];
        assert t[k..] == s[k + 1..];
      }
      forall k | 0 <= k <= |s| && sub <= s[k..] ensures Contains(t, sub) {
        assert k > 0 && t[k - 1..] == s[k..];
      }
    }
  }

  /** What the token endpoint decides before it changes anything. */
  datatype Decision = Refuse(error: string) | Expire | Accept(auth: Auth)

  predicate PkcePasses(sha: Digest, f: TokenForm, a: Auth) {
    Given(a.challenge) && Given(f.verifier) ==>
      VerifyPkce(sha, f.verifier.value, a.challenge.value, a.challengeMethod)
  }

  function Decide(sha: Digest, s: State, f: TokenForm, now: int): Decision {
    if f.grantType != Some("authorization_code") then Refuse("unsupported_grant_type")
    else if !Given(f.code) || f.code.value !in s.codes then Refuse("invalid_grant")
    else
      var a := s.codes[f.code.value];
      if now > a.expiresAt then Expire
      else if ClientId(f) != Some(a.clientId) || a.clientId !in s.clients then Refuse("invalid_client")
      else if Secret(f) != Some(s.clients[a.clientId]) then Refuse("invalid_client")
      else if !PkcePasses(sha, f, a) then Refuse("invalid_grant")
      else Accept(a)
  }

  function TokenOf(a: Auth): AccessToken { AccessToken(a.clientId, a.scope, a.email, a.verified) }

  predicate Complete(l: LoginForm) { l.clientId.Some? && l.redirectUri.Some? && l.email.Some? }

  function AuthOf(l: LoginForm, up: Upstream, now: int): Auth
    requires up.Accepted? && Complete(l)
  {
    var email := if up.email.Some? then up.email.value else Text.Trim(Text.Py, l.email.value);
    Auth(l.clientId.value, l.redirectUri.value, l.scope, email, up.verified,
         l.challenge, l.challengeMethod, now + CODE_TTL)
  }

  function DoLogin(s: State, r: Request): (State, Response)
    requires r.Login?
  {
    var l := r.login;
    if l.email.None? then (s, Failed(500, "server_error"))
    else if Text.Trim(Text.Py, l.email.value) == "" || l.password == "" then
      (s, Failed(400, "Email and password are required"))
    else if !Given(l.clientId) || !Given(l.redirectUri) then (s, Failed(400, "Missing OAuth parameters"))
    else match r.upstream
      case Rejected => (s, Failed(401, "Invalid email or password"))
      case Unavailable => (s, Failed(503, "Authentication service error. Please try again."))
      case Broken => (s, Failed(500, "server_error"))
      case Accepted(_, _) =>
        (s.(codes := s.codes[r.newCode := AuthOf(l, r.upstream, r.now)]), Redirect(r.newCode))
  }

  /** A code whose scope is null is consumed and its token stored before the test for the
      OpenID scope raises. */
  function DoToken(sha: Digest, s: State, r: Request): (State, Response)
    requires r.Token?
  {
    match Decide(sha, s, r.form, r.now)
    case Refuse(error) => (s, Failed(400, error))
    case Expire => (s.(codes := s.codes - {r.form.code.value}), Failed(400, "invalid_grant"))
    case Accept(a) =>
      (s.(codes := s.codes - {r.form.code.value}, tokens := s.tokens[r.token := TokenOf(a)]),
       if a.scope.None? then Failed(500, "server_error")
       else Granted(r.token, Contains(a.scope.value, "openid")))
  }

  function Step(sha: Digest, s: State, r: Request): (State, Response) {
    match r
    case Register(id, secret) => (s.(clients := s.clients[id := secret]), Registered(id, secret))
    case Login(_, _, _, _) => DoLogin(s, r)
    case Token(_, _, _) => DoToken(sha, s, r)
  }

  function After(sha: Digest, run: seq<Request>): State {
    if run == [] then State(map[], map[], map[])
    else Step(sha, After(sha, run[..|run| - 1]), run[|run| - 1]).0
  }

  // ----- what one request does to one code

  predicate Issues(sha: Digest, s: State, r: Request, c: string) { Step(sha, s, r).1 == Redirect(c) }

  predicate Exchanges(sha: Digest, s: State, r: Request, c: string) {
    r.Token? && r.form.code == Some(c) && Decide(sha, s, r.form, r.now).Accept?
  }

  /** The code is asked for after it expired. */
  predicate Discards(s: State, r: Request, c: string) {
    && r.Token? && r.form.grantType == Some("authorization_code") && r.form.code == Some(c) && c != ""
    && c in s.codes && r.now > s.codes[c].expiresAt
  }

  predicate Overwrites(sha: Digest, s: State, r: Request, c: string) { Issues(sha, s, r, c) && c in s.codes }

  datatype Tally = Tally(issued: nat, exchanged: nat, discarded: nat, overwritten: nat)

  function TallyOf(sha: Digest, run: seq<Request>, c: string): Tally {
    if run == [] then Tally(0, 0, 0, 0)
    else
      var t := TallyOf(sha, run[..|run| - 1], c);
      var s, r := After(sha, run[..|run| - 1]), run[|run| - 1];
      Tally(t.issued + Bit(Issues(sha, s, r, c)), t.exchanged + Bit(Exchanges(sha, s, r, c)),
            t.discarded + Bit(Discards(s, r, c)), t.overwritten + Bit(Overwrites(sha, s, r, c)))
  }

  lemma LoginConserves(sha: Digest, s: State, r: Request, c: string)
    requires r.Login?
    ensures Bit(c in s.codes) + Bit(Issues(sha, s, r, c)) ==
            Bit(c in Step(sha, s, r).0.codes) + Bit(Overwrites(sha, s, r, c))
  {
    hide AuthOf, Given, Text.Trim;
  }

  lemma TokenConserves(sha: Digest, s: State, r: Request, c: string)
    requires r.Token?
    ensures !Issues(sha, s, r, c)
    ensures Bit(c in s.codes) ==
            Bit(c in Step(sha, s, r).0.codes) + Bit(Exchanges(sha, s, r, c)) + Bit(Discards(s, r, c))
  {
    hide PkcePasses, ClientId, Secret, Contains;
  }

  /** A code disappears only by its exchange or, once expired, by a request for it. */
  lemma StepConserves(sha: Digest, s: State, r: Request, c: string)
    ensures Bit(c in s.codes) + Bit(Issues(sha, s, r, c)) ==
            Bit(c in Step(sha, s, r).0.codes) + Bit(Exchanges(sha, s, r, c)) + Bit(Discards(s, r, c))
            + Bit(Overwrites(sha, s, r, c))
  {
    if r.Login? {
      LoginConserves(sha, s, r, c);
      hide Step, Issues;
    } else if r.Token? {
      TokenConserves(sha, s, r, c);
      hide Step, Issues, Exchanges, Discards;
    }
  }

  /** In every run, each time a code was issued it is now waiting, was exchanged, was
      discarded after its expiry, or was replaced by a second login given the same text. */
  lemma {:induction false} Conservation(sha: Digest, run: seq<Request>, c: string)
    ensures var t := TallyOf(sha, run, c);
            t.issued == Bit(c in After(sha, run).codes) + t.exchanged + t.discarded + t.overwritten
  {
    hide Step, Issues, Exchanges, Discards, Overwrites;
    if run != [] {
      Conservation(sha, run[..|run| - 1], c);
      StepConserves(sha, After(sha, run[..|run| - 1]), run[|run| - 1], c);
    }
  }

  /** The login gets as far as drawing a code. */
  predicate Draws(r: Request) {
    && r.Login? && r.login.email.Some? && Text.Trim(Text.Py, r.login.email.value) != "" && r.login.password != ""
    && Given(r.login.clientId) && Given(r.login.redirectUri) && r.upstream.Accepted?
  }

  /** No two logins draw the same code. */
  predicate Fresh(run: seq<Request>) {
    forall i, j :: 0 <= i < j < |run| && Draws(run[i]) && Draws(run[j]) ==> run[i].newCode != run[j].newCode
  }

  predicate Mentions(run: seq<Request>, c: string) {
    exists i :: 0 <= i < |run| && Draws(run[i]) && run[i].newCode == c
  }

  lemma {:induction false} NeverIssued(sha: Digest, run: seq<Request>, c: string)
    requires !Mentions(run, c)
    ensures TallyOf(sha, run, c).issued == 0
  {
    if run != [] {
      var prev, r := run[..|run| - 1], run[|run| - 1];
      forall i | 0 <= i < |prev| ensures !(Draws(prev[i]) && prev[i].newCode == c) { assert prev[i] == run[i]; }
      NeverIssued(sha, prev, c);
      assert !(Draws(r) && r.newCode == c);
    }
  }

  lemma {:induction false} IssuedOnce(sha: Digest, run: seq<Request>, c: string)
    requires Fresh(run)
    ensures TallyOf(sha, run, c).issued <= 1
  {
    hide After, Discards, Exchanges, PkcePasses, Contains;
    if run != [] {
      var prev, r := run[..|run| - 1], run[|run| - 1];
      IssuedOnce(sha, prev, c);
      if Draws(r) && r.newCode == c {
        forall i | 0 <= i < |prev| ensures !(Draws(prev[i]) && prev[i].newCode == c) { assert prev[i] == run[i]; }
        NeverIssued(sha, prev, c);
      }
    }
  }

  /** With fresh codes every code meets one fate at most: of waiting, exchanged and
      discarded there is exactly one when it was issued, and none when it was not. */
  lemma OneFate(sha: Digest, run: seq<Request>, c: string)
    requires Fresh(run)
    ensures var t := TallyOf(sha, run, c);
            && t.issued == Bit(c in After(sha, run).codes) + t.exchanged + t.discarded
            && t.exchanged <= t.issued <= 1
  {
    hide TallyOf, After, Fresh;
    Conservation(sha, run, c);
    IssuedOnce(sha, run, c);
    NeverOverwritten(sha, run, c);
  }

  lemma {:induction false} NeverOverwritten(sha: Digest, run: seq<Request>, c: string)
    requires Fresh(run)
    ensures TallyOf(sha, run, c).overwritten == 0
  {
    hide After, Discards, Exchanges, PkcePasses, Contains;
    if run != [] {
      var prev, r := run[..|run| - 1], run[|run| - 1];
      NeverOverwritten(sha, prev, c);
      if Draws(r) && r.newCode == c {
        forall i | 0 <= i < |prev| ensures !(Draws(prev[i]) && prev[i].newCode == c) { assert prev[i] == run[i]; }
        NeverIssued(sha, prev, c);
        Conservation(sha, prev, c);
      }
    }
  }

  // ----- where codes, clients and tokens come from

  /** What a login stores with its code, field by field: the form's own client, redirect URI,
      scope and PKCE challenge, the email and its standing as the upstream has them, and an
      expiry ten minutes on. */
  predicate RecordOf(a: Auth, l: LoginForm, up: Upstream, now: int) {
    && up.Accepted? && l.email.Some?
    && l.clientId == Some(a.clientId) && l.redirectUri == Some(a.redirectUri) && l.scope == a.scope
    && a.email == (match up.email case Some(e) => e case None => Text.Trim(Text.Py, l.email.value))
    && a.verified == up.verified
    && a.challenge == l.challenge && a.challengeMethod == l.challengeMethod
    && a.expiresAt == now + 600
  }

  lemma AuthFields(l: LoginForm, up: Upstream, now: int)
    requires up.Accepted? && Complete(l)
    ensures RecordOf(AuthOf(l, up, now), l, up, now)
  {
  }

  /** Request `j` of the run is the successful login that made code `c` stand for `a`. */
  predicate CodeFrom(sha: Digest, run: seq<Request>, j: nat, c: string, a: Auth) {
    && j < |run| && run[j].Login? && Issues(sha, After(sha, run[..j]), run[j], c)
    && RecordOf(a, run[j].login, run[j].upstream, run[j].now)
  }

  /** Where an entry of each dictionary comes from: it was there, or the step put it. */
  lemma ClientOrigin(sha: Digest, s: State, r: Request, id: string)
    ensures var t := Step(sha, s, r).0;
            && s.clients.Keys <= t.clients.Keys
            && (id in t.clients ==>
                (r.Register? && r.id == id && t.clients[id] == r.secret)
                || (id in s.clients && t.clients[id] == s.clients[id]))
            && (!(r.Register? && r.id == id) ==>
                (id in s.clients <==> id in t.clients) && (id in s.clients ==> t.clients[id] == s.clients[id]))
  {
    hide Decide, AuthOf, Contains, Given, Text.Trim;
  }

  lemma TokenOrigin(sha: Digest, s: State, r: Request, k: string)
    ensures var t := Step(sha, s, r).0;
            && (k in t.tokens ==>
                (r.Token? && r.token == k && r.form.code.Some? && Exchanges(sha, s, r, r.form.code.value)
                && r.form.code.value in s.codes && t.tokens[k] == TokenOf(s.codes[r.form.code.value])
                && t.tokens[k].clientId in s.clients)
                || (k in s.tokens && t.tokens[k] == s.tokens[k]))
  {
    hide VerifyPkce, Contains, PkcePasses, ClientId, Secret, AuthOf;
    if r.Login? || r.Register? { hide Decide; }
  }

  lemma CodeOrigin(sha: Digest, s: State, r: Request, c: string)
    ensures var t := Step(sha, s, r).0;
            && (c in t.codes ==>
                (Issues(sha, s, r, c) && r.Login? && r.upstream.Accepted? && Complete(r.login)
                && r.newCode == c && RecordOf(t.codes[c], r.login, r.upstream, r.now))
                || (c in s.codes && t.codes[c] == s.codes[c]))
  {
    hide VerifyPkce, Contains, PkcePasses, ClientId, Secret, AuthOf, RecordOf;
    if r.Login? && r.upstream.Accepted? && Complete(r.login) { AuthFields(r.login, r.upstream, r.now); }
  }

  lemma {:induction false} CodesHaveLogins(sha: Digest, run: seq<Request>, c: string) returns (j: nat)
    requires c in After(sha, run).codes
    ensures CodeFrom(sha, run, j, c, After(sha, run).codes[c])
  {
    hide Step, Issues, RecordOf;
    var prev, r := run[..|run| - 1], run[|run| - 1];
    var s := After(sha, prev);
    CodeOrigin(sha, s, r, c);
    if c in s.codes && After(sha, run).codes[c] == s.codes[c] {
      j := CodesHaveLogins(sha, prev, c);
      assert prev[..j] == run[..j] && prev[j] == run[j];
    } else {
      j := |run| - 1;
      assert run[..j] == prev;
    }
  }

  predicate ClientFrom(run: seq<Request>, k: nat, id: string, secret: string) {
    k < |run| && run[k] == Register(id, secret)
  }

  lemma {:induction false} ClientsHaveRegistrations(sha: Digest, run: seq<Request>, id: string) returns (k: nat)
    requires id in After(sha, run).clients
    ensures ClientFrom(run, k, id, After(sha, run).clients[id])
  {
    hide Step, Exchanges;
    var prev, r := run[..|run| - 1], run[|run| - 1];
    var s := After(sha, prev);
    ClientOrigin(sha, s, r, id);
    if id in s.clients && After(sha, run).clients[id] == s.clients[id] {
      k := ClientsHaveRegistrations(sha, prev, id);
    } else {
      k := |run| - 1;
    }
  }

  predicate ExchangedAt(sha: Digest, run: seq<Request>, i: nat, c: string) {
    i < |run| && Exchanges(sha, After(sha, run[..i]), run[i], c)
  }

  /** The verifier, if there is one, matches the challenge the login gave, if it gave one. */
  predicate PkceKept(sha: Digest, l: LoginForm, f: TokenForm) {
    Given(l.challenge) && Given(f.verifier) ==>
      || (l.challengeMethod == Some("S256") && Base64Url.UrlEncode(sha(f.verifier.value)) == l.challenge.value)
      || (l.challengeMethod == Some("plain") && f.verifier.value == l.challenge.value)
  }

  /** The exchange at `i` redeems the login at `j` with the secret registered at `k`. */
  predicate Redeems(sha: Digest, run: seq<Request>, j: nat, k: nat, i: nat, c: string) {
    && j < i < |run| && k < i && run[i].Token? && run[j].Login? && Issues(sha, After(sha, run[..j]), run[j], c)
    && run[j].login.clientId.Some? && run[i].form.code == Some(c)
    && run[i].now <= run[j].now + 600
    && ClientId(run[i].form) == run[j].login.clientId
    && run[k].Register? && run[k].id == run[j].login.clientId.value
    && Secret(run[i].form) == Some(run[k].secret)
    && PkceKept(sha, run[j].login, run[i].form)
  }

  /** Every exchange follows a login that issued the code at most ten minutes before, by the
      same client, which registered earlier with the secret it now presents; and a verifier it
      carries matches the challenge of that very login. */
  lemma ExchangeIsBacked(sha: Digest, run: seq<Request>, i: nat, c: string) returns (j: nat, k: nat)
    requires ExchangedAt(sha, run, i, c)
    ensures Redeems(sha, run, j, k, i, c)
  {
    hide After, Issues, Base64Url.UrlEncode;
    var s := After(sha, run[..i]);
    j := CodesHaveLogins(sha, run[..i], c);
    k := ClientsHaveRegistrations(sha, run[..i], s.codes[c].clientId);
    assert run[..i][j] == run[j] && run[..i][..j] == run[..j] && run[..i][k] == run[k];
  }

  /** Request `i` exchanged code `c`, which the login at `j` issued, for token text `t`, and
      stored `a` under it. */
  predicate TokenFrom(sha: Digest, run: seq<Request>, j: nat, i: nat, c: string, t: string, a: AccessToken) {
    && ExchangedAt(sha, run, i, c) && run[i].token == t
    && j < i && run[j].Login? && Issues(sha, After(sha, run[..j]), run[j], c)
    && var l, up := run[j].login, run[j].upstream;
       && up.Accepted? && l.email.Some?
       && l.clientId == Some(a.clientId) && l.scope == a.scope && a.verified == up.verified
       && a.email == match up.email case Some(e) => e case None => Text.Trim(Text.Py, l.email.value)
  }

  /** Every stored token carries the client, scope, email and email standing of the login that
      issued a code which was exchanged for it, and its client is registered, even when two
      exchanges made the same text. */
  lemma {:induction false} TokenProvenance(sha: Digest, run: seq<Request>, t: string)
    returns (j: nat, i: nat, c: string)
    requires t in After(sha, run).tokens
    ensures TokenFrom(sha, run, j, i, c, t, After(sha, run).tokens[t])
    ensures After(sha, run).tokens[t].clientId in After(sha, run).clients
  {
    hide Step, Exchanges, Issues;
    var prev, r := run[..|run| - 1], run[|run| - 1];
    var s := After(sha, prev);
    TokenOrigin(sha, s, r, t);
    ClientOrigin(sha, s, r, "");
    if t in s.tokens && After(sha, run).tokens[t] == s.tokens[t] {
      j, i, c := TokenProvenance(sha, prev, t);
      assert prev[..i] == run[..i] && prev[i] == run[i] && prev[..j] == run[..j] && prev[j] == run[j];
    } else {
      i, c := |run| - 1, r.form.code.value;
      assert run[..i] == prev;
      j := CodesHaveLogins(sha, prev, c);
      assert prev[..j] == run[..j] && prev[j] == run[j];
    }
  }

  // ----- a code waits for its client

  /** Nothing in `more` issues `c` again, asks for it after `limit`, or exchanges it;
      anything else may happen, failed attempts on `c` included. */
  predicate Quiet(sha: Digest, run: seq<Request>, more: seq<Request>, c: string, limit: int) {
    forall k :: 0 <= k < |more| ==> QuietAt(sha, run, more, k, c, limit)
  }

  predicate QuietAt(sha: Digest, run: seq<Request>, more: seq<Request>, k: nat, c: string, limit: int)
    requires k < |more|
  {
    var r := more[k];
    && (Draws(r) ==> r.newCode != c)
    && (r.Token? && r.form.code == Some(c) ==>
          r.now <= limit && !Exchanges(sha, After(sha, run + more[..k]), r, c))
  }

  lemma QuietStep(sha: Digest, s: State, r: Request, c: string)
    requires c in s.codes && (Draws(r) ==> r.newCode != c)
    requires r.Token? && r.form.code == Some(c) ==> r.now <= s.codes[c].expiresAt && !Exchanges(sha, s, r, c)
    ensures c in Step(sha, s, r).0.codes && Step(sha, s, r).0.codes[c] == s.codes[c]
  {
    hide PkcePasses, ClientId, Secret, Contains;
  }

  /** A waiting code outlasts every failed attempt on it, up to its expiry. */
  lemma {:induction false} CodeWaits(sha: Digest, run: seq<Request>, more: seq<Request>, c: string)
    requires c in After(sha, run).codes
    requires Quiet(sha, run, more, c, After(sha, run).codes[c].expiresAt)
    ensures c in After(sha, run + more).codes && After(sha, run + more).codes[c] == After(sha, run).codes[c]
  {
    hide Step, Exchanges;
    if more == [] {
      assert run + more == run;
    } else {
      var n := |more| - 1;
      var prev := more[..n];
      var limit := After(sha, run).codes[c].expiresAt;
      forall k | 0 <= k < n ensures QuietAt(sha, run, prev, k, c, limit) {
        assert QuietAt(sha, run, more, k, c, limit);
        assert prev[..k] == more[..k];
      }
      CodeWaits(sha, run, prev, c);
      assert QuietAt(sha, run, more, n, c, limit);
      assert (run + more)[..|run + more| - 1] == run + prev && (run + more)[|run + more| - 1] == more[n];
      QuietStep(sha, After(sha, run + prev), more[n], c);
    }
  }

  lemma {:induction false} SecretStays(sha: Digest, run: seq<Request>, more: seq<Request>, id: string)
    requires id in After(sha, run).clients
    requires forall k :: 0 <= k < |more| && more[k].Register? ==> more[k].id != id
    ensures id in After(sha, run + more).clients
    ensures After(sha, run + more).clients[id] == After(sha, run).clients[id]
  {
    hide Step;
    if more == [] {
      assert run + more == run;
    } else {
      var prev := more[..|more| - 1];
      SecretStays(sha, run, prev, id);
      ClientOrigin(sha, After(sha, run + prev), more[|more| - 1], id);
      assert (run + more)[|run + more| - 1] == more[|more| - 1];
      assert (run + more)[..|run + more| - 1] == run + prev;
    }
  }

  /** The honest client succeeds: whatever happens in between, the right credentials and
      verifier, at or before the expiry, exchange a waiting code. */
  lemma HonestExchange(sha: Digest, run: seq<Request>, more: seq<Request>, r: Request)
    requires r.Token? && r.form.grantType == Some("authorization_code") && Given(r.form.code)
    requires r.form.code.value in After(sha, run).codes
    requires var a := After(sha, run).codes[r.form.code.value];
             && Quiet(sha, run, more, r.form.code.value, a.expiresAt) && r.now <= a.expiresAt
             && ClientId(r.form) == Some(a.clientId) && PkcePasses(sha, r.form, a)
             && a.clientId in After(sha, run).clients
             && Secret(r.form) == Some(After(sha, run).clients[a.clientId])
             && (forall k :: 0 <= k < |more| && more[k].Register? ==> more[k].id != a.clientId)
    ensures ExchangedAt(sha, run + more + [r], |run + more|, r.form.code.value)
  {
    hide After, PkcePasses, Quiet;
    var c := r.form.code.value;
    CodeWaits(sha, run, more, c);
    SecretStays(sha, run, more, After(sha, run).codes[c].clientId);
    assert (run + more + [r])[..|run + more|] == run + more;
  }

  // ----- the response

  /** A request that consumed the code is answered with its tokens exactly when the login
      gave a scope; otherwise the answer is a server error although the token is stored. */
  lemma AnsweredExactly(sha: Digest, s: State, r: Request, c: string)
    requires Exchanges(sha, s, r, c)
    ensures c in s.codes && c !in Step(sha, s, r).0.codes && r.token in Step(sha, s, r).0.tokens
    ensures Step(sha, s, r).1.Granted? <==> s.codes[c].scope.Some?
    ensures Step(sha, s, r).1.Granted? ==>
              (Step(sha, s, r).1.idToken <==> Contains(s.codes[c].scope.value, "openid"))
  {
  }

  /** A run that reaches the failing side: the code is gone and its token stored, but the
      client is told of a server error. */
  lemma NullScopeWitness(sha: Digest)
    ensures var form := LoginForm(Some("u@x"), "pw", Some("c"), Some("https://x"), None, None, None);
            var request := TokenForm(Some("authorization_code"), Some("k"), None, Some("c"), Some("s"), None, None);
            var run := [Register("c", "s"), Login(form, Accepted(Some("u@x"), true), "k", 0)];
            var t := Token(request, 10, "tok");
            && After(sha, run + [t]) == State(map["c" := "s"], map[], map["tok" := AccessToken("c", None, "u@x", true)])
            && Step(sha, After(sha, run), t).1 == Failed(500, "server_error")
  {
    hide VerifyPkce, Contains;
    var form := LoginForm(Some("u@x"), "pw", Some("c"), Some("https://x"), None, None, None);
    var request := TokenForm(Some("authorization_code"), Some("k"), None, Some("c"), Some("s"), None, None);
    var first, second := Register("c", "s"), Login(form, Accepted(Some("u@x"), true), "k", 0);
    var t := Token(request, 10, "tok");
    var run := [first, second];
    assert run[..1] == [first] && [first][..0] == [] && (run + [t])[..2] == run;
    assert After(sha, [first]) == State(map["c" := "s"], map[], map[]);
    Text.TrimTight(Text.Py, "u@x");
    assert After(sha, run).codes == map["k" := Auth("c", "https://x", None, "u@x", true, None, None, CODE_TTL)];
  }

  /** Only the exchange of a waiting code is answered with tokens. */
  lemma GrantedOnlyByExchange(sha: Digest, s: State, r: Request)
    requires Step(sha, s, r).1.Granted?
    ensures r.Token? && r.form.code.Some? && Exchanges(sha, s, r, r.form.code.value)
  {
  }

  /** The verifier is optional: a request with the right credentials for a waiting code with
      a challenge is accepted exactly when it carries no verifier or one that passes; and
      no verifier passes when the login gave a challenge without its method. */
  lemma VerifierOptionalExactly(sha: Digest, run: seq<Request>, r: Request)
    requires r.Token? && Entitled(After(sha, run), r.form, r.now)
    requires Given(After(sha, run).codes[r.form.code.value].challenge)
    ensures var a := After(sha, run).codes[r.form.code.value];
            var passes := Given(r.form.verifier)
                          && VerifyPkce(sha, r.form.verifier.value, a.challenge.value, a.challengeMethod);
            var exchanged := ExchangedAt(sha, run + [r], |run|, r.form.code.value);
            && (exchanged <==> !Given(r.form.verifier) || passes)
            && (a.challengeMethod.None? ==> (exchanged <==> !Given(r.form.verifier)))
  {
    hide After, Entitled, Decide;
    assert (run + [r])[..|run|] == run;
    EntitledExactly(sha, After(sha, run), r.form, r.now);
  }

  /** Any request is exchanged exactly when it is entitled and PKCE lets it pass.  Neither
      looks at the redirect URI, so it may be anything: the promise that it matches the one
      of the login is kept by a request exactly when it matches or fails for another reason. */
  lemma RedirectUncheckedExactly(sha: Digest, run: seq<Request>, r: Request, other: Option<string>)
    requires r.Token? && Given(r.form.code)
    ensures var s := After(sha, run); var c := r.form.code.value;
            var exchanged := ExchangedAt(sha, run + [r], |run|, c);
            var passes := Entitled(s, r.form, r.now) && PkcePasses(sha, r.form, s.codes[c]);
            && (exchanged <==> passes)
            && (exchanged <==>
                ExchangedAt(sha, run + [Token(r.form.(redirectUri := other), r.now, r.token)], |run|, c))
            && ((exchanged ==> c in s.codes && r.form.redirectUri == Some(s.codes[c].redirectUri)) <==>
                !passes || r.form.redirectUri == Some(s.codes[c].redirectUri))
  {
    hide After, Entitled, Decide, PkcePasses;
    var q := Token(r.form.(redirectUri := other), r.now, r.token);
    assert (run + [r])[..|run|] == run && (run + [q])[..|run|] == run;
    EntitledExactly(sha, After(sha, run), r.form, r.now);
    EntitledExactly(sha, After(sha, run), q.form, q.now);
    RedirectUnread(sha, After(sha, run), r.form, r.now, other);
  }

  lemma RedirectUnread(sha: Digest, s: State, f: TokenForm, now: int, other: Option<string>)
    ensures Entitled(s, f, now) <==> Entitled(s, f.(redirectUri := other), now)
    ensures forall a :: PkcePasses(sha, f, a) <==> PkcePasses(sha, f.(redirectUri := other), a)
  {
  }

  /** A code issued for one redirect URI is exchanged by a request that names another. */
  lemma RedirectWitness(sha: Digest)
    ensures var form := LoginForm(Some("u@x"), "pw", Some("c"), Some("https://x"), Some("openid"), None, None);
            var request :=
              TokenForm(Some("authorization_code"), Some("k"), Some("https://y"), Some("c"), Some("s"), None, None);
            var run := [Register("c", "s"), Login(form, Accepted(Some("u@x"), true), "k", 0)];
            var t := Token(request, 10, "tok");
            && ExchangedAt(sha, run + [t], 2, "k")
            && After(sha, run).codes["k"].redirectUri == "https://x"
            && Step(sha, After(sha, run), t).1 == Granted("tok", true)
  {
    hide VerifyPkce;
    var form := LoginForm(Some("u@x"), "pw", Some("c"), Some("https://x"), Some("openid"), None, None);
    var first, second := Register("c", "s"), Login(form, Accepted(Some("u@x"), true), "k", 0);
    var run := [first, second];
    var request :=
      TokenForm(Some("authorization_code"), Some("k"), Some("https://y"), Some("c"), Some("s"), None, None);
    var t := Token(request, 10, "tok");
    assert run[..1] == [first] && [first][..0] == [] && (run + [t])[..2] == run;
    assert After(sha, [first]) == State(map["c" := "s"], map[], map[]);
    Text.TrimTight(Text.Py, "u@x");
    var auth := Auth("c", "https://x", Some("openid"), "u@x", true, None, None, CODE_TTL);
    assert After(sha, run) == State(map["c" := "s"], map["k" := auth], map[]);
    assert Contains("openid", "openid");
  }

  /** Everything about the request is right, the verifier aside. */
  predicate Entitled(s: State, f: TokenForm, now: int)
    ensures Entitled(s, f, now) ==> Given(f.code) && f.code.value in s.codes
  {
    && f.grantType == Some("authorization_code") && Given(f.code) && f.code.value in s.codes
    && var a := s.codes[f.code.value];
       && now <= a.expiresAt && ClientId(f) == Some(a.clientId)
       && a.clientId in s.clients && Secret(f) == Some(s.clients[a.clientId])
  }

  lemma EntitledExactly(sha: Digest, s: State, f: TokenForm, now: int)
    ensures Decide(sha, s, f, now).Accept? <==> Entitled(s, f, now) && PkcePasses(sha, f, s.codes[f.code.value])
  {
    hide PkcePasses, ClientId, Secret;
  }

  /** A code issued with a challenge is exchanged by a request that carries no verifier. */
  lemma NoVerifierWitness(sha: Digest)
    ensures var form :=
              LoginForm(Some("u@x"), "pw", Some("c"), Some("https://x"), Some("openid"), Some("h"), Some("S256"));
            var request :=
              TokenForm(Some("authorization_code"), Some("k"), Some("https://x"), Some("c"), Some("s"), None, None);
            var run := [Register("c", "s"), Login(form, Accepted(Some("u@x"), true), "k", 0)];
            ExchangedAt(sha, run + [Token(request, 10, "tok")], 2, "k")
  {
    hide VerifyPkce;
    var form :=
      LoginForm(Some("u@x"), "pw", Some("c"), Some("https://x"), Some("openid"), Some("h"), Some("S256"));
    var first, second := Register("c", "s"), Login(form, Accepted(Some("u@x"), true), "k", 0);
    var run := [first, second];
    var request :=
      TokenForm(Some("authorization_code"), Some("k"), Some("https://x"), Some("c"), Some("s"), None, None);
    assert run[..1] == [first] && [first][..0] == [] && (run + [Token(request, 10, "tok")])[..2] == run;
    assert After(sha, [first]) == State(map["c" := "s"], map[], map[]);
    Text.TrimTight(Text.Py, "u@x");
    var auth := Auth("c", "https://x", Some("openid"), "u@x", true, Some("h"), Some("S256"), CODE_TTL);
    assert After(sha, run) == State(map["c" := "s"], map["k" := auth], map[]);
  }

  /** A challenge made with S256 accepts exactly the verifiers with the same digest, since
      the encoding of digests is one-to-one; a plain one only itself; a missing or unknown
      method accepts none. */
  lemma PkceExactly(sha: Digest, made: string, verifier: string, challengeMethod: Option<string>)
    ensures VerifyPkce(sha, verifier, Base64Url.UrlEncode(sha(made)), Some("S256")) <==> sha(verifier) == sha(made)
    ensures VerifyPkce(sha, verifier, made, Some("plain")) <==> verifier == made
    ensures challengeMethod !in {Some("S256"), Some("plain")} ==> !VerifyPkce(sha, verifier, made, challengeMethod)
  {
    hide Base64Url.UrlEncode, Base64Url.UrlDecode;
    Base64Url.RoundTrip(sha(made));
    Base64Url.RoundTrip(sha(verifier));
  }

  /** A wrong verifier is refused, and the code goes on waiting. */
  lemma WrongVerifierWitness(sha: Digest, wrong: string)
    requires wrong != "" && Base64Url.UrlEncode(sha(wrong)) != "h"
    ensures var form :=
              LoginForm(Some("u@x"), "pw", Some("c"), Some("https://x"), Some("openid"), Some("h"), Some("S256"));
            var request := TokenForm(Some("authorization_code"), Some("k"), Some("https://x"), Some("c"), Some("s"),
                                     None, Some(wrong));
            var run := [Register("c", "s"), Login(form, Accepted(Some("u@x"), true), "k", 0)];
            && Step(sha, After(sha, run), Token(request, 10, "tok")) == (After(sha, run), Failed(400, "invalid_grant"))
            && "k" in After(sha, run).codes
  {
    hide Base64Url.UrlEncode;
    var form :=
      LoginForm(Some("u@x"), "pw", Some("c"), Some("https://x"), Some("openid"), Some("h"), Some("S256"));
    var first, second := Register("c", "s"), Login(form, Accepted(Some("u@x"), true), "k", 0);
    var run := [first, second];
    assert run[..1] == [first] && [first][..0] == [];
    assert After(sha, [first]) == State(map["c" := "s"], map[], map[]);
    Text.TrimTight(Text.Py, "u@x");
    var auth := Auth("c", "https://x", Some("openid"), "u@x", true, Some("h"), Some("S256"), 600);
    assert After(sha, run) == State(map["c" := "s"], map["k" := auth], map[]);
  }

  /** The server's dictionaries, updated in place. */
  class AuthorizationServer {
    var clients: map<string, string>
    var codes: map<string, Auth>
    var tokens: map<string, AccessToken>

    function Snapshot(): State
      reads this
    {
      State(clients, codes, tokens)
    }

    constructor ()
      ensures forall sha: Digest :: Snapshot() == After(sha, [])
      ensures clients == map[] && codes == map[] && tokens == map[]
    {
      clients, codes, tokens := map[], map[], map[];
    }

    method OauthRegister(sha: Digest, r: Request) returns (response: Response)
      requires r.Register?
      modifies `clients
      ensures (Snapshot(), response) == Step(sha, old(Snapshot()), r)
      ensures clients == old(clients)[r.id := r.secret] && response == Registered(r.id, r.secret)
    {
      clients := clients[r.id := r.secret];
      response := Registered(r.id, r.secret);
    }

    method SyfthubLogin(sha: Digest, r: Request) returns (response: Response)
      requires r.Login?
      modifies `codes
      ensures (Snapshot(), response) == Step(sha, old(Snapshot()), r)
      ensures var l, up := r.login, r.upstream;
              if l.email.None? then response == Failed(500, "server_error")
              else if Text.Trim(Text.Py, l.email.value) == "" || l.password == "" then
                response == Failed(400, "Email and password are required")
              else if l.clientId.None? || l.clientId == Some("")
                      || l.redirectUri.None? || l.redirectUri == Some("") then
                response == Failed(400, "Missing OAuth parameters")
              else
                && (up.Rejected? ==> response == Failed(401, "Invalid email or password"))
                && (up.Unavailable? ==> response == Failed(503, "Authentication service error. Please try again."))
                && (up.Broken? ==> response == Failed(500, "server_error"))
                && (up.Accepted? ==> response == Redirect(r.newCode))
      ensures response.Failed? ==> codes == old(codes)
      ensures !response.Failed? ==>
                && codes == old(codes)[r.newCode := codes[r.newCode]]
                && RecordOf(codes[r.newCode], r.login, r.upstream, r.now)
    {
      var form := r.login;
      if form.email.None? {
        return Failed(500, "server_error");
      }
      var email := Text.Trim(Text.Py, form.email.value);
      if email == "" || form.password == "" {
        return Failed(400, "Email and password are required");
      }
      if !Given(form.clientId) || !Given(form.redirectUri) {
        return Failed(400, "Missing OAuth parameters");
      }
      match r.upstream {
        case Rejected => return Failed(401, "Invalid email or password");
        case Unavailable => return Failed(503, "Authentication service error. Please try again.");
        case Broken => return Failed(500, "server_error");
        case Accepted(userEmail, verified) =>
          if userEmail.Some? { email := userEmail.value; }
          codes := codes[r.newCode := Auth(form.clientId.value, form.redirectUri.value, form.scope, email, verified,
                                           form.challenge, form.challengeMethod, r.now + CODE_TTL)];
          return Redirect(r.newCode);
      }
    }

    method OauthToken(sha: Digest, r: Request) returns (response: Response)
      requires r.Token?
      modifies `codes, `tokens
      ensures (Snapshot(), response) == Step(sha, old(Snapshot()), r)
      ensures var f := r.form;
              if f.grantType != Some("authorization_code") then
                response == Failed(400, "unsupported_grant_type") && codes == old(codes) && tokens == old(tokens)
              else if f.code.None? || f.code == Some("") || f.code.value !in old(codes) then
                response == Failed(400, "invalid_grant") && codes == old(codes) && tokens == old(tokens)
              else
                var a := old(codes)[f.code.value];
                if r.now > a.expiresAt then
                  && response == Failed(400, "invalid_grant")
                  && codes == old(codes) - {f.code.value} && tokens == old(tokens)
                else if ClientId(f) != Some(a.clientId) || a.clientId !in clients
                        || Secret(f) != Some(clients[a.clientId]) then
                  response == Failed(400, "invalid_client") && codes == old(codes) && tokens == old(tokens)
                else if Given(a.challenge) && Given(f.verifier)
                        && !VerifyPkce(sha, f.verifier.value, a.challenge.value, a.challengeMethod) then
                  response == Failed(400, "invalid_grant") && codes == old(codes) && tokens == old(tokens)
                else
                  && codes == old(codes) - {f.code.value}
                  && tokens == old(tokens)[r.token := AccessToken(a.clientId, a.scope, a.email, a.verified)]
                  && response == (if a.scope.None? then Failed(500, "server_error")
                                  else Granted(r.token, Contains(a.scope.value, "openid")))
    {
      var form := r.form;
      var clientId, secret := form.clientId, form.secret;
      if form.basic.Some? {
        if !Given(clientId) { clientId := Some(form.basic.value.id); }
        if !Given(secret) { secret := Some(form.basic.value.secret); }
      }
      if form.grantType != Some("authorization_code") {
        return Failed(400, "unsupported_grant_type");
      }
      if !Given(form.code) || form.code.value !in codes {
        return Failed(400, "invalid_grant");
      }
      var code := form.code.value;
      var auth := codes[code];
      if r.now > auth.expiresAt {
        codes := codes - {code};
        return Failed(400, "invalid_grant");
      }
      if clientId != Some(auth.clientId) {
        return Failed(400, "invalid_client");
      }
      if clientId.value !in clients || secret != Some(clients[clientId.value]) {
        return Failed(400, "invalid_client");
      }
      if Given(auth.challenge) && Given(form.verifier) {
        if !VerifyPkce(sha, form.verifier.value, auth.challenge.value, auth.challengeMethod) {
          return Failed(400, "invalid_grant");
        }
      }
      tokens := tokens[r.token := AccessToken(clientId.value, auth.scope, auth.email, auth.verified)];
      codes := codes - {code};
      if auth.scope.None? {
        return Failed(500, "server_error");
      }
      return Granted(r.token, Contains(auth.scope.value, "openid"));
    }
  }
}
