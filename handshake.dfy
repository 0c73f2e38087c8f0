/**
 * `MCAuthenticator.authenticate` and its five stages: the Microsoft login page,
 * the Microsoft login, Xbox Live user authentication, the XSTS token and the
 * Minecraft login. Every HTTP exchange is a function of `Services` from the
 * request the stage builds to the reply fields the stage reads (None when the
 * call or the field lookup raises); the request bodies are built exactly.
 */
module Handshake {
  import opened Wrappers
  import opened Strings
  import opened RedirectParams
  import opened LoginScraper

  const MicrosoftAuthDomain := "https://login.live.com"
  const XboxLiveAuthDomain := "https://user.auth.xboxlive.com"
  const XboxLiveXstsAuthDomain := "https://xsts.auth.xboxlive.com"
  const MinecraftAuthDomain := "https://api.minecraftservices.com"

  const AuthorizeUrl := MicrosoftAuthDomain + "/oauth20_authorize.srf?client_id=000000004C12AE6F&redirect_uri=https://login.live.com/oauth20_desktop.srf&scope=service::user.auth.xboxlive.com::MBI_SSL&display=touch&response_type=token&locale=en"
  const XboxLiveUrl := XboxLiveAuthDomain + "/user/authenticate"
  const XstsUrl := XboxLiveXstsAuthDomain + "/xsts/authorize"
  const MinecraftLoginUrl := MinecraftAuthDomain + "/authentication/login_with_xbox"

  datatype Credentials = Credentials(email: string, password: string)

  /** The JSON body posted to Xbox Live user authentication. */
  datatype XboxLiveProperties = XboxLiveProperties(authMethod: string, siteName: string, rpsTicket: string)
  datatype XboxLiveBody = XboxLiveBody(properties: XboxLiveProperties, relyingParty: string, tokenType: string)

  /** The JSON body posted to the XSTS authorization endpoint. */
  datatype XstsProperties = XstsProperties(sandboxId: string, userTokens: seq<string>)
  datatype XstsBody = XstsBody(properties: XstsProperties, relyingParty: string, tokenType: string)

  /** The JSON body posted to the Minecraft login. */
  datatype MinecraftBody = MinecraftBody(identityToken: string, ensureLegacyEnabled: bool)

  /** The five stages, in the order `authenticate` runs them. */
  datatype Stage = Prepare | Microsoft | XboxLive | Xsts | Minecraft

  const StageOrder := [Prepare, Microsoft, XboxLive, Xsts, Minecraft]

  /** One HTTP request of the handshake. */
  datatype Request =
    | GetLoginPage(url: string)
    | PostLoginForm(url: string, form: string)
    | PostXboxLive(url: string, xboxLive: XboxLiveBody)
    | PostXsts(url: string, xsts: XstsBody)
    | PostMinecraft(url: string, minecraft: MinecraftBody)
  {
    function Stage(): Stage {
      match this
      case GetLoginPage(_) => Prepare
      case PostLoginForm(_, _) => Microsoft
      case PostXboxLive(_, _) => XboxLive
      case PostXsts(_, _) => Xsts
      case PostMinecraft(_, _) => Minecraft
    }
  }

  /** What aborts the handshake. */
  datatype AuthError =
    | LoginPageFailed                   // the GET of the login page raised
    | ScrapeFailed(scrape: ScrapeError) // SFTTagNotFoundError or URLPostNotFoundError
    | LoginPostFailed                   // the POST of the login form raised
    | RedirectMalformed(params: ParamsError) // `_getParamsFromUrl` raised
    | AccessTokenMissing                // `loginData['access_token']` raised KeyError
    | XboxLiveFailed                    // the POST raised or `Token`/`uhs` was missing
    | XstsFailed                        // the POST raised or `Token` was missing
    | MinecraftFailed                   // the POST raised or `access_token` was missing
  {
    function Stage(): Stage {
      match this
      case LoginPageFailed | ScrapeFailed(_) => Prepare
      case LoginPostFailed | RedirectMalformed(_) | AccessTokenMissing => Microsoft
      case XboxLiveFailed => XboxLive
      case XstsFailed => Xsts
      case MinecraftFailed => Minecraft
    }
  }

  /**
   * The remote services. `loginPage` gives the HTML of a GET, `submitLogin`
   * the final URL after the login POST's redirects, `xboxLive` the `Token` and
   * `DisplayClaims.xui[0].uhs` of its reply, `xsts` the `Token` and
   * `minecraft` the `access_token`.
   */
  datatype Services = Services(
    loginPage: string -> Option<string>,
    submitLogin: (string, string) -> Option<string>,
    xboxLive: XboxLiveBody -> Option<(string, string)>,
    xsts: XstsBody -> Option<string>,
    minecraft: MinecraftBody -> Option<string>)

  /** A stage: the request it sent and what it returned or raised. */
  datatype Step<T> = Step(request: Request, result: Result<T, AuthError>)

  /** The form-encoded login body, with no escaping of its values. */
  function LoginForm(email: string, password: string, sFTTag: string): string {
    Piece("login", email) + "&" + Piece("loginfmt", email) + "&" + Piece("passwd", password) + "&" + Piece("PPFT", sFTTag)
  }

  /** The pairs the login form carries, in order. */
  function LoginFields(email: string, password: string, sFTTag: string): seq<(string, string)> {
    [("login", email), ("loginfmt", email), ("passwd", password), ("PPFT", sFTTag)]
  }

  /** The form's keys hold none of the delimiters. */
  lemma FormKeysPlain()
    ensures Plain("login") && Plain("loginfmt") && Plain("passwd") && Plain("PPFT")
  {
  }

  /** The login form is the `&`-join of its `key=value` pieces. */
  lemma LoginFormIsEncoded(email: string, password: string, sFTTag: string)
    ensures LoginForm(email, password, sFTTag) == EncodeFragment(LoginFields(email, password, sFTTag))
  {
    var pieces := Pieces(LoginFields(email, password, sFTTag));
    assert pieces == [Piece("login", email), Piece("loginfmt", email), Piece("passwd", password), Piece("PPFT", sFTTag)];
    JoinFour(pieces[0], pieces[1], pieces[2], pieces[3], '&');
  }

  /** Split on `&`, the login body gives back its four pieces when no value holds `&`. */
  lemma LoginFormSplits(email: string, password: string, sFTTag: string)
    requires '&' !in email && '&' !in password && '&' !in sFTTag
    ensures Split(LoginForm(email, password, sFTTag), '&') == Pieces(LoginFields(email, password, sFTTag))
  {
    var kvs := LoginFields(email, password, sFTTag);
    var pieces := Pieces(kvs);
    LoginFormIsEncoded(email, password, sFTTag);
    FormKeysPlain();
    forall i | 0 <= i < |pieces| ensures '&' !in pieces[i] {
      assert '&' !in kvs[i].0;
    }
    SplitJoin(pieces, '&');
  }

  /**
   * Read back as a form (split on `&`, then on `=`), the login body gives the
   * four fields in order, provided no value holds `&` or `=`.
   */
  lemma LoginFormDecodes(email: string, password: string, sFTTag: string)
    requires '&' !in email && '&' !in password && '&' !in sFTTag
    requires '=' !in email && '=' !in password && '=' !in sFTTag
    ensures DecodePieces(Split(LoginForm(email, password, sFTTag), '&')) == Success(LoginFields(email, password, sFTTag))
  {
    var kvs := LoginFields(email, password, sFTTag);
    LoginFormSplits(email, password, sFTTag);
    FormKeysPlain();
    forall i | 0 <= i < |kvs| ensures '=' !in kvs[i].0 && '=' !in kvs[i].1 {
      if i == 0 {
      } else if i == 1 {
      } else if i == 2 {
      } else {
      }
    }
    DecodeEncoded(kvs);
  }

  /** A piece counts the `&`s of its value when its key has none. */
  lemma CountPieceAmpersands(key: string, value: string)
    requires '&' !in key
    ensures Count(Piece(key, value), '&') == Count(value, '&')
  {
    CountConcat(key + "=", value, '&');
    CountAbsent(key + "=", '&');
  }

  /**
   * The values are not escaped: every `&` in the email (which appears twice),
   * the password or the sFTTag adds a piece to the form.
   */
  lemma LoginFormPieceCount(email: string, password: string, sFTTag: string)
    ensures |Split(LoginForm(email, password, sFTTag), '&')| ==
      4 + 2 * Count(email, '&') + Count(password, '&') + Count(sFTTag, '&')
  {
    var a, b, c, d := Piece("login", email), Piece("loginfmt", email), Piece("passwd", password), Piece("PPFT", sFTTag);
    SplitCount(LoginForm(email, password, sFTTag), '&');
    CountAround(a, b, '&');
    CountAround(a + "&" + b, c, '&');
    CountAround(a + "&" + b + "&" + c, d, '&');
    CountPieceAmpersands("login", email);
    CountPieceAmpersands("loginfmt", email);
    CountPieceAmpersands("passwd", password);
    CountPieceAmpersands("PPFT", sFTTag);
  }

  /** The Xbox Live body: RPS authentication carrying the Microsoft token as `RpsTicket`. */
  function XboxLiveRequest(msAccessToken: string): (body: XboxLiveBody)
    ensures body.properties.rpsTicket == msAccessToken
  {
    XboxLiveBody(XboxLiveProperties("RPS", "user.auth.xboxlive.com", msAccessToken), "http://auth.xboxlive.com", "JWT")
  }

  /** The XSTS body: the retail sandbox, the one Xbox Live token, Minecraft as relying party. */
  function XstsRequest(xboxLiveToken: string): (body: XstsBody)
    ensures body.properties.userTokens == [xboxLiveToken]
  {
    XstsBody(XstsProperties("RETAIL", [xboxLiveToken]), "rp://api.minecraftservices.com/", "JWT")
  }

  const IdentityPrefix := "XBL3.0 x="

  /** The identity token `XBL3.0 x=<uhs>;<xsts>`. */
  function IdentityToken(userHash: string, xstsToken: string): string {
    IdentityPrefix + userHash + ";" + xstsToken
  }

  /** Reads a user hash and an XSTS token back out of an identity token. */
  function ParseIdentityToken(token: string): (r: Option<(string, string)>)
    ensures r.Some? ==> ';' !in r.value.0 && token == IdentityToken(r.value.0, r.value.1)
  {
    var n := |IdentityPrefix|;
    if |token| < n || token[..n] != IdentityPrefix || ';' !in token[n..] then None
    else
      var rest := token[n..];
      var i := FirstIndex(rest, ';');
      assert rest == rest[..i] + ";" + rest[i + 1..];
      assert token == token[..n] + rest;
      Some((rest[..i], rest[i + 1..]))
  }

  /** The identity token holds the user hash and the XSTS token, recoverable when the hash has no `;`. */
  lemma IdentityTokenRoundTrip(userHash: string, xstsToken: string)
    requires ';' !in userHash
    ensures ParseIdentityToken(IdentityToken(userHash, xstsToken)) == Some((userHash, xstsToken))
  {
    var token := IdentityToken(userHash, xstsToken);
    var n := |IdentityPrefix|;
    var rest := userHash + ";" + xstsToken;
    assert token == IdentityPrefix + rest;
    assert token[..n] == IdentityPrefix && token[n..] == rest;
    assert rest[|userHash|] == ';' && rest[..|userHash|] == userHash;
    FirstIndexIs(rest, ';', |userHash|);
    assert rest[|userHash| + 1..] == xstsToken;
  }

  /** The Minecraft login body. */
  function MinecraftRequest(xstsToken: string, userHash: string): (body: MinecraftBody)
    ensures body.identityToken == IdentityToken(userHash, xstsToken) && body.ensureLegacyEnabled
  {
    MinecraftBody(IdentityToken(userHash, xstsToken), true)
  }

  /** `_prepareMicrosoftLogin`: fetch the login page, scrape the sFTTag, then the urlPost. */
  function PrepareMicrosoftLogin(svc: Services): (s: Step<(string, string)>)
    ensures s.request == GetLoginPage(AuthorizeUrl)
    ensures s.result.Failure? ==> s.result.error.Stage() == Prepare
  {
    var request := GetLoginPage(AuthorizeUrl);
    match svc.loginPage(AuthorizeUrl)
    case None => Step(request, Failure(LoginPageFailed))
    case Some(page) =>
      match ScrapeSFTTag(page)
      case Failure(e) => Step(request, Failure(ScrapeFailed(e)))
      case Success(sFTTag) =>
        match ScrapeUrlPost(page)
        case Failure(e) => Step(request, Failure(ScrapeFailed(e)))
        case Success(urlPost) => Step(request, Success((sFTTag, urlPost)))
  }

  /**
   * The page is scraped for the sFTTag first: a missing sFTTag is reported even
   * when the urlPost is missing too, and both values come from the same page.
   */
  lemma PrepareScrapesPage(svc: Services)
    ensures var s := PrepareMicrosoftLogin(svc);
      var page := svc.loginPage(AuthorizeUrl);
      && (page.None? ==> s.result == Failure(LoginPageFailed))
      && (page.Some? && ScrapeSFTTag(page.value).Failure? ==> s.result == Failure(ScrapeFailed(SFTTagNotFound)))
      && (page.Some? && ScrapeSFTTag(page.value).Success? && ScrapeUrlPost(page.value).Failure? ==>
            s.result == Failure(ScrapeFailed(URLPostNotFound)))
      && (page.Some? && ScrapeSFTTag(page.value).Success? && ScrapeUrlPost(page.value).Success? ==>
            s.result == Success((ScrapeSFTTag(page.value).value, ScrapeUrlPost(page.value).value)))
  {
  }

  /** `loginData = _getParamsFromUrl(url); loginData['access_token']`. */
  function AccessTokenOf(url: string): (r: Result<string, AuthError>)
    ensures r.Success? <==> ParamsFromUrl(url).Success? && "access_token" in ParamsFromUrl(url).value
    ensures r.Success? ==> r.value == ParamsFromUrl(url).value["access_token"]
    ensures ParamsFromUrl(url).Failure? ==> r == Failure(RedirectMalformed(ParamsFromUrl(url).error))
    ensures ParamsFromUrl(url).Success? && "access_token" !in ParamsFromUrl(url).value ==> r == Failure(AccessTokenMissing)
  {
    match ParamsFromUrl(url)
    case Failure(e) => Failure(RedirectMalformed(e))
    case Success(params) =>
      if "access_token" in params then Success(params["access_token"]) else Failure(AccessTokenMissing)
  }

  /**
   * A redirect `prefix#k1=v1&...` whose fragment assigns `access_token` yields
   * the value of its last such pair.
   */
  lemma AccessTokenFromRedirect(prefix: string, kvs: seq<(string, string)>, i: nat)
    requires '#' !in prefix && |kvs| >= 1
    requires forall j :: 0 <= j < |kvs| ==> Plain(kvs[j].0) && Plain(kvs[j].1)
    requires i < |kvs| && kvs[i].0 == "access_token" && LastFor(kvs, i)
    ensures AccessTokenOf(prefix + "#" + EncodeFragment(kvs)) == Success(kvs[i].1)
  {
    ParseEncoded(prefix, kvs);
    AssignLastWins(kvs);
  }

  /** A well-formed redirect without an `access_token` pair fails with `AccessTokenMissing`. */
  lemma AccessTokenAbsent(prefix: string, kvs: seq<(string, string)>)
    requires '#' !in prefix && |kvs| >= 1
    requires forall j :: 0 <= j < |kvs| ==> Plain(kvs[j].0) && Plain(kvs[j].1)
    requires forall j :: 0 <= j < |kvs| ==> kvs[j].0 != "access_token"
    ensures AccessTokenOf(prefix + "#" + EncodeFragment(kvs)) == Failure(AccessTokenMissing)
  {
    ParseEncoded(prefix, kvs);
    AssignLastWins(kvs);
  }

  /** `_authenticateWithMicrosoft`: post the login form to urlPost and read the redirect's fragment. */
  function AuthenticateWithMicrosoft(svc: Services, urlPost: string, sFTTag: string, creds: Credentials): (s: Step<string>)
    ensures s.request == PostLoginForm(urlPost, LoginForm(creds.email, creds.password, sFTTag))
    ensures svc.submitLogin(urlPost, s.request.form).None? ==> s.result == Failure(LoginPostFailed)
    ensures svc.submitLogin(urlPost, s.request.form).Some? ==>
      s.result == AccessTokenOf(svc.submitLogin(urlPost, s.request.form).value)
    ensures s.result.Failure? ==> s.result.error.Stage() == Microsoft
  {
    var form := LoginForm(creds.email, creds.password, sFTTag);
    var request := PostLoginForm(urlPost, form);
    match svc.submitLogin(urlPost, form)
    case None => Step(request, Failure(LoginPostFailed))
    case Some(url) => Step(request, AccessTokenOf(url))
  }

  /** `_authenticateWithXboxLive`: trade the Microsoft token for an Xbox Live token and user hash. */
  function AuthenticateWithXboxLive(svc: Services, msAccessToken: string): (s: Step<(string, string)>)
    ensures s.request == PostXboxLive(XboxLiveUrl, XboxLiveRequest(msAccessToken))
    ensures s.result.Success? <==> svc.xboxLive(XboxLiveRequest(msAccessToken)).Some?
    ensures s.result.Success? ==> s.result.value == svc.xboxLive(XboxLiveRequest(msAccessToken)).value
    ensures s.result.Failure? ==> s.result.error == XboxLiveFailed
  {
    var body := XboxLiveRequest(msAccessToken);
    match svc.xboxLive(body)
    case None => Step(PostXboxLive(XboxLiveUrl, body), Failure(XboxLiveFailed))
    case Some(reply) => Step(PostXboxLive(XboxLiveUrl, body), Success(reply))
  }

  /** `_getXstsToken`: trade the Xbox Live token for an XSTS token. */
  function GetXstsToken(svc: Services, xboxLiveToken: string): (s: Step<string>)
    ensures s.request == PostXsts(XstsUrl, XstsRequest(xboxLiveToken))
    ensures s.result.Success? <==> svc.xsts(XstsRequest(xboxLiveToken)).Some?
    ensures s.result.Success? ==> s.result.value == svc.xsts(XstsRequest(xboxLiveToken)).value
    ensures s.result.Failure? ==> s.result.error == XstsFailed
  {
    var body := XstsRequest(xboxLiveToken);
    match svc.xsts(body)
    case None => Step(PostXsts(XstsUrl, body), Failure(XstsFailed))
    case Some(token) => Step(PostXsts(XstsUrl, body), Success(token))
  }

  /** `_authenticateWithMinecraft`: log in to Minecraft with the identity token. */
  function AuthenticateWithMinecraft(svc: Services, xstsToken: string, userHash: string): (s: Step<string>)
    ensures s.request == PostMinecraft(MinecraftLoginUrl, MinecraftRequest(xstsToken, userHash))
    ensures s.result.Success? <==> svc.minecraft(MinecraftRequest(xstsToken, userHash)).Some?
    ensures s.result.Success? ==> s.result.value == svc.minecraft(MinecraftRequest(xstsToken, userHash)).value
    ensures s.result.Failure? ==> s.result.error == MinecraftFailed
  {
    var body := MinecraftRequest(xstsToken, userHash);
    match svc.minecraft(body)
    case None => Step(PostMinecraft(MinecraftLoginUrl, body), Failure(MinecraftFailed))
    case Some(token) => Step(PostMinecraft(MinecraftLoginUrl, body), Success(token))
  }

  /** A handshake attempt: the Minecraft access token or the error, and every request sent. */
  datatype Attempt = Attempt(result: Result<string, AuthError>, sent: seq<Request>)

  /**
   * An attempt that starts at stage `k`: it sends one request per stage it
   * reaches, in stage order, stops at the first failing stage, whose error it
   * returns, and reaches the last stage when it succeeds.
   */
  predicate RunsStagesFrom(a: Attempt, k: nat) {
    && k < |StageOrder|
    && 1 <= |a.sent| <= |StageOrder| - k
    && (forall i :: 0 <= i < |a.sent| ==> a.sent[i].Stage() == StageOrder[k + i])
    && (a.result.Success? ==> |a.sent| == |StageOrder| - k)
    && (a.result.Failure? ==> a.result.error.Stage() == StageOrder[k + |a.sent| - 1])
  }

  /** Stage `k`'s request, then what the later stages did. */
  function Then(request: Request, rest: Attempt): (a: Attempt)
    ensures a.result == rest.result && a.sent == [request] + rest.sent
  {
    Attempt(rest.result, [request] + rest.sent)
  }

  lemma ThenRunsStages(request: Request, rest: Attempt, k: nat)
    requires k + 1 < |StageOrder| && request.Stage() == StageOrder[k] && RunsStagesFrom(rest, k + 1)
    ensures RunsStagesFrom(Then(request, rest), k)
  {
    var a := Then(request, rest);
    forall i | 0 <= i < |a.sent|
      ensures a.sent[i].Stage() == StageOrder[k + i]
    {
      if i > 0 {
        assert a.sent[i] == rest.sent[i - 1];
      }
    }
  }

  /** A single request that ends the attempt at stage `k`. */
  lemma LastRequestRunsStage(request: Request, result: Result<string, AuthError>, k: nat)
    requires k < |StageOrder| && request.Stage() == StageOrder[k]
    requires result.Success? ==> k == |StageOrder| - 1
    requires result.Failure? ==> result.error.Stage() == StageOrder[k]
    ensures RunsStagesFrom(Attempt(result, [request]), k)
  {
  }

  /** The Minecraft login, the last stage. */
  function FromMinecraft(svc: Services, xstsToken: string, userHash: string): (a: Attempt)
    ensures RunsStagesFrom(a, 4)
  {
    var minecraft := AuthenticateWithMinecraft(svc, xstsToken, userHash);
    LastRequestRunsStage(minecraft.request, minecraft.result, 4);
    Attempt(minecraft.result, [minecraft.request])
  }

  /** The XSTS token, then the Minecraft login. */
  function FromXsts(svc: Services, xboxLiveToken: string, userHash: string): (a: Attempt)
    ensures RunsStagesFrom(a, 3)
  {
    var xsts := GetXstsToken(svc, xboxLiveToken);
    match xsts.result
    case Failure(e) =>
      LastRequestRunsStage(xsts.request, Failure(e), 3);
      Attempt(Failure(e), [xsts.request])
    case Success(xstsToken) =>
      ThenRunsStages(xsts.request, FromMinecraft(svc, xstsToken, userHash), 3);
      Then(xsts.request, FromMinecraft(svc, xstsToken, userHash))
  }

  /** Xbox Live user authentication, then the XSTS token and the Minecraft login. */
  function FromXboxLive(svc: Services, msAccessToken: string): (a: Attempt)
    ensures RunsStagesFrom(a, 2)
  {
    var xboxLive := AuthenticateWithXboxLive(svc, msAccessToken);
    match xboxLive.result
    case Failure(e) =>
      LastRequestRunsStage(xboxLive.request, Failure(e), 2);
      Attempt(Failure(e), [xboxLive.request])
    case Success((xboxLiveToken, userHash)) =>
      ThenRunsStages(xboxLive.request, FromXsts(svc, xboxLiveToken, userHash), 2);
      Then(xboxLive.request, FromXsts(svc, xboxLiveToken, userHash))
  }

  /** The Microsoft login, then the three token exchanges. */
  function FromMicrosoft(svc: Services, creds: Credentials, sFTTag: string, urlPost: string): (a: Attempt)
    ensures RunsStagesFrom(a, 1)
  {
    var microsoft := AuthenticateWithMicrosoft(svc, urlPost, sFTTag, creds);
    match microsoft.result
    case Failure(e) =>
      LastRequestRunsStage(microsoft.request, Failure(e), 1);
      Attempt(Failure(e), [microsoft.request])
    case Success(msAccessToken) =>
      ThenRunsStages(microsoft.request, FromXboxLive(svc, msAccessToken), 1);
      Then(microsoft.request, FromXboxLive(svc, msAccessToken))
  }

  /**
   * `authenticate`: the five stages in order, each fed the outputs of the one
   * before; the first stage that raises ends the attempt.
   */
  function Authenticate(svc: Services, creds: Credentials): (a: Attempt)
    ensures RunsStagesFrom(a, 0)
  {
    var prepare := PrepareMicrosoftLogin(svc);
    match prepare.result
    case Failure(e) =>
      LastRequestRunsStage(prepare.request, Failure(e), 0);
      Attempt(Failure(e), [prepare.request])
    case Success((sFTTag, urlPost)) =>
      ThenRunsStages(prepare.request, FromMicrosoft(svc, creds, sFTTag, urlPost), 0);
      Then(prepare.request, FromMicrosoft(svc, creds, sFTTag, urlPost))
  }

  /**
   * A failing XSTS stage ends the attempt with its own error and nothing more
   * is sent; a successful one goes on to the Minecraft login with its token.
   */
  lemma FromXstsStops(svc: Services, xboxLiveToken: string, userHash: string)
    ensures var x := GetXstsToken(svc, xboxLiveToken);
      x.result.Failure? ==> FromXsts(svc, xboxLiveToken, userHash) == Attempt(Failure(x.result.error), [x.request])
    ensures var x := GetXstsToken(svc, xboxLiveToken);
      x.result.Success? ==>
        FromXsts(svc, xboxLiveToken, userHash) == Then(x.request, FromMinecraft(svc, x.result.value, userHash))
  {
  }

  /**
   * A failing Xbox Live stage ends the attempt with its own error and nothing
   * more is sent; a successful one goes on with its token and user hash.
   */
  lemma FromXboxLiveStops(svc: Services, msAccessToken: string)
    ensures var x := AuthenticateWithXboxLive(svc, msAccessToken);
      x.result.Failure? ==> FromXboxLive(svc, msAccessToken) == Attempt(Failure(x.result.error), [x.request])
    ensures var x := AuthenticateWithXboxLive(svc, msAccessToken);
      x.result.Success? ==>
        FromXboxLive(svc, msAccessToken) == Then(x.request, FromXsts(svc, x.result.value.0, x.result.value.1))
  {
  }

  /**
   * A failing Microsoft login ends the attempt with its own error (the failed
   * post, the malformed redirect or the missing token) and nothing more is
   * sent; a successful one goes on with the redirect's token.
   */
  lemma FromMicrosoftStops(svc: Services, creds: Credentials, sFTTag: string, urlPost: string)
    ensures var m := AuthenticateWithMicrosoft(svc, urlPost, sFTTag, creds);
      m.result.Failure? ==> FromMicrosoft(svc, creds, sFTTag, urlPost) == Attempt(Failure(m.result.error), [m.request])
    ensures var m := AuthenticateWithMicrosoft(svc, urlPost, sFTTag, creds);
      m.result.Success? ==>
        FromMicrosoft(svc, creds, sFTTag, urlPost) == Then(m.request, FromXboxLive(svc, m.result.value))
  {
  }

  /**
   * A failing preparation ends the handshake with its own error after the one
   * GET; a successful one goes on with the scraped sFTTag and urlPost.
   */
  lemma AuthenticateStops(svc: Services, creds: Credentials)
    ensures var p := PrepareMicrosoftLogin(svc);
      p.result.Failure? ==> Authenticate(svc, creds) == Attempt(Failure(p.result.error), [p.request])
    ensures var p := PrepareMicrosoftLogin(svc);
      p.result.Success? ==>
        Authenticate(svc, creds) == Then(p.request, FromMicrosoft(svc, creds, p.result.value.0, p.result.value.1))
  {
  }

  /**
   * The short-circuit at the second stage: when the Microsoft login fails
   * after a successful preparation, the handshake sent exactly the GET and the
   * login post and returns the login's own error.
   */
  lemma AuthenticateStopsAtMicrosoft(svc: Services, creds: Credentials)
    ensures var p := PrepareMicrosoftLogin(svc);
      p.result.Success? ==>
        var m := AuthenticateWithMicrosoft(svc, p.result.value.1, p.result.value.0, creds);
        m.result.Failure? ==> Authenticate(svc, creds) == Attempt(Failure(m.result.error), [GetLoginPage(AuthorizeUrl), m.request])
  {
    AuthenticateStops(svc, creds);
    var p := PrepareMicrosoftLogin(svc);
    if p.result.Success? {
      FromMicrosoftStops(svc, creds, p.result.value.0, p.result.value.1);
    }
  }

  /** Whether two service sets give the same reply to `request`. */
  predicate SameReply(svc1: Services, svc2: Services, request: Request) {
    match request
    case GetLoginPage(url) => svc1.loginPage(url) == svc2.loginPage(url)
    case PostLoginForm(url, form) => svc1.submitLogin(url, form) == svc2.submitLogin(url, form)
    case PostXboxLive(_, body) => svc1.xboxLive(body) == svc2.xboxLive(body)
    case PostXsts(_, body) => svc1.xsts(body) == svc2.xsts(body)
    case PostMinecraft(_, body) => svc1.minecraft(body) == svc2.minecraft(body)
  }

  /**
   * The handshake depends only on the replies to the requests it sent: a stage
   * after the one that failed is never contacted, so services that differ only
   * there give the same attempt.
   */
  lemma OnlySentRequestsMatter(svc1: Services, svc2: Services, creds: Credentials)
    requires forall r :: r in Authenticate(svc1, creds).sent ==> SameReply(svc1, svc2, r)
    ensures Authenticate(svc2, creds) == Authenticate(svc1, creds)
  {
    var prepare := PrepareMicrosoftLogin(svc1);
    assert SameReply(svc1, svc2, prepare.request);
    if prepare.result.Success? {
      var (sFTTag, urlPost) := prepare.result.value;
      FromMicrosoftOnlySent(svc1, svc2, creds, sFTTag, urlPost);
    }
  }

  lemma FromMicrosoftOnlySent(svc1: Services, svc2: Services, creds: Credentials, sFTTag: string, urlPost: string)
    requires forall r :: r in FromMicrosoft(svc1, creds, sFTTag, urlPost).sent ==> SameReply(svc1, svc2, r)
    ensures FromMicrosoft(svc2, creds, sFTTag, urlPost) == FromMicrosoft(svc1, creds, sFTTag, urlPost)
  {
    var microsoft := AuthenticateWithMicrosoft(svc1, urlPost, sFTTag, creds);
    assert SameReply(svc1, svc2, microsoft.request);
    if microsoft.result.Success? {
      FromXboxLiveOnlySent(svc1, svc2, microsoft.result.value);
    }
  }

  lemma FromXboxLiveOnlySent(svc1: Services, svc2: Services, msAccessToken: string)
    requires forall r :: r in FromXboxLive(svc1, msAccessToken).sent ==> SameReply(svc1, svc2, r)
    ensures FromXboxLive(svc2, msAccessToken) == FromXboxLive(svc1, msAccessToken)
  {
    var xboxLive := AuthenticateWithXboxLive(svc1, msAccessToken);
    assert SameReply(svc1, svc2, xboxLive.request);
    if xboxLive.result.Success? {
      var (xboxLiveToken, userHash) := xboxLive.result.value;
      FromXstsOnlySent(svc1, svc2, xboxLiveToken, userHash);
    }
  }

  lemma FromXstsOnlySent(svc1: Services, svc2: Services, xboxLiveToken: string, userHash: string)
    requires forall r :: r in FromXsts(svc1, xboxLiveToken, userHash).sent ==> SameReply(svc1, svc2, r)
    ensures FromXsts(svc2, xboxLiveToken, userHash) == FromXsts(svc1, xboxLiveToken, userHash)
  {
    var xsts := GetXstsToken(svc1, xboxLiveToken);
    assert SameReply(svc1, svc2, xsts.request);
    if xsts.result.Success? {
      var minecraft := AuthenticateWithMinecraft(svc1, xsts.result.value, userHash);
      assert SameReply(svc1, svc2, minecraft.request);
    }
  }

  /** A successful run from the XSTS stage: both replies were present. */
  lemma FromXstsSucceeds(svc: Services, xboxLiveToken: string, userHash: string)
    requires FromXsts(svc, xboxLiveToken, userHash).result.Success?
    ensures svc.xsts(XstsRequest(xboxLiveToken)).Some?
    ensures var xstsToken := svc.xsts(XstsRequest(xboxLiveToken)).value;
      var a := FromXsts(svc, xboxLiveToken, userHash);
      && a.sent == [PostXsts(XstsUrl, XstsRequest(xboxLiveToken)), PostMinecraft(MinecraftLoginUrl, MinecraftRequest(xstsToken, userHash))]
      && a.result == Success(svc.minecraft(MinecraftRequest(xstsToken, userHash)).value)
  {
  }

  /** A successful run from the Xbox Live stage goes on with its reply's token and user hash. */
  lemma FromXboxLiveSucceeds(svc: Services, msAccessToken: string)
    requires FromXboxLive(svc, msAccessToken).result.Success?
    ensures svc.xboxLive(XboxLiveRequest(msAccessToken)).Some?
    ensures var (xboxLiveToken, userHash) := svc.xboxLive(XboxLiveRequest(msAccessToken)).value;
      var a := FromXboxLive(svc, msAccessToken);
      && a.sent == [PostXboxLive(XboxLiveUrl, XboxLiveRequest(msAccessToken))] + FromXsts(svc, xboxLiveToken, userHash).sent
      && a.result == FromXsts(svc, xboxLiveToken, userHash).result
  {
  }

  /** A successful run from the Microsoft login goes on with the redirect's `access_token`. */
  lemma FromMicrosoftSucceeds(svc: Services, creds: Credentials, sFTTag: string, urlPost: string)
    requires FromMicrosoft(svc, creds, sFTTag, urlPost).result.Success?
    ensures var form := LoginForm(creds.email, creds.password, sFTTag);
      && svc.submitLogin(urlPost, form).Some?
      && AccessTokenOf(svc.submitLogin(urlPost, form).value).Success?
    ensures var form := LoginForm(creds.email, creds.password, sFTTag);
      var msAccessToken := AccessTokenOf(svc.submitLogin(urlPost, form).value).value;
      var a := FromMicrosoft(svc, creds, sFTTag, urlPost);
      && a.sent == [PostLoginForm(urlPost, form)] + FromXboxLive(svc, msAccessToken).sent
      && a.result == FromXboxLive(svc, msAccessToken).result
  {
  }

  /** A successful run from the Xbox Live stage sends its three requests, each built from the previous reply. */
  lemma FromXboxLiveThreads(svc: Services, msAccessToken: string)
    requires FromXboxLive(svc, msAccessToken).result.Success?
    ensures svc.xboxLive(XboxLiveRequest(msAccessToken)).Some?
    ensures svc.xsts(XstsRequest(svc.xboxLive(XboxLiveRequest(msAccessToken)).value.0)).Some?
    ensures var (xboxLiveToken, userHash) := svc.xboxLive(XboxLiveRequest(msAccessToken)).value;
      var xstsToken := svc.xsts(XstsRequest(xboxLiveToken)).value;
      var a := FromXboxLive(svc, msAccessToken);
      && a.sent == [PostXboxLive(XboxLiveUrl, XboxLiveRequest(msAccessToken)), PostXsts(XstsUrl, XstsRequest(xboxLiveToken)),
                    PostMinecraft(MinecraftLoginUrl, MinecraftRequest(xstsToken, userHash))]
      && a.result == Success(svc.minecraft(MinecraftRequest(xstsToken, userHash)).value)
  {
    FromXboxLiveSucceeds(svc, msAccessToken);
    var (xboxLiveToken, userHash) := svc.xboxLive(XboxLiveRequest(msAccessToken)).value;
    FromXstsSucceeds(svc, xboxLiveToken, userHash);
  }

  /** A successful run from the Microsoft stage sends the login form, then the three token requests. */
  lemma FromMicrosoftThreads(svc: Services, creds: Credentials, sFTTag: string, urlPost: string)
    requires FromMicrosoft(svc, creds, sFTTag, urlPost).result.Success?
    ensures var form := LoginForm(creds.email, creds.password, sFTTag);
      && svc.submitLogin(urlPost, form).Some?
      && AccessTokenOf(svc.submitLogin(urlPost, form).value).Success?
      && FromXboxLive(svc, AccessTokenOf(svc.submitLogin(urlPost, form).value).value).result.Success?
    ensures var form := LoginForm(creds.email, creds.password, sFTTag);
      var msAccessToken := AccessTokenOf(svc.submitLogin(urlPost, form).value).value;
      var a := FromMicrosoft(svc, creds, sFTTag, urlPost);
      && a.sent == [PostLoginForm(urlPost, form)] + FromXboxLive(svc, msAccessToken).sent
      && a.result == FromXboxLive(svc, msAccessToken).result
  {
    FromMicrosoftSucceeds(svc, creds, sFTTag, urlPost);
  }

  /** A successful handshake starts from the sFTTag and urlPost scraped off the login page. */
  lemma AuthenticateSucceeds(svc: Services, creds: Credentials)
    ensures Authenticate(svc, creds).result.Success? ==>
      var page := svc.loginPage(AuthorizeUrl);
      page.Some? && ScrapeSFTTag(page.value).Success? && ScrapeUrlPost(page.value).Success?
    ensures Authenticate(svc, creds).result.Success? ==>
      var page := svc.loginPage(AuthorizeUrl).value;
      var sFTTag, urlPost := ScrapeSFTTag(page).value, ScrapeUrlPost(page).value;
      var a := Authenticate(svc, creds);
      && a.sent == [GetLoginPage(AuthorizeUrl)] + FromMicrosoft(svc, creds, sFTTag, urlPost).sent
      && a.result == FromMicrosoft(svc, creds, sFTTag, urlPost).result
  {
    PrepareScrapesPage(svc);
  }

  /**
   * A successful handshake threads each stage's output into the next request:
   * the scraped sFTTag and urlPost into the login form, the redirect's
   * `access_token` into the Xbox Live body, the Xbox Live token into the XSTS
   * body, the XSTS token and user hash into the identity token; the Minecraft
   * reply is the result.
   */
  lemma SuccessThreadsTokens(svc: Services, creds: Credentials)
    ensures Authenticate(svc, creds).result.Success? ==>
      var a := Authenticate(svc, creds);
      var page := svc.loginPage(AuthorizeUrl);
      && |a.sent| == 5 && page.Some?
      && a.sent[0] == GetLoginPage(AuthorizeUrl)
      && a.sent[1] == PostLoginForm(ScrapeUrlPost(page.value).value,
                                    LoginForm(creds.email, creds.password, ScrapeSFTTag(page.value).value))
      && a.sent[2] == PostXboxLive(XboxLiveUrl,
                                   XboxLiveRequest(AccessTokenOf(svc.submitLogin(a.sent[1].url, a.sent[1].form).value).value))
      && a.sent[3] == PostXsts(XstsUrl, XstsRequest(svc.xboxLive(a.sent[2].xboxLive).value.0))
      && a.sent[4] == PostMinecraft(MinecraftLoginUrl,
                                    MinecraftRequest(svc.xsts(a.sent[3].xsts).value, svc.xboxLive(a.sent[2].xboxLive).value.1))
      && a.result == Success(svc.minecraft(a.sent[4].minecraft).value)
  {
    if Authenticate(svc, creds).result.Success? {
      AuthenticateSucceeds(svc, creds);
      var page := svc.loginPage(AuthorizeUrl).value;
      var sFTTag, urlPost := ScrapeSFTTag(page).value, ScrapeUrlPost(page).value;
      FromMicrosoftThreads(svc, creds, sFTTag, urlPost);
      var form := LoginForm(creds.email, creds.password, sFTTag);
      var msAccessToken := AccessTokenOf(svc.submitLogin(urlPost, form).value).value;
      FromXboxLiveThreads(svc, msAccessToken);
    }
  }
}

