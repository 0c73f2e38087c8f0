# MCRealmsDiscordIntegration in Dafny

A verified model of the deterministic core of MCRealmsDiscordIntegration. That project logs a Minecraft account in through Microsoft, Xbox Live and XSTS. It then polls the Realms live-player list of one server and posts a Discord message for every player who has just come online.

The model has seven modules:

- `Strings`: the two Python `str` operations the parsers use, `s.index(c)` and `s.split(c)`, for one-character separators. It also defines `Join`, which the source never calls: the model uses it to state the round trips and to build the login form and the Cookie.
- `RedirectParams`: `MCAuthenticator._getParamsFromUrl`. It is written twice:
  - as the imperative loop that fills the dict (`GetParamsFromUrl`);
  - as a specification function (`ParamsFromUrl`) that the loop is proved against.
  Its properties are proved about the specification function: the error cases, last-wins duplicates, the round trip from an encoded fragment, and the second `#`.
- `LoginScraper`: the two scrapes of `_prepareMicrosoftLogin`, `value="(.+?)"` and `urlPost:'(.+?)'`, with `re.search` semantics. The leftmost start that admits a match wins. From there, the lazy group takes the shortest non-empty, newline-free run that is followed by the quote. The slice `[index(quote) + 1:-1]` is proved to return exactly that run.
- `Handshake`: `MCAuthenticator.authenticate` and its five stages.
  - Every HTTP exchange is a function in `Services`, from the request the stage builds to the reply fields the stage reads (`None` when the call or a field lookup raises).
  - An attempt records the token or the error, and every request it sent.
  - The request bodies are built exactly: the login form, the Xbox Live and XSTS bodies, and the identity token.
- `RealmsClient`: `MCRealmsClient`, a class with the username, access token and uid fields. It has the session cookie and `getPlayersList`, a `for` loop with an early return, proved against a "first matching activity, then name its players" function.
- `PresenceWebhook`: the `main` loop of `webhooks/webhook.py`.
  - A `Poller` class holds the remembered set `prev`.
  - `Cycle` announces the newly online players and replaces `prev`.
  - `Monitor` runs a finite sequence of polls.
- `Wrappers`: `Option` and `Result`.

## Model

| member | source | states |
|---|---|---|
| Strings.FirstIndex | mcrealms/mcrealms/_mcauth.py:137 | `s.index(c)` is a position of `c` with no `c` before it |
| Strings.Split | mcrealms/mcrealms/_mcauth.py:299-300 | `s.split(sep)` has at least one part and no part holds `sep` |
| Strings.SplitHead | mcrealms/mcrealms/_mcauth.py:299 | the first part of a split is the longest `sep`-free prefix, followed by `sep` or the end |
| Strings.JoinSplit | mcrealms/mcrealms/_mcauth.py:300 | joining the parts of a split gives the string back, so the split loses nothing but the separators |
| Strings.SplitJoin | mcrealms/mcrealms/_mcauth.py:300 | splitting a join of `sep`-free parts gives the parts back |
| Strings.SplitCount | mcrealms/mcrealms/_mcauth.py:303 | a split has one more part than the string has separators, so `a, b = p.split('=')` unpacks exactly when `p` holds one `=` |
| RedirectParams.FragmentOf | mcrealms/mcrealms/_mcauth.py:299 | `url.split('#')[1]` fails exactly when the URL has no `#` |
| RedirectParams.FragmentFollowsFirstHash | mcrealms/mcrealms/_mcauth.py:299 | the fragment is the maximal `#`-free run right after the first `#` |
| RedirectParams.DecodePiece | mcrealms/mcrealms/_mcauth.py:303 | a piece unpacks iff it holds exactly one `=`; the pair is `=`-free and `key=value` rebuilds the piece; otherwise the error names the piece |
| RedirectParams.DecodePieces | mcrealms/mcrealms/_mcauth.py:302-303 | the pieces unpack iff every one does, and then pair `i` is the unpacking of piece `i` |
| RedirectParams.Assign | mcrealms/mcrealms/_mcauth.py:301-304 | the dict the loop builds by `params[param] = val`, pair by pair; `AssignLastWins` and `AssignSnoc` state its contents |
| RedirectParams.AssignLastWins | mcrealms/mcrealms/_mcauth.py:301-304 | the dict holds exactly the keys of the pairs, and each key maps to the value of its last pair |
| RedirectParams.AssignSnoc | mcrealms/mcrealms/_mcauth.py:304 | one more pair updates the dict at its key |
| RedirectParams.ParamsFromUrl | mcrealms/mcrealms/_mcauth.py:299 | a URL without `#` fails with the index error |
| RedirectParams.FrontFailureSticks | mcrealms/mcrealms/_mcauth.py:302-303 | a failure before the last piece is the failure of the whole list |
| RedirectParams.PrefixFailureSticks | mcrealms/mcrealms/_mcauth.py:302-303 | once a prefix of the pieces fails, the whole list fails with the same error: later pieces are never read |
| RedirectParams.DecodeNextPiece | mcrealms/mcrealms/_mcauth.py:302-304 | a piece that unpacks extends the decoded pairs by its key and value |
| RedirectParams.BadNextPiece | mcrealms/mcrealms/_mcauth.py:302-303 | a piece that does not unpack, after pieces that did, is the error of the whole parse |
| RedirectParams.GetParamsFromUrl | mcrealms/mcrealms/_mcauth.py:299-305 | the loop that fills `params` returns or raises exactly what `ParamsFromUrl` says |
| RedirectParams.ParamsSucceedIff | mcrealms/mcrealms/_mcauth.py:299-305 | parsing succeeds iff there is a `#` and every `&`-piece of the fragment holds exactly one `=` |
| RedirectParams.FirstBadPieceReported | mcrealms/mcrealms/_mcauth.py:302-303 | the error names the first piece without exactly one `=` |
| RedirectParams.EmptyFragmentFails | mcrealms/mcrealms/_mcauth.py:300-303 | an empty fragment fails on the empty piece |
| RedirectParams.SecondHashIgnored | mcrealms/mcrealms/_mcauth.py:299 | text after a second `#` does not change the result |
| RedirectParams.SameFragmentSameParams | mcrealms/mcrealms/_mcauth.py:299-305 | the parse reads the URL only through its fragment |
| RedirectParams.DecodePlainPiece | mcrealms/mcrealms/_mcauth.py:303 | `k=v` with `=`-free `k` and `v` unpacks to `(k, v)` |
| RedirectParams.FragmentAfterHash | mcrealms/mcrealms/_mcauth.py:299 | the fragment of `prefix#f`, both `#`-free, is `f` |
| RedirectParams.DecodeEncoded | mcrealms/mcrealms/_mcauth.py:300-303 | the `key=value` pieces of `=`-free pairs unpack back to the pairs |
| RedirectParams.ParseEncoded | mcrealms/mcrealms/_mcauth.py:299-305 | round trip: `prefix#k1=v1&...&kn=vn` with delimiter-free keys and values parses to the dict that assigns the pairs in order |
| RedirectParams.ParseDistinct | mcrealms/mcrealms/_mcauth.py:301-305 | with distinct keys the result maps each `ki` to `vi` and holds nothing else |
| RedirectParams.NoFragmentExample | mcrealms/mcrealms/_mcauth.py:299 | `https://a/b` fails with the index error |
| LoginScraper.CloseFrom | mcrealms/mcrealms/_mcauth.py:131 | where the lazy group `(.+?)` stops: the first quote from a position on, or nothing when a newline or the end comes first; `CloseFromSpec` states it |
| LoginScraper.CloseOf | mcrealms/mcrealms/_mcauth.py:131 | the close of a match starting at one position: `open` there, a non-newline first character, then `CloseFrom`; `CloseOfSpec` states it |
| LoginScraper.SearchFrom | mcrealms/mcrealms/_mcauth.py:131 | `re.search`: the first start at or after a position where `CloseOf` finds a close; `SearchFromSpec` states it |
| LoginScraper.CloseFromSpec | mcrealms/mcrealms/_mcauth.py:131 | the lazy group ends at the first quote after the start, unless a newline comes first |
| LoginScraper.CloseOfSpec | mcrealms/mcrealms/_mcauth.py:131 | from a start, the shortest match closes there, and no match at all starts there when it returns None |
| LoginScraper.SearchFromSpec | mcrealms/mcrealms/_mcauth.py:131 | `re.search` gives the leftmost start admitting a match with its shortest close, or None when no start admits one |
| LoginScraper.GroupText | mcrealms/mcrealms/_mcauth.py:136-137 | `group[group.index(quote) + 1:-1]` is exactly the run between `open` and the closing quote |
| LoginScraper.SearchCaptures | mcrealms/mcrealms/_mcauth.py:131-137 | the match found captures a run with no quote after its first character, and no earlier start matches |
| LoginScraper.SearchNoneIff | mcrealms/mcrealms/_mcauth.py:131-132 | `re.search` returns None exactly when nothing matches |
| LoginScraper.CaptureIsGroup | mcrealms/mcrealms/_mcauth.py:131-137 | the sliced value is the group of the match `re.search` finds |
| LoginScraper.Capture | mcrealms/mcrealms/_mcauth.py:131-137 | `re.search` followed by the slice `[index(quote) + 1:-1]` of the group, or None; `CaptureSpec` states what it returns |
| LoginScraper.CaptureSpec | mcrealms/mcrealms/_mcauth.py:131-145 | a capture fails iff nothing matches, and otherwise returns the group of the leftmost, shortest match |
| LoginScraper.ScrapeSFTTag | mcrealms/mcrealms/_mcauth.py:131-137 | the sFTTag scrape fails only with SFTTagNotFoundError |
| LoginScraper.ScrapeSFTTagSpec | mcrealms/mcrealms/_mcauth.py:131-137 | the sFTTag scrape fails iff no `value="…"` occurs, and otherwise returns the group of the first one |
| LoginScraper.ScrapeUrlPost | mcrealms/mcrealms/_mcauth.py:139-145 | the urlPost scrape fails only with URLPostNotFoundError |
| LoginScraper.ScrapeUrlPostSpec | mcrealms/mcrealms/_mcauth.py:139-145 | the urlPost scrape fails iff no `urlPost:'…'` occurs, and otherwise returns the group of the first one |
| LoginScraper.CaptureOccurs | mcrealms/mcrealms/_mcauth.py:131-137 | a captured value is non-empty and newline-free, and the text holds `open + t + quote` where it was found |
| LoginScraper.CaptureUnique | mcrealms/mcrealms/_mcauth.py:131 | the start and the group of the first match are determined |
| LoginScraper.ScrapeSFTTagFinds | mcrealms/mcrealms/_mcauth.py:131-137 | whatever the first `value="…"` match captures is what the sFTTag scrape returns |
| LoginScraper.ScrapeUrlPostFinds | mcrealms/mcrealms/_mcauth.py:139-145 | whatever the first `urlPost:'…'` match captures is what the urlPost scrape returns |
| LoginScraper.SFTTagFixture | mcrealms/mcrealms/_mcauth.py:131-137 | `value="abc123"` scrapes to `abc123` |
| LoginScraper.UrlPostFixture | mcrealms/mcrealms/_mcauth.py:139-145 | `urlPost:'https://x/y'` scrapes to `https://x/y` |
| Handshake.LoginForm | mcrealms/mcrealms/_mcauth.py:174 | the f-string body `login=…&loginfmt=…&passwd=…&PPFT=…`, with the email twice and nothing escaped; the `LoginForm*` lemmas state its splits and decoding |
| Handshake.LoginFormIsEncoded | mcrealms/mcrealms/_mcauth.py:174 | the form body is the `&`-join of `login=`, `loginfmt=` (both the email), `passwd=` and `PPFT=` pieces, with no escaping |
| Handshake.LoginFormSplits | mcrealms/mcrealms/_mcauth.py:174 | split on `&`, the body gives its four pieces back when no value holds `&` |
| Handshake.LoginFormDecodes | mcrealms/mcrealms/_mcauth.py:174 | read back as a form, the body gives the four fields in order when no value holds `&` or `=` |
| Handshake.CountPieceAmpersands | mcrealms/mcrealms/_mcauth.py:174 | a piece has as many `&` as its value |
| Handshake.LoginFormPieceCount | mcrealms/mcrealms/_mcauth.py:174 | every `&` in a value adds a piece: the email's count twice, the password's and the sFTTag's once |
| Handshake.XboxLiveRequest | mcrealms/mcrealms/_mcauth.py:198-206 | `RpsTicket` is the Microsoft access token |
| Handshake.XstsRequest | mcrealms/mcrealms/_mcauth.py:236-243 | `UserTokens` is exactly `[xboxLiveToken]` |
| Handshake.MinecraftRequest | mcrealms/mcrealms/_mcauth.py:274-277 | the body carries the identity token for the user hash and XSTS token, with `ensureLegacyEnabled` set |
| Handshake.IdentityToken | mcrealms/mcrealms/_mcauth.py:275 | `XBL3.0 x=<userHash>;<xstsToken>`; `IdentityTokenRoundTrip` states that it carries both values |
| Handshake.ParseIdentityToken | mcrealms/mcrealms/_mcauth.py:275 | whatever it reads back rebuilds the token as `XBL3.0 x=<uhs>;<xsts>` |
| Handshake.IdentityTokenRoundTrip | mcrealms/mcrealms/_mcauth.py:275 | the identity token gives back its user hash and XSTS token when the hash has no `;` |
| Handshake.PrepareMicrosoftLogin | mcrealms/mcrealms/_mcauth.py:111-147 | the stage GETs the authorize URL and fails only with a preparation-stage error |
| Handshake.PrepareScrapesPage | mcrealms/mcrealms/_mcauth.py:129-147 | a failed GET, then a missing sFTTag, then a missing urlPost are reported in that order; otherwise both values come from the same page |
| Handshake.AccessTokenOf | mcrealms/mcrealms/_mcauth.py:178-179 | the token is `params['access_token']` when the redirect parses and holds the key; a parse error is passed on, and a missing key is AccessTokenMissing |
| Handshake.AccessTokenFromRedirect | mcrealms/mcrealms/_mcauth.py:178-179 | a redirect whose fragment assigns `access_token` yields the value of its last such pair |
| Handshake.AccessTokenAbsent | mcrealms/mcrealms/_mcauth.py:179 | a well-formed redirect without `access_token` fails with the KeyError |
| Handshake.AuthenticateWithMicrosoft | mcrealms/mcrealms/_mcauth.py:150-179 | the stage posts the form to urlPost and returns the redirect's `access_token`; its errors are Microsoft-stage errors |
| Handshake.AuthenticateWithXboxLive | mcrealms/mcrealms/_mcauth.py:182-212 | the stage posts the RPS body and succeeds iff the reply has `Token` and `uhs`, returning both |
| Handshake.GetXstsToken | mcrealms/mcrealms/_mcauth.py:215-248 | the stage posts the XSTS body and succeeds iff the reply has `Token`, returning it |
| Handshake.AuthenticateWithMinecraft | mcrealms/mcrealms/_mcauth.py:251-282 | the stage posts the identity token and succeeds iff the reply has `access_token`, returning it |
| Handshake.FromMinecraft | mcrealms/mcrealms/_mcauth.py:105-108 | the last stage sends one request and ends the attempt |
| Handshake.FromXsts | mcrealms/mcrealms/_mcauth.py:103-108 | from the XSTS stage, the requests sent belong to the stages in order, a failure carries the error of the last stage reached, and success means both stages ran |
| Handshake.FromXboxLive | mcrealms/mcrealms/_mcauth.py:100-108 | from the Xbox Live stage, the requests sent belong to the stages in order, a failure carries the error of the last stage reached, and success means all three stages ran |
| Handshake.FromMicrosoft | mcrealms/mcrealms/_mcauth.py:97-108 | from the Microsoft login, the requests sent belong to the stages in order, a failure carries the error of the last stage reached, and success means all four stages ran |
| Handshake.Authenticate | mcrealms/mcrealms/_mcauth.py:95-108 | the requests sent belong to the five stages in order, one each; a failure carries an error of the last stage reached, and success means all five ran |
| Handshake.FromXstsStops | mcrealms/mcrealms/_mcauth.py:104-106 | a failing XSTS stage ends the attempt with exactly its own error after its one request; a successful one goes on to the Minecraft login with its token |
| Handshake.FromXboxLiveStops | mcrealms/mcrealms/_mcauth.py:101-104 | a failing Xbox Live stage ends the attempt with exactly its own error after its one request; a successful one goes on with its token and user hash |
| Handshake.FromMicrosoftStops | mcrealms/mcrealms/_mcauth.py:97-101 | a failing Microsoft login ends the attempt with exactly its own error (failed post, malformed redirect or missing token) after its one request; a successful one goes on with the token |
| Handshake.AuthenticateStops | mcrealms/mcrealms/_mcauth.py:95-98 | a failing preparation ends the handshake with exactly its own error after the one GET; a successful one goes on with the scraped sFTTag and urlPost |
| Handshake.AuthenticateStopsAtMicrosoft | mcrealms/mcrealms/_mcauth.py:95-101 | when the Microsoft login fails after a successful preparation, the handshake sent exactly the GET and the login post and returns the login's own error |
| Handshake.OnlySentRequestsMatter | mcrealms/mcrealms/_mcauth.py:95-108 | the attempt depends only on the replies to the requests it sent: stages after a failure are never contacted |
| Handshake.FromMicrosoftOnlySent | mcrealms/mcrealms/_mcauth.py:97-108 | the same, from the Microsoft login on |
| Handshake.FromXboxLiveOnlySent | mcrealms/mcrealms/_mcauth.py:100-108 | the same, from the Xbox Live stage on |
| Handshake.FromXstsOnlySent | mcrealms/mcrealms/_mcauth.py:103-108 | the same, from the XSTS stage on |
| Handshake.FromXstsSucceeds | mcrealms/mcrealms/_mcauth.py:103-108 | a success from the XSTS stage sent the XSTS and Minecraft requests and returns the Minecraft reply |
| Handshake.FromXboxLiveSucceeds | mcrealms/mcrealms/_mcauth.py:100-103 | a success from the Xbox Live stage goes on with its reply's token and user hash |
| Handshake.FromMicrosoftSucceeds | mcrealms/mcrealms/_mcauth.py:97-101 | a success from the Microsoft login goes on with the redirect's `access_token` |
| Handshake.FromXboxLiveThreads | mcrealms/mcrealms/_mcauth.py:100-108 | a success from the Xbox Live stage sent exactly its three requests, each built from the previous reply, and returns the Minecraft reply |
| Handshake.FromMicrosoftThreads | mcrealms/mcrealms/_mcauth.py:97-101 | a success from the Microsoft login means the login post was answered with a redirect carrying an `access_token`, and the Xbox Live stage then succeeded with that token |
| Handshake.AuthenticateSucceeds | mcrealms/mcrealms/_mcauth.py:95-98 | a success starts from the sFTTag and urlPost scraped off the login page |
| Handshake.SuccessThreadsTokens | mcrealms/mcrealms/_mcauth.py:95-108 | a success sends exactly five requests, each built from the previous stage's output, and returns the Minecraft `access_token` |
| RealmsClient.SessionCookie | mcrealms/mcrealms/mcrclient.py:59 | the Cookie header `sid=token:<token>:<uid>;user=<username>;version=1.18.2`; `CookieSplits` and `CookieRoundTrip` state what it carries |
| RealmsClient.CookieSplits | mcrealms/mcrealms/mcrclient.py:59 | the Cookie splits on `;` into `sid=token:<token>:<uid>`, `user=<username>` and `version=1.18.2` |
| RealmsClient.CookieRoundTrip | mcrealms/mcrealms/mcrclient.py:59 | the Cookie gives back the access token, uid and username when none holds `;` and the token and uid hold no `:` |
| RealmsClient.FirstActivity | mcrealms/mcrealms/mcrclient.py:64-67 | the position of the first activity for the server, or None iff no activity has that `serverId` |
| RealmsClient.NamesOf | mcrealms/mcrealms/mcrclient.py:71 | the comprehension keeps length and order, and element `k` is the name of player `k` |
| RealmsClient.PlayerNames | mcrealms/mcrealms/mcrclient.py:64-73 | what `getPlayersList` returns for a parsed payload: the names of the first matching activity's players, or `[]`; the `FirstActivity*` lemmas state it |
| RealmsClient.NoActivityNoPlayers | mcrealms/mcrealms/mcrclient.py:64-73 | no activity for the server gives `[]`, not a failure |
| RealmsClient.FirstActivityDecides | mcrealms/mcrealms/mcrclient.py:64-71 | the first matching activity decides the length, order and names of the result |
| RealmsClient.FirstActivityIs | mcrealms/mcrealms/mcrclient.py:64-71 | a matching position with no match before it is the one used |
| RealmsClient.LaterActivitiesIgnored | mcrealms/mcrealms/mcrclient.py:64-71 | activities after a matching one never change the result |
| RealmsClient.OtherServerIrrelevant | mcrealms/mcrealms/mcrclient.py:65-67 | inserting an activity for another server anywhere changes nothing |
| RealmsClient.Client.constructor | mcrealms/mcrealms/mcrclient.py:35-39 | the fields hold exactly the values given |
| RealmsClient.Client.Connect | mcrealms/mcrealms/mcrclient.py:22-39 | a failed handshake makes no client; otherwise a new client holds the username, the handshake's token and `getUid(username)` |
| RealmsClient.Client.Cookie | mcrealms/mcrealms/mcrclient.py:59 | the Cookie built from this client's access token, uid and username |
| RealmsClient.Client.GetPlayersList | mcrealms/mcrealms/mcrclient.py:55-73 | the loop returns the names for the first activity of the server in the payload fetched from the live-player-list URL with this client's Cookie, or `[]`; it changes no field |
| PresenceWebhook.NotificationText | webhooks/webhook.py:31 | the message `@everyone <name> is now playing on the server!`; `AnnouncementRoundTrip` states that it names its player |
| PresenceWebhook.AnnouncedName | webhooks/webhook.py:31 | a recognised announcement is the message for the name read from it |
| PresenceWebhook.AnnouncementRoundTrip | webhooks/webhook.py:31 | every announcement gives back its player's name, so different players get different messages |
| PresenceWebhook.Elems | webhooks/webhook.py:19-23 | `set(names)`: the names of a poll without order or repetition |
| PresenceWebhook.NewlyOnline | webhooks/webhook.py:23-24 | a name is newly online iff it is in the current poll and not in the previous set |
| PresenceWebhook.NoNewPlayersNoAnnouncement | webhooks/webhook.py:24-28 | when the current players are all remembered, nobody is announced |
| PresenceWebhook.ReturningPlayerAnnouncedAgain | webhooks/webhook.py:26 | in a run, the set remembered before poll `i` is poll `i - 1` only, so a player online at poll `i - 2`, gone at `i - 1` and back at `i` is newly online again |
| PresenceWebhook.DispatchStep | webhooks/webhook.py:28-34 | sending one more message keeps the dispatch bookkeeping |
| PresenceWebhook.Dispatch | webhooks/webhook.py:28-34 | every newly online name is sent exactly once, with the message `@everyone <name> is now playing on the server!` |
| PresenceWebhook.Poller.Seed | webhooks/webhook.py:19 | the first poll only seeds the remembered set |
| PresenceWebhook.Poller.Cycle | webhooks/webhook.py:22-34 | one cycle announces exactly the newly online players, each once, and replaces the remembered set by the current poll |
| PresenceWebhook.Monitor | webhooks/webhook.py:16-36 | over a run, poll `i` announces exactly the players it has that poll `i - 1` (or the seed) had not, each once; in particular, a player missing at poll `i - 1` and present at poll `i` is announced at poll `i` |

## Left out

- HTTP: sessions, headers, redirects and status codes are not modelled. Each exchange is a function from the request to the reply fields read, and `None` stands for any exception the call or a field lookup raises.
- JSON: `res.json()` and the doubly encoded `playerList` are not modelled. Replies and the live-player-list payload are already-parsed values.
- `getUsername` and `getUid` (mcrealms/mcrealms/_mcauth.py:34-75) are Mojang lookups. They are total functions given by the caller, and the uid is kept as the text that goes into the Cookie.
- The `_session` field is not modelled: it only carries the HTTP connection.
- An exception inside `getPlayersList` is not modelled. In the source it ends `main`, so no failure path in the loop exists to model.
- `print`, `time.sleep(60)`, the environment loading of `webhooks/webhook.py` and the Discord POST are left out. The POST is represented by the message text it would carry.
- `while True` is modelled as a finite run (`Monitor`) of any length.
- General regular expressions are not modelled: only the two fixed patterns of the login page are.
- The order in which Python walks a set is not modelled: `Dispatch` may send the messages in any order, and its contract holds for every order.
- Facts about the code that the model keeps:
  - preparation raises two distinct errors, SFTTagNotFoundError and URLPostNotFoundError (`SFTTagNotFound` and `URLPostNotFound` here);
  - a malformed redirect raises IndexError (no `#`) or ValueError (a piece without exactly one `=`), which are `NoFragment` and `BadPiece` here;
  - the presence loop has no recovery from a failed poll;
  - `getPlayersList` returns a list, which the loop turns into a set.
- Concrete fixtures with long literal URLs are not stated. The redirect round trip and the handshake short-circuit are proved for all inputs instead.
