/**
 * `MCRealmsClient`: a Realms API client that authenticates once, keeps the
 * username, Minecraft access token and uid it was built with, and lists the
 * players on one server. The live-player-list payload is taken as already
 * parsed records; the Mojang lookups `getUid`/`getUsername` and the GET of the
 * Realms endpoint (from its URL and the Cookie) are functions given by the caller.
 */
module RealmsClient {
  import opened Wrappers
  import opened Strings
  import opened Handshake

  const RealmsDomain := "https://pc.realms.minecraft.net"
  const LivePlayerListUrl := RealmsDomain + "/activities/liveplayerlist"

  /** One element of a server's `playerList`. */
  datatype PlayerEntry = PlayerEntry(playerId: string)

  /** One element of the payload's `lists`. */
  datatype ServerActivity = ServerActivity(serverId: int, playerList: seq<PlayerEntry>)

  /** The three `;`-separated parts of the session cookie. */
  function CookieParts(accessToken: string, uid: string, username: string): seq<string> {
    [Join(["sid=token", accessToken, uid], ':'), "user=" + username, "version=1.18.2"]
  }

  /** The `Cookie` header: `sid=token:<accessToken>:<uid>;user=<username>;version=1.18.2`. */
  function SessionCookie(accessToken: string, uid: string, username: string): string {
    Join(CookieParts(accessToken, uid, username), ';')
  }

  /** Reads the access token, uid and username back out of a session cookie. */
  function ParseCookie(cookie: string): Option<(string, string, string)> {
    var parts := Split(cookie, ';');
    if |parts| != 3 || parts[2] != "version=1.18.2" || |parts[1]| < 5 || parts[1][..5] != "user=" then None
    else
      var sid := Split(parts[0], ':');
      if |sid| != 3 || sid[0] != "sid=token" then None
      else Some((sid[1], sid[2], parts[1][5..]))
  }

  /** The fixed parts of the cookie hold none of its separators. */
  lemma CookieLiteralsPlain()
    ensures ';' !in "sid=token" && ':' !in "sid=token"
    ensures ';' !in "user=" && ';' !in "version=1.18.2"
  {
  }

  /** Split on `;`, the cookie gives back its three parts when no value holds `;`. */
  lemma CookieSplits(accessToken: string, uid: string, username: string)
    requires ';' !in accessToken && ';' !in uid && ';' !in username
    ensures Split(SessionCookie(accessToken, uid, username), ';') == CookieParts(accessToken, uid, username)
  {
    CookieLiteralsPlain();
    var parts := CookieParts(accessToken, uid, username);
    JoinAvoids(["sid=token", accessToken, uid], ':', ';');
    assert ';' !in "user=" + username;
    assert forall i :: 0 <= i < |parts| ==> ';' !in parts[i];
    SplitJoin(parts, ';');
  }

  /**
   * The cookie carries its three values: parsing it gives them back whenever
   * none holds `;` and the token and uid hold no `:`.
   */
  lemma CookieRoundTrip(accessToken: string, uid: string, username: string)
    requires ';' !in accessToken && ';' !in uid && ';' !in username
    requires ':' !in accessToken && ':' !in uid
    ensures ParseCookie(SessionCookie(accessToken, uid, username)) == Some((accessToken, uid, username))
  {
    CookieLiteralsPlain();
    CookieSplits(accessToken, uid, username);
    SplitJoin(["sid=token", accessToken, uid], ':');
    assert ("user=" + username)[..5] == "user=";
    assert ("user=" + username)[5..] == username;
  }

  /** The position of the first activity for `target`, if any. */
  function FirstActivity(activities: seq<ServerActivity>, target: int): (r: Option<nat>)
    ensures r.None? <==> forall i :: 0 <= i < |activities| ==> activities[i].serverId != target
    ensures r.Some? ==>
      && r.value < |activities| && activities[r.value].serverId == target
      && forall j :: 0 <= j < r.value ==> activities[j].serverId != target
  {
    if activities == [] then None
    else if activities[0].serverId == target then Some(0)
    else
      match FirstActivity(activities[1..], target)
      case None => None
      case Some(i) => Some(i + 1)
  }

  /** `[getPlayerName(player['playerId']) for player in playerList]`. */
  function NamesOf(players: seq<PlayerEntry>, nameOf: string -> string): (names: seq<string>)
    ensures |names| == |players|
    ensures forall k :: 0 <= k < |players| ==> names[k] == nameOf(players[k].playerId)
  {
    seq(|players|, k requires 0 <= k < |players| => nameOf(players[k].playerId))
  }

  /** What `getPlayersList(target)` returns for an already-parsed payload. */
  function PlayerNames(activities: seq<ServerActivity>, target: int, nameOf: string -> string): seq<string> {
    match FirstActivity(activities, target)
    case None => []
    case Some(i) => NamesOf(activities[i].playerList, nameOf)
  }

  /** No activity for the target server gives the empty list, not a failure. */
  lemma NoActivityNoPlayers(activities: seq<ServerActivity>, target: int, nameOf: string -> string)
    requires forall i :: 0 <= i < |activities| ==> activities[i].serverId != target
    ensures PlayerNames(activities, target, nameOf) == []
  {
  }

  /**
   * The first activity for the target decides: the result has its players'
   * count and order, and element k is the name of its k-th player.
   */
  lemma FirstActivityDecides(activities: seq<ServerActivity>, target: int, nameOf: string -> string, i: nat)
    requires i < |activities| && activities[i].serverId == target
    requires forall j :: 0 <= j < i ==> activities[j].serverId != target
    ensures var names := PlayerNames(activities, target, nameOf);
      && |names| == |activities[i].playerList|
      && forall k :: 0 <= k < |names| ==> names[k] == nameOf(activities[i].playerList[k].playerId)
  {
    FirstActivityIs(activities, target, i);
  }

  /** Entries after a matching one are never read. */
  lemma LaterActivitiesIgnored(activities: seq<ServerActivity>, later: seq<ServerActivity>, target: int, nameOf: string -> string)
    requires exists i :: 0 <= i < |activities| && activities[i].serverId == target
    ensures PlayerNames(activities + later, target, nameOf) == PlayerNames(activities, target, nameOf)
  {
    var i := FirstActivity(activities, target).value;
    var all := activities + later;
    assert all[i] == activities[i];
    forall j | 0 <= j < i ensures all[j].serverId != target {
      assert all[j] == activities[j];
    }
    FirstActivityIs(all, target, i);
  }

  /** Any matching position with no match before it is the one `FirstActivity` finds. */
  lemma FirstActivityIs(activities: seq<ServerActivity>, target: int, i: nat)
    requires i < |activities| && activities[i].serverId == target
    requires forall j :: 0 <= j < i ==> activities[j].serverId != target
    ensures FirstActivity(activities, target) == Some(i)
  {
  }

  /** An activity for another server, wherever it sits, changes nothing. */
  lemma OtherServerIrrelevant(activities: seq<ServerActivity>, k: nat, other: ServerActivity, target: int, nameOf: string -> string)
    requires k <= |activities| && other.serverId != target
    ensures PlayerNames(activities[..k] + [other] + activities[k..], target, nameOf) == PlayerNames(activities, target, nameOf)
  {
    var all := activities[..k] + [other] + activities[k..];
    assert forall j :: 0 <= j < k ==> all[j] == activities[j];
    assert forall j :: k < j < |all| ==> all[j] == activities[j - 1];
    match FirstActivity(activities, target)
    case None =>
      forall j | 0 <= j < |all| ensures all[j].serverId != target {
        if j > k {
          assert all[j] == activities[j - 1];
        }
      }
    case Some(i) =>
      var p := if i < k then i else i + 1;
      forall j | 0 <= j < p ensures all[j].serverId != target {
        if j > k {
          assert all[j] == activities[j - 1];
        }
      }
      assert all[p] == activities[i];
      FirstActivityIs(all, target, p);
  }

  /** An authenticated Realms client. */
  class Client {
    var username: string
    var accessToken: string
    var uid: string

    /** The fields as `__init__` stores them. */
    constructor (username: string, accessToken: string, uid: string)
      ensures this.username == username && this.accessToken == accessToken && this.uid == uid
    {
      this.username := username;
      this.accessToken := accessToken;
      this.uid := uid;
    }

    /**
     * `MCRealmsClient(username, email, password)`: run the handshake with the
     * credentials, then look the uid up by username. A failing handshake
     * raises, so no client is made.
     */
    static method Connect(username: string, email: string, password: string,
                          svc: Services, uidOf: string -> string) returns (r: Result<Client, AuthError>)
      ensures Authenticate(svc, Credentials(email, password)).result.Failure? ==>
        r == Failure(Authenticate(svc, Credentials(email, password)).result.error)
      ensures Authenticate(svc, Credentials(email, password)).result.Success? ==>
        && r.Success? && fresh(r.value)
        && r.value.username == username
        && r.value.accessToken == Authenticate(svc, Credentials(email, password)).result.value
        && r.value.uid == uidOf(username)
    {
      var attempt := Authenticate(svc, Credentials(email, password));
      if attempt.result.Failure? {
        return Failure(attempt.result.error);
      }
      var client := new Client(username, attempt.result.value, uidOf(username));
      return Success(client);
    }

    /** The `Cookie` header this client sends. */
    function Cookie(): string
      reads this
    {
      SessionCookie(accessToken, uid, username)
    }

    /**
     * `getPlayersList(targetServerId)`: fetch the live player lists with this
     * client's cookie, take the first activity for the server, and name its
     * players in order; no activity for the server gives `[]`.
     */
    method GetPlayersList(targetServerId: int, livePlayerList: (string, string) -> seq<ServerActivity>, nameOf: string -> string)
      returns (names: seq<string>)
      ensures names == PlayerNames(livePlayerList(LivePlayerListUrl, Cookie()), targetServerId, nameOf)
    {
      var activities := livePlayerList(LivePlayerListUrl, Cookie());
      for i := 0 to |activities|
        invariant forall j :: 0 <= j < i ==> activities[j].serverId != targetServerId
      {
        if activities[i].serverId != targetServerId {
          continue;
        }
        FirstActivityIs(activities, targetServerId, i);
        var playerList := activities[i].playerList;
        return seq(|playerList|, k requires 0 <= k < |playerList| => nameOf(playerList[k].playerId));
      }
      return [];
    }
  }
}
