/**
 * The presence loop of the Discord webhook: the player list of the server is
 * polled, and every player who is online now but was not at the previous poll
 * is announced once. The remembered set is replaced by the current one after
 * each poll. Polling, sleeping and the POST to Discord are outside the model;
 * each poll's player list is an input and each announcement's text an output.
 */
module PresenceWebhook {
  import opened Wrappers

  const MentionPrefix := "@everyone "
  const PlayingSuffix := " is now playing on the server!"

  /** The `content` of the message announcing `name`. */
  function NotificationText(name: string): string {
    MentionPrefix + name + PlayingSuffix
  }

  /** The player named by an announcement, if `text` is one. */
  function AnnouncedName(text: string): (r: Option<string>)
    ensures r.Some? ==> NotificationText(r.value) == text
  {
    var n, m := |MentionPrefix|, |PlayingSuffix|;
    if |text| < n + m || text[..n] != MentionPrefix || text[|text| - m..] != PlayingSuffix then None
    else
      assert text == text[..n] + text[n..|text| - m] + text[|text| - m..];
      Some(text[n..|text| - m])
  }

  /** Every announcement names its player, so different players get different messages. */
  lemma AnnouncementRoundTrip(name: string)
    ensures AnnouncedName(NotificationText(name)) == Some(name)
  {
    var text := NotificationText(name);
    var n, m := |MentionPrefix|, |PlayingSuffix|;
    assert text[..n] == MentionPrefix;
    assert text[|text| - m..] == PlayingSuffix;
    assert text[n..|text| - m] == name;
  }

  /** `set(names)`. */
  function Elems(names: seq<string>): set<string> {
    set name | name in names
  }

  /** Appending a name adds it to the set. */
  lemma ElemsSnoc(names: seq<string>, name: string)
    ensures Elems(names + [name]) == Elems(names) + {name}
  {
    assert forall x :: x in names + [name] <==> x in names || x == name;
  }

  /** No name occurs twice. */
  predicate Distinct(names: seq<string>) {
    forall i, j :: 0 <= i < j < |names| ==> names[i] != names[j]
  }

  /** `currPlayers.difference(prevPlayers)`: online now and not at the previous poll. */
  function NewlyOnline(prev: set<string>, curr: seq<string>): (newly: set<string>)
    ensures forall name :: name in newly <==> name in curr && name !in prev
  {
    Elems(curr) - prev
  }

  /** Nobody is announced when everyone online was already online. */
  lemma NoNewPlayersNoAnnouncement(prev: set<string>, curr: seq<string>)
    requires Elems(curr) <= prev
    ensures NewlyOnline(prev, curr) == {}
  {
  }

  /** One message per notified name, in the same order. */
  predicate PostsFor(notified: seq<string>, posts: seq<string>) {
    |posts| == |notified| && forall i :: 0 <= i < |posts| ==> posts[i] == NotificationText(notified[i])
  }

  /** What one cycle sends: every newly online player once, and nobody else. */
  predicate Announces(prev: set<string>, curr: seq<string>, notified: seq<string>, posts: seq<string>) {
    Elems(notified) == NewlyOnline(prev, curr) && Distinct(notified) && PostsFor(notified, posts)
  }

  /** A cycle that announces sends every name that is online now and was not remembered. */
  lemma AnnouncesNewName(prev: set<string>, curr: seq<string>, notified: seq<string>, posts: seq<string>, name: string)
    requires Announces(prev, curr, notified, posts) && name in curr && name !in prev
    ensures name in notified
  {
    assert name in Elems(notified);
  }

  /** Sending one more message keeps the walk's bookkeeping. */
  lemma DispatchStep(newly: set<string>, rest: set<string>, notified: seq<string>, posts: seq<string>, name: string)
    requires rest + Elems(notified) == newly && (forall x :: x in rest ==> x !in notified)
    requires Distinct(notified) && PostsFor(notified, posts) && name in rest
    ensures var rest', notified' := rest - {name}, notified + [name];
      && rest' + Elems(notified') == newly && (forall x :: x in rest' ==> x !in notified')
      && Distinct(notified') && PostsFor(notified', posts + [NotificationText(name)])
  {
    ElemsSnoc(notified, name);
  }

  /**
   * `for playerName in newlyOnlinePlayers: post(...)`: one message per name,
   * in whatever order the set is walked.
   */
  method Dispatch(newly: set<string>) returns (notified: seq<string>, posts: seq<string>)
    ensures Elems(notified) == newly && Distinct(notified)
    ensures |posts| == |notified|
    ensures forall i :: 0 <= i < |posts| ==> posts[i] == NotificationText(notified[i])
  {
    var rest := newly;
    notified, posts := [], [];
    while rest != {}
      invariant rest + Elems(notified) == newly
      invariant forall x :: x in rest ==> x !in notified
      invariant Distinct(notified) && PostsFor(notified, posts)
      decreases |rest|
    {
      var name :| name in rest;
      DispatchStep(newly, rest, notified, posts, name);
      notified, posts := notified + [name], posts + [NotificationText(name)];
      rest := rest - {name};
    }
  }

  /** The loop's one piece of state: the players online at the previous poll. */
  class Poller {
    var prev: set<string>

    /** `prevPlayers = set(getPlayersList(...))`: the first poll only seeds the state. */
    constructor Seed(initial: seq<string>)
      ensures prev == Elems(initial)
    {
      prev := Elems(initial);
    }

    /**
     * One turn of `while True`: announce the newly online players, and
     * remember the current ones in place of the previous ones.
     */
    method Cycle(curr: seq<string>) returns (notified: seq<string>, posts: seq<string>)
      modifies this
      ensures prev == Elems(curr)
      ensures Announces(old(prev), curr, notified, posts)
    {
      var newly := NewlyOnline(prev, curr);
      prev := Elems(curr);
      notified, posts := Dispatch(newly);
    }
  }

  /** The players remembered before poll `i` of a run seeded by `seed`. */
  function Before(seed: seq<string>, polls: seq<seq<string>>, i: nat): set<string>
    requires i < |polls|
  {
    if i == 0 then Elems(seed) else Elems(polls[i - 1])
  }

  /**
   * A finite run of the loop: seed with one poll, then one cycle per poll.
   * Poll `i` announces exactly the players it has that poll `i - 1` (or the
   * seed) had not, each once.
   */
  method Monitor(seed: seq<string>, polls: seq<seq<string>>) returns (announced: seq<seq<string>>, posts: seq<seq<string>>)
    ensures |announced| == |polls| && |posts| == |polls|
    ensures forall i :: 0 <= i < |polls| ==> Announces(Before(seed, polls, i), polls[i], announced[i], posts[i])
    ensures forall i, name :: 1 <= i < |polls| && name !in polls[i - 1] && name in polls[i] ==> name in announced[i]
  {
    var poller := new Poller.Seed(seed);
    announced, posts := [], [];
    for i := 0 to |polls|
      invariant |announced| == i && |posts| == i
      invariant poller.prev == (if i == 0 then Elems(seed) else Elems(polls[i - 1]))
      invariant forall j :: 0 <= j < i ==> Announces(Before(seed, polls, j), polls[j], announced[j], posts[j])
    {
      assert poller.prev == Before(seed, polls, i);
      var notified, sent := poller.Cycle(polls[i]);
      ghost var announced0, posts0 := announced, posts;
      announced, posts := announced + [notified], posts + [sent];
      forall j | 0 <= j <= i
        ensures Announces(Before(seed, polls, j), polls[j], announced[j], posts[j])
      {
        if j < i {
          assert announced[j] == announced0[j] && posts[j] == posts0[j];
        }
      }
    }
    forall i, name | 1 <= i < |polls| && name !in polls[i - 1] && name in polls[i]
      ensures name in announced[i]
    {
      AnnouncesNewName(Elems(polls[i - 1]), polls[i], announced[i], posts[i], name);
    }
  }

  /**
   * The remembered set is the last poll only: a player online two polls ago,
   * missing at the last one and back now is newly online again.
   */
  lemma ReturningPlayerAnnouncedAgain(seed: seq<string>, polls: seq<seq<string>>, i: nat, name: string)
    requires 2 <= i < |polls| && name in polls[i - 2] && name !in polls[i - 1] && name in polls[i]
    ensures name !in Before(seed, polls, i) && name in NewlyOnline(Before(seed, polls, i), polls[i])
  {
  }
}
