/**
 * The two scrapes of `MCAuthenticator._prepareMicrosoftLogin` on the HTML of
 * the Microsoft login page: `re.search(r'value="(.+?)"', text)` for the sFTTag
 * and `re.search(r"urlPost:'(.+?)'", text)` for the URL to post the login to.
 * Only patterns of the shape `open(.+?)quote` are modelled, where `open` ends
 * with `quote`: the leftmost position that admits a match wins, and from there
 * the lazy group takes the shortest non-empty run of non-newline characters
 * that is followed by `quote`.
 */
module LoginScraper {
  import opened Wrappers
  import opened Strings

  /** The two exceptions the scrapes raise. */
  datatype ScrapeError = SFTTagNotFound | URLPostNotFound

  const SFTTagPrefix := "value="
  const UrlPostPrefix := "urlPost:"
  const SFTTagOpen := SFTTagPrefix + ['"']
  const UrlPostOpen := UrlPostPrefix + ['\'']

  /**
   * A match of `open(.+?)quote` spanning `text[p..q + 1]`: `open` at `p`, a
   * non-empty run of non-newline characters, and `quote` at `q`.
   */
  predicate MatchSpans(text: string, open: string, quote: char, p: int, q: int) {
    && 0 <= p && p + |open| < q < |text|
    && text[p..p + |open|] == open
    && text[q] == quote
    && '\n' !in text[p + |open|..q]
  }

  /** Nothing in `text` matches: `re.search` returns None. */
  ghost predicate NoMatch(text: string, open: string, quote: char) {
    forall p, q :: !MatchSpans(text, open, quote, p, q)
  }

  /**
   * `t` is the group of the match `re.search` returns: its match starts at `p`,
   * no earlier position admits a match, and `t` is the shortest run that closes
   * (no `quote` after its first character).
   */
  ghost predicate FirstMatchCaptures(text: string, open: string, quote: char, p: nat, t: string) {
    && MatchSpans(text, open, quote, p, p + |open| + |t|)
    && text[p + |open|..p + |open| + |t|] == t
    && quote !in t[1..]
    && forall s, q :: 0 <= s < p ==> !MatchSpans(text, open, quote, s, q)
  }

  /** The lazy group's end: the first `quote` at or after `q`, unless a newline comes first. */
  function CloseFrom(text: string, q: nat, quote: char): Option<nat>
    requires q <= |text|
    decreases |text| - q
  {
    if q == |text| then None
    else if text[q] == quote then Some(q)
    else if text[q] == '\n' then None
    else CloseFrom(text, q + 1, quote)
  }

  /**
   * For a newline-free run `text[b..q]`, the close found from `q` keeps the
   * run newline-free and is the first `quote`; when there is none, every later
   * `quote` has a newline before it.
   */
  lemma {:induction false} CloseFromSpec(text: string, b: nat, q: nat, quote: char)
    requires b < q <= |text|
    requires '\n' !in text[b..q]
    ensures var r := CloseFrom(text, q, quote);
      r.Some? ==>
      && q <= r.value < |text| && text[r.value] == quote
      && '\n' !in text[b..r.value] && quote !in text[q..r.value]
    ensures CloseFrom(text, q, quote).None? ==>
      forall k :: q <= k < |text| && text[k] == quote ==> '\n' in text[b..k]
    decreases |text| - q
  {
    if q < |text| && text[q] != quote {
      if text[q] == '\n' {
        assert forall k :: q < k <= |text| ==> text[b..k][q - b] == '\n';
      } else {
        assert text[b..q + 1] == text[b..q] + [text[q]];
        CloseFromSpec(text, b, q + 1, quote);
        var r := CloseFrom(text, q + 1, quote);
        assert r.Some? ==> text[q..r.value] == [text[q]] + text[q + 1..r.value];
      }
    }
  }

  /** Where the shortest match that starts at `p` closes, if any match starts there. */
  function CloseOf(text: string, open: string, quote: char, p: nat): Option<nat> {
    var b := p + |open|;
    if b < |text| && text[p..b] == open && text[b] != '\n' then CloseFrom(text, b + 1, quote)
    else None
  }

  /** A close found from `p` is the shortest match there; none means no match starts at `p`. */
  lemma CloseOfSpec(text: string, open: string, quote: char, p: nat)
    ensures var r := CloseOf(text, open, quote, p);
      r.Some? ==> MatchSpans(text, open, quote, p, r.value)
    ensures var r := CloseOf(text, open, quote, p);
      r.Some? ==> forall q :: q < r.value ==> !MatchSpans(text, open, quote, p, q)
    ensures CloseOf(text, open, quote, p).None? ==> forall q :: !MatchSpans(text, open, quote, p, q)
  {
    var b := p + |open|;
    if b < |text| && text[p..b] == open && text[b] != '\n' {
      CloseFromSpec(text, b, b + 1, quote);
      var r := CloseFrom(text, b + 1, quote);
      assert r.Some? ==> forall q :: b < q < r.value ==> text[q] == text[b + 1..r.value][q - b - 1];
    } else {
      assert b < |text| && text[p..b] == open ==> forall q :: b < q <= |text| ==> text[b..q][0] == text[b];
    }
  }

  /** `re.search` from position `p` on: the leftmost start admitting a match, and where it closes. */
  function SearchFrom(text: string, open: string, quote: char, p: nat): Option<(nat, nat)>
    decreases |text| - p
  {
    if p >= |text| then None
    else
      match CloseOf(text, open, quote, p)
      case Some(q) => Some((p, q))
      case None => SearchFrom(text, open, quote, p + 1)
  }

  /**
   * The search finds the leftmost start at or after `p` that admits a match,
   * with its shortest close, and finds nothing only when no such start exists.
   */
  lemma {:induction false} SearchFromSpec(text: string, open: string, quote: char, p: nat)
    ensures var r := SearchFrom(text, open, quote, p);
      r.Some? ==> p <= r.value.0 && MatchSpans(text, open, quote, r.value.0, r.value.1)
    ensures var r := SearchFrom(text, open, quote, p);
      r.Some? ==> forall q :: q < r.value.1 ==> !MatchSpans(text, open, quote, r.value.0, q)
    ensures var r := SearchFrom(text, open, quote, p);
      r.Some? ==> forall s, q :: p <= s < r.value.0 ==> !MatchSpans(text, open, quote, s, q)
    ensures SearchFrom(text, open, quote, p).None? ==> forall s, q :: p <= s ==> !MatchSpans(text, open, quote, s, q)
    decreases |text| - p
  {
    if p < |text| {
      CloseOfSpec(text, open, quote, p);
      if CloseOf(text, open, quote, p).None? {
        SearchFromSpec(text, open, quote, p + 1);
      }
    }
  }

  /**
   * `m.group()[m.group().index(quote) + 1:-1]` for the match spanning
   * `text[p..q + 1]`: exactly the run between `open` and the closing quote,
   * because the prefix of `open` holds no `quote`.
   */
  function GroupText(text: string, prefix: string, quote: char, p: nat, q: nat): (g: string)
    requires quote !in prefix
    requires MatchSpans(text, prefix + [quote], quote, p, q)
    ensures g == text[p + |prefix| + 1..q]
  {
    var open := prefix + [quote];
    var group := text[p..q + 1];
    assert open[|prefix|] == quote && open[..|prefix|] == prefix;
    assert group[..|open|] == text[p..p + |open|] == open;
    assert group[..|prefix|] == prefix && group[|prefix|] == quote;
    FirstIndexIs(group, quote, |prefix|);
    var t, u := group[|prefix| + 1..|group| - 1], text[p + |prefix| + 1..q];
    assert |t| == |u|;
    assert forall k :: 0 <= k < |t| ==> t[k] == group[|open| + k] == text[p + |open| + k] == u[k];
    group[FirstIndex(group, quote) + 1..|group| - 1]
  }

  /** The match `re.search` finds captures the run between `open` and the closing quote. */
  lemma SearchCaptures(text: string, open: string, quote: char)
    requires SearchFrom(text, open, quote, 0).Some?
    ensures var (p, q) := SearchFrom(text, open, quote, 0).value;
      MatchSpans(text, open, quote, p, q)
    ensures var (p, q) := SearchFrom(text, open, quote, 0).value;
      FirstMatchCaptures(text, open, quote, p, text[p + |open|..q])
  {
    SearchFromSpec(text, open, quote, 0);
    var (p, q) := SearchFrom(text, open, quote, 0).value;
    var t := text[p + |open|..q];
    assert p + |open| + |t| == q;
    assert MatchSpans(text, open, quote, p, q);
    assert forall q' :: q' < q ==> !MatchSpans(text, open, quote, p, q');
    forall j | 0 <= j < |t| - 1 ensures t[1..][j] != quote {
      var q' := p + |open| + 1 + j;
      assert '\n' !in text[p + |open|..q'] by {
        assert text[p + |open|..q'] == t[..1 + j];
      }
      assert !MatchSpans(text, open, quote, p, q');
      assert t[1..][j] == text[q'];
    }
  }

  /**
   * `m = re.search(open + "(.+?)" + quote, text)` followed by
   * `m.group()[m.group().index(quote) + 1:-1]`, where `open` is `prefix + quote`.
   */
  function Capture(text: string, prefix: string, quote: char): Option<string>
    requires quote !in prefix
  {
    SearchFromSpec(text, prefix + [quote], quote, 0);
    match SearchFrom(text, prefix + [quote], quote, 0)
    case None => None
    case Some((p, q)) => Some(GroupText(text, prefix, quote, p, q))
  }

  /** `re.search` finds nothing exactly when nothing matches. */
  lemma SearchNoneIff(text: string, open: string, quote: char)
    ensures SearchFrom(text, open, quote, 0).None? <==> NoMatch(text, open, quote)
  {
    SearchFromSpec(text, open, quote, 0);
    match SearchFrom(text, open, quote, 0)
    case None =>
      forall s, q ensures !MatchSpans(text, open, quote, s, q) {
      }
    case Some((p, q)) =>
      assert MatchSpans(text, open, quote, p, q);
  }

  /** What the capture returns is the group of the match `re.search` finds. */
  lemma CaptureIsGroup(text: string, prefix: string, quote: char)
    requires quote !in prefix && SearchFrom(text, prefix + [quote], quote, 0).Some?
    ensures Capture(text, prefix, quote).Some?
    ensures FirstMatchCaptures(text, prefix + [quote], quote, SearchFrom(text, prefix + [quote], quote, 0).value.0,
                               Capture(text, prefix, quote).value)
  {
    var open := prefix + [quote];
    SearchCaptures(text, open, quote);
    var (p, q) := SearchFrom(text, open, quote, 0).value;
    assert Capture(text, prefix, quote).value == text[p + |open|..q];
  }

  /**
   * The capture fails exactly when nothing matches, and otherwise returns the
   * group of the leftmost, shortest match.
   */
  lemma CaptureSpec(text: string, prefix: string, quote: char)
    requires quote !in prefix
    ensures Capture(text, prefix, quote).None? <==> NoMatch(text, prefix + [quote], quote)
    ensures Capture(text, prefix, quote).Some? ==>
      exists p :: FirstMatchCaptures(text, prefix + [quote], quote, p, Capture(text, prefix, quote).value)
  {
    SearchNoneIff(text, prefix + [quote], quote);
    if SearchFrom(text, prefix + [quote], quote, 0).Some? {
      CaptureIsGroup(text, prefix, quote);
    }
  }

  /** The sFTTag scrape: the group of `value="(.+?)"`, or SFTTagNotFoundError. */
  function ScrapeSFTTag(body: string): (r: Result<string, ScrapeError>)
    ensures r.Failure? ==> r.error == SFTTagNotFound
  {
    assert '"' !in SFTTagPrefix;
    match Capture(body, SFTTagPrefix, '"')
    case None => Failure(SFTTagNotFound)
    case Some(t) => Success(t)
  }

  /**
   * The sFTTag scrape fails exactly when no `value="…"` occurs, and otherwise
   * returns the group of the first one.
   */
  lemma ScrapeSFTTagSpec(body: string)
    ensures ScrapeSFTTag(body).Failure? <==> NoMatch(body, SFTTagOpen, '"')
    ensures ScrapeSFTTag(body).Success? ==> exists p :: FirstMatchCaptures(body, SFTTagOpen, '"', p, ScrapeSFTTag(body).value)
  {
    assert '"' !in SFTTagPrefix;
    CaptureSpec(body, SFTTagPrefix, '"');
  }

  /** The urlPost scrape: the group of `urlPost:'(.+?)'`, or URLPostNotFoundError. */
  function ScrapeUrlPost(body: string): (r: Result<string, ScrapeError>)
    ensures r.Failure? ==> r.error == URLPostNotFound
  {
    assert '\'' !in UrlPostPrefix;
    match Capture(body, UrlPostPrefix, '\'')
    case None => Failure(URLPostNotFound)
    case Some(t) => Success(t)
  }

  /**
   * The urlPost scrape fails exactly when no `urlPost:'…'` occurs, and
   * otherwise returns the group of the first one.
   */
  lemma ScrapeUrlPostSpec(body: string)
    ensures ScrapeUrlPost(body).Failure? <==> NoMatch(body, UrlPostOpen, '\'')
    ensures ScrapeUrlPost(body).Success? ==> exists p :: FirstMatchCaptures(body, UrlPostOpen, '\'', p, ScrapeUrlPost(body).value)
  {
    assert '\'' !in UrlPostPrefix;
    CaptureSpec(body, UrlPostPrefix, '\'');
  }

  /** A captured group is non-empty, newline-free, and sits between `open` and `quote` in the text. */
  lemma CaptureOccurs(text: string, open: string, quote: char, p: nat, t: string)
    requires FirstMatchCaptures(text, open, quote, p, t)
    ensures |t| >= 1 && '\n' !in t
    ensures text[p..p + |open| + |t| + 1] == open + t + [quote]
  {
    var q := p + |open| + |t|;
    assert text[p..q + 1] == text[p..p + |open|] + text[p + |open|..q] + [text[q]];
  }

  /** What `re.search` captures is determined: one start, one group. */
  lemma CaptureUnique(text: string, open: string, quote: char, p1: nat, t1: string, p2: nat, t2: string)
    requires FirstMatchCaptures(text, open, quote, p1, t1)
    requires FirstMatchCaptures(text, open, quote, p2, t2)
    ensures p1 == p2 && t1 == t2
  {
  }

  /** Conversely, whatever the first match captures is what the sFTTag scrape returns. */
  lemma ScrapeSFTTagFinds(body: string, p: nat, t: string)
    requires FirstMatchCaptures(body, SFTTagOpen, '"', p, t)
    ensures ScrapeSFTTag(body) == Success(t)
  {
    ScrapeSFTTagSpec(body);
    assert MatchSpans(body, SFTTagOpen, '"', p, p + |SFTTagOpen| + |t|);
    var p' :| FirstMatchCaptures(body, SFTTagOpen, '"', p', ScrapeSFTTag(body).value);
    CaptureUnique(body, SFTTagOpen, '"', p, t, p', ScrapeSFTTag(body).value);
  }

  /** Conversely, whatever the first match captures is what the urlPost scrape returns. */
  lemma ScrapeUrlPostFinds(body: string, p: nat, t: string)
    requires FirstMatchCaptures(body, UrlPostOpen, '\'', p, t)
    ensures ScrapeUrlPost(body) == Success(t)
  {
    ScrapeUrlPostSpec(body);
    assert MatchSpans(body, UrlPostOpen, '\'', p, p + |UrlPostOpen| + |t|);
    var p' :| FirstMatchCaptures(body, UrlPostOpen, '\'', p', ScrapeUrlPost(body).value);
    CaptureUnique(body, UrlPostOpen, '\'', p, t, p', ScrapeUrlPost(body).value);
  }

  /** A hidden field `value="abc123"`: the sFTTag scrape returns exactly `abc123`. */
  lemma SFTTagFixture()
    ensures ScrapeSFTTag("value=\"abc123\"") == Success("abc123")
  {
    var body := "value=\"abc123\"";
    assert body[..7] == SFTTagOpen;
    assert body[7..13] == "abc123";
    assert '\n' !in "abc123" && '"' !in "bc123";
    assert MatchSpans(body, SFTTagOpen, '"', 0, 13);
    assert FirstMatchCaptures(body, SFTTagOpen, '"', 0, "abc123");
    ScrapeSFTTagFinds(body, 0, "abc123");
  }

  /** A script assignment `urlPost:'https://x/y'`: the urlPost scrape returns exactly `https://x/y`. */
  lemma UrlPostFixture()
    ensures ScrapeUrlPost("urlPost:'https://x/y'") == Success("https://x/y")
  {
    var body := "urlPost:'https://x/y'";
    assert body[..9] == UrlPostOpen;
    assert body[9..20] == "https://x/y";
    assert '\n' !in "https://x/y" && '\'' !in "ttps://x/y";
    assert MatchSpans(body, UrlPostOpen, '\'', 0, 20);
    assert FirstMatchCaptures(body, UrlPostOpen, '\'', 0, "https://x/y");
    ScrapeUrlPostFinds(body, 0, "https://x/y");
  }
}
