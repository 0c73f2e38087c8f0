/**
 * `MCAuthenticator._getParamsFromUrl`: the `key=value` pairs of the fragment
 * of the URL the Microsoft login redirects to.
 */
module RedirectParams {
  import opened Wrappers
  import opened Strings

  /** The two ways the parser raises. */
  datatype ParamsError =
    | NoFragment             // `url.split('#')[1]` raises IndexError
    | BadPiece(piece: string) // `param, val = piece.split('=')` raises ValueError

  /** `url.split('#')[1]`: the text between the first `#` and the next one (or the end). */
  function FragmentOf(url: string): (r: Option<string>)
    ensures r.None? <==> '#' !in url
  {
    var parts := Split(url, '#');
    if |parts| < 2 then None else Some(parts[1])
  }

  /** The fragment is the maximal `#`-free run right after the first `#`. */
  lemma FragmentFollowsFirstHash(url: string)
    requires '#' in url
    ensures var i, f := FirstIndex(url, '#'), FragmentOf(url).value;
      && '#' !in f
      && i + 1 + |f| <= |url|
      && url[i + 1..i + 1 + |f|] == f
      && (i + 1 + |f| == |url| || url[i + 1 + |f|] == '#')
  {
    SplitHead(url[FirstIndex(url, '#') + 1..], '#');
  }

  /** One fragment piece, unpacked into exactly a key and a value. */
  function DecodePiece(piece: string): (r: Result<(string, string), ParamsError>)
    ensures r.Success? <==> Count(piece, '=') == 1
    ensures r.Failure? ==> r.error == BadPiece(piece)
    ensures r.Success? ==>
      && piece == Piece(r.value.0, r.value.1)
      && '=' !in r.value.0 && '=' !in r.value.1
  {
    var kv := Split(piece, '=');
    SplitCount(piece, '=');
    if |kv| == 2 then
      JoinSplit(piece, '=');
      assert kv[1..] == [kv[1]];
      Success((kv[0], kv[1]))
    else
      Failure(BadPiece(piece))
  }

  /** The piece `key=value`. */
  function Piece(key: string, value: string): string {
    key + "=" + value
  }

  /** Whether every piece holds exactly one `=`. */
  predicate AllUnpack(pieces: seq<string>) {
    forall i :: 0 <= i < |pieces| ==> DecodePiece(pieces[i]).Success?
  }

  /** The pieces unpacked in order; the first piece that does not unpack aborts. */
  function DecodePieces(pieces: seq<string>): (r: Result<seq<(string, string)>, ParamsError>)
    ensures r.Success? <==> AllUnpack(pieces)
    ensures r.Success? ==>
      |r.value| == |pieces| &&
      forall i :: 0 <= i < |pieces| ==> DecodePiece(pieces[i]) == Success(r.value[i])
  {
    if pieces == [] then Success([])
    else
      var n := |pieces| - 1;
      assert forall i :: 0 <= i < n ==> pieces[..n][i] == pieces[i];
      match DecodePieces(pieces[..n])
      case Failure(e) => Failure(e)
      case Success(kvs) =>
        match DecodePiece(pieces[n])
        case Failure(e) => Failure(e)
        case Success(kv) => Success(kvs + [kv])
  }

  /** Whether no later pair assigns the key of pair `i`. */
  predicate LastFor(kvs: seq<(string, string)>, i: nat)
    requires i < |kvs|
  {
    forall j :: i < j < |kvs| ==> kvs[j].0 != kvs[i].0
  }

  /** The dict filled by `params[param] = val` for each pair in turn. */
  function Assign(kvs: seq<(string, string)>): map<string, string> {
    if kvs == [] then map[]
    else
      var n := |kvs| - 1;
      Assign(kvs[..n])[kvs[n].0 := kvs[n].1]
  }

  /**
   * The dict holds exactly the keys of the pairs, and each key maps to the
   * value of its last pair: a later duplicate overwrites an earlier one.
   */
  lemma {:induction false} AssignLastWins(kvs: seq<(string, string)>)
    ensures var m := Assign(kvs);
      && (forall i :: 0 <= i < |kvs| ==> kvs[i].0 in m)
      && (forall k :: k in m ==> exists i :: 0 <= i < |kvs| && kvs[i].0 == k)
      && (forall i :: 0 <= i < |kvs| && LastFor(kvs, i) ==> m[kvs[i].0] == kvs[i].1)
  {
    if kvs != [] {
      var n := |kvs| - 1;
      var front := kvs[..n];
      AssignLastWins(front);
      assert kvs == front + [kvs[n]];
      AssignStep(front, kvs[n], Assign(front));
    }
  }

  /** Assigning one more pair on top of the dict of the earlier ones keeps the last-wins property. */
  lemma AssignStep(front: seq<(string, string)>, last: (string, string), m: map<string, string>)
    requires forall i :: 0 <= i < |front| ==> front[i].0 in m
    requires forall k :: k in m ==> exists i :: 0 <= i < |front| && front[i].0 == k
    requires forall i :: 0 <= i < |front| && LastFor(front, i) ==> m[front[i].0] == front[i].1
    ensures var kvs, m' := front + [last], m[last.0 := last.1];
      && (forall i :: 0 <= i < |kvs| ==> kvs[i].0 in m')
      && (forall k :: k in m' ==> exists i :: 0 <= i < |kvs| && kvs[i].0 == k)
      && (forall i :: 0 <= i < |kvs| && LastFor(kvs, i) ==> m'[kvs[i].0] == kvs[i].1)
  {
    var kvs, m' := front + [last], m[last.0 := last.1];
    forall k | k in m' ensures exists i :: 0 <= i < |kvs| && kvs[i].0 == k {
      if k != last.0 {
        var i :| 0 <= i < |front| && front[i].0 == k;
        assert kvs[i] == front[i];
      } else {
        assert kvs[|front|] == last;
      }
    }
    forall i | 0 <= i < |kvs| && LastFor(kvs, i) ensures m'[kvs[i].0] == kvs[i].1 {
      if i < |front| {
        assert kvs[i] == front[i];
        assert kvs[|front|] == last;
        assert LastFor(front, i) by {
          forall j | i < j < |front| ensures front[j].0 != front[i].0 {
            assert kvs[j] == front[j];
          }
        }
      }
    }
  }

  /** What `_getParamsFromUrl(url)` returns or raises. */
  function ParamsFromUrl(url: string): (r: Result<map<string, string>, ParamsError>)
    ensures '#' !in url ==> r == Failure(NoFragment)
  {
    match FragmentOf(url)
    case None => Failure(NoFragment)
    case Some(fragment) =>
      match DecodePieces(Split(fragment, '&'))
      case Failure(e) => Failure(e)
      case Success(kvs) => Success(Assign(kvs))
  }

  /** A failure among all but the last piece is the failure of the whole list. */
  lemma FrontFailureSticks(pieces: seq<string>)
    requires |pieces| > 0 && DecodePieces(pieces[..|pieces| - 1]).Failure?
    ensures DecodePieces(pieces) == DecodePieces(pieces[..|pieces| - 1])
  {
  }

  /** Once a prefix of the pieces fails to unpack, the whole list fails the same way. */
  lemma {:induction false} PrefixFailureSticks(pieces: seq<string>, k: nat)
    requires k <= |pieces|
    requires DecodePieces(pieces[..k]).Failure?
    ensures DecodePieces(pieces) == DecodePieces(pieces[..k])
    decreases |pieces|
  {
    if k < |pieces| {
      var front := pieces[..|pieces| - 1];
      assert front[..k] == pieces[..k];
      PrefixFailureSticks(front, k);
      FrontFailureSticks(pieces);
    } else {
      assert pieces[..k] == pieces;
    }
  }

  /** Assigning one more pair updates the dict at its key. */
  lemma AssignSnoc(kvs: seq<(string, string)>, key: string, value: string)
    ensures Assign(kvs + [(key, value)]) == Assign(kvs)[key := value]
  {
    assert (kvs + [(key, value)])[..|kvs|] == kvs;
  }

  /** One more piece that unpacks extends the pairs. */
  lemma DecodeNextPiece(pieces: seq<string>, i: nat, kvs: seq<(string, string)>)
    requires i < |pieces| && DecodePieces(pieces[..i]) == Success(kvs)
    requires |Split(pieces[i], '=')| == 2
    ensures var kv := Split(pieces[i], '=');
      DecodePieces(pieces[..i + 1]) == Success(kvs + [(kv[0], kv[1])])
  {
    SplitCount(pieces[i], '=');
    assert pieces[..i + 1][..i] == pieces[..i];
  }

  /** One more piece that does not unpack is the error of the whole list. */
  lemma BadNextPiece(pieces: seq<string>, i: nat, kvs: seq<(string, string)>)
    requires i < |pieces| && DecodePieces(pieces[..i]) == Success(kvs)
    requires |Split(pieces[i], '=')| != 2
    ensures DecodePieces(pieces) == Failure(BadPiece(pieces[i]))
  {
    SplitCount(pieces[i], '=');
    assert pieces[..i + 1][..i] == pieces[..i];
    PrefixFailureSticks(pieces, i + 1);
  }

  /** The parser as written: split on `#`, then on `&`, then fill the dict piece by piece. */
  method GetParamsFromUrl(url: string) returns (r: Result<map<string, string>, ParamsError>)
    ensures r == ParamsFromUrl(url)
  {
    var allParams := Split(url, '#');
    if |allParams| < 2 {
      return Failure(NoFragment);
    }
    var pieces := Split(allParams[1], '&');
    var params: map<string, string> := map[];
    ghost var kvs: seq<(string, string)> := [];
    for i := 0 to |pieces|
      invariant DecodePieces(pieces[..i]) == Success(kvs)
      invariant params == Assign(kvs)
    {
      var kv := Split(pieces[i], '=');
      if |kv| != 2 {
        BadNextPiece(pieces, i, kvs);
        return Failure(BadPiece(pieces[i]));
      }
      DecodeNextPiece(pieces, i, kvs);
      AssignSnoc(kvs, kv[0], kv[1]);
      params := params[kv[0] := kv[1]];
      kvs := kvs + [(kv[0], kv[1])];
    }
    assert pieces[..|pieces|] == pieces;
    r := Success(params);
  }

  /** Parsing succeeds exactly when there is a `#` and every `&`-piece of the fragment holds one `=`. */
  lemma ParamsSucceedIff(url: string)
    ensures ParamsFromUrl(url).Success? <==>
      '#' in url && forall p :: p in Split(FragmentOf(url).value, '&') ==> Count(p, '=') == 1
  {
    if '#' in url {
      var pieces := Split(FragmentOf(url).value, '&');
      if forall p :: p in pieces ==> Count(p, '=') == 1 {
        assert AllUnpack(pieces);
      } else {
        var p :| p in pieces && Count(p, '=') != 1;
        var i :| 0 <= i < |pieces| && pieces[i] == p;
        assert !AllUnpack(pieces);
      }
    }
  }

  /** The error names the first piece that does not hold exactly one `=`. */
  lemma FirstBadPieceReported(url: string, i: nat)
    requires FragmentOf(url).Some?
    requires i < |Split(FragmentOf(url).value, '&')|
    requires Count(Split(FragmentOf(url).value, '&')[i], '=') != 1
    requires forall j :: 0 <= j < i ==> Count(Split(FragmentOf(url).value, '&')[j], '=') == 1
    ensures ParamsFromUrl(url) == Failure(BadPiece(Split(FragmentOf(url).value, '&')[i]))
  {
    var pieces := Split(FragmentOf(url).value, '&');
    assert AllUnpack(pieces[..i]) by {
      forall j | 0 <= j < i ensures DecodePiece(pieces[..i][j]).Success? {
        assert pieces[..i][j] == pieces[j];
      }
    }
    SplitCount(pieces[i], '=');
    BadNextPiece(pieces, i, DecodePieces(pieces[..i]).value);
  }

  /** An empty fragment is one piece without `=`, so it fails. */
  lemma EmptyFragmentFails(url: string)
    requires FragmentOf(url) == Some("")
    ensures ParamsFromUrl(url) == Failure(BadPiece(""))
  {
    FirstBadPieceReported(url, 0);
  }

  /** Whatever follows a second `#` is ignored. */
  lemma SecondHashIgnored(prefix: string, fragment: string, rest: string)
    requires '#' !in prefix && '#' !in fragment
    ensures ParamsFromUrl(prefix + "#" + fragment + "#" + rest) == ParamsFromUrl(prefix + "#" + fragment)
  {
    var url := prefix + "#" + fragment + "#" + rest;
    assert url == prefix + ['#'] + (fragment + ['#'] + rest);
    SplitAfter(prefix, '#', fragment + ['#'] + rest);
    SplitAfter(fragment, '#', rest);
    assert FragmentOf(url) == Some(fragment);
    FragmentAfterHash(prefix, fragment);
    SameFragmentSameParams(url, prefix + "#" + fragment);
  }

  /** The parse reads the URL only through its fragment. */
  lemma SameFragmentSameParams(url1: string, url2: string)
    requires FragmentOf(url1) == FragmentOf(url2)
    ensures ParamsFromUrl(url1) == ParamsFromUrl(url2)
  {
  }

  /** Text free of the three delimiters of a fragment. */
  predicate Plain(s: string) {
    '#' !in s && '&' !in s && '=' !in s
  }

  /** The `key=value` pieces for `kvs`, in order. */
  function Pieces(kvs: seq<(string, string)>): (pieces: seq<string>)
    ensures |pieces| == |kvs|
    ensures forall i :: 0 <= i < |kvs| ==> pieces[i] == Piece(kvs[i].0, kvs[i].1)
  {
    seq(|kvs|, i requires 0 <= i < |kvs| => Piece(kvs[i].0, kvs[i].1))
  }

  /** The `&`-joined pieces: the fragment a redirect carries for `kvs`. */
  function EncodeFragment(kvs: seq<(string, string)>): string {
    Join(Pieces(kvs), '&')
  }

  /** A piece `k=v` with `=`-free `k` and `v` unpacks to `(k, v)`. */
  lemma DecodePlainPiece(k: string, v: string)
    requires '=' !in k && '=' !in v
    ensures DecodePiece(Piece(k, v)) == Success((k, v))
  {
    SplitAfter(k, '=', v);
  }

  /** The fragment of `prefix#f`, when neither part holds a `#`, is `f`. */
  lemma FragmentAfterHash(prefix: string, f: string)
    requires '#' !in prefix && '#' !in f
    ensures FragmentOf(prefix + "#" + f) == Some(f)
  {
    assert prefix + "#" + f == prefix + ['#'] + f;
    SplitAfter(prefix, '#', f);
  }

  /** The encoded pieces of `=`-free pairs unpack back to the pairs. */
  lemma DecodeEncoded(kvs: seq<(string, string)>)
    requires forall i :: 0 <= i < |kvs| ==> '=' !in kvs[i].0 && '=' !in kvs[i].1
    ensures DecodePieces(Pieces(kvs)) == Success(kvs)
  {
    var pieces := Pieces(kvs);
    forall i | 0 <= i < |kvs| ensures DecodePiece(pieces[i]) == Success(kvs[i]) {
      DecodePlainPiece(kvs[i].0, kvs[i].1);
    }
    assert AllUnpack(pieces);
    assert DecodePieces(pieces).value == kvs;
  }

  /**
   * Round trip: a redirect `prefix#k1=v1&...&kn=vn` with delimiter-free keys and
   * values parses to the dict that assigns the pairs in order (the last of
   * duplicate keys wins).
   */
  lemma ParseEncoded(prefix: string, kvs: seq<(string, string)>)
    requires '#' !in prefix && |kvs| >= 1
    requires forall i :: 0 <= i < |kvs| ==> Plain(kvs[i].0) && Plain(kvs[i].1)
    ensures ParamsFromUrl(prefix + "#" + EncodeFragment(kvs)) == Success(Assign(kvs))
  {
    var pieces := Pieces(kvs);
    assert forall i :: 0 <= i < |pieces| ==> '&' !in pieces[i] && '#' !in pieces[i];
    JoinAvoids(pieces, '&', '#');
    FragmentAfterHash(prefix, EncodeFragment(kvs));
    SplitJoin(pieces, '&');
    DecodeEncoded(kvs);
  }

  /** With distinct keys, each key maps to its own value and nothing else is present. */
  lemma ParseDistinct(prefix: string, kvs: seq<(string, string)>)
    requires '#' !in prefix && |kvs| >= 1
    requires forall i :: 0 <= i < |kvs| ==> Plain(kvs[i].0) && Plain(kvs[i].1)
    requires forall i, j :: 0 <= i < j < |kvs| ==> kvs[i].0 != kvs[j].0
    ensures ParamsFromUrl(prefix + "#" + EncodeFragment(kvs)).Success?
    ensures var m := ParamsFromUrl(prefix + "#" + EncodeFragment(kvs)).value;
      && (forall i :: 0 <= i < |kvs| ==> kvs[i].0 in m && m[kvs[i].0] == kvs[i].1)
      && (forall k :: k in m ==> exists i :: 0 <= i < |kvs| && kvs[i].0 == k)
  {
    ParseEncoded(prefix, kvs);
    AssignLastWins(kvs);
    forall i | 0 <= i < |kvs| ensures LastFor(kvs, i) {
    }
  }

  /** A URL without a fragment, as in a failed login that never redirected. */
  lemma NoFragmentExample()
    ensures ParamsFromUrl("https://a/b") == Failure(NoFragment)
  {
    assert '#' !in "https://a/b";
  }
}
