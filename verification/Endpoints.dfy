/** Endpoint strings: adding a session id to a messages endpoint (`endpoint_with_session_id`),
    normalising an endpoint to its route (`remove_query_and_hash`), and reading the session id back
    from a request (`query_param`). Query and fragment are those of sections 3.4 and 3.5 of RFC 3986. */
module Endpoints {
  import opened Sequences

  const SESSION_ID := "sessionId"

  // ---------- The operations ----------

  /** `split_once`: the text around the first `c`. */
  function SplitOnce(s: string, c: char): Option<(string, string)> {
    var i := Find(s, c);
    if i < |s| then Some((s[..i], s[i + 1..])) else None
  }

  /** `split_once` keeping only what comes before `c`. */
  function Before(s: string, c: char): string {
    match SplitOnce(s, c) case Some((p, _)) => p case None => s
  }

  function After(s: string, c: char): Option<string> {
    match SplitOnce(s, c) case Some((_, q)) => Some(q) case None => None
  }

  function WithSessionId(endpoint: string, sessionId: string): string {
    var base := if endpoint == "" then "/" else endpoint;
    var pathAndQuery, fragment := Before(base, '#'), After(base, '#');
    var path, query := Before(pathAndQuery, '?'), After(pathAndQuery, '?');
    var newQuery :=
      if query.Some? && query.value != "" then query.value + "&sessionId=" + sessionId
      else "sessionId=" + sessionId;
    match fragment
    case Some(f) => path + "?" + newQuery + "#" + f
    case None => path + "?" + newQuery
  }

  function RemoveQueryAndHash(endpoint: string): string {
    var path := Before(Before(endpoint, '#'), '?');
    if path == "" then "/" else path
  }

  /** The query part of a request's address. */
  function Query(url: string): Option<string> {
    After(Before(url, '#'), '?')
  }

  /** `splitn(2, '=')`: a pair without an equals sign has an empty value. */
  function PairKey(pair: string): string {
    Before(pair, '=')
  }

  function PairValue(pair: string): string {
    match After(pair, '=') case Some(v) => v case None => ""
  }

  function FirstValue(pairs: seq<string>, key: string): Option<string> {
    if pairs == [] then None
    else if PairKey(pairs[0]) == key then Some(PairValue(pairs[0]))
    else FirstValue(pairs[1..], key)
  }

  function QueryParam(url: string, key: string): Option<string> {
    match Query(url) case Some(q) => FirstValue(Split(q, '&'), key) case None => None
  }

  // ---------- Routes ----------

  lemma BeforeIsFree(s: string, c: char)
    ensures c !in Before(s, c)
    ensures forall x :: x in Before(s, c) ==> x in s
  {
  }

  /** Cutting at the first `c` after a `c`-free prefix. */
  lemma CutAt(p: string, c: char, q: string)
    requires c !in p
    ensures Before(p + [c] + q, c) == p && After(p + [c] + q, c) == Some(q)
  {
    var s := p + [c] + q;
    FindIs(s, c, |p|);
    assert s[..|p|] == p && s[|p| + 1..] == q;
  }

  lemma NoCut(s: string, c: char)
    requires c !in s
    ensures Before(s, c) == s && After(s, c) == None
  {
    FindNone(s, c);
  }

  /** The path of an endpoint, with the empty endpoint read as the root. */
  function PathOf(endpoint: string): string {
    Before(Before(if endpoint == "" then "/" else endpoint, '#'), '?')
  }

  lemma PathIsFree(endpoint: string)
    ensures '?' !in PathOf(endpoint) && '#' !in PathOf(endpoint)
  {
    var base := if endpoint == "" then "/" else endpoint;
    BeforeIsFree(base, '#');
    BeforeIsFree(Before(base, '#'), '?');
  }

  /** Adding a session id puts a query, and possibly a fragment, behind the path. */
  lemma SessionIdKeepsPath(endpoint: string, sessionId: string) returns (query: string)
    ensures PathOf(WithSessionId(endpoint, sessionId)) == PathOf(endpoint)
    ensures WithSessionId(endpoint, sessionId) == PathOf(endpoint) + "?" + query
  {
    var path := PathOf(endpoint);
    PathIsFree(endpoint);
    var url := WithSessionId(endpoint, sessionId);
    query := url[|path| + 1..];
    assert url == path + "?" + query;
    AnyQueryKeepsPath(path, query);
    assert url != "";
  }

  lemma AnyQueryKeepsPath(path: string, query: string)
    requires '?' !in path && '#' !in path
    ensures Before(Before(path + "?" + query, '#'), '?') == path
  {
    var url := path + "?" + query;
    if '#' in query {
      var q := Before(query, '#');
      BeforeIsFree(query, '#');
      assert query == q + ['#'] + query[|q| + 1..];
      assert url == (path + "?" + q) + ['#'] + query[|q| + 1..];
      CutAt(path + "?" + q, '#', query[|q| + 1..]);
      CutAt(path, '?', q);
    } else {
      NoCut(url, '#');
      CutAt(path, '?', query);
    }
  }

  /** The route of an endpoint does not depend on whether a session id was added to it. */
  lemma RouteIgnoresSessionId(endpoint: string, sessionId: string)
    ensures RemoveQueryAndHash(WithSessionId(endpoint, sessionId)) == RemoveQueryAndHash(endpoint)
  {
    var query := SessionIdKeepsPath(endpoint, sessionId);
    if endpoint == "" {
      NoCut("/", '#');
      NoCut("/", '?');
    }
  }

  /** The route is what stands before the query and the fragment, or the root if nothing does. */
  lemma RouteIsThePath(endpoint: string) returns (path: string, rest: string)
    ensures endpoint == path + rest && '?' !in path && '#' !in path
    ensures rest != "" ==> rest[0] == '?' || rest[0] == '#'
    ensures RemoveQueryAndHash(endpoint) == if path == "" then "/" else path
  {
    path := Before(Before(endpoint, '#'), '?');
    BeforeIsFree(endpoint, '#');
    BeforeIsFree(Before(endpoint, '#'), '?');
    rest := endpoint[|path|..];
  }

  /** A route is a fixed point: it holds no query, no fragment, and is not empty. */
  lemma RouteIsNormal(endpoint: string)
    ensures var route := RemoveQueryAndHash(endpoint);
            && route != "" && '?' !in route && '#' !in route
            && RemoveQueryAndHash(route) == route
  {
    var route := RemoveQueryAndHash(endpoint);
    BeforeIsFree(endpoint, '#');
    BeforeIsFree(Before(endpoint, '#'), '?');
    NoCut(route, '#');
    NoCut(route, '?');
  }

  // ---------- Reading the session id back ----------

  lemma {:induction false} SplitAppend(a: string, c: char, b: string)
    ensures Split(a + [c] + b, c) == Split(a, c) + Split(b, c)
    decreases |a|
  {
    var i := Find(a, c);
    if i == |a| {
      SplitCons(a, c, b);
    } else {
      var head, rest := a[..i], a[i + 1..];
      assert a == head + [c] + rest;
      assert a + [c] + b == head + [c] + (rest + [c] + b);
      SplitCons(head, c, rest + [c] + b);
      SplitAppend(rest, c, b);
    }
  }

  lemma {:induction false} FirstOfAppend(a: seq<string>, b: seq<string>, key: string)
    ensures FirstValue(a + b, key) == if FirstValue(a, key).Some? then FirstValue(a, key) else FirstValue(b, key)
  {
    hide PairKey, PairValue;
    if a == [] {
      assert a + b == b;
    } else {
      assert (a + b)[1..] == a[1..] + b;
      FirstOfAppend(a[1..], b, key);
    }
  }

  /** The part of a session id that survives being read as the value of the last parameter. */
  function ReadBack(sessionId: string): string {
    Before(Before(sessionId, '#'), '&')
  }

  lemma SessionPair(value: string)
    ensures FirstValue(Split("sessionId=" + value, '&'), SESSION_ID) == Some(Before(value, '&'))
  {
    var v := Before(value, '&');
    var pair := "sessionId=" + v;
    assert PairKey(pair) == SESSION_ID && PairValue(pair) == v by {
      assert pair == SESSION_ID + ['='] + v;
      CutAt(SESSION_ID, '=', v);
    }
    FirstPair(value);
    hide Before, PairKey, PairValue, Split;
  }

  lemma FirstPair(value: string)
    ensures var pairs := Split("sessionId=" + value, '&');
            pairs != [] && pairs[0] == "sessionId=" + Before(value, '&')
  {
    var text := "sessionId=" + value;
    FindSkip("sessionId=", value, '&');
    if Find(text, '&') < |text| {
      assert text[..Find(text, '&')] == "sessionId=" + Before(value, '&');
    }
  }

  lemma QueryOf(path: string, query: string)
    requires '?' !in path && '#' !in path
    ensures Query(path + "?" + query) == Some(Before(query, '#'))
  {
    var url := path + "?" + query;
    if '#' in query {
      var q := Before(query, '#');
      BeforeIsFree(query, '#');
      assert url == (path + "?" + q) + ['#'] + query[|q| + 1..];
      CutAt(path + "?" + q, '#', query[|q| + 1..]);
      CutAt(path, '?', q);
    } else {
      NoCut(url, '#');
      NoCut(query, '#');
      CutAt(path, '?', query);
    }
  }

  lemma CutLater(p: string, q: string, c: char)
    requires c !in p
    ensures Before(p + q, c) == p + Before(q, c)
  {
    FindSkip(p, q, c);
  }

  /** What comes between the question mark and the session id. */
  function Lead(endpoint: string): string {
    var own := Query(endpoint);
    if own.Some? && own.value != "" then own.value + "&sessionId=" else "sessionId="
  }

  /** What comes after the session id. */
  function Tail(endpoint: string): string {
    match After(endpoint, '#') case Some(f) => "#" + f case None => ""
  }

  lemma EmptyEndpoint()
    ensures Before("/", '#') == "/" && Before("/", '?') == "/" && After("/", '#') == None && After("/", '?') == None
    ensures Before("", '#') == "" && After("", '#') == None && After("", '?') == None
  {
    NoCut("/", '#');
    NoCut("/", '?');
    NoCut("", '#');
    NoCut("", '?');
  }

  lemma SessionUrl(endpoint: string, sessionId: string)
    ensures WithSessionId(endpoint, sessionId) ==
            PathOf(endpoint) + "?" + (Lead(endpoint) + (sessionId + Tail(endpoint)))
  {
    hide Before, After;
    EmptyEndpoint();
  }

  lemma LeadIsFree(endpoint: string)
    ensures '#' !in Lead(endpoint)
  {
    BeforeIsFree(endpoint, '#');
  }

  /** The query after adding a session id: the endpoint's own, then the parameter, up to any hash
      sign in the session id. */
  lemma NewQuery(endpoint: string, sessionId: string)
    ensures var own := Query(endpoint);
            var added := "sessionId=" + Before(sessionId, '#');
            Query(WithSessionId(endpoint, sessionId)) ==
            Some(if own.Some? && own.value != "" then own.value + "&" + added else added)
  {
    hide Before, After, Query, WithSessionId, PathOf;
    PathIsFree(endpoint);
    LeadIsFree(endpoint);
    SessionUrl(endpoint, sessionId);
    QueryOf(PathOf(endpoint), Lead(endpoint) + (sessionId + Tail(endpoint)));
    CutLater(Lead(endpoint), sessionId + Tail(endpoint), '#');
    HashOfTail(sessionId, After(endpoint, '#'));
    var own := Query(endpoint);
    assert own.Some? && own.value != "" ==>
             Lead(endpoint) + Before(sessionId, '#') == own.value + "&" + ("sessionId=" + Before(sessionId, '#'));
  }

  lemma HashOfTail(sessionId: string, fragment: Option<string>)
    ensures Before(sessionId + (if fragment.Some? then "#" + fragment.value else ""), '#') == Before(sessionId, '#')
  {
    var tail := if fragment.Some? then "#" + fragment.value else "";
    if '#' in sessionId {
      FindInPrefix(sessionId, tail, '#');
    } else {
      NoCut(sessionId, '#');
      CutLater(sessionId, tail, '#');
      if fragment.Some? {
        assert tail == [] + ['#'] + fragment.value;
        CutAt([], '#', fragment.value);
      } else {
        NoCut(tail, '#');
      }
    }
  }

  /** A parameter's value after a session id was added: the endpoint's own if it has one. */
  lemma ParamAfterSessionId(endpoint: string, sessionId: string, key: string)
    requires key != ""
    ensures var own := QueryParam(endpoint, key);
            QueryParam(WithSessionId(endpoint, sessionId), key) ==
            if own.Some? then own else FirstValue(Split("sessionId=" + Before(sessionId, '#'), '&'), key)
  {
    hide WithSessionId, Query, FirstValue;
    NewQuery(endpoint, sessionId);
    var own := Query(endpoint);
    var value := Before(sessionId, '#');
    if own.Some? && own.value != "" {
      assert own.value + "&" + ("sessionId=" + value) == own.value + ['&'] + ("sessionId=" + value);
      SplitAppend(own.value, '&', "sessionId=" + value);
      FirstOfAppend(Split(own.value, '&'), Split("sessionId=" + value, '&'), key);
    } else if own.Some? {
      EmptyQueryHasNoParam(key);
    }
  }

  lemma EmptyQueryHasNoParam(key: string)
    requires key != ""
    ensures FirstValue(Split("", '&'), key) == None
  {
    FindNone("", '&');
    NoCut("", '=');
    assert Split("", '&') == [""] && [""][1..] == [];
  }

  lemma FrontIsFree(endpoint: string, sessionId: string)
    requires '#' !in sessionId
    ensures '#' !in PathOf(endpoint) + "?" + (Lead(endpoint) + sessionId)
  {
    hide PathOf, Lead;
    PathIsFree(endpoint);
    LeadIsFree(endpoint);
  }

  /** Unless the session id holds a hash sign, adding it keeps the endpoint's fragment. */
  lemma SessionIdKeepsFragment(endpoint: string, sessionId: string)
    requires '#' !in sessionId
    ensures After(WithSessionId(endpoint, sessionId), '#') == After(endpoint, '#')
  {
    hide WithSessionId, PathOf, Lead, After, Before;
    FrontIsFree(endpoint, sessionId);
    SessionUrl(endpoint, sessionId);
    var front, tail := PathOf(endpoint) + "?" + (Lead(endpoint) + sessionId), Tail(endpoint);
    assert WithSessionId(endpoint, sessionId) == front + tail;
    if tail == "" {
      assert front + tail == front;
      NoCut(front, '#');
    } else {
      assert front + tail == front + ['#'] + tail[1..];
      CutAt(front, '#', tail[1..]);
    }
  }

  /** Adding a session id keeps the value of each of the endpoint's own parameters. */
  lemma SessionIdKeepsParams(endpoint: string, sessionId: string, key: string)
    requires key != "" && QueryParam(endpoint, key).Some?
    ensures QueryParam(WithSessionId(endpoint, sessionId), key) == QueryParam(endpoint, key)
  {
    hide WithSessionId, QueryParam;
    ParamAfterSessionId(endpoint, sessionId, key);
  }

  /** What the server reads back: the endpoint's own `sessionId` parameter if it has one, else the
      session id up to its first hash sign or ampersand. */
  lemma SessionIdReadBack(endpoint: string, sessionId: string)
    ensures var own := QueryParam(endpoint, SESSION_ID);
            QueryParam(WithSessionId(endpoint, sessionId), SESSION_ID) ==
            if own.Some? then own else Some(ReadBack(sessionId))
  {
    ParamAfterSessionId(endpoint, sessionId, SESSION_ID);
    SessionPair(Before(sessionId, '#'));
  }

  /** The server reads back exactly the session id that was added iff the endpoint's query already
      carried it, or carried no `sessionId` and the session id holds neither `&` nor `#`. */
  lemma SessionIdRoundTripsIff(endpoint: string, sessionId: string)
    ensures var own := QueryParam(endpoint, SESSION_ID);
            QueryParam(WithSessionId(endpoint, sessionId), SESSION_ID) == Some(sessionId) <==>
            own == Some(sessionId) || (own == None && '&' !in sessionId && '#' !in sessionId)
  {
    hide WithSessionId, QueryParam;
    SessionIdReadBack(endpoint, sessionId);
    BeforeIsFree(sessionId, '#');
    BeforeIsFree(Before(sessionId, '#'), '&');
    if '&' !in sessionId && '#' !in sessionId {
      NoCut(sessionId, '#');
      NoCut(sessionId, '&');
    }
  }
}
