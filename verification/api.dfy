/** The backend calls of the chat client (src/api.js): the requests it
    builds and the way it reads the document-URL response. The network is
    not modelled; a call's outcome is a parameter. */
module Api {
  import opened JsText
  import opened JsValue

  const BaseUrl: string := "http://localhost:8000"
  const DefaultUserId: string := "anonymous"
  const DefaultHistoryLimit: int := 20
  const DefaultExpiration: int := 3600

  /** A request: HTTP method, URL and JSON body (`JNull` for none). */
  datatype Request = Request(verb: string, url: string, body: Json)

  /** `createChatSession(userId)`: a POST to the sessions endpoint whose body
      names the user, `anonymous` when the argument is left out. */
  function CreateChatSession(userId: Option<string>): (r: Request)
    ensures r.verb == "POST" && r.url == BaseUrl + "/chat/sessions"
    ensures r.body.JObj? && r.body.fields.Keys == {"user_id"}
    ensures userId.Some? ==> r.body.fields["user_id"] == JStr(userId.value)
    ensures userId.None? ==> r.body.fields["user_id"] == JStr(DefaultUserId)
  {
    var id := if userId.Some? then userId.value else DefaultUserId;
    Request("POST", BaseUrl + "/chat/sessions", JObj(map["user_id" := JStr(id)]))
  }

  /** `sendChatMessage(query, sessionId)`: `JSON.stringify` drops fields that
      are `undefined`, so the query and the session id appear only when
      given, unchanged; sources and follow-ups are always asked for. */
  function SendChatMessage(query: Option<Json>, sessionId: Option<Json>): (r: Request)
    ensures r.verb == "POST" && r.url == BaseUrl + "/api/v1/chat"
    ensures r.body.JObj?
    ensures "query" in r.body.fields <==> query.Some?
    ensures query.Some? ==> r.body.fields["query"] == query.value
    ensures "session_id" in r.body.fields <==> sessionId.Some?
    ensures sessionId.Some? ==> r.body.fields["session_id"] == sessionId.value
    ensures Get(r.body, "include_sources") == Some(JBool(true))
    ensures Get(r.body, "include_follow_ups") == Some(JBool(true))
    ensures r.body.fields.Keys <= {"query", "session_id", "include_sources", "include_follow_ups"}
  {
    var flags := map["include_sources" := JBool(true), "include_follow_ups" := JBool(true)];
    var withQuery := if query.Some? then flags["query" := query.value] else flags;
    var fields := if sessionId.Some? then withQuery["session_id" := sessionId.value] else withQuery;
    Request("POST", BaseUrl + "/api/v1/chat", JObj(fields))
  }

  /** The limit or expiration actually sent: the argument, or the default
      when it is left out. */
  function OrDefault(n: Option<int>, dflt: int): (r: int)
    ensures n.Some? ==> r == n.value
    ensures n.None? ==> r == dflt
  {
    if n.Some? then n.value else dflt
  }

  /** `getChatHistory(sessionId, limit)` as written: the path is appended to
      the base URL without a separating slash. */
  function ChatHistoryUrl(sessionId: string, limit: Option<int>): (r: string)
    ensures StartsWith(r, BaseUrl + "api/v1/chat/sessions/")
    ensures r[|BaseUrl + "api/v1/chat/sessions/"|..] == sessionId + "/history?limit=" + IntToString(OrDefault(limit, DefaultHistoryLimit))
  {
    BaseUrl + "api/v1/chat/sessions/" + (sessionId + "/history?limit=" + IntToString(OrDefault(limit, DefaultHistoryLimit)))
  }

  /** The authority of an `http://` URL: what lies between the scheme and the
      first `/` after it. */
  function Authority(url: string): string
    requires StartsWith(url, "http://")
  {
    var rest := url[7..];
    var i := IndexOf(rest, "/", 0);
    if i == -1 then rest else rest[..i]
  }

  /** The authority of `http://` + `host` + `path` is `host` when `host`
      holds no slash and `path` starts with one. */
  lemma {:induction false} AuthorityOf(host: string, path: string)
    requires '/' !in host && |path| > 0 && path[0] == '/'
    ensures StartsWith("http://" + host + path, "http://")
    ensures Authority("http://" + host + path) == host
  {
    var u := "http://" + host + path;
    var rest := u[7..];
    assert u[..7] == "http://";
    assert rest == host + path;
    assert HasAt(rest, "/", |host|) by {
      assert rest[|host|..|host| + 1] == [path[0]];
    }
    forall k | 0 <= k < |host| ensures !HasAt(rest, "/", k) {
      assert rest[k..k + 1] == [host[k]];
    }
    assert rest[..|host|] == host;
  }

  /** The base URL's scheme and host. */
  lemma {:induction false} BaseUrlParts()
    ensures BaseUrl == "http://" + "localhost:8000"
  {
  }

  /** The history path as written, split after `api`; `localhost:8000`
      followed by `api` is a slash-free host. */
  lemma {:induction false} HistoryPathParts()
    ensures "api/v1/chat/sessions/" == "api" + "/v1/chat/sessions/"
    ensures "localhost:8000" + "api" == "localhost:8000api" && '/' !in "localhost:8000api"
  {
  }

  lemma {:induction false} Regroup(a: string, b: string, c: string, d: string, x: string)
    ensures (a + b) + (c + d) + x == a + (b + c) + (d + x)
  {
    assert (a + b) + (c + d) + x == a + (b + c) + (d + x) by {
      assert (a + b) + (c + d) == a + (b + c) + d;
    }
  }

  /** The history URL as written puts `api` into the URL's authority,
      `localhost:8000api`. Its port, `8000api`, is not numeric, so the URL
      does not parse and the history request never reaches `localhost:8000`. */
  lemma {:induction false} HistoryUrlHostIsWrong(sessionId: string, limit: Option<int>)
    ensures StartsWith(ChatHistoryUrl(sessionId, limit), "http://")
    ensures Authority(ChatHistoryUrl(sessionId, limit)) == "localhost:8000api"
  {
    var x := sessionId + "/history?limit=" + IntToString(OrDefault(limit, DefaultHistoryLimit));
    var path := "/v1/chat/sessions/";
    BaseUrlParts();
    HistoryPathParts();
    Regroup("http://", "localhost:8000", "api", path, x);
    AuthorityOf("localhost:8000api", path + x);
  }

  /** `getChatHistory` with the slash in place: the path of every other
      endpoint after the base URL. */
  function ChatHistoryUrlFixed(sessionId: string, limit: Option<int>): (r: string)
    ensures StartsWith(r, BaseUrl + "/api/v1/chat/sessions/")
  {
    BaseUrl + "/api/v1/chat/sessions/" + (sessionId + "/history?limit=" + IntToString(OrDefault(limit, DefaultHistoryLimit)))
  }

  /** With the slash in place the request goes to the server's own host. */
  lemma {:induction false} HistoryUrlFixedHost(sessionId: string, limit: Option<int>)
    ensures StartsWith(ChatHistoryUrlFixed(sessionId, limit), "http://")
    ensures Authority(ChatHistoryUrlFixed(sessionId, limit)) == "localhost:8000"
  {
    var x := sessionId + "/history?limit=" + IntToString(OrDefault(limit, DefaultHistoryLimit));
    var path := "/api/v1/chat/sessions/";
    BaseUrlParts();
    assert "http://" + "localhost:8000" + (path + x) == "http://" + "localhost:8000" + path + x;
    AuthorityOf("localhost:8000", path + x);
  }

  /** The documents endpoints' common prefix. */
  const DocumentsBase: string := BaseUrl + "/api/v1/documents/"
  const ExpirationQuery: string := "/url?expiration="

  /** The endpoint `getDocumentUrl` asks: the documents prefix, the id, then
      the expiration in the query, as canonical decimal digits (3600 when
      none is given). */
  function DocumentUrlRequest(documentId: string, expiration: Option<int>): (r: Request)
    ensures r.verb == "GET" && r.body == JNull
    ensures StartsWith(r.url, DocumentsBase)
    ensures |r.url| >= |DocumentsBase| + |documentId| + |ExpirationQuery|
    ensures r.url[|DocumentsBase|..][..|documentId|] == documentId
    ensures r.url[|DocumentsBase| + |documentId|..][..|ExpirationQuery|] == ExpirationQuery
    ensures Decimal(r.url[|DocumentsBase| + |documentId| + |ExpirationQuery|..],
                    OrDefault(expiration, DefaultExpiration))
  {
    var q := IntToString(OrDefault(expiration, DefaultExpiration));
    ReadBack(DocumentsBase, documentId, ExpirationQuery, q);
    Request("GET", DocumentsBase + documentId + ExpirationQuery + q, JNull)
  }

  /** The pieces of `p + id + m + q` can be read back at their offsets. */
  lemma {:induction false} ReadBack(p: string, id: string, m: string, q: string)
    ensures StartsWith(p + id + m + q, p)
    ensures |p + id + m + q| == |p| + |id| + |m| + |q|
    ensures (p + id + m + q)[|p|..][..|id|] == id
    ensures (p + id + m + q)[|p| + |id|..][..|m|] == m
    ensures (p + id + m + q)[|p| + |id| + |m|..] == q
  {
    var u := p + id + m + q;
    assert u[..|p|] == p;
    assert u[|p|..] == id + m + q;
    assert u[|p| + |id|..] == m + q;
  }

  /** The character `/` does not occur in `s`. */
  predicate NoSlash(s: string) {
    forall i :: 0 <= i < |s| ==> s[i] != '/'
  }

  /** A rendered integer holds no `/`. */
  lemma {:induction false} IntToStringNoSlash(n: int)
    ensures NoSlash(IntToString(n))
  {
    var r := IntToString(n);
    if n >= 0 {
      assert AllDigits(r);
    } else {
      forall i | 0 <= i < |r| ensures r[i] != '/' {
        if i > 0 {
          assert r[1..][i - 1] == r[i];
        }
      }
    }
  }

  lemma {:induction false} NoSlashConcat(a: string, b: string)
    requires NoSlash(a) && NoSlash(b)
    ensures NoSlash(a + b)
  {
    var u := a + b;
    forall i | 0 <= i < |u| ensures u[i] != '/' {
      if i >= |a| {
        assert u[i] == b[i - |a|];
      }
    }
  }

  /** The query's slash is its first character. */
  lemma {:induction false} ExpirationQueryParts()
    ensures ExpirationQuery == "/" + "url?expiration="
    ensures NoSlash("url?expiration=")
  {
  }

  /** After the last `/` of `x + "/" + y`, with `y` free of slashes, every
      position is slash-free. */
  lemma {:induction false} SlashFreeAfter(x: string, y: string)
    requires NoSlash(y)
    ensures forall k :: |x| < k < |x + "/" + y| ==> (x + "/" + y)[k] != '/'
  {
    var u := x + "/" + y;
    forall k | |x| < k < |u| ensures u[k] != '/' {
      assert u[k] == y[k - |x| - 1];
    }
  }

  /** The last `/` splits a string uniquely. */
  lemma {:induction false} LastSlashSplit(x: string, y: string, x': string, y': string)
    requires x + "/" + y == x' + "/" + y' && NoSlash(y) && NoSlash(y')
    ensures x == x' && y == y'
  {
    var u := x + "/" + y;
    SlashFreeAfter(x, y);
    SlashFreeAfter(x', y');
    assert u[|x|] == '/' && u[|x'|] == '/';
    assert |x| == |x'|;
    assert x == u[..|x|] && x' == u[..|x'|];
    assert y == u[|x| + 1..] && y' == u[|x'| + 1..];
  }

  /** A request URL around its last slash: the prefix and the id before
      it, the query name and the rendered expiration after it. */
  lemma {:induction false} AroundLastSlash(p: string, id: string, m: string, q: string)
    ensures p + id + ("/" + m) + q == (p + id) + "/" + (m + q)
    ensures (p + id)[|p|..] == id && (m + q)[|m|..] == q
  {
  }

  /** The document and the expiration can be read back from the request
      URL: different documents, or different expirations actually sent,
      give different URLs. */
  lemma {:induction false} DocumentUrlInjective(a: string, ea: Option<int>, b: string, eb: Option<int>)
    ensures DocumentUrlRequest(a, ea).url == DocumentUrlRequest(b, eb).url
            <==> a == b && OrDefault(ea, DefaultExpiration) == OrDefault(eb, DefaultExpiration)
  {
    if DocumentUrlRequest(a, ea).url == DocumentUrlRequest(b, eb).url {
      var m := "url?expiration=";
      var na, nb := OrDefault(ea, DefaultExpiration), OrDefault(eb, DefaultExpiration);
      var sa, sb := IntToString(na), IntToString(nb);
      ExpirationQueryParts();
      IntToStringNoSlash(na);
      IntToStringNoSlash(nb);
      NoSlashConcat(m, sa);
      NoSlashConcat(m, sb);
      AroundLastSlash(DocumentsBase, a, m, sa);
      AroundLastSlash(DocumentsBase, b, m, sb);
      LastSlashSplit(DocumentsBase + a, m + sa, DocumentsBase + b, m + sb);
      IntToStringInjective(na, nb);
    }
  }

  /** What the fetch in `getDocumentUrl` can come to. */
  datatype FetchOutcome =
    | NetworkError                        // `fetch` rejects
    | Response(ok: bool, body: Option<Json>)  // `None`: the body is not JSON

  /** `getDocumentUrl`'s result: `data.data.url` when the response is OK and
      `success`, `data` and `url` are all truthy, `null` (`None`) in every
      other case; failures are caught, so the call never throws. */
  function GetDocumentUrl(outcome: FetchOutcome): (r: Option<Json>)
    ensures r.Some? <==>
      && outcome.Response? && outcome.ok && outcome.body.Some?
      && Truthy(Get(outcome.body.value, "success"))
      && Truthy(Get(outcome.body.value, "data"))
      && Truthy(Get(Get(outcome.body.value, "data").value, "url"))
    ensures r.Some? ==> r == Get(Get(outcome.body.value, "data").value, "url")
    ensures r.Some? ==> Truthy(r)
  {
    match outcome
    case NetworkError => None
    case Response(ok, body) =>
      if !ok || body.None? then None
      else
        // Property access on a `null` body throws and is caught: `null`.
        var data := body.value;
        if Truthy(Get(data, "success")) && Truthy(Get(data, "data")) && Truthy(Get(Get(data, "data").value, "url"))
        then Get(Get(data, "data").value, "url")
        else None
  }

  /** `getDocumentImage(id)` and the download link of a document reference. */
  function DownloadUrl(documentId: string): (r: string)
    ensures StartsWith(r, BaseUrl + "/api/v1/documents/")
    ensures |r| == |BaseUrl + "/api/v1/documents/"| + |documentId| + |"/download"|
    ensures r[|BaseUrl + "/api/v1/documents/"|..][..|documentId|] == documentId
    ensures r[|r| - |"/download"|..] == "/download"
  {
    DocumentsBase + documentId + "/download"
  }

  /** The id can be read back from a download URL: different documents get
      different URLs. */
  lemma {:induction false} DownloadUrlInjective(a: string, b: string)
    requires DownloadUrl(a) == DownloadUrl(b)
    ensures a == b
  {
    var p := |BaseUrl + "/api/v1/documents/"|;
    assert DownloadUrl(a)[p..p + |a|] == a;
    assert DownloadUrl(b)[p..p + |b|] == b;
  }
}
