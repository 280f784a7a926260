/** Controlling the server over HTTP (http.go; the same code as the older aternos_api.go
    except for `ConfirmServer`, whose older policy is in legacy.dfy).

    The network, goquery, the goja interpreter and JSON decoding of `ServerInfo` are the
    oracles of `Env`. Every request the client makes and every sleep is recorded in the
    client's `trace`, and the `k`-th request gets the reply `respond(k)`. */
module Control {
  import opened Base
  import opened Strings
  import opened Json
  import opened Credentials

  /** `ServerStatus` values (server_status.go). */
  const Offline := 0
  const Online := 1
  const Starting := 2
  const Stopping := 3
  const Saving := 5
  const Loading := 6
  const Preparing := 10

  /** The fields of `ServerInfo` the modelled code reads: `Status` and `StatusLabel`. */
  datatype ServerInfo = ServerInfo(status: int, statusLabel: string)

  /** `ServerInfo{}`. */
  const ZeroInfo := ServerInfo(Offline, "")

  /** A parsed page, as goquery sees it: the text of every element matched by
      `script[type='text/javascript']` and by `script:not([src])`, in document order. */
  datatype Page = Page(jsScripts: seq<string>, inlineScripts: seq<string>)

  /** A reply to a GET: a transport error or a body. */
  datatype Reply = NetError(detail: string) | Body(text: string)

  datatype Env = Env(
    respond: nat -> Reply,                     // the reply to the k-th request
    page: string -> Result<Page>,              // goquery.NewDocumentFromReader
    eval: string -> Option<string>,            // goja: run a program, `String()` of its value; None if it throws
    decodeInfo: string -> Option<ServerInfo>,  // json.Unmarshal into ServerInfo
    lib: JsonLib,                              // encoding/json behind `res.Json()`
    rng: Rng)                                  // math/rand

  datatype Step = Get(url: string) | Sleep(d: Duration)

  /** The client: the AJAX credentials, the cookies it has added to the jar, what it has done,
      how many requests it has made and how many random draws it has used. */
  datatype Api = Api(sec: string, token: string, cookies: seq<Cookie>, trace: seq<Step>, requests: nat, draws: nat)

  /** `api.client.Get(url)`. */
  function Request(api: Api, env: Env, url: string): (r: (Api, Reply))
    ensures r.0 == api.(trace := api.trace + [Get(url)], requests := api.requests + 1)
    ensures r.1 == env.respond(api.requests)
  {
    (api.(trace := api.trace + [Get(url)], requests := api.requests + 1), env.respond(api.requests))
  }

  /** `getDocument(url)`: a transport error or a page error is returned as is. */
  function GetDocument(api: Api, env: Env, url: string): (r: (Api, Result<Page>))
    ensures r.0 == Request(api, env, url).0
    ensures env.respond(api.requests).NetError? ==> r.1 == Err(Transport(env.respond(api.requests).detail))
  {
    var (a, reply) := Request(api, env, url);
    match reply
    case NetError(e) => (a, Err(Transport(e)))
    case Body(t) => (a, env.page(t))
  }

  /** The two `EachWithBreak` callbacks: stop at a script mentioning `window`, or at one
      starting with the status assignment. */
  datatype Selector = MentionsWindow | StartsWithLastStatus

  const StatusPrefix := "var lastStatus ="

  predicate Matches(sel: Selector, script: string) {
    match sel
    case MentionsWindow => Contains(script, "window")
    case StartsWithLastStatus => HasPrefix(script, StatusPrefix)
  }

  /** The script `EachWithBreak` leaves behind: the trimmed text of the first element that
      matches, or of the last element when none does, or "" when there are none. */
  function Select(texts: seq<string>, sel: Selector): string
    decreases |texts|
  {
    if |texts| == 0 then ""
    else
      var s := TrimSpace(texts[0]);
      if Matches(sel, s) || |texts| == 1 then s else Select(texts[1..], sel)
  }

  lemma {:induction false} SelectFirstMatch(texts: seq<string>, sel: Selector, i: nat)
    requires i < |texts| && Matches(sel, TrimSpace(texts[i]))
    requires forall j | 0 <= j < i :: !Matches(sel, TrimSpace(texts[j]))
    ensures Select(texts, sel) == TrimSpace(texts[i])
    decreases i
  {
    if i > 0 {
      assert !Matches(sel, TrimSpace(texts[0]));
      SelectFirstMatch(texts[1..], sel, i - 1);
    }
  }

  lemma {:induction false} SelectLastOtherwise(texts: seq<string>, sel: Selector)
    requires |texts| > 0
    requires forall j | 0 <= j < |texts| :: !Matches(sel, TrimSpace(texts[j]))
    ensures Select(texts, sel) == TrimSpace(texts[|texts| - 1])
    decreases |texts|
  {
    if |texts| > 1 {
      assert !Matches(sel, TrimSpace(texts[0]));
      SelectLastOtherwise(texts[1..], sel);
    }
  }

  /** The `EachWithBreak` loop itself: each element's trimmed text is kept until one
      matches. */
  method EachWithBreak(texts: seq<string>, sel: Selector) returns (script: string)
    ensures script == Select(texts, sel)
  {
    script := "";
    if |texts| == 0 {
      return;
    }
    var i := 0;
    while true
      invariant 0 <= i < |texts|
      invariant Select(texts, sel) == Select(texts[i..], sel)
      decreases |texts| - i
    {
      script := TrimSpace(texts[i]);
      if Matches(sel, script) || i == |texts| - 1 {
        return;
      }
      assert texts[i..][1..] == texts[i + 1..];
      i := i + 1;
    }
  }

  const TokenProgramHead := "window = {}; "
  const TokenProgramTail := " window['AJAX_TOKEN'];"

  /** The program run to obtain the token: the page's script between a declaration of
      `window` and a read of `window['AJAX_TOKEN']`. */
  function TokenProgram(script: string): (p: string)
    ensures |p| == |TokenProgramHead| + |script| + |TokenProgramTail|
    ensures HasPrefix(p, TokenProgramHead) && HasSuffix(p, TokenProgramTail)
    ensures p[|TokenProgramHead|..|p| - |TokenProgramTail|] == script
  {
    var p := TokenProgramHead + script + TokenProgramTail;
    assert p[..|TokenProgramHead|] == TokenProgramHead;
    assert p[|p| - |TokenProgramTail|..] == TokenProgramTail;
    assert p[|TokenProgramHead|..|p| - |TokenProgramTail|] == script;
    p
  }

  /** `extractToken`: the interpreter's error (`ScriptThrew`) is passed on. */
  function ExtractToken(page: Page, eval: string -> Option<string>): (r: Result<string>)
    ensures r == Err(TokenNotFound) <==> Select(page.jsScripts, MentionsWindow) == ""
    ensures r.Ok? ==> eval(TokenProgram(Select(page.jsScripts, MentionsWindow))) == Some(r.value)
    ensures r.Err? ==> r.error == TokenNotFound || r.error == ScriptThrew
  {
    var script := Select(page.jsScripts, MentionsWindow);
    if script == "" then Err(TokenNotFound)
    else match eval(TokenProgram(script))
      case None => Err(ScriptThrew)
      case Some(v) => Ok(v)
  }

  /** The JSON text `GetServerInfo` decodes: every occurrence of the assignment removed, then
      at most one trailing semicolon. */
  function StatusPayload(script: string): (data: string)
    ensures var kept := RemoveAll(script, StatusPrefix); data == kept || data + ";" == kept
    ensures !Contains(script, StatusPrefix) && !HasSuffix(script, ";") ==> data == script
  {
    assert !Contains(script, StatusPrefix) ==> RemoveAll(script, StatusPrefix) == script by {
      if !Contains(script, StatusPrefix) { RemoveAllAbsent(script, StatusPrefix); }
    }
    TrimSuffix(RemoveAll(script, StatusPrefix), ";")
  }

  /** A script of the expected form `var lastStatus =` J `;` yields exactly J, provided J
      does not itself contain the assignment. */
  lemma StatusPayloadStrips(j: string)
    requires !Contains(j, StatusPrefix)
    ensures StatusPayload(StatusPrefix + j + ";") == j
  {
    assert StatusPrefix[|StatusPrefix| - 1] == '=';
    NotContainsAppend(j, ';', StatusPrefix);
    assert StatusPrefix + j + ";" == StatusPrefix + (j + ";");
    RemoveAllLeading(StatusPrefix, j + ";");
    assert HasSuffix(j + ";", ";");
    assert (j + ";")[..|j|] == j;
  }

  /** Only one trailing semicolon is removed. */
  lemma StatusPayloadOneSemicolon(j: string)
    requires !Contains(j, StatusPrefix)
    ensures StatusPayload(StatusPrefix + j + ";;") == j + ";"
  {
    assert StatusPrefix[|StatusPrefix| - 1] == '=';
    NotContainsAppend(j, ';', StatusPrefix);
    StatusPayloadStrips(j + ";");
    assert StatusPrefix + (j + ";") + ";" == StatusPrefix + j + ";;";
  }

  /** The client after `GetServerInfo`, the info returned and the error returned. */
  datatype Fetched = Fetched(api: Api, info: ServerInfo, err: Outcome)

  /** `genSec` applied to the client. */
  function Regenerate(api: Api, env: Env): (a: Api)
    ensures a.sec == GenSec(env.rng, api.draws).sec
    ensures a.cookies == api.cookies + [GenSec(env.rng, api.draws).cookie]
    ensures a.draws == api.draws + SecDraws
    ensures a.(sec := api.sec, cookies := api.cookies, draws := api.draws) == api
  {
    var m := GenSec(env.rng, api.draws);
    api.(sec := m.sec, cookies := api.cookies + [m.cookie], draws := api.draws + SecDraws)
  }

  /** Whether the status script of a page decodes, and to what. */
  function PageInfo(page: Page, env: Env): Option<ServerInfo> {
    var script := Select(page.inlineScripts, StartsWithLastStatus);
    if script == "" then None else env.decodeInfo(StatusPayload(script))
  }

  /** `GetServerInfo`: fetch the page, find and decode the status; only then regenerate
      SEC and extract the token, returning the info even when extraction fails. */
  function GetServerInfo(api: Api, env: Env): (r: Fetched)
    ensures r.api.trace == api.trace + [Get("server")] && r.api.requests == api.requests + 1
    ensures r.api.draws == api.draws || r.api.draws == api.draws + SecDraws
    ensures r.api.draws == api.draws ==> r.info == ZeroInfo && r.err.Fail? && r.api.sec == api.sec && r.api.token == api.token
    ensures r.api.draws != api.draws ==>
      && r.api.sec == GenSec(env.rng, api.draws).sec
      && r.api.cookies == api.cookies + [GenSec(env.rng, api.draws).cookie]
      && (r.err.Fail? ==> r.api.token == api.token)
    ensures env.respond(api.requests).NetError? ==>
      r == Fetched(Request(api, env, "server").0, ZeroInfo, Fail(Transport(env.respond(api.requests).detail)))
  {
    var (a, doc) := GetDocument(api, env, "server");
    match doc
    case Err(e) => Fetched(a, ZeroInfo, Fail(e))
    case Ok(page) =>
      var script := Select(page.inlineScripts, StartsWithLastStatus);
      if script == "" then Fetched(a, ZeroInfo, Fail(ServerInfoNotFound))
      else match env.decodeInfo(StatusPayload(script))
        case None => Fetched(a, ZeroInfo, Fail(Parse))
        case Some(info) =>
          var a2 := Regenerate(a, env);
          match ExtractToken(page, env.eval)
          case Ok(t) => Fetched(a2.(token := t), info, Pass)
          case Err(e) => Fetched(a2, info, Fail(e))
  }

  /** When the page is fetched and its status decodes, the info is returned whatever
      becomes of the token, and the error is exactly the token extraction's. */
  lemma InfoSurvivesTokenFailure(api: Api, env: Env, page: Page)
    requires env.respond(api.requests).Body? && env.page(env.respond(api.requests).text) == Ok(page)
    requires PageInfo(page, env).Some?
    ensures var r := GetServerInfo(api, env);
      && r.info == PageInfo(page, env).value
      && r.api.draws == api.draws + SecDraws
      && (r.err.Pass? <==> ExtractToken(page, env.eval).Ok?)
      && (r.err.Pass? ==> r.api.token == ExtractToken(page, env.eval).value)
  {
  }

  const StartBase := "panel/ajax/start.php?headstart=0&access-credits=0&SEC="
  const ConfirmBase := "panel/ajax/confirm.php?headstart=0&access-credits=0&SEC="
  const StopBase := "panel/ajax/stop.php?SEC="
  const TokenParam := "&TOKEN="

  /** The request URL for an action: the base, then SEC and TOKEN verbatim. */
  function ActionUrl(base: string, sec: string, token: string): (url: string)
    ensures |url| == |base| + |sec| + |TokenParam| + |token|
    ensures HasPrefix(url, base) && HasSuffix(url, TokenParam + token)
    ensures url[|base|..|base| + |sec|] == sec
  {
    var url := base + sec + TokenParam + token;
    assert url[..|base|] == base;
    assert url[|url| - |TokenParam + token|..] == TokenParam + token;
    assert url[|base|..|base| + |sec|] == sec;
    url
  }

  /** SEC and TOKEN are carried verbatim: for credentials of one length (as `genSec` always
      makes), the URL determines both. */
  lemma ActionUrlInjective(base: string, s1: string, t1: string, s2: string, t2: string)
    requires |s1| == |s2|
    ensures ActionUrl(base, s1, t1) == ActionUrl(base, s2, t2) <==> s1 == s2 && t1 == t2
  {
    var u1, u2 := ActionUrl(base, s1, t1), ActionUrl(base, s2, t2);
    if u1 == u2 {
      var n := |base| + |s1| + |TokenParam|;
      assert u1[n..] == t1;
      assert u2[n..] == t2;
    }
  }

  /** `res.Json()`: the body decoded into a map; `null` gives an empty map, any other
      non-object value is an error. */
  function ResponseObject(lib: JsonLib, body: string): Option<map<string, Json>> {
    match lib.parse(body)
    case Some(Object(m)) => Some(m)
    case Some(Null) => Some(map[])
    case _ => None
  }

  /** `json["success"] == false`: true only for a literal `false`; a missing field reads as nil. */
  predicate SuccessIsFalse(m: map<string, Json>) {
    "success" in m && m["success"] == Bool(false)
  }

  /** The client after a call and the error it returned. */
  datatype Called = Called(api: Api, err: Outcome)

  /** `StartServer`. */
  function StartServer(api: Api, env: Env): (r: Called)
    ensures var f := GetServerInfo(api, env);
      && (f.err.Fail? ==> r == Called(f.api, f.err))
      && (f.err.Pass? && f.info.status == Online ==> r == Called(f.api, Fail(ServerAlreadyStarted)))
      && (f.err.Pass? && f.info.status != Online ==>
            r.api == Request(f.api, env, ActionUrl(StartBase, f.api.sec, f.api.token)).0)
  {
    var f := GetServerInfo(api, env);
    if f.err.Fail? then Called(f.api, f.err)
    else if f.info.status == Online then Called(f.api, Fail(ServerAlreadyStarted))
    else
      var (a, reply) := Request(f.api, env, ActionUrl(StartBase, f.api.sec, f.api.token));
      match reply
      case NetError(e) => Called(a, Fail(Transport(e)))
      case Body(t) =>
        match ResponseObject(env.lib, t)
        case None => Called(a, Fail(Parse))
        case Some(m) => if SuccessIsFalse(m) then Called(a, Fail(StartRefused)) else Called(a, Pass)
  }

  /** Once the start request is answered with a JSON object or `null`, the call fails only
      when `success` is literally `false`. */
  lemma StartOutcome(api: Api, env: Env)
    requires var f := GetServerInfo(api, env); f.err.Pass? && f.info.status != Online
    requires var f := GetServerInfo(api, env);
      env.respond(f.api.requests).Body? && ResponseObject(env.lib, env.respond(f.api.requests).text).Some?
    ensures var f := GetServerInfo(api, env);
      var m := ResponseObject(env.lib, env.respond(f.api.requests).text).value;
      StartServer(api, env).err.Pass? <==> !SuccessIsFalse(m)
  {
  }

  /** A `null` answer or one without `success` counts as started. */
  lemma StartSuccessMissing(m: map<string, Json>)
    requires "success" !in m || m["success"] != Bool(false)
    ensures !SuccessIsFalse(m) && !SuccessIsFalse(map[])
  {
  }

  /** `StopServer`: the answer's body is not looked at. */
  function StopServer(api: Api, env: Env): (r: Called)
    ensures var f := GetServerInfo(api, env);
      && (f.err.Fail? ==> r == Called(f.api, f.err))
      && (f.err.Pass? && f.info.status == Offline ==> r == Called(f.api, Fail(ServerAlreadyStopped)))
      && (f.err.Pass? && f.info.status != Offline ==>
            && r.api == Request(f.api, env, ActionUrl(StopBase, f.api.sec, f.api.token)).0
            && (r.err.Pass? <==> env.respond(f.api.requests).Body?))
  {
    var f := GetServerInfo(api, env);
    if f.err.Fail? then Called(f.api, f.err)
    else if f.info.status == Offline then Called(f.api, Fail(ServerAlreadyStopped))
    else
      var (a, reply) := Request(f.api, env, ActionUrl(StopBase, f.api.sec, f.api.token));
      match reply
      case NetError(e) => Called(a, Fail(Transport(e)))
      case Body(_) => Called(a, Pass)
  }

  /** The guards send nothing: a started server gets no start request and a stopped one no
      stop request; the only request is the status page. */
  lemma GuardsSendNothing(api: Api, env: Env)
    ensures var f := GetServerInfo(api, env);
      f.err.Pass? && f.info.status == Online ==> StartServer(api, env).api.trace == api.trace + [Get("server")]
    ensures var f := GetServerInfo(api, env);
      f.err.Pass? && f.info.status == Offline ==> StopServer(api, env).api.trace == api.trace + [Get("server")]
  {
  }

  /** What one status poll leads to in `ConfirmServer`. */
  datatype Reaction = ConfirmAndReturn | SleepAndPoll | ConfirmAndPoll | Return

  /** The current policy: confirm once the server is preparing, otherwise wait and poll again. */
  function PollReaction(status: int): (r: Reaction)
    ensures r == ConfirmAndReturn <==> status == Preparing
    ensures r == ConfirmAndReturn || r == SleepAndPoll
  {
    if status == Preparing then ConfirmAndReturn else SleepAndPoll
  }

  /** The context passed to `ConfirmServer`: nil, or one whose `Done` channel is (or is not) closed. */
  datatype Ctx = Nil | Live(cancelled: bool)

  datatype Polled = Finished(api: Api, err: Outcome) | OutOfFuel(api: Api)

  /** The confirmation request with the client's current credentials. */
  function Confirm(api: Api, env: Env): (r: Polled)
    ensures r.Finished? && r.api == Request(api, env, ActionUrl(ConfirmBase, api.sec, api.token)).0
    ensures r.err.Pass? <==> env.respond(api.requests).Body?
  {
    var (a, reply) := Request(api, env, ActionUrl(ConfirmBase, api.sec, api.token));
    match reply
    case NetError(e) => Finished(a, Fail(Transport(e)))
    case Body(_) => Finished(a, Pass)
  }

  /** `GetServerInfo` as the polling loop calls it. */
  function StatusFetch(env: Env): Api -> Fetched {
    a => GetServerInfo(a, env)
  }

  /** What the polling loop relies on of a status fetch: one request, for the status page. */
  ghost predicate PollsOnce(fetch: Api -> Fetched) {
    forall a :: fetch(a).api.trace == a.trace + [Get("server")] && fetch(a).api.requests == a.requests + 1
  }

  lemma StatusFetchPollsOnce(env: Env)
    ensures PollsOnce(StatusFetch(env))
  {
    forall a
      ensures StatusFetch(env)(a).api.trace == a.trace + [Get("server")]
    {
      assert StatusFetch(env)(a) == GetServerInfo(a, env);
    }
  }

  /** `ConfirmServer(ctx, delay)`. With a context it runs once, assuming the server is
      preparing: a cancelled context returns `nil` with no request, a live one sends exactly
      one confirmation and no status poll. With nil it polls the status, at most `fuel`
      times, and a run that returns `nil` has confirmed exactly once. */
  function ConfirmServer(api: Api, env: Env, ctx: Ctx, delay: Duration, fuel: nat): (r: Polled)
    ensures ctx == Live(true) ==> r == Finished(api, Pass)
    ensures ctx == Live(false) ==> r.api.trace == api.trace + [Get(ActionUrl(ConfirmBase, api.sec, api.token))]
    ensures ctx.Nil? && r.Finished? && r.err.Pass? ==>
      |r.api.trace| > |api.trace| && SyncShape(r.api.trace[|api.trace|..], delay)
      && Confirms(r.api.trace[|api.trace|..]) == 1
  {
    match ctx
    case Live(cancelled) => if cancelled then Finished(api, Pass) else Confirm(api, env)
    case Nil =>
      var r := PollUntilPreparing(api, env, StatusFetch(env), delay, fuel);
      StatusFetchPollsOnce(env);
      if r.Finished? && r.err.Pass? then
        PollConfirmsOnce(api, env, StatusFetch(env), delay, fuel);
        r
      else r
  }

  /** The synchronous loop: the background context is never done. */
  function PollUntilPreparing(api: Api, env: Env, fetch: Api -> Fetched, delay: Duration, fuel: nat): Polled
    decreases fuel
  {
    if fuel == 0 then OutOfFuel(api)
    else
      var f := fetch(api);
      if f.err.Fail? then Finished(f.api, f.err)
      else if PollReaction(f.info.status) == ConfirmAndReturn then Confirm(f.api, env)
      else PollUntilPreparing(f.api.(trace := f.api.trace + [Sleep(delay)]), env, fetch, delay, fuel - 1)
  }

  /** The requests of a synchronous run: polls of the status page, each followed by a sleep
      until one finds the server preparing, which is followed by the single confirmation
      (or the run ends on a failed poll). */
  predicate SyncShape(steps: seq<Step>, delay: Duration)
    decreases |steps|
  {
    |steps| == 0
    || (steps[0] == Get("server")
        && (|steps| == 1
            || (|steps| == 2 && steps[1].Get? && HasPrefix(steps[1].url, ConfirmBase))
            || (steps[1] == Sleep(delay) && SyncShape(steps[2..], delay))))
  }

  /** Confirmations sent in a sequence of steps. */
  function Confirms(steps: seq<Step>): nat
    decreases |steps|
  {
    if |steps| == 0 then 0
    else (if steps[0].Get? && HasPrefix(steps[0].url, ConfirmBase) then 1 else 0) + Confirms(steps[1..])
  }

  lemma {:induction false} SyncShapeConfirms(steps: seq<Step>, delay: Duration)
    requires SyncShape(steps, delay)
    ensures Confirms(steps) <= 1
    ensures Confirms(steps) == 1 ==> |steps| >= 2 && steps[|steps| - 1].Get? && HasPrefix(steps[|steps| - 1].url, ConfirmBase)
    decreases |steps|
  {
    if |steps| >= 2 {
      assert steps[0] == Get("server");
      assert !HasPrefix("server", ConfirmBase);
      if steps[1] == Sleep(delay) && SyncShape(steps[2..], delay) {
        SyncShapeConfirms(steps[2..], delay);
        assert Confirms(steps) == Confirms(steps[2..]);
      } else {
        assert steps[2..] == [];
      }
    } else if |steps| == 1 {
      assert !HasPrefix("server", ConfirmBase);
    }
  }

  /** What a synchronous run adds to the trace has that shape. */
  lemma {:induction false} PollShape(api: Api, env: Env, fetch: Api -> Fetched, delay: Duration, fuel: nat)
    requires PollsOnce(fetch)
    ensures var r := PollUntilPreparing(api, env, fetch, delay, fuel);
      |r.api.trace| >= |api.trace| && r.api.trace[..|api.trace|] == api.trace
      && SyncShape(r.api.trace[|api.trace|..], delay)
    decreases fuel
  {
    var r := PollUntilPreparing(api, env, fetch, delay, fuel);
    var n := |api.trace|;
    if fuel == 0 {
      assert r.api.trace[n..] == [];
    } else {
      var f := fetch(api);
      assert f.api.trace == api.trace + [Get("server")];
      if f.err.Fail? {
        assert r.api.trace[n..] == [Get("server")];
      } else if f.info.status == Preparing {
        var url := ActionUrl(ConfirmBase, f.api.sec, f.api.token);
        assert r.api.trace == api.trace + [Get("server"), Get(url)];
        assert r.api.trace[n..] == [Get("server"), Get(url)];
      } else {
        var next := f.api.(trace := f.api.trace + [Sleep(delay)]);
        assert next.trace == api.trace + [Get("server"), Sleep(delay)];
        PollShape(next, env, fetch, delay, fuel - 1);
        var rest := r.api.trace[|next.trace|..];
        assert r.api.trace[n..] == [Get("server"), Sleep(delay)] + rest;
        assert (r.api.trace[n..])[2..] == rest;
      }
    }
  }

  /** A synchronous run that returns `nil` ends with the confirmation, which carries the
      credentials the client holds at the end, i.e. those fetched by the last poll. */
  lemma {:induction false} SyncPassEndsInConfirm(api: Api, env: Env, fetch: Api -> Fetched, delay: Duration, fuel: nat)
    requires PollsOnce(fetch)
    requires PollUntilPreparing(api, env, fetch, delay, fuel).Finished?
    requires PollUntilPreparing(api, env, fetch, delay, fuel).err.Pass?
    ensures var r := PollUntilPreparing(api, env, fetch, delay, fuel);
      |r.api.trace| > |api.trace|
      && r.api.trace[|r.api.trace| - 1] == Get(ActionUrl(ConfirmBase, r.api.sec, r.api.token))
    decreases fuel
  {
    var f := fetch(api);
    if f.info.status != Preparing {
      PollEndsAfter(f.api.(trace := f.api.trace + [Sleep(delay)]), env, fetch, delay, fuel - 1);
      SyncPassEndsInConfirm(f.api.(trace := f.api.trace + [Sleep(delay)]), env, fetch, delay, fuel - 1);
    }
  }

  lemma {:induction false} PollEndsAfter(api: Api, env: Env, fetch: Api -> Fetched, delay: Duration, fuel: nat)
    requires PollsOnce(fetch)
    ensures |PollUntilPreparing(api, env, fetch, delay, fuel).api.trace| >= |api.trace|
    decreases fuel
  {
    if fuel > 0 {
      var f := fetch(api);
      if f.err.Pass? && f.info.status != Preparing {
        PollEndsAfter(f.api.(trace := f.api.trace + [Sleep(delay)]), env, fetch, delay, fuel - 1);
      }
    }
  }

  lemma {:induction false} ConfirmsLast(steps: seq<Step>)
    requires |steps| > 0 && steps[|steps| - 1].Get? && HasPrefix(steps[|steps| - 1].url, ConfirmBase)
    ensures Confirms(steps) >= 1
    decreases |steps|
  {
    if |steps| > 1 {
      ConfirmsLast(steps[1..]);
    }
  }

  /** A synchronous run that returns `nil` sent exactly one confirmation, as its last
      request; every other request was a status poll followed by a sleep. */
  lemma PollConfirmsOnce(api: Api, env: Env, fetch: Api -> Fetched, delay: Duration, fuel: nat)
    requires PollsOnce(fetch)
    requires PollUntilPreparing(api, env, fetch, delay, fuel).Finished?
    requires PollUntilPreparing(api, env, fetch, delay, fuel).err.Pass?
    ensures var r := PollUntilPreparing(api, env, fetch, delay, fuel);
      |r.api.trace| > |api.trace| && r.api.trace[..|api.trace|] == api.trace
      && SyncShape(r.api.trace[|api.trace|..], delay)
      && Confirms(r.api.trace[|api.trace|..]) == 1
      && r.api.trace[|r.api.trace| - 1] == Get(ActionUrl(ConfirmBase, r.api.sec, r.api.token))
  {
    PollShape(api, env, fetch, delay, fuel);
    SyncPassEndsInConfirm(api, env, fetch, delay, fuel);
    var r := PollUntilPreparing(api, env, fetch, delay, fuel);
    var steps := r.api.trace[|api.trace|..];
    assert steps[|steps| - 1] == r.api.trace[|r.api.trace| - 1];
    SyncShapeConfirms(steps, delay);
    ConfirmsLast(steps);
  }
}
