/** The HTTP probe and the checks that read its results (http_check.py). Every answer of the
    network, the browser and the login scripts is an arbitrary input. */
module HttpCheck {
  import opened Options
  import opened Strings

  const MAX_RETRIES: int := 3

  // ----- the environment -----

  datatype Failure = TimedOut | RemoteClosed | BadStatusLine | ResetByPeer | OtherError

  /** One HTTP request of the curl check. */
  datatype Reply = Response(status: int) | Failed(failure: Failure)

  /** One pair of credentials: the login, and its repetition when it seemed to work. An attempt
      that raises an error did not work. */
  datatype Attempt = Attempt(first: bool, again: bool)

  /** What the login scripts find; `kind` is the login type they recognised, and then each pair
      of credentials is tried in turn. */
  datatype Login = ConnectionError | UnknownLogin | Tried(kind: string, attempts: nat -> Attempt)

  const USERS: seq<string> := ["admin", "root", ""]
  const PASSWORDS: seq<string> := ["", "password", "admin", "1234", "Admin"]

  type ErrorCode = x: int | x in {500, 204, 406, 401, 404, 408, 206, -1} witness 500

  /** One look at the page in a browser: well formed with status 200, or not, with another. */
  datatype Page = Good | Bad(code: ErrorCode)

  /** All the answers one turn of the probe loop may ask for. */
  datatype Round = Round(replies: nat -> Reply, login: Login, first: Page, second: Page, currentUrl: string)

  function CodeOf(page: Page): int {
    if page.Good? then 200 else page.code
  }

  // ----- one URL -----

  /** What is kept of a URL after its probe. */
  datatype Entry = Entry(port: int, url: string, loginType: string, curlSuccess: bool,
                         loginSuccess: bool, wellformed: bool, lastStatusCode: int)

  /** A well-formed page was seen only behind a passing request and a passing login. */
  predicate EntryOk(e: Entry) {
    e.wellformed ==> e.curlSuccess && e.loginSuccess && e.lastStatusCode == 200
  }

  predicate EndsWith443(url: string) {
    |url| >= 3 && url[|url| - 3..] == "443"
  }

  predicate IsHttps(url: string) {
    "https" <= url
  }

  /** url.replace("http://", "https://") */
  function ToHttps(url: string): string {
    if url == "" then ""
    else if "http://" <= url then "https://" + ToHttps(url[7..])
    else [url[0]] + ToHttps(url[1..])
  }

  /** Some request of the round got an answer that the probe accepts. */
  ghost predicate PassesCurl(r: Round) {
    exists k: nat :: k <= MAX_RETRIES && (r.replies(k) == Response(200) || r.replies(k) == Response(401))
  }

  lemma VerdictFrom(rounds: seq<Round>, k: nat)
    requires 1 <= k < |rounds| && PassesCurl(rounds[k - 1]) && PassesCurl(rounds[k])
    requires rounds[k].first.Good? && rounds[k].second.Good?
    requires rounds[k].login.Tried? ==> LoggedIn(rounds[k]) && LoggedIn(rounds[k - 1])
    ensures exists j :: VerdictAt(rounds, j)
  {
    assert VerdictAt(rounds, k);
  }

  lemma ReplyPasses(r: Round, status: int)
    requires status == 200 || status == 401
    requires exists k: nat :: k <= MAX_RETRIES && r.replies(k) == Response(status)
    ensures PassesCurl(r)
  {
  }

  predicate Works(a: Attempt) {
    a.first && a.again
  }

  /** The first pair of credentials that works. */
  ghost predicate FirstWorking(attempts: nat -> Attempt, n: nat) {
    n < 15 && Works(attempts(n)) && forall k :: 0 <= k < n ==> !Works(attempts(k))
  }

  ghost predicate LoggedIn(r: Round) {
    r.login.Tried? && exists n :: FirstWorking(r.login.attempts, n)
  }

  /** What must have been observed for a well-formed verdict in turn k: the request passed in
      this turn and the one before, the page looked good twice, and a login, if there was one,
      worked in this turn and the one before. */
  ghost predicate VerdictAt(rounds: seq<Round>, k: nat) {
    && 1 <= k < |rounds| && PassesCurl(rounds[k - 1]) && PassesCurl(rounds[k])
    && rounds[k].first.Good? && rounds[k].second.Good?
    && (rounds[k].login.Tried? ==> LoggedIn(rounds[k]) && LoggedIn(rounds[k - 1]))
  }

  /** The first request is answered with 200, or with 401 by a page behind a login. */
  predicate Answers(r: Round) {
    r.replies(0) == Response(200) || r.replies(0) == Response(401)
  }

  predicate LooksGood(r: Round) {
    r.first.Good? && r.second.Good?
  }

  ghost predicate LetsIn(r: Round) {
    r.login.Tried? && exists n: nat :: n < 15 && Works(r.login.attempts(n))
  }

  /** The page answers, but every attempt to log in fails. */
  ghost predicate RefusesLogin(r: Round) {
    r.replies(0) == Response(200) && r.login.Tried? && forall n: nat :: n < 15 ==> !Works(r.login.attempts(n))
  }

  lemma NoLoginWorks(r: Round)
    ensures RefusesLogin(r) ==>
      r.replies(0) == Response(200) && r.login.Tried? && !exists n :: FirstWorking(r.login.attempts, n)
  {
  }

  ghost predicate LoginFails(rounds: seq<Round>) {
    |rounds| >= 2 && rounds[0].replies(0) == Response(200) && RefusesLogin(rounds[1])
  }

  /** A page that answers twice, needs no login and looks good. */
  ghost predicate OpenPage(rounds: seq<Round>) {
    |rounds| >= 2 && Answers(rounds[0]) && Answers(rounds[1]) && !rounds[1].login.Tried? && LooksGood(rounds[1])
  }

  /** A page that answers three times, lets somebody in twice and then looks good. */
  ghost predicate LoginPage(rounds: seq<Round>) {
    && |rounds| >= 3 && Answers(rounds[0]) && Answers(rounds[1]) && Answers(rounds[2])
    && LetsIn(rounds[1]) && LetsIn(rounds[2]) && LooksGood(rounds[2])
  }

  ghost predicate AllGood(rounds: seq<Round>) {
    OpenPage(rounds) || LoginPage(rounds)
  }

  // ----- one URL as a function of its answers -----

  /** What a URL check keeps while it probes. */
  datatype Url = Url(url: string, user: string, password: string, loginType: string, status: int,
                     curl: bool, login: bool, needed: bool, wellformed: bool, timedout: bool)

  function AfterFailure(status: int, r: Reply): int {
    match r
    case Failed(TimedOut) => 408
    case Failed(RemoteClosed) => 202
    case Failed(BadStatusLine) => 400
    case _ => status
  }

  /** Request k failed and is repeated, with https: after a reset by the peer always; the first
      one also when the URL ends with port 443 and some status is known. */
  predicate Retried(u: Url, replies: nat -> Reply, k: nat) {
    replies(k) == Failed(ResetByPeer)
    || (k == 0 && replies(0).Failed? && EndsWith443(u.url) && AfterFailure(u.status, replies(0)) != -1)
  }

  /** The last of at most four requests. */
  function LastRequest(u: Url, replies: nat -> Reply): (n: nat)
    ensures n <= 3 && (n < 3 ==> !Retried(u, replies, n)) && forall k :: 0 <= k < n ==> Retried(u, replies, k)
  {
    if !Retried(u, replies, 0) then 0
    else if !Retried(u, replies, 1) then 1
    else if !Retried(u, replies, 2) then 2
    else 3
  }

  function Secured(url: string, n: nat): string {
    if n == 0 then url
    else
      var before := Secured(url, n - 1);
      if IsHttps(before) then before else ToHttps(before)
  }

  /** The curl check: a reply sets the status, unless a request has ever timed out. */
  function CurlOutcome(u: Url, replies: nat -> Reply): (Option<int>, Url) {
    var n := LastRequest(u, replies);
    var timedout := u.timedout || replies(0) == Failed(TimedOut) || replies(n) == Failed(TimedOut);
    var reply := if replies(n).Response? then Some(replies(n).status) else None;
    (reply, u.(url := Secured(u.url, n), timedout := timedout,
      status := if reply.Some? && !timedout then reply.value else StatusAfter(u, replies, n)))
  }

  /** The requests made so far: `count` of them, the last to be repeated if `retry`. */
  ghost predicate Requested(u: Url, replies: nat -> Reply, count: int, retry: bool, isSsl: bool,
                            reply: Option<int>, now: Url) {
    && 0 <= count <= 4 && now == u.(url := now.url, timedout := now.timedout, status := now.status)
    && if count == 0 then retry && !isSsl && now == u && reply.None?
       else
         && (forall k :: 0 <= k < count - 1 ==> Retried(u, replies, k))
         && (retry <==> Retried(u, replies, count - 1)) && (isSsl <==> count > 1 || retry)
         && now.url == Secured(u.url, count - 1) && now.status == StatusAfter(u, replies, count - 1)
         && reply == (if replies(count - 1).Response? then Some(replies(count - 1).status) else None)
         && now.timedout == (u.timedout || replies(0) == Failed(TimedOut) || replies(count - 1) == Failed(TimedOut))
  }

  /** The status after request n, all before it having been repeated. */
  function StatusAfter(u: Url, replies: nat -> Reply, n: nat): int {
    var first := AfterFailure(u.status, replies(0));
    if n == 0 then first else AfterFailure(first, replies(n))
  }

  /** One request: whether it is repeated, and what is kept. */
  function NextRequest(now: Url, r: Reply, isSsl: bool): (bool, Url) {
    var next := now.(url := if isSsl && !IsHttps(now.url) then ToHttps(now.url) else now.url,
      timedout := now.timedout || r == Failed(TimedOut), status := AfterFailure(now.status, r));
    var retry := r == Failed(ResetByPeer) || (r.Failed? && !isSsl && EndsWith443(next.url) && next.status != -1);
    (retry, next)
  }

  lemma RequestStep(u: Url, replies: nat -> Reply, count: nat, isSsl: bool, reply: Option<int>, now: Url)
    requires Requested(u, replies, count, true, isSsl, reply, now) && count < 4
    ensures reply.None?
    ensures var (retry, next) := NextRequest(now, replies(count), isSsl);
      Requested(u, replies, count + 1, retry, isSsl || retry,
        if replies(count).Response? then Some(replies(count).status) else None, next)
  {
    hide IsHttps, ToHttps, EndsWith443;
  }

  lemma NoRequestYet(u: Url, replies: nat -> Reply)
    ensures Requested(u, replies, 0, true, false, None, u)
  {
  }

  lemma RequestsDone(u: Url, replies: nat -> Reply, count: nat, retry: bool, isSsl: bool, reply: Option<int>, now: Url)
    requires Requested(u, replies, count, retry, isSsl, reply, now) && count > 0 && (retry ==> count == 4)
    ensures LastRequest(u, replies) == count - 1
    ensures CurlOutcome(u, replies) ==
      (reply, if reply.Some? && !now.timedout then now.(status := reply.value) else now)
  {
    hide IsHttps, ToHttps, EndsWith443;
    var n := LastRequest(u, replies);
    assert n == count - 1;
  }

  /** What the outcome tells of the reply and the status. */
  lemma CurlFacts(u: Url, replies: nat -> Reply)
    ensures var (reply, now) := CurlOutcome(u, replies);
      && (reply.Some? && !now.timedout ==> now.status == reply.value) && (u.timedout ==> now.timedout)
      && (reply.None? ==> now.status in {u.status, 408, 202, 400})
      && (reply.Some? ==> exists k: nat :: k <= MAX_RETRIES && replies(k) == Response(reply.value))
      && (replies(0).Response? ==> reply == Some(replies(0).status) && now.timedout == u.timedout)
      && (replies(0).Response? && now.timedout ==> now.status == u.status)
      && (reply.Some? && now.timedout && !u.timedout ==> now.status == 408)
      && (reply.Some? && now.timedout ==> now.status in {u.status, 408, 202, 400})
  {
    hide Secured, EndsWith443;
    var n := LastRequest(u, replies);
    assert replies(n).Response? ==> n <= MAX_RETRIES;
  }

  /** The first pair of credentials from the k-th on that works. */
  function FirstPair(attempts: nat -> Attempt, k: nat): (r: Option<nat>)
    requires k <= 15
    ensures r.Some? ==> k <= r.value < 15 && Works(attempts(r.value))
    ensures forall i :: k <= i < (if r.Some? then r.value else 15) ==> !Works(attempts(i))
    decreases 15 - k
  {
    if k == 15 then None else if Works(attempts(k)) then Some(k) else FirstPair(attempts, k + 1)
  }

  lemma FirstPairStep(attempts: nat -> Attempt, k: nat)
    requires k <= 15
    ensures k < 15 ==> FirstPair(attempts, k) == if Works(attempts(k)) then Some(k) else FirstPair(attempts, k + 1)
    ensures k == 15 ==> FirstPair(attempts, k) == None
  {
  }

  lemma WorksTwice(a: Attempt)
    ensures Works(a) <==> a.first && a.again
  {
  }

  lemma FirstPairWorks(attempts: nat -> Attempt)
    ensures FirstPair(attempts, 0).Some? <==> exists n :: FirstWorking(attempts, n)
    ensures FirstPair(attempts, 0).Some? ==> FirstWorking(attempts, FirstPair(attempts, 0).value)
  {
    var r := FirstPair(attempts, 0);
    if r.Some? {
      assert FirstWorking(attempts, r.value);
    }
    if n :| FirstWorking(attempts, n) {
      assert r.Some?;
    }
  }

  /** The login check: (logged in, login needed, what is kept). */
  function LoginOutcome(u: Url, login: Login): (bool, bool, Url) {
    match login
    case ConnectionError => (false, false, u)
    case UnknownLogin => (true, false, u)
    case Tried(kind, attempts) =>
      var n := FirstPair(attempts, 0);
      if n.Some? && !u.login then
        (true, true, u.(loginType := kind, user := USERS[n.value / 5], password := PASSWORDS[n.value % 5]))
      else (n.Some?, true, u.(loginType := kind))
  }

  function WebOutcome(u: Url, r: Round): Url {
    u.(wellformed := r.first.Good? && r.second.Good?, status := CodeOf(if r.first.Good? then r.second else r.first))
  }

  /** The login and the looks at the page: (the probe ends here, what is kept). */
  function PageOutcome(u: Url, r: Round): (bool, Url) {
    var (loggedIn, needed, u2) := LoginOutcome(u, r.login);
    if needed && !loggedIn then (true, u2)
    else if !u2.login && needed then (false, u2.(login := true, needed := true))
    else LookOutcome(if u2.login then u2 else u2.(login := true, needed := false), r)
  }

  /** The looks alone. */
  function LookOutcome(u: Url, r: Round): (bool, Url) {
    var now := WebOutcome(u, r);
    if now.status == 401 && r.currentUrl != "" && now.url != r.currentUrl then
      (false, now.(url := r.currentUrl, curl := false, login := false))
    else (true, now)
  }

  /** One turn: likewise. */
  function TurnOutcome(u: Url, r: Round): (bool, Url) {
    var (reply, u1) := CurlOutcome(u, r.replies);
    if reply != Some(200) && reply != Some(401) then (true, u1)
    else if !u1.curl then (false, u1.(curl := true))
    else PageOutcome(u1, r)
  }

  /** What a turn tells, however it goes. */
  lemma TurnFacts(u: Url, r: Round)
    requires !u.wellformed && (u.login ==> u.curl)
    ensures var (exited, now) := TurnOutcome(u, r);
      && (if exited then now.wellformed ==> now.curl && now.login && now.status == 200 else !now.wellformed)
      && (!exited && now.curl ==> PassesCurl(r))
      && (!exited && now.login ==> now.curl && LoggedIn(r))
      && (exited && now.wellformed ==> u.curl && PassesCurl(r) && LooksGood(r) && (r.login.Tried? ==> LoggedIn(r) && u.login))
      && (r.replies(0) == Response(200) && !u.curl ==>
        !exited && now.curl && now.login == u.login && now.timedout == u.timedout)
      && (RefusesLogin(r) && u.curl ==>
        exited && now.curl && !now.wellformed && (!u.timedout ==> now.status == 200))
  {
    hide PassesCurl, FirstWorking, Works, RefusesLogin, CurlOutcome, FirstPair;
    CurlFacts(u, r.replies);
    CurlKeeps(u, r.replies);
    NoLoginWorks(r);
    var reply := CurlOutcome(u, r.replies).0;
    if reply == Some(200) || reply == Some(401) {
      ReplyPasses(r, reply.value);
    }
    if r.login.Tried? {
      FirstPairWorks(r.login.attempts);
    }
  }

  lemma CurlKeeps(u: Url, replies: nat -> Reply)
    ensures var now := CurlOutcome(u, replies).1;
      now == u.(url := now.url, timedout := now.timedout, status := now.status)
  {
  }

  /** The turns one after the other, until one ends the probe. */
  function Turns(u: Url, rounds: seq<Round>): (bool, Url)
    decreases |rounds|
  {
    if rounds == [] then (false, u)
    else
      var (exited, now) := TurnOutcome(u, rounds[0]);
      if exited then (true, now) else Turns(now, rounds[1..])
  }

  lemma AnsweredAtOnce(u: Url, r: Round)
    requires Answers(r)
    ensures var (reply, now) := CurlOutcome(u, r.replies);
      (reply == Some(200) || reply == Some(401)) && now == u.(timedout := now.timedout, status := now.status)
  {
  }

  /** The first answer is only tested again. */
  lemma FirstTurn(u: Url, r: Round)
    requires Answers(r) && !u.curl && !u.login
    ensures var (exited, now) := TurnOutcome(u, r); !exited && now.curl && !now.login
  {
    hide CurlOutcome;
    AnsweredAtOnce(u, r);
  }

  /** So is the first login. */
  lemma LoginTurn(u: Url, r: Round)
    requires Answers(r) && LetsIn(r) && u.curl && !u.login
    ensures var (exited, now) := TurnOutcome(u, r); !exited && now.curl && now.login
  {
    hide CurlOutcome, FirstPair;
    AnsweredAtOnce(u, r);
    SomePairWorks(r.login.attempts);
  }

  lemma SomePairWorks(attempts: nat -> Attempt)
    requires exists n: nat :: n < 15 && Works(attempts(n))
    ensures FirstPair(attempts, 0).Some?
  {
  }

  /** Then the looks at the page decide. */
  lemma LastTurn(u: Url, r: Round)
    requires Answers(r) && u.curl && LooksGood(r)
    requires if r.login.Tried? then u.login && LetsIn(r) else true
    ensures var (exited, now) := TurnOutcome(u, r); exited && now.wellformed && now.curl && now.login && now.status == 200
  {
    hide CurlOutcome, FirstPair;
    AnsweredAtOnce(u, r);
    if r.login.Tried? {
      SomePairWorks(r.login.attempts);
    }
  }

  /** A page behind a login is recognised like any other. */
  lemma RecognisedPage(u: Url, rounds: seq<Round>)
    requires AllGood(rounds) && !u.curl && !u.login
    ensures var (exited, now) := Turns(u, rounds); exited && now.wellformed && now.status == 200
  {
    hide TurnOutcome, Answers, LetsIn, LooksGood;
    FirstTurn(u, rounds[0]);
    var u1 := TurnOutcome(u, rounds[0]).1;
    var rest := rounds[1..];
    assert rest[0] == rounds[1] && Turns(u, rounds) == Turns(u1, rest);
    if OpenPage(rounds) {
      LastTurn(u1, rounds[1]);
    } else {
      LoginTurn(u1, rounds[1]);
      var u2 := TurnOutcome(u1, rounds[1]).1;
      assert rest[1..][0] == rounds[2] && Turns(u1, rest) == Turns(u2, rest[1..]);
      LastTurn(u2, rounds[2]);
    }
  }

  /** What every probe starts from. */
  function Reset(u: Url): Url {
    u.(loginType := "", status := -1, curl := false, login := false, needed := false, wellformed := false)
  }

  function Fresh(ip: string, portText: string): Url {
    Url("http://" + ip + ":" + portText, "", "", "", -1, false, false, false, false, false)
  }

  class URLCheck {
    const port: int
    var url: string
    var user: string
    var password: string
    var loginType: string
    var lastStatusCode: int
    var curlSuccess: bool
    var loginSuccess: bool
    var loginNeeded: bool
    var wellformed: bool
    var timedout: bool

    function State(): Url
      reads this
    {
      Url(url, user, password, loginType, lastStatusCode, curlSuccess, loginSuccess, loginNeeded, wellformed, timedout)
    }

    constructor (ip: string, port: int, portText: string)
      ensures this.port == port && !timedout && State() == Fresh(ip, portText)
    {
      this.port := port;
      url, user, password, loginType := "http://" + ip + ":" + portText, "", "", "";
      lastStatusCode := -1;
      curlSuccess, loginSuccess, loginNeeded, wellformed, timedout := false, false, false, false, false;
    }

    function ToEntry(): Entry
      reads this
    {
      Entry(port, url, loginType, curlSuccess, loginSuccess, wellformed, lastStatusCode)
    }

    /** At most four requests; the last answer counts, and a reply sets the status unless a
        request of this object has ever timed out. */
    method Curlcheck(replies: nat -> Reply) returns (reply: Option<int>)
      modifies this`url, this`timedout, this`lastStatusCode
      ensures reply.Some? && !timedout ==> lastStatusCode == reply.value
      ensures old(timedout) ==> timedout
      ensures reply.None? ==> lastStatusCode in {old(lastStatusCode), 408, 202, 400}
      ensures reply.Some? ==> exists k: nat :: k <= MAX_RETRIES && replies(k) == Response(reply.value)
      ensures replies(0).Response? ==> reply == Some(replies(0).status)
      ensures replies(0).Response? && timedout ==> lastStatusCode == old(lastStatusCode)
      ensures replies(0).Response? ==> timedout == old(timedout)
      ensures reply.Some? && timedout && !old(timedout) ==> lastStatusCode == 408
      ensures reply.Some? && timedout ==> lastStatusCode in {old(lastStatusCode), 408, 202, 400}
      ensures (reply, State()) == CurlOutcome(old(State()), replies)
    {
      hide CurlOutcome;
      CurlFacts(State(), replies);
      reply := Requests(replies);
      if reply.Some? && !timedout {
        lastStatusCode := reply.value;
      }
    }

    /** The requests of the curl check. */
    method Requests(replies: nat -> Reply) returns (reply: Option<int>)
      modifies this`url, this`timedout, this`lastStatusCode
      ensures CurlOutcome(old(State()), replies) ==
        (reply, if reply.Some? && !timedout then State().(status := reply.value) else State())
    {
      hide LastRequest, NextRequest, CurlOutcome, Requested;
      ghost var u := State();
      NoRequestYet(u, replies);
      var count, isSsl, retry := 0, false, true;
      reply := None;
      while retry
        invariant 0 <= count <= MAX_RETRIES + 1 && (count == 0 ==> retry)
        invariant Requested(u, replies, count, retry, isSsl, reply, State())
        decreases MAX_RETRIES + 1 - count, retry
      {
        if count > MAX_RETRIES {
          break;
        }
        RequestStep(u, replies, count, isSsl, reply, State());
        retry := Request(replies(count), isSsl);
        if replies(count).Response? {
          reply := Some(replies(count).status);
        }
        if retry {
          isSsl := true;
        }
        count := count + 1;
      }
      RequestsDone(u, replies, count, retry, isSsl, reply, State());
    }

    /** One of them, with the handling of its failure. */
    method Request(r: Reply, isSsl: bool) returns (retry: bool)
      modifies this`url, this`timedout, this`lastStatusCode
      ensures (retry, State()) == NextRequest(old(State()), r, isSsl)
    {
      hide IsHttps, ToHttps, EndsWith443;
      if isSsl && !IsHttps(url) {
        url := ToHttps(url);
      }
      retry := false;
      match r {
        case Response(_) =>
        case Failed(failure) =>
          match failure {
            case TimedOut => timedout, lastStatusCode := true, 408;
            case RemoteClosed => lastStatusCode := 202;
            case BadStatusLine => lastStatusCode := 400;
            case ResetByPeer => retry := true;
            case OtherError =>
          }
          if lastStatusCode != -1 && !retry && !isSsl && EndsWith443(url) {
            retry := true;
          }
      }
    }

    /** Tries the credentials in order, user by user; once a login has succeeded, the stored
        pair every time. A connection error counts as "no login needed". */
    method Logincheck(login: Login) returns (loggedIn: bool, needed: bool)
      modifies this`user, this`password, this`loginType
      ensures needed <==> login.Tried?
      ensures login.ConnectionError? ==> !loggedIn
      ensures login.UnknownLogin? ==> loggedIn
      ensures login.Tried? ==> (loggedIn <==> exists n :: FirstWorking(login.attempts, n))
      ensures login.Tried? && loggedIn && !loginSuccess ==> exists n: nat ::
        (FirstWorking(login.attempts, n) && user == USERS[n / 5] && password == PASSWORDS[n % 5])
      ensures !(login.Tried? && loggedIn) || loginSuccess ==> user == old(user) && password == old(password)
      ensures loginType == if login.Tried? then login.kind else old(loginType)
      ensures (loggedIn, needed, State()) == LoginOutcome(old(State()), login)
    {
      hide FirstPair, FirstWorking;
      match login {
        case ConnectionError => return false, false;
        case UnknownLogin => return true, false;
        case Tried(kind, attempts) =>
          loginType := kind;
          loggedIn := TryPairs(attempts);
          FirstPairWorks(attempts);
          return loggedIn, true;
      }
    }

    /** The loops of the login check. */
    method TryPairs(attempts: nat -> Attempt) returns (loggedIn: bool)
      modifies this`user, this`password
      ensures loggedIn <==> FirstPair(attempts, 0).Some?
      ensures if loggedIn && !loginSuccess
        then var n := FirstPair(attempts, 0).value; user == USERS[n / 5] && password == PASSWORDS[n % 5]
        else user == old(user) && password == old(password)
    {
      hide FirstPair, Works;
      loggedIn := false;
      for i := 0 to 3
        invariant !loggedIn && user == old(user) && password == old(password)
        invariant FirstPair(attempts, 0) == FirstPair(attempts, 5 * i)
      {
        for j := 0 to 5
          invariant !loggedIn && user == old(user) && password == old(password)
          invariant FirstPair(attempts, 0) == FirstPair(attempts, 5 * i + j)
        {
          var u, p := if loginSuccess then user else USERS[i], if loginSuccess then password else PASSWORDS[j];
          var n := 5 * i + j;
          FirstPairStep(attempts, n);
          WorksTwice(attempts(n));
          loggedIn := attempts(n).first;
          if loggedIn {
            loggedIn := attempts(n).again;
            if !loggedIn {
              continue;
            }
            user, password := u, p;
            assert FirstPair(attempts, 0) == Some(n) && n / 5 == i && n % 5 == j;
            return;
          }
        }
      }
      FirstPairStep(attempts, 15);
    }

    /** A page that looks good is looked at a second time. */
    method Webcheck(first: Page, second: Page, currentUrl: string) returns (ok: bool, retryUrl: string)
      modifies this`lastStatusCode
      ensures ok <==> first.Good? && second.Good?
      ensures lastStatusCode == CodeOf(if first.Good? then second else first)
      ensures retryUrl == if lastStatusCode == 401 then currentUrl else ""
    {
      ok, lastStatusCode := first.Good?, CodeOf(first);
      if ok && lastStatusCode == 200 {
        ok, lastStatusCode := second.Good?, CodeOf(second);
      }
      retryUrl := "";
      if lastStatusCode == 401 {
        retryUrl := currentUrl;
      }
    }

    /** One turn of the probe loop; `exited` means that the loop ends here. */
    method Turn(round: Round) returns (exited: bool)
      requires !wellformed && (loginSuccess ==> curlSuccess)
      modifies this
      ensures if exited then EntryOk(ToEntry()) else !wellformed
      ensures !exited && curlSuccess ==> PassesCurl(round)
      ensures !exited && loginSuccess ==> curlSuccess && LoggedIn(round)
      ensures exited && wellformed ==>
        && old(curlSuccess) && PassesCurl(round) && round.first.Good? && round.second.Good?
        && (round.login.Tried? ==> LoggedIn(round) && old(loginSuccess))
      ensures round.replies(0) == Response(200) && !old(curlSuccess) ==>
        !exited && curlSuccess && loginSuccess == old(loginSuccess) && timedout == old(timedout)
      ensures (exited, State()) == TurnOutcome(old(State()), round)
      ensures RefusesLogin(round) && old(curlSuccess) ==>
        exited && curlSuccess && !wellformed && (!old(timedout) ==> lastStatusCode == 200)
    {
      hide PassesCurl, LoggedIn, RefusesLogin, CurlOutcome, PageOutcome;
      TurnFacts(State(), round);
      var reply := Curlcheck(round.replies);
      if reply.None? || (reply.value != 200 && reply.value != 401) {
        return true;
      }
      if !curlSuccess {
        curlSuccess := true;
        return false;
      }
      exited := LoginAndLook(round);
    }

    /** The part of a turn behind a request that passed twice. */
    method LoginAndLook(round: Round) returns (exited: bool)
      modifies this
      ensures (exited, State()) == PageOutcome(old(State()), round)
    {
      hide FirstWorking, LoginOutcome, LookOutcome;
      var loggedIn, needed := Logincheck(round.login);
      if needed && !loggedIn {
        return true;
      }
      if !loginSuccess {
        loginSuccess, loginNeeded := true, needed;
        if loginNeeded {
          return false;
        }
      }
      exited := Look(round);
    }

    method Look(round: Round) returns (exited: bool)
      modifies this
      ensures (exited, State()) == LookOutcome(old(State()), round)
    {
      var retryUrl;
      wellformed, retryUrl := Webcheck(round.first, round.second, round.currentUrl);
      if |retryUrl| > 0 && url != retryUrl {
        url, curlSuccess, loginSuccess := retryUrl, false, false;
        return false;
      }
      // never so, as each look that is not good comes with another status
      lastStatusCode := if !wellformed && lastStatusCode == 200 then 204 else lastStatusCode;
      return true;
    }

    /** The probe loop, fed one Round a turn. `exited` is false when the answers are used up
        before the loop has ended. */
    method Probe(rounds: seq<Round>) returns (exited: bool, success: bool)
      modifies this
      ensures exited ==> EntryOk(ToEntry())
      ensures exited && wellformed ==> exists k :: VerdictAt(rounds, k)
      ensures AllGood(rounds) ==> exited && wellformed
      ensures (exited, State()) == Turns(Reset(old(State())), rounds)
      ensures LoginFails(rounds) && !old(timedout) ==> exited && curlSuccess && !wellformed && lastStatusCode == 200
      ensures success <==> lastStatusCode != -1
    {
      hide PassesCurl, LoggedIn, VerdictAt, RefusesLogin, TurnOutcome, AllGood;
      curlSuccess, loginSuccess, loginNeeded, wellformed := false, false, false, false;
      loginType, lastStatusCode := "", -1;
      exited := false;
      var i := 0;
      while !exited && i < |rounds|
        invariant 0 <= i <= |rounds|
        invariant if exited then EntryOk(ToEntry()) else !wellformed
        invariant !exited && curlSuccess ==> i >= 1 && PassesCurl(rounds[i - 1])
        invariant !exited && loginSuccess ==> curlSuccess && LoggedIn(rounds[i - 1])
        invariant exited && wellformed ==> exists k :: VerdictAt(rounds, k)
        invariant Turns(Reset(old(State())), rounds) == if exited then (true, State()) else Turns(State(), rounds[i..])
        invariant LoginFails(rounds) && i < 2 ==>
          !exited && !loginSuccess && (curlSuccess <==> i == 1) && timedout == old(timedout)
        invariant LoginFails(rounds) && !old(timedout) && i >= 2 ==>
          exited && curlSuccess && !wellformed && lastStatusCode == 200
        decreases |rounds| - i, !exited
      {
        exited := Turn(rounds[i]);
        if exited && wellformed {
          VerdictFrom(rounds, i);
        }
        i := i + 1;
      }
      success := lastStatusCode != -1;
      assert rounds[|rounds|..] == [];
      if AllGood(rounds) {
        RecognisedPage(Reset(old(State())), rounds);
      }
    }
  }

  // ----- all URLs -----

  /** The order the checks are read in: by port, and by URL within a port. */
  predicate Before(a: Entry, b: Entry) {
    a.port < b.port || (a.port == b.port && LexLe(a.url, b.url))
  }

  predicate InOrder(es: seq<Entry>) {
    forall i, j :: 0 <= i < j < |es| ==> Before(es[i], es[j])
  }

  lemma BeforeOrder(a: Entry, b: Entry, c: Entry)
    ensures Before(a, b) || Before(b, a)
    ensures Before(a, b) && Before(b, c) ==> Before(a, c)
  {
    LexTotal(a.url, b.url);
    if LexLe(a.url, b.url) && LexLe(b.url, c.url) {
      LexTransitive(a.url, b.url, c.url);
    }
  }

  /** The entries of one port and URL, in their order. */
  function WithKey(es: seq<Entry>, port: int, url: string): seq<Entry> {
    if es == [] then []
    else (if es[0].port == port && es[0].url == url then [es[0]] else []) + WithKey(es[1..], port, url)
  }

  /** The result of the two stable sorts, by URL and then by port: it is determined by this. */
  ghost predicate StableSort(es: seq<Entry>, sorted: seq<Entry>) {
    && InOrder(sorted) && multiset(sorted) == multiset(es)
    && forall port, url :: WithKey(sorted, port, url) == WithKey(es, port, url)
  }

  predicate Passing(e: Entry, strict: bool) {
    e.lastStatusCode == 200 && (strict ==> e.wellformed)
  }

  predicate Usable(e: Entry, strict: bool) {
    strict ==> e.wellformed
  }

  predicate NamedLogin(e: Entry) {
    e.loginType != "unknown" && e.loginType != ""
  }

  /** es[k] is the first entry that satisfies p. */
  ghost predicate FirstSuch(es: seq<Entry>, p: Entry -> bool, k: nat) {
    k < |es| && p(es[k]) && forall j :: 0 <= j < k ==> !p(es[j])
  }

  /** The first usable entry with a recognised login, or else the first usable one. */
  ghost predicate Handed(es: seq<Entry>, strict: bool, k: nat) {
    k < |es| &&
    if exists e :: e in es && Usable(e, strict) && NamedLogin(e)
    then FirstSuch(es, e => Usable(e, strict) && NamedLogin(e), k)
    else FirstSuch(es, e => Usable(e, strict), k)
  }

  predicate Probed(e: Entry, ports: seq<(int, string)>) {
    exists j :: 0 <= j < |ports| && ports[j].0 == e.port
  }

  /** Behind some address and port everything is answered well. */
  ghost predicate SomeAllGood(ips: seq<string>, ports: seq<(int, string)>, answers: (nat, nat) -> seq<Round>) {
    exists i, j :: 0 <= i < |ips| && 0 <= j < |ports| && AllGood(answers(i, j))
  }

  // ----- all URLs as a function of their answers -----

  /** The addresses, the ports as number and text, and what comes back at each position. */
  datatype Job = Job(ips: seq<string>, ports: seq<(int, string)>, answers: (nat, nat) -> seq<Round>)

  /** The probe of address i and port j. */
  function UrlRun(job: Job, i: nat, j: nat): (bool, Url)
    requires i < |job.ips| && j < |job.ports|
  {
    Turns(Fresh(job.ips[i], job.ports[j].1), job.answers(i, j))
  }

  /** It is kept when any status is known. */
  function UrlEntries(job: Job, i: nat, j: nat): seq<Entry>
    requires i < |job.ips| && j < |job.ports|
  {
    var u := UrlRun(job, i, j).1;
    if u.status == -1 then []
    else [Entry(job.ports[j].0, u.url, u.loginType, u.curl, u.login, u.wellformed, u.status)]
  }

  function PortEntries(job: Job, i: nat, j: nat): seq<Entry>
    requires i < |job.ips| && j <= |job.ports|
  {
    if j == 0 then [] else PortEntries(job, i, j - 1) + UrlEntries(job, i, j - 1)
  }

  /** What is kept of the first i addresses, with all ports. */
  function IpEntries(job: Job, i: nat): seq<Entry>
    requires i <= |job.ips|
  {
    if i == 0 then [] else IpEntries(job, i - 1) + PortEntries(job, i - 1, |job.ports|)
  }

  /** The probe ends and finds no well-formed page. */
  predicate PassedOver(job: Job, i: nat, j: nat)
    requires i < |job.ips| && j < |job.ports|
  {
    UrlRun(job, i, j).0 && !UrlRun(job, i, j).1.wellformed
  }

  /** Everything before address i and port j, in the order of the probe, is passed over. */
  ghost predicate AllPassedOver(job: Job, i: nat, j: nat) {
    forall k: nat, l: nat :: k < |job.ips| && l < |job.ports| && (k < i || (k == i && l < j)) ==> PassedOver(job, k, l)
  }

  lemma EntriesStep(job: Job, i: nat, j: nat)
    requires i < |job.ips| && j < |job.ports|
    ensures PortEntries(job, i, j + 1) == PortEntries(job, i, j) + UrlEntries(job, i, j)
    ensures AllPassedOver(job, i, j) && PassedOver(job, i, j) ==> AllPassedOver(job, i, j + 1)
  {
    hide PassedOver;
  }

  lemma NextAddress(job: Job, i: nat)
    requires i < |job.ips|
    ensures IpEntries(job, i + 1) == IpEntries(job, i) + PortEntries(job, i, |job.ports|)
    ensures PortEntries(job, i, 0) == []
    ensures AllPassedOver(job, i, |job.ports|) ==> AllPassedOver(job, i + 1, 0)
  {
    hide PassedOver;
  }

  lemma NothingYet(job: Job)
    ensures IpEntries(job, 0) == [] && AllPassedOver(job, 0, 0)
  {
  }

  lemma StopsAt(job: Job, fullTimeout: bool, i: nat, j: nat, r: Option<bool>, entries: seq<Entry>)
    requires EndsAt(job, i, j, r, entries)
    ensures Ends(job, fullTimeout, r, entries)
  {
    hide PassedOver, UrlRun, PortEntries, IpEntries;
    assert i < |job.ips| && j < |job.ports| && !PassedOver(job, i, j);
  }

  lemma StopsBehind(job: Job, fullTimeout: bool, r: Option<bool>, entries: seq<Entry>)
    requires AllPassedOver(job, |job.ips|, 0)
    requires entries == IpEntries(job, |job.ips|) && r == Some(!fullTimeout && entries != [])
    ensures Ends(job, fullTimeout, r, entries)
  {
    hide PassedOver, IpEntries;
    assert forall i: nat, j: nat :: i < |job.ips| && j < |job.ports| ==> PassedOver(job, i, j);
  }

  /** How a probe ends: at the first address and port that is not passed over, because its page
      is well formed or because its own probe never ends; or behind the last one. */
  ghost predicate Ends(job: Job, fullTimeout: bool, r: Option<bool>, entries: seq<Entry>) {
    if forall i: nat, j: nat :: i < |job.ips| && j < |job.ports| ==> PassedOver(job, i, j) then
      entries == IpEntries(job, |job.ips|) && r == Some(!fullTimeout && entries != [])
    else
      exists i: nat, j: nat :: EndsAt(job, i, j, r, entries)
  }

  ghost predicate EndsAt(job: Job, i: nat, j: nat, r: Option<bool>, entries: seq<Entry>) {
    && i < |job.ips| && j < |job.ports| && AllPassedOver(job, i, j) && !PassedOver(job, i, j)
    && if UrlRun(job, i, j).0 then r == Some(true) && entries == IpEntries(job, i) + PortEntries(job, i, j + 1)
       else r == None && entries == IpEntries(job, i) + PortEntries(job, i, j)
  }

  /** Everything before some address and port is passed over, and that one is answered well. */
  ghost predicate FirstAllGood(job: Job) {
    exists i: nat, j: nat :: AllGoodAt(job, i, j) && AllPassedOver(job, i, j)
  }

  ghost predicate AllGoodAt(job: Job, i: nat, j: nat) {
    i < |job.ips| && j < |job.ports| && AllGood(job.answers(i, j))
  }

  /** Then the probe ends there and finds it. */
  lemma FirstAllGoodDecides(job: Job, fullTimeout: bool, r: Option<bool>, entries: seq<Entry>)
    ensures FirstAllGood(job) && Ends(job, fullTimeout, r, entries) ==> r == Some(true)
  {
    hide Turns, PortEntries, IpEntries, AllGood;
    if FirstAllGood(job) && Ends(job, fullTimeout, r, entries) {
      var i: nat, j: nat :| AllGoodAt(job, i, j) && AllPassedOver(job, i, j);
      RecognisedPage(Fresh(job.ips[i], job.ports[j].1), job.answers(i, j));
      assert !PassedOver(job, i, j);
      var k: nat, l: nat :| EndsAt(job, k, l, r, entries);
      assert k == i && l == j;
    }
  }

  class HTTPInteractionCheck {
    const fullTimeout: bool
    var urlchecks: seq<Entry>

    constructor (fullTimeout: bool)
      ensures this.fullTimeout == fullTimeout && urlchecks == []
    {
      this.fullTimeout := fullTimeout;
      urlchecks := [];
    }

    /** Probes every address and port, up to the first well-formed page; answers(i, j) is what
        comes back at address i and port j. None stands for a probe that never ends. */
    method Probe(ips: seq<string>, ports: seq<(int, string)>, answers: (nat, nat) -> seq<Round>)
      returns (r: Option<bool>)
      modifies this
      ensures forall e :: e in urlchecks ==> EntryOk(e) && e.lastStatusCode != -1 && Probed(e, ports)
      ensures r.Some? && SomeAllGood(ips, ports, answers) ==> exists e :: e in urlchecks && e.wellformed
      ensures forall i :: 0 <= i < |urlchecks| - 1 ==> !urlchecks[i].wellformed
      ensures r.Some? ==>
        (r.value <==> (exists e :: e in urlchecks && e.wellformed) || (!fullTimeout && urlchecks != []))
      ensures Ends(Job(ips, ports, answers), fullTimeout, r, urlchecks)
      ensures FirstAllGood(Job(ips, ports, answers)) ==> r == Some(true)
    {
      hide AllGood, Turns, FirstAllGood, PortEntries, IpEntries, AllPassedOver, Ends;
      ghost var job := Job(ips, ports, answers);
      urlchecks := [];
      NothingYet(job);
      for i := 0 to |ips|
        invariant forall e :: e in urlchecks ==>
          EntryOk(e) && e.lastStatusCode != -1 && !e.wellformed && Probed(e, ports)
        invariant forall k, l :: 0 <= k < i && 0 <= l < |ports| ==> !AllGood(answers(k, l))
        invariant AllPassedOver(job, i, 0) && urlchecks == IpEntries(job, i)
      {
        NextAddress(job, i);
        for j := 0 to |ports|
          invariant forall e :: e in urlchecks ==>
            EntryOk(e) && e.lastStatusCode != -1 && !e.wellformed && Probed(e, ports)
          invariant forall l :: 0 <= l < j ==> !AllGood(answers(i, l))
          invariant AllPassedOver(job, i, j) && urlchecks == IpEntries(job, i) + PortEntries(job, i, j)
        {
          EntriesStep(job, i, j);
          var uc := new URLCheck(ips[i], ports[j].0, ports[j].1);
          var exited, success := uc.Probe(answers(i, j));
          assert (exited, uc.State()) == UrlRun(job, i, j);
          if !exited {
            StopsAt(job, fullTimeout, i, j, None, urlchecks);
            FirstAllGoodDecides(job, fullTimeout, None, urlchecks);
            return None;
          }
          var e := uc.ToEntry();
          ghost var was := urlchecks;
          if success {
            urlchecks := urlchecks + [e];
            assert urlchecks[|was|] == e;
          }
          if uc.wellformed {
            StopsAt(job, fullTimeout, i, j, Some(true), urlchecks);
            FirstAllGoodDecides(job, fullTimeout, Some(true), urlchecks);
            return Some(true);
          }
        }
      }
      r := Some(!fullTimeout && |urlchecks| > 0);
      StopsBehind(job, fullTimeout, r, urlchecks);
      FirstAllGoodDecides(job, fullTimeout, r, urlchecks);
    }

    method Sort()
      modifies this
      ensures StableSort(old(urlchecks), urlchecks)
    {
      hide StableSort, Sorting;
      var todo := urlchecks;
      var sorted: seq<Entry> := [];
      StartSorting(urlchecks);
      while todo != []
        invariant Sorting(urlchecks, sorted, todo) && urlchecks == old(urlchecks)
        decreases |todo|
      {
        SortingStep(urlchecks, sorted, todo);
        sorted := Insert(sorted, todo[0]);
        todo := todo[1..];
      }
      SortingDone(urlchecks, sorted);
      urlchecks := sorted;
    }

    /** (success, wellformed, connected) over the entries in order. */
    method Check(errored: bool, strict: bool) returns (success: bool, wellformed: bool, connected: bool)
      modifies this
      ensures urlchecks == old(urlchecks) || StableSort(old(urlchecks), urlchecks)
      ensures errored ==> !success && !wellformed && !connected
      ensures !errored ==> (success <==> exists e :: e in urlchecks && Passing(e, strict))
      ensures success ==> StableSort(old(urlchecks), urlchecks) && exists k: nat ::
        (FirstSuch(urlchecks, e => Passing(e, strict), k)
         && wellformed == urlchecks[k].wellformed && connected == urlchecks[k].curlSuccess)
      ensures !success ==> !wellformed
      ensures !success && !errored ==>
        (connected <==> exists e :: e in urlchecks && e.lastStatusCode != 200 && e.curlSuccess)
    {
      connected := false;
      if !errored && urlchecks != [] {
        Sort();
        for k := 0 to |urlchecks|
          invariant forall j :: 0 <= j < k ==> !Passing(urlchecks[j], strict)
          invariant connected <==> exists j :: 0 <= j < k && urlchecks[j].lastStatusCode != 200 && urlchecks[j].curlSuccess
        {
          var uc := urlchecks[k];
          if uc.lastStatusCode == 200 {
            if strict {
              if uc.wellformed {
                assert FirstSuch(urlchecks, e => Passing(e, strict), k);
                return true, uc.wellformed, uc.curlSuccess;
              }
            } else {
              assert FirstSuch(urlchecks, e => Passing(e, strict), k);
              return true, uc.wellformed, uc.curlSuccess;
            }
          } else if uc.curlSuccess {
            connected := true;
          }
        }
      }
      return false, false, connected;
    }

    /** The entry whose address and credentials are handed out. */
    method GetWorkingIpSet(strict: bool) returns (r: Option<Entry>)
      modifies this
      ensures urlchecks == old(urlchecks) || StableSort(old(urlchecks), urlchecks)
      ensures r.None? <==> forall e :: e in urlchecks ==> !Usable(e, strict)
      ensures r.Some? ==> StableSort(old(urlchecks), urlchecks)
      ensures r.Some? ==> exists k: nat :: Handed(urlchecks, strict, k) && r == Some(urlchecks[k])
    {
      r := None;
      var fallback: Option<nat> := None;
      if urlchecks != [] {
        Sort();
        for k := 0 to |urlchecks|
          invariant fallback.None? ==> forall j :: 0 <= j < k ==> !Usable(urlchecks[j], strict)
          invariant fallback.Some? ==> FirstSuch(urlchecks, e => Usable(e, strict), fallback.value)
          invariant forall j :: 0 <= j < k ==> !(Usable(urlchecks[j], strict) && NamedLogin(urlchecks[j]))
        {
          var uc := urlchecks[k];
          if !strict || uc.wellformed {
            if fallback.None? {
              fallback := Some(k);
            }
            if uc.loginType == "unknown" || uc.loginType == "" {
              continue;
            }
            assert FirstSuch(urlchecks, e => Usable(e, strict) && NamedLogin(e), k);
            return Some(uc);
          }
        }
        if fallback.Some? {
          r := Some(urlchecks[fallback.value]);
        }
      }
    }
  }

  /** Behind everything that may stand before it. */
  function Insert(s: seq<Entry>, e: Entry): seq<Entry> {
    if s == [] || !Before(s[0], e) then [e] + s else [s[0]] + Insert(s[1..], e)
  }

  lemma {:induction false} InsertContents(s: seq<Entry>, e: Entry)
    ensures multiset(Insert(s, e)) == multiset(s) + multiset{e}
    ensures forall x :: x in Insert(s, e) <==> x == e || x in s
  {
    if s != [] && Before(s[0], e) {
      InsertContents(s[1..], e);
      assert s == [s[0]] + s[1..];
    }
  }

  lemma {:induction false} InsertInOrder(s: seq<Entry>, e: Entry)
    requires InOrder(s)
    ensures InOrder(Insert(s, e))
  {
    hide Before;
    if s != [] {
      if !Before(s[0], e) {
        forall k | 0 <= k < |s| ensures Before(e, s[k]) {
          BeforeOrder(s[0], e, e);
          if k > 0 {
            BeforeOrder(e, s[0], s[k]);
          }
        }
      } else {
        InsertInOrder(s[1..], e);
        InsertContents(s[1..], e);
        forall x | x in Insert(s[1..], e) ensures Before(s[0], x) {
          if x in s[1..] {
            var k :| 0 <= k < |s[1..]| && s[1..][k] == x;
            assert s[k + 1] == x;
          }
        }
      }
    }
  }

  lemma WithKeyCons(x: Entry, es: seq<Entry>, port: int, url: string)
    ensures WithKey([x] + es, port, url) ==
      (if x.port == port && x.url == url then [x] else []) + WithKey(es, port, url)
  {
    assert ([x] + es)[1..] == es;
  }

  lemma {:induction false} NoneWithKey(s: seq<Entry>, port: int, url: string)
    requires forall x :: x in s ==> x.port != port || x.url != url
    ensures WithKey(s, port, url) == []
  {
    if s != [] {
      assert s[0] in s;
      NoneWithKey(s[1..], port, url);
    }
  }

  lemma NothingWithKeyAfter(s: seq<Entry>, e: Entry)
    requires InOrder(s) && s != [] && !Before(s[0], e)
    ensures WithKey(s, e.port, e.url) == []
  {
    LexTotal(e.url, e.url);
    forall x | x in s ensures x.port != e.port || x.url != e.url {
      var k :| 0 <= k < |s| && s[k] == x;
      assert k > 0 ==> Before(s[0], x);
    }
    NoneWithKey(s, e.port, e.url);
  }

  lemma {:induction false} InsertStable(s: seq<Entry>, e: Entry, port: int, url: string)
    requires InOrder(s)
    ensures WithKey(Insert(s, e), port, url) ==
      WithKey(s, port, url) + if e.port == port && e.url == url then [e] else []
  {
    hide Before, WithKey;
    assert WithKey([], port, url) == [] by { NoneWithKey([], port, url); }
    if s == [] {
      WithKeyCons(e, [], port, url);
      assert [e] + [] == [e];
    } else {
      assert s == [s[0]] + s[1..];
      WithKeyCons(s[0], s[1..], port, url);
      if !Before(s[0], e) {
        WithKeyCons(e, s, port, url);
        if e.port == port && e.url == url {
          NothingWithKeyAfter(s, e);
        }
      } else {
        InsertStable(s[1..], e, port, url);
        WithKeyCons(s[0], Insert(s[1..], e), port, url);
      }
    }
  }

  /** Half way: `sorted` is in order, and with `todo` behind it nothing is lost or reordered. */
  ghost predicate Sorting(es: seq<Entry>, sorted: seq<Entry>, todo: seq<Entry>) {
    && InOrder(sorted) && multiset(sorted) + multiset(todo) == multiset(es)
    && forall port, url :: WithKey(sorted, port, url) + WithKey(todo, port, url) == WithKey(es, port, url)
  }

  lemma StartSorting(es: seq<Entry>)
    ensures Sorting(es, [], es)
  {
    forall port, url ensures WithKey([], port, url) + WithKey(es, port, url) == WithKey(es, port, url) {
    }
  }

  lemma SortingStep(es: seq<Entry>, sorted: seq<Entry>, todo: seq<Entry>)
    requires Sorting(es, sorted, todo) && todo != []
    ensures Sorting(es, Insert(sorted, todo[0]), todo[1..])
  {
    hide Before, Insert;
    var now := Insert(sorted, todo[0]);
    assert todo == [todo[0]] + todo[1..];
    InsertInOrder(sorted, todo[0]);
    InsertContents(sorted, todo[0]);
    forall port, url ensures WithKey(now, port, url) + WithKey(todo[1..], port, url) == WithKey(es, port, url) {
      InsertStable(sorted, todo[0], port, url);
      assert WithKey(sorted, port, url) + WithKey(todo, port, url) == WithKey(es, port, url);
    }
  }

  lemma SortingDone(es: seq<Entry>, sorted: seq<Entry>)
    requires Sorting(es, sorted, [])
    ensures StableSort(es, sorted)
  {
    hide Before;
    forall port, url ensures WithKey(sorted, port, url) == WithKey(es, port, url) {
      assert WithKey(sorted, port, url) + WithKey([], port, url) == WithKey(es, port, url);
    }
  }

  /** How the rehosting loop uses both: it reports success exactly when some page was well
      formed; then the strict check says (True, True, True), and the address handed out
      afterwards is that of a well-formed page. */
  method ProbeAndCheck(checker: HTTPInteractionCheck, ips: seq<string>, ports: seq<(int, string)>,
                       answers: (nat, nat) -> seq<Round>)
    returns (httpSuccess: Option<bool>, working: Option<Entry>)
    modifies checker
    ensures httpSuccess.Some? ==>
      (httpSuccess.value <==> exists e :: e in checker.urlchecks && e.wellformed)
    ensures httpSuccess.Some? && SomeAllGood(ips, ports, answers) ==> httpSuccess.value
    ensures FirstAllGood(Job(ips, ports, answers)) ==> httpSuccess == Some(true)
    ensures httpSuccess == Some(true) ==> working.Some? && working.value.wellformed && EntryOk(working.value)
  {
    hide Ends, FirstAllGood, AllGood;
    working := None;
    GoodIsSomewhere(Job(ips, ports, answers));
    var probed := checker.Probe(ips, ports, answers);
    if probed.None? {
      return None, None;
    }
    httpSuccess := Some(false);
    if probed.value {
      ghost var found := checker.urlchecks;
      var success, wellformed, connected := checker.Check(false, true);
      SameElements(found, checker.urlchecks);
      if success && wellformed && connected {
        httpSuccess := Some(true);
      }
      ghost var checks := checker.urlchecks;
      working := checker.GetWorkingIpSet(true);
      SameElements(checks, checker.urlchecks);
    }
  }

  /** A page that answers 200 and refuses every login: the strict check reports neither
      success nor a connection, since it looks at the connection under another status only. */
  method RefusedLoginLooksUnconnected(ip: string, port: int, portText: string, rounds: seq<Round>)
    returns (e: Entry, success: bool, wellformed: bool, connected: bool)
    requires LoginFails(rounds)
    ensures e.lastStatusCode == 200 && e.curlSuccess
    ensures !success && !wellformed && !connected
  {
    hide LoginFails, StableSort;
    var uc := new URLCheck(ip, port, portText);
    var exited, answered := uc.Probe(rounds);
    e := uc.ToEntry();
    var checker := new HTTPInteractionCheck(false);
    checker.urlchecks := [e];
    success, wellformed, connected := checker.Check(false, true);
    SameEntries([e], checker.urlchecks);
  }

  lemma SameEntries(es: seq<Entry>, sorted: seq<Entry>)
    requires es == sorted || StableSort(es, sorted)
    ensures forall e :: e in sorted <==> e in es
  {
    SameElements(es, sorted);
  }

  lemma GoodIsSomewhere(job: Job)
    ensures FirstAllGood(job) ==> SomeAllGood(job.ips, job.ports, job.answers)
  {
    hide AllGood;
    if FirstAllGood(job) {
      var i: nat, j: nat :| AllGoodAt(job, i, j) && AllPassedOver(job, i, j);
    }
  }

  lemma SameElements(a: seq<Entry>, b: seq<Entry>)
    requires multiset(a) == multiset(b)
    ensures forall e :: e in a <==> e in b
  {
    forall e ensures e in a <==> e in b {
      assert e in a <==> e in multiset(a);
      assert e in b <==> e in multiset(b);
    }
  }
}
