/** What the steps of the HTTP probe do with each kind of answer. */
module HttpLaws {
  import opened Options
  import opened Strings
  import opened HttpCheck

  // ----- one request after the other -----

  /** A reset by the peer is followed by a request over https. */
  lemma ResetIsRetried(u: Url, replies: nat -> Reply, host: string, status: int)
    requires u.url == "http://" + host && !Contains(host, "http://") && !u.timedout
    requires replies(0) == Failed(ResetByPeer) && replies(1) == Response(status)
    ensures CurlOutcome(u, replies) == (Some(status), u.(url := "https://" + host, status := status))
  {
    Secure(host);
    assert !IsHttps(u.url) by {
      assert u.url[4] == ':';
    }
    assert Secured(u.url, 0) == u.url;
    assert Secured(u.url, 1) == ToHttps(u.url);
  }

  /** Only http:// is rewritten. */
  lemma Secure(host: string)
    requires !Contains(host, "http://")
    ensures ToHttps("http://" + host) == "https://" + host && ToHttps(host) == host
  {
    NothingToRewrite(host);
    assert ("http://" + host)[7..] == host;
  }

  lemma {:induction false} NothingToRewrite(s: string)
    requires !Contains(s, "http://")
    ensures ToHttps(s) == s
  {
    if s != "" {
      forall k | 0 <= k <= |s[1..]| - |"http://"| ensures !("http://" <= s[1..][k..]) {
        assert s[1..][k..] == s[k + 1..];
      }
      NothingToRewrite(s[1..]);
      assert s[0..] == s && !("http://" <= s);
      assert s == [s[0]] + s[1..];
    }
  }

  /** Without a reset and without port 443 the first request is the last. Its failure sets the
      status; after a time-out no reply sets it any more. */
  lemma OneRequest(u: Url, replies: nat -> Reply)
    requires |u.url| < 3 || u.url[|u.url| - 3..] != "443"
    ensures replies(0) == Failed(TimedOut) ==> CurlOutcome(u, replies) == (None, u.(timedout := true, status := 408))
    ensures replies(0) == Failed(RemoteClosed) ==> CurlOutcome(u, replies) == (None, u.(status := 202))
    ensures replies(0) == Failed(BadStatusLine) ==> CurlOutcome(u, replies) == (None, u.(status := 400))
    ensures replies(0) == Failed(OtherError) ==> CurlOutcome(u, replies) == (None, u)
    ensures replies(0).Response? && !u.timedout ==>
      CurlOutcome(u, replies) == (Some(replies(0).status), u.(status := replies(0).status))
    ensures replies(0).Response? && u.timedout ==> CurlOutcome(u, replies) == (Some(replies(0).status), u)
  {
    assert Secured(u.url, 0) == u.url;
  }

  /** On port 443 a failed first request is repeated; a failed second one is not, unless reset. */
  lemma SecondChance(u: Url, replies: nat -> Reply)
    requires |u.url| >= 3 && u.url[|u.url| - 3..] == "443" && "https" <= u.url
    requires replies(0) == Failed(TimedOut) || replies(0) == Failed(RemoteClosed) || replies(0) == Failed(BadStatusLine)
    ensures replies(1).Response? ==> CurlOutcome(u, replies).0 == Some(replies(1).status)
    ensures replies(1).Failed? && replies(1) != Failed(ResetByPeer) ==> CurlOutcome(u, replies).0 == None
    ensures replies(0) == Failed(TimedOut) ==> CurlOutcome(u, replies).1.timedout
  {
  }

  /** There are at most four requests. */
  lemma FourResets(u: Url, replies: nat -> Reply)
    requires forall k :: 0 <= k < 4 ==> replies(k) == Failed(ResetByPeer)
    ensures CurlOutcome(u, replies).0 == None && CurlOutcome(u, replies).1.status == u.status
  {
  }

  // ----- one turn after the other -----

  /** Any other status than 200 and 401 ends the probe. */
  lemma OtherStatusEnds(u: Url, r: Round, status: int)
    requires r.replies(0) == Response(status) && status != 200 && status != 401 && !u.timedout
    ensures TurnOutcome(u, r) == (true, u.(status := status))
  {
    assert Secured(u.url, 0) == u.url;
  }

  /** So does no reply at all. */
  lemma NoReplyEnds(u: Url, r: Round)
    requires CurlOutcome(u, r.replies).0.None?
    ensures TurnOutcome(u, r) == (true, CurlOutcome(u, r.replies).1)
  {
  }

  /** The first good answer, and the first login, are only tested again. */
  lemma RetestTable(u: Url, r: Round)
    requires (r.replies(0) == Response(200) || r.replies(0) == Response(401)) && !u.timedout
    ensures !u.curl ==> TurnOutcome(u, r) == (false, u.(status := r.replies(0).status, curl := true))
    ensures u.curl && !u.login && LetsIn(r) ==> !TurnOutcome(u, r).0 && TurnOutcome(u, r).1.login
    ensures u.curl && RefusesLogin(r) ==> TurnOutcome(u, r).0 && TurnOutcome(u, r).1.wellformed == u.wellformed
  {
    hide FirstPair;
    assert Secured(u.url, 0) == u.url;
    if LetsIn(r) {
      SomePairWorks(r.login.attempts);
    }
  }

  /** Behind them the page is looked at: a good look is repeated and the second one counts; a 401
      at another URL starts the tests again there. */
  lemma LookTable(u: Url, r: Round)
    requires u.curl && u.login && !r.login.Tried?
    ensures r.first.Good? && r.second.Good? ==> PageOutcome(u, r) == (true, u.(wellformed := true, status := 200))
    ensures r.first.Good? && r.second == Bad(404) ==> PageOutcome(u, r) == (true, u.(wellformed := false, status := 404))
    ensures r.first == Bad(406) ==> PageOutcome(u, r) == (true, u.(wellformed := false, status := 406))
    ensures r.first == Bad(401) && r.currentUrl != "" && r.currentUrl != u.url ==>
      PageOutcome(u, r) == (false, u.(wellformed := false, status := 401, url := r.currentUrl, curl := false, login := false))
    ensures r.first == Bad(401) && (r.currentUrl == "" || r.currentUrl == u.url) ==>
      PageOutcome(u, r) == (true, u.(wellformed := false, status := 401))
  {
  }

  /** The credentials in the order in which they are tried; a stored pair stays. */
  lemma CredentialTable(u: Url, kind: string, attempts: nat -> Attempt, n: nat)
    requires FirstWorking(attempts, n)
    ensures var table := [("admin", ""), ("admin", "password"), ("admin", "admin"), ("admin", "1234"), ("admin", "Admin"),
        ("root", ""), ("root", "password"), ("root", "admin"), ("root", "1234"), ("root", "Admin"),
        ("", ""), ("", "password"), ("", "admin"), ("", "1234"), ("", "Admin")];
      LoginOutcome(u, Tried(kind, attempts)) ==
        (true, true, if u.login then u.(loginType := kind)
          else u.(loginType := kind, user := table[n].0, password := table[n].1))
  {
    hide FirstPair;
    FirstPairWorks(attempts);
    FirstIs(attempts, n, FirstPair(attempts, 0).value);
  }

  lemma FirstIs(attempts: nat -> Attempt, m: nat, n: nat)
    requires FirstWorking(attempts, m) && FirstWorking(attempts, n)
    ensures m == n
  {
    assert !(m < n) && !(n < m);
  }

  /** A pair works only when the login succeeds twice; no recognised login needs none. */
  lemma LoginTable(u: Url, kind: string, attempts: nat -> Attempt)
    requires forall n :: 0 <= n < 15 ==> attempts(n) != Attempt(true, true)
    ensures LoginOutcome(u, Tried(kind, attempts)) == (false, true, u.(loginType := kind))
    ensures LoginOutcome(u, UnknownLogin) == (true, false, u) && LoginOutcome(u, ConnectionError) == (false, false, u)
  {
    hide FirstPair;
    assert forall n: nat :: n < 15 && attempts(n).first && attempts(n).again ==> attempts(n) == Attempt(true, true);
    FirstPairWorks(attempts);
  }

  // ----- the readers of the results -----

  lemma EntryTable(e: Entry)
    ensures Passing(e, true) <==> e.lastStatusCode == 200 && e.wellformed
    ensures Passing(e, false) <==> e.lastStatusCode == 200
    ensures (Usable(e, true) <==> e.wellformed) && Usable(e, false)
    ensures NamedLogin(e) <==> e.loginType !in ["unknown", ""]
  {
  }

  /** Entries are read by port; entries of one port by the first difference of their URLs. */
  lemma OrderTable(a: Entry, b: Entry)
    ensures a.port < b.port ==> Before(a, b) && !Before(b, a)
    ensures forall s, c: char, x, d: char, y ::
      a.port == b.port && a.url == s + [c] + x && b.url == s + [d] + y && c < d ==> Before(a, b) && !Before(b, a)
  {
    forall s, c: char, x, d: char, y | a.url == s + [c] + x && b.url == s + [d] + y && c < d
      ensures LexLe(a.url, b.url) && !LexLe(b.url, a.url)
    {
      LexFirstDifference(s, c, x, d, y);
    }
  }

  /** A new URL check, and what each probe of it starts from. */
  lemma FreshTable(ip: string, port: string, u: Url)
    ensures Fresh(ip, port) == Url("http://" + ip + ":" + port, "", "", "", -1, false, false, false, false, false)
    ensures Reset(u) == Url(u.url, u.user, u.password, "", -1, false, false, false, false, u.timedout)
  {
  }

  /** A router with basic authentication: it answers 401 throughout, lets one of the fifteen
      pairs in, and its page looks good. The rehosting loop reports success. */
  method BasicAuthentication(ip: string, rounds: seq<Round>) returns (success: Option<bool>, working: Option<Entry>)
    requires |rounds| == 3 && forall k :: 0 <= k < 3 ==> rounds[k].replies(0) == Response(401)
    requires forall k :: 1 <= k < 3 ==> rounds[k].login.Tried? && rounds[k].login.attempts(7) == Attempt(true, true)
    requires rounds[2].first.Good? && rounds[2].second.Good?
    ensures success == Some(true) && working.Some? && working.value.wellformed && working.value.lastStatusCode == 200
  {
    hide Ends, Turns;
    var checker := new HTTPInteractionCheck(false);
    var ips, ports, answers := [ip], [(80, "80")], (i: nat, j: nat) => rounds;
    assert Works(rounds[1].login.attempts(7)) && Works(rounds[2].login.attempts(7));
    assert LoginPage(rounds) && AllGoodAt(Job(ips, ports, answers), 0, 0);
    NothingYet(Job(ips, ports, answers));
    success, working := ProbeAndCheck(checker, ips, ports, answers);
  }
}
