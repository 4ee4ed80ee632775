/** The leased lock over a shared Redis key (RedisLock). Times are in milliseconds. The server
    runs SET NX EX and the release script atomically and drops a key at its deadline. */
module RedisLock {
  import opened Options

  const LEASE: nat := 360_000
  const TIMEOUT: nat := 360_000
  const POLL: nat := 500

  datatype Key = Key(value: string, deadline: nat)

  datatype Server = Server(key: Option<Key>, now: nat)

  predicate Live(s: Server) {
    s.key.Some? && s.now < s.key.value.deadline
  }

  predicate HeldBy(s: Server, value: string) {
    Live(s) && s.key.value.value == value
  }

  /** SET key value NX EX. */
  function SetNx(s: Server, value: string): Server {
    if Live(s) then s else s.(key := Some(Key(value, s.now + LEASE)))
  }

  /** The release script: delete the key if it holds this value. */
  function CompareAndDelete(s: Server, value: string): Server {
    if HeldBy(s, value) then s.(key := None) else s
  }

  // ----- the client object -----

  /** What one client asks of the server, and its waiting. */
  datatype Call = TrySet(value: string, ok: bool) | Wait(ms: nat) | Compare(value: string)

  class Redis {
    var state: Server
    ghost var calls: seq<Call>  // made through this object

    constructor (state: Server)
      ensures this.state == state && calls == []
    {
      this.state, calls := state, [];
    }

    method Set(value: string) returns (ok: bool)
      modifies this
      ensures ok <==> !Live(old(state))
      ensures state == SetNx(old(state), value)
      ensures calls == old(calls) + [TrySet(value, ok)]
    {
      ok := !Live(state);
      if ok {
        state := state.(key := Some(Key(value, state.now + LEASE)));
      }
      calls := calls + [TrySet(value, ok)];
    }

    method Eval(value: string)
      modifies this
      ensures state == CompareAndDelete(old(state), value)
      ensures calls == old(calls) + [Compare(value)]
    {
      if HeldBy(state, value) {
        state := state.(key := None);
      }
      calls := calls + [Compare(value)];
    }

    /** While a client sleeps, time passes and the other clients do anything at all. */
    method Sleep(ms: nat)
      modifies this
      ensures state.now >= old(state).now + ms
      ensures calls == old(calls) + [Wait(ms)]
    {
      var more: nat, key: Option<Key> := *, *;
      state := Server(key, state.now + ms + more);
      calls := calls + [Wait(ms)];
    }
  }

  /** n tries that find the key taken, each followed by half a second of waiting. */
  function Polls(value: string, n: nat): seq<Call> {
    if n == 0 then [] else Polls(value, n - 1) + [TrySet(value, false), Wait(500)]
  }

  class Lock {
    const redis: Redis
    const lockValue: string
    const disabled: bool

    constructor (redis: Redis, name: string, enableRedisLock: bool)
      ensures this.redis == redis && lockValue == name && disabled == !enableRedisLock
    {
      this.redis, lockValue, disabled := redis, name, !enableRedisLock;
    }

    /** True hands out a full lease on a key that was free; False means the timeout passed. A
        free key is taken at once. */
    method Acquire(timeout: nat) returns (ok: bool)
      modifies redis
      ensures disabled ==> ok && redis.state == old(redis.state)
      ensures !disabled && ok ==>
        && HeldBy(redis.state, lockValue)
        && redis.state.key.value.deadline == redis.state.now + 360_000
        && redis.state.now < old(redis.state.now) + timeout
      ensures !disabled && timeout > 0 && !Live(old(redis.state)) ==>
        ok && redis.state == SetNx(old(redis.state), lockValue)
      ensures !disabled && !ok ==> redis.state.now >= old(redis.state.now) + timeout
      // it keeps trying, twice a second, until it succeeds or the timeout has passed
      ensures disabled ==> redis.calls == old(redis.calls)
      ensures !disabled ==> exists n: nat ::
        redis.calls == old(redis.calls) + Polls(lockValue, n) + (if ok then [TrySet(lockValue, true)] else [])
    {
      if disabled {
        return true;
      }
      var end := redis.state.now + timeout;
      ok := false;
      ghost var n: nat, was := 0, redis.calls;
      assert was + Polls(lockValue, 0) == was;
      while redis.state.now < end
        invariant redis.state == old(redis.state) || Live(old(redis.state))
        invariant redis.calls == was + Polls(lockValue, n) && !ok
        decreases end - redis.state.now
      {
        ok := redis.Set(lockValue);
        if ok {
          return;
        }
        redis.Sleep(POLL);
        n := n + 1;
        assert redis.calls == was + (Polls(lockValue, n - 1) + [TrySet(lockValue, false), Wait(500)]);
      }
      assert redis.calls == was + Polls(lockValue, n) + [];
    }

    method Release()
      modifies redis
      ensures redis.state == if disabled then old(redis.state) else CompareAndDelete(old(redis.state), lockValue)
      ensures redis.calls == if disabled then old(redis.calls) else old(redis.calls) + [Compare(lockValue)]
    {
      if disabled {
        return;
      }
      redis.Eval(lockValue);
    }
  }

  /** The server: a free key is taken for 360 seconds, a live one stays; only its own value
      deletes it; at its deadline it is free again. */
  lemma ServerTable(value: string, other: string, now: nat, deadline: nat)
    requires other != value
    ensures SetNx(Server(None, now), value) == Server(Some(Key(value, now + 360_000)), now)
    ensures now >= deadline ==>
      SetNx(Server(Some(Key(other, deadline)), now), value) == Server(Some(Key(value, now + 360_000)), now)
    ensures now < deadline ==>
      SetNx(Server(Some(Key(other, deadline)), now), value) == Server(Some(Key(other, deadline)), now)
    ensures now < deadline ==> CompareAndDelete(Server(Some(Key(value, deadline)), now), value) == Server(None, now)
    ensures CompareAndDelete(Server(Some(Key(other, deadline)), now), value) == Server(Some(Key(other, deadline)), now)
    ensures CompareAndDelete(Server(None, now), value) == Server(None, now)
  {
  }

  // ----- the protocol: many clients, one key -----

  datatype Phase = Idle | Polling(until: nat) | Holding(since: nat)

  type Client = nat

  /** The lock value of each client; values may coincide. */
  type Names = Client -> string

  datatype State = State(server: Server, phases: map<Client, Phase>)

  function PhaseOf(s: State, c: Client): Phase {
    if c in s.phases then s.phases[c] else Idle
  }

  datatype Action = Tick(ms: nat) | Begin(c: Client) | Poll(c: Client) | GiveUp(c: Client) | Release(c: Client)

  /** A release may come from any client at any time, holder or not, in time or late. */
  predicate Enabled(s: State, a: Action) {
    match a
    case Tick(_) => true
    case Begin(c) => PhaseOf(s, c).Idle?
    case Poll(c) => PhaseOf(s, c).Polling? && s.server.now < PhaseOf(s, c).until
    case GiveUp(c) => PhaseOf(s, c).Polling? && s.server.now >= PhaseOf(s, c).until
    case Release(c) => !PhaseOf(s, c).Polling?
  }

  function Next(names: Names, s: State, a: Action): State {
    match a
    case Tick(ms) => s.(server := s.server.(now := s.server.now + ms))
    case Begin(c) => s.(phases := s.phases[c := Polling(s.server.now + TIMEOUT)])
    case Poll(c) =>
      if Live(s.server) then s
      else State(SetNx(s.server, names(c)), s.phases[c := Holding(s.server.now)])
    case GiveUp(c) => s.(phases := s.phases[c := Idle])
    case Release(c) => State(CompareAndDelete(s.server, names(c)), s.phases[c := Idle])
  }

  /** The client took the lock, has not released it, and its 360 seconds are not over. */
  predicate InLease(s: State, c: Client) {
    PhaseOf(s, c).Holding? && s.server.now < PhaseOf(s, c).since + LEASE
  }

  /** The key stands for the one client inside its lease. */
  ghost predicate LeaseInv(names: Names, s: State) {
    && (forall c :: InLease(s, c) ==>
      HeldBy(s.server, names(c)) && s.server.key.value.deadline == PhaseOf(s, c).since + LEASE)
    && (forall c, d :: InLease(s, c) && InLease(s, d) ==> c == d)
  }

  /** A release harms no other client: nobody else is inside a lease under the same value. */
  ghost predicate SafeAction(names: Names, s: State, a: Action) {
    a.Release? ==> forall d :: InLease(s, d) && d != a.c ==> names(d) != names(a.c)
  }

  /** Each step keeps the invariant exactly when it is not a release under another holder's
      value. */
  lemma StepKeepsInvIff(names: Names, s: State, a: Action)
    requires LeaseInv(names, s) && Enabled(s, a)
    ensures LeaseInv(names, Next(names, s, a)) <==> SafeAction(names, s, a)
  {
    var t := Next(names, s, a);
    match a {
      case Tick(ms) =>
        forall c | InLease(t, c) ensures InLease(s, c) {}
      case Begin(c) =>
        forall d | InLease(t, d) ensures InLease(s, d) && d != c {}
      case Poll(c) =>
        if !Live(s.server) {
          forall d | InLease(t, d) ensures d == c {
            if d != c {
              assert InLease(s, d);
            }
          }
        }
      case GiveUp(c) =>
        forall d | InLease(t, d) ensures InLease(s, d) && d != c {}
      case Release(c) =>
        forall d ensures InLease(t, d) <==> InLease(s, d) && d != c {}
    }
  }

  /** A late release never takes the key away from another client inside its lease. */
  lemma SafeReleaseSparesOthers(names: Names, s: State, c: Client, d: Client)
    requires LeaseInv(names, s) && SafeAction(names, s, Release(c)) && InLease(s, d) && d != c
    ensures Next(names, s, Release(c)).server == s.server && InLease(Next(names, s, Release(c)), d)
  {
    assert HeldBy(s.server, names(d));
  }

  function Run(names: Names, s: State, actions: seq<Action>): State {
    if actions == [] then s else Next(names, Run(names, s, actions[..|actions| - 1]), actions[|actions| - 1])
  }

  /** Every action is possible when its turn comes. */
  ghost predicate Possible(names: Names, s: State, actions: seq<Action>) {
    forall k :: 0 <= k < |actions| ==> Enabled(Run(names, s, actions[..k]), actions[k])
  }

  /** Every release is safe when its turn comes. */
  ghost predicate Safe(names: Names, s: State, actions: seq<Action>) {
    forall k :: 0 <= k < |actions| ==> SafeAction(names, Run(names, s, actions[..k]), actions[k])
  }

  function Start(now: nat): State {
    State(Server(None, now), map[])
  }

  /** Mutual exclusion over every run: at most one client is inside an unexpired lease, and
      the key is then its own. */
  lemma {:induction false} LeasedMutualExclusion(names: Names, now: nat, actions: seq<Action>)
    requires Possible(names, Start(now), actions) && Safe(names, Start(now), actions)
    ensures LeaseInv(names, Run(names, Start(now), actions))
    decreases |actions|
  {
    if actions != [] {
      var n := |actions| - 1;
      assert forall k :: 0 <= k < n ==> actions[..n][..k] == actions[..k];
      LeasedMutualExclusion(names, now, actions[..n]);
      StepKeepsInvIff(names, Run(names, Start(now), actions[..n]), actions[n]);
    }
  }

  /** And exactly: a possible run keeps the invariant all the way if and only if each of its
      releases is safe. */
  lemma {:induction false} LeasedThroughoutIff(names: Names, now: nat, actions: seq<Action>)
    requires Possible(names, Start(now), actions)
    ensures (forall n :: 0 <= n <= |actions| ==> LeaseInv(names, Run(names, Start(now), actions[..n]))) <==>
      Safe(names, Start(now), actions)
  {
    hide LeaseInv, SafeAction, Run;
    var s := Start(now);
    if Safe(names, s, actions) {
      forall n | 0 <= n <= |actions| ensures LeaseInv(names, Run(names, s, actions[..n])) {
        assert forall k :: 0 <= k < n ==> actions[..n][..k] == actions[..k];
        LeasedMutualExclusion(names, now, actions[..n]);
      }
    }
    if forall n :: 0 <= n <= |actions| ==> LeaseInv(names, Run(names, s, actions[..n])) {
      forall k | 0 <= k < |actions| ensures SafeAction(names, Run(names, s, actions[..k]), actions[k]) {
        StepKeepsInvIff(names, Run(names, s, actions[..k]), actions[k]);
        RunStep(names, s, actions, k);
      }
    }
  }

  lemma RunStep(names: Names, s: State, actions: seq<Action>, k: nat)
    requires k < |actions|
    ensures Run(names, s, actions[..k + 1]) == Next(names, Run(names, s, actions[..k]), actions[k])
  {
    assert actions[..k + 1][..k] == actions[..k];
  }

  /** In particular when all clients use different values. */
  lemma DistinctNamesAreSafe(names: Names, s: State, a: Action)
    requires forall c, d :: c != d ==> names(c) != names(d)
    ensures SafeAction(names, s, a)
  {
  }

  /** A client polls for 360 seconds, the last of them excluded, and then gives up; who holds the
      lock is in its lease for as long. */
  lemma TimeTable(names: Names, s: State, c: Client)
    ensures PhaseOf(s, c).Idle? ==> PhaseOf(Next(names, s, Begin(c)), c) == Polling(s.server.now + 360_000)
    ensures forall until: nat :: PhaseOf(s, c) == Polling(until) ==>
      (Enabled(s, Poll(c)) <==> s.server.now < until) && (Enabled(s, GiveUp(c)) <==> s.server.now >= until)
    ensures forall since: nat :: PhaseOf(s, c) == Holding(since) ==> (InLease(s, c) <==> s.server.now < since + 360_000)
  {
  }

  /** Who may act when: a release comes from anybody who is not polling, late or never holding. */
  lemma EnabledTable(s: State, c: Client, ms: nat)
    ensures Enabled(s, Tick(ms)) && (Enabled(s, Begin(c)) <==> PhaseOf(s, c) == Idle)
    ensures PhaseOf(s, c) == Idle ==> Enabled(s, Release(c)) && !Enabled(s, Poll(c)) && !Enabled(s, GiveUp(c))
    ensures forall since: nat :: PhaseOf(s, c) == Holding(since) ==>
      Enabled(s, Release(c)) && !Enabled(s, Begin(c)) && !Enabled(s, Poll(c)) && !Enabled(s, GiveUp(c))
    ensures forall until: nat :: PhaseOf(s, c) == Polling(until) ==> !Enabled(s, Release(c)) && !Enabled(s, Begin(c))
  {
  }

  /** What each action does to the server and to its client. */
  lemma ActionTable(names: Names, s: State, c: Client, ms: nat)
    ensures Next(names, s, Tick(ms)) == State(Server(s.server.key, s.server.now + ms), s.phases)
    ensures Next(names, s, Begin(c)).server == s.server && Next(names, s, GiveUp(c)).server == s.server
    ensures PhaseOf(Next(names, s, GiveUp(c)), c) == Idle && PhaseOf(Next(names, s, Release(c)), c) == Idle
    ensures Next(names, s, Release(c)).server == CompareAndDelete(s.server, names(c))
    ensures Live(s.server) ==> Next(names, s, Poll(c)) == s
    ensures !Live(s.server) ==> Next(names, s, Poll(c)).server == SetNx(s.server, names(c))
    ensures !Live(s.server) ==> PhaseOf(Next(names, s, Poll(c)), c) == Holding(s.server.now)
    ensures forall d: Client, a: Action :: d != c && a in [Begin(c), Poll(c), GiveUp(c), Release(c)] ==>
      PhaseOf(Next(names, s, a), d) == PhaseOf(s, d)
  {
  }

  /** At most one client believes that it holds the lock. */
  ghost predicate OneHolder(s: State) {
    forall c, d :: PhaseOf(s, c).Holding? && PhaseOf(s, d).Holding? ==> c == d
  }

  /** A poll succeeds while another client has not released the lock. */
  ghost predicate Overtakes(s: State, a: Action) {
    a.Poll? && !Live(s.server) && exists d :: d != a.c && PhaseOf(s, d).Holding?
  }

  /** Without the lease bound exclusion breaks at exactly these steps. */
  lemma OneHolderStepIff(names: Names, s: State, a: Action)
    requires OneHolder(s) && Enabled(s, a)
    ensures OneHolder(Next(names, s, a)) <==> !Overtakes(s, a)
  {
    var t := Next(names, s, a);
    match a {
      case Tick(_) =>
        assert forall c :: PhaseOf(t, c) == PhaseOf(s, c);
      case Begin(c) =>
        assert forall d :: PhaseOf(t, d) == if d == c then Polling(s.server.now + TIMEOUT) else PhaseOf(s, d);
      case Poll(c) =>
        assert !Live(s.server) ==>
          forall d :: PhaseOf(t, d) == if d == c then Holding(s.server.now) else PhaseOf(s, d);
      case GiveUp(c) =>
        assert forall d :: PhaseOf(t, d) == if d == c then Idle else PhaseOf(s, d);
      case Release(c) =>
        assert forall d :: PhaseOf(t, d) == if d == c then Idle else PhaseOf(s, d);
    }
  }

  lemma NoActions(names: Names, s: State)
    ensures Possible(names, s, []) && Run(names, s, []) == s
  {
  }

  lemma RunOn(names: Names, s: State, actions: seq<Action>, a: Action)
    requires Possible(names, s, actions) && Enabled(Run(names, s, actions), a)
    ensures Possible(names, s, actions + [a])
    ensures Run(names, s, actions + [a]) == Next(names, Run(names, s, actions), a)
  {
    var all := actions + [a];
    assert all[..|actions|] == actions;
    assert forall k :: 0 <= k < |actions| ==> all[..k] == actions[..k];
  }

  /** Without the lease bound it fails: after 360 seconds a second client holds the lock too. */
  lemma TwoHoldersAfterExpiry(names: Names) returns (actions: seq<Action>)
    ensures Possible(names, Start(0), actions)
    ensures var s := Run(names, Start(0), actions);
      PhaseOf(s, 0) == Holding(0) && PhaseOf(s, 1) == Holding(360_000) && PhaseOf(s, 2).Idle? &&
      s.server.now == 360_000 && HeldBy(s.server, names(1))
  {
    hide Run, Possible;
    actions := [];
    NoActions(names, Start(0));
    RunOn(names, Start(0), actions, Begin(0));
    actions := actions + [Begin(0)];
    RunOn(names, Start(0), actions, Poll(0));
    actions := actions + [Poll(0)];
    RunOn(names, Start(0), actions, Tick(LEASE));
    actions := actions + [Tick(LEASE)];
    RunOn(names, Start(0), actions, Begin(1));
    actions := actions + [Begin(1)];
    RunOn(names, Start(0), actions, Poll(1));
    actions := actions + [Poll(1)];
  }

  /** With equal values the late release then lets a third client in beside the second. */
  lemma EqualNamesBreakExclusion(names: Names) returns (actions: seq<Action>)
    requires names(0) == names(1)
    ensures Possible(names, Start(0), actions)
    ensures InLease(Run(names, Start(0), actions), 1) && InLease(Run(names, Start(0), actions), 2)
  {
    hide Run, Possible;
    actions := TwoHoldersAfterExpiry(names);
    RunOn(names, Start(0), actions, Release(0));
    actions := actions + [Release(0)];
    RunOn(names, Start(0), actions, Begin(2));
    actions := actions + [Begin(2)];
    RunOn(names, Start(0), actions, Poll(2));
    actions := actions + [Poll(2)];
  }
}
