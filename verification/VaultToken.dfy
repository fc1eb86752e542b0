/** The vault-token cache of `common-secrets`: a lease cache behind one mutex that is held across a
    login, and a wrapper that logs in again once when an operation's token is refused. Any number
    of callers interleave at their waits; any of them may be dropped at one. Times are milliseconds. */
module VaultToken {
  import opened Wrappers

  const SECOND := 1000
  const LEASE_SKEW := 10_000

  datatype Cached = Cached(value: string, expiresAt: int)

  /** A login the provider granted: the token, and when its lease began and how many seconds it runs. */
  datatype Grant = Grant(token: string, leaseStart: int, lease: nat)

  /** The lease's length in milliseconds; a whole number of seconds. */
  function LeaseMs(lease: nat): nat { lease * 1000 }

  /** `saturating_sub`: a lease no longer than the skew is spent as soon as it is cached. */
  function Ttl(lease: nat): nat {
    if LeaseMs(lease) > LEASE_SKEW then LeaseMs(lease) - LEASE_SKEW else 0
  }

  function Caching(grant: Grant, answeredAt: int): Cached {
    Cached(grant.token, answeredAt + Ttl(grant.lease))
  }

  predicate Fresh(cache: Option<Cached>, now: int) {
    cache.Some? && cache.value.expiresAt > now
  }

  /** What a data-plane operation answers: done, refused for its token, or failed otherwise. */
  datatype OpAnswer = Succeeds | TokenRefused | Fails

  // ----- the machine -------------------------------------------------------------------------------

  datatype Place =
    | Queued(again: bool)
    | LoggingIn(again: bool)
    | Trying(token: string, again: bool)
    | Returned

  /** A caller, with how many logins it has begun and how many times it has tried its operation. */
  datatype Caller = Caller(place: Place, logins: nat, tries: nat)

  /** A login as it was begun, and once it is over whether it was granted and until when it counts. */
  datatype Login = Login(again: bool, begunAt: int, ended: Option<Option<int>>)

  /** A token taken from the cache rather than from the taker's own login. */
  datatype Handout = Handout(grant: Grant, answeredAt: int, at: int)

  /** `cached`, `logins` and `handouts` are the past; the client keeps only the lock and the cache. */
  datatype State = State(
    now: int,
    holder: Option<nat>,
    cache: Option<Cached>,
    callers: seq<Caller>,
    cached: Option<(Grant, int)>,
    logins: seq<Login>,
    handouts: seq<Handout>)

  datatype Step =
    | Tick(ms: nat)
    | Begin
    | Lock(caller: nat)
    | LoginGranted(caller: nat, grant: Grant)
    | LoginFailed(caller: nat)
    | Operated(caller: nat, answer: OpAnswer)
    | Dropped(caller: nat)

  function Move(s: State, i: nat, c: Caller): State
    requires i < |s.callers|
  {
    s.(callers := s.callers[i := c])
  }

  /** Taking the mutex, and what follows without waiting. */
  function TakeLock(s: State, i: nat): State
    requires i < |s.callers| && s.callers[i].place.Queued?
  {
    var c := s.callers[i];
    if !c.place.again && Fresh(s.cache, s.now) then
      var taken := Move(s, i, c.(place := Trying(s.cache.value.value, false), tries := c.tries + 1));
      if s.cached.Some? then taken.(handouts := s.handouts + [Handout(s.cached.value.0, s.cached.value.1, s.now)])
      else taken
    else
      Move(s, i, c.(place := LoggingIn(c.place.again), logins := c.logins + 1))
        .(holder := Some(i),
          cache := if c.place.again then None else s.cache,
          logins := s.logins + [Login(c.place.again, s.now, None)])
  }

  /** The last login is over. */
  function Settle(logins: seq<Login>, expiry: Option<int>): seq<Login> {
    if logins == [] then [] else logins[|logins| - 1 := logins[|logins| - 1].(ended := Some(expiry))]
  }

  function Next(s: State, step: Step): State {
    match step
    case Tick(ms) => s.(now := s.now + ms)
    case Begin => s.(callers := s.callers + [Caller(Queued(false), 0, 0)])
    case Lock(i) =>
      if i < |s.callers| && s.callers[i].place.Queued? && s.holder.None? then TakeLock(s, i) else s
    case LoginGranted(i, grant) =>
      if i < |s.callers| && s.callers[i].place.LoggingIn? && grant.leaseStart <= s.now then
        var c := s.callers[i];
        Move(s, i, c.(place := Trying(grant.token, c.place.again), tries := c.tries + 1))
          .(holder := None, cache := Some(Caching(grant, s.now)), cached := Some((grant, s.now)),
            logins := Settle(s.logins, Some(Caching(grant, s.now).expiresAt)))
      else s
    case LoginFailed(i) =>
      if i < |s.callers| && s.callers[i].place.LoggingIn? then
        Move(s, i, s.callers[i].(place := Returned)).(holder := None, logins := Settle(s.logins, None))
      else s
    case Operated(i, answer) =>
      if i < |s.callers| && s.callers[i].place.Trying? then
        Move(s, i, s.callers[i].(place :=
          if answer.TokenRefused? && !s.callers[i].place.again then Queued(true) else Returned))
      else s
    case Dropped(i) =>
      if i < |s.callers| then
        var gone := Move(s, i, s.callers[i].(place := Returned));
        if s.callers[i].place.LoggingIn? then gone.(holder := None, logins := Settle(s.logins, None)) else gone
      else s
  }

  function Execute(s: State, steps: seq<Step>): State
    decreases |steps|
  {
    if steps == [] then s else Execute(Next(s, steps[0]), steps[1..])
  }

  predicate Cold(s: State) {
    s.holder.None? && s.cache.None? && s.callers == [] && s.cached.None? && s.logins == [] && s.handouts == []
  }

  // ----- what every reachable state keeps --------------------------------------------------------------

  /** The lock is held by exactly the caller that is logging in, if any. */
  ghost predicate LockOk(s: State) {
    && (s.holder.Some? ==> s.holder.value < |s.callers| && s.callers[s.holder.value].place.LoggingIn?)
    && (forall i | 0 <= i < |s.callers| && s.callers[i].place.LoggingIn? :: s.holder == Some(i))
  }

  predicate Within(c: Caller) {
    match c.place
    case Queued(again) => if again then c.logins <= 1 && c.tries == 1 else c.logins == 0 && c.tries == 0
    case LoggingIn(again) => if again then c.logins <= 2 && c.tries == 1 else c.logins == 1 && c.tries == 0
    case Trying(_, again) => if again then c.logins <= 2 && c.tries == 2 else c.logins <= 1 && c.tries == 1
    case Returned => c.logins <= 2 && c.tries <= 2
  }

  ghost predicate CallersOk(s: State) {
    forall i | 0 <= i < |s.callers| :: Within(s.callers[i])
  }

  /** The cache holds what the last login brought, except while a new one runs or after it failed. */
  ghost predicate CacheOk(s: State) {
    && (s.cache.Some? ==> s.cached.Some? && s.cache.value == Caching(s.cached.value.0, s.cached.value.1))
    && (s.cached.Some? ==> s.cached.value.0.leaseStart <= s.cached.value.1 <= s.now)
    && (forall i | 0 <= i < |s.logins| - 1 :: s.logins[i].ended.Some?)
    && (s.holder.None? && s.logins != [] ==>
          var last := s.logins[|s.logins| - 1];
          last.ended.Some? && (last.ended.value.Some? ==>
              s.cache.Some? && s.cache.value.expiresAt == last.ended.value.value))
    && (s.holder.Some? ==> s.logins != [] && s.logins[|s.logins| - 1].ended.None?)
    && (forall l | l in s.logins :: l.begunAt <= s.now)
  }

  /** What made a login necessary: it was a second one for a refused token, or the one before it had
      brought nothing, or what that one brought was spent. */
  predicate Needed(before: Login, l: Login) {
    l.again || before.ended == Some(None) ||
        (before.ended.Some? && before.ended.value.Some? && before.ended.value.value <= l.begunAt)
  }

  ghost predicate LoginsNeeded(s: State) {
    forall i | 0 < i < |s.logins| :: Needed(s.logins[i - 1], s.logins[i])
  }

  predicate InLease(h: Handout) {
    h.at < h.grant.leaseStart + LeaseMs(h.grant.lease)
  }

  ghost predicate HandoutsOk(s: State) {
    forall h | h in s.handouts ::
      LeaseMs(h.grant.lease) > LEASE_SKEW && (h.answeredAt - h.grant.leaseStart <= LEASE_SKEW ==> InLease(h))
  }

  ghost predicate Inv(s: State) {
    LockOk(s) && CallersOk(s) && CacheOk(s) && LoginsNeeded(s) && HandoutsOk(s)
  }

  /** The skew is exact: every instant at which a cached token is handed out lies in its lease if
      and only if the login's answer took no longer than the skew to arrive after the lease began. */
  lemma SkewIsExact(grant: Grant, answeredAt: int)
    requires LeaseMs(grant.lease) > LEASE_SKEW
    ensures (forall now | answeredAt <= now && Fresh(Some(Caching(grant, answeredAt)), now) ::
            InLease(Handout(grant, answeredAt, now)))
            <==> answeredAt - grant.leaseStart <= LEASE_SKEW
  {
    var last := Caching(grant, answeredAt).expiresAt - 1;
    assert Fresh(Some(Caching(grant, answeredAt)), last);
  }

  /** A lease no longer than the skew is spent as it is cached. */
  lemma ShortLeaseIsNeverHandedOut(grant: Grant, answeredAt: int, now: int)
    requires answeredAt <= now
    ensures LeaseMs(grant.lease) <= LEASE_SKEW ==> !Fresh(Some(Caching(grant, answeredAt)), now)
  {
  }

  lemma LockKeeps(s: State, i: nat, s': State)
    requires Inv(s) && i < |s.callers| && s.callers[i].place.Queued? && s.holder.None? && s' == TakeLock(s, i)
    ensures Inv(s')
  {
    var c := s.callers[i];
    assert Within(c);
    if !c.place.again && Fresh(s.cache, s.now) {
      var h := Handout(s.cached.value.0, s.cached.value.1, s.now);
      ShortLeaseIsNeverHandedOut(h.grant, h.answeredAt, h.at);
      SkewIsExact(h.grant, h.answeredAt);
    } else {
      var n := |s.logins|;
      forall k | 0 < k < |s'.logins| ensures Needed(s'.logins[k - 1], s'.logins[k]) {
        if k < n { assert Needed(s.logins[k - 1], s.logins[k]); }
      }
    }
  }

  lemma SettleKeeps(s: State, i: nat, s': State, c: Caller, expiry: Option<int>)
    requires Inv(s) && s.holder == Some(i) && i < |s.callers|
    requires Within(c) && !c.place.LoggingIn?
    requires s'.now == s.now && s'.holder.None? && s'.callers == s.callers[i := c] &&
             s'.logins == Settle(s.logins, expiry) && s'.handouts == s.handouts
    requires (s'.cache == s.cache && s'.cached == s.cached && expiry.None?)
             || (s'.cached.Some? && s'.cached.value.0.leaseStart <= s'.cached.value.1 == s.now
                 && s'.cache == Some(Caching(s'.cached.value.0, s.now)) && expiry == Some(s'.cache.value.expiresAt))
    ensures Inv(s')
  {
    var n := |s.logins|;
    forall k | 0 < k < n ensures Needed(s'.logins[k - 1], s'.logins[k]) {
      assert Needed(s.logins[k - 1], s.logins[k]);
    }
    forall l | l in s'.logins ensures l.begunAt <= s'.now {
      var k :| 0 <= k < n && s'.logins[k] == l;
      assert s.logins[k] in s.logins;
    }
  }

  lemma GrantKeeps(s: State, i: nat, grant: Grant, s': State)
    requires Inv(s) && i < |s.callers| && s.callers[i].place.LoggingIn? && grant.leaseStart <= s.now
    requires s' == Next(s, LoginGranted(i, grant))
    ensures Inv(s')
  {
    assert Within(s.callers[i]);
    SettleKeeps(s, i, s', s'.callers[i], Some(s'.cache.value.expiresAt));
  }

  lemma NextKeeps(s: State, step: Step, s': State)
    requires Inv(s) && s' == Next(s, step)
    ensures Inv(s')
  {
    match step
    case Tick(_) =>
    case Begin =>
    case Lock(i) =>
      if i < |s.callers| && s.callers[i].place.Queued? && s.holder.None? { LockKeeps(s, i, s'); }
    case LoginGranted(i, grant) =>
      if i < |s.callers| && s.callers[i].place.LoggingIn? && grant.leaseStart <= s.now { GrantKeeps(s, i, grant, s'); }
    case LoginFailed(i) =>
      if i < |s.callers| && s.callers[i].place.LoggingIn? {
        assert Within(s.callers[i]);
        SettleKeeps(s, i, s', s'.callers[i], None);
      }
    case Operated(i, _) =>
      if i < |s.callers| { assert Within(s.callers[i]); }
    case Dropped(i) =>
      if i < |s.callers| {
        assert Within(s.callers[i]);
        if s.callers[i].place.LoggingIn? { SettleKeeps(s, i, s', s'.callers[i], None); }
      }
  }

  lemma {:induction false} ExecuteKeeps(s: State, steps: seq<Step>)
    requires Inv(s)
    ensures Inv(Execute(s, steps))
    decreases |steps|
  {
    if steps != [] {
      NextKeeps(s, steps[0], Next(s, steps[0]));
      ExecuteKeeps(Next(s, steps[0]), steps[1..]);
    }
  }

  // ----- results over whole runs --------------------------------------------------------------------------

  /** Logins never overlap, under any interleaving and any cancellations. */
  lemma LoginsNeverOverlap(s: State, steps: seq<Step>, i: nat, j: nat)
    requires Cold(s) && i < |Execute(s, steps).callers| && j < |Execute(s, steps).callers|
    requires Execute(s, steps).callers[i].place.LoggingIn? && Execute(s, steps).callers[j].place.LoggingIn?
    ensures i == j
  {
    ExecuteKeeps(s, steps);
  }

  /** No call logs in or tries its operation more than twice. */
  lemma CallsAreBounded(s: State, steps: seq<Step>, i: nat)
    requires Cold(s) && i < |Execute(s, steps).callers|
    ensures Execute(s, steps).callers[i].logins <= 2 && Execute(s, steps).callers[i].tries <= 2
  {
    ExecuteKeeps(s, steps);
    assert Within(Execute(s, steps).callers[i]);
  }

  /** Every token taken from the cache was still in its lease, whenever its login's answer had come
      within the skew of the lease's beginning. */
  lemma HandoutsAreInLease(s: State, steps: seq<Step>, h: Handout)
    requires Cold(s) && h in Execute(s, steps).handouts
    ensures LeaseMs(h.grant.lease) > LEASE_SKEW
    ensures h.answeredAt - h.grant.leaseStart <= LEASE_SKEW ==> InLease(h)
  {
    ExecuteKeeps(s, steps);
  }

  /** Nobody logs in for nothing: each login but the first was for a refused token, or followed one
      that failed, or came when what the one before had brought was spent. */
  lemma EveryLoginIsNeeded(s: State, steps: seq<Step>, i: nat)
    requires Cold(s) && 0 < i < |Execute(s, steps).logins|
    ensures Needed(Execute(s, steps).logins[i - 1], Execute(s, steps).logins[i])
  {
    ExecuteKeeps(s, steps);
  }

  lemma TwoLoginsHaveAReason(s: State)
    requires Inv(s)
    ensures |s.logins| >= 2 ==>
              exists l | l in s.logins :: l.again || l.ended == Some(None) ||
                  (l.ended.Some? && l.ended.value.Some? && l.ended.value.value <= s.now)
  {
    if |s.logins| >= 2 {
      var before, l := s.logins[0], s.logins[1];
      assert Needed(before, l) && before in s.logins && l in s.logins;
    }
  }

  /** A burst of cold callers logs in once: however they interleave, as long as no token is refused,
      no login fails, and what they bring is not spent yet. */
  lemma OneLoginPerBurst(s: State, steps: seq<Step>)
    requires Cold(s)
    requires forall l | l in Execute(s, steps).logins :: !l.again && l.ended != Some(None)
    requires forall l | l in Execute(s, steps).logins && l.ended.Some? && l.ended.value.Some? ::
             Execute(s, steps).now < l.ended.value.value
    ensures |Execute(s, steps).logins| <= 1
    ensures (exists c | c in Execute(s, steps).callers :: c.tries > 0 || c.logins > 0) ==>
            |Execute(s, steps).logins| == 1
  {
    ExecuteKeeps(s, steps);
    TwoLoginsHaveAReason(Execute(s, steps));
    SomebodyLoggedIn(s, steps);
  }

  /** Nobody gets anywhere before somebody has logged in. */
  ghost predicate Started(s: State) {
    s.logins == [] ==> s.cache.None? && s.holder.None? && forall c | c in s.callers :: c.tries == 0 && c.logins == 0
  }

  lemma StartedKeeps(s: State, step: Step, s': State)
    requires Inv(s) && Started(s) && s' == Next(s, step)
    ensures Started(s')
  {
    assert forall i | 0 <= i < |s.callers| :: s.callers[i] in s.callers && Within(s.callers[i]);
  }

  lemma {:induction false} SomebodyLoggedIn(s: State, steps: seq<Step>)
    requires Inv(s) && Started(s)
    ensures Started(Execute(s, steps))
    decreases |steps|
  {
    if steps != [] {
      NextKeeps(s, steps[0], Next(s, steps[0]));
      StartedKeeps(s, steps[0], Next(s, steps[0]));
      SomebodyLoggedIn(Next(s, steps[0]), steps[1..]);
    }
  }

  // ----- the client object --------------------------------------------------------------------------------

  /** How the provider meets a login: the grant and when its answer came, or nothing. */
  type LoginAnswer = Option<(Grant, int)>

  /** What a login leaves on top of a cache, and the token it brings. */
  function Brought(cache: Option<Cached>, login: LoginAnswer): (Option<string>, Option<Cached>) {
    if login.None? then (None, cache) else (Some(login.value.0.token), Some(Caching(login.value.0, login.value.1)))
  }

  function AfterToken(cache: Option<Cached>, now: int, login: LoginAnswer): (Option<string>, Option<Cached>) {
    if Fresh(cache, now) then (Some(cache.value.value), cache) else Brought(cache, login)
  }

  function AfterReauth(login: LoginAnswer): (Option<string>, Option<Cached>) { Brought(None, login) }

  /** A whole call of the wrapper, undisturbed: its result, its tries, and the cache it leaves. */
  function AfterCall(cache: Option<Cached>, now: int, first: LoginAnswer, second: LoginAnswer,
                     op: (nat, string) -> OpAnswer): (Option<OpAnswer>, nat, Option<Cached>)
  {
    var (token, kept) := AfterToken(cache, now, first);
    if token.None? then (None, 0, kept)
    else if !op(0, token.value).TokenRefused? then (Some(op(0, token.value)), 1, kept)
    else
      var (again, kept') := AfterReauth(second);
      if again.None? then (None, 1, kept') else (Some(op(1, again.value)), 2, kept')
  }

  // ----- the wrapper as a run of the machine ----------------------------------------------------------------

  /** A login that starts no earlier than now, in steps: the wait for its answer, and the answer. */
  function LoginSteps(i: nat, now: int, login: LoginAnswer): seq<Step> {
    match login
    case None => [LoginFailed(i)]
    case Some((grant, at)) => [Tick(if at >= now then at - now else 0), LoginGranted(i, grant)]
  }

  /** The answer comes after the question, and the lease it grants has begun. */
  predicate Timely(login: LoginAnswer, now: int) {
    login.Some? ==> now <= login.value.1 && login.value.0.leaseStart <= login.value.1
  }

  function AnsweredAt(login: LoginAnswer, now: int): int { if login.Some? then login.value.1 else now }

  function TokenSteps(i: nat, s: State, again: bool, login: LoginAnswer): seq<Step> {
    [Lock(i)] + if !again && Fresh(s.cache, s.now) then [] else LoginSteps(i, s.now, login)
  }

  /** Where a caller stands once it has a token, or none. */
  predicate HasToken(s: State, s': State, i: nat, again: bool, after: (Option<string>, Option<Cached>), now: int) {
    && i < |s.callers| == |s'.callers| && s'.holder.None? && s'.cache == after.1 && s'.now == now
    && s'.callers[i].tries == s.callers[i].tries + (if after.0.Some? then 1 else 0)
    && s'.callers[i].place == (if after.0.Some? then Trying(after.0.value, again) else Returned)
  }

  lemma {:induction false} ExecuteConcat(s: State, a: seq<Step>, b: seq<Step>)
    ensures Execute(s, a + b) == Execute(Execute(s, a), b)
    decreases |a|
  {
    if a == [] {
      assert a + b == b;
    } else {
      assert (a + b)[1..] == a[1..] + b;
      ExecuteConcat(Next(s, a[0]), a[1..], b);
    }
  }

  lemma ExecuteOne(s: State, step: Step)
    ensures Execute(s, [step]) == Next(s, step)
  {
    assert [step][1..] == [];
  }

  lemma Answered(s: State, i: nat, again: bool, login: LoginAnswer, s': State)
    requires i < |s.callers| && s.callers[i].place == LoggingIn(again)
    requires login.Some? ==> s.now == login.value.1 && login.value.0.leaseStart <= s.now
    requires s' == Next(s, AnswerStep(i, login))
    ensures HasToken(s, s', i, again, Brought(s.cache, login), s.now)
  {
  }

  lemma ExecuteTwo(s: State, one: Step, other: Step)
    ensures Execute(s, [one, other]) == Next(Next(s, one), other)
  {
    ExecuteOne(s, one);
    ExecuteOne(Next(s, one), other);
    ExecuteConcat(s, [one], [other]);
    assert [one] + [other] == [one, other];
  }

  /** The state in which a login's answer arrives. */
  function Waited(s: State, login: LoginAnswer): State { s.(now := AnsweredAt(login, s.now)) }

  function AnswerStep(i: nat, login: LoginAnswer): Step {
    match login
    case None => LoginFailed(i)
    case Some((grant, _)) => LoginGranted(i, grant)
  }

  lemma LoginInSteps(s: State, i: nat, login: LoginAnswer)
    requires Timely(login, s.now)
    ensures Execute(s, LoginSteps(i, s.now, login)) == Next(Waited(s, login), AnswerStep(i, login))
  {
    match login
    case None => ExecuteOne(s, LoginFailed(i));
    case Some((grant, at)) =>
      ExecuteTwo(s, Tick(at - s.now), LoginGranted(i, grant));
      TickWaits(s, at);
  }

  lemma TickWaits(s: State, at: int)
    requires s.now <= at
    ensures Next(s, Tick(at - s.now)) == s.(now := at)
  {
  }

  lemma LoggedIn(s: State, i: nat, again: bool, login: LoginAnswer, s': State)
    requires i < |s.callers| && s.callers[i].place == LoggingIn(again) && Timely(login, s.now)
    requires s' == Execute(s, LoginSteps(i, s.now, login))
    ensures HasToken(s, s', i, again, Brought(s.cache, login), AnsweredAt(login, s.now))
  {
    LoginInSteps(s, i, login);
    Answered(Waited(s, login), i, again, login, s');
  }

  lemma TokenTaken(s: State, i: nat, again: bool, login: LoginAnswer)
    requires i < |s.callers| && s.callers[i].place == Queued(again) && s.holder.None? && Timely(login, s.now)
    ensures var s' := Execute(s, TokenSteps(i, s, again, login));
      HasToken(s, s', i, again, if again then AfterReauth(login) else AfterToken(s.cache, s.now, login),
               if !again && Fresh(s.cache, s.now) then s.now else AnsweredAt(login, s.now))
  {
    var locked := Next(s, Lock(i));
    ExecuteOne(s, Lock(i));
    if !again && Fresh(s.cache, s.now) {
      assert [Lock(i)] + [] == [Lock(i)];
    } else {
      ExecuteConcat(s, [Lock(i)], LoginSteps(i, s.now, login));
      LoggedIn(locked, i, again, login, Execute(locked, LoginSteps(i, s.now, login)));
    }
  }

  /** When a call that starts at `now` may come to its second login. */
  function SecondFrom(cache: Option<Cached>, now: int, first: LoginAnswer): int {
    if Fresh(cache, now) then now else AnsweredAt(first, now)
  }

  /** The wrapper run by one caller with nobody in between, as steps of the machine. */
  function CallSteps(i: nat, s: State, first: LoginAnswer, second: LoginAnswer,
      op: (nat, string) -> OpAnswer): seq<Step> {
    var token := TokenSteps(i, s, false, first);
    var taken := AfterToken(s.cache, s.now, first).0;
    if taken.None? then token
    else
      var tried := token + [Operated(i, op(0, taken.value))];
      if !op(0, taken.value).TokenRefused? then tried
      else
        var retaken := tried + TokenSteps(i, Execute(s, tried), true, second);
        if second.None? then retaken else retaken + [Operated(i, op(1, second.value.0.token))]
  }

  lemma Tried(s: State, s': State, i: nat, answer: OpAnswer)
    requires i < |s.callers| && s.callers[i].place.Trying? && s' == Next(s, Operated(i, answer))
    ensures |s'.callers| == |s.callers| && s'.cache == s.cache && s'.now == s.now && s'.holder == s.holder
    ensures s'.callers[i].tries == s.callers[i].tries
    ensures s'.callers[i].place ==
            if answer.TokenRefused? && !s.callers[i].place.again then Queued(true) else Returned
  {
  }

  /** The last step is an operation of the caller, tried with the token that it holds there, and its
      answer is the result. */
  ghost predicate EndsOperating(s: State, steps: seq<Step>, i: nat, result: OpAnswer, op: (nat, string) -> OpAnswer) {
    && steps != [] && steps[|steps| - 1] == Operated(i, result)
    && var before := Execute(s, steps[..|steps| - 1]);
       && i < |before.callers| && before.callers[i].place.Trying? && before.callers[i].tries > 0
       && result == op(before.callers[i].tries - 1, before.callers[i].place.token)
  }

  lemma OperatesLast(s: State, steps: seq<Step>, s': State, i: nat, token: string, again: bool,
                     op: (nat, string) -> OpAnswer)
    requires s' == Execute(s, steps) && i < |s'.callers| && s'.callers[i].place == Trying(token, again)
    requires s'.callers[i].tries > 0
    ensures var answer := op(s'.callers[i].tries - 1, token);
      EndsOperating(s, steps + [Operated(i, answer)], i, answer, op)
  {
    var answer := op(s'.callers[i].tries - 1, token);
    var all := steps + [Operated(i, answer)];
    assert all[..|all| - 1] == steps;
  }

  /** The machine takes the call's caller to its end, with the result, the tries and the cache of the
      wrapper. */
  lemma {:induction false} WithReauthIsTheMachine(s: State, i: nat, first: LoginAnswer, second: LoginAnswer,
                                                  op: (nat, string) -> OpAnswer)
    requires i < |s.callers| && s.callers[i].place == Queued(false) && s.callers[i].tries == 0 && s.holder.None?
    requires Timely(first, s.now) && Timely(second, SecondFrom(s.cache, s.now, first))
    ensures var (result, tries, cache) := AfterCall(s.cache, s.now, first, second, op);
      var end := Execute(s, CallSteps(i, s, first, second, op));
      && i < |end.callers| && end.callers[i].place.Returned? && end.callers[i].tries == tries
      && end.cache == cache && end.holder.None?
      && (result.Some? ==> EndsOperating(s, CallSteps(i, s, first, second, op), i, result.value, op))
  {
    var token := TokenSteps(i, s, false, first);
    TokenTaken(s, i, false, first);
    var s1, taken := Execute(s, token), AfterToken(s.cache, s.now, first).0;
    if taken.Some? {
      var answer := op(0, taken.value);
      var operated := Operated(i, answer);
      ExecuteConcat(s, token, [operated]);
      ExecuteOne(s1, operated);
      Tried(s1, Next(s1, operated), i, answer);
      OperatesLast(s, token, s1, i, taken.value, false, op);
      if answer.TokenRefused? { Retaken(s, Next(s1, operated), i, token + [operated], second, op); }
    }
  }

  lemma Retaken(s: State, s2: State, i: nat, tried: seq<Step>, second: LoginAnswer, op: (nat, string) -> OpAnswer)
    requires s2 == Execute(s, tried)
    requires i < |s2.callers| && s2.callers[i].place == Queued(true) && s2.callers[i].tries == 1 && s2.holder.None?
    requires Timely(second, s2.now)
    ensures var retaken := tried + TokenSteps(i, s2, true, second);
      var end := Execute(s, if second.None? then retaken else retaken + [Operated(i, op(1, second.value.0.token))]);
      && i < |end.callers| && end.callers[i].place.Returned?
      && end.callers[i].tries == (if second.None? then 1 else 2)
      && end.cache == AfterReauth(second).1 && end.holder.None?
      && (second.Some? ==>
            var answer := op(1, second.value.0.token);
            EndsOperating(s, retaken + [Operated(i, answer)], i, answer, op))
  {
    var more := TokenSteps(i, s2, true, second);
    ExecuteConcat(s, tried, more);
    TokenTaken(s2, i, true, second);
    var s3 := Execute(s2, more);
    if second.Some? {
      var operated := Operated(i, op(1, second.value.0.token));
      ExecuteConcat(s, tried + more, [operated]);
      ExecuteOne(s3, operated);
      OperatesLast(s, tried + more, s3, i, second.value.0.token, true, op);
      Tried(s3, Next(s3, operated), i, operated.answer);
    }
  }

  // ----- the object -----------------------------------------------------------------------------------------

  class SecretClient {
    var cache: Option<Cached>

    constructor ()
      ensures cache.None?
    {
      cache := None;
    }

    method CachedToken(now: int, login: LoginAnswer) returns (token: Option<string>)
      modifies this
      ensures (token, cache) == AfterToken(old(cache), now, login)
      ensures old(cache).Some? && now < old(cache).value.expiresAt ==>
                token == Some(old(cache).value.value) && cache == old(cache)
      ensures !(old(cache).Some? && now < old(cache).value.expiresAt) ==>
                if login.None? then token.None? && cache == old(cache)
                else token == Some(login.value.0.token) && cache == Some(Caching(login.value.0, login.value.1))
                     && cache.value.value == login.value.0.token
    {
      if cache.Some? && cache.value.expiresAt > now {
        return Some(cache.value.value);
      }
      if login.None? {
        return None;
      }
      var brought := Caching(login.value.0, login.value.1);
      token := Some(brought.value);
      cache := Some(brought);
    }

    method Reauthenticate(login: LoginAnswer) returns (token: Option<string>)
      modifies this
      ensures (token, cache) == AfterReauth(login)
      ensures login.None? ==> token.None? && cache.None?
      ensures login.Some? ==>
                && token == Some(login.value.0.token) && cache == Some(Caching(login.value.0, login.value.1))
                && cache.value.value == login.value.0.token
    {
      cache := None;
      if login.None? {
        return None;
      }
      var renewed := Caching(login.value.0, login.value.1);
      token := Some(renewed.value);
      cache := Some(renewed);
    }

    /** The wrapper around every operation, undisturbed: the operation is tried with the fresh cached
        token, or else the first login's; a refused token is replaced once, by a login of its own, and
        whatever the second try answers with that login's token is the result. */
    method WithReauth(now: int, first: LoginAnswer, second: LoginAnswer, op: (nat, string) -> OpAnswer)
        returns (result: Option<OpAnswer>, tries: nat)
      modifies this
      ensures (result, tries, cache) == AfterCall(old(cache), now, first, second, op)
      ensures tries == 0 ==> !Fresh(old(cache), now) && first.None? && result.None? && cache == old(cache)
      ensures tries > 0 ==>
                && (Fresh(old(cache), now) || first.Some?)
                && var token := if Fresh(old(cache), now) then old(cache).value.value else first.value.0.token;
                   if !op(0, token).TokenRefused? then
                     && tries == 1 && result == Some(op(0, token))
                     && cache == if Fresh(old(cache), now) then old(cache)
                                 else Some(Caching(first.value.0, first.value.1))
                   else if second.None? then tries == 1 && result.None? && cache.None?
                   else
                     && tries == 2 && result == Some(op(1, second.value.0.token))
                     && cache == Some(Caching(second.value.0, second.value.1))
    {
      var token := CachedToken(now, first);
      if token.None? {
        return None, 0;
      }
      var answer := op(0, token.value);
      if answer.TokenRefused? {
        token := Reauthenticate(second);
        if token.None? {
          return None, 1;
        }
        answer := op(1, token.value);
        return Some(answer), 2;
      }
      return Some(answer), 1;
    }
  }
}
