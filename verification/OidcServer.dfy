/** The request handlers over the two real stores, each run from start to end with nobody in
    between, and the machine they are runs of. */
module OidcServer {
  import opened Wrappers
  import opened Expiring
  import opened OidcSessions
  import Retry

  /** A resolved identity and the session that proved it. */
  type Resolved = Option<(string, Session)>

  /** What the provider says, in order, to a resolution that asks everything it may ask. */
  datatype Upstream = Upstream(
    first: Result<string, Retry.Upstream>,
    renewal: Result<Tokens, Retry.Upstream>,
    second: Result<string, Retry.Upstream>)

  function Renewed(session: Session, tokens: Tokens): Session {
    Session(tokens.access, tokens.refresh, session.created)
  }

  /** `resolve_session` on the store: read at `now`, write back, if at all, at `later`. */
  function ResolveAlone(site: Site, entries: map<string, Session>, sid: string, now: int, later: int,
      upstream: Upstream)
      : (map<string, Session>, Resolved)
  {
    match Look(site.sessions, entries, sid, now)
    case None => (entries, None)
    case Some(session) =>
      if upstream.first.Ok? then (entries, Some((upstream.first.value, session)))
      else if upstream.first.error.Rejected? && session.refresh.Some? && upstream.renewal.Ok? then
        var renewed := Renewed(session, upstream.renewal.value);
        var written := Stored(site.sessions, entries, sid, renewed, later);
        if upstream.second.Ok? then (written, Some((upstream.second.value, renewed))) else (written - {sid}, None)
      else (entries - {sid}, None)
  }

  /** Resolving never leaves a doubtful session behind: `None` on a stored id means the id is gone,
      and `Some` means the id is stored with the very token that the provider accepted. */
  lemma ResolveLeaves(site: Site, entries: map<string, Session>, sid: string, now: int, later: int, upstream: Upstream)
    ensures var (after, found) := ResolveAlone(site, entries, sid, now, later, upstream);
            && (found.None? ==> Look(site.sessions, after, sid, now).None?)
            && (found.None? && Look(site.sessions, entries, sid, now).Some? ==> sid !in after)
            && (found.Some? ==>
                  && sid in after && after[sid] == found.value.1
                  && sid in entries && after[sid].created == entries[sid].created)
            && (found.Some? ==> if upstream.first.Ok?
                                then found.value == (upstream.first.value, entries[sid])
                                else upstream.second == Ok(found.value.0) && upstream.renewal.Ok?
                                     && found.value.1.access == upstream.renewal.value.access)
            && (forall other | other in after && other != sid :: other in entries && after[other] == entries[other])
  {
  }

  function AsAnswer(r: Result<string, Retry.Upstream>): Answer {
    match r
    case Ok(_) => Known
    case Err(Rejected) => RejectedToken
    case Err(Unreachable) => NoAnswer
  }

  function AsTokens(r: Result<Tokens, Retry.Upstream>): Option<Tokens> {
    if r.Ok? then Some(r.value) else None
  }

  /** A resolution nobody interrupts, as steps of the machine. */
  function ResolveSteps(i: nat, sid: string, wait: nat, upstream: Upstream): seq<Step> {
    [Resolve(sid), IdentityAnswered(i, AsAnswer(upstream.first)), Tick(wait), Refreshed(i, AsTokens(upstream.renewal)),
     IdentityAnswered(i, AsAnswer(upstream.second))]
  }

  lemma FiveSteps(site: Site, s: State, a: Step, b: Step, c: Step, d: Step, e: Step)
    ensures Execute(site, s, [a, b, c, d, e])
            == Next(site, Next(site, Next(site, Next(site, Next(site, s, a), b), c), d), e)
  {
    var s1 := Next(site, s, a);
    var s2 := Next(site, s1, b);
    var s3 := Next(site, s2, c);
    var s4 := Next(site, s3, d);
    assert [a, b, c, d, e][1..] == [b, c, d, e] && [b, c, d, e][1..] == [c, d, e] && [c, d, e][1..] == [d, e] &&
           [d, e][1..] == [e] && [e][1..] == [];
    assert Execute(site, s4, [e]) == Next(site, s4, e);
    assert Execute(site, s3, [d, e]) == Execute(site, s4, [e]);
    assert Execute(site, s2, [c, d, e]) == Execute(site, s3, [d, e]);
    assert Execute(site, s1, [b, c, d, e]) == Execute(site, s2, [c, d, e]);
  }

  /** The request stands here, over this store, at this time. */
  ghost predicate Stands(s: State, i: nat, w: Waiting, entries: map<string, Session>, now: int) {
    i < |s.waiting| && s.waiting[i] == w && s.sessions == entries && s.now == now
  }

  lemma IdentityStep(site: Site, s: State, i: nat, w: Waiting, entries: map<string, Session>, answer: Answer, s': State)
    requires Stands(s, i, w, entries, s.now) && s' == Next(site, s, IdentityAnswered(i, answer))
    ensures w.Asking? && answer.RejectedToken? && w.session.refresh.Some? ==>
            Stands(s', i, Refreshing(w.sid, w.session), entries, s.now)
    ensures (w.Asking? || w.Rechecking?) && answer.Known? ==> Stands(s', i, Over, entries, s.now)
    ensures (w.Asking? && !answer.Known? && !(answer.RejectedToken? && w.session.refresh.Some?)) ||
            (w.Rechecking? && !answer.Known?) ==>
              Stands(s', i, Over, entries - {w.sid}, s.now)
    ensures w.Over? ==> Stands(s', i, Over, entries, s.now)
  {
  }

  lemma RefreshStep(site: Site, s: State, i: nat, w: Waiting, entries: map<string, Session>, tokens: Option<Tokens>,
      s': State)
    requires Stands(s, i, w, entries, s.now) && s' == Next(site, s, Refreshed(i, tokens))
    ensures w.Over? ==> Stands(s', i, Over, entries, s.now)
    ensures w.Refreshing? && tokens.None? ==> Stands(s', i, Over, entries - {w.sid}, s.now)
    ensures w.Refreshing? && tokens.Some? ==>
              var renewed := Renewed(w.session, tokens.value);
              Stands(s', i, Rechecking(w.sid, renewed), Stored(site.sessions, entries, w.sid, renewed, s.now), s.now)
  {
  }

  lemma NothingStarted(site: Site, s: State, i: nat, sid: string, wait: nat, upstream: Upstream)
    requires i == |s.waiting| && Look(site.sessions, s.sessions, sid, s.now).None?
    ensures Execute(site, s, ResolveSteps(i, sid, wait, upstream)).sessions == s.sessions
  {
    var a, b, c := Resolve(sid), IdentityAnswered(i, AsAnswer(upstream.first)), Tick(wait);
    var d, e := Refreshed(i, AsTokens(upstream.renewal)), IdentityAnswered(i, AsAnswer(upstream.second));
    FiveSteps(site, s, a, b, c, d, e);
  }

  /** The steps do to the stored sessions what the handler does. */
  lemma ResolveIsTheMachine(site: Site, s: State, sid: string, wait: nat, upstream: Upstream)
    ensures Execute(site, s, ResolveSteps(|s.waiting|, sid, wait, upstream)).sessions
            == ResolveAlone(site, s.sessions, sid, s.now, s.now + wait, upstream).0
  {
    var i := |s.waiting|;
    if Look(site.sessions, s.sessions, sid, s.now).None? {
      NothingStarted(site, s, i, sid, wait, upstream);
    } else {
      var a, b, c := Resolve(sid), IdentityAnswered(i, AsAnswer(upstream.first)), Tick(wait);
      var d, e := Refreshed(i, AsTokens(upstream.renewal)), IdentityAnswered(i, AsAnswer(upstream.second));
      FiveSteps(site, s, a, b, c, d, e);
      var s1 := Next(site, s, a);
      var s2 := Next(site, s1, b);
      var s3 := Next(site, s2, c);
      var s4 := Next(site, s3, d);
      var s5 := Next(site, s4, e);
      var w := Asking(sid, s.sessions[sid]);
      assert Stands(s1, i, w, s.sessions, s.now);
      IdentityStep(site, s1, i, w, s.sessions, b.answer, s2);
      assert Stands(s3, i, s2.waiting[i], s2.sessions, s.now + wait);
      RefreshStep(site, s3, i, s2.waiting[i], s2.sessions, d.tokens, s4);
      IdentityStep(site, s4, i, s4.waiting[i], s4.sessions, e.answer, s5);
    }
  }

  /** How the provider treats each question, and how the retries of each fall. */
  datatype Provider = Provider(
    identify: string -> Retry.Behaviour<string>,
    renew: string -> Retry.Behaviour<Tokens>,
    jitter: nat -> (nat -> nat))

  /** What the provider says of an access token, asked at an instant of a resolution that began then. */
  function Vouched(provider: Provider, began: int, access: string, k: nat, at: int): Result<string, Retry.Upstream> {
    Retry.Call(began + Retry.UPSTREAM_BUDGET, provider.identify(access), provider.jitter(k), at).result
  }

  /** All the provider may be asked in a resolution, each question with the token it is about. */
  function Asked(provider: Provider, session: Session, began: int): Upstream {
    var deadline := began + Retry.UPSTREAM_BUDGET;
    var first := Retry.Call(deadline, provider.identify(session.access), provider.jitter(0), began);
    if session.refresh.None? then Upstream(first.result, Err(Retry.Unreachable), Err(Retry.Unreachable))
    else
      var renewal := Retry.Call(deadline, provider.renew(session.refresh.value), provider.jitter(1), first.at);
      match renewal.result
      case Err(_) => Upstream(first.result, renewal.result, Err(Retry.Unreachable))
      case Ok(tokens) =>
        var second := Retry.Call(deadline, provider.identify(tokens.access), provider.jitter(2), renewal.at);
        Upstream(first.result, renewal.result, second.result)
  }

  class Server {
    const site: Site
    const flows: Store<Flow>
    const sessions: Store<Session>

    ghost predicate Valid() {
      flows.policy == site.flows && sessions.policy == site.sessions
    }

    constructor (site: Site)
      ensures Valid() && fresh(flows) && fresh(sessions) && this.site == site
      ensures flows.entries == map[] && sessions.entries == map[]
    {
      this.site := site;
      flows := new Store<Flow>(site.flows);
      sessions := new Store<Session>(site.sessions);
    }

    method StartLogin(drawn: Drawn, next: string, silent: bool, tried: bool, now: int) returns (response: Response)
      requires Valid()
      modifies flows
      ensures flows.entries == OidcSessions.StartLogin(site, old(flows.entries), drawn, next, tried, now)
      ensures flows.entries == Stored(site.flows, old(flows.entries), drawn.id,
                                      Flow(drawn.state, drawn.verifier, next, tried, now), now)
      ensures response == if silent then Silent(drawn.id) else Interactive(drawn.id)
    {
      flows.Put(drawn.id, Flow(drawn.state, drawn.verifier, next, tried, now), now);
      response := Redirected(drawn, silent);
    }

    method Login(next: Option<string>, prompt: bool, drawn: Drawn, now: int) returns (response: Response)
      requires Valid()
      modifies flows
      ensures flows.entries == Stored(site.flows, old(flows.entries), drawn.id,
                                      Flow(drawn.state, drawn.verifier, site.guard(next), prompt, now), now)
      ensures response == if prompt then Interactive(drawn.id) else Silent(drawn.id)
    {
      var silent := !prompt;
      response := StartLogin(drawn, site.guard(next), silent, !silent, now);
    }

    method Logout(sid: Option<string>, fromSite: bool) returns (accepted: bool)
      modifies sessions
      ensures accepted == fromSite
      ensures sessions.entries ==
              if fromSite && sid.Some? then old(sessions.entries) - {sid.value} else old(sessions.entries)
    {
      if !fromSite {
        return false;
      }
      if sid.Some? {
        sessions.Remove(sid.value);
      }
      return true;
    }

    /** The whole callback; `exchange` is what the provider makes of a code and a verifier, `later` when
        it answered. */
    method HandleCallback(cookie: Option<string>, query: Query, drawn: Drawn, now: int,
                          exchange: (string, string) -> Option<Tokens>, sid: string, later: int)
        returns (response: Response)
      requires Valid()
      modifies flows, sessions
      // As the machine has it.
      ensures match Callback(site, old(flows.entries), cookie, query, drawn, now)
              case Answered(after, answer) =>
                flows.entries == after && sessions.entries == old(sessions.entries) && response == answer
              case Exchange(id, flow, code) =>
                flows.entries == if exchange(code, flow.verifier).None? then old(flows.entries)
                                 else old(flows.entries) - {id}
      // No live flow: a silent login to the root.
      ensures FlowAt(site, old(flows.entries), cookie, now).None? ==>
                && response == Silent(drawn.id) && sessions.entries == old(sessions.entries)
                && flows.entries == Stored(site.flows, old(flows.entries), drawn.id,
                                           Flow(drawn.state, drawn.verifier, "/", false, now), now)
      // An error: the flow is spent, and a silent attempt that needs the user is made again with the user.
      ensures FlowAt(site, old(flows.entries), cookie, now).Some? && query.error.Some? ==>
                var flow := old(flows.entries)[cookie.value];
                && sessions.entries == old(sessions.entries)
                && if query.error.value in ["login_required", "interaction_required", "consent_required"]
                      && !flow.interactiveTried then
                     && response == Interactive(drawn.id)
                     && flows.entries == Stored(site.flows, old(flows.entries) - {cookie.value}, drawn.id,
                                                Flow(drawn.state, drawn.verifier, site.guard(Some(flow.next)), true,
                                                     now), now)
                   else response == Refused && flows.entries == old(flows.entries) - {cookie.value}
      // No code, no state, or another state: nothing happens.
      ensures FlowAt(site, old(flows.entries), cookie, now).Some? && query.error.None?
              && (query.code.None? || query.state != Some(old(flows.entries)[cookie.value].state)) ==>
                && response == BadRequest
                && flows.entries == old(flows.entries) && sessions.entries == old(sessions.entries)
      // The code is exchanged with the flow's own verifier.
      ensures FlowAt(site, old(flows.entries), cookie, now).Some? && query.error.None? && query.code.Some?
              && query.state == Some(old(flows.entries)[cookie.value].state) ==>
                var flow := old(flows.entries)[cookie.value];
                match exchange(query.code.value, flow.verifier)
                case None =>
                  && response == Refused
                  && flows.entries == old(flows.entries) && sessions.entries == old(sessions.entries)
                case Some(tokens) =>
                  && response == LoggedIn(sid, site.guard(Some(flow.next)))
                  && flows.entries == old(flows.entries) - {cookie.value}
                  && sessions.entries == Stored(site.sessions, old(sessions.entries), sid,
                                                Session(tokens.access, tokens.refresh, later), later)
    {
      var found: Option<Flow> := None;
      if cookie.Some? {
        found := flows.Get(cookie.value, now);
      }
      if found.None? {
        response := StartLogin(drawn, "/", true, false, now);
        return;
      }
      var id, flow := cookie.value, found.value;
      if query.error.Some? {
        flows.Remove(id);
        if NeedsInteraction(query.error.value) && !flow.interactiveTried {
          response := StartLogin(drawn, site.guard(Some(flow.next)), false, true, now);
          return;
        }
        return Refused;
      }
      if query.code.None? || query.state.None? {
        return BadRequest;
      }
      if query.state.value != flow.state {
        return BadRequest;
      }
      var tokens := exchange(query.code.value, flow.verifier);
      if tokens.None? {
        return Refused;
      }
      flows.Remove(id);
      sessions.Put(sid, Session(tokens.value.access, tokens.value.refresh, later), later);
      response := LoggedIn(sid, site.guard(Some(flow.next)));
    }

    /** The whole resolution. `began` is the monotonic clock of the deadline; its calls share one
        budget, so it ends within fourteen seconds whatever the provider does. The stored access token is
        asked about first; only a rejection spends the refresh token; the renewed access token is asked
        about in its turn. */
    method ResolveSession(sid: string, now: int, later: int, began: int, provider: Provider)
        returns (found: Resolved, ended: int)
      requires Valid()
      modifies sessions
      ensures began <= ended <= began + Retry.UPSTREAM_BUDGET
      ensures Look(site.sessions, old(sessions.entries), sid, now).None? ==>
                found.None? && sessions.entries == old(sessions.entries) && ended == began
      ensures match Look(site.sessions, old(sessions.entries), sid, now)
              case None => true
              case Some(session) =>
                var deadline := began + Retry.UPSTREAM_BUDGET;
                var first := Retry.Call(deadline, provider.identify(session.access), provider.jitter(0), began);
                match first.result
                case Ok(who) =>
                  found == Some((who, session)) && sessions.entries == old(sessions.entries) && ended == first.at
                case Err(reason) =>
                  if reason.Unreachable? || session.refresh.None? then
                    found.None? && sessions.entries == old(sessions.entries) - {sid} && ended == first.at
                  else
                    var renewal := Retry.Call(deadline, provider.renew(session.refresh.value),
                                              provider.jitter(1), first.at);
                    match renewal.result
                    case Err(_) =>
                      found.None? && sessions.entries == old(sessions.entries) - {sid} && ended == renewal.at
                    case Ok(tokens) =>
                      var second := Retry.Call(deadline, provider.identify(tokens.access),
                                               provider.jitter(2), renewal.at);
                      var renewed := Session(tokens.access, tokens.refresh, session.created);
                      var written := Stored(site.sessions, old(sessions.entries), sid, renewed, later);
                      && ended == second.at
                      && match second.result
                         case Ok(who) => found == Some((who, renewed)) && sessions.entries == written
                         case Err(_) => found.None? && sessions.entries == written - {sid}
      ensures found.Some? ==>
                exists k, at :: Vouched(provider, began, found.value.1.access, k, at) == Ok(found.value.0)
      ensures Look(site.sessions, old(sessions.entries), sid, now).Some? ==>
                var session := Look(site.sessions, old(sessions.entries), sid, now).value;
                (sessions.entries, found) ==
                ResolveAlone(site, old(sessions.entries), sid, now, later, Asked(provider, session, began))
    {
      ended, found := began, None;
      var stored := sessions.Get(sid, now);
      if stored.None? {
        return;
      }
      var session := stored.value;
      var deadline := began + Retry.UPSTREAM_BUDGET;
      Retry.CallBounds(deadline, provider.identify(session.access), provider.jitter(0), began);
      var first, at, _ := Retry.WithinOn(deadline, provider.identify(session.access), provider.jitter(0), began);
      ended := at;
      if first.Ok? {
        assert Vouched(provider, began, session.access, 0, began) == Ok(first.value);
        return Some((first.value, session)), ended;
      }
      if first.error.Rejected? && session.refresh.Some? {
        Retry.CallBounds(deadline, provider.renew(session.refresh.value), provider.jitter(1), ended);
        var renewal, renewedAt, _ := Retry.WithinOn(deadline, provider.renew(session.refresh.value),
            provider.jitter(1), ended);
        ended := renewedAt;
        if renewal.Ok? {
          var renewed := Renewed(session, renewal.value);
          sessions.Put(sid, renewed, later);
          Retry.CallBounds(deadline, provider.identify(renewed.access), provider.jitter(2), ended);
          var second, recheckedAt, _ := Retry.WithinOn(deadline, provider.identify(renewed.access),
              provider.jitter(2), ended);
          assert Vouched(provider, began, renewed.access, 2, ended) == second;
          ended := recheckedAt;
          if second.Ok? {
            return Some((second.value, renewed)), ended;
          }
        }
      }
      sessions.Remove(sid);
    }
  }
}
