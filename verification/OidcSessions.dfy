/** Login flows and sessions of `common-oidc` as a state machine over two expiring stores. A step is
    one store access together with the decision that follows it; between the steps of one request,
    while it waits on the identity provider, any other request may move. */
module OidcSessions {
  import opened Wrappers
  import opened Expiring

  datatype Session = Session(access: string, refresh: Option<string>, created: int)

  datatype Flow = Flow(state: string, verifier: string, next: string, interactiveTried: bool, created: int)

  /** `safe_next`, as far as the machine depends on it: what it makes of a raw target, and that an
      absent one becomes the root. */
  type Guard = Option<string> -> string

  datatype Site = Site(flows: Policy<Flow>, sessions: Policy<Session>, guard: Guard)

  const MINUTE := 60 * 1000
  const FLOW_AGE: nat := 10 * MINUTE
  const SESSION_AGE: nat := 12 * 60 * MINUTE

  /** The default stores, with whatever guard. */
  function DefaultSite(guard: Guard): Site {
    Site(Policy(FLOW_AGE, (f: Flow) => f.created), Policy(SESSION_AGE, (s: Session) => s.created), guard)
  }

  ghost predicate WellMade(site: Site) {
    && (forall f :: site.flows.created(f) == f.created)
    && (forall s :: site.sessions.created(s) == s.created)
    && site.guard(None) == "/"
  }

  function FlowAt(site: Site, flows: map<string, Flow>, id: Option<string>, now: int): Option<Flow> {
    if id.Some? then Look(site.flows, flows, id.value, now) else None
  }

  predicate NeedsInteraction(error: string) {
    error in ["login_required", "interaction_required", "consent_required"]
  }

  // ----- what a request sends and what it gets -------------------------------------------------

  /** The random values an authorisation request draws. */
  datatype Drawn = Drawn(id: string, state: string, verifier: string)

  /** The query of a callback: the provider's error, or a code and a state, each possibly missing. */
  datatype Query = Query(error: Option<string>, code: Option<string>, state: Option<string>)

  datatype Tokens = Tokens(access: string, refresh: Option<string>)

  /** `Silent` and `Interactive` are redirects to the provider that leave a flow cookie behind. */
  datatype Response =
    | Silent(flow: string)
    | Interactive(flow: string)
    | Refused
    | BadRequest
    | LoggedIn(session: string, next: string)

  // ----- store transitions -----------------------------------------------------------------------

  /** `start_login`. */
  function StartLogin(site: Site, flows: map<string, Flow>, drawn: Drawn, next: string, tried: bool,
      now: int): map<string, Flow> {
    Stored(site.flows, flows, drawn.id, Flow(drawn.state, drawn.verifier, next, tried, now), now)
  }

  function Redirected(drawn: Drawn, silent: bool): Response {
    if silent then Silent(drawn.id) else Interactive(drawn.id)
  }

  /** The callback's error branch, on a flow it found. */
  function ErrorBranch(site: Site, flows: map<string, Flow>, id: string, flow: Flow, error: string, drawn: Drawn,
      now: int)
      : (map<string, Flow>, Response)
  {
    var left := flows - {id};
    if NeedsInteraction(error) && !flow.interactiveTried
    then (StartLogin(site, left, drawn, site.guard(Some(flow.next)), true, now), Interactive(drawn.id))
    else (left, Refused)
  }

  /** What a callback does before it may have to wait: everything but the code exchange. */
  datatype Verdict =
    | Answered(flows: map<string, Flow>, response: Response)
    | Exchange(id: string, flow: Flow, code: string)

  function Callback(site: Site, flows: map<string, Flow>, cookie: Option<string>, query: Query, drawn: Drawn,
      now: int): Verdict {
    match FlowAt(site, flows, cookie, now)
    case None => Answered(StartLogin(site, flows, drawn, "/", false, now), Silent(drawn.id))
    case Some(flow) =>
      if query.error.Some? then
        var (left, response) := ErrorBranch(site, flows, cookie.value, flow, query.error.value, drawn, now);
        Answered(left, response)
      else if query.code.None? || query.state.None? then Answered(flows, BadRequest)
      else if query.state.value != flow.state then Answered(flows, BadRequest)
      else Exchange(cookie.value, flow, query.code.value)
  }

  // ----- the machine -----------------------------------------------------------------------------

  /** A request waiting on the identity provider. `began` is the step number of its store read. */
  datatype Waiting =
    | Exchanging(began: nat, readAt: int, presented: string, id: string, flow: Flow)
    | Asking(sid: string, session: Session)
    | Refreshing(sid: string, session: Session)
    | Rechecking(sid: string, session: Session)
    | Over

  /** A session once minted: whence, when, at which step, and where its redirect leads. */
  datatype Mint = Mint(
    sid: string,
    flow: string,
    presented: string,
    readAt: int,
    at: int,
    began: nat,
    step: nat,
    target: string)

  /** A flow once issued: as it was stored, and whether the redirect was silent. */
  datatype Issue = Issue(flow: Flow, silent: bool)

  /** `issued`, `mints`, `used` and `step` record the past; the server stores only the two maps. */
  datatype State = State(
    now: int,
    flows: map<string, Flow>,
    sessions: map<string, Session>,
    waiting: seq<Waiting>,
    issued: map<string, Issue>,
    mints: seq<Mint>,
    step: nat)

  datatype Step =
    | Tick(ms: nat)
    | Login(next: Option<string>, prompt: bool, drawn: Drawn)
    | Unauthenticated(path: Option<string>, drawn: Drawn)
    | CallbackReceived(cookie: Option<string>, query: Query, drawn: Drawn)
    | CodeExchanged(request: nat, tokens: Option<Tokens>, sid: string)
    | Resolve(sid: string)
    | IdentityAnswered(request: nat, answer: Answer)
    | Refreshed(request: nat, tokens: Option<Tokens>)
    | Logout(sid: string, fromSite: bool)

  datatype Answer = Known | RejectedToken | NoAnswer

  predicate NewFlow(s: State, drawn: Drawn) { drawn.id !in s.issued && drawn.id !in s.flows }

  predicate Minted(s: State, sid: string) { exists m | m in s.mints :: m.sid == sid }

  predicate NewSession(s: State, sid: string) { !Minted(s, sid) && sid !in s.sessions }

  function Issued(s: State, drawn: Drawn, flows: map<string, Flow>, silent: bool): State {
    if drawn.id in flows then s.(flows := flows, issued := s.issued[drawn.id := Issue(flows[drawn.id], silent)])
    else s.(flows := flows)
  }

  function End(s: State, i: nat): State
    requires i < |s.waiting|
  {
    s.(waiting := s.waiting[i := Over])
  }

  function Kill(s: State, i: nat, sid: string): State
    requires i < |s.waiting|
  {
    End(s, i).(sessions := s.sessions - {sid})
  }

  /** A login attempt under new random values; `tried` marks an interactive one. */
  function Start(site: Site, s: State, next: string, tried: bool, drawn: Drawn): State {
    if NewFlow(s, drawn) then Issued(s, drawn, StartLogin(site, s.flows, drawn, next, tried, s.now), !tried) else s
  }

  function Receive(site: Site, s: State, cookie: Option<string>, query: Query, drawn: Drawn): State {
    if !NewFlow(s, drawn) then s
    else
      match Callback(site, s.flows, cookie, query, drawn, s.now)
      case Answered(flows, response) => Issued(s, drawn, flows, response.Silent?)
      case Exchange(id, flow, _) => s.(waiting := s.waiting + [Exchanging(s.step, s.now, query.state.value, id, flow)])
  }

  function FinishExchange(site: Site, s: State, i: nat, tokens: Option<Tokens>, sid: string): State {
    if i >= |s.waiting| || !s.waiting[i].Exchanging? then s
    else if tokens.None? then End(s, i)
    else if !NewSession(s, sid) then s
    else
      var w := s.waiting[i];
      End(s, i).(flows := s.flows - {w.id},
                 sessions := Stored(site.sessions, s.sessions, sid,
                     Session(tokens.value.access, tokens.value.refresh, s.now), s.now),
                 mints := s.mints + [Mint(sid, w.id, w.presented, w.readAt, s.now, w.began, s.step,
                                          site.guard(Some(w.flow.next)))])
  }

  function StartResolve(site: Site, s: State, sid: string): State {
    match Look(site.sessions, s.sessions, sid, s.now)
    case None => s
    case Some(session) => s.(waiting := s.waiting + [Asking(sid, session)])
  }

  function TakeIdentity(s: State, i: nat, answer: Answer): State {
    if i >= |s.waiting| then s
    else
      match s.waiting[i]
      case Asking(sid, session) =>
        if answer.Known? then End(s, i)
        else if answer.RejectedToken? && session.refresh.Some? then
          s.(waiting := s.waiting[i := Refreshing(sid, session)])
        else Kill(s, i, sid)
      case Rechecking(sid, session) => if answer.Known? then End(s, i) else Kill(s, i, sid)
      case _ => s
  }

  function TakeRefresh(site: Site, s: State, i: nat, tokens: Option<Tokens>): State {
    if i >= |s.waiting| || !s.waiting[i].Refreshing? then s
    else
      var w := s.waiting[i];
      if tokens.None? then Kill(s, i, w.sid)
      else
        var renewed := Session(tokens.value.access, tokens.value.refresh, w.session.created);
        s.(sessions := Stored(site.sessions, s.sessions, w.sid, renewed, s.now),
           waiting := s.waiting[i := Rechecking(w.sid, renewed)])
  }

  function Stepped(s: State): State { s.(step := s.step + 1) }

  /** One step; what cannot happen in a state changes nothing but the step count. */
  function Next(site: Site, s: State, step: Step): State {
    Stepped(Act(site, s, step))
  }

  function Act(site: Site, s: State, step: Step): State {
    match step
    case Tick(ms) => s.(now := s.now + ms)
    case Login(next, prompt, drawn) => Start(site, s, site.guard(next), prompt, drawn)
    case Unauthenticated(path, drawn) => Start(site, s, site.guard(path), false, drawn)
    case CallbackReceived(cookie, query, drawn) => Receive(site, s, cookie, query, drawn)
    case CodeExchanged(i, tokens, sid) => FinishExchange(site, s, i, tokens, sid)
    case Resolve(sid) => StartResolve(site, s, sid)
    case IdentityAnswered(i, answer) => TakeIdentity(s, i, answer)
    case Refreshed(i, tokens) => TakeRefresh(site, s, i, tokens)
    case Logout(sid, fromSite) => if fromSite then s.(sessions := s.sessions - {sid}) else s
  }

  function Execute(site: Site, s: State, steps: seq<Step>): State
    decreases |steps|
  {
    if steps == [] then s else Execute(site, Next(site, s, steps[0]), steps[1..])
  }

  predicate Empty(s: State) {
    s.flows == map[] && s.sessions == map[] && s.waiting == [] && s.issued == map[] && s.mints == []
  }

  // ----- what every reachable state keeps ---------------------------------------------------------

  ghost predicate GuardOutput(site: Site, next: string) {
    exists raw :: next == site.guard(raw)
  }

  /** Every flow the server ever issued: guarded target, and marked tried exactly when interactive. */
  ghost predicate IssuesOk(site: Site, s: State) {
    && (forall id | id in s.issued ::
       GuardOutput(site, s.issued[id].flow.next) && s.issued[id].flow.interactiveTried == !s.issued[id].silent)
    && (forall id | id in s.flows :: id in s.issued && s.flows[id] == s.issued[id].flow)
  }

  /** A waiting exchange holds a flow as it was issued, live when it was read, with its own state. */
  ghost predicate ExchangeOk(site: Site, s: State, w: Waiting) {
    w.Exchanging? ==>
      && w.began < s.step && w.readAt <= s.now && Live(site.flows, w.flow, w.readAt)
      && w.id in s.issued && w.flow == s.issued[w.id].flow && w.presented == w.flow.state
  }

  /** The session came of a flow that was issued, was live when the callback read it, and whose
      state is the one presented. */
  ghost predicate MintOk(site: Site, s: State, m: Mint) {
    && m.began < m.step < s.step && m.readAt <= m.at <= s.now
    && m.flow in s.issued && m.presented == s.issued[m.flow].flow.state
    && Live(site.flows, s.issued[m.flow].flow, m.readAt)
    && m.target == site.guard(Some(s.issued[m.flow].flow.next))
  }

  /** A minted flow is out of the store, and whoever still holds it read it before. */
  ghost predicate FlowSpent(s: State, m: Mint) {
    && m.flow !in s.flows
    && (forall w | w in s.waiting && w.Exchanging? && w.id == m.flow :: w.began < m.step)
  }

  ghost predicate MintsApart(s: State) {
    forall i, j | 0 <= i < j < |s.mints| ::
      && s.mints[i].sid != s.mints[j].sid
      && s.mints[i].step < s.mints[j].step
      && (s.mints[i].flow == s.mints[j].flow ==> s.mints[j].began < s.mints[i].step)
  }

  /** The session whose id this is was minted at its creation time. */
  ghost predicate MintTime(s: State, sid: string, created: int) {
    exists m :: m in s.mints && m.sid == sid && m.at == created
  }

  predicate Holds(w: Waiting) { w.Asking? || w.Refreshing? || w.Rechecking? }

  ghost predicate SessionsOk(s: State) {
    && (forall sid | sid in s.sessions :: MintTime(s, sid, s.sessions[sid].created))
    && (forall w | w in s.waiting && Holds(w) :: MintTime(s, w.sid, w.session.created))
    && (forall w | w in s.waiting && w.Refreshing? :: w.session.refresh.Some?)
  }

  ghost predicate Inv(site: Site, s: State) {
    && IssuesOk(site, s)
    && (forall w | w in s.waiting :: ExchangeOk(site, s, w))
    && (forall m | m in s.mints :: MintOk(site, s, m) && FlowSpent(s, m))
    && MintsApart(s)
    && SessionsOk(s)
  }

  lemma MintTimeGrows(s: State, s': State, sid: string, created: int)
    requires MintTime(s, sid, created) && forall m | m in s.mints :: m in s'.mints
    ensures MintTime(s', sid, created)
  {
    var m :| m in s.mints && m.sid == sid && m.at == created;
    assert m in s'.mints;
  }

  /** Time may pass, flows may go, sessions and requests may come and go as long as their creation
      times are known ones: nothing is issued and nothing is minted. */
  ghost predicate Quiet(s: State, s': State) {
    && s'.step == s.step + 1 && s'.now >= s.now && s'.issued == s.issued && s'.mints == s.mints
    && (forall id | id in s'.flows :: id in s.flows && s'.flows[id] == s.flows[id])
    && (forall sid | sid in s'.sessions :: MintTime(s, sid, s'.sessions[sid].created))
    && (forall w | w in s'.waiting && Holds(w) ::
       MintTime(s, w.sid, w.session.created) && (w.Refreshing? ==> w.session.refresh.Some?))
  }

  lemma QuietKeeps(site: Site, s: State, s': State)
    requires Inv(site, s) && Quiet(s, s')
    requires forall w | w in s'.waiting && w.Exchanging? :: w in s.waiting
    ensures Inv(site, s')
  {
    forall m | m in s'.mints ensures MintOk(site, s', m) && FlowSpent(s', m) {
      assert MintOk(site, s, m) && FlowSpent(s, m);
    }
    forall w | w in s'.waiting ensures ExchangeOk(site, s', w) {
      assert w.Exchanging? ==> ExchangeOk(site, s, w);
    }
    forall sid | sid in s'.sessions ensures MintTime(s', sid, s'.sessions[sid].created) {
      MintTimeGrows(s, s', sid, s'.sessions[sid].created);
    }
    forall w | w in s'.waiting && Holds(w) ensures MintTime(s', w.sid, w.session.created) {
      MintTimeGrows(s, s', w.sid, w.session.created);
    }
  }

  /** A step that issues one flow under a new id and may drop others. */
  ghost predicate IssuesOne(s: State, s': State, id: string, issue: Issue) {
    && id !in s.issued && id !in s.flows
    && s'.step == s.step + 1 && s'.now == s.now && s'.mints == s.mints && s'.sessions == s.sessions &&
       s'.waiting == s.waiting
    && s'.issued == s.issued[id := issue]
    && (forall k | k in s'.flows ::
       if k == id then s'.flows[k] == issue.flow else k in s.flows && s'.flows[k] == s.flows[k])
  }

  lemma IssuingKeeps(site: Site, s: State, s': State, id: string, issue: Issue)
    requires Inv(site, s) && IssuesOne(s, s', id, issue)
    requires GuardOutput(site, issue.flow.next) && issue.flow.interactiveTried == !issue.silent
    ensures Inv(site, s')
  {
    forall w | w in s'.waiting ensures ExchangeOk(site, s', w) {
      assert ExchangeOk(site, s, w);
    }
    forall m | m in s'.mints ensures MintOk(site, s', m) && FlowSpent(s', m) {
      assert MintOk(site, s, m) && FlowSpent(s, m);
    }
    forall sid | sid in s'.sessions ensures MintTime(s', sid, s'.sessions[sid].created) {
      assert MintTime(s, sid, s.sessions[sid].created);
    }
    forall w | w in s'.waiting && Holds(w) ensures MintTime(s', w.sid, w.session.created) {
      assert MintTime(s, w.sid, w.session.created);
    }
  }

  /** `start_login` on the flows, of which some may have been removed just before. */
  lemma StartingKeeps(site: Site, s: State, left: map<string, Flow>, drawn: Drawn, next: string, tried: bool)
    requires Inv(site, s) && NewFlow(s, drawn) && GuardOutput(site, next)
    requires forall id | id in left :: id in s.flows && left[id] == s.flows[id]
    ensures Inv(site, Stepped(Issued(s, drawn, StartLogin(site, left, drawn, next, tried, s.now), !tried)))
  {
    var flows := StartLogin(site, left, drawn, next, tried, s.now);
    IssuingKeeps(site, s, Stepped(Issued(s, drawn, flows, !tried)), drawn.id, Issue(flows[drawn.id], !tried));
  }

  lemma DroppingKeeps(site: Site, s: State, left: map<string, Flow>)
    requires Inv(site, s) && forall id | id in left :: id in s.flows && left[id] == s.flows[id]
    ensures Inv(site, Stepped(s.(flows := left)))
  {
    QuietKeeps(site, s, Stepped(s.(flows := left)));
  }

  lemma ErrorKeeps(site: Site, s: State, id: string, flow: Flow, error: string, drawn: Drawn)
    requires Inv(site, s) && NewFlow(s, drawn)
    ensures var (flows, response) := ErrorBranch(site, s.flows, id, flow, error, drawn, s.now);
            Inv(site, Stepped(Issued(s, drawn, flows, response.Silent?)))
  {
    if NeedsInteraction(error) && !flow.interactiveTried {
      StartingKeeps(site, s, s.flows - {id}, drawn, site.guard(Some(flow.next)), true);
    } else {
      DroppingKeeps(site, s, s.flows - {id});
    }
  }

  lemma WaitingKeeps(site: Site, s: State, w: Waiting)
    requires Inv(site, s) && w.Exchanging? && w.began == s.step && w.readAt == s.now
    requires w.id in s.flows && w.flow == s.flows[w.id] && w.presented == w.flow.state &&
             Live(site.flows, w.flow, s.now)
    ensures Inv(site, Stepped(s.(waiting := s.waiting + [w])))
  {
    var s' := Stepped(s.(waiting := s.waiting + [w]));
    forall m | m in s'.mints ensures MintOk(site, s', m) && FlowSpent(s', m) {
      assert MintOk(site, s, m) && FlowSpent(s, m);
    }
    forall v | v in s'.waiting ensures ExchangeOk(site, s', v) {
      assert v != w ==> ExchangeOk(site, s, v);
    }
    forall sid | sid in s'.sessions ensures MintTime(s', sid, s'.sessions[sid].created) {
      assert MintTime(s, sid, s.sessions[sid].created);
    }
    forall v | v in s'.waiting && Holds(v) ensures MintTime(s', v.sid, v.session.created) {
      assert MintTime(s, v.sid, v.session.created);
    }
  }

  lemma ReceiveKeeps(site: Site, s: State, cookie: Option<string>, query: Query, drawn: Drawn)
    requires Inv(site, s) && WellMade(site)
    ensures Inv(site, Stepped(Receive(site, s, cookie, query, drawn)))
  {
    if !NewFlow(s, drawn) {
      DroppingKeeps(site, s, s.flows);
    } else {
      match FlowAt(site, s.flows, cookie, s.now) {
        case None =>
          assert site.guard(None) == "/";
          StartingKeeps(site, s, s.flows, drawn, "/", false);
        case Some(flow) =>
          if query.error.Some? {
            ErrorKeeps(site, s, cookie.value, flow, query.error.value, drawn);
          } else if query.code.None? || query.state.None? || query.state.value != flow.state {
            DroppingKeeps(site, s, s.flows);
          } else {
            WaitingKeeps(site, s, Exchanging(s.step, s.now, query.state.value, cookie.value, flow));
          }
      }
    }
  }

  /** A step that mints one session from a waiting exchange, takes its flow out, and may drop others. */
  ghost predicate MintsOne(site: Site, s: State, s': State, i: nat, m: Mint) {
    && i < |s.waiting| && s.waiting[i].Exchanging?
    && m == Mint(m.sid, s.waiting[i].id, s.waiting[i].presented, s.waiting[i].readAt, s.now, s.waiting[i].began,
                 s.step, site.guard(Some(s.waiting[i].flow.next)))
    && NewSession(s, m.sid)
    && s'.step == s.step + 1 && s'.now == s.now && s'.issued == s.issued && s'.mints == s.mints + [m]
    && s'.waiting == s.waiting[i := Over] && s'.flows == s.flows - {m.flow}
    && (forall k | k in s'.sessions ::
          if k == m.sid then s'.sessions[k].created == m.at else k in s.sessions && s'.sessions[k] == s.sessions[k])
  }

  lemma MintsStayApart(site: Site, s: State, s': State, i: nat, m: Mint)
    requires Inv(site, s) && MintsOne(site, s, s', i, m)
    ensures MintsApart(s')
  {
    var w := s.waiting[i];
    forall a, b | 0 <= a < b < |s'.mints|
      ensures s'.mints[a].sid != s'.mints[b].sid && s'.mints[a].step < s'.mints[b].step
      ensures s'.mints[a].flow == s'.mints[b].flow ==> s'.mints[b].began < s'.mints[a].step
    {
      if b == |s.mints| {
        assert s'.mints[a] == s.mints[a] && s.mints[a] in s.mints && w in s.waiting;
        assert FlowSpent(s, s.mints[a]) && MintOk(site, s, s.mints[a]);
      } else {
        assert s'.mints[a] == s.mints[a] && s'.mints[b] == s.mints[b];
      }
    }
  }

  lemma MintedIsOk(site: Site, s: State, s': State, i: nat, m: Mint)
    requires Inv(site, s) && MintsOne(site, s, s', i, m)
    ensures forall k | k in s'.mints :: MintOk(site, s', k) && FlowSpent(s', k)
  {
    var w := s.waiting[i];
    assert w in s.waiting && ExchangeOk(site, s, w);
    forall k | k in s'.mints ensures MintOk(site, s', k) && FlowSpent(s', k) {
      if k in s.mints {
        assert MintOk(site, s, k) && FlowSpent(s, k);
      } else {
        forall v | v in s'.waiting && v.Exchanging? ensures v.began < s.step {
          assert v in s.waiting && ExchangeOk(site, s, v);
        }
      }
    }
  }

  lemma MintingKeeps(site: Site, s: State, s': State, i: nat, m: Mint)
    requires Inv(site, s) && MintsOne(site, s, s', i, m)
    ensures Inv(site, s')
  {
    MintsStayApart(site, s, s', i, m);
    MintedIsOk(site, s, s', i, m);
    forall w | w in s'.waiting ensures ExchangeOk(site, s', w) {
      assert w in s.waiting || w.Over?;
    }
    assert m in s'.mints && MintTime(s', m.sid, m.at);
    forall k | k in s'.sessions ensures MintTime(s', k, s'.sessions[k].created) {
      if k != m.sid { MintTimeGrows(s, s', k, s.sessions[k].created); }
    }
    forall v | v in s'.waiting && Holds(v) ensures MintTime(s', v.sid, v.session.created) {
      MintTimeGrows(s, s', v.sid, v.session.created);
    }
  }

  lemma ExchangeKeeps(site: Site, s: State, i: nat, tokens: Option<Tokens>, sid: string)
    requires Inv(site, s) && WellMade(site)
    ensures Inv(site, Stepped(FinishExchange(site, s, i, tokens, sid)))
  {
    var s' := Stepped(FinishExchange(site, s, i, tokens, sid));
    if i < |s.waiting| && s.waiting[i].Exchanging? && tokens.Some? && NewSession(s, sid) {
      var w := s.waiting[i];
      MintingKeeps(site, s, s', i, Mint(sid, w.id, w.presented, w.readAt, s.now, w.began, s.step,
                                        site.guard(Some(w.flow.next))));
    } else {
      QuietKeeps(site, s, s');
    }
  }

  /** A waiting request is over or moves on with the session it holds; its session may be dropped. */
  lemma RequestKeeps(site: Site, s: State, i: nat, w: Waiting, left: map<string, Session>)
    requires Inv(site, s) && i < |s.waiting|
    requires w.Over? || (w.Refreshing? && w.session.refresh.Some? && Holds(s.waiting[i]) &&
             s.waiting[i].sid == w.sid && s.waiting[i].session == w.session)
    requires forall sid | sid in left :: sid in s.sessions && left[sid] == s.sessions[sid]
    ensures Inv(site, Stepped(s.(waiting := s.waiting[i := w], sessions := left)))
  {
    assert s.waiting[i] in s.waiting;
    QuietKeeps(site, s, Stepped(s.(waiting := s.waiting[i := w], sessions := left)));
  }

  lemma IdentityKeeps(site: Site, s: State, i: nat, answer: Answer)
    requires Inv(site, s)
    ensures Inv(site, Stepped(TakeIdentity(s, i, answer)))
  {
    if i >= |s.waiting| || !(s.waiting[i].Asking? || s.waiting[i].Rechecking?) {
      DroppingKeeps(site, s, s.flows);
    } else {
      var w := s.waiting[i];
      if answer.Known? {
        RequestKeeps(site, s, i, Over, s.sessions);
      } else if w.Asking? && answer.RejectedToken? && w.session.refresh.Some? {
        RequestKeeps(site, s, i, Refreshing(w.sid, w.session), s.sessions);
      } else {
        RequestKeeps(site, s, i, Over, s.sessions - {w.sid});
      }
    }
  }

  lemma RefreshKeeps(site: Site, s: State, i: nat, tokens: Option<Tokens>)
    requires Inv(site, s)
    ensures Inv(site, Stepped(TakeRefresh(site, s, i, tokens)))
  {
    assert i < |s.waiting| ==> s.waiting[i] in s.waiting;
    QuietKeeps(site, s, Stepped(TakeRefresh(site, s, i, tokens)));
  }

  lemma StartKeeps(site: Site, s: State, next: string, tried: bool, drawn: Drawn)
    requires Inv(site, s) && GuardOutput(site, next)
    ensures Inv(site, Stepped(Start(site, s, next, tried, drawn)))
  {
    if NewFlow(s, drawn) {
      StartingKeeps(site, s, s.flows, drawn, next, tried);
    } else {
      DroppingKeeps(site, s, s.flows);
    }
  }

  lemma ResolveKeeps(site: Site, s: State, sid: string)
    requires Inv(site, s)
    ensures Inv(site, Stepped(StartResolve(site, s, sid)))
  {
    QuietKeeps(site, s, Stepped(StartResolve(site, s, sid)));
  }

  lemma RemovingKeeps(site: Site, s: State, now: int, left: map<string, Session>)
    requires Inv(site, s) && now >= s.now
    requires forall sid | sid in left :: sid in s.sessions && left[sid] == s.sessions[sid]
    ensures Inv(site, Stepped(s.(now := now, sessions := left)))
  {
    QuietKeeps(site, s, Stepped(s.(now := now, sessions := left)));
  }

  lemma FlowActKeeps(site: Site, s: State, step: Step, s': State)
    requires Inv(site, s) && WellMade(site) && s' == Act(site, s, step)
    requires step.Login? || step.Unauthenticated? || step.CallbackReceived? || step.CodeExchanged?
    ensures Inv(site, Stepped(s'))
  {
    match step
    case Login(next, prompt, drawn) => StartKeeps(site, s, site.guard(next), prompt, drawn);
    case Unauthenticated(path, drawn) => StartKeeps(site, s, site.guard(path), false, drawn);
    case CallbackReceived(cookie, query, drawn) => ReceiveKeeps(site, s, cookie, query, drawn);
    case CodeExchanged(i, tokens, sid) => ExchangeKeeps(site, s, i, tokens, sid);
  }

  lemma TickKeeps(site: Site, s: State, step: Step, s': State)
    requires Inv(site, s) && WellMade(site) && s' == Act(site, s, step) && step.Tick?
    ensures Inv(site, Stepped(s'))
  {
    RemovingKeeps(site, s, s.now + step.ms, s.sessions);
  }

  lemma LogoutKeeps(site: Site, s: State, step: Step, s': State)
    requires Inv(site, s) && WellMade(site) && s' == Act(site, s, step) && step.Logout?
    ensures Inv(site, Stepped(s'))
  {
    RemovingKeeps(site, s, s.now, if step.fromSite then s.sessions - {step.sid} else s.sessions);
  }

  lemma ResolveActKeeps(site: Site, s: State, step: Step, s': State)
    requires Inv(site, s) && WellMade(site) && s' == Act(site, s, step) && step.Resolve?
    ensures Inv(site, Stepped(s'))
  {
    ResolveKeeps(site, s, step.sid);
  }

  lemma IdentityActKeeps(site: Site, s: State, step: Step, s': State)
    requires Inv(site, s) && WellMade(site) && s' == Act(site, s, step) && step.IdentityAnswered?
    ensures Inv(site, Stepped(s'))
  {
    IdentityKeeps(site, s, step.request, step.answer);
  }

  lemma RefreshActKeeps(site: Site, s: State, step: Step, s': State)
    requires Inv(site, s) && WellMade(site) && s' == Act(site, s, step) && step.Refreshed?
    ensures Inv(site, Stepped(s'))
  {
    RefreshKeeps(site, s, step.request, step.tokens);
  }

  lemma ActKeeps(site: Site, s: State, step: Step, s': State)
    requires Inv(site, s) && WellMade(site) && s' == Act(site, s, step)
    ensures Inv(site, Stepped(s'))
  {
    match step
    case Tick(_) => TickKeeps(site, s, step, s');
    case Logout(_, _) => LogoutKeeps(site, s, step, s');
    case Resolve(_) => ResolveActKeeps(site, s, step, s');
    case IdentityAnswered(_, _) => IdentityActKeeps(site, s, step, s');
    case Refreshed(_, _) => RefreshActKeeps(site, s, step, s');
    case _ => FlowActKeeps(site, s, step, s');
  }

  lemma NextKeeps(site: Site, s: State, step: Step, s': State)
    requires Inv(site, s) && WellMade(site) && s' == Next(site, s, step)
    ensures Inv(site, s')
  {
    ActKeeps(site, s, step, Act(site, s, step));
  }

  lemma {:induction false} ExecuteKeeps(site: Site, s: State, steps: seq<Step>)
    requires Inv(site, s) && WellMade(site)
    ensures Inv(site, Execute(site, s, steps))
    decreases |steps|
  {
    if steps != [] {
      NextKeeps(site, s, steps[0], Next(site, s, steps[0]));
      ExecuteKeeps(site, Next(site, s, steps[0]), steps[1..]);
    }
  }

  // ----- where sessions come from -------------------------------------------------------------------

  /** Every session ever minted, under any interleaving, came of a flow the server had issued, that
      was live when the callback read it, and whose stored state was the one presented. */
  lemma SessionProvenance(site: Site, s: State, steps: seq<Step>, m: Mint)
    requires Empty(s) && WellMade(site) && m in Execute(site, s, steps).mints
    ensures var end := Execute(site, s, steps);
            && m.flow in end.issued
            && m.presented == end.issued[m.flow].flow.state
            && Live(site.flows, end.issued[m.flow].flow, m.readAt) && m.readAt <= m.at
            && GuardOutput(site, end.issued[m.flow].flow.next)
            && m.target == site.guard(Some(end.issued[m.flow].flow.next))
  {
    ExecuteKeeps(site, s, steps);
    assert MintOk(site, Execute(site, s, steps), m);
  }

  /** One flow mints two sessions only through callbacks that overlap: the later one had read the
      flow before the earlier one minted. With callbacks one after the other no flow mints twice. */
  lemma OneSessionPerFlow(site: Site, s: State, steps: seq<Step>, i: nat, j: nat)
    requires Empty(s) && WellMade(site)
    requires i < j < |Execute(site, s, steps).mints|
    requires Execute(site, s, steps).mints[i].flow == Execute(site, s, steps).mints[j].flow
    ensures var mints := Execute(site, s, steps).mints;
            mints[i].sid != mints[j].sid && mints[j].began < mints[i].step < mints[j].step
  {
    ExecuteKeeps(site, s, steps);
  }

  /** Two callbacks waiting on one flow both mint when both exchanges are granted. */
  lemma OverlapMintsTwice(site: Site, s: State, i: nat, j: nat, tokens1: Tokens, tokens2: Tokens,
                          sid1: string, sid2: string)
    requires i < |s.waiting| && j < |s.waiting| && i != j
    requires s.waiting[i].Exchanging? && s.waiting[j].Exchanging? && s.waiting[i].id == s.waiting[j].id
    requires NewSession(s, sid1) && NewSession(s, sid2) && sid1 != sid2
    ensures var end := Execute(site, s, [CodeExchanged(i, Some(tokens1), sid1), CodeExchanged(j, Some(tokens2), sid2)]);
            && |end.mints| == |s.mints| + 2
            && end.mints[|s.mints|].flow == end.mints[|s.mints| + 1].flow == s.waiting[i].id
  {
    var first, second := CodeExchanged(i, Some(tokens1), sid1), CodeExchanged(j, Some(tokens2), sid2);
    var s1 := Next(site, s, first);
    assert [first, second][1..] == [second] && [second][1..] == [];
    assert s1.waiting[j] == s.waiting[j];
    assert NewSession(s1, sid2);
    var s2 := Next(site, s1, second);
    assert Execute(site, s1, [second]) == Execute(site, s2, []) == s2;
    assert Execute(site, s, [first, second]) == Execute(site, s1, [second]);
  }

  // ----- minting again ------------------------------------------------------------------------------

  /** The run minted from this flow. */
  ghost predicate MintsFrom(s: State, s': State, flow: string) {
    exists k :: |s.mints| <= k < |s'.mints| && s'.mints[k].flow == flow
  }

  /** A callback on the flow still waits for its exchange. */
  predicate Awaited(s: State, flow: string) {
    exists i | 0 <= i < |s.waiting| :: s.waiting[i].Exchanging? && s.waiting[i].id == flow
  }

  ghost predicate MintsFromLater(site: Site, s: State, flow: string) {
    exists steps :: MintsFrom(s, Execute(site, s, steps), flow)
  }

  /** An issued flow that is out of the store and that nobody waits on. */
  predicate Done(s: State, flow: string) { flow in s.issued && flow !in s.flows && !Awaited(s, flow) }

  lemma FlowStepKeepsDone(site: Site, s: State, step: Step, s': State, flow: string)
    requires Done(s, flow) && s' == Act(site, s, step)
    requires step.Login? || step.Unauthenticated? || step.CallbackReceived? || step.CodeExchanged?
    ensures Done(s', flow) && s.mints <= s'.mints && !MintsFrom(s, s', flow)
  {
    forall i | 0 <= i < |s'.waiting| ensures !(s'.waiting[i].Exchanging? && s'.waiting[i].id == flow) {
      assert i < |s.waiting| ==> !(s.waiting[i].Exchanging? && s.waiting[i].id == flow);
    }
  }

  lemma SessionStepKeepsDone(site: Site, s: State, step: Step, s': State, flow: string)
    requires Done(s, flow) && s' == Act(site, s, step)
    requires step.Tick? || step.Resolve? || step.IdentityAnswered? || step.Refreshed? || step.Logout?
    ensures Done(s', flow) && s'.mints == s.mints
  {
    forall i | 0 <= i < |s'.waiting| ensures !(s'.waiting[i].Exchanging? && s'.waiting[i].id == flow) {
      assert i < |s.waiting| ==> !(s.waiting[i].Exchanging? && s.waiting[i].id == flow);
    }
  }

  lemma StepKeepsDone(site: Site, s: State, step: Step, s': State, flow: string)
    requires Done(s, flow) && s' == Next(site, s, step)
    ensures Done(s', flow) && s.mints <= s'.mints && !MintsFrom(s, s', flow)
  {
    var acted := Act(site, s, step);
    if step.Login? || step.Unauthenticated? || step.CallbackReceived? || step.CodeExchanged? {
      FlowStepKeepsDone(site, s, step, acted, flow);
    } else {
      SessionStepKeepsDone(site, s, step, acted, flow);
    }
    assert Awaited(s', flow) == Awaited(acted, flow) && MintsFrom(s, s', flow) == MintsFrom(s, acted, flow);
  }

  lemma {:induction false} DoneStaysDone(site: Site, s: State, steps: seq<Step>, flow: string)
    requires Done(s, flow)
    ensures s.mints <= Execute(site, s, steps).mints && !MintsFrom(s, Execute(site, s, steps), flow)
    decreases |steps|
  {
    if steps != [] {
      var s' := Next(site, s, steps[0]);
      StepKeepsDone(site, s, steps[0], s', flow);
      DoneStaysDone(site, s', steps[1..], flow);
      var end := Execute(site, s', steps[1..]);
      forall k | |s.mints| <= k < |end.mints| ensures end.mints[k].flow != flow {
        assert k < |s'.mints| ==> end.mints[k] == s'.mints[k];
      }
    }
  }

  lemma LongerThanAll(used: set<string>) returns (n: nat)
    ensures forall u | u in used :: |u| <= n
    decreases |used|
  {
    n := 0;
    if used != {} {
      var u :| u in used;
      var m := LongerThanAll(used - {u});
      n := if m < |u| then |u| else m;
    }
  }

  lemma NewSessionId(s: State) returns (sid: string)
    ensures NewSession(s, sid)
  {
    var n := LongerThanAll(s.sessions.Keys + set m | m in s.mints :: m.sid);
    sid := seq(n + 1, _ => 'x');
    forall m | m in s.mints ensures m.sid != sid { assert m.sid in set m | m in s.mints :: m.sid; }
    assert sid !in s.sessions.Keys;
  }

  /** Exactly when a flow that has minted a session can mint another: some callback read it before and
      still waits for its exchange. Where no two callbacks on a flow overlap, none ever mints twice. */
  lemma MintsAgainExactly(site: Site, s: State, m: Mint)
    requires Inv(site, s) && m in s.mints
    ensures MintsFromLater(site, s, m.flow) <==> Awaited(s, m.flow)
  {
    assert MintOk(site, s, m) && FlowSpent(s, m);
    if Awaited(s, m.flow) {
      var i :| 0 <= i < |s.waiting| && s.waiting[i].Exchanging? && s.waiting[i].id == m.flow;
      var sid := NewSessionId(s);
      var step := CodeExchanged(i, Some(Tokens("", None)), sid);
      var s' := Next(site, s, step);
      assert [step][1..] == [];
      assert Execute(site, s, [step]) == Execute(site, s', []) == s';
      assert s'.mints[|s.mints|].flow == m.flow;
    } else {
      forall steps ensures !MintsFrom(s, Execute(site, s, steps), m.flow) {
        DoneStaysDone(site, s, steps, m.flow);
      }
    }
  }

  // ----- two runs of an empty server --------------------------------------------------------------------

  lemma {:induction false} ExecuteConcat(site: Site, s: State, a: seq<Step>, b: seq<Step>)
    ensures Execute(site, s, a + b) == Execute(site, Execute(site, s, a), b)
    decreases |a|
  {
    if a == [] {
      assert a + b == b;
    } else {
      assert (a + b)[1..] == a[1..] + b;
      ExecuteConcat(site, Next(site, s, a[0]), a[1..], b);
    }
  }

  lemma ExecuteOne(site: Site, s: State, step: Step)
    ensures Execute(site, s, [step]) == Next(site, s, step)
  {
    assert [step][1..] == [];
  }

  lemma ExecuteTwo(site: Site, s: State, a: Step, b: Step)
    ensures Execute(site, s, [a, b]) == Next(site, Next(site, s, a), b)
  {
    assert [a, b][1..] == [b] && [b][1..] == [];
    assert Execute(site, Next(site, s, a), [b]) == Execute(site, Next(site, Next(site, s, a), b), []);
  }

  /** The browser comes back with the code, bearing the flow's cookie and state. */
  function ComesBack(flow: Drawn, code: string, drawn: Drawn): Step {
    CallbackReceived(Some(flow.id), Query(None, Some(code), Some(flow.state)), drawn)
  }

  function Exchange0(s: State, guard: Guard, flow: Drawn, began: nat): Waiting {
    Exchanging(began, s.now, flow.state, flow.id, Flow(flow.state, flow.verifier, guard(None), false, s.now))
  }

  /** A silent login, and the browser's return. */
  lemma LoginAndReturn(guard: Guard, s: State, flow: Drawn, other: Drawn, code: string)
    requires Empty(s) && flow.id != other.id
    ensures var s' := Execute(DefaultSite(guard), s, [Login(None, false, flow), ComesBack(flow, code, other)]);
      && s'.waiting == [Exchange0(s, guard, flow, s.step + 1)] && s'.now == s.now && s'.step == s.step + 2
      && s'.sessions == map[] && s'.mints == [] && s'.issued.Keys == {flow.id}
      && s'.flows == map[flow.id := Exchange0(s, guard, flow, 0).flow]
  {
    var site := DefaultSite(guard);
    var login, back := Login(None, false, flow), ComesBack(flow, code, other);
    ExecuteTwo(site, s, login, back);
    var s1 := Next(site, s, login);
    assert s1.flows == map[flow.id := Exchange0(s, guard, flow, 0).flow];
    assert FlowAt(site, s1.flows, Some(flow.id), s1.now) == Some(s1.flows[flow.id]);
  }

  /** The browser returns twice, each time with a code of its own, before the first exchange is over,
      and an empty server comes to hold two sessions of one flow. */
  lemma {:induction false} ReturningTwiceMintsTwice(guard: Guard, s: State, flow: Drawn, other: Drawn,
                                                    code: string, again: string, tokens1: Tokens, tokens2: Tokens,
                                                    sid1: string, sid2: string)
    requires Empty(s) && flow.id != other.id && code != again && sid1 != sid2
    ensures var back, backAgain := ComesBack(flow, code, other), ComesBack(flow, again, other);
      var end := Execute(DefaultSite(guard), s,
                         [Login(None, false, flow), back] +
                         ([backAgain, CodeExchanged(0, Some(tokens1), sid1)] +
                          [CodeExchanged(1, Some(tokens2), sid2)]));
      && |end.mints| == 2 && end.mints[0].flow == end.mints[1].flow == flow.id
      && end.mints[0].sid == sid1 && end.mints[1].sid == sid2 && end.sessions.Keys == {sid1, sid2}
  {
    var site, back, backAgain := DefaultSite(guard), ComesBack(flow, code, other), ComesBack(flow, again, other);
    var first, second := CodeExchanged(0, Some(tokens1), sid1), CodeExchanged(1, Some(tokens2), sid2);
    LoginAndReturn(guard, s, flow, other, code);
    var s2 := Execute(site, s, [Login(None, false, flow), back]);
    ExecuteConcat(site, s, [Login(None, false, flow), back], [backAgain, first] + [second]);
    ExecuteConcat(site, s2, [backAgain, first], [second]);
    ExecuteTwo(site, s2, backAgain, first);
    var s3 := Next(site, s2, backAgain);
    ReturnedAgain(guard, s, s2, flow, again, other, s3);
    BothExchanged(guard, s3, flow, tokens1, tokens2, sid1, sid2);
    ExecuteOne(site, Next(site, s3, first), second);
  }

  lemma ReturnedAgain(guard: Guard, s: State, s2: State, flow: Drawn, again: string, other: Drawn, s3: State)
    requires flow.id != other.id && s2.waiting == [Exchange0(s, guard, flow, s.step + 1)] && s2.now == s.now
    requires s2.sessions == map[] && s2.mints == [] && s2.issued.Keys == {flow.id}
    requires s2.flows == map[flow.id := Exchange0(s, guard, flow, 0).flow]
    requires s3 == Next(DefaultSite(guard), s2, ComesBack(flow, again, other))
    ensures |s3.waiting| == 2 && s3.waiting[0].Exchanging? && s3.waiting[1].Exchanging?
    ensures s3.waiting[0].id == s3.waiting[1].id == flow.id
    ensures s3.sessions == map[] && s3.mints == []
  {
    var site := DefaultSite(guard);
    assert FlowAt(site, s2.flows, Some(flow.id), s2.now) == Some(s2.flows[flow.id]);
    assert s3.waiting[0] == s2.waiting[0];
  }

  lemma BothExchanged(guard: Guard, s3: State, flow: Drawn, tokens1: Tokens, tokens2: Tokens, sid1: string,
                      sid2: string)
    requires sid1 != sid2 && s3.sessions == map[] && s3.mints == []
    requires |s3.waiting| == 2 && s3.waiting[0].Exchanging? && s3.waiting[1].Exchanging?
    requires s3.waiting[0].id == s3.waiting[1].id == flow.id
    ensures var site := DefaultSite(guard);
      var s4 := Next(site, s3, CodeExchanged(0, Some(tokens1), sid1));
      var end := Next(site, s4, CodeExchanged(1, Some(tokens2), sid2));
      && |end.mints| == 2 && end.mints[0].flow == end.mints[1].flow == flow.id
      && end.mints[0].sid == sid1 && end.mints[1].sid == sid2 && end.sessions.Keys == {sid1, sid2}
  {
    var site := DefaultSite(guard);
    var first, second := CodeExchanged(0, Some(tokens1), sid1), CodeExchanged(1, Some(tokens2), sid2);
    OverlapMintsTwice(site, s3, 0, 1, tokens1, tokens2, sid1, sid2);
    ExecuteTwo(site, s3, first, second);
    var s4 := Next(site, s3, first);
    assert s4.sessions.Keys == {sid1} && s4.waiting[1] == s3.waiting[1];
  }

  /** Every flow in the store was issued with a guarded target, and bears the tried mark exactly
      when its redirect was interactive. */
  lemma StoredFlows(site: Site, s: State, steps: seq<Step>, id: string)
    requires Empty(s) && WellMade(site) && id in Execute(site, s, steps).flows
    ensures var end := Execute(site, s, steps);
            && GuardOutput(site, end.flows[id].next)
            && id in end.issued && end.flows[id].interactiveTried == !end.issued[id].silent
  {
    ExecuteKeeps(site, s, steps);
  }

  // ----- how long sessions live ----------------------------------------------------------------------

  predicate Readable(site: Site, s: State, sid: string) {
    Look(site.sessions, s.sessions, sid, s.now).Some?
  }

  /** A minted session's age limit has not passed. */
  predicate Unexpired(site: Site, s: State, sid: string) {
    exists m | m in s.mints :: m.sid == sid && (s.now < m.at || s.now - m.at < site.sessions.maxAge)
  }

  /** No sequence of refreshes keeps a session readable at or past its minting time plus the age limit. */
  lemma RefreshNeverExtends(site: Site, s: State, steps: seq<Step>, sid: string)
    requires Empty(s) && WellMade(site) && Readable(site, Execute(site, s, steps), sid)
    ensures var end := Execute(site, s, steps);
            exists m | m in end.mints :: m.sid == sid && end.now < m.at + site.sessions.maxAge
  {
    ExecuteKeeps(site, s, steps);
    var end := Execute(site, s, steps);
    var m :| m in end.mints && m.sid == sid && m.at == end.sessions[sid].created;
    assert MintOk(site, end, m);
  }

  /** A request that may still write the session back: it holds a refresh token it has not used. */
  predicate WritesBack(w: Waiting, sid: string) {
    (w.Refreshing? || (w.Asking? && w.session.refresh.Some?)) && w.sid == sid
  }

  predicate Pending(s: State, sid: string) {
    exists i | 0 <= i < |s.waiting| :: WritesBack(s.waiting[i], sid)
  }

  /** What can still bring the session before a reader. */
  predicate Recoverable(site: Site, s: State, sid: string) {
    Unexpired(site, s, sid) && (sid in s.sessions || Pending(s, sid))
  }

  ghost predicate ReadableLater(site: Site, s: State, sid: string) {
    exists steps :: Readable(site, Execute(site, s, steps), sid)
  }

  lemma ReadableIsUnexpired(site: Site, s: State, sid: string)
    requires Inv(site, s) && WellMade(site) && Readable(site, s, sid)
    ensures Unexpired(site, s, sid)
  {
    var m :| m in s.mints && m.sid == sid && m.at == s.sessions[sid].created;
  }

  lemma UnexpiredIsReadable(site: Site, s: State, sid: string)
    requires Inv(site, s) && WellMade(site) && Unexpired(site, s, sid) && sid in s.sessions
    ensures Readable(site, s, sid)
  {
    var m :| m in s.mints && m.sid == sid && (s.now < m.at || s.now - m.at < site.sessions.maxAge);
    var m' :| m' in s.mints && m'.sid == sid && m'.at == s.sessions[sid].created;
    SameMint(site, s, m, m');
  }

  lemma SameMint(site: Site, s: State, m: Mint, m': Mint)
    requires Inv(site, s) && m in s.mints && m' in s.mints && m.sid == m'.sid
    ensures m == m'
  {
    var i :| 0 <= i < |s.mints| && s.mints[i] == m;
    var j :| 0 <= j < |s.mints| && s.mints[j] == m';
  }

  /** Mints are never forgotten, and an expired one does not come back to life. */
  lemma StaysExpired(site: Site, s: State, s': State, sid: string)
    requires Minted(s, sid) && !Unexpired(site, s, sid) && s.now <= s'.now
    requires forall m | m in s'.mints :: m.sid == sid ==> m in s.mints
    ensures !Unexpired(site, s', sid)
  {
  }

  /** To one session id, nothing new unless a pending request writes it back. */
  predicate Leaves(s: State, s': State, sid: string) {
    && s.now <= s'.now
    && s.mints <= s'.mints && (forall m | m in s'.mints :: m.sid == sid ==> m in s.mints)
    && (sid !in s.sessions && !Pending(s, sid) ==> sid !in s'.sessions && !Pending(s', sid))
  }

  lemma NothingPendingGrows(s: State, s': State, sid: string)
    requires !Pending(s, sid)
    requires forall i | 0 <= i < |s'.waiting| :: (i < |s.waiting| && s'.waiting[i] == s.waiting[i]) ||
               s'.waiting[i].Exchanging? || s'.waiting[i].Over?
    ensures !Pending(s', sid)
  {
    forall i | 0 <= i < |s'.waiting| ensures !WritesBack(s'.waiting[i], sid) {
      assert i < |s.waiting| ==> !WritesBack(s.waiting[i], sid);
    }
  }

  lemma StartStepLeaves(site: Site, s: State, step: Step, s': State, sid: string)
    requires Minted(s, sid) && s' == Act(site, s, step)
    requires step.Login? || step.Unauthenticated? || step.CallbackReceived?
    ensures Leaves(s, s', sid)
  {
    if !Pending(s, sid) { NothingPendingGrows(s, s', sid); }
  }

  lemma ExchangeStepLeaves(site: Site, s: State, step: Step, s': State, sid: string)
    requires Minted(s, sid) && s' == Act(site, s, step) && step.CodeExchanged?
    ensures Leaves(s, s', sid)
  {
    if !Pending(s, sid) { NothingPendingGrows(s, s', sid); }
  }

  lemma SessionStepLeaves(site: Site, s: State, step: Step, s': State, sid: string)
    requires Minted(s, sid) && s' == Act(site, s, step)
    requires step.Tick? || step.Resolve? || step.IdentityAnswered? || step.Refreshed? || step.Logout?
    ensures Leaves(s, s', sid)
  {
    if sid !in s.sessions && !Pending(s, sid) {
      forall i | 0 <= i < |s'.waiting| ensures !WritesBack(s'.waiting[i], sid) {
        assert i < |s.waiting| ==> !WritesBack(s.waiting[i], sid);
      }
    }
  }

  lemma StepOnSession(site: Site, s: State, step: Step, s': State, sid: string)
    requires Minted(s, sid) && s' == Act(site, s, step)
    ensures Leaves(s, s', sid)
  {
    if step.Login? || step.Unauthenticated? || step.CallbackReceived? {
      StartStepLeaves(site, s, step, s', sid);
    } else if step.CodeExchanged? {
      ExchangeStepLeaves(site, s, step, s', sid);
    } else {
      SessionStepLeaves(site, s, step, s', sid);
    }
  }

  lemma {:induction false} LostStaysLost(site: Site, s: State, steps: seq<Step>, sid: string)
    requires Inv(site, s) && WellMade(site) && Minted(s, sid) && !Recoverable(site, s, sid)
    ensures !Readable(site, Execute(site, s, steps), sid)
    decreases |steps|
  {
    if steps == [] {
      if Readable(site, s, sid) { ReadableIsUnexpired(site, s, sid); }
    } else {
      var s1, s' := Act(site, s, steps[0]), Next(site, s, steps[0]);
      NextKeeps(site, s, steps[0], s');
      StepOnSession(site, s, steps[0], s1, sid);
      var m :| m in s.mints && m.sid == sid;
      assert m in s'.mints;
      if !Unexpired(site, s, sid) { StaysExpired(site, s, s', sid); }
      assert Pending(s', sid) <==> Pending(s1, sid);
      LostStaysLost(site, s', steps[1..], sid);
    }
  }

  /** A pending request brings it back: the provider rejects the token, then grants a refresh. */
  lemma PendingBringsBack(site: Site, s: State, sid: string, i: nat)
    requires Inv(site, s) && WellMade(site) && Unexpired(site, s, sid)
    requires i < |s.waiting| && WritesBack(s.waiting[i], sid)
    ensures ReadableLater(site, s, sid)
  {
    var tokens := Tokens("", None);
    var refreshed := Refreshed(i, Some(tokens));
    var asked := IdentityAnswered(i, RejectedToken);
    if s.waiting[i].Asking? {
      var s1 := Next(site, s, asked);
      NextKeeps(site, s, asked, s1);
      assert s1.waiting[i] == Refreshing(sid, s.waiting[i].session);
      RefreshBringsBack(site, s1, sid, i, tokens);
      assert [asked, refreshed][1..] == [refreshed];
      assert Execute(site, s, [asked, refreshed]) == Execute(site, s1, [refreshed]);
    } else {
      RefreshBringsBack(site, s, sid, i, tokens);
    }
  }

  lemma RefreshBringsBack(site: Site, s: State, sid: string, i: nat, tokens: Tokens)
    requires Inv(site, s) && WellMade(site) && Unexpired(site, s, sid)
    requires i < |s.waiting| && s.waiting[i].Refreshing? && s.waiting[i].sid == sid
    ensures Readable(site, Execute(site, s, [Refreshed(i, Some(tokens))]), sid)
  {
    var step := Refreshed(i, Some(tokens));
    var s' := Next(site, s, step);
    NextKeeps(site, s, step, s');
    assert [step][1..] == [];
    assert Execute(site, s, [step]) == Execute(site, s', []) == s';
    assert sid in s'.sessions && s'.mints == s.mints && s'.now == s.now;
    UnexpiredIsReadable(site, s', sid);
  }

  /** Exactly when a minted session can be read again, now or after anything that may follow: its
      age allows it, and it is stored or some request under way may write it back. */
  lemma ReadableAgainExactly(site: Site, s: State, sid: string)
    requires Inv(site, s) && WellMade(site) && Minted(s, sid)
    ensures ReadableLater(site, s, sid) <==> Recoverable(site, s, sid)
  {
    if Recoverable(site, s, sid) {
      if sid in s.sessions {
        UnexpiredIsReadable(site, s, sid);
        assert Readable(site, Execute(site, s, []), sid);
      } else {
        var i :| 0 <= i < |s.waiting| && WritesBack(s.waiting[i], sid);
        PendingBringsBack(site, s, sid, i);
      }
    } else {
      forall steps ensures !Readable(site, Execute(site, s, steps), sid) {
        LostStaysLost(site, s, steps, sid);
      }
    }
  }

  lemma LoggedOut(site: Site, s: State, out: State, sid: string)
    requires Inv(site, s) && WellMade(site) && Minted(s, sid) && Unexpired(site, s, sid)
    requires out == Next(site, s, Logout(sid, true))
    ensures !ReadableLater(site, out, sid) <==> !Pending(s, sid)
  {
    NextKeeps(site, s, Logout(sid, true), out);
    assert out.mints == s.mints && out.waiting == s.waiting && out.now == s.now;
    ReadableAgainExactly(site, out, sid);
  }

  /** A logout from elsewhere might as well not have been sent: in any run it does what a moment passing
      does, nothing. One from the site itself removes its session and no other. */
  lemma ForeignLogoutIsIdle(site: Site, s: State, before: seq<Step>, sid: string, after: seq<Step>)
    ensures Execute(site, s, before + [Logout(sid, false)] + after) == Execute(site, s, before + [Tick(0)] + after)
    ensures var end := Execute(site, s, before);
            var out := Execute(site, s, before + [Logout(sid, true)]);
            && sid !in out.sessions
            && (forall other | other != sid :: other in out.sessions <==> other in end.sessions)
            && (forall other | other in out.sessions :: out.sessions[other] == end.sessions[other])
            && out == Stepped(end.(sessions := out.sessions))
  {
    var end := Execute(site, s, before);
    forall step: Step
      ensures Execute(site, s, before + [step]) == Next(site, end, step)
      ensures Execute(site, s, before + [step] + after) == Execute(site, Next(site, end, step), after)
    {
      ExecuteConcat(site, s, before, [step]);
      ExecuteOne(site, end, step);
      ExecuteConcat(site, s, before + [step], after);
    }
  }

  /** An accepted logout ends an unexpired session for good if and only if no request on it is still
      waiting with a refresh token in hand; in particular when its requests do not overlap. */
  lemma LogoutIsFinalExactly(site: Site, s: State, steps: seq<Step>, sid: string)
    requires Empty(s) && WellMade(site)
    requires Minted(Execute(site, s, steps), sid) && Unexpired(site, Execute(site, s, steps), sid)
    ensures var end := Execute(site, s, steps);
            var out := Next(site, end, Logout(sid, true));
            !ReadableLater(site, out, sid) <==> !Pending(end, sid)
  {
    ExecuteKeeps(site, s, steps);
    var end := Execute(site, s, steps);
    LoggedOut(site, end, Next(site, end, Logout(sid, true)), sid);
  }

  /** On an empty server: a session is minted, a request reads it and waits, the logout is accepted,
      and the request, whose token the provider rejects, writes it back renewed. */
  lemma {:induction false} LogoutUndone(guard: Guard, s: State, flow: Drawn, other: Drawn, code: string,
                                        refresh: string, renewed: Tokens, sid: string,
                                        reading: State, out: State, end: State)
    requires Empty(s) && flow.id != other.id
    requires reading == Execute(DefaultSite(guard), s,
                                [Login(None, false, flow), ComesBack(flow, code, other)] +
                                [CodeExchanged(0, Some(Tokens("", Some(refresh))), sid), Resolve(sid)])
    requires out == Next(DefaultSite(guard), reading, Logout(sid, true))
    requires end == Execute(DefaultSite(guard), out, [IdentityAnswered(1, RejectedToken), Refreshed(1, Some(renewed))])
    ensures Minted(reading, sid) && Unexpired(DefaultSite(guard), reading, sid) && Pending(reading, sid)
    ensures sid !in out.sessions && Readable(DefaultSite(guard), end, sid)
  {
    ReadAndWaiting(guard, s, flow, other, code, refresh, sid, reading);
    BroughtBack(guard, reading, out, end, sid, Session("", Some(refresh), s.now), renewed);
  }

  lemma ReadAndWaiting(guard: Guard, s: State, flow: Drawn, other: Drawn, code: string, refresh: string, sid: string,
                       reading: State)
    requires Empty(s) && flow.id != other.id
    requires reading == Execute(DefaultSite(guard), s,
                                [Login(None, false, flow), ComesBack(flow, code, other)] +
                                [CodeExchanged(0, Some(Tokens("", Some(refresh))), sid), Resolve(sid)])
    ensures reading.waiting == [Over, Asking(sid, Session("", Some(refresh), s.now))] && reading.now == s.now
    ensures Minted(reading, sid) && Unexpired(DefaultSite(guard), reading, sid) && Pending(reading, sid)
  {
    var site := DefaultSite(guard);
    var exchange, resolve := CodeExchanged(0, Some(Tokens("", Some(refresh))), sid), Resolve(sid);
    var login := [Login(None, false, flow), ComesBack(flow, code, other)];
    var s2 := Execute(site, s, login);
    LoginAndReturn(guard, s, flow, other, code);
    ThenTwo(site, s, login, exchange, resolve, reading);
    var s3 := Next(site, s2, exchange);
    FirstSession(guard, s, s2, flow, refresh, sid, s3);
    FirstRead(guard, s3, sid, Session("", Some(refresh), s.now), reading);
  }

  lemma BroughtBack(guard: Guard, reading: State, out: State, end: State, sid: string, session: Session,
                    renewed: Tokens)
    requires reading.waiting == [Over, Asking(sid, session)] && session.refresh.Some?
    requires session.created == reading.now && out == Next(DefaultSite(guard), reading, Logout(sid, true))
    requires end == Execute(DefaultSite(guard), out, [IdentityAnswered(1, RejectedToken), Refreshed(1, Some(renewed))])
    ensures sid !in out.sessions && Readable(DefaultSite(guard), end, sid)
  {
    WrittenBack(guard, out, sid, session, renewed);
  }

  lemma ThenTwo(site: Site, s: State, steps: seq<Step>, a: Step, b: Step, end: State)
    requires end == Execute(site, s, steps + [a, b])
    ensures end == Next(site, Next(site, Execute(site, s, steps), a), b)
  {
    ExecuteConcat(site, s, steps, [a, b]);
    ExecuteTwo(site, Execute(site, s, steps), a, b);
  }

  lemma FirstSession(guard: Guard, s: State, s2: State, flow: Drawn, refresh: string, sid: string, s3: State)
    requires s2.waiting == [Exchange0(s, guard, flow, s.step + 1)] && s2.now == s.now
    requires s2.sessions == map[] && s2.mints == []
    requires s3 == Next(DefaultSite(guard), s2, CodeExchanged(0, Some(Tokens("", Some(refresh))), sid))
    ensures s3.sessions == map[sid := Session("", Some(refresh), s.now)] && s3.waiting == [Over] && s3.now == s.now
    ensures |s3.mints| == 1 && s3.mints[0].sid == sid && s3.mints[0].at == s.now
  {
  }

  lemma FirstRead(guard: Guard, s3: State, sid: string, session: Session, reading: State)
    requires s3.sessions == map[sid := session] && session.created == s3.now && session.refresh.Some?
    requires s3.waiting == [Over] && |s3.mints| == 1 && s3.mints[0].sid == sid && s3.mints[0].at == s3.now
    requires reading == Next(DefaultSite(guard), s3, Resolve(sid))
    ensures reading.waiting == [Over, Asking(sid, session)] && reading.now == s3.now
    ensures Minted(reading, sid) && Unexpired(DefaultSite(guard), reading, sid) && Pending(reading, sid)
  {
    assert Look(DefaultSite(guard).sessions, s3.sessions, sid, s3.now) == Some(session);
    assert reading.waiting == [Over, Asking(sid, session)] && WritesBack(reading.waiting[1], sid);
    assert s3.mints[0] in reading.mints;
  }

  lemma WrittenBack(guard: Guard, out: State, sid: string, session: Session, renewed: Tokens)
    requires out.waiting == [Over, Asking(sid, session)] && session.refresh.Some? && session.created == out.now
    ensures var site := DefaultSite(guard);
      Readable(site, Execute(site, out, [IdentityAnswered(1, RejectedToken), Refreshed(1, Some(renewed))]), sid)
  {
    var site := DefaultSite(guard);
    var answer, refreshed := IdentityAnswered(1, RejectedToken), Refreshed(1, Some(renewed));
    ExecuteTwo(site, out, answer, refreshed);
    AsksForRefresh(site, out, sid, session);
    IsRenewed(guard, Next(site, out, answer), sid, session, renewed);
  }

  lemma AsksForRefresh(site: Site, s: State, sid: string, session: Session)
    requires s.waiting == [Over, Asking(sid, session)] && session.refresh.Some?
    ensures Next(site, s, IdentityAnswered(1, RejectedToken)) ==
            s.(waiting := [Over, Refreshing(sid, session)], step := s.step + 1)
  {
    assert s.waiting[1 := Refreshing(sid, session)] == [Over, Refreshing(sid, session)];
  }

  lemma IsRenewed(guard: Guard, s: State, sid: string, session: Session, renewed: Tokens)
    requires s.waiting == [Over, Refreshing(sid, session)] && session.created == s.now
    ensures Readable(DefaultSite(guard), Next(DefaultSite(guard), s, Refreshed(1, Some(renewed))), sid)
  {
    var end := Next(DefaultSite(guard), s, Refreshed(1, Some(renewed)));
    assert s.waiting[1] == Refreshing(sid, session);
    assert sid in end.sessions && end.sessions[sid].created == end.now;
  }

  // ----- the loop breaker ------------------------------------------------------------------------------

  /** The browser comes back from the provider with an error, bearing the last cookie it was given. */
  datatype Visit = Visit(error: string, drawn: Drawn, now: int)

  /** The answers along such visits, until one leaves no flow to follow. */
  function Trail(site: Site, flows: map<string, Flow>, cookie: string, visits: seq<Visit>): seq<Response>
    decreases |visits|
  {
    if visits == [] then []
    else
      var v := visits[0];
      match Callback(site, flows, Some(cookie), Query(Some(v.error), None, None), v.drawn, v.now)
      case Answered(flows', response) =>
        [response] +
        (if response.Silent? || response.Interactive? then Trail(site, flows', response.flow, visits[1..]) else [])
      case Exchange(_, _, _) => []
  }

  /** From any live flow: one escalation at most, and only from a flow not yet tried. The visit that
      follows the escalation is refused exactly when it comes before the escalated flow expires;
      after that it starts over silently. */
  lemma LoopBreaker(site: Site, flows: map<string, Flow>, cookie: string, visits: seq<Visit>)
    requires WellMade(site) && visits != []
    requires Look(site.flows, flows, cookie, visits[0].now).Some?
    ensures var flow := flows[cookie];
            var trail := Trail(site, flows, cookie, visits);
            && trail != []
            && (trail[0] ==
                if NeedsInteraction(visits[0].error) && !flow.interactiveTried then Interactive(visits[0].drawn.id)
                else Refused)
            && (trail[0].Refused? ==> |trail| == 1)
            && (trail[0].Interactive? && |visits| > 1 ==>
                  && |trail| >= 2
                  && (trail[1] == Refused <==>
                      visits[1].now < visits[0].now || visits[1].now - visits[0].now < site.flows.maxAge)
                  && (trail[1] == Refused ==> |trail| == 2)
                  && (trail[1] != Refused ==> trail[1] == Silent(visits[1].drawn.id)))
  {
    var v, flow := visits[0], flows[cookie];
    if NeedsInteraction(v.error) && !flow.interactiveTried && |visits| > 1 {
      var flows' := StartLogin(site, flows - {cookie}, v.drawn, site.guard(Some(flow.next)), true, v.now);
      assert flows'[v.drawn.id].interactiveTried && flows'[v.drawn.id].created == v.now;
      assert Trail(site, flows, cookie, visits) ==
             [Interactive(v.drawn.id)] + Trail(site, flows', v.drawn.id, visits[1..]);
      assert visits[1..][0] == visits[1];
    }
  }

  /** A flow that was escalated is not escalated again. */
  lemma TriedIsNotEscalated(site: Site, flows: map<string, Flow>, cookie: string, visits: seq<Visit>)
    requires cookie in flows && flows[cookie].interactiveTried
    ensures var trail := Trail(site, flows, cookie, visits); trail == [] || trail[0].Refused? || trail[0].Silent?
  {
  }

  /** The trail goes on behind this answer, and if it escalated, not with another escalation. */
  predicate Breaks(trail: seq<Response>, i: nat)
    requires i + 1 < |trail|
  {
    !trail[i].Refused? && (trail[i].Interactive? ==> trail[i + 1].Refused? || trail[i + 1].Silent?)
  }

  /** On any trail, however late its visits come: a refusal is the end, and no escalation is answered
      by another. Only a silent start, on a flow gone meanwhile, can come between two. */
  lemma {:induction false} EscalationsNeverChain(site: Site, flows: map<string, Flow>, cookie: string,
                                                 visits: seq<Visit>, trail: seq<Response>)
    requires trail == Trail(site, flows, cookie, visits)
    ensures forall i: nat | i + 1 < |trail| :: Breaks(trail, i)
    decreases |visits|
  {
    if visits != [] {
      var v := visits[0];
      var answer := Callback(site, flows, Some(cookie), Query(Some(v.error), None, None), v.drawn, v.now);
      if answer.Answered? && (answer.response.Silent? || answer.response.Interactive?) {
        var next := answer.response.flow;
        var rest := Trail(site, answer.flows, next, visits[1..]);
        EscalationsNeverChain(site, answer.flows, next, visits[1..], rest);
        if answer.response.Interactive? { TriedIsNotEscalated(site, answer.flows, next, visits[1..]); }
        assert trail == [answer.response] + rest;
        forall i: nat | i + 1 < |trail| ensures Breaks(trail, i) {
          if i > 0 { assert Breaks(rest, i - 1); }
        }
      }
    }
  }

  // ----- the loop breaker among other requests ------------------------------------------------------------

  /** What a callback that brings an error is answered at once. */
  function ErrorAnswer(site: Site, s: State, cookie: string, query: Query, drawn: Drawn): Response
    requires query.error.Some?
  {
    Callback(site, s.flows, Some(cookie), query, drawn, s.now).response
  }

  /** In every reachable state an error escalates exactly from a live flow whose redirect was silent;
      on any other live flow it is refused, and on a flow that is gone the login starts over. */
  lemma ErrorAnsweredExactly(site: Site, s: State, steps: seq<Step>, cookie: string, query: Query, drawn: Drawn)
    requires Empty(s) && WellMade(site) && query.error.Some?
    ensures var end := Execute(site, s, steps);
      var answer := ErrorAnswer(site, end, cookie, query, drawn);
      match FlowAt(site, end.flows, Some(cookie), end.now)
      case None => answer == Silent(drawn.id)
      case Some(_) =>
        && cookie in end.issued
        && answer == if query.error.value in ["login_required", "interaction_required", "consent_required"]
                        && end.issued[cookie].silent
                     then Interactive(drawn.id) else Refused
  {
    ExecuteKeeps(site, s, steps);
  }

  /** The step takes the flow out of the store: an error brought back on it, or its exchange granted. */
  predicate TakesOut(s: State, step: Step, id: string) {
    match step
    case CallbackReceived(cookie, query, drawn) => cookie == Some(id) && query.error.Some? && NewFlow(s, drawn)
    case CodeExchanged(i, tokens, sid) =>
      i < |s.waiting| && s.waiting[i].Exchanging? && s.waiting[i].id == id && tokens.Some? && NewSession(s, sid)
    case _ => false
  }

  predicate TakenOut(site: Site, s: State, steps: seq<Step>, id: string)
    decreases |steps|
  {
    steps != [] && (TakesOut(s, steps[0], id) || TakenOut(site, Next(site, s, steps[0]), steps[1..], id))
  }

  /** What becomes of a flow that can be read now. */
  function Still(site: Site, flow: Option<Flow>, taken: bool, now: int): Option<Flow> {
    if flow.Some? && !taken && Live(site.flows, flow.value, now) then flow else None
  }

  lemma CallbackLeaves(site: Site, s: State, step: Step, s': State, id: string)
    requires WellMade(site) && id in s.issued && step.CallbackReceived? && s' == Act(site, s, step)
    ensures id in s'.issued && s'.now == s.now
    ensures FlowAt(site, s'.flows, Some(id), s'.now) ==
            Still(site, FlowAt(site, s.flows, Some(id), s.now), TakesOut(s, step, id), s'.now)
  {
  }

  lemma OtherActLeaves(site: Site, s: State, step: Step, s': State, id: string)
    requires WellMade(site) && id in s.issued && !step.CallbackReceived? && s' == Act(site, s, step)
    ensures id in s'.issued && s.now <= s'.now
    ensures FlowAt(site, s'.flows, Some(id), s'.now) ==
            Still(site, FlowAt(site, s.flows, Some(id), s.now), TakesOut(s, step, id), s'.now)
  {
  }

  lemma {:induction false} FlowThroughRun(site: Site, s: State, steps: seq<Step>, id: string)
    requires WellMade(site) && id in s.issued
    ensures s.now <= Execute(site, s, steps).now
    ensures FlowAt(site, Execute(site, s, steps).flows, Some(id), Execute(site, s, steps).now) ==
            Still(site, FlowAt(site, s.flows, Some(id), s.now), TakenOut(site, s, steps, id),
                  Execute(site, s, steps).now)
    decreases |steps|
  {
    if steps != [] {
      var step, s' := steps[0], Next(site, s, steps[0]);
      if step.CallbackReceived? {
        CallbackLeaves(site, s, step, Act(site, s, step), id);
      } else {
        OtherActLeaves(site, s, step, Act(site, s, step), id);
      }
      FlowThroughRun(site, s', steps[1..], id);
    }
  }

  /** The loop breaker, whatever other requests, browsers, sweeps and ticks come between: the next error
      on an escalated flow never escalates again. It is refused exactly when it comes before the flow's
      age limit and nothing has taken the flow out meanwhile; else the login starts over silently. */
  lemma {:induction false} EscalatedFlowIsRefusedExactly(site: Site, s: State, cookie: string, query: Query,
                                                         drawn: Drawn, steps: seq<Step>, query': Query, drawn': Drawn,
                                                         s': State, end: State)
    requires WellMade(site) && NewFlow(s, drawn) && query.error.Some? && query'.error.Some?
    requires ErrorAnswer(site, s, cookie, query, drawn).Interactive?
    requires s' == Next(site, s, CallbackReceived(Some(cookie), query, drawn)) && end == Execute(site, s', steps)
    ensures ErrorAnswer(site, end, drawn.id, query', drawn') ==
            if end.now - s.now < site.flows.maxAge && !TakenOut(site, s', steps, drawn.id)
            then Refused else Silent(drawn'.id)
  {
    Escalated(site, s, cookie, query, drawn, s');
    FlowThroughRun(site, s', steps, drawn.id);
  }

  lemma Escalated(site: Site, s: State, cookie: string, query: Query, drawn: Drawn, s': State)
    requires WellMade(site) && NewFlow(s, drawn) && query.error.Some?
    requires ErrorAnswer(site, s, cookie, query, drawn).Interactive?
    requires s' == Next(site, s, CallbackReceived(Some(cookie), query, drawn))
    ensures s'.now == s.now && drawn.id in s'.issued && drawn.id in s'.flows
    ensures s'.flows[drawn.id].interactiveTried && s'.flows[drawn.id].created == s.now
  {
  }

  // ----- where a login leads ------------------------------------------------------------------------------

  /** What was issued stays as it was issued. */
  lemma {:induction false} IssuedStays(site: Site, s: State, steps: seq<Step>, id: string)
    requires id in s.issued
    ensures id in Execute(site, s, steps).issued && Execute(site, s, steps).issued[id] == s.issued[id]
    decreases |steps|
  {
    if steps != [] {
      ActKeepsIssued(site, s, steps[0], Act(site, s, steps[0]), id);
      IssuedStays(site, Next(site, s, steps[0]), steps[1..], id);
    }
  }

  lemma ActKeepsIssued(site: Site, s: State, step: Step, s': State, id: string)
    requires id in s.issued && s' == Act(site, s, step)
    ensures id in s'.issued && s'.issued[id] == s.issued[id]
  {
  }

  /** The step issues a flow of these random values for the target. */
  ghost predicate IssuesFor(s: State, s': State, drawn: Drawn, target: string) {
    && drawn.id !in s.issued && drawn.id in s'.issued
    && s'.issued[drawn.id].flow.next == target
    && s'.issued[drawn.id].flow.state == drawn.state && s'.issued[drawn.id].flow.verifier == drawn.verifier
  }

  /** A login's flow leads where it asked to go, a refused request's to the path it asked for. */
  lemma StartIssuesFor(site: Site, s: State, step: Step, s': State, drawn: Drawn)
    requires NewFlow(s, drawn) && s' == Next(site, s, step)
    ensures forall next, prompt | step == Login(next, prompt, drawn) ::
              IssuesFor(s, s', drawn, site.guard(next)) && s'.issued[drawn.id].silent == !prompt
    ensures forall path | step == Unauthenticated(path, drawn) ::
              IssuesFor(s, s', drawn, site.guard(path)) && s'.issued[drawn.id].silent
  {
  }

  /** The flow of a callback whose own flow is gone leads to the root, and that of an escalation where
      the flow it replaces led, which was issued silently. */
  lemma CallbackIssuesFor(site: Site, s: State, cookie: Option<string>, query: Query, drawn: Drawn, s': State)
    requires Inv(site, s) && NewFlow(s, drawn) && s' == Next(site, s, CallbackReceived(cookie, query, drawn))
    ensures FlowAt(site, s.flows, cookie, s.now).None? ==>
              IssuesFor(s, s', drawn, "/") && s'.issued[drawn.id].silent
    ensures FlowAt(site, s.flows, cookie, s.now).Some? && drawn.id in s'.issued ==>
              && cookie.value in s.issued && s.issued[cookie.value].silent && !s'.issued[drawn.id].silent
              && IssuesFor(s, s', drawn, site.guard(Some(s.issued[cookie.value].flow.next)))
  {
  }

  /** The guard leaves its own outputs alone. */
  ghost predicate Settled(site: Site) { forall raw :: site.guard(Some(site.guard(raw))) == site.guard(raw) }

  lemma LoginIssued(site: Site, s: State, before: seq<Step>, next: Option<string>, prompt: bool, drawn: Drawn,
                    asked: State, issued: State)
    requires Empty(s) && WellMade(site)
    requires asked == Execute(site, s, before) && NewFlow(asked, drawn)
    requires issued == Next(site, asked, Login(next, prompt, drawn))
    ensures Inv(site, issued) && drawn.id in issued.issued && issued.issued[drawn.id].flow.next == site.guard(next)
  {
    ExecuteKeeps(site, s, before);
    StartIssuesFor(site, asked, Login(next, prompt, drawn), issued, drawn);
    NextKeeps(site, asked, Login(next, prompt, drawn), issued);
  }

  /** Under any interleaving, a session minted of a login leads where the login was asked to lead. */
  lemma LoginLandsOnItsTarget(site: Site, s: State, before: seq<Step>, next: Option<string>, prompt: bool, drawn: Drawn,
                              after: seq<Step>, asked: State, issued: State, end: State, m: Mint)
    requires Empty(s) && WellMade(site) && Settled(site)
    requires asked == Execute(site, s, before) && NewFlow(asked, drawn)
    requires issued == Next(site, asked, Login(next, prompt, drawn)) && end == Execute(site, issued, after)
    requires m in end.mints && m.flow == drawn.id
    ensures m.target == site.guard(next)
  {
    LoginIssued(site, s, before, next, prompt, drawn, asked, issued);
    TargetOfMint(site, issued, after, end, drawn.id, m);
  }

  lemma EscalationIssued(site: Site, failed: State, cookie: string, query: Query, drawn: Drawn, escalated: State)
    requires Inv(site, failed) && WellMade(site) && cookie in failed.issued
    requires NewFlow(failed, drawn) && query.error.Some?
    requires ErrorAnswer(site, failed, cookie, query, drawn) == Interactive(drawn.id)
    requires escalated == Next(site, failed, CallbackReceived(Some(cookie), query, drawn))
    ensures Inv(site, escalated) && drawn.id in escalated.issued
    ensures escalated.issued[drawn.id].flow.next == site.guard(Some(failed.issued[cookie].flow.next))
  {
    Escalated(site, failed, cookie, query, drawn, escalated);
    CallbackIssuesFor(site, failed, Some(cookie), query, drawn, escalated);
    NextKeeps(site, failed, CallbackReceived(Some(cookie), query, drawn), escalated);
  }

  /** So does one minted of the escalation of that login, whatever comes between the login, the error that
      escalates it, and the return with a code. */
  lemma EscalatedLoginLandsOnItsTarget(site: Site, s: State, before: seq<Step>, next: Option<string>, drawn: Drawn,
                                       between: seq<Step>, query: Query, drawn': Drawn, after: seq<Step>,
                                       asked: State, issued: State, failed: State, escalated: State, end: State,
                                       m: Mint)
    requires Empty(s) && WellMade(site) && Settled(site)
    requires asked == Execute(site, s, before) && NewFlow(asked, drawn)
    requires issued == Next(site, asked, Login(next, false, drawn)) && failed == Execute(site, issued, between)
    requires NewFlow(failed, drawn') && query.error.Some?
    requires ErrorAnswer(site, failed, drawn.id, query, drawn') == Interactive(drawn'.id)
    requires escalated == Next(site, failed, CallbackReceived(Some(drawn.id), query, drawn'))
    requires end == Execute(site, escalated, after) && m in end.mints && m.flow == drawn'.id
    ensures m.target == site.guard(next)
  {
    LoginIssued(site, s, before, next, false, drawn, asked, issued);
    IssuedStays(site, issued, between, drawn.id);
    ExecuteKeeps(site, issued, between);
    EscalationIssued(site, failed, drawn.id, query, drawn', escalated);
    TargetOfMint(site, escalated, after, end, drawn'.id, m);
  }

  lemma TargetOfMint(site: Site, s: State, steps: seq<Step>, end: State, id: string, m: Mint)
    requires Inv(site, s) && WellMade(site) && id in s.issued && end == Execute(site, s, steps)
    requires m in end.mints && m.flow == id
    ensures m.target == site.guard(Some(s.issued[id].flow.next))
  {
    ExecuteKeeps(site, s, steps);
    IssuedStays(site, s, steps, id);
    assert MintOk(site, end, m);
  }
}
