/** The session registry of the MCP HTTP server (mcp/src/http.ts) as a machine over its interleaved
    steps: every `await` of a handler ends a step, and other requests, transport closes and the
    shutdown loop may run in between. */
module McpSessions {
  import opened Basics

  datatype Kind = DevBypass | ApiKey

  datatype Auth = Auth(kind: Kind, isAdmin: bool, projectId: Option<string>, keyId: string)

  /** A header as the server library delivers it. */
  datatype Header = Absent | One(value: string) | Many(values: seq<string>)

  function ParseSessionId(h: Header): Option<string> {
    match h
    case Absent => None
    case One(v) => if |v| > 0 then Some(v) else None
    case Many(vs) => if |vs| > 0 && |vs[0]| > 0 then Some(vs[0]) else None
  }

  predicate AuthContextMatches(left: Auth, right: Auth) {
    && left.kind == right.kind
    && left.keyId == right.keyId
    && left.projectId == right.projectId
    && left.isAdmin == right.isAdmin
  }

  datatype Verb = Post | Get | Delete

  /** A registered session: the caller it was created for, and its transport. */
  datatype Session = Session(auth: Auth, transport: nat)

  /** Where a request handler stands. */
  datatype Handler =
    | Authorizing(verb: Verb, sessionId: string, existing: Session)
    | Handling(verb: Verb, sessionId: string)
    | AuthorizingNew
    | Connecting(auth: Auth, transport: nat)
    | Initializing(auth: Auth, transport: nat)
    | Done(status: int)

  /** A call of `handleRequest` on a transport: for a registered session, or the initializing call of a
      new transport. `caller` is the identity as resolved by this very request. */
  datatype Delivery =
    | ToSession(request: nat, sessionId: string, transport: nat, caller: Auth)
    | ToNew(request: nat, transport: nat, caller: Auth)

  /** `origin` remembers every session as it was created; `owner` who created each transport. */
  datatype State = State(
    sessions: map<string, Session>,
    handlers: map<nat, Handler>,
    transportSession: map<nat, Option<string>>,
    deliveries: seq<Delivery>,
    origin: map<string, Session>,
    owner: map<nat, Auth>)

  const START: State := State(map[], map[], map[], [], map[], map[])

  /** What a handler under way is told next. An `AuthResolved(None)` is an unauthorized caller; a new
      transport is numbered by the step that creates it. */
  datatype Event =
    | AuthResolved(auth: Option<Auth>, newTransport: nat)
    | ServerConnected
    | SessionInitialized(newSessionId: string)
    | RequestHandled(status: int)
    | HandlerFailed

  datatype Step =
    | Arrive(request: nat, verb: Verb, header: Header, isInitialize: bool)
    | Resume(request: nat, event: Event)
    | TransportClosed(transport: nat)
    | ShutdownDeletes(sessionId: string)

  /** What a step does to the registry and the transports. */
  datatype Effect =
    | Nothing
    | Deliver(delivery: Delivery)
    | CreateTransport(transport: nat, auth: Auth)
    | Register(sessionId: string, session: Session)
    | Remove(sessionId: string)

  /** Where the handler of a new request gets before its first `await`. */
  function Arrived(s: State, verb: Verb, header: Header, isInitialize: bool): Handler {
    var sessionId := ParseSessionId(header);
    if sessionId.Some? && sessionId.value in s.sessions then
      Authorizing(verb, sessionId.value, s.sessions[sessionId.value])
    else if verb == Post then
      if sessionId.Some? then Done(404)
      else if !isInitialize then Done(400)
      else AuthorizingNew
    else
      Done(if sessionId.None? then 400 else 404)
  }

  /** Where a handler gets by its next event, and what it does on the way. Events that do not concern
      the place it stands at change nothing. Session ids are random and never repeat. */
  function React(s: State, request: nat, h: Handler, event: Event): (Handler, Effect) {
    match (h, event)
    case (Authorizing(verb, sessionId, existing), AuthResolved(auth, _)) =>
      if auth.None? || !AuthContextMatches(auth.value, existing.auth) then (Done(401), Nothing)
      else (Handling(verb, sessionId), Deliver(ToSession(request, sessionId, existing.transport, auth.value)))
    case (AuthorizingNew, AuthResolved(auth, transport)) =>
      if auth.None? then (Done(401), Nothing)
      else if transport in s.owner then (h, Nothing)
      else (Connecting(auth.value, transport), CreateTransport(transport, auth.value))
    case (Connecting(auth, transport), ServerConnected) =>
      (Initializing(auth, transport), Deliver(ToNew(request, transport, auth)))
    case (Initializing(auth, transport), SessionInitialized(newSessionId)) =>
      if newSessionId in s.origin || transport !in s.transportSession || s.transportSession[transport].Some?
      then (h, Nothing)
      else (h, Register(newSessionId, Session(auth, transport)))
    case (Initializing(_, _), RequestHandled(status)) => (Done(status), Nothing)
    case (Handling(verb, sessionId), RequestHandled(status)) =>
      (Done(status), if verb == Delete && 200 <= status < 400 then Remove(sessionId) else Nothing)
    case (Done(_), _) => (h, Nothing)
    case (_, HandlerFailed) => (Done(500), Nothing)
    case _ => (h, Nothing)
  }

  function Perform(s: State, effect: Effect): State {
    match effect
    case Nothing => s
    case Deliver(d) => s.(deliveries := s.deliveries + [d])
    case CreateTransport(t, auth) =>
      s.(transportSession := s.transportSession[t := None], owner := s.owner[t := auth])
    case Register(id, session) =>
      s.(sessions := s.sessions[id := session], origin := s.origin[id := session],
         transportSession := s.transportSession[session.transport := Some(id)])
    case Remove(id) => s.(sessions := s.sessions - {id})
  }

  /** The effect of a step, and the handler it moves, if any. */
  function EffectOf(s: State, step: Step): (Option<(nat, Handler)>, Effect) {
    match step
    case Arrive(request, verb, header, isInitialize) =>
      if request in s.handlers then (None, Nothing)
      else (Some((request, Arrived(s, verb, header, isInitialize))), Nothing)
    case Resume(request, event) =>
      if request in s.handlers then
        var (h, effect) := React(s, request, s.handlers[request], event);
        (Some((request, h)), effect)
      else (None, Nothing)
    case TransportClosed(transport) =>
      if transport in s.transportSession && s.transportSession[transport].Some?
      then (None, Remove(s.transportSession[transport].value))
      else (None, Nothing)
    case ShutdownDeletes(sessionId) => (None, Remove(sessionId))
  }

  function Apply(s: State, step: Step): State {
    var (move, effect) := EffectOf(s, step);
    var next := Perform(s, effect);
    if move.None? then next else next.(handlers := s.handlers[move.value.0 := move.value.1])
  }

  function Run(s: State, steps: seq<Step>): State
    decreases |steps|
  {
    if steps == [] then s else Run(Apply(s, steps[0]), steps[1..])
  }

  // ----- The invariant -----

  /** A delivery to a session goes to the transport that session was created with, for a caller who
      agrees on all four fields with the one it was created for. */
  ghost predicate Proper(s: State, d: Delivery) {
    match d
    case ToSession(_, sessionId, transport, caller) =>
      sessionId in s.origin && s.origin[sessionId].transport == transport && caller == s.origin[sessionId].auth
    case ToNew(_, transport, caller) =>
      transport in s.owner && s.owner[transport] == caller
  }

  /** An initializing request has been delivered to this transport. */
  ghost predicate Opened(s: State, transport: nat, auth: Auth) {
    exists i :: 0 <= i < |s.deliveries| && s.deliveries[i].ToNew?
      && s.deliveries[i].transport == transport && s.deliveries[i].caller == auth
  }

  ghost predicate HandlerGood(s: State, h: Handler) {
    match h
    case Authorizing(_, sessionId, existing) => sessionId in s.origin && s.origin[sessionId] == existing
    case Connecting(auth, transport) => transport in s.owner && s.owner[transport] == auth
    case Initializing(auth, transport) =>
      transport in s.owner && s.owner[transport] == auth && Opened(s, transport, auth)
    case _ => true
  }

  ghost predicate EffectGood(s: State, effect: Effect) {
    match effect
    case Deliver(d) => Proper(s, d)
    case CreateTransport(t, _) => t !in s.owner
    case Register(id, session) =>
      && id !in s.origin && session.transport in s.owner && s.owner[session.transport] == session.auth
      && session.transport in s.transportSession && s.transportSession[session.transport].None?
      && Opened(s, session.transport, session.auth)
    case _ => true
  }

  /** Registered sessions are as they were created, and sessions and transports point at each other. */
  ghost predicate Linked(s: State) {
    && (forall id :: id in s.sessions ==> id in s.origin && s.origin[id] == s.sessions[id])
    && (forall id :: id in s.origin ==>
          s.origin[id].transport in s.owner && s.owner[s.origin[id].transport] == s.origin[id].auth)
    && (forall id :: id in s.origin ==>
          s.origin[id].transport in s.transportSession && s.transportSession[s.origin[id].transport] == Some(id))
    && (forall t :: t in s.transportSession && s.transportSession[t].Some? ==>
          s.transportSession[t].value in s.origin && s.origin[s.transportSession[t].value].transport == t)
    && s.transportSession.Keys == s.owner.Keys
  }

  ghost predicate RegistryGood(s: State) {
    && Linked(s)
    && (forall id :: id in s.origin ==> Opened(s, s.origin[id].transport, s.origin[id].auth))
    && (forall i :: 0 <= i < |s.deliveries| ==> Proper(s, s.deliveries[i]))
  }

  ghost predicate Inv(s: State) {
    RegistryGood(s) && forall r :: r in s.handlers ==> HandlerGood(s, s.handlers[r])
  }

  /** History only grows, and neither a session's creation nor a transport's owner is ever rewritten. */
  ghost predicate Grown(s: State, next: State) {
    && (forall id :: id in s.origin ==> id in next.origin && next.origin[id] == s.origin[id])
    && (forall t :: t in s.owner ==> t in next.owner && next.owner[t] == s.owner[t])
    && |s.deliveries| <= |next.deliveries| && next.deliveries[..|s.deliveries|] == s.deliveries
  }

  lemma PerformGrows(s: State, effect: Effect)
    requires EffectGood(s, effect)
    ensures Grown(s, Perform(s, effect)) && Perform(s, effect).handlers == s.handlers
  {}

  lemma GrownKeeps(s: State, next: State, d: Delivery, h: Handler)
    requires Grown(s, next)
    ensures Proper(s, d) ==> Proper(next, d)
    ensures HandlerGood(s, h) ==> HandlerGood(next, h)
  {
    if h.Initializing? && HandlerGood(s, h) {
      OpenedStays(s, next, h.transport, h.auth);
    }
  }

  lemma OpenedStays(s: State, next: State, transport: nat, auth: Auth)
    requires Grown(s, next) && Opened(s, transport, auth)
    ensures Opened(next, transport, auth)
  {
    var i :| 0 <= i < |s.deliveries| && s.deliveries[i].ToNew?
      && s.deliveries[i].transport == transport && s.deliveries[i].caller == auth;
    assert next.deliveries[i] == next.deliveries[..|s.deliveries|][i];
  }

  /** Old deliveries stay proper, and a new one was. */
  lemma DeliveriesStayProper(s: State, effect: Effect, i: nat)
    requires RegistryGood(s) && EffectGood(s, effect) && i < |Perform(s, effect).deliveries|
    ensures Proper(Perform(s, effect), Perform(s, effect).deliveries[i])
  {
    hide Opened;
    PerformGrows(s, effect);
    var next := Perform(s, effect);
    GrownKeeps(s, next, next.deliveries[i], AuthorizingNew);
    if i < |s.deliveries| {
      assert next.deliveries[i] == next.deliveries[..|s.deliveries|][i];
    }
  }

  lemma OriginStaysOpened(s: State, effect: Effect, id: string)
    requires RegistryGood(s) && EffectGood(s, effect) && id in Perform(s, effect).origin
    ensures var next := Perform(s, effect); Opened(next, next.origin[id].transport, next.origin[id].auth)
  {
    hide Opened, Proper;
    PerformGrows(s, effect);
    OpenedStays(s, Perform(s, effect), Perform(s, effect).origin[id].transport, Perform(s, effect).origin[id].auth);
  }

  lemma RegisterKeeps(s: State, id: string, session: Session)
    requires RegistryGood(s) && EffectGood(s, Register(id, session))
    ensures Linked(Perform(s, Register(id, session)))
  {
    hide Opened, Proper;
  }

  lemma OthersKeep(s: State, effect: Effect)
    requires RegistryGood(s) && EffectGood(s, effect) && !effect.Register?
    ensures Linked(Perform(s, effect))
  {
    hide Opened, Proper;
    assert Perform(s, effect).origin == s.origin;
  }

  lemma PerformKeeps(s: State, effect: Effect)
    requires RegistryGood(s) && EffectGood(s, effect)
    ensures RegistryGood(Perform(s, effect))
  {
    hide Opened, Proper, Linked, Perform;
    var next := Perform(s, effect);
    forall id | id in next.origin ensures Opened(next, next.origin[id].transport, next.origin[id].auth) {
      OriginStaysOpened(s, effect, id);
    }
    forall i | 0 <= i < |next.deliveries| ensures Proper(next, next.deliveries[i]) {
      DeliveriesStayProper(s, effect, i);
    }
    if effect.Register? {
      RegisterKeeps(s, effect.sessionId, effect.session);
    } else {
      OthersKeep(s, effect);
    }
  }

  /** A handler in a good place reacts with a good effect and gets to a good place. */
  lemma ReactsWell(s: State, request: nat, h: Handler, event: Event)
    requires RegistryGood(s) && HandlerGood(s, h)
    ensures var (next, effect) := React(s, request, h, event);
            EffectGood(s, effect) && HandlerGood(Perform(s, effect), next)
  {
    var (next, effect) := React(s, request, h, event);
    if effect.Deliver? && effect.delivery.ToNew? {
      assert Perform(s, effect).deliveries[|s.deliveries|] == effect.delivery;
    }
    if next.Initializing? && h.Initializing? {
      PerformGrows(s, effect);
      GrownKeeps(s, Perform(s, effect), ToNew(0, 0, next.auth), next);
    }
  }

  lemma ArrivesWell(s: State, verb: Verb, header: Header, isInitialize: bool)
    requires RegistryGood(s)
    ensures HandlerGood(s, Arrived(s, verb, header, isInitialize))
  {}

  /** Moving handlers disturbs nothing else. */
  lemma HandlersApart(s: State, handlers: map<nat, Handler>, h: Handler)
    ensures RegistryGood(s) ==> RegistryGood(s.(handlers := handlers))
    ensures HandlerGood(s.(handlers := handlers), h) <==> HandlerGood(s, h)
  {
    assert forall d :: Proper(s.(handlers := handlers), d) <==> Proper(s, d);
  }

  lemma StepKeepsInv(s: State, step: Step)
    requires Inv(s)
    ensures Inv(Apply(s, step)) && Grown(s, Apply(s, step))
  {
    hide RegistryGood, React, Perform, HandlerGood, Arrived;
    var (move, effect) := EffectOf(s, step);
    var moved, next := Perform(s, effect), Apply(s, step);
    if step.Resume? && step.request in s.handlers {
      ReactsWell(s, step.request, s.handlers[step.request], step.event);
    }
    PerformKeeps(s, effect);
    PerformGrows(s, effect);
    forall r | r in next.handlers ensures HandlerGood(next, next.handlers[r]) {
      if r in s.handlers {
        GrownKeeps(s, moved, ToNew(0, 0, Auth(ApiKey, false, None, "")), s.handlers[r]);
      }
      if step.Arrive? {
        ArrivesWell(s, step.verb, step.header, step.isInitialize);
        PerformsNothing(s);
      }
      HandlersApart(moved, next.handlers, next.handlers[r]);
    }
    HandlersApart(moved, next.handlers, AuthorizingNew);
  }

  lemma PerformsNothing(s: State)
    ensures Perform(s, Nothing) == s
  {}

  lemma {:induction false} RunKeepsInv(s: State, steps: seq<Step>)
    requires Inv(s)
    ensures Inv(Run(s, steps))
    decreases |steps|
  {
    hide Inv, Apply;
    if steps != [] {
      StepKeepsInv(s, steps[0]);
      RunKeepsInv(Apply(s, steps[0]), steps[1..]);
    }
  }

  /** In every interleaving, whatever reaches the transport of a session, the initializing request
      included, comes from a caller whose freshly resolved identity agrees on all four fields with the
      one the session was created for; a request for a session reaches no other transport; and a session
      stays exactly as it was created for as long as it is registered. */
  lemma OnlyTheCreatorGetsThrough(steps: seq<Step>)
    ensures var s := Run(START, steps);
            && (forall i, id ::
                  0 <= i < |s.deliveries| && id in s.origin && s.deliveries[i].transport == s.origin[id].transport
                  ==> s.deliveries[i].caller == s.origin[id].auth)
            && (forall i :: 0 <= i < |s.deliveries| && s.deliveries[i].ToSession? ==>
                  var d := s.deliveries[i];
                  d.sessionId in s.origin && d.transport == s.origin[d.sessionId].transport)
            && (forall id :: id in s.sessions ==> id in s.origin && s.sessions[id] == s.origin[id])
  {
    hide Run;
    RunKeepsInv(START, steps);
    var s := Run(START, steps);
    forall i | 0 <= i < |s.deliveries| ensures Proper(s, s.deliveries[i]) {}
    forall i, id | 0 <= i < |s.deliveries| && id in s.origin && s.deliveries[i].transport == s.origin[id].transport
      ensures s.deliveries[i].caller == s.origin[id].auth
    {
      assert Proper(s, s.deliveries[i]);
    }
  }

  /** Every session that ever existed was opened by an initializing request of the very caller it was
      created for, delivered to its own transport. */
  lemma SessionsWereInitialized(steps: seq<Step>, id: string)
    requires id in Run(START, steps).origin
    ensures var s := Run(START, steps);
            exists i :: 0 <= i < |s.deliveries| && s.deliveries[i].ToNew?
              && s.deliveries[i].transport == s.origin[id].transport && s.deliveries[i].caller == s.origin[id].auth
  {
    hide Run;
    RunKeepsInv(START, steps);
    assert Opened(Run(START, steps), Run(START, steps).origin[id].transport, Run(START, steps).origin[id].auth);
  }

  /** Two sessions never share a transport. */
  lemma TransportsAreNotShared(steps: seq<Step>, a: string, b: string)
    requires var s := Run(START, steps); a in s.origin && b in s.origin && a != b
    ensures var s := Run(START, steps); s.origin[a].transport != s.origin[b].transport
  {
    hide Run;
    RunKeepsInv(START, steps);
  }

  // ----- Requests that name an unknown session -----

  /** A finished request stays finished, and a step delivers only for a request still under way. */
  lemma DoneStaysDone(s: State, step: Step, request: nat)
    requires request in s.handlers && s.handlers[request].Done?
    ensures var next := Apply(s, step);
            && request in next.handlers && next.handlers[request] == s.handlers[request]
            && |s.deliveries| <= |next.deliveries| && next.deliveries[..|s.deliveries|] == s.deliveries
            && forall i :: |s.deliveries| <= i < |next.deliveries| ==> next.deliveries[i].request != request
  {
    hide React;
    if step.Resume? && step.request in s.handlers {
      DeliversForItself(s, step.request, s.handlers[step.request], step.event);
    }
  }

  lemma DeliversForItself(s: State, request: nat, h: Handler, event: Event)
    ensures var (next, effect) := React(s, request, h, event);
            && (effect.Deliver? ==> effect.delivery.request == request)
            && (h.Done? ==> next == h && effect == Nothing)
  {}

  lemma {:induction false} DoneIsForever(s: State, steps: seq<Step>, request: nat)
    requires request in s.handlers && s.handlers[request].Done?
    ensures var end := Run(s, steps);
            && request in end.handlers && end.handlers[request] == s.handlers[request]
            && |s.deliveries| <= |end.deliveries| && end.deliveries[..|s.deliveries|] == s.deliveries
            && forall i :: |s.deliveries| <= i < |end.deliveries| ==> end.deliveries[i].request != request
    decreases |steps|
  {
    hide Apply;
    if steps != [] {
      var next := Apply(s, steps[0]);
      DoneStaysDone(s, steps[0], request);
      DoneIsForever(next, steps[1..], request);
      var end := Run(s, steps);
      forall i | |s.deliveries| <= i < |end.deliveries| ensures end.deliveries[i].request != request {
        if i < |next.deliveries| {
          assert end.deliveries[..|next.deliveries|][i] == next.deliveries[i];
        }
      }
      assert end.deliveries[..|s.deliveries|] == end.deliveries[..|next.deliveries|][..|s.deliveries|];
    }
  }

  /** A request that names a session which is not registered is answered 404 at once: it creates,
      changes and removes no session, nothing of it ever reaches a transport, and at no later time does
      anything it is told change anything. */
  lemma UnknownSessionIsInert(s: State, request: nat, verb: Verb, header: Header, isInitialize: bool, later: seq<Step>)
    requires request !in s.handlers && ParseSessionId(header).Some? && ParseSessionId(header).value !in s.sessions
    ensures var next := Apply(s, Arrive(request, verb, header, isInitialize));
            var end := Run(next, later);
            && next.sessions == s.sessions && next.origin == s.origin && next.deliveries == s.deliveries
            && request in end.handlers && end.handlers[request] == Done(404)
            && |s.deliveries| <= |end.deliveries|
            && (forall i :: |s.deliveries| <= i < |end.deliveries| ==> end.deliveries[i].request != request)
            && (forall event :: Apply(end, Resume(request, event)) == end)
  {
    var next := Apply(s, Arrive(request, verb, header, isInitialize));
    assert next.handlers[request] == Done(404);
    DoneIsForever(next, later, request);
    forall event ensures Apply(Run(next, later), Resume(request, event)) == Run(next, later) {
      DoneDoesNothing(Run(next, later), request, event);
    }
  }

  /** Whatever a finished request is still told has no effect at all. */
  lemma DoneDoesNothing(s: State, request: nat, event: Event)
    requires request in s.handlers && s.handlers[request].Done?
    ensures Apply(s, Resume(request, event)) == s
  {
    hide React;
    DeliversForItself(s, request, s.handlers[request], event);
  }

  // ----- When a session appears and when it leaves -----

  /** A registered session leaves the registry in exactly three ways: its DELETE request was handled with
      success, its own transport closed, or the shutdown removed it. */
  lemma {:induction false} SessionLeavesIff(steps: seq<Step>, step: Step, id: string)
    requires id in Run(START, steps).sessions
    ensures var s := Run(START, steps);
            id !in Apply(s, step).sessions
            <==>
            || (step.Resume? && step.request in s.handlers && s.handlers[step.request] == Handling(Delete, id)
                && step.event.RequestHandled? && 200 <= step.event.status < 400)
            || step == TransportClosed(s.sessions[id].transport)
            || step == ShutdownDeletes(id)
    ensures id in Apply(Run(START, steps), step).sessions ==>
              Apply(Run(START, steps), step).sessions[id] == Run(START, steps).sessions[id]
  {
    RunKeepsInv(START, steps);
    hide Run;
    LeavesIff(Run(START, steps), step, id);
  }

  lemma LeavesIff(s: State, step: Step, id: string)
    requires RegistryGood(s) && id in s.sessions
    ensures id !in Apply(s, step).sessions
            <==>
            || (step.Resume? && step.request in s.handlers && s.handlers[step.request] == Handling(Delete, id)
                && step.event.RequestHandled? && 200 <= step.event.status < 400)
            || step == TransportClosed(s.sessions[id].transport)
            || step == ShutdownDeletes(id)
    ensures id in Apply(s, step).sessions ==> Apply(s, step).sessions[id] == s.sessions[id]
  {
    hide Opened, Proper;
    assert s.origin[id] == s.sessions[id];
    assert s.transportSession[s.origin[id].transport] == Some(id);
  }

  /** A session appears in exactly one way: a transport announces its id, which was never used before, while
      the initializing request that created the transport is under way; and it is that caller's. */
  lemma {:induction false} SessionAppearsIff(s: State, step: Step, id: string)
    requires id !in s.sessions
    ensures id in Apply(s, step).sessions
            <==>
            && step.Resume? && step.event == SessionInitialized(id) && id !in s.origin
            && step.request in s.handlers && s.handlers[step.request].Initializing?
            && s.handlers[step.request].transport in s.transportSession
            && s.transportSession[s.handlers[step.request].transport].None?
    ensures id in Apply(s, step).sessions ==>
              Apply(s, step).sessions[id] == Session(s.handlers[step.request].auth, s.handlers[step.request].transport)
  {}

  /** The header names this session: its text, or the first of several, unless empty. */
  predicate Names(header: Header, id: string) {
    id != "" && (header == One(id) || (header.Many? && |header.values| > 0 && header.values[0] == id))
  }

  /** What a request meets before its first `await`: 404 exactly for an unknown session, 400 exactly when it
      names none and does not initialize one, the check against the named session otherwise. */
  lemma {:induction false} AnswersAtOnce(s: State, request: nat, verb: Verb, header: Header, isInitialize: bool)
    requires request !in s.handlers
    ensures var next := Apply(s, Arrive(request, verb, header, isInitialize));
            && next == s.(handlers := next.handlers) && request in next.handlers
            && (next.handlers[request] == Done(404) <==> exists id :: Names(header, id) && id !in s.sessions)
            && (next.handlers[request] == Done(400)
                <==> (forall id :: !Names(header, id)) && !(verb == Post && isInitialize))
            && (next.handlers[request] == AuthorizingNew
                <==> (forall id :: !Names(header, id)) && verb == Post && isInitialize)
            && (forall id ::
                  Names(header, id) && id in s.sessions
                  ==> next.handlers[request] == Authorizing(verb, id, s.sessions[id]))
  {
    var id := ParseSessionId(header);
    assert forall x :: Names(header, x) <==> id == Some(x);
    if id.Some? {
      assert Names(header, id.value);
    }
  }

  /** A request for a session is delivered to that session's own transport exactly when its freshly resolved
      identity agrees on all four fields with the one the session was created for; otherwise it is answered
      401. Either way the registry stays as it is. */
  lemma {:induction false} DeliveredIff(steps: seq<Step>, request: nat, auth: Option<Auth>, unused: nat)
    requires request in Run(START, steps).handlers && Run(START, steps).handlers[request].Authorizing?
    ensures var s := Run(START, steps);
            var h, next := s.handlers[request], Apply(s, Resume(request, AuthResolved(auth, unused)));
            && h.sessionId in s.origin && next.sessions == s.sessions
            && var own := s.origin[h.sessionId];
               if auth.Some? && auth.value.kind == own.auth.kind && auth.value.keyId == own.auth.keyId
                  && auth.value.projectId == own.auth.projectId && auth.value.isAdmin == own.auth.isAdmin
               then next.deliveries == s.deliveries + [ToSession(request, h.sessionId, own.transport, auth.value)]
                    && next.handlers == s.handlers[request := Handling(h.verb, h.sessionId)]
               else next.deliveries == s.deliveries && next.handlers == s.handlers[request := Done(401)]
  {
    RunKeepsInv(START, steps);
    hide Run, RegistryGood, Apply, AuthContextMatches;
    var s := Run(START, steps);
    assert HandlerGood(s, s.handlers[request]);
    Authorizes(s, request, auth, unused);
  }

  lemma Authorizes(s: State, request: nat, auth: Option<Auth>, unused: nat)
    requires request in s.handlers && s.handlers[request].Authorizing?
    ensures var h, next := s.handlers[request], Apply(s, Resume(request, AuthResolved(auth, unused)));
            if auth.Some? && auth.value == h.existing.auth
            then next == s.(handlers := s.handlers[request := Handling(h.verb, h.sessionId)],
                            deliveries := s.deliveries
                              + [ToSession(request, h.sessionId, h.existing.transport, auth.value)])
            else next == s.(handlers := s.handlers[request := Done(401)])
  {}

  /** The events a handler can meet where it stands. */
  predicate Concerns(h: Handler, event: Event) {
    || event.HandlerFailed?
    || (event.AuthResolved? && (h.Authorizing? || h.AuthorizingNew?))
    || (event.ServerConnected? && h.Connecting?)
    || (event.SessionInitialized? && h.Initializing?)
    || (event.RequestHandled? && (h.Initializing? || h.Handling?))
  }

  /** How a request ends otherwise: 401 when the caller of an initialization does not resolve, 500 when its
      handler fails anywhere, and the transport's own status when the transport has handled it. Of these only
      a handled DELETE touches the registry, and none delivers anything. Other events change nothing. */
  lemma {:induction false} OtherAnswers(s: State, request: nat, event: Event)
    requires request in s.handlers && !s.handlers[request].Done?
    ensures var h, next := s.handlers[request], Apply(s, Resume(request, event));
            && (h == AuthorizingNew && event.AuthResolved? && event.auth == None
                ==> next == s.(handlers := s.handlers[request := Done(401)]))
            && (event == HandlerFailed ==> next == s.(handlers := s.handlers[request := Done(500)]))
            && (event.RequestHandled? && (h.Handling? || h.Initializing?)
                ==> next.handlers == s.handlers[request := Done(event.status)] && next.deliveries == s.deliveries)
            && (!Concerns(h, event) ==> next == s)
  {}

  /** An initializing request whose caller resolves gets its session: a transport of its own, its delivery,
      and the registration under the id the transport announces. */
  lemma {:induction false} InitializationSucceeds(s: State, request: nat, auth: Auth, transport: nat, id: string)
    requires request in s.handlers && s.handlers[request] == AuthorizingNew
    requires transport !in s.owner && id !in s.origin
    ensures var next := Run(s, [Resume(request, AuthResolved(Some(auth), transport)),
                                Resume(request, ServerConnected), Resume(request, SessionInitialized(id))]);
            && next.sessions == s.sessions[id := Session(auth, transport)]
            && next.deliveries == s.deliveries + [ToNew(request, transport, auth)]
  {
    var a, b, c := Resume(request, AuthResolved(Some(auth), transport)), Resume(request, ServerConnected),
                   Resume(request, SessionInitialized(id));
    var s1 := Apply(s, a);
    assert s1.handlers[request] == Connecting(auth, transport) && s1.deliveries == s.deliveries;
    assert s1.origin == s.origin && s1.sessions == s.sessions && s1.transportSession[transport] == None;
    var s2 := Apply(s1, b);
    assert s2.handlers[request] == Initializing(auth, transport);
    assert s2.deliveries == s.deliveries + [ToNew(request, transport, auth)];
    var s3 := Apply(s2, c);
    assert s3.sessions == s.sessions[id := Session(auth, transport)] && s3.deliveries == s2.deliveries;
    hide Apply;
    assert [a, b, c][1..] == [b, c] && [b, c][1..] == [c] && [c][1..] == [];
    assert Run(s3, []) == s3;
    assert Run(s2, [c]) == s3;
    assert Run(s1, [b, c]) == s3;
  }
}
