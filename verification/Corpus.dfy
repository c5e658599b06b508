/** Searching and closing one corpus from any number of goroutines, as interleaved steps.

    A search checks its context, takes the mutex, allocates a cancel token, starts a
    watcher goroutine, calls the engine, closes the stop channel, waits for the watcher,
    frees the token and unlocks. Contexts may be cancelled at any moment. */
module Corpus {
  import opened Basics

  type Token = nat

  datatype SearchPc =
    | Begin      // about to look at ctx.Err
    | Locking    // about to take the mutex
    | Checking   // about to test the engine pointer
    | Watching   // about to allocate the token and start the watcher
    | Calling    // about to enter the engine
    | InEngine   // inside the engine call
    | Stopping   // about to close the stop channel
    | Joining    // waiting for the watcher's done channel
    | Freeing    // about to free the token
    | Unlocking  // about to unlock, deferred
    | Returned

  /** The watcher goroutine of one search. */
  datatype Watcher =
    | Unborn
    | Selecting  // waiting for the context or for the stop channel
    | Tripping   // chose the context, about to trip the token
    | Finishing  // about to close the done channel
    | Gone

  datatype ClosePc = CloseLocking | CloseChecking | CloseUnlocking | CloseReturned

  datatype Goroutine =
    | Search(pc: SearchPc, token: Token, watcher: Watcher, stopped: bool, cancelled: bool)
    | Close(cpc: ClosePc)

  /** The mutex holder, whether Corpus.ptr is nil, and every goroutine. */
  datatype State = State(mutex: Option<nat>, closed: bool, threads: seq<Goroutine>)

  /** What a step does to the engine and to tokens, by the goroutine that caused it. */
  datatype Event =
    | Nothing
    | NewToken(t: nat, token: Token)
    | Trip(t: nat, token: Token)
    | FreeToken(t: nat, token: Token)
    | Enter(t: nat, token: Token)
    | Leave(t: nat, token: Token)
    | CloseEngine(t: nat)
    | GaveUp(t: nat)   // ctx.Err, before anything else
    | Refused(t: nat)  // the corpus is closed
    | NoToken(t: nat)  // the allocation failed

  predicate HoldsToken(g: Goroutine) {
    g.Search? && (g.pc.Calling? || g.pc.InEngine? || g.pc.Stopping? || g.pc.Joining? || g.pc.Freeing?)
  }

  predicate Critical(g: Goroutine) {
    match g
    case Search(pc, _, _, _, _) => HoldsToken(g) || pc.Checking? || pc.Watching? || pc.Unlocking?
    case Close(cpc) => cpc.CloseChecking? || cpc.CloseUnlocking?
  }

  /** A token the allocator may hand out: one that nobody holds. */
  predicate Fresh(s: State, token: Token) {
    forall t :: 0 <= t < |s.threads| && HoldsToken(s.threads[t]) ==> s.threads[t].token != token
  }

  predicate Initial(s: State) {
    && s.mutex == None && !s.closed
    && forall t :: 0 <= t < |s.threads| ==>
         match s.threads[t]
         case Search(pc, _, watcher, stopped, _) => pc == Begin && watcher == Unborn && !stopped
         case Close(cpc) => cpc == CloseLocking
  }

  /** One step of goroutine g itself: what it becomes, the mutex and the pointer after it,
      and its event. */
  ghost predicate OwnStep(s: State, t: nat, g: Goroutine, g': Goroutine, mutex': Option<nat>, closed': bool, e: Event) {
    match g
    case Close(CloseLocking) =>
      s.mutex == None && mutex' == Some(t) && g' == Close(CloseChecking) && closed' == s.closed && e == Nothing
    case Close(CloseChecking) =>
      && mutex' == s.mutex && g' == Close(CloseUnlocking) && closed'
      && e == (if s.closed then Nothing else CloseEngine(t))
    case Close(CloseUnlocking) =>
      mutex' == None && g' == Close(CloseReturned) && closed' == s.closed && e == Nothing
    case Close(CloseReturned) => false
    case Search(pc, token, watcher, stopped, cancelled) =>
      && closed' == s.closed
      && match pc
         case Begin =>
           && mutex' == s.mutex && e == (if cancelled then GaveUp(t) else Nothing)
           && g' == g.(pc := if cancelled then Returned else Locking)
         case Locking =>
           s.mutex == None && mutex' == Some(t) && e == Nothing && g' == g.(pc := Checking)
         case Checking =>
           && mutex' == s.mutex && e == (if s.closed then Refused(t) else Nothing)
           && g' == g.(pc := if s.closed then Unlocking else Watching)
         case Watching =>
           && mutex' == s.mutex
           && ((e == NoToken(t) && g' == g.(pc := Unlocking))
               || (e.NewToken? && e.t == t && Fresh(s, e.token)
                   && g' == g.(pc := Calling, token := e.token, watcher := Selecting)))
         case Calling => mutex' == s.mutex && e == Enter(t, token) && g' == g.(pc := InEngine)
         case InEngine => mutex' == s.mutex && e == Leave(t, token) && g' == g.(pc := Stopping)
         case Stopping => mutex' == s.mutex && e == Nothing && g' == g.(pc := Joining, stopped := true)
         case Joining => watcher == Gone && mutex' == s.mutex && e == Nothing && g' == g.(pc := Freeing)
         case Freeing => mutex' == s.mutex && e == FreeToken(t, token) && g' == g.(pc := Unlocking)
         case Unlocking => mutex' == None && e == Nothing && g' == g.(pc := Returned)
         case Returned => false
  }

  /** One step of the watcher of search g. */
  predicate WatcherStep(t: nat, g: Goroutine, g': Goroutine, e: Event) {
    && g.Search?
    && match g.watcher
       case Selecting =>
         && e == Nothing
         && ((g.cancelled && g' == g.(watcher := Tripping)) || (g.stopped && g' == g.(watcher := Finishing)))
       case Tripping => e == Trip(t, g.token) && g' == g.(watcher := Finishing)
       case Finishing => e == Nothing && g' == g.(watcher := Gone)
       case _ => false
  }

  /** The context of search g is cancelled. */
  predicate CancelStep(g: Goroutine, g': Goroutine, e: Event) {
    g.Search? && !g.cancelled && g' == g.(cancelled := true) && e == Nothing
  }

  /** Only goroutine t changes. */
  predicate OnlyChanges(s: State, s': State, t: nat) {
    t < |s.threads| == |s'.threads| && s'.threads == s.threads[t := s'.threads[t]]
  }

  /** A step of the program: of a goroutine, or of a search's watcher. */
  ghost predicate Progress(s: State, s': State, t: nat, e: Event) {
    && OnlyChanges(s, s', t)
    && var g, g' := s.threads[t], s'.threads[t];
       || OwnStep(s, t, g, g', s'.mutex, s'.closed, e)
       || (WatcherStep(t, g, g', e) && s'.mutex == s.mutex && s'.closed == s.closed)
  }

  /** A step of the program, or of its callers, who may cancel a context at any moment. */
  ghost predicate Step(s: State, s': State, t: nat, e: Event) {
    || Progress(s, s', t, e)
    || (&& OnlyChanges(s, s', t) && CancelStep(s.threads[t], s'.threads[t], e)
        && s'.mutex == s.mutex && s'.closed == s.closed)
  }

  // ---- what must never happen ----

  /** An observer of events alone: whether the engine is open, who is inside it, and which
      tokens are live and whose. */
  datatype Monitor = Monitor(open: bool, inside: set<nat>, live: map<Token, nat>)

  const AT_FIRST := Monitor(true, {}, map[])

  predicate Owns(m: Monitor, t: nat, token: Token) {
    token in m.live && m.live[token] == t
  }

  /** The observer's verdict on one more event: None for a token tripped, freed or used
      when it is not live or not this search's, for an engine entered or left while closed
      or while another search is inside, for an engine closed twice or while in use, and for
      a search refused while the engine is open. */
  function Observe(m: Monitor, e: Event): Option<Monitor> {
    match e
    case Nothing => Some(m)
    case GaveUp(_) => Some(m)
    case NoToken(_) => Some(m)
    case Refused(_) => if m.open then None else Some(m)
    case NewToken(t, token) => if token in m.live then None else Some(m.(live := m.live[token := t]))
    case Trip(t, token) => if Owns(m, t, token) then Some(m) else None
    case FreeToken(t, token) =>
      if Owns(m, t, token) && t !in m.inside then Some(m.(live := m.live - {token})) else None
    case Enter(t, token) =>
      if m.open && m.inside == {} && Owns(m, t, token) then Some(m.(inside := {t})) else None
    case Leave(t, token) =>
      if m.open && t in m.inside && Owns(m, t, token) then Some(m.(inside := m.inside - {t})) else None
    case CloseEngine(t) => if m.open && m.inside == {} then Some(m.(open := false)) else None
  }

  function ObserveAll(events: seq<Event>): Option<Monitor> {
    if events == [] then Some(AT_FIRST)
    else
      var before := ObserveAll(events[..|events| - 1]);
      if before.None? then None else Observe(before.value, events[|events| - 1])
  }

  /** A run: a sequence of states and the steps between them. */
  ghost predicate Run(states: seq<State>, movers: seq<nat>, events: seq<Event>) {
    && |states| == |events| + 1 == |movers| + 1
    && Initial(states[0])
    && forall i {:trigger events[i]} :: 0 <= i < |events| ==> Step(states[i], states[i + 1], movers[i], events[i])
  }

  // ---- the invariant ----

  /** The watcher is alive only while its search is between starting and joining it, and
      what each program point has established. */
  predicate Consistent(g: Goroutine) {
    g.Search? ==>
      && (g.pc.Begin? || g.pc.Locking? || g.pc.Checking? || g.pc.Watching? ==> g.watcher == Unborn && !g.stopped)
      && (g.pc.Calling? || g.pc.InEngine? || g.pc.Stopping? ==> g.watcher != Unborn && !g.stopped)
      && (g.pc.Joining? ==> g.watcher != Unborn && g.stopped)
      && (g.pc.Freeing? || g.pc.Unlocking? || g.pc.Returned? ==> g.watcher == Unborn || g.watcher == Gone)
      && (g.pc.Freeing? ==> g.stopped)
      && (g.watcher == Tripping || g.watcher == Finishing || g.watcher == Gone ==> g.stopped || g.cancelled)
  }

  predicate Local(s: State, t: nat)
    requires t < |s.threads|
  {
    var g := s.threads[t];
    && Consistent(g)
    && (Critical(g) <==> s.mutex == Some(t))
    && (HoldsToken(g) || (g.Search? && g.pc.Watching?) ==> !s.closed)
  }

  /** What the observer must have seen, given who holds the mutex. */
  function Seen(s: State): Monitor {
    match s.mutex
    case Some(t) =>
      if t < |s.threads| && HoldsToken(s.threads[t]) then
        Monitor(!s.closed, if s.threads[t].pc.InEngine? then {t} else {}, map[s.threads[t].token := t])
      else Monitor(!s.closed, {}, map[])
    case None => Monitor(!s.closed, {}, map[])
  }

  predicate Inv(s: State) {
    && (s.mutex.Some? ==> s.mutex.value < |s.threads|)
    && forall t {:trigger Local(s, t)} :: 0 <= t < |s.threads| ==> Local(s, t)
  }

  lemma InitialInv(s: State)
    requires Initial(s)
    ensures Inv(s) && Seen(s) == AT_FIRST
  {
    forall t | 0 <= t < |s.threads|
      ensures Local(s, t)
    {
    }
  }

  /** Goroutines that did not move keep what they rely on: the mutex only changes hands
      through its holder, and the pointer is only cleared by it. */
  lemma OthersUndisturbed(s: State, s': State, t: nat, e: Event, u: nat)
    requires Inv(s) && Step(s, s', t, e) && u < |s.threads| && u != t
    ensures Local(s', u)
  {
    assert Local(s, t) && Local(s, u);
    assert s'.threads[u] == s.threads[u];
  }

  lemma MoverConsistent(s: State, s': State, t: nat, e: Event)
    requires Inv(s) && Step(s, s', t, e)
    ensures Local(s', t)
  {
    assert Local(s, t);
  }

  /** Every step keeps the invariant, and the observer accepts its event. */
  lemma StepKeepsInv(s: State, s': State, t: nat, e: Event)
    requires Inv(s) && Step(s, s', t, e)
    ensures Inv(s') && Observe(Seen(s), e) == Some(Seen(s'))
  {
    forall u | 0 <= u < |s'.threads|
      ensures Local(s', u)
    {
      if u == t {
        MoverConsistent(s, s', t, e);
      } else {
        OthersUndisturbed(s, s', t, e, u);
      }
    }
    assert Local(s, t) && Local(s', t);
    HolderIsCritical(s);
    HolderIsCritical(s');
    StepIsObserved(s, s', t, e);
  }

  predicate HolderKnown(s: State) {
    s.mutex.Some? ==> s.mutex.value < |s.threads| && Critical(s.threads[s.mutex.value])
  }

  /** A watcher and a context leave alone what an observer sees, but for a trip. */
  lemma SeenUnchanged(s: State, s': State, t: nat)
    requires t < |s.threads| == |s'.threads| && s'.threads == s.threads[t := s'.threads[t]]
    requires s'.mutex == s.mutex && s'.closed == s.closed && s.threads[t].Search? && s'.threads[t].Search?
    requires s'.threads[t].pc == s.threads[t].pc && s'.threads[t].token == s.threads[t].token
    ensures Seen(s') == Seen(s)
  {
  }

  lemma OwnStepIsObserved(s: State, s': State, t: nat, e: Event)
    requires t < |s.threads| == |s'.threads| && s'.threads == s.threads[t := s'.threads[t]]
    requires OwnStep(s, t, s.threads[t], s'.threads[t], s'.mutex, s'.closed, e)
    requires Local(s, t) && Local(s', t) && HolderKnown(s) && HolderKnown(s')
    ensures Observe(Seen(s), e) == Some(Seen(s'))
  {
    assert forall token: Token, u: nat :: map[token := u] - {token} == map[] && map[][token := u] == map[token := u];
    assert forall u: nat :: {u} - {u} == {};
  }

  lemma StepIsObserved(s: State, s': State, t: nat, e: Event)
    requires Step(s, s', t, e) && Local(s, t) && Local(s', t) && HolderKnown(s) && HolderKnown(s')
    ensures Observe(Seen(s), e) == Some(Seen(s'))
  {
    if OwnStep(s, t, s.threads[t], s'.threads[t], s'.mutex, s'.closed, e) {
      OwnStepIsObserved(s, s', t, e);
    } else {
      SeenUnchanged(s, s', t);
    }
  }

  lemma HolderIsCritical(s: State)
    requires Inv(s)
    ensures s.mutex.Some? ==> Local(s, s.mutex.value) && Critical(s.threads[s.mutex.value])
  {
  }

  /** Safety, for every interleaving of any number of goroutines and cancellations: the
      observer accepts the whole run. No token is tripped, freed or handed to the engine
      once freed; the engine is never entered after it is closed, closed twice, or closed
      under a search; and searches are serialized. */
  lemma {:induction false} EveryRunIsSafe(states: seq<State>, movers: seq<nat>, events: seq<Event>)
    requires Run(states, movers, events)
    ensures Inv(states[|events|])
    ensures ObserveAll(events) == Some(Seen(states[|events|]))
    decreases |events|
  {
    if events == [] {
      InitialInv(states[0]);
    } else {
      var n := |events| - 1;
      EveryRunIsSafe(states[..|states| - 1], movers[..n], events[..n]);
      assert events[n] == events[n];
      StepKeepsInv(states[n], states[n + 1], movers[n], events[n]);
    }
  }

  /** And nothing leaks: when every goroutine has returned, every token allocated has been
      freed, the mutex is free and nobody is inside the engine. */
  lemma NothingIsLeft(states: seq<State>, movers: seq<nat>, events: seq<Event>)
    requires Run(states, movers, events)
    requires Done(states[|events|])
    ensures states[|events|].mutex == None
    ensures ObserveAll(events).Some? && ObserveAll(events).value.live == map[] && ObserveAll(events).value.inside == {}
  {
    EveryRunIsSafe(states, movers, events);
    HolderIsCritical(states[|events|]);
  }

  // ---- what must have happened ----

  predicate Called(events: seq<Event>, t: nat, token: Token) {
    Enter(t, token) in events && Leave(t, token) in events
  }

  /** What the events so far must tell of goroutine t, given where it stands. A watcher that
      finished without being stopped has tripped the token, and only a cancelled context has
      it tripped or makes a search give up; a search behind its call has made it; and one
      that is over has made it, or was refused, or had no token, or gave up. */
  ghost predicate Told(g: Goroutine, t: nat, closed: bool, events: seq<Event>) {
    match g
    case Close(cpc) => cpc.CloseUnlocking? || cpc.CloseReturned? ==> closed
    case Search(pc, token, watcher, stopped, cancelled) =>
      && ((watcher == Finishing || watcher == Gone) && !stopped ==> Trip(t, token) in events)
      && (forall k: Token :: Trip(t, k) in events ==> cancelled)
      && (GaveUp(t) in events ==> cancelled)
      && (watcher == Tripping ==> cancelled)
      && (pc.InEngine? ==> Enter(t, token) in events)
      && (pc.Stopping? || pc.Joining? || pc.Freeing? ==> Called(events, t, token))
      && (pc.Unlocking? || pc.Returned? ==>
            Called(events, t, token) || Refused(t) in events || NoToken(t) in events || GaveUp(t) in events)
  }

  /** An engine that is closed was closed by somebody. */
  ghost predicate ClosingTold(closed: bool, events: seq<Event>) {
    closed ==> exists u: nat :: CloseEngine(u) in events
  }

  predicate EventOf(e: Event, t: nat) {
    e == Nothing || e.t == t
  }

  lemma EventsAreOfTheMover(s: State, s': State, t: nat, e: Event)
    requires Step(s, s', t, e)
    ensures EventOf(e, t)
  {
  }

  lemma OtherStaysTold(g: Goroutine, u: nat, closed: bool, closed': bool, events: seq<Event>, t: nat, e: Event)
    requires Told(g, u, closed, events) && EventOf(e, t) && t != u && (closed ==> closed')
    ensures Told(g, u, closed', events + [e])
  {
  }

  lemma OwnStepIsTold(s: State, t: nat, g: Goroutine, g': Goroutine, mutex': Option<nat>, closed': bool, e: Event,
                      events: seq<Event>)
    requires OwnStep(s, t, g, g', mutex', closed', e) && Consistent(g) && Told(g, t, s.closed, events)
    ensures Told(g', t, closed', events + [e])
  {
    var all := events + [e];
    assert e in all && forall x :: x in events ==> x in all;
    assert forall x :: x in all ==> x in events || x == e;
  }

  lemma WatcherStepIsTold(t: nat, g: Goroutine, g': Goroutine, e: Event, closed: bool, events: seq<Event>)
    requires WatcherStep(t, g, g', e) && Told(g, t, closed, events)
    ensures Told(g', t, closed, events + [e])
  {
    var all := events + [e];
    assert e in all && forall x :: x in events ==> x in all;
    assert forall x :: x in all ==> x in events || x == e;
  }

  lemma CancelStepIsTold(t: nat, g: Goroutine, g': Goroutine, e: Event, closed: bool, events: seq<Event>)
    requires CancelStep(g, g', e) && Told(g, t, closed, events)
    ensures Told(g', t, closed, events + [e])
  {
    var all := events + [e];
    assert e in all && forall x :: x in events ==> x in all;
    assert forall x :: x in all ==> x in events || x == e;
  }

  lemma StepIsTold(s: State, s': State, t: nat, e: Event, events: seq<Event>, u: nat)
    requires Step(s, s', t, e) && Consistent(s.threads[t]) && u < |s.threads|
    requires Told(s.threads[u], u, s.closed, events) && Told(s.threads[t], t, s.closed, events)
    ensures u < |s'.threads| && Told(s'.threads[u], u, s'.closed, events + [e])
  {
    var g, g' := s.threads[t], s'.threads[t];
    EventsAreOfTheMover(s, s', t, e);
    ClosedForGood(s, s', t, e);
    if u != t {
      OtherStaysTold(s.threads[u], u, s.closed, s'.closed, events, t, e);
    } else if OwnStep(s, t, g, g', s'.mutex, s'.closed, e) {
      OwnStepIsTold(s, t, g, g', s'.mutex, s'.closed, e, events);
    } else if WatcherStep(t, g, g', e) {
      WatcherStepIsTold(t, g, g', e, s.closed, events);
    } else {
      CancelStepIsTold(t, g, g', e, s.closed, events);
    }
  }

  lemma ClosedForGood(s: State, s': State, t: nat, e: Event)
    requires Step(s, s', t, e)
    ensures s.closed ==> s'.closed
    ensures !s.closed && s'.closed ==> e == CloseEngine(t)
  {
  }

  lemma ClosingStaysTold(s: State, s': State, t: nat, e: Event, events: seq<Event>)
    requires Step(s, s', t, e) && ClosingTold(s.closed, events)
    ensures ClosingTold(s'.closed, events + [e])
  {
    ClosedForGood(s, s', t, e);
    if s.closed {
      var u: nat :| CloseEngine(u) in events;
      assert CloseEngine(u) in events + [e];
    } else if s'.closed {
      assert CloseEngine(t) in events + [e];
    }
  }

  ghost predicate TellsOf(s: State, events: seq<Event>, u: nat)
    requires u < |s.threads|
  {
    Told(s.threads[u], u, s.closed, events)
  }

  ghost predicate AllTold(s: State, events: seq<Event>) {
    && ClosingTold(s.closed, events)
    && forall u {:trigger TellsOf(s, events, u)} :: 0 <= u < |s.threads| ==> TellsOf(s, events, u)
  }

  lemma StepTellsAll(s: State, s': State, t: nat, e: Event, events: seq<Event>)
    requires Inv(s) && Step(s, s', t, e) && AllTold(s, events)
    ensures AllTold(s', events + [e])
  {
    ClosingStaysTold(s, s', t, e, events);
    assert Local(s, t) && TellsOf(s, events, t);
    forall u | 0 <= u < |s'.threads|
      ensures TellsOf(s', events + [e], u)
    {
      assert TellsOf(s, events, u);
      StepIsTold(s, s', t, e, events, u);
    }
  }

  lemma InitiallyTold(s: State)
    requires Initial(s)
    ensures AllTold(s, [])
  {
    forall u | 0 <= u < |s.threads|
      ensures TellsOf(s, [], u)
    {
    }
  }

  /** A run without its last step is a run. */
  lemma RunSoFar(states: seq<State>, movers: seq<nat>, events: seq<Event>, n: nat)
    requires Run(states, movers, events) && n + 1 == |events|
    ensures Run(states[..n + 1], movers[..n], events[..n])
    ensures Step(states[n], states[n + 1], movers[n], events[n])
    ensures events == events[..n] + [events[n]]
  {
    assert events[n] == events[n];
  }

  /** In every run, the events tell what must have happened: a cancelled context that its
      watcher took up has tripped the token; a finished search has called the engine unless
      it was refused, had no token or gave up; and once a close has returned, somebody has
      closed the engine. */
  lemma {:induction false} EveryRunTells(states: seq<State>, movers: seq<nat>, events: seq<Event>)
    requires Run(states, movers, events)
    ensures AllTold(states[|events|], events)
    decreases |events|
  {
    if events == [] {
      InitiallyTold(states[0]);
    } else {
      var n := |events| - 1;
      RunSoFar(states, movers, events, n);
      EveryRunTells(states[..n + 1], movers[..n], events[..n]);
      EveryRunIsSafe(states[..n + 1], movers[..n], events[..n]);
      StepTellsAll(states[n], states[n + 1], movers[n], events[n], events[..n]);
    }
  }

  /** A search whose context was cancelled before it began, and what it may do. */
  predicate KeptOut(s: State, events: seq<Event>, u: nat) {
    && u < |s.threads| && s.threads[u].Search? && s.threads[u].cancelled && s.threads[u].watcher == Unborn
    && (s.threads[u].pc.Begin? || (s.threads[u].pc.Returned? && GaveUp(u) in events))
    && forall e :: e in events && e != Nothing && e.t == u ==> e == GaveUp(u)
  }

  lemma StaysOut(s: State, s': State, t: nat, e: Event, events: seq<Event>, u: nat)
    requires Step(s, s', t, e) && KeptOut(s, events, u)
    ensures KeptOut(s', events + [e], u)
  {
    var all := events + [e];
    EventsAreOfTheMover(s, s', t, e);
    assert e in all && forall x :: x in all ==> x in events || x == e;
    assert GaveUp(u) in events ==> GaveUp(u) in all;
  }

  /** A context cancelled from the outset keeps its search from everything: it can only give
      up, and has, once it is over. */
  lemma {:induction false} CancelledBeforehandGivesUp(states: seq<State>, movers: seq<nat>, events: seq<Event>, u: nat)
    requires Run(states, movers, events) && u < |states[0].threads|
    requires states[0].threads[u].Search? && states[0].threads[u].cancelled
    ensures KeptOut(states[|events|], events, u)
    decreases |events|
  {
    if events != [] {
      var n := |events| - 1;
      RunSoFar(states, movers, events, n);
      CancelledBeforehandGivesUp(states[..n + 1], movers[..n], events[..n], u);
      StaysOut(states[n], states[n + 1], movers[n], events[n], events[..n], u);
    }
  }

  /** Cancelling reaches the engine: while a search is inside, with its context cancelled and
      its watcher waiting, two steps of the watcher trip the token, and the call goes on. */
  lemma CancelReachesTheEngine(s: State, t: nat) returns (s1: State, s2: State)
    requires Inv(s) && t < |s.threads| && s.threads[t].Search?
    requires s.threads[t].pc.InEngine? && s.threads[t].cancelled && s.threads[t].watcher == Selecting
    ensures Progress(s, s1, t, Nothing) && Progress(s1, s2, t, Trip(t, s.threads[t].token))
    ensures s2 == s.(threads := s.threads[t := s.threads[t].(watcher := Finishing)])
  {
    var g := s.threads[t];
    s1 := s.(threads := s.threads[t := g.(watcher := Tripping)]);
    s2 := s1.(threads := s1.threads[t := g.(watcher := Finishing)]);
  }

  // ---- nothing blocks for ever ----

  predicate HasReturned(g: Goroutine) {
    match g
    case Search(pc, _, watcher, _, _) => pc.Returned? && (watcher == Unborn || watcher == Gone)
    case Close(cpc) => cpc.CloseReturned?
  }

  predicate Done(s: State) {
    forall t :: 0 <= t < |s.threads| ==> HasReturned(s.threads[t])
  }

  /** How many steps a goroutine, its watcher and its context can still take. */
  function Remaining(g: Goroutine): nat {
    match g
    case Close(cpc) =>
      (match cpc case CloseLocking => 3 case CloseChecking => 2 case CloseUnlocking => 1 case CloseReturned => 0)
    case Search(pc, _, watcher, _, cancelled) =>
      (if cancelled then 0 else 1)
      + (match pc
         case Begin => 14 case Locking => 13 case Checking => 12 case Watching => 11 case Calling => 7
         case InEngine => 6 case Stopping => 5 case Joining => 4 case Freeing => 3 case Unlocking => 2
         case Returned => 0)
      + (match watcher case Unborn => 0 case Selecting => 3 case Tripping => 2 case Finishing => 1 case Gone => 0)
  }

  function Work(threads: seq<Goroutine>): nat {
    if threads == [] then 0 else Remaining(threads[0]) + Work(threads[1..])
  }

  lemma {:induction false} WorkUpdate(threads: seq<Goroutine>, t: nat, g: Goroutine)
    requires t < |threads|
    ensures Work(threads[t := g]) == Work(threads) - Remaining(threads[t]) + Remaining(g)
  {
    var threads' := threads[t := g];
    if t == 0 {
      assert threads'[1..] == threads[1..];
    } else {
      WorkUpdate(threads[1..], t - 1, g);
      assert threads'[1..] == threads[1..][t - 1 := g];
    }
  }

  lemma OwnStepUsesWork(s: State, t: nat, g: Goroutine, g': Goroutine, mutex': Option<nat>, closed': bool, e: Event)
    requires OwnStep(s, t, g, g', mutex', closed', e)
    ensures Remaining(g') < Remaining(g)
  {
  }

  lemma WatcherStepUsesWork(t: nat, g: Goroutine, g': Goroutine, e: Event)
    requires WatcherStep(t, g, g', e)
    ensures Remaining(g') < Remaining(g)
  {
  }

  lemma CancelStepUsesWork(g: Goroutine, g': Goroutine, e: Event)
    requires CancelStep(g, g', e)
    ensures Remaining(g') < Remaining(g)
  {
  }

  /** Every step, whoever takes it, uses up work. */
  lemma StepUsesWork(s: State, s': State, t: nat, e: Event)
    requires Step(s, s', t, e)
    ensures Work(s'.threads) < Work(s.threads)
  {
    var g, g' := s.threads[t], s'.threads[t];
    if OwnStep(s, t, g, g', s'.mutex, s'.closed, e) {
      OwnStepUsesWork(s, t, g, g', s'.mutex, s'.closed, e);
    } else if WatcherStep(t, g, g', e) {
      WatcherStepUsesWork(t, g, g', e);
    } else {
      CancelStepUsesWork(g, g', e);
    }
    WorkUpdate(s.threads, t, g');
  }

  /** So no run is longer than the work its goroutines start with. */
  lemma {:induction false} RunsAreBounded(states: seq<State>, movers: seq<nat>, events: seq<Event>)
    requires Run(states, movers, events)
    ensures |events| + Work(states[|events|].threads) <= Work(states[0].threads)
    decreases |events|
  {
    if events != [] {
      var n := |events| - 1;
      RunsAreBounded(states[..|states| - 1], movers[..n], events[..n]);
      assert events[n] == events[n];
      StepUsesWork(states[n], states[n + 1], movers[n], events[n]);
    }
  }

  /** A token nobody holds exists: one larger than every token in sight. */
  function AboveAll(threads: seq<Goroutine>): (token: Token)
    ensures forall t :: 0 <= t < |threads| && threads[t].Search? ==> threads[t].token < token
  {
    if threads == [] then 0
    else
      var rest := AboveAll(threads[1..]);
      assert forall t :: 1 <= t < |threads| ==> threads[t] == threads[1..][t - 1];
      if threads[0].Search? && threads[0].token >= rest then threads[0].token + 1 else rest
  }

  /** The goroutine holding the mutex can move, or its watcher can, and no context need be
      cancelled for it: the teardown waits for a watcher that the closed stop channel has
      already released. */
  lemma HolderCanMove(s: State, t: nat) returns (s': State, e: Event)
    requires Inv(s) && s.mutex == Some(t)
    ensures Progress(s, s', t, e)
  {
    var g := s.threads[t];
    assert Local(s, t);
    var g', mutex', closed' := g, s.mutex, s.closed;
    e := Nothing;
    match g {
      case Close(cpc) =>
        if cpc.CloseChecking? {
          g', closed', e := Close(CloseUnlocking), true, if s.closed then Nothing else CloseEngine(t);
        } else {
          g', mutex' := Close(CloseReturned), None;
        }
      case Search(pc, token, watcher, stopped, cancelled) =>
        match pc {
          case Checking =>
            e := if s.closed then Refused(t) else Nothing;
            g' := g.(pc := if s.closed then Unlocking else Watching);
          case Watching =>
            e := NewToken(t, AboveAll(s.threads));
            g' := g.(pc := Calling, token := e.token, watcher := Selecting);
          case Calling => g', e := g.(pc := InEngine), Enter(t, token);
          case InEngine => g', e := g.(pc := Stopping), Leave(t, token);
          case Stopping => g' := g.(pc := Joining, stopped := true);
          case Joining =>
            match watcher {
              case Selecting => g' := g.(watcher := Finishing);
              case Tripping => g', e := g.(watcher := Finishing), Trip(t, token);
              case Finishing => g' := g.(watcher := Gone);
              case Gone => g' := g.(pc := Freeing);
              case Unborn =>
            }
          case Freeing => g', e := g.(pc := Unlocking), FreeToken(t, token);
          case Unlocking => g', mutex' := g.(pc := Returned), None;
          case Begin =>
          case Locking =>
          case Returned =>
        }
    }
    s' := State(mutex', closed', s.threads[t := g']);
  }

  /** No deadlock: until every goroutine has returned, the program itself can take a step,
      cancelled contexts or not. */
  lemma SomeoneCanMove(s: State) returns (s': State, t: nat, e: Event)
    requires Inv(s) && !Done(s)
    ensures Progress(s, s', t, e)
  {
    if s.mutex.Some? {
      t := s.mutex.value;
      s', e := HolderCanMove(s, t);
    } else {
      t :| 0 <= t < |s.threads| && !HasReturned(s.threads[t]);
      var g := s.threads[t];
      assert Local(s, t);
      e := Nothing;
      if g.Close? {
        s' := State(Some(t), s.closed, s.threads[t := Close(CloseChecking)]);
      } else if g.pc.Begin? {
        e := if g.cancelled then GaveUp(t) else Nothing;
        s' := s.(threads := s.threads[t := g.(pc := if g.cancelled then Returned else Locking)]);
      } else {
        s' := State(Some(t), s.closed, s.threads[t := g.(pc := Checking)]);
      }
    }
  }

  /** The steps from n on are all the program's own. */
  ghost predicate ProgressFrom(states: seq<State>, movers: seq<nat>, events: seq<Event>, n: nat)
    requires |states| == |events| + 1 == |movers| + 1
  {
    forall i {:trigger events[i]} :: n <= i < |events| ==> Progress(states[i], states[i + 1], movers[i], events[i])
  }

  /** Every run can be carried on by the program alone, no further context being cancelled,
      until all goroutines have returned; and it takes at most the work left. With bounded
      runs and no deadlock, no teardown blocks for ever. */
  lemma {:induction false} EveryRunCompletes(states: seq<State>, movers: seq<nat>, events: seq<Event>)
    returns (states': seq<State>, movers': seq<nat>, events': seq<Event>)
    requires Run(states, movers, events)
    ensures Run(states', movers', events') && Done(states'[|events'|])
    ensures states <= states' && movers <= movers' && events <= events'
    ensures ProgressFrom(states', movers', events', |events|)
    ensures |events'| <= Work(states[0].threads)
    decreases Work(states[|events|].threads)
  {
    EveryRunIsSafe(states, movers, events);
    var s := states[|events|];
    if Done(s) {
      states', movers', events' := states, movers, events;
      RunsAreBounded(states, movers, events);
    } else {
      var s', t, e := SomeoneCanMove(s);
      StepUsesWork(s, s', t, e);
      Extended(states, movers, events, s', t, e);
      states', movers', events' := EveryRunCompletes(states + [s'], movers + [t], events + [e]);
      ProgressSooner(states', movers', events', |events|, s, s', t, e);
    }
  }

  lemma ProgressSooner(states: seq<State>, movers: seq<nat>, events: seq<Event>, n: nat,
                       s: State, s': State, t: nat, e: Event)
    requires |states| == |events| + 1 == |movers| + 1 && n < |events|
    requires ProgressFrom(states, movers, events, n + 1) && Progress(s, s', t, e)
    requires states[n] == s && states[n + 1] == s' && movers[n] == t && events[n] == e
    ensures ProgressFrom(states, movers, events, n)
  {
  }

  lemma Extended(states: seq<State>, movers: seq<nat>, events: seq<Event>, s': State, t: nat, e: Event)
    requires Run(states, movers, events) && Step(states[|events|], s', t, e)
    ensures Run(states + [s'], movers + [t], events + [e])
  {
    var all := events + [e];
    forall i {:trigger all[i]} | 0 <= i < |all|
      ensures Step((states + [s'])[i], (states + [s'])[i + 1], (movers + [t])[i], all[i])
    {
      if i < |events| {
        assert all[i] == events[i];
      }
    }
  }
}
