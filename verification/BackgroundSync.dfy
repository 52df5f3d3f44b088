/** The single-flight background sync with capped exponential back-off (src/state.rs).

    `State` is the part of the application state the scheduler reads and writes; the class updates it
    field by field. The worker and the timers are an environment that may deliver anything, late,
    twice or never. */
module BackgroundSync {
  import opened Numbers
  import opened Results
  import opened Text
  import opened MessageIds

  const FLOOR: nat := 60
  const CAP: nat := 900
  const MAX_EMITTED_IDS: nat := 500
  const U8_MAX: nat := 255

  /** What the scheduler needs to know about the rest of the application. */
  datatype Context = Context(ready: bool, hasMailbox: bool, operationActive: bool, folderRequestActive: bool,
                             folderLoading: bool)

  datatype Scheduler = Scheduler(inFlight: Option<nat>, nextRequest: nat, failures: nat, generation: nat,
                                 pendingTick: bool, paused: bool, emitted: set<MessageId>)

  datatype State = State(context: Context, account: Option<string>, sync: Scheduler)

  datatype Effect =
    | Schedule(after: nat, generation: nat)
    | CancelTimer
    | SendSync(request: nat, account: string)
    | NotifyNewUnread(count: nat)

  const INITIAL_SCHEDULER := Scheduler(None, 1, 0, 1, false, true, {})
  const INITIAL := State(Context(false, false, false, false, false), None, INITIAL_SCHEDULER)

  function Power2(n: nat): nat {
    if n == 0 then 1 else 2 * Power2(n - 1)
  }

  function Delay(failures: nat): nat {
    Least(FLOOR * Power2(Least(failures, 4)), CAP)
  }

  function Armed(s: State, after: nat): (State, Effect) {
    var g := s.sync.generation + 1;
    (s.(sync := s.sync.(generation := g)), Schedule(after, g))
  }

  function Stopped(s: State): (State, seq<Effect>) {
    var active := s.sync.inFlight.Some? || s.sync.pendingTick || !s.sync.paused;
    (s.(sync := s.sync.(inFlight := None, pendingTick := false, paused := true, generation := s.sync.generation + 1)),
     if active then [CancelTimer] else [])
  }

  function Reset(s: State): State {
    s.(sync := s.sync.(inFlight := None, pendingTick := false, failures := 0, paused := true, emitted := {},
                       generation := s.sync.generation + 1))
  }

  predicate CanBegin(s: State) {
    && s.context.ready && s.account.Some? && s.context.hasMailbox
    && !s.context.operationActive && !s.context.folderRequestActive && !s.context.folderLoading
    && s.sync.inFlight.None? && !s.sync.paused
  }

  function TimerFired(s: State, generation: nat): (State, seq<Effect>) {
    if generation != s.sync.generation || s.sync.paused then (s, [])
    else if !CanBegin(s) then
      var armed := Armed(s.(sync := s.sync.(pendingTick := true)), FLOOR);
      (armed.0, [armed.1])
    else
      var r := s.sync.nextRequest;
      (s.(sync := s.sync.(nextRequest := r + 1, inFlight := Some(r), pendingTick := false)),
       [SendSync(r, s.account.value)])
  }

  predicate IsCurrentAccount(s: State, account: string) {
    s.account.Some? && EqualIgnoringCase(s.account.value, account)
  }

  datatype Emission = Emission(ids: set<MessageId>, count: nat)

  function Emit(so: Emission, id: MessageId): Emission {
    var ids := if |so.ids| >= MAX_EMITTED_IDS then {} else so.ids;
    if id in ids then Emission(ids, so.count) else Emission(ids + {id}, so.count + 1)
  }

  function EmitAll(start: set<MessageId>, ids: seq<MessageId>): Emission {
    if ids == [] then Emission(start, 0) else Emit(EmitAll(start, ids[..|ids| - 1]), ids[|ids| - 1])
  }

  function Completed(s: State, request: nat, account: string, newUnread: seq<MessageId>): (State, seq<Effect>) {
    if s.sync.inFlight != Some(request) || !IsCurrentAccount(s, account) then (s, [])
    else
      var emission := EmitAll(s.sync.emitted, newUnread);
      var armed := Armed(s.(sync := s.sync.(inFlight := None, failures := 0, emitted := emission.ids)), FLOOR);
      (armed.0, (if emission.count > 0 then [NotifyNewUnread(emission.count)] else []) + [armed.1])
  }

  function Failed(s: State, request: nat, retryable: bool): (State, seq<Effect>) {
    if s.sync.inFlight != Some(request) then (s, [])
    else if !retryable then (s.(sync := s.sync.(inFlight := None, paused := true)), [])
    else
      var failures := Least(s.sync.failures + 1, U8_MAX);
      var armed := Armed(s.(sync := s.sync.(inFlight := None, failures := failures)), Delay(failures));
      (armed.0, [armed.1])
  }

  /** An identity the worker verified, persisted or found in the cache. */
  function AccountSeen(s: State, account: string): State {
    (if IsCurrentAccount(s, account) then s else Reset(s)).(account := Some(account))
  }

  /** A finished sync: the one event that (re)starts the scheduler. */
  function Synced(s: State, account: string): (State, seq<Effect>) {
    var seen := AccountSeen(s, account);
    var folderLane := IsCurrentAccount(s, account);
    var context := Context(true, true, false, folderLane && s.context.folderRequestActive,
                           folderLane && s.context.folderLoading);
    var ready := seen.(context := context, sync := seen.sync.(paused := false, failures := 0));
    var armed := Armed(ready, FLOOR);
    (armed.0, [armed.1])
  }

  function Disconnected(s: State): (State, seq<Effect>) {
    var stopped := Stopped(s);
    (stopped.0.(account := None, context := Context(false, false, false, false, false)), stopped.1)
  }

  // ----- the reducer methods -----

  class AppState {
    var context: Context
    var account: Option<string>
    var inFlight: Option<nat>
    var nextRequest: nat
    var consecutiveFailures: nat
    var scheduleGeneration: nat
    var pendingTick: bool
    var paused: bool
    var emittedIds: set<MessageId>

    ghost function View(): State
      reads this
    {
      State(context, account, Scheduler(inFlight, nextRequest, consecutiveFailures, scheduleGeneration,
                                        pendingTick, paused, emittedIds))
    }

    constructor ()
      ensures View() == INITIAL
    {
      context, account := Context(false, false, false, false, false), None;
      inFlight, nextRequest, consecutiveFailures, scheduleGeneration := None, 1, 0, 1;
      pendingTick, paused, emittedIds := false, true, {};
    }

    static method BackgroundSyncDelay(failures: nat) returns (seconds: nat)
      ensures seconds == Delay(failures) && FLOOR <= seconds <= CAP
    {
      DelayBounds(failures);
      var multiplier := 1;
      for i := 0 to Least(failures, 4)
        invariant multiplier == Power2(i)
      {
        multiplier := multiplier * 2;
      }
      seconds := Least(FLOOR * multiplier, CAP);
    }

    method ArmBackgroundSync(after: nat) returns (effect: Effect)
      modifies this`scheduleGeneration
      ensures (View(), effect) == Armed(old(View()), after)
    {
      scheduleGeneration := scheduleGeneration + 1;
      return Schedule(after, scheduleGeneration);
    }

    method StopBackgroundSync() returns (effects: seq<Effect>)
      modifies this
      ensures (View(), effects) == Stopped(old(View()))
    {
      var wasActive := inFlight.Some? || pendingTick || !paused;
      inFlight := None;
      pendingTick := false;
      paused := true;
      scheduleGeneration := scheduleGeneration + 1;
      return if wasActive then [CancelTimer] else [];
    }

    method ResetForAccountTransition()
      modifies this
      ensures View() == Reset(old(View()))
    {
      inFlight := None;
      pendingTick := false;
      consecutiveFailures := 0;
      paused := true;
      emittedIds := {};
      scheduleGeneration := scheduleGeneration + 1;
    }

    method BackgroundSyncTimer(generation: nat) returns (effects: seq<Effect>)
      modifies this
      ensures (View(), effects) == TimerFired(old(View()), generation)
    {
      if generation != scheduleGeneration || paused {
        return [];
      }
      if !(context.ready && account.Some? && context.hasMailbox && !context.operationActive
           && !context.folderRequestActive && !context.folderLoading && inFlight.None?) {
        pendingTick := true;
        var effect := ArmBackgroundSync(FLOOR);
        return [effect];
      }
      var request := nextRequest;
      nextRequest := nextRequest + 1;
      inFlight := Some(request);
      pendingTick := false;
      return [SendSync(request, account.value)];
    }

    method BackgroundSyncComplete(request: nat, syncedAccount: string, newUnread: seq<MessageId>)
      returns (effects: seq<Effect>)
      modifies this
      ensures (View(), effects) == Completed(old(View()), request, syncedAccount, newUnread)
    {
      if inFlight != Some(request) || account.None? || !EqualIgnoringCase(account.value, syncedAccount) {
        return [];
      }
      inFlight := None;
      consecutiveFailures := 0;
      var count: nat := 0;
      var ids := emittedIds;
      for i := 0 to |newUnread|
        invariant EmitAll(old(emittedIds), newUnread[..i]) == Emission(ids, count)
      {
        assert newUnread[..i + 1][..i] == newUnread[..i];
        if |ids| >= MAX_EMITTED_IDS {
          ids := {};
        }
        if newUnread[i] !in ids {
          ids := ids + {newUnread[i]};
          count := count + 1;
        }
      }
      assert newUnread[..|newUnread|] == newUnread;
      emittedIds := ids;
      var effect := ArmBackgroundSync(FLOOR);
      return (if count > 0 then [NotifyNewUnread(count)] else []) + [effect];
    }

    method BackgroundSyncFailed(request: nat, retryable: bool) returns (effects: seq<Effect>)
      modifies this
      ensures (View(), effects) == Failed(old(View()), request, retryable)
    {
      if inFlight != Some(request) {
        return [];
      }
      inFlight := None;
      if !retryable {
        paused := true;
        return [];
      }
      consecutiveFailures := Least(consecutiveFailures + 1, U8_MAX);
      var after := BackgroundSyncDelay(consecutiveFailures);
      var effect := ArmBackgroundSync(after);
      return [effect];
    }

    method IdentitySeen(seen: string)
      modifies this
      ensures View() == AccountSeen(old(View()), seen)
    {
      if account.None? || !EqualIgnoringCase(account.value, seen) {
        ResetForAccountTransition();
      }
      account := Some(seen);
    }

    method SyncComplete(synced: string) returns (effects: seq<Effect>)
      modifies this
      ensures (View(), effects) == Synced(old(View()), synced)
    {
      var isNew := account.None? || !EqualIgnoringCase(account.value, synced);
      IdentitySeen(synced);
      if isNew {
        context := context.(folderRequestActive := false, folderLoading := false);
      }
      context := context.(ready := true, hasMailbox := true, operationActive := false);
      paused := false;
      consecutiveFailures := 0;
      var effect := ArmBackgroundSync(FLOOR);
      return [effect];
    }

    method AccountDisconnected() returns (effects: seq<Effect>)
      modifies this
      ensures (View(), effects) == Disconnected(old(View()))
    {
      effects := StopBackgroundSync();
      account := None;
      context := Context(false, false, false, false, false);
    }
  }

  // ----- whole runs -----

  datatype Event =
    | Timer(generation: nat)
    | SyncCompleted(request: nat, account: string, newUnread: seq<MessageId>)
    | SyncFailed(failed: nat, retryable: bool)
    | Identity(seen: string)
    | FullSync(synced: string)
    | Stop                        // the user disconnects, or the worker stops
    | Disconnect
    | ContextChanged(context: Context)

  /** The state, the timers armed and not yet fired, the account each request was sent for, and the
      retryable failures since the last success or restart. */
  datatype World = World(state: State, timers: set<nat>, sent: map<nat, string>, streak: nat)

  function React(s: State, e: Event): (State, seq<Effect>) {
    match e
    case Timer(generation) => TimerFired(s, generation)
    case SyncCompleted(request, account, newUnread) => Completed(s, request, account, newUnread)
    case SyncFailed(request, retryable) => Failed(s, request, retryable)
    case Identity(account) => (AccountSeen(s, account), [])
    case FullSync(account) => Synced(s, account)
    case Stop => Stopped(s)
    case Disconnect => Disconnected(s)
    case ContextChanged(context) => (s.(context := context), [])
  }

  function ApplyEffect(w: World, effect: Effect): World {
    match effect
    case Schedule(_, generation) => w.(timers := w.timers + {generation})
    case CancelTimer => w.(timers := {})
    case SendSync(request, account) => w.(sent := w.sent[request := account])
    case NotifyNewUnread(_) => w
  }

  function ApplyEffects(w: World, effects: seq<Effect>): World {
    if effects == [] then w
    else ApplyEffect(ApplyEffects(w, effects[..|effects| - 1]), effects[|effects| - 1])
  }

  function StreakAfter(w: World, e: Event): nat {
    match e
    case SyncFailed(request, true) => if w.state.sync.inFlight == Some(request) then w.streak + 1 else w.streak
    case SyncCompleted(request, account, _) =>
      if w.state.sync.inFlight == Some(request) && IsCurrentAccount(w.state, account) then 0 else w.streak
    case FullSync(_) => 0
    case Identity(account) => if IsCurrentAccount(w.state, account) then w.streak else 0
    case _ => w.streak
  }

  function Step(w: World, e: Event): World {
    var fired := if e.Timer? then w.(timers := w.timers - {e.generation}) else w;
    var reaction := React(w.state, e);
    ApplyEffects(fired.(state := reaction.0, streak := StreakAfter(w, e)), reaction.1)
  }

  const START := World(INITIAL, {}, map[], 0)

  function Run(events: seq<Event>): World {
    if events == [] then START else Step(Run(events[..|events| - 1]), events[|events| - 1])
  }

  ghost predicate Healthy(w: World) {
    var sync := w.state.sync;
    && (!sync.paused ==> sync.generation in w.timers || sync.inFlight.Some?)
    && (sync.paused ==> sync.inFlight.None?)
    && (sync.inFlight.Some? ==>
          sync.inFlight.value in w.sent && IsCurrentAccount(w.state, w.sent[sync.inFlight.value]))
    && (forall r | r in w.sent :: r < sync.nextRequest)
    && (forall g | g in w.timers :: g <= sync.generation)
    && |sync.emitted| <= MAX_EMITTED_IDS
    && sync.failures == Least(w.streak, U8_MAX)
  }

  lemma DelayBounds(failures: nat)
    ensures FLOOR <= Delay(failures) <= CAP
    ensures Delay(failures) == if failures == 0 then 60 else if failures == 1 then 120
                               else if failures == 2 then 240 else if failures == 3 then 480 else 900
  {
    assert Power2(0) == 1 && Power2(1) == 2 && Power2(2) == 4;
    assert Power2(3) == 8 && Power2(4) == 16;
  }

  lemma {:induction false} EmittedBounded(start: set<MessageId>, ids: seq<MessageId>)
    requires |start| <= MAX_EMITTED_IDS
    ensures |EmitAll(start, ids).ids| <= MAX_EMITTED_IDS && EmitAll(start, ids).count <= |ids|
  {
    if ids != [] { EmittedBounded(start, ids[..|ids| - 1]); }
  }

  lemma OneEffect(w: World, effect: Effect)
    ensures ApplyEffects(w, []) == w && ApplyEffects(w, [effect]) == ApplyEffect(w, effect)
  {
    assert [effect][..0] == [];
  }

  lemma TwoEffects(w: World, a: Effect, b: Effect)
    ensures ApplyEffects(w, [a] + [b]) == ApplyEffect(ApplyEffect(w, a), b)
  {
    OneEffect(w, a);
    assert ([a] + [b])[..1] == [a];
  }

  lemma NoEffects(w: World)
    ensures ApplyEffects(w, []) == w
  {
  }

  lemma StepHealthy(w: World, e: Event)
    requires Healthy(w)
    ensures Healthy(Step(w, e))
  {
    hide EqualIgnoringCase, EmitAll, Delay;
    var reaction := React(w.state, e);
    var fired := if e.Timer? then w.(timers := w.timers - {e.generation}) else w;
    var w' := fired.(state := reaction.0, streak := StreakAfter(w, e));
    NoEffects(w');
    match e
    case Timer(generation) =>
      if reaction.1 != [] { OneEffect(w', reaction.1[0]); }
      if reaction.1 != [] && reaction.1[0].SendSync? { SameSpelling(w.state.account.value, w.state.account.value); }
    case SyncCompleted(request, account, newUnread) =>
      EmittedBounded(w.state.sync.emitted, newUnread);
      if |reaction.1| == 1 {
        OneEffect(w', reaction.1[0]);
      } else if reaction.1 != [] {
        TwoEffects(w', reaction.1[0], reaction.1[1]);
        assert reaction.1 == [reaction.1[0]] + [reaction.1[1]];
      }
    case SyncFailed(request, retryable) =>
      if reaction.1 != [] { OneEffect(w', reaction.1[0]); }
    case Identity(account) => SpellingSwitch(w, account);
    case FullSync(account) =>
      SpellingSwitch(w, account);
      OneEffect(w', reaction.1[0]);
    case Stop => if reaction.1 != [] { OneEffect(w', reaction.1[0]); }
    case Disconnect => if reaction.1 != [] { OneEffect(w', reaction.1[0]); }
    case ContextChanged(_) =>
  }

  lemma SameSpelling(a: string, b: string)
    ensures a == b ==> EqualIgnoringCase(a, b)
  {
  }

  /** An address that differs only in case is still the account the request in flight was sent for. */
  lemma SpellingSwitch(w: World, account: string)
    requires Healthy(w)
    ensures var sync := w.state.sync;
            sync.inFlight.Some? && IsCurrentAccount(w.state, account) ==>
              EqualIgnoringCase(account, w.sent[sync.inFlight.value])
  {
  }

  /** In every run the scheduler is alive: unless paused, a timer of the current generation is armed
      or a request is in flight; when paused none is. A request in flight belongs to the current
      account, timers of other generations are older, and at most 500 ids are remembered. */
  lemma {:induction false} NeverDies(events: seq<Event>)
    ensures Healthy(Run(events))
  {
    if events != [] {
      NeverDies(events[..|events| - 1]);
      StepHealthy(Run(events[..|events| - 1]), events[|events| - 1]);
    }
  }

  /** Every delay ever armed is between 60 and 900 seconds, and the one armed by the f-th consecutive
      retryable failure is min(60 * 2^min(f, 4), 900). */
  lemma DelaysFollowBackoff(events: seq<Event>, e: Event)
    ensures var w := Run(events);
            && (forall effect <- React(w.state, e).1 | effect.Schedule? ::
                  FLOOR <= effect.after <= CAP && effect.generation == Step(w, e).state.sync.generation)
            && (e.SyncFailed? && e.retryable && w.state.sync.inFlight == Some(e.failed) ==>
                  && Step(w, e).streak == w.streak + 1
                  && React(w.state, e).1 == [Schedule(Delay(w.streak + 1), w.state.sync.generation + 1)])
  {
    NeverDies(events);
    var w := Run(events);
    DelayBounds(0);
    if e.SyncFailed? {
      DelayBounds(Least(w.state.sync.failures + 1, U8_MAX));
      DelayBounds(w.streak + 1);
    }
    EffectsKeepState(w, e);
  }

  lemma EffectsKeepState(w: World, e: Event)
    ensures Step(w, e).state == React(w.state, e).0 && Step(w, e).streak == StreakAfter(w, e)
  {
    var fired := if e.Timer? then w.(timers := w.timers - {e.generation}) else w;
    EffectsKeep(fired.(state := React(w.state, e).0, streak := StreakAfter(w, e)), React(w.state, e).1);
  }

  lemma {:induction false} EffectsKeep(w: World, effects: seq<Effect>)
    ensures ApplyEffects(w, effects).state == w.state && ApplyEffects(w, effects).streak == w.streak
  {
    if effects != [] { EffectsKeep(w, effects[..|effects| - 1]); }
  }

  /** A request that is not in flight, though its number was given out, is done with. */
  predicate Retired(w: World, request: nat) {
    request < w.state.sync.nextRequest && w.state.sync.inFlight != Some(request)
  }

  lemma StepRetires(w: World, e: Event, request: nat)
    requires Retired(w, request)
    ensures Retired(Step(w, e), request) && Step(w, e).state.sync.generation >= w.state.sync.generation
  {
    hide EqualIgnoringCase, EmitAll, Delay, ApplyEffects, Step;
    EffectsKeepState(w, e);
  }

  lemma StepNeverRewinds(w: World, e: Event)
    ensures Step(w, e).state.sync.generation >= w.state.sync.generation
  {
    hide EqualIgnoringCase, EmitAll, Delay, ApplyEffects, Step;
    EffectsKeepState(w, e);
  }

  /** Once a request is done with, because it was answered, cancelled or overtaken, it never comes back:
      through every further run its answers, of either kind and for any account, change nothing. */
  lemma {:induction false} OldAnswersChangeNothing(before: seq<Event>, after: seq<Event>, request: nat)
    requires Retired(Run(before), request)
    ensures Retired(Run(before + after), request)
    ensures var now := Run(before + after).state;
            && (forall account, newUnread :: Completed(now, request, account, newUnread) == (now, []))
            && (forall retryable :: Failed(now, request, retryable) == (now, []))
  {
    hide Step, Run;
    if after == [] {
      assert before + after == before;
    } else {
      var front := after[..|after| - 1];
      assert (before + after)[..|before + after| - 1] == before + front;
      OldAnswersChangeNothing(before, front, request);
      RunSnoc(before + front, after[|after| - 1]);
      assert (before + front) + [after[|after| - 1]] == before + after;
      StepRetires(Run(before + front), after[|after| - 1], request);
    }
  }

  lemma RunSnoc(events: seq<Event>, e: Event)
    ensures Run(events + [e]) == Step(Run(events), e)
  {
    assert (events + [e])[..|events|] == events;
  }

  /** The answers to every request sent before the one in flight change nothing, from then on. */
  lemma OvertakenRequests(before: seq<Event>, after: seq<Event>, request: nat)
    requires request in Run(before).sent && Run(before).state.sync.inFlight != Some(request)
    ensures var now := Run(before + after).state;
            && (forall account, newUnread :: Completed(now, request, account, newUnread) == (now, []))
            && (forall retryable :: Failed(now, request, retryable) == (now, []))
  {
    hide Step;
    NeverDies(before);
    OldAnswersChangeNothing(before, after, request);
  }

  /** A timer outdated once stays outdated: through every further run it fires without effect. */
  lemma {:induction false} OldTimersChangeNothing(before: seq<Event>, after: seq<Event>, generation: nat)
    requires generation < Run(before).state.sync.generation
    ensures var now := Run(before + after).state;
            generation < now.sync.generation && TimerFired(now, generation) == (now, [])
  {
    hide Step, Run;
    if after == [] {
      assert before + after == before;
    } else {
      var front := after[..|after| - 1];
      OldTimersChangeNothing(before, front, generation);
      RunSnoc(before + front, after[|after| - 1]);
      assert (before + front) + [after[|after| - 1]] == before + after;
      StepNeverRewinds(Run(before + front), after[|after| - 1]);
    }
  }

  /** In every run, an answer naming another account than its request was sent for changes nothing. */
  lemma ForeignAnswersChangeNothing(events: seq<Event>, request: nat, account: string, newUnread: seq<MessageId>)
    requires request in Run(events).sent && !EqualIgnoringCase(Run(events).sent[request], account)
    ensures Completed(Run(events).state, request, account, newUnread) == (Run(events).state, [])
  {
    hide Run, EmitAll;
    NeverDies(events);
    var w := Run(events);
    if w.state.sync.inFlight == Some(request) { SpellingSwitch(w, account); }
  }

  /** A request is sent only when none is in flight, under a number never used before, for the
      account of the moment; it is then the one in flight. */
  lemma SingleFlight(events: seq<Event>, e: Event, request: nat, account: string)
    requires SendSync(request, account) in React(Run(events).state, e).1
    ensures var w := Run(events);
            && w.state.sync.inFlight.None? && !w.state.sync.paused
            && request !in w.sent && w.state.account == Some(account)
            && Step(w, e).state.sync.inFlight == Some(request)
  {
    NeverDies(events);
    EffectsKeepState(Run(events), e);
  }
}
