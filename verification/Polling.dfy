/** When the background sync polls, and what each answer and each turn of the account does to it, stated on the
    scheduler's own fields over whole runs (src/state.rs). */
module Polling {
  import opened Results
  import opened Text
  import opened Sorting
  import opened MessageIds
  import opened BackgroundSync

  /** Nothing stands in the way of a poll. */
  predicate Idle(s: State) {
    && !s.sync.paused && s.sync.inFlight == None
    && s.context.ready && s.account != None && s.context.hasMailbox
    && !s.context.operationActive && !s.context.folderRequestActive && !s.context.folderLoading
  }

  /** In every run, a timer sends a request exactly when it is the current one and nothing stands in the way: a
      request under a new number for the account, then in flight. A current timer that cannot poll, unless
      paused, is armed again in a minute and leaves its tick pending; any other changes nothing. */
  lemma PollExactly(events: seq<Event>, generation: nat)
    ensures var w := Run(events);
            var s, (now, sent) := w.state, React(w.state, Timer(generation));
            var current := generation == s.sync.generation && !s.sync.paused;
            && now == Step(w, Timer(generation)).state
            && ((exists request, account :: SendSync(request, account) in sent) <==> current && Idle(s))
            && (current && Idle(s) ==>
                  && sent == [SendSync(s.sync.nextRequest, s.account.value)] && s.sync.nextRequest !in w.sent
                  && now == s.(sync := s.sync.(inFlight := Some(s.sync.nextRequest), pendingTick := false,
                                               nextRequest := s.sync.nextRequest + 1)))
            && (current && !Idle(s) ==>
                  && sent == [Schedule(60, s.sync.generation + 1)]
                  && now == s.(sync := s.sync.(pendingTick := true, generation := s.sync.generation + 1)))
            && (!current ==> sent == [] && now == s)
  {
    hide Run, EqualIgnoringCase;
    NeverDies(events);
    EffectsKeepState(Run(events), Timer(generation));
    var w := Run(events);
    if generation == w.state.sync.generation && Idle(w.state) {
      assert SendSync(w.state.sync.nextRequest, w.state.account.value) in React(w.state, Timer(generation)).1;
    }
  }

  // ----- answers -----

  lemma {:induction false} EmitsEach(start: set<MessageId>, ids: seq<MessageId>)
    requires |start + Elements(ids)| < 500
    ensures EmitAll(start, ids) == Emission(start + Elements(ids), |Elements(ids) - start|)
  {
    if ids != [] {
      var front, last := ids[..|ids| - 1], ids[|ids| - 1];
      assert ids == front + [last];
      assert Elements(ids) == Elements(front) + {last};
      var before := start + Elements(front);
      assert start + Elements(ids) == before + {last};
      assert |before| < 500 by { NoMore(before, {last}); }
      EmitsEach(start, front);
      if last in before {
        assert before + {last} == before;
        assert Elements(ids) - start == Elements(front) - start;
      } else {
        assert Elements(ids) - start == (Elements(front) - start) + {last};
      }
    } else {
      assert Elements(ids) == {} && start + {} == start && {} - start == {};
    }
  }

  lemma NoMore(a: set<MessageId>, b: set<MessageId>)
    ensures |a| <= |a + b|
  {
    assert a + b == a + (b - a);
  }

  /** The last id announced is remembered even when the set was just emptied. */
  lemma LastIsRemembered(start: set<MessageId>, ids: seq<MessageId>)
    requires ids != []
    ensures ids[|ids| - 1] in EmitAll(start, ids).ids
  {
  }

  /** The answer to the request in flight, for the current account, ends it: failures are forgotten, the next poll
      is a minute away, and, while fewer than 500 ids are remembered, one notification counts exactly the ids
      not announced before. */
  lemma CompletionExactly(s: State, request: nat, account: string, newUnread: seq<MessageId>)
    requires s.sync.inFlight == Some(request) && s.account.Some? && EqualIgnoringCase(s.account.value, account)
    requires |s.sync.emitted + Elements(newUnread)| < 500
    ensures var (now, sent) := React(s, SyncCompleted(request, account, newUnread));
            var news := |Elements(newUnread) - s.sync.emitted|;
            && now == s.(sync := s.sync.(inFlight := None, failures := 0, generation := s.sync.generation + 1,
                                         emitted := s.sync.emitted + Elements(newUnread)))
            && sent == (if news > 0 then [NotifyNewUnread(news)] else []) + [Schedule(60, s.sync.generation + 1)]
  {
    hide EmitAll, EqualIgnoringCase;
    EmitsEach(s.sync.emitted, newUnread);
  }

  /** A failure of the request in flight ends it; one that is not worth repeating pauses the scheduler without
      another timer, any other is repeated after the delay of the failures so far. */
  lemma FailureExactly(s: State, request: nat, retryable: bool)
    requires s.sync.inFlight == Some(request)
    ensures var (now, sent) := React(s, SyncFailed(request, retryable));
            && now.context == s.context && now.account == s.account && now.sync.inFlight == None
            && now.sync.emitted == s.sync.emitted && now.sync.nextRequest == s.sync.nextRequest
            && now.sync.pendingTick == s.sync.pendingTick
            && (!retryable ==>
                  now.sync.paused && sent == [] && now.sync.failures == s.sync.failures
                  && now.sync.generation == s.sync.generation)
            && (retryable ==>
                  && now.sync.paused == s.sync.paused
                  && now.sync.failures == (if s.sync.failures >= 255 then 255 else s.sync.failures + 1)
                  && |sent| == 1 && sent[0].Schedule? && sent[0].generation == now.sync.generation
                  && now.sync.generation == s.sync.generation + 1
                  && sent[0].after == (if now.sync.failures == 1 then 120 else if now.sync.failures == 2 then 240
                                       else if now.sync.failures == 3 then 480 else 900))
  {
    hide Delay;
    DelayBounds(if s.sync.failures >= 255 then 255 else s.sync.failures + 1);
  }

  // ----- the account and the session -----

  /** Another account starts with a clean slate, paused; the same one, however spelled, is left alone. */
  lemma IdentityExactly(s: State, account: string)
    ensures var (now, sent) := React(s, Identity(account));
            && sent == [] && now.account == Some(account) && now.context == s.context
            && now.sync.nextRequest == s.sync.nextRequest
            && if s.account.Some? && EqualIgnoringCase(s.account.value, account) then now.sync == s.sync
               else && now.sync.inFlight == None && now.sync.emitted == {} && now.sync.failures == 0
                    && now.sync.paused && !now.sync.pendingTick && now.sync.generation > s.sync.generation
  {
    hide EqualIgnoringCase;
  }

  /** A finished sync starts the scheduler: unpaused, without failures, with a first poll in a minute; ids already
      announced stay so for the same account only. */
  lemma StartExactly(s: State, account: string)
    ensures var (now, sent) := React(s, FullSync(account));
            && !now.sync.paused && now.sync.failures == 0 && now.account == Some(account)
            && sent == [Schedule(60, now.sync.generation)] && now.sync.generation > s.sync.generation
            && now.context.ready && now.context.hasMailbox && !now.context.operationActive
            && if s.account.Some? && EqualIgnoringCase(s.account.value, account)
               then && now.sync.emitted == s.sync.emitted && now.sync.inFlight == s.sync.inFlight
                    && now.context.folderRequestActive == s.context.folderRequestActive
                    && now.context.folderLoading == s.context.folderLoading
               else && now.sync.emitted == {} && now.sync.inFlight == None
                    && !now.context.folderRequestActive && !now.context.folderLoading
  {
    hide EqualIgnoringCase;
  }

  /** Stopping ends the request in flight and the pending tick, outdates every timer, and cancels the armed one if
      anything was going on. */
  lemma StopExactly(s: State, e: Event)
    requires e.Stop? || e.Disconnect?
    ensures var (now, sent) := React(s, e);
            && now.sync.paused && now.sync.inFlight == None && !now.sync.pendingTick
            && now.sync.generation > s.sync.generation && now.sync.emitted == s.sync.emitted
            && (e.Disconnect? ==> now.account == None && !now.context.ready && !now.context.hasMailbox)
            && sent == if s.sync.paused && s.sync.inFlight == None && !s.sync.pendingTick then [] else [CancelTimer]
  {
  }
}
