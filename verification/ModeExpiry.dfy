/**
 The expiry of temporary modes as a protocol between the API dispatcher, the
 single mode-expiry timer slot of the worker and the poster that puts a tick job
 into the API queue (source/game_state_impl.cpp, source/net.cpp,
 source/game_state_c.cpp).

 A timer whose time has come hands its handler to the worker; from then on
 cancelling or re-arming the slot no longer stops that handler.  Jobs of
 different producers may overtake each other, so queued ticks are only counted.
 */
module ModeExpiry {
  import opened Collections
  import opened ModeList
  import opened GameSession
  import opened GameRuns

  datatype World = World(
    game: State,
    now: int,
    fired: nat,      // expired handlers that have not run yet
    ticks: nat,      // tick jobs in the API queue
    accepting: bool,
    lastAdd: map<string, int>)  // history: when each temporary mode was last added

  const START := World(INITIAL, 0, 0, 0, true, map[])

  datatype Event =
    | Wait(duration: nat)
    | Api(step: Step, systemNow: int, authFailed: bool)  // a job of the application, or OnCreated
    | Fire        // the timer expires
    | PostTick    // an expired handler runs the poster
    | TickJob     // the dispatcher takes a tick job
    | Shutdown

  ghost predicate Enabled(w: World, e: Event) {
    match e
    case Api(step, _, _) => !step.TickModeExpiries?
    case Fire => w.game.timer.Some? && w.game.timer.value.at <= w.now
    case PostTick => w.fired > 0
    case TickJob => w.ticks > 0
    case _ => true
  }

  ghost function Next(w: World, e: Event): World
    requires Enabled(w, e)
  {
    match e
    case Wait(d) => w.(now := w.now + d)
    case Api(step, systemNow, authFailed) =>
      w.(game := Apply(w.game, Input(step, Env(w.now, systemNow, authFailed))),
         lastAdd := if step.AddModeExpiring? && w.game.data.active then w.lastAdd[step.name := w.now] else w.lastAdd)
    case Fire => w.(game := w.game.(timer := None), fired := w.fired + 1)
    case PostTick => w.(fired := w.fired - 1, ticks := if w.accepting then w.ticks + 1 else w.ticks)
    case TickJob => w.(game := Ticking(w), ticks := w.ticks - 1)
    case Shutdown => w.(accepting := false)
  }

  ghost function Ticking(w: World): State {
    Apply(w.game, Input(TickModeExpiries, Env(w.now, 0, false)))
  }

  /** The world after a run; an impossible last event is skipped. */
  ghost function After(events: seq<Event>): World {
    if events == [] then START
    else
      var w := After(events[..|events| - 1]);
      var e := events[|events| - 1];
      if Enabled(w, e) then Next(w, e) else w
  }

  // ------------------------------------------------------------- invariants

  ghost function Deadlines(w: World): map<string, int> { w.game.data.modes.deadlines }

  ghost predicate Outstanding(w: World) { w.game.data.active && Deadlines(w) != map[] }

  /** The slot, if armed, waits for the earliest outstanding deadline or, if that
      had already passed, expires at the instant it was armed. */
  ghost predicate SlotExact(w: World) {
    w.game.timer.Some? ==>
      && Outstanding(w)
      && w.game.timer.value.since <= w.now
      && w.game.timer.value.at == Max(w.game.timer.value.since, Earliest(Deadlines(w)))
  }

  /** Nothing outstanding is forgotten. */
  ghost predicate Attended(w: World) {
    w.accepting && Outstanding(w) ==> w.game.timer.Some? || w.fired > 0 || w.ticks > 0
  }

  /** Every deadline belongs to a listed mode and lies one to ten seconds after
      the last time that mode was added. */
  ghost predicate DeadlinesBounded(w: World) {
    forall k :: k in Deadlines(w) ==>
      && k in w.game.data.modes.names
      && k in w.lastAdd
      && w.lastAdd[k] <= w.now
      && w.lastAdd[k] + SECOND <= Deadlines(w)[k] <= w.lastAdd[k] + 10 * SECOND
  }

  ghost predicate Sound(w: World) {
    && GameRuns.Invariant(w.game)
    && SlotExact(w)
    && Attended(w)
    && DeadlinesBounded(w)
  }

  /** How a step of the game object touches the deadlines and the slot. */
  ghost predicate SlotKept(s: State, s': State) {
    && s'.timer == s.timer
    && s'.data.modes.deadlines == s.data.modes.deadlines
    && s'.data.active == s.data.active
    && (forall k :: k in s.data.modes.names ==> k in s'.data.modes.names)
  }

  ghost predicate SlotRenewed(s: State, s': State, now: int) {
    && s'.data.active
    && (s'.data.modes.deadlines == map[] <==> s'.timer.None?)
    && (s'.timer.Some? ==> s'.timer == Some(Armed(Max(now, Earliest(s'.data.modes.deadlines)), now)))
  }

  ghost predicate SlotEmptied(s': State) {
    s'.timer.None? && s'.data.modes.deadlines == map[]
  }

  lemma PlainStepKeepsSlot(s: State, input: Input)
    requires GameRuns.Invariant(s)
    requires !IsModeStep(input.step) || input.step.AddMode?
    requires s.timer.Some? ==> s.data.active
    ensures SlotKept(s, Apply(s, input)) || SlotEmptied(Apply(s, input))
  {
  }

  lemma ModeStepSlot(s: State, input: Input)
    requires GameRuns.Invariant(s)
    requires IsModeStep(input.step) && !input.step.AddMode?
    ensures var s' := Apply(s, input);
            || SlotEmptied(s')
            || SlotRenewed(s, s', input.env.steadyNow)
            || (input.step.RemoveMode? && s.data.modes.deadlines == map[] == s'.data.modes.deadlines && s'.timer == s.timer)
            || (!s.data.active && SlotKept(s, s'))
  {
  }

  lemma ModeStepDeadlines(s: State, input: Input, k: string)
    requires GameRuns.Invariant(s) && IsModeStep(input.step)
    requires k in Apply(s, input).data.modes.deadlines
    ensures var m, m' := s.data.modes, Apply(s, input).data.modes;
            if input.step.AddModeExpiring? && s.data.active && k == input.step.name then
              m'.deadlines[k] == input.env.steadyNow + NormalizeSeconds(input.step.seconds) * SECOND
            else
              k in m.deadlines && m'.deadlines[k] == m.deadlines[k]
  {
  }

  /** The step of the game object that leads from `w` to `w'`. */
  ghost predicate GameStep(w: World, input: Input, w': World) {
    && input.env.steadyNow == w.now
    && w'.game == Apply(w.game, input)
    && w' == w.(game := w'.game, ticks := w'.ticks, lastAdd := w'.lastAdd)
    && w'.lastAdd == (if input.step.AddModeExpiring? && w.game.data.active then w.lastAdd[input.step.name := w.now] else w.lastAdd)
    && (w'.ticks >= w.ticks || input.step.TickModeExpiries?)
  }

  lemma GameStepAttends(w: World, input: Input, w': World)
    requires Sound(w) && GameStep(w, input, w')
    ensures SlotExact(w') && Attended(w')
  {
    if IsModeStep(input.step) && !input.step.AddMode? {
      ModeStepSlot(w.game, input);
    } else {
      PlainStepKeepsSlot(w.game, input);
    }
  }

  lemma GameStepBounds(w: World, input: Input, w': World)
    requires Sound(w) && GameStep(w, input, w') && GameRuns.Invariant(w'.game)
    ensures DeadlinesBounded(w')
  {
    if IsModeStep(input.step) && !input.step.AddMode? {
      forall k | k in Deadlines(w')
        ensures k in w'.lastAdd && w'.lastAdd[k] <= w.now
        ensures w'.lastAdd[k] + SECOND <= Deadlines(w')[k] <= w'.lastAdd[k] + 10 * SECOND
      {
        ModeStepDeadlines(w.game, input, k);
      }
    } else {
      PlainStepKeepsSlot(w.game, input);
    }
  }

  lemma GameStepSound(w: World, input: Input, w': World)
    requires Sound(w) && GameStep(w, input, w')
    ensures Sound(w')
  {
    StepEffect(w.game, input);
    EffectKeepsInvariant(w.game, w'.game);
    GameStepAttends(w, input, w');
    GameStepBounds(w, input, w');
  }

  lemma NextSound(w: World, e: Event)
    requires Sound(w) && Enabled(w, e)
    ensures Sound(Next(w, e))
  {
    match e
    case Api(step, systemNow, authFailed) => GameStepSound(w, Input(step, Env(w.now, systemNow, authFailed)), Next(w, e));
    case TickJob => GameStepSound(w, Input(TickModeExpiries, Env(w.now, 0, false)), Next(w, e));
    case _ =>
  }

  lemma {:induction false} RunSound(events: seq<Event>)
    ensures Sound(After(events))
  {
    if events != [] {
      var n := |events| - 1;
      RunSound(events[..n]);
      if Enabled(After(events[..n]), events[n]) {
        NextSound(After(events[..n]), events[n]);
      }
    }
  }

  // --------------------------------------------------------------- theorems

  /** In every reachable state of an accepting API with deadlines outstanding, the
      slot is armed for exactly max(arm time, earliest deadline) or a tick is on
      its way; and the slot is armed only then. */
  lemma {:induction false} NoExpiryIsForgotten(events: seq<Event>)
    ensures var w := After(events);
            && (w.accepting && Outstanding(w) ==> w.game.timer.Some? || w.fired > 0 || w.ticks > 0)
            && (w.game.timer.Some? ==>
                  && Outstanding(w)
                  && w.game.timer.value.at == Max(w.game.timer.value.since, Earliest(Deadlines(w))))
  {
    RunSound(events);
  }

  /** Once a deadline has passed, some protocol step that leads to its tick can be
      taken: the protocol never waits for nothing. */
  lemma {:induction false} OverdueMeansEnabled(events: seq<Event>)
    requires var w := After(events); w.accepting && Outstanding(w) && Earliest(Deadlines(w)) <= w.now
    ensures var w := After(events); Enabled(w, Fire) || Enabled(w, PostTick) || Enabled(w, TickJob)
  {
    RunSound(events);
  }

  lemma AfterEvent(events: seq<Event>, e: Event)
    ensures var w := After(events); After(events + [e]) == if Enabled(w, e) then Next(w, e) else w
  {
    assert (events + [e])[..|events|] == events;
  }

  /** The same at the end of the chain: expiring, posting and ticking, as far as each
      is possible, leave no deadline that has passed. */
  lemma {:induction false} OverdueIsRemoved(events: seq<Event>)
    requires var w := After(events); w.accepting && Outstanding(w) && Earliest(Deadlines(w)) <= w.now
    ensures var w := After(events + [Fire] + [PostTick] + [TickJob]);
            && w.now == After(events).now
            && forall k :: k in Deadlines(w) ==> w.now < Deadlines(w)[k]
  {
    var w, a := After(events), After(events + [Fire]);
    RunSound(events);
    AfterEvent(events, Fire);
    assert a.accepting && a.game.data == w.game.data && a.now == w.now && (a.fired > 0 || a.ticks > 0);
    var b := After(events + [Fire] + [PostTick]);
    AfterEvent(events + [Fire], PostTick);
    assert b.ticks > 0 && b.game.data == w.game.data && b.now == w.now;
    AfterEvent(events + [Fire] + [PostTick], TickJob);
  }

  /** After the shutdown no further tick is posted. */
  lemma {:induction false} NoTickAfterShutdown(events: seq<Event>, more: seq<Event>)
    requires !After(events).accepting
    ensures !After(events + more).accepting && After(events + more).ticks <= After(events).ticks
  {
    if more == [] {
      assert events + more == events;
    } else {
      var n := |more| - 1;
      assert (events + more)[..|events + more| - 1] == events + more[..n];
      NoTickAfterShutdown(events, more[..n]);
    }
  }

  /** The mode list never holds a name twice, and every deadline belongs to a
      listed mode, one to ten seconds after its last add. */
  lemma {:induction false} DeadlinesStayBounded(events: seq<Event>)
    ensures var w := After(events);
            && (w.game.data.active ==> NoDuplicates(w.game.data.modes.names))
            && DeadlinesBounded(w)
  {
    RunSound(events);
  }

  /** A tick leaves exactly the modes that are not due, in their order, with their
      deadlines, and touches nothing else of the game but the timer slot. */
  lemma {:induction false} TickLeavesTheRest(events: seq<Event>)
    requires After(events).game.data.active && Enabled(After(events), TickJob)
    ensures var w, w' := After(events), After(events + [TickJob]);
            && w'.game.data.modes.names == Without(w.game.data.modes.names, Due(Deadlines(w), w.now))
            && (forall name :: name in w'.game.data.modes.names <==>
                  name in w.game.data.modes.names && !(name in Deadlines(w) && Deadlines(w)[name] <= w.now))
            && (forall k :: k in Deadlines(w') <==> k in Deadlines(w) && w.now < Deadlines(w)[k])
            && (forall k :: k in Deadlines(w') ==> Deadlines(w')[k] == Deadlines(w)[k])
            && w'.game == w.game.(data := w.game.data.(modes := w'.game.data.modes), timer := w'.game.timer)
  {
    assert (events + [TickJob])[..|events|] == events;
    RunSound(events);
    TickedWellFormed(After(events).game.data.modes, After(events).now);
  }

  lemma {:induction false} TimePasses(events: seq<Event>, more: seq<Event>)
    ensures After(events).now <= After(events + more).now
  {
    if more == [] {
      assert events + more == events;
    } else {
      var n := |more| - 1;
      assert (events + more)[..|events + more| - 1] == events + more[..n];
      TimePasses(events, more[..n]);
    }
  }

  /** A tick that comes of a timer expiry removes at least one mode if the
      deadlines have not changed since the timer expired. */
  lemma {:induction false} FiredTickRemovesMode(events: seq<Event>, more: seq<Event>)
    requires Enabled(After(events), Fire)
    requires var w, w1 := After(events), After(events + [Fire] + more);
             w1.game.data.active && Deadlines(w1) == Deadlines(w) && Enabled(w1, TickJob)
    ensures var w1, w2 := After(events + [Fire] + more), After(events + [Fire] + more + [TickJob]);
            |w2.game.data.modes.names| < |w1.game.data.modes.names|
  {
    var run := events + [Fire] + more;
    assert (run + [TickJob])[..|run|] == run;
    assert run == events + ([Fire] + more);
    RunSound(events);
    RunSound(run);
    TimePasses(events, [Fire] + more);
    TickRemoves(After(run).game.data.modes, After(run).now);
  }
}
