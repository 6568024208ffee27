/**
 What holds of the game state object in every run: after any sequence of
 operations, clock readings and authentication states, including session-created
 callbacks that arrive at any time, however late or often.
 */
module GameRuns {
  import opened Collections
  import opened ModeList
  import opened GameSession

  datatype Step =
    | Start
    | Finish
    | SetBall(ball: nat)
    | SetActivePlayer(player: nat)
    | SetScore(player: nat, score: int, feature: int)
    | AddMode(name: string)
    | AddModeExpiring(name: string, seconds: nat)
    | TickModeExpiries
    | RemoveMode(name: string)
    | ClearModes
    | Commit
    | OnCreated  // the session-created callback: a forced submission

  datatype Input = Input(step: Step, env: Env)

  ghost function Apply(s: State, input: Input): State {
    var env := input.env;
    match input.step
    case Start => Started(s, env)
    case Finish => Finished(s, env)
    case SetBall(ball) => BallSet(s, ball)
    case SetActivePlayer(player) => ActivePlayerSet(s, player)
    case SetScore(player, score, feature) => ScoreSet(s, player, score, feature)
    case AddMode(name) => ModeAdded(s, name)
    case AddModeExpiring(name, seconds) => ModeAddedExpiring(s, name, seconds, env)
    case TickModeExpiries => ModeExpiriesTicked(s, env)
    case RemoveMode(name) => ModeRemoved(s, name, env)
    case ClearModes => ModesCleared(s)
    case Commit => Committed(s, env)
    case OnCreated => Submitted(s, true, env)
  }

  ghost function Run(inputs: seq<Input>): State {
    if inputs == [] then INITIAL
    else Apply(Run(inputs[..|inputs| - 1]), inputs[|inputs| - 1])
  }

  // ------------------------------------------------------------ state validity

  ghost predicate ValidGame(d: GameData) {
    && ValidBall(d.ball)
    && ValidPlayer(d.activePlayer)
    && d.activePlayer in d.players
    && 1 in d.players
    && (forall k :: k in d.players ==> ValidPlayer(k) && d.players[k].number == k)
    && WellFormed(d.modes)
  }

  ghost predicate Invariant(s: State) {
    if s.data.active then
      && ValidGame(s.data)
      && s.data.id == s.sessionId > 0
      && s.calls != []
      && var last := s.calls[|s.calls| - 1];
         if s.prev.active then
           // the previous snapshot is the last thing reported about this game
           && ValidGame(s.prev)
           && s.prev.id == s.data.id
           && s.prev.players.Keys <= s.data.players.Keys
           && last.SubmitData? && last.data == s.prev
         else
           // nothing of this game was submitted yet
           && s.prev == NO_GAME
           && last.CreateSession? && last.data.id == s.data.id
    else
      s.data == NO_GAME.(timestamp := s.data.timestamp)
  }

  // -------------------------------------------------- what one step can do

  /** Only the current game and the timer change. */
  ghost predicate Edits(s: State, s': State) {
    && s' == s.(data := s'.data, timer := s'.timer)
    && s'.data.active == s.data.active
    && s'.data.id == s.data.id
    && (s.data.active ==> ValidGame(s'.data) && s.data.players.Keys <= s'.data.players.Keys)
    && (!s.data.active ==> s'.data == s.data)
  }

  /** A session with the next id is created. */
  ghost predicate Creates(s: State, s': State) {
    && !s.data.active && s'.data.active
    && ValidGame(s'.data)
    && s'.data.id == s'.sessionId == s.sessionId + 1
    && s'.prev == NO_GAME
    && s'.calls == s.calls + [CreateSession(s'.data)]
  }

  /** The game ends without a word because authentication has failed. */
  ghost predicate Drops(s: State, s': State) {
    s.data.active && s' == s.(data := NO_GAME, timer := None)
  }

  /** The current game, possibly just ended, is submitted and becomes the
      previous snapshot. */
  ghost predicate Submits(s: State, s': State) {
    && s'.calls == s.calls + SubmissionOf(s.prev, s'.prev)
    && s'.sessionId == s.sessionId
    && s'.prev.id == s.data.id
    && s'.prev.players == s.data.players
    && if s'.prev.active then s.data.active && ValidGame(s'.prev) && s'.data == s'.prev
       else s'.data == NO_GAME.(timestamp := s'.data.timestamp)
  }

  ghost predicate Keeps(s: State, s': State) {
    Edits(s, s') || Creates(s, s') || Submits(s, s')
  }

  ghost predicate Effect(s: State, s': State) {
    Keeps(s, s') || Drops(s, s')
  }

  lemma PlayEdits(s: State, n: nat, score: int, feature: int)
    requires Invariant(s)
    ensures Edits(s, BallSet(s, n))
    ensures Edits(s, ActivePlayerSet(s, n))
    ensures Edits(s, ScoreSet(s, n, score, feature))
  {
  }

  /** Any change of a game's modes that keeps them well-formed is an edit. */
  lemma NewModesEdit(s: State, modes: Modes, timer: Option<Armed>)
    requires Invariant(s) && s.data.active && WellFormed(modes)
    ensures Edits(s, s.(data := s.data.(modes := modes), timer := timer))
  {
  }

  lemma ModeAddedEdits(s: State, name: string)
    requires Invariant(s)
    ensures Edits(s, ModeAdded(s, name))
  {
    if s.data.active {
      AddedWellFormed(s.data.modes, name);
      NewModesEdit(s, Added(s.data.modes, name), s.timer);
    }
  }

  lemma ModeRemovedEdits(s: State, name: string, env: Env)
    requires Invariant(s)
    ensures Edits(s, ModeRemoved(s, name, env))
  {
    if s.data.active {
      RemovedWellFormed(s.data.modes, name);
      NewModesEdit(s, Removed(s.data.modes, name), ModeRemoved(s, name, env).timer);
    }
  }

  lemma ModeAddedExpiringEdits(s: State, name: string, seconds: nat, env: Env)
    requires Invariant(s)
    ensures Edits(s, ModeAddedExpiring(s, name, seconds, env))
  {
    if s.data.active {
      AddedExpiringWellFormed(s.data.modes, name, seconds, env.steadyNow);
      NewModesEdit(s, AddedExpiring(s.data.modes, name, seconds, env.steadyNow),
                   ModeAddedExpiring(s, name, seconds, env).timer);
    }
  }

  lemma ModeExpiriesTickedEdits(s: State, env: Env)
    requires Invariant(s)
    ensures Edits(s, ModeExpiriesTicked(s, env))
  {
    if s.data.active {
      TickedWellFormed(s.data.modes, env.steadyNow);
      NewModesEdit(s, Ticked(s.data.modes, env.steadyNow), ModeExpiriesTicked(s, env).timer);
    }
  }

  lemma ModesClearedEdits(s: State)
    requires Invariant(s)
    ensures Edits(s, ModesCleared(s))
  {
    if s.data.active {
      NewModesEdit(s, NO_MODES, ModesCleared(s).timer);
    }
  }

  lemma SubmittedEffect(s: State, force: bool, env: Env)
    requires Invariant(s)
    ensures Edits(s, Submitted(s, force, env)) || Submits(s, Submitted(s, force, env))
  {
  }

  lemma FinishedEffect(s: State, env: Env)
    requires Invariant(s) && s.data.active
    ensures if env.authFailed then Drops(s, Finished(s, env)) else Submits(s, Finished(s, env))
  {
  }

  lemma StartedEffect(s: State, env: Env)
    requires Invariant(s)
    ensures Edits(s, Started(s, env)) || Creates(s, Started(s, env))
  {
  }

  lemma KeepsIsNoDrop(s: State, s': State)
    requires Keeps(s, s')
    ensures !Drops(s, s')
  {
    assert |SubmissionOf(s.prev, s'.prev)| >= 1;
  }

  ghost predicate IsDrop(s: State, input: Input) {
    input.step.Finish? && input.env.authFailed && s.data.active
  }

  lemma PlayStepEdits(s: State, input: Input)
    requires Invariant(s)
    requires input.step.SetBall? || input.step.SetActivePlayer? || input.step.SetScore?
    ensures Edits(s, Apply(s, input))
  {
    match input.step
    case SetBall(n) => PlayEdits(s, n, 0, 0);
    case SetActivePlayer(n) => PlayEdits(s, n, 0, 0);
    case SetScore(n, score, feature) => PlayEdits(s, n, score, feature);
  }

  ghost predicate IsModeStep(step: Step) {
    || step.AddMode? || step.AddModeExpiring? || step.TickModeExpiries?
    || step.RemoveMode? || step.ClearModes?
  }

  lemma ModeStepEdits(s: State, input: Input)
    requires Invariant(s) && IsModeStep(input.step)
    ensures Edits(s, Apply(s, input))
  {
    match input.step
    case AddMode(name) => ModeAddedEdits(s, name);
    case AddModeExpiring(name, seconds) => ModeAddedExpiringEdits(s, name, seconds, input.env);
    case TickModeExpiries => ModeExpiriesTickedEdits(s, input.env);
    case RemoveMode(name) => ModeRemovedEdits(s, name, input.env);
    case ClearModes => ModesClearedEdits(s);
  }

  lemma StepEffect(s: State, input: Input)
    requires Invariant(s)
    ensures if IsDrop(s, input) then Drops(s, Apply(s, input)) else Keeps(s, Apply(s, input))
  {
    if IsModeStep(input.step) {
      ModeStepEdits(s, input);
    } else if input.step.Finish? {
      if s.data.active { FinishedEffect(s, input.env); }
    } else if input.step.Start? {
      StartedEffect(s, input.env);
    } else if input.step.Commit? || input.step.OnCreated? {
      SubmittedEffect(s, input.step.OnCreated?, input.env);
    } else {
      PlayStepEdits(s, input);
    }
  }

  lemma EffectKeepsInvariant(s: State, s': State)
    requires Invariant(s) && Effect(s, s')
    ensures Invariant(s')
  {
  }

  /** Every reachable state is valid. */
  lemma {:induction false} RunInvariant(inputs: seq<Input>)
    ensures Invariant(Run(inputs))
  {
    if inputs != [] {
      RunInvariant(inputs[..|inputs| - 1]);
      StepEffect(Run(inputs[..|inputs| - 1]), inputs[|inputs| - 1]);
      EffectKeepsInvariant(Run(inputs[..|inputs| - 1]), Run(inputs));
    }
  }

  /** While a game is active, ball and active player are in 1 to 9, every player
      key lies in 1 to 9 and is the player's own number, player 1 and the active
      player are present, and no player of the previous snapshot has gone. */
  lemma {:induction false} ActiveGameIsValid(inputs: seq<Input>)
    requires Run(inputs).data.active
    ensures var s := Run(inputs);
            && 1 <= s.data.ball <= 9
            && 1 <= s.data.activePlayer <= 9
            && {1, s.data.activePlayer} <= s.data.players.Keys
            && (forall k :: k in s.data.players ==> 1 <= k <= 9 && s.data.players[k].number == k)
            && s.prev.players.Keys <= s.data.players.Keys
            && s.data.id == s.sessionId
  {
    RunInvariant(inputs);
  }

  // ---------------------------------------------------------------- the flags

  function UploadCount(calls: seq<NetCall>): nat {
    if calls == [] then 0
    else Uploads(calls[0]) + UploadCount(calls[1..])
  }

  /** Another player is up, but the score of the one before still changed. */
  ghost predicate BonusDue(prev: GameData, data: GameData) {
    var p := prev.activePlayer;
    p != data.activePlayer && p != 0 && p in prev.players && p in data.players
    && prev.players[p].score != data.players[p].score
  }

  /** Not the first submission of a game, and the player or the ball changed or the
      game ended. */
  ghost predicate LogsDue(prev: GameData, data: GameData) {
    && (prev.active || !data.active)
    && (prev.activePlayer != data.activePlayer || prev.ball != data.ball || (prev.active && !data.active))
  }

  /** What the calls of one performed submission look like, given the snapshots
      before and after it. */
  ghost predicate ExactSubmission(prev: GameData, data: GameData, calls: seq<NetCall>) {
    && 1 <= |calls| <= 2
    && (forall i :: 0 <= i < |calls| ==> calls[i].SubmitData?
                                         && calls[i].data.id == data.id
                                         && calls[i].data.active == data.active
                                         && calls[i].data.players == data.players)
    && calls[|calls| - 1].data == data
    && UploadCount(calls) == (if LogsDue(prev, data) then 1 else 0)
    && (calls[|calls| - 1].flags.playersAdd <==> prev.players.Keys != data.players.Keys)
    && (|calls| == 2 <==> BonusDue(prev, data))
    && (|calls| == 2 ==>
          calls[0] == SubmitData(data.(activePlayer := prev.activePlayer, ball := prev.ball), Flags(true, false)))
  }

  /** The two situations a submission is performed in. */
  ghost predicate SubmissionPair(prev: GameData, data: GameData) {
    && (JustStarted(prev, data) ==> prev == NO_GAME)
    && (prev.players.Keys <= data.players.Keys || data.players == map[])
  }

  function Uploads(call: NetCall): nat {
    if call.SubmitData? && call.flags.uploadLogs then 1 else 0
  }

  lemma UploadCountOfOne(calls: seq<NetCall>)
    requires |calls| == 1
    ensures UploadCount(calls) == Uploads(calls[0])
  {
    assert UploadCount(calls[1..]) == 0;
  }

  lemma UploadCountOfTwo(calls: seq<NetCall>)
    requires |calls| == 2
    ensures UploadCount(calls) == Uploads(calls[0]) + Uploads(calls[1])
  {
    UploadCountOfOne(calls[1..]);
  }

  lemma SubmissionIsExact(prev: GameData, data: GameData)
    requires SubmissionPair(prev, data)
    ensures ExactSubmission(prev, data, SubmissionOf(prev, data))
  {
    var calls := SubmissionOf(prev, data);
    if |calls| == 2 {
      UploadCountOfTwo(calls);
    } else {
      UploadCountOfOne(calls);
    }
    assert |prev.players| == |prev.players.Keys| && |data.players| == |data.players.Keys|;
    if prev.players.Keys <= data.players.Keys {
      SubsetOfSameSize(prev.players.Keys, data.players.Keys);
    } else {
      SubsetOfSameSize(data.players.Keys, prev.players.Keys);
    }
  }

  /** Each step makes no call, creates one session, or performs one submission. */
  ghost predicate StepCalls(s: State, s': State, calls: seq<NetCall>) {
    || calls == []
    || (calls == [CreateSession(s'.data)] && s'.data.active && s'.data.id == s.sessionId + 1 == s'.sessionId)
    || ExactSubmission(s.prev, s'.prev, calls)
  }

  /** In every run, the one or two snapshots of a performed submission carry
      exactly one upload flag if the submission is not the first one of a game
      and the active player changed, the ball changed or the game just ended,
      and none otherwise; players-added is flagged exactly when the player set
      changed. */
  lemma {:induction false} FlagsAreExact(inputs: seq<Input>, input: Input)
    ensures var s, s' := Run(inputs), Run(inputs + [input]);
            s.calls <= s'.calls && StepCalls(s, s', s'.calls[|s.calls|..])
  {
    RunInvariant(inputs);
    assert (inputs + [input])[..|inputs|] == inputs;
    StepEffect(Run(inputs), input);
    EffectMakesCalls(Run(inputs), Run(inputs + [input]));
  }

  lemma EffectMakesCalls(s: State, s': State)
    requires Invariant(s) && Effect(s, s')
    ensures s.calls <= s'.calls && StepCalls(s, s', s'.calls[|s.calls|..])
    ensures Submits(s, s') ==> ExactSubmission(s.prev, s'.prev, s'.calls[|s.calls|..])
  {
    if Submits(s, s') {
      SubmissionIsExact(s.prev, s'.prev);
      assert s'.calls[|s.calls|..] == SubmissionOf(s.prev, s'.prev);
    }
  }

  // ---------------------------------------------------------- shape of a trace

  /** How far the calls about one session have got. */
  datatype Phase = Unborn | Playing | Ended(snapshots: nat) | Broken

  function NextPhase(p: Phase, call: NetCall): Phase {
    match call
    case CreateSession(_) => if p.Unborn? then Playing else Broken
    case SubmitData(d, _) =>
      if d.active then (if p.Playing? then Playing else Broken)
      else if p.Playing? then Ended(1)
      else if p == Ended(1) then Ended(2)
      else Broken
  }

  function PhaseOf(calls: seq<NetCall>, id: int): Phase {
    if calls == [] then Unborn
    else
      var last := calls[|calls| - 1];
      var p := PhaseOf(calls[..|calls| - 1], id);
      if last.data.id == id then NextPhase(p, last) else p
  }

  /** The sessions whose game ended while authentication had failed. */
  ghost function Abandoned(inputs: seq<Input>): set<int> {
    if inputs == [] then {}
    else
      var n := |inputs| - 1;
      var s := Run(inputs[..n]);
      Abandoned(inputs[..n])
      + (if IsDrop(s, inputs[n]) then {s.data.id} else {})
  }

  ghost predicate ShapeOf(s: State, abandoned: set<int>, id: int) {
    var p := PhaseOf(s.calls, id);
    if id > s.sessionId then p == Unborn && id !in abandoned
    else if s.data.active && id == s.data.id then p == Playing && id !in abandoned
    else if id in abandoned then p == Playing
    else p == Ended(1) || p == Ended(2)
  }

  lemma PhaseOfOne(calls: seq<NetCall>, call: NetCall, id: int)
    ensures PhaseOf(calls + [call], id)
            == if call.data.id == id then NextPhase(PhaseOf(calls, id), call) else PhaseOf(calls, id)
  {
    assert (calls + [call])[..|calls|] == calls;
  }

  lemma PhaseOfTwo(calls: seq<NetCall>, more: seq<NetCall>, id: int)
    requires |more| == 2
    ensures PhaseOf(calls + more, id) == PhaseOf(calls + [more[0]] + [more[1]], id)
  {
    assert calls + more == calls + [more[0]] + [more[1]];
  }

  /** The phase after a submission of snapshots that all carry `data`'s id. */
  lemma PhaseAfterSubmission(prev: GameData, data: GameData, before: seq<NetCall>, calls: seq<NetCall>, id: int)
    requires ExactSubmission(prev, data, calls)
    ensures data.id != id ==> PhaseOf(before + calls, id) == PhaseOf(before, id)
    ensures data.id == id && PhaseOf(before, id) == Playing ==>
              PhaseOf(before + calls, id) == if data.active then Playing else Ended(|calls|)
  {
    PhaseOfOne(before, calls[0], id);
    if |calls| == 1 {
      assert calls == [calls[0]];
    } else {
      PhaseOfTwo(before, calls, id);
      PhaseOfOne(before + [calls[0]], calls[1], id);
    }
  }

  lemma CreateKeepsShape(s: State, s': State, abandoned: set<int>, id: int)
    requires Invariant(s) && Creates(s, s') && id > 0
    requires ShapeOf(s, abandoned, id)
    ensures ShapeOf(s', abandoned, id)
  {
    PhaseOfOne(s.calls, CreateSession(s'.data), id);
  }

  lemma SubmitKeepsShape(s: State, s': State, abandoned: set<int>, id: int)
    requires Invariant(s) && Submits(s, s') && id > 0
    requires ShapeOf(s, abandoned, id)
    ensures ShapeOf(s', abandoned, id)
  {
    EffectMakesCalls(s, s');
    var more := s'.calls[|s.calls|..];
    assert s'.calls == s.calls + more;
    PhaseAfterSubmission(s.prev, s'.prev, s.calls, more, id);
  }

  lemma EffectKeepsShape(s: State, s': State, abandoned: set<int>, id: int)
    requires Invariant(s) && Effect(s, s') && id > 0
    requires ShapeOf(s, abandoned, id)
    ensures ShapeOf(s', if Drops(s, s') then abandoned + {s.data.id} else abandoned, id)
  {
    if Drops(s, s') {
    } else if Creates(s, s') {
      CreateKeepsShape(s, s', abandoned, id);
    } else if Submits(s, s') {
      SubmitKeepsShape(s, s', abandoned, id);
    }
  }

  /** In every run and for every positive session id, the calls about it are:
      none before it is created; one creation followed by active snapshots while
      its game is on; and after the game, one or two final inactive snapshots
      (none if authentication had failed at the finish).  That nothing more comes
      is `SilentAfterTheGame`. */
  lemma {:induction false} TraceShape(inputs: seq<Input>, id: int)
    requires id > 0
    ensures ShapeOf(Run(inputs), Abandoned(inputs), id)
  {
    if inputs != [] {
      var n := |inputs| - 1;
      TraceShape(inputs[..n], id);
      RunInvariant(inputs[..n]);
      StepEffect(Run(inputs[..n]), inputs[n]);
      EffectKeepsShape(Run(inputs[..n]), Run(inputs), Abandoned(inputs[..n]), id);
      if !IsDrop(Run(inputs[..n]), inputs[n]) {
        KeepsIsNoDrop(Run(inputs[..n]), Run(inputs));
      }
    }
  }

  /** The session was created and its game is no longer on. */
  ghost predicate Over(s: State, id: int) {
    0 < id <= s.sessionId && !(s.data.active && s.data.id == id)
  }

  /** The calls made between two states are not about this session. */
  ghost predicate SilentAbout(before: seq<NetCall>, after: seq<NetCall>, id: int) {
    before <= after && forall i :: |before| <= i < |after| ==> after[i].data.id != id
  }

  lemma EffectStaysOver(s: State, s': State, id: int)
    requires Invariant(s) && Effect(s, s') && Over(s, id)
    ensures Over(s', id) && SilentAbout(s.calls, s'.calls, id)
  {
    EffectMakesCalls(s, s');
    var more := s'.calls[|s.calls|..];
    if Submits(s, s') {
      forall i | |s.calls| <= i < |s'.calls| ensures s'.calls[i].data.id != id {
        assert s'.calls[i] == more[i - |s.calls|];
      }
    }
  }

  lemma SilentTwice(a: seq<NetCall>, b: seq<NetCall>, c: seq<NetCall>, id: int)
    requires SilentAbout(a, b, id) && SilentAbout(b, c, id)
    ensures SilentAbout(a, c, id)
  {
    forall i | |a| <= i < |c| ensures c[i].data.id != id {
      if i < |b| {
        assert c[i] == b[i];
      }
    }
  }

  /** Once the game of a session is over, however it ended, no call about it is ever
      made again, whatever comes, late session-created callbacks included. */
  lemma {:induction false} SilentAfterTheGame(inputs: seq<Input>, more: seq<Input>, id: int)
    requires Over(Run(inputs), id)
    ensures Over(Run(inputs + more), id)
    ensures SilentAbout(Run(inputs).calls, Run(inputs + more).calls, id)
  {
    if more == [] {
      assert inputs + more == inputs;
    } else {
      var n := |more| - 1;
      var before := inputs + more[..n];
      SilentAfterTheGame(inputs, more[..n], id);
      assert (inputs + more)[..|inputs + more| - 1] == before;
      RunInvariant(before);
      StepEffect(Run(before), more[n]);
      EffectStaysOver(Run(before), Run(inputs + more), id);
      SilentTwice(Run(inputs).calls, Run(before).calls, Run(inputs + more).calls, id);
    }
  }

  function CreatedIds(calls: seq<NetCall>): seq<int> {
    if calls == [] then []
    else
      var last := calls[|calls| - 1];
      CreatedIds(calls[..|calls| - 1]) + if last.CreateSession? then [last.data.id] else []
  }

  lemma {:induction false} NothingCreated(before: seq<NetCall>, more: seq<NetCall>)
    requires forall i :: 0 <= i < |more| ==> more[i].SubmitData?
    ensures CreatedIds(before + more) == CreatedIds(before)
  {
    if more == [] {
      assert before + more == before;
    } else {
      var n := |more| - 1;
      NothingCreated(before, more[..n]);
      assert (before + more)[..|before + more| - 1] == before + more[..n];
    }
  }

  function UpTo(n: nat): (r: seq<int>)
    ensures |r| == n
    ensures forall i :: 0 <= i < n ==> r[i] == i + 1
  {
    seq(n, i => i + 1)
  }

  lemma EffectCreates(s: State, s': State)
    requires Effect(s, s')
    requires CreatedIds(s.calls) == UpTo(s.sessionId)
    ensures CreatedIds(s'.calls) == UpTo(s'.sessionId)
  {
    if Edits(s, s') || Drops(s, s') {
    } else if Creates(s, s') {
      assert s'.calls[..|s.calls|] == s.calls;
      assert UpTo(s'.sessionId) == UpTo(s.sessionId) + [s'.sessionId];
    } else {
      NothingCreated(s.calls, SubmissionOf(s.prev, s'.prev));
    }
  }

  /** Session ids are fresh: the sessions created in a run are 1, 2, 3, ... in
      this order. */
  lemma {:induction false} SessionIdsCountUp(inputs: seq<Input>)
    ensures var s := Run(inputs);
            CreatedIds(s.calls) == UpTo(s.sessionId)
  {
    if inputs != [] {
      var n := |inputs| - 1;
      SessionIdsCountUp(inputs[..n]);
      RunInvariant(inputs[..n]);
      StepEffect(Run(inputs[..n]), inputs[n]);
      EffectCreates(Run(inputs[..n]), Run(inputs));
    }
  }

  // ------------------------------------------------------- what an observer sees

  /** The last snapshot an observer of the calls has received. */
  function Observed(calls: seq<NetCall>): Option<GameData> {
    if calls == [] then None
    else
      var last := calls[|calls| - 1];
      if last.SubmitData? then Some(last.data) else Observed(calls[..|calls| - 1])
  }

  /** The snapshot shows this game: everything but the deadlines and the time. */
  predicate Shows(o: GameData, d: GameData) {
    && o.id == d.id && o.active == d.active
    && o.ball == d.ball && o.activePlayer == d.activePlayer
    && o.players == d.players && o.modes.names == d.modes.names
  }

  /** The observer's last snapshot is the current game. */
  predicate UpToDate(s: State) {
    Observed(s.calls).Some? && Shows(Observed(s.calls).value, s.data)
  }

  ghost predicate ObservedIdsBounded(calls: seq<NetCall>, bound: int) {
    forall i :: 0 <= i < |calls| ==> calls[i].data.id <= bound
  }

  lemma {:induction false} ObservedIsBounded(calls: seq<NetCall>, bound: int)
    requires ObservedIdsBounded(calls, bound)
    ensures Observed(calls).Some? ==> Observed(calls).value.id <= bound
  {
    if calls != [] {
      ObservedIsBounded(calls[..|calls| - 1], bound);
    }
  }

  /** No call carries an id that has not been given out, and between a creation
      and the first submission of its game the older calls carry older ids. */
  ghost predicate IdsInv(s: State) {
    && ObservedIdsBounded(s.calls, s.sessionId)
    && (s.data.active && !s.prev.active && s.calls != [] ==> ObservedIdsBounded(s.calls[..|s.calls| - 1], s.sessionId - 1))
  }

  lemma {:induction false} RunIds(inputs: seq<Input>)
    ensures IdsInv(Run(inputs))
  {
    if inputs != [] {
      var n := |inputs| - 1;
      RunIds(inputs[..n]);
      RunInvariant(inputs[..n]);
      StepEffect(Run(inputs[..n]), inputs[n]);
      EffectKeepsIds(Run(inputs[..n]), Run(inputs));
    }
  }

  lemma EffectKeepsIds(s: State, s': State)
    requires Invariant(s) && Effect(s, s') && IdsInv(s)
    ensures IdsInv(s')
  {
    if Creates(s, s') {
      assert s'.calls[..|s.calls|] == s.calls;
    }
  }

  /** An observer is up to date exactly when the previous snapshot is one of this
      game and the game has not changed since. */
  lemma ObserverKnowsPrevious(s: State)
    requires Invariant(s) && IdsInv(s) && s.data.active
    ensures UpToDate(s) <==> SameGame(s.data, s.prev)
  {
    if !s.prev.active {
      ObservedIsBounded(s.calls[..|s.calls| - 1], s.sessionId - 1);
    }
  }

  lemma RunNext(inputs: seq<Input>, input: Input)
    ensures Run(inputs + [input]) == Apply(Run(inputs), input)
  {
    assert (inputs + [input])[..|inputs|] == inputs;
  }

  /** After every commit in an active game whose authentication has not failed,
      an observer of the snapshots alone knows the game, which did not change, and
      a commit makes no call exactly when the observer knew it already. */
  lemma {:induction false} CommitBringsObserverUpToDate(inputs: seq<Input>, env: Env)
    requires Run(inputs).data.active && !env.authFailed
    ensures var s, s' := Run(inputs), Run(inputs + [Input(Commit, env)]);
            && UpToDate(s')
            && s'.data == s.data.(timestamp := s'.data.timestamp)
            && (s'.calls == s.calls <==> UpToDate(s))
            && (s'.calls != s.calls ==> s'.calls[|s'.calls| - 1].data.timestamp == env.systemNow)
  {
    var s, s' := Run(inputs), Run(inputs + [Input(Commit, env)]);
    RunNext(inputs, Input(Commit, env));
    RunInvariant(inputs);
    RunIds(inputs);
    ObserverKnowsPrevious(s);
    CommittedShape(s, env);
    RunInvariant(inputs + [Input(Commit, env)]);
    RunIds(inputs + [Input(Commit, env)]);
    ObserverKnowsPrevious(s');
  }

  lemma CommittedShape(s: State, env: Env)
    requires s.data.active && !env.authFailed
    ensures var s' := Committed(s, env);
            && s'.data == s.data.(timestamp := s'.data.timestamp)
            && SameGame(s'.data, s'.prev)
            && (s'.calls == s.calls <==> SameGame(s.data, s.prev))
            && (s'.calls != s.calls ==> s'.calls[|s'.calls| - 1].data.timestamp == env.systemNow)
  {
    if !SameGame(s.data, s.prev) {
      assert |Committed(s, env).calls| > |s.calls|;
    }
  }

  /** The session-created callback always reports, whatever was reported before. */
  lemma {:induction false} CallbackAlwaysReports(inputs: seq<Input>, env: Env)
    requires !env.authFailed
    ensures var s, s' := Run(inputs), Run(inputs + [Input(OnCreated, env)]);
            |s'.calls| > |s.calls| && Observed(s'.calls) == Some(s.data.(timestamp := env.systemNow))
  {
    RunNext(inputs, Input(OnCreated, env));
  }

  /** Once authentication has failed, nothing starts and nothing is reported. */
  lemma {:induction false} SilentWithoutAuthentication(inputs: seq<Input>, input: Input)
    requires input.env.authFailed
    ensures Run(inputs + [input]).calls == Run(inputs).calls
    ensures Run(inputs + [input]).sessionId == Run(inputs).sessionId
  {
    RunNext(inputs, input);
  }

  // ------------------------------------------------------- what is set is seen

  /** What an observer knows once an operation has been committed. */
  ghost function SeenAfter(inputs: seq<Input>, step: Step, at: Env, env: Env): Option<GameData> {
    Observed(Run(inputs + [Input(step, at)] + [Input(Commit, env)]).calls)
  }

  /** A commit after an operation that keeps the game on shows its outcome. */
  lemma SeenIsOutcome(inputs: seq<Input>, step: Step, at: Env, env: Env)
    requires Apply(Run(inputs), Input(step, at)).data.active && !env.authFailed
    ensures var o := SeenAfter(inputs, step, at, env);
            o.Some? && Shows(o.value, Apply(Run(inputs), Input(step, at)).data)
  {
    RunNext(inputs, Input(step, at));
    CommitBringsObserverUpToDate(inputs + [Input(step, at)], env);
  }

  lemma {:induction false} ScoreIsSeen(inputs: seq<Input>, p: nat, score: int, feature: int, at: Env, env: Env)
    requires Run(inputs).data.active && 1 <= p <= 9 && !env.authFailed
    ensures var d, o := Run(inputs).data, SeenAfter(inputs, SetScore(p, score, feature), at, env);
            o.Some? && Shows(o.value, d.(players := d.players[p := Player(p, score, feature)]))
  {
    RunInvariant(inputs);
    SeenIsOutcome(inputs, SetScore(p, score, feature), at, env);
  }

  lemma {:induction false} ActivePlayerIsSeen(inputs: seq<Input>, p: nat, at: Env, env: Env)
    requires Run(inputs).data.active && 1 <= p <= 9 && !env.authFailed
    ensures var d, o := Run(inputs).data, SeenAfter(inputs, SetActivePlayer(p), at, env);
            o.Some? && Shows(o.value, d.(activePlayer := p,
                                         players := if p in d.players then d.players else d.players[p := Player(p, 0, 0)]))
  {
    SeenIsOutcome(inputs, SetActivePlayer(p), at, env);
  }

  lemma {:induction false} BallIsSeen(inputs: seq<Input>, ball: nat, at: Env, env: Env)
    requires Run(inputs).data.active && 1 <= ball <= 9 && !env.authFailed
    ensures var d, o := Run(inputs).data, SeenAfter(inputs, SetBall(ball), at, env);
            o.Some? && Shows(o.value, d.(ball := ball))
  {
    SeenIsOutcome(inputs, SetBall(ball), at, env);
  }

  /** The snapshot shows the game with these modes. */
  ghost predicate ShowsModes(o: Option<GameData>, d: GameData, names: seq<string>) {
    o.Some? && Shows(o.value, d.(modes := Modes(names, map[])))
  }

  lemma {:induction false} AddedModeIsSeen(inputs: seq<Input>, name: string, at: Env, env: Env)
    requires Run(inputs).data.active && !env.authFailed
    ensures var d := Run(inputs).data;
            ShowsModes(SeenAfter(inputs, AddMode(name), at, env), d,
                       if name in d.modes.names then d.modes.names else d.modes.names + [name])
  {
    SeenIsOutcome(inputs, AddMode(name), at, env);
  }

  lemma {:induction false} TemporaryModeIsSeen(inputs: seq<Input>, name: string, seconds: nat, at: Env, env: Env)
    requires Run(inputs).data.active && !env.authFailed
    ensures var d := Run(inputs).data;
            ShowsModes(SeenAfter(inputs, AddModeExpiring(name, seconds), at, env), d,
                       [name] + Without(d.modes.names, {name}))
  {
    SeenIsOutcome(inputs, AddModeExpiring(name, seconds), at, env);
  }

  lemma {:induction false} RemovedModeIsSeen(inputs: seq<Input>, name: string, at: Env, env: Env)
    requires Run(inputs).data.active && !env.authFailed
    ensures var d := Run(inputs).data;
            ShowsModes(SeenAfter(inputs, RemoveMode(name), at, env), d, Without(d.modes.names, {name}))
  {
    SeenIsOutcome(inputs, RemoveMode(name), at, env);
  }

  lemma {:induction false} ClearedModesAreSeen(inputs: seq<Input>, at: Env, env: Env)
    requires Run(inputs).data.active && !env.authFailed
    ensures ShowsModes(SeenAfter(inputs, ClearModes, at, env), Run(inputs).data, [])
  {
    SeenIsOutcome(inputs, ClearModes, at, env);
  }

  /** A temporary mode lasts 3 seconds if none are given, 10 at most. */
  lemma {:induction false} DeadlineIsSet(inputs: seq<Input>, name: string, seconds: nat, at: Env)
    requires Run(inputs).data.active
    ensures var deadlines := Run(inputs + [Input(AddModeExpiring(name, seconds), at)]).data.modes.deadlines;
            deadlines == Run(inputs).data.modes.deadlines[
              name := at.steadyNow + (if seconds == 0 then 3 else if seconds > 10 then 10 else seconds) * SECOND]
  {
    RunNext(inputs, Input(AddModeExpiring(name, seconds), at));
  }

  /** Players and balls outside 1 to 9 change nothing, and neither does any setter
      while no game is on. */
  lemma {:induction false} OutOfRangeIsIgnored(inputs: seq<Input>, input: Input)
    requires match input.step
             case SetBall(n) => !(1 <= n <= 9) || !Run(inputs).data.active
             case SetActivePlayer(n) => !(1 <= n <= 9) || !Run(inputs).data.active
             case SetScore(n, _, _) => !(1 <= n <= 9) || !Run(inputs).data.active
             case AddMode(_) => !Run(inputs).data.active
             case AddModeExpiring(_, _) => !Run(inputs).data.active
             case RemoveMode(_) => !Run(inputs).data.active
             case ClearModes => !Run(inputs).data.active
             case Commit => !Run(inputs).data.active
             case Finish => !Run(inputs).data.active
             case _ => false
    ensures Run(inputs + [input]) == Run(inputs)
  {
    RunNext(inputs, input);
  }

  /** A game starts exactly if none is on and authentication has not failed: with
      the next id, one player without a score, on ball 1, and nothing else. */
  lemma {:induction false} StartMakesAGame(inputs: seq<Input>, env: Env)
    ensures var s, s' := Run(inputs), Run(inputs + [Input(Start, env)]);
            if s.data.active || env.authFailed then s' == s
            else
              var d := GameData(s.sessionId + 1, true, 1, 1, map[1 := Player(1, 0, 0)], Modes([], map[]), env.systemNow);
              s'.data == d && s'.calls == s.calls + [CreateSession(d)] && s'.sessionId == s.sessionId + 1 && s'.timer == None
  {
    RunNext(inputs, Input(Start, env));
    assert FreshPlayers(1) == map[1 := Player(1, 0, 0)];
  }

  /** A finished game is reported as it was, only inactive; then there is no game,
      no mode and no timer. */
  lemma {:induction false} FinishReportsTheGame(inputs: seq<Input>, env: Env)
    requires Run(inputs).data.active
    ensures var s, s' := Run(inputs), Run(inputs + [Input(Finish, env)]);
            && s'.data == GameData(0, false, 0, 0, map[], Modes([], map[]), 0) && s'.timer == None
            && (!env.authFailed ==>
                  Observed(s'.calls).Some? && Shows(Observed(s'.calls).value, s.data.(active := false)))
  {
    RunNext(inputs, Input(Finish, env));
    RunInvariant(inputs);
  }
}
