/**
 The game state object (source/game_state_impl.cpp, source/game_data.h): it
 starts, changes, commits and finishes games, and reports them to the network
 layer as a session creation and flagged snapshots.

 `State` is the value of the object together with what it has done to its
 collaborators: the calls it made on the network layer and the slot of the
 mode-expiry timer.  The functions on `State` say what each operation does; the
 class `GameStateImpl` does it in place.
 */
module GameSession {
  import opened Collections
  import opened ModeList

  const MAX_PLAYERS: nat := 9
  const MAX_BALLS: nat := 9

  datatype Player = Player(number: nat, score: int, feature: int)

  datatype GameData = GameData(
    id: int,
    active: bool,
    ball: nat,
    activePlayer: nat,
    players: map<nat, Player>,
    modes: Modes,
    timestamp: int)

  const NO_GAME := GameData(0, false, 0, 0, map[], NO_MODES, 0)

  /** The equality of two snapshots: ids, deadlines and timestamps do not count. */
  predicate SameGame(a: GameData, b: GameData) {
    && a.active == b.active
    && a.ball == b.ball
    && a.activePlayer == b.activePlayer
    && a.modes.names == b.modes.names
    && a.players == b.players
  }

  datatype Flags = Flags(uploadLogs: bool, playersAdd: bool)

  /** A call made on the network layer. */
  datatype NetCall =
    | CreateSession(data: GameData)
    | SubmitData(data: GameData, flags: Flags)

  /** The armed expiry timer: the instant it expires and when it was armed. */
  datatype Armed = Armed(at: int, since: int)

  datatype State = State(
    data: GameData,
    prev: GameData,
    sessionId: nat,
    timer: Option<Armed>,
    calls: seq<NetCall>)

  const INITIAL := State(NO_GAME, NO_GAME, 0, None, [])

  /** What an operation reads from outside: the two clocks and whether
      authentication has failed. */
  datatype Env = Env(steadyNow: int, systemNow: int, authFailed: bool)

  predicate ValidPlayer(player: nat) { 1 <= player <= MAX_PLAYERS }

  predicate ValidBall(ball: nat) { 1 <= ball <= MAX_BALLS }

  // ------------------------------------------------------- mode-expiry timer

  ghost function Rescheduled(s: State, now: int): State {
    var deadlines := s.data.modes.deadlines;
    if deadlines == map[] then s.(timer := None)
    else s.(timer := Some(Armed(Max(now, Earliest(deadlines)), now)))
  }

  function ScheduleCleared(s: State): State {
    s.(data := s.data.(modes := s.data.modes.(deadlines := map[])), timer := None)
  }

  // --------------------------------------------------------------- submission

  /** The previous player's score still changed although another player is now
      up: this bonus has to be reported for the previous player first. */
  predicate HasBonus(prev: GameData, data: GameData) {
    var p := prev.activePlayer;
    && p != data.activePlayer
    && p != 0
    && p in prev.players
    && p in data.players
    && prev.players[p].score != data.players[p].score
  }

  predicate JustStarted(prev: GameData, data: GameData) { !prev.active && data.active }

  /** The active player or the ball changed, or the game ended. */
  predicate TurnEnded(prev: GameData, data: GameData) {
    || prev.activePlayer != data.activePlayer
    || prev.ball != data.ball
    || (prev.active && !data.active)
  }

  function SubmissionOf(prev: GameData, data: GameData): seq<NetCall> {
    var bonus := HasBonus(prev, data);
    var upload := !bonus && !JustStarted(prev, data) && TurnEnded(prev, data);
    (if bonus
     then [SubmitData(data.(activePlayer := prev.activePlayer, ball := prev.ball), Flags(true, false))]
     else [])
    + [SubmitData(data, Flags(upload, |prev.players| != |data.players|))]
  }

  function Submitted(s: State, force: bool, env: Env): State {
    if env.authFailed || (SameGame(s.data, s.prev) && !force) then s
    else
      var data := s.data.(timestamp := env.systemNow);
      s.(data := data, prev := data, calls := s.calls + SubmissionOf(s.prev, data))
  }

  // ------------------------------------------------------------- operations

  function WithPlayer(data: GameData, player: nat): GameData {
    if player in data.players then data
    else data.(players := data.players[player := Player(player, 0, 0)])
  }

  /** Players 1 to `count` with nothing scored. */
  function FreshPlayers(count: nat): map<nat, Player> {
    map k: nat | 1 <= k <= count :: Player(k, 0, 0)
  }

  lemma WithPlayerOne(count: int)
    ensures FreshPlayers(Max(1, count)) ==
              if 1 in FreshPlayers(Max(0, count)) then FreshPlayers(Max(0, count))
              else FreshPlayers(Max(0, count))[1 := Player(1, 0, 0)]
  {
  }

  /** A game always has player 1, whatever count is asked for. */
  function StartedWith(s: State, playersCount: int, env: Env): State {
    if s.data.active || env.authFailed then s
    else
      var id := s.sessionId + 1;
      var data := GameData(id, true, 1, 1, FreshPlayers(Max(1, playersCount)), NO_MODES, env.systemNow);
      State(data, NO_GAME, id, None, s.calls + [CreateSession(data)])
  }

  function Started(s: State, env: Env): State { StartedWith(s, 1, env) }

  function Finished(s: State, env: Env): State {
    if !s.data.active then s
    else
      var cleared := ScheduleCleared(s);
      Submitted(cleared.(data := cleared.data.(active := false)), false, env).(data := NO_GAME)
  }

  function BallSet(s: State, ball: nat): State {
    if !s.data.active || !ValidBall(ball) then s
    else s.(data := s.data.(ball := ball))
  }

  function ActivePlayerSet(s: State, player: nat): State {
    if !s.data.active || !ValidPlayer(player) then s
    else s.(data := WithPlayer(s.data, player).(activePlayer := player))
  }

  function ScoreSet(s: State, player: nat, score: int, feature: int): State {
    if !s.data.active || !ValidPlayer(player) then s
    else
      var data := WithPlayer(s.data, player);
      s.(data := data.(players := data.players[player := data.players[player].(score := score, feature := feature)]))
  }

  function ModeAdded(s: State, name: string): State {
    if !s.data.active then s
    else s.(data := s.data.(modes := Added(s.data.modes, name)))
  }

  ghost function ModeAddedExpiring(s: State, name: string, seconds: nat, env: Env): State {
    if !s.data.active then s
    else Rescheduled(s.(data := s.data.(modes := AddedExpiring(s.data.modes, name, seconds, env.steadyNow))),
                     env.steadyNow)
  }

  ghost function ModeExpiriesTicked(s: State, env: Env): State {
    if !s.data.active then ScheduleCleared(s)
    else Rescheduled(s.(data := s.data.(modes := Ticked(s.data.modes, env.steadyNow))), env.steadyNow)
  }

  ghost function ModeRemoved(s: State, name: string, env: Env): State {
    if !s.data.active then s
    else
      var removed := s.(data := s.data.(modes := Removed(s.data.modes, name)));
      if s.data.modes.deadlines == map[] then removed else Rescheduled(removed, env.steadyNow)
  }

  function ModesCleared(s: State): State {
    if !s.data.active then s else s.(data := s.data.(modes := NO_MODES), timer := None)
  }

  function Committed(s: State, env: Env): State {
    if s.data.active then Submitted(s, false, env) else s
  }

  // -------------------------------------------------------------- the object

  class GameStateImpl {
    const modes: ModeKeeper
    var data: GameData  // the current game but for its modes
    var prevData: GameData
    var sessionId: nat
    var timer: Option<Armed>
    var calls: seq<NetCall>

    function Data(): GameData reads this, modes { data.(modes := modes.Value()) }

    function View(): State reads this, modes { State(Data(), prevData, sessionId, timer, calls) }

    constructor ()
      ensures View() == INITIAL && fresh(modes)
    {
      modes := new ModeKeeper();
      data, prevData, sessionId, timer, calls := NO_GAME, NO_GAME, 0, None, [];
    }

    method SetGameStarted(env: Env)
      modifies this, modes
      ensures View() == Started(old(View()), env)
    {
      var started := StartGame(1, env);
    }

    method StartGame(playersCount: int, env: Env) returns (started: bool)
      modifies this, modes
      ensures started <==> !old(data).active && !env.authFailed
      ensures View() == StartedWith(old(View()), playersCount, env)
    {
      if data.active {
        return false;
      }
      if env.authFailed {
        return false;
      }
      Reset();
      sessionId := sessionId + 1;
      data := data.(id := sessionId, active := true);
      AddPlayers(playersCount);
      SetCurrentBall(1);
      SetActivePlayer(1);
      WithPlayerOne(playersCount);
      data := data.(timestamp := env.systemNow);
      calls := calls + [CreateSession(Data())];
      return true;
    }

    method Reset()
      modifies this`data, this`prevData, this`timer, modes
      ensures data == prevData == NO_GAME && modes.Value() == NO_MODES && timer == None
    {
      ClearModeExpirySchedule();
      data := NO_GAME;
      modes.Clear();
      prevData := Data();
    }

    method AddPlayers(count: int)
      requires data.players == map[]
      modifies this`data
      ensures data == old(data).(players := FreshPlayers(Max(0, count)))
    {
      var i := 1;
      while i <= count
        invariant 1 <= i <= Max(0, count) + 1
        invariant data == old(data).(players := FreshPlayers(i - 1))
      {
        AddNewPlayer(i);
        assert data.players == FreshPlayers(i);
        i := i + 1;
      }
    }

    method SetGameFinished(env: Env)
      modifies this, modes
      ensures View() == Finished(old(View()), env)
    {
      if !data.active {
        return;
      }
      ClearModeExpirySchedule();
      data := data.(active := false);
      SubmitGameData(false, env);
      data := NO_GAME;
      modes.Clear();
    }

    method SetCurrentBall(ball: nat)
      modifies this`data
      ensures View() == BallSet(old(View()), ball)
    {
      if !data.active {
        return;
      }
      if !ValidBall(ball) {
        return;
      }
      data := data.(ball := ball);
    }

    method SetActivePlayer(player: nat)
      modifies this`data
      ensures View() == ActivePlayerSet(old(View()), player)
    {
      if !data.active {
        return;
      }
      if !ValidPlayer(player) {
        return;
      }
      if player !in data.players {
        AddNewPlayer(player);
      }
      data := data.(activePlayer := player);
    }

    method SetScore(player: nat, score: int, feature: int)
      modifies this`data
      ensures View() == ScoreSet(old(View()), player, score, feature)
    {
      if !data.active {
        return;
      }
      if !ValidPlayer(player) {
        return;
      }
      if player !in data.players {
        AddNewPlayer(player);
      }
      var p := data.players[player].(score := score, feature := feature);
      data := data.(players := data.players[player := p]);
    }

    method AddMode(name: string)
      modifies modes
      ensures View() == ModeAdded(old(View()), name)
    {
      if !data.active {
        return;
      }
      modes.AddMode(name);
    }

    method AddModeExpiring(name: string, seconds: nat, env: Env)
      modifies this`timer, modes
      ensures View() == ModeAddedExpiring(old(View()), name, seconds, env)
    {
      if !data.active {
        return;
      }
      modes.AddModeExpiring(name, seconds, env.steadyNow);
      RescheduleModeExpiryTimer(env);
    }

    method TickModeExpiries(env: Env)
      modifies this`timer, modes
      ensures View() == ModeExpiriesTicked(old(View()), env)
    {
      if !data.active {
        ClearModeExpirySchedule();
        return;
      }
      modes.TickExpiries(env.steadyNow);
      RescheduleModeExpiryTimer(env);
    }

    /** Replaces whatever the timer slot held. */
    method RescheduleModeExpiryTimer(env: Env)
      modifies this`timer
      ensures View() == Rescheduled(old(View()), env.steadyNow)
    {
      var delay := modes.NextExpiryDelay(env.steadyNow);
      if delay.None? {
        timer := None;
        return;
      }
      timer := Some(Armed(env.steadyNow + delay.value, env.steadyNow));
    }

    method ClearModeExpirySchedule()
      modifies this`timer, modes
      ensures View() == ScheduleCleared(old(View()))
    {
      modes.ClearExpiries();
      timer := None;
    }

    method RemoveMode(name: string, env: Env)
      modifies this`timer, modes
      ensures View() == ModeRemoved(old(View()), name, env)
    {
      if !data.active {
        return;
      }
      var hadExpiry := modes.HasExpiryDeadlines();
      modes.RemoveMode(name);
      if hadExpiry {
        RescheduleModeExpiryTimer(env);
      }
    }

    method ClearModes()
      modifies this`timer, modes
      ensures View() == ModesCleared(old(View()))
    {
      if !data.active {
        return;
      }
      modes.Clear();
      timer := None;
    }

    method Commit(env: Env)
      modifies this`data, this`prevData, this`calls
      ensures View() == Committed(old(View()), env)
    {
      if data.active {
        SubmitGameData(false, env);
      }
    }

    method AddNewPlayer(player: nat)
      modifies this`data
      ensures data == WithPlayer(old(data), player)
    {
      if player in data.players {
        return;
      }
      data := data.(players := data.players[player := Player(player, 0, 0)]);
    }

    /** Also the callback that runs, forced, once the session has been created. */
    method SubmitGameData(forceSending: bool, env: Env)
      modifies this`data, this`prevData, this`calls
      ensures View() == Submitted(old(View()), forceSending, env)
    {
      if env.authFailed {
        return;
      }
      if !SameGame(Data(), prevData) || forceSending {
        data := data.(timestamp := env.systemNow);
        var game := Data();
        var isGameJustStarted := !prevData.active && game.active;
        var isGameJustFinished := prevData.active && !game.active;
        var isActivePlayerChanged := prevData.activePlayer != game.activePlayer;
        var isBallChanged := prevData.ball != game.ball;
        var isPlayersNumberChanged := |prevData.players| != |game.players|;
        var bonusScoreSubmitted := false;
        if isActivePlayerChanged {
          var p := prevData.activePlayer;
          if p != 0 && p in prevData.players && p in game.players {
            if prevData.players[p].score != game.players[p].score {
              var tempData := game.(activePlayer := p, ball := prevData.ball);
              calls := calls + [SubmitData(tempData, Flags(true, false))];
              bonusScoreSubmitted := true;
            }
          }
        }
        var hasToUploadSessionLogs :=
          !bonusScoreSubmitted && !isGameJustStarted
          && (isActivePlayerChanged || isBallChanged || isGameJustFinished);
        var hasToUpdateSession := hasToUploadSessionLogs || isPlayersNumberChanged;
        var flags := Flags(false, false);
        if hasToUpdateSession {
          if hasToUploadSessionLogs {
            flags := flags.(uploadLogs := true);
          }
          if isPlayersNumberChanged {
            flags := flags.(playersAdd := true);
          }
        }
        calls := calls + [SubmitData(game, flags)];
        prevData := game;
      }
    }
  }
}
