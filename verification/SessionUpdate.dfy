/**
 The debounced session update (source/net.cpp): a flagged submission leads to a
 PATCH of its session, delayed while players join and retried while the session
 has no uuid, all through one timer slot (source/worker.cpp).

 One session, no shutdown.  A thread runs the submission lambda or the timer
 handler; between its steps other threads may run.
 */
module SessionUpdate {
  import opened Collections

  /** A request for an update: its flags, and how often it was debounced. */
  datatype Chain = Chain(upload: bool, playersAdd: bool, debounced: bool, debounces: nat)

  datatype Record = Record(players: nat, hasUuid: bool)

  /** What happens to the session, in order: snapshots recorded with their flags,
      updates posted, and its erasure. */
  datatype Entry =
    | Recorded(players: nat, upload: bool, playersAdd: bool)
    | Posted(players: nat, upload: bool)
    | Erased

  predicate Flagged(e: Entry) { e.Recorded? && (e.upload || e.playersAdd) }

  /** Where a thread stands in the update. */
  datatype Pc =
    | Entering(chain: Chain)   // the snapshot is recorded, the timer not yet cancelled
    | Cancelled(chain: Chain)  // the timer is cancelled
    | Retrying(chain: Chain)   // the session had no uuid, about to arm the timer

  datatype State = State(
    record: Option<Record>,
    timer: Option<Chain>,
    threads: map<nat, Pc>,
    log: seq<Entry>)  // history

  const START := State(None, None, map[], [])

  datatype Step =
    | Submit(t: nat, players: nat, upload: bool, playersAdd: bool)
    | Cancel(t: nat)
    | Decide(t: nat)
    | Arm(t: nat)
    | Fire(t: nat)
    | CreateReply
    | Erase

  predicate Enabled(s: State, step: Step) {
    match step
    case Submit(t, _, _, _) => t !in s.threads
    case Cancel(t) => t in s.threads && s.threads[t].Entering?
    case Decide(t) => t in s.threads && s.threads[t].Cancelled?
    case Arm(t) => t in s.threads && s.threads[t].Retrying?
    case Fire(t) => t !in s.threads && s.timer.Some?
    case CreateReply => true
    case Erase => s.record.Some?
  }

  predicate ToDebounce(c: Chain) { !c.upload && !c.debounced && c.playersAdd }

  function Next(s: State, step: Step): State
    requires Enabled(s, step)
  {
    match step
    case Submit(t, players, upload, playersAdd) =>
      var flagged := upload || playersAdd;
      s.(record := Some(Record(players, s.record.Some? && s.record.value.hasUuid)),
         threads := if flagged then s.threads[t := Entering(Chain(upload, playersAdd, false, 0))] else s.threads,
         log := s.log + [Recorded(players, upload, playersAdd)])
    case Cancel(t) => s.(timer := None, threads := s.threads[t := Cancelled(s.threads[t].chain)])
    case Decide(t) =>
      var c := s.threads[t].chain;
      if ToDebounce(c) then
        s.(timer := Some(c.(debounced := true, debounces := c.debounces + 1)), threads := s.threads - {t})
      else if s.record.None? then s.(threads := s.threads - {t})
      else if !s.record.value.hasUuid then s.(threads := s.threads[t := Retrying(c)])
      else s.(threads := s.threads - {t}, log := s.log + [Posted(s.record.value.players, c.upload)])
    case Arm(t) => s.(timer := Some(s.threads[t].chain), threads := s.threads - {t})
    case Fire(t) => s.(timer := None, threads := s.threads[t := Entering(s.timer.value)])
    case CreateReply => if s.record.Some? then s.(record := Some(s.record.value.(hasUuid := true))) else s
    case Erase => s.(record := None, log := s.log + [Erased])
  }

  function After(steps: seq<Step>): State {
    if steps == [] then START
    else
      var s := After(steps[..|steps| - 1]);
      var step := steps[|steps| - 1];
      if Enabled(s, step) then Next(s, step) else s
  }

  // ------------------------------------------------------ reading the history

  /** The player count of the newest snapshot recorded since the last erasure. */
  function Newest(log: seq<Entry>): Option<nat> {
    if log == [] then None
    else match log[|log| - 1]
      case Recorded(players, _, _) => Some(players)
      case Posted(_, _) => Newest(log[..|log| - 1])
      case Erased => None
  }

  /** A flagged snapshot was recorded, and no update or erasure followed. */
  predicate Owed(log: seq<Entry>) {
    log != [] && log[|log| - 1].Recorded? && (Flagged(log[|log| - 1]) || Owed(log[..|log| - 1]))
  }

  /** One that asks for the history logs was recorded, and no update with the logs
      and no erasure followed. */
  predicate LogsOwed(log: seq<Entry>) {
    && log != [] && !log[|log| - 1].Erased?
    && (log[|log| - 1].upload ==> log[|log| - 1].Recorded?)
    && (log[|log| - 1].upload || LogsOwed(log[..|log| - 1]))
  }

  lemma Appended(log: seq<Entry>, e: Entry)
    ensures (log + [e])[..|log|] == log
  {
  }

  lemma {:induction false} OwedSince(log: seq<Entry>, i: nat)
    requires i < |log| && Flagged(log[i])
    requires forall j :: i < j < |log| ==> log[j].Recorded?
    ensures Owed(log)
  {
    if i < |log| - 1 {
      OwedSince(log[..|log| - 1], i);
    }
  }

  /** Entry `i` is the newest snapshot: only updates followed it. */
  ghost predicate NewestAt(log: seq<Entry>, i: nat) {
    i < |log| && log[i].Recorded? && forall j :: i < j < |log| ==> log[j].Posted?
  }

  lemma {:induction false} NewestIsThere(log: seq<Entry>) returns (i: nat)
    requires Newest(log).Some?
    ensures NewestAt(log, i) && Newest(log) == Some(log[i].players)
  {
    var last := |log| - 1;
    if log[last].Recorded? {
      i := last;
    } else {
      i := NewestIsThere(log[..last]);
    }
  }

  // ---------------------------------------------------------------- invariants

  ghost predicate ChainSound(c: Chain) {
    c.debounces <= 1 && (c.debounces == 1 <==> c.debounced) && (c.upload || c.playersAdd)
  }

  ghost predicate Sound(s: State) {
    && (Owed(s.log) ==> s.timer.Some? || s.threads != map[])
    && Newest(s.log) == (if s.record.Some? then Some(s.record.value.players) else None)
    && (s.timer.Some? ==> ChainSound(s.timer.value))
    && (forall t :: t in s.threads ==> ChainSound(s.threads[t].chain))
  }

  ghost predicate PostedCurrent(log: seq<Entry>) {
    forall j :: 0 <= j < |log| && log[j].Posted? ==> Newest(log[..j]) == Some(log[j].players)
  }

  lemma NextSound(s: State, step: Step)
    requires Enabled(s, step) && Sound(s)
    ensures Sound(Next(s, step))
  {
    var s' := Next(s, step);
    if s'.log != s.log {
      Appended(s.log, s'.log[|s.log|]);
    }
    if step.Submit? && (step.upload || step.playersAdd) {
      assert step.t in s'.threads;
    } else if step.Cancel? || step.Fire? || (step.Decide? && step.t in s'.threads) {
      assert step.t in s'.threads;
    }
  }

  lemma NextPostsCurrent(s: State, step: Step)
    requires Enabled(s, step) && Sound(s) && PostedCurrent(s.log)
    ensures PostedCurrent(Next(s, step).log)
  {
    var log, log' := s.log, Next(s, step).log;
    forall j | 0 <= j < |log'| && log'[j].Posted? ensures Newest(log'[..j]) == Some(log'[j].players) {
      if j < |log| {
        assert log'[..j] == log[..j] && log'[j] == log[j];
      } else {
        assert log'[..j] == log;
      }
    }
  }

  lemma {:induction false} RunSound(steps: seq<Step>)
    ensures Sound(After(steps)) && PostedCurrent(After(steps).log)
  {
    if steps != [] {
      var n := |steps| - 1;
      RunSound(steps[..n]);
      if Enabled(After(steps[..n]), steps[n]) {
        NextSound(After(steps[..n]), steps[n]);
        NextPostsCurrent(After(steps[..n]), steps[n]);
      }
    }
  }

  // ------------------------------------------------------------------ theorems

  /** From a flagged submission until an update is posted or the record is erased,
      the timer is armed or a thread is between cancelling it and re-arming it or
      posting. */
  lemma {:induction false} UpdateIsNeverForgotten(steps: seq<Step>, i: nat)
    requires var log := After(steps).log;
             && i < |log| && Flagged(log[i])
             && forall j :: i < j < |log| ==> !log[j].Posted? && !log[j].Erased?
    ensures var s := After(steps); s.timer.Some? || s.threads != map[]
  {
    RunSound(steps);
    OwedSince(After(steps).log, i);
  }

  /** No request is debounced twice. */
  lemma {:induction false} DebouncedAtMostOnce(steps: seq<Step>)
    ensures var s := After(steps);
            && (s.timer.Some? ==> s.timer.value.debounces <= 1)
            && forall t :: t in s.threads ==> s.threads[t].chain.debounces <= 1
  {
    RunSound(steps);
  }

  /** Every posted update carries the player count of the newest snapshot recorded
      before it, with no erasure in between: it covers every snapshot so far. */
  lemma {:induction false} PostedUpdateIsCurrent(steps: seq<Step>, j: nat)
    requires j < |After(steps).log| && After(steps).log[j].Posted?
    ensures var log := After(steps).log;
            exists i: nat :: NewestAt(log[..j], i) && log[i].players == log[j].players
  {
    RunSound(steps);
    var log := After(steps).log;
    var i := NewestIsThere(log[..j]);
    assert log[i] == log[..j][i];
  }

  // ---------------------------------------------------- when updates are posted

  lemma AfterStep(steps: seq<Step>, step: Step)
    requires Enabled(After(steps), step)
    ensures After(steps + [step]) == Next(After(steps), step)
  {
    assert (steps + [step])[..|steps|] == steps;
  }

  lemma AfterThree(steps: seq<Step>, a: Step, b: Step, c: Step)
    requires Enabled(After(steps), a)
    requires Enabled(Next(After(steps), a), b)
    requires Enabled(Next(Next(After(steps), a), b), c)
    ensures After(steps + [a] + [b] + [c]) == Next(Next(Next(After(steps), a), b), c)
  {
    AfterStep(steps, a);
    AfterStep(steps + [a], b);
    AfterStep(steps + [a] + [b], c);
  }

  /** A joining player posts nothing yet: the update is debounced through the timer. */
  lemma {:induction false} JoiningPlayerIsDebounced(steps: seq<Step>, t: nat, players: nat)
    requires t !in After(steps).threads
    ensures var s, s' := After(steps), After(steps + [Submit(t, players, false, true)] + [Cancel(t)] + [Decide(t)]);
            && s'.log == s.log + [Recorded(players, false, true)]
            && s'.timer == Some(Chain(false, true, true, 1))
            && s'.threads == s.threads
  {
    AfterThree(steps, Submit(t, players, false, true), Cancel(t), Decide(t));
  }

  /** When the timer expires, a request that needs no more delay posts the update of a
      session with a uuid, with the logs if it asked for them. */
  lemma {:induction false} ExpiredTimerPosts(steps: seq<Step>, t: nat)
    requires var s := After(steps);
             && t !in s.threads && s.timer.Some? && (s.timer.value.debounced || s.timer.value.upload)
             && s.record.Some? && s.record.value.hasUuid
    ensures var s, s' := After(steps), After(steps + [Fire(t)] + [Cancel(t)] + [Decide(t)]);
            s'.log == s.log + [Posted(s.record.value.players, s.timer.value.upload)] && s'.timer == None
    ensures After(steps + [Fire(t)]).timer == None
  {
    AfterStep(steps, Fire(t));
    AfterThree(steps, Fire(t), Cancel(t), Decide(t));
  }

  /** A request that was waiting for the uuid is served once the create reply has come. */
  lemma {:induction false} CreateReplyReleasesTheUpdate(steps: seq<Step>, t: nat)
    requires var s := After(steps);
             && t !in s.threads && s.timer.Some? && (s.timer.value.debounced || s.timer.value.upload)
             && s.record.Some?
    ensures var s, s' := After(steps), After(steps + [CreateReply] + [Fire(t)] + [Cancel(t)] + [Decide(t)]);
            s'.log == s.log + [Posted(s.record.value.players, s.timer.value.upload)]
  {
    AfterStep(steps, CreateReply);
    ExpiredTimerPosts(steps + [CreateReply], t);
  }

  /** A request for the history logs is not debounced: with a uuid the update is posted
      at once. */
  lemma {:induction false} LogsArePostedAtOnce(steps: seq<Step>, t: nat, players: nat, joined: bool)
    requires var s := After(steps); t !in s.threads && s.record.Some? && s.record.value.hasUuid
    ensures var s, s' := After(steps), After(steps + [Submit(t, players, true, joined)] + [Cancel(t)] + [Decide(t)]);
            s'.log == s.log + [Recorded(players, true, joined)] + [Posted(players, true)]
  {
    AfterThree(steps, Submit(t, players, true, joined), Cancel(t), Decide(t));
  }

  // ------------------------------------------------------- the history logs

  ghost predicate ThreadCarriesLogs(s: State) {
    exists t :: t in s.threads && s.threads[t].chain.upload
  }

  ghost predicate LogsCarried(s: State) {
    (s.timer.Some? && s.timer.value.upload) || ThreadCarriesLogs(s)
  }

  /** A request without logs takes the timer slot away from the only request that
      asks for them. */
  ghost predicate DropsLogs(s: State, step: Step) {
    && LogsOwed(s.log)
    && Enabled(s, step)
    && (step.Cancel? || step.Arm? || (step.Decide? && ToDebounce(s.threads[step.t].chain)))
    && s.timer.Some? && s.timer.value.upload
    && !ThreadCarriesLogs(s)
  }

  /** Logs are owed only to a session that has a record. */
  lemma {:induction false} LogsOwedHasNewest(log: seq<Entry>)
    requires LogsOwed(log)
    ensures Newest(log).Some?
  {
    if !log[|log| - 1].Recorded? {
      LogsOwedHasNewest(log[..|log| - 1]);
    }
  }

  lemma LogsOwedAfter(s: State, step: Step)
    requires Enabled(s, step)
    ensures var log, log' := s.log, Next(s, step).log;
            && (log' != log ==> log' == log + [log'[|log|]])
            && LogsOwed(log') == if log' == log then LogsOwed(log)
                                 else if log'[|log|].Erased? then false
                                 else if log'[|log|].upload then log'[|log|].Recorded?
                                 else LogsOwed(log)
  {
    var log, log' := s.log, Next(s, step).log;
    if log' != log {
      Appended(log, log'[|log|]);
    }
  }

  lemma DropIsTheOnlyLoss(s: State, step: Step)
    requires Enabled(s, step) && Sound(s)
    requires LogsOwed(s.log) ==> LogsCarried(s)
    ensures var s' := Next(s, step);
            (LogsOwed(s'.log) ==> LogsCarried(s')) <==> !DropsLogs(s, step)
  {
    var s' := Next(s, step);
    LogsOwedAfter(s, step);
    if LogsOwed(s.log) {
      LogsOwedHasNewest(s.log);
    }
    if DropsLogs(s, step) {
      assert forall t :: t in s'.threads ==> t in s.threads && s'.threads[t].chain == s.threads[t].chain;
    } else if ThreadCarriesLogs(s) {
      var t :| t in s.threads && s.threads[t].chain.upload;
      if t in s'.threads {
        assert s'.threads[t].chain == s.threads[t].chain;
      }
    } else if step.Fire? || (step.Submit? && step.upload) {
      assert step.t in s'.threads;
      if s.timer.Some? && s.timer.value.upload && step.Fire? {
        assert s'.threads[step.t].chain.upload;
      }
    }
  }

  ghost predicate NeverDropsLogs(steps: seq<Step>) {
    forall i :: 0 <= i < |steps| ==> !DropsLogs(After(steps[..i]), steps[i])
  }

  /** A request for the history logs is kept until an update with the logs is
      posted or the record is erased, in every run in which no request without
      logs takes the timer slot from it. */
  lemma {:induction false} LogsAreKept(steps: seq<Step>)
    requires NeverDropsLogs(steps)
    ensures LogsOwed(After(steps).log) ==> LogsCarried(After(steps))
  {
    if steps != [] {
      var n := |steps| - 1;
      forall i | 0 <= i < n ensures !DropsLogs(After(steps[..n][..i]), steps[..n][i]) {
        assert steps[..n][..i] == steps[..i];
      }
      LogsAreKept(steps[..n]);
      RunSound(steps[..n]);
      if Enabled(After(steps[..n]), steps[n]) {
        DropIsTheOnlyLoss(After(steps[..n]), steps[n]);
      }
    }
  }

  /** Up to its first such step a run keeps the request, and that step loses it. */
  lemma {:induction false} FirstDropLosesLogs(steps: seq<Step>, step: Step)
    requires NeverDropsLogs(steps)
    requires DropsLogs(After(steps), step)
    ensures LogsOwed(After(steps + [step]).log) && !LogsCarried(After(steps + [step]))
  {
    assert (steps + [step])[..|steps|] == steps;
    LogsAreKept(steps);
    RunSound(steps);
    DropIsTheOnlyLoss(After(steps), step);
  }

  const SCRIPT: seq<Step> :=
    [Submit(0, 1, true, false), Cancel(0), Decide(0), Arm(0), Submit(0, 2, false, true), Cancel(0)]

  lemma ScriptStep(k: nat)
    requires k < |SCRIPT| && Enabled(After(SCRIPT[..k]), SCRIPT[k])
    ensures After(SCRIPT[..k + 1]) == Next(After(SCRIPT[..k]), SCRIPT[k])
  {
    assert SCRIPT[..k + 1] == SCRIPT[..k] + [SCRIPT[k]];
    AfterStep(SCRIPT[..k], SCRIPT[k]);
  }

  lemma ScriptRetries()
    ensures After(SCRIPT[..4])
            == State(Some(Record(1, false)), Some(Chain(true, false, false, 0)), map[], [Recorded(1, true, false)])
  {
    assert SCRIPT[..0] == [];
    ScriptStep(0);
    ScriptStep(1);
    ScriptStep(2);
    ScriptStep(3);
    assert After(SCRIPT[..4]).threads == map[];
  }

  /** The ball ends before the session has a uuid, so the upload waits for a retry;
      then a player joins and the upload is forgotten. */
  lemma LogsCanBeLost()
    ensures LogsOwed(After(SCRIPT).log) && !LogsCarried(After(SCRIPT))
  {
    ScriptRetries();
    ScriptStep(4);
    ScriptStep(5);
    assert SCRIPT[..6] == SCRIPT;
    var log := [Recorded(1, true, false), Recorded(2, false, true)];
    assert After(SCRIPT).log == log;
    assert log[..1] == [Recorded(1, true, false)];
  }
}
