/**
 HTTP request tasks and authentication (source/net.cpp).  What the server answers
 and what other threads do to the authentication status is free.
 */
module Requests {
  import opened Collections

  const NUM_RETRIES: nat := 3
  const MAX_TOKEN_RETRIES: nat := 10

  datatype Status = NotAuthenticated | Authenticating | CheckingPairing | Unpaired | Paired | Failed

  datatype Error = Success | ApiError | AuthFailed | NotPaired

  // --------------------------------------------------------- one request task

  /** What one round of a request meets: the status when it checks whether it may
      send, whether authentication has failed when it then asks, the reply, and the
      status when it handles a 401. */
  datatype Round = Round(status: Status, failedThen: bool, code: int, text: string, statusAt401: Status)

  datatype Sent = Sent(status: Status, code: int, text: string)

  predicate Is2xx(code: int) { 200 <= code < 300 }

  predicate CanReauthenticate(status: Status) {
    !status.NotAuthenticated? && !status.Authenticating? && !status.Failed?
  }

  /** Network errors and refused tokens. */
  predicate MayRetry(code: int) { code == 0 || code == 401 }

  /** In how many rounds a 401 came back while the status allowed authenticating anew. */
  function Reauthentications(rounds: seq<Round>): nat {
    if rounds == [] then 0
    else
      var r := rounds[|rounds| - 1];
      Reauthentications(rounds[..|rounds| - 1]) + if r.code == 401 && r.statusAt401 in {CheckingPairing, Unpaired, Paired} then 1 else 0
  }

  /** At most three requests are sent, each under an allowed status; only a network
      error or a 401 leads to another one; the one callback reports success exactly
      when the last request sent was answered with 2xx, and its reply text. */
  method RunRequest(rounds: seq<Round>, allowed: set<Status>)
    returns (error: Error, reply: string, sent: seq<Sent>, reauthentications: nat)
    requires |rounds| == NUM_RETRIES
    ensures |sent| <= 3
    ensures forall i :: 0 <= i < |sent| ==> sent[i] == Sent(rounds[i].status, rounds[i].code, rounds[i].text)
    ensures forall i :: 0 <= i < |sent| ==> sent[i].status in allowed
    ensures forall i :: 0 <= i < |sent| - 1 ==> MayRetry(sent[i].code)
    ensures error == Success <==> sent != [] && 200 <= sent[|sent| - 1].code < 300
    ensures error == AuthFailed || error == NotPaired <==>
              |sent| < NUM_RETRIES && (sent == [] || MayRetry(sent[|sent| - 1].code))
    ensures error == AuthFailed || error == NotPaired ==>
              rounds[|sent|].status !in allowed && (error == AuthFailed <==> rounds[|sent|].failedThen)
    ensures reply == if sent == [] then "" else sent[|sent| - 1].text
    ensures reauthentications == Reauthentications(rounds[..|sent|])
  {
    error, reply, sent, reauthentications := ApiError, "", [], 0;
    var i := 0;
    while i < NUM_RETRIES
      invariant 0 <= i == |sent| <= NUM_RETRIES
      invariant error == ApiError
      invariant forall k :: 0 <= k < i ==> sent[k] == Sent(rounds[k].status, rounds[k].code, rounds[k].text)
      invariant forall k :: 0 <= k < i ==> sent[k].status in allowed && MayRetry(sent[k].code)
      invariant reply == if sent == [] then "" else sent[i - 1].text
      invariant reauthentications == Reauthentications(rounds[..i])
    {
      var r := rounds[i];
      assert rounds[..i + 1][..i] == rounds[..i];
      if r.status !in allowed {
        error := if r.failedThen then AuthFailed else NotPaired;
        break;
      }
      sent := sent + [Sent(r.status, r.code, r.text)];
      reply := r.text;
      if Is2xx(r.code) {
        error := Success;
        break;
      }
      if r.code == 0 {
        i := i + 1;
        continue;
      }
      if r.code != 401 {
        break;
      }
      if !CanReauthenticate(r.statusAt401) {
        i := i + 1;
        continue;
      }
      reauthentications := reauthentications + 1;
      i := i + 1;
    }
  }

  // ---------------------------------------------------- one authentication run

  /** What one round of the token loop meets. */
  datatype TokenReply = TokenReply(signed: bool, stopped: bool, code: int, parses: bool, reprovisioned: bool)

  datatype Ending = Running | Authenticated | GaveUp

  datatype Tally = Tally(requests: nat, networkErrors: nat, ending: Ending)

  /** Does the token loop go round again after reply `r` in round `i`? */
  predicate Retries(r: TokenReply, i: nat) {
    && r.signed && !r.stopped
    && (|| r.code == 0
        || (r.code == 400 && i < MAX_TOKEN_RETRIES)
        || (r.code == 404 && r.reprovisioned && i < MAX_TOKEN_RETRIES))
  }

  /** The requests made and the network errors met from round `i` on. */
  function TokenLoop(replies: seq<TokenReply>, i: nat): Tally {
    if replies == [] then Tally(0, 0, Running)
    else
      var r := replies[0];
      if !r.signed then Tally(0, 0, GaveUp)
      else if Retries(r, i) then
        var rest := TokenLoop(replies[1..], i + 1);
        Tally(rest.requests + 1, rest.networkErrors + (if r.code == 0 then 1 else 0), rest.ending)
      else Tally(1, 0, if r.code == 200 && r.parses && !r.stopped then Authenticated else GaveUp)
  }

  /** The loop itself; it runs until it ends or the replies given run out. */
  method Authenticate(replies: seq<TokenReply>) returns (t: Tally)
    ensures t == TokenLoop(replies, 0)
  {
    var requests, errors := 0, 0;
    var i := 0;
    while i < |replies|
      invariant 0 <= i <= |replies|
      invariant var rest := TokenLoop(replies[i..], i);
                TokenLoop(replies, 0) == Tally(requests + rest.requests, errors + rest.networkErrors, rest.ending)
    {
      var r := replies[i];
      assert replies[i..][1..] == replies[i + 1..];
      if !r.signed {
        return Tally(requests, errors, GaveUp);
      }
      requests := requests + 1;
      if r.stopped {
        return Tally(requests, errors, GaveUp);
      }
      if r.code == 200 {
        return Tally(requests, errors, if r.parses then Authenticated else GaveUp);
      } else if r.code == 400 {
        if i < MAX_TOKEN_RETRIES {
          i := i + 1;
          continue;
        }
      } else if r.code == 404 && r.reprovisioned {
        if i < MAX_TOKEN_RETRIES {
          i := i + 1;
          continue;
        }
      } else if r.code == 0 {
        errors := errors + 1;
        i := i + 1;
        continue;
      }
      return Tally(requests, errors, GaveUp);
    }
    return Tally(requests, errors, Running);
  }

  /** A reply after which the loop goes round again. */
  predicate Again(r: TokenReply, i: nat) {
    r.signed && !r.stopped && (r.code == 0 || (i < 10 && (r.code == 400 || (r.code == 404 && r.reprovisioned))))
  }

  predicate GoodToken(r: TokenReply) { r.signed && !r.stopped && r.code == 200 && r.parses }

  /** What the ending says about the replies, counted from round `i`. */
  ghost predicate EndsAs(t: Tally, replies: seq<TokenReply>, i: nat) {
    && t.requests <= |replies|
    && (forall k :: 0 <= k < t.requests - 1 ==> Again(replies[k], i + k))
    && match t.ending
       case Running => t.requests == |replies| && (t.requests > 0 ==> Again(replies[t.requests - 1], i + t.requests - 1))
       case Authenticated => t.requests > 0 && GoodToken(replies[t.requests - 1])
       case GaveUp =>
         || (t.requests < |replies| && !replies[t.requests].signed
             && (t.requests > 0 ==> Again(replies[t.requests - 1], i + t.requests - 1)))
         || (t.requests > 0 && replies[t.requests - 1].signed
             && !Again(replies[t.requests - 1], i + t.requests - 1) && !GoodToken(replies[t.requests - 1]))
  }

  lemma {:induction false} EndsFrom(replies: seq<TokenReply>, i: nat)
    ensures EndsAs(TokenLoop(replies, i), replies, i)
  {
    if replies != [] && Retries(replies[0], i) {
      var rest := replies[1..];
      EndsFrom(rest, i + 1);
      var t, u := TokenLoop(replies, i), TokenLoop(rest, i + 1);
      forall k | 0 <= k < t.requests - 1 ensures Again(replies[k], i + k) {
        if k > 0 {
          assert replies[k] == rest[k - 1];
        }
      }
      assert u.requests > 0 ==> replies[t.requests - 1] == rest[u.requests - 1];
      assert u.requests < |rest| ==> replies[t.requests] == rest[u.requests];
    }
  }

  /** The token loop ends authenticated exactly when its last request got a readable
      token, gives up exactly on an answer it neither accepts nor retries (or without
      a signature), and retries exactly network errors and, ten times, the others. */
  lemma {:induction false} TokenLoopEnds(replies: seq<TokenReply>)
    ensures EndsAs(TokenLoop(replies, 0), replies, 0)
  {
    EndsFrom(replies, 0);
  }

  lemma {:induction false} TokenLoopBound(replies: seq<TokenReply>, i: nat)
    ensures TokenLoop(replies, i).requests <= TokenLoop(replies, i).networkErrors + Max(0, MAX_TOKEN_RETRIES - i) + 1
    ensures TokenLoop(replies, i).networkErrors <= TokenLoop(replies, i).requests <= |replies|
  {
    if replies != [] && Retries(replies[0], i) {
      TokenLoopBound(replies[1..], i + 1);
    }
  }

  /** A run that meets N network errors makes at most N + 11 token requests. */
  lemma {:induction false} TokenRequestsBounded(replies: seq<TokenReply>)
    ensures TokenLoop(replies, 0).requests <= TokenLoop(replies, 0).networkErrors + 11
  {
    TokenLoopBound(replies, 0);
  }

  function Rejections(n: nat): seq<TokenReply> {
    if n == 0 then [] else [TokenReply(true, false, 400, true, false)] + Rejections(n - 1)
  }

  function Outages(n: nat): seq<TokenReply> {
    if n == 0 then Rejections(1) else [TokenReply(true, false, 0, true, false)] + Outages(n - 1)
  }

  lemma {:induction false} OutagesFrom(n: nat, i: nat)
    requires i >= MAX_TOKEN_RETRIES
    ensures TokenLoop(Outages(n), i) == Tally(n + 1, n, GaveUp)
  {
    if n == 0 {
      assert Outages(0) == [TokenReply(true, false, 400, true, false)];
    } else {
      assert Outages(n)[1..] == Outages(n - 1);
      OutagesFrom(n - 1, i + 1);
    }
  }

  lemma {:induction false} RejectionsThen(k: nat, rest: seq<TokenReply>, i: nat)
    requires i + k <= MAX_TOKEN_RETRIES
    ensures var t := TokenLoop(rest, i + k);
            TokenLoop(Rejections(k) + rest, i) == Tally(k + t.requests, t.networkErrors, t.ending)
  {
    if k == 0 {
      assert Rejections(0) + rest == rest;
    } else {
      assert (Rejections(k) + rest)[1..] == Rejections(k - 1) + rest;
      RejectionsThen(k - 1, rest, i + 1);
    }
  }

  /** The bound is reached for every N: ten rejections, N outages, one more
      rejection. */
  lemma TokenBoundIsReached(n: nat)
    ensures TokenLoop(Rejections(10) + Outages(n), 0) == Tally(n + 11, n, GaveUp)
  {
    OutagesFrom(n, 10);
    RejectionsThen(10, Outages(n), 0);
  }

  // ---------------------------------------------- many tasks seeing a 401 at once

  /** Where a thread stands on its way through re-authentication. */
  datatype Pc =
    | Saw401     // about to look at the status under the lock
    | Elected    // has made the status NotAuthenticated
    | Ready      // about to read the refresh flag
    | Locking    // runs a normal authentication, waits for the lock
    | Entered    // inside normal authentication, holding the lock, about to set the refresh flag
    | Inside     // the same, the flag is set
    | Passed     // runs without the lock as a token refresh, about to set the refresh flag
    | Refreshing // the same, the flag is set

  /** How a run of the authentication ends. */
  datatype Exit =
    | NewToken(restartsTimer: bool)  // the timer is left alone if the token expires too soon
    | NoKey                          // no key to sign with: neither timer nor flag is touched
    | Refused                        // no signature, no readable token, or given up
    | ShutDown                       // the client is being stopped

  datatype State = State(
    status: Status,
    refreshing: bool,
    timerArmed: bool,   // the token refresh timer
    timerFired: nat,    // its expired handlers that have not run yet
    holder: Option<nat>,
    threads: map<nat, Pc>,
    // history
    elections: nat,     // tasks that made the status NotAuthenticated
    entries: nat)       // normal authentications begun

  /** The first authentication has been posted. */
  const START := State(NotAuthenticated, false, false, 0, None, map[0 := Ready], 0, 0)

  datatype Step =
    | See401(t: nat)
    | Elect(t: nat)
    | ResetRefresh(t: nat)
    | ReadRefresh(t: nat)
    | Lock(t: nat)
    | SetRefresh(t: nat)
    | Leave(t: nat, exit: Exit)
    | FireTimer
    | RefreshTimer(t: nat)
    | PairingKnown(paired: bool)

  predicate At(s: State, t: nat, pc: Pc) { t in s.threads && s.threads[t] == pc }

  predicate Enabled(s: State, step: Step) {
    match step
    case See401(t) => t !in s.threads
    case Elect(t) => At(s, t, Saw401) && s.holder.None?
    case ResetRefresh(t) => At(s, t, Elected)
    case ReadRefresh(t) => At(s, t, Ready)
    case Lock(t) => At(s, t, Locking) && s.holder.None?
    case SetRefresh(t) => At(s, t, Entered) || At(s, t, Passed)
    case Leave(t, _) => At(s, t, Inside) || At(s, t, Refreshing)
    case FireTimer => s.timerArmed
    case RefreshTimer(t) => s.timerFired > 0 && t !in s.threads
    case PairingKnown(_) => true
  }

  /** What an exit does to the refresh timer and flag. */
  function Exited(s: State, exit: Exit): State {
    match exit
    case NewToken(restartsTimer) => s.(timerArmed := s.timerArmed || restartsTimer)
    case NoKey => s
    case Refused => s.(timerArmed := false, refreshing := false)
    case ShutDown => s.(refreshing := false)
  }

  function Next(s: State, step: Step): State
    requires Enabled(s, step)
  {
    match step
    case See401(t) => s.(threads := s.threads[t := Saw401])
    case Elect(t) =>
      if CanReauthenticate(s.status)
      then s.(status := NotAuthenticated, threads := s.threads[t := Elected], elections := s.elections + 1)
      else s.(threads := s.threads - {t})
    case ResetRefresh(t) => s.(refreshing := false, timerArmed := false, threads := s.threads[t := Ready])
    case ReadRefresh(t) =>
      if s.refreshing then s.(threads := s.threads[t := Passed]) else s.(threads := s.threads[t := Locking])
    case Lock(t) =>
      if s.status.NotAuthenticated?
      then s.(status := Authenticating, holder := Some(t), threads := s.threads[t := Entered], entries := s.entries + 1)
      else s.(threads := s.threads - {t})
    case SetRefresh(t) =>
      s.(refreshing := true, threads := s.threads[t := if s.threads[t] == Entered then Inside else Refreshing])
    case Leave(t, exit) =>
      var normal := s.threads[t] == Inside;
      Exited(s, exit).(
        status := if !exit.NewToken? then Failed else if normal then CheckingPairing else s.status,
        holder := if normal then None else s.holder,
        threads := s.threads - {t})
    case FireTimer => s.(timerArmed := false, timerFired := s.timerFired + 1)
    case RefreshTimer(t) => s.(refreshing := true, timerFired := s.timerFired - 1, threads := s.threads[t := Ready])
    case PairingKnown(paired) => s.(status := if paired then Paired else Unpaired)
  }

  function After(steps: seq<Step>): State {
    if steps == [] then START
    else
      var s := After(steps[..|steps| - 1]);
      var step := steps[|steps| - 1];
      if Enabled(s, step) then Next(s, step) else s
  }

  /** Inside normal authentication. */
  predicate Authenticates(pc: Pc) { pc == Entered || pc == Inside }

  ghost predicate Exclusive(s: State) {
    && (s.holder.Some? ==> s.holder.value in s.threads)
    && forall t :: t in s.threads ==> (Authenticates(s.threads[t]) <==> s.holder == Some(t))
  }

  lemma NextExclusive(s: State, step: Step)
    requires Enabled(s, step) && Exclusive(s)
    ensures Exclusive(Next(s, step))
  {
  }

  lemma {:induction false} RunExclusive(steps: seq<Step>)
    ensures Exclusive(After(steps))
  {
    if steps != [] {
      var n := |steps| - 1;
      RunExclusive(steps[..n]);
      if Enabled(After(steps[..n]), steps[n]) {
        NextExclusive(After(steps[..n]), steps[n]);
      }
    }
  }

  /** Whatever the number of tasks that saw a 401, at most one thread is inside
      normal authentication. */
  lemma {:induction false} OneAuthenticationAtATime(steps: seq<Step>, t: nat, u: nat)
    requires t in After(steps).threads && Authenticates(After(steps).threads[t])
    requires u in After(steps).threads && Authenticates(After(steps).threads[u])
    ensures t == u
  {
    RunExclusive(steps);
  }

  lemma {:induction false} EntriesCounted(steps: seq<Step>)
    ensures var s := After(steps); s.entries + (if s.status.NotAuthenticated? then 1 else 0) <= s.elections + 1
  {
    if steps != [] {
      var n := |steps| - 1;
      EntriesCounted(steps[..n]);
      if Enabled(After(steps[..n]), steps[n]) {
        NextEntries(After(steps[..n]), steps[n]);
      }
    }
  }

  /** Each entry uses up the status that an election made. */
  lemma NextEntries(s: State, step: Step)
    requires Enabled(s, step)
    ensures var s' := Next(s, step);
            s'.entries + (if s'.status.NotAuthenticated? then 1 else 0) + s.elections
            <= s.entries + (if s.status.NotAuthenticated? then 1 else 0) + s'.elections
  {
  }

  /** Many 401s do not make many authentications: besides the first one, each was
      asked for by an election of its own. */
  lemma {:induction false} EveryAuthenticationWasAskedFor(steps: seq<Step>)
    ensures After(steps).entries <= After(steps).elections + 1
  {
    EntriesCounted(steps);
  }

  /** A task that saw a 401 is elected exactly if the client was authenticated; while
      it is not, or has failed, the task goes away and changes nothing. */
  lemma ElectionExactly(s: State, t: nat)
    requires Enabled(s, Elect(t))
    ensures var s' := Next(s, Elect(t));
            if s.status in {CheckingPairing, Unpaired, Paired}
            then s'.status == NotAuthenticated && At(s', t, Elected) && s'.elections == s.elections + 1
            else s' == s.(threads := s.threads - {t})
  {
  }

  /** An elected task stops the refresh timer and clears the flag; unless the flag is set
      again before it reads it, it waits for the lock and authenticates. */
  lemma ElectedAuthenticates(s: State, t: nat)
    requires At(s, t, Elected) && s.status.NotAuthenticated? && s.holder.None?
    ensures var ready := Next(s, ResetRefresh(t));
            && !ready.timerArmed && !ready.refreshing && At(ready, t, Ready)
            && var waiting := Next(ready, ReadRefresh(t));
               var inside := Next(waiting, Lock(t));
               inside.holder == Some(t) && inside.status == Authenticating && inside.entries == s.entries + 1
  {
  }

  /** A normal authentication ends with the pairing to be checked, a token refresh
      leaves the status alone, and every failure of either fails the client. */
  lemma AuthenticationEnds(s: State, t: nat, exit: Exit)
    requires Exclusive(s) && Enabled(s, Leave(t, exit))
    ensures var s' := Next(s, Leave(t, exit));
            && s'.status == (if !exit.NewToken? then Failed
                             else if s.holder == Some(t) then CheckingPairing else s.status)
            && s'.holder == (if s.holder == Some(t) then None else s.holder)
            && s'.timerArmed == (exit == NewToken(true) || (exit != Refused && s.timerArmed))
            && s'.refreshing == (exit != Refused && exit != ShutDown && s.refreshing)
            && t !in s'.threads
  {
  }

  // ------------------------------------------------------- is it ever forgotten?

  /** The thread is on its way into a normal authentication. */
  predicate OnTheWay(pc: Pc) { pc == Elected || pc == Ready || pc == Locking }

  ghost predicate SomeoneOnTheWay(s: State) {
    exists t :: t in s.threads && OnTheWay(s.threads[t])
  }

  /** An unauthenticated client is about to be authenticated. */
  ghost predicate Recovering(s: State) {
    s.status.NotAuthenticated? ==> SomeoneOnTheWay(s)
  }

  /** The last thread on its way finds the refresh flag set and takes itself for a
      token refresh, which leaves the status alone. */
  ghost predicate MistakenForRefresh(s: State, step: Step) {
    && step.ReadRefresh? && Enabled(s, step)
    && s.refreshing
    && s.status.NotAuthenticated?
    && forall t :: t in s.threads && OnTheWay(s.threads[t]) ==> t == step.t
  }

  lemma MistakeIsTheOnlyLoss(s: State, step: Step)
    requires Enabled(s, step) && Recovering(s)
    ensures Recovering(Next(s, step)) <==> !MistakenForRefresh(s, step)
  {
    var s' := Next(s, step);
    if !MistakenForRefresh(s, step) {
      if step.ReadRefresh? && s.refreshing && s.status.NotAuthenticated? {
        var t :| t in s.threads && OnTheWay(s.threads[t]) && t != step.t;
        assert t in s'.threads && OnTheWay(s'.threads[t]);
      } else if step.Elect? && CanReauthenticate(s.status) {
        assert step.t in s'.threads && OnTheWay(s'.threads[step.t]);
      } else if SomeoneOnTheWay(s) {
        var t :| t in s.threads && OnTheWay(s.threads[t]);
        assert s'.status.NotAuthenticated? ==> t in s'.threads && OnTheWay(s'.threads[t]);
      }
    }
  }

  /** In every run without such a mistake, a client that is not authenticated has a
      thread on its way to authenticate it. */
  lemma {:induction false} NeverForgotten(steps: seq<Step>)
    requires forall i :: 0 <= i < |steps| ==> !MistakenForRefresh(After(steps[..i]), steps[i])
    ensures Recovering(After(steps))
  {
    if steps == [] {
      assert 0 in START.threads && OnTheWay(START.threads[0]);
    } else {
      var n := |steps| - 1;
      forall i | 0 <= i < n ensures !MistakenForRefresh(After(steps[..n][..i]), steps[..n][i]) {
        assert steps[..n][..i] == steps[..i];
      }
      NeverForgotten(steps[..n]);
      if Enabled(After(steps[..n]), steps[n]) {
        MistakeIsTheOnlyLoss(After(steps[..n]), steps[n]);
      }
    }
  }

  /** The first such mistake leaves the client unauthenticated with nobody to see to
      it, while every request waits for an authentication. */
  lemma {:induction false} FirstMistakeForgets(steps: seq<Step>, step: Step)
    requires forall i :: 0 <= i < |steps| ==> !MistakenForRefresh(After(steps[..i]), steps[i])
    requires MistakenForRefresh(After(steps), step)
    ensures var s := After(steps + [step]); s.status.NotAuthenticated? && !SomeoneOnTheWay(s)
  {
    assert (steps + [step])[..|steps|] == steps;
    NeverForgotten(steps);
    MistakeIsTheOnlyLoss(After(steps), step);
  }

  const SCRIPT: seq<Step> :=
    [ReadRefresh(0), Lock(0), SetRefresh(0), Leave(0, NewToken(true)), PairingKnown(true), See401(1), FireTimer,
     Elect(1), ResetRefresh(1), RefreshTimer(2), ReadRefresh(1), ReadRefresh(2)]

  lemma ScriptStep(k: nat)
    requires k < |SCRIPT| && Enabled(After(SCRIPT[..k]), SCRIPT[k])
    ensures After(SCRIPT[..k + 1]) == Next(After(SCRIPT[..k]), SCRIPT[k])
  {
    assert SCRIPT[..k + 1][..k] == SCRIPT[..k];
  }

  lemma ScriptAuthenticates()
    ensures After(SCRIPT[..3]) == State(Authenticating, true, false, 0, Some(0), map[0 := Inside], 0, 1)
  {
    assert SCRIPT[..0] == [];
    ScriptStep(0);
    ScriptStep(1);
    ScriptStep(2);
  }

  lemma ScriptPairs()
    ensures After(SCRIPT[..5]) == State(Paired, true, true, 0, None, map[], 0, 1)
  {
    ScriptAuthenticates();
    ScriptStep(3);
    ScriptStep(4);
    assert After(SCRIPT[..5]).threads == map[];
  }

  lemma ScriptSees401()
    ensures After(SCRIPT[..7]) == State(Paired, true, false, 1, None, map[1 := Saw401], 0, 1)
  {
    ScriptPairs();
    ScriptStep(5);
    ScriptStep(6);
  }

  lemma ScriptElects()
    ensures After(SCRIPT[..9]) == State(NotAuthenticated, false, false, 1, None, map[1 := Ready], 1, 1)
  {
    ScriptSees401();
    ScriptStep(7);
    ScriptStep(8);
  }

  lemma ScriptRefreshes()
    ensures After(SCRIPT[..10]) == State(NotAuthenticated, true, false, 0, None, map[1 := Ready, 2 := Ready], 1, 1)
  {
    ScriptElects();
    ScriptStep(9);
  }

  /** A refresh timer that expires just as a request sees a 401 makes the
      re-authentication a mere token refresh. */
  lemma ReauthenticationCanBeForgotten()
    ensures var s := After(SCRIPT); s.status.NotAuthenticated? && !SomeoneOnTheWay(s)
  {
    ScriptRefreshes();
    ScriptStep(10);
    ScriptStep(11);
    assert SCRIPT[..12] == SCRIPT;
  }
}
