/**
 The supervisor of the realtime client (source/net.cpp): one active client,
 retired clients kept for a grace period, and one reconnect timer slot.

 A client has the number it was made with and the address it lives at.  The code
 compares addresses only, and the address of a destroyed client may be used
 again.  Callbacks, even of clients destroyed long ago, the loss of connections
 and their codes, and requests to restart come at any time.
 */
module RealtimeClient {
  import opened Collections

  /** Times are in milliseconds. */
  const GRACE_PERIOD: int := 30_000

  datatype Client = Client(number: nat, address: nat)

  datatype Retired = Retired(at: int, client: Client)

  /** What the reconnect timer will do. */
  datatype Handler =
    | Rebuild            // after a requested restart: only if no client is active
    | Replace(client: Client)  // after a lost connection: only if this client is still active

  datatype State = State(
    now: int,
    active: Option<Client>,
    retired: seq<Retired>,
    timer: Option<Handler>,
    fired: multiset<Handler>,  // expired handlers that have not run yet
    restartPending: bool,
    stopped: bool,
    made: nat)

  const START := State(0, Some(Client(0, 0)), [], None, multiset{}, false, false, 1)

  // ----------------------------------------------------- what the pieces do

  function PopExpired(retired: seq<Retired>, cutoff: int): seq<Retired> {
    if retired != [] && retired[0].at <= cutoff then PopExpired(retired[1..], cutoff) else retired
  }

  function Pruned(s: State): State {
    s.(retired := PopExpired(s.retired, s.now - GRACE_PERIOD))
  }

  function ClientRetired(s: State): State {
    if s.active.None? then s
    else
      var p := Pruned(s);
      p.(retired := p.retired + [Retired(s.now, s.active.value)], active := None)
  }

  /** A fresh client is made active; whatever was active before is destroyed. */
  function SetUp(s: State, address: nat): State {
    Pruned(s).(active := Some(Client(s.made, address)), made := s.made + 1)
  }

  /** Is this the active client, judged by its address? */
  predicate IsActive(s: State, client: Client) {
    s.active.Some? && s.active.value.address == client.address
  }

  function Restarted(s: State, disconnected: bool, address: nat): State {
    var t := s.(timer := None);
    if s.active.None? then SetUp(t.(restartPending := false), address)
    else if disconnected then SetUp(ClientRetired(t.(restartPending := false)), address)
    else t.(restartPending := true)
  }

  predicate MustReplace(code: int) { code == 3500 || code == 3501 || code == 3502 }

  function Disconnected(s: State, client: Client, code: int): State {
    if !IsActive(s, client) || s.stopped then s
    else if s.restartPending then ClientRetired(s.(restartPending := false)).(timer := Some(Rebuild))
    else if MustReplace(code) then s.(timer := Some(Replace(client)))
    else s
  }

  function Connected(s: State, client: Client): State {
    if !IsActive(s, client) || s.stopped then s else Pruned(s)
  }

  function HandlerRun(s: State, h: Handler, address: nat): State {
    match h
    case Rebuild => if s.stopped || s.active.Some? then s else SetUp(s, address)
    case Replace(client) => if IsActive(s, client) then SetUp(s, address) else s
  }

  // --------------------------------------------------------------- the object

  class Supervisor {
    var now: int
    var active: Option<Client>
    var retired: seq<Retired>
    var timer: Option<Handler>
    var fired: multiset<Handler>
    var restartPending: bool
    var stopped: bool
    var made: nat

    function View(): State reads this {
      State(now, active, retired, timer, fired, restartPending, stopped, made)
    }

    constructor ()
      ensures View() == START
    {
      now, active, retired, timer := 0, Some(Client(0, 0)), [], None;
      fired, restartPending, stopped, made := multiset{}, false, false, 1;
    }

    method PruneRetiredClients()
      modifies this`retired
      ensures View() == Pruned(old(View()))
    {
      var cutoff := now - GRACE_PERIOD;
      while |retired| > 0 && retired[0].at <= cutoff
        invariant PopExpired(retired, cutoff) == PopExpired(old(retired), cutoff)
        decreases |retired|
      {
        retired := retired[1..];
      }
    }

    method RetireClient()
      modifies this`retired, this`active
      ensures View() == ClientRetired(old(View()))
    {
      if active.None? {
        return;
      }
      PruneRetiredClients();
      retired := retired + [Retired(now, active.value)];
      active := None;
    }

    /** The new client lives at `address`. */
    method SetUpAndConnect(address: nat)
      modifies this`retired, this`active, this`made
      ensures View() == SetUp(old(View()), address)
    {
      PruneRetiredClients();
      active := Some(Client(made, address));
      made := made + 1;
    }

    method Restart(disconnected: bool, address: nat)
      modifies this
      ensures View() == Restarted(old(View()), disconnected, address)
    {
      timer := None;
      if active.None? {
        restartPending := false;
        SetUpAndConnect(address);
        return;
      }
      if disconnected {
        restartPending := false;
        RetireClient();
        SetUpAndConnect(address);
        return;
      }
      restartPending := true;
    }

    method OnDisconnected(client: Client, code: int)
      modifies this
      ensures View() == Disconnected(old(View()), client, code)
    {
      if active.None? || active.value.address != client.address {
        return;
      }
      if stopped {
        return;
      }
      if restartPending {
        restartPending := false;
        RetireClient();
        timer := Some(Rebuild);
        return;
      }
      if MustReplace(code) {
        timer := Some(Replace(client));
      }
    }
  }

  // --------------------------------------------------------------------- runs

  datatype Step =
    | Wait(duration: nat)
    | Restart(disconnected: bool, address: nat)
    | OnDisconnected(client: Client, code: int)
    | OnConnected(client: Client)
    | Fire
    | RunHandler(handler: Handler, address: nat)
    | Stop

  /** No client that is still there when a new one is made lives at this address. */
  predicate Free(s: State, address: nat) {
    var kept := PopExpired(s.retired, s.now - GRACE_PERIOD);
    && (s.active.Some? ==> s.active.value.address != address)
    && forall i :: 0 <= i < |kept| ==> kept[i].client.address != address
  }

  predicate Enabled(s: State, step: Step) {
    match step
    case Restart(_, address) => Free(s, address)
    case Fire => s.timer.Some?
    case RunHandler(h, address) => h in s.fired && Free(s, address)
    case _ => true
  }

  function Next(s: State, step: Step): State
    requires Enabled(s, step)
  {
    match step
    case Wait(d) => s.(now := s.now + d)
    case Restart(disconnected, address) => Restarted(s, disconnected, address)
    case OnDisconnected(client, code) => Disconnected(s, client, code)
    case OnConnected(client) => Connected(s, client)
    case Fire => s.(timer := None, fired := s.fired + multiset{s.timer.value})
    case RunHandler(h, address) => HandlerRun(s.(fired := s.fired - multiset{h}), h, address)
    case Stop => s.(stopped := true)
  }

  function From(s: State, steps: seq<Step>): State {
    if steps == [] then s
    else
      var r := From(s, steps[..|steps| - 1]);
      var step := steps[|steps| - 1];
      if Enabled(r, step) then Next(r, step) else r
  }

  // --------------------------------------------------------------- invariants

  ghost predicate Supervised(s: State) {
    && (!s.stopped ==> s.active.Some? || s.timer == Some(Rebuild) || Rebuild in s.fired)
    && (s.restartPending ==> s.active.Some?)
  }

  /** Two clients that are there at the same time share neither number nor address. */
  predicate Apart(a: Client, b: Client) { a.number != b.number && a.address != b.address }

  /** Retirement times do not decrease, and the clients that are there are apart. */
  ghost predicate Ordered(s: State) {
    && (forall i, j :: 0 <= i < j < |s.retired| ==>
          s.retired[i].at <= s.retired[j].at && Apart(s.retired[i].client, s.retired[j].client))
    && (forall i :: 0 <= i < |s.retired| ==>
          && s.retired[i].at <= s.now
          && s.retired[i].client.number < s.made
          && (s.active.Some? ==> Apart(s.active.value, s.retired[i].client)))
    && (s.active.Some? ==> s.active.value.number < s.made)
  }

  ghost predicate Sound(s: State) { Supervised(s) && Ordered(s) }

  lemma {:induction false} PopExpiredIsSuffix(retired: seq<Retired>, cutoff: int)
    ensures |PopExpired(retired, cutoff)| <= |retired|
    ensures PopExpired(retired, cutoff) == retired[|retired| - |PopExpired(retired, cutoff)|..]
    ensures PopExpired(retired, cutoff) != [] ==> PopExpired(retired, cutoff)[0].at > cutoff
    ensures forall i :: 0 <= i < |retired| - |PopExpired(retired, cutoff)| ==> retired[i].at <= cutoff
  {
    if retired != [] && retired[0].at <= cutoff {
      PopExpiredIsSuffix(retired[1..], cutoff);
    }
  }

  lemma PrunedOrdered(s: State)
    requires Ordered(s)
    ensures Ordered(Pruned(s))
  {
    PopExpiredIsSuffix(s.retired, s.now - GRACE_PERIOD);
  }

  lemma ClientRetiredOrdered(s: State)
    requires Ordered(s)
    ensures Ordered(ClientRetired(s))
  {
    PopExpiredIsSuffix(s.retired, s.now - GRACE_PERIOD);
  }

  lemma SetUpOrdered(s: State, address: nat)
    requires Ordered(s) && Free(s, address)
    ensures Ordered(SetUp(s, address))
  {
    PopExpiredIsSuffix(s.retired, s.now - GRACE_PERIOD);
  }

  /** After the active client was retired, an address that was free still is. */
  lemma StillFree(s: State, address: nat)
    requires s.active.Some? && Free(s, address)
    ensures Free(ClientRetired(s), address)
  {
    RetireKeepsRetired(s);
  }

  /** Pruning once more changes nothing. */
  lemma RetireKeepsRetired(s: State)
    requires s.active.Some?
    ensures var kept := PopExpired(s.retired, s.now - GRACE_PERIOD) + [Retired(s.now, s.active.value)];
            && ClientRetired(s).retired == kept
            && PopExpired(kept, s.now - GRACE_PERIOD) == kept
  {
    var kept := PopExpired(s.retired, s.now - GRACE_PERIOD);
    PopExpiredIsSuffix(s.retired, s.now - GRACE_PERIOD);
    assert kept != [] ==> (kept + [Retired(s.now, s.active.value)])[0] == kept[0];
  }

  lemma RestartedOrdered(s: State, disconnected: bool, address: nat)
    requires Ordered(s) && Free(s, address)
    ensures Ordered(Restarted(s, disconnected, address))
  {
    var t := s.(timer := None, restartPending := false);
    if s.active.None? {
      SetUpOrdered(t, address);
    } else if disconnected {
      ClientRetiredOrdered(t);
      StillFree(t, address);
      SetUpOrdered(ClientRetired(t), address);
    }
  }

  lemma DisconnectedOrdered(s: State, client: Client, code: int)
    requires Ordered(s)
    ensures Ordered(Disconnected(s, client, code))
  {
    ClientRetiredOrdered(s.(restartPending := false));
  }

  lemma HandlerRunOrdered(s: State, h: Handler, address: nat)
    requires Ordered(s) && Free(s, address)
    ensures Ordered(HandlerRun(s, h, address))
  {
    SetUpOrdered(s, address);
  }

  lemma NextOrdered(s: State, step: Step)
    requires Enabled(s, step) && Ordered(s)
    ensures Ordered(Next(s, step))
  {
    match step
    case Restart(disconnected, address) => RestartedOrdered(s, disconnected, address);
    case OnDisconnected(client, code) => DisconnectedOrdered(s, client, code);
    case OnConnected(_) => PrunedOrdered(s);
    case RunHandler(h, address) => HandlerRunOrdered(s.(fired := s.fired - multiset{h}), h, address);
    case _ =>
  }

  lemma NextSupervised(s: State, step: Step)
    requires Enabled(s, step) && Supervised(s)
    ensures Supervised(Next(s, step))
  {
  }

  lemma {:induction false} RunSound(steps: seq<Step>)
    ensures Sound(From(START, steps))
  {
    if steps != [] {
      var n := |steps| - 1;
      RunSound(steps[..n]);
      if Enabled(From(START, steps[..n]), steps[n]) {
        NextOrdered(From(START, steps[..n]), steps[n]);
        NextSupervised(From(START, steps[..n]), steps[n]);
      }
    }
  }

  // ----------------------------------------------------------------- theorems

  /** In every reachable state before `Stop`, a client is active or the rebuild
      that will make one is armed or about to run; and a pending restart always
      has an active client to wait for. */
  lemma {:induction false} AlwaysSupervised(steps: seq<Step>)
    ensures var s := From(START, steps);
            && (!s.stopped ==> s.active.Some? || s.timer == Some(Rebuild) || Rebuild in s.fired)
            && (s.restartPending ==> s.active.Some?)
  {
    RunSound(steps);
  }

  function Unexpired(retired: seq<Retired>, cutoff: int): seq<Retired> {
    if retired == [] then []
    else (if retired[0].at > cutoff then [retired[0]] else []) + Unexpired(retired[1..], cutoff)
  }

  lemma {:induction false} SortedPopIsFilter(retired: seq<Retired>, cutoff: int)
    requires forall i, j :: 0 <= i < j < |retired| ==> retired[i].at <= retired[j].at
    ensures PopExpired(retired, cutoff) == Unexpired(retired, cutoff)
  {
    if retired != [] {
      if retired[0].at <= cutoff {
        SortedPopIsFilter(retired[1..], cutoff);
      } else {
        AllUnexpired(retired, cutoff);
      }
    }
  }

  lemma {:induction false} AllUnexpired(retired: seq<Retired>, cutoff: int)
    requires forall i :: 0 <= i < |retired| ==> retired[i].at > cutoff
    ensures Unexpired(retired, cutoff) == retired
  {
    if retired != [] {
      AllUnexpired(retired[1..], cutoff);
    }
  }

  /** In every reachable state, popping expired clients from the front removes all
      clients retired at least the grace period ago and no other. */
  lemma {:induction false} PruneIsFilter(steps: seq<Step>)
    ensures var s := From(START, steps);
            Pruned(s).retired == Unexpired(s.retired, s.now - GRACE_PERIOD)
  {
    RunSound(steps);
    OrderedPruneIsFilter(From(START, steps));
  }

  lemma OrderedPruneIsFilter(s: State)
    requires Ordered(s)
    ensures Pruned(s).retired == Unexpired(s.retired, s.now - GRACE_PERIOD)
  {
    SortedPopIsFilter(s.retired, s.now - GRACE_PERIOD);
  }

  // ------------------------------------------------------ who is who, and for how long

  ghost predicate InGrace(s: State, client: Client) {
    exists i :: 0 <= i < |s.retired| && s.retired[i].client == client
  }

  /** The client has not been destroyed. */
  ghost predicate Alive(s: State, client: Client) {
    s.active == Some(client) || InGrace(s, client)
  }

  /** In every reachable state comparing addresses tells exactly whether a client
      that is still there is the active one; so a retired client's callbacks
      change nothing. */
  lemma {:induction false} AddressTellsLiveClients(steps: seq<Step>, client: Client, code: int)
    requires Alive(From(START, steps), client)
    ensures var s := From(START, steps);
            && (IsActive(s, client) <==> s.active == Some(client))
            && (s.active != Some(client) ==> Disconnected(s, client, code) == s && Connected(s, client) == s)
  {
    RunSound(steps);
  }

  ghost predicate Gone(s: State, number: nat) {
    number < s.made && (s.active.Some? ==> s.active.value.number != number)
  }

  lemma NextStaysGone(s: State, step: Step, number: nat)
    requires Enabled(s, step) && Gone(s, number)
    ensures Gone(Next(s, step), number)
  {
  }

  lemma {:induction false} StaysGone(s: State, steps: seq<Step>, number: nat)
    requires Gone(s, number)
    ensures Gone(From(s, steps), number)
  {
    if steps != [] {
      var n := |steps| - 1;
      StaysGone(s, steps[..n], number);
      if Enabled(From(s, steps[..n]), steps[n]) {
        NextStaysGone(From(s, steps[..n]), steps[n], number);
      }
    }
  }

  lemma FromNext(s: State, steps: seq<Step>, step: Step)
    requires Enabled(From(s, steps), step)
    ensures From(s, steps + [step]) == Next(From(s, steps), step)
  {
    assert (steps + [step])[..|steps|] == steps;
  }

  lemma {:induction false} FromTwoParts(s: State, steps: seq<Step>, more: seq<Step>)
    ensures From(s, steps + more) == From(From(s, steps), more)
  {
    if more == [] {
      assert steps + more == steps;
    } else {
      var n := |more| - 1;
      FromTwoParts(s, steps, more[..n]);
      assert (steps + more)[..|steps + more| - 1] == steps + more[..n];
    }
  }

  /** A client that is no longer active never is again, whatever happens.  Its
      callbacks are taken for those of the active client if and only if the active
      client lives at its address, which needs that it has been destroyed. */
  lemma {:induction false} GoneForGood(steps: seq<Step>, more: seq<Step>, client: Client, code: int)
    requires Gone(From(START, steps), client.number)
    ensures var r := From(START, steps + more);
            && r.active != Some(client)
            && (IsActive(r, client) ==> !Alive(r, client))
            && (!IsActive(r, client) ==> Disconnected(r, client, code) == r && Connected(r, client) == r)
  {
    var r := From(START, steps + more);
    FromTwoParts(START, steps, more);
    StaysGone(From(START, steps), more, client.number);
    if Alive(r, client) {
      AddressTellsLiveClients(steps + more, client, code);
    }
  }

  /** The retired clients after a step are the old ones or the unexpired ones,
      possibly with one more. */
  lemma RetiredAfter(s: State, step: Step)
    requires Enabled(s, step)
    ensures var s' := Next(s, step);
            s.retired <= s'.retired || PopExpired(s.retired, s.now - GRACE_PERIOD) <= s'.retired
  {
    if s.active.Some? {
      RetireKeepsRetired(s);
      if step.Restart? && step.disconnected {
        RetireKeepsRetired(s.(timer := None, restartPending := false));
      }
    }
  }

  lemma RetiredSurvives(s: State, step: Step, r: Retired)
    requires Enabled(s, step)
    requires r in s.retired && s.now < r.at + GRACE_PERIOD
    ensures r in Next(s, step).retired
  {
    var kept := PopExpired(s.retired, s.now - GRACE_PERIOD);
    UnexpiredIsKept(s.retired, s.now - GRACE_PERIOD, r);
    RetiredAfter(s, step);
    PrefixHas(s.retired, Next(s, step).retired, r);
    PrefixHas(kept, Next(s, step).retired, r);
  }

  lemma UnexpiredIsKept(retired: seq<Retired>, cutoff: int, r: Retired)
    requires r in retired && r.at > cutoff
    ensures r in PopExpired(retired, cutoff)
  {
    var kept := PopExpired(retired, cutoff);
    PopExpiredIsSuffix(retired, cutoff);
    var i :| 0 <= i < |retired| && retired[i] == r;
    assert kept[i - (|retired| - |kept|)] == r;
  }

  lemma PrefixHas(a: seq<Retired>, b: seq<Retired>, r: Retired)
    requires r in a
    ensures a <= b ==> r in b
  {
    if a <= b {
      var i :| 0 <= i < |a| && a[i] == r;
      assert b[i] == r;
    }
  }

  lemma NowAfter(s: State, step: Step)
    requires Enabled(s, step)
    ensures s.now <= Next(s, step).now
  {
  }

  /** A retired client is kept, whatever happens, for the whole grace period. */
  lemma {:induction false} RetiredOutlivesItsGrace(s: State, steps: seq<Step>, r: Retired)
    requires r in s.retired && From(s, steps).now < r.at + GRACE_PERIOD
    ensures r in From(s, steps).retired
  {
    if steps != [] {
      var n := |steps| - 1;
      var t := From(s, steps[..n]);
      if Enabled(t, steps[n]) {
        NowAfter(t, steps[n]);
        RetiredOutlivesItsGrace(s, steps[..n], r);
        RetiredSurvives(t, steps[n], r);
      } else {
        RetiredOutlivesItsGrace(s, steps[..n], r);
      }
    }
  }

  /** The step runs a handler that replaces whatever client lives at this address. */
  predicate Replaces(step: Step, client: Client) {
    step.RunHandler? && step.handler.Replace? && step.handler.client.address == client.address
  }

  lemma ActiveServed(s: State, step: Step, client: Client)
    requires Enabled(s, step) && s.active == Some(client) && !Replaces(step, client)
    ensures var s' := Next(s, step); s'.active == Some(client) || (Retired(s.now, client) in s'.retired && s'.now == s.now)
  {
    var s' := Next(s, step);
    RetireKeepsRetired(s);
    if step.Restart? && step.disconnected {
      RetireKeepsRetired(s.(timer := None, restartPending := false));
      assert s'.retired[|s'.retired| - 1] == Retired(s.now, client);
    } else if s'.active != s.active {
      assert step.OnDisconnected? && s.restartPending;
      RetireKeepsRetired(s.(restartPending := false));
      assert s'.retired[|s'.retired| - 1] == Retired(s.now, client);
    }
  }

  /** The one way to die without grace: a handler armed by a connection lost with a
      code that demands replacement destroys the client at its address at once. */
  lemma {:induction false} ReplacementDestroys(steps: seq<Step>, step: Step, client: Client)
    requires var s := From(START, steps);
             Enabled(s, step) && s.active == Some(client) && Replaces(step, client)
    ensures !Alive(Next(From(START, steps), step), client)
  {
    RunSound(steps);
    ReplacementLeaves(From(START, steps), step, client);
  }

  lemma ReplacementLeaves(s: State, step: Step, client: Client)
    requires Enabled(s, step) && s.active == Some(client) && Replaces(step, client) && Ordered(s)
    ensures !Alive(Next(s, step), client)
  {
    PopExpiredIsSuffix(s.retired, s.now - GRACE_PERIOD);
  }

  /** Step `k` of the run is a handler that replaces the active client. */
  ghost predicate ReplacedAt(s: State, steps: seq<Step>, client: Client, k: nat) {
    && k < |steps|
    && From(s, steps[..k]).active == Some(client)
    && Enabled(From(s, steps[..k]), steps[k])
    && Replaces(steps[k], client)
  }

  /** Step `k` of the run retires the active client. */
  ghost predicate Retires(s: State, steps: seq<Step>, client: Client, k: nat) {
    && k < |steps|
    && From(s, steps[..k]).active == Some(client)
    && Retired(From(s, steps[..k]).now, client) in From(s, steps[..k + 1]).retired
  }

  /** Step `k` retires the client, and at the end of the run it is still kept
      unless the grace period has passed since then. */
  ghost predicate RetiredAt(s: State, steps: seq<Step>, client: Client, k: nat) {
    && Retires(s, steps, client, k)
    && var at := From(s, steps[..k]).now;
       From(s, steps).now < at + GRACE_PERIOD ==> Retired(at, client) in From(s, steps).retired
  }

  ghost predicate ActiveOrRetired(s: State, steps: seq<Step>, client: Client) {
    From(s, steps).active == Some(client) || exists k: nat :: RetiredAt(s, steps, client, k)
  }

  lemma SplitRun(s: State, steps: seq<Step>, k: nat)
    requires k <= |steps|
    ensures From(s, steps) == From(From(s, steps[..k]), steps[k..])
  {
    assert steps == steps[..k] + steps[k..];
    FromTwoParts(s, steps[..k], steps[k..]);
  }

  lemma RetiredIsKept(s: State, steps: seq<Step>, client: Client, k: nat)
    requires Retires(s, steps, client, k)
    ensures RetiredAt(s, steps, client, k)
  {
    var at := From(s, steps[..k]).now;
    SplitRun(s, steps, k + 1);
    if From(s, steps).now < at + GRACE_PERIOD {
      RetiredOutlivesItsGrace(From(s, steps[..k + 1]), steps[k + 1..], Retired(at, client));
    }
  }

  lemma RetiresInFront(s: State, steps: seq<Step>, client: Client, k: nat)
    requires steps != [] && Retires(s, steps[..|steps| - 1], client, k)
    ensures Retires(s, steps, client, k)
  {
    var front := steps[..|steps| - 1];
    assert front[..k] == steps[..k] && front[..k + 1] == steps[..k + 1];
  }

  lemma {:induction false} NotReplacedIsServed(s: State, steps: seq<Step>, client: Client)
    requires s.active == Some(client)
    requires forall k: nat :: !ReplacedAt(s, steps, client, k)
    ensures ActiveOrRetired(s, steps, client)
  {
    if steps != [] {
      var n := |steps| - 1;
      var front := steps[..n];
      forall k: nat ensures !ReplacedAt(s, front, client, k) {
        if k < n {
          assert front[..k] == steps[..k];
          assert !ReplacedAt(s, steps, client, k);
        }
      }
      NotReplacedIsServed(s, front, client);
      if From(s, front).active == Some(client) {
        LastStepServes(s, steps, client);
      } else {
        var k: nat :| RetiredAt(s, front, client, k);
        RetiresInFront(s, steps, client, k);
        RetiredIsKept(s, steps, client, k);
      }
    }
  }

  lemma LastStepServes(s: State, steps: seq<Step>, client: Client)
    requires steps != [] && From(s, steps[..|steps| - 1]).active == Some(client)
    requires !ReplacedAt(s, steps, client, |steps| - 1)
    ensures ActiveOrRetired(s, steps, client)
  {
    var n := |steps| - 1;
    var t := From(s, steps[..n]);
    if Enabled(t, steps[n]) {
      ActiveServed(t, steps[n], client);
      assert steps[..n + 1] == steps;
      if From(s, steps).active != Some(client) {
        RetiredIsKept(s, steps, client, n);
      }
    }
  }

  lemma StaysGoneBetween(s: State, steps: seq<Step>, i: nat, j: nat, number: nat)
    requires i <= j <= |steps| && Gone(From(s, steps[..i]), number)
    ensures Gone(From(s, steps[..j]), number)
  {
    SplitRun(s, steps[..j], i);
    assert steps[..j][..i] == steps[..i];
    StaysGone(From(s, steps[..i]), steps[..j][i..], number);
  }

  lemma SoundAlong(pre: seq<Step>, steps: seq<Step>)
    ensures Sound(From(From(START, pre), steps))
  {
    FromTwoParts(START, pre, steps);
    RunSound(pre + steps);
  }

  lemma RetiredIsGone(s: State, r: Retired)
    requires Ordered(s) && r in s.retired
    ensures Gone(s, r.client.number)
  {
  }

  lemma ReplacedIsGone(s: State, step: Step, client: Client)
    requires Ordered(s) && Enabled(s, step) && s.active == Some(client) && Replaces(step, client)
    ensures Gone(Next(s, step), client.number) && !Alive(Next(s, step), client)
  {
    ReplacementLeaves(s, step, client);
  }

  lemma ReplacedIsNotServed(pre: seq<Step>, steps: seq<Step>, client: Client, k: nat)
    requires var s := From(START, pre); ReplacedAt(s, steps, client, k)
    ensures !ActiveOrRetired(From(START, pre), steps, client)
  {
    var s := From(START, pre);
    SoundAlong(pre, steps[..k]);
    ReplacedIsGone(From(s, steps[..k]), steps[k], client);
    assert steps[..k + 1] == steps[..k] + [steps[k]];
    FromNext(s, steps[..k], steps[k]);
    StaysGoneBetween(s, steps, k + 1, |steps|, client.number);
    assert steps[..|steps|] == steps;
    forall j: nat ensures !RetiredAt(s, steps, client, j) {
      if Retires(s, steps, client, j) {
        RetiredNotBeforeReplaced(pre, steps, client, j, k);
        if j > k {
          StaysGoneBetween(s, steps, k + 1, j, client.number);
        }
      }
    }
  }

  lemma RetiredNotBeforeReplaced(pre: seq<Step>, steps: seq<Step>, client: Client, j: nat, k: nat)
    requires var s := From(START, pre); Retires(s, steps, client, j) && ReplacedAt(s, steps, client, k)
    ensures j >= k
  {
    var s := From(START, pre);
    if j < k {
      SoundAlong(pre, steps[..j + 1]);
      RetiredIsGone(From(s, steps[..j + 1]), Retired(From(s, steps[..j]).now, client));
      StaysGoneBetween(s, steps, j + 1, k, client.number);
    }
  }

  /** The promise of a grace period, kept exactly when it can be: from any reachable
      state, an active client is still active, or was retired by some step and has
      been kept for the grace period since, if and only if no handler replaced it
      while it was active. */
  lemma {:induction false} ClientsOutliveTheirGrace(pre: seq<Step>, steps: seq<Step>, client: Client)
    requires From(START, pre).active == Some(client)
    ensures ActiveOrRetired(From(START, pre), steps, client) <==>
              forall k: nat :: !ReplacedAt(From(START, pre), steps, client, k)
  {
    var s := From(START, pre);
    if forall k: nat :: !ReplacedAt(s, steps, client, k) {
      NotReplacedIsServed(s, steps, client);
    } else {
      var k: nat :| ReplacedAt(s, steps, client, k);
      ReplacedIsNotServed(pre, steps, client, k);
    }
  }

  /** A handler armed for a client that is not active destroys the active client if and
      only if that client lives at the other's address, which has then been destroyed. */
  lemma {:induction false} LateHandlerExactly(steps: seq<Step>, client: Client, other: Client, address: nat)
    requires var s := From(START, steps);
             && Enabled(s, RunHandler(Replace(client), address))
             && s.active == Some(other) && other != client
    ensures var s := From(START, steps);
            !Alive(Next(s, RunHandler(Replace(client), address)), other) <==> IsActive(s, client) && !Alive(s, client)
  {
    var s := From(START, steps);
    if IsActive(s, client) {
      ReplacementDestroys(steps, RunHandler(Replace(client), address), other);
      if Alive(s, client) {
        AddressTellsLiveClients(steps, client, 0);
      }
    }
  }

  // ------------------------------------------------ what is asked for takes place

  /** A requested restart of a connected client waits for its disconnection, which
      retires it and arms the rebuild; when that has run, a fresh client is active. */
  lemma {:induction false} RestartTakesPlace(pre: seq<Step>, client: Client, code: int, a: nat, b: nat)
    requires var s := From(START, pre);
             s.active == Some(client) && !s.stopped && Free(s, a)
    requires Free(From(From(START, pre), [Restart(false, a)] + [OnDisconnected(client, code)] + [Fire]), b)
    ensures var s := From(START, pre);
            var asked := From(s, [Restart(false, a)]);
            var gone := From(s, [Restart(false, a)] + [OnDisconnected(client, code)]);
            var back := From(s, [Restart(false, a)] + [OnDisconnected(client, code)] + [Fire] + [RunHandler(Rebuild, b)]);
            && asked.active == Some(client) && asked.restartPending && asked.timer == None
            && gone.active == None && gone.timer == Some(Rebuild) && !gone.restartPending
            && Retired(s.now, client) in gone.retired
            && back.active == Some(Client(s.made, b)) && back.timer == None
  {
    var s := From(START, pre);
    var asked := [Restart(false, a)];
    var gone := asked + [OnDisconnected(client, code)];
    FromOne(s, Restart(false, a));
    FromNext(s, asked, OnDisconnected(client, code));
    var t := From(s, gone);
    assert t.retired[|t.retired| - 1] == Retired(s.now, client);
    FromNext(s, gone, Fire);
    FromNext(s, gone + [Fire], RunHandler(Rebuild, b));
  }

  /** A requested restart takes place at once if the client is disconnected or there is
      none: the old client is retired, a fresh one is active, and nothing is pending. */
  lemma {:induction false} RestartAtOnce(pre: seq<Step>, disconnected: bool, a: nat)
    requires var s := From(START, pre); Free(s, a) && (disconnected || s.active.None?)
    ensures var s, r := From(START, pre), From(From(START, pre), [Restart(disconnected, a)]);
            && r.active == Some(Client(s.made, a)) && r.timer == None && !r.restartPending
            && (s.active.Some? ==> Retired(s.now, s.active.value) in r.retired)
  {
    var s := From(START, pre);
    FromOne(s, Restart(disconnected, a));
    if s.active.Some? {
      RestartOfDisconnected(s, a);
      var r := Restarted(s, true, a);
      assert r.retired[|r.retired| - 1] == Retired(s.now, s.active.value);
    }
  }

  /** Without a pending restart a lost connection arms the replacement of the client for
      the codes 3500 to 3502, which in its turn makes a fresh client active; for other
      codes nothing happens. */
  lemma {:induction false} LostConnectionIsReplaced(pre: seq<Step>, client: Client, code: int, b: nat)
    requires var s := From(START, pre);
             s.active == Some(client) && !s.stopped && !s.restartPending && Free(s, b)
    ensures var s := From(START, pre);
            var lost := From(s, [OnDisconnected(client, code)]);
            var back := From(s, [OnDisconnected(client, code)] + [Fire] + [RunHandler(Replace(client), b)]);
            if 3500 <= code <= 3502
            then lost == s.(timer := Some(Replace(client))) && back.active == Some(Client(s.made, b)) && back.timer == None
            else lost == s
  {
    var s := From(START, pre);
    var lost := [OnDisconnected(client, code)];
    FromOne(s, OnDisconnected(client, code));
    if 3500 <= code <= 3502 {
      FromNext(s, lost, Fire);
      FromNext(s, lost + [Fire], RunHandler(Replace(client), b));
    }
  }

  /** When the active client connects, the retired ones whose grace is over go. */
  lemma {:induction false} ConnectionPrunes(pre: seq<Step>, client: Client)
    requires From(START, pre).active == Some(client) && !From(START, pre).stopped
    ensures var s := From(START, pre);
            From(s, [OnConnected(client)]) == s.(retired := Unexpired(s.retired, s.now - 30_000))
  {
    FromOne(From(START, pre), OnConnected(client));
    PruneIsFilter(pre);
  }

  /** After the stop neither callbacks nor a rebuild change anything but what is still to run. */
  lemma StoppedIsQuiet(s: State, step: Step)
    requires s.stopped && Enabled(s, step)
    requires step.OnDisconnected? || step.OnConnected? || (step.RunHandler? && step.handler.Rebuild?)
    ensures Next(s, step) == s.(fired := Next(s, step).fired)
  {
  }

  lemma FromOne(s: State, step: Step)
    requires Enabled(s, step)
    ensures From(s, [step]) == Next(s, step)
  {
    assert [step][..0] == [];
    assert From(s, []) == s;
  }

  // ----------------------------------------------------------- two short lives

  /** The first client loses its connection with a code that demands replacement,
      the timer expires, and the client is destroyed without any grace. */
  lemma ClientDestroyedWithoutGrace()
    ensures var s := From(START, [OnDisconnected(FIRST, 3500)] + [Fire] + [RunHandler(Replace(FIRST), 1)]);
            s.now == START.now && s.active == Some(Client(1, 1)) && s.retired == []
  {
    FromOne(START, OnDisconnected(FIRST, 3500));
    FromNext(START, [OnDisconnected(FIRST, 3500)], Fire);
    assert PopExpired([], -GRACE_PERIOD) == [];
    FromNext(START, [OnDisconnected(FIRST, 3500)] + [Fire], RunHandler(Replace(FIRST), 1));
  }

  const FIRST := Client(0, 0)
  const REUSE: seq<Step> :=
    [OnDisconnected(FIRST, 3500), Fire, Restart(true, 1), Wait(30_000), Restart(true, 0), RunHandler(Replace(FIRST), 2)]

  lemma ReuseStep(k: nat)
    requires k < |REUSE| && Enabled(From(START, REUSE[..k]), REUSE[k])
    ensures From(START, REUSE[..k + 1]) == Next(From(START, REUSE[..k]), REUSE[k])
  {
    assert REUSE[..k + 1] == REUSE[..k] + [REUSE[k]];
    FromNext(START, REUSE[..k], REUSE[k]);
  }

  lemma ReuseFires()
    ensures From(START, REUSE[..2]) == State(0, Some(FIRST), [], None, multiset{Replace(FIRST)}, false, false, 1)
  {
    assert REUSE[..0] == [];
    ReuseStep(0);
    ReuseStep(1);
  }

  lemma RestartOfDisconnected(s: State, address: nat)
    requires s.active.Some?
    ensures Restarted(s, true, address) == s.(
              active := Some(Client(s.made, address)),
              retired := PopExpired(s.retired, s.now - GRACE_PERIOD) + [Retired(s.now, s.active.value)],
              timer := None, restartPending := false, made := s.made + 1)
  {
    RetireKeepsRetired(s.(timer := None, restartPending := false));
  }

  lemma ReuseRestarts()
    ensures From(START, REUSE[..3])
            == State(0, Some(Client(1, 1)), [Retired(0, FIRST)], None, multiset{Replace(FIRST)}, false, false, 2)
  {
    ReuseFires();
    RestartOfDisconnected(From(START, REUSE[..2]), 1);
    ReuseStep(2);
  }

  lemma ReuseWaits()
    ensures From(START, REUSE[..4])
            == State(30_000, Some(Client(1, 1)), [Retired(0, FIRST)], None, multiset{Replace(FIRST)}, false, false, 2)
  {
    ReuseRestarts();
    ReuseStep(3);
  }

  lemma ReuseTakesTheAddress()
    ensures From(START, REUSE[..5])
            == State(30_000, Some(Client(2, 0)), [Retired(30_000, Client(1, 1))], None, multiset{Replace(FIRST)}, false, false, 3)
  {
    ReuseWaits();
    assert PopExpired([Retired(0, FIRST)], 0) == [];
    RestartOfDisconnected(From(START, REUSE[..4]), 0);
    ReuseStep(4);
  }

  /** A handler that waited for the whole grace period finds another client at the
      address of the one it was armed for, and destroys it though its connection
      was never lost. */
  lemma AnotherClientCanBeReplaced()
    ensures From(START, REUSE[..5]).active == Some(Client(2, 0))
    ensures !Alive(From(START, REUSE), Client(2, 0))
    ensures forall i :: 0 <= i < |REUSE| && REUSE[i].OnDisconnected? ==> REUSE[i].client != Client(2, 0)
  {
    ReuseTakesTheAddress();
    ReuseStep(5);
    assert REUSE[..6] == REUSE;
  }
}
