/**
 Session records and sequence numbers of the network layer (source/net.cpp): the
 create request and every publication of a session carry a number drawn from the
 session's counter.

 Each lock section is one step.  Publishing takes two: the first reads the record,
 the second draws the number.  Replies, losses, erasures and the order in which
 the worker pool runs submissions are free.  A session id is created once, as the
 game state object does (GameRuns.SessionIdsCountUp).
 */
module NetSessions {
  import opened Collections

  datatype Session = Session(counter: nat, hasUuid: bool, active: bool)

  const NEW_SESSION := Session(0, false, false)

  datatype Creation = Recorded | InFlight | Answered

  datatype Sent = CreateRequest(id: int, number: nat) | Publication(id: int, number: nat)

  datatype State = State(
    sessions: map<int, Session>,
    creations: map<int, Creation>,
    updates: multiset<int>,   // session updates in flight
    publishing: Option<int>,  // the commit strand between its two lock sections
    // history
    sent: seq<Sent>,
    erased: set<int>,
    stale: set<int>)          // sessions whose number was drawn from a record without uuid

  const START := State(map[], map[], multiset{}, None, [], {}, {})

  datatype Step =
    | RecordCreation(id: int)
    | BuildCreateRequest(id: int)
    | CreateReply(id: int, ok: bool)
    | Submit(id: int, active: bool)
    | BuildUpdate(id: int)
    | UpdateReply(id: int, ok: bool)
    | ReadForPublishing(id: int, connected: bool)
    | DrawNumber

  predicate Enabled(s: State, step: Step) {
    match step
    case RecordCreation(id) => id !in s.creations
    case BuildCreateRequest(id) => id in s.creations && s.creations[id].Recorded?
    case CreateReply(id, _) => id in s.creations && s.creations[id].InFlight?
    case Submit(_, _) => true
    case BuildUpdate(_) => true
    case UpdateReply(id, _) => id in s.updates
    case ReadForPublishing(_, _) => s.publishing.None?
    case DrawNumber => s.publishing.Some?
  }

  /** Looking a session up by its id makes the record if there is none. */
  function Lookup(s: State, id: int): Session {
    if id in s.sessions then s.sessions[id] else NEW_SESSION
  }

  function Next(s: State, step: Step): State
    requires Enabled(s, step)
  {
    match step
    case RecordCreation(id) =>
      s.(sessions := s.sessions[id := Lookup(s, id).(active := true)], creations := s.creations[id := Recorded])
    case BuildCreateRequest(id) =>
      if id !in s.sessions then s.(creations := s.creations[id := Answered])
      else
        var n := s.sessions[id].counter + 1;
        s.(sessions := s.sessions[id := s.sessions[id].(counter := n)],
           creations := s.creations[id := InFlight],
           sent := s.sent + [CreateRequest(id, n)])
    case CreateReply(id, ok) =>
      s.(creations := s.creations[id := Answered],
         sessions := if ok && id in s.sessions then s.sessions[id := s.sessions[id].(hasUuid := true)] else s.sessions)
    case Submit(id, active) =>
      s.(sessions := s.sessions[id := Lookup(s, id).(active := active)])
    case BuildUpdate(id) =>
      if id in s.sessions && s.sessions[id].hasUuid then s.(updates := s.updates + multiset{id}) else s
    case UpdateReply(id, ok) =>
      var rest := s.(updates := s.updates - multiset{id});
      if ok && !Lookup(s, id).active then rest.(sessions := s.sessions - {id}, erased := s.erased + {id})
      else rest
    case ReadForPublishing(id, connected) =>
      if id in s.sessions && s.sessions[id].hasUuid && connected then s.(publishing := Some(id)) else s
    case DrawNumber =>
      var id := s.publishing.value;
      if id !in s.sessions then s.(publishing := None)
      else
        var n := s.sessions[id].counter + 1;
        s.(sessions := s.sessions[id := s.sessions[id].(counter := n)],
           publishing := None,
           sent := s.sent + [Publication(id, n)],
           stale := if s.sessions[id].hasUuid then s.stale else s.stale + {id})
  }

  /** The state after a run; a step that is not enabled is skipped. */
  function After(steps: seq<Step>): State {
    if steps == [] then START
    else
      var s := After(steps[..|steps| - 1]);
      var step := steps[|steps| - 1];
      if Enabled(s, step) then Next(s, step) else s
  }

  /** The numbers sent for one session, in order. */
  function Numbers(sent: seq<Sent>, id: int): seq<nat> {
    if sent == [] then []
    else
      var last := sent[|sent| - 1];
      Numbers(sent[..|sent| - 1], id) + if last.id == id then [last.number] else []
  }

  predicate CountsUp(numbers: seq<nat>) {
    forall i :: 0 <= i < |numbers| ==> numbers[i] == i + 1
  }

  lemma NumbersAppend(sent: seq<Sent>, one: Sent, id: int)
    ensures Numbers(sent + [one], id) == Numbers(sent, id) + if one.id == id then [one.number] else []
  {
    assert (sent + [one])[..|sent|] == sent;
  }

  // ---------------------------------------------------------------- invariant

  predicate Created(s: State, id: int) { id in s.creations && s.creations[id].Answered? }

  /** What is known of one session at any time. */
  ghost predicate SessionSound(s: State, id: int) {
    var numbers := Numbers(s.sent, id);
    && (id in s.erased || id in s.updates || s.publishing == Some(id) ==> Created(s, id))
    && (id in s.sessions && s.sessions[id].hasUuid ==> Created(s, id) && id !in s.erased)
    && (s.publishing == Some(id) && id !in s.erased ==> id in s.sessions && s.sessions[id].hasUuid)
    && (id in s.stale ==> id in s.erased)
    && (!Created(s, id) ==>
          if id in s.creations && s.creations[id].InFlight?
          then id in s.sessions && s.sessions[id].counter == 1 && numbers == [1]
          else numbers == [] && Lookup(s, id).counter == 0 && (id in s.creations ==> id in s.sessions))
    && (Created(s, id) && id !in s.erased ==>
          id in s.sessions && |numbers| == s.sessions[id].counter >= 1 && CountsUp(numbers))
    && (id in s.erased && id !in s.stale ==>
          Lookup(s, id).counter == 0 && |numbers| >= 1 && CountsUp(numbers))
    && (id in s.stale ==>
          |numbers| >= 2 && numbers[0] == 1 && numbers[|numbers| - 1] == 1 && s.publishing != Some(id))
  }

  predicate About(s: State, step: Step, id: int) {
    match step
    case DrawNumber => s.publishing == Some(id)
    case _ => step.id == id
  }

  /** The two states agree on everything about one session. */
  ghost predicate SameFor(s: State, s': State, id: int) {
    && (id in s.sessions <==> id in s'.sessions)
    && (id in s.sessions ==> s'.sessions[id] == s.sessions[id])
    && (id in s.creations <==> id in s'.creations)
    && (id in s.creations ==> s'.creations[id] == s.creations[id])
    && (id in s.updates <==> id in s'.updates)
    && (s'.publishing == Some(id) <==> s.publishing == Some(id))
    && (id in s.erased <==> id in s'.erased)
    && (id in s.stale <==> id in s'.stale)
    && Numbers(s'.sent, id) == Numbers(s.sent, id)
  }

  lemma SentToAnother(s: State, sent: Sent, id: int)
    requires sent.id != id
    ensures Numbers(s.sent + [sent], id) == Numbers(s.sent, id)
  {
    NumbersAppend(s.sent, sent, id);
  }

  lemma OtherDrawChangesNothing(s: State, id: int)
    requires s.publishing.Some? && s.publishing != Some(id)
    ensures SameFor(s, Next(s, DrawNumber), id)
  {
    var other := s.publishing.value;
    SentToAnother(s, Publication(other, Lookup(s, other).counter + 1), id);
  }

  lemma OtherRequestChangesNothing(s: State, other: int, id: int)
    requires Enabled(s, BuildCreateRequest(other)) && other != id
    ensures SameFor(s, Next(s, BuildCreateRequest(other)), id)
  {
    SentToAnother(s, CreateRequest(other, Lookup(s, other).counter + 1), id);
  }

  lemma OthersChangeNothing(s: State, step: Step, id: int)
    requires Enabled(s, step) && !About(s, step, id)
    ensures SameFor(s, Next(s, step), id)
  {
    match step
    case BuildCreateRequest(other) => OtherRequestChangesNothing(s, other, id);
    case DrawNumber => OtherDrawChangesNothing(s, id);
    case _ =>
  }

  lemma SameForKeepsSound(s: State, s': State, id: int)
    requires SameFor(s, s', id) && SessionSound(s, id)
    ensures SessionSound(s', id)
  {
  }

  lemma CreationKeepsSound(s: State, step: Step, id: int)
    requires step.RecordCreation? || step.BuildCreateRequest? || step.CreateReply?
    requires Enabled(s, step) && step.id == id
    requires SessionSound(s, id)
    ensures SessionSound(Next(s, step), id)
  {
    NumbersAppend(s.sent, CreateRequest(id, Lookup(s, id).counter + 1), id);
  }

  lemma RecordKeepsSound(s: State, step: Step, id: int)
    requires step.Submit? || step.BuildUpdate? || step.UpdateReply? || step.ReadForPublishing?
    requires Enabled(s, step) && step.id == id
    requires SessionSound(s, id)
    ensures SessionSound(Next(s, step), id)
  {
  }

  lemma DrawKeepsSound(s: State, id: int)
    requires s.publishing == Some(id)
    requires SessionSound(s, id)
    ensures SessionSound(Next(s, DrawNumber), id)
  {
    NumbersAppend(s.sent, Publication(id, Lookup(s, id).counter + 1), id);
  }

  lemma NextKeepsSound(s: State, step: Step, id: int)
    requires Enabled(s, step) && SessionSound(s, id)
    ensures SessionSound(Next(s, step), id)
  {
    if !About(s, step, id) {
      OthersChangeNothing(s, step, id);
      SameForKeepsSound(s, Next(s, step), id);
    } else if step.DrawNumber? {
      DrawKeepsSound(s, id);
    } else if step.RecordCreation? || step.BuildCreateRequest? || step.CreateReply? {
      CreationKeepsSound(s, step, id);
    } else {
      RecordKeepsSound(s, step, id);
    }
  }

  lemma {:induction false} RunSound(steps: seq<Step>, id: int)
    ensures SessionSound(After(steps), id)
  {
    if steps != [] {
      var n := |steps| - 1;
      RunSound(steps[..n], id);
      if Enabled(After(steps[..n]), steps[n]) {
        NextKeepsSound(After(steps[..n]), steps[n], id);
      }
    }
  }

  // ----------------------------------------------------------------- theorems

  /** In every run, the create request and the publications of a session carry
      1, 2, 3, ... without gap or repeat if and only if no publication drew its
      number from a record that has lost its uuid, that is, one erased and made
      again between the two lock sections of the publication. */
  lemma {:induction false} NumbersCountUp(steps: seq<Step>, id: int)
    ensures var s := After(steps);
            CountsUp(Numbers(s.sent, id)) <==> id !in s.stale
  {
    RunSound(steps, id);
  }

  /** Without a submission that runs after the erasure of its session, the numbers
      count up: only such a submission can make the record again. */
  lemma {:induction false} NoLateSubmitNoRepeat(steps: seq<Step>, id: int)
    requires forall i :: 0 <= i < |steps| && steps[i].Submit? && steps[i].id == id ==> id !in After(steps[..i]).erased
    ensures CountsUp(Numbers(After(steps).sent, id))
  {
    StaysErased(steps, id);
    RunSound(steps, id);
  }

  ghost predicate GoneIfErased(s: State, id: int) {
    (id in s.erased ==> id !in s.sessions) && id !in s.stale
  }

  lemma NextStaysErased(s: State, step: Step, id: int)
    requires Enabled(s, step) && SessionSound(s, id) && GoneIfErased(s, id)
    requires step.Submit? && step.id == id ==> id !in s.erased
    ensures GoneIfErased(Next(s, step), id)
  {
  }

  lemma {:induction false} StaysErased(steps: seq<Step>, id: int)
    requires forall i :: 0 <= i < |steps| && steps[i].Submit? && steps[i].id == id ==> id !in After(steps[..i]).erased
    ensures GoneIfErased(After(steps), id)
  {
    if steps != [] {
      var n := |steps| - 1;
      forall i | 0 <= i < n && steps[..n][i].Submit? && steps[..n][i].id == id
        ensures id !in After(steps[..n][..i]).erased
      {
        assert steps[..n][..i] == steps[..i];
      }
      StaysErased(steps[..n], id);
      RunSound(steps[..n], id);
      if Enabled(After(steps[..n]), steps[n]) {
        NextStaysErased(After(steps[..n]), steps[n], id);
      }
    }
  }

  /** Every publication of a session comes after its create request number 1, and
      that request has been answered. */
  ghost predicate CreateFirst(s: State, id: int) {
    forall i :: 0 <= i < |s.sent| && s.sent[i].id == id && s.sent[i].Publication? ==>
      Created(s, id) && exists j :: 0 <= j < i && s.sent[j] == CreateRequest(id, 1)
  }

  lemma NextKeepsCreateFirst(s: State, step: Step, id: int)
    requires Enabled(s, step) && SessionSound(s, id) && CreateFirst(s, id)
    requires Created(s, id) ==> CreateRequest(id, 1) in s.sent
    ensures CreateFirst(Next(s, step), id)
  {
    var s' := Next(s, step);
    assert s.sent <= s'.sent;
    forall i | 0 <= i < |s'.sent| && s'.sent[i].id == id && s'.sent[i].Publication?
      ensures Created(s', id) && exists j :: 0 <= j < i && s'.sent[j] == CreateRequest(id, 1)
    {
      if i < |s.sent| {
        assert s.sent[i] == s'.sent[i];
        var j :| 0 <= j < i && s.sent[j] == CreateRequest(id, 1);
        assert s'.sent[j] == CreateRequest(id, 1);
      } else {
        var j :| 0 <= j < |s.sent| && s.sent[j] == CreateRequest(id, 1);
        assert s'.sent[j] == CreateRequest(id, 1);
      }
    }
  }

  lemma {:induction false} PublishedOnlyAfterCreation(steps: seq<Step>, id: int)
    ensures CreateFirst(After(steps), id)
    ensures id in After(steps).creations && !After(steps).creations[id].Recorded? ==>
              CreateRequest(id, 1) in After(steps).sent
  {
    if steps != [] {
      var n := |steps| - 1;
      PublishedOnlyAfterCreation(steps[..n], id);
      RunSound(steps[..n], id);
      if Enabled(After(steps[..n]), steps[n]) {
        NextKeepsCreateFirst(After(steps[..n]), steps[n], id);
        CreateRequestStays(After(steps[..n]), steps[n], id);
      }
    }
  }

  lemma CreateRequestStays(s: State, step: Step, id: int)
    requires Enabled(s, step) && SessionSound(s, id)
    requires id in s.creations && !s.creations[id].Recorded? ==> CreateRequest(id, 1) in s.sent
    ensures var s' := Next(s, step);
            id in s'.creations && !s'.creations[id].Recorded? ==> CreateRequest(id, 1) in s'.sent
  {
  }

  /** Step `k` of the run is the successful reply that sets the session's uuid. */
  ghost predicate SetsUuid(steps: seq<Step>, id: int, k: nat) {
    && k < |steps| && steps[k] == CreateReply(id, true)
    && Enabled(After(steps[..k]), steps[k])
    && id in After(steps[..k]).sessions
  }

  ghost predicate UuidWasSet(steps: seq<Step>, id: int) {
    exists k: nat :: SetsUuid(steps, id, k)
  }

  ghost predicate PublicationSent(s: State, id: int) {
    exists i :: 0 <= i < |s.sent| && s.sent[i].id == id && s.sent[i].Publication?
  }

  /** The session's uuid is known to its record, an update or the strand, or was published. */
  ghost predicate UsesUuid(s: State, id: int) {
    || (id in s.sessions && s.sessions[id].hasUuid)
    || id in s.updates
    || s.publishing == Some(id)
    || PublicationSent(s, id)
  }

  lemma UuidComesFromReply(s: State, step: Step, id: int)
    requires Enabled(s, step) && UsesUuid(Next(s, step), id)
    ensures UsesUuid(s, id) || (step == CreateReply(id, true) && id in s.sessions)
  {
    var s' := Next(s, step);
    if PublicationSent(s', id) && !(step.DrawNumber? && s.publishing == Some(id)) {
      var i :| 0 <= i < |s'.sent| && s'.sent[i].id == id && s'.sent[i].Publication?;
      assert i < |s.sent| && s.sent[i] == s'.sent[i];
    }
  }

  lemma UuidStaysSet(steps: seq<Step>, id: int)
    requires steps != [] && UuidWasSet(steps[..|steps| - 1], id)
    ensures UuidWasSet(steps, id)
  {
    var front := steps[..|steps| - 1];
    var k: nat :| SetsUuid(front, id, k);
    assert front[..k] == steps[..k];
    assert SetsUuid(steps, id, k);
  }

  /** Nothing about a session is published, or even on its way to be, before the
      successful create reply that sets its uuid. */
  lemma {:induction false} PublishedOnlyAfterUuid(steps: seq<Step>, id: int)
    requires UsesUuid(After(steps), id)
    ensures UuidWasSet(steps, id)
  {
    if steps != [] {
      var n := |steps| - 1;
      var s := After(steps[..n]);
      if Enabled(s, steps[n]) {
        UuidComesFromReply(s, steps[n], id);
      }
      if UsesUuid(s, id) {
        PublishedOnlyAfterUuid(steps[..n], id);
        UuidStaysSet(steps, id);
      } else {
        assert SetsUuid(steps, id, n);
      }
    }
  }

  /** The branch that reports a missing session while building a create request is
      never taken. */
  lemma {:induction false} CreateNeverMissesItsSession(steps: seq<Step>, id: int)
    requires Enabled(After(steps), BuildCreateRequest(id)) || Enabled(After(steps), CreateReply(id, true))
    ensures id in After(steps).sessions
  {
    RunSound(steps, id);
  }

  // ------------------------------------------------------ the life of a record

  lemma AfterStep(steps: seq<Step>, step: Step)
    requires Enabled(After(steps), step)
    ensures After(steps + [step]) == Next(After(steps), step)
  {
    assert (steps + [step])[..|steps|] == steps;
  }

  /** Was the session's game on when it was last heard of, by its creation or a submission? */
  function LastHeardActive(steps: seq<Step>, id: int): bool {
    if steps == [] then false
    else
      var n := |steps| - 1;
      match steps[n]
      case RecordCreation(other) =>
        if other == id && Enabled(After(steps[..n]), steps[n]) then true else LastHeardActive(steps[..n], id)
      case Submit(other, active) => if other == id then active else LastHeardActive(steps[..n], id)
      case _ => LastHeardActive(steps[..n], id)
  }

  lemma {:induction false} RecordKnowsActivity(steps: seq<Step>, id: int)
    requires id in After(steps).sessions
    ensures After(steps).sessions[id].active == LastHeardActive(steps, id)
  {
    if steps != [] {
      var n := |steps| - 1;
      if id in After(steps[..n]).sessions {
        RecordKnowsActivity(steps[..n], id);
      }
      if Enabled(After(steps[..n]), steps[n]) {
        ActivityAfter(After(steps[..n]), steps[n], id);
      }
    }
  }

  lemma ActivityAfter(s: State, step: Step, id: int)
    requires Enabled(s, step) && id in Next(s, step).sessions
    ensures var active := Next(s, step).sessions[id].active;
            if step == RecordCreation(id) then active
            else if step.Submit? && step.id == id then active == step.active
            else id in s.sessions && active == s.sessions[id].active
  {
  }

  /** A reply to an update erases the record if and only if it is a success and the
      game was over when the session was last heard of. */
  lemma {:induction false} ErasedExactly(steps: seq<Step>, id: int, ok: bool)
    requires Enabled(After(steps), UpdateReply(id, ok)) && id in After(steps).sessions
    ensures var s, s' := After(steps), After(steps + [UpdateReply(id, ok)]);
            if ok && !LastHeardActive(steps, id) then s'.sessions == s.sessions - {id}
            else s'.sessions == s.sessions
  {
    AfterStep(steps, UpdateReply(id, ok));
    RecordKnowsActivity(steps, id);
  }

  ghost predicate NeverFinished(steps: seq<Step>, id: int) {
    forall i :: 0 <= i < |steps| ==> steps[i] != Submit(id, false)
  }

  /** What is known of a session whose game never ended. */
  ghost predicate StillPlayed(s: State, id: int) {
    && id !in s.erased
    && (id in s.sessions ==> s.sessions[id].active)
  }

  lemma NextStillPlayed(s: State, step: Step, id: int)
    requires Enabled(s, step) && SessionSound(s, id) && StillPlayed(s, id) && step != Submit(id, false)
    ensures StillPlayed(Next(s, step), id)
    ensures id in s.sessions && s.sessions[id].hasUuid ==>
              id in Next(s, step).sessions && Next(s, step).sessions[id].hasUuid
    ensures step == CreateReply(id, true) && id in s.sessions ==> Next(s, step).sessions[id].hasUuid
  {
  }

  /** While its game goes on, a session is never erased, and once its uuid is set it
      keeps its record and its uuid. */
  lemma {:induction false} PlayedSessionKeepsItsUuid(steps: seq<Step>, id: int)
    requires NeverFinished(steps, id)
    ensures StillPlayed(After(steps), id)
    ensures UuidWasSet(steps, id) ==> id in After(steps).sessions && After(steps).sessions[id].hasUuid
  {
    if steps != [] {
      var n := |steps| - 1;
      PlayedSessionKeepsItsUuid(steps[..n], id);
      RunSound(steps[..n], id);
      if Enabled(After(steps[..n]), steps[n]) {
        NextStillPlayed(After(steps[..n]), steps[n], id);
      }
      if UuidWasSet(steps, id) {
        var k: nat :| SetsUuid(steps, id, k);
        if k < n {
          assert steps[..n][..k] == steps[..k];
          assert SetsUuid(steps[..n], id, k);
        }
      }
    }
  }

  /** Creating a session sends its create request with number 1, and a successful
      reply sets its uuid. */
  lemma {:induction false} CreationSucceeds(steps: seq<Step>, id: int)
    requires id !in After(steps).creations
    ensures var s := After(steps);
            var s' := After(steps + [RecordCreation(id)] + [BuildCreateRequest(id)] + [CreateReply(id, true)]);
            && s'.sent == s.sent + [CreateRequest(id, 1)]
            && id in s'.sessions && s'.sessions[id] == Session(1, true, true)
  {
    RunSound(steps, id);
    AfterStep(steps, RecordCreation(id));
    AfterStep(steps + [RecordCreation(id)], BuildCreateRequest(id));
    AfterStep(steps + [RecordCreation(id)] + [BuildCreateRequest(id)], CreateReply(id, true));
  }

  /** Publishing sends the next number exactly if the session has a uuid and the
      client is connected, and nothing otherwise. */
  lemma {:induction false} PublishingExactly(steps: seq<Step>, id: int, connected: bool)
    requires After(steps).publishing == None && id !in After(steps).stale
    ensures var s, s' := After(steps), After(steps + [ReadForPublishing(id, connected)] + [DrawNumber]);
            if id in s.sessions && s.sessions[id].hasUuid && connected
            then s'.sent == s.sent + [Publication(id, |Numbers(s.sent, id)| + 1)]
            else s' == s
  {
    RunSound(steps, id);
    AfterStep(steps, ReadForPublishing(id, connected));
    var read := steps + [ReadForPublishing(id, connected)];
    if Enabled(After(read), DrawNumber) {
      AfterStep(read, DrawNumber);
    } else {
      assert (read + [DrawNumber])[..|read|] == read;
    }
  }

  /** The next successful update of a session whose game is over erases it, if it has
      a uuid to be updated by. */
  lemma {:induction false} FinishedSessionIsErased(steps: seq<Step>, id: int)
    requires var s := After(steps); id in s.sessions && s.sessions[id].hasUuid
    requires !LastHeardActive(steps, id)
    ensures id !in After(steps + [BuildUpdate(id)] + [UpdateReply(id, true)]).sessions
  {
    AfterStep(steps, BuildUpdate(id));
    AfterStep(steps + [BuildUpdate(id)], UpdateReply(id, true));
    RecordKnowsActivity(steps, id);
  }

  // ------------------------------------------------- the run that repeats a number

  const SCRIPT: seq<Step> :=
    [RecordCreation(1), BuildCreateRequest(1), CreateReply(1, true), Submit(1, false),
     ReadForPublishing(1, true), BuildUpdate(1), UpdateReply(1, true), Submit(1, false), DrawNumber]

  lemma ScriptStep(k: nat)
    requires k < |SCRIPT| && Enabled(After(SCRIPT[..k]), SCRIPT[k])
    ensures After(SCRIPT[..k + 1]) == Next(After(SCRIPT[..k]), SCRIPT[k])
  {
    assert SCRIPT[..k + 1] == SCRIPT[..k] + [SCRIPT[k]];
    AfterStep(SCRIPT[..k], SCRIPT[k]);
  }

  lemma ScriptCreates()
    ensures After(SCRIPT[..3])
            == State(map[1 := Session(1, true, true)], map[1 := Answered], multiset{}, None, [CreateRequest(1, 1)], {}, {})
  {
    assert SCRIPT[..0] == [];
    ScriptStep(0);
    ScriptStep(1);
    ScriptStep(2);
  }

  lemma ScriptSubmits()
    ensures After(SCRIPT[..4])
            == State(map[1 := Session(1, true, false)], map[1 := Answered], multiset{}, None, [CreateRequest(1, 1)], {}, {})
  {
    ScriptCreates();
    ScriptStep(3);
  }

  lemma ScriptPublishes()
    ensures After(SCRIPT[..5])
            == State(map[1 := Session(1, true, false)], map[1 := Answered], multiset{}, Some(1), [CreateRequest(1, 1)], {}, {})
  {
    ScriptSubmits();
    ScriptStep(4);
  }

  lemma ScriptUpdates()
    ensures After(SCRIPT[..6])
            == State(map[1 := Session(1, true, false)], map[1 := Answered], multiset{1}, Some(1), [CreateRequest(1, 1)], {}, {})
  {
    ScriptPublishes();
    ScriptStep(5);
  }

  lemma ScriptErases()
    ensures After(SCRIPT[..7])
            == State(map[], map[1 := Answered], multiset{}, Some(1), [CreateRequest(1, 1)], {1}, {})
  {
    ScriptUpdates();
    ScriptStep(6);
    assert map[1 := Session(1, true, false)] - {1} == map[];
  }

  /** The game is over, its final snapshot is being published, the session is
      updated and erased, and then a submission that was still waiting in the
      worker pool makes the record again: number 1 is sent twice. */
  lemma ANumberCanRepeat()
    ensures Numbers(After(SCRIPT).sent, 1) == [1, 1]
    ensures !CountsUp(Numbers(After(SCRIPT).sent, 1))
  {
    ScriptErases();
    ScriptStep(7);
    ScriptStep(8);
    assert SCRIPT[..9] == SCRIPT;
    NumbersAppend([], CreateRequest(1, 1), 1);
    assert [] + [CreateRequest(1, 1)] == [CreateRequest(1, 1)];
    NumbersAppend([CreateRequest(1, 1)], Publication(1, 1), 1);
    assert Numbers(After(SCRIPT).sent, 1)[1] == 1;
  }
}
