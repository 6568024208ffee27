/**
 The list of active game modes and the deadlines of the temporary ones
 (source/modes.cpp).  `Modes` is the value, `ModeKeeper` the object that is
 updated in place.
 */
module ModeList {
  import opened Collections

  /** Clock readings are counted in nanoseconds. */
  const SECOND: int := 1_000_000_000
  const DEFAULT_EXPIRY_SECONDS: nat := 3
  const MAX_EXPIRY_SECONDS: nat := 10

  datatype Modes = Modes(names: seq<string>, deadlines: map<string, int>)

  const NO_MODES := Modes([], map[])

  /** The names are pairwise distinct and only listed modes have a deadline. */
  ghost predicate WellFormed(m: Modes) {
    && NoDuplicates(m.names)
    && forall k :: k in m.deadlines ==> k in m.names
  }

  function NormalizeSeconds(seconds: nat): (r: nat)
    ensures 1 <= r <= 10
    ensures 1 <= seconds <= 10 ==> r == seconds
    ensures seconds > 10 ==> r == 10
    ensures seconds == 0 ==> r == 3
  {
    if seconds == 0 then DEFAULT_EXPIRY_SECONDS
    else if seconds > MAX_EXPIRY_SECONDS then MAX_EXPIRY_SECONDS
    else seconds
  }

  function Added(m: Modes, name: string): Modes {
    if name in m.names then m else m.(names := m.names + [name])
  }

  function Removed(m: Modes, name: string): Modes {
    Modes(Without(m.names, {name}), m.deadlines - {name})
  }

  function AddedExpiring(m: Modes, name: string, seconds: nat, now: int): Modes {
    Modes([name] + Without(m.names, {name}),
          m.deadlines[name := now + NormalizeSeconds(seconds) * SECOND])
  }

  function Due(deadlines: map<string, int>, now: int): set<string> {
    set k | k in deadlines && deadlines[k] <= now
  }

  function Ticked(m: Modes, now: int): Modes {
    var due := Due(m.deadlines, now);
    Modes(Without(m.names, due), m.deadlines - due)
  }

  /** `t` is the earliest deadline. */
  ghost predicate IsEarliest(deadlines: map<string, int>, t: int) {
    && (exists k :: k in deadlines && deadlines[k] == t)
    && forall k :: k in deadlines ==> t <= deadlines[k]
  }

  lemma {:induction false} EarliestExists(deadlines: map<string, int>) returns (t: int)
    requires deadlines != map[]
    ensures IsEarliest(deadlines, t)
    decreases |deadlines|
  {
    var k :| k in deadlines;
    var rest := deadlines - {k};
    assert deadlines == rest[k := deadlines[k]];
    if rest == map[] {
      t := deadlines[k];
    } else {
      assert |rest.Keys| < |deadlines.Keys| by {
        assert deadlines.Keys == rest.Keys + {k};
      }
      var u := EarliestExists(rest);
      var j :| j in rest && rest[j] == u;
      assert j in deadlines && deadlines[j] == u;
      t := if u < deadlines[k] then u else deadlines[k];
    }
  }

  ghost function Earliest(deadlines: map<string, int>): (t: int)
    requires deadlines != map[]
    ensures IsEarliest(deadlines, t)
  {
    assert exists t :: IsEarliest(deadlines, t) by {
      var t := EarliestExists(deadlines);
    }
    var t :| IsEarliest(deadlines, t);
    t
  }

  // ---------------------------------------------------------------- invariants

  lemma AddedWellFormed(m: Modes, name: string)
    requires WellFormed(m)
    ensures WellFormed(Added(m, name))
  {
  }

  lemma RemovedWellFormed(m: Modes, name: string)
    requires WellFormed(m)
    ensures WellFormed(Removed(m, name))
  {
    WithoutKeepsNoDuplicates(m.names, {name});
  }

  lemma AddedExpiringWellFormed(m: Modes, name: string, seconds: nat, now: int)
    requires WellFormed(m)
    ensures WellFormed(AddedExpiring(m, name, seconds, now))
  {
    WithoutKeepsNoDuplicates(m.names, {name});
    assert name !in Without(m.names, {name});
  }

  /** Ticking keeps well-formedness, leaves exactly the deadlines still in the
      future, and never drops a mode that is not due. */
  lemma TickedWellFormed(m: Modes, now: int)
    requires WellFormed(m)
    ensures WellFormed(Ticked(m, now))
    ensures forall k :: k in Ticked(m, now).deadlines ==> now < Ticked(m, now).deadlines[k]
    ensures forall name :: name in Ticked(m, now).names <==>
                           name in m.names && !(name in m.deadlines && m.deadlines[name] <= now)
  {
    WithoutKeepsNoDuplicates(m.names, Due(m.deadlines, now));
  }

  /** A tick at or after the earliest deadline removes at least one mode. */
  lemma TickRemoves(m: Modes, now: int)
    requires WellFormed(m) && m.deadlines != map[]
    requires Earliest(m.deadlines) <= now
    ensures |Ticked(m, now).names| < |m.names|
  {
    var k :| k in m.deadlines && m.deadlines[k] == Earliest(m.deadlines);
    WithoutShrinks(m.names, Due(m.deadlines, now), k);
  }

  // -------------------------------------------------------------- the object

  class ModeKeeper {
    var names: seq<string>
    var deadlines: map<string, int>

    function Value(): Modes reads this { Modes(names, deadlines) }

    constructor ()
      ensures Value() == NO_MODES
    {
      names, deadlines := [], map[];
    }

    method AddMode(name: string)
      modifies this
      ensures Value() == Added(old(Value()), name)
    {
      if name in names {
        return;
      }
      names := names + [name];
    }

    method AddOrPromoteToFront(name: string)
      modifies this`names
      ensures names == [name] + Without(old(names), {name})
    {
      names := Without(names, {name});
      names := [name] + names;
    }

    method RemoveMode(name: string)
      modifies this
      ensures Value() == Removed(old(Value()), name)
    {
      names := Without(names, {name});
      deadlines := deadlines - {name};
    }

    method Clear()
      modifies this
      ensures Value() == NO_MODES
    {
      names, deadlines := [], map[];
    }

    method AddModeExpiring(name: string, seconds: nat, now: int)
      modifies this
      ensures Value() == AddedExpiring(old(Value()), name, seconds, now)
    {
      var norm := NormalizeSeconds(seconds);
      deadlines := deadlines[name := now + norm * SECOND];
      AddOrPromoteToFront(name);
    }

    /** Collects the due names, visiting the map in any order, then erases them
        one by one. */
    method TickExpiries(now: int)
      modifies this
      ensures Value() == Ticked(old(Value()), now)
    {
      var due: seq<string> := [];
      var rest := deadlines.Keys;
      while rest != {}
        invariant rest <= deadlines.Keys
        invariant Elements(due) == Due(deadlines, now) - rest
        invariant Value() == old(Value())
        decreases rest
      {
        var k :| k in rest;
        if deadlines[k] <= now {
          assert Elements(due + [k]) == Elements(due) + {k};
          due := due + [k];
        }
        rest := rest - {k};
      }
      assert Elements(due) == Due(old(deadlines), now);
      var i := 0;
      assert Elements(due[..0]) == {};
      WithoutNothing(names, {});
      while i < |due|
        invariant 0 <= i <= |due|
        invariant names == Without(old(names), Elements(due[..i]))
        invariant deadlines == old(deadlines) - Elements(due[..i])
      {
        WithoutTwice(old(names), Elements(due[..i]), {due[i]});
        assert due[..i + 1] == due[..i] + [due[i]];
        assert Elements(due[..i + 1]) == Elements(due[..i]) + {due[i]};
        deadlines := deadlines - {due[i]};
        names := Without(names, {due[i]});
        i := i + 1;
      }
      assert due[..i] == due;
    }

    method HasExpiryDeadlines() returns (any: bool)
      ensures any <==> deadlines != map[]
    {
      any := deadlines != map[];
    }

    method ClearExpiries()
      modifies this`deadlines
      ensures deadlines == map[]
    {
      deadlines := map[];
    }

    /** The delay until the soonest deadline, never negative. */
    method NextExpiryDelay(now: int) returns (delay: Option<int>)
      ensures delay.None? <==> deadlines == map[]
      ensures delay.Some? ==> delay.value == Max(0, Earliest(deadlines) - now)
    {
      if deadlines == map[] {
        return None;
      }
      var k0 :| k0 in deadlines;
      var soonest := deadlines[k0];
      var rest := deadlines.Keys - {k0};
      while rest != {}
        invariant rest <= deadlines.Keys
        invariant exists k :: k in deadlines && deadlines[k] == soonest
        invariant forall k :: k in deadlines && k !in rest ==> soonest <= deadlines[k]
        decreases rest
      {
        var k :| k in rest;
        if deadlines[k] < soonest {
          soonest := deadlines[k];
        }
        rest := rest - {k};
      }
      assert IsEarliest(deadlines, soonest);
      var d := soonest - now;
      if d < 0 {
        d := 0;
      }
      return Some(d);
    }
  }
}
