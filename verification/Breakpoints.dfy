/**
  Breakpoint sets, and why replaying a tail of their history does no harm.
*/
module Breakpoints {

  // The address field is 32 bits wide.
  type Address = a: nat | a < 0x1_0000_0000

  datatype Breakpoint = Global(address: Address) | Local(address: Address, wfId: int)

  // One change to a set of breakpoints.
  datatype Change = Change(point: Breakpoint, remove: bool)

  function Truncate(address: nat): Address {
    address % 0x1_0000_0000
  }

  // An address that fits its field is kept; two name the same point if they differ by a multiple of 2^32.
  lemma TruncateKeepsLowWord(a: nat, b: nat)
    ensures a < 0x1_0000_0000 ==> Truncate(a) == a
    ensures Truncate(a) == Truncate(b) <==> exists k: int :: a - b == k * 0x1_0000_0000
  {
    if Truncate(a) == Truncate(b) {
      assert a - b == (a / 0x1_0000_0000 - b / 0x1_0000_0000) * 0x1_0000_0000;
    }
  }

  function Apply(points: set<Breakpoint>, c: Change): set<Breakpoint> {
    if c.remove then points - {c.point} else points + {c.point}
  }

  function Replay(points: set<Breakpoint>, changes: seq<Change>): set<Breakpoint> {
    if changes == [] then points
    else Apply(Replay(points, changes[..|changes| - 1]), changes[|changes| - 1])
  }

  predicate Touches(changes: seq<Change>, p: Breakpoint) {
    exists i :: 0 <= i < |changes| && changes[i].point == p
  }

  // The last change to a breakpoint decides whether it is set, whatever the set was before.
  lemma {:induction false} LastChangeDecides(a: set<Breakpoint>, b: set<Breakpoint>, changes: seq<Change>, p: Breakpoint)
    ensures if Touches(changes, p) then p in Replay(a, changes) <==> p in Replay(b, changes)
            else p in Replay(a, changes) <==> p in a
  {
    if changes != [] {
      var before, last := changes[..|changes| - 1], changes[|changes| - 1];
      LastChangeDecides(a, b, before, p);
      if Touches(before, p) {
        var i :| 0 <= i < |before| && before[i].point == p;
        assert changes[i].point == p;
      }
      if last.point == p {
        assert changes[|changes| - 1].point == p;
      } else if Touches(changes, p) {
        var i :| 0 <= i < |changes| && changes[i].point == p;
        assert before[i].point == p;
      }
    }
  }

  lemma {:induction false} ReplayConcat(points: set<Breakpoint>, a: seq<Change>, b: seq<Change>)
    ensures Replay(points, a + b) == Replay(Replay(points, a), b)
  {
    if b == [] {
      assert a + b == a;
    } else {
      var before := b[..|b| - 1];
      assert (a + b)[..|a + b| - 1] == a + before;
      ReplayConcat(points, a, before);
    }
  }

  /**
    Replaying any tail of the changes on the set they all led to gives that set again.
  */
  lemma {:induction false} ReplayingTailIsIdentity(points: set<Breakpoint>, changes: seq<Change>, k: nat)
    requires k <= |changes|
    ensures var final := Replay(points, changes); Replay(final, changes[k..]) == final
  {
    var final := Replay(points, changes);
    var tail := changes[k..];
    assert changes == changes[..k] + tail;
    ReplayConcat(points, changes[..k], tail);
    forall p: Breakpoint ensures p in Replay(final, tail) <==> p in final {
      LastChangeDecides(final, Replay(points, changes[..k]), tail, p);
    }
  }

  /**
    The storage: addresses that stop every wavefront, and addresses that stop one.
  */
  class BreakpointStorage {
    var globalBreakpoints: set<Address>
    var localBreakpoints: map<int, set<Address>>

    constructor ()
      ensures Points() == {}
    {
      globalBreakpoints := {};
      localBreakpoints := map[];
    }

    ghost function Points(): (points: set<Breakpoint>)
      reads this
    {
      (set a | a in globalBreakpoints :: Global(a))
      + (set w, a | w in localBreakpoints && a in localBreakpoints[w] :: Local(a, w))
    }

    // Looking up a wavefront that has no set yet creates an empty one.
    method LocalSet(wfId: int) returns (s: set<Address>)
      modifies this`localBreakpoints
      ensures Points() == old(Points())
      ensures wfId in localBreakpoints && localBreakpoints[wfId] == s
    {
      if wfId !in localBreakpoints {
        localBreakpoints := localBreakpoints[wfId := {}];
      }
      s := localBreakpoints[wfId];
    }

    method AddBreakpoint(breakpoint: Breakpoint)
      modifies this
      ensures Points() == old(Points()) + {breakpoint}
    {
      match breakpoint
      case Global(address) =>
        globalBreakpoints := globalBreakpoints + {address};
      case Local(address, wfId) =>
        var s := LocalSet(wfId);
        localBreakpoints := localBreakpoints[wfId := s + {address}];
    }

    method RemoveBreakpoint(breakpoint: Breakpoint)
      modifies this
      ensures Points() == old(Points()) - {breakpoint}
    {
      match breakpoint
      case Global(address) =>
        globalBreakpoints := globalBreakpoints - {address};
      case Local(address, wfId) =>
        var s := LocalSet(wfId);
        localBreakpoints := localBreakpoints[wfId := s - {address}];
    }

    method HasBreakpoint(address: Address) returns (found: bool)
      ensures found == (Global(address) in Points())
    {
      found := address in globalBreakpoints;
    }
  }
}
