/**
  The order in which a flush runs the commands of one queue.

  Command k waits for the commands `deps[k]`, all of them enqueued before k. Executing a command
  first executes the commands of its wait list, last added first, and skips every command that has
  already run. An out-of-order queue pops its deque from the back, an in-order queue from the front.

  `done` is the list of commands that have run so far, in the order in which they ran.
*/
module DrainOrder {

  ghost predicate WellFounded(deps: seq<seq<nat>>) {
    forall k :: 0 <= k < |deps| ==> Below(deps[k], k)
  }

  ghost predicate Below(s: seq<nat>, n: nat) {
    forall i :: 0 <= i < |s| ==> s[i] < n
  }

  ghost predicate Distinct(s: seq<nat>) {
    forall i, j :: 0 <= i < j < |s| ==> s[i] != s[j]
  }

  // The commands that have run once command c has been executed.
  ghost function Visit(deps: seq<seq<nat>>, c: nat, done: seq<nat>): seq<nat>
    requires WellFounded(deps) && c < |deps|
    decreases c, |deps[c]| + 1
  {
    if c in done then done else VisitAll(deps, c, deps[c], done) + [c]
  }

  // The commands that have run once the wait list `waiting` has been popped until it is empty.
  ghost function VisitAll(deps: seq<seq<nat>>, bound: nat, waiting: seq<nat>, done: seq<nat>): seq<nat>
    requires WellFounded(deps) && bound <= |deps| && Below(waiting, bound)
    decreases bound, |waiting|
  {
    if waiting == [] then done
    else
      var top := waiting[|waiting| - 1];
      VisitAll(deps, bound, waiting[..|waiting| - 1], Visit(deps, top, done))
  }

  // The commands that have run once the whole deque has been drained.
  ghost function Drain(deps: seq<seq<nat>>, outOfOrder: bool, deque: seq<nat>, done: seq<nat>): seq<nat>
    requires WellFounded(deps) && Below(deque, |deps|)
    decreases |deque|
  {
    if deque == [] then done
    else if outOfOrder then
      Drain(deps, outOfOrder, deque[..|deque| - 1], Visit(deps, deque[|deque| - 1], done))
    else
      Drain(deps, outOfOrder, deque[1..], Visit(deps, deque[0], done))
  }

  // What has run already need not be waited for.
  lemma {:induction false} VisitAllSkips(deps: seq<seq<nat>>, bound: nat, waiting: seq<nat>, n: nat, done: seq<nat>)
    requires WellFounded(deps) && bound <= |deps| && Below(waiting, bound) && n <= |waiting|
    requires forall i :: n <= i < |waiting| ==> waiting[i] in done
    ensures VisitAll(deps, bound, waiting, done) == VisitAll(deps, bound, waiting[..n], done)
    decreases |waiting|
  {
    if n < |waiting| {
      var rest := waiting[..|waiting| - 1];
      VisitAllSkips(deps, bound, rest, n, done);
      assert rest[..n] == waiting[..n];
    } else {
      assert waiting[..n] == waiting;
    }
  }

  // The commands of a deque that have not run, in order.
  function Unrun(deque: seq<nat>, done: seq<nat>): (r: seq<nat>)
    ensures forall x :: x in r <==> x in deque && x !in done
    ensures |r| <= |deque|
  {
    if deque == [] then []
    else (if deque[0] in done then [] else [deque[0]]) + Unrun(deque[1..], done)
  }

  lemma RestDistinct(deque: seq<nat>)
    requires Distinct(deque) && deque != []
    ensures Distinct(deque[1..]) && deque[0] !in deque[1..]
  {
    var rest := deque[1..];
    forall i | 0 <= i < |rest| ensures rest[i] != deque[0] {
      assert rest[i] == deque[i + 1];
    }
    forall i, j | 0 <= i < j < |rest| ensures rest[i] != rest[j] {
      assert rest[i] == deque[i + 1] && rest[j] == deque[j + 1];
    }
  }

  lemma {:induction false} UnrunDistinct(deque: seq<nat>, done: seq<nat>)
    requires Distinct(deque)
    ensures Distinct(Unrun(deque, done))
  {
    if deque != [] {
      RestDistinct(deque);
      UnrunDistinct(deque[1..], done);
    }
  }

  lemma {:induction false} UnrunLater(deque: seq<nat>, done: seq<nat>, x: nat)
    requires x !in deque
    ensures Unrun(deque, done + [x]) == Unrun(deque, done)
  {
    if deque != [] {
      UnrunLater(deque[1..], done, x);
    }
  }

  lemma {:induction false} UnrunAll(deque: seq<nat>, done: seq<nat>)
    requires forall x :: x in deque ==> x !in done
    ensures Unrun(deque, done) == deque
  {
    if deque != [] {
      assert deque[0] in deque;
      UnrunAll(deque[1..], done);
    }
  }

  // Every command in `done` comes after everything it waits for.
  ghost predicate Ordered(deps: seq<seq<nat>>, done: seq<nat>) {
    && Below(done, |deps|)
    && forall i, e :: 0 <= i < |done| && done[i] < |deps| && e in deps[done[i]] ==> e in done[..i]
  }

  // What one step of the search may add: it keeps `done` as a prefix, adds commands that were not
  // there, at most `bound`, and all inside `scope` when `scope` is closed under waiting.
  ghost predicate Grows(deps: seq<seq<nat>>, done: seq<nat>, after: seq<nat>, bound: nat) {
    && done <= after
    && Distinct(after)
    && Ordered(deps, after)
    && (forall x :: x in after ==> x in done || x < bound)
  }

  ghost predicate Closed(deps: seq<seq<nat>>, scope: set<nat>) {
    forall k, e :: k in scope && k < |deps| && e in deps[k] ==> e in scope
  }

  lemma {:induction false} GrowsTrans(deps: seq<seq<nat>>, a: seq<nat>, b: seq<nat>, c: seq<nat>, bound: nat)
    requires Grows(deps, a, b, bound) && Grows(deps, b, c, bound)
    ensures Grows(deps, a, c, bound)
  {
    forall x | x in c ensures x in a || x < bound { assert x in b || x < bound; }
  }

  lemma {:induction false} VisitGrows(deps: seq<seq<nat>>, c: nat, done: seq<nat>)
    requires WellFounded(deps) && c < |deps| && Distinct(done) && Ordered(deps, done)
    ensures Grows(deps, done, Visit(deps, c, done), c + 1)
    ensures c in Visit(deps, c, done)
    decreases c, |deps[c]| + 1
  {
    if c in done {
    } else {
      VisitAllGrows(deps, c, deps[c], done);
      var before := VisitAll(deps, c, deps[c], done);
      assert c !in before;
      var after := before + [c];
      forall i, e | 0 <= i < |after| && after[i] < |deps| && e in deps[after[i]] ensures e in after[..i] {
        if i < |before| {
          assert after[i] == before[i] && after[..i] == before[..i];
        } else {
          assert after[..i] == before;
        }
      }
    }
  }

  lemma {:induction false} VisitAllGrows(deps: seq<seq<nat>>, bound: nat, waiting: seq<nat>, done: seq<nat>)
    requires WellFounded(deps) && bound <= |deps| && Below(waiting, bound)
    requires Distinct(done) && Ordered(deps, done)
    ensures Grows(deps, done, VisitAll(deps, bound, waiting, done), bound)
    ensures forall x :: x in waiting ==> x in VisitAll(deps, bound, waiting, done)
    decreases bound, |waiting|
  {
    if waiting != [] {
      var n := |waiting| - 1;
      var top := waiting[n];
      var mid := Visit(deps, top, done);
      VisitGrows(deps, top, done);
      VisitAllGrows(deps, bound, waiting[..n], mid);
      assert Grows(deps, done, mid, bound);
      GrowsTrans(deps, done, mid, VisitAll(deps, bound, waiting[..n], mid), bound);
      assert waiting == waiting[..n] + [top];
    }
  }

  lemma {:induction false} VisitScope(deps: seq<seq<nat>>, c: nat, done: seq<nat>, scope: set<nat>)
    requires WellFounded(deps) && c < |deps| && Closed(deps, scope) && c in scope
    ensures forall x :: x in Visit(deps, c, done) ==> x in done || x in scope
    decreases c, |deps[c]| + 1
  {
    if c !in done {
      VisitAllScope(deps, c, deps[c], done, scope);
    }
  }

  lemma {:induction false} VisitAllScope(deps: seq<seq<nat>>, bound: nat, waiting: seq<nat>, done: seq<nat>,
                                         scope: set<nat>)
    requires WellFounded(deps) && bound <= |deps| && Below(waiting, bound)
    requires Closed(deps, scope) && forall x :: x in waiting ==> x in scope
    ensures forall x :: x in VisitAll(deps, bound, waiting, done) ==> x in done || x in scope
    decreases bound, |waiting|
  {
    if waiting != [] {
      var n := |waiting| - 1;
      var mid := Visit(deps, waiting[n], done);
      VisitScope(deps, waiting[n], done, scope);
      VisitAllScope(deps, bound, waiting[..n], mid, scope);
    }
  }

  lemma {:induction false} DrainGrows(deps: seq<seq<nat>>, outOfOrder: bool, deque: seq<nat>, done: seq<nat>,
                                      scope: set<nat>)
    requires WellFounded(deps) && Below(deque, |deps|) && Distinct(done) && Ordered(deps, done)
    requires Closed(deps, scope) && forall x :: x in deque ==> x in scope
    ensures Grows(deps, done, Drain(deps, outOfOrder, deque, done), |deps|)
    ensures forall x :: x in deque ==> x in Drain(deps, outOfOrder, deque, done)
    ensures forall x :: x in Drain(deps, outOfOrder, deque, done) ==> x in done || x in scope
    decreases |deque|
  {
    if deque != [] {
      var n := |deque| - 1;
      var c := if outOfOrder then deque[n] else deque[0];
      var rest := if outOfOrder then deque[..n] else deque[1..];
      assert deque == if outOfOrder then rest + [c] else [c] + rest;
      var mid := Visit(deps, c, done);
      VisitGrows(deps, c, done);
      VisitScope(deps, c, done, scope);
      DrainGrows(deps, outOfOrder, rest, mid, scope);
      assert Grows(deps, done, mid, |deps|);
      GrowsTrans(deps, done, mid, Drain(deps, outOfOrder, rest, mid), |deps|);
    }
  }

  lemma {:induction false} DrainExtends(deps: seq<seq<nat>>, outOfOrder: bool, deque: seq<nat>, done: seq<nat>)
    requires WellFounded(deps) && Below(deque, |deps|) && Distinct(done) && Ordered(deps, done)
    ensures Grows(deps, done, Drain(deps, outOfOrder, deque, done), |deps|)
  {
    var scope := set k: nat | k < |deps| && Below(deps[k], k);
    forall x | x in deque ensures x in scope {
      var i :| 0 <= i < |deque| && deque[i] == x;
    }
    forall k, e | k in scope && k < |deps| && e in deps[k] ensures e in scope {
      var i :| 0 <= i < |deps[k]| && deps[k][i] == e;
    }
    DrainGrows(deps, outOfOrder, deque, done, scope);
  }

  // Two duplicate-free lists with the same members are permutations of each other.
  lemma {:induction false} DistinctPermutation(a: seq<nat>, b: seq<nat>)
    requires Distinct(a) && Distinct(b) && forall x :: x in a <==> x in b
    ensures multiset(a) == multiset(b)
  {
    forall x: nat ensures multiset(a)[x] == multiset(b)[x] {
      DistinctCount(a, x);
      DistinctCount(b, x);
    }
  }

  lemma {:induction false} DistinctCount(a: seq<nat>, x: nat)
    requires Distinct(a)
    ensures multiset(a)[x] == if x in a then 1 else 0
  {
    if a != [] {
      var n := |a| - 1;
      assert a == a[..n] + [a[n]];
      DistinctCount(a[..n], x);
    }
  }

  /**
    Draining runs every command of the deque that has not run exactly once and nothing else, and runs
    each command only after everything it waits for, whatever the wait lists are.
  */
  lemma {:induction false} DrainIsTopological(deps: seq<seq<nat>>, outOfOrder: bool, deque: seq<nat>, done: seq<nat>)
    requires WellFounded(deps) && Below(deque, |deps|) && Distinct(deque)
    requires Distinct(done) && Ordered(deps, done)
    requires forall k, e :: k in deque && e in deps[k] ==> e in deque || e in done
    ensures var after := Drain(deps, outOfOrder, deque, done);
            && done <= after && Distinct(after) && Ordered(deps, after)
            && multiset(after[|done|..]) == multiset(Unrun(deque, done))
  {
    var after := Drain(deps, outOfOrder, deque, done);
    var scope := (set x | x in deque) + (set x | x in done);
    forall k, e | k in scope && k < |deps| && e in deps[k] ensures e in scope {
      if k in done {
        var i :| 0 <= i < |done| && done[i] == k;
        assert e in done[..i];
      }
    }
    DrainGrows(deps, outOfOrder, deque, done, scope);
    hide Drain;
    hide Ordered;
    hide WellFounded;
    UnrunDistinct(deque, done);
    TailIsPermutation(done, after, Unrun(deque, done));
  }

  lemma {:induction false} TailIsPermutation(done: seq<nat>, after: seq<nat>, added: seq<nat>)
    requires done <= after && Distinct(after) && Distinct(added)
    requires forall x :: x in added ==> x !in done
    requires forall x :: x in after <==> x in done || x in added
    ensures multiset(after[|done|..]) == multiset(added)
  {
    var ran := after[|done|..];
    assert after == done + ran;
    forall x ensures x in ran <==> x in added {
      if x in ran {
        var i :| 0 <= i < |ran| && ran[i] == x;
        assert after[|done| + i] == x;
      }
    }
    forall i, j | 0 <= i < j < |ran| ensures ran[i] != ran[j] {
      assert ran[i] == after[|done| + i] && ran[j] == after[|done| + j];
    }
    DistinctPermutation(ran, added);
  }

  // Commands without wait lists.
  ghost predicate Free(deps: seq<seq<nat>>, deque: seq<nat>) {
    forall i :: 0 <= i < |deque| ==> deque[i] < |deps| && deps[deque[i]] == []
  }

  // Without wait lists an in-order queue runs what is left of its deque in order.
  lemma {:induction false} InOrderDrain(deps: seq<seq<nat>>, deque: seq<nat>, done: seq<nat>)
    requires WellFounded(deps) && Below(deque, |deps|) && Distinct(deque) && Free(deps, deque)
    ensures Drain(deps, false, deque, done) == done + Unrun(deque, done)
    decreases |deque|
  {
    hide *;
    if deque == [] {
      DrainNothing(deps, done);
      assert done + [] == done;
    } else {
      var x, rest := deque[0], deque[1..];
      FrontOf(deps, deque, done);
      RestDistinct(deque);
      if x in done {
        InOrderDrain(deps, rest, done);
      } else {
        InOrderDrain(deps, rest, done + [x]);
        UnrunLater(rest, done, x);
        assert done + [x] + Unrun(rest, done) == done + ([x] + Unrun(rest, done));
      }
    }
  }

  lemma DrainNothing(deps: seq<seq<nat>>, done: seq<nat>)
    requires WellFounded(deps) && Below([], |deps|)
    ensures Drain(deps, false, [], done) == done && Unrun([], done) == []
  {
  }

  lemma FrontOf(deps: seq<seq<nat>>, deque: seq<nat>, done: seq<nat>)
    requires WellFounded(deps) && Below(deque, |deps|) && deque != [] && Free(deps, deque)
    ensures Below(deque[1..], |deps|) && Free(deps, deque[1..])
    ensures var done' := if deque[0] in done then done else done + [deque[0]];
            Drain(deps, false, deque, done) == Drain(deps, false, deque[1..], done')
    ensures Unrun(deque, done)
            == if deque[0] in done then Unrun(deque[1..], done) else [deque[0]] + Unrun(deque[1..], done)
  {
    VisitFree(deps, deque[0], done);
  }

  lemma VisitFree(deps: seq<seq<nat>>, x: nat, done: seq<nat>)
    requires WellFounded(deps) && x < |deps| && deps[x] == []
    ensures Visit(deps, x, done) == if x in done then done else done + [x]
  {
  }

  // ---------------------------------------------------------------- last added, first run

  function Backwards(s: seq<nat>): (r: seq<nat>)
    ensures |r| == |s| && forall i :: 0 <= i < |s| ==> r[i] == s[|s| - 1 - i]
  {
    if s == [] then [] else [s[|s| - 1]] + Backwards(s[..|s| - 1])
  }

  lemma {:induction false} UnrunLast(deque: seq<nat>, x: nat, done: seq<nat>)
    ensures Unrun(deque + [x], done) == Unrun(deque, done) + if x in done then [] else [x]
    decreases |deque|
  {
    if deque == [] {
      assert [] + [x] == [x] && [x][1..] == [];
    } else {
      UnrunFirst(deque + [x], done);
      UnrunFirst(deque, done);
      hide *;
      assert (deque + [x])[1..] == deque[1..] + [x] && (deque + [x])[0] == deque[0];
      UnrunLast(deque[1..], x, done);
      Regroup(if deque[0] in done then [] else [deque[0]], Unrun(deque[1..], done), if x in done then [] else [x]);
    }
  }

  lemma Regroup(a: seq<nat>, b: seq<nat>, c: seq<nat>)
    ensures a + (b + c) == a + b + c
  {
  }

  lemma UnrunFirst(deque: seq<nat>, done: seq<nat>)
    requires deque != []
    ensures Unrun(deque, done) == (if deque[0] in done then [] else [deque[0]]) + Unrun(deque[1..], done)
  {
  }

  lemma BackwardsLast(s: seq<nat>, x: nat)
    ensures Backwards(s + [x]) == [x] + Backwards(s)
  {
    assert (s + [x])[..|s|] == s;
  }

  // A wait list whose commands wait for nothing themselves is run from its end.
  lemma {:induction false} VisitAllBackwards(deps: seq<seq<nat>>, bound: nat, waiting: seq<nat>, done: seq<nat>)
    requires WellFounded(deps) && bound <= |deps| && Below(waiting, bound) && Distinct(waiting) && Free(deps, waiting)
    ensures VisitAll(deps, bound, waiting, done) == done + Backwards(Unrun(waiting, done))
    decreases |waiting|
  {
    hide *;
    if waiting == [] {
      VisitNothing(deps, bound, done);
      assert done + [] == done;
    } else {
      var x, rest := waiting[|waiting| - 1], waiting[..|waiting| - 1];
      BackOf(deps, bound, waiting, done);
      assert waiting == rest + [x];
      UnrunLast(rest, x, done);
      if x in done {
        VisitAllBackwards(deps, bound, rest, done);
        assert Unrun(rest, done) + [] == Unrun(rest, done);
      } else {
        VisitAllBackwards(deps, bound, rest, done + [x]);
        UnrunLater(rest, done, x);
        BackwardsLast(Unrun(rest, done), x);
        assert done + [x] + Backwards(Unrun(rest, done)) == done + ([x] + Backwards(Unrun(rest, done)));
      }
    }
  }

  lemma VisitNothing(deps: seq<seq<nat>>, bound: nat, done: seq<nat>)
    requires WellFounded(deps) && bound <= |deps| && Below([], bound)
    ensures VisitAll(deps, bound, [], done) == done && Backwards(Unrun([], done)) == []
  {
  }

  lemma BackOf(deps: seq<seq<nat>>, bound: nat, waiting: seq<nat>, done: seq<nat>)
    requires WellFounded(deps) && bound <= |deps| && Below(waiting, bound) && Distinct(waiting) && Free(deps, waiting)
    requires waiting != []
    ensures var x, rest := waiting[|waiting| - 1], waiting[..|waiting| - 1];
            && Below(rest, bound) && Distinct(rest) && Free(deps, rest) && x !in rest
            && VisitAll(deps, bound, waiting, done) == VisitAll(deps, bound, rest, if x in done then done else done + [x])
  {
    VisitFree(deps, waiting[|waiting| - 1], done);
    hide Visit;
  }

  /**
    A wait list is a stack: the command added last is executed first, and the command that waits comes
    after all of them.
  */
  lemma {:induction false} WaitListIsStack(deps: seq<seq<nat>>, c: nat, done: seq<nat>)
    requires WellFounded(deps) && c < |deps| && c !in done && Distinct(deps[c]) && Free(deps, deps[c])
    ensures Visit(deps, c, done) == done + Backwards(Unrun(deps[c], done)) + [c]
  {
    VisitAllBackwards(deps, c, deps[c], done);
  }

  // An out-of-order queue runs its deque as if it were one wait list.
  lemma {:induction false} DrainIsVisitAll(deps: seq<seq<nat>>, deque: seq<nat>, done: seq<nat>)
    requires WellFounded(deps) && Below(deque, |deps|)
    ensures Drain(deps, true, deque, done) == VisitAll(deps, |deps|, deque, done)
    decreases |deque|
  {
    if deque != [] {
      hide Visit;
      DrainIsVisitAll(deps, deque[..|deque| - 1], Visit(deps, deque[|deque| - 1], done));
    }
  }

  /**
    Without wait lists an out-of-order queue runs what is left of its deque from the end.
  */
  lemma {:induction false} OutOfOrderDrain(deps: seq<seq<nat>>, deque: seq<nat>, done: seq<nat>)
    requires WellFounded(deps) && Below(deque, |deps|) && Distinct(deque) && Free(deps, deque)
    ensures Drain(deps, true, deque, done) == done + Backwards(Unrun(deque, done))
  {
    DrainIsVisitAll(deps, deque, done);
    VisitAllBackwards(deps, |deps|, deque, done);
  }
}
