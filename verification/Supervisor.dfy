/**
 The node supervisor: it keeps one daemon running for every registered node, holds back nodes whose daemon
 died, and lets them start again only after their configuration has been away.
 */
module Supervisor {
  import opened Wrappers

  type Id = string
  type Pid = nat

  /** What is worth remembering of a run: daemons started, and the ids each successful rescan saw. */
  datatype Event = Spawned(id: Id) | Rescanned(ids: set<Id>)

  /** `log` is history. */
  datatype State = State(children: map<Id, Pid>, dead: set<Id>, log: seq<Event>)

  /** The surroundings during one tick: which running daemons have exited, what the rescan of the configuration
      directory finds (`None` when it fails), and how each attempt to start a daemon ends. */
  datatype Input = Input(hasExited: Id -> bool, rescan: Option<seq<Id>>, spawn: Id -> Option<Pid>)

  predicate Distinct(ids: seq<Id>) {
    forall i, j :: 0 <= i < j < |ids| ==> ids[i] != ids[j]
  }

  // ---------------------------------------------------------------------------------------------
  // One tick, phase by phase.
  // ---------------------------------------------------------------------------------------------

  function ExitedIds(children: map<Id, Pid>, hasExited: Id -> bool): set<Id> {
    set id | id in children && hasExited(id)
  }

  function Reap(s: State, hasExited: Id -> bool): State {
    var exited := ExitedIds(s.children, hasExited);
    s.(children := s.children - exited, dead := s.dead + exited)
  }

  function See(s: State, ids: seq<Id>): State {
    s.(log := s.log + [Rescanned(set id | id in ids)])
  }

  function StartOne(s: State, id: Id, spawn: Id -> Option<Pid>): State {
    if id in s.children || id in s.dead || spawn(id).None? then s
    else s.(children := s.children[id := spawn(id).value], log := s.log + [Spawned(id)])
  }

  function StartAll(s: State, ids: seq<Id>, spawn: Id -> Option<Pid>): State
    decreases |ids|
  {
    if ids == [] then s else StartAll(StartOne(s, ids[0], spawn), ids[1..], spawn)
  }

  function Forget(s: State, ids: seq<Id>): State {
    s.(children := map id | id in s.children && id in ids :: s.children[id], dead := set id | id in s.dead && id in ids)
  }

  function Tick(s: State, x: Input): State {
    var reaped := Reap(s, x.hasExited);
    if x.rescan.None? then reaped
    else Forget(StartAll(See(reaped, x.rescan.value), x.rescan.value, x.spawn), x.rescan.value)
  }

  function Boot(ids: seq<Id>, spawn: Id -> Option<Pid>): State {
    StartAll(State(map[], {}, []), ids, spawn)
  }

  function Run(s: State, xs: seq<Input>): State
    decreases |xs|
  {
    if xs == [] then s else Run(Tick(s, xs[0]), xs[1..])
  }

  // ---------------------------------------------------------------------------------------------
  // Traces: no daemon is started twice without its configuration having been away in between.
  // ---------------------------------------------------------------------------------------------

  /** Some rescan between positions `i` and `j` of the log did not see `id`. */
  ghost predicate AwayBetween(log: seq<Event>, id: Id, i: int, j: int) {
    exists k :: i < k < j && 0 <= k < |log| && log[k].Rescanned? && id !in log[k].ids
  }

  ghost predicate NoRestartWithoutAbsence(log: seq<Event>) {
    forall id, i, j :: 0 <= i < j < |log| && log[i] == Spawned(id) && log[j] == Spawned(id)
      ==> AwayBetween(log, id, i, j)
  }

  /** Since every start of `id`, some rescan has not seen it. */
  ghost predicate MayStart(log: seq<Event>, id: Id) {
    forall i :: 0 <= i < |log| && log[i] == Spawned(id) ==> AwayBetween(log, id, i, |log|)
  }

  ghost predicate Inv(s: State) {
    && s.children.Keys !! s.dead
    && NoRestartWithoutAbsence(s.log)
    && forall id :: id !in s.children && id !in s.dead ==> MayStart(s.log, id)
  }

  lemma AwayGrows(log: seq<Event>, more: seq<Event>, id: Id, i: int, j: int)
    requires AwayBetween(log, id, i, j)
    ensures AwayBetween(log + more, id, i, j)
    ensures forall j' :: j <= j' ==> AwayBetween(log + more, id, i, j')
  {
    var k :| i < k < j && 0 <= k < |log| && log[k].Rescanned? && id !in log[k].ids;
    assert (log + more)[k] == log[k];
  }

  lemma StartKeeps(s: State, id: Id, spawn: Id -> Option<Pid>)
    requires Inv(s)
    ensures Inv(StartOne(s, id, spawn))
  {
    var s' := StartOne(s, id, spawn);
    if s' != s {
      var n := |s.log|;
      forall a, i, j | 0 <= i < j < |s'.log| && s'.log[i] == Spawned(a) && s'.log[j] == Spawned(a)
        ensures AwayBetween(s'.log, a, i, j)
      {
        if j < n {
          AwayGrows(s.log, [Spawned(id)], a, i, j);
        } else {
          assert a == id && MayStart(s.log, id) && s.log[i] == Spawned(id);
          AwayGrows(s.log, [Spawned(id)], id, i, n);
        }
      }
      forall a | a !in s'.children && a !in s'.dead
        ensures MayStart(s'.log, a)
      {
        LogGrows(s.log, Spawned(id), a);
      }
    }
  }

  lemma LogGrows(log: seq<Event>, ev: Event, id: Id)
    requires MayStart(log, id) && ev != Spawned(id)
    ensures MayStart(log + [ev], id)
  {
    forall i | 0 <= i < |log| + 1 && (log + [ev])[i] == Spawned(id)
      ensures AwayBetween(log + [ev], id, i, |log| + 1)
    {
      assert log[i] == Spawned(id);
      AwayGrows(log, [ev], id, i, |log|);
    }
  }

  lemma {:induction false} StartAllKeeps(s: State, ids: seq<Id>, spawn: Id -> Option<Pid>)
    requires Inv(s)
    ensures Inv(StartAll(s, ids, spawn))
    decreases |ids|
  {
    if ids != [] {
      StartKeeps(s, ids[0], spawn);
      StartAllKeeps(StartOne(s, ids[0], spawn), ids[1..], spawn);
    }
  }

  lemma SeeKeeps(s: State, ids: seq<Id>)
    requires Inv(s)
    ensures Inv(See(s, ids))
    ensures forall id :: id !in ids ==> MayStart(See(s, ids).log, id)
  {
    var ev := Rescanned(set id | id in ids);
    forall id, i, j | 0 <= i < j < |s.log| + 1 && (s.log + [ev])[i] == Spawned(id) && (s.log + [ev])[j] == Spawned(id)
      ensures AwayBetween(s.log + [ev], id, i, j)
    {
      assert s.log[i] == Spawned(id) && s.log[j] == Spawned(id);
      AwayGrows(s.log, [ev], id, i, j);
    }
    forall id | id !in s.children && id !in s.dead
      ensures MayStart(s.log + [ev], id)
    {
      LogGrows(s.log, ev, id);
    }
    forall id | id !in ids
      ensures MayStart(s.log + [ev], id)
    {
      assert (s.log + [ev])[|s.log|] == ev && id !in ev.ids;
    }
  }

  /** Starting the ids of a rescan changes nothing for the others. */
  lemma {:induction false} StartAllIsLocal(s: State, ids: seq<Id>, all: seq<Id>, spawn: Id -> Option<Pid>)
    requires forall id :: id in ids ==> id in all
    requires forall id :: id !in all ==> MayStart(s.log, id)
    ensures var s' := StartAll(s, ids, spawn);
      && s'.dead == s.dead && s.children.Keys <= s'.children.Keys
      && (forall id :: id !in all ==> MayStart(s'.log, id))
      && (forall id :: id in ids ==> id in s'.children || id in s'.dead || spawn(id).None?)
    decreases |ids|
  {
    if ids != [] {
      var s1 := StartOne(s, ids[0], spawn);
      forall id | id !in all
        ensures MayStart(s1.log, id)
      {
        if s1 != s {
          LogGrows(s.log, Spawned(ids[0]), id);
        }
      }
      StartAllIsLocal(s1, ids[1..], all, spawn);
    }
  }

  lemma TickKeeps(s: State, x: Input)
    requires Inv(s)
    ensures Inv(Tick(s, x))
  {
    var reaped := Reap(s, x.hasExited);
    assert Inv(reaped);
    if x.rescan.Some? {
      var ids := x.rescan.value;
      var seen := See(reaped, ids);
      SeeKeeps(reaped, ids);
      StartAllKeeps(seen, ids, x.spawn);
      StartAllIsLocal(seen, ids, ids, x.spawn);
    }
  }

  lemma {:induction false} RunKeeps(s: State, xs: seq<Input>)
    requires Inv(s)
    ensures Inv(Run(s, xs))
    decreases |xs|
  {
    if xs != [] {
      TickKeeps(s, xs[0]);
      RunKeeps(Tick(s, xs[0]), xs[1..]);
    }
  }

  /** Over any run, whatever exits, appears, disappears or fails: between two successful starts of one node some
      successful rescan saw its configuration missing. */
  lemma NoFlapping(ids: seq<Id>, spawn: Id -> Option<Pid>, xs: seq<Input>)
    ensures NoRestartWithoutAbsence(Run(Boot(ids, spawn), xs).log)
  {
    StartAllKeeps(State(map[], {}, []), ids, spawn);
    RunKeeps(Boot(ids, spawn), xs);
  }

  /** After every successful rescan, running and held nodes are disjoint, all registered, and together cover every
      registered node whose start did not fail; and nodes that were running and did not exit still run. */
  lemma Reconciled(s: State, x: Input)
    requires Inv(s) && x.rescan.Some?
    ensures var s', ids := Tick(s, x), x.rescan.value;
      && s'.children.Keys !! s'.dead
      && (forall id :: id in s'.children || id in s'.dead ==> id in ids)
      && (forall id :: id in ids ==> id in s'.children || id in s'.dead || x.spawn(id).None?)
      && (forall id :: id in ids && id in s.children ==> (id in s'.dead <==> x.hasExited(id)))
      && (forall id :: id in ids && id in s.dead ==> id in s'.dead)
      && (forall id :: id in s'.dead ==> id in s.dead || (id in s.children && x.hasExited(id)))
  {
    TickKeeps(s, x);
    var reaped, ids := Reap(s, x.hasExited), x.rescan.value;
    SeeKeeps(reaped, ids);
    StartAllIsLocal(See(reaped, ids), ids, ids, x.spawn);
    StartAllKeeps(See(reaped, ids), ids, x.spawn);
  }

  /** A failed rescan only reaps: nothing is stopped, started or released. */
  lemma FailedRescanIsHarmless(s: State, x: Input)
    requires x.rescan.None?
    ensures var s' := Tick(s, x);
      && s'.log == s.log && s.dead <= s'.dead
      && s'.children.Keys + s'.dead == s.children.Keys + s.dead
      && forall id :: id in s'.children ==> id in s.children && s'.children[id] == s.children[id]
  {
    var s' := Tick(s, x);
    assert s'.children.Keys == s.children.Keys - ExitedIds(s.children, x.hasExited);
  }

  // ---------------------------------------------------------------------------------------------
  // The supervisor object.
  // ---------------------------------------------------------------------------------------------

  class Daemons {
    var children: map<Id, Pid>
    var dead: set<Id>
    ghost var log: seq<Event>

    ghost function Abstract(): State
      reads this
    {
      State(children, dead, log)
    }

    ghost predicate Valid()
      reads this
    {
      Inv(Abstract())
    }

    constructor ()
      ensures Valid() && Abstract() == State(map[], {}, [])
    {
      children, dead, log := map[], {}, [];
    }

    /** The first start of all registered nodes; `ok` is false when none could be started. */
    method Start(ids: seq<Id>, spawn: Id -> Option<Pid>) returns (ok: bool)
      requires Abstract() == State(map[], {}, [])
      requires Distinct(ids)
      modifies this
      ensures Valid() && Abstract() == Boot(ids, spawn)
      ensures ok <==> exists id :: id in ids && spawn(id).Some?
    {
      StartAllKeeps(Abstract(), ids, spawn);
      var i := 0;
      while i < |ids|
        invariant 0 <= i <= |ids|
        invariant dead == {} && StartAll(State(map[], {}, []), ids, spawn) == StartAll(Abstract(), ids[i..], spawn)
        invariant forall id :: id in children <==> id in ids[..i] && spawn(id).Some?
      {
        assert ids[i..][0] == ids[i] && ids[i..][1..] == ids[i + 1..];
        assert ids[..i + 1] == ids[..i] + [ids[i]];
        assert ids[i] !in ids[..i];
        var child := spawn(ids[i]);
        if child.Some? {
          children := children[ids[i] := child.value];
          log := log + [Spawned(ids[i])];
        }
        i := i + 1;
      }
      assert ids[..i] == ids;
      ok := |children| > 0;
      if exists id :: id in ids && spawn(id).Some? {
        var id :| id in ids && spawn(id).Some?;
        assert id in children;
      } else {
        assert children.Keys == {};
      }
    }

    method Reconcile(x: Input)
      requires Valid()
      modifies this
      ensures Valid() && Abstract() == Tick(old(Abstract()), x)
    {
      TickKeeps(Abstract(), x);
      ReapExited(x.hasExited);
      if x.rescan.None? {
        return;
      }
      var current := x.rescan.value;
      log := log + [Rescanned(set id | id in current)];
      ghost var seen := Abstract();
      var i := 0;
      while i < |current|
        invariant 0 <= i <= |current|
        invariant StartAll(seen, current, x.spawn) == StartAll(Abstract(), current[i..], x.spawn)
      {
        var id := current[i];
        assert current[i..][0] == id && current[i..][1..] == current[i + 1..];
        if id !in children && id !in dead {
          var child := x.spawn(id);
          if child.Some? {
            children := children[id := child.value];
            log := log + [Spawned(id)];
          }
        }
        i := i + 1;
      }
      StopRemoved(current);
      dead := set id | id in dead && id in current;
    }

    method ReapExited(hasExited: Id -> bool)
      modifies this
      ensures Abstract() == Reap(old(Abstract()), hasExited)
    {
      var exited := ExitedIds(children, hasExited);
      var left := exited;
      while left != {}
        invariant left <= exited && log == old(log)
        invariant children == old(children) - (exited - left) && dead == old(dead) + (exited - left)
        decreases |left|
      {
        var id :| id in left;
        children := children - {id};
        dead := dead + {id};
        left := left - {id};
      }
      assert exited - {} == exited;
    }

    method StopRemoved(current: seq<Id>)
      modifies this`children
      ensures children == map id | id in old(children) && id in current :: old(children)[id]
    {
      var removed := set id | id in children && id !in current;
      var left := removed;
      while left != {}
        invariant left <= removed && children == old(children) - (removed - left)
        decreases |left|
      {
        var id :| id in left;
        children := children - {id};
        left := left - {id};
      }
    }
  }
}
