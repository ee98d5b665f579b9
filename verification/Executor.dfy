/**
 * The frame-stepped executor: a slab of pollables, a waker map, a ready list, and the loop that drives them.
 *
 * Futures are arbitrary: a poll is any list of actions. The one thing taken from the language is reference
 * counting, so a registration is dropped when the last handle, wait or waker entry that refers to it goes.
 */
module Executor {
  import opened Options

  /** A registration: the slab key it was given, and the pollable it was given it for. */
  datatype Reg = Reg(key: nat, pollable: nat)

  /**
   * A `WaitFor`: `holder` is the task whose future it is part of, if it is not where anybody can reach it, and
   * `poller` the task that polled it last and found it not ready; its needs-deregistration flag is `poller.Some?`.
   */
  datatype Wait = Wait(reg: nat, holder: Option<nat>, poller: Option<nat>)

  datatype Entry = Entry(reg: nat, task: nat)

  /** The bookkeeping: waits are named by the unique number they were created with. */
  datatype Mem = Mem(
    slots: seq<Option<nat>>,
    vacant: seq<nat>,
    regs: seq<Reg>,
    handles: seq<Option<nat>>,
    waits: seq<Option<Wait>>,
    wakers: map<nat, Entry>)

  datatype Status = Queued | Running | Parked | Done

  /**
   * `parkedOn` are the waits that are part of the future that polled them last and found them not ready: in that poll
   * of the future or an earlier one, as long as the wait is neither found ready nor dropped nor moved.
   */
  datatype Sched = Sched(tasks: seq<Status>, ready: seq<nat>, woken: bool, parkedOn: set<nat>)

  datatype World = World(mem: Mem, sched: Sched)

  // ---------------------------------------------------------------- registrations

  predicate Referenced(m: Mem, r: nat) {
    || Some(r) in m.handles
    || (exists u :: 0 <= u < |m.waits| && m.waits[u].Some? && m.waits[u].value.reg == r)
    || (exists u :: u in m.wakers && m.wakers[u].reg == r)
  }

  function Inserted(m: Mem, p: nat): Mem {
    var n := |m.vacant|;
    var key := if n > 0 then m.vacant[n - 1] else |m.slots|;
    m.(slots := if n > 0 && key < |m.slots| then m.slots[key := Some(p)] else m.slots + [Some(p)],
       vacant := if n > 0 then m.vacant[..n - 1] else [],
       regs := m.regs + [Reg(key, p)],
       handles := m.handles + [Some(|m.regs|)])
  }

  /** A reference to `r` has gone: the last one takes the pollable out of the slab. */
  function Released(m: Mem, r: nat): Mem {
    if Referenced(m, r) || r >= |m.regs| || m.regs[r].key >= |m.slots| then m
    else m.(slots := m.slots[m.regs[r].key := None], vacant := m.vacant + [m.regs[r].key])
  }

  // ---------------------------------------------------------------- what the bookkeeping keeps

  ghost predicate RefOr(m: Mem, extra: Option<nat>, r: nat) { Referenced(m, r) || extra == Some(r) }

  /** Registration `r`'s key names the pollable it was made for. */
  predicate Names(m: Mem, r: nat) {
    r < |m.regs| && m.regs[r].key < |m.slots| && m.slots[m.regs[r].key] == Some(m.regs[r].pollable)
  }

  predicate NoRepeats(s: seq<nat>) { forall i, j | 0 <= i < j < |s| :: s[i] != s[j] }

  /** Exactly the vacant slots are on the free list, once each. */
  ghost predicate SlabOk(m: Mem) {
    && NoRepeats(m.vacant)
    && (forall k: nat :: k in m.vacant <==> k < |m.slots| && m.slots[k].None?)
  }

  /** Every referenced key is live and its own; every live slot is referenced. `extra` is a reference on its way out. */
  ghost predicate KeysOk(m: Mem, extra: Option<nat>) {
    && (forall r: nat | RefOr(m, extra, r) :: Names(m, r))
    && (forall r: nat, q: nat | RefOr(m, extra, r) && RefOr(m, extra, q) && r != q :: m.regs[r].key != m.regs[q].key)
    && (forall k: nat | k < |m.slots| && m.slots[k].Some? :: exists r: nat :: RefOr(m, extra, r) && m.regs[r].key == k)
  }

  predicate WaitAt(m: Mem, u: nat) { u < |m.waits| && m.waits[u].Some? }

  /** The waker map holds exactly the waits that were left not ready, each with its own registration and last poller. */
  ghost predicate WakersOk(m: Mem) {
    && (forall u: nat :: u in m.wakers <==> WaitAt(m, u) && m.waits[u].value.poller.Some?)
    && (forall u: nat | u in m.wakers && WaitAt(m, u) :: Some(m.wakers[u].task) == m.waits[u].value.poller)
    && (forall u: nat | u in m.wakers && WaitAt(m, u) :: m.wakers[u].reg == m.waits[u].value.reg)
  }

  ghost predicate MemOk(m: Mem) { SlabOk(m) && KeysOk(m, None) && WakersOk(m) }

  lemma InsertedSlab(m: Mem, p: nat)
    requires SlabOk(m)
    ensures SlabOk(Inserted(m, p))
    ensures var m', key := Inserted(m, p), Inserted(m, p).regs[|m.regs|].key;
      && key < |m'.slots| && m'.slots[key] == Some(p) && (key < |m.slots| ==> m.slots[key].None?)
      && key <= |m.slots| && |m'.slots| == if key < |m.slots| then |m.slots| else |m.slots| + 1
    ensures var m', key := Inserted(m, p), Inserted(m, p).regs[|m.regs|].key;
      forall k: nat | k != key && k < |m.slots| :: m'.slots[k] == m.slots[k]
  {
    var n, m' := |m.vacant|, Inserted(m, p);
    if n > 0 {
      var key := m.vacant[n - 1];
      assert key in m.vacant;
      forall k: nat ensures k in m'.vacant <==> k in m.vacant && k != key {
        if k in m.vacant && k != key {
          var i :| 0 <= i < n && m.vacant[i] == k;
          assert m'.vacant[i] == k;
        }
      }
    } else {
      assert forall k: nat :: k !in m.vacant;
    }
  }

  lemma InsertedRefs(m: Mem, p: nat, r: nat)
    ensures Referenced(Inserted(m, p), r) <==> Referenced(m, r) || r == |m.regs|
  {
    assert Inserted(m, p).handles[|m.handles|] == Some(|m.regs|);
  }

  /** The new registration is for the pollable. */
  lemma InsertedReg(m: Mem, p: nat)
    ensures var m' := Inserted(m, p); m'.regs[..|m.regs|] == m.regs && m'.regs[|m.regs|].pollable == p
    ensures Inserted(m, p).handles == m.handles + [Some(|m.regs|)]
  {}

  lemma InsertedOk(m: Mem, p: nat)
    requires MemOk(m)
    ensures MemOk(Inserted(m, p)) && Names(Inserted(m, p), |m.regs|)
  {
    var m', n := Inserted(m, p), |m.regs|;
    InsertedSlab(m, p);
    forall r: nat ensures Referenced(m', r) <==> Referenced(m, r) || r == n { InsertedRefs(m, p, r); }
    assert forall r: nat | Referenced(m, r) :: RefOr(m, None, r) && Names(m, r);
    assert forall r: nat | Referenced(m, r) :: m'.regs[r] == m.regs[r] && m'.regs[n].key != m.regs[r].key;
    forall k: nat | k < |m'.slots| && m'.slots[k].Some?
      ensures exists r: nat :: RefOr(m', None, r) && m'.regs[r].key == k
    {
      if k == m'.regs[n].key {
        assert RefOr(m', None, n);
      } else {
        assert m.slots[k].Some?;
        var r: nat :| RefOr(m, None, r) && m.regs[r].key == k;
        assert RefOr(m', None, r);
      }
    }
  }

  lemma ReleasedSlab(m: Mem, r: nat)
    requires SlabOk(m) && Names(m, r)
    ensures SlabOk(Released(m, r))
  {
    var key := m.regs[r].key;
    assert key !in m.vacant;
    assert forall k: nat :: k in m.vacant + [key] <==> k in m.vacant || k == key;
  }

  lemma ReleasedOk(m: Mem, r: nat)
    requires SlabOk(m) && KeysOk(m, Some(r)) && WakersOk(m)
    ensures MemOk(Released(m, r))
  {
    var m' := Released(m, r);
    assert RefOr(m, Some(r), r);
    ReleasedSlab(m, r);
    if Referenced(m, r) {
      assert forall q: nat :: RefOr(m, Some(r), q) <==> RefOr(m, None, q);
    } else {
      var key := m.regs[r].key;
      assert forall q: nat :: Referenced(m', q) <==> Referenced(m, q);
      forall q: nat | Referenced(m, q) ensures Names(m, q) && m.regs[q].key != key {
        assert RefOr(m, Some(r), q);
      }
      forall k: nat | k < |m'.slots| && m'.slots[k].Some?
        ensures exists q: nat :: RefOr(m', None, q) && m'.regs[q].key == k
      {
        assert k != key && m.slots[k].Some?;
        var q: nat :| RefOr(m, Some(r), q) && m.regs[q].key == k;
        assert RefOr(m', None, q);
      }
    }
  }

  // ---------------------------------------------------------------- what a future can do

  function HandleDropped(m: Mem, h: nat): Mem
    requires h < |m.handles| && m.handles[h].Some?
  {
    Released(m.(handles := m.handles[h := None]), m.handles[h].value)
  }

  function WaitMade(m: Mem, h: nat, me: Option<nat>): Mem
    requires h < |m.handles| && m.handles[h].Some?
  {
    m.(waits := m.waits + [Some(Wait(m.handles[h].value, me, None))])
  }

  /** A poll of a wait whose pollable is not ready leaves the polling task's waker in the map, over any other's. */
  function WaitParked(m: Mem, u: nat, me: nat): Mem
    requires WaitAt(m, u)
  {
    var w := m.waits[u].value;
    m.(waits := m.waits[u := Some(w.(poller := Some(me)))], wakers := m.wakers[u := Entry(w.reg, me)])
  }

  /** A wait moves into the future of a task, or to where anybody can reach it. */
  function WaitMoved(m: Mem, u: nat, holder: Option<nat>): Mem
    requires WaitAt(m, u)
  {
    m.(waits := m.waits[u := Some(m.waits[u].value.(holder := holder))])
  }

  function WaitDropped(m: Mem, u: nat): Mem
    requires WaitAt(m, u)
  {
    var w := m.waits[u].value;
    Released(m.(waits := m.waits[u := None], wakers := if w.poller.Some? then m.wakers - {u} else m.wakers), w.reg)
  }

  lemma HandleDroppedOk(m: Mem, h: nat)
    requires MemOk(m) && h < |m.handles| && m.handles[h].Some?
    ensures MemOk(HandleDropped(m, h))
  {
    var r := m.handles[h].value;
    var mid := m.(handles := m.handles[h := None]);
    assert Referenced(m, r);
    forall q: nat ensures RefOr(mid, Some(r), q) <==> RefOr(m, None, q) {
      if Some(q) in m.handles && q != r {
        var i :| 0 <= i < |m.handles| && m.handles[i] == Some(q);
        assert mid.handles[i] == Some(q);
      }
    }
    ReleasedOk(mid, r);
  }

  lemma HandleClonedOk(m: Mem, h: nat)
    requires MemOk(m) && h < |m.handles| && m.handles[h].Some?
    ensures MemOk(m.(handles := m.handles + [m.handles[h]]))
  {
    var m' := m.(handles := m.handles + [m.handles[h]]);
    forall q: nat ensures RefOr(m', None, q) <==> RefOr(m, None, q) {}
  }

  lemma WaitMadeOk(m: Mem, h: nat, me: Option<nat>)
    requires MemOk(m) && h < |m.handles| && m.handles[h].Some?
    ensures MemOk(WaitMade(m, h, me))
  {
    var m' := WaitMade(m, h, me);
    assert forall u: nat | u < |m.waits| :: m'.waits[u] == m.waits[u];
    forall q: nat ensures RefOr(m', None, q) <==> RefOr(m, None, q) {
      if u :| 0 <= u < |m'.waits| && m'.waits[u].Some? && m'.waits[u].value.reg == q {
        if u == |m.waits| {
          assert m.handles[h] == Some(q);
        }
      }
      if u :| 0 <= u < |m.waits| && m.waits[u].Some? && m.waits[u].value.reg == q {
        assert m'.waits[u].value.reg == q;
      }
    }
  }

  lemma WaitParkedOk(m: Mem, u: nat, me: nat)
    requires MemOk(m) && WaitAt(m, u)
    ensures MemOk(WaitParked(m, u, me))
  {
    var m' := WaitParked(m, u, me);
    forall q: nat ensures RefOr(m', None, q) <==> RefOr(m, None, q) {
      if v :| 0 <= v < |m.waits| && m.waits[v].Some? && m.waits[v].value.reg == q {
        assert m'.waits[v].value.reg == q;
      }
    }
  }

  lemma WaitMovedOk(m: Mem, u: nat, holder: Option<nat>)
    requires MemOk(m) && WaitAt(m, u)
    ensures MemOk(WaitMoved(m, u, holder))
  {
    var m' := WaitMoved(m, u, holder);
    forall q: nat ensures RefOr(m', None, q) <==> RefOr(m, None, q) {
      if v :| 0 <= v < |m.waits| && m.waits[v].Some? && m.waits[v].value.reg == q {
        assert m'.waits[v].value.reg == q;
      }
    }
  }

  lemma WaitDroppedOk(m: Mem, u: nat)
    requires MemOk(m) && WaitAt(m, u)
    ensures MemOk(WaitDropped(m, u))
  {
    var w := m.waits[u].value;
    var mid := m.(waits := m.waits[u := None], wakers := if w.poller.Some? then m.wakers - {u} else m.wakers);
    assert Referenced(m, w.reg);
    forall q: nat ensures RefOr(mid, Some(w.reg), q) <==> RefOr(m, None, q) {
      if v :| 0 <= v < |m.waits| && m.waits[v].Some? && m.waits[v].value.reg == q && q != w.reg {
        assert mid.waits[v] == m.waits[v];
      }
    }
    ReleasedOk(mid, w.reg);
  }

  // ---------------------------------------------------------------- tasks

  /** A waker fires: a parked task is queued, a running one notes it, others do not care. */
  function Woken(s: Sched, t: nat): Sched {
    if t >= |s.tasks| then s
    else match s.tasks[t]
      case Parked => s.(tasks := s.tasks[t := Queued], ready := s.ready + [t])
      case Running => s.(woken := true)
      case _ => s
  }

  function Spawned(s: Sched): Sched { s.(tasks := s.tasks + [Queued], ready := s.ready + [|s.tasks|]) }

  /** The front of the ready list begins to run. */
  function Begun(s: Sched): Sched
    requires s.ready != [] && s.ready[0] < |s.tasks|
  {
    s.(tasks := s.tasks[s.ready[0] := Running], ready := s.ready[1..], woken := false)
  }

  /** The poll came back pending: a task woken meanwhile is queued at once. */
  function Suspended(s: Sched, me: nat): Sched
    requires me < |s.tasks|
  {
    if s.woken then s.(tasks := s.tasks[me := Queued], ready := s.ready + [me], woken := false)
    else s.(tasks := s.tasks[me := Parked])
  }

  function Ended(s: Sched, me: nat): Sched
    requires me < |s.tasks|
  {
    s.(tasks := s.tasks[me := Done], woken := false)
  }

  /** The ready list holds exactly the queued tasks, once each. */
  ghost predicate ReadyOk(s: Sched) {
    && NoRepeats(s.ready)
    && (forall t: nat :: t in s.ready <==> t < |s.tasks| && s.tasks[t].Queued?)
  }

  /** Only `me` may be running. */
  ghost predicate OnlyRuns(s: Sched, me: Option<nat>) {
    forall t: nat | t < |s.tasks| :: s.tasks[t].Running? <==> me == Some(t)
  }

  /** Wait `u` is part of task `t`'s future, and it is `t` that its waker wakes. */
  ghost predicate AwaitedBy(m: Mem, u: nat, t: nat) {
    u in m.wakers && m.wakers[u].task == t && WaitAt(m, u) && m.waits[u].value.holder == Some(t)
  }

  /** Unfinished: spawned, and its future not dropped yet. */
  predicate Live(s: Sched, t: nat) { t < |s.tasks| && !s.tasks[t].Done? }

  /** A wait is part of no future but an unfinished task's; whoever polled one was spawned. */
  ghost predicate HoldersOk(w: World) {
    && (forall u: nat | WaitAt(w.mem, u) && w.mem.waits[u].value.holder.Some? ::
          Live(w.sched, w.mem.waits[u].value.holder.value))
    && (forall u: nat | u in w.mem.wakers :: w.mem.wakers[u].task < |w.sched.tasks|)
  }

  /** Every parked wait has its waker, which wakes the task whose future the wait is part of. */
  ghost predicate LinkOk(w: World) {
    && HoldersOk(w)
    && forall u: nat | u in w.sched.parkedOn :: WaitAt(w.mem, u) && u in w.mem.wakers
        && AwaitedBy(w.mem, u, w.mem.wakers[u].task)
  }

  /** `me` is the task being polled, if any. */
  ghost predicate Inv(w: World, me: Option<nat>) {
    MemOk(w.mem) && ReadyOk(w.sched) && OnlyRuns(w.sched, me) && LinkOk(w)
  }

  /** Waker `u` is task `t`'s; its key names the pollable its wait was made for, and nobody else uses that key. */
  ghost predicate WakesOn(m: Mem, u: nat, t: nat) {
    && WaitAt(m, u) && u in m.wakers && m.wakers[u] == Entry(m.waits[u].value.reg, t)
    && Names(m, m.wakers[u].reg)
    && forall r: nat | Referenced(m, r) && Names(m, r) && m.regs[r].key == m.regs[m.wakers[u].reg].key ::
        r == m.wakers[u].reg
  }

  /** A parked wait has a waker that can still find its pollable. */
  lemma ParkedWakes(w: World, me: Option<nat>, t: nat, u: nat)
    requires Inv(w, me) && u in w.sched.parkedOn && Holds(w.mem, t, u)
    ensures WakesOn(w.mem, u, t)
  {
    assert RefOr(w.mem, None, w.mem.wakers[u].reg);
    assert forall r: nat | Referenced(w.mem, r) :: RefOr(w.mem, None, r);
  }

  // ---------------------------------------------------------------- a poll

  /** One thing that running code does; `ready` is what the host answers. */
  datatype Action =
    | New(pollable: nat)
    | Clone(h: nat)
    | DropHandle(h: nat)
    | MakeWait(h: nat)
    | PollWait(u: nat, ready: bool)
    | DropWait(u: nat)
    | MoveWait(u: nat, holder: Option<nat>)
    | Spawn
    | Wake(t: nat)

  predicate HandleAt(m: Mem, h: nat) { h < |m.handles| && m.handles[h].Some? }

  /** Code reaches the waits of the future it runs for, and those that are part of none. */
  predicate Reach(m: Mem, me: Option<nat>, u: nat) {
    WaitAt(m, u) && (m.waits[u].value.holder == me || m.waits[u].value.holder.None?)
  }

  predicate Holds(m: Mem, me: nat, u: nat) { WaitAt(m, u) && m.waits[u].value.holder == Some(me) }

  /** Where a wait may go: into the future of an unfinished task, or out of all of them. */
  predicate CanHold(s: Sched, holder: Option<nat>) { holder.Some? ==> Live(s, holder.value) }

  /** `me` is the task being polled, if any; a wait is polled only in one. */
  function Acted(w: World, me: Option<nat>, a: Action): World {
    match a
    case New(p) => w.(mem := Inserted(w.mem, p))
    case Clone(h) => if HandleAt(w.mem, h) then w.(mem := w.mem.(handles := w.mem.handles + [w.mem.handles[h]])) else w
    case DropHandle(h) => if HandleAt(w.mem, h) then w.(mem := HandleDropped(w.mem, h)) else w
    case MakeWait(h) => if HandleAt(w.mem, h) then w.(mem := WaitMade(w.mem, h, me)) else w
    case PollWait(u, ready) =>
      if me.None? || !Reach(w.mem, me, u) then w
      else if ready then w.(sched := w.sched.(parkedOn := w.sched.parkedOn - {u}))
      else World(WaitParked(w.mem, u, me.value),
                 if Holds(w.mem, me.value, u) then w.sched.(parkedOn := w.sched.parkedOn + {u}) else w.sched)
    case DropWait(u) =>
      if !Reach(w.mem, me, u) then w
      else World(WaitDropped(w.mem, u), w.sched.(parkedOn := w.sched.parkedOn - {u}))
    case MoveWait(u, holder) =>
      if !Reach(w.mem, me, u) || !CanHold(w.sched, holder) then w
      else World(WaitMoved(w.mem, u, holder),
                 if holder == me then w.sched else w.sched.(parkedOn := w.sched.parkedOn - {u}))
    case Spawn => w.(sched := Spawned(w.sched))
    case Wake(t) => w.(sched := Woken(w.sched, t))
  }

  lemma SpawnedReady(s: Sched)
    requires ReadyOk(s)
    ensures ReadyOk(Spawned(s))
  {
    var s' := Spawned(s);
    assert |s.tasks| !in s.ready;
    forall t: nat ensures t in s'.ready <==> t < |s'.tasks| && s'.tasks[t].Queued? {
      assert t in s'.ready <==> t in s.ready || t == |s.tasks|;
    }
  }

  lemma WokenReady(s: Sched, t: nat)
    requires ReadyOk(s)
    ensures ReadyOk(Woken(s, t))
  {
    var s' := Woken(s, t);
    if t < |s.tasks| && s.tasks[t].Parked? {
      assert t !in s.ready;
      forall k: nat ensures k in s'.ready <==> k < |s'.tasks| && s'.tasks[k].Queued? {
        assert k in s'.ready <==> k in s.ready || k == t;
      }
    }
  }

  lemma SuspendedReady(s: Sched, me: nat)
    requires ReadyOk(s) && OnlyRuns(s, Some(me)) && me < |s.tasks|
    ensures ReadyOk(Suspended(s, me))
  {
    var s' := Suspended(s, me);
    assert me !in s.ready;
    forall k: nat ensures k in s'.ready <==> k < |s'.tasks| && s'.tasks[k].Queued? {
      assert k in s'.ready <==> k in s.ready || (s.woken && k == me);
    }
  }

  lemma BegunReady(s: Sched)
    requires ReadyOk(s) && OnlyRuns(s, None) && s.ready != []
    ensures s.ready[0] < |s.tasks| && ReadyOk(Begun(s)) && OnlyRuns(Begun(s), Some(s.ready[0]))
  {
    assert s.ready[0] in s.ready;
    var s' := Begun(s);
    forall k: nat ensures k in s'.ready <==> k in s.ready && k != s.ready[0] {
      if k in s.ready && k != s.ready[0] {
        var i :| 0 <= i < |s.ready| && s.ready[i] == k;
        assert s'.ready[i - 1] == k;
      }
    }
  }

  /**
   * What an action does to waits: one that is made is part of the polling future and for the handle's registration;
   * one within reach that is handed to an unfinished task, or out of all futures, is there; one that is dropped is gone
   * with its waker. The others stay.
   */
  lemma WaitsExactly(w: World, me: Option<nat>, a: Action)
    requires MemOk(w.mem)
    ensures var before, now := w.mem.waits, Acted(w, me, a).mem.waits;
      && (a.MakeWait? && a.h < |w.mem.handles| && w.mem.handles[a.h].Some? ==>
            now == before + [Some(Wait(w.mem.handles[a.h].value, me, None))])
      && (a.MoveWait? && Mine(w.mem, me, a.u) && (a.holder.None? || Live(w.sched, a.holder.value)) ==>
            now == before[a.u := Some(before[a.u].value.(holder := a.holder))])
      && (a.DropWait? && Mine(w.mem, me, a.u) ==> now == before[a.u := None] && a.u !in Acted(w, me, a).mem.wakers)
      && (!a.MakeWait? && !a.MoveWait? && !a.DropWait? && !a.PollWait? ==> now == before)
  {
    if a.DropWait? && Mine(w.mem, me, a.u) {
      WaitDroppedElsewhere(w.mem, a.u);
    }
  }

  /** The wait is there, and in the future that runs or in none. */
  predicate Mine(m: Mem, me: Option<nat>, u: nat) {
    u < |m.waits| && m.waits[u].Some? && (m.waits[u].value.holder == me || m.waits[u].value.holder == None)
  }

  /** `me`, if anybody, is a task. */
  predicate IsTask(s: Sched, me: Option<nat>) { me.Some? ==> me.value < |s.tasks| }

  lemma ActedMem(w: World, me: Option<nat>, a: Action)
    requires Inv(w, me)
    ensures MemOk(Acted(w, me, a).mem)
  {
    match a
    case New(p) => InsertedOk(w.mem, p);
    case Clone(h) => if HandleAt(w.mem, h) { HandleClonedOk(w.mem, h); }
    case DropHandle(h) => if HandleAt(w.mem, h) { HandleDroppedOk(w.mem, h); }
    case MakeWait(h) => if HandleAt(w.mem, h) { WaitMadeOk(w.mem, h, me); }
    case PollWait(u, ready) => if me.Some? && Reach(w.mem, me, u) && !ready { WaitParkedOk(w.mem, u, me.value); }
    case DropWait(u) => if Reach(w.mem, me, u) { WaitDroppedOk(w.mem, u); }
    case MoveWait(u, holder) => if Reach(w.mem, me, u) { WaitMovedOk(w.mem, u, holder); }
    case _ =>
  }

  lemma ActedLive(w: World, me: Option<nat>, a: Action)
    ensures forall t: nat | Live(w.sched, t) :: Live(Acted(w, me, a).sched, t)
    ensures |w.sched.tasks| <= |Acted(w, me, a).sched.tasks|
  {}

  lemma ActedHolders(w: World, me: Option<nat>, a: Action)
    requires Inv(w, me) && IsTask(w.sched, me)
    ensures HoldersOk(Acted(w, me, a))
  {
    var w' := Acted(w, me, a);
    ActedLive(w, me, a);
    forall u: nat | WaitAt(w'.mem, u) && w'.mem.waits[u].value.holder.Some?
      ensures Live(w.sched, w'.mem.waits[u].value.holder.value)
    {
      var h := w'.mem.waits[u].value.holder;
      assert h == me || (a.MoveWait? && h == a.holder) || (WaitAt(w.mem, u) && h == w.mem.waits[u].value.holder);
    }
  }

  lemma ActedParkedOn(w: World, me: Option<nat>, a: Action, u: nat)
    requires Inv(w, me) && IsTask(w.sched, me) && u in Acted(w, me, a).sched.parkedOn
    ensures var m := Acted(w, me, a).mem; u in m.wakers && AwaitedBy(m, u, m.wakers[u].task)
  {
    match a
    case DropWait(v) =>
      if Reach(w.mem, me, v) {
        WaitDroppedElsewhere(w.mem, v);
      }
    case PollWait(v, ready) =>
    case MoveWait(v, holder) =>
    case _ => assert Acted(w, me, a).mem.wakers == w.mem.wakers && u in w.sched.parkedOn;
  }

  lemma ActedLink(w: World, me: Option<nat>, a: Action)
    requires Inv(w, me) && IsTask(w.sched, me)
    ensures LinkOk(Acted(w, me, a))
  {
    ActedHolders(w, me, a);
    forall u: nat | u in Acted(w, me, a).sched.parkedOn
      ensures var m := Acted(w, me, a).mem; WaitAt(m, u) && u in m.wakers && AwaitedBy(m, u, m.wakers[u].task)
    {
      ActedParkedOn(w, me, a, u);
    }
  }

  lemma ActedKeeps(w: World, me: Option<nat>, a: Action)
    requires Inv(w, me) && IsTask(w.sched, me)
    ensures Inv(Acted(w, me, a), me) && |w.sched.tasks| <= |Acted(w, me, a).sched.tasks|
  {
    ActedMem(w, me, a);
    ActedLink(w, me, a);
    SpawnedReady(w.sched);
    if a.Wake? { WokenReady(w.sched, a.t); }
  }

  /** One poll of a future: what it did, and whether it completed. */
  datatype Poll = Poll(actions: seq<Action>, done: bool)

  function ActedAll(w: World, me: nat, actions: seq<Action>): World
    decreases |actions|
  {
    if actions == [] then w else ActedAll(Acted(w, Some(me), actions[0]), me, actions[1..])
  }

  /** The first `n` waits, without those of task `me`: its completed future is dropped, and its waits with it. */
  function Swept(m: Mem, me: nat, n: nat): (r: Mem)
    requires n <= |m.waits|
    ensures |r.waits| == |m.waits|
  {
    if n == 0 then m
    else
      var before := Swept(m, me, n - 1);
      if Holds(before, me, n - 1) then WaitDropped(before, n - 1) else before
  }

  /** Without those of the first `n` waits that task `me` holds. */
  function Unheld(parked: set<nat>, m: Mem, me: nat, n: nat): set<nat> {
    set u | u in parked && !(u < n && Holds(m, me, u))
  }

  function Finished(w: World, me: nat, done: bool): World
    requires me < |w.sched.tasks|
  {
    if done then
      World(Swept(w.mem, me, |w.mem.waits|),
            Ended(w.sched, me).(parkedOn := Unheld(w.sched.parkedOn, w.mem, me, |w.mem.waits|)))
    else w.(sched := Suspended(w.sched, me))
  }

  lemma {:induction false} SweptMem(m: Mem, me: nat, n: nat)
    requires MemOk(m) && n <= |m.waits|
    ensures MemOk(Swept(m, me, n))
  {
    if n > 0 {
      SweptMem(m, me, n - 1);
      if Holds(Swept(m, me, n - 1), me, n - 1) {
        WaitDroppedOk(Swept(m, me, n - 1), n - 1);
      }
    }
  }

  lemma WaitDroppedElsewhere(m: Mem, u: nat)
    requires MemOk(m) && WaitAt(m, u)
    ensures WaitDropped(m, u).waits == m.waits[u := None]
    ensures WaitDropped(m, u).wakers == m.wakers - {u}
  {}

  lemma SweptStep(m: Mem, me: nat, n: nat)
    requires MemOk(m) && 0 < n <= |m.waits|
    ensures var before, r := Swept(m, me, n - 1), Swept(m, me, n);
      && r.waits == (if Holds(before, me, n - 1) then before.waits[n - 1 := None] else before.waits)
      && r.wakers == (if Holds(before, me, n - 1) then before.wakers - {n - 1} else before.wakers)
  {
    SweptMem(m, me, n - 1);
    if Holds(Swept(m, me, n - 1), me, n - 1) {
      WaitDroppedElsewhere(Swept(m, me, n - 1), n - 1);
    }
  }

  /** What a sweep of the first `n` waits leaves. */
  ghost predicate SweptTo(m: Mem, me: nat, n: nat, r: Mem) {
    && |r.waits| == |m.waits|
    && (forall u: nat | u < |m.waits| :: r.waits[u] == if u < n && Holds(m, me, u) then None else m.waits[u])
    && (forall u: nat | u in m.wakers && !Holds(m, me, u) :: u in r.wakers && r.wakers[u] == m.wakers[u])
    && (forall u: nat | u in r.wakers :: u in m.wakers && r.wakers[u] == m.wakers[u])
  }

  lemma SweptToNext(m: Mem, me: nat, n: nat, before: Mem, r: Mem)
    requires n < |m.waits| && SweptTo(m, me, n, before)
    requires r.waits == (if Holds(before, me, n) then before.waits[n := None] else before.waits)
    requires r.wakers == (if Holds(before, me, n) then before.wakers - {n} else before.wakers)
    ensures SweptTo(m, me, n + 1, r)
  {}

  lemma {:induction false} SweptAll(m: Mem, me: nat, n: nat)
    requires MemOk(m) && n <= |m.waits|
    ensures SweptTo(m, me, n, Swept(m, me, n))
  {
    if n > 0 {
      SweptAll(m, me, n - 1);
      SweptStep(m, me, n);
      SweptToNext(m, me, n - 1, Swept(m, me, n - 1), Swept(m, me, n));
    }
  }

  /** The sweep takes exactly the task's own waits, and no waker of any other wait. */
  lemma SweptOk(m: Mem, me: nat)
    requires MemOk(m)
    ensures MemOk(Swept(m, me, |m.waits|)) && SweptTo(m, me, |m.waits|, Swept(m, me, |m.waits|))
  {
    SweptMem(m, me, |m.waits|);
    SweptAll(m, me, |m.waits|);
  }

  lemma UnheldNext(parked: set<nat>, m: Mem, me: nat, n: nat)
    ensures Unheld(parked, m, me, n + 1) == if Holds(m, me, n) then Unheld(parked, m, me, n) - {n}
            else Unheld(parked, m, me, n)
  {}

  lemma {:induction false} ActedAllKeeps(w: World, me: nat, actions: seq<Action>)
    requires Inv(w, Some(me)) && me < |w.sched.tasks|
    ensures Inv(ActedAll(w, me, actions), Some(me)) && me < |ActedAll(w, me, actions).sched.tasks|
    decreases |actions|
  {
    if actions != [] {
      ActedKeeps(w, Some(me), actions[0]);
      ActedAllKeeps(Acted(w, Some(me), actions[0]), me, actions[1..]);
    }
  }

  lemma BegunKeeps(w: World)
    requires Inv(w, None) && w.sched.ready != []
    ensures w.sched.ready[0] < |w.sched.tasks| && Inv(w.(sched := Begun(w.sched)), Some(w.sched.ready[0]))
  {
    BegunReady(w.sched);
    var w' := w.(sched := Begun(w.sched));
    assert forall t: nat | Live(w.sched, t) :: Live(w'.sched, t);
  }

  lemma SuspendedKeeps(w: World, me: nat)
    requires Inv(w, Some(me)) && me < |w.sched.tasks|
    ensures Inv(w.(sched := Suspended(w.sched, me)), None)
  {
    var w' := w.(sched := Suspended(w.sched, me));
    SuspendedReady(w.sched, me);
    assert forall t: nat | Live(w.sched, t) :: Live(w'.sched, t);
  }

  lemma EndedKeeps(w: World, me: nat)
    requires Inv(w, Some(me)) && me < |w.sched.tasks|
    ensures Inv(Finished(w, me, true), None)
  {
    var w' := Finished(w, me, true);
    var m := w'.mem;
    SweptOk(w.mem, me);
    assert me !in w.sched.ready;
    forall u: nat | WaitAt(m, u) ensures WaitAt(w.mem, u) && m.waits[u] == w.mem.waits[u] && !Holds(w.mem, me, u) {
      assert m.waits[u] == if Holds(w.mem, me, u) then None else w.mem.waits[u];
    }
    forall u: nat | u in w'.sched.parkedOn ensures WaitAt(m, u) && u in m.wakers && AwaitedBy(m, u, m.wakers[u].task) {
      assert u in w.sched.parkedOn && !Holds(w.mem, me, u);
      assert m.waits[u] == w.mem.waits[u];
    }
  }

  /** The end of a poll, pending or done. */
  lemma FinishedKeeps(w: World, me: nat, done: bool)
    requires Inv(w, Some(me)) && me < |w.sched.tasks|
    ensures Inv(Finished(w, me, done), None)
  {
    if done {
      EndedKeeps(w, me);
    } else {
      SuspendedKeeps(w, me);
    }
  }

  // ---------------------------------------------------------------- the check

  /** The host says that waker `u`'s pollable is ready. */
  predicate Due(m: Mem, u: nat, hot: set<nat>) {
    u in m.wakers && Names(m, m.wakers[u].reg) && m.regs[m.wakers[u].reg].pollable in hot
  }

  /** No waker that is due is an unfinished task's. */
  ghost predicate NoneDue(w: World, hot: set<nat>) {
    forall u: nat | u in w.mem.wakers && Due(w.mem, u, hot) :: !Live(w.sched, w.mem.wakers[u].task)
  }

  ghost predicate TaskDue(m: Mem, t: nat, among: set<nat>, hot: set<nat>) {
    exists u :: u in among && Due(m, u, hot) && m.wakers[u].task == t
  }

  /** Exactly the parked tasks with a due waker `among` those went to the back of the ready list. */
  ghost predicate WokeDue(w: World, s: Sched, among: set<nat>, hot: set<nat>) {
    && |s.tasks| == |w.sched.tasks| && w.sched.ready <= s.ready && s.parkedOn == w.sched.parkedOn
    && forall t: nat | t < |s.tasks| ::
         s.tasks[t] == if w.sched.tasks[t].Parked? && TaskDue(w.mem, t, among, hot) then Queued else w.sched.tasks[t]
  }

  lemma WokenKeeps(w: World, t: nat)
    requires Inv(w, None)
    ensures Inv(w.(sched := Woken(w.sched, t)), None)
  {
    WokenReady(w.sched, t);
  }

  function WokenIfDue(w: World, u: nat, hot: set<nat>): Sched {
    if Due(w.mem, u, hot) then Woken(w.sched, w.mem.wakers[u].task) else w.sched
  }

  function Elements(order: seq<nat>): set<nat> {
    if order == [] then {} else Elements(order[..|order| - 1]) + {order[|order| - 1]}
  }

  function WokenAlong(w: World, order: seq<nat>, hot: set<nat>): Sched {
    if order == [] then w.sched
    else WokenIfDue(World(w.mem, WokenAlong(w, order[..|order| - 1], hot)), order[|order| - 1], hot)
  }

  /** A check in progress: the wakers `among` are done. */
  ghost predicate Checking(w: World, s: Sched, among: set<nat>, hot: set<nat>) {
    Inv(World(w.mem, s), None) && WokeDue(w, s, among, hot)
  }

  lemma WokeNone(w: World, hot: set<nat>)
    requires Inv(w, None)
    ensures Checking(w, w.sched, {}, hot)
  {
    assert forall t: nat :: !TaskDue(w.mem, t, {}, hot);
  }

  lemma WokeOne(w: World, s: Sched, among: set<nat>, hot: set<nat>, u: nat)
    requires Inv(w, None) && Checking(w, s, among, hot) && u in w.mem.wakers
    ensures Checking(w, WokenIfDue(World(w.mem, s), u, hot), among + {u}, hot)
  {
    WokenKeeps(World(w.mem, s), w.mem.wakers[u].task);
    assert WaitAt(w.mem, u);
    forall t: nat ensures TaskDue(w.mem, t, among + {u}, hot) <==>
                          TaskDue(w.mem, t, among, hot) || (Due(w.mem, u, hot) && w.mem.wakers[u].task == t) {
      if TaskDue(w.mem, t, among, hot) {
        var v :| v in among && Due(w.mem, v, hot) && w.mem.wakers[v].task == t;
        assert v in among + {u};
      }
    }
    forall t: nat | t < |s.tasks| ensures !w.sched.tasks[t].Running? {}
  }

  lemma {:induction false} WokenAlongOk(w: World, order: seq<nat>, hot: set<nat>)
    requires Inv(w, None) && Elements(order) <= w.mem.wakers.Keys
    ensures Checking(w, WokenAlong(w, order, hot), Elements(order), hot)
  {
    if order == [] {
      WokeNone(w, hot);
    } else {
      var rest, u := order[..|order| - 1], order[|order| - 1];
      WokenAlongOk(w, rest, hot);
      WokeOne(w, WokenAlong(w, rest, hot), Elements(rest), hot, u);
    }
  }

  /** Nothing is left to run, and nothing is parked, or a check, told `hot`, found no unfinished task's waker due. */
  ghost predicate Rested(w: World, checked: bool, hot: set<nat>) {
    w.sched.ready == [] && if checked then NoneDue(w, hot) else w.mem.wakers == map[]
  }

  /** Nothing woke because nothing was due: a due waker of an unfinished task would have queued it. */
  lemma NothingDue(w: World, s: Sched, hot: set<nat>)
    requires Inv(w, None) && w.sched.ready == [] && WokeDue(w, s, w.mem.wakers.Keys, hot)
    requires ReadyOk(s) && s.ready == []
    ensures NoneDue(World(w.mem, s), hot)
  {
    forall u: nat | u in w.mem.wakers && Due(w.mem, u, hot) ensures !Live(s, w.mem.wakers[u].task) {
      var t := w.mem.wakers[u].task;
      assert TaskDue(w.mem, t, w.mem.wakers.Keys, hot);
      assert t !in w.sched.ready && t !in s.ready;
    }
  }

  // ---------------------------------------------------------------- runs

  /** The front task leaves the ready list, does what its poll does, and is put where the outcome says. */
  function Polled(w: World, poll: Poll): World {
    if w.sched.ready == [] || w.sched.ready[0] >= |w.sched.tasks| then w
    else
      var me := w.sched.ready[0];
      var acted := ActedAll(w.(sched := Begun(w.sched)), me, poll.actions);
      if me < |acted.sched.tasks| then Finished(acted, me, poll.done) else acted
  }

  /** What can happen to the executor: code outside a poll uses it, a task is polled, the parked ones are checked. */
  datatype Event = Called(a: Action) | Ran(poll: Poll) | Checked(order: seq<nat>, hot: set<nat>)

  function Happened(w: World, e: Event): World {
    match e
    case Called(a) => Acted(w, None, a)
    case Ran(poll) => Polled(w, poll)
    case Checked(order, hot) => if Elements(order) == w.mem.wakers.Keys then w.(sched := WokenAlong(w, order, hot))
        else w
  }

  function After(w: World, events: seq<Event>): World {
    if events == [] then w else Happened(After(w, events[..|events| - 1]), events[|events| - 1])
  }

  /** An executor that was just installed. */
  const IDLE := World(Mem([], [], [], [], [], map[]), Sched([], [], false, {}))

  ghost predicate Reaches(w: World, w': World) { exists events: seq<Event> :: After(w, events) == w' }

  lemma PolledKeeps(w: World, poll: Poll)
    requires Inv(w, None)
    ensures Inv(Polled(w, poll), None)
  {
    if w.sched.ready != [] {
      BegunKeeps(w);
      var me, begun := w.sched.ready[0], w.(sched := Begun(w.sched));
      ActedAllKeeps(begun, me, poll.actions);
      FinishedKeeps(ActedAll(begun, me, poll.actions), me, poll.done);
    }
  }

  lemma HappenedKeeps(w: World, e: Event)
    requires Inv(w, None)
    ensures Inv(Happened(w, e), None)
  {
    match e
    case Called(a) => ActedKeeps(w, None, a);
    case Ran(poll) => PolledKeeps(w, poll);
    case Checked(order, hot) => if Elements(order) == w.mem.wakers.Keys { WokenAlongOk(w, order, hot); }
  }

  lemma IdleOk()
    ensures Inv(IDLE, None)
  {
    assert forall r: nat :: !RefOr(IDLE.mem, None, r);
  }

  /** Every run of the executor keeps its invariant. */
  lemma {:induction false} RunKeeps(events: seq<Event>)
    ensures Inv(After(IDLE, events), None)
    decreases |events|
  {
    if events == [] {
      IdleOk();
    } else {
      RunKeeps(events[..|events| - 1]);
      HappenedKeeps(After(IDLE, events[..|events| - 1]), events[|events| - 1]);
    }
  }

  /**
   * No wakeup is lost: after any run from the start, an unfinished task is queued or parked, and every wait of its own
   * that it polled and found not ready, and has not found ready, dropped or given away since, has a waker in the map:
   * its own, under a key that still names the pollable the wait was made for and no other registration.
   */
  lemma NoLostWakeup(events: seq<Event>, t: nat)
    requires Live(After(IDLE, events).sched, t)
    ensures var w := After(IDLE, events);
      && (t in w.sched.ready || w.sched.tasks[t].Parked?)
      && forall u: nat | u in w.sched.parkedOn && Holds(w.mem, t, u) :: WakesOn(w.mem, u, t)
  {
    var w := After(IDLE, events);
    RunKeeps(events);
    forall u: nat | u in w.sched.parkedOn && Holds(w.mem, t, u) ensures WakesOn(w.mem, u, t) {
      ParkedWakes(w, None, t, u);
    }
  }

  /** A check after any run wakes the task of a due waker, unless it is done: then it is on the ready list. */
  lemma DueIsQueued(events: seq<Event>, order: seq<nat>, hot: set<nat>, u: nat)
    requires var w := After(IDLE, events); Elements(order) == w.mem.wakers.Keys && Due(w.mem, u, hot)
    ensures var w := After(IDLE, events); Live(w.sched, w.mem.wakers[u].task) ==>
              w.mem.wakers[u].task in After(IDLE, events + [Checked(order, hot)]).sched.ready
  {
    var w, e := After(IDLE, events), Checked(order, hot);
    RunKeeps(events);
    assert (events + [e])[..|events|] == events;
    WokenAlongOk(w, order, hot);
    assert TaskDue(w.mem, w.mem.wakers[u].task, w.mem.wakers.Keys, hot);
  }

  // ---------------------------------------------------------------- exactly who runs next

  function Spawns(actions: seq<Action>): nat {
    if actions == [] then 0 else (if actions[0].Spawn? then 1 else 0) + Spawns(actions[1..])
  }

  /** What actions of the running task `me` have made of the tasks. */
  ghost predicate Stirred(s: Sched, me: nat, actions: seq<Action>, s': Sched) {
    && |s'.tasks| == |s.tasks| + Spawns(actions) && s.ready <= s'.ready
    && (s'.woken <==> s.woken || Wake(me) in actions)
    && (forall t: nat | t < |s.tasks| ::
          s'.tasks[t] == if s.tasks[t].Parked? && Wake(t) in actions then Queued else s.tasks[t])
    && (forall t: nat | |s.tasks| <= t < |s'.tasks| :: s'.tasks[t].Queued?)
  }

  lemma StirredOnce(w: World, me: nat, a: Action)
    requires me < |w.sched.tasks| && OnlyRuns(w.sched, Some(me))
    ensures Stirred(w.sched, me, [a], Acted(w, Some(me), a).sched)
    ensures OnlyRuns(Acted(w, Some(me), a).sched, Some(me))
  {
    assert [a][1..] == [];
    assert Spawns([a]) == if a.Spawn? then 1 else 0;
    assert forall b :: b in [a] <==> b == a;
  }

  lemma StirredThen(s: Sched, me: nat, actions: seq<Action>, mid: Sched, s': Sched)
    requires me < |s.tasks| && actions != [] && s.tasks[me].Running?
    requires Stirred(s, me, [actions[0]], mid) && Stirred(mid, me, actions[1..], s')
    ensures Stirred(s, me, actions, s')
  {
    assert [actions[0]][1..] == [];
    assert forall b :: b in actions <==> b in [actions[0]] || b in actions[1..];
    assert Spawns(actions) == Spawns([actions[0]]) + Spawns(actions[1..]);
  }

  lemma {:induction false} StirredAll(w: World, me: nat, actions: seq<Action>)
    requires me < |w.sched.tasks| && OnlyRuns(w.sched, Some(me))
    ensures Stirred(w.sched, me, actions, ActedAll(w, me, actions).sched)
    decreases |actions|
  {
    if actions != [] {
      StirredOnce(w, me, actions[0]);
      var mid := Acted(w, Some(me), actions[0]);
      StirredAll(mid, me, actions[1..]);
      StirredThen(w.sched, me, actions, mid.sched, ActedAll(mid, me, actions[1..]).sched);
    }
  }

  /** Who is on the ready list after `me` was polled: all who were, all who were woken while parked, all spawned. */
  ghost predicate RanExactly(s: Sched, me: nat, poll: Poll, s': Sched) {
    && me < |s.tasks| && |s'.tasks| == |s.tasks| + Spawns(poll.actions)
    && (me in s'.ready <==> !poll.done && Wake(me) in poll.actions)
    && (me !in s'.ready ==> s'.tasks[me] == if poll.done then Done else Parked)
    && (forall t: nat | t < |s.tasks| && t != me ::
          t in s'.ready <==> t in s.ready || (s.tasks[t].Parked? && Wake(t) in poll.actions))
    && (forall t: nat | t < |s.tasks| && t != me && t !in s'.ready :: s'.tasks[t] == s.tasks[t])
    && (forall t: nat | |s.tasks| <= t < |s'.tasks| :: t in s'.ready)
  }

  lemma PolledExactly(w: World, poll: Poll)
    requires Inv(w, None) && w.sched.ready != []
    ensures RanExactly(w.sched, w.sched.ready[0], poll, Polled(w, poll).sched)
    ensures w.sched.ready[1..] <= Polled(w, poll).sched.ready
  {
    BegunKeeps(w);
    PolledKeeps(w, poll);
    var me, begun := w.sched.ready[0], w.(sched := Begun(w.sched));
    ActedAllKeeps(begun, me, poll.actions);
    StirredAll(begun, me, poll.actions);
    var acted, s' := ActedAll(begun, me, poll.actions).sched, Polled(w, poll).sched;
    assert acted.tasks[me] == Running;
    SettledExactly(w.sched, begun.sched, acted, me, poll, s');
  }

  lemma SettledExactly(s: Sched, begun: Sched, acted: Sched, me: nat, poll: Poll, s': Sched)
    requires ReadyOk(s) && ReadyOk(s') && s.ready != [] && me == s.ready[0] && me < |s.tasks|
    requires begun == Begun(s) && Stirred(begun, me, poll.actions, acted) && acted.tasks[me].Running?
    requires s'.tasks == if poll.done then acted.tasks[me := Done]
                         else acted.tasks[me := if acted.woken then Queued else Parked]
    ensures RanExactly(s, me, poll, s')
  {
    assert me in s.ready;
  }

  /**
   * After any run, a poll puts on the ready list exactly the parked tasks it woke and the tasks it spawned, behind
   * those already there; its own task again exactly if it woke itself and is not done, and otherwise it parks.
   */
  lemma PollExactly(events: seq<Event>, poll: Poll)
    requires After(IDLE, events).sched.ready != []
    ensures var s, s' := After(IDLE, events).sched, After(IDLE, events + [Ran(poll)]).sched;
      RanExactly(s, s.ready[0], poll, s') && s.ready[1..] <= s'.ready
  {
    RunKeeps(events);
    assert (events + [Ran(poll)])[..|events|] == events;
    PolledExactly(After(IDLE, events), poll);
  }

  /** A call from outside puts a parked task on the ready list that it wakes, or a task it spawns, and no other. */
  lemma CallExactly(events: seq<Event>, a: Action)
    ensures var s, s' := After(IDLE, events).sched, After(IDLE, events + [Called(a)]).sched;
      && s.ready <= s'.ready && |s'.tasks| == |s.tasks| + Spawns([a])
      && (forall t: nat :: t in s'.ready <==>
            t in s.ready || (a.Spawn? && t == |s.tasks|) || (a == Wake(t) && t < |s.tasks| && s.tasks[t].Parked?))
      && (forall t: nat | t < |s.tasks| && t !in s'.ready :: s'.tasks[t] == s.tasks[t])
  {
    var w := After(IDLE, events);
    RunKeeps(events);
    assert (events + [Called(a)])[..|events|] == events;
    assert [a][1..] == [] && Spawns([a]) == if a.Spawn? then 1 else 0;
  }

  /** The pollable under waker `u`'s key is one of those the host says are ready. */
  predicate WakerHot(m: Mem, u: nat, hot: set<nat>) {
    u in m.wakers && m.wakers[u].reg < |m.regs| && var key := m.regs[m.wakers[u].reg].key;
    key < |m.slots| && m.slots[key].Some? && m.slots[key].value in hot
  }

  /** A check puts on the ready list exactly the parked tasks one of whose wakers is due. */
  lemma CheckExactly(events: seq<Event>, order: seq<nat>, hot: set<nat>)
    requires Elements(order) == After(IDLE, events).mem.wakers.Keys
    ensures var w, s' := After(IDLE, events), After(IDLE, events + [Checked(order, hot)]).sched;
      && w.sched.ready <= s'.ready && |s'.tasks| == |w.sched.tasks|
      && (forall t: nat | t < |s'.tasks| :: t in s'.ready <==>
            t in w.sched.ready ||
            (w.sched.tasks[t].Parked? && exists u: nat :: WakerHot(w.mem, u, hot) && w.mem.wakers[u].task == t))
      && (forall t: nat | t < |s'.tasks| && t !in s'.ready :: s'.tasks[t] == w.sched.tasks[t])
  {
    var w := After(IDLE, events);
    RunKeeps(events);
    assert (events + [Checked(order, hot)])[..|events|] == events;
    WokenAlongOk(w, order, hot);
    var s' := After(IDLE, events + [Checked(order, hot)]).sched;
    forall t: nat ensures TaskDue(w.mem, t, w.mem.wakers.Keys, hot) <==>
                          exists u: nat :: WakerHot(w.mem, u, hot) && w.mem.wakers[u].task == t {
      if u: nat :| WakerHot(w.mem, u, hot) && w.mem.wakers[u].task == t {
        assert Due(w.mem, u, hot) && u in w.mem.wakers.Keys;
      }
      if u: nat :| u in w.mem.wakers.Keys && Due(w.mem, u, hot) && w.mem.wakers[u].task == t {
        assert WakerHot(w.mem, u, hot);
      }
    }
  }

  // ---------------------------------------------------------------- a wait found not ready

  /** The action ends what an earlier poll of wait `u` asked for: found ready, dropped, or handed over. */
  predicate Gives(a: Action, u: nat) { a == PollWait(u, true) || a == DropWait(u) || (a.MoveWait? && a.u == u) }

  lemma StaysParked(w: World, me: nat, a: Action, u: nat)
    requires Inv(w, Some(me)) && me < |w.sched.tasks|
    requires u in w.sched.parkedOn && Holds(w.mem, me, u) && !Gives(a, u)
    ensures u in Acted(w, Some(me), a).sched.parkedOn && Holds(Acted(w, Some(me), a).mem, me, u)
  {
    if a.DropWait? && Reach(w.mem, Some(me), a.u) {
      WaitDroppedElsewhere(w.mem, a.u);
    }
  }

  lemma {:induction false} StaysParkedOn(w: World, me: nat, actions: seq<Action>, u: nat)
    requires Inv(w, Some(me)) && me < |w.sched.tasks|
    requires u in w.sched.parkedOn && Holds(w.mem, me, u) && forall a | a in actions :: !Gives(a, u)
    ensures var w' := ActedAll(w, me, actions); u in w'.sched.parkedOn && Holds(w'.mem, me, u)
    decreases |actions|
  {
    if actions != [] {
      StaysParked(w, me, actions[0], u);
      ActedKeeps(w, Some(me), actions[0]);
      StaysParkedOn(Acted(w, Some(me), actions[0]), me, actions[1..], u);
    }
  }

  lemma {:induction false} ActedAllSplit(w: World, me: nat, first: seq<Action>, later: seq<Action>)
    ensures ActedAll(w, me, first + later) == ActedAll(ActedAll(w, me, first), me, later)
    decreases |first|
  {
    if first == [] {
      assert first + later == later;
    } else {
      assert (first + later)[0] == first[0] && (first + later)[1..] == first[1..] + later;
      ActedAllSplit(Acted(w, Some(me), first[0]), me, first[1..], later);
    }
  }

  /** The running task at the front, after its poll has done `actions`. */
  function InPoll(w: World, actions: seq<Action>): World
    requires w.sched.ready != [] && w.sched.ready[0] < |w.sched.tasks|
  {
    ActedAll(w.(sched := Begun(w.sched)), w.sched.ready[0], actions)
  }

  /**
   * A pending poll that found a wait of its task not ready, and did not give it up afterwards, leaves the task's waker
   * for the wait's own pollable.
   */
  lemma UnreadyLeavesWaker(events: seq<Event>, before: seq<Action>, u: nat, after: seq<Action>)
    requires var w := After(IDLE, events);
      w.sched.ready != [] && w.sched.ready[0] < |w.sched.tasks| && Holds(InPoll(w, before).mem, w.sched.ready[0], u)
    requires forall a | a in after :: !Gives(a, u)
    ensures var poll := Poll(before + [PollWait(u, false)] + after, false);
      WakesOn(After(IDLE, events + [Ran(poll)]).mem, u, After(IDLE, events).sched.ready[0])
  {
    var w, actions := After(IDLE, events), before + [PollWait(u, false)] + after;
    var me, begun, poll := w.sched.ready[0], w.(sched := Begun(w.sched)), Poll(actions, false);
    RunKeeps(events);
    BegunKeeps(w);
    FoundUnready(begun, me, before, u, after);
    ActedAllKeeps(begun, me, actions);
    assert (events + [Ran(poll)])[..|events|] == events;
    PolledKeeps(w, poll);
    ParkedWakes(After(IDLE, events + [Ran(poll)]), None, me, u);
  }

  lemma FoundUnready(w: World, me: nat, before: seq<Action>, u: nat, after: seq<Action>)
    requires Inv(w, Some(me)) && me < |w.sched.tasks| && Holds(ActedAll(w, me, before).mem, me, u)
    requires forall a | a in after :: !Gives(a, u)
    ensures var w' := ActedAll(w, me, before + [PollWait(u, false)] + after);
      u in w'.sched.parkedOn && Holds(w'.mem, me, u)
  {
    var mid := ActedAll(w, me, before);
    var parked := Acted(mid, Some(me), PollWait(u, false));
    ActedAllKeeps(w, me, before);
    ActedKeeps(mid, Some(me), PollWait(u, false));
    StaysParkedOn(parked, me, after, u);
    ActedAllSplit(w, me, before + [PollWait(u, false)], after);
    ActedAllSplit(w, me, before, [PollWait(u, false)]);
    assert ActedAll(mid, me, [PollWait(u, false)]) == ActedAll(parked, me, [PollWait(u, false)][1..]) == parked;
  }

  /** And a check then that finds the pollable ready puts the task on the ready list, if it is not there already. */
  lemma UnreadyThenReady(events: seq<Event>, before: seq<Action>, u: nat, after: seq<Action>, order: seq<nat>,
                         hot: set<nat>)
    requires var w := After(IDLE, events);
      w.sched.ready != [] && w.sched.ready[0] < |w.sched.tasks| && Holds(InPoll(w, before).mem, w.sched.ready[0], u)
    requires forall a | a in after :: !Gives(a, u)
    requires var polled := events + [Ran(Poll(before + [PollWait(u, false)] + after, false))];
      var m := After(IDLE, polled).mem;
      && Elements(order) == m.wakers.Keys
      && (WaitAt(m, u) && m.waits[u].value.reg < |m.regs| ==> m.regs[m.waits[u].value.reg].pollable in hot)
    ensures var polled := events + [Ran(Poll(before + [PollWait(u, false)] + after, false))];
      After(IDLE, events).sched.ready[0] in After(IDLE, polled + [Checked(order, hot)]).sched.ready
  {
    var poll := Poll(before + [PollWait(u, false)] + after, false);
    UnreadyLeavesWaker(events, before, u, after);
    PollExactly(events, poll);
    RunKeeps(events + [Ran(poll)]);
    DueIsQueued(events + [Ran(poll)], order, hot, u);
  }

  lemma ReachesNow(w: World)
    ensures Reaches(w, w)
  {
    assert After(w, []) == w;
  }

  lemma ReachesNext(w: World, w': World, e: Event)
    requires Reaches(w, w')
    ensures Reaches(w, Happened(w', e))
  {
    var events: seq<Event> :| After(w, events) == w';
    assert (events + [e])[..|events|] == events;
    assert After(w, events + [e]) == Happened(w', e);
  }

  /** A property of worlds that whatever happens keeps. */
  ghost predicate Lasting(kept: World -> bool) { forall w: World, e: Event | kept(w) :: kept(Happened(w, e)) }

  /** It is a property of sound worlds only. */
  ghost predicate Sound(kept: World -> bool) { forall w: World {:trigger Inv(w, None)} | kept(w) :: Inv(w, None) }

  /** The worlds that runs from a sound one lead to. */
  ghost function From(start: World): World -> bool { w => Inv(w, None) && Reaches(start, w) }

  lemma FromLasts(start: World)
    requires Inv(start, None)
    ensures Lasting(From(start)) && Sound(From(start)) && From(start)(start)
  {
    ReachesNow(start);
    forall w: World, e: Event | From(start)(w) ensures From(start)(Happened(w, e)) {
      HappenedKeeps(w, e);
      ReachesNext(start, w, e);
    }
  }

  lemma FromReaches(start: World, w: World)
    requires From(start)(w)
    ensures Inv(w, None) && Reaches(start, w)
  {}

  lemma {:induction false} AfterBoth(w: World, first: seq<Event>, later: seq<Event>)
    ensures After(After(w, first), later) == After(w, first + later)
    decreases |later|
  {
    if later == [] {
      assert first + later == first;
    } else {
      AfterBoth(w, first, later[..|later| - 1]);
      assert (first + later)[..|first + later| - 1] == first + later[..|later| - 1];
    }
  }

  lemma ReachesThrough(w: World, mid: World, w': World)
    requires Reaches(w, mid) && Reaches(mid, w')
    ensures Reaches(w, w')
  {
    var first: seq<Event> :| After(w, first) == mid;
    var later: seq<Event> :| After(mid, later) == w';
    AfterBoth(w, first, later);
  }

  // ---------------------------------------------------------------- the reactor

  const MAX_RUNS := 100_000

  class Reactor {
    var slots: seq<Option<nat>>
    var vacant: seq<nat>
    var regs: seq<Reg>
    var handles: seq<Option<nat>>
    var waits: seq<Option<Wait>>
    var wakers: map<nat, Entry>
    var tasks: seq<Status>
    var ready: seq<nat>
    var woken: bool
    var parkedOn: set<nat>

    function Bookkeeping(): Mem reads this { Mem(slots, vacant, regs, handles, waits, wakers) }

    function Scheduler(): Sched reads this { Sched(tasks, ready, woken, parkedOn) }

    function View(): World reads this { World(Bookkeeping(), Scheduler()) }

    ghost predicate Valid() reads this { Inv(View(), None) }

    constructor ()
      ensures Valid() && View() == IDLE
    {
      slots, vacant, regs, handles, waits, wakers := [], [], [], [], [], map[];
      tasks, ready, woken, parkedOn := [], [], false, {};
      new;
      IdleOk();
    }

    /** Puts a pollable into the slab, and hands out the first reference to its registration. */
    method Schedule(p: nat)
      modifies this`slots, this`vacant, this`regs, this`handles
      ensures Bookkeeping() == Inserted(old(Bookkeeping()), p)
    {
      var key := |slots|;
      if |vacant| > 0 {
        key := vacant[|vacant| - 1];
        vacant := vacant[..|vacant| - 1];
        if key < |slots| {
          slots := slots[key := Some(p)];
        } else {
          slots := slots + [Some(p)];
        }
      } else {
        slots := slots + [Some(p)];
      }
      handles := handles + [Some(|regs|)];
      regs := regs + [Reg(key, p)];
    }

    /** A reference to registration `r` has gone. */
    method Unreference(r: nat)
      modifies this`slots, this`vacant
      ensures Bookkeeping() == Released(old(Bookkeeping()), r)
    {
      if !Referenced(Bookkeeping(), r) && r < |regs| && regs[r].key < |slots| {
        slots := slots[regs[r].key := None];
        vacant := vacant + [regs[r].key];
      }
    }

    method DropHandle(h: nat)
      requires HandleAt(Bookkeeping(), h)
      modifies this`handles, this`slots, this`vacant
      ensures Bookkeeping() == HandleDropped(old(Bookkeeping()), h)
    {
      var r := handles[h].value;
      handles := handles[h := None];
      Unreference(r);
    }

    /** Polls a wait: not ready, the polling task's waker is left in the map. */
    method PollWait(me: nat, u: nat, hot: bool) returns (done: bool)
      requires WaitAt(Bookkeeping(), u) && Names(Bookkeeping(), waits[u].value.reg)
      modifies this`waits, this`wakers, this`parkedOn
      ensures done == hot
      ensures Bookkeeping() == if hot then old(Bookkeeping()) else WaitParked(old(Bookkeeping()), u, me)
      ensures parkedOn == if hot then old(parkedOn) - {u}
                          else if old(Holds(Bookkeeping(), me, u)) then old(parkedOn) + {u} else old(parkedOn)
    {
      if hot {
        parkedOn := parkedOn - {u};
      } else {
        var w := waits[u].value;
        wakers := wakers[u := Entry(w.reg, me)];
        waits := waits[u := Some(w.(poller := Some(me)))];
        if w.holder == Some(me) {
          parkedOn := parkedOn + {u};
        }
      }
      return hot;
    }

    method DropWait(u: nat)
      requires WaitAt(Bookkeeping(), u)
      modifies this`waits, this`wakers, this`slots, this`vacant, this`parkedOn
      ensures Bookkeeping() == WaitDropped(old(Bookkeeping()), u) && parkedOn == old(parkedOn) - {u}
    {
      var w := waits[u].value;
      if w.poller.Some? {
        wakers := wakers - {u};
      }
      waits := waits[u := None];
      parkedOn := parkedOn - {u};
      Unreference(w.reg);
    }

    method WakeTask(t: nat)
      modifies this`tasks, this`ready, this`woken
      ensures Scheduler() == Woken(old(Scheduler()), t)
    {
      if t < |tasks| {
        match tasks[t] {
          case Parked =>
            tasks := tasks[t := Queued];
            ready := ready + [t];
          case Running => woken := true;
          case _ =>
        }
      }
    }

    method Act(me: Option<nat>, a: Action)
      requires Inv(View(), me) && IsTask(Scheduler(), me)
      modifies this
      ensures View() == Acted(old(View()), me, a)
    {
      match a {
        case New(p) => Schedule(p);
        case Clone(h) => if HandleAt(Bookkeeping(), h) { handles := handles + [handles[h]]; }
        case DropHandle(h) => if HandleAt(Bookkeeping(), h) { DropHandle(h); }
        case MakeWait(h) => if HandleAt(Bookkeeping(), h) { waits := waits + [Some(Wait(handles[h].value, me, None))]; }
        case PollWait(u, hot) =>
          if me.Some? && Reach(Bookkeeping(), me, u) {
            assert RefOr(Bookkeeping(), None, waits[u].value.reg);
            var done := PollWait(me.value, u, hot);
          }
        case DropWait(u) => if Reach(Bookkeeping(), me, u) { DropWait(u); }
        case MoveWait(u, holder) =>
          if Reach(Bookkeeping(), me, u) && CanHold(Scheduler(), holder) {
            waits := waits[u := Some(waits[u].value.(holder := holder))];
            if holder != me {
              parkedOn := parkedOn - {u};
            }
          }
        case Spawn =>
          ready := ready + [|tasks|];
          tasks := tasks + [Queued];
        case Wake(t) => WakeTask(t);
      }
    }

    /**
     * Code outside a poll spawns a task, registers, clones or drops a pollable, makes, moves or drops a wait, or wakes.
     */
    method Call(a: Action)
      requires Valid()
      modifies this
      ensures Valid() && View() == Happened(old(View()), Called(a))
    {
      ActedKeeps(View(), None, a);
      Act(None, a);
    }

    method ActAll(me: nat, actions: seq<Action>)
      requires Inv(View(), Some(me)) && me < |tasks|
      modifies this
      ensures View() == ActedAll(old(View()), me, actions)
    {
      ghost var w := View();
      var i := 0;
      while i < |actions|
        invariant i <= |actions| && Inv(View(), Some(me)) && me < |tasks|
        invariant ActedAll(View(), me, actions[i..]) == ActedAll(w, me, actions)
      {
        ActedKeeps(View(), Some(me), actions[i]);
        assert actions[i..][1..] == actions[i + 1..];
        Act(Some(me), actions[i]);
        i := i + 1;
      }
    }

    /** Drops what waits the completed task still holds. */
    method Sweep(me: nat)
      requires MemOk(Bookkeeping())
      modifies this`waits, this`wakers, this`slots, this`vacant, this`parkedOn
      ensures Bookkeeping() == Swept(old(Bookkeeping()), me, |old(waits)|)
      ensures parkedOn == Unheld(old(parkedOn), old(Bookkeeping()), me, |old(waits)|)
    {
      ghost var m, parked := Bookkeeping(), parkedOn;
      var u := 0;
      while u < |waits|
        invariant u <= |waits| == |m.waits| && Bookkeeping() == Swept(m, me, u)
        invariant parkedOn == Unheld(parked, m, me, u)
      {
        SweptAll(m, me, u);
        if Holds(Bookkeeping(), me, u) {
          DropWait(u);
        }
        UnheldNext(parked, m, me, u);
        u := u + 1;
      }
    }

    /** The poll is over: says whether the task is to run again. */
    method Settle(me: nat, done: bool) returns (again: bool)
      requires Inv(View(), Some(me)) && me < |tasks|
      modifies this
      ensures View() == Finished(old(View()), me, done)
      ensures again ==> ready != []
    {
      again := false;
      if done {
        Sweep(me);
        tasks := tasks[me := Done];
      } else if woken {
        tasks, ready, again := tasks[me := Queued], ready + [me], true;
      } else {
        tasks := tasks[me := Parked];
      }
      woken := false;
    }

    /** Pops the front task and polls it once. */
    method RunFront(poll: Poll) returns (again: bool)
      requires Valid() && ready != []
      modifies this
      ensures Valid() && View() == Happened(old(View()), Ran(poll))
      ensures again ==> ready != []
    {
      PolledKeeps(View(), poll);
      BegunKeeps(View());
      var me := ready[0];
      ready, tasks, woken := ready[1..], tasks[me := Running], false;
      ActedAllKeeps(View(), me, poll.actions);
      ActAll(me, poll.actions);
      again := Settle(me, poll.done);
    }

    /** The registered wakers, in the map's own order. */
    method ListWakers() returns (order: seq<nat>)
      ensures Elements(order) == wakers.Keys
    {
      order := [];
      var rest := wakers.Keys;
      while rest != {}
        invariant Elements(order) + rest == wakers.Keys
        decreases |rest|
      {
        var u :| u in rest;
        assert (order + [u])[..|order|] == order;
        order, rest := order + [u], rest - {u};
      }
    }

    /** Wakes the tasks whose wakers the host found due, one waker after the other. */
    method WakeDue(order: seq<nat>, hot: set<nat>)
      modifies this`tasks, this`ready, this`woken
      ensures Scheduler() == WokenAlong(old(View()), order, hot)
    {
      ghost var w := View();
      var i := 0;
      while i < |order|
        invariant i <= |order| && Scheduler() == WokenAlong(w, order[..i], hot)
      {
        assert order[..i + 1][..i] == order[..i];
        if Due(Bookkeeping(), order[i], hot) {
          WakeTask(wakers[order[i]].task);
        }
        i := i + 1;
      }
      assert order[..i] == order;
    }

    /** Asks the host, without blocking, which parked pollables are ready, and wakes their tasks, in any order. */
    method NonblockCheck(hot: set<nat>) returns (ghost order: seq<nat>)
      requires Valid()
      modifies this`tasks, this`ready, this`woken
      ensures Valid() && WokeDue(old(View()), Scheduler(), wakers.Keys, hot)
      ensures Elements(order) == wakers.Keys && View() == Happened(old(View()), Checked(order, hot))
    {
      var listed := ListWakers();
      order := listed;
      WokenAlongOk(View(), order, hot);
      WakeDue(listed, hot);
    }

    /** A check with nothing left to run: if that wakes nobody, no due waker is an unfinished task's. */
    method IdleCheck(hot: set<nat>, ghost kept: World -> bool)
      requires Valid() && ready == [] && Lasting(kept) && kept(View())
      modifies this`tasks, this`ready, this`woken
      ensures Valid() && kept(View()) && (ready == [] ==> Rested(View(), true, hot))
    {
      ghost var w := View();
      ghost var order := NonblockCheck(hot);
      assert kept(Happened(w, Checked(order, hot)));
      if ready == [] {
        NothingDue(w, Scheduler(), hot);
      }
    }

    /** Polls the front task; unless that was the last poll allowed, checks if there is more to run. */
    method RunAndCheck(poll: Poll, last: bool, hot: set<nat>, ghost kept: World -> bool) returns (checked: bool)
      requires Valid() && ready != [] && Lasting(kept) && kept(View())
      modifies this
      ensures Valid() && kept(View()) && (last ==> !checked) && (!last ==> (checked <==> ready != []))
    {
      assert kept(Happened(View(), Ran(poll)));
      var again := RunFront(poll);
      checked := !last && (again || ready != []);
      if checked {
        ghost var w := View();
        ghost var order := NonblockCheck(hot);
        assert kept(Happened(w, Checked(order, hot)));
      }
    }

    /**
     * One turn of the loop: `ran` says whether a task was polled, `checked` whether the host was asked, and `stop`
     * whether, with nothing to run, nothing is parked or no waker that is due is an unfinished task's.
     */
    method Round(poll: Poll, last: bool, hot: set<nat>, ghost kept: World -> bool)
      returns (ran: bool, checked: bool, stop: bool)
      requires Lasting(kept) && Sound(kept) && kept(View())
      modifies this
      ensures kept(View())
      ensures ran == (old(ready) != [])
      ensures ran ==> !stop && (last ==> !checked) && (!last ==> (checked <==> ready != []))
      ensures !ran ==> (stop <==> ready == []) && (!stop ==> checked)
      ensures stop ==> Rested(View(), checked, hot)
    {
      assert Valid();
      ran, checked, stop := ready != [], false, false;
      if ran {
        checked := RunAndCheck(poll, last, hot, kept);
      } else if wakers == map[] {
        stop := true;
      } else {
        IdleCheck(hot, kept);
        checked, stop := true, ready == [];
      }
    }

    /** The loop, which keeps what each event keeps. */
    method Loop(script: nat -> Poll, host: nat -> set<nat>, ghost kept: World -> bool)
      returns (runs: nat, checks: nat, rounds: nat)
      requires Lasting(kept) && Sound(kept) && kept(View())
      modifies this
      ensures kept(View()) && runs <= MAX_RUNS && rounds <= 2 * MAX_RUNS
      ensures runs <= checks + 1 && checks <= runs + 1
      ensures runs < MAX_RUNS ==> Rested(View(), false, {}) || (checks > 0 && Rested(View(), true, host(checks - 1)))
    {
      runs, checks, rounds := 0, 0, 0;
      while true
        invariant kept(View()) && runs < MAX_RUNS && rounds <= 2 * runs + 1
        invariant rounds == 2 * runs + 1 ==> ready != []
        invariant runs <= checks + 1 && checks <= runs + 1
        invariant if ready == [] then checks <= runs else runs <= checks
        decreases MAX_RUNS - runs, if ready == [] then 1 else 0
      {
        var hot := host(checks);
        var ran, checked, stop := Round(script(runs), runs + 1 >= MAX_RUNS, hot, kept);
        rounds := rounds + 1;
        runs := if ran then runs + 1 else runs;
        checks := if checked then checks + 1 else checks;
        if checked {
          assert hot == host(checks - 1);
        }
        if stop || runs >= MAX_RUNS {
          break;
        }
      }
    }

    /**
     * Runs what is ready and checks what is parked until nothing can move, or the cap is hit; `script` is what the
     * k-th poll does and `host` what the k-th check is told. It ends within twice the cap, with a check between any
     * two polls; short of the cap, nothing is left to run and no waker that the last check found due is an unfinished
     * task's.
     */
    method Step(script: nat -> Poll, host: nat -> set<nat>) returns (runs: nat, checks: nat, rounds: nat)
      requires Valid()
      modifies this
      ensures Valid() && Reaches(old(View()), View()) && runs <= MAX_RUNS && rounds <= 2 * MAX_RUNS
      ensures runs <= checks + 1 && checks <= runs + 1
      ensures runs < MAX_RUNS ==> Rested(View(), false, {}) || (checks > 0 && Rested(View(), true, host(checks - 1)))
    {
      ghost var start := View();
      FromLasts(start);
      runs, checks, rounds := Loop(script, host, From(start));
      FromReaches(start, View());
    }
  }

  /** What the code around an executor does: call into it, or advance it by one frame. */
  datatype Turn = Call(a: Action) | Frame(script: nat -> Poll, host: nat -> set<nat>)

  /** Installs an executor and uses it for any number of turns. */
  method Serve(turns: seq<Turn>) returns (r: Reactor)
    ensures fresh(r) && r.Valid() && Reaches(IDLE, r.View())
  {
    r := new Reactor();
    ReachesNow(IDLE);
    for i := 0 to |turns|
      invariant fresh(r) && r.Valid() && Reaches(IDLE, r.View())
    {
      ghost var w := r.View();
      match turns[i] {
        case Call(a) =>
          r.Call(a);
          ReachesNext(IDLE, w, Called(a));
        case Frame(script, host) =>
          var runs, checks, rounds := r.Step(script, host);
          ReachesThrough(IDLE, w, r.View());
      }
    }
  }
}
