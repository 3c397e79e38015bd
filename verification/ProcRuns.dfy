// Processes, CPUs and ptable.lock of xv6-x86/proc.c on every interleaving of the parts of
// scheduler, yield, sleep, wakeup, exit, wait, fork and kill that the lock keeps together.
module ProcRuns {
  import opened Helpers
  import opened ProcTable

  // Who holds ptable.lock: a CPU in the scheduler loop, about to run the process it has set
  // as current, the process running on a CPU, or a process that has given up its CPU but has
  // not been switched away from yet.
  datatype Lock = Free | Scheduler(c: nat) | Entering(c: nat) | Held(c: nat) | Leaving(c: nat)

  // cpus: each CPU's current process. making: processes in fork and the slot they fill.
  // inwait: processes inside wait().
  datatype State = State(t: seq<Proc>, cpus: seq<Option<nat>>, lock: Lock, making: map<nat, nat>, inwait: set<nat>,
      init: nat)

  datatype Step =
    | Acquire(c: nat) | Release(c: nat)
    | Pick(c: nat, q: nat) | Run(c: nat) | Switch(c: nat)
    | Yield(c: nat) | Sleep(c: nat, id: nat) | Exit(c: nat)
    | WaitEnter(c: nat) | WaitReap(c: nat, q: nat) | WaitGiveUp(c: nat) | WaitSleep(c: nat)
    | Wakeup(id: nat) | Kill(q: nat)
    | Alloc(c: nat, q: nat, pid: int) | AllocFail(c: nat) | SetParent(c: nat) | ForkDone(c: nat)

  predicate Alive(p: Proc) { p.state == SLEEPING || p.state == RUNNABLE || p.state == RUNNING }

  predicate Current(s: State, c: nat) { c < |s.cpus| && s.cpus[c].Some? && s.cpus[c].value < |s.t| }

  // The process on CPU c holds the lock.
  predicate Locked(s: State, c: nat) { Current(s, c) && s.lock == Held(c) }

  // The process on CPU c runs without the lock.
  predicate Unlocked(s: State, c: nat) {
    Current(s, c) && s.lock != Held(c) && s.lock != Entering(c) && s.lock != Leaving(c)
  }

  predicate Fork(s: State, c: nat) {
    Unlocked(s, c) && s.cpus[c].value in s.making && s.making[s.cpus[c].value] < |s.t|
  }

  function With(t: seq<Proc>, p: nat, x: Proc): seq<Proc>
    requires p < |t|
  {
    t[p := x]
  }

  predicate Next(s: State, a: Step, n: State) {
    match a
    case Acquire(c) => c < |s.cpus| && s.lock == Free && n ==
        s.(lock := if s.cpus[c].Some? then Held(c) else Scheduler(c))
    case Release(c) =>
      && (s.lock == Scheduler(c) || (Locked(s, c) && s.cpus[c].value !in s.inwait))
      && n == s.(lock := Free)
    case Pick(c, q) =>
      && c < |s.cpus| && s.lock == Scheduler(c) && q < |s.t| && s.t[q].state == RUNNABLE
      && n == s.(cpus := s.cpus[c := Some(q)], lock := Entering(c))
    case Run(c) =>
      && Current(s, c) && s.lock == Entering(c)
      && var p := s.cpus[c].value;
      n == s.(t := With(s.t, p, s.t[p].(state := RUNNING, chan := None)), lock := Held(c))
    case Switch(c) => c < |s.cpus| && s.lock == Leaving(c) && n == s.(cpus := s.cpus[c := None], lock := Scheduler(c))
    case Yield(c) =>
      && Locked(s, c) && s.cpus[c].value !in s.inwait
      && var p := s.cpus[c].value;
      n == s.(t := With(s.t, p, s.t[p].(state := RUNNABLE)), lock := Leaving(c))
    case Sleep(c, id) =>
      && Locked(s, c) && s.cpus[c].value !in s.inwait
      && var p := s.cpus[c].value;
      n == s.(t := With(s.t, p, s.t[p].(state := SLEEPING, chan := Some(Other(id)))), lock := Leaving(c))
    case Exit(c) =>
      && Locked(s, c)
      && var p := s.cpus[c].value;
      && p !in s.inwait && p !in s.making && p != s.init
      && Exited(s.t, n.t, p, s.init) && n == s.(t := n.t, lock := Leaving(c))
    case WaitEnter(c) =>
      && Locked(s, c) && s.cpus[c].value !in s.making && s.cpus[c].value !in s.inwait
      && n == s.(inwait := s.inwait + {s.cpus[c].value})
    case WaitReap(c, q) =>
      && Locked(s, c) && s.cpus[c].value in s.inwait && FirstDead(s.t, s.cpus[c].value, q)
      && n == s.(t := With(s.t, q, Reaped(s.t[q])), inwait := s.inwait - {s.cpus[c].value})
    case WaitGiveUp(c) =>
      && Locked(s, c)
      && var p := s.cpus[c].value;
      && p in s.inwait && !DeadChild(s.t, p) && (!HasChild(s.t, p) || s.t[p].killed)
      && n == s.(inwait := s.inwait - {p})
    case WaitSleep(c) =>
      && Locked(s, c)
      && var p := s.cpus[c].value;
      && p in s.inwait && !DeadChild(s.t, p) && HasChild(s.t, p) && !s.t[p].killed
      && n == s.(t := With(s.t, p, s.t[p].(state := SLEEPING, chan := Some(OnProc(p)))), lock := Leaving(c))
    case Wakeup(id) => s.lock == Free && n == s.(t := Woken(s.t, Other(id)))
    case Kill(q) => s.lock == Free && q < |s.t| && n == s.(t := With(s.t, q, Killed(s.t[q])))
    case Alloc(c, q, pid) =>
      && Current(s, c) && s.lock == Free && s.cpus[c].value !in s.making && s.cpus[c].value !in s.inwait
      && q < |s.t| && s.t[q].state == UNUSED
      && n == s.(t := With(s.t, q, s.t[q].(state := EMBRYO, pid := pid)), making := s.making[s.cpus[c].value := q])
    case AllocFail(c) =>
      && Fork(s, c)
      && var p := s.cpus[c].value;
      var q := s.making[p];
      && s.t[q].parent == None
      && n == s.(t := With(s.t, q, s.t[q].(state := UNUSED)), making := s.making - {p})
    case SetParent(c) =>
      && Fork(s, c)
      && var p := s.cpus[c].value;
      var q := s.making[p];
      n == s.(t := With(s.t, q, s.t[q].(parent := Some(p))))
    case ForkDone(c) =>
      && Fork(s, c) && s.lock == Free
      && var p := s.cpus[c].value;
      var q := s.making[p];
      && s.t[q].parent == Some(p)
      && n == s.(t := With(s.t, q, s.t[q].(state := RUNNABLE)), making := s.making - {p})
  }

  // ---- the invariant

  predicate OnCpu(s: State, p: nat) { exists c :: 0 <= c < |s.cpus| && s.cpus[c] == Some(p) }

  // The process between the two halves of a switch.
  predicate InTransit(s: State, p: nat) {
    && (s.lock.Entering? || s.lock.Leaving?) && s.lock.c < |s.cpus| && s.cpus[s.lock.c] == Some(p)
  }

  // No CPU shares its process; the lock and the CPUs agree.
  predicate CpusOk(s: State) {
    && (forall c, d :: 0 <= c < |s.cpus| && 0 <= d < |s.cpus| && s.cpus[c].Some? && s.cpus[c] == s.cpus[d] ==> c == d)
    && (forall c :: 0 <= c < |s.cpus| && s.cpus[c].Some? ==> s.cpus[c].value < |s.t|)
    && (match s.lock
        case Free => true
        case Scheduler(c) => c < |s.cpus| && s.cpus[c].None?
        case Entering(c) => Current(s, c) && s.t[s.cpus[c].value].state == RUNNABLE
        case Held(c) => Current(s, c)
        case Leaving(c) => Current(s, c) && s.t[s.cpus[c].value].state in {RUNNABLE, SLEEPING, ZOMBIE})
  }

  // But for a process in transit, RUNNING is the same as being on a CPU.
  predicate RunsOk(s: State) {
    forall p: nat :: p < |s.t| && !InTransit(s, p) ==> (s.t[p].state == RUNNING <==> OnCpu(s, p))
  }

  // Entry p of the table, its parent and, if it sleeps in wait, its children.
  predicate ProcOk(t: seq<Proc>, inwait: set<nat>, init: nat, p: nat)
    requires p < |t|
  {
    && (t[p].parent.Some? ==> t[p].parent.value < |t| && t[p].parent.value != p && Alive(t[t[p].parent.value]))
    && (t[p].state == UNUSED ==> t[p].parent == None)
    && (t[p].state == SLEEPING && t[p].chan.Some? && t[p].chan.value.OnProc? ==>
        t[p].chan.value.q == p && p in inwait && !DeadChild(t, p))
    && (p in inwait ==> Alive(t[p]))
    && (p == init ==> Alive(t[p]) && t[p].parent == None)
  }

  predicate TableOk(s: State) {
    s.init < |s.t| && forall p :: 0 <= p < |s.t| ==> ProcOk(s.t, s.inwait, s.init, p)
  }

  // Process p is in fork and fills slot q.
  predicate MakeOk(s: State, p: nat, q: nat) {
    && p < |s.t| && Alive(s.t[p]) && p !in s.inwait
    && q < |s.t| && s.t[q].state == EMBRYO && (s.t[q].parent == None || s.t[q].parent == Some(p))
  }

  predicate MakingOk(s: State) {
    && (forall p :: p in s.making ==> MakeOk(s, p, s.making[p]))
    && (forall p, q :: p in s.making && q in s.making && s.making[p] == s.making[q] ==> p == q)
  }

  predicate Inv(s: State) { CpusOk(s) && RunsOk(s) && TableOk(s) && MakingOk(s) }

  // ---- what it says

  // When the lock is free, a process is RUNNING exactly if one CPU, and only one, has it.
  lemma RunningIffOnOneCpu(s: State, p: nat)
    requires Inv(s) && s.lock == Free && p < |s.t|
    ensures s.t[p].state == RUNNING <==> exists c :: 0 <= c < |s.cpus| && s.cpus[c] == Some(p)
    ensures forall c, d :: 0 <= c < |s.cpus| && 0 <= d < |s.cpus| && s.cpus[c] == Some(p) && s.cpus[d] == Some(p) ==>
        c == d
  {
    assert !InTransit(s, p);
  }

  // The child that wait clears away is on no CPU and has no children, and its parent's sleep
  // in wait never outlives a child's death.
  lemma ReapSafe(s: State, c: nat, q: nat, n: State)
    requires Inv(s) && Next(s, WaitReap(c, q), n)
    ensures !OnCpu(s, q) && !HasChild(s.t, q)
  {
    assert !InTransit(s, q);
    forall i | 0 <= i < |s.t| ensures s.t[i].parent != Some(q) {
      assert ProcOk(s.t, s.inwait, s.init, i);
    }
  }

  lemma NoZombieParent(s: State, p: nat)
    requires Inv(s) && p < |s.t| && s.t[p].parent.Some?
    ensures s.t[p].parent.value < |s.t| && s.t[s.t[p].parent.value].state !in {ZOMBIE, UNUSED}
  {
    assert ProcOk(s.t, s.inwait, s.init, p);
  }

  lemma NoZombieChildWhileWaiting(s: State, p: nat)
    requires Inv(s) && p < |s.t| && s.t[p].state == SLEEPING && s.t[p].chan == Some(OnProc(p))
    ensures !DeadChild(s.t, p)
  {
    assert ProcOk(s.t, s.inwait, s.init, p);
  }

  // ---- every step keeps it: the table

  // x may replace entry i.
  predicate MayReplace(t: seq<Proc>, inwait: set<nat>, init: nat, i: nat, x: Proc)
    requires i < |t|
  {
    && (Alive(t[i]) ==> Alive(x) || (i !in inwait && i != init && !HasChild(t, i)))
    && (x.parent.Some? ==> x.parent.value < |t| && x.parent.value != i && Alive(t[x.parent.value]))
    && (x.state == UNUSED ==> x.parent == None)
    && (x.state == ZOMBIE ==> t[i].state == ZOMBIE && x.parent == t[i].parent)
    && (x.state == SLEEPING && x.chan.Some? && x.chan.value.OnProc? ==>
        x.chan.value.q == i && i in inwait && !DeadChild(t, i))
    && (i == init ==> x.parent == None)
  }

  lemma Replaced(t: seq<Proc>, inwait: set<nat>, init: nat, i: nat, x: Proc, p: nat)
    requires forall j :: 0 <= j < |t| ==> ProcOk(t, inwait, init, j)
    requires i < |t| && MayReplace(t, inwait, init, i, x) && p < |t|
    ensures ProcOk(With(t, i, x), inwait, init, p)
  {
    var u := With(t, i, x);
    assert ProcOk(t, inwait, init, p);
    forall j | 0 <= j < |u| && u[j].parent == Some(p) && u[j].state == ZOMBIE ensures DeadChild(t, p) {
      assert t[j].parent == Some(p) && t[j].state == ZOMBIE;
    }
    if p != i && t[p].parent == Some(i) && !Alive(x) {
      assert HasChild(t, i);
    }
  }

  // A smaller or larger set of waiters.
  lemma Waiters(t: seq<Proc>, inwait: set<nat>, inwait1: set<nat>, init: nat, p: nat)
    requires p < |t| && ProcOk(t, inwait, init, p)
    requires p in inwait1 && p !in inwait ==> Alive(t[p])
    requires p in inwait && p !in inwait1 ==> t[p].state != SLEEPING
    ensures ProcOk(t, inwait1, init, p)
  {
  }

  lemma TableOne(s: State, n: State, i: nat, x: Proc)
    requires TableOk(s) && i < |s.t| && MayReplace(s.t, s.inwait, s.init, i, x)
    requires n.t == With(s.t, i, x) && n.init == s.init
    requires forall p :: p in n.inwait && p !in s.inwait ==> p < |s.t| && Alive(n.t[p])
    requires forall p :: p in s.inwait && p !in n.inwait ==> p < |s.t| && n.t[p].state != SLEEPING
    ensures TableOk(n)
  {
    hide MayReplace;
    forall p | 0 <= p < |n.t| ensures ProcOk(n.t, n.inwait, n.init, p) {
      Replaced(s.t, s.inwait, s.init, i, x, p);
      Waiters(n.t, s.inwait, n.inwait, n.init, p);
    }
  }

  // The process that holds the lock is RUNNING, and alive.
  lemma LockedRuns(s: State, c: nat)
    requires Inv(s) && (Locked(s, c) || Unlocked(s, c))
    ensures s.t[s.cpus[c].value].state == RUNNING && ProcOk(s.t, s.inwait, s.init, s.cpus[c].value)
  {
    var p := s.cpus[c].value;
    assert OnCpu(s, p);
    assert !InTransit(s, p);
  }

  lemma WokenTable(s: State, n: State, c: Chan)
    requires TableOk(s) && n == s.(t := Woken(s.t, c))
    ensures TableOk(n)
  {
    forall p | 0 <= p < |n.t| ensures ProcOk(n.t, n.inwait, n.init, p) {
      assert ProcOk(s.t, s.inwait, s.init, p);
      if DeadChild(n.t, p) {
        var j :| 0 <= j < |n.t| && n.t[j].parent == Some(p) && n.t[j].state == ZOMBIE;
        assert s.t[j].parent == Some(p) && s.t[j].state == ZOMBIE;
      }
    }
  }

  // exit: the dying process's parent is awake, and so is init if it inherits a dead child.
  lemma ExitTable(s: State, n: State, me: nat)
    requires TableOk(s) && me < |s.t| && me != s.init && me !in s.inwait && s.t[me].state == RUNNING
    requires Exited(s.t, n.t, me, s.init) && n.inwait == s.inwait && n.init == s.init
    ensures TableOk(n)
  {
    forall p | 0 <= p < |n.t| ensures ProcOk(n.t, n.inwait, n.init, p) {
      ExitEntry(s.t, n.t, s.inwait, me, s.init, p);
    }
  }

  lemma FromExitFacts(t: seq<Proc>, i: nat, me: nat, init: nat)
    requires i < |t| && me < |t|
    ensures var x := FromExit(t, i, me, init);
      && x.parent == (if t[i].parent == Some(me) then Some(init) else t[i].parent) && x.chan == t[i].chan
      && (i == me ==> x.state == ZOMBIE)
      && (i != me && t[i].state != SLEEPING ==> x.state == t[i].state)
      && (i != me && t[i].state == SLEEPING ==> x.state == SLEEPING || x.state == RUNNABLE)
      && (i != me && t[i].state == SLEEPING && t[me].parent.Some? && t[i].chan == Some(OnProc(t[me].parent.value)) ==>
          x.state == RUNNABLE)
      && (i != me && t[i].state == SLEEPING && DeadChild(t, me) && t[i].chan == Some(OnProc(init)) ==>
          x.state == RUNNABLE)
  {
    hide DeadChild;
  }

  lemma ExitEntry(t: seq<Proc>, u: seq<Proc>, inwait: set<nat>, me: nat, init: nat, p: nat)
    requires me < |t| && init < |t| && me != init && me !in inwait && t[me].state == RUNNING && p < |t|
    requires forall j :: 0 <= j < |t| ==> ProcOk(t, inwait, init, j)
    requires Exited(t, u, me, init)
    ensures |u| == |t| && ProcOk(u, inwait, init, p)
  {
    hide FromExit, DeadChild;
    assert ProcOk(t, inwait, init, p) && ProcOk(t, inwait, init, init) && ProcOk(t, inwait, init, me);
    assert u[p] == FromExit(t, p, me, init) && u[init] == FromExit(t, init, me, init);
    FromExitFacts(t, p, me, init);
    FromExitFacts(t, init, me, init);
    if t[p].parent.Some? {
      assert u[t[p].parent.value] == FromExit(t, t[p].parent.value, me, init);
      FromExitFacts(t, t[p].parent.value, me, init);
    }
    if u[p].state == SLEEPING && u[p].chan == Some(OnProc(p)) {
      ExitChildren(t, u, me, init, p);
    }
  }

  // Who still sleeps in wait after an exit has no dead child.
  lemma ExitChildren(t: seq<Proc>, u: seq<Proc>, me: nat, init: nat, p: nat)
    requires me < |t| && init < |t| && p < |t| && p != me && Exited(t, u, me, init)
    requires u[p].state == SLEEPING && u[p].chan == Some(OnProc(p)) && t[p].state == SLEEPING &&
        t[p].chan == Some(OnProc(p))
    requires !DeadChild(t, p) && t[me].parent != Some(me)
    ensures !DeadChild(u, p)
  {
    hide FromExit;
    assert u[p] == FromExit(t, p, me, init);
    FromExitFacts(t, p, me, init);
    forall j | 0 <= j < |u| ensures !(u[j].parent == Some(p) && u[j].state == ZOMBIE) {
      assert u[j] == FromExit(t, j, me, init);
      FromExitFacts(t, j, me, init);
      if t[j].parent == Some(me) && t[j].state == ZOMBIE {
        assert DeadChild(t, me);
      }
    }
  }

  lemma NextTable(s: State, a: Step, n: State)
    requires Inv(s) && Next(s, a, n)
    ensures TableOk(n)
  {
    hide Inv, TableOk;
    match a
    case Acquire(_) => SameTable(s, a, n);
    case Release(_) => SameTable(s, a, n);
    case Pick(_, _) => SameTable(s, a, n);
    case Switch(_) => SameTable(s, a, n);
    case Wakeup(id) => SameTable(s, a, n);
    case Exit(c) => SameTable(s, a, n);
    case Run(c) => OwnEntry(s, a, n);
    case Yield(c) => OwnEntry(s, a, n);
    case Sleep(c, _) => OwnEntry(s, a, n);
    case WaitSleep(c) => OwnEntry(s, a, n);
    case WaitEnter(c) => OwnEntry(s, a, n);
    case WaitGiveUp(c) => OwnEntry(s, a, n);
    case WaitReap(c, q) => OtherEntry(s, a, n);
    case Kill(q) => OtherEntry(s, a, n);
    case Alloc(c, q, _) => OtherEntry(s, a, n);
    case AllocFail(c) => ForkEntry(s, a, n);
    case SetParent(c) => ForkEntry(s, a, n);
    case ForkDone(c) => ForkEntry(s, a, n);
  }

  lemma SameTable(s: State, a: Step, n: State)
    requires Inv(s) && Next(s, a, n) && (a.Acquire? || a.Release? || a.Pick? || a.Switch? || a.Wakeup? || a.Exit?)
    ensures TableOk(n)
  {
    hide ProcOk, RunsOk, MakingOk;
    if a.Wakeup? { WokenTable(s, n, Other(a.id)); }
    if a.Exit? {
      LockedRuns(s, a.c) by { assert RunsOk(s) && MakingOk(s); }
      ExitTable(s, n, s.cpus[a.c].value);
    }
  }

  lemma OwnEntry(s: State, a: Step, n: State)
    requires Inv(s) && Next(s, a, n)
    requires a.Run? || a.Yield? || a.Sleep? || a.WaitSleep? || a.WaitEnter? || a.WaitGiveUp?
    ensures TableOk(n)
  {
    hide RunsOk, MakingOk;
    var p := s.cpus[a.c].value;
    if a.Run? {
      assert ProcOk(s.t, s.inwait, s.init, p);
    } else {
      LockedRuns(s, a.c);
    }
    if a.WaitEnter? || a.WaitGiveUp? { SameEntry(s, p); }
    TableOne(s, n, p, n.t[p]);
  }

  lemma OtherEntry(s: State, a: Step, n: State)
    requires Inv(s) && Next(s, a, n) && (a.WaitReap? || a.Kill? || a.Alloc?)
    ensures TableOk(n)
  {
    hide RunsOk, MakingOk;
    if a.WaitReap? { LockedRuns(s, a.c); }
    assert ProcOk(s.t, s.inwait, s.init, a.q);
    TableOne(s, n, a.q, n.t[a.q]);
  }

  lemma ForkEntry(s: State, a: Step, n: State)
    requires Inv(s) && Next(s, a, n) && (a.AllocFail? || a.SetParent? || a.ForkDone?)
    ensures TableOk(n)
  {
    hide RunsOk, MakingOk;
    MakingEntry(s, a.c);
    var q := s.making[s.cpus[a.c].value];
    TableOne(s, n, q, n.t[q]);
  }

  lemma SameEntry(s: State, p: nat)
    requires TableOk(s) && p < |s.t|
    ensures MayReplace(s.t, s.inwait, s.init, p, s.t[p]) && With(s.t, p, s.t[p]) == s.t
  {
    assert ProcOk(s.t, s.inwait, s.init, p);
  }

  lemma MakingEntry(s: State, c: nat)
    requires Inv(s) && Fork(s, c)
    ensures var p := s.cpus[c].value;
      var q := s.making[p];
      && s.t[p].state == RUNNING && s.t[q].state == EMBRYO && (s.t[q].parent == None || s.t[q].parent == Some(p))
      && p !in s.inwait && ProcOk(s.t, s.inwait, s.init, q) && ProcOk(s.t, s.inwait, s.init, p)
  {
    LockedRuns(s, c);
    assert MakeOk(s, s.cpus[c].value, s.making[s.cpus[c].value]);
  }

  // ---- every step keeps it: the CPUs

  lemma NextCpus(s: State, a: Step, n: State)
    requires Inv(s) && Next(s, a, n)
    ensures CpusOk(n)
  {
    hide Inv, CpusOk, Next;
    if a.Pick? {
      assert CpusOk(s) && RunsOk(s) by { InvParts(s); }
      PickCpus(s, a.c, a.q, n);
    } else if a.Exit? {
      InvParts(s);
      ExitCpus(s, a.c, n);
    } else if a.AllocFail? || a.SetParent? || a.ForkDone? {
      ForkCpus(s, a, n);
    } else {
      InvParts(s);
      if a.Acquire? || a.Release? || a.Switch? || a.WaitEnter? || a.WaitGiveUp? { LockCpus(s, a, n); }
      else if a.Run? || a.Yield? || a.Sleep? || a.WaitSleep? { OwnCpus(s, a, n); }
      else { TableCpus(s, a, n); }
    }
  }

  lemma InvParts(s: State)
    requires Inv(s)
    ensures CpusOk(s) && RunsOk(s)
  {
    hide CpusOk, RunsOk;
  }

  lemma LockCpus(s: State, a: Step, n: State)
    requires CpusOk(s) && Next(s, a, n) && (a.Acquire? || a.Release? || a.Switch? || a.WaitEnter? || a.WaitGiveUp?)
    ensures CpusOk(n)
  {
    hide DeadChild, HasChild;
  }

  lemma OwnCpus(s: State, a: Step, n: State)
    requires CpusOk(s) && Next(s, a, n) && (a.Run? || a.Yield? || a.Sleep? || a.WaitSleep?)
    ensures CpusOk(n)
  {
    hide DeadChild, HasChild;
  }

  lemma TableCpus(s: State, a: Step, n: State)
    requires CpusOk(s) && Next(s, a, n) && (a.WaitReap? || a.Wakeup? || a.Kill? || a.Alloc?)
    ensures CpusOk(n)
  {
    hide Exited;
  }

  lemma PickCpus(s: State, c: nat, q: nat, n: State)
    requires CpusOk(s) && RunsOk(s) && Next(s, Pick(c, q), n)
    ensures CpusOk(n)
  {
    assert !InTransit(s, q);
    assert !OnCpu(s, q);
  }

  lemma ExitCpus(s: State, c: nat, n: State)
    requires CpusOk(s) && Next(s, Exit(c), n)
    ensures CpusOk(n)
  {
    assert n.t[s.cpus[c].value] == FromExit(s.t, s.cpus[c].value, s.cpus[c].value, s.init);
  }

  // The slot that fork fills is on no CPU, so not the one in transit.
  lemma ForkCpus(s: State, a: Step, n: State)
    requires Inv(s) && Next(s, a, n) && (a.AllocFail? || a.SetParent? || a.ForkDone?)
    ensures CpusOk(n)
  {
    hide TableOk, RunsOk, MakingOk, ProcOk;
    MakingEntry(s, a.c);
  }

  // ---- every step keeps it: who runs

  lemma NextRuns(s: State, a: Step, n: State)
    requires Inv(s) && Next(s, a, n)
    ensures RunsOk(n)
  {
    hide Inv, RunsOk;
    forall p: nat | p < |n.t| && !InTransit(n, p) ensures n.t[p].state == RUNNING <==> OnCpu(n, p) {
      NextRun(s, a, n, p);
    }
    assert RunsOk(n) by { RunsIf(n); }
  }

  lemma RunsIf(n: State)
    requires forall p: nat :: p < |n.t| && !InTransit(n, p) ==> (n.t[p].state == RUNNING <==> OnCpu(n, p))
    ensures RunsOk(n)
  {
  }

  lemma NextRun(s: State, a: Step, n: State, p: nat)
    requires Inv(s) && Next(s, a, n) && p < |n.t| && !InTransit(n, p)
    ensures n.t[p].state == RUNNING <==> OnCpu(n, p)
  {
    hide TableOk, MakingOk, ProcOk, CpusOk;
    if a.Pick? || a.Switch? || a.Run? {
      SwitchRun(s, a, n, p);
    } else if a.Exit? {
      ExitRun(s, a.c, n, p);
    } else if a.Yield? || a.Sleep? || a.WaitSleep? {
      LeaveRun(s, a, n, p);
    } else if a.AllocFail? || a.SetParent? || a.ForkDone? {
      MakingEntry(s, a.c);
      PlainRun(s, n, p);
    } else {
      PlainRun(s, n, p);
    }
  }

  // No CPU changes its process, and no one starts or stops running.
  lemma PlainRun(s: State, n: State, p: nat)
    requires CpusOk(s) && RunsOk(s) && n.cpus == s.cpus && |n.t| == |s.t| && p < |n.t| && !InTransit(n, p)
    requires InTransit(s, p) ==> InTransit(n, p)
    requires n.t[p].state == RUNNING <==> s.t[p].state == RUNNING
    ensures n.t[p].state == RUNNING <==> OnCpu(n, p)
  {
    assert OnCpu(n, p) <==> OnCpu(s, p);
  }

  lemma LeaveRun(s: State, a: Step, n: State, p: nat)
    requires Inv(s) && Next(s, a, n) && p < |n.t| && !InTransit(n, p) && (a.Yield? || a.Sleep? || a.WaitSleep?)
    ensures n.t[p].state == RUNNING <==> OnCpu(n, p)
  {
    hide TableOk, MakingOk;
    assert p != s.cpus[a.c].value;
    PlainRun(s, n, p);
  }

  lemma ExitRun(s: State, c: nat, n: State, p: nat)
    requires Inv(s) && Next(s, Exit(c), n) && p < |n.t| && !InTransit(n, p)
    ensures n.t[p].state == RUNNING <==> OnCpu(n, p)
  {
    hide TableOk, MakingOk, FromExit;
    assert p != s.cpus[c].value;
    assert n.t[p] == FromExit(s.t, p, s.cpus[c].value, s.init);
    FromExitFacts(s.t, p, s.cpus[c].value, s.init);
    PlainRun(s, n, p);
  }

  lemma SwitchRun(s: State, a: Step, n: State, p: nat)
    requires Inv(s) && Next(s, a, n) && p < |n.t| && !InTransit(n, p) && (a.Pick? || a.Switch? || a.Run?)
    ensures n.t[p].state == RUNNING <==> OnCpu(n, p)
  {
    hide TableOk, MakingOk;
    var c := a.c;
    if OnCpu(s, p) {
      var d :| 0 <= d < |s.cpus| && s.cpus[d] == Some(p);
      if d != c { assert n.cpus[d] == Some(p); }
    }
    if OnCpu(n, p) {
      var d :| 0 <= d < |n.cpus| && n.cpus[d] == Some(p);
      if d != c { assert s.cpus[d] == Some(p); }
    }
    assert a.Pick? || a.Switch? ==> n.t == s.t;
    assert a.Run? ==> OnCpu(s, s.cpus[c].value);
    if a.Switch? && InTransit(s, p) {
      assert s.cpus[c] == Some(p);
    }
  }

  // ---- every step keeps it: forks in progress

  // Nothing that matters to the fork of p into slot q has changed.
  predicate ForkKept(s: State, n: State, p: nat, q: nat) {
    && |n.t| == |s.t| && (p < |s.t| && Alive(s.t[p]) ==> Alive(n.t[p])) && (p in n.inwait ==> p in s.inwait)
    && (q < |s.t| && s.t[q].state == EMBRYO ==>
        n.t[q].state == EMBRYO && (n.t[q].parent == s.t[q].parent || n.t[q].parent == Some(p)))
  }

  lemma NextMaking(s: State, a: Step, n: State)
    requires Inv(s) && Next(s, a, n)
    ensures MakingOk(n)
  {
    hide CpusOk, RunsOk, TableOk, Next;
    if a.Alloc? {
      AllocMaking(s, a, n);
    } else {
      FewerForks(s, a, n);
      forall p | p in n.making ensures MakeOk(n, p, n.making[p]) {
        assert MakeOk(s, p, s.making[p]);
        KeptFork(s, a, n, p);
      }
    }
  }

  lemma FewerForks(s: State, a: Step, n: State)
    requires Next(s, a, n) && !a.Alloc?
    ensures forall p :: p in n.making ==> p in s.making && n.making[p] == s.making[p]
  {
  }

  lemma AllocMaking(s: State, a: Step, n: State)
    requires Inv(s) && Next(s, a, n) && a.Alloc?
    ensures MakingOk(n)
  {
    hide CpusOk;
    var me := s.cpus[a.c].value;
    LockedOrFree(s, a.c);
    assert ProcOk(s.t, s.inwait, s.init, a.q);
    forall p | p in n.making ensures MakeOk(n, p, n.making[p]) {
      if p != me { assert MakeOk(s, p, s.making[p]); }
    }
    forall p, q | p in n.making && q in n.making && n.making[p] == n.making[q] ensures p == q {
      if p != me { assert MakeOk(s, p, s.making[p]); }
      if q != me { assert MakeOk(s, q, s.making[q]); }
    }
  }

  // With the lock free, the current process of a CPU is RUNNING.
  lemma LockedOrFree(s: State, c: nat)
    requires Inv(s) && Current(s, c) && s.lock == Free
    ensures s.t[s.cpus[c].value].state == RUNNING
  {
    assert !InTransit(s, s.cpus[c].value);
    assert OnCpu(s, s.cpus[c].value);
  }

  lemma KeptFork(s: State, a: Step, n: State, p: nat)
    requires Inv(s) && Next(s, a, n) && !a.Alloc? && p in s.making && p in n.making && n.making[p] == s.making[p]
    ensures ForkKept(s, n, p, s.making[p])
  {
    assert MakeOk(s, p, s.making[p]);
    if a.Exit? {
      ExitFork(s, a.c, n, p);
    } else if a.AllocFail? || a.SetParent? || a.ForkDone? {
      OtherFork(s, a, n, p);
    } else if a.WaitReap? || a.Kill? || a.Wakeup? {
    } else if a.Run? || a.Yield? || a.Sleep? || a.WaitSleep? {
      OwnFork(s, a, n, p);
    }
  }

  lemma OwnFork(s: State, a: Step, n: State, p: nat)
    requires Inv(s) && Next(s, a, n) && p in s.making && (a.Run? || a.Yield? || a.Sleep? || a.WaitSleep?)
    ensures ForkKept(s, n, p, s.making[p])
  {
    assert MakeOk(s, p, s.making[p]);
    if !a.Run? { LockedRuns(s, a.c); }
  }

  lemma OtherFork(s: State, a: Step, n: State, p: nat)
    requires Inv(s) && Next(s, a, n) && p in s.making && p in n.making && (a.AllocFail? || a.SetParent? || a.ForkDone?)
    ensures ForkKept(s, n, p, s.making[p])
  {
    MakingEntry(s, a.c);
    var me := s.cpus[a.c].value;
    assert MakeOk(s, p, s.making[p]) && MakeOk(s, me, s.making[me]);
  }

  lemma ExitFork(s: State, c: nat, n: State, p: nat)
    requires Inv(s) && Next(s, Exit(c), n) && p in s.making
    ensures ForkKept(s, n, p, s.making[p])
  {
    hide FromExit;
    var q, me := s.making[p], s.cpus[c].value;
    LockedRuns(s, c);
    assert MakeOk(s, p, q);
    assert n.t[p] == FromExit(s.t, p, me, s.init) && n.t[q] == FromExit(s.t, q, me, s.init);
    FromExitFacts(s.t, p, me, s.init);
    FromExitFacts(s.t, q, me, s.init);
  }

  // ---- every run

  lemma NextInv(s: State, a: Step, n: State)
    requires Inv(s) && Next(s, a, n)
    ensures Inv(n)
  {
    hide CpusOk, RunsOk, TableOk, MakingOk, Next;
    NextTable(s, a, n);
    NextCpus(s, a, n);
    NextRuns(s, a, n);
    NextMaking(s, a, n);
  }

  // The state userinit leaves: the first process is ready, every CPU is in the scheduler.
  predicate Start(s: State) {
    && |s.t| == NPROC && s.init < NPROC && s.lock == Free && s.making == map[] && s.inwait == {}
    && (forall c :: 0 <= c < |s.cpus| ==> s.cpus[c] == None)
    && (forall p :: 0 <= p < NPROC ==>
        s.t[p].parent == None && s.t[p].chan == None && s.t[p].state == if p == s.init then RUNNABLE else UNUSED)
  }

  predicate Trace(states: seq<State>, steps: seq<Step>) {
    && |states| == |steps| + 1
    && forall i :: 0 <= i < |steps| ==> Next(states[i], steps[i], states[i + 1])
  }

  lemma {:induction false} RunInv(states: seq<State>, steps: seq<Step>, k: nat)
    requires Trace(states, steps) && Start(states[0]) && k < |states|
    ensures Inv(states[k])
  {
    if k == 0 {
      StartInv(states[0]);
    } else {
      RunInv(states, steps, k - 1);
      assert Next(states[k - 1], steps[k - 1], states[k]);
      NextInv(states[k - 1], steps[k - 1], states[k]);
    }
  }

  lemma StartInv(s: State)
    requires Start(s)
    ensures Inv(s)
  {
    forall p | 0 <= p < |s.t| ensures ProcOk(s.t, s.inwait, s.init, p) {
      assert !DeadChild(s.t, p);
    }
  }

  // In every run of the system, whenever wait clears a child away, no CPU has that child.
  lemma NeverReapsRunning(states: seq<State>, steps: seq<Step>, k: nat)
    requires Trace(states, steps) && Start(states[0]) && k < |steps| && steps[k].WaitReap?
    ensures forall c :: 0 <= c < |states[k].cpus| ==> states[k].cpus[c] != Some(steps[k].q)
  {
    RunInv(states, steps, k);
    assert Next(states[k], steps[k], states[k + 1]);
    ReapSafe(states[k], steps[k].c, steps[k].q, states[k + 1]);
  }
}
