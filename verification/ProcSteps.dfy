// What each step of ProcRuns does to every process, and that the holder of ptable.lock and an
// idle CPU can always go on.
module ProcSteps {
  import opened Helpers
  import opened ProcTable
  import opened ProcRuns

  // ---- who changes state, and by whose step

  // The process that CPU c runs.
  predicate Runs(s: State, c: nat, p: nat) { c < |s.cpus| && s.cpus[c] == Some(p) }

  predicate AsleepOn(p: Proc, c: Chan) { p.state == SLEEPING && p.chan == Some(c) }

  // exit() of process me wakes who waits for it, and init if it inherits a dead child.
  predicate WokenByExit(s: State, me: nat, p: nat)
    requires me < |s.t| && p < |s.t|
  {
    || (s.t[me].parent.Some? && AsleepOn(s.t[p], OnProc(s.t[me].parent.value)))
    || (DeadChild(s.t, me) && AsleepOn(s.t[p], OnProc(s.init)))
  }

  // The changes of state there are, each with its cause.
  predicate Cause(s: State, a: Step, p: nat, after: PState)
    requires p < |s.t|
  {
    match s.t[p].state
    case UNUSED => after == EMBRYO && a.Alloc? && a.q == p
    case EMBRYO =>
      || (after == RUNNABLE && a.ForkDone? && Fills(s, a.c, p))
      || (after == UNUSED && a.AllocFail? && Fills(s, a.c, p))
    case RUNNABLE => after == RUNNING && a.Run? && Runs(s, a.c, p)
    case RUNNING =>
      || (after == RUNNABLE && a.Yield? && Runs(s, a.c, p))
      || (after == SLEEPING && (a.Sleep? || a.WaitSleep?) && Runs(s, a.c, p))
      || (after == ZOMBIE && a.Exit? && Runs(s, a.c, p))
    case SLEEPING =>
      && after == RUNNABLE
      && ( || (a.Wakeup? && AsleepOn(s.t[p], Other(a.id)))
           || (a.Kill? && a.q == p)
           || (a.Exit? && Current(s, a.c) && WokenByExit(s, s.cpus[a.c].value, p)))
    case ZOMBIE => after == UNUSED && a.WaitReap? && a.q == p && a.c < |s.cpus| && s.cpus[a.c] == s.t[p].parent
  }

  // The process on CPU c is in fork and fills slot q.
  predicate Fills(s: State, c: nat, q: nat) {
    Current(s, c) && s.cpus[c].value in s.making && s.making[s.cpus[c].value] == q
  }

  /** A process changes its state if and only if there is a cause for it in the step; no other
      change of state exists. */
  lemma ChangesIff(s: State, a: Step, n: State, p: nat)
    requires Inv(s) && Next(s, a, n) && p < |s.t|
    ensures |n.t| == |s.t|
    ensures n.t[p].state != s.t[p].state <==> exists after :: Cause(s, a, p, after)
    ensures n.t[p].state != s.t[p].state ==> Cause(s, a, p, n.t[p].state)
  {
    hide CpusOk, RunsOk, MakingOk, TableOk, DeadChild, HasChild;
    match a
    case Exit(c) => ExitChanges(s, c, n, p);
    case WaitReap(c, q) => OtherChanges(s, a, n, p);
    case Wakeup(_) => OtherChanges(s, a, n, p);
    case Kill(_) => OtherChanges(s, a, n, p);
    case Alloc(_, _, _) => OtherChanges(s, a, n, p);
    case AllocFail(c) => ForkChanges(s, a, n, p);
    case SetParent(c) => ForkChanges(s, a, n, p);
    case ForkDone(c) => ForkChanges(s, a, n, p);
    case _ =>
      if a.Run? || a.Yield? || a.Sleep? || a.WaitSleep? {
        OwnChanges(s, a, n, p);
      } else {
        NoChanges(s, a, n, p);
      }
  }

  lemma ExitChanges(s: State, c: nat, n: State, p: nat)
    requires Inv(s) && Next(s, Exit(c), n) && p < |s.t|
    ensures |n.t| == |s.t|
    ensures n.t[p].state != s.t[p].state <==> exists after :: Cause(s, Exit(c), p, after)
    ensures n.t[p].state != s.t[p].state ==> Cause(s, Exit(c), p, n.t[p].state)
  {
    hide CpusOk, RunsOk, MakingOk, TableOk, DeadChild;
    var me := s.cpus[c].value;
    LockedRuns(s, c);
    assert n.t[p] == FromExit(s.t, p, me, s.init);
    if n.t[p].state == s.t[p].state {
      forall after ensures !Cause(s, Exit(c), p, after) { }
    } else {
      assert Cause(s, Exit(c), p, n.t[p].state);
    }
  }

  lemma OtherChanges(s: State, a: Step, n: State, p: nat)
    requires Inv(s) && Next(s, a, n) && p < |s.t| && (a.WaitReap? || a.Wakeup? || a.Kill? || a.Alloc?)
    ensures |n.t| == |s.t|
    ensures n.t[p].state != s.t[p].state <==> exists after :: Cause(s, a, p, after)
    ensures n.t[p].state != s.t[p].state ==> Cause(s, a, p, n.t[p].state)
  {
    hide CpusOk, RunsOk, MakingOk, TableOk, DeadChild;
    assert n.t[p].state != s.t[p].state ==> Cause(s, a, p, n.t[p].state);
  }

  lemma ForkChanges(s: State, a: Step, n: State, p: nat)
    requires Inv(s) && Next(s, a, n) && p < |s.t| && (a.AllocFail? || a.SetParent? || a.ForkDone?)
    ensures |n.t| == |s.t|
    ensures n.t[p].state != s.t[p].state <==> exists after :: Cause(s, a, p, after)
    ensures n.t[p].state != s.t[p].state ==> Cause(s, a, p, n.t[p].state)
  {
    hide CpusOk, RunsOk, MakingOk, TableOk, DeadChild;
    MakingEntry(s, a.c);
    assert n.t[p].state != s.t[p].state ==> Cause(s, a, p, n.t[p].state);
  }

  lemma OwnChanges(s: State, a: Step, n: State, p: nat)
    requires Inv(s) && Next(s, a, n) && p < |s.t| && (a.Run? || a.Yield? || a.Sleep? || a.WaitSleep?)
    ensures |n.t| == |s.t|
    ensures n.t[p].state != s.t[p].state <==> exists after :: Cause(s, a, p, after)
    ensures n.t[p].state != s.t[p].state ==> Cause(s, a, p, n.t[p].state)
  {
    hide RunsOk, MakingOk, TableOk, DeadChild, HasChild;
    if !a.Run? { LockedRuns(s, a.c); }
    assert n.t[p].state != s.t[p].state ==> Cause(s, a, p, n.t[p].state);
  }

  // The table stays as it is.
  lemma NoChanges(s: State, a: Step, n: State, p: nat)
    requires Next(s, a, n) && p < |s.t|
    requires a.Acquire? || a.Release? || a.Pick? || a.Switch? || a.WaitEnter? || a.WaitGiveUp?
    ensures n.t == s.t && forall after :: !Cause(s, a, p, after)
  {
    hide DeadChild, HasChild;
  }

  /** The other fields: who gets marked killed, whose parent changes and to whom, and who gets
      a pid. */
  lemma FieldsIff(s: State, a: Step, n: State, p: nat)
    requires Inv(s) && Next(s, a, n) && p < |s.t|
    ensures |n.t| == |s.t|
    ensures a.WaitReap? && a.q == p ==> n.t[p].pid == 0 && n.t[p].parent == None && !n.t[p].killed
    ensures !(a.WaitReap? && a.q == p) ==> (n.t[p].killed <==> s.t[p].killed || (a.Kill? && a.q == p))
    ensures !(a.WaitReap? && a.q == p) ==>
      n.t[p].parent ==
        if a.SetParent? && Fills(s, a.c, p) then s.cpus[a.c]
        else if a.Exit? && s.t[p].parent.Some? && s.cpus[a.c] == s.t[p].parent then Some(s.init)
        else s.t[p].parent
    ensures !(a.WaitReap? && a.q == p) ==> n.t[p].pid == if a.Alloc? && a.q == p then a.pid else s.t[p].pid
  {
    hide RunsOk, MakingOk, TableOk, DeadChild, HasChild;
    if a.Exit? {
      LockedRuns(s, a.c);
      ExitFields(s, a.c, n, p);
    } else if a.AllocFail? || a.SetParent? || a.ForkDone? {
      MakingEntry(s, a.c);
    }
  }

  lemma ExitFields(s: State, c: nat, n: State, p: nat)
    requires Locked(s, c) && Next(s, Exit(c), n) && p < |s.t|
    ensures |n.t| == |s.t| && n.t[p].pid == s.t[p].pid && n.t[p].killed == s.t[p].killed
    ensures n.t[p].parent == if s.cpus[c] == s.t[p].parent then Some(s.init) else s.t[p].parent
  {
    hide DeadChild;
    assert n.t[p] == FromExit(s.t, p, s.cpus[c].value, s.init);
  }

  // ---- ptable.lock is always given up

  // How far the holder is from giving it up.
  function Distance(s: State): nat {
    match s.lock
    case Free => 0
    case Scheduler(_) => 1
    case Leaving(_) => 2
    case Held(c) => if Current(s, c) && s.cpus[c].value in s.inwait then 4 else 3
    case Entering(_) => 5
  }

  /** Whoever holds the lock can take a step, and one that brings it nearer to being free. */
  lemma HolderMoves(s: State) returns (a: Step, n: State)
    requires Inv(s) && s.lock != Free
    ensures Next(s, a, n) && Distance(n) < Distance(s)
  {
    hide RunsOk, MakingOk, TableOk, DeadChild, HasChild;
    var c := s.lock.c;
    match s.lock
    case Scheduler(_) =>
      a, n := Release(c), s.(lock := Free);
    case Leaving(_) =>
      a, n := Switch(c), s.(cpus := s.cpus[c := None], lock := Scheduler(c));
    case Entering(_) =>
      var p := s.cpus[c].value;
      a, n := Run(c), s.(t := With(s.t, p, s.t[p].(state := RUNNING, chan := None)), lock := Held(c));
    case Held(_) =>
      if s.cpus[c].value in s.inwait {
        a, n := WaitMoves(s, c);
      } else {
        a, n := Release(c), s.(lock := Free);
      }
  }

  lemma FindDead(t: seq<Proc>, me: nat) returns (q: nat)
    requires DeadChild(t, me)
    ensures FirstDead(t, me, q)
  {
    q := 0;
    while !(t[q].parent == Some(me) && t[q].state == ZOMBIE)
      invariant 0 <= q < |t|
      invariant forall i :: 0 <= i < q ==> !(t[i].parent == Some(me) && t[i].state == ZOMBIE)
      decreases |t| - q
    {
      if q + 1 == |t| {
        var i :| 0 <= i < |t| && t[i].parent == Some(me) && t[i].state == ZOMBIE;
        assert false;
      }
      q := q + 1;
    }
  }

  // wait() with the lock: it reaps, gives up or sleeps.
  lemma WaitMoves(s: State, c: nat) returns (a: Step, n: State)
    requires Locked(s, c) && s.cpus[c].value in s.inwait
    ensures Next(s, a, n) && Distance(n) < Distance(s) && (a.WaitReap? || a.WaitGiveUp? || a.WaitSleep?)
  {
    hide DeadChild, HasChild;
    var p := s.cpus[c].value;
    if DeadChild(s.t, p) {
      var q := FindDead(s.t, p);
      a, n := WaitReap(c, q), s.(t := With(s.t, q, Reaped(s.t[q])), inwait := s.inwait - {p});
    } else if !HasChild(s.t, p) || s.t[p].killed {
      a, n := WaitGiveUp(c), s.(inwait := s.inwait - {p});
    } else {
      a := WaitSleep(c);
      n := s.(t := With(s.t, p, s.t[p].(state := SLEEPING, chan := Some(OnProc(p)))), lock := Leaving(c));
    }
  }

  /** Which of the three it does is settled: it reaps the first dead child if there is one, and
      otherwise it gives up exactly if it has no child or has been killed. */
  lemma WaitSettled(s: State, c: nat, a: Step, n: State, b: Step, m: State)
    requires Locked(s, c) && Next(s, a, n) && Next(s, b, m)
    requires (a.WaitReap? || a.WaitGiveUp? || a.WaitSleep?) && (b.WaitReap? || b.WaitGiveUp? || b.WaitSleep?)
    requires a.c == b.c == c
    ensures a == b && n == m
  {
    hide HasChild;
    if a.WaitReap? && b.WaitReap? {
      FirstDeadOnce(s.t, s.cpus[c].value, a.q, b.q);
    }
  }

  lemma FirstDeadOnce(t: seq<Proc>, me: nat, q: nat, r: nat)
    requires FirstDead(t, me, q) && FirstDead(t, me, r)
    ensures q == r
  {
  }

  /** When the lock is free, an idle CPU can run any process that is ready, in three steps that
      change nothing else. */
  lemma Schedules(s: State, c: nat, q: nat) returns (s1: State, s2: State, n: State)
    requires Inv(s) && s.lock == Free && c < |s.cpus| && s.cpus[c] == None
    requires q < |s.t| && s.t[q].state == RUNNABLE
    ensures Next(s, Acquire(c), s1) && Next(s1, Pick(c, q), s2) && Next(s2, Run(c), n)
    ensures n == s.(t := s.t[q := s.t[q].(state := RUNNING, chan := None)], cpus := s.cpus[c := Some(q)],
                    lock := Held(c))
  {
    s1 := s.(lock := Scheduler(c));
    s2 := s1.(cpus := s.cpus[c := Some(q)], lock := Entering(c));
    n := s2.(t := With(s.t, q, s.t[q].(state := RUNNING, chan := None)), lock := Held(c));
  }

  // ---- which steps there are

  // The process on CPU c holds the lock, in wait() or not.
  predicate Holds(s: State, c: nat, waiting: bool) {
    s.lock == Held(c) && c < |s.cpus| && s.cpus[c].Some? && (s.cpus[c].value in s.inwait <==> waiting)
  }

  // The process on CPU c runs outside the lock, in fork() or not.
  predicate Outside(s: State, c: nat, forking: bool) {
    && c < |s.cpus| && s.cpus[c].Some? && (s.cpus[c].value in s.making <==> forking)
    && (s.lock == Free || s.lock.c != c)
  }

  predicate Possible(s: State, a: Step)
    requires Inv(s)
  {
    match a
    case Acquire(c) => s.lock == Free && c < |s.cpus|
    case Release(c) => s.lock == Scheduler(c) || Holds(s, c, false)
    case Pick(c, q) => s.lock == Scheduler(c) && q < |s.t| && s.t[q].state == RUNNABLE
    case Run(c) => s.lock == Entering(c)
    case Switch(c) => s.lock == Leaving(c)
    case Yield(c) => Holds(s, c, false)
    case Sleep(c, _) => Holds(s, c, false)
    case Exit(c) => Holds(s, c, false) && s.cpus[c].value !in s.making && s.cpus[c].value != s.init
    case WaitEnter(c) => Holds(s, c, false) && s.cpus[c].value !in s.making
    case WaitReap(c, q) => Holds(s, c, true) && FirstDead(s.t, s.cpus[c].value, q)
    case WaitGiveUp(c) =>
      Holds(s, c, true) && !DeadChild(s.t, s.cpus[c].value) && Childless(s, s.cpus[c].value)
    case WaitSleep(c) =>
      Holds(s, c, true) && !DeadChild(s.t, s.cpus[c].value) && !Childless(s, s.cpus[c].value)
    case Wakeup(_) => s.lock == Free
    case Kill(q) => s.lock == Free && q < |s.t|
    case Alloc(c, q, _) =>
      s.lock == Free && Outside(s, c, false) && s.cpus[c].value !in s.inwait && q < |s.t| && s.t[q].state == UNUSED
    case AllocFail(c) => Outside(s, c, true) && s.t[Slot(s, c)].parent == None
    case SetParent(c) => Outside(s, c, true)
    case ForkDone(c) => s.lock == Free && Outside(s, c, true) && s.t[Slot(s, c)].parent == s.cpus[c]
  }

  // Nothing to wait for, or no wish to.
  predicate Childless(s: State, p: nat) {
    !HasChild(s.t, p) || (p < |s.t| && s.t[p].killed)
  }

  // The slot that the process on CPU c fills.
  function Slot(s: State, c: nat): (q: nat)
    requires Inv(s) && Outside(s, c, true)
    ensures q < |s.t|
  {
    assert MakeOk(s, s.cpus[c].value, s.making[s.cpus[c].value]);
    s.making[s.cpus[c].value]
  }

  /** A step can be taken exactly where its part of the code can be reached. */
  lemma StepsExactly(s: State, a: Step)
    requires Inv(s)
    ensures Possible(s, a) <==> exists n :: Next(s, a, n)
  {
    hide RunsOk, TableOk, DeadChild, HasChild, FirstDead;
    if Possible(s, a) {
      var n := Taken(s, a);
      assert Next(s, a, n);
    }
  }

  lemma Taken(s: State, a: Step) returns (n: State)
    requires Inv(s) && Possible(s, a)
    ensures Next(s, a, n)
  {
    hide RunsOk, TableOk, DeadChild, HasChild, FirstDead;
    if a.Exit? {
      n := TakenExit(s, a.c);
    } else if a.Alloc? || a.AllocFail? || a.SetParent? || a.ForkDone? {
      n := TakenFork(s, a);
    } else if a.WaitEnter? || a.WaitReap? || a.WaitGiveUp? || a.WaitSleep? {
      n := TakenWait(s, a);
    } else {
      n := TakenPlain(s, a);
    }
  }

  lemma TakenExit(s: State, c: nat) returns (n: State)
    requires Inv(s) && Possible(s, Exit(c))
    ensures Next(s, Exit(c), n)
  {
    hide RunsOk, TableOk, FromExit;
    var p := s.cpus[c].value;
    n := s.(t := seq(|s.t|, i requires 0 <= i < |s.t| => FromExit(s.t, i, p, s.init)), lock := Leaving(c));
  }

  lemma TakenFork(s: State, a: Step) returns (n: State)
    requires Inv(s) && Possible(s, a) && (a.Alloc? || a.AllocFail? || a.SetParent? || a.ForkDone?)
    ensures Next(s, a, n)
  {
    hide RunsOk, TableOk;
    var p := s.cpus[a.c].value;
    if a.Alloc? {
      n := s.(t := With(s.t, a.q, s.t[a.q].(state := EMBRYO, pid := a.pid)), making := s.making[p := a.q]);
    } else {
      var q := Slot(s, a.c);
      if a.AllocFail? {
        n := s.(t := With(s.t, q, s.t[q].(state := UNUSED)), making := s.making - {p});
      } else if a.SetParent? {
        n := s.(t := With(s.t, q, s.t[q].(parent := Some(p))));
      } else {
        n := s.(t := With(s.t, q, s.t[q].(state := RUNNABLE)), making := s.making - {p});
      }
    }
  }

  lemma TakenWait(s: State, a: Step) returns (n: State)
    requires Inv(s) && Possible(s, a) && (a.WaitEnter? || a.WaitReap? || a.WaitGiveUp? || a.WaitSleep?)
    ensures Next(s, a, n)
  {
    hide RunsOk, TableOk, DeadChild, HasChild, MakingOk;
    var c, p := a.c, s.cpus[a.c].value;
    match a
    case WaitEnter(_) => n := s.(inwait := s.inwait + {p});
    case WaitReap(_, q) => n := s.(t := With(s.t, q, Reaped(s.t[q])), inwait := s.inwait - {p});
    case WaitGiveUp(_) => n := s.(inwait := s.inwait - {p});
    case WaitSleep(_) =>
      n := s.(t := With(s.t, p, s.t[p].(state := SLEEPING, chan := Some(OnProc(p)))), lock := Leaving(c));
  }

  lemma TakenPlain(s: State, a: Step) returns (n: State)
    requires Inv(s) && Possible(s, a)
    requires a.Acquire? || a.Release? || a.Pick? || a.Run? || a.Switch? || a.Yield? || a.Sleep? || a.Wakeup? || a.Kill?
    ensures Next(s, a, n)
  {
    hide RunsOk, TableOk, MakingOk;
    match a
    case Acquire(c) => n := s.(lock := if s.cpus[c].Some? then Held(c) else Scheduler(c));
    case Release(_) => n := s.(lock := Free);
    case Pick(c, q) => n := s.(cpus := s.cpus[c := Some(q)], lock := Entering(c));
    case Run(c) =>
      var p := s.cpus[c].value;
      n := s.(t := With(s.t, p, s.t[p].(state := RUNNING, chan := None)), lock := Held(c));
    case Switch(c) => n := s.(cpus := s.cpus[c := None], lock := Scheduler(c));
    case Yield(c) =>
      var p := s.cpus[c].value;
      n := s.(t := With(s.t, p, s.t[p].(state := RUNNABLE)), lock := Leaving(c));
    case Sleep(c, id) =>
      var p := s.cpus[c].value;
      n := s.(t := With(s.t, p, s.t[p].(state := SLEEPING, chan := Some(Other(id)))), lock := Leaving(c));
    case Wakeup(id) => n := s.(t := Woken(s.t, Other(id)));
    case Kill(q) => n := s.(t := With(s.t, q, Killed(s.t[q])));
  }
}
