// The process table of xv6-x86/proc.c and the loops over it that run under ptable.lock.
module ProcTable {
  import opened Helpers

  const NPROC := 64

  datatype PState = UNUSED | EMBRYO | SLEEPING | RUNNABLE | RUNNING | ZOMBIE

  // What is slept on: a process (in wait) or any other address.
  datatype Chan = OnProc(q: nat) | Other(id: nat)

  datatype Proc = Proc(state: PState, pid: int, parent: Option<nat>, chan: Option<Chan>, killed: bool)

  const NOPROC := Proc(UNUSED, 0, None, None, false)

  // ---- wakeup1

  function WokenOne(p: Proc, c: Chan): Proc {
    if p.state == SLEEPING && p.chan == Some(c) then p.(state := RUNNABLE) else p
  }

  function Woken(t: seq<Proc>, c: Chan): (r: seq<Proc>)
    ensures |r| == |t| && forall i :: 0 <= i < |t| ==> r[i] == WokenOne(t[i], c)
  {
    if t == [] then [] else Woken(t[..|t| - 1], c) + [WokenOne(t[|t| - 1], c)]
  }

  // ---- exit: wake the parent, give the children to init and wake init for each dead one

  function Adopted(p: Proc, me: nat, init: nat): Proc {
    if p.parent == Some(me) then p.(parent := Some(init)) else p
  }

  predicate DeadChild(t: seq<Proc>, me: nat) {
    exists i :: 0 <= i < |t| && t[i].parent == Some(me) && t[i].state == ZOMBIE
  }

  // Entry i after exit() of process me, up to its last write.
  function FromExit(t: seq<Proc>, i: nat, me: nat, init: nat): Proc
    requires i < |t| && me < |t|
  {
    var p := if t[me].parent.Some? then WokenOne(t[i], OnProc(t[me].parent.value)) else t[i];
    var a := Adopted(p, me, init);
    var w := if DeadChild(t, me) then WokenOne(a, OnProc(init)) else a;
    if i == me then w.(state := ZOMBIE) else w
  }

  predicate Exited(t: seq<Proc>, t1: seq<Proc>, me: nat, init: nat)
    requires me < |t|
  {
    |t1| == |t| && forall i :: 0 <= i < |t| ==> t1[i] == FromExit(t, i, me, init)
  }

  // ---- wait: the first dead child, and whether there is any child

  predicate HasChild(t: seq<Proc>, me: nat) {
    exists i :: 0 <= i < |t| && t[i].parent == Some(me)
  }

  predicate FirstDead(t: seq<Proc>, me: nat, q: nat) {
    && q < |t| && t[q].parent == Some(me) && t[q].state == ZOMBIE
    && forall i :: 0 <= i < q ==> !(t[i].parent == Some(me) && t[i].state == ZOMBIE)
  }

  // What wait leaves of a dead child.
  function Reaped(p: Proc): Proc { p.(state := UNUSED, pid := 0, parent := None, killed := false) }

  function Killed(p: Proc): Proc {
    p.(killed := true, state := if p.state == SLEEPING then RUNNABLE else p.state)
  }

  class Table {
    const procs: array<Proc>
    const init: nat

    predicate Valid() { procs.Length == NPROC && init < NPROC }

    constructor (init0: nat)
      requires init0 < NPROC
      ensures Valid() && fresh(procs) && init == init0 && forall i :: 0 <= i < NPROC ==> procs[i] == NOPROC
    {
      procs := new Proc[NPROC](_ => NOPROC);
      init := init0;
    }

    method Wakeup1(c: Chan)
      requires Valid()
      modifies procs
      ensures procs[..] == Woken(old(procs[..]), c)
      ensures forall i :: 0 <= i < NPROC ==> !(procs[i].state == SLEEPING && procs[i].chan == Some(c))
      ensures forall i :: 0 <= i < NPROC ==>
        procs[i] == old(procs[i]) || (old(procs[i]).state == SLEEPING && procs[i] == old(procs[i]).(state := RUNNABLE))
    {
      var p := 0;
      while p < NPROC
        invariant 0 <= p <= NPROC
        invariant forall i :: 0 <= i < NPROC ==> procs[i] == if i < p then WokenOne(old(procs[i]), c) else old(procs[i])
      {
        if procs[p].state == SLEEPING && procs[p].chan == Some(c) {
          procs[p] := procs[p].(state := RUNNABLE);
        }
        p := p + 1;
      }
    }

    // The part of allocproc under the lock; None where no slot is free.
    method AllocSlot(pid: int) returns (q: Option<nat>)
      requires Valid()
      modifies procs
      ensures q.None? ==> procs[..] == old(procs[..]) && forall i :: 0 <= i < NPROC ==> procs[i].state != UNUSED
      ensures q.Some? ==> q.value < NPROC && old(procs[q.value]).state == UNUSED
      ensures q.Some? ==> forall i :: 0 <= i < q.value ==> old(procs[i]).state != UNUSED
      ensures q.Some? ==>
        procs[..] == old(procs[..])[q.value := old(procs[q.value]).(state := EMBRYO, pid := pid)]
    {
      var p := 0;
      while p < NPROC
        invariant 0 <= p <= NPROC && procs[..] == old(procs[..])
        invariant forall i :: 0 <= i < p ==> procs[i].state != UNUSED
      {
        if procs[p].state == UNUSED {
          procs[p] := procs[p].(state := EMBRYO, pid := pid);
          return Some(p);
        }
        p := p + 1;
      }
      q := None;
    }

    // wait(): one scan of the table; reaped is the dead child it found and cleared.
    method WaitScan(me: nat) returns (reaped: Option<nat>, havekids: bool)
      requires Valid() && me < NPROC
      modifies procs
      ensures reaped.None? ==>
          procs[..] == old(procs[..]) && !DeadChild(procs[..], me) && havekids == HasChild(procs[..], me)
      ensures reaped.Some? ==>
          && reaped.value < NPROC
          && procs[reaped.value] ==
             old(procs[reaped.value]).(state := UNUSED, pid := 0, parent := None, killed := false)
      ensures reaped.Some? ==>
          && FirstDead(old(procs[..]), me, reaped.value)
          && procs[..] == old(procs[..])[reaped.value := Reaped(old(procs[reaped.value]))]
    {
      havekids := false;
      var p := 0;
      while p < NPROC
        invariant 0 <= p <= NPROC && procs[..] == old(procs[..])
        invariant havekids <==> exists i :: 0 <= i < p && procs[i].parent == Some(me)
        invariant forall i :: 0 <= i < p ==> !(procs[i].parent == Some(me) && procs[i].state == ZOMBIE)
      {
        if procs[p].parent == Some(me) {
          havekids := true;
          if procs[p].state == ZOMBIE {
            procs[p] := Reaped(procs[p]);
            return Some(p), havekids;
          }
        }
        p := p + 1;
      }
      reaped := None;
    }

    // kill(): the first process with this pid, if there is one.
    method Kill(pid: int) returns (found: Option<nat>)
      requires Valid()
      modifies procs
      ensures found.None? ==> procs[..] == old(procs[..]) && forall i :: 0 <= i < NPROC ==> procs[i].pid != pid
      ensures found.Some? ==> found.value < NPROC && old(procs[found.value]).pid == pid
      ensures found.Some? ==> forall i :: 0 <= i < found.value ==> old(procs[i]).pid != pid
      ensures found.Some? ==>
          var was := old(procs[found.value]);
          procs[found.value] == was.(killed := true, state := if was.state == SLEEPING then RUNNABLE else was.state)
      ensures found.Some? ==>
        procs[..] == old(procs[..])[found.value := Killed(old(procs[found.value]))]
    {
      var p := 0;
      while p < NPROC
        invariant 0 <= p <= NPROC && procs[..] == old(procs[..])
        invariant forall i :: 0 <= i < p ==> procs[i].pid != pid
      {
        if procs[p].pid == pid {
          procs[p] := Killed(procs[p]);
          return Some(p);
        }
        p := p + 1;
      }
      found := None;
    }

    // exit() from taking the lock to calling sched().
    method Exit(me: nat)
      requires Valid() && me < NPROC && me != init && procs[me].state == RUNNING && procs[init].state != ZOMBIE
      requires procs[me].parent != Some(me)
      modifies procs
      ensures Exited(old(procs[..]), procs[..], me, init)
    {
      ghost var t := procs[..];
      if procs[me].parent.Some? {
        Wakeup1(OnProc(procs[me].parent.value));
      }
      ghost var u := procs[..];
      NothingYet(u, me, init);
      var p := 0;
      while p < NPROC
        invariant 0 <= p <= NPROC
        invariant UpTo(u, procs[..], p, me, init)
      {
        ghost var s := procs[..];
        if procs[p].parent == Some(me) {
          procs[p] := procs[p].(parent := Some(init));
          if procs[p].state == ZOMBIE {
            Wakeup1(OnProc(init));
          }
        }
        AdoptStep(u, s, procs[..], p, me, init);
        p := p + 1;
      }
      ghost var s1 := procs[..];
      procs[me] := procs[me].(state := ZOMBIE);
      ExitedAll(t, u, s1, procs[..], me, init);
    }
  }

  predicate DeadBelow(t: seq<Proc>, me: nat, k: nat) {
    exists i :: 0 <= i < |t| && i < k && t[i].parent == Some(me) && t[i].state == ZOMBIE
  }

  // Entry i while the loop of exit stands at k.
  function ExitedUpTo(u: seq<Proc>, i: nat, k: nat, me: nat, init: nat): Proc
    requires i < |u|
  {
    var p := if i < k then Adopted(u[i], me, init) else u[i];
    if DeadBelow(u, me, k) then WokenOne(p, OnProc(init)) else p
  }

  predicate UpTo(u: seq<Proc>, s: seq<Proc>, k: nat, me: nat, init: nat) {
    |s| == |u| && forall i :: 0 <= i < |u| ==> s[i] == ExitedUpTo(u, i, k, me, init)
  }

  lemma NothingYet(u: seq<Proc>, me: nat, init: nat)
    ensures UpTo(u, u, 0, me, init)
  {
  }

  // One round of the loop of exit.
  lemma AdoptStep(u: seq<Proc>, s: seq<Proc>, w: seq<Proc>, k: nat, me: nat, init: nat)
    requires k < |u| && UpTo(u, s, k, me, init)
    requires w == if s[k].parent != Some(me) then s
      else var s1 := s[k := s[k].(parent := Some(init))];
        if s1[k].state == ZOMBIE then Woken(s1, OnProc(init)) else s1
    ensures UpTo(u, w, k + 1, me, init)
  {
    var dead := u[k].parent == Some(me) && u[k].state == ZOMBIE;
    assert s[k] == ExitedUpTo(u, k, k, me, init);
    assert DeadBelow(u, me, k + 1) <==> DeadBelow(u, me, k) || dead by {
      if DeadBelow(u, me, k + 1) && !DeadBelow(u, me, k) {
        var i :| 0 <= i < |u| && i < k + 1 && u[i].parent == Some(me) && u[i].state == ZOMBIE;
        assert i == k;
      }
    }
    forall i | 0 <= i < |u| ensures w[i] == ExitedUpTo(u, i, k + 1, me, init) {
      assert s[i] == ExitedUpTo(u, i, k, me, init);
    }
  }

  lemma ExitedAll(t: seq<Proc>, u: seq<Proc>, s: seq<Proc>, t1: seq<Proc>, me: nat, init: nat)
    requires |t| == |u| == |s| && me < |t| && UpTo(u, s, |u|, me, init) && t1 == s[me := s[me].(state := ZOMBIE)]
    requires u == match t[me].parent case Some(q) => Woken(t, OnProc(q)) case None => t
    requires t[me].state == RUNNING
    ensures Exited(t, t1, me, init)
  {
    hide DeadBelow, DeadChild, Woken, WokenOne, Adopted, UpTo;
    FirstWake(t, u, me);
    DeadSame(t, u, me);
    forall i | 0 <= i < |t| ensures t1[i] == FromExit(t, i, me, init) {
      UpToAt(u, s, |u|, me, init, i);
    }
  }

  lemma UpToAt(u: seq<Proc>, s: seq<Proc>, k: nat, me: nat, init: nat, i: nat)
    requires UpTo(u, s, k, me, init) && i < |u|
    ensures |s| == |u| && s[i] == ExitedUpTo(u, i, k, me, init)
  {
  }

  lemma FirstWake(t: seq<Proc>, u: seq<Proc>, me: nat)
    requires me < |t| && u == match t[me].parent case Some(q) => Woken(t, OnProc(q)) case None => t
    ensures |u| == |t|
    ensures forall i :: 0 <= i < |t| ==> u[i] == if t[me].parent.Some? then WokenOne(t[i], OnProc(t[me].parent.value))
        else t[i]
    ensures forall i :: 0 <= i < |t| ==> u[i].parent == t[i].parent && (u[i].state == ZOMBIE <==> t[i].state == ZOMBIE)
  {
  }

  lemma DeadSame(t: seq<Proc>, u: seq<Proc>, me: nat)
    requires |t| == |u| && forall i :: 0 <= i < |t| ==>
        u[i].parent == t[i].parent && (u[i].state == ZOMBIE <==> t[i].state == ZOMBIE)
    ensures DeadBelow(u, me, |u|) <==> DeadChild(t, me)
  {
    if i :| 0 <= i < |t| && t[i].parent == Some(me) && t[i].state == ZOMBIE {
      assert u[i].parent == Some(me);
    }
    if i :| 0 <= i < |u| && i < |u| && u[i].parent == Some(me) && u[i].state == ZOMBIE {
      assert t[i].parent == Some(me);
    }
  }
}
