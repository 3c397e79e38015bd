// What end_op promises over whole runs of the logging layer: once no operation is outstanding,
// every operation that has ended is on disk, and stays there.
module LogDurable {
  import opened LogFormat
  import opened LogCache
  import opened LogRuns

  // ---- the committed writes, in order

  function Concat(ops: seq<seq<Write>>): seq<Write> {
    if ops == [] then [] else Concat(ops[..|ops| - 1]) + ops[|ops| - 1]
  }

  // All writes of the committed groups, in order.
  function AllWrites(groups: seq<Group>): seq<Write> {
    if groups == [] then [] else AllWrites(groups[..|groups| - 1]) + groups[|groups| - 1].writes
  }

  lemma {:induction false} DurableIs(image: Disk, groups: seq<Group>)
    ensures Durable(image, groups) == Apply(image, AllWrites(groups))
    decreases |groups|
  {
    if groups != [] {
      var p, g := groups[..|groups| - 1], groups[|groups| - 1];
      DurableIs(image, p);
      ApplyConcat(image, AllWrites(p), g.writes);
    }
  }

  lemma {:induction false} ApplyConcat(m: Disk, a: seq<Write>, b: seq<Write>)
    ensures Apply(m, a + b) == Apply(Apply(m, a), b)
    decreases |b|
  {
    if b == [] {
      assert a + b == a;
    } else {
      var n := |b| - 1;
      ApplyConcat(m, a, b[..n]);
      assert (a + b)[..|a + b| - 1] == a + b[..n];
    }
  }

  lemma {:induction false} OnlyConcat(a: seq<Write>, b: seq<Write>, op: nat)
    ensures Only(a + b, op) == Only(a, op) + Only(b, op)
    decreases |b|
  {
    if b == [] {
      assert a + b == a;
    } else {
      var n := |b| - 1;
      OnlyConcat(a, b[..n], op);
      assert (a + b)[..|a + b| - 1] == a + b[..n];
    }
  }

  lemma {:induction false} OnlyAll(ws: seq<Write>, op: nat)
    requires forall k :: 0 <= k < |ws| ==> ws[k].op == op
    ensures Only(ws, op) == ws
    decreases |ws|
  {
    if ws != [] { OnlyAll(ws[..|ws| - 1], op); }
  }

  lemma {:induction false} OnlyGroups(groups: seq<Group>, g: nat, op: nat, issued: map<nat, seq<Write>>)
    requires g < |groups| && op in groups[g].ops
    requires forall i :: 0 <= i < |groups| ==> Whole(groups[i].ops, groups[i].writes, issued)
    requires forall i, j :: 0 <= i < j < |groups| ==> groups[i].ops !! groups[j].ops
    ensures op in issued && Only(AllWrites(groups), op) == issued[op]
    decreases |groups|
  {
    var n := |groups| - 1;
    OnlyConcat(AllWrites(groups[..n]), groups[n].writes, op);
    if g == n {
      NotInGroups(groups[..n], op, issued);
    } else {
      OnlyGroups(groups[..n], g, op, issued);
      OnlyAbsent(groups[n].writes, op);
    }
  }

  lemma {:induction false} NotInGroups(groups: seq<Group>, op: nat, issued: map<nat, seq<Write>>)
    requires forall i :: 0 <= i < |groups| ==> op !in groups[i].ops && Whole(groups[i].ops, groups[i].writes, issued)
    ensures Only(AllWrites(groups), op) == []
    decreases |groups|
  {
    if groups != [] {
      var n := |groups| - 1;
      OnlyConcat(AllWrites(groups[..n]), groups[n].writes, op);
      NotInGroups(groups[..n], op, issued);
      OnlyAbsent(groups[n].writes, op);
    }
  }

  // ---- no step is refused that the source takes

  // What log.c asks of each step.
  ghost predicate Possible(s: State, step: Step, L: Layout) {
    match step
    case Begin(op) =>
      s.phase == Running && op !in s.h.issued && |s.bs| + (|s.h.active| + 1) * MAXOPBLOCKS <= LOGSIZE
    case LogWrite(op, b, data) =>
      s.phase == Running && op in s.h.active && L.IsHome(b) && |data| == WORDS && Fits(s, L)
    case End(op) => s.phase == Running && op in s.h.active
    case Proceed => s.phase.Copying? || s.phase.Homing?
    case Fetch(b) => s.phase != Down && 0 <= b < L.total
    case Evict(b) => b in s.cache && !s.cache[b].dirty
    case Crash => true
    case Reboot => s.phase == Down
  }

  /** In every state that a run can reach, a step can be taken exactly if the source takes it:
      no end_op is held up, no commit or recovery stops half way. */
  lemma StepsExactly(s: State, step: Step, L: Layout, image: Disk)
    requires Inv(s, L, image)
    ensures (exists t :: Next(s, step, t, L)) <==> Possible(s, step, L)
  {
    hide GroupsWhole, Durable, Recovered, Shows, SameHome;
    if Possible(s, step, L) {
      var t := Taken(s, step, L, image);
    }
  }

  lemma Taken(s: State, step: Step, L: Layout, image: Disk) returns (t: State)
    requires Inv(s, L, image) && Possible(s, step, L)
    ensures Next(s, step, t, L)
  {
    hide GroupsWhole, Durable, Recovered, Shows, SameHome, Absorb;
    match step
    case Begin(op) => t := s.(h := s.h.(active := s.h.active[op := {}], issued := s.h.issued[op := []]));
    case LogWrite(op, b, data) => t := TakenWrite(s, op, b, data, L, image);
    case End(op) =>
      var h := s.h.(active := s.h.active - {op}, ended := s.h.ended + {op});
      t := if h.active != map[] then s.(h := h)
           else if |s.bs| > 0 then s.(h := h, phase := Copying(0)) else s.(h := h.Closed());
    case Proceed => t := Proceeded(s, L, image);
    case Fetch(b) => t := s.(cache := Fetched(s.disk, s.cache, b));
    case Evict(b) => t := s.(cache := s.cache - {b});
    case Crash => t := s.(cache := map[], bs := [], phase := Down, h := s.h.Lost());
    case Reboot => t := s.(bs := HeaderList(s.disk[L.start]), phase := Homing(0));
  }

  lemma TakenWrite(s: State, op: nat, b: int, data: Block, L: Layout, image: Disk) returns (t: State)
    requires Inv(s, L, image) && Possible(s, LogWrite(op, b, data), L)
    ensures Next(s, LogWrite(op, b, data), t, L)
  {
    hide GroupsWhole, Durable, Recovered, Shows, SameHome, Absorb, Logged;
    ActiveIssuedToo(s.h, op);
    t := Logged(s, op, b, data);
  }

  lemma ActiveIssuedToo(h: History, op: nat)
    requires GroupsWhole(h) && op in h.active
    ensures op in h.issued
  {
    assert op in h.active.Keys + h.ended;
  }

  lemma Proceeded(s: State, L: Layout, image: Disk) returns (t: State)
    requires Inv(s, L, image) && (s.phase.Copying? || s.phase.Homing?)
    ensures Next(s, Proceed, t, L)
  {
    if s.phase.k < |s.bs| {
      t := ProceededBlock(s, L, image);
    } else {
      t := ProceededHead(s, L, image);
    }
  }

  lemma ProceededBlock(s: State, L: Layout, image: Disk) returns (t: State)
    requires Inv(s, L, image) && (s.phase.Copying? || s.phase.Homing?) && s.phase.k < |s.bs|
    ensures Next(s, Proceed, t, L)
  {
    hide GroupsWhole, Durable, Recovered, Shows, SameHome, PutHeader;
    var bs, k := s.bs, s.phase.k;
    assert L.InLog(L.start + k + 1) && L.IsHome(bs[k]);
    var slot := L.start + k + 1;
    var data := View(s.disk, s.cache, if s.phase.Copying? then bs[k] else slot);
    var to := if s.phase.Copying? then slot else bs[k];
    t := s.(disk := s.disk[to := data], cache := Stored(s.cache, to, data),
            phase := if s.phase.Copying? then Copying(k + 1) else Homing(k + 1));
  }

  lemma ProceededHead(s: State, L: Layout, image: Disk) returns (t: State)
    requires Inv(s, L, image) && (s.phase.Copying? || s.phase.Homing?) && s.phase.k >= |s.bs|
    ensures Next(s, Proceed, t, L)
  {
    hide GroupsWhole, Durable, Recovered, Shows, SameHome;
    var h := PutHeader(View(s.disk, s.cache, L.start), if s.phase.Copying? then s.bs else []);
    t := s.(disk := s.disk[L.start := h], cache := Stored(s.cache, L.start, h));
    t := if s.phase.Copying? then t.(phase := Homing(0), h := s.h.Closed()) else t.(bs := [], phase := Running);
  }

  // The block writes that a commit or a recovery has still to do.
  function Left(s: State): int {
    match s.phase
    case Copying(k) => (|s.bs| - k + 1) + (|s.bs| + 1)
    case Homing(k) => |s.bs| - k + 1
    case _ => 0
  }

  /** Each block write brings a commit or a recovery nearer to its end, where operations run
      again over an empty log. */
  lemma ProceedEnds(s: State, t: State, L: Layout)
    requires Next(s, Proceed, t, L)
    ensures Left(t) == Left(s) - 1 >= 0
    ensures Left(t) == 0 <==> t.phase == Running
    ensures t.phase == Running ==> t.bs == []
  {
  }

  // ---- what has ended is committed

  // Nothing is pending while no operation is outstanding.
  ghost predicate Settled(s: State) {
    s.phase == Running && s.h.active == map[] ==> s.h.group == [] && s.h.ended == {} && s.bs == []
  }

  lemma SettledKept(s: State, step: Step, t: State, L: Layout, image: Disk)
    requires Inv(s, L, image) && Settled(s) && Next(s, step, t, L)
    ensures Settled(t)
  {
    hide GroupsWhole, Durable, Recovered, Shows, SameHome, Absorb, GoodDisk, Coherent, Quiet, Logging, Installing;
    if step.Begin? || step.LogWrite? {
      assert step.op in t.h.active;
    }
  }

  lemma {:induction false} AlwaysSettled(ss: seq<State>, steps: seq<Step>, L: Layout, image: Disk, i: nat)
    requires Run(ss, steps, L, image) && i < |ss|
    ensures Settled(ss[i])
    decreases i
  {
    hide Inv, Next, Settled;
    if i == 0 {
      SettledFirst(ss[0], L, image);
    } else {
      RunInv(ss, steps, L, image, i - 1);
      AlwaysSettled(ss, steps, L, image, i - 1);
      SettledKept(ss[i - 1], steps[i - 1], ss[i], L, image);
    }
  }

  lemma SettledFirst(s: State, L: Layout, image: Disk)
    requires Init(s, L, image)
    ensures Settled(s)
  {
  }

  // The operation is in a committed group.
  ghost predicate Committed(h: History, op: nat) {
    exists g :: 0 <= g < |h.committed| && op in h.committed[g].ops
  }

  lemma EndStep(s: State, op: nat, t: State, L: Layout)
    requires Next(s, End(op), t, L)
    ensures op in t.h.ended || Committed(t.h, op)
  {
    if op !in t.h.ended {
      assert op in t.h.committed[|t.h.committed| - 1].ops;
    }
  }

  lemma EndedStays(s: State, step: Step, t: State, L: Layout, op: nat)
    requires Next(s, step, t, L) && step != Crash && (op in s.h.ended || Committed(s.h, op))
    ensures op in t.h.ended || Committed(t.h, op)
  {
    if Committed(s.h, op) {
      CommittedStays(s, step, t, L, op);
    } else if op !in t.h.ended {
      assert op in t.h.committed[|t.h.committed| - 1].ops;
    }
  }

  lemma CommittedStays(s: State, step: Step, t: State, L: Layout, op: nat)
    requires Next(s, step, t, L) && Committed(s.h, op)
    ensures Committed(t.h, op)
  {
    assert s.h.committed <= t.h.committed;
    var g :| 0 <= g < |s.h.committed| && op in s.h.committed[g].ops;
    assert t.h.committed[g] == s.h.committed[g];
  }

  // No power failure from step j up to state i.
  predicate NoCrash(steps: seq<Step>, j: nat, i: nat)
    requires i <= |steps|
  {
    forall k :: j <= k < i ==> steps[k] != Crash
  }

  lemma {:induction false} EndedOrCommitted(ss: seq<State>, steps: seq<Step>, L: Layout, image: Disk, op: nat, j: nat,
      i: nat)
    requires Run(ss, steps, L, image) && j < i < |ss| && steps[j] == End(op) && NoCrash(steps, j, i)
    ensures op in ss[i].h.ended || Committed(ss[i].h, op)
    decreases i
  {
    hide Next, Init, Committed;
    if i == j + 1 {
      EndStep(ss[j], op, ss[i], L);
    } else {
      EndedOrCommitted(ss, steps, L, image, op, j, i - 1);
      EndedStays(ss[i - 1], steps[i - 1], ss[i], L, op);
    }
  }

  lemma {:induction false} StaysCommitted(ss: seq<State>, steps: seq<Step>, L: Layout, image: Disk, op: nat, i: nat,
      k: nat)
    requires Run(ss, steps, L, image) && i <= k < |ss| && Committed(ss[i].h, op)
    ensures Committed(ss[k].h, op)
    decreases k
  {
    hide Next, Init, Committed;
    if i < k {
      StaysCommitted(ss, steps, L, image, op, i, k - 1);
      CommittedStays(ss[k - 1], steps[k - 1], ss[k], L, op);
    }
  }

  // What an operation has given to log_write.
  function Given(steps: seq<Step>, op: nat): seq<Write> {
    if steps == [] then []
    else
      var s := steps[|steps| - 1];
      Given(steps[..|steps| - 1], op) + if s.LogWrite? && s.op == op then [Write(op, s.b, s.data)] else []
  }

  // The history holds every write of every operation.
  lemma {:induction false} IssuedIsGiven(ss: seq<State>, steps: seq<Step>, L: Layout, image: Disk, op: nat, i: nat)
    requires Run(ss, steps, L, image) && i < |ss|
    ensures (if op in ss[i].h.issued then ss[i].h.issued[op] else []) == Given(steps[..i], op)
    decreases i
  {
    hide Next, Init;
    if i == 0 {
      FirstIssued(ss[0], L, image, op);
    } else {
      IssuedIsGiven(ss, steps, L, image, op, i - 1);
      assert steps[..i][..i - 1] == steps[..i - 1];
      IssuedStep(ss[i - 1], steps[i - 1], ss[i], L, op);
    }
  }

  lemma FirstIssued(s: State, L: Layout, image: Disk, op: nat)
    requires Init(s, L, image)
    ensures op !in s.h.issued
  {
  }

  lemma IssuedStep(s: State, step: Step, t: State, L: Layout, op: nat)
    requires Next(s, step, t, L)
    ensures (if op in t.h.issued then t.h.issued[op] else [])
         == (if op in s.h.issued then s.h.issued[op] else [])
            + if step.LogWrite? && step.op == op then [Write(op, step.b, step.data)] else []
  {
  }

  /** Durability. Once end_op has returned with no operation outstanding, or a commit that was
      under way is over, every operation that had ended is on disk for good: whenever power fails
      later, and however often, the disk recovers to the image that the writes of the committed
      operations make in order, and these are all the writes of this one, none left out. */
  lemma Durability(ss: seq<State>, steps: seq<Step>, L: Layout, image: Disk, op: nat, j: nat, i: nat, k: nat)
    requires Run(ss, steps, L, image) && j < i <= k < |ss| && steps[j] == End(op) && NoCrash(steps, j, i)
    requires ss[i].phase == Running && ss[i].h.active == map[]
    ensures GoodDisk(ss[k].disk, L) && GoodDisk(image, L)
    ensures SameHome(Recovered(ss[k].disk, L), Apply(Recovered(image, L), AllWrites(ss[k].h.committed)), L)
    ensures Only(AllWrites(ss[k].h.committed), op) == Given(steps[..k], op)
  {
    hide Next, Init, Recovered, SameHome, GoodDisk, Durable;
    AlwaysSettled(ss, steps, L, image, i);
    EndedOrCommitted(ss, steps, L, image, op, j, i);
    StaysCommitted(ss, steps, L, image, op, i, k);
    RunInv(ss, steps, L, image, 0);
    CrashAtomicity(ss, steps, L, image, k);
    DurableIs(Recovered(image, L), ss[k].h.committed);
    var g :| 0 <= g < |ss[k].h.committed| && op in ss[k].h.committed[g].ops;
    OnlyGroups(ss[k].h.committed, g, op, ss[k].h.issued);
    IssuedIsGiven(ss, steps, L, image, op, k);
  }
}
