// Readers and writers of one pipe (xv6-x86/pipe.c) with sleep and wakeup, interleaved where
// the lock is free: in every run what is read is what was written, in order, and no one
// sleeps who should not, unless a writer is killed in mid-write.
module PipeRuns {
  import opened Pipe

  // What a process is doing in the pipe: asleep, or about to take the lock.
  datatype Task = Idle | Writer(addr: seq<Byte>, i: nat, asleep: bool) | Reader(n: nat, asleep: bool)

  datatype State = State(stored: seq<Byte>, taken: nat, readopen: bool, writeopen: bool,
                         tasks: map<nat, Task>, killed: set<nat>, got: seq<Byte>)

  function Room(p: State): int { p.taken + PIPESIZE - |p.stored| }

  function Min(a: int, b: int): int { if a < b then a else b }

  function Awake(t: Task, readers: bool): Task {
    if readers && t.Reader? then Reader(t.n, false)
    else if !readers && t.Writer? then Writer(t.addr, t.i, false) else t
  }

  function Woken(tasks: map<nat, Task>, readers: bool): map<nat, Task> {
    map q | q in tasks :: Awake(tasks[q], readers)
  }

  // pipewrite from taking the lock to releasing it, at its end or in sleep.
  function WriteSection(p: State, q: nat): State
    requires Sound(p) && q in p.tasks && p.tasks[q].Writer?
  {
    var t := p.tasks[q];
    var i := t.i + Min(|t.addr| - t.i, Room(p));
    var p1 := p.(stored := p.stored + t.addr[t.i..i]);
    if i == |t.addr| then p1.(tasks := Woken(p.tasks, true)[q := Idle])
    else if !p.readopen || q in p.killed then p1.(tasks := p.tasks[q := Idle])
    else p1.(tasks := Woken(p.tasks, true)[q := Writer(t.addr, i, true)])
  }

  function ReadSection(p: State, q: nat): State
    requires Sound(p) && q in p.tasks && p.tasks[q].Reader?
  {
    var n := p.tasks[q].n;
    if p.taken == |p.stored| && p.writeopen then
      if q in p.killed then p.(tasks := p.tasks[q := Idle]) else p.(tasks := p.tasks[q := Reader(n, true)])
    else
      var m := Min(n, |p.stored| - p.taken);
      p.(taken := p.taken + m, got := p.got + p.stored[p.taken..p.taken + m], tasks := Woken(p.tasks, false)[q := Idle])
  }

  datatype Step =
    | StartWrite(q: nat, addr: seq<Byte>) | StartRead(q: nat, n: nat)
    | Write(q: nat) | Read(q: nat)
    | CloseWrite | CloseRead | Kill(q: nat)

  // A process in pipewrite or piperead has its end of the pipe open.
  predicate Enabled(p: State, s: Step) {
    match s
    case StartWrite(q, _) => p.writeopen && q in p.tasks && p.tasks[q] == Idle
    case StartRead(q, _) => p.readopen && q in p.tasks && p.tasks[q] == Idle
    case Write(q) => q in p.tasks && p.tasks[q].Writer? && !p.tasks[q].asleep
    case Read(q) => q in p.tasks && p.tasks[q].Reader? && !p.tasks[q].asleep
    case CloseWrite => p.writeopen && forall q :: q in p.tasks ==> !p.tasks[q].Writer?
    case CloseRead => p.readopen && forall q :: q in p.tasks ==> !p.tasks[q].Reader?
    case Kill(q) => q in p.tasks
  }

  function Next(p: State, s: Step): State
    requires Sound(p) && Enabled(p, s)
  {
    match s
    case StartWrite(q, addr) => p.(tasks := p.tasks[q := Writer(addr, 0, false)])
    case StartRead(q, n) => p.(tasks := p.tasks[q := Reader(n, false)])
    case Write(q) => WriteSection(p, q)
    case Read(q) => ReadSection(p, q)
    case CloseWrite => p.(writeopen := false, tasks := Woken(p.tasks, true))
    case CloseRead => p.(readopen := false, tasks := Woken(p.tasks, false))
    case Kill(q) => p.(killed := p.killed + {q}, tasks := p.tasks[q := Awake(Awake(p.tasks[q], true), false)])
  }

  // At most PIPESIZE bytes are in the pipe, and what was read is a prefix of what was written.
  predicate Sound(p: State) {
    && p.taken <= |p.stored| <= p.taken + PIPESIZE && p.got == p.stored[..p.taken]
    && (forall q :: q in p.tasks && p.tasks[q].Writer? ==> p.tasks[q].i <= |p.tasks[q].addr| && p.writeopen)
    && (forall q :: q in p.tasks && p.tasks[q].Reader? ==> p.readopen)
  }

  // Who sleeps in read finds the pipe empty and open, who sleeps in write finds it full and open.
  predicate Rightly(p: State, t: Task) {
    && (t.Reader? && t.asleep ==> p.taken == |p.stored| && p.writeopen)
    && (t.Writer? && t.asleep ==> |p.stored| == p.taken + PIPESIZE && p.readopen)
  }

  predicate Calm(p: State) {
    forall q :: q in p.tasks ==> Rightly(p, p.tasks[q])
  }

  predicate SleepingReader(p: State) {
    exists q :: q in p.tasks && p.tasks[q].Reader? && p.tasks[q].asleep
  }

  // A killed writer about to fill the pipe and give up while readers sleep.
  predicate KilledInMidWrite(p: State, s: Step) {
    && s.Write? && s.q in p.tasks && p.tasks[s.q].Writer? && s.q in p.killed
    && |p.tasks[s.q].addr| - p.tasks[s.q].i > Room(p) && SleepingReader(p)
  }

  lemma NextSound(p: State, s: Step)
    requires Sound(p) && Enabled(p, s)
    ensures Sound(Next(p, s)) && Next(p, s).tasks.Keys == p.tasks.Keys
  {
    if s.Write? {
      WriteSound(p, s.q);
    } else if s.Read? {
      ReadSound(p, s.q);
    } else {
      OtherSound(p, s);
    }
  }

  lemma WriteSound(p: State, q: nat)
    requires Sound(p) && Enabled(p, Write(q))
    ensures Sound(WriteSection(p, q)) && WriteSection(p, q).tasks.Keys == p.tasks.Keys
  {
    var more := p.tasks[q].addr[p.tasks[q].i..][..Min(|p.tasks[q].addr| - p.tasks[q].i, Room(p))];
    assert (p.stored + more)[..p.taken] == p.stored[..p.taken];
  }

  lemma ReadSound(p: State, q: nat)
    requires Sound(p) && Enabled(p, Read(q))
    ensures Sound(ReadSection(p, q)) && ReadSection(p, q).tasks.Keys == p.tasks.Keys
  {
  }

  lemma OtherSound(p: State, s: Step)
    requires Sound(p) && Enabled(p, s) && !s.Write? && !s.Read?
    ensures Sound(Next(p, s)) && Next(p, s).tasks.Keys == p.tasks.Keys
  {
    hide WriteSection, ReadSection;
  }

  // Every step but that one keeps the sleepers right, and that one never does.
  lemma CalmIff(p: State, s: Step)
    requires Sound(p) && Calm(p) && Enabled(p, s)
    ensures Calm(Next(p, s)) <==> !KilledInMidWrite(p, s)
  {
    if s.Write? {
      WriteCalm(p, s.q);
    } else if s.Read? {
      ReadCalm(p, s.q);
    }
  }

  lemma WriteCalm(p: State, q: nat)
    requires Sound(p) && Calm(p) && Enabled(p, Write(q))
    ensures Calm(Next(p, Write(q))) <==> !KilledInMidWrite(p, Write(q))
  {
    var t := p.tasks[q];
    var p1 := Next(p, Write(q));
    if KilledInMidWrite(p, Write(q)) {
      var r :| r in p.tasks && p.tasks[r].Reader? && p.tasks[r].asleep;
      assert Rightly(p, p.tasks[r]);
      assert p1.tasks[r] == p.tasks[r] && !Rightly(p1, p1.tasks[r]);
    } else {
      forall r | r in p1.tasks ensures Rightly(p1, p1.tasks[r]) {
        assert Rightly(p, p.tasks[r]);
      }
    }
  }

  lemma ReadCalm(p: State, q: nat)
    requires Sound(p) && Calm(p) && Enabled(p, Read(q))
    ensures Calm(Next(p, Read(q)))
  {
    var p1 := Next(p, Read(q));
    forall r | r in p1.tasks ensures Rightly(p1, p1.tasks[r]) {
      assert Rightly(p, p.tasks[r]);
    }
  }

  // ---- what each step does

  predicate Sleeps(t: Task) { !t.Idle? && t.asleep }

  /** A reader that runs takes the next bytes in order: as many as it asked for or all there
      are. It goes to sleep exactly if there are none, more may come, and it is not killed;
      otherwise its read ends. */
  lemma ReadTakes(p: State, q: nat)
    requires Sound(p) && Enabled(p, Read(q))
    ensures var p1, n := Next(p, Read(q)), p.tasks[q].n;
      && p1.stored == p.stored && p.taken <= p1.taken <= p.taken + n
      && p1.got == p.got + p.stored[p.taken..p1.taken]
      && (p1.taken == p.taken + n || p1.taken == |p.stored|
          || (p1.taken == p.taken == |p.stored| && p.writeopen))
      && p1.tasks[q] == (if Starved(p) && q !in p.killed then Reader(n, true) else Idle)
      && p1.readopen == p.readopen && p1.writeopen == p.writeopen && p1.killed == p.killed
  {
  }

  // The pipe is empty and may yet be written.
  predicate Starved(p: State) { |p.got| == |p.stored| && p.writeopen }

  /** A writer that runs puts its next bytes behind those stored until all are in or the pipe
      is full. In the first case its write ends; in the second it goes to sleep, or gives up if
      no one can read or it is killed. */
  lemma WriteStores(p: State, q: nat)
    requires Sound(p) && Enabled(p, Write(q))
    ensures var p1, t := Next(p, Write(q)), p.tasks[q];
      var i := t.i + |p1.stored| - |p.stored|;
      && t.i <= i <= |t.addr| && p1.stored == p.stored + t.addr[t.i..i]
      && (i == |t.addr| || |p1.stored| == |p1.got| + PIPESIZE)
      && p1.taken == p.taken && p1.got == p.got
      && p1.tasks[q] == (if i == |t.addr| || !p.readopen || q in p.killed then Idle else Writer(t.addr, i, true))
      && p1.readopen == p.readopen && p1.writeopen == p.writeopen && p1.killed == p.killed
  {
  }

  // The step wakes all readers, or all writers.
  predicate WakesReaders(p: State, s: Step)
    requires Enabled(p, s)
  {
    || s.CloseWrite?
    || (s.Write? && (var t := p.tasks[s.q]; |t.addr| - t.i <= Room(p) || (p.readopen && s.q !in p.killed)))
  }

  predicate WakesWriters(p: State, s: Step)
    requires Enabled(p, s)
  {
    s.CloseRead? || (s.Read? && !Starved(p))
  }

  /** Who else is woken: readers by a write that does not give up and by the end of writing,
      writers by a read that does not wait and by the end of reading, and who is killed. */
  lemma WokenIff(p: State, s: Step, r: nat)
    requires Sound(p) && Enabled(p, s) && r in p.tasks && Sleeps(p.tasks[r])
    ensures r in Next(p, s).tasks && (Next(p, s).tasks[r] == p.tasks[r] || !Sleeps(Next(p, s).tasks[r]))
    ensures !Sleeps(Next(p, s).tasks[r]) <==>
      || (p.tasks[r].Reader? && WakesReaders(p, s)) || (p.tasks[r].Writer? && WakesWriters(p, s)) || s == Kill(r)
  {
  }

  /** A process that no step is about keeps what it is doing, but for its sleep. */
  lemma OthersGoOn(p: State, s: Step, r: nat)
    requires Sound(p) && Enabled(p, s) && r in p.tasks && !Sleeps(p.tasks[r])
    requires match s
      case StartWrite(q, _) => q != r
      case StartRead(q, _) => q != r
      case Write(q) => q != r
      case Read(q) => q != r
      case _ => true
    ensures r in Next(p, s).tasks && Next(p, s).tasks[r] == p.tasks[r]
  {
  }

  // ---- whole runs

  predicate Start(p: State) {
    && p.stored == [] && p.taken == 0 && p.got == [] && p.readopen && p.writeopen && p.killed == {}
    && forall q :: q in p.tasks ==> p.tasks[q] == Idle
  }

  predicate Steps(p: State, run: seq<Step>)
    decreases run
  {
    run == [] || (Sound(p) && Enabled(p, run[0]) && Steps(Next(p, run[0]), run[1..]))
  }

  function After(p: State, run: seq<Step>): State
    requires Steps(p, run)
    decreases run
  {
    if run == [] then p else After(Next(p, run[0]), run[1..])
  }

  predicate NoneKilledInMidWrite(p: State, run: seq<Step>)
    requires Steps(p, run)
    decreases run
  {
    run == [] || (!KilledInMidWrite(p, run[0]) && NoneKilledInMidWrite(Next(p, run[0]), run[1..]))
  }

  // In every run the bytes read are a prefix of the bytes written.
  lemma {:induction false} Fifo(p: State, run: seq<Step>)
    requires Sound(p) && Steps(p, run)
    ensures Sound(After(p, run))
    decreases run
  {
    if run != [] {
      NextSound(p, run[0]);
      Fifo(Next(p, run[0]), run[1..]);
    }
  }

  lemma {:induction false} NoLostWakeups(p: State, run: seq<Step>)
    requires Sound(p) && Calm(p) && Steps(p, run) && NoneKilledInMidWrite(p, run)
    ensures Calm(After(p, run))
    decreases run
  {
    if run != [] {
      NextSound(p, run[0]);
      CalmIff(p, run[0]);
      NoLostWakeups(Next(p, run[0]), run[1..]);
    }
  }

  lemma FromTheStart(p: State, run: seq<Step>)
    requires Start(p) && Steps(p, run)
    ensures After(p, run).got <= After(p, run).stored && |After(p, run).stored| <= |After(p, run).got| + PIPESIZE
    ensures NoneKilledInMidWrite(p, run) ==> Calm(After(p, run))
  {
    Fifo(p, run);
    if NoneKilledInMidWrite(p, run) {
      NoLostWakeups(p, run);
    }
  }

  // When all sleep rightly, readers and writers do not sleep at once.
  lemma NotBothAsleep(p: State, q: nat, r: nat)
    requires Calm(p) && q in p.tasks && r in p.tasks && p.tasks[q].Reader? && p.tasks[r].Writer?
    ensures !(p.tasks[q].asleep && p.tasks[r].asleep)
  {
    assert Rightly(p, p.tasks[q]) && Rightly(p, p.tasks[r]);
  }

  // A run that leaves a reader asleep at a full pipe, with every other process gone.
  lemma LostWakeup(addr: seq<Byte>) returns (p: State, run: seq<Step>)
    requires |addr| > PIPESIZE
    ensures Start(p) && Steps(p, run)
    ensures var e := After(p, run);
      |e.stored| == e.taken + PIPESIZE && e.tasks == map[0 := Reader(1, true), 1 := Idle]
  {
    hide Steps, After;
    p := State([], 0, true, true, map[0 := Idle, 1 := Idle], {}, []);
    var p1 := Next(p, StartRead(0, 1));
    var p2 := Next(p1, Read(0));
    assert p2 == State([], 0, true, true, map[0 := Reader(1, true), 1 := Idle], {}, []);
    run := KilledFull(addr, p2);
    run := Prepend(p1, Read(0), run);
    run := Prepend(p, StartRead(0, 1), run);
  }

  // Process 0 sleeps at an empty pipe; 1 starts to write, is killed, fills the pipe and leaves.
  lemma KilledFull(addr: seq<Byte>, p2: State) returns (run: seq<Step>)
    requires |addr| > PIPESIZE && p2 == State([], 0, true, true, map[0 := Reader(1, true), 1 := Idle], {}, [])
    ensures Steps(p2, run)
    ensures var e := After(p2, run);
      |e.stored| == e.taken + PIPESIZE && e.tasks == map[0 := Reader(1, true), 1 := Idle]
  {
    hide Steps, After;
    var p3 := Next(p2, StartWrite(1, addr));
    var p4 := Next(p3, Kill(1));
    assert p4.tasks[1] == Writer(addr, 0, false) && p4.killed == {1};
    var p5 := WriteSection(p4, 1);
    assert p5.tasks == map[0 := Reader(1, true), 1 := Idle];
    run := [];
    NoStep(p5);
    run := Prepend(p4, Write(1), run);
    run := Prepend(p3, Kill(1), run);
    run := Prepend(p2, StartWrite(1, addr), run);
  }

  lemma NoStep(p: State)
    ensures Steps(p, []) && After(p, []) == p
  {
  }

  lemma Prepend(p: State, s: Step, run: seq<Step>) returns (more: seq<Step>)
    requires Sound(p) && Enabled(p, s) && Steps(Next(p, s), run)
    ensures Steps(p, more) && After(p, more) == After(Next(p, s), run)
  {
    more := [s] + run;
    assert more[1..] == run;
  }
}
