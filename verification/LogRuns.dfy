// Whole runs of the logging layer: operations of many processes interleave, one block
// write of a commit happens per step, and the machine may crash before or after any step,
// recovery included. History fields record what each operation wrote and which groups
// of operations have been committed.
module LogRuns {
  import opened LogFormat
  import opened LogCache
  import opened LogReserve

  datatype Phase =
    | Running              // operations run, log.committing == 0
    | Copying(k: nat)      // commit: write_log has copied k blocks
    | Homing(k: nat)       // commit or recovery: install_trans has copied k blocks
    | Down                 // power is off

  datatype Write = Write(op: nat, b: int, data: Block)

  datatype Group = Group(ops: set<nat>, writes: seq<Write>)

  datatype History = History(
    active: map<nat, set<int>>,     // operation between begin_op and end_op -> the blocks it has named
    ended: set<nat>,                // operations of the open group that called end_op
    group: seq<Write>,              // log_writes of the open group, in order
    issued: map<nat, seq<Write>>,   // every log_write an operation ever made
    committed: seq<Group>)
  {
    // The open group becomes the next committed one.
    function Closed(): History {
      this.(ended := {}, group := [], committed := committed + [Group(ended, group)])
    }

    // Power failure: the open group is forgotten.
    function Lost(): History {
      this.(active := map[], ended := {}, group := [])
    }
  }

  // bs is log.lh; its length is log.lh.n, and log.outstanding is |h.active|.
  datatype State = State(disk: Disk, cache: Cache, bs: seq<int>, phase: Phase, h: History)

  datatype Step =
    | Begin(op: nat)
    | LogWrite(op: nat, b: int, data: Block)
    | End(op: nat)
    | Proceed                       // the next block write of a commit or a recovery
    | Fetch(b: int)
    | Evict(b: int)
    | Crash
    | Reboot                        // read_head

  ghost predicate Init(s: State, L: Layout, image: Disk) {
    && GoodDisk(image, L)
    && s == State(image, map[], [], Down, History(map[], {}, [], map[], []))
  }

  // log_write's test; where it fails the kernel panics.
  predicate Fits(s: State, L: Layout) {
    |s.bs| < LOGSIZE && |s.bs| < L.size - 1 && |s.h.active| >= 1
  }

  // The buffer is pinned, named in log.lh, and the write goes into the open group.
  function Logged(s: State, op: nat, b: int, data: Block): State
    requires op in s.h.active && op in s.h.issued
  {
    s.(cache := s.cache[b := Buf(data, true)],
       bs := Absorb(s.bs, b),
       h := s.h.(active := s.h.active[op := s.h.active[op] + {b}],
                 group := s.h.group + [Write(op, b, data)],
                 issued := s.h.issued[op := s.h.issued[op] + [Write(op, b, data)]]))
  }

  ghost predicate Next(s: State, step: Step, t: State, L: Layout) {
    match step
    case Begin(op) =>
      && s.phase == Running && op !in s.h.issued
      && |s.bs| + (|s.h.active| + 1) * MAXOPBLOCKS <= LOGSIZE
      && t == s.(h := s.h.(active := s.h.active[op := {}], issued := s.h.issued[op := []]))
    case LogWrite(op, b, data) =>
      && s.phase == Running && op in s.h.active && op in s.h.issued
      && L.IsHome(b) && |data| == WORDS && Fits(s, L)
      && t == Logged(s, op, b, data)
    case End(op) =>
      && s.phase == Running && op in s.h.active
      && var h := s.h.(active := s.h.active - {op}, ended := s.h.ended + {op});
         if h.active != map[] then t == s.(h := h)
         else if |s.bs| > 0 then t == s.(h := h, phase := Copying(0))
         else t == s.(h := h.Closed())
    case Proceed =>
      (match s.phase
       case Running => false
       case Down => false
       case Copying(k) =>
         k <= |s.bs| &&
         if k < |s.bs| then
           && 0 <= L.start + k + 1 < |s.disk| && 0 <= s.bs[k] < |s.disk|
           && var data := View(s.disk, s.cache, s.bs[k]);
              t == s.(disk := s.disk[L.start + k + 1 := data],
                      cache := Stored(s.cache, L.start + k + 1, data),
                      phase := Copying(k + 1))
         else
           && L.start < |s.disk| && |View(s.disk, s.cache, L.start)| == WORDS && |s.bs| <= LOGSIZE
           && var h := PutHeader(View(s.disk, s.cache, L.start), s.bs);
              t == s.(disk := s.disk[L.start := h],
                      cache := Stored(s.cache, L.start, h),
                      phase := Homing(0),
                      h := s.h.Closed())
       case Homing(k) =>
         k <= |s.bs| &&
         if k < |s.bs| then
           && 0 <= L.start + k + 1 < |s.disk| && 0 <= s.bs[k] < |s.disk|
           && var data := View(s.disk, s.cache, L.start + k + 1);
              t == s.(disk := s.disk[s.bs[k] := data],
                      cache := Stored(s.cache, s.bs[k], data),
                      phase := Homing(k + 1))
         else
           && L.start < |s.disk| && |View(s.disk, s.cache, L.start)| == WORDS
           && var h := PutHeader(View(s.disk, s.cache, L.start), []);
              t == s.(disk := s.disk[L.start := h],
                      cache := Stored(s.cache, L.start, h),
                      bs := [],
                      phase := Running))
    case Fetch(b) =>
      && s.phase != Down && 0 <= b < |s.disk|
      && t == s.(cache := Fetched(s.disk, s.cache, b))
    case Evict(b) =>
      && b in s.cache && !s.cache[b].dirty
      && t == s.(cache := s.cache - {b})
    case Crash =>
      // Memory is lost, and with it the open group.
      t == s.(cache := map[], bs := [], phase := Down, h := s.h.Lost())
    case Reboot =>
      && s.phase == Down && L.start < |s.disk| && HasHeader(s.disk[L.start])
      && t == s.(bs := HeaderList(s.disk[L.start]), phase := Homing(0))
  }

  function Apply(m: Disk, ws: seq<Write>): (r: Disk)
    ensures |r| == |m|
  {
    if ws == [] then m
    else
      var p, w := Apply(m, ws[..|ws| - 1]), ws[|ws| - 1];
      if 0 <= w.b < |p| then p[w.b := w.data] else p
  }

  // The image after the committed groups, in order.
  function Durable(image: Disk, groups: seq<Group>): (r: Disk)
    ensures |r| == |image|
  {
    if groups == [] then image
    else Apply(Durable(image, groups[..|groups| - 1]), groups[|groups| - 1].writes)
  }

  // The writes of one operation.
  function Only(ws: seq<Write>, op: nat): seq<Write> {
    if ws == [] then []
    else
      var w := ws[|ws| - 1];
      Only(ws[..|ws| - 1], op) + (if w.op == op then [w] else [])
  }

  // A group is all the writes of its operations, and of nobody else.
  ghost predicate Whole(ops: set<nat>, writes: seq<Write>, issued: map<nat, seq<Write>>) {
    && (forall o :: o in ops ==> o in issued && issued[o] == Only(writes, o))
    && (forall i :: 0 <= i < |writes| ==> writes[i].op in ops)
  }

  // Committed groups are whole, of operations that have ended, and no operation is in two.
  ghost predicate GroupsWhole(h: History) {
    && (forall i :: 0 <= i < |h.committed| ==> Whole(h.committed[i].ops, h.committed[i].writes, h.issued))
    && (forall i :: 0 <= i < |h.committed| ==> h.committed[i].ops !! (h.active.Keys + h.ended))
    && (forall i, j :: 0 <= i < j < |h.committed| ==> h.committed[i].ops !! h.committed[j].ops)
    && h.active.Keys !! h.ended
    && Whole(h.active.Keys + h.ended, h.group, h.issued)
  }

  // m is the image after the committed groups.
  ghost predicate ImageInv(m: Disk, s: State, L: Layout) {
    && Coherent(s.disk, s.cache, L)
    && match s.phase
       case Running =>
         && Quiet(s.disk, s.cache, s.bs, L)
         && SameHome(s.disk, m, L)
         && Shows(Apply(m, s.h.group), s.disk, s.cache, L)
         && (s.h.group != [] ==> s.bs != [])
       case Copying(k) =>
         && Logging(Apply(m, s.h.group), s.disk, s.cache, s.bs, k, L)
         && SameHome(s.disk, m, L)
         && s.h.active == map[]
       case Homing(k) =>
         && Installing(m, s.disk, s.cache, s.bs, k, L)
         && s.h == s.h.Lost()
       case Down =>
         && GoodDisk(s.disk, L) && SameHome(Recovered(s.disk, L), m, L)
         && (forall b :: !Dirty(s.cache, b))
         && s.h == s.h.Lost()
  }

  ghost predicate Inv(s: State, L: Layout, image: Disk) {
    && GoodDisk(image, L)
    && GroupsWhole(s.h)
    && ImageInv(Durable(Recovered(image, L), s.h.committed), s, L)
  }

  // ---- bookkeeping of the history

  lemma OnlyAppend(ws: seq<Write>, w: Write, op: nat)
    ensures Only(ws + [w], op) == Only(ws, op) + (if w.op == op then [w] else [])
  {
    assert (ws + [w])[..|ws|] == ws;
  }

  lemma OnlyAbsent(ws: seq<Write>, op: nat)
    requires forall i :: 0 <= i < |ws| ==> ws[i].op != op
    ensures Only(ws, op) == []
  {
  }

  lemma WholeSame(ops: set<nat>, writes: seq<Write>, issued: map<nat, seq<Write>>, issued': map<nat, seq<Write>>)
    requires Whole(ops, writes, issued)
    requires forall o :: o in ops && o in issued ==> o in issued' && issued'[o] == issued[o]
    ensures Whole(ops, writes, issued')
  {
  }

  lemma BeginKeepsHistory(h: History, op: nat)
    requires GroupsWhole(h) && op !in h.issued
    ensures GroupsWhole(h.(active := h.active[op := {}], issued := h.issued[op := []]))
  {
    OnlyAbsent(h.group, op);
    var t := h.(active := h.active[op := {}], issued := h.issued[op := []]);
    assert t.active.Keys + t.ended == h.active.Keys + h.ended + {op};
    forall i | 0 <= i < |h.committed|
      ensures Whole(h.committed[i].ops, h.committed[i].writes, t.issued)
    {
      WholeSame(h.committed[i].ops, h.committed[i].writes, h.issued, t.issued);
    }
  }

  lemma LogWriteKeepsHistory(h: History, op: nat, w: Write)
    requires GroupsWhole(h) && op in h.active && w.op == op && op in h.issued
    ensures GroupsWhole(h.(active := h.active[op := h.active[op] + {w.b}],
                           group := h.group + [w],
                           issued := h.issued[op := h.issued[op] + [w]]))
  {
    var t := h.(active := h.active[op := h.active[op] + {w.b}], group := h.group + [w],
                issued := h.issued[op := h.issued[op] + [w]]);
    assert t.active.Keys == h.active.Keys;
    forall o | o in t.active.Keys + t.ended
      ensures o in t.issued && t.issued[o] == Only(t.group, o)
    {
      OnlyAppend(h.group, w, o);
    }
    forall i | 0 <= i < |h.committed|
      ensures Whole(h.committed[i].ops, h.committed[i].writes, t.issued)
    {
      assert op !in h.committed[i].ops;
      WholeSame(h.committed[i].ops, h.committed[i].writes, h.issued, t.issued);
    }
  }

  lemma EndKeepsHistory(h: History, op: nat)
    requires GroupsWhole(h) && op in h.active
    ensures GroupsWhole(h.(active := h.active - {op}, ended := h.ended + {op}))
  {
    assert (h.active - {op}).Keys + (h.ended + {op}) == h.active.Keys + h.ended;
  }

  // Closing the group: the operations in it are exactly those that ran in it.
  lemma CommitKeepsHistory(h: History)
    requires GroupsWhole(h) && h.active == map[]
    ensures GroupsWhole(h.Closed())
  {
    var t := h.Closed();
    assert h.active.Keys + h.ended == h.ended;
    forall i, j | 0 <= i < j < |t.committed|
      ensures t.committed[i].ops !! t.committed[j].ops
    {
      assert t.committed[i] == h.committed[i];
    }
  }

  lemma CrashKeepsHistory(h: History)
    requires GroupsWhole(h)
    ensures GroupsWhole(h.Lost())
  {
  }

  lemma ApplyAppend(m: Disk, ws: seq<Write>, w: Write)
    requires 0 <= w.b < |m|
    ensures Apply(m, ws + [w]) == Apply(m, ws)[w.b := w.data]
  {
    assert (ws + [w])[..|ws|] == ws;
  }

  lemma DurableAppend(m: Disk, gs: seq<Group>, g: Group)
    ensures Durable(m, gs + [g]) == Apply(Durable(m, gs), g.writes)
  {
    assert (gs + [g])[..|gs|] == gs;
  }

  // ---- each step keeps the invariant

  lemma SameHomeTrans(a: Disk, b: Disk, c: Disk, L: Layout)
    requires SameHome(a, b, L) && SameHome(b, c, L)
    ensures SameHome(a, c, L)
  {
  }

  lemma InstallingSame(m: Disk, m': Disk, disk: Disk, cache: Cache, bs: seq<int>, k: nat, L: Layout)
    requires Installing(m, disk, cache, bs, k, L) && SameHome(m, m', L)
    ensures Installing(m', disk, cache, bs, k, L)
  {
    assert forall j :: 0 <= j < |bs| ==> L.IsHome(bs[j]);
  }

  lemma BeginKeeps(s: State, op: nat, t: State, L: Layout, image: Disk)
    requires Inv(s, L, image) && Next(s, Begin(op), t, L)
    ensures Inv(t, L, image)
  {
    BeginKeepsHistory(s.h, op);
  }

  lemma LogWriteKeeps(s: State, op: nat, b: int, data: Block, t: State, L: Layout, image: Disk)
    requires Inv(s, L, image) && Next(s, LogWrite(op, b, data), t, L)
    ensures Inv(t, L, image)
  {
    hide GroupsWhole, ImageInv, GoodDisk, Recovered, Durable, Absorb;
    LogWriteKeepsHistory(s.h, op, Write(op, b, data));
    LogWriteKeepsImage(Durable(Recovered(image, L), s.h.committed), s, op, b, data, t, L);
  }

  lemma LogWriteKeepsImage(m: Disk, s: State, op: nat, b: int, data: Block, t: State, L: Layout)
    requires ImageInv(m, s, L) && Next(s, LogWrite(op, b, data), t, L)
    ensures ImageInv(m, t, L)
  {
    LogWriteStep(Apply(m, s.h.group), s.disk, s.cache, s.bs, b, data, L);
    ApplyAppend(m, s.h.group, Write(op, b, data));
  }

  lemma EndKeeps(s: State, op: nat, t: State, L: Layout, image: Disk)
    requires Inv(s, L, image) && Next(s, End(op), t, L)
    ensures Inv(t, L, image)
  {
    EndKeepsHistory(s.h, op);
    var h := s.h.(active := s.h.active - {op}, ended := s.h.ended + {op});
    if h.active == map[] && s.bs == [] {
      CommitKeepsHistory(h);
      DurableAppend(Recovered(image, L), h.committed, Group(h.ended, h.group));
    }
  }

  lemma CopyKeeps(s: State, t: State, L: Layout, image: Disk)
    requires Inv(s, L, image) && Next(s, Proceed, t, L)
    requires s.phase.Copying? && s.phase.k < |s.bs|
    ensures Inv(t, L, image)
  {
    hide GroupsWhole, Recovered, Durable, Apply, Logging, SameHome;
    var m := Durable(Recovered(image, L), s.h.committed);
    LogStep(Apply(m, s.h.group), s.disk, s.cache, s.bs, s.phase.k, L);
    SameHomeTrans(t.disk, s.disk, m, L);
  }

  lemma CommitKeeps(s: State, t: State, L: Layout, image: Disk)
    requires Inv(s, L, image) && Next(s, Proceed, t, L)
    requires s.phase.Copying? && s.phase.k == |s.bs|
    ensures Inv(t, L, image)
  {
    var m := Durable(Recovered(image, L), s.h.committed);
    HeadStep(Apply(m, s.h.group), s.disk, s.cache, s.bs, L);
    CommitKeepsHistory(s.h);
    DurableAppend(Recovered(image, L), s.h.committed, Group(s.h.ended, s.h.group));
  }

  lemma HomeKeeps(s: State, t: State, L: Layout, image: Disk)
    requires Inv(s, L, image) && Next(s, Proceed, t, L) && s.phase.Homing? && s.phase.k < |s.bs|
    ensures Inv(t, L, image)
  {
    HomeKeepsImage(Durable(Recovered(image, L), s.h.committed), s, t, L);
  }

  lemma HomeKeepsImage(m: Disk, s: State, t: State, L: Layout)
    requires ImageInv(m, s, L) && Next(s, Proceed, t, L) && s.phase.Homing? && s.phase.k < |s.bs|
    ensures ImageInv(m, t, L)
  {
    hide View, Stored, ValidList, GoodDisk, HeaderList, PutHeader, Quiet, Logging, Recovered, Apply, SameHome, Shows,
        Dirty;
    var k, bs := s.phase.k, s.bs;
    var data := View(s.disk, s.cache, L.start + k + 1);
    assert t.disk == s.disk[bs[k] := data] && t.cache == Stored(s.cache, bs[k], data);
    assert t.phase == Homing(k + 1) && t.bs == bs && t.h == s.h;
    assert Installing(m, t.disk, t.cache, bs, k + 1, L) by {
      InstallStep(m, s.disk, s.cache, bs, k, L);
    }
  }

  lemma EraseKeeps(s: State, t: State, L: Layout, image: Disk)
    requires Inv(s, L, image) && Next(s, Proceed, t, L) && s.phase.Homing? && s.phase.k == |s.bs|
    ensures Inv(t, L, image)
  {
    EraseStep(Durable(Recovered(image, L), s.h.committed), s.disk, s.cache, s.bs, L);
  }

  lemma FetchKeeps(s: State, b: int, t: State, L: Layout, image: Disk)
    requires Inv(s, L, image) && Next(s, Fetch(b), t, L)
    ensures Inv(t, L, image)
  {
    FetchedSame(s.disk, s.cache, b, L);
    var m := Durable(Recovered(image, L), s.h.committed);
    match s.phase
    case Homing(k) => InstallingFetched(m, s.disk, s.cache, s.bs, k, b, L);
    case Copying(k) => LoggingFetched(Apply(m, s.h.group), s.disk, s.cache, s.bs, k, b, L);
    case _ =>
  }

  lemma EvictKeeps(s: State, b: int, t: State, L: Layout, image: Disk)
    requires Inv(s, L, image) && Next(s, Evict(b), t, L)
    ensures Inv(t, L, image)
  {
    EvictClean(s.disk, s.cache, b, L);
    var m := Durable(Recovered(image, L), s.h.committed);
    match s.phase
    case Homing(k) => InstallingEvicted(m, s.disk, s.cache, s.bs, k, b, L);
    case Copying(k) => LoggingEvicted(Apply(m, s.h.group), s.disk, s.cache, s.bs, k, b, L);
    case Running => LoggingEvicted(Apply(m, s.h.group), s.disk, s.cache, s.bs, 0, b, L);
    case Down =>
  }

  lemma CrashKeeps(s: State, t: State, L: Layout, image: Disk)
    requires Inv(s, L, image) && Next(s, Crash, t, L)
    ensures Inv(t, L, image)
  {
    CrashRecovers(s, L, image);
    CrashKeepsHistory(s.h);
  }

  // Whatever the phase, the disk recovers to exactly the committed groups.
  lemma CrashRecovers(s: State, L: Layout, image: Disk)
    requires Inv(s, L, image)
    ensures GoodDisk(s.disk, L)
    ensures SameHome(Recovered(s.disk, L), Durable(Recovered(image, L), s.h.committed), L)
  {
    var m := Durable(Recovered(image, L), s.h.committed);
    match s.phase
    case Homing(k) => CrashWhileInstalling(m, s.disk, s.cache, s.bs, k, L);
    case Down =>
    case _ =>
      RecoverEmpty(s.disk, L);
      SameHomeTrans(Recovered(s.disk, L), s.disk, m, L);
  }

  lemma RebootKeeps(s: State, t: State, L: Layout, image: Disk)
    requires Inv(s, L, image) && Next(s, Reboot, t, L)
    ensures Inv(t, L, image)
  {
    var m := Durable(Recovered(image, L), s.h.committed);
    RecoveryStarts(s.disk, s.cache, L);
    InstallingSame(Recovered(s.disk, L), m, s.disk, s.cache, t.bs, 0, L);
  }

  lemma NextKeeps(s: State, step: Step, t: State, L: Layout, image: Disk)
    requires Inv(s, L, image) && Next(s, step, t, L)
    ensures Inv(t, L, image)
  {
    match step
    case Begin(op) => BeginKeeps(s, op, t, L, image);
    case LogWrite(op, b, data) => LogWriteKeeps(s, op, b, data, t, L, image);
    case End(op) => EndKeeps(s, op, t, L, image);
    case Proceed =>
      if s.phase.Homing? && s.phase.k < |s.bs| {
        HomeKeeps(s, t, L, image);
      } else if s.phase.Homing? {
        EraseKeeps(s, t, L, image);
      } else if s.phase.k < |s.bs| {
        CopyKeeps(s, t, L, image);
      } else {
        CommitKeeps(s, t, L, image);
      }
    case Fetch(b) => FetchKeeps(s, b, t, L, image);
    case Evict(b) => EvictKeeps(s, b, t, L, image);
    case Crash => CrashKeeps(s, t, L, image);
    case Reboot => RebootKeeps(s, t, L, image);
  }

  // ---- whole runs

  ghost predicate Run(ss: seq<State>, steps: seq<Step>, L: Layout, image: Disk) {
    && |ss| == |steps| + 1
    && Init(ss[0], L, image)
    && forall i :: 0 <= i < |steps| ==> Next(ss[i], steps[i], ss[i + 1], L)
  }

  lemma InitInv(s: State, L: Layout, image: Disk)
    requires Init(s, L, image)
    ensures Inv(s, L, image)
  {
  }

  lemma {:induction false} RunInv(ss: seq<State>, steps: seq<Step>, L: Layout, image: Disk, i: nat)
    requires Run(ss, steps, L, image) && i < |ss|
    ensures Inv(ss[i], L, image)
    decreases i
  {
    hide Inv, Next, Init;
    if i == 0 {
      InitInv(ss[0], L, image);
    } else {
      RunInv(ss, steps, L, image, i - 1);
      NextKeeps(ss[i - 1], steps[i - 1], ss[i], L, image);
    }
  }

  // Crash atomicity. At every point of every run, recovering the disk as it stands yields
  // exactly the home blocks after the committed groups; each of these groups is all the
  // writes of operations that have called end_op, and no operation is in two groups.
  lemma CrashAtomicity(ss: seq<State>, steps: seq<Step>, L: Layout, image: Disk, i: nat)
    requires Run(ss, steps, L, image) && i < |ss|
    ensures GoodDisk(ss[i].disk, L)
    ensures SameHome(Recovered(ss[i].disk, L), Durable(Recovered(image, L), ss[i].h.committed), L)
    ensures GroupsWhole(ss[i].h)
  {
    RunInv(ss, steps, L, image, i);
    CrashRecovers(ss[i], L, image);
  }

  // Once recovery has finished (log.committing == 0 and no group open) the disk itself
  // holds that image, and so does every block the file system reads.
  lemma RecoveryCompletes(ss: seq<State>, steps: seq<Step>, L: Layout, image: Disk, i: nat)
    requires Run(ss, steps, L, image) && i < |ss| && ss[i].phase == Running
    ensures SameHome(ss[i].disk, Durable(Recovered(image, L), ss[i].h.committed), L)
    ensures Coherent(ss[i].disk, ss[i].cache, L)
    ensures Shows(Apply(Durable(Recovered(image, L), ss[i].h.committed), ss[i].h.group), ss[i].disk, ss[i].cache, L)
  {
    RunInv(ss, steps, L, image, i);
  }

  // What is committed stays committed, through crashes and all.
  lemma {:induction false} CommittedGrows(ss: seq<State>, steps: seq<Step>, L: Layout, image: Disk, i: nat, j: nat)
    requires Run(ss, steps, L, image) && i <= j < |ss|
    ensures ss[i].h.committed <= ss[j].h.committed
    decreases j
  {
    if i < j {
      CommittedGrows(ss, steps, L, image, i, j - 1);
      assert Next(ss[j - 1], steps[j - 1], ss[j], L);
    }
  }

  // ---- when log_write panics

  // No step takes an operation beyond MAXOPBLOCKS different blocks.
  predicate Within(s: State, step: Step) {
    step.LogWrite? && step.op in s.h.active ==> |s.h.active[step.op] + {step.b}| <= MAXOPBLOCKS
  }

  // The allowance left to the outstanding operations is reserved in the log.
  ghost predicate Promised(s: State) {
    s.phase == Running ==> Reserved(s.bs, s.h.active)
  }

  /** lh.n plus the blocks that the outstanding operations may still name stays within
      LOGSIZE, as long as every operation stays within its allowance. */
  lemma PromiseKept(s: State, step: Step, t: State, L: Layout, image: Disk)
    requires Inv(s, L, image) && Promised(s) && Next(s, step, t, L) && Within(s, step)
    ensures Promised(t)
  {
    hide GroupsWhole, Reserved, Absorb, GoodDisk, Recovered, Durable, Shows, SameHome, Coherent;
    match step
    case Begin(op) =>
      ActiveIssued(s.h, op);
      Admitted(s.bs, s.h.active, op);
    case LogWrite(op, b, _) => Named(s.bs, s.h.active, op, b);
    case End(op) => Gone(s.bs, s.h.active, op);
    case Proceed => NoneOpen(t.bs);
    case _ =>
  }

  lemma ActiveIssued(h: History, op: nat)
    requires GroupsWhole(h) && op !in h.issued
    ensures op !in h.active
  {
  }

  ghost predicate Allowed(ss: seq<State>, steps: seq<Step>)
    requires |ss| == |steps| + 1
  {
    forall i :: 0 <= i < |steps| ==> Within(ss[i], steps[i])
  }

  lemma {:induction false} PromiseAlways(ss: seq<State>, steps: seq<Step>, L: Layout, image: Disk, i: nat)
    requires Run(ss, steps, L, image) && Allowed(ss, steps) && i < |ss|
    ensures Promised(ss[i])
    decreases i
  {
    hide Inv, Promised, Init, Next, Within;
    if i > 0 {
      RunInv(ss, steps, L, image, i - 1);
      PromiseAlways(ss, steps, L, image, i - 1);
      PromiseKept(ss[i - 1], steps[i - 1], ss[i], L, image);
    } else {
      PromisedFirst(ss[0], L, image);
    }
  }

  lemma PromisedFirst(s: State, L: Layout, image: Disk)
    requires Init(s, L, image)
    ensures Promised(s)
  {
  }

  // No more than nbuf blocks are ever cached.
  ghost predicate Narrow(ss: seq<State>, nbuf: nat) {
    forall i :: 0 <= i < |ss| ==> |ss[i].cache| <= nbuf
  }

  // The states of runs with nbuf buffers in which every operation stays within its allowance.
  ghost predicate Reaches(s: State, L: Layout, image: Disk, nbuf: nat) {
    exists ss, steps ::
      Run(ss, steps, L, image) && Allowed(ss, steps) && Narrow(ss, nbuf) && ss[|ss| - 1] == s
  }

  lemma ReachInv(s: State, L: Layout, image: Disk, nbuf: nat)
    requires Reaches(s, L, image, nbuf)
    ensures Inv(s, L, image) && Promised(s) && |s.cache| <= nbuf
  {
    var ss, steps :| Run(ss, steps, L, image) && Allowed(ss, steps) && Narrow(ss, nbuf) && ss[|ss| - 1] == s;
    RunInv(ss, steps, L, image, |ss| - 1);
    PromiseAlways(ss, steps, L, image, |ss| - 1);
  }

  // Some operation that may still name a block makes log_write panic, whatever block it logs.
  ghost predicate CanPanic(s: State, L: Layout) {
    s.phase == Running && (exists op :: op in s.h.active && |s.h.active[op]| < MAXOPBLOCKS) && !Fits(s, L)
  }

  lemma FitsWithRoom(s: State, L: Layout)
    requires Promised(s) && LOGSIZE < L.size
    ensures !CanPanic(s, L)
  {
    hide Reserved;
    if s.phase == Running && exists op :: op in s.h.active && |s.h.active[op]| < MAXOPBLOCKS {
      var op :| op in s.h.active && |s.h.active[op]| < MAXOPBLOCKS;
      RoomLeft(s.bs, s.h.active, op);
    }
  }

  /** A log_write within the allowance panics exactly when the log is full. Then every
      outstanding operation has named all the blocks it may, so the call can only be for a
      block that its operation has named before: log_write tests for a full log before it
      looks for the block in the list. */
  lemma PanicsExactly(s: State, L: Layout, image: Disk, nbuf: nat, op: nat, b: int)
    requires Reaches(s, L, image, nbuf) && LOGSIZE < L.size && s.phase == Running
    requires op in s.h.active && |s.h.active[op] + {b}| <= MAXOPBLOCKS
    ensures !Fits(s, L) <==> |s.bs| == LOGSIZE
    ensures !Fits(s, L) ==> b in s.h.active[op] && forall o :: o in s.h.active ==> |s.h.active[o]| == MAXOPBLOCKS
  {
    hide Inv, Spare;
    ReachInv(s, L, image, nbuf);
    SpareBounds(s.h.active);
    if |s.bs| == LOGSIZE {
      forall o | o in s.h.active
        ensures |s.h.active[o]| == MAXOPBLOCKS
      {
        if |s.h.active[o]| < MAXOPBLOCKS { RoomLeft(s.bs, s.h.active, o); }
      }
      OneMore(s.h.active[op], b);
    }
  }

  lemma OneMore(named: set<int>, b: int)
    ensures |named + {b}| == |named| + if b in named then 0 else 1
  {
    if b in named { assert named + {b} == named; }
  }

  // ---- runs that fill the log

  // After k writes of different blocks the first 10 are of operation 0, and so on.
  function Share(homes: seq<int>, o: nat, k: nat): set<int>
    requires k <= |homes|
  {
    set i | 0 <= i < k && i / MAXOPBLOCKS == o :: homes[i]
  }

  // The state after three begin_ops and k log_writes of distinct blocks.
  ghost predicate Filled(s: State, homes: seq<int>, k: nat) {
    && k <= |homes| && k <= LOGSIZE
    && s.phase == Running && s.bs == homes[..k] && s.h.active.Keys == {0, 1, 2}
    && (forall o :: o in s.h.active ==> s.h.active[o] == Share(homes, o, k))
    && s.h.active.Keys <= s.h.issued.Keys
    && s.cache.Keys == Elements(homes[..k])
  }

  lemma ShareStep(homes: seq<int>, o: nat, k: nat)
    requires 0 < k <= |homes|
    ensures Share(homes, o, k) == Share(homes, o, k - 1) + if (k - 1) / MAXOPBLOCKS == o then {homes[k - 1]} else {}
  {
  }

  // How many of the first k are of operation o.
  function Count(o: nat, k: nat): nat {
    if k <= o * MAXOPBLOCKS then 0
    else if k >= (o + 1) * MAXOPBLOCKS then MAXOPBLOCKS
    else k - o * MAXOPBLOCKS
  }

  lemma {:induction false} ShareSize(homes: seq<int>, o: nat, k: nat)
    requires k <= |homes| && k <= LOGSIZE && NoDup(homes) && o < 3
    ensures |Share(homes, o, k)| == Count(o, k)
    decreases k
  {
    if k == 0 {
      assert Share(homes, o, 0) == {};
    } else {
      ShareSize(homes, o, k - 1);
      ShareStep(homes, o, k);
      CountStep(o, k);
      assert homes[k - 1] !in Share(homes, o, k - 1);
    }
  }

  lemma CountStep(o: nat, k: nat)
    requires 0 < k <= LOGSIZE && o < 3
    ensures Count(o, k) == Count(o, k - 1) + if (k - 1) / MAXOPBLOCKS == o then 1 else 0
  {
  }

  lemma ReachNext(s: State, step: Step, t: State, L: Layout, image: Disk, nbuf: nat)
    requires Reaches(s, L, image, nbuf) && Next(s, step, t, L) && Within(s, step) && |t.cache| <= nbuf
    ensures Reaches(t, L, image, nbuf)
  {
    hide Next, Init, Within;
    var ss, steps :| Run(ss, steps, L, image) && Allowed(ss, steps) && Narrow(ss, nbuf) && ss[|ss| - 1] == s;
    var ss', steps' := ss + [t], steps + [step];
    forall i | 0 <= i < |steps'|
      ensures Next(ss'[i], steps'[i], ss'[i + 1], L) && Within(ss'[i], steps'[i])
    {
      if i < |steps| {
        assert ss'[i] == ss[i] && ss'[i + 1] == ss[i + 1];
      }
    }
    assert Run(ss', steps', L, image) && Allowed(ss', steps') && Narrow(ss', nbuf) && ss'[|ss'| - 1] == t;
  }

  lemma ReachRunning(L: Layout, image: Disk, nbuf: nat) returns (s: State)
    requires GoodDisk(image, L) && HeaderList(image[L.start]) == [] && nbuf > 0
    ensures Reaches(s, L, image, nbuf)
    ensures s.phase == Running && s.bs == [] && s.h == History(map[], {}, [], map[], []) && s.cache == map[]
  {
    var s0 := State(image, map[], [], Down, History(map[], {}, [], map[], []));
    assert Run([s0], [], L, image) && Allowed([s0], []) && Narrow([s0], nbuf) && [s0][|[s0]| - 1] == s0;
    var s1 := s0.(phase := Homing(0));
    ReachNext(s0, Reboot, s1, L, image, nbuf);
    var h := PutHeader(View(image, map[], L.start), []);
    var s2 := s1.(disk := image[L.start := h], cache := Stored(map[], L.start, h), phase := Running);
    assert s2.cache.Keys == {L.start} && |s2.cache| == |s2.cache.Keys|;
    ReachNext(s1, Proceed, s2, L, image, nbuf);
    s := s2.(cache := s2.cache - {L.start});
    ReachNext(s2, Evict(L.start), s, L, image, nbuf);
    assert s.cache == map[];
  }

  lemma FilledFirst(s: State, homes: seq<int>)
    requires s.phase == Running && s.bs == [] && s.h.active.Keys == s.h.issued.Keys == {} + {0} + {1} + {2}
    requires s.cache == map[]
    requires forall o :: o in s.h.active ==> s.h.active[o] == {}
    ensures Filled(s, homes, 0)
  {
    assert homes[..0] == [];
    assert forall o :: Share(homes, o, 0) == {};
  }

  lemma ReachBegun(L: Layout, image: Disk, nbuf: nat, homes: seq<int>) returns (s: State)
    requires GoodDisk(image, L) && HeaderList(image[L.start]) == [] && nbuf > 0
    ensures Reaches(s, L, image, nbuf) && Filled(s, homes, 0)
  {
    hide Reaches, GoodDisk, HeaderList;
    s := ReachRunning(L, image, nbuf);
    s := ReachOneMore(L, image, nbuf, s, {}, 0);
    s := ReachOneMore(L, image, nbuf, s, {} + {0}, 1);
    s := ReachOneMore(L, image, nbuf, s, {} + {0} + {1}, 2);
    FilledFirst(s, homes);
  }

  lemma ReachOneMore(L: Layout, image: Disk, nbuf: nat, s: State, ops: set<nat>, op: nat) returns (t: State)
    requires Reaches(s, L, image, nbuf)
    requires s.phase == Running && s.bs == [] && s.h.active.Keys == s.h.issued.Keys == ops && s.cache == map[]
    requires op !in ops && |ops| < 3 && forall o :: o in s.h.active ==> s.h.active[o] == {}
    ensures Reaches(t, L, image, nbuf)
    ensures t.phase == Running && t.bs == [] && t.h.active.Keys == t.h.issued.Keys == ops + {op} && t.cache == map[]
    ensures forall o :: o in t.h.active ==> t.h.active[o] == {}
  {
    hide Reaches;
    t := s.(h := s.h.(active := s.h.active[op := {}], issued := s.h.issued[op := []]));
    assert |s.h.active| == |s.h.active.Keys|;
    ReachNext(s, Begin(op), t, L, image, nbuf);
  }

  lemma {:induction false} ReachFilled(L: Layout, image: Disk, nbuf: nat, homes: seq<int>, k: nat) returns (s: State)
    requires GoodDisk(image, L) && HeaderList(image[L.start]) == []
    requires NoDup(homes) && forall i :: 0 <= i < |homes| ==> L.IsHome(homes[i])
    requires k <= |homes| && k <= L.size - 1 && k <= LOGSIZE && k <= nbuf && nbuf > 0
    ensures Reaches(s, L, image, nbuf) && Filled(s, homes, k)
    decreases k
  {
    hide Reaches, Filled;
    if k == 0 {
      s := ReachBegun(L, image, nbuf, homes);
    } else {
      var p := ReachFilled(L, image, nbuf, homes, k - 1);
      s := ReachOneWrite(L, image, nbuf, homes, k, p);
    }
  }

  lemma ReachOneWrite(L: Layout, image: Disk, nbuf: nat, homes: seq<int>, k: nat, p: State) returns (s: State)
    requires GoodDisk(image, L) && 0 < k <= |homes| && k <= L.size - 1 && k <= LOGSIZE && k <= nbuf
    requires NoDup(homes) && L.IsHome(homes[k - 1])
    requires Reaches(p, L, image, nbuf) && Filled(p, homes, k - 1)
    ensures Reaches(s, L, image, nbuf) && Filled(s, homes, k)
  {
    hide Reaches, NoDup, Filled, Next, Within;
    var op, b, data: Block := (k - 1) / MAXOPBLOCKS, homes[k - 1], seq(WORDS, _ => 0);
    FilledOpen(p, homes, k - 1);
    s := Logged(p, op, b, data);
    FilledNext(p, s, homes, k, data);
    assert Next(p, LogWrite(op, b, data), s, L) by { FilledWrites(p, L, homes, k, data); }
    ReachNext(p, LogWrite(op, b, data), s, L, image, nbuf);
  }

  lemma FilledOpen(p: State, homes: seq<int>, k: nat)
    requires Filled(p, homes, k) && k < LOGSIZE
    ensures p.phase == Running && |p.bs| == k && |p.h.active| == 3
    ensures k / MAXOPBLOCKS in p.h.active && k / MAXOPBLOCKS in p.h.issued
  {
    hide Share;
    assert |p.h.active| == |p.h.active.Keys| == |{0, 1, 2}| == 3;
    assert k / MAXOPBLOCKS in p.h.issued.Keys;
  }

  lemma FilledWrites(p: State, L: Layout, homes: seq<int>, k: nat, data: Block)
    requires 0 < k <= |homes| && k <= L.size - 1 && k <= LOGSIZE && L.IsHome(homes[k - 1])
    requires Filled(p, homes, k - 1) && |data| == WORDS
    ensures (k - 1) / MAXOPBLOCKS in p.h.active && (k - 1) / MAXOPBLOCKS in p.h.issued
    ensures var op, b := (k - 1) / MAXOPBLOCKS, homes[k - 1];
      Next(p, LogWrite(op, b, data), Logged(p, op, b, data), L)
  {
    hide Share, Filled, Logged;
    FilledOpen(p, homes, k - 1);
  }

  lemma FilledNext(p: State, s: State, homes: seq<int>, k: nat, data: Block)
    requires 0 < k <= |homes| && k <= LOGSIZE && NoDup(homes) && Filled(p, homes, k - 1)
    requires var op := (k - 1) / MAXOPBLOCKS;
      op in p.h.active && op in p.h.issued && s == Logged(p, op, homes[k - 1], data)
    ensures Filled(s, homes, k) && Within(p, LogWrite((k - 1) / MAXOPBLOCKS, homes[k - 1], data)) && |s.cache| <= k
  {
    hide Share, NoDup, Count, Elements;
    var op := (k - 1) / MAXOPBLOCKS;
    NotYetListed(homes, k);
    forall o | o in s.h.active
      ensures s.h.active[o] == Share(homes, o, k)
    {
      ShareStep(homes, o, k);
    }
    ShareSize(homes, op, k);
    CountMax(op, k);
    CachedHomes(p, s, homes, k);
  }

  lemma CachedHomes(p: State, s: State, homes: seq<int>, k: nat)
    requires 0 < k <= |homes| && p.cache.Keys == Elements(homes[..k - 1])
    requires s.cache.Keys == p.cache.Keys + {homes[k - 1]}
    ensures s.cache.Keys == Elements(homes[..k]) && |s.cache| <= k
  {
    assert homes[..k] == homes[..k - 1] + [homes[k - 1]];
    SetOfSeq(homes[..k]);
    assert |s.cache| == |s.cache.Keys|;
  }

  function Elements(bs: seq<int>): set<int> { set b | b in bs }

  lemma {:induction false} SetOfSeq(bs: seq<int>)
    ensures |Elements(bs)| <= |bs| && (NoDup(bs) ==> |Elements(bs)| == |bs|)
    decreases |bs|
  {
    if bs == [] {
      assert Elements(bs) == {};
    } else {
      var r := bs[..|bs| - 1];
      SetOfSeq(r);
      assert bs == r + [bs[|bs| - 1]];
      assert Elements(bs) == Elements(r) + {bs[|bs| - 1]};
    }
  }

  lemma NotYetListed(homes: seq<int>, k: nat)
    requires 0 < k <= |homes| && NoDup(homes)
    ensures Absorb(homes[..k - 1], homes[k - 1]) == homes[..k]
  {
  }

  lemma CountMax(o: nat, k: nat)
    ensures Count(o, k) <= MAXOPBLOCKS
  {
  }

  lemma FilledSize(s: State, homes: seq<int>, k: nat)
    requires Filled(s, homes, k) && NoDup(homes)
    ensures |s.bs| == k && forall o :: o in s.h.active ==> |s.h.active[o]| == Count(o, k)
  {
    forall o | o in s.h.active
      ensures |s.h.active[o]| == Count(o, k)
    {
      assert o in s.h.active.Keys;
      ShareSize(homes, o, k);
    }
  }

  /** An operation that may still name a block never makes log_write panic, in any run in
      which operations stay within their allowance, if and only if the log has more than
      LOGSIZE blocks, the header included. (mkfs makes a log of exactly LOGSIZE blocks.) */
  lemma NeverPanicsIff(L: Layout, image: Disk, nbuf: nat, homes: seq<int>)
    requires GoodDisk(image, L) && HeaderList(image[L.start]) == [] && LOGSIZE <= nbuf
    requires |homes| == LOGSIZE && NoDup(homes) && forall i :: 0 <= i < |homes| ==> L.IsHome(homes[i])
    ensures (forall s :: Reaches(s, L, image, nbuf) ==> !CanPanic(s, L)) <==> LOGSIZE < L.size
  {
    hide Reaches, Filled, Promised, Inv;
    if LOGSIZE < L.size {
      forall s | Reaches(s, L, image, nbuf)
        ensures !CanPanic(s, L)
      {
        ReachInv(s, L, image, nbuf);
        FitsWithRoom(s, L);
      }
    } else {
      var k := L.size - 1;
      var s := ReachFilled(L, image, nbuf, homes, k);
      FilledSize(s, homes, k);
      FilledRunning(s, homes, k);
      assert k / MAXOPBLOCKS in s.h.active;
      assert CanPanic(s, L);
    }
  }

  lemma FilledRunning(s: State, homes: seq<int>, k: nat)
    requires Filled(s, homes, k)
    ensures s.phase == Running && s.h.active.Keys == {0, 1, 2}
  {
  }

  /** However long the log, three operations within their allowance can fill it so that
      writing a block again panics: the block needs no room, but the test comes first. */
  lemma RewritePanics(L: Layout, image: Disk, nbuf: nat, homes: seq<int>) returns (s: State, op: nat, b: int)
    requires GoodDisk(image, L) && HeaderList(image[L.start]) == [] && LOGSIZE <= nbuf
    requires |homes| == LOGSIZE && NoDup(homes) && forall i :: 0 <= i < |homes| ==> L.IsHome(homes[i])
    requires LOGSIZE < L.size
    ensures Reaches(s, L, image, nbuf) && s.phase == Running && L.IsHome(b)
    ensures op in s.h.active && b in s.h.active[op] && |s.h.active[op] + {b}| <= MAXOPBLOCKS
    ensures !Fits(s, L) && Absorb(s.bs, b) == s.bs
  {
    hide Reaches;
    s := ReachFilled(L, image, nbuf, homes, LOGSIZE);
    op, b := 0, homes[0];
    FilledSize(s, homes, LOGSIZE);
    assert op in s.h.active.Keys && homes[0] in Share(homes, 0, LOGSIZE);
    assert s.h.active[op] + {b} == s.h.active[op];
  }
}
