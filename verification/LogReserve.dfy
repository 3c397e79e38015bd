// The reservation of xv6-x86/log.c: begin_op lets an operation in only when the log has
// room for MAXOPBLOCKS blocks of it and of every other outstanding operation. What counts
// is how many different blocks an operation names, not how often it calls log_write.
module LogReserve {
  import opened LogFormat
  import opened LogCache

  // The blocks that the outstanding operations may still name.
  ghost function Spare(open: map<nat, set<int>>): int
    decreases |open|
  {
    if open == map[] then 0
    else
      var o :| o in open;
      MAXOPBLOCKS - |open[o]| + Spare(open - {o})
  }

  // open: what each outstanding operation has named so far; bs: log.lh.
  ghost predicate Reserved(bs: seq<int>, open: map<nat, set<int>>) {
    && (forall o :: o in open ==> |open[o]| <= MAXOPBLOCKS && InList(open[o], bs))
    && |bs| + Spare(open) <= LOGSIZE
  }

  ghost predicate InList(named: set<int>, bs: seq<int>) {
    forall b :: b in named ==> b in bs
  }

  lemma SpareRemove(open: map<nat, set<int>>, o: nat)
    requires o in open
    ensures Spare(open) == MAXOPBLOCKS - |open[o]| + Spare(open - {o})
    decreases |open|
  {
    var p :| p in open && Spare(open) == MAXOPBLOCKS - |open[p]| + Spare(open - {p});
    if p != o {
      SpareRemove(open - {p}, o);
      SpareRemove(open - {o}, p);
      assert open - {p} - {o} == open - {o} - {p};
    }
  }

  lemma SparePut(open: map<nat, set<int>>, o: nat, named: set<int>)
    ensures o !in open ==> Spare(open[o := named]) == Spare(open) + MAXOPBLOCKS - |named|
    ensures o in open ==> Spare(open[o := named]) == Spare(open) + |open[o]| - |named|
  {
    SpareRemove(open[o := named], o);
    assert open[o := named] - {o} == open - {o};
    if o in open {
      SpareRemove(open, o);
    } else {
      assert open - {o} == open;
    }
  }

  lemma SpareBounds(open: map<nat, set<int>>)
    requires forall o :: o in open ==> |open[o]| <= MAXOPBLOCKS
    ensures 0 <= Spare(open) <= |open| * MAXOPBLOCKS
    decreases |open|
  {
    if open != map[] {
      var p :| p in open && Spare(open) == MAXOPBLOCKS - |open[p]| + Spare(open - {p});
      SpareBounds(open - {p});
    }
  }

  /** An operation that passes begin_op's test has its whole allowance reserved. */
  lemma Admitted(bs: seq<int>, open: map<nat, set<int>>, op: nat)
    requires Reserved(bs, open) && op !in open
    requires |bs| + (|open| + 1) * MAXOPBLOCKS <= LOGSIZE
    ensures Reserved(bs, open[op := {}])
  {
    SparePut(open, op, {});
    SpareBounds(open);
  }

  /** A block that an operation names within its allowance comes out of the reservation,
      one that it has named before costs nothing. */
  lemma Named(bs: seq<int>, open: map<nat, set<int>>, op: nat, b: int)
    requires Reserved(bs, open) && op in open && |open[op] + {b}| <= MAXOPBLOCKS
    ensures Reserved(Absorb(bs, b), open[op := open[op] + {b}])
  {
    SparePut(open, op, open[op] + {b});
    if b in open[op] {
      assert open[op] + {b} == open[op];
    }
    forall o | o in open
      ensures InList(open[o], Absorb(bs, b))
    {
    }
  }

  lemma Gone(bs: seq<int>, open: map<nat, set<int>>, op: nat)
    requires Reserved(bs, open) && op in open
    ensures Reserved(bs, open - {op})
  {
    SpareRemove(open, op);
  }

  /** While an operation has named fewer blocks than its allowance, the log is not full. */
  lemma RoomLeft(bs: seq<int>, open: map<nat, set<int>>, op: nat)
    requires Reserved(bs, open) && op in open && |open[op]| < MAXOPBLOCKS
    ensures |bs| < LOGSIZE
  {
    SpareRemove(open, op);
    SpareBounds(open - {op});
  }

  lemma NoneOpen(bs: seq<int>)
    ensures Reserved(bs, map[]) <==> |bs| <= LOGSIZE
  {
    assert Spare(map[]) == 0;
  }
}
