// The meaning that Statements gives to loops obeys the laws by which C defines them.
module StmtLaws {
  import opened Helpers
  import opened Statements
  import opened StmtMeaning

  // ---- more fuel changes nothing that has ended

  lemma {:induction false} MoreFuel(s: Stmt, e: Entry, m: Sem, mem: Mem, fuel: nat)
    requires Exec(s, e, m, mem, fuel) != Unfinished
    ensures Exec(s, e, m, mem, fuel + 1) == Exec(s, e, m, mem, fuel)
    decreases fuel, s, 0
  {
    hide Truth, CaseVals, HasDefault, Index, InSecond, Past, Chosen;
    match s
    case Seq(s1, s2) =>
      if InSecond(e, s1, s2) {
        MoreFuel(s2, Past(e, s1), m, mem, fuel);
      } else {
        MoreFuel(s1, e, m, mem, fuel);
        var o := Exec(s1, e, m, mem, fuel);
        if o.Normal? { MoreFuel(s2, Start, m, o.mem, fuel); }
      }
    case If(c, s1) =>
      if e.Start? {
        var v := Truth(c, m, mem);
        if v.truth { MoreFuel(s1, Start, m, v.mem, fuel); }
      } else {
        MoreFuel(s1, e, m, mem, fuel);
      }
    case IfElse(c, s1, s2) =>
      if e.Start? {
        var v := Truth(c, m, mem);
        if v.truth { MoreFuel(s1, Start, m, v.mem, fuel); } else { MoreFuel(s2, Start, m, v.mem, fuel); }
      } else if InSecond(e, s1, s2) {
        MoreFuel(s2, Past(e, s1), m, mem, fuel);
      } else {
        MoreFuel(s1, e, m, mem, fuel);
      }
    case While(c, s1) => MoreLoop(Some(c), None, s1, e, m, mem, fuel);
    case For(init, test, incr, s1) =>
      var mem1 := if e.Start? && init.Some? then m.act(init.value, mem).mem else mem;
      MoreLoop(test, incr, s1, e, m, mem1, fuel);
    case DoWhile(s1, c) =>
      MoreFuel(s1, e, m, mem, fuel);
      var o := Exec(s1, e, m, mem, fuel);
      if o.Normal? || o.Continued? {
        var v := Truth(c, m, o.mem);
        if v.truth && fuel > 0 { MoreFuel(s, Start, m, v.mem, fuel - 1); }
      }
    case Switch(x, s1) =>
      var v := m.val(x, mem);
      var entry := Chosen(s1, v.r0);
      if entry.Some? { MoreFuel(s1, entry.value, m, v.mem, fuel); }
    case Case(_, s1) =>
      if e.AtCase? && e.k > 0 {
        MoreFuel(s1, AtCase(e.k - 1), m, mem, fuel);
      } else {
        MoreFuel(s1, if e.AtDefault? then e else Start, m, mem, fuel);
      }
    case Default(s1) =>
      MoreFuel(s1, if e.AtDefault? && !HasDefault(s1) then Start else e, m, mem, fuel);
    case _ =>
  }

  lemma {:induction false} MoreLoop(test: Option<Cond>, incr: Option<nat>, s: Stmt, e: Entry, m: Sem, mem: Mem,
      fuel: nat)
    requires ExecLoop(test, incr, s, e, m, mem, fuel) != Unfinished
    ensures ExecLoop(test, incr, s, e, m, mem, fuel + 1) == ExecLoop(test, incr, s, e, m, mem, fuel)
    decreases fuel, s, 2
  {
    hide Truth, Exec, ExecLoop;
    ExecFrom(test, incr, s, e, m, mem, fuel);
    ExecFrom(test, incr, s, e, m, mem, fuel + 1);
    if e.Start? && test.Some? {
      var v := Truth(test.value, m, mem);
      if v.truth { MoreAround(test, incr, s, Start, m, v.mem, fuel); }
    } else {
      MoreAround(test, incr, s, e, m, mem, fuel);
    }
  }

  lemma {:induction false} MoreAround(test: Option<Cond>, incr: Option<nat>, s: Stmt, e: Entry, m: Sem, mem: Mem,
      fuel: nat)
    requires Around(test, incr, s, m, Exec(s, e, m, mem, fuel), fuel) != Unfinished
    ensures Around(test, incr, s, m, Exec(s, e, m, mem, fuel + 1), fuel + 1)
         == Around(test, incr, s, m, Exec(s, e, m, mem, fuel), fuel)
    decreases fuel, s, 1
  {
    hide Truth, Exec, ExecLoop;
    var o := Exec(s, e, m, mem, fuel);
    MoreFuel(s, e, m, mem, fuel);
    if o.Normal? || o.Continued? {
      var mem1 := if incr.Some? then m.act(incr.value, o.mem).mem else o.mem;
      if fuel > 0 { MoreLoop(test, incr, s, Start, m, mem1, fuel - 1); }
    }
  }

  lemma {:induction false} FuelUpTo(s: Stmt, m: Sem, mem: Mem, f: nat, g: nat)
    requires f <= g && Exec(s, Start, m, mem, f) != Unfinished
    ensures Exec(s, Start, m, mem, g) == Exec(s, Start, m, mem, f)
    decreases g
  {
    hide Exec;
    if f < g {
      FuelUpTo(s, m, mem, f, g - 1);
      MoreFuel(s, Start, m, mem, g - 1);
    }
  }

  // ---- the laws

  // Run on mem, s ends with o.
  ghost predicate Gives(s: Stmt, m: Sem, mem: Mem, o: Outcome) {
    o != Unfinished && exists fuel: nat :: Exec(s, Start, m, mem, fuel) == o
  }

  /** A statement gives one outcome at most. */
  lemma GivesOne(s: Stmt, m: Sem, mem: Mem, o1: Outcome, o2: Outcome)
    requires Gives(s, m, mem, o1) && Gives(s, m, mem, o2)
    ensures o1 == o2
  {
    hide Exec;
    var f: nat :| Exec(s, Start, m, mem, f) == o1;
    var g: nat :| Exec(s, Start, m, mem, g) == o2;
    if f <= g { FuelUpTo(s, m, mem, f, g); } else { FuelUpTo(s, m, mem, g, f); }
  }

  // After the body of a loop has ended with o1, the loop ends with o: rest does, unless the
  // body has left it.
  ghost predicate GoesOn(o1: Outcome, rest: Stmt, m: Sem, o: Outcome) {
    if o1.Normal? || o1.Continued? then Gives(rest, m, o1.mem, o) else o == AfterBreak(o1)
  }

  /** while (c) s: nothing more if c is false; else s and then the loop again, which break ends
      and continue takes up. */
  lemma WhileMeans(c: Cond, s: Stmt, m: Sem, mem: Mem, o: Outcome)
    ensures var v := Truth(c, m, mem);
      Gives(While(c, s), m, mem, o) <==>
      if !v.truth then o == Normal(v.mem)
      else exists o1 :: Gives(s, m, v.mem, o1) && GoesOn(o1, While(c, s), m, o)
  {
    hide Exec, Truth;
    var w, v := While(c, s), Truth(c, m, mem);
    if Gives(w, m, mem, o) {
      var f: nat :| Exec(w, Start, m, mem, f) == o;
      WhileOnce(c, s, m, mem, f);
      if v.truth {
        var o1 := Exec(s, Start, m, v.mem, f);
        assert Gives(s, m, v.mem, o1);
        if o1.Normal? || o1.Continued? { assert Exec(w, Start, m, o1.mem, f - 1) == o; }
        assert GoesOn(o1, w, m, o);
      }
    }
    if !v.truth {
      WhileOnce(c, s, m, mem, 0);
    } else if o1 :| Gives(s, m, v.mem, o1) && GoesOn(o1, w, m, o) {
      var f: nat :| Exec(s, Start, m, v.mem, f) == o1;
      var g: nat := 0;
      if o1.Normal? || o1.Continued? {
        g :| Exec(w, Start, m, o1.mem, g) == o;
        FuelUpTo(w, m, o1.mem, g, f + g);
      }
      FuelUpTo(s, m, v.mem, f, f + g + 1);
      WhileOnce(c, s, m, mem, f + g + 1);
    }
  }

  lemma WhileOnce(c: Cond, s: Stmt, m: Sem, mem: Mem, fuel: nat)
    ensures var v := Truth(c, m, mem);
      Exec(While(c, s), Start, m, mem, fuel) ==
      if !v.truth then Normal(v.mem)
      else
        var o := Exec(s, Start, m, v.mem, fuel);
        if !(o.Normal? || o.Continued?) then AfterBreak(o)
        else if fuel == 0 then Unfinished else Exec(While(c, s), Start, m, o.mem, fuel - 1)
  {
    ExecFrom(Some(c), None, s, Start, m, mem, fuel);
  }

  /** do s while (c): s, and then the loop again if c is true. */
  lemma DoMeans(s: Stmt, c: Cond, m: Sem, mem: Mem, o: Outcome)
    ensures Gives(DoWhile(s, c), m, mem, o) <==> exists o1 :: Gives(s, m, mem, o1) && DoGoesOn(o1, s, c, m, o)
  {
    hide Exec, Truth;
    var w := DoWhile(s, c);
    if Gives(w, m, mem, o) {
      var f: nat :| Exec(w, Start, m, mem, f) == o;
      ExecDo(s, c, Start, m, mem, f);
      var o1 := Exec(s, Start, m, mem, f);
      assert Gives(s, m, mem, o1);
      if (o1.Normal? || o1.Continued?) && Truth(c, m, o1.mem).truth {
        assert Exec(w, Start, m, Truth(c, m, o1.mem).mem, f - 1) == o;
      }
      assert DoGoesOn(o1, s, c, m, o);
    }
    if o1 :| Gives(s, m, mem, o1) && DoGoesOn(o1, s, c, m, o) {
      var f: nat :| Exec(s, Start, m, mem, f) == o1;
      var g: nat := 0;
      if (o1.Normal? || o1.Continued?) && Truth(c, m, o1.mem).truth {
        g :| Exec(w, Start, m, Truth(c, m, o1.mem).mem, g) == o;
        FuelUpTo(w, m, Truth(c, m, o1.mem).mem, g, f + g);
      }
      FuelUpTo(s, m, mem, f, f + g + 1);
      ExecDo(s, c, Start, m, mem, f + g + 1);
    }
  }

  ghost predicate DoGoesOn(o1: Outcome, s: Stmt, c: Cond, m: Sem, o: Outcome) {
    if o1.Normal? || o1.Continued? then
      var v := Truth(c, m, o1.mem);
      if v.truth then Gives(DoWhile(s, c), m, v.mem, o) else o == Normal(v.mem)
    else o == AfterBreak(o1)
  }

  /** s1 s2: s2 only if s1 has come to its end. */
  lemma SeqMeans(s1: Stmt, s2: Stmt, m: Sem, mem: Mem, o: Outcome)
    ensures Gives(Seq(s1, s2), m, mem, o) <==>
      exists o1 :: Gives(s1, m, mem, o1) && if o1.Normal? then Gives(s2, m, o1.mem, o) else o == o1
  {
    hide Exec;
    if Gives(Seq(s1, s2), m, mem, o) {
      var f: nat :| Exec(Seq(s1, s2), Start, m, mem, f) == o;
      ExecSeq(s1, s2, Start, m, mem, f);
      var o1 := Exec(s1, Start, m, mem, f);
      if o1.Normal? { assert Exec(s2, Start, m, o1.mem, f) == o; }
      assert Gives(s1, m, mem, o1);
    }
    if o1 :| Gives(s1, m, mem, o1) && if o1.Normal? then Gives(s2, m, o1.mem, o) else o == o1 {
      var f: nat :| Exec(s1, Start, m, mem, f) == o1;
      var g: nat := 0;
      if o1.Normal? {
        g :| Exec(s2, Start, m, o1.mem, g) == o;
        FuelUpTo(s2, m, o1.mem, g, f + g);
      }
      FuelUpTo(s1, m, mem, f, f + g);
      ExecSeq(s1, s2, Start, m, mem, f + g);
    }
  }

  function MemAfter(e: Option<nat>, m: Sem, mem: Mem): Mem {
    match e
    case None => mem
    case Some(x) => m.act(x, mem).mem
  }

  /** for (init; test; incr) s: init, and then the loop without it. */
  lemma ForStarts(init: Option<nat>, test: Option<Cond>, incr: Option<nat>, s: Stmt, m: Sem, mem: Mem, o: Outcome)
    ensures Gives(For(init, test, incr, s), m, mem, o)
        <==> Gives(For(None, test, incr, s), m, MemAfter(init, m, mem), o)
  {
    hide ExecLoop;
    var a, b := For(init, test, incr, s), For(None, test, incr, s);
    forall fuel: nat
      ensures Exec(a, Start, m, mem, fuel) == Exec(b, Start, m, MemAfter(init, m, mem), fuel)
    {
    }
  }

  /** for (; test; incr) s: nothing more if the test is false; else s, the increment, which
      continue does not leave out, and the loop again. Without a test it only ends from within. */
  lemma ForMeans(test: Option<Cond>, incr: Option<nat>, s: Stmt, m: Sem, mem: Mem, o: Outcome)
    ensures var v := if test.Some? then Truth(test.value, m, mem) else Verdict(true, 0, mem);
      Gives(For(None, test, incr, s), m, mem, o) <==>
      if !v.truth then o == Normal(v.mem)
      else exists o1 :: Gives(s, m, v.mem, o1) && ForGoesOn(o1, test, incr, s, m, o)
  {
    hide Exec, Truth, ForGoesOn, Gives;
    var v := if test.Some? then Truth(test.value, m, mem) else Verdict(true, 0, mem);
    if Gives(For(None, test, incr, s), m, mem, o) {
      var o1 := ForOnly(test, incr, s, m, mem, v, o);
    }
    if !v.truth {
      ForNot(test, incr, s, m, mem, v);
    } else if o1 :| Gives(s, m, v.mem, o1) && ForGoesOn(o1, test, incr, s, m, o) {
      ForIf(test, incr, s, m, mem, v, o1, o);
    }
  }

  lemma ForOnly(test: Option<Cond>, incr: Option<nat>, s: Stmt, m: Sem, mem: Mem, v: Verdict, o: Outcome)
      returns (o1: Outcome)
    requires v == if test.Some? then Truth(test.value, m, mem) else Verdict(true, 0, mem)
    requires Gives(For(None, test, incr, s), m, mem, o)
    ensures if v.truth then Gives(s, m, v.mem, o1) && ForGoesOn(o1, test, incr, s, m, o) else o == Normal(v.mem)
  {
    hide Exec, Truth, MemAfter;
    var w := For(None, test, incr, s);
    var f: nat :| Exec(w, Start, m, mem, f) == o;
    ForOnce(test, incr, s, m, mem, f);
    o1 := Exec(s, Start, m, v.mem, f);
    if v.truth {
      assert Gives(s, m, v.mem, o1);
      if o1.Normal? || o1.Continued? { assert Exec(w, Start, m, MemAfter(incr, m, o1.mem), f - 1) == o; }
    }
  }

  lemma ForNot(test: Option<Cond>, incr: Option<nat>, s: Stmt, m: Sem, mem: Mem, v: Verdict)
    requires v == (if test.Some? then Truth(test.value, m, mem) else Verdict(true, 0, mem)) && !v.truth
    ensures Gives(For(None, test, incr, s), m, mem, Normal(v.mem))
  {
    hide Exec, Truth;
    ForOnce(test, incr, s, m, mem, 0);
  }

  lemma ForIf(test: Option<Cond>, incr: Option<nat>, s: Stmt, m: Sem, mem: Mem, v: Verdict, o1: Outcome, o: Outcome)
    requires v == (if test.Some? then Truth(test.value, m, mem) else Verdict(true, 0, mem)) && v.truth
    requires Gives(s, m, v.mem, o1) && ForGoesOn(o1, test, incr, s, m, o)
    ensures Gives(For(None, test, incr, s), m, mem, o)
  {
    hide Exec, Truth, MemAfter;
    var w := For(None, test, incr, s);
    var f: nat :| Exec(s, Start, m, v.mem, f) == o1;
    var g: nat := 0;
    if o1.Normal? || o1.Continued? {
      g :| Exec(w, Start, m, MemAfter(incr, m, o1.mem), g) == o;
      FuelUpTo(w, m, MemAfter(incr, m, o1.mem), g, f + g);
    }
    FuelUpTo(s, m, v.mem, f, f + g + 1);
    ForOnce(test, incr, s, m, mem, f + g + 1);
  }

  ghost predicate ForGoesOn(o1: Outcome, test: Option<Cond>, incr: Option<nat>, s: Stmt, m: Sem, o: Outcome) {
    if o1.Normal? || o1.Continued? then Gives(For(None, test, incr, s), m, MemAfter(incr, m, o1.mem), o)
    else o == AfterBreak(o1)
  }

  lemma ForOnce(test: Option<Cond>, incr: Option<nat>, s: Stmt, m: Sem, mem: Mem, fuel: nat)
    ensures var v := if test.Some? then Truth(test.value, m, mem) else Verdict(true, 0, mem);
      Exec(For(None, test, incr, s), Start, m, mem, fuel) ==
      if !v.truth then Normal(v.mem)
      else
        var o := Exec(s, Start, m, v.mem, fuel);
        if !(o.Normal? || o.Continued?) then AfterBreak(o)
        else if fuel == 0 then Unfinished
        else Exec(For(None, test, incr, s), Start, m, MemAfter(incr, m, o.mem), fuel - 1)
  {
    hide Truth;
    ExecFrom(test, incr, s, Start, m, mem, fuel);
  }
}
