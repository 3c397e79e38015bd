// statement(), forstmt(), pswitch() and cfunc() of v6/c/c02.c as they work: one pass over the
// statement that writes code and changes the label counter and the current labels.
module StmtEmit {
  import opened Helpers
  import opened Statements
  import opened StmtMeaning
  import opened StmtLabels

  // What the functions of pass 1 share: the output, isn, the switch table up to swp, deflab,
  // contlab/brklab/retlab, whether swp is set, and how many errors were reported.
  datatype Pass = Pass(code: seq<Instr>, isn: nat, table: seq<CaseLab>, deflab: int, x: Ctx, switch: bool,
      nerror: nat) {
    function Where(): Place { Place(x.brk != 0, x.cont != 0, switch, |table|) }

    predicate Ok() { isn > 0 && x.ret != 0 }

    // With this fragment added.
    function Plus(f: Frag): Pass {
      this.(code := code + f.code, isn := f.n, table := table + f.cases, deflab := Later(deflab, f.def))
    }
  }

  // What statement() does: it leaves the current labels as they were; it reports no error
  // exactly for a legal statement, and then it has written the statement's fragment.
  predicate Emitted(s: Stmt, a: Pass, b: Pass) {
    && b.x == a.x && b.switch == a.switch && a.isn <= b.isn && a.nerror <= b.nerror && |a.table| <= |b.table|
    && (b.nerror == a.nerror <==> Legal(s, a.Where()))
    && (Legal(s, a.Where()) ==> b == a.Plus(Gen(s, a.x, a.isn)))
  }

  lemma EmittedSeq(s1: Stmt, s2: Stmt, a: Pass, b: Pass, c: Pass)
    requires a.Ok() && Emitted(s1, a, b) && Emitted(s2, b, c)
    ensures Emitted(Seq(s1, s2), a, c)
  {
    TableMatches(s1, a.x, a.isn);
    hide Gen, CaseVals, HasDefault;
    GenSeq(s1, s2, a.x, a.isn);
    if Legal(s1, a.Where()) {
      assert b.Where() == a.Where().(used := a.Where().used + |CaseVals(s1)|);
      PlusPlus(a, Gen(s1, a.x, a.isn), Gen(s2, a.x, b.isn));
    }
  }

  lemma PlusPlus(a: Pass, f1: Frag, f2: Frag)
    ensures a.Plus(f1).Plus(f2) == a.Plus(Frag(f1.code + f2.code, f2.n, f1.cases + f2.cases, Later(f1.def, f2.def)))
  {
    assert a.code + f1.code + f2.code == a.code + (f1.code + f2.code);
    assert a.table + f1.cases + f2.cases == a.table + (f1.cases + f2.cases);
  }

  // A fragment written between two pieces is one fragment.
  lemma PlusAround(a: Pass, pre: seq<Instr>, f: Frag, post: seq<Instr>)
    ensures a.(code := a.code + pre).Plus(f).(code := a.code + pre + f.code + post) ==
        a.Plus(f.(code := pre + f.code + post))
  {
    assert a.code + pre + f.code + post == a.code + (pre + f.code + post);
  }

  lemma LegalForms(s: Stmt, p: Place)
    ensures s.If? ==> (Legal(s, p) <==> Legal(s.s, p))
    ensures s.While? || s.DoWhile? || s.For? ==> (Legal(s, p) <==> Legal(s.s, p.(brk := true, cont := true)))
    ensures s.Switch? ==> (Legal(s, p) <==> Legal(s.s, p.(brk := true, switch := true)))
    ensures s.Case? ==> (Legal(s, p) <==> p.switch && p.used < SWSIZ && Legal(s.s, p.(used := p.used + 1)))
    ensures s.Default? ==> (Legal(s, p) <==> p.switch && Legal(s.s, p))
    ensures s.IfElse? ==> (Legal(s, p) <==> Legal(s.s1, p) && Legal(s.s2, p.(used := p.used + |CaseVals(s.s1)|)))
  {
  }

  // The else part behind a branch to the target of a jump.
  lemma AfterSimpIf(d: Cond, s1: Stmt, s2: Stmt, a: Pass, b: Pass, c: Pass)
    requires a.Ok() && SimpleJump(s1) && Emitted(s2, b, c)
    requires b == a.(code := a.code + [CBr(d, JumpTarget(s1, a.x), true)],
        nerror := a.nerror + One(!Legal(s1, a.Where())))
    ensures Emitted(IfElse(d, s1, s2), a, c)
  {
    hide Gen, Legal, HasDefault;
    LegalForms(IfElse(d, s1, s2), a.Where());
    GenElseOnly(d, s1, s2, a.x, a.isn);
    assert CaseVals(s1) == [];
    assert a.Where().(used := a.Where().used + |CaseVals(s1)|) == a.Where() == b.Where();
    var f := Gen(s2, a.x, a.isn);
    var br := CBr(d, JumpTarget(s1, a.x), true);
    PlusAround(a, [br], f, []);
    assert a.code + [br] + f.code + [] == a.code + [br] + f.code;
    assert [br] + f.code + [] == [br] + f.code;
  }

  lemma AfterReturn(d: Cond, s1: Stmt, s2: Stmt, a: Pass, b: Pass, c: Pass)
    requires a.Ok() && !SimpleJump(s1) && s1.Return? && Emitted(If(d, s1), a, b) && Emitted(s2, b, c)
    ensures Emitted(IfElse(d, s1, s2), a, c)
  {
    hide Gen, Legal, HasDefault;
    LegalForms(IfElse(d, s1, s2), a.Where());
    LegalForms(If(d, s1), a.Where());
    GenReturnElse(d, s1, s2, a.x, a.isn);
    GenIf(d, s1, a.x, a.isn, Start);
    assert CaseVals(s1) == [];
    assert Gen(s1, a.x, a.isn + 1).cases == [] && Gen(s1, a.x, a.isn + 1).def ==
        0 by { NoCasesInReturn(s1, a.x, a.isn + 1); }
    assert Legal(If(d, s1), a.Where()) ==> b.Where() == a.Where() by {
      assert a.table + [] == a.table;
    }
    assert a.Where().(used := a.Where().used + |CaseVals(s1)|) == a.Where();
    if Legal(If(d, s1), a.Where()) {
      PlusPlus(a, Gen(If(d, s1), a.x, a.isn), Gen(s2, a.x, b.isn));
      var f2 := Gen(s2, a.x, b.isn);
      assert [] + f2.cases == f2.cases;
    }
  }

  lemma NoCasesInReturn(s1: Stmt, x: Ctx, n: nat)
    requires s1.Return?
    ensures Gen(s1, x, n).cases == [] && Gen(s1, x, n).def == 0
  {
  }

  lemma GenWhile(d: Cond, s1: Stmt, x: Ctx, n: nat)
    ensures var f := Gen(s1, x.(cont := n, brk := n + 1), n + 2);
      Gen(While(d, s1), x, n) == f.(code := [Label(n), CBr(d, n + 1, false)] + f.code + [Jmp(n), Label(n + 1)])
  {
  }

  lemma BothParts(a: Pass, d: Cond, n: nat, f1: Frag, f2: Frag)
    ensures
      var g := [CBr(d, n, false)] + f1.code + [Jmp(f1.n), Label(n)] + f2.code + [Label(f1.n)];
      var b := a.(code := a.code + [CBr(d, n, false)]).Plus(f1);
      var c := b.(code := b.code + [Jmp(f1.n)] + [Label(n)]).Plus(f2);
      c.(code := c.code + [Label(f1.n)]) == a.Plus(Frag(g, f2.n, f1.cases + f2.cases, Later(f1.def, f2.def)))
  {
    var g := [CBr(d, n, false)] + f1.code + [Jmp(f1.n), Label(n)] + f2.code + [Label(f1.n)];
    assert a.code + [CBr(d, n, false)] + f1.code + [Jmp(f1.n)] + [Label(n)] + f2.code + [Label(f1.n)] == a.code + g;
    assert a.table + f1.cases + f2.cases == a.table + (f1.cases + f2.cases);
  }

  lemma SwitchParts(a: Pass, head: seq<Instr>, f: Frag, tail: seq<Instr>)
    ensures a.code + head + f.code + tail == a.code + (head + f.code + tail)
    ensures (a.table + f.cases)[|a.table|..] == f.cases
    ensures (a.table + f.cases)[..|a.table|] == a.table == a.table + []
  {
  }

  lemma EmittedOk(s: Stmt, a: Pass, b: Pass)
    requires a.Ok() && Emitted(s, a, b)
    ensures b.Ok()
  {
  }

  // Both bodies of an if, with the branches and labels around them.
  lemma EmittedBoth(d: Cond, s1: Stmt, s2: Stmt, a: Pass, m1: Pass, m3: Pass)
    requires a.Ok() && !SimpleJump(s1) && !s1.Return?
    requires Emitted(s1, a.(isn := a.isn + 1, code := a.code + [CBr(d, a.isn, false)]), m1)
    requires Emitted(s2, m1.(isn := m1.isn + 1, code := m1.code + [Jmp(m1.isn)] + [Label(a.isn)]), m3)
    ensures Emitted(IfElse(d, s1, s2), a, m3.(code := m3.code + [Label(m1.isn)]))
  {
    hide Gen, Legal, CaseVals, HasDefault;
    LegalForms(IfElse(d, s1, s2), a.Where());
    GenBoth(d, s1, s2, a.x, a.isn);
    TableMatches(s1, a.x, a.isn + 1);
    if Legal(s1, a.Where()) {
      assert m1.Where() == a.Where().(used := a.Where().used + |CaseVals(s1)|);
      BothParts(a, d, a.isn, Gen(s1, a.x, a.isn + 1), Gen(s2, a.x, m1.isn + 1));
    }
  }

  // The body of a switch, in front of it the jump to the table and behind it the table.
  lemma EmittedSwitch(e: nat, s1: Stmt, a: Pass, b: Pass, m: Pass, c: Pass)
    requires b == a.(isn := a.isn + 2, code := a.code + [Val(e), Jmp(a.isn + 1)], x := a.x.(brk := a.isn),
        switch := true, deflab := 0)
    requires Emitted(s1, b, m) && a.Ok()
    requires var d, cases := Later(a.isn, m.deflab), m.table[|a.table|..];
      c == m.(code := m.code + [Jmp(a.isn), Label(a.isn + 1), Swit(d, cases), Label(a.isn)],
              table := m.table[..|a.table|], deflab := a.deflab, x := a.x, switch := a.switch)
    ensures Emitted(Switch(e, s1), a, c)
  {
    hide Gen, Legal;
    var n, f := a.isn, Gen(s1, b.x, a.isn + 2);
    LegalForms(Switch(e, s1), a.Where());
    GenSwitch(e, s1, a.x, n, Start);
    if Legal(Switch(e, s1), a.Where()) {
      SwitchParts(a, [Val(e), Jmp(n + 1)], f, [Jmp(n), Label(n + 1), Swit(Later(n, f.def), f.cases), Label(n)]);
    } else {
      SwitchParts(a, [], Frag([], n, m.table[|a.table|..], 0), []);
    }
  }

  // A label in front of a fragment.
  lemma LabelThen(a: Pass, l: Frag, f: Frag)
    ensures a.Plus(l).Plus(f) == a.Plus(Frag(l.code + f.code, f.n, l.cases + f.cases, Later(l.def, f.def)))
  {
    PlusPlus(a, l, f);
  }

  class Emitter {
    var code: seq<Instr>
    var isn: nat
    var table: seq<CaseLab>
    var deflab: int
    var contlab: int
    var brklab: int
    var retlab: int
    var swp: bool
    var nerror: nat

    ghost function At(): Pass reads this {
      Pass(code, isn, table, deflab, Ctx(contlab, brklab, retlab), swp, nerror)
    }

    constructor (isn0: nat)
      requires isn0 > 0
      ensures code == [] && isn == isn0 && !swp && contlab == 0 && brklab == 0 && nerror == 0
    {
      code, isn, table, deflab, contlab, brklab, retlab, swp, nerror := [], isn0, [], 0, 0, 0, 0, false, 0;
    }

    method Out(i: Instr)
      modifies this
      ensures At() == old(At()).(code := old(code) + [i])
    {
      code := code + [i];
    }

    method NewLabel() returns (l: nat)
      modifies this
      ensures l == old(isn) && At() == old(At()).(isn := l + 1)
    {
      l := isn;
      isn := isn + 1;
    }

    /** chconbrk(), for the target l of the jump s: an error is counted exactly if a break
        stands in no loop or switch, or a continue in no loop; nothing else changes. */
    method ChConBrk(l: int, ghost s: Stmt)
      requires SimpleJump(s) && l == JumpTarget(s, At().x) && At().Ok()
      modifies this
      ensures nerror == old(nerror) <==> Legal(s, old(At()).Where())
      ensures At() == old(At()).(nerror := nerror) && nerror <= old(nerror) + 1 && old(nerror) <= nerror
    {
      if l == 0 {
        nerror := nerror + 1;
      }
    }

    method Statement(s: Stmt)
      requires At().Ok()
      modifies this
      ensures Emitted(s, old(At()), At())
      decreases s, 2
    {
      match s
      case Skip =>
        assert code + [] == code && table + [] == table;
      case Do(e) => Out(Act(e));
        assert table + [] == table;
      case Seq(s1, s2) =>
        Statement(s1);
        ghost var mid := At();
        Statement(s2);
        EmittedSeq(s1, s2, old(At()), mid, At());
      case If(c, s1) =>
        if SimpleJump(s1) { SimpIf(c, s1); assert table + [] == table; } else { HardIf(c, s1); }
      case IfElse(c, s1, s2) =>
        if SimpleJump(s1) {
          SimpIf(c, s1);
          ghost var mid := At();
          Statement(s2);
          AfterSimpIf(c, s1, s2, old(At()), mid, At());
        } else if s1.Return? {
          HardIf(c, s1);
          ghost var mid := At();
          Statement(s2);
          AfterReturn(c, s1, s2, old(At()), mid, At());
        } else {
          Both(c, s1, s2);
        }
      case While(c, s1) => WhileLoop(c, s1);
      case DoWhile(s1, c) => DoLoop(s1, c);
      case For(init, test, incr, s1) => ForLoop(init, test, incr, s1);
      case Switch(e, s1) => SwitchStatement(e, s1);
      case Case(v, s1) => CaseLabel(v, s1);
      case Default(s1) => DefaultLabel(s1);
      case Break =>
        ChConBrk(brklab, s);
        Out(Jmp(brklab));
        assert table + [] == table;
      case Continue =>
        ChConBrk(contlab, s);
        Out(Jmp(contlab));
        assert table + [] == table;
      case Return(r) =>
        if r.Some? {
          Out(Val(r.value));
          assert old(code) + [Val(r.value)] + [Jmp(retlab)] == old(code) + [Val(r.value), Jmp(retlab)];
        }
        Out(Jmp(retlab));
        assert table + [] == table;
    }

    // simpif: branch straight to the target of the jump.
    method SimpIf(c: Cond, s1: Stmt)
      requires SimpleJump(s1) && At().Ok()
      modifies this
      ensures At() == old(At()).(code := old(code) + [CBr(c, JumpTarget(s1, old(At()).x), true)],
        nerror := old(nerror) + One(!Legal(s1, old(At()).Where())))
    {
      var o2 := if s1.Break? then brklab else if s1.Continue? then contlab else retlab;
      ChConBrk(o2, s1);
      Out(CBr(c, o2, true));
    }

    method HardIf(c: Cond, s1: Stmt)
      requires !SimpleJump(s1) && At().Ok()
      modifies this
      ensures Emitted(If(c, s1), old(At()), At())
      decreases s1, 3
    {
      hide Gen, Legal;
      var o1 := NewLabel();
      Out(CBr(c, o1, false));
      Statement(s1);
      Out(Label(o1));
      GenIf(c, s1, old(At().x), o1, Start);
      LegalForms(If(c, s1), old(At()).Where());
      PlusAround(old(At()), [CBr(c, o1, false)], Gen(s1, old(At().x), o1 + 1), [Label(o1)]);
    }

    method WhileLoop(c: Cond, s1: Stmt)
      requires At().Ok()
      modifies this
      ensures Emitted(While(c, s1), old(At()), At())
      decreases s1, 3
    {
      hide Gen, GenLoop, Legal;
      var o1, o2 := contlab, brklab;
      contlab := NewLabel();
      Out(Label(contlab));
      brklab := NewLabel();
      Out(CBr(c, brklab, false));
      ghost var n := old(isn);
      ghost var x1 := At().x;
      assert old(code) + [Label(n)] + [CBr(c, n + 1, false)] == old(code) + [Label(n), CBr(c, n + 1, false)];
      Statement(s1);
      ghost var mid := code;
      Out(Jmp(contlab));
      Out(Label(brklab));
      assert mid + [Jmp(n)] + [Label(n + 1)] == mid + [Jmp(n), Label(n + 1)];
      contlab := o1;
      brklab := o2;
      GenWhile(c, s1, old(At().x), n);
      LegalForms(While(c, s1), old(At()).Where());
      PlusAround(old(At()), [Label(n), CBr(c, n + 1, false)], Gen(s1, x1, n + 2), [Jmp(n), Label(n + 1)]);
    }

    // What follows the body of a do; contlab and brklab get back their old values.
    method DoTail(c: Cond, o1: int, o2: int, o3: nat)
      modifies this
      ensures At() == old(At()).(x := Ctx(o1, o2, retlab),
        code := old(code) + [Label(old(contlab)), CBr(c, o3, true), Label(old(brklab))])
      ensures retlab == old(retlab)
    {
      Out(Label(contlab));
      contlab := o1;
      Out(CBr(c, o3, true));
      Out(Label(brklab));
      brklab := o2;
    }

    method DoLoop(s1: Stmt, c: Cond)
      requires At().Ok()
      modifies this
      ensures Emitted(DoWhile(s1, c), old(At()), At())
      decreases s1, 3
    {
      hide Gen, Legal;
      var o1, o2 := contlab, brklab;
      contlab := NewLabel();
      brklab := NewLabel();
      var o3 := NewLabel();
      Out(Label(o3));
      ghost var n := old(isn);
      ghost var x1 := At().x;
      Statement(s1);
      DoTail(c, o1, o2, o3);
      GenDo(s1, c, old(At().x), n, Start);
      LegalForms(DoWhile(s1, c), old(At()).Where());
      PlusAround(old(At()), [Label(n + 2)], Gen(s1, x1, n + 3), [Label(n), CBr(c, n + 2, true), Label(n + 1)]);
    }

    method ForLoop(init: Option<nat>, test: Option<Cond>, incr: Option<nat>, s1: Stmt)
      requires At().Ok()
      modifies this
      ensures Emitted(For(init, test, incr, s1), old(At()), At())
      decreases s1, 4
    {
      hide Gen, GenLoop, Legal, LoopTest;
      var o1, o2 := contlab, brklab;
      contlab := NewLabel();
      brklab := NewLabel();
      ghost var pre := if init.Some? then [Act(init.value)] else [];
      if init.Some? {
        Out(Act(init.value));
      }
      assert code == old(code) + pre;
      ghost var n := old(isn);
      ForBody(test, incr, s1, old(At()), pre);
      contlab := o1;
      brklab := o2;
      ghost var x := old(At().x);
      LoopForms(Leaf(0), init, test, incr, s1, x, n, Start);
      LegalForms(For(init, test, incr, s1), old(At()).Where());
      ghost var f := GenLoop(test, incr, s1, x, n);
      assert pre + f.code == Gen(For(init, test, incr, s1), x, n).code;
    }

    method ForTest(test: Option<Cond>, ghost n: nat)
      requires contlab == n && brklab == n + 1
      modifies this
      ensures At() == old(At()).(code := old(code) + ([Label(n)] + LoopTest(test, n)))
    {
      Out(Label(contlab));
      if test.Some? {
        Out(CBr(test.value, brklab, false));
      }
    }

    method ForTail(incr: Option<nat>, l: nat)
      requires contlab == (if incr.Some? then l + 2 else l) && brklab == l + 1
      modifies this
      ensures At() == old(At()).(code := old(code) + LoopTail(incr, l))
    {
      if incr.Some? {
        Out(Label(contlab));
        Out(Act(incr.value));
      }
      Out(Jmp(l));
      Out(Label(brklab));
    }

    // forstmt() behind the initial expression, and the label that for puts behind it; a is
    // how things stood before the for.
    method ForBody(test: Option<Cond>, incr: Option<nat>, s1: Stmt, ghost a: Pass, ghost pre: seq<Instr>)
      requires a.Ok() && contlab == a.isn && brklab == a.isn + 1
      requires At() == a.(isn := a.isn + 2, x := a.x.(cont := a.isn, brk := a.isn + 1), code := a.code + pre)
      modifies this
      ensures At().x.ret == a.x.ret && swp == a.switch && a.isn <= isn && a.nerror <= nerror && |a.table| <= |table|
      ensures nerror == a.nerror <==> Legal(s1, a.Where().(brk := true, cont := true))
      ensures nerror == a.nerror ==>
        var f := GenLoop(test, incr, s1, a.x, a.isn);
        At().(x := a.x) == a.Plus(f.(code := pre + f.code))
      decreases s1, 3
    {
      hide Gen, GenLoop, Legal, LoopTest, LoopTail;
      ghost var n := a.isn;
      ForTest(test, n);
      assert a.code + pre + ([Label(n)] + LoopTest(test, n)) == a.code + (pre + ([Label(n)] + LoopTest(test, n)));
      ghost var head := pre + ([Label(n)] + LoopTest(test, n));
      ghost var x1 := BodyCtx(incr, a.x, n);
      var l := contlab;
      if incr.Some? {
        contlab := NewLabel();
      }
      Statement(s1);
      ghost var mid := code;
      ForTail(incr, l);
      LoopShape(test, incr, s1, a.x, n);
      ghost var f := Gen(s1, x1, BodyIsn(incr, n));
      PlusAround(a, head, f, LoopTail(incr, n));
      assert head + f.code + LoopTail(incr, n) == pre + GenLoop(test, incr, s1, a.x, n).code;
    }

    // The test of an if and its first body.
    method Then(c: Cond, s1: Stmt) returns (o1: nat)
      requires At().Ok()
      modifies this
      ensures o1 == old(isn) && At().Ok()
      ensures Emitted(s1, old(At()).(isn := o1 + 1, code := old(code) + [CBr(c, o1, false)]), At())
      decreases s1, 3
    {
      hide Gen, Legal, CaseVals, HasDefault, Emitted;
      o1 := NewLabel();
      Out(CBr(c, o1, false));
      ghost var m0 := At();
      Statement(s1);
      EmittedOk(s1, m0, At());
    }

    // Around the else part, and the label that starts it.
    method ElseBranch(o1: nat) returns (o2: nat)
      modifies this
      ensures o2 == old(isn)
      ensures At() == old(At()).(isn := o2 + 1, code := old(code) + [Jmp(o2)] + [Label(o1)])
    {
      o2 := NewLabel();
      Out(Jmp(o2));
      Out(Label(o1));
    }

    method Both(c: Cond, s1: Stmt, s2: Stmt)
      requires !SimpleJump(s1) && !s1.Return? && At().Ok()
      modifies this
      ensures Emitted(IfElse(c, s1, s2), old(At()), At())
      decreases IfElse(c, s1, s2), 1
    {
      hide Gen, Legal, CaseVals, HasDefault, Emitted;
      var o1 := Then(c, s1);
      ghost var m1 := At();
      var o2 := ElseBranch(o1);
      Statement(s2);
      ghost var m3 := At();
      Out(Label(o2));
      EmittedBoth(c, s1, s2, old(At()), m1, m3);
    }

    // The end of pswitch(): the table from cswp up goes into the SWIT operation.
    method SwitchTail(swlab: nat, cswp: nat)
      requires cswp <= |table|
      modifies this
      ensures At() == old(At()).(table := old(table)[..cswp], deflab := Later(old(brklab), old(deflab)),
        code := old(code) + [Jmp(old(brklab)), Label(swlab), Swit(Later(old(brklab), old(deflab)), old(table)[cswp..]),
            Label(old(brklab))])
    {
      Out(Jmp(brklab));
      Out(Label(swlab));
      if deflab == 0 {
        deflab := brklab;
      }
      Out(Swit(deflab, table[cswp..]));
      Out(Label(brklab));
      table := table[..cswp];
    }

    method SwitchStatement(e: nat, s1: Stmt)
      requires At().Ok()
      modifies this
      ensures Emitted(Switch(e, s1), old(At()), At())
      decreases s1, 3
    {
      hide Gen, Legal;
      ghost var a := At();
      var o1 := brklab;
      brklab := NewLabel();
      Out(Val(e));
      // pswitch()
      var sswp, cswp := swp, |table|;
      if !swp {
        swp := true;
      }
      var swlab := NewLabel();
      Out(Jmp(swlab));
      var dl := deflab;
      deflab := 0;
      assert code == a.code + [Val(e), Jmp(a.isn + 1)];
      ghost var b := At();
      Statement(s1);
      ghost var m := At();
      SwitchTail(swlab, cswp);
      deflab := dl;
      swp := sswp;
      brklab := o1;
      EmittedSwitch(e, s1, a, b, m, At());
    }

    method CaseLabel(v: int, s1: Stmt)
      requires At().Ok()
      modifies this
      ensures Emitted(Case(v, s1), old(At()), At())
      decreases s1, 3
    {
      hide Gen, Legal;
      ghost var a := At();
      if !swp {
        nerror := nerror + 1;
      } else if |table| >= SWSIZ {
        nerror := nerror + 1;
      } else {
        table := table + [CaseLab(isn, v)];
        var l := NewLabel();
        Out(Label(l));
      }
      Statement(s1);
      LegalForms(Case(v, s1), a.Where());
      GenLabelled(Case(v, s1), a.x, a.isn);
      if Legal(Case(v, s1), a.Where()) {
        LabelThen(a, Frag([Label(a.isn)], a.isn + 1, [CaseLab(a.isn, v)], 0), Gen(s1, a.x, a.isn + 1));
      }
    }

    method DefaultLabel(s1: Stmt)
      requires At().Ok()
      modifies this
      ensures Emitted(Default(s1), old(At()), At())
      decreases s1, 3
    {
      hide Gen, Legal;
      ghost var a := At();
      if !swp {
        nerror := nerror + 1;
      }
      deflab := NewLabel();
      Out(Label(deflab));
      Statement(s1);
      LegalForms(Default(s1), a.Where());
      GenLabelled(Default(s1), a.x, a.isn);
      if Legal(Default(s1), a.Where()) {
        LabelThen(a, Frag([Label(a.isn)], a.isn + 1, [], a.isn), Gen(s1, a.x, a.isn + 1));
      }
    }

    // cfunc()
    method Function(s: Stmt)
      requires isn > 0 && contlab == 0 && brklab == 0 && !swp && table == []
      modifies this
      ensures nerror == old(nerror) <==> Legal(s, Place(false, false, false, 0))
      ensures nerror == old(nerror) ==> code == old(code) + GenFunction(s, old(isn))
    {
      hide Gen, Legal;
      retlab := NewLabel();
      ghost var a := At();
      Statement(s);
      Out(Label(retlab));
      assert a.Where() == Place(false, false, false, 0);
    }
  }
}
