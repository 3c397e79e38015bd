// Every label is defined at most once, and every label used is defined.
module StmtLabels {
  import opened Helpers
  import opened Statements
  import opened StmtMeaning

  function One(b: bool): nat { if b then 1 else 0 }

  // How often l is defined.
  function Count(code: seq<Instr>, l: int): nat {
    if code == [] then 0 else One(code[0] == Label(l)) + Count(code[1..], l)
  }

  lemma {:induction false} CountOfSum(a: seq<Instr>, b: seq<Instr>, l: int)
    ensures Count(a + b, l) == Count(a, l) + Count(b, l)
  {
    if a == [] {
      assert a + b == b;
    } else {
      assert (a + b)[1..] == a[1..] + b;
      CountOfSum(a[1..], b, l);
    }
  }

  lemma CountOfSum3(a: seq<Instr>, b: seq<Instr>, c: seq<Instr>, l: int)
    ensures Count(a + b + c, l) == Count(a, l) + Count(b, l) + Count(c, l)
  {
    CountOfSum(a + b, c, l);
    CountOfSum(a, b, l);
  }

  // The labels of a statement are numbered from isn up.
  lemma {:induction false} LabelsInRange(s: Stmt, x: Ctx, n: nat, l: int)
    ensures Count(Gen(s, x, n).code, l) <= One(n <= l < Gen(s, x, n).n)
    decreases s, 1
  {
    hide Gen, Count;
    match s
    case Skip => LabelsInSimple(s, x, n, l);
    case Do(_) => LabelsInSimple(s, x, n, l);
    case Break => LabelsInSimple(s, x, n, l);
    case Continue => LabelsInSimple(s, x, n, l);
    case Return(r) => LabelsInSimple(s, x, n, l);
    case Seq(s1, s2) =>
      GenSeq(s1, s2, x, n);
      var f1 := Gen(s1, x, n);
      LabelsInRange(s1, x, n, l);
      LabelsInRange(s2, x, f1.n, l);
      CountOfSum(f1.code, Gen(s2, x, f1.n).code, l);
    case If(d, s1) =>
      if SimpleJump(s1) {
        LabelsInSimple(s, x, n, l);
      } else {
        GenIf(d, s1, x, n, Start);
        LabelsInRange(s1, x, n + 1, l);
        CountOfSum3([CBr(d, n, false)], Gen(s1, x, n + 1).code, [Label(n)], l);
        CountOfOne(CBr(d, n, false), l);
        CountOfOne(Label(n), l);
      }
    case IfElse(d, s1, s2) => LabelsInElse(d, s1, s2, x, n, l);
    case While(d, s1) =>
      LoopForms(d, None, None, None, s1, x, n, Start);
      LabelsInLoop(Some(d), None, s1, x, n, l);
    case DoWhile(s1, d) => LabelsInDo(s1, d, x, n, l);
    case For(init, test, incr, s1) =>
      LoopForms(Leaf(0), init, test, incr, s1, x, n, Start);
      LabelsInLoop(test, incr, s1, x, n, l);
      if init.Some? {
        CountOfSum([Act(init.value)], GenLoop(test, incr, s1, x, n).code, l);
        CountOfOne(Act(init.value), l);
      }
    case Switch(v, s1) => LabelsInSwitch(v, s1, x, n, l);
    case Case(v, s1) =>
      GenLabelled(s, x, n);
      LabelsInRange(s1, x, n + 1, l);
      CountOfSum([Label(n)], Gen(s1, x, n + 1).code, l);
      CountOfOne(Label(n), l);
    case Default(s1) =>
      GenLabelled(s, x, n);
      LabelsInRange(s1, x, n + 1, l);
      CountOfSum([Label(n)], Gen(s1, x, n + 1).code, l);
      CountOfOne(Label(n), l);
  }

  lemma GenLabelled(s: Stmt, x: Ctx, n: nat)
    requires s.Case? || s.Default?
    ensures var f := Gen(s.s, x, n + 1);
      && Gen(s, x, n).code == [Label(n)] + f.code && Gen(s, x, n).n == f.n
      && Gen(s, x, n).cases == (if s.Case? then [CaseLab(n, s.v)] else []) + f.cases
      && Gen(s, x, n).def == if s.Case? then f.def else Later(n, f.def)
  {
  }

  lemma LabelsInSimple(s: Stmt, x: Ctx, n: nat, l: int)
    requires s.Skip? || s.Do? || s.Break? || s.Continue? || s.Return? || (s.If? && SimpleJump(s.s))
    ensures Count(Gen(s, x, n).code, l) == 0
  {
    if s.Return? && s.result.Some? {
      CountOfSum([Val(s.result.value)], [Jmp(x.ret)], l);
      assert [Val(s.result.value)] + [Jmp(x.ret)] == [Val(s.result.value), Jmp(x.ret)];
    }
  }

  lemma {:induction false} LabelsInDo(s1: Stmt, d: Cond, x: Ctx, n: nat, l: int)
    ensures Count(Gen(DoWhile(s1, d), x, n).code, l) <= One(n <= l < Gen(DoWhile(s1, d), x, n).n)
    decreases DoWhile(s1, d), 0
  {
    hide Gen, Count;
    GenDo(s1, d, x, n, Start);
    var f := Gen(s1, x.(cont := n, brk := n + 1), n + 3);
    LabelsInRange(s1, x.(cont := n, brk := n + 1), n + 3, l);
    CountOfSum3([Label(n + 2)], f.code, [Label(n), CBr(d, n + 2, true), Label(n + 1)], l);
    CountOfSum3([Label(n)], [CBr(d, n + 2, true)], [Label(n + 1)], l);
    assert [Label(n)] + [CBr(d, n + 2, true)] + [Label(n + 1)] == [Label(n), CBr(d, n + 2, true), Label(n + 1)];
    CountOfOne(Label(n), l);
    CountOfOne(Label(n + 1), l);
    CountOfOne(Label(n + 2), l);
    CountOfOne(CBr(d, n + 2, true), l);
  }

  lemma {:induction false} LabelsInElse(d: Cond, s1: Stmt, s2: Stmt, x: Ctx, n: nat, l: int)
    ensures Count(Gen(IfElse(d, s1, s2), x, n).code, l) <= One(n <= l < Gen(IfElse(d, s1, s2), x, n).n)
    decreases IfElse(d, s1, s2), 0
  {
    hide Gen, Count;
    if SimpleJump(s1) {
      GenElseOnly(d, s1, s2, x, n);
      var br := CBr(d, JumpTarget(s1, x), true);
      LabelsInRange(s2, x, n, l);
      CountOfSum([br], Gen(s2, x, n).code, l);
      CountOfOne(br, l);
    } else {
      var f1 := Gen(s1, x, n + 1);
      LabelsInRange(s1, x, n + 1, l);
      CountOfOne(CBr(d, n, false), l);
      CountOfOne(Label(n), l);
      if s1.Return? {
        GenReturnElse(d, s1, s2, x, n);
        LabelsInRange(s2, x, f1.n, l);
        CountOfSum3([CBr(d, n, false)], f1.code, [Label(n)], l);
        CountOfSum([CBr(d, n, false)] + f1.code + [Label(n)], Gen(s2, x, f1.n).code, l);
      } else {
        GenBoth(d, s1, s2, x, n);
        var f2 := Gen(s2, x, f1.n + 1);
        LabelsInRange(s2, x, f1.n + 1, l);
        CountOfOne(Jmp(f1.n), l);
        CountOfOne(Label(f1.n), l);
        CountOfSum([Jmp(f1.n)], [Label(n)], l);
        assert [Jmp(f1.n)] + [Label(n)] == [Jmp(f1.n), Label(n)];
        CountOfSum3([CBr(d, n, false)], f1.code, [Jmp(f1.n), Label(n)], l);
        CountOfSum3([CBr(d, n, false)] + f1.code + [Jmp(f1.n), Label(n)], f2.code, [Label(f1.n)], l);
      }
    }
  }

  lemma CountOfOne(i: Instr, l: int)
    ensures Count([i], l) == One(i == Label(l))
  {
  }

  lemma {:induction false} LabelsInLoop(test: Option<Cond>, incr: Option<nat>, s: Stmt, x: Ctx, n: nat, l: int)
    ensures Count(GenLoop(test, incr, s, x, n).code, l) <= One(n <= l < GenLoop(test, incr, s, x, n).n)
    decreases s, 2
  {
    hide Gen, GenLoop, Count, LoopTail, LoopTest;
    LoopShape(test, incr, s, x, n);
    var n1 := BodyIsn(incr, n);
    var f := Gen(s, BodyCtx(incr, x, n), n1);
    LabelsInRange(s, BodyCtx(incr, x, n), n1, l);
    CountOfSum3([Label(n)] + LoopTest(test, n), f.code, LoopTail(incr, n), l);
    CountOfSum([Label(n)], LoopTest(test, n), l);
    CountOfOne(Label(n), l);
    CountLoopEnds(test, incr, n, l);
  }

  lemma CountLoopEnds(test: Option<Cond>, incr: Option<nat>, n: nat, l: int)
    ensures Count(LoopTest(test, n), l) == 0
    ensures Count(LoopTail(incr, n), l) == One(incr.Some? && l == n + 2) + One(l == n + 1)
  {
    if incr.Some? {
      assert LoopTail(incr, n) == [Label(n + 2), Act(incr.value)] + ([Jmp(n)] + [Label(n + 1)]);
      CountOfSum([Label(n + 2)], [Act(incr.value)], l);
      CountOfSum([Label(n + 2), Act(incr.value)], [Jmp(n)] + [Label(n + 1)], l);
      assert [Label(n + 2)] + [Act(incr.value)] == [Label(n + 2), Act(incr.value)];
    } else {
      assert LoopTail(incr, n) == [Jmp(n)] + [Label(n + 1)];
    }
    CountOfSum([Jmp(n)], [Label(n + 1)], l);
  }

  lemma {:induction false} LabelsInSwitch(v: nat, s1: Stmt, x: Ctx, n: nat, l: int)
    ensures Count(Gen(Switch(v, s1), x, n).code, l) <= One(n <= l < Gen(Switch(v, s1), x, n).n)
    decreases Switch(v, s1), 0
  {
    hide Gen, Count;
    GenSwitch(v, s1, x, n, Start);
    var f := Gen(s1, x.(brk := n), n + 2);
    var swit := Swit(Later(n, f.def), f.cases);
    LabelsInRange(s1, x.(brk := n), n + 2, l);
    CountOfSum3([Val(v), Jmp(n + 1)], f.code, [Jmp(n), Label(n + 1), swit, Label(n)], l);
    CountOfSum([Val(v)], [Jmp(n + 1)], l);
    assert [Val(v)] + [Jmp(n + 1)] == [Val(v), Jmp(n + 1)];
    CountOfSum3([Jmp(n)], [Label(n + 1)], [swit], l);
    CountOfSum([Jmp(n)] + [Label(n + 1)] + [swit], [Label(n)], l);
    assert [Jmp(n)] + [Label(n + 1)] + [swit] + [Label(n)] == [Jmp(n), Label(n + 1), swit, Label(n)];
    CountOfOne(Val(v), l);
    CountOfOne(Jmp(n + 1), l);
    CountOfOne(Jmp(n), l);
    CountOfOne(Label(n + 1), l);
    CountOfOne(swit, l);
    CountOfOne(Label(n), l);
  }

  lemma {:induction false} CountAt(code: seq<Instr>, i: nat)
    requires i < |code| && code[i].Label?
    ensures Count(code, code[i].l) >= 1
  {
    assert code[i] == Label(code[i].l);
    if i > 0 {
      CountAt(code[1..], i - 1);
    }
  }

  lemma CountTwice(code: seq<Instr>, j: nat)
    requires 0 < j < |code| && code[0].Label? && code[0] == code[j]
    ensures Count(code, code[0].l) >= 2
  {
    CountAt(code[1..], j - 1);
    assert code[0] == Label(code[0].l);
  }

  lemma {:induction false} UniqueIfCounted(code: seq<Instr>)
    requires forall l :: Count(code, l) <= 1
    ensures Unique(code)
  {
    if code != [] {
      forall l ensures Count(code[1..], l) <= 1 {
        assert Count(code, l) <= 1;
      }
      UniqueIfCounted(code[1..]);
      forall i, j | 0 <= i < j < |code| && code[i].Label? ensures code[i] != code[j] {
        if i == 0 {
          if code[j] == code[0] {
            CountTwice(code, j);
            assert false;
          }
        } else {
          assert code[i] == code[1..][i - 1] && code[j] == code[1..][j - 1];
        }
      }
    }
  }

  // The labels of a function are all different.
  lemma FunctionLabelsUnique(s: Stmt, n: nat)
    ensures Unique(GenFunction(s, n))
    ensures forall l :: Count(GenFunction(s, n), l) <= One(n <= l < Gen(s, Ctx(0, 0, n), n + 1).n)
  {
    var f := Gen(s, Ctx(0, 0, n), n + 1);
    forall l ensures Count(GenFunction(s, n), l) <= One(n <= l < f.n) {
      LabelsInRange(s, Ctx(0, 0, n), n + 1, l);
      CountOfSum(f.code, [Label(n)], l);
      CountOfOne(Label(n), l);
    }
    UniqueIfCounted(GenFunction(s, n));
  }

  // ---- uses

  function Targets(i: Instr): set<int> {
    match i
    case Jmp(l) => {l}
    case CBr(_, l, _) => {l}
    case Swit(def, cases) => {def} + CaseTargets(cases)
    case _ => {}
  }

  function CaseTargets(cases: seq<CaseLab>): set<int> {
    set i | 0 <= i < |cases| :: cases[i].lab
  }

  predicate Uses(code: seq<Instr>, l: int) {
    exists i :: 0 <= i < |code| && l in Targets(code[i])
  }

  lemma UsesOfSum(a: seq<Instr>, b: seq<Instr>, l: int)
    ensures Uses(a + b, l) <==> Uses(a, l) || Uses(b, l)
  {
    if Uses(a, l) {
      var i :| 0 <= i < |a| && l in Targets(a[i]);
      assert (a + b)[i] == a[i];
    }
    if Uses(b, l) {
      var i :| 0 <= i < |b| && l in Targets(b[i]);
      assert (a + b)[|a| + i] == b[i];
    }
    if Uses(a + b, l) {
      var i :| 0 <= i < |a + b| && l in Targets((a + b)[i]);
      if i < |a| { assert (a + b)[i] == a[i]; } else { assert (a + b)[i] == b[i - |a|]; }
    }
  }

  lemma UsesOfSum3(a: seq<Instr>, b: seq<Instr>, c: seq<Instr>, l: int)
    ensures Uses(a + b + c, l) <==> Uses(a, l) || Uses(b, l) || Uses(c, l)
  {
    UsesOfSum(a + b, c, l);
    UsesOfSum(a, b, l);
  }

  lemma UsesOfOne(i: Instr, l: int)
    ensures Uses([i], l) <==> l in Targets(i)
  {
    if l in Targets(i) {
      assert l in Targets([i][0]);
    }
  }

  predicate Outer(x: Ctx, p: Place, l: int) { (p.cont && l == x.cont) || (p.brk && l == x.brk) || l == x.ret }

  // Used labels are defined in the fragment, or are those of the context; the labels it
  // gives a switch are defined in it.
  predicate Closed(f: Frag, x: Ctx, p: Place, l: int) {
    && (Uses(f.code, l) ==> Outer(x, p, l) || Count(f.code, l) > 0)
    && (l in CaseTargets(f.cases) ==> Count(f.code, l) > 0)
    && (f.def != 0 && l == f.def ==> Count(f.code, l) > 0)
  }

  lemma {:induction false} LabelsDefined(s: Stmt, x: Ctx, n: nat, p: Place, l: int)
    requires n > 0 && Legal(s, p)
    ensures Closed(Gen(s, x, n), x, p, l)
    decreases s, 1
  {
    match s
    case Skip =>
    case Do(_) =>
    case Break =>
    case Continue =>
    case Return(_) =>
    case Seq(s1, s2) =>
      LabelsDefined(s1, x, n, p, l);
      LabelsDefined(s2, x, Gen(s1, x, n).n, p.(used := p.used + |CaseVals(s1)|), l);
      JoinClosed(Gen(s1, x, n), Gen(s2, x, Gen(s1, x, n).n), x, p, l);
    case If(d, s1) =>
      if !SimpleJump(s1) {
        LabelsDefined(s1, x, n + 1, p, l);
        Wrapped(Gen(s1, x, n + 1), x, p, x, p, [CBr(d, n, false)], [Label(n)], l);
        UsesOfOne(CBr(d, n, false), l);
        UsesOfOne(Label(n), l);
        CountOfOne(Label(n), l);
      }
    case IfElse(d, s1, s2) => DefinedInElse(d, s1, s2, x, n, p, l);
    case While(d, s1) =>
      LoopForms(d, None, None, None, s1, x, n, Start);
      DefinedInLoop(Some(d), None, s1, x, n, p, l);
    case DoWhile(s1, d) => DefinedInDo(s1, d, x, n, p, l);
    case For(init, test, incr, s1) =>
      DefinedInLoop(test, incr, s1, x, n, p, l);
      if init.Some? {
        ActBefore(init.value, GenLoop(test, incr, s1, x, n), x, p, l);
      }
    case Switch(v, s1) => DefinedInSwitch(v, s1, x, n, p, l);
    case Case(v, s1) => DefinedInCase(v, s1, x, n, p, l);
    case Default(s1) => DefinedInDefault(s1, x, n, p, l);
  }

  lemma {:induction false} DefinedInCase(v: int, s1: Stmt, x: Ctx, n: nat, p: Place, l: int)
    requires n > 0 && Legal(Case(v, s1), p)
    ensures Closed(Gen(Case(v, s1), x, n), x, p, l)
    decreases Case(v, s1), 0
  {
    var f := Gen(s1, x, n + 1);
    LabelsDefined(s1, x, n + 1, p.(used := p.used + 1), l);
    Wrapped(f, x, p, x, p, [Label(n)], [], l);
    assert [Label(n)] + f.code + [] == [Label(n)] + f.code;
    UsesOfOne(Label(n), l);
    CountOfOne(Label(n), l);
    CaseTargetsOfSum([CaseLab(n, v)], f.cases, l);
  }

  lemma {:induction false} DefinedInDefault(s1: Stmt, x: Ctx, n: nat, p: Place, l: int)
    requires n > 0 && Legal(Default(s1), p)
    ensures Closed(Gen(Default(s1), x, n), x, p, l)
    decreases Default(s1), 0
  {
    var f := Gen(s1, x, n + 1);
    LabelsDefined(s1, x, n + 1, p, l);
    Wrapped(f, x, p, x, p, [Label(n)], [], l);
    assert [Label(n)] + f.code + [] == [Label(n)] + f.code;
    UsesOfOne(Label(n), l);
    CountOfOne(Label(n), l);
  }

  lemma ActBefore(e: nat, f: Frag, x: Ctx, p: Place, l: int)
    requires Closed(f, x, p, l)
    ensures Closed(f.(code := [Act(e)] + f.code), x, p, l)
  {
    Wrapped(f, x, p, x, p, [Act(e)], [], l);
    assert [Act(e)] + f.code + [] == [Act(e)] + f.code;
    UsesOfOne(Act(e), l);
  }

  lemma CaseTargetsOfSum(a: seq<CaseLab>, b: seq<CaseLab>, l: int)
    ensures l in CaseTargets(a + b) <==> l in CaseTargets(a) || l in CaseTargets(b)
  {
    if l in CaseTargets(a) {
      var i :| 0 <= i < |a| && a[i].lab == l;
      assert (a + b)[i] == a[i];
    }
    if l in CaseTargets(b) {
      var i :| 0 <= i < |b| && b[i].lab == l;
      assert (a + b)[|a| + i] == b[i];
    }
  }

  lemma JoinClosed(f1: Frag, f2: Frag, x: Ctx, p: Place, l: int)
    requires Closed(f1, x, p, l) && Closed(f2, x, p, l)
    ensures Closed(Frag(f1.code + f2.code, f2.n, f1.cases + f2.cases, Later(f1.def, f2.def)), x, p, l)
  {
    UsesOfSum(f1.code, f2.code, l);
    CountOfSum(f1.code, f2.code, l);
    CaseTargetsOfSum(f1.cases, f2.cases, l);
  }

  // A fragment between two pieces: what is left to look at is the pieces.
  lemma Wrapped(f: Frag, x1: Ctx, p1: Place, x: Ctx, p: Place, a: seq<Instr>, b: seq<Instr>, l: int)
    requires Closed(f, x1, p1, l)
    requires Outer(x1, p1, l) ==> Outer(x, p, l) || Count(a, l) + Count(b, l) > 0
    requires Uses(a, l) || Uses(b, l) ==> Outer(x, p, l) || Count(a, l) + Count(b, l) + Count(f.code, l) > 0
    ensures Closed(f.(code := a + f.code + b), x, p, l)
    ensures Count(a + f.code + b, l) == Count(a, l) + Count(f.code, l) + Count(b, l)
  {
    UsesOfSum3(a, f.code, b, l);
    CountOfSum3(a, f.code, b, l);
  }

  lemma Pieces(i: Instr, j: Instr, l: int)
    ensures Uses([], l) == false && Count([], l) == 0
    ensures Uses([i], l) <==> l in Targets(i)
    ensures Count([i], l) == One(i == Label(l))
    ensures Uses([i, j], l) <==> l in Targets(i) || l in Targets(j)
    ensures Count([i, j], l) == One(i == Label(l)) + One(j == Label(l))
  {
    assert [i, j] == [i] + [j];
    UsesOfOne(i, l);
    UsesOfOne(j, l);
    UsesOfSum([i], [j], l);
    CountOfSum([i], [j], l);
  }

  lemma Pieces4(i: Instr, j: Instr, i1: Instr, j1: Instr, l: int)
    ensures Uses([i, j, i1, j1], l) <==> l in Targets(i) || l in Targets(j) || l in Targets(i1) || l in Targets(j1)
    ensures Count([i, j, i1, j1], l) == One(i == Label(l)) + One(j == Label(l)) + One(i1 == Label(l)) +
        One(j1 == Label(l))
  {
    hide Uses, Count, Targets;
    assert [i, j, i1, j1] == [i, j] + [i1, j1];
    Pieces(i, j, l);
    Pieces(i1, j1, l);
    UsesOfSum([i, j], [i1, j1], l);
    CountOfSum([i, j], [i1, j1], l);
  }

  lemma {:induction false} DefinedInElse(d: Cond, s1: Stmt, s2: Stmt, x: Ctx, n: nat, p: Place, l: int)
    requires n > 0 && Legal(IfElse(d, s1, s2), p)
    ensures Closed(Gen(IfElse(d, s1, s2), x, n), x, p, l)
    decreases IfElse(d, s1, s2), 0
  {
    hide Gen, Count, Uses;
    var br := CBr(d, n, false);
    if SimpleJump(s1) {
      GenElseOnly(d, s1, s2, x, n);
      var f := Gen(s2, x, n);
      var jump := CBr(d, JumpTarget(s1, x), true);
      LabelsDefined(s2, x, n, p.(used := p.used + |CaseVals(s1)|), l);
      Pieces(jump, jump, l);
      Wrapped(f, x, p, x, p, [jump], [], l);
      assert [jump] + f.code + [] == [jump] + f.code;
    } else {
      var f1 := Gen(s1, x, n + 1);
      LabelsDefined(s1, x, n + 1, p, l);
      Pieces(br, Label(n), l);
      Pieces(Label(n), br, l);
      if s1.Return? {
        GenReturnElse(d, s1, s2, x, n);
        var f2 := Gen(s2, x, f1.n);
        LabelsDefined(s2, x, f1.n, p.(used := p.used + |CaseVals(s1)|), l);
        Wrapped(f1, x, p, x, p, [br], [Label(n)], l);
        Wrapped(f2, x, p, x, p, [br] + f1.code + [Label(n)], [], l);
        assert [br] + f1.code + [Label(n)] + f2.code + [] == [br] + f1.code + [Label(n)] + f2.code;
      } else {
        GenBoth(d, s1, s2, x, n);
        var f2 := Gen(s2, x, f1.n + 1);
        LabelsDefined(s2, x, f1.n + 1, p.(used := p.used + |CaseVals(s1)|), l);
        Pieces(Jmp(f1.n), Label(n), l);
        Pieces(Label(f1.n), br, l);
        BothClosed(d, f1, f2, x, p, n, l);
      }
    }
  }

  lemma BothClosed(d: Cond, f1: Frag, f2: Frag, x: Ctx, p: Place, n: nat, l: int)
    requires Closed(f1, x, p, l) && Closed(f2, x, p, l)
    ensures Closed(Frag([CBr(d, n, false)] + f1.code + [Jmp(f1.n), Label(n)] + f2.code + [Label(f1.n)],
        f2.n, f1.cases + f2.cases, Later(f1.def, f2.def)), x, p, l)
  {
    hide Count, Uses;
    var br := CBr(d, n, false);
    var mid := [Jmp(f1.n), Label(n)];
    Pieces(br, br, l);
    Pieces(Jmp(f1.n), Label(n), l);
    Pieces(Label(f1.n), br, l);
    UsesOfSum3([br], f1.code, mid, l);
    CountOfSum3([br], f1.code, mid, l);
    UsesOfSum3([br] + f1.code + mid, f2.code, [Label(f1.n)], l);
    CountOfSum3([br] + f1.code + mid, f2.code, [Label(f1.n)], l);
    CaseTargetsOfSum(f1.cases, f2.cases, l);
  }

  lemma {:induction false} DefinedInLoop(test: Option<Cond>, incr: Option<nat>, s: Stmt, x: Ctx, n: nat, p: Place,
      l: int)
    requires n > 0 && Legal(s, p.(brk := true, cont := true))
    ensures Closed(GenLoop(test, incr, s, x, n), x, p, l)
    decreases s, 2
  {
    hide Gen, GenLoop, Count, Uses, LoopTail, LoopTest;
    LoopShape(test, incr, s, x, n);
    BodyCtxIs(incr, x, n);
    var f := Gen(s, BodyCtx(incr, x, n), BodyIsn(incr, n));
    LabelsDefined(s, BodyCtx(incr, x, n), BodyIsn(incr, n), p.(brk := true, cont := true), l);
    LoopPieces(test, incr, n, l);
    Wrapped(f, BodyCtx(incr, x, n), p.(brk := true, cont := true), x, p, [Label(n)] + LoopTest(test, n),
        LoopTail(incr, n), l);
  }

  lemma LoopPieces(test: Option<Cond>, incr: Option<nat>, n: nat, l: int)
    ensures Uses([Label(n)] + LoopTest(test, n), l) ==> l == n + 1
    ensures Count([Label(n)] + LoopTest(test, n), l) == One(l == n)
    ensures Uses(LoopTail(incr, n), l) ==> l == n
    ensures Count(LoopTail(incr, n), l) == One(incr.Some? && l == n + 2) + One(l == n + 1)
  {
    hide Count, Uses;
    CountLoopEnds(test, incr, n, l);
    Pieces(Jmp(n), Label(n + 1), l);
    CountOfSum([Label(n)], LoopTest(test, n), l);
    UsesOfSum([Label(n)], LoopTest(test, n), l);
    Pieces(Label(n), Label(n), l);
    if test.Some? { Pieces(CBr(test.value, n + 1, false), Label(n), l); }
    if incr.Some? {
      UsesOfSum([Label(n + 2), Act(incr.value)], [Jmp(n), Label(n + 1)], l);
      Pieces(Label(n + 2), Act(incr.value), l);
    } else {
      assert LoopTail(incr, n) == [Jmp(n), Label(n + 1)];
    }
  }

  lemma {:induction false} DefinedInDo(s1: Stmt, d: Cond, x: Ctx, n: nat, p: Place, l: int)
    requires n > 0 && Legal(DoWhile(s1, d), p)
    ensures Closed(Gen(DoWhile(s1, d), x, n), x, p, l)
    decreases DoWhile(s1, d), 0
  {
    hide Gen, Count, Uses;
    GenDo(s1, d, x, n, Start);
    var x1 := x.(cont := n, brk := n + 1);
    var br := CBr(d, n + 2, true);
    LabelsDefined(s1, x1, n + 3, p.(brk := true, cont := true), l);
    Pieces(Label(n + 2), br, l);
    Pieces(Label(n), br, l);
    Pieces(Label(n + 1), br, l);
    assert [Label(n), br] + [Label(n + 1)] == [Label(n), br, Label(n + 1)];
    UsesOfSum([Label(n), br], [Label(n + 1)], l);
    CountOfSum([Label(n), br], [Label(n + 1)], l);
    Wrapped(Gen(s1, x1, n + 3), x1, p.(brk := true, cont := true), x, p, [Label(n + 2)], [Label(n), br, Label(n + 1)],
        l);
  }

  lemma {:induction false} DefinedInSwitch(v: nat, s1: Stmt, x: Ctx, n: nat, p: Place, l: int)
    requires n > 0 && Legal(Switch(v, s1), p)
    ensures Closed(Gen(Switch(v, s1), x, n), x, p, l)
    decreases Switch(v, s1), 0
  {
    hide Gen, Count, Uses;
    GenSwitch(v, s1, x, n, Start);
    var x1 := x.(brk := n);
    var f := Gen(s1, x1, n + 2);
    LabelsDefined(s1, x1, n + 2, p.(brk := true, switch := true), l);
    var swit := Swit(Later(n, f.def), f.cases);
    Pieces(Val(v), Jmp(n + 1), l);
    Pieces4(Jmp(n), Label(n + 1), swit, Label(n), l);
    Wrapped(f, x1, p.(brk := true, switch := true), x, p, [Val(v), Jmp(n + 1)], [Jmp(n), Label(n + 1), swit, Label(n)],
        l);
  }

  // Every label a function uses is defined in it exactly once.
  lemma FunctionLabelsDefined(s: Stmt, n: nat, l: int)
    requires n > 0 && Legal(s, Place(false, false, false, 0))
    ensures Uses(GenFunction(s, n), l) ==> Count(GenFunction(s, n), l) == 1
  {
    var f := Gen(s, Ctx(0, 0, n), n + 1);
    LabelsDefined(s, Ctx(0, 0, n), n + 1, Place(false, false, false, 0), l);
    UsesOfSum(f.code, [Label(n)], l);
    CountOfSum(f.code, [Label(n)], l);
    Pieces(Label(n), Label(n), l);
    FunctionLabelsUnique(s, n);
  }
}
