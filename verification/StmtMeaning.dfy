// The code emitted for a statement does what the statement means: induction on the fuel
// and the statement, one lemma for each form.
module StmtMeaning {
  import opened Helpers
  import opened Statements

  predicate At(code: seq<Instr>, p: nat, frag: seq<Instr>) {
    p + |frag| <= |code| && code[p..p + |frag|] == frag
  }

  lemma AtSplit(code: seq<Instr>, p: nat, a: seq<Instr>, b: seq<Instr>)
    requires At(code, p, a + b)
    ensures At(code, p, a) && At(code, p + |a|, b)
  {
    assert code[p..p + |a|] == code[p..p + |a + b|][..|a|];
    assert code[p + |a|..p + |a| + |b|] == code[p..p + |a + b|][|a|..];
  }

  lemma AtNth(code: seq<Instr>, p: nat, frag: seq<Instr>, i: nat)
    requires At(code, p, frag) && i < |frag|
    ensures code[p + i] == frag[i]
  {
    assert code[p..p + |frag|][i] == code[p + i];
  }

  // No label is defined twice.
  predicate Unique(code: seq<Instr>) {
    forall i, j :: 0 <= i < j < |code| && code[i].Label? ==> code[i] != code[j]
  }

  lemma {:induction false} FindAt(code: seq<Instr>, i: nat)
    requires Unique(code) && i < |code| && code[i].Label?
    ensures Find(code, code[i].l) == i
  {
    if i > 0 {
      assert code[0] != code[i];
      forall a, b | 0 <= a < b < |code[1..]| && code[1..][a].Label? ensures code[1..][a] != code[1..][b] {
        assert code[1..][a] == code[a + 1] && code[1..][b] == code[b + 1];
      }
      FindAt(code[1..], i - 1);
      assert code[i] == Label(code[i].l);
    }
  }

  lemma {:induction false} RunAdd(code: seq<Instr>, m: Sem, c: Conf, j: nat, k: nat)
    ensures Run(code, m, c, j + k) == Run(code, m, Run(code, m, c, j), k)
    decreases j
  {
    if j > 0 {
      RunAdd(code, m, Step(code, m, c), j - 1, k);
    }
  }

  lemma RunOne(code: seq<Instr>, m: Sem, c: Conf)
    ensures Run(code, m, c, 0) == c && Run(code, m, c, 1) == Step(code, m, c)
    ensures Run(code, m, c, 2) == Step(code, m, Step(code, m, c))
  {
    assert Run(code, m, Step(code, m, c), 1) == Step(code, m, Step(code, m, c));
  }

  // ---- what a statement gives the table of the switch around it

  predicate Matches(f: Frag, s: Stmt) {
    && |f.cases| == |CaseVals(s)|
    && (forall i :: 0 <= i < |f.cases| ==> f.cases[i].val == CaseVals(s)[i])
    && (f.def != 0 <==> HasDefault(s))
  }

  lemma {:induction false} TableMatches(s: Stmt, x: Ctx, n: nat)
    requires n > 0
    ensures Matches(Gen(s, x, n), s)
    decreases s, 1
  {
    match s
    case Seq(s1, s2) =>
      TableMatches(s1, x, n);
      TableMatches(s2, x, Gen(s1, x, n).n);
    case If(c, s1) =>
      if !SimpleJump(s1) { TableMatches(s1, x, n + 1); }
    case IfElse(c, s1, s2) => TableMatchesElse(c, s1, s2, x, n);
    case While(c, s1) => TableMatches(s1, x.(cont := n, brk := n + 1), n + 2);
    case DoWhile(s1, c) => TableMatches(s1, x.(cont := n, brk := n + 1), n + 3);
    case For(init, test, incr, s1) =>
      if incr.None? { TableMatches(s1, x.(cont := n, brk := n + 1), n + 2); }
      else { TableMatches(s1, x.(cont := n + 2, brk := n + 1), n + 3); }
    case Switch(e, s1) =>
    case Case(v, s1) => TableMatches(s1, x, n + 1);
    case Default(s1) => TableMatches(s1, x, n + 1);
    case Skip =>
    case Do(_) =>
    case Break =>
    case Continue =>
    case Return(_) =>
  }

  lemma {:induction false} TableMatchesElse(c: Cond, s1: Stmt, s2: Stmt, x: Ctx, n: nat)
    requires n > 0
    ensures Matches(Gen(IfElse(c, s1, s2), x, n), IfElse(c, s1, s2))
    decreases IfElse(c, s1, s2), 0
  {
    if SimpleJump(s1) { TableMatches(s2, x, n); }
    else {
      TableMatches(s1, x, n + 1);
      var n1 := Gen(s1, x, n + 1).n;
      TableMatches(s2, x, if s1.Return? then n1 else n1 + 1);
    }
  }

  lemma {:induction false} PickIndex(cases: seq<CaseLab>, vals: seq<int>, def: int, v: int)
    requires |cases| == |vals| && forall i :: 0 <= i < |vals| ==> cases[i].val == vals[i]
    ensures Index(vals, v) <= |vals|
    ensures Pick(cases, def, v) == if Index(vals, v) < |vals| then cases[Index(vals, v)].lab else def
  {
    if vals != [] && vals[0] != v {
      PickIndex(cases[1..], vals[1..], def, v);
    }
  }

  // ---- simulation

  // Where control enters a fragment that starts at p.
  function EntryPc(code: seq<Instr>, p: nat, f: Frag, e: Entry): nat {
    match e
    case Start => p
    case AtCase(k) => if k < |f.cases| then Find(code, f.cases[k].lab) else 0
    case AtDefault => Find(code, f.def)
  }

  // Control has left as the outcome says; a return value is in r0.
  predicate Ends(code: seq<Instr>, x: Ctx, end: nat, o: Outcome, d: Conf) {
    match o
    case Normal(mem) => d.pc == end && d.mem == mem
    case Broke(mem) => d.pc == Find(code, x.brk) && d.mem == mem
    case Continued(mem) => d.pc == Find(code, x.cont) && d.mem == mem
    case Returned(r, mem) => d.pc == Find(code, x.ret) && d.mem == mem && (r.Some? ==> d.r0 == r.value)
    case Unfinished => d.pc < |code|
  }

  // k steps do it, and a statement that runs out of fuel runs at least that many steps.
  predicate Sim(code: seq<Instr>, m: Sem, c: Conf, k: nat, x: Ctx, end: nat, o: Outcome, fuel: int) {
    Ends(code, x, end, o, Run(code, m, c, k)) && (o.Unfinished? ==> fuel <= k)
  }

  // One step and then k.
  lemma SimStep(code: seq<Instr>, m: Sem, c: Conf, k: nat, x: Ctx, end: nat, o: Outcome, fuel: int)
    requires Sim(code, m, Step(code, m, c), k, x, end, o, fuel)
    ensures Sim(code, m, c, k + 1, x, end, o, fuel + 1)
  {
  }

  lemma SimAfter(code: seq<Instr>, m: Sem, c: Conf, j: nat, k: nat, x: Ctx, end: nat, o: Outcome, fuel: int)
    requires Sim(code, m, Run(code, m, c, j), k, x, end, o, fuel)
    ensures Sim(code, m, c, j + k, x, end, o, fuel + j)
  {
    RunAdd(code, m, c, j, k);
  }

  // The first lemma of a form: the fragment of s starts at p and control is at its entry.
  predicate Ready(s: Stmt, e: Entry, x: Ctx, n: nat, code: seq<Instr>, p: nat, c: Conf) {
    && Unique(code) && n > 0 && Enters(e, s)
    && At(code, p, Gen(s, x, n).code) && c.pc == EntryPc(code, p, Gen(s, x, n), e)
  }

  function Slack(e: Entry): int { if e.Start? then 0 else 1 }

  predicate Right(s: Stmt, e: Entry, x: Ctx, n: nat, code: seq<Instr>, p: nat, m: Sem, c: Conf, fuel: nat, k: nat) {
    Sim(code, m, c, k, x, p + |Gen(s, x, n).code|, Exec(s, e, m, c.mem, fuel), fuel - Slack(e))
  }

  // ---- what each form unfolds to

  lemma GenSeq(s1: Stmt, s2: Stmt, x: Ctx, n: nat)
    ensures var f1 := Gen(s1, x, n);
      var f2 := Gen(s2, x, f1.n);
      Gen(Seq(s1, s2), x, n) == Frag(f1.code + f2.code, f2.n, f1.cases + f2.cases, Later(f1.def, f2.def))
  {
  }

  lemma GenIf(d: Cond, s1: Stmt, x: Ctx, n: nat, e: Entry)
    requires !SimpleJump(s1)
    ensures var f := Gen(s1, x, n + 1);
      Gen(If(d, s1), x, n) == f.(code := [CBr(d, n, false)] + f.code + [Label(n)])
    ensures Enters(e, If(d, s1)) == Enters(e, s1)
  {
  }

  lemma GenElseOnly(d: Cond, s1: Stmt, s2: Stmt, x: Ctx, n: nat)
    requires SimpleJump(s1)
    ensures var f := Gen(s2, x, n);
      Gen(IfElse(d, s1, s2), x, n) == f.(code := [CBr(d, JumpTarget(s1, x), true)] + f.code)
  {
  }

  lemma GenReturnElse(d: Cond, s1: Stmt, s2: Stmt, x: Ctx, n: nat)
    requires !SimpleJump(s1) && s1.Return?
    ensures var f1 := Gen(s1, x, n + 1);
      var f2 := Gen(s2, x, f1.n);
      Gen(IfElse(d, s1, s2), x, n) == f2.(code := [CBr(d, n, false)] + f1.code + [Label(n)] + f2.code)
  {
  }

  lemma GenBoth(d: Cond, s1: Stmt, s2: Stmt, x: Ctx, n: nat)
    requires !SimpleJump(s1) && !s1.Return?
    ensures var f1 := Gen(s1, x, n + 1);
      var f2 := Gen(s2, x, f1.n + 1);
      Gen(IfElse(d, s1, s2), x, n) == Frag(
        [CBr(d, n, false)] + f1.code + [Jmp(f1.n), Label(n)] + f2.code + [Label(f1.n)],
        f2.n, f1.cases + f2.cases, Later(f1.def, f2.def))
  {
  }

  lemma GenDo(s1: Stmt, d: Cond, x: Ctx, n: nat, e: Entry)
    ensures var f := Gen(s1, x.(cont := n, brk := n + 1), n + 3);
      Gen(DoWhile(s1, d), x, n) == f.(code := [Label(n + 2)] + f.code + [Label(n), CBr(d, n + 2, true), Label(n + 1)])
    ensures Enters(e, DoWhile(s1, d)) == Enters(e, s1)
  {
  }

  lemma LoopForms(d: Cond, init: Option<nat>, test: Option<Cond>, incr: Option<nat>, s1: Stmt, x: Ctx, n: nat, e: Entry)
    ensures Gen(While(d, s1), x, n) == GenLoop(Some(d), None, s1, x, n)
    ensures var f := GenLoop(test, incr, s1, x, n);
      Gen(For(init, test, incr, s1), x, n) == if init.Some? then f.(code := [Act(init.value)] + f.code) else f
    ensures Enters(e, While(d, s1)) == Enters(e, s1) == Enters(e, For(init, test, incr, s1))
  {
    assert CaseVals(While(d, s1)) == CaseVals(s1) == CaseVals(For(init, test, incr, s1));
  }

  lemma ExecLoopForms(d: Cond, init: Option<nat>, test: Option<Cond>, incr: Option<nat>, s1: Stmt, e: Entry, m: Sem,
      mem: Mem, fuel: nat)
    ensures Exec(While(d, s1), e, m, mem, fuel) == ExecLoop(Some(d), None, s1, e, m, mem, fuel)
    ensures Exec(For(init, test, incr, s1), e, m, mem, fuel) ==
      ExecLoop(test, incr, s1, e, m, if e.Start? && init.Some? then m.act(init.value, mem).mem else mem, fuel)
  {
    hide ExecLoop;
  }

  lemma GenSwitch(v: nat, s1: Stmt, x: Ctx, n: nat, e: Entry)
    ensures var f := Gen(s1, x.(brk := n), n + 2);
      Gen(Switch(v, s1), x, n) == Frag(
        [Val(v), Jmp(n + 1)] + f.code + [Jmp(n), Label(n + 1), Swit(Later(n, f.def), f.cases), Label(n)], f.n, [], 0)
    ensures Enters(e, Switch(v, s1)) ==> e == Start
  {
  }

  // Where an entry into a labelled statement enters the statement behind the label.
  function Inner(s: Stmt, e: Entry): Entry
    requires s.Case? || s.Default?
  {
    if s.Default? then (if e.AtDefault? && !HasDefault(s.s) then Start else e)
    else if e.AtCase? then (if e.k > 0 then AtCase(e.k - 1) else Start) else e
  }

  lemma Labelled(s: Stmt, e: Entry, x: Ctx, n: nat, code: seq<Instr>, p: nat, m: Sem, mem: Mem, fuel: nat)
    requires (s.Case? || s.Default?) && Enters(e, s) && n > 0 && Matches(Gen(s.s, x, n + 1), s.s)
    ensures Gen(s, x, n).code == [Label(n)] + Gen(s.s, x, n + 1).code
    ensures Exec(s, e, m, mem, fuel) == Exec(s.s, Inner(s, e), m, mem, fuel)
    ensures Enters(Inner(s, e), s.s)
    ensures EntryPc(code, p, Gen(s, x, n), e) ==
      if e.Start? then p
      else if Inner(s, e).Start? then Find(code, n) else EntryPc(code, p + 1, Gen(s.s, x, n + 1), Inner(s, e))
  {
  }

  lemma ExecSeq(s1: Stmt, s2: Stmt, e: Entry, m: Sem, mem: Mem, fuel: nat)
    ensures Exec(Seq(s1, s2), e, m, mem, fuel) ==
      if InSecond(e, s1, s2) then Exec(s2, Past(e, s1), m, mem, fuel)
      else
        var o := Exec(s1, e, m, mem, fuel);
        if o.Normal? then Exec(s2, Start, m, o.mem, fuel) else o
  {
  }

  lemma ExecIf(c: Cond, s1: Stmt, e: Entry, m: Sem, mem: Mem, fuel: nat)
    ensures Exec(If(c, s1), e, m, mem, fuel) ==
      if e.Start? then
        var v := Truth(c, m, mem);
        if v.truth then Exec(s1, Start, m, v.mem, fuel) else Normal(v.mem)
      else Exec(s1, e, m, mem, fuel)
  {
  }

  lemma ExecIfElse(c: Cond, s1: Stmt, s2: Stmt, e: Entry, m: Sem, mem: Mem, fuel: nat)
    ensures Exec(IfElse(c, s1, s2), e, m, mem, fuel) ==
      if e.Start? then
        var v := Truth(c, m, mem);
        Exec(if v.truth then s1 else s2, Start, m, v.mem, fuel)
      else if InSecond(e, s1, s2) then Exec(s2, Past(e, s1), m, mem, fuel)
      else Exec(s1, e, m, mem, fuel)
  {
  }

  lemma ExecDo(s1: Stmt, c: Cond, e: Entry, m: Sem, mem: Mem, fuel: nat)
    ensures var o := Exec(s1, e, m, mem, fuel);
      Exec(DoWhile(s1, c), e, m, mem, fuel) ==
      if o.Normal? || o.Continued? then DoNext(s1, c, m, o.mem, fuel) else AfterBreak(o)
  {
  }

  // What a do does once its body has ended.
  function DoNext(s1: Stmt, c: Cond, m: Sem, mem: Mem, fuel: nat): Outcome {
    var v := Truth(c, m, mem);
    if !v.truth then Normal(v.mem)
    else if fuel == 0 then Unfinished
    else Exec(DoWhile(s1, c), Start, m, v.mem, fuel - 1)
  }

  lemma ExecSwitch(x: nat, s1: Stmt, e: Entry, m: Sem, mem: Mem, fuel: nat)
    ensures var v := m.val(x, mem);
      var entry := Chosen(s1, v.r0);
      Exec(Switch(x, s1), e, m, mem, fuel) ==
      if entry.Some? then AfterBreak(Exec(s1, entry.value, m, v.mem, fuel)) else Normal(v.mem)
  {
  }

  lemma ExecFrom(test: Option<Cond>, incr: Option<nat>, s: Stmt, e: Entry, m: Sem, mem: Mem, fuel: nat)
    ensures ExecLoop(test, incr, s, e, m, mem, fuel) ==
      if e.Start? && test.Some? then
        var v := Truth(test.value, m, mem);
        if v.truth then Around(test, incr, s, m, Exec(s, Start, m, v.mem, fuel), fuel) else Normal(v.mem)
      else Around(test, incr, s, m, Exec(s, e, m, mem, fuel), fuel)
  {
  }

  // What a loop does after its body has ended with o.
  function Around(test: Option<Cond>, incr: Option<nat>, s: Stmt, m: Sem, o: Outcome, fuel: nat): Outcome {
    if o.Normal? || o.Continued? then
      var mem1 := if incr.Some? then m.act(incr.value, o.mem).mem else o.mem;
      if fuel == 0 then Unfinished else ExecLoop(test, incr, s, Start, m, mem1, fuel - 1)
    else AfterBreak(o)
  }

  // Entries into two parts whose tables are put one after the other.
  lemma EntryOfPair(code: seq<Instr>, p: nat, p1: nat, p2: nat, f: Frag, f1: Frag, f2: Frag, e: Entry, s1: Stmt,
      s2: Stmt, s: Stmt)
    requires f.cases == f1.cases + f2.cases && f.def == Later(f1.def, f2.def)
    requires Matches(f1, s1) && Matches(f2, s2) && (s == Seq(s1, s2) || (s.IfElse? && s.s1 == s1 && s.s2 == s2))
    requires Enters(e, s) && !e.Start?
    ensures InSecond(e, s1, s2) ==>
        Enters(Past(e, s1), s2) && EntryPc(code, p, f, e) == EntryPc(code, p2, f2, Past(e, s1))
    ensures !InSecond(e, s1, s2) ==> Enters(e, s1) && EntryPc(code, p, f, e) == EntryPc(code, p1, f1, e)
    ensures !Past(e, s1).Start?
  {
  }

  // ---- the forms

  lemma {:induction false} Simulate(s: Stmt, e: Entry, x: Ctx, n: nat, code: seq<Instr>, p: nat, m: Sem, c: Conf,
      fuel: nat)
    returns (k: nat)
    requires Ready(s, e, x, n, code, p, c)
    ensures Right(s, e, x, n, code, p, m, c, fuel, k)
    decreases fuel, s, 2, 0
  {
    match s
    case Seq(s1, s2) => k := SimSeq(s1, s2, e, x, n, code, p, m, c, fuel);
    case If(d, s1) =>
      if SimpleJump(s1) { k := SimSimple(s, e, x, n, code, p, m, c, fuel); }
      else { k := SimIf(d, s1, e, x, n, code, p, m, c, fuel); }
    case IfElse(d, s1, s2) =>
      if SimpleJump(s1) { k := SimElseOnly(d, s1, s2, e, x, n, code, p, m, c, fuel); }
      else if s1.Return? { k := SimReturnElse(d, s1, s2, e, x, n, code, p, m, c, fuel); }
      else { k := SimBoth(d, s1, s2, e, x, n, code, p, m, c, fuel); }
    case While(d, s1) => k := SimWhile(d, s1, e, x, n, code, p, m, c, fuel);
    case DoWhile(s1, d) => k := SimDo(s1, d, e, x, n, code, p, m, c, fuel);
    case For(init, test, incr, s1) => k := SimFor(init, test, incr, s1, e, x, n, code, p, m, c, fuel);
    case Switch(v, s1) => k := SimSwitch(v, s1, e, x, n, code, p, m, c, fuel);
    case Case(v, s1) => k := SimLabelled(s, e, x, n, code, p, m, c, fuel);
    case Default(s1) => k := SimLabelled(s, e, x, n, code, p, m, c, fuel);
    case Skip => k := SimSimple(s, e, x, n, code, p, m, c, fuel);
    case Do(v) => k := SimSimple(s, e, x, n, code, p, m, c, fuel);
    case Break => k := SimSimple(s, e, x, n, code, p, m, c, fuel);
    case Continue => k := SimSimple(s, e, x, n, code, p, m, c, fuel);
    case Return(r) => k := SimSimple(s, e, x, n, code, p, m, c, fuel);
  }

  lemma SimSimple(s: Stmt, e: Entry, x: Ctx, n: nat, code: seq<Instr>, p: nat, m: Sem, c: Conf, fuel: nat)
    returns (k: nat)
    requires Ready(s, e, x, n, code, p, c)
    requires s.Skip? || s.Do? || s.Break? || s.Continue? || s.Return? || (s.If? && SimpleJump(s.s))
    ensures Right(s, e, x, n, code, p, m, c, fuel, k)
  {
    hide Find, Truth, Unique, Run;
    assert CaseVals(s) == [] && !HasDefault(s) by {
      if s.If? { assert CaseVals(s.s) == [] && !HasDefault(s.s); }
    }
    assert e == Start;
    RunOne(code, m, c);
    var f := Gen(s, x, n);
    k := |f.code|;
    if k > 0 { AtNth(code, p, f.code, 0); }
    if k > 1 { AtNth(code, p, f.code, 1); }
    if s.If? {
      ExecIf(s.c, s.s, e, m, c.mem, fuel);
      SimpleJumpLeaves(s.s, x, code, m, Truth(s.c, m, c.mem).mem, fuel);
    }
  }

  lemma {:induction false} SimSeq(s1: Stmt, s2: Stmt, e: Entry, x: Ctx, n: nat, code: seq<Instr>, p: nat, m: Sem,
      c: Conf, fuel: nat)
    returns (k: nat)
    requires Ready(Seq(s1, s2), e, x, n, code, p, c)
    ensures Right(Seq(s1, s2), e, x, n, code, p, m, c, fuel, k)
    decreases fuel, Seq(s1, s2), 1
  {
    hide At, Unique, Find, Run, Truth, Gen, Exec, CaseVals, HasDefault;
    GenSeq(s1, s2, x, n);
    var f1 := Gen(s1, x, n);
    var f2 := Gen(s2, x, f1.n);
    var f := Gen(Seq(s1, s2), x, n);
    var o := Exec(Seq(s1, s2), e, m, c.mem, fuel);
    var q := p + |f1.code|;
    ExecSeq(s1, s2, e, m, c.mem, fuel);
    TableMatches(s1, x, n);
    TableMatches(s2, x, f1.n);
    AtSplit(code, p, f1.code, f2.code);
    if !e.Start? { EntryOfPair(code, p, p, q, f, f1, f2, e, s1, s2, Seq(s1, s2)); }
    if InSecond(e, s1, s2) {
      k := Simulate(s2, Past(e, s1), x, f1.n, code, q, m, c, fuel);
    } else {
      k := Simulate(s1, e, x, n, code, p, m, c, fuel);
      if Exec(s1, e, m, c.mem, fuel).Normal? {
        var d := Run(code, m, c, k);
        var k2 := Simulate(s2, Start, x, f1.n, code, q, m, d, fuel);
        SimAfter(code, m, c, k, k2, x, q + |f2.code|, o, fuel);
        k := k + k2;
      }
    }
  }

  lemma {:induction false} SimIf(d: Cond, s1: Stmt, e: Entry, x: Ctx, n: nat, code: seq<Instr>, p: nat, m: Sem,
      c: Conf, fuel: nat)
    returns (k: nat)
    requires Ready(If(d, s1), e, x, n, code, p, c) && !SimpleJump(s1)
    ensures Right(If(d, s1), e, x, n, code, p, m, c, fuel, k)
    decreases fuel, If(d, s1), 1
  {
    hide At, Unique, Find, Run, Truth, Gen, Exec, CaseVals, HasDefault, Enters;
    GenIf(d, s1, x, n, e);
    var f := Gen(s1, x, n + 1);
    var o := Exec(If(d, s1), e, m, c.mem, fuel);
    var end := p + 1 + |f.code|;
    ExecIf(d, s1, e, m, c.mem, fuel);
    AtSplit(code, p, [CBr(d, n, false)] + f.code, [Label(n)]);
    AtSplit(code, p, [CBr(d, n, false)], f.code);
    assert code[p] == CBr(d, n, false) by { AtNth(code, p, [CBr(d, n, false)], 0); }
    assert code[end] == Label(n) by { AtNth(code, end, [Label(n)], 0); }
    FindAt(code, end);
    if e.Start? && !Truth(d, m, c.mem).truth {
      RunOne(code, m, c);
      k := 2;
    } else {
      var b := if e.Start? then Step(code, m, c) else c;
      k := Simulate(s1, e, x, n + 1, code, p + 1, m, b, fuel);
      k := Leave(code, m, b, k, x, end, o, fuel - Slack(e));
      if e.Start? {
        SimStep(code, m, c, k, x, end + 1, o, fuel);
        k := k + 1;
      }
    }
  }

  // Falling off a body onto a label takes one step more.
  lemma Leave(code: seq<Instr>, m: Sem, c: Conf, k: nat, x: Ctx, end: nat, o: Outcome, fuel: int) returns (k1: nat)
    requires Sim(code, m, c, k, x, end, o, fuel)
    requires end < |code| && code[end].Label?
    ensures Sim(code, m, c, k1, x, end + 1, o, fuel)
  {
    k1 := k;
    if o.Normal? {
      RunAdd(code, m, c, k, 1);
      k1 := k + 1;
    }
  }

  // Entering an if whose first part has no cases.
  lemma EntryOfElse(code: seq<Instr>, d: Cond, s1: Stmt, s2: Stmt, e: Entry, x: Ctx, n: nat)
    requires SimpleJump(s1) || s1.Return?
    ensures Past(e, s1) == e && (!e.Start? && Enters(e, IfElse(d, s1, s2)) ==> InSecond(e, s1, s2) && Enters(e, s2))
  {
    assert CaseVals(s1) == [] && !HasDefault(s1);
    assert CaseVals(IfElse(d, s1, s2)) == CaseVals(s2);
  }

  lemma {:induction false} SimElseOnly(d: Cond, s1: Stmt, s2: Stmt, e: Entry, x: Ctx, n: nat, code: seq<Instr>, p: nat,
      m: Sem, c: Conf, fuel: nat)
    returns (k: nat)
    requires Ready(IfElse(d, s1, s2), e, x, n, code, p, c) && SimpleJump(s1)
    ensures Right(IfElse(d, s1, s2), e, x, n, code, p, m, c, fuel, k)
    decreases fuel, IfElse(d, s1, s2), 0
  {
    hide At, Unique, Find, Truth, Gen, Exec, CaseVals, HasDefault;
    var f := Gen(s2, x, n);
    var br := CBr(d, JumpTarget(s1, x), true);
    GenElseOnly(d, s1, s2, x, n);
    var o := Exec(IfElse(d, s1, s2), e, m, c.mem, fuel);
    ExecIfElse(d, s1, s2, e, m, c.mem, fuel);
    EntryOfElse(code, d, s1, s2, e, x, n);
    AtSplit(code, p, [br], f.code);
    assert code[p] == br by { AtNth(code, p, [br], 0); }
    var b := if e.Start? then Step(code, m, c) else c;
    if e.Start? && Truth(d, m, c.mem).truth {
      RunOne(code, m, c);
      SimpleJumpLeaves(s1, x, code, m, b.mem, fuel);
      k := 1;
    } else {
      k := Simulate(s2, e, x, n, code, p + 1, m, b, fuel);
      if e.Start? {
        SimStep(code, m, c, k, x, p + 1 + |f.code|, o, fuel);
        k := k + 1;
      }
    }
  }

  // A body that only jumps leaves for the target of the jump.
  lemma SimpleJumpLeaves(s1: Stmt, x: Ctx, code: seq<Instr>, m: Sem, mem: Mem, fuel: nat)
    requires SimpleJump(s1)
    ensures forall d: Conf :: d.pc == Find(code, JumpTarget(s1, x)) && d.mem == mem ==>
      Ends(code, x, 0, Exec(s1, Start, m, mem, fuel), d)
    ensures !Exec(s1, Start, m, mem, fuel).Normal? && !Exec(s1, Start, m, mem, fuel).Unfinished?
  {
    hide Find;
  }

  lemma {:induction false} SimReturnElse(d: Cond, s1: Stmt, s2: Stmt, e: Entry, x: Ctx, n: nat, code: seq<Instr>,
      p: nat, m: Sem, c: Conf, fuel: nat)
    returns (k: nat)
    requires Ready(IfElse(d, s1, s2), e, x, n, code, p, c) && !SimpleJump(s1) && s1.Return?
    ensures Right(IfElse(d, s1, s2), e, x, n, code, p, m, c, fuel, k)
    decreases fuel, IfElse(d, s1, s2), 0
  {
    hide At, Unique, Find, Run, Truth, Gen, Exec, CaseVals, HasDefault;
    GenReturnElse(d, s1, s2, x, n);
    var f1 := Gen(s1, x, n + 1);
    var f2 := Gen(s2, x, f1.n);
    var mid := p + 1 + |f1.code|;
    var end := mid + 1 + |f2.code|;
    var o := Exec(IfElse(d, s1, s2), e, m, c.mem, fuel);
    ExecIfElse(d, s1, s2, e, m, c.mem, fuel);
    EntryOfElse(code, d, s1, s2, e, x, n);
    ReturnLeaves(s1, m, Truth(d, m, c.mem).mem, fuel);
    AtSplit(code, p, [CBr(d, n, false)] + f1.code + [Label(n)], f2.code);
    AtSplit(code, p, [CBr(d, n, false)] + f1.code, [Label(n)]);
    AtSplit(code, p, [CBr(d, n, false)], f1.code);
    assert code[p] == CBr(d, n, false) by { AtNth(code, p, [CBr(d, n, false)], 0); }
    assert code[mid] == Label(n) by { AtNth(code, mid, [Label(n)], 0); }
    FindAt(code, mid);
    if e.Start? {
      var b := Step(code, m, c);
      if Truth(d, m, c.mem).truth {
        k := Simulate(s1, Start, x, n + 1, code, p + 1, m, b, fuel);
      } else {
        var b2 := Step(code, m, b);
        k := Simulate(s2, Start, x, f1.n, code, mid + 1, m, b2, fuel);
        SimStep(code, m, b, k, x, end, o, fuel);
        k := k + 1;
      }
      SimStep(code, m, c, k, x, end, o, fuel);
      k := k + 1;
    } else {
      k := Simulate(s2, e, x, f1.n, code, mid + 1, m, c, fuel);
    }
  }

  lemma ReturnLeaves(s1: Stmt, m: Sem, mem: Mem, fuel: nat)
    requires s1.Return?
    ensures Exec(s1, Start, m, mem, fuel).Returned?
  {
  }

  // Where the pieces of an if with two bodies are.
  predicate BothAt(d: Cond, f1: Frag, f2: Frag, n: nat, code: seq<Instr>, p: nat) {
    var mid := p + 1 + |f1.code|;
    var end := mid + 2 + |f2.code|;
    && end < |code| && code[p] == CBr(d, n, false) && code[mid] == Jmp(f1.n) && code[mid + 1] == Label(n)
    && code[end] == Label(f1.n) && Find(code, n) == mid + 1 && Find(code, f1.n) == end
    && At(code, p + 1, f1.code) && At(code, mid + 2, f2.code)
  }

  lemma BothPlaced(d: Cond, f1: Frag, f2: Frag, n: nat, code: seq<Instr>, p: nat)
    requires Unique(code) && At(code, p, [CBr(d, n, false)] + f1.code + [Jmp(f1.n), Label(n)] + f2.code + [Label(f1.n)])
    ensures BothAt(d, f1, f2, n, code, p)
  {
    var mid := p + 1 + |f1.code|;
    var end := mid + 2 + |f2.code|;
    AtSplit(code, p, [CBr(d, n, false)] + f1.code + [Jmp(f1.n), Label(n)] + f2.code, [Label(f1.n)]);
    AtSplit(code, p, [CBr(d, n, false)] + f1.code + [Jmp(f1.n), Label(n)], f2.code);
    AtSplit(code, p, [CBr(d, n, false)] + f1.code, [Jmp(f1.n), Label(n)]);
    AtSplit(code, p, [CBr(d, n, false)], f1.code);
    assert code[p] == CBr(d, n, false) by { AtNth(code, p, [CBr(d, n, false)], 0); }
    assert code[mid] == Jmp(f1.n) by { AtNth(code, mid, [Jmp(f1.n), Label(n)], 0); }
    assert code[mid + 1] == Label(n) by { AtNth(code, mid, [Jmp(f1.n), Label(n)], 1); }
    assert code[end] == Label(f1.n) by { AtNth(code, end, [Label(f1.n)], 0); }
    FindAt(code, mid + 1);
    FindAt(code, end);
  }

  lemma {:induction false} SimBoth(d: Cond, s1: Stmt, s2: Stmt, e: Entry, x: Ctx, n: nat, code: seq<Instr>, p: nat,
      m: Sem, c: Conf, fuel: nat)
    returns (k: nat)
    requires Ready(IfElse(d, s1, s2), e, x, n, code, p, c) && !SimpleJump(s1) && !s1.Return?
    ensures Right(IfElse(d, s1, s2), e, x, n, code, p, m, c, fuel, k)
    decreases fuel, IfElse(d, s1, s2), 0
  {
    hide At, Unique, Find, Run, Truth, Gen, Exec, CaseVals, HasDefault;
    GenBoth(d, s1, s2, x, n);
    var f1 := Gen(s1, x, n + 1);
    var f2 := Gen(s2, x, f1.n + 1);
    var f := Gen(IfElse(d, s1, s2), x, n);
    var mid := p + 1 + |f1.code|;
    var end := mid + 2 + |f2.code|;
    var o := Exec(IfElse(d, s1, s2), e, m, c.mem, fuel);
    ExecIfElse(d, s1, s2, e, m, c.mem, fuel);
    TableMatches(s1, x, n + 1);
    TableMatches(s2, x, f1.n + 1);
    BothPlaced(d, f1, f2, n, code, p);
    if !e.Start? { EntryOfPair(code, p, p + 1, mid + 2, f, f1, f2, e, s1, s2, IfElse(d, s1, s2)); }
    var b := if e.Start? then Step(code, m, c) else c;
    if if e.Start? then !Truth(d, m, c.mem).truth else InSecond(e, s1, s2) {
      var b2 := if e.Start? then Step(code, m, b) else b;
      k := Simulate(s2, Past(e, s1), x, f1.n + 1, code, mid + 2, m, b2, fuel);
      k := Leave(code, m, b2, k, x, end, o, fuel - Slack(e));
      if e.Start? {
        SimStep(code, m, b, k, x, end + 1, o, fuel);
        k := k + 1;
      }
    } else {
      k := Simulate(s1, e, x, n + 1, code, p + 1, m, b, fuel);
      k := LeaveBy(code, m, b, k, x, mid, end, o, fuel - Slack(e));
    }
    if e.Start? {
      SimStep(code, m, c, k, x, end + 1, o, fuel);
      k := k + 1;
    }
  }

  // Falling off a body onto a jump to a label takes two.
  lemma LeaveBy(code: seq<Instr>, m: Sem, c: Conf, k: nat, x: Ctx, mid: nat, end: nat, o: Outcome,
      fuel: int) returns (k1: nat)
    requires Sim(code, m, c, k, x, mid, o, fuel)
    requires mid < |code| && end < |code| && code[mid].Jmp? && Find(code, code[mid].l) == end && code[end].Label?
    ensures Sim(code, m, c, k1, x, end + 1, o, fuel)
  {
    hide Find, Run;
    k1 := k;
    if o.Normal? {
      RunOne(code, m, Run(code, m, c, k));
      RunAdd(code, m, c, k, 2);
      k1 := k + 2;
    }
  }

  lemma {:induction false} SimLabelled(s: Stmt, e: Entry, x: Ctx, n: nat, code: seq<Instr>, p: nat, m: Sem, c: Conf,
      fuel: nat)
    returns (k: nat)
    requires Ready(s, e, x, n, code, p, c) && (s.Case? || s.Default?)
    ensures Right(s, e, x, n, code, p, m, c, fuel, k)
    decreases fuel, s, 1
  {
    hide At, Unique, Find, Run, Truth, Gen, Exec, CaseVals, HasDefault, Enters, EntryPc, Inner;
    var s1 := s.s;
    var f := Gen(s1, x, n + 1);
    TableMatches(s1, x, n + 1);
    Labelled(s, e, x, n, code, p, m, c.mem, fuel);
    AtSplit(code, p, [Label(n)], f.code);
    assert code[p] == Label(n) by { AtNth(code, p, [Label(n)], 0); }
    FindAt(code, p);
    var o := Exec(s, e, m, c.mem, fuel);
    StartEnters(s1, code, p + 1, f);
    if Inner(s, e).Start? {
      k := Simulate(s1, Start, x, n + 1, code, p + 1, m, Step(code, m, c), fuel);
      SimStep(code, m, c, k, x, p + 1 + |f.code|, o, fuel);
      k := k + 1;
    } else {
      assert !e.Start? by { InnerOfStart(s); }
      k := Simulate(s1, Inner(s, e), x, n + 1, code, p + 1, m, c, fuel);
    }
  }

  lemma InnerOfStart(s: Stmt)
    requires s.Case? || s.Default?
    ensures Inner(s, Start) == Start
  {
  }

  // Where the pieces of a switch are.
  predicate SwitchAt(v: nat, f: Frag, n: nat, code: seq<Instr>, p: nat) {
    var t := p + 2 + |f.code|;
    && t + 3 < |code| && code[p] == Val(v) && code[p + 1] == Jmp(n + 1)
    && code[t] == Jmp(n) && code[t + 1] == Label(n + 1) && code[t + 2] == Swit(Later(n, f.def), f.cases) &&
        code[t + 3] == Label(n)
    && Find(code, n + 1) == t + 1 && Find(code, n) == t + 3
    && At(code, p + 2, f.code)
  }

  lemma SwitchPlaced(v: nat, f: Frag, n: nat, code: seq<Instr>, p: nat)
    requires Unique(code)
    requires At(code, p, [Val(v), Jmp(n + 1)] + f.code + [Jmp(n), Label(n + 1), Swit(Later(n, f.def), f.cases),
        Label(n)])
    ensures SwitchAt(v, f, n, code, p)
  {
    var tail := [Jmp(n), Label(n + 1), Swit(Later(n, f.def), f.cases), Label(n)];
    var t := p + 2 + |f.code|;
    AtSplit(code, p, [Val(v), Jmp(n + 1)] + f.code, tail);
    AtSplit(code, p, [Val(v), Jmp(n + 1)], f.code);
    assert code[p] == Val(v) by { AtNth(code, p, [Val(v), Jmp(n + 1)], 0); }
    assert code[p + 1] == Jmp(n + 1) by { AtNth(code, p, [Val(v), Jmp(n + 1)], 1); }
    assert code[t] == Jmp(n) by { AtNth(code, t, tail, 0); }
    assert code[t + 1] == Label(n + 1) by { AtNth(code, t, tail, 1); }
    assert code[t + 2] == tail[2] by { AtNth(code, t, tail, 2); }
    assert code[t + 3] == Label(n) by { AtNth(code, t, tail, 3); }
    FindAt(code, t + 1);
    FindAt(code, t + 3);
  }

  // From the head of a switch to the case, the default or the end.
  lemma Dispatch(v: nat, s1: Stmt, f: Frag, n: nat, code: seq<Instr>, p: nat, m: Sem, c: Conf)
    requires SwitchAt(v, f, n, code, p) && Matches(f, s1) && c.pc == p && n > 0
    ensures var w := m.val(v, c.mem);
      var entry := Chosen(s1, w.r0);
      && Run(code, m, c, 4).mem == w.mem
      && Run(code, m, c, 4).pc == (if entry.Some? then EntryPc(code, p + 2, f, entry.value) else p + 5 + |f.code|)
      && (entry.Some? ==> Enters(entry.value, s1) && !entry.value.Start?)
  {
    hide At, Find, CaseVals, HasDefault, Index, Pick;
    var w := m.val(v, c.mem);
    var t := p + 2 + |f.code|;
    PickIndex(f.cases, CaseVals(s1), Later(n, f.def), w.r0);
    assert Step(code, m, c) == Conf(p + 1, w.r0, w.mem);
    assert Step(code, m, Conf(p + 1, w.r0, w.mem)) == Conf(t + 1, w.r0, w.mem);
    RunOne(code, m, c);
    RunOne(code, m, Conf(t + 1, w.r0, w.mem));
    RunAdd(code, m, c, 2, 2);
  }

  lemma {:induction false} SimSwitch(v: nat, s1: Stmt, e: Entry, x: Ctx, n: nat, code: seq<Instr>, p: nat, m: Sem,
      c: Conf, fuel: nat)
    returns (k: nat)
    requires Ready(Switch(v, s1), e, x, n, code, p, c)
    ensures Right(Switch(v, s1), e, x, n, code, p, m, c, fuel, k)
    decreases fuel, Switch(v, s1), 1
  {
    hide At, Unique, Find, Run, Truth, Gen, Exec, CaseVals, HasDefault, Enters, Index, EntryPc, Chosen;
    var x1 := x.(brk := n);
    var f := Gen(s1, x1, n + 2);
    var t := p + 2 + |f.code|;
    var code1 := [Val(v), Jmp(n + 1)] + f.code + [Jmp(n), Label(n + 1), Swit(Later(n, f.def), f.cases), Label(n)];
    GenSwitch(v, s1, x, n, e);
    var o := Exec(Switch(v, s1), e, m, c.mem, fuel);
    ExecSwitch(v, s1, e, m, c.mem, fuel);
    StartEnters(s1, code, p, Frag(code1, f.n, [], 0));
    TableMatches(s1, x1, n + 2);
    SwitchPlaced(v, f, n, code, p);
    Dispatch(v, s1, f, n, code, p, m, c);
    var w := m.val(v, c.mem);
    var entry := Chosen(s1, w.r0);
    var c4 := Run(code, m, c, 4);
    var k1: nat;
    if entry.None? {
      RunOne(code, m, c4);
      k1 := 1;
    } else {
      k1 := Simulate(s1, entry.value, x1, n + 2, code, p + 2, m, c4, fuel);
      k1 := LeaveSwitch(code, m, c4, k1, x, n, t, Exec(s1, entry.value, m, w.mem, fuel), fuel - 1);
    }
    SimAfter(code, m, c, 4, k1, x, t + 4, o, fuel - 1);
    k := 4 + k1;
  }

  // Falling off the body or breaking out of it comes to the label behind the switch.
  lemma LeaveSwitch(code: seq<Instr>, m: Sem, c: Conf, k: nat, x: Ctx, n: nat, t: nat, o: Outcome,
      fuel: int) returns (k1: nat)
    requires Sim(code, m, c, k, x.(brk := n), t, o, fuel)
    requires t + 3 < |code| && code[t] == Jmp(n) && Find(code, n) == t + 3 && code[t + 3].Label?
    ensures Sim(code, m, c, k1, x, t + 4, AfterBreak(o), fuel)
  {
    hide Find, Run;
    k1 := k;
    RunOne(code, m, Run(code, m, c, k));
    if o.Normal? {
      RunAdd(code, m, c, k, 2);
      k1 := k + 2;
    } else if o.Broke? {
      RunAdd(code, m, c, k, 1);
      k1 := k + 1;
    }
  }

  // Where the pieces of a do are.
  predicate DoAt(d: Cond, f: Frag, n: nat, code: seq<Instr>, p: nat) {
    var t := p + 1 + |f.code|;
    && t + 2 < |code| && code[p] == Label(n + 2)
    && code[t] == Label(n) && code[t + 1] == CBr(d, n + 2, true) && code[t + 2] == Label(n + 1)
    && Find(code, n + 2) == p && Find(code, n) == t && Find(code, n + 1) == t + 2
    && At(code, p + 1, f.code)
  }

  lemma DoPlaced(d: Cond, f: Frag, n: nat, code: seq<Instr>, p: nat)
    requires Unique(code)
    requires At(code, p, [Label(n + 2)] + f.code + [Label(n), CBr(d, n + 2, true), Label(n + 1)])
    ensures DoAt(d, f, n, code, p)
  {
    var tail := [Label(n), CBr(d, n + 2, true), Label(n + 1)];
    var t := p + 1 + |f.code|;
    AtSplit(code, p, [Label(n + 2)] + f.code, tail);
    AtSplit(code, p, [Label(n + 2)], f.code);
    assert code[p] == Label(n + 2) by { AtNth(code, p, [Label(n + 2)], 0); }
    assert code[t] == Label(n) by { AtNth(code, t, tail, 0); }
    assert code[t + 1] == CBr(d, n + 2, true) by { AtNth(code, t, tail, 1); }
    assert code[t + 2] == Label(n + 1) by { AtNth(code, t, tail, 2); }
    FindAt(code, p);
    FindAt(code, t);
    FindAt(code, t + 2);
  }

  // A body that ends or continues comes to its end or to where continue goes.
  lemma BodyEnds(code: seq<Instr>, m: Sem, c: Conf, k: nat, x: Ctx, end: nat, o: Outcome, fuel: int)
    requires Sim(code, m, c, k, x, end, o, fuel) && (o.Normal? || o.Continued?)
    ensures Run(code, m, c, k).pc == (if o.Normal? then end else Find(code, x.cont))
    ensures Run(code, m, c, k).mem == o.mem
  {
  }

  // Breaking out of the body comes to the label behind the loop.
  lemma LeaveLoop(code: seq<Instr>, m: Sem, c: Conf, k: nat, x1: Ctx, x: Ctx, t: nat, end: nat, o: Outcome,
      fuel: int) returns (k1: nat)
    requires Sim(code, m, c, k, x1, t, o, fuel) && !o.Normal? && !o.Continued? && x1.ret == x.ret
    requires 0 < end <= |code| && code[end - 1].Label? && Find(code, x1.brk) == end - 1
    ensures Sim(code, m, c, k1, x, end, AfterBreak(o), fuel)
  {
    hide Find, Run;
    k1 := k;
    RunOne(code, m, Run(code, m, c, k));
    if o.Broke? {
      RunAdd(code, m, c, k, 1);
      k1 := k + 1;
    }
  }

  // The test at the end of a do.
  lemma DoTest(d: Cond, f: Frag, n: nat, code: seq<Instr>, p: nat, m: Sem, c: Conf, x: Ctx) returns (k: nat)
    requires DoAt(d, f, n, code, p) && c.pc == p + 1 + |f.code|
    ensures var v := Truth(d, m, c.mem);
      if v.truth then Run(code, m, c, k).pc == p && Run(code, m, c, k).mem == v.mem
      else Sim(code, m, c, k, x, p + 4 + |f.code|, Normal(v.mem), 0)
  {
    hide Find, Run, Truth, At;
    RunOne(code, m, c);
    k := 2;
    if !Truth(d, m, c.mem).truth {
      RunOne(code, m, Run(code, m, c, 2));
      RunAdd(code, m, c, 2, 1);
      k := 3;
    }
  }

  lemma {:induction false} SimDo(s1: Stmt, d: Cond, e: Entry, x: Ctx, n: nat, code: seq<Instr>, p: nat, m: Sem,
      c: Conf, fuel: nat)
    returns (k: nat)
    requires Ready(DoWhile(s1, d), e, x, n, code, p, c)
    ensures Right(DoWhile(s1, d), e, x, n, code, p, m, c, fuel, k)
    decreases fuel, DoWhile(s1, d), 1
  {
    hide At, Unique, Find, Run, Truth, Gen, Exec, CaseVals, HasDefault, Enters, DoAt, Sim;
    GenDo(s1, d, x, n, e);
    var f := Gen(s1, x.(cont := n, brk := n + 1), n + 3);
    var end := p + 4 + |f.code|;
    DoPlaced(d, f, n, code, p);
    var o := Exec(DoWhile(s1, d), e, m, c.mem, fuel);
    DoStart(d, f, n, code, p, m, c);
    var b := if e.Start? then Step(code, m, c) else c;
    k := SimDoBody(s1, d, e, x, n, code, p, m, b, fuel);
    if e.Start? {
      SimStep(code, m, c, k, x, end, o, fuel - 1);
      k := k + 1;
    }
  }

  lemma DoStart(d: Cond, f: Frag, n: nat, code: seq<Instr>, p: nat, m: Sem, c: Conf)
    requires DoAt(d, f, n, code, p)
    ensures c.pc == p ==> Step(code, m, c) == c.(pc := p + 1)
  {
  }

  // The body of a do, and what follows it.
  lemma {:induction false} SimDoBody(s1: Stmt, d: Cond, e: Entry, x: Ctx, n: nat, code: seq<Instr>, p: nat, m: Sem,
      b: Conf, fuel: nat)
    returns (k: nat)
    requires Unique(code) && n > 0 && Enters(e, s1) && At(code, p, Gen(DoWhile(s1, d), x, n).code)
    requires DoAt(d, Gen(s1, x.(cont := n, brk := n + 1), n + 3), n, code, p)
    requires b.pc == EntryPc(code, p + 1, Gen(s1, x.(cont := n, brk := n + 1), n + 3), e)
    ensures Sim(code, m, b, k, x, p + 4 + |Gen(s1, x.(cont := n, brk := n + 1), n + 3).code|,
      Exec(DoWhile(s1, d), e, m, b.mem, fuel), fuel - 1)
    decreases fuel, DoWhile(s1, d), 0, 1
  {
    hide At, Unique, Find, Run, Truth, Gen, Exec, CaseVals, HasDefault, Enters, Sim, EntryPc, DoAt, Step, DoNext,
        AfterBreak;
    var x1 := x.(cont := n, brk := n + 1);
    var f := Gen(s1, x1, n + 3);
    var t := p + 1 + |f.code|;
    assert At(code, p + 1, f.code) && t + 2 < |code| && code[t + 2].Label? && Find(code, n + 1) == t + 2 &&
        Find(code, n) == t by {
      DoParts(d, f, n, code, p);
    }
    ExecDo(s1, d, e, m, b.mem, fuel);
    var o := Exec(DoWhile(s1, d), e, m, b.mem, fuel);
    var o1 := Exec(s1, e, m, b.mem, fuel);
    k := Simulate(s1, e, x1, n + 3, code, p + 1, m, b, fuel);
    if o1.Normal? || o1.Continued? {
      BodyEnds(code, m, b, k, x1, t, o1, fuel - Slack(e));
      var k1 := SimDoRest(s1, d, x, n, code, p, m, Run(code, m, b, k), fuel);
      SimAfter(code, m, b, k, k1, x, t + 3, o, fuel - 1);
      SimFuel(code, m, b, k + k1, x, t + 3, o, fuel - 1 + k, fuel - 1);
      k := k + k1;
    } else {
      SimFuel(code, m, b, k, x1, t, o1, fuel - Slack(e), fuel - 1);
      k := LeaveLoop(code, m, b, k, x1, x, t, t + 3, o1, fuel - 1);
    }
  }

  lemma DoParts(d: Cond, f: Frag, n: nat, code: seq<Instr>, p: nat)
    requires DoAt(d, f, n, code, p)
    ensures var t := p + 1 + |f.code|;
      At(code, p + 1, f.code) && p < t + 2 < |code| && code[t + 2].Label? && Find(code, n + 1) == t + 2 &&
          Find(code, n) == t
  {
    hide Find, At;
  }

  // The test of a do and its next rounds.
  lemma {:induction false} SimDoRest(s1: Stmt, d: Cond, x: Ctx, n: nat, code: seq<Instr>, p: nat, m: Sem, c: Conf,
      fuel: nat)
    returns (k: nat)
    requires Unique(code) && n > 0 && At(code, p, Gen(DoWhile(s1, d), x, n).code)
    requires DoAt(d, Gen(s1, x.(cont := n, brk := n + 1), n + 3), n, code, p)
    requires c.pc == p + 1 + |Gen(s1, x.(cont := n, brk := n + 1), n + 3).code|
    ensures
      Sim(code, m, c, k, x, p + 4 + |Gen(s1, x.(cont := n, brk := n + 1), n + 3).code|, DoNext(s1, d, m, c.mem, fuel),
          fuel - 1)
    decreases fuel, DoWhile(s1, d), 0, 0
  {
    hide At, Unique, Find, Run, Truth, Gen, Exec, CaseVals, HasDefault, Enters, Sim, EntryPc, DoAt, Step;
    var f := Gen(s1, x.(cont := n, brk := n + 1), n + 3);
    var end := p + 4 + |f.code|;
    var v := Truth(d, m, c.mem);
    assert p + |Gen(DoWhile(s1, d), x, n).code| == end by { DoLength(s1, d, x, n); }
    k := DoTest(d, f, n, code, p, m, c, x);
    if !v.truth {
      SimFuel(code, m, c, k, x, end, Normal(v.mem), 0, fuel - 1);
    } else if fuel == 0 {
      DoParts(d, f, n, code, p);
      OutOfFuel(code, m, c, k, x, end);
      SimFuel(code, m, c, k, x, end, Unfinished, 0, fuel - 1);
    } else {
      StartEnters(DoWhile(s1, d), code, p, Gen(DoWhile(s1, d), x, n));
      var c1 := Run(code, m, c, k);
      var k2 := SimDo(s1, d, Start, x, n, code, p, m, c1, fuel - 1);
      SimAfter(code, m, c, k, k2, x, end, Exec(DoWhile(s1, d), Start, m, v.mem, fuel - 1), fuel - 1);
      SimFuel(code, m, c, k + k2, x, end, Exec(DoWhile(s1, d), Start, m, v.mem, fuel - 1), fuel - 1 + k, fuel - 1);
      k := k + k2;
    }
  }

  lemma DoLength(s1: Stmt, d: Cond, x: Ctx, n: nat)
    ensures |Gen(DoWhile(s1, d), x, n).code| == |Gen(s1, x.(cont := n, brk := n + 1), n + 3).code| + 4
  {
  }

  // The fuel bound can be lowered, and says nothing of a statement that ends.
  lemma SimFuel(code: seq<Instr>, m: Sem, c: Conf, k: nat, x: Ctx, end: nat, o: Outcome, fuel: int, fuel1: int)
    requires Sim(code, m, c, k, x, end, o, fuel) && (o.Unfinished? ==> fuel1 <= fuel)
    ensures Sim(code, m, c, k, x, end, o, fuel1)
  {
  }

  lemma OutOfFuel(code: seq<Instr>, m: Sem, c: Conf, k: nat, x: Ctx, end: nat)
    requires Run(code, m, c, k).pc < |code|
    ensures Sim(code, m, c, k, x, end, Unfinished, 0)
  {
  }

  lemma StartEnters(s: Stmt, code: seq<Instr>, p: nat, f: Frag)
    ensures Enters(Start, s) && EntryPc(code, p, f, Start) == p
  {
  }

  // ---- for and while

  lemma {:induction false} SimWhile(d: Cond, s1: Stmt, e: Entry, x: Ctx, n: nat, code: seq<Instr>, p: nat, m: Sem,
      c: Conf, fuel: nat)
    returns (k: nat)
    requires Ready(While(d, s1), e, x, n, code, p, c)
    ensures Right(While(d, s1), e, x, n, code, p, m, c, fuel, k)
    decreases fuel, While(d, s1), 1
  {
    hide At, Unique, Find, Run, Truth, Gen, GenLoop, Exec, ExecLoop, CaseVals, HasDefault, Enters;
    LoopForms(d, None, None, None, s1, x, n, e);
    ExecLoopForms(d, None, None, None, s1, e, m, c.mem, fuel);
    k := SimLoop(Some(d), None, s1, e, x, n, code, p, m, c, fuel);
  }

  lemma {:induction false} SimFor(init: Option<nat>, test: Option<Cond>, incr: Option<nat>, s1: Stmt, e: Entry, x: Ctx,
      n: nat, code: seq<Instr>, p: nat, m: Sem, c: Conf, fuel: nat)
    returns (k: nat)
    requires Ready(For(init, test, incr, s1), e, x, n, code, p, c)
    ensures Right(For(init, test, incr, s1), e, x, n, code, p, m, c, fuel, k)
    decreases fuel, For(init, test, incr, s1), 1
  {
    hide At, Unique, Find, Run, Truth, Gen, GenLoop, Exec, ExecLoop, CaseVals, HasDefault, Enters;
    var f := GenLoop(test, incr, s1, x, n);
    var o := Exec(For(init, test, incr, s1), e, m, c.mem, fuel);
    LoopForms(Leaf(0), init, test, incr, s1, x, n, e);
    ExecLoopForms(Leaf(0), init, test, incr, s1, e, m, c.mem, fuel);
    if init.Some? {
      AtSplit(code, p, [Act(init.value)], f.code);
      assert code[p] == Act(init.value) by { AtNth(code, p, [Act(init.value)], 0); }
      var b := if e.Start? then Step(code, m, c) else c;
      k := SimLoop(test, incr, s1, e, x, n, code, p + 1, m, b, fuel);
      if e.Start? {
        SimStep(code, m, c, k, x, p + 1 + |f.code|, o, fuel);
        k := k + 1;
      }
    } else {
      k := SimLoop(test, incr, s1, e, x, n, code, p, m, c, fuel);
    }
  }

  // The pieces of a loop: the context and first label of its body, and what follows the body.
  function BodyCtx(incr: Option<nat>, x: Ctx, n: nat): Ctx {
    x.(cont := if incr.None? then n else n + 2, brk := n + 1)
  }
  function BodyIsn(incr: Option<nat>, n: nat): nat { if incr.None? then n + 2 else n + 3 }
  lemma BodyCtxIs(incr: Option<nat>, x: Ctx, n: nat)
    requires n > 0
    ensures BodyCtx(incr, x, n).ret == x.ret && BodyCtx(incr, x, n).brk == n + 1 && BodyIsn(incr, n) > 0
  {
  }
  function LoopTail(incr: Option<nat>, n: nat): seq<Instr> {
    (if incr.None? then [] else [Label(n + 2), Act(incr.value)]) + [Jmp(n), Label(n + 1)]
  }

  lemma LoopShape(test: Option<Cond>, incr: Option<nat>, s: Stmt, x: Ctx, n: nat)
    ensures var f := Gen(s, BodyCtx(incr, x, n), BodyIsn(incr, n));
      GenLoop(test, incr, s, x, n) == f.(code := [Label(n)] + LoopTest(test, n) + f.code + LoopTail(incr, n))
  {
    if incr.Some? {
      assert LoopTail(incr, n) == [Label(n + 2), Act(incr.value), Jmp(n), Label(n + 1)];
    } else {
      assert LoopTail(incr, n) == [Jmp(n), Label(n + 1)];
    }
  }

  // From the end of the body, or from where continue goes, back to the top.
  lemma LoopBack(incr: Option<nat>, n: nat, code: seq<Instr>, p: nat, t: nat, m: Sem, c: Conf) returns (k: nat)
    requires At(code, t, LoopTail(incr, n)) && Unique(code) && p < |code| && code[p] == Label(n)
    requires c.pc == t || c.pc == Find(code, BodyCtx(incr, Ctx(0, 0, 0), n).cont)
    ensures Run(code, m, c, k).pc == p
    ensures Run(code, m, c, k).mem == if incr.Some? then m.act(incr.value, c.mem).mem else c.mem
  {
    FindAt(code, p);
    AtNth(code, t, LoopTail(incr, n), 0);
    if incr.None? {
      k := if c.pc == p then 0 else 1;
    } else {
      AtNth(code, t, LoopTail(incr, n), 1);
      AtNth(code, t, LoopTail(incr, n), 2);
      FindAt(code, t);
      var v := m.act(incr.value, c.mem);
      assert Step(code, m, c) == Conf(t + 1, c.r0, c.mem);
      assert Step(code, m, Conf(t + 1, c.r0, c.mem)) == Conf(t + 2, v.r0, v.mem);
      assert Run(code, m, Conf(t + 2, v.r0, v.mem), 1) == Conf(p, v.r0, v.mem);
      k := 3;
    }
  }

  // Where the pieces of a loop are; q is where its body starts.
  predicate LoopAt(test: Option<Cond>, incr: Option<nat>, f: Frag, n: nat, code: seq<Instr>, p: nat, q: nat) {
    var end := q + |f.code| + |LoopTail(incr, n)|;
    && q == p + 1 + |LoopTest(test, n)| && end <= |code|
    && code[p] == Label(n) && (test.Some? ==> code[p + 1] == CBr(test.value, n + 1, false))
    && At(code, q, f.code) && At(code, q + |f.code|, LoopTail(incr, n))
    && code[end - 1] == Label(n + 1) && Find(code, n + 1) == end - 1
  }

  lemma LoopPlaced(test: Option<Cond>, incr: Option<nat>, f: Frag, n: nat, code: seq<Instr>, p: nat, q: nat)
    requires Unique(code) && q == p + 1 + |LoopTest(test, n)|
    requires At(code, p, [Label(n)] + LoopTest(test, n) + f.code + LoopTail(incr, n))
    ensures LoopAt(test, incr, f, n, code, p, q)
  {
    var tail := LoopTail(incr, n);
    var t := q + |f.code|;
    AtSplit(code, p, [Label(n)] + LoopTest(test, n) + f.code, tail);
    AtSplit(code, p, [Label(n)] + LoopTest(test, n), f.code);
    AtSplit(code, p, [Label(n)], LoopTest(test, n));
    assert code[p] == Label(n) by { AtNth(code, p, [Label(n)], 0); }
    if test.Some? { AtNth(code, p + 1, LoopTest(test, n), 0); }
    assert code[t + |tail| - 1] == Label(n + 1) by { AtNth(code, t, tail, |tail| - 1); }
    FindAt(code, t + |tail| - 1);
  }

  lemma {:induction false} SimLoop(test: Option<Cond>, incr: Option<nat>, s: Stmt, e: Entry, x: Ctx, n: nat,
      code: seq<Instr>, p: nat, m: Sem, c: Conf, fuel: nat)
    returns (k: nat)
    requires Unique(code) && n > 0 && Enters(e, s)
    requires At(code, p, GenLoop(test, incr, s, x, n).code)
    requires c.pc == EntryPc(code, p, GenLoop(test, incr, s, x, n), e)
    ensures Sim(code, m, c, k, x, p + |GenLoop(test, incr, s, x, n).code|, ExecLoop(test, incr, s, e, m, c.mem, fuel),
        fuel - Slack(e))
    decreases fuel, s, 3, 0
  {
    hide At, Unique, Find, Run, Truth, Gen, GenLoop, Exec, ExecLoop, CaseVals, HasDefault, Enters, Around, BodyCtx,
        BodyIsn, LoopTail;
    LoopShape(test, incr, s, x, n);
    ExecFrom(test, incr, s, e, m, c.mem, fuel);
    var f := Gen(s, BodyCtx(incr, x, n), BodyIsn(incr, n));
    var q := p + 1 + |LoopTest(test, n)|;
    var end := q + |f.code| + |LoopTail(incr, n)|;
    LoopPlaced(test, incr, f, n, code, p, q);
    var o := ExecLoop(test, incr, s, e, m, c.mem, fuel);
    var b := if e.Start? then Step(code, m, c) else c;
    if e.Start? && test.Some? {
      var v := Truth(test.value, m, c.mem);
      var b1 := Step(code, m, b);
      if v.truth {
        k := SimIteration(test, incr, s, Start, x, n, code, p, q, m, b1, fuel);
      } else {
        RunOne(code, m, b1);
        k := 1;
      }
      SimStep(code, m, b, k, x, end, o, fuel - 1);
      k := k + 1;
    } else {
      k := SimIteration(test, incr, s, e, x, n, code, p, q, m, b, fuel);
    }
    if e.Start? {
      SimStep(code, m, c, k, x, end, o, fuel - 1);
      k := k + 1;
    }
  }

  // The body once, then all the rest of the loop.
  lemma {:induction false} SimIteration(test: Option<Cond>, incr: Option<nat>, s: Stmt, e: Entry, x: Ctx, n: nat,
      code: seq<Instr>, p: nat, q: nat, m: Sem, b: Conf, fuel: nat)
    returns (k: nat)
    requires Unique(code) && n > 0 && Enters(e, s)
    requires At(code, p, GenLoop(test, incr, s, x, n).code)
    requires LoopAt(test, incr, Gen(s, BodyCtx(incr, x, n), BodyIsn(incr, n)), n, code, p, q)
    requires p + |GenLoop(test, incr, s, x, n).code| == q + |Gen(s, BodyCtx(incr, x, n), BodyIsn(incr, n)).code| +
        |LoopTail(incr, n)|
    requires b.pc == EntryPc(code, q, Gen(s, BodyCtx(incr, x, n), BodyIsn(incr, n)), e)
    ensures
      var end := q + |Gen(s, BodyCtx(incr, x, n), BodyIsn(incr, n)).code| + |LoopTail(incr, n)|;
      Sim(code, m, b, k, x, end, Around(test, incr, s, m, Exec(s, e, m, b.mem, fuel), fuel), fuel - 1)
    decreases fuel, s, 2, 1
  {
    hide At, Unique, Find, Run, Truth, Gen, GenLoop, Exec, ExecLoop, CaseVals, HasDefault, Enters, BodyCtx, BodyIsn,
        LoopTail, Sim, EntryPc, LoopAt, Step, LoopTest, Around, AfterBreak;
    var x1 := BodyCtx(incr, x, n);
    BodyCtxIs(incr, x, n);
    var f := Gen(s, x1, BodyIsn(incr, n));
    var t := q + |f.code|;
    var end := t + |LoopTail(incr, n)|;
    assert At(code, q, f.code) && 0 < end <= |code| && code[end - 1].Label? && Find(code, n + 1) == end - 1 by {
      LoopParts(test, incr, f, n, code, p, q);
    }
    var o1 := Exec(s, e, m, b.mem, fuel);
    AroundIs(test, incr, s, m, o1, fuel);
    k := Simulate(s, e, x1, BodyIsn(incr, n), code, q, m, b, fuel);
    if o1.Normal? || o1.Continued? {
      BodyEnds(code, m, b, k, x1, t, o1, fuel - Slack(e));
      var k1 := SimLoopRest(test, incr, s, x, n, code, p, q, m, Run(code, m, b, k), fuel);
      SimAfter(code, m, b, k, k1, x, end, Around(test, incr, s, m, o1, fuel), fuel - 1);
      SimFuel(code, m, b, k + k1, x, end, Around(test, incr, s, m, o1, fuel), fuel - 1 + k, fuel - 1);
      k := k + k1;
    } else {
      SimFuel(code, m, b, k, x1, t, o1, fuel - Slack(e), fuel - 1);
      k := LeaveLoop(code, m, b, k, x1, x, t, end, o1, fuel - 1);
    }
  }

  lemma LoopParts(test: Option<Cond>, incr: Option<nat>, f: Frag, n: nat, code: seq<Instr>, p: nat, q: nat)
    requires LoopAt(test, incr, f, n, code, p, q)
    ensures At(code, q, f.code) && var end := q + |f.code| + |LoopTail(incr, n)|;
      0 < end <= |code| && code[end - 1].Label? && Find(code, n + 1) == end - 1
  {
    hide Find, At;
  }

  lemma AroundIs(test: Option<Cond>, incr: Option<nat>, s: Stmt, m: Sem, o: Outcome, fuel: nat)
    ensures Around(test, incr, s, m, o, fuel) ==
      if o.Normal? || o.Continued? then Around(test, incr, s, m, Normal(o.mem), fuel) else AfterBreak(o)
  {
  }

  lemma LoopBackAt(test: Option<Cond>, incr: Option<nat>, f: Frag, n: nat, code: seq<Instr>, p: nat, q: nat, x: Ctx,
      m: Sem, c: Conf) returns (k: nat)
    requires Unique(code) && LoopAt(test, incr, f, n, code, p, q)
    requires c.pc == q + |f.code| || c.pc == Find(code, BodyCtx(incr, x, n).cont)
    ensures Run(code, m, c, k).pc == p < |code|
    ensures Run(code, m, c, k).mem == if incr.Some? then m.act(incr.value, c.mem).mem else c.mem
  {
    hide Unique, Find, Run;
    k := LoopBack(incr, n, code, p, q + |f.code|, m, c);
  }

  // The increment and the next rounds.
  lemma {:induction false} SimLoopRest(test: Option<Cond>, incr: Option<nat>, s: Stmt, x: Ctx, n: nat,
      code: seq<Instr>, p: nat, q: nat, m: Sem, c: Conf, fuel: nat)
    returns (k: nat)
    requires Unique(code) && n > 0 && At(code, p, GenLoop(test, incr, s, x, n).code)
    requires LoopAt(test, incr, Gen(s, BodyCtx(incr, x, n), BodyIsn(incr, n)), n, code, p, q)
    requires p + |GenLoop(test, incr, s, x, n).code| == q + |Gen(s, BodyCtx(incr, x, n), BodyIsn(incr, n)).code| +
        |LoopTail(incr, n)|
    requires c.pc == q + |Gen(s, BodyCtx(incr, x, n), BodyIsn(incr, n)).code| ||
        c.pc == Find(code, BodyCtx(incr, x, n).cont)
    ensures
      var end := q + |Gen(s, BodyCtx(incr, x, n), BodyIsn(incr, n)).code| + |LoopTail(incr, n)|;
      Sim(code, m, c, k, x, end, Around(test, incr, s, m, Normal(c.mem), fuel), fuel - 1)
    decreases fuel, s, 2, 0
  {
    hide At, Unique, Find, Run, Truth, Gen, GenLoop, Exec, ExecLoop, CaseVals, HasDefault, Enters, BodyCtx, BodyIsn,
        LoopTail, Sim, EntryPc, LoopAt, Step, LoopTest;
    var t := q + |Gen(s, BodyCtx(incr, x, n), BodyIsn(incr, n)).code|;
    var end := t + |LoopTail(incr, n)|;
    var o := Around(test, incr, s, m, Normal(c.mem), fuel);
    k := LoopBackAt(test, incr, Gen(s, BodyCtx(incr, x, n), BodyIsn(incr, n)), n, code, p, q, x, m, c);
    var c1 := Run(code, m, c, k);
    if fuel == 0 {
      OutOfFuel(code, m, c, k, x, end);
      SimFuel(code, m, c, k, x, end, o, 0, fuel - 1);
    } else {
      StartEnters(s, code, p, GenLoop(test, incr, s, x, n));
      var k2 := SimLoop(test, incr, s, Start, x, n, code, p, m, c1, fuel - 1);
      SimAfter(code, m, c, k, k2, x, end, o, fuel - 1);
      SimFuel(code, m, c, k + k2, x, end, o, fuel - 1 + k, fuel - 1);
      k := k + k2;
    }
  }
}
