// From a function to the code of both passes: pass 1 leaves each condition in one piece,
// pass 2 (cbranch of v6/c/c11.c) splits it into tests of its leaves.
module StmtPasses {
  import opened Helpers
  import opened Statements
  import opened StmtMeaning
  import opened StmtLabels

  // ---- pass 1

  const OUTSIDE := Place(false, false, false, 0)

  lemma {:induction false} StaysInside(s: Stmt, e: Entry, p: Place, m: Sem, mem: Mem, fuel: nat)
    requires Legal(s, p)
    ensures Exec(s, e, m, mem, fuel).Broke? ==> p.brk
    ensures Exec(s, e, m, mem, fuel).Continued? ==> p.cont
    decreases fuel, s, 0
  {
    match s
    case Seq(s1, s2) =>
      var p2 := p.(used := p.used + |CaseVals(s1)|);
      StaysInside(s2, Past(e, s1), p2, m, mem, fuel);
      StaysInside(s1, e, p, m, mem, fuel);
      var o := Exec(s1, e, m, mem, fuel);
      if o.Normal? { StaysInside(s2, Start, p2, m, o.mem, fuel); }
    case If(c, s1) =>
      StaysInside(s1, e, p, m, mem, fuel);
      StaysInside(s1, Start, p, m, Truth(c, m, mem).mem, fuel);
    case IfElse(c, s1, s2) =>
      var p2 := p.(used := p.used + |CaseVals(s1)|);
      StaysInside(s1, e, p, m, mem, fuel);
      StaysInside(s1, Start, p, m, Truth(c, m, mem).mem, fuel);
      StaysInside(s2, Past(e, s1), p2, m, mem, fuel);
      StaysInside(s2, Start, p2, m, Truth(c, m, mem).mem, fuel);
    case While(c, s1) => LoopStaysInside(Some(c), None, s1, e, m, mem, fuel);
    case For(init, test, incr, s1) =>
      var mem1 := if e.Start? && init.Some? then m.act(init.value, mem).mem else mem;
      LoopStaysInside(test, incr, s1, e, m, mem1, fuel);
    case DoWhile(s1, c) =>
      ExecDo(s1, c, e, m, mem, fuel);
      var o := Exec(s1, e, m, mem, fuel);
      if (o.Normal? || o.Continued?) && fuel > 0 {
        StaysInside(s, Start, p, m, Truth(c, m, o.mem).mem, fuel - 1);
      }
    case Switch(x, s1) =>
      var v := m.val(x, mem);
      var entry := Chosen(s1, v.r0);
      if entry.Some? { StaysInside(s1, entry.value, p.(brk := true, switch := true), m, v.mem, fuel); }
    case Case(v, s1) => StaysInside(s1, Inner(s, e), p.(used := p.used + 1), m, mem, fuel);
    case Default(s1) => StaysInside(s1, Inner(s, e), p, m, mem, fuel);
    case Skip =>
    case Do(_) =>
    case Break =>
    case Continue =>
    case Return(_) =>
  }

  lemma {:induction false} LoopStaysInside(test: Option<Cond>, incr: Option<nat>, s: Stmt, e: Entry, m: Sem, mem: Mem,
      fuel: nat)
    ensures !ExecLoop(test, incr, s, e, m, mem, fuel).Broke? && !ExecLoop(test, incr, s, e, m, mem, fuel).Continued?
    decreases fuel, 1
  {
    hide Exec, ExecLoop, Around, Truth;
    ExecFrom(test, incr, s, e, m, mem, fuel);
    var v := if test.Some? then Truth(test.value, m, mem).mem else mem;
    AroundStaysInside(test, incr, s, m, Exec(s, Start, m, v, fuel), fuel);
    AroundStaysInside(test, incr, s, m, Exec(s, e, m, mem, fuel), fuel);
  }

  lemma {:induction false} AroundStaysInside(test: Option<Cond>, incr: Option<nat>, s: Stmt, m: Sem, o: Outcome,
      fuel: nat)
    ensures !Around(test, incr, s, m, o, fuel).Broke? && !Around(test, incr, s, m, o, fuel).Continued?
    decreases fuel, 0
  {
    hide Exec, ExecLoop;
    if (o.Normal? || o.Continued?) && fuel > 0 {
      LoopStaysInside(test, incr, s, Start, m, if incr.Some? then m.act(incr.value, o.mem).mem else o.mem, fuel - 1);
    }
  }

  // What calling the function does: unfinished, or memory and perhaps a result.
  function Call(s: Stmt, m: Sem, mem: Mem, fuel: nat): Outcome {
    Exec(s, Start, m, mem, fuel)
  }

  // The machine has run to the end of the code with this outcome.
  predicate EndsAs(code: seq<Instr>, o: Outcome, d: Conf) {
    && d.pc == |code|
    && match o
       case Normal(mem) => d.mem == mem
       case Returned(r, mem) => d.mem == mem && (r.Some? ==> d.r0 == r.value)
       case _ => false
  }

  // After k steps the machine has done what the call with this fuel does.
  predicate Does(code: seq<Instr>, o: Outcome, fuel: nat, m: Sem, c: Conf, k: nat) {
    if o.Unfinished? then fuel <= k && Run(code, m, c, k).pc < |code|
    else EndsAs(code, o, Run(code, m, c, k))
  }

  lemma FunctionRuns(s: Stmt, n: nat, m: Sem, c: Conf, fuel: nat) returns (k: nat)
    requires n > 0 && Legal(s, OUTSIDE) && c.pc == 0
    ensures Does(GenFunction(s, n), Call(s, m, c.mem, fuel), fuel, m, c, k)
  {
    hide Gen, Exec, Find, Run, Unique, Legal;
    var x := Ctx(0, 0, n);
    var f := Gen(s, x, n + 1);
    var code := GenFunction(s, n);
    FunctionLabelsUnique(s, n);
    StaysInside(s, Start, OUTSIDE, m, c.mem, fuel);
    assert code[..|f.code|] == f.code;
    assert code[|f.code|] == Label(n);
    FindAt(code, |f.code|);
    StartEnters(s, code, 0, f);
    k := Simulate(s, Start, x, n + 1, code, 0, m, c, fuel);
    var d := Run(code, m, c, k);
    if !Call(s, m, c.mem, fuel).Unfinished? {
      assert d.pc == |f.code|;
      RunOne(code, m, d);
      RunAdd(code, m, c, k, 1);
      k := k + 1;
    }
  }

  // ---- the machine

  lemma {:induction false} Halted(code: seq<Instr>, m: Sem, c: Conf, k: nat)
    requires |code| <= c.pc
    ensures Run(code, m, c, k) == c
    decreases k
  {
    if k > 0 {
      Halted(code, m, c, k - 1);
    }
  }

  lemma StillRunning(code: seq<Instr>, m: Sem, c: Conf, j: nat, k: nat)
    requires j <= k && Run(code, m, c, k).pc < |code|
    ensures Run(code, m, c, j).pc < |code|
  {
    RunAdd(code, m, c, j, k - j);
    if |code| <= Run(code, m, c, j).pc {
      Halted(code, m, Run(code, m, c, j), k - j);
    }
  }

  lemma HaltsOnce(code: seq<Instr>, m: Sem, c: Conf, j: nat, k: nat)
    requires |code| <= Run(code, m, c, j).pc && |code| <= Run(code, m, c, k).pc
    ensures Run(code, m, c, j) == Run(code, m, c, k)
  {
    if j <= k {
      RunAdd(code, m, c, j, k - j);
      Halted(code, m, Run(code, m, c, j), k - j);
    } else {
      RunAdd(code, m, c, k, j - k);
      Halted(code, m, Run(code, m, c, k), j - k);
    }
  }

  // ---- cbranch

  datatype Branch = Branch(code: seq<Instr>, j: nat)

  // Jump to l if the truth of c is cond, testing leaves only; j is pass 2's isn.
  function CBranch(c: Cond, l: int, cond: bool, j: nat): (r: Branch)
    ensures r.code != [] && j <= r.j
  {
    match c
    case Leaf(_) => Branch([CBr(c, l, cond)], j)
    case Not(d) => CBranch(d, l, !cond, j)
    case AndThen(c1, c2) =>
      if cond then
        var a := CBranch(c1, j, false, j + 1);
        var b := CBranch(c2, l, true, a.j);
        Branch(a.code + b.code + [Label(j)], b.j)
      else
        var a := CBranch(c1, l, false, j);
        var b := CBranch(c2, l, false, a.j);
        Branch(a.code + b.code, b.j)
    case OrElse(c1, c2) =>
      if cond then
        var a := CBranch(c1, l, true, j);
        var b := CBranch(c2, l, true, a.j);
        Branch(a.code + b.code, b.j)
      else
        var a := CBranch(c1, j, true, j + 1);
        var b := CBranch(c2, l, false, a.j);
        Branch(a.code + b.code + [Label(j)], b.j)
  }

  // After k steps the condition has been evaluated and control is where it decides.
  predicate Branches(code: seq<Instr>, c: Cond, l: int, cond: bool, end: nat, m: Sem, d: Conf, k: nat) {
    var v := Truth(c, m, d.mem);
    Run(code, m, d, k) == Conf(if v.truth == cond then Find(code, l) else end, v.r0, v.mem)
  }

  lemma {:induction false} BranchRight(c: Cond, l: int, cond: bool, j: nat, code: seq<Instr>, p: nat, m: Sem,
      d: Conf) returns (k: nat)
    requires Unique(code) && At(code, p, CBranch(c, l, cond, j).code) && d.pc == p
    ensures k > 0 && Branches(code, c, l, cond, p + |CBranch(c, l, cond, j).code|, m, d, k)
    decreases c
  {
    match c
    case Leaf(_) =>
      AtNth(code, p, CBranch(c, l, cond, j).code, 0);
      k := 1;
    case Not(e) => k := BranchRight(e, l, !cond, j, code, p, m, d);
    case AndThen(c1, c2) => k := TwoBranches(c, c1, c2, true, l, cond, j, code, p, m, d);
    case OrElse(c1, c2) => k := TwoBranches(c, c1, c2, false, l, cond, j, code, p, m, d);
  }

  // && and ||: the second part is reached if the first is not decisive.
  lemma {:induction false} TwoBranches(c: Cond, c1: Cond, c2: Cond, and: bool, l: int, cond: bool, j: nat,
      code: seq<Instr>, p: nat, m: Sem, d: Conf)
    returns (k: nat)
    requires c == (if and then AndThen(c1, c2) else OrElse(c1, c2))
    requires Unique(code) && At(code, p, CBranch(c, l, cond, j).code) && d.pc == p
    ensures k > 0 && Branches(code, c, l, cond, p + |CBranch(c, l, cond, j).code|, m, d, k)
    decreases c, 0
  {
    hide CBranch, Truth, At, Unique, Find, Run;
    CBranchOfTwo(c, c1, c2, and, l, cond, j);
    TruthOfTwo(c, c1, c2, and, m, d.mem);
    var v := Truth(c1, m, d.mem);
    if and == cond {
      var a := CBranch(c1, j, !and, j + 1);
      var b := CBranch(c2, l, and, a.j);
      var q := p + |a.code|;
      var end := q + |b.code|;
      AtSplit(code, p, a.code + b.code, [Label(j)]);
      AtSplit(code, p, a.code, b.code);
      assert code[end] == Label(j) by { AtNth(code, end, [Label(j)], 0); }
      FindAt(code, end);
      k := BranchRight(c1, j, !and, j + 1, code, p, m, d);
      var d1 := Run(code, m, d, k);
      if v.truth == and {
        var k2 := BranchRight(c2, l, and, a.j, code, q, m, d1);
        k := Onward(code, m, d, k, k2, c2, l, and, end);
      } else {
        RunOne(code, m, d1);
        RunAdd(code, m, d, k, 1);
        k := k + 1;
      }
    } else {
      var a := CBranch(c1, l, cond, j);
      var b := CBranch(c2, l, cond, a.j);
      var q := p + |a.code|;
      AtSplit(code, p, a.code, b.code);
      k := BranchRight(c1, l, cond, j, code, p, m, d);
      var d1 := Run(code, m, d, k);
      if v.truth != cond {
        var k2 := BranchRight(c2, l, cond, a.j, code, q, m, d1);
        RunAdd(code, m, d, k, k2);
        k := k + k2;
      }
    }
  }

  lemma CBranchOfTwo(c: Cond, c1: Cond, c2: Cond, and: bool, l: int, cond: bool, j: nat)
    requires c == (if and then AndThen(c1, c2) else OrElse(c1, c2))
    ensures and == cond ==>
      var a := CBranch(c1, j, !and, j + 1);
      var b := CBranch(c2, l, and, a.j);
      CBranch(c, l, cond, j) == Branch(a.code + b.code + [Label(j)], b.j)
    ensures and != cond ==>
      var a := CBranch(c1, l, cond, j);
      var b := CBranch(c2, l, cond, a.j);
      CBranch(c, l, cond, j) == Branch(a.code + b.code, b.j)
  {
  }

  lemma TruthOfTwo(c: Cond, c1: Cond, c2: Cond, and: bool, m: Sem, mem: Mem)
    requires c == (if and then AndThen(c1, c2) else OrElse(c1, c2))
    ensures var v := Truth(c1, m, mem);
      Truth(c, m, mem) == if v.truth == and then Truth(c2, m, v.mem) else v
  {
  }

  // The second part, and the label behind it when it falls through.
  lemma Onward(code: seq<Instr>, m: Sem, d: Conf, k: nat, k2: nat, c: Cond, l: int, cond: bool,
      end: nat) returns (k3: nat)
    requires k > 0 && Branches(code, c, l, cond, end, m, Run(code, m, d, k), k2)
    requires end < |code| && code[end].Label?
    ensures k3 > 0
    ensures var v := Truth(c, m, Run(code, m, d, k).mem);
      Run(code, m, d, k3) == Conf(if v.truth == cond then Find(code, l) else end + 1, v.r0, v.mem)
  {
    hide Run, Find, Truth;
    RunAdd(code, m, d, k, k2);
    k3 := k + k2;
    if Truth(c, m, Run(code, m, d, k).mem).truth != cond {
      RunOne(code, m, Run(code, m, d, k3));
      RunAdd(code, m, d, k3, 1);
      k3 := k3 + 1;
    }
  }

  // ---- pass 2 over the code of pass 1

  function Lowered(i: Instr, j: nat): (r: Branch)
    ensures r.code != [] && j <= r.j
  {
    if i.CBr? then CBranch(i.c, i.l, i.cond, j) else Branch([i], j)
  }

  function Lower(code: seq<Instr>, j: nat): (r: Branch)
    ensures j <= r.j
  {
    if code == [] then Branch([], j)
    else
      var a := Lowered(code[0], j);
      var b := Lower(code[1..], a.j);
      Branch(a.code + b.code, b.j)
  }

  // Pass 2's isn when it comes to instruction i, and where its code for it starts.
  function IsnAt(code: seq<Instr>, j: nat, i: nat): nat
    requires i <= |code|
    decreases i
  {
    if i == 0 then j else IsnAt(code[1..], Lowered(code[0], j).j, i - 1)
  }

  function Pos(code: seq<Instr>, j: nat, i: nat): nat
    requires i <= |code|
    decreases i
  {
    if i == 0 then 0 else |Lowered(code[0], j).code| + Pos(code[1..], Lowered(code[0], j).j, i - 1)
  }

  lemma {:induction false} LoweredAt(code: seq<Instr>, j: nat, i: nat)
    requires i <= |code|
    ensures Pos(code, j, i) <= |Lower(code, j).code| && (i == |code| ==> Pos(code, j, i) == |Lower(code, j).code|)
    ensures i < |code| ==>
      var r := Lowered(code[i], IsnAt(code, j, i));
      At(Lower(code, j).code, Pos(code, j, i), r.code) && Pos(code, j, i + 1) == Pos(code, j, i) + |r.code|
    decreases i
  {
    hide Lowered, At;
    if code != [] {
      var a := Lowered(code[0], j);
      var rest := Lower(code[1..], a.j).code;
      if i == 0 {
        AtStart(a.code, rest);
        assert Pos(code[1..], a.j, 0) == 0;
      } else {
        LoweredAt(code[1..], a.j, i - 1);
        if i < |code| {
          AtShift(a.code, rest, Pos(code[1..], a.j, i - 1), Lowered(code[i], IsnAt(code, j, i)).code);
        }
      }
    }
  }

  lemma AtStart(a: seq<Instr>, b: seq<Instr>)
    ensures At(a + b, 0, a)
  {
  }

  lemma AtShift(a: seq<Instr>, b: seq<Instr>, p: nat, frag: seq<Instr>)
    requires At(b, p, frag)
    ensures At(a + b, |a| + p, frag)
  {
    assert (a + b)[|a| + p..|a| + p + |frag|] == b[p..p + |frag|];
  }

  // Labels of pass 1 are below those of pass 2.
  predicate Below(code: seq<Instr>, j: nat) {
    forall i :: 0 <= i < |code| ==> (code[i].Label? ==> code[i].l < j) && forall l :: l in Targets(code[i]) ==> l < j
  }

  lemma {:induction false} CBranchLabels(c: Cond, l: int, cond: bool, j: nat, t: int)
    ensures Count(CBranch(c, l, cond, j).code, t) <= One(j <= t < CBranch(c, l, cond, j).j)
    decreases c, 1
  {
    match c
    case Leaf(_) =>
    case Not(d) => CBranchLabels(d, l, !cond, j, t);
    case AndThen(c1, c2) => LabelsOfTwo(c, c1, c2, true, l, cond, j, t);
    case OrElse(c1, c2) => LabelsOfTwo(c, c1, c2, false, l, cond, j, t);
  }

  lemma {:induction false} LabelsOfTwo(c: Cond, c1: Cond, c2: Cond, and: bool, l: int, cond: bool, j: nat, t: int)
    requires c == (if and then AndThen(c1, c2) else OrElse(c1, c2))
    ensures Count(CBranch(c, l, cond, j).code, t) <= One(j <= t < CBranch(c, l, cond, j).j)
    decreases c, 0
  {
    hide CBranch, Count;
    CBranchOfTwo(c, c1, c2, and, l, cond, j);
    if and == cond {
      var a := CBranch(c1, j, !and, j + 1);
      var b := CBranch(c2, l, and, a.j);
      CBranchLabels(c1, j, !and, j + 1, t);
      CBranchLabels(c2, l, and, a.j, t);
      CountOfSum3(a.code, b.code, [Label(j)], t);
      CountOfOne(Label(j), t);
    } else {
      var a := CBranch(c1, l, cond, j);
      var b := CBranch(c2, l, cond, a.j);
      CBranchLabels(c1, l, cond, j, t);
      CBranchLabels(c2, l, cond, a.j, t);
      CountOfSum(a.code, b.code, t);
    }
  }

  lemma {:induction false} LowerLabels(code: seq<Instr>, j: nat, t: int)
    ensures Count(Lower(code, j).code, t) <= Count(code, t) + One(j <= t < Lower(code, j).j)
  {
    if code != [] {
      var a := Lowered(code[0], j);
      LowerLabels(code[1..], a.j, t);
      CountOfSum(a.code, Lower(code[1..], a.j).code, t);
      if code[0].CBr? {
        CBranchLabels(code[0].c, code[0].l, code[0].cond, j, t);
      } else {
        CountOfOne(code[0], t);
      }
    }
  }

  lemma {:induction false} CountBelow(code: seq<Instr>, j: nat, t: int)
    requires Below(code, j) && j <= t
    ensures Count(code, t) == 0
  {
    if code != [] {
      forall i | 0 <= i < |code[1..]|
          ensures (code[1..][i].Label? ==> code[1..][i].l < j) && forall l :: l in Targets(code[1..][i]) ==> l < j {
        assert code[1..][i] == code[i + 1];
      }
      CountBelow(code[1..], j, t);
      assert code[0].Label? ==> code[0].l < j;
    }
  }

  // The labels of both passes together are all different.
  lemma LowerUnique(code: seq<Instr>, j: nat)
    requires Below(code, j) && forall l :: Count(code, l) <= 1
    ensures Unique(Lower(code, j).code)
  {
    forall t ensures Count(Lower(code, j).code, t) <= 1 {
      LowerLabels(code, j, t);
      if j <= t { CountBelow(code, j, t); }
    }
    UniqueIfCounted(Lower(code, j).code);
  }
}
