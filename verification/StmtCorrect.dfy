// The code of both passes behaves as the code of pass 1 does, and so a compiled function
// does exactly what its statements mean.
module StmtCorrect {
  import opened Helpers
  import opened Statements
  import opened StmtMeaning
  import opened StmtLabels
  import opened StmtPasses

  // The same place in both codes; beyond the end in both when control is lost.
  predicate Agrees(code: seq<Instr>, j: nat, c1: Conf, c2: Conf) {
    && c1.mem == c2.mem && c1.r0 == c2.r0
    && if c1.pc <= |code| then c2.pc == Pos(code, j, c1.pc) else c2.pc > |Lower(code, j).code|
  }

  predicate Sound(code: seq<Instr>, j: nat) {
    Unique(code) && Unique(Lower(code, j).code) && Below(code, j)
  }

  lemma {:induction false} FindCases(code: seq<Instr>, l: int)
    ensures Find(code, l) < |code| ==> code[Find(code, l)] == Label(l)
    ensures |code| <= Find(code, l) ==> Find(code, l) == |code| + 1 && Count(code, l) == 0
  {
    if code != [] && code[0] != Label(l) {
      FindCases(code[1..], l);
    }
  }

  lemma {:induction false} FindNothing(code: seq<Instr>, l: int)
    requires Count(code, l) == 0
    ensures Find(code, l) == |code| + 1
  {
    if code != [] {
      FindNothing(code[1..], l);
    }
  }

  lemma FindLowered(code: seq<Instr>, j: nat, l: int)
    requires Sound(code, j) && l < j
    ensures var i := Find(code, l);
      if i <= |code| then Find(Lower(code, j).code, l) == Pos(code, j, i)
          else Find(Lower(code, j).code, l) > |Lower(code, j).code|
  {
    hide Unique, Below, Lower, Count, Find;
    FindCases(code, l);
    var i := Find(code, l);
    var code2 := Lower(code, j).code;
    if i < |code| {
      LoweredAt(code, j, i);
      AtNth(code2, Pos(code, j, i), [Label(l)], 0);
      FindAt(code2, Pos(code, j, i));
    } else {
      LowerLabels(code, j, l);
      FindNothing(code2, l);
    }
  }

  lemma {:induction false} PickIsTarget(cases: seq<CaseLab>, def: int, v: int)
    ensures Pick(cases, def, v) == def || Pick(cases, def, v) in CaseTargets(cases)
  {
    if cases != [] && cases[0].val != v {
      PickIsTarget(cases[1..], def, v);
      if Pick(cases, def, v) in CaseTargets(cases[1..]) {
        var i :| 0 <= i < |cases[1..]| && cases[1..][i].lab == Pick(cases, def, v);
        assert cases[i + 1].lab == Pick(cases, def, v);
      }
    } else if cases != [] {
      assert cases[0].lab in CaseTargets(cases);
    }
  }

  // One step of pass 1's code is one or more of pass 2's.
  lemma LowerStep(code: seq<Instr>, j: nat, m: Sem, c1: Conf, c2: Conf) returns (k: nat)
    requires Sound(code, j) && Agrees(code, j, c1, c2) && c1.pc < |code|
    ensures k > 0 && Agrees(code, j, Step(code, m, c1), Run(Lower(code, j).code, m, c2, k))
  {
    hide Unique, Lower, Count, Find, Run, Truth, At, Pos, IsnAt, CBranch, Pick, Below, Targets;
    var code2 := Lower(code, j).code;
    var i := c1.pc;
    var p := Pos(code, j, i);
    var instr := code[i];
    var r := Lowered(instr, IsnAt(code, j, i));
    LoweredAt(code, j, i);
    LoweredAt(code, j, i + 1);
    TargetBelow(code, j, i, c1.r0);
    if instr.CBr? {
      k := BranchRight(instr.c, instr.l, instr.cond, IsnAt(code, j, i), code2, p, m, c2);
      FindLowered(code, j, instr.l);
    } else {
      assert code2[p] == instr by { AtNth(code2, p, [instr], 0); }
      RunOne(code2, m, c2);
      InCode(code2, p, r.code);
      k := 1;
      if instr.Jmp? { FindLowered(code, j, instr.l); }
      if instr.Swit? { FindLowered(code, j, Pick(instr.cases, instr.def, c1.r0)); }
    }
  }

  lemma InCode(code: seq<Instr>, p: nat, frag: seq<Instr>)
    requires At(code, p, frag)
    ensures p + |frag| <= |code|
  {
  }

  lemma TargetBelow(code: seq<Instr>, j: nat, i: nat, v: int)
    requires Below(code, j) && i < |code|
    ensures code[i].Jmp? || code[i].CBr? ==> code[i].l < j
    ensures code[i].Swit? ==> Pick(code[i].cases, code[i].def, v) < j
  {
    hide Pick;
    if code[i].Swit? {
      PickIsTarget(code[i].cases, code[i].def, v);
      assert Pick(code[i].cases, code[i].def, v) in Targets(code[i]);
    } else if code[i].Jmp? || code[i].CBr? {
      assert code[i].l in Targets(code[i]);
    }
  }

  lemma {:induction false} LowerRun(code: seq<Instr>, j: nat, m: Sem, c1: Conf, c2: Conf, k1: nat) returns (k2: nat)
    requires Sound(code, j) && Agrees(code, j, c1, c2)
    ensures Agrees(code, j, Run(code, m, c1, k1), Run(Lower(code, j).code, m, c2, k2))
    ensures Run(code, m, c1, k1).pc < |code| ==> k1 <= k2
    decreases k1
  {
    if k1 == 0 {
      k2 := 0;
    } else if |code| <= c1.pc {
      Halted(code, m, c1, k1);
      k2 := 0;
    } else {
      hide Unique, Lower, Count, Find, Below, Agrees, Step;
      var code2 := Lower(code, j).code;
      var k := LowerStep(code, j, m, c1, c2);
      var k3 := LowerRun(code, j, m, Step(code, m, c1), Run(code2, m, c2, k), k1 - 1);
      RunAdd(code2, m, c2, k, k3);
      k2 := k + k3;
    }
  }

  // ---- a compiled function

  // What both passes make of a function: n and j are isn of pass 1 and of pass 2.
  function Compiled(s: Stmt, n: nat, j: nat): seq<Instr> {
    Lower(GenFunction(s, n), j).code
  }

  // Pass 1 has not run into the numbers of pass 2.
  predicate Numbered(s: Stmt, n: nat, j: nat) {
    n > 0 && Gen(s, Ctx(0, 0, n), n + 1).n <= j
  }

  lemma {:induction false} FunctionBelow(s: Stmt, n: nat, j: nat)
    requires Numbered(s, n, j) && Legal(s, OUTSIDE)
    ensures Below(GenFunction(s, n), j)
  {
    hide Gen, Legal, Count;
    var code := GenFunction(s, n);
    FunctionLabelsUnique(s, n);
    forall i | 0 <= i < |code|
        ensures (code[i].Label? ==> code[i].l < j) && forall l :: l in Targets(code[i]) ==> l < j {
      if code[i].Label? { CountAt(code, i); }
      forall l | l in Targets(code[i]) ensures l < j {
        FunctionLabelsDefined(s, n, l);
      }
    }
  }

  // The labels of a compiled function are all different.
  lemma CompiledLabels(s: Stmt, n: nat, j: nat)
    requires Numbered(s, n, j) && Legal(s, OUTSIDE)
    ensures Sound(GenFunction(s, n), j)
  {
    FunctionBelow(s, n, j);
    FunctionLabelsUnique(s, n);
    LowerUnique(GenFunction(s, n), j);
  }

  // If the call ends, the compiled function ends with the same memory and the same result in
  // r0; if it is unfinished with this fuel, the compiled function runs that many steps at least.
  lemma CompiledRuns(s: Stmt, n: nat, j: nat, m: Sem, c: Conf, fuel: nat) returns (k: nat)
    requires Numbered(s, n, j) && Legal(s, OUTSIDE) && c.pc == 0
    ensures Does(Compiled(s, n, j), Call(s, m, c.mem, fuel), fuel, m, c, k)
  {
    hide Unique, Lower, Count, Find, Below, Run, Gen, Exec, Legal, Numbered, Sound;
    var code := GenFunction(s, n);
    CompiledLabels(s, n, j);
    assert n > 0 by { NumberedFrom(s, n, j); }
    var k1 := FunctionRuns(s, n, m, c, fuel);
    k := LowerRun(code, j, m, c, c, k1);
    var d := Run(code, m, c, k1);
    LoweredAt(code, j, if d.pc <= |code| then d.pc else 0);
    if d.pc < |code| {
      InCode(Lower(code, j).code, Pos(code, j, d.pc), Lowered(code[d.pc], IsnAt(code, j, d.pc)).code);
    }
  }

  lemma NumberedFrom(s: Stmt, n: nat, j: nat)
    requires Numbered(s, n, j)
    ensures n > 0
  {
  }

  // If the compiled function stops, control is at its end and the call ends in the same way;
  // so it never jumps to a label that is not there.
  lemma CompiledStops(s: Stmt, n: nat, j: nat, m: Sem, c: Conf, k: nat)
    requires Numbered(s, n, j) && Legal(s, OUTSIDE) && c.pc == 0
    requires |Compiled(s, n, j)| <= Run(Compiled(s, n, j), m, c, k).pc
    ensures EndsAs(Compiled(s, n, j), Call(s, m, c.mem, k), Run(Compiled(s, n, j), m, c, k))
  {
    hide Unique, Lower, Count, Find, Below, Run, Gen, Exec, Legal, Numbered, Sound;
    var code := Compiled(s, n, j);
    var k2 := CompiledRuns(s, n, j, m, c, k);
    if Call(s, m, c.mem, k).Unfinished? {
      StillRunning(code, m, c, k, k2);
      assert false;
    } else {
      HaltsOnce(code, m, c, k, k2);
    }
  }

  // The compiled function comes to its end with d exactly if the call ends so.
  lemma CompiledRight(s: Stmt, n: nat, j: nat, m: Sem, c: Conf, mem: Mem)
    requires Numbered(s, n, j) && Legal(s, OUTSIDE) && c.pc == 0
    ensures (exists k: nat :: Stopped(Compiled(s, n, j), m, c, k, mem)) <==>
        (exists fuel: nat :: Ended(s, m, c.mem, fuel, mem))
  {
    hide Unique, Lower, Count, Find, Below, Run, Gen, Exec, Legal, Numbered, Sound, Compiled;
    var code := Compiled(s, n, j);
    if k: nat :| Stopped(code, m, c, k, mem) {
      CompiledStops(s, n, j, m, c, k);
      assert Ended(s, m, c.mem, k, mem);
    }
    if fuel: nat :| Ended(s, m, c.mem, fuel, mem) {
      var k := CompiledRuns(s, n, j, m, c, fuel);
      assert Stopped(code, m, c, k, mem);
    }
  }

  predicate Stopped(code: seq<Instr>, m: Sem, c: Conf, k: nat, mem: Mem) {
    Run(code, m, c, k).pc >= |code| && Run(code, m, c, k).mem == mem
  }

  predicate Ended(s: Stmt, m: Sem, mem: Mem, fuel: nat, mem1: Mem) {
    var o := Call(s, m, mem, fuel);
    (o.Normal? || o.Returned?) && o.mem == mem1
  }

  // ---- values of conditions

  // An expression whose value is wanted: a plain one, the truth of a condition, or ?:.
  datatype Value = Plain(e: nat) | TruthOf(c: Cond) | Choose(c: Cond, v1: Value, v2: Value)

  function ValueOf(v: Value, m: Sem, mem: Mem): Effect {
    match v
    case Plain(e) => m.val(e, mem)
    case TruthOf(c) => var t := Truth(c, m, mem); Effect(if t.truth then 1 else 0, t.mem)
    case Choose(c, v1, v2) => var t := Truth(c, m, mem); ValueOf(if t.truth then v1 else v2, m, t.mem)
  }

  function ValueCode(v: Value, j: nat): (r: Branch)
    ensures j <= r.j && r.code != []
  {
    match v
    case Plain(e) => Branch([Val(e)], j)
    case TruthOf(c) =>
      var b := CBranch(c, j, true, j + 1);
      Branch(b.code + [Load(0), Jmp(b.j), Label(j), Load(1), Label(b.j)], b.j + 1)
    case Choose(c, v1, v2) =>
      var b := CBranch(c, j, false, j + 1);
      var a1 := ValueCode(v1, b.j);
      var a2 := ValueCode(v2, a1.j + 1);
      Branch(b.code + a1.code + [Jmp(a1.j), Label(j)] + a2.code + [Label(a1.j)], a2.j)
  }

  predicate Yields(code: seq<Instr>, v: Value, end: nat, m: Sem, d: Conf, k: nat) {
    var w := ValueOf(v, m, d.mem);
    Run(code, m, d, k) == Conf(end, w.r0, w.mem)
  }

  lemma {:induction false} ValueRight(v: Value, j: nat, code: seq<Instr>, p: nat, m: Sem, d: Conf) returns (k: nat)
    requires Unique(code) && At(code, p, ValueCode(v, j).code) && d.pc == p
    ensures Yields(code, v, p + |ValueCode(v, j).code|, m, d, k)
    decreases v, 1
  {
    match v
    case Plain(_) =>
      AtNth(code, p, ValueCode(v, j).code, 0);
      k := 1;
    case TruthOf(c) => k := TruthRight(c, j, code, p, m, d);
    case Choose(c, v1, v2) => k := ChooseRight(c, v1, v2, j, code, p, m, d);
  }

  lemma {:induction false} ChooseRight(c: Cond, v1: Value, v2: Value, j: nat, code: seq<Instr>, p: nat, m: Sem,
      d: Conf) returns (k: nat)
    requires Unique(code) && At(code, p, ValueCode(Choose(c, v1, v2), j).code) && d.pc == p
    ensures Yields(code, Choose(c, v1, v2), p + |ValueCode(Choose(c, v1, v2), j).code|, m, d, k)
    decreases Choose(c, v1, v2), 0
  {
    hide Unique, Find, Truth, Run, At, CBranch, ValueCode, ValueOf;
    ChooseIs(c, v1, v2, j, m, d.mem);
    var b := CBranch(c, j, false, j + 1);
    var a1 := ValueCode(v1, b.j);
    var a2 := ValueCode(v2, a1.j + 1);
    var q := p + |b.code|;
    var mid := q + |a1.code|;
    var end := mid + 2 + |a2.code|;
    ChoosePlaced(b, a1, a2, j, code, p);
    k := BranchRight(c, j, false, j + 1, code, p, m, d);
    var d1 := Run(code, m, d, k);
    if Truth(c, m, d.mem).truth {
      var k1 := ValueRight(v1, b.j, code, q, m, d1);
      RunAdd(code, m, d, k, k1);
      RunAdd(code, m, d, k + k1, 2);
      RunOne(code, m, Run(code, m, d, k + k1));
      k := k + k1 + 2;
    } else {
      RunOne(code, m, d1);
      RunAdd(code, m, d, k, 1);
      var k1 := ValueRight(v2, a1.j + 1, code, mid + 2, m, Run(code, m, d, k + 1));
      RunAdd(code, m, d, k + 1, k1);
      RunAdd(code, m, d, k + 1 + k1, 1);
      RunOne(code, m, Run(code, m, d, k + 1 + k1));
      k := k + 2 + k1;
    }
  }

  lemma ChooseIs(c: Cond, v1: Value, v2: Value, j: nat, m: Sem, mem: Mem)
    ensures var t := Truth(c, m, mem);
      ValueOf(Choose(c, v1, v2), m, mem) == ValueOf(if t.truth then v1 else v2, m, t.mem)
    ensures
      var b := CBranch(c, j, false, j + 1);
      var a1 := ValueCode(v1, b.j);
      var a2 := ValueCode(v2, a1.j + 1);
      ValueCode(Choose(c, v1, v2), j) == Branch(b.code + a1.code + [Jmp(a1.j), Label(j)] + a2.code + [Label(a1.j)],
          a2.j)
  {
  }

  lemma ChoosePlaced(b: Branch, a1: Branch, a2: Branch, j: nat, code: seq<Instr>, p: nat)
    requires Unique(code) && At(code, p, b.code + a1.code + [Jmp(a1.j), Label(j)] + a2.code + [Label(a1.j)])
    ensures
      var q := p + |b.code|;
      var mid := q + |a1.code|;
      var end := mid + 2 + |a2.code|;
      && At(code, p, b.code) && At(code, q, a1.code) && At(code, mid + 2, a2.code) && end < |code|
      && code[mid] == Jmp(a1.j) && code[mid + 1] == Label(j) && code[end] == Label(a1.j)
      && Find(code, j) == mid + 1 && Find(code, a1.j) == end
  {
    hide Unique, Find;
    var q := p + |b.code|;
    var mid := q + |a1.code|;
    var end := mid + 2 + |a2.code|;
    AtSplit(code, p, b.code + a1.code + [Jmp(a1.j), Label(j)] + a2.code, [Label(a1.j)]);
    AtSplit(code, p, b.code + a1.code + [Jmp(a1.j), Label(j)], a2.code);
    AtSplit(code, p, b.code + a1.code, [Jmp(a1.j), Label(j)]);
    AtSplit(code, p, b.code, a1.code);
    AtNth(code, mid, [Jmp(a1.j), Label(j)], 0);
    AtNth(code, mid, [Jmp(a1.j), Label(j)], 1);
    AtNth(code, end, [Label(a1.j)], 0);
    FindAt(code, mid + 1);
    FindAt(code, end);
  }

  lemma TruthRight(c: Cond, j: nat, code: seq<Instr>, p: nat, m: Sem, d: Conf) returns (k: nat)
    requires Unique(code) && At(code, p, ValueCode(TruthOf(c), j).code) && d.pc == p
    ensures Yields(code, TruthOf(c), p + |ValueCode(TruthOf(c), j).code|, m, d, k)
  {
    hide Unique, Find, Truth, Run, At, CBranch;
    var b := CBranch(c, j, true, j + 1);
    var tail := [Load(0), Jmp(b.j), Label(j), Load(1), Label(b.j)];
    var q := p + |b.code|;
    AtSplit(code, p, b.code, tail);
    InCode(code, q, tail);
    AtNth(code, q, tail, 0);
    AtNth(code, q, tail, 1);
    AtNth(code, q, tail, 2);
    AtNth(code, q, tail, 3);
    AtNth(code, q, tail, 4);
    FindAt(code, q + 2);
    FindAt(code, q + 4);
    k := BranchRight(c, j, true, j + 1, code, p, m, d);
    var d1 := Run(code, m, d, k);
    RunOne(code, m, d1);
    RunAdd(code, m, d, k, 2);
    var d2 := Run(code, m, d, k + 2);
    RunOne(code, m, d2);
    RunAdd(code, m, d, k + 2, 1);
    k := k + 3;
  }
}
