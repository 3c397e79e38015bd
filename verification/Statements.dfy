// Statements of the Sixth Edition C compiler without goto, what they mean, and the labels
// and branches that v6/c/c02.c emits for them.
module Statements {
  import opened Helpers

  // ---- source

  // What && || and ! combine; a leaf is any other expression, known by its number.
  datatype Cond = Leaf(id: nat) | AndThen(c1: Cond, c2: Cond) | OrElse(c1: Cond, c2: Cond) | Not(c: Cond)

  datatype Stmt =
    | Skip
    | Do(e: nat)
    | Seq(s1: Stmt, s2: Stmt)
    | If(c: Cond, s: Stmt)
    | IfElse(c: Cond, s1: Stmt, s2: Stmt)
    | While(c: Cond, s: Stmt)
    | DoWhile(s: Stmt, c: Cond)
    | For(init: Option<nat>, test: Option<Cond>, incr: Option<nat>, s: Stmt)
    | Switch(e: nat, s: Stmt)
    | Case(v: int, s: Stmt)
    | Default(s: Stmt)
    | Break
    | Continue
    | Return(result: Option<nat>)

  type Mem = map<int, int>

  // An expression leaves something in r0 and changes memory; a condition is also true or false.
  datatype Effect = Effect(r0: int, mem: Mem)
  datatype Verdict = Verdict(truth: bool, r0: int, mem: Mem)

  // act evaluates for effect, val for the value in r0, test for the truth.
  datatype Sem = Sem(act: (nat, Mem) -> Effect, val: (nat, Mem) -> Effect, test: (nat, Mem) -> Verdict)

  // Leaves are evaluated left to right and only as far as the truth needs.
  function Truth(c: Cond, m: Sem, mem: Mem): Verdict {
    match c
    case Leaf(id) => m.test(id, mem)
    case Not(d) => var v := Truth(d, m, mem); v.(truth := !v.truth)
    case AndThen(c1, c2) => var v := Truth(c1, m, mem); if v.truth then Truth(c2, m, v.mem) else v
    case OrElse(c1, c2) => var v := Truth(c1, m, mem); if v.truth then v else Truth(c2, m, v.mem)
  }

  // How control leaves a statement; Unfinished when the fuel for loops ran out.
  datatype Outcome =
    | Normal(mem: Mem) | Broke(mem: Mem) | Continued(mem: Mem)
    | Returned(r: Option<int>, mem: Mem) | Unfinished

  // Where control enters a statement: at its beginning, at its k-th case or at its default.
  datatype Entry = Start | AtCase(k: nat) | AtDefault

  // The cases a statement gives to the switch around it, in text order.
  function CaseVals(s: Stmt): seq<int> {
    match s
    case Seq(s1, s2) => CaseVals(s1) + CaseVals(s2)
    case If(_, s1) => CaseVals(s1)
    case IfElse(_, s1, s2) => CaseVals(s1) + CaseVals(s2)
    case While(_, s1) => CaseVals(s1)
    case DoWhile(s1, _) => CaseVals(s1)
    case For(_, _, _, s1) => CaseVals(s1)
    case Case(v, s1) => [v] + CaseVals(s1)
    case Default(s1) => CaseVals(s1)
    case _ => []
  }

  predicate HasDefault(s: Stmt) {
    match s
    case Seq(s1, s2) => HasDefault(s1) || HasDefault(s2)
    case If(_, s1) => HasDefault(s1)
    case IfElse(_, s1, s2) => HasDefault(s1) || HasDefault(s2)
    case While(_, s1) => HasDefault(s1)
    case DoWhile(s1, _) => HasDefault(s1)
    case For(_, _, _, s1) => HasDefault(s1)
    case Case(_, s1) => HasDefault(s1)
    case Default(_) => true
    case _ => false
  }

  predicate Enters(e: Entry, s: Stmt) {
    match e
    case Start => true
    case AtCase(k) => k < |CaseVals(s)|
    case AtDefault => HasDefault(s)
  }

  // Of two parts, does the entry lie in the second? The last default wins.
  predicate InSecond(e: Entry, s1: Stmt, s2: Stmt) {
    match e
    case Start => false
    case AtCase(k) => |CaseVals(s1)| <= k
    case AtDefault => HasDefault(s2)
  }

  function Past(e: Entry, s1: Stmt): Entry {
    match e
    case AtCase(k) => if |CaseVals(s1)| <= k then AtCase(k - |CaseVals(s1)|) else e
    case _ => e
  }

  // The first index of v, or the length.
  function Index(vs: seq<int>, v: int): nat {
    if vs == [] || vs[0] == v then 0 else 1 + Index(vs[1..], v)
  }

  // Where a switch on v enters its body, if anywhere.
  function Chosen(s: Stmt, v: int): Option<Entry> {
    if Index(CaseVals(s), v) < |CaseVals(s)| then Some(AtCase(Index(CaseVals(s), v)))
    else if HasDefault(s) then Some(AtDefault)
    else None
  }

  function AfterBreak(o: Outcome): Outcome {
    if o.Broke? then Normal(o.mem) else o
  }

  function Exec(s: Stmt, e: Entry, m: Sem, mem: Mem, fuel: nat): Outcome
    decreases fuel, s, 0
  {
    match s
    case Skip => Normal(mem)
    case Do(x) => Normal(m.act(x, mem).mem)
    case Seq(s1, s2) =>
      if InSecond(e, s1, s2) then Exec(s2, Past(e, s1), m, mem, fuel)
      else
        var o := Exec(s1, e, m, mem, fuel);
        if o.Normal? then Exec(s2, Start, m, o.mem, fuel) else o
    case If(c, s1) =>
      if e.Start? then
        var v := Truth(c, m, mem);
        if v.truth then Exec(s1, Start, m, v.mem, fuel) else Normal(v.mem)
      else Exec(s1, e, m, mem, fuel)
    case IfElse(c, s1, s2) =>
      if e.Start? then
        var v := Truth(c, m, mem);
        Exec(if v.truth then s1 else s2, Start, m, v.mem, fuel)
      else if InSecond(e, s1, s2) then Exec(s2, Past(e, s1), m, mem, fuel)
      else Exec(s1, e, m, mem, fuel)
    case While(c, s1) => ExecLoop(Some(c), None, s1, e, m, mem, fuel)
    case For(init, test, incr, s1) =>
      var mem1 := if e.Start? && init.Some? then m.act(init.value, mem).mem else mem;
      ExecLoop(test, incr, s1, e, m, mem1, fuel)
    case DoWhile(s1, c) =>
      var o := Exec(s1, e, m, mem, fuel);
      if o.Normal? || o.Continued? then
        var v := Truth(c, m, o.mem);
        if !v.truth then Normal(v.mem)
        else if fuel == 0 then Unfinished
        else Exec(s, Start, m, v.mem, fuel - 1)
      else AfterBreak(o)
    case Switch(x, s1) =>
      var v := m.val(x, mem);
      var entry := Chosen(s1, v.r0);
      if entry.Some? then AfterBreak(Exec(s1, entry.value, m, v.mem, fuel)) else Normal(v.mem)
    case Case(_, s1) =>
      if e.AtCase? && e.k > 0 then Exec(s1, AtCase(e.k - 1), m, mem, fuel)
      else Exec(s1, if e.AtDefault? then e else Start, m, mem, fuel)
    case Default(s1) =>
      Exec(s1, if e.AtDefault? && !HasDefault(s1) then Start else e, m, mem, fuel)
    case Break => Broke(mem)
    case Continue => Continued(mem)
    case Return(None) => Returned(None, mem)
    case Return(Some(x)) => var v := m.val(x, mem); Returned(Some(v.r0), v.mem)
  }

  // for and while once the initial expression is done.
  function ExecLoop(test: Option<Cond>, incr: Option<nat>, s: Stmt, e: Entry, m: Sem, mem: Mem, fuel: nat): Outcome
    decreases fuel, s, 1
  {
    var o :=
      if e.Start? && test.Some? then
        var v := Truth(test.value, m, mem);
        if v.truth then Exec(s, Start, m, v.mem, fuel) else Broke(v.mem)
      else Exec(s, e, m, mem, fuel);
    if o.Normal? || o.Continued? then
      var mem1 := if incr.Some? then m.act(incr.value, o.mem).mem else o.mem;
      if fuel == 0 then Unfinished else ExecLoop(test, incr, s, Start, m, mem1, fuel - 1)
    else AfterBreak(o)
  }

  // ---- target

  datatype CaseLab = CaseLab(lab: int, val: int)

  datatype Instr =
    | Label(l: int)
    | Jmp(l: int)
    | CBr(c: Cond, l: int, cond: bool)           // jump if the truth of c is cond
    | Act(e: nat)
    | Val(e: nat)
    | Load(v: int)                               // a constant into r0
    | Swit(def: int, cases: seq<CaseLab>)        // jump by the value in r0

  datatype Conf = Conf(pc: nat, r0: int, mem: Mem)

  // Where a label is; one past the end and more where it is not.
  function Find(code: seq<Instr>, l: int): nat {
    if code == [] then 1 else if code[0] == Label(l) then 0 else 1 + Find(code[1..], l)
  }

  function Pick(cases: seq<CaseLab>, def: int, v: int): int {
    if cases == [] then def else if cases[0].val == v then cases[0].lab else Pick(cases[1..], def, v)
  }

  function Step(code: seq<Instr>, m: Sem, c: Conf): Conf {
    if |code| <= c.pc then c else
    match code[c.pc]
    case Label(_) => c.(pc := c.pc + 1)
    case Jmp(l) => c.(pc := Find(code, l))
    case CBr(d, l, cond) =>
      var v := Truth(d, m, c.mem);
      Conf(if v.truth == cond then Find(code, l) else c.pc + 1, v.r0, v.mem)
    case Act(e) => var v := m.act(e, c.mem); Conf(c.pc + 1, v.r0, v.mem)
    case Val(e) => var v := m.val(e, c.mem); Conf(c.pc + 1, v.r0, v.mem)
    case Load(v) => Conf(c.pc + 1, v, c.mem)
    case Swit(def, cases) => c.(pc := Find(code, Pick(cases, def, c.r0)))
  }

  function Run(code: seq<Instr>, m: Sem, c: Conf, k: nat): Conf
    decreases k
  {
    if k == 0 then c else Run(code, m, Step(code, m, c), k - 1)
  }

  // ---- statement() of c02.c

  // contlab, brklab and retlab; 0 where there is none.
  datatype Ctx = Ctx(cont: int, brk: int, ret: int)

  // What a statement emits, isn after it, and what it adds to the switch around it.
  datatype Frag = Frag(code: seq<Instr>, n: nat, cases: seq<CaseLab>, def: int)

  function Later(def1: int, def2: int): int { if def2 != 0 then def2 else def1 }

  // The jumps that "if" branches straight to the target of.
  predicate SimpleJump(s: Stmt) {
    s.Break? || s.Continue? || s == Return(None)
  }

  function JumpTarget(s: Stmt, x: Ctx): int
    requires SimpleJump(s)
  {
    if s.Break? then x.brk else if s.Continue? then x.cont else x.ret
  }

  function Gen(s: Stmt, x: Ctx, n: nat): (f: Frag)
    ensures n <= f.n
    decreases s, 0
  {
    match s
    case Skip => Frag([], n, [], 0)
    case Do(e) => Frag([Act(e)], n, [], 0)
    case Seq(s1, s2) =>
      var f1 := Gen(s1, x, n);
      var f2 := Gen(s2, x, f1.n);
      Frag(f1.code + f2.code, f2.n, f1.cases + f2.cases, Later(f1.def, f2.def))
    case If(c, s1) =>
      if SimpleJump(s1) then Frag([CBr(c, JumpTarget(s1, x), true)], n, [], 0)
      else
        var f := Gen(s1, x, n + 1);
        f.(code := [CBr(c, n, false)] + f.code + [Label(n)])
    case IfElse(c, s1, s2) =>
      if SimpleJump(s1) then
        var f := Gen(s2, x, n);
        f.(code := [CBr(c, JumpTarget(s1, x), true)] + f.code)
      else
        var f1 := Gen(s1, x, n + 1);
        if s1.Return? then
          var f2 := Gen(s2, x, f1.n);
          f2.(code := [CBr(c, n, false)] + f1.code + [Label(n)] + f2.code)
        else
          var f2 := Gen(s2, x, f1.n + 1);
          Frag([CBr(c, n, false)] + f1.code + [Jmp(f1.n), Label(n)] + f2.code + [Label(f1.n)],
               f2.n, f1.cases + f2.cases, Later(f1.def, f2.def))
    case While(c, s1) =>
      var f := Gen(s1, x.(cont := n, brk := n + 1), n + 2);
      f.(code := [Label(n), CBr(c, n + 1, false)] + f.code + [Jmp(n), Label(n + 1)])
    case DoWhile(s1, c) =>
      var f := Gen(s1, x.(cont := n, brk := n + 1), n + 3);
      f.(code := [Label(n + 2)] + f.code + [Label(n), CBr(c, n + 2, true), Label(n + 1)])
    case For(init, test, incr, s1) =>
      var f := GenLoop(test, incr, s1, x, n);
      if init.Some? then f.(code := [Act(init.value)] + f.code) else f
    case Switch(e, s1) =>
      var f := Gen(s1, x.(brk := n), n + 2);
      var swit := Swit(Later(n, f.def), f.cases);
      Frag([Val(e), Jmp(n + 1)] + f.code + [Jmp(n), Label(n + 1), swit, Label(n)], f.n, [], 0)
    case Case(v, s1) =>
      var f := Gen(s1, x, n + 1);
      Frag([Label(n)] + f.code, f.n, [CaseLab(n, v)] + f.cases, f.def)
    case Default(s1) =>
      var f := Gen(s1, x, n + 1);
      Frag([Label(n)] + f.code, f.n, f.cases, Later(n, f.def))
    case Break => Frag([Jmp(x.brk)], n, [], 0)
    case Continue => Frag([Jmp(x.cont)], n, [], 0)
    case Return(None) => Frag([Jmp(x.ret)], n, [], 0)
    case Return(Some(e)) => Frag([Val(e), Jmp(x.ret)], n, [], 0)
  }

  // forstmt() after the initial expression: the test, and the increment after the body.
  function LoopTest(test: Option<Cond>, n: nat): seq<Instr> {
    if test.Some? then [CBr(test.value, n + 1, false)] else []
  }

  function GenLoop(test: Option<Cond>, incr: Option<nat>, s: Stmt, x: Ctx, n: nat): (f: Frag)
    ensures n <= f.n
    decreases s, 1
  {
    if incr.None? then
      var f := Gen(s, x.(cont := n, brk := n + 1), n + 2);
      f.(code := [Label(n)] + LoopTest(test, n) + f.code + [Jmp(n), Label(n + 1)])
    else
      var f := Gen(s, x.(cont := n + 2, brk := n + 1), n + 3);
      f.(code := [Label(n)] + LoopTest(test, n) + f.code + [Label(n + 2), Act(incr.value), Jmp(n), Label(n + 1)])
  }

  // cfunc(): the body, then the label that return branches to.
  function GenFunction(s: Stmt, n: nat): seq<Instr> {
    Gen(s, Ctx(0, 0, n), n + 1).code + [Label(n)]
  }

  // ---- when statement() reports no error

  const SWSIZ := 200

  // May break leave something here, may continue, is there a switch, and how full is its table?
  datatype Place = Place(brk: bool, cont: bool, switch: bool, used: nat)

  predicate Legal(s: Stmt, p: Place)
    decreases s
  {
    match s
    case Break => p.brk
    case Continue => p.cont
    case Seq(s1, s2) => Legal(s1, p) && Legal(s2, p.(used := p.used + |CaseVals(s1)|))
    case If(_, s1) => Legal(s1, p)
    case IfElse(_, s1, s2) => Legal(s1, p) && Legal(s2, p.(used := p.used + |CaseVals(s1)|))
    case While(_, s1) => Legal(s1, p.(brk := true, cont := true))
    case DoWhile(s1, _) => Legal(s1, p.(brk := true, cont := true))
    case For(_, _, _, s1) => Legal(s1, p.(brk := true, cont := true))
    case Switch(_, s1) => Legal(s1, p.(brk := true, switch := true))
    case Case(_, s1) => p.switch && p.used < SWSIZ && Legal(s1, p.(used := p.used + 1))
    case Default(s1) => p.switch && Legal(s1, p)
    case _ => true
  }
}
