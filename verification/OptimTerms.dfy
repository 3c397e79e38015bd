// What the optimizer of v6/c/c12.c must keep true of a tree: its value, a termination
// weight, and the forms it never produces.
module OptimTerms {
  import opened Helpers
  import opened Words
  import opened Trees

  // ---- termination

  function OpWeight(op: Op): (w: nat)
    ensures 2 <= w <= 3
  {
    if op == And || op == Rshift then 3 else 2
  }

  function Weight(t: Tree): (w: nat)
    ensures w >= 1
  {
    match t
    case Un(_, _, s) => 1 + Weight(s)
    case Bin(op, _, l, r) => OpWeight(op) + Weight(l) + Weight(r)
    case _ => 1
  }

  function SumWeight(ts: seq<Tree>): (w: nat)
    ensures w >= |ts|
  {
    if ts == [] then 0 else SumWeight(ts[..|ts| - 1]) + Weight(ts[|ts| - 1])
  }

  lemma SumAppend(ts: seq<Tree>, t: Tree)
    ensures SumWeight(ts + [t]) == SumWeight(ts) + Weight(t)
  {
    assert (ts + [t])[..|ts|] == ts;
  }

  lemma {:induction false} SumWithout(ts: seq<Tree>, i: nat)
    requires i < |ts|
    ensures SumWeight(ts) == SumWeight(Without(ts, i)) + Weight(ts[i])
    decreases |ts|
  {
    var n := |ts| - 1;
    if i == n {
      assert Without(ts, i) == ts[..n];
    } else {
      SumWithout(ts[..n], i);
      assert Without(ts, i) == Without(ts[..n], i) + [ts[n]];
      SumAppend(Without(ts[..n], i), ts[n]);
    }
  }

  lemma SumUpdate(ts: seq<Tree>, i: nat, t: Tree)
    requires i < |ts|
    ensures SumWeight(ts[i := t]) == SumWeight(ts) - Weight(ts[i]) + Weight(t)
  {
    SumWithout(ts, i);
    SumWithout(ts[i := t], i);
    assert Without(ts[i := t], i) == Without(ts, i);
  }

  // ---- shift counts

  // Does c have the value v in every environment?
  ghost predicate Always(c: Tree, v: int) {
    forall env :: Eval(c, env) == v
  }

  // The values for which S(v) > 0 but the six bits that ash reads are negative.
  predicate Backward(v: int) {
    S(v) > 0 && W(v) % 64 >= 32
  }

  // A count that has such a value in every environment.
  ghost predicate BackwardCount(c: Tree) {
    exists v :: Backward(v) && Always(c, v)
  }

  // Is there a + or - in t?
  predicate HasSum(t: Tree) {
    match t
    case Un(_, _, s) => HasSum(s)
    case Bin(op, _, l, r) => op == Plus || op == Minus || HasSum(l) || HasSum(r)
    case _ => false
  }

  // A shift of a sum by a constant that ash reads the other way round: a left shift by c,
  // or a right shift by -c.
  ghost predicate Skewed(op: Op, l: Tree, r: Tree) {
    && HasSum(l)
    && (op == Lshift || op == Rshift)
    && BackwardCount(if op == Lshift then r else Un(Neg, 0, r))
  }

  // No shift in t is skewed.
  ghost predicate Tame(t: Tree) {
    match t
    case Un(_, _, s) => Tame(s)
    case Bin(op, _, l, r) => Tame(l) && Tame(r) && !Skewed(op, l, r)
    case _ => true
  }

  lemma SameCount(c: Tree, d: Tree)
    requires SameValue(c, d) && BackwardCount(d)
    ensures BackwardCount(c)
  {
    hide Eval, S;
    var v :| Backward(v) && Always(d, v);
    assert Always(c, v);
  }

  lemma SameSkew(op: Op, l: Tree, r: Tree, l': Tree, r': Tree)
    requires Skewed(op, l', r') && (HasSum(l') ==> HasSum(l)) && SameValue(r, r')
    ensures Skewed(op, l, r)
  {
    hide HasSum, BackwardCount;
    if op == Lshift {
      SameCount(r, r');
    } else {
      forall env
        ensures Eval(Un(Neg, 0, r'), env) == Eval(Un(Neg, 0, r), env)
      {
      }
      SameCount(Un(Neg, 0, r), Un(Neg, 0, r'));
    }
  }

  // ---- what an operator may be the cause of

  // Trees of at most this weight never overflow a list.
  const SMALL := 61

  // Sum: + or -. ZeroDivisor: a division whose right operand is 0 in every environment, or
  // is not tame. Heavy: an operator that may come into a list, over more than a list holds.
  datatype Kind = Sum | ZeroDivisor | Heavy

  ghost predicate AtNode(k: Kind, op: Op, l: Tree, r: Tree) {
    match k
    case Sum => op == Plus || op == Minus
    case ZeroDivisor => (op == Divide || op == Mod) && (Always(r, 0) || !Tame(r))
    case Heavy => Listable(op) && OpWeight(op) + Weight(l) + Weight(r) > SMALL
  }

  predicate Listable(op: Op) {
    Commutes(op) || op == Minus || op == Lshift || op == Rshift
  }

  // Is there an operator of the kind in t?
  ghost predicate Has(k: Kind, t: Tree) {
    if k == Sum then HasSum(t) else
    match t
    case Un(_, _, s) => Has(k, s)
    case Bin(op, _, l, r) => AtNode(k, op, l, r) || Has(k, l) || Has(k, r)
    case _ => false
  }

  lemma {:induction false} LightTrees(t: Tree)
    requires Weight(t) <= SMALL
    ensures !Has(Heavy, t)
  {
    match t
    case Un(_, _, s) => LightTrees(s);
    case Bin(_, _, l, r) =>
      LightTrees(l);
      LightTrees(r);
    case _ =>
  }

  // The definitions, one level down.
  lemma BinFacts(t: Tree)
    requires t.Bin?
    ensures forall env :: Eval(t, env) == Ap(t.op, Eval(t.l, env), Eval(t.r, env), env)
    ensures Weight(t) == OpWeight(t.op) + Weight(t.l) + Weight(t.r)
    ensures Tame(t) <==> Tame(t.l) && Tame(t.r) && !Skewed(t.op, t.l, t.r)
    ensures forall k :: Has(k, t) <==> AtNode(k, t.op, t.l, t.r) || Has(k, t.l) || Has(k, t.r)
    ensures HasSum(t.l) == Has(Sum, t.l)
  {
  }

  lemma UnFacts(t: Tree)
    requires t.Un?
    ensures forall env :: Eval(t, env) == ApUn(t.u, Eval(t.t, env))
    ensures Weight(t) == 1 + Weight(t.t)
    ensures Tame(t) <==> Tame(t.t)
    ensures forall k :: Has(k, t) <==> Has(k, t.t)
  {
  }

  lemma ConFacts(t: Tree)
    requires t.Con?
    ensures Weight(t) == 1 && Tame(t) && Clean(t) && forall k :: !Has(k, t)
    ensures BackwardCount(t) <==> Backward(t.value)
  {
    assert Always(t, W(t.value));
    var env := SomeEnv();
    assert forall v :: Always(t, v) ==> Eval(t, env) == v;
  }

  ghost function SomeEnv(): Env {
    Env(_ => 0, _ => 0, _ => 0, _ => 0)
  }

  ghost predicate AllTame(ts: seq<Tree>) {
    forall i :: 0 <= i < |ts| ==> Tame(ts[i])
  }

  ghost predicate NoneOf(k: Kind, ts: seq<Tree>) {
    forall i :: 0 <= i < |ts| ==> !Has(k, ts[i])
  }

  // ---- what a rewriting keeps

  ghost predicate SameValue(t: Tree, r: Tree) {
    forall env :: Eval(r, env) == Eval(t, env)
  }

  // skew: the rule on shifts of sums was applied with a Backward count on the way from t
  // to r. Otherwise the value is kept, and it cannot have been if t is tame.
  ghost predicate Keeps(t: Tree, r: Tree, skew: bool) {
    && (!skew ==> SameValue(t, r))
    && (Tame(t) ==> Tame(r) && !skew)
    && (forall k :: Has(k, r) ==> Has(k, t))
    && Weight(r) <= Weight(t)
  }

  lemma KeepsTrans(a: Tree, b: Tree, c: Tree, s1: bool, s2: bool)
    requires Keeps(a, b, s1) && Keeps(b, c, s2)
    ensures Keeps(a, c, s1 || s2)
  {
    hide Tame, Weight, Eval, Has;
  }

  lemma KeepsBin(op: Op, d: int, d': int, l: Tree, r: Tree, l': Tree, r': Tree, s1: bool, s2: bool)
    requires Keeps(l, l', s1) && Keeps(r, r', s2)
    ensures Keeps(Bin(op, d, l, r), Bin(op, d', l', r'), s1 || s2)
  {
    hide Tame, Weight, Eval, Has, Skewed, Ap;
    var t, t' := Bin(op, d, l, r), Bin(op, d', l', r');
    BinFacts(t);
    BinFacts(t');
    if Tame(t) && Skewed(op, l', r') {
      SameSkew(op, l, r, l', r');
    }
    if AtNode(ZeroDivisor, op, l', r') && Tame(r) {
      assert Always(r, 0);
    }
  }

  lemma KeepsUn(u: UnOp, d: int, d': int, s: Tree, s': Tree, skew: bool)
    requires Keeps(s, s', skew)
    ensures Keeps(Un(u, d, s), Un(u, d', s'), skew)
  {
    hide Tame, Weight, Eval, Has, Skewed;
    UnFacts(Un(u, d, s));
    UnFacts(Un(u, d', s'));
  }

  // ---- degrees

  function Degree(t: Tree): int {
    match t
    case Con(_) => -3
    case Amper(_, _) => -2
    case Name(_) => 0
    case Un(_, d, _) => d
    case Bin(_, d, _, _) => d
  }

  function Max(a: int, b: int): int { if a > b then a else b }

  // An optimized tree: a positive degree, and no rule applies at its root. No & is left (it
  // has become &~); what distrib makes of a sum is not settled.
  predicate Clean(t: Tree) {
    match t
    case Un(u, d, s) => d >= 1 && Clean(s) && TidyUn(u, s)
    case Bin(op, d, l, r) => d >= 1 && op != And && Tidy(op, l, r)
    case _ => true
  }

  predicate TidyUn(u: UnOp, s: Tree) {
    if u == Excla then !(s.Bin? && s.op.Rel?) else !s.Con? && !(s.Un? && s.u == u)
  }

  // No constants to fold, no operand to drop, no operands to exchange, no operator that
  // another stands for.
  predicate Tidy(op: Op, l: Tree, r: Tree) {
    match op
    case Minus => !r.Con?
    case Times => !l.Con? && (r.Con? ==> W(r.value) != 0 && W(r.value) != 1)
    case Or => !l.Con? && (r.Con? ==> W(r.value) != 0)
    case Exor => !l.Con?
    case Divide => !(l.Con? && r.Con?) && (r.Con? ==> W(r.value) != 1)
    case Mod => !(l.Con? && r.Con?)
    case Lshift => !(l.Con? && r.Con?) && (r.Con? ==> W(r.value) != 0)
    case Rshift => !l.Con? && r.Con? && W(r.value) == 1
    case Rel(_) => Degree(l) >= Degree(r) && (Degree(l) == Degree(r) && l.Name? ==> r.Name?)
    case _ => true
  }

  ghost predicate AllClean(ts: seq<Tree>) {
    forall i :: 0 <= i < |ts| ==> Clean(ts[i])
  }

  ghost predicate Descending(ts: seq<Tree>) {
    forall i, j :: 0 <= i < j < |ts| ==> Degree(ts[i]) >= Degree(ts[j])
  }

  // ---- operand lists

  // Weight taken out of a tree so far: n op nodes, operands ts.
  function Load(op: Op, n: nat, ts: seq<Tree>): nat {
    n * OpWeight(op) + SumWeight(ts)
  }

  lemma LoadNext(op: Op, n: nat, ts: seq<Tree>)
    ensures Load(op, n + 1, ts) == Load(op, n, ts) + OpWeight(op)
  {
  }

  // Two operands become one of no more than their weight.
  lemma LoadMerged(op: Op, ts: seq<Tree>, i: nat, j: nat, u: Tree)
    requires i < |ts| && j < |ts| && i != j
    requires Weight(u) <= Weight(ts[i]) + Weight(ts[j]) + OpWeight(op)
    ensures Load(op, |ts| - 2, Without(ts[i := u], j)) <= Load(op, |ts| - 1, ts)
  {
    SumUpdate(ts, i, u);
    SumWithout(ts[i := u], j);
    assert ts[i := u][j] == ts[j];
    LoadNext(op, |ts| - 2, ts);
  }

  // ts are operands of op that together stand for t, with op nodes to spare.
  ghost predicate Operands(op: Op, t: Tree, ts: seq<Tree>, n: nat, skew: bool): (ok: bool)
    ensures ok ==> Commutes(op) && |ts| > 0
  {
    && Commutes(op)
    && 1 <= |ts| <= n + 1
    && Load(op, |ts| - 1, ts) <= Weight(t)
    && AllClean(ts)
    && (!skew ==> ListValue(op, t, ts))
    && (Tame(t) ==> AllTame(ts) && !skew)
    && (forall k :: !Has(k, t) ==> NoneOf(k, ts))
    && (Weight(t) > SMALL ==> Has(Heavy, t))
  }

  ghost predicate ListValue(op: Op, t: Tree, ts: seq<Tree>)
    requires Commutes(op)
  {
    forall env :: ListEval(op, ts, env) == Eval(t, env)
  }

  // ---- the rewriting rules, as facts about values

  function RelMap(rel: RelOp): RelOp {
    match rel
    case Equal => Equal
    case Nequal => Nequal
    case Lesseq => Greateq
    case Less => Great
    case Greateq => Lesseq
    case Great => Less
    case LesseqP => GreatqP
    case LessP => GreatP
    case GreatqP => LesseqP
    case GreatP => LessP
  }

  function NotRel(rel: RelOp): RelOp {
    match rel
    case Equal => Nequal
    case Nequal => Equal
    case Lesseq => Great
    case Less => Greateq
    case Greateq => Less
    case Great => Lesseq
    case LesseqP => GreatP
    case LessP => GreatqP
    case GreatqP => LessP
    case GreatP => LesseqP
  }

  // maprel is what exchanging the operands needs; notrel is negation.
  lemma RelTables(rel: RelOp, a: int, b: int)
    ensures Compare(RelMap(rel), b, a) == Compare(rel, a, b)
    ensures Compare(NotRel(rel), a, b) == Truth(Compare(rel, a, b) == 0)
    ensures RelMap(RelMap(rel)) == rel && NotRel(NotRel(rel)) == rel
  {
  }

  // c1*(x+c2) and (x+c2)<<c1, as insert() matches them.
  predicate Expandable(t: Tree) {
    && t.Bin? && (t.op == Times || t.op == Lshift)
    && t.r.Con? && S(t.r.value) > 0
    && t.l.Bin? && t.l.op == Plus && t.l.r.Con?
  }

  // c1*x + c1*c2 and (x<<c1) + (c2<<c1).
  function Expand(t: Tree): Tree
    requires Expandable(t)
  {
    var d, c := t.r.value, t.l.r.value;
    Bin(Plus, t.deg,
        Bin(t.op, t.l.deg, t.l.l, Con(d)),
        Con(if t.op == Times then Mul(d, c) else Ash(W(c), W(d))))
  }

  lemma ExpandTimesValue(v: int, c: int, d: int)
    ensures Mul(Add(v, W(c)), W(d)) == Add(Mul(v, W(d)), W(Mul(d, c)))
  {
    hide W;
    MulDistrib(v, W(c), W(d));
    WMul(d, c);
    WMul(W(d), c);
    assert Mul(W(c), W(d)) == W(W(d) * W(c)) == W(d * c);
    assert W(W(d * c)) == W(d * c) by { WAdd(d * c, 0); }
  }

  lemma ExpandValue(t: Tree, env: Env)
    requires Expandable(t) && (t.op == Lshift ==> 0 <= AshCount(W(t.r.value)))
    ensures Eval(Expand(t), env) == Eval(t, env)
  {
    hide W, Mul, Add, Ash, AshCount, S;
    var d, c, v := t.r.value, t.l.r.value, Eval(t.l.l, env);
    assert Eval(t.l, env) == Add(v, W(c));
    assert Eval(Expand(t).l, env) == Ap(t.op, v, W(d), env);
    if t.op == Times {
      ExpandTimesValue(v, c, d);
    } else {
      AshAdd(v, W(c), W(d));
      WSmall(Ash(W(c), W(d)));
    }
  }

  // Does the rule meet a count that ash reads the other way round?
  predicate ExpandsBackward(t: Tree) {
    Expandable(t) && t.op == Lshift && Backward(t.r.value)
  }

  lemma ExpandKeeps(t: Tree)
    requires Expandable(t)
    ensures Keeps(t, Expand(t), ExpandsBackward(t))
    ensures Clean(t) ==> Clean(Expand(t))
  {
    hide Backward;
    var u := Expand(t);
    BinFacts(t);
    BinFacts(t.l);
    BinFacts(u);
    BinFacts(u.l);
    ConFacts(t.r);
    ConFacts(u.r);
    ConFacts(u.l.r);
    if !ExpandsBackward(t) {
      forall env
        ensures Eval(u, env) == Eval(t, env)
      {
        ForwardCount(t.r.value);
        ExpandValue(t, env);
      }
    }
  }

  lemma ForwardCount(v: int)
    ensures S(v) > 0 && !Backward(v) ==> 0 <= AshCount(W(v))
    ensures Backward(v) ==> AshCount(W(v)) < 0
  {
  }

  // Every application of the rule on shifts to an x+c that is a sum, c not being 0: for x a
  // variable it is right exactly when the count, taken modulo 64, is below 32.
  lemma ExpandShiftIff(t: Tree)
    requires Expandable(t) && t.op == Lshift && t.l.l.Name? && W(t.l.r.value) != 0
    ensures SameValue(t, Expand(t)) <==> W(t.r.value) % 64 < 32
  {
    ConFacts(t.r);
    if Backward(t.r.value) {
      ExpandShiftFails(t, Expand(t));
    } else {
      ExpandKeeps(t);
    }
  }

  // The variable holds the largest word if c is positive and the smallest if it is negative,
  // so that x+c wraps around and its sign is wrong.
  function Wrapping(c: int): Env {
    Env(_ => if S(c) > 0 then 32767 else 32768, _ => 0, _ => 0, _ => 0)
  }

  lemma ExpandShiftFails(t: Tree, u: Tree)
    requires ExpandsBackward(t) && t.l.l.Name? && W(t.l.r.value) != 0 && u == Expand(t)
    ensures Eval(u, Wrapping(t.l.r.value)) != Eval(t, Wrapping(t.l.r.value))
  {
    var c, d := t.l.r.value, t.r.value;
    var env := Wrapping(c);
    var x := if S(c) > 0 then 32767 else 32768;
    WrapShifts(x, c, W(d));
    assert Eval(t.l, env) == Add(x, W(c));
    assert Eval(u.l, env) == Ash(x, W(d));
    WSmall(Ash(W(c), W(d)));
    assert Eval(u.r, env) == Ash(W(c), W(d));
  }

  lemma WrapShifts(x: int, c: int, n: int)
    requires AshCount(n) < 0 && W(c) != 0 && x == if S(c) > 0 then 32767 else 32768
    ensures Ash(Add(x, W(c)), n) != Add(Ash(x, n), Ash(W(c), n))
  {
    hide Ash, AshCount, S, Halved;
    var a := AshHalves(x, n);
    var b := AshHalves(W(c), n);
    var z := AshHalves(Add(x, W(c)), n);
    SShared(W(c), c);
    WAdd(a, b);
    SignsDiffer(x, c, a, b, z);
  }

  lemma AshHalves(x: int, n: int) returns (q: int)
    requires AshCount(n) < 0
    ensures Ash(x, n) == W(q) && Halved(S(x), q)
  {
    hide Pow2, Halved, S, W;
    var p := Pow2(-AshCount(n));
    PowEven(-AshCount(n));
    q := S(x) / p;
    SRange(x);
    HalfWord(S(x), p);
  }

  lemma SRange(x: int)
    ensures -32768 <= S(x) < 32768
  {
  }

  lemma SignsDiffer(x: int, c: int, a: int, b: int, z: int)
    requires W(c) != 0 && x == if S(c) > 0 then 32767 else 32768
    requires Halved(S(x), a) && Halved(S(c), b) && Halved(S(Add(x, W(c))), z)
    ensures W(z) != W(a + b)
  {
    if S(c) > 0 {
      assert S(Add(x, W(c))) < 0;
    } else {
      assert S(Add(x, W(c))) >= 0;
    }
  }

  // Of the same sign and of at most half the range.
  predicate Halved(s: int, q: int) {
    if s >= 0 then 0 <= q <= 16383 else -16384 <= q <= -1
  }

  lemma PowEven(k: nat)
    requires k > 0
    ensures Pow2(k) >= 2
  {
  }

  lemma HalfWord(s: int, p: int)
    requires -32768 <= s < 32768 && p >= 2
    ensures Halved(s, s / p)
  {
    var q := s / p;
    assert p * q <= s < p * q + p;
    assert p * q + p == p * (q + 1);
    if q >= 0 { Doubled(p, q); } else { Doubled(p, -q); Negative(p, q); }
    if q >= -1 { Doubled(p, q + 1); } else { Doubled(p, -q - 1); Negative(p, q + 1); }
  }

  lemma Doubled(p: int, q: int)
    requires p >= 2 && q >= 0
    ensures p * q >= 2 * q
  {
  }

  lemma Negative(p: int, q: int)
    ensures p * q == -(p * -q)
  {
  }

  // x*c1 + y*c2 with c1 == q*c2: (x*q + y)*c2.
  lemma FactorValue(x: int, y: int, q: int, c1: int, c2: int)
    requires W(c1) == W(q * c2)
    ensures Mul(Add(Mul(x, W(q)), y), W(c2)) == Add(Mul(x, W(c1)), Mul(y, W(c2)))
  {
    MulDistrib(Mul(x, W(q)), y, W(c2));
    MulAssoc(x, W(q), W(c2));
    WMul(q, c2);
    WMul(W(q), c2);
  }

  lemma QuoExact(a: int, b: int)
    requires b != 0 && Rem(a, b) == 0
    ensures a == Quo(a, b) * b
  {
  }

  // a & b == a &~ ~b, which is how & leaves the optimizer.
  lemma NandValue(a: int, b: int)
    requires 0 <= b < RADIX
    ensures BitOp(BitAnd, a, Not(Not(b))) == BitOp(BitAnd, a, b)
  {
  }

  lemma NandZero(a: int)
    requires 0 <= a < RADIX
    ensures BitOp(BitAnd, a, Not(0)) == a
  {
    Pow2Sixteen();
    BitsConst(16, a);
  }
}
