// Expression trees of the second pass of the Sixth Edition C compiler (v6/c/c1h.c),
// restricted to type INT and to operators without side effects, and their meaning.
module Trees {
  import opened Helpers
  import opened Words

  datatype RelOp = Equal | Nequal | Lesseq | Less | Greateq | Great | LesseqP | LessP | GreatqP | GreatP

  datatype UnOp = Neg | Compl | Excla

  datatype Op =
    | Plus | Minus | Times | Divide | Mod | Rshift | Lshift
    | And | Nand | Or | Exor | LogAnd | LogOr
    | Rel(rel: RelOp)

  // deg is the degree field of struct tnode, meaningful once the node has been optimized.
  datatype Tree =
    | Name(id: nat)
    | Con(value: int)
    | Amper(sym: nat, offset: int)
    | Un(u: UnOp, deg: int, t: Tree)
    | Bin(op: Op, deg: int, l: Tree, r: Tree)

  // The contents of variables, the addresses of externals, and whatever dividing by
  // zero happens to produce.
  datatype Env = Env(name: nat -> int, address: nat -> int, div0: int -> int, mod0: int -> int)

  function Truth(b: bool): nat { if b then 1 else 0 }

  function Compare(rel: RelOp, a: int, b: int): (r: int)
    ensures 0 <= r < RADIX
  {
    match rel
    case Equal => Truth(W(a) == W(b))
    case Nequal => Truth(W(a) != W(b))
    case Lesseq => Truth(S(a) <= S(b))
    case Less => Truth(S(a) < S(b))
    case Greateq => Truth(S(a) >= S(b))
    case Great => Truth(S(a) > S(b))
    case LesseqP => Truth(W(a) <= W(b))
    case LessP => Truth(W(a) < W(b))
    case GreatqP => Truth(W(a) >= W(b))
    case GreatP => Truth(W(a) > W(b))
  }

  function ApUn(u: UnOp, a: int): (r: int)
    ensures 0 <= r < RADIX
  {
    match u
    case Neg => W(-a)
    case Compl => Not(a)
    case Excla => Truth(a == 0)
  }

  // The machine's operation on two words.
  function Ap(op: Op, a: int, b: int, env: Env): (r: int)
    ensures 0 <= r < RADIX
  {
    match op
    case Plus => Add(a, b)
    case Minus => W(a - b)
    case Times => Mul(a, b)
    case Divide => if S(b) == 0 then W(env.div0(a)) else W(Quo(S(a), S(b)))
    case Mod => if S(b) == 0 then W(env.mod0(a)) else W(Rem(S(a), S(b)))
    case Rshift => Ash(a, W(-b))
    case Lshift => Ash(a, b)
    case And => BitOp(BitAnd, a, b)
    case Nand => BitOp(BitAnd, a, Not(b))
    case Or => BitOp(BitOr, a, b)
    case Exor => BitOp(BitXor, a, b)
    case LogAnd => Truth(a != 0 && b != 0)
    case LogOr => Truth(a != 0 || b != 0)
    case Rel(rel) => Compare(rel, a, b)
  }

  function Eval(t: Tree, env: Env): (v: int)
    ensures 0 <= v < RADIX
  {
    match t
    case Name(id) => W(env.name(id))
    case Con(v) => W(v)
    case Amper(sym, off) => Add(env.address(sym), off)
    case Un(u, _, s) => ApUn(u, Eval(s, env))
    case Bin(op, _, l, r) => Ap(op, Eval(l, env), Eval(r, env), env)
  }

  // The COMMUTE bit of opdope.
  predicate Commutes(op: Op) {
    op == Plus || op == Times || op == And || op == Or || op == Exor
  }

  function Unit(op: Op): int
    requires Commutes(op)
  {
    match op
    case Times => 1
    case And => RADIX - 1
    case _ => 0
  }

  // A commutative operator's meaning does not depend on the environment.
  function Join(op: Op, a: int, b: int): (r: int)
    requires Commutes(op)
    ensures 0 <= r < RADIX
    ensures forall env: Env :: r == Ap(op, a, b, env)
  {
    match op
    case Plus => Add(a, b)
    case Times => Mul(a, b)
    case And => BitOp(BitAnd, a, b)
    case Or => BitOp(BitOr, a, b)
    case _ => BitOp(BitXor, a, b)
  }

  lemma JoinComm(op: Op, a: int, b: int)
    requires Commutes(op)
    ensures Join(op, a, b) == Join(op, b, a)
  {
    hide Bits, W;
    BitsComm(BitAnd, 16, a, b);
    BitsComm(BitOr, 16, a, b);
    BitsComm(BitXor, 16, a, b);
  }

  lemma JoinAssoc(op: Op, a: int, b: int, c: int)
    requires Commutes(op)
    ensures Join(op, Join(op, a, b), c) == Join(op, a, Join(op, b, c))
  {
    hide Bits, Pow2, W;
    if op == Plus {
      WAdd(a + b, c);
      WAdd(a, b + c);
    } else if op == Times {
      MulAssoc(a, b, c);
    } else {
      BitsAssoc(if op == And then BitAnd else if op == Or then BitOr else BitXor, 16, a, b, c);
    }
  }

  lemma JoinUnit(op: Op, a: int)
    requires Commutes(op) && 0 <= a < RADIX
    ensures Join(op, a, Unit(op)) == a && Join(op, Unit(op), a) == a
  {
    hide Bits, Pow2;
    Pow2Sixteen();
    BitsConst(16, a);
    JoinComm(op, a, Unit(op));
  }

  // x*0 == 0 and x&0 == 0.
  lemma JoinZero(op: Op, a: int)
    requires op == Times || op == And
    requires 0 <= a < RADIX
    ensures Join(op, a, 0) == 0
  {
    Pow2Sixteen();
    BitsConst(16, a);
  }

  // ---- lists of operands of one commutative operator

  function ListEval(op: Op, ts: seq<Tree>, env: Env): (v: int)
    requires Commutes(op)
    ensures 0 <= v < RADIX
  {
    if ts == [] then Unit(op)
    else Join(op, ListEval(op, ts[..|ts| - 1], env), Eval(ts[|ts| - 1], env))
  }

  lemma ListAppend(op: Op, ts: seq<Tree>, t: Tree, env: Env)
    requires Commutes(op)
    ensures ListEval(op, ts + [t], env) == Join(op, ListEval(op, ts, env), Eval(t, env))
  {
    assert (ts + [t])[..|ts|] == ts;
  }

  lemma ListOne(op: Op, t: Tree, env: Env)
    requires Commutes(op)
    ensures ListEval(op, [t], env) == Eval(t, env)
  {
    ListAppend(op, [], t, env);
    assert [] + [t] == [t];
    JoinUnit(op, Eval(t, env));
  }

  // Any operand may be taken out and joined at the end.
  lemma {:induction false} TakeOut(op: Op, ts: seq<Tree>, i: nat, env: Env)
    requires Commutes(op) && i < |ts|
    ensures ListEval(op, ts, env) == Join(op, ListEval(op, Without(ts, i), env), Eval(ts[i], env))
    decreases |ts|
  {
    hide Join, Eval;
    var n := |ts| - 1;
    if i == n {
      assert Without(ts, i) == ts[..n];
    } else {
      var a, b := Eval(ts[i], env), Eval(ts[n], env);
      TakeOut(op, ts[..n], i, env);
      var rest := Without(ts[..n], i);
      assert Without(ts, i) == rest + [ts[n]];
      ListAppend(op, rest, ts[n], env);
      var v := ListEval(op, rest, env);
      JoinAssoc(op, v, a, b);
      JoinAssoc(op, v, b, a);
      JoinComm(op, a, b);
    }
  }

  // Exchanging a held operand with one in the list.
  lemma Exchange(op: Op, ts: seq<Tree>, i: nat, t: Tree, env: Env)
    requires Commutes(op) && i < |ts|
    ensures Join(op, ListEval(op, ts[i := t], env), Eval(ts[i], env)) == Join(op, ListEval(op, ts, env), Eval(t, env))
  {
    hide Join, Eval, ListEval;
    TakeOut(op, ts, i, env);
    TakeOut(op, ts[i := t], i, env);
    assert Without(ts[i := t], i) == Without(ts, i);
    var v, a, b := ListEval(op, Without(ts, i), env), Eval(ts[i], env), Eval(t, env);
    JoinAssoc(op, v, a, b);
    JoinAssoc(op, v, b, a);
    JoinComm(op, a, b);
  }

  // Operand i replaced by a tree that joins i and j, and j taken out.
  lemma Combine(op: Op, ts: seq<Tree>, i: nat, j: nat, t: Tree, env: Env)
    requires Commutes(op) && i < |ts| && j < |ts| && i != j
    requires Eval(t, env) == Join(op, Eval(ts[i], env), Eval(ts[j], env))
    ensures ListEval(op, Without(ts[i := t], j), env) == ListEval(op, ts, env)
  {
    hide Join, Eval, ListEval;
    var rest, i' := Without(ts, j), if i < j then i else i - 1;
    TakeOut(op, ts, j, env);
    TakeOut(op, rest, i', env);
    var u := Without(ts[i := t], j);
    assert u == rest[i' := t];
    TakeOut(op, u, i', env);
    assert Without(u, i') == Without(rest, i');
    var v, a, b := ListEval(op, Without(rest, i'), env), Eval(ts[i], env), Eval(ts[j], env);
    JoinAssoc(op, v, a, b);
  }
}
