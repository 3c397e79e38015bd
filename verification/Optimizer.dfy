// optim, unoptim, acommute, insert, distrib and const of v6/c/c12.c. The operand list
// (struct acl) is an object that insert fills and distrib shortens.
module Optimizer {
  import opened Helpers
  import opened Words
  import opened Trees
  import opened OptimTerms

  // Overflow: more than 20 operator nodes in one commutative list.
  // DivideCheck: a constant divided by the constant 0.
  datatype Outcome<+T> = Ok(value: T) | Overflow | DivideCheck {
    predicate IsFailure() { !Ok? }
    function PropagateFailure<U>(): Outcome<U>
      requires !Ok?
    {
      if Overflow? then Overflow else DivideCheck
    }
    function Extract(): T
      requires Ok?
    {
      value
    }
  }

  const NLIST := 20

  // const(): fold two constants.
  method Const(op: Op, v: int, w: int) returns (res: Outcome<int>)
    requires !op.Rel? && op != Minus && op != LogAnd && op != LogOr
    ensures res.Ok? ==> FoldsTo(op, v, w, res.value)
    ensures !res.Overflow? && (res.DivideCheck? <==> (op == Divide || op == Mod) && W(w) == 0)
  {
    hide BitOp, Ash, Mul, Add, Not, Quo, FoldsTo;
    if op == Divide || op == Mod {
      if S(w) == 0 {
        return DivideCheck;
      }
      var q := if op == Divide then Quo(S(v), S(w)) else Rem(S(v), S(w));
      QuotientFolds(op, v, w, q);
      return Ok(W(q));
    }
    var r := Folded(op, v, w);
    return Ok(r);
  }

  lemma QuotientFolds(op: Op, v: int, w: int, q: int)
    requires (op == Divide || op == Mod) && S(w) != 0
    requires q == if op == Divide then Quo(S(v), S(w)) else Rem(S(v), S(w))
    ensures FoldsTo(op, v, w, W(q))
  {
    hide Quo, W, S;
    WAdd(v, 0);
    WAdd(w, 0);
    WAdd(q, 0);
    SShared(W(v), v);
    SShared(W(w), w);
  }

  function Folded(op: Op, v: int, w: int): (r: int)
    requires !op.Rel? && op != Minus && op != LogAnd && op != LogOr && op != Divide && op != Mod
    ensures FoldsTo(op, v, w, r)
  {
    hide W, BitOp, Ash, Not;
    WAdd(v, w);
    WMul(v, w);
    WMul(W(v), w);
    var r := match op
      case Plus => Add(v, w)
      case Times => Mul(v, w)
      case And => BitOp(BitAnd, W(v), W(w))
      case Or => BitOp(BitOr, W(v), W(w))
      case Exor => BitOp(BitXor, W(v), W(w))
      case Rshift => Ash(W(v), W(-W(w)))
      case Lshift => Ash(W(v), W(w))
      case Nand => BitOp(BitAnd, W(v), Not(W(w)));
    WSmall(r);
    r
  }

  ghost predicate FoldsTo(op: Op, v: int, w: int, r: int) {
    forall env :: W(r) == Ap(op, W(v), W(w), env)
  }

  // x*c for a constant c, the members distrib works on.
  predicate Scaled(t: Tree) {
    t.Bin? && t.op == Times && t.r.Con?
  }

  function Scale(t: Tree): int
    requires Scaled(t)
  {
    S(t.r.value)
  }

  predicate Divides(a: int, b: int) {
    a != 0 && Rem(b, a) == 0
  }

  // Member j's constant divides member i's.
  predicate DividesAt(ts: seq<Tree>, j: int, i: int)
    requires 0 <= i < |ts| && 0 <= j < |ts|
  {
    i != j && Scaled(ts[i]) && Scaled(ts[j]) && Divides(Scale(ts[j]), Scale(ts[i]))
  }

  // How many of the first n members divide member i.
  function Divisors(ts: seq<Tree>, i: nat, n: nat): nat
    requires i < |ts| && n <= |ts|
  {
    if n == 0 then 0 else Divisors(ts, i, n - 1) + (if DividesAt(ts, n - 1, i) then 1 else 0)
  }

  // Divides no other member and is divided by at least one: may be reduced.
  ghost predicate Candidate(ts: seq<Tree>, i: nat)
    requires i < |ts|
  {
    && Scaled(ts[i])
    && Divisors(ts, i, |ts|) > 0
    && forall j :: 0 <= j < |ts| ==> !DividesAt(ts, i, j)
  }

  datatype Found =
    | Same(i: nat, j: nat)    // equal constants
    | Split(i: nat, j: nat)   // dividend and divisor
    | Nothing

  ghost predicate GoodFound(ts: seq<Tree>, f: Found) {
    match f
    case Same(i, j) =>
      i < |ts| && j < |ts| && i != j && Scaled(ts[i]) && Scaled(ts[j]) && Scale(ts[i]) == Scale(ts[j])
    case Split(i, j) =>
      && i < |ts| && j < |ts| && DividesAt(ts, j, i) && Candidate(ts, i)
      && forall k :: 0 <= k < |ts| && Candidate(ts, k) ==> Divisors(ts, i, |ts|) <= Divisors(ts, k, |ts|)
    case Nothing =>
      forall k :: 0 <= k < |ts| ==> !Candidate(ts, k)
  }

  // distrib's search. Every constant is nonzero, so the remainders exist.
  method Scan(ts: seq<Tree>) returns (f: Found)
    requires AllClean(ts) && |ts| <= NLIST + 1
    ensures GoodFound(ts, f)
  {
    var ndmaj, p1 := 1000, 0;
    f := Nothing;
    while p1 < |ts|
      invariant 0 <= p1 <= |ts|
      invariant f.Nothing? || f.Split?
      invariant f.Nothing? ==> ndmaj == 1000 && forall k :: 0 <= k < p1 ==> !Candidate(ts, k)
      invariant f.Split? ==> f.i < |ts| && f.j < |ts| && DividesAt(ts, f.j, f.i) && Candidate(ts, f.i)
                             && ndmaj == Divisors(ts, f.i, |ts|)
                             && forall k :: 0 <= k < p1 && Candidate(ts, k) ==> ndmaj <= Divisors(ts, k, |ts|)
    {
      if Scaled(ts[p1]) {
        var found, ndmin, mindiv := ScanOne(ts, p1);
        if found.Same? {
          return found;
        }
        DivisorsBound(ts, p1, |ts|);
        if found.Split? && ndmin > 0 && ndmin < ndmaj {
          ndmaj := ndmin;
          f := Split(p1, mindiv);
        }
      }
      p1 := p1 + 1;
    }
  }

  lemma DivisorsBound(ts: seq<Tree>, i: nat, n: nat)
    requires i < |ts| && n <= |ts|
    ensures Divisors(ts, i, n) <= n
  {
  }

  // The inner loop for one member: Same if an equal constant is met, Nothing if the member
  // divides another (contmaj), Split if it may be a dividend; then ndmin and mindiv count.
  method ScanOne(ts: seq<Tree>, p1: nat) returns (f: Found, ndmin: nat, mindiv: nat)
    requires AllClean(ts) && p1 < |ts| && Scaled(ts[p1])
    ensures f.Same? ==> GoodFound(ts, f)
    ensures f.Nothing? ==> !Candidate(ts, p1)
    ensures f.Split? ==> ndmin == Divisors(ts, p1, |ts|)
                         && (forall j :: 0 <= j < |ts| ==> !DividesAt(ts, p1, j))
                         && (ndmin > 0 ==> mindiv < |ts| && DividesAt(ts, mindiv, p1))
  {
    ndmin, mindiv := 0, 0;
    var p2 := 0;
    while p2 < |ts|
      invariant 0 <= p2 <= |ts|
      invariant ndmin == Divisors(ts, p1, p2)
      invariant forall j :: 0 <= j < p2 ==> !DividesAt(ts, p1, j)
      invariant ndmin > 0 ==> mindiv < |ts| && DividesAt(ts, mindiv, p1)
    {
      if p1 != p2 && Scaled(ts[p2]) {
        if Scale(ts[p1]) == Scale(ts[p2]) {
          return Same(p1, p2), ndmin, mindiv;
        }
        if Rem(Scale(ts[p2]), Scale(ts[p1])) == 0 {
          assert DividesAt(ts, p1, p2);
          return Nothing, ndmin, mindiv;
        }
        if Rem(Scale(ts[p1]), Scale(ts[p2])) == 0 {
          ndmin := ndmin + 1;
          mindiv := p2;
        }
      }
      p2 := p2 + 1;
    }
    f := Split(p1, mindiv);
  }

  // The operands stand for Plus of t, and no further reduction is possible.
  ghost predicate Reduced(ts: seq<Tree>) {
    forall k :: 0 <= k < |ts| ==> !Candidate(ts, k)
  }

  // ---- termination: PLUS-rooted trees may hand a TIMES-rooted tree of equal weight back

  function Rank(t: Tree): nat {
    if t.Bin? && (t.op == Plus || t.op == Minus) then 1 else 0
  }

  ghost predicate Improved(t: Tree, res: Outcome<Tree>, skew: bool) {
    && (res.Ok? ==> Keeps(t, res.value, skew) && Clean(res.value))
    && (!Has(Heavy, t) ==> !res.Overflow?)
    && (!Has(ZeroDivisor, t) ==> !res.DivideCheck?)
  }

  // What has been listed, tree and the pending operands fit in the list's 20 nodes.
  ghost predicate Roomy(op: Op, n: nat, ts: seq<Tree>, tree: Tree, pending: nat) {
    Load(op, n, ts) + Weight(tree) + pending <= SMALL && n <= |ts| + pending
  }

  // insert() has added the operands of tree to the list.
  ghost predicate Inserted(op: Op, was: seq<Tree>, n: nat, tree: Tree, now: seq<Tree>, m: nat, skew: bool) {
    && Commutes(op)
    && |was| - n == |now| - m - 1
    && m >= n + Nodes(op, tree)
    && Load(op, m, now) <= Load(op, n, was) + Weight(tree)
    && (AllClean(was) ==> AllClean(now))
    && (Descending(was) ==> Descending(now))
    && (Leafy(op, tree) ==> m == n + Nodes(op, tree) && (AllLeaves(was) ==> AllLeaves(now)))
    && (Tame(tree) ==> !skew && (AllTame(was) ==> AllTame(now)))
    && (forall k :: NoneOf(k, was) && !Has(k, tree) ==> NoneOf(k, now))
    && (!skew ==> AddsValue(op, was, tree, now))
  }

  ghost predicate AddsValue(op: Op, was: seq<Tree>, tree: Tree, now: seq<Tree>)
    requires Commutes(op)
  {
    forall env :: ListEval(op, now, env) == Join(op, ListEval(op, was, env), Eval(tree, env))
  }

  // The nodes of op at the top of t, which its list must have room for.
  function Nodes(op: Op, t: Tree): (n: nat)
    ensures n == 0 <==> !(t.Bin? && t.op == op)
  {
    if t.Bin? && t.op == op then 1 + Nodes(op, t.l) + Nodes(op, t.r) else 0
  }

  predicate IsLeaf(t: Tree) { t.Name? || t.Con? || t.Amper? }

  // Below the nodes of op there are only leaves.
  predicate Leafy(op: Op, t: Tree) {
    if t.Bin? && t.op == op then Leafy(op, t.l) && Leafy(op, t.r) else IsLeaf(t)
  }

  ghost predicate AllLeaves(ts: seq<Tree>) {
    forall i :: 0 <= i < |ts| ==> IsLeaf(ts[i])
  }

  // x+c, c not 0.
  predicate PlainSum(t: Tree) {
    t.Bin? && t.op == Plus && t.l.Name? && t.r.Con? && W(t.r.value) != 0
  }

  // (x+c)<<d, the count one that ash reads the other way round.
  predicate BackwardShift(t: Tree) {
    t.Bin? && t.op == Lshift && PlainSum(t.l) && t.r.Con? && Backward(t.r.value)
  }

  // ((x+c)<<d)+y for any tame y.
  ghost predicate BackwardSum(t: Tree) {
    t.Bin? && t.op == Plus && BackwardShift(t.l) && Tame(t.r)
  }

  // Equal but for the degrees of the nodes written by name.
  predicate SameNode(t: Tree, u: Tree) {
    t.Bin? && u.Bin? && u.op == t.op && u.l == t.l && u.r == t.r
  }

  // Nothing to fold or to drop, and no constant beside an address.
  predicate TidySum(t: Tree) {
    t.Bin? && t.op == Plus ==> !t.l.Con? && (t.r.Con? ==> W(t.r.value) != 0 && !t.l.Amper?)
  }

  // An operator that commutes, over leaves; & is optimized once more as &~.
  predicate LeafChain(t: Tree) {
    t.Bin? && Commutes(t.op) && t.op != And && Leafy(t.op, t)
  }

  // x/c and x%c for a variable or an address x and a constant c that does something.
  predicate PlainQuotient(t: Tree) {
    && t.Bin? && (t.op == Divide || t.op == Mod)
    && IsLeaf(t.l) && !t.l.Con? && t.r.Con? && (t.op == Divide ==> W(t.r.value) != 1)
  }

  // What becomes of the smallest trees, and of a sum whose first operand the rule on shifts
  // takes apart with a count that is read the other way round.
  ghost predicate Exactly(t: Tree, res: Outcome<Tree>) {
    && (IsLeaf(t) ==> res == Ok(t))
    && (PlainSum(t) || PlainQuotient(t) ==> res.Ok? && SameNode(t, res.value))
    && (LeafChain(t) ==> !res.DivideCheck? && (res.Overflow? <==> Nodes(t.op, t) > NLIST))
    && (LeafChain(t) && res.Ok? ==> TidySum(res.value))
    && (BackwardShift(t) ==>
          res.Ok? && ExpandsBackward(res.value) && SameNode(t.l, res.value.l) && res.value.r == t.r)
    && (BackwardSum(t) && res.Ok? ==> !SameValue(t, res.value))
  }

  // The list's value at the environment that shows it.
  ghost predicate OffAt(op: Op, tree: Tree, now: seq<Tree>, env: Env) {
    Commutes(op) && ListEval(op, now, env) != Eval(tree, env)
  }

  lemma InsertedKept(op: Op, was: seq<Tree>, n: nat, tree: Tree, tree': Tree, now: seq<Tree>, m: nat, s1: bool,
      s2: bool)
    requires Inserted(op, was, n, tree', now, m, s2) && Keeps(tree, tree', s1)
    requires !(tree.Bin? && tree.op == op) && (IsLeaf(tree) ==> tree' == tree)
    ensures Inserted(op, was, n, tree, now, m, s1 || s2)
  {
    hide Join, Weight, SumWeight, ListEval, Clean, Degree, Tame, Has, Eval;
  }

  // Left operands, then right operands, under one op node.
  lemma InsertedBoth(op: Op, deg: int, was: seq<Tree>, n: nat, l: Tree, mid: seq<Tree>, k: nat, r: Tree,
                     now: seq<Tree>, m: nat, s1: bool, s2: bool)
    requires Inserted(op, was, n + 1, l, mid, k, s1) && Inserted(op, mid, k, r, now, m, s2)
    ensures Inserted(op, was, n, Bin(op, deg, l, r), now, m, s1 || s2)
  {
    hide Join, Weight, SumWeight, ListEval, Clean, Degree, Tame, Has, Skewed;
    var t := Bin(op, deg, l, r);
    BinFacts(t);
    assert (n + 1) * OpWeight(op) == n * OpWeight(op) + OpWeight(op);
    if !s1 && !s2 {
      forall env
        ensures ListEval(op, now, env) == Join(op, ListEval(op, was, env), Eval(t, env))
      {
        JoinAssoc(op, ListEval(op, was, env), Eval(l, env), Eval(r, env));
      }
    }
  }

  class Acl {
    const op: Op
    var nextn: nat
    var llist: seq<Tree>

    constructor (op: Op)
      ensures this.op == op && nextn == 0 && llist == []
    {
      this.op := op;
      nextn := 0;
      llist := [];
    }

    // insert(): flatten tree under op. pending is the weight of right operands the callers
    // have yet to insert.
    method Insert(tree: Tree, ghost pending: nat) returns (res: Outcome<()>, ghost skew: bool)
      requires Commutes(op) && |llist| <= nextn <= NLIST
      modifies this
      ensures nextn <= NLIST
      ensures res.Ok? ==> Inserted(op, old(llist), old(nextn), tree, llist, nextn, skew)
      ensures Roomy(op, old(nextn), old(llist), tree, pending) && !Has(Heavy, tree) ==> !res.Overflow?
      ensures !Has(ZeroDivisor, tree) ==> !res.DivideCheck?
      ensures Leafy(op, tree) ==> !res.DivideCheck? && (res.Overflow? <==> old(nextn) + Nodes(op, tree) > NLIST)
      ensures IsLeaf(tree) && LastFits(old(llist), tree) ==> llist == old(llist) + [tree]
      ensures res.Ok? && op == Plus && old(llist) == [] && BackwardShift(tree) ==>
                AllTame(llist) && OffAt(op, tree, llist, Wrapping(tree.l.r.value))
      decreases Weight(tree), Rank(tree), if tree.Bin? && tree.op == op then 1 else 7
    {
      hide Tame, Has, ListEval, Eval, SumWeight, Clean, Degree, Backward, W, S, Weight;
      if tree.Bin? && tree.op == op {
        res, skew := InsertBoth(tree, pending);
        return;
      }
      skew := false;
      ghost var was, n := llist, nextn;
      var t, s1 :- Optim(tree);
      ghost var t0 := t;
      skew := s1;
      var expanded := !(t.Bin? && t.op == op) && Expandable(t);
      if expanded {
        ExpandKeeps(t);
        KeepsTrans(tree, t, Expand(t), s1, ExpandsBackward(t));
        skew := s1 || ExpandsBackward(t);
        t := Expand(t);
      }
      ghost var s2 := false;
      if t.Bin? && t.op == op {
        res, s2 := InsertBoth(t, pending);
      } else {
        Place(t);
        res := Ok(());
      }
      if res.Ok? {
        InsertedKept(op, was, n, tree, t, llist, nextn, skew, s2);
        if op == Plus && was == [] && BackwardShift(tree) {
          ExpandedOff(tree, t0, n, llist, nextn, s2);
        }
        skew := skew || s2;
      }
    }

    method InsertBoth(tree: Tree, ghost pending: nat) returns (res: Outcome<()>, ghost skew: bool)
      requires Commutes(op) && |llist| <= nextn <= NLIST
      requires tree.Bin? && tree.op == op
      modifies this
      ensures nextn <= NLIST
      ensures res.Ok? ==> Inserted(op, old(llist), old(nextn), tree, llist, nextn, skew)
      ensures Roomy(op, old(nextn), old(llist), tree, pending) && !Has(Heavy, tree) ==> !res.Overflow?
      ensures !Has(ZeroDivisor, tree) ==> !res.DivideCheck?
      ensures Leafy(op, tree) ==> !res.DivideCheck? && (res.Overflow? <==> old(nextn) + Nodes(op, tree) > NLIST)
      ensures PlainSum(tree) && old(llist) == [] && old(nextn) == 0 ==> res.Ok? && llist == [tree.l, tree.r]
      ensures res.Ok? && old(llist) == [] && BackwardSum(tree) ==>
                AllTame(llist) && OffAt(op, tree, llist, Wrapping(tree.l.l.r.value))
      decreases Weight(tree), 0, 0
    {
      hide Tame, Has, ListEval, Eval, SumWeight, Clean, Backward, W, S, Weight, Join;
      skew := false;
      BinFacts(tree);
      if nextn >= NLIST {
        return Overflow, false;
      }
      ghost var was, n := llist, nextn;
      nextn := nextn + 1;
      LoadNext(op, n, was);
      ghost var s1, s2;
      res, s1 := Insert(tree.l, pending + Weight(tree.r));
      if !res.Ok? {
        return;
      }
      ghost var mid, k := llist, nextn;
      res, s2 := Insert(tree.r, pending);
      if res.Ok? {
        InsertedBoth(op, tree.deg, was, n, tree.l, mid, k, tree.r, llist, nextn, s1, s2);
        skew := s1 || s2;
        if was == [] && BackwardSum(tree) {
          BothOff(tree, mid, k, llist, nextn, s2);
        }
      }
    }

    // Keep the list in descending order of degree.
    method Place(tree: Tree)
      requires Commutes(op) && Clean(tree) && |llist| <= nextn
      requires !(tree.Bin? && tree.op == op)
      modifies this`llist
      ensures Inserted(op, old(llist), old(nextn), tree, llist, nextn, false)
      ensures LastFits(old(llist), tree) ==> llist == old(llist) + [tree]
    {
      hide Weight, SumWeight, ListEval, Eval, Tame, Has, Clean, Join;
      ghost var was := llist;
      var t, d := tree, Degree(tree);
      var i := 0;
      while i < |llist|
        invariant 0 <= i <= |llist| == |was|
        invariant Carried(op, was, tree, llist, t) && d == Degree(t)
        invariant Descending(was) ==> Descending(llist) && forall j :: 0 <= j < i ==> Degree(llist[j]) >= d
        invariant LastFits(was, tree) ==> llist == was && t == tree
      {
        var d1 := Degree(llist[i]);
        if d1 < d {
          CarriedOn(op, was, tree, llist, t, i);
          var u := llist[i];
          llist := llist[i := t];
          t, d := u, d1;
        }
        i := i + 1;
      }
      ghost var now := llist;
      llist := llist + [t];
      CarriedDone(op, was, nextn, tree, now, t);
    }

    // Put the constants, which are last, together.
    method FoldConstants(ghost of: Tree)
      requires Operands(op, of, llist, nextn, false) && Descending(llist)
      modifies this`llist
      ensures Operands(op, of, llist, nextn, false) && Descending(llist)
      ensures OneConstant(llist)
      ensures OneConstant(old(llist)) ==> llist == old(llist)
      ensures AllLeaves(old(llist)) ==> AllLeaves(llist)
    {
      hide Eval, ListEval, Load, SumWeight, Tame, Weight, BitOp, W, Has, Clean, Degree;
      ghost var was := llist;
      while |llist| > 1 && llist[|llist| - 1].Con? && llist[|llist| - 2].Con?
        invariant Operands(op, of, llist, nextn, false) && Descending(llist)
        invariant OneConstant(was) ==> llist == was
        invariant AllLeaves(was) ==> AllLeaves(llist)
      {
        var n := |llist|;
        var r := Const(op, llist[n - 2].value, llist[n - 1].value);
        FoldLast(op, of, llist, nextn, r.value);
        llist := llist[..n - 2] + [Con(r.value)];
      }
      ConstantsLast(llist);
    }

    // distrib(): factor common constants out of a sum until no pair qualifies.
    method Distrib(ghost of: Tree) returns (res: Outcome<()>, ghost skew: bool)
      requires op == Plus && Has(Sum, of) && Operands(op, of, llist, nextn, false) && nextn <= NLIST
      modifies this
      ensures res.Ok? ==> Operands(op, of, llist, nextn, skew) && Reduced(llist)
      ensures !Has(Heavy, of) ==> !res.Overflow?
      ensures !Has(ZeroDivisor, of) ==> !res.DivideCheck?
      ensures AllLeaves(old(llist)) ==> res.Ok? && llist == old(llist)
      decreases Weight(of), 1, 0
    {
      ghost var was := llist;
      skew := false;
      while true
        invariant Operands(op, of, llist, nextn, skew) && nextn <= NLIST
        invariant AllLeaves(was) ==> llist == was
        decreases |llist|
      {
        var f := Scan(llist);
        ghost var s := false;
        match f {
          case Nothing =>
            res := Ok(());
            return;
          case Same(i, j) =>
            res, s := MergeSame(i, j, of, skew);
          case Split(i, j) =>
            res, s := MergeSplit(i, j, of, skew);
        }
        if !res.Ok? {
          return;
        }
        skew := skew || s;
      }
    }

    method MergeSame(i: nat, j: nat, ghost of: Tree, ghost before: bool) returns (res: Outcome<()>, ghost skew: bool)
      requires op == Plus && Has(Sum, of) && Operands(op, of, llist, nextn, before) && nextn <= NLIST
      requires GoodFound(llist, Same(i, j))
      modifies this
      ensures res.Ok? ==> Operands(op, of, llist, nextn, before || skew)
      ensures res.Ok? ==> nextn == old(nextn) && |llist| == |old(llist)| - 1
      ensures !Has(Heavy, of) ==> !res.Overflow?
      ensures !Has(ZeroDivisor, of) ==> !res.DivideCheck?
      decreases Weight(of), 0, 7
    {
      hide Tame, Eval, ListEval, Candidate, Clean, Load, SumWeight, Weight, Has;
      skew := false;
      var p1, p2 := llist[i], llist[j];
      var sum := SameSum(p1, p2);
      SameJoins(p1, p2);
      PairFits(of, llist, nextn, i, j, before);
      var t, s :- Optim(sum);
      MergedOperands(of, llist, nextn, i, j, sum, t, before, s);
      llist := Without(llist[i := t], j);
      return Ok(()), s;
    }

    method MergeSplit(i: nat, j: nat, ghost of: Tree, ghost before: bool) returns (res: Outcome<()>, ghost skew: bool)
      requires op == Plus && Has(Sum, of) && Operands(op, of, llist, nextn, before) && nextn <= NLIST
      requires GoodFound(llist, Split(i, j))
      modifies this
      ensures res.Ok? ==> Operands(op, of, llist, nextn, before || skew)
      ensures res.Ok? ==> nextn == old(nextn) - 1 && |llist| == |old(llist)| - 1
      ensures !Has(Heavy, of) ==> !res.Overflow?
      ensures !Has(ZeroDivisor, of) ==> !res.DivideCheck?
      decreases Weight(of), 0, 7
    {
      hide Tame, Eval, ListEval, Candidate, Clean, Load, SumWeight, Weight, Quo, Has;
      skew := false;
      ghost var n := nextn;
      var p1, p2 := llist[i], llist[j];
      nextn := nextn - 1;
      var sum := SplitSum(p1, p2);
      SplitJoins(p1, p2);
      PairFits(of, llist, n, i, j, before);
      var t, s :- Optim(sum);
      if i < j {
        MergedOperands(of, llist, n, i, j, sum, t, before, s);
        llist := Without(llist[i := t], j);
      } else {
        MergedOperands(of, llist, n, j, i, sum, t, before, s);
        llist := Without(llist[j := t], i);
      }
      return Ok(()), s;
    }
  }

  // ---- how the rule on shifts goes wrong

  // Every listed operand is at least as hard.
  predicate LastFits(ts: seq<Tree>, t: Tree) {
    forall i :: 0 <= i < |ts| ==> Degree(ts[i]) >= Degree(t)
  }

  lemma ExpandedOff(tree: Tree, t: Tree, n: nat, now: seq<Tree>, m: nat, skew: bool)
    requires BackwardShift(tree)
    requires ExpandsBackward(t) && SameNode(tree.l, t.l) && t.r == tree.r
    requires Inserted(Plus, [], n, Expand(t), now, m, skew)
    ensures AllTame(now) && OffAt(Plus, tree, now, Wrapping(tree.l.r.value))
  {
    hide Backward, Ash, W, Weight, Add;
    var u, env := Expand(t), Wrapping(tree.l.r.value);
    BinFacts(u);
    BinFacts(u.l);
    ConFacts(u.r);
    ConFacts(u.l.r);
    ExpandShiftFails(t, u);
    JoinUnit(Plus, Eval(u, env));
    assert Eval(tree.l, env) == Eval(t.l, env);
  }

  lemma BothOff(tree: Tree, mid: seq<Tree>, k: nat, now: seq<Tree>, m: nat, skew: bool)
    requires BackwardSum(tree) && AllTame(mid)
    requires OffAt(Plus, tree.l, mid, Wrapping(tree.l.l.r.value))
    requires Inserted(Plus, mid, k, tree.r, now, m, skew)
    ensures AllTame(now) && OffAt(Plus, tree, now, Wrapping(tree.l.l.r.value))
  {
    hide Backward, Ash, W, Weight, Tame;
    var env := Wrapping(tree.l.l.r.value);
    AddCancels(ListEval(Plus, mid, env), Eval(tree.l, env), Eval(tree.r, env));
  }

  lemma AddCancels(a: int, b: int, y: int)
    requires 0 <= a < RADIX && 0 <= b < RADIX && a != b
    ensures Add(a, y) != Add(b, y)
  {
  }

  // insert()'s exchange loop: llist and the held t are was and tree, rearranged.
  ghost predicate Carried(op: Op, was: seq<Tree>, tree: Tree, now: seq<Tree>, t: Tree) {
    && Commutes(op)
    && |now| == |was|
    && SumWeight(now) + Weight(t) == SumWeight(was) + Weight(tree)
    && (AllClean(was) && Clean(tree) ==> AllClean(now) && Clean(t))
    && (AllTame(was) && Tame(tree) ==> AllTame(now) && Tame(t))
    && (forall k :: NoneOf(k, was) && !Has(k, tree) ==> NoneOf(k, now) && !Has(k, t))
    && (AllLeaves(was) && IsLeaf(tree) ==> AllLeaves(now) && IsLeaf(t))
    && forall env :: Join(op, ListEval(op, now, env), Eval(t, env)) == Join(op, ListEval(op, was, env), Eval(tree, env))
  }

  lemma CarriedOn(op: Op, was: seq<Tree>, tree: Tree, now: seq<Tree>, t: Tree, i: nat)
    requires Carried(op, was, tree, now, t) && i < |now|
    ensures Carried(op, was, tree, now[i := t], now[i])
  {
    hide Join, Weight, SumWeight, ListEval, Clean, Eval, Tame, Has;
    SumUpdate(now, i, t);
    forall env
      ensures Join(op, ListEval(op, now[i := t], env), Eval(now[i], env)) ==
          Join(op, ListEval(op, was, env), Eval(tree, env))
    {
      Exchange(op, now, i, t, env);
    }
  }

  lemma CarriedDone(op: Op, was: seq<Tree>, n: nat, tree: Tree, now: seq<Tree>, t: Tree)
    requires Carried(op, was, tree, now, t) && Clean(tree) && !(tree.Bin? && tree.op == op)
    requires Descending(was) ==> Descending(now) && forall j :: 0 <= j < |now| ==> Degree(now[j]) >= Degree(t)
    ensures Inserted(op, was, n, tree, now + [t], n, false)
  {
    hide Join, Weight, SumWeight, ListEval, Clean, Eval, Tame, Has;
    SumAppend(now, t);
    forall env
      ensures ListEval(op, now + [t], env) == Join(op, ListEval(op, now, env), Eval(t, env))
    {
      ListAppend(op, now, t, env);
    }
  }

  // At most one operand is a constant, and then it is the last one.
  ghost predicate OneConstant(ts: seq<Tree>) {
    forall i :: 0 <= i < |ts| - 1 ==> !ts[i].Con?
  }

  lemma ConstantsLast(ts: seq<Tree>)
    requires AllClean(ts) && Descending(ts) && |ts| > 0
    requires |ts| > 1 && ts[|ts| - 1].Con? ==> !ts[|ts| - 2].Con?
    ensures OneConstant(ts)
  {
    forall i | 0 <= i < |ts| - 1
      ensures !ts[i].Con?
    {
      assert Degree(ts[i]) >= Degree(ts[|ts| - 2]) >= Degree(ts[|ts| - 1]);
    }
  }

  lemma FoldLast(op: Op, t: Tree, ts: seq<Tree>, n: nat, v: int)
    requires Operands(op, t, ts, n, false) && Descending(ts) && |ts| > 1
    requires ts[|ts| - 1].Con? && ts[|ts| - 2].Con?
    requires FoldsTo(op, ts[|ts| - 2].value, ts[|ts| - 1].value, v)
    ensures Operands(op, t, ts[..|ts| - 2] + [Con(v)], n, false) && Descending(ts[..|ts| - 2] + [Con(v)])
  {
    var k := |ts|;
    var us := ts[..k - 2] + [Con(v)];
    assert us == Without(ts[k - 2 := Con(v)], k - 1);
    LoadMerged(op, ts, k - 2, k - 1, Con(v));
    FoldLastValue(op, t, ts, v);
  }

  lemma FoldLastValue(op: Op, t: Tree, ts: seq<Tree>, v: int)
    requires Commutes(op) && ListValue(op, t, ts) && |ts| > 1
    requires ts[|ts| - 1].Con? && ts[|ts| - 2].Con?
    requires FoldsTo(op, ts[|ts| - 2].value, ts[|ts| - 1].value, v)
    ensures ListValue(op, t, ts[..|ts| - 2] + [Con(v)])
  {
    var k := |ts|;
    var us := ts[..k - 2] + [Con(v)];
    assert us == Without(ts[k - 2 := Con(v)], k - 1);
    {
      forall env
        ensures ListEval(op, us, env) == Eval(t, env)
      {
        assert W(v) == Ap(op, W(ts[k - 2].value), W(ts[k - 1].value), env);
        Combine(op, ts, k - 2, k - 1, Con(v), env);
      }
    }
  }

  // x*c + y*c as (y+x)*c.
  function SameSum(a: Tree, b: Tree): Tree
    requires Scaled(a) && Scaled(b)
  {
    Bin(Times, a.deg, Bin(Plus, b.deg, b.l, a.l), a.r)
  }

  // x*(q*c) + y*c as (x*q + y)*c.
  function SplitSum(a: Tree, b: Tree): Tree
    requires Scaled(a) && Scaled(b) && Scale(b) != 0
  {
    Bin(Times, b.deg, Bin(Plus, 0, Bin(Times, a.deg, a.l, Con(W(Quo(Scale(a), Scale(b))))), b.l), b.r)
  }

  // sum may stand for a and b in a list.
  ghost predicate Joins(sum: Tree, a: Tree, b: Tree) {
    && Weight(sum) <= Weight(a) + Weight(b) + OpWeight(Plus)
    && (Tame(a) && Tame(b) ==> Tame(sum))
    && (Has(ZeroDivisor, sum) ==> Has(ZeroDivisor, a) || Has(ZeroDivisor, b))
    && (Has(Heavy, sum) ==> Weight(a) + Weight(b) + OpWeight(Plus) > SMALL || Has(Heavy, a) || Has(Heavy, b))
    && forall env :: Eval(sum, env) == Add(Eval(a, env), Eval(b, env))
  }

  lemma ScaledValue(a: Tree, env: Env)
    requires Scaled(a)
    ensures Eval(a, env) == Mul(Eval(a.l, env), W(Scale(a)))
    ensures Weight(a) == 3 + Weight(a.l)
    ensures Tame(a) <==> Tame(a.l)
  {
  }

  lemma SameJoins(a: Tree, b: Tree)
    requires Scaled(a) && Scaled(b) && Scale(a) == Scale(b)
    ensures Joins(SameSum(a, b), a, b)
  {
    hide Eval, Tame, Weight, Has, Skewed, Mul, Add;
    var sum := SameSum(a, b);
    BinFacts(a);
    BinFacts(b);
    BinFacts(sum);
    BinFacts(sum.l);
    ConFacts(a.r);
    ConFacts(b.r);
    NotSkewed(Plus, b.l, a.l);
    NotSkewed(Times, sum.l, a.r);
    forall env
      ensures Eval(sum, env) == Add(Eval(a, env), Eval(b, env))
    {
      SameValueOfSum(a, b, env);
    }
  }

  lemma SameValueOfSum(a: Tree, b: Tree, env: Env)
    requires Scaled(a) && Scaled(b) && Scale(a) == Scale(b)
    ensures Eval(SameSum(a, b), env) == Add(Eval(a, env), Eval(b, env))
  {
    hide Tame, Weight, Has, Skewed, Mul;
    var sum := SameSum(a, b);
    ScaledValue(a, env);
    ScaledValue(b, env);
    ScaledValue(sum, env);
    var x, y := Eval(a.l, env), Eval(b.l, env);
    assert Eval(sum.l, env) == Add(y, x);
    MulDistrib(y, x, W(Scale(a)));
  }

  lemma SplitJoins(a: Tree, b: Tree)
    requires Scaled(a) && Scaled(b) && Divides(Scale(b), Scale(a))
    ensures Joins(SplitSum(a, b), a, b)
  {
    hide Eval, Tame, Weight, Has, Skewed, Quo, Mul, Add;
    var sum := SplitSum(a, b);
    SplitFacts(sum);
    BinFacts(a);
    BinFacts(b);
    ConFacts(a.r);
    ConFacts(b.r);
    NotSkewed(Times, b.l, b.r);
    forall env
      ensures Eval(sum, env) == Add(Eval(a, env), Eval(b, env))
    {
      SplitValue(a, b, env);
    }
  }

  lemma SplitFacts(sum: Tree)
    requires sum.Bin? && sum.op == Times && sum.r.Con? && sum.l.Bin? && sum.l.op == Plus
    requires sum.l.l.Bin? && sum.l.l.op == Times && sum.l.l.r.Con?
    ensures Weight(sum) == 8 + Weight(sum.l.l.l) + Weight(sum.l.r)
    ensures Tame(sum) <==> Tame(sum.l.l.l) && Tame(sum.l.r)
    ensures Has(ZeroDivisor, sum) <==> Has(ZeroDivisor, sum.l.l.l) || Has(ZeroDivisor, sum.l.r)
    ensures Has(Heavy, sum) ==> Weight(sum) > SMALL || Has(Heavy, sum.l.l.l) || Has(Heavy, sum.l.r)
  {
    BinFacts(sum);
    BinFacts(sum.l);
    BinFacts(sum.l.l);
  }

  lemma SplitValue(a: Tree, b: Tree, env: Env)
    requires Scaled(a) && Scaled(b) && Divides(Scale(b), Scale(a))
    ensures Eval(SplitSum(a, b), env) == Add(Eval(a, env), Eval(b, env))
  {
    hide Tame, Weight, Has, Skewed, Quo, Mul, Add;
    var sum, q := SplitSum(a, b), Quo(Scale(a), Scale(b));
    var inner := sum.l.l;
    QuoExact(Scale(a), Scale(b));
    ScaledValue(a, env);
    ScaledValue(b, env);
    ScaledValue(sum, env);
    ScaledValue(inner, env);
    var x, y := Eval(a.l, env), Eval(b.l, env);
    assert W(Scale(inner)) == W(q);
    assert Eval(sum.l, env) == Add(Mul(x, W(q)), y);
    FactorValue(x, y, q, Scale(a), Scale(b));
  }

  lemma PairWeight(ts: seq<Tree>, i: nat, j: nat)
    requires i < |ts| && j < |ts| && i != j
    ensures Weight(ts[i]) + Weight(ts[j]) <= SumWeight(ts)
  {
    SumWithout(ts, i);
    SumWithout(Without(ts, i), if j < i then j else j - 1);
  }

  lemma PairFits(t: Tree, ts: seq<Tree>, n: nat, i: nat, j: nat, skew: bool)
    requires Operands(Plus, t, ts, n, skew) && i < |ts| && j < |ts| && i != j
    ensures Weight(ts[i]) + Weight(ts[j]) + OpWeight(Plus) <= Weight(t)
  {
    PairWeight(ts, i, j);
    assert Load(Plus, |ts| - 1, ts) == (|ts| - 1) * 2 + SumWeight(ts);
  }

  lemma MergedValue(t: Tree, ts: seq<Tree>, i: nat, j: nat, u: Tree)
    requires ListValue(Plus, t, ts) && i < |ts| && j < |ts| && i != j
    requires forall env :: Eval(u, env) == Add(Eval(ts[i], env), Eval(ts[j], env))
    ensures ListValue(Plus, t, Without(ts[i := u], j))
  {
    forall env
      ensures ListEval(Plus, Without(ts[i := u], j), env) == Eval(t, env)
    {
      assert Eval(u, env) == Join(Plus, Eval(ts[i], env), Eval(ts[j], env));
      Combine(Plus, ts, i, j, u, env);
    }
  }

  lemma MergedOperands(t: Tree, ts: seq<Tree>, n: nat, i: nat, j: nat, sum: Tree, u: Tree, s1: bool, s2: bool)
    requires Operands(Plus, t, ts, n, s1) && Has(Sum, t) && i < |ts| && j < |ts| && i != j
    requires Joins(sum, ts[i], ts[j]) || Joins(sum, ts[j], ts[i])
    requires Keeps(sum, u, s2) && Clean(u)
    ensures n > 0 && Operands(Plus, t, Without(ts[i := u], j), n - 1, s1 || s2)
  {
    hide Weight, SumWeight, ListEval, Clean, Eval, Tame, Load, Has;
    var us := Without(ts[i := u], j);
    LoadMerged(Plus, ts, i, j, u);
    assert AllClean(ts[i := u]);
    if Tame(t) {
      assert Tame(ts[i]) && Tame(ts[j]);
      assert AllTame(ts[i := u]);
    }
    forall k | !Has(k, t)
      ensures NoneOf(k, us)
    {
      assert k != Sum && NoneOf(k, ts);
      assert !Has(k, ts[i]) && !Has(k, ts[j]);
      PairFits(t, ts, n, i, j, s1);
      assert !Has(k, u);
      assert NoneOf(k, ts[i := u]);
    }
    if !s1 && !s2 {
      MergedValue(t, ts, i, j, u);
    }
  }

  // ---- acommute

  lemma DropLast(op: Op, t: Tree, ts: seq<Tree>, n: nat)
    requires Operands(op, t, ts, n, false) && |ts| > 1
    requires ts[|ts| - 1].Con? && W(ts[|ts| - 1].value) == Unit(op)
    ensures Operands(op, t, ts[..|ts| - 1], n, false)
  {
    var us := ts[..|ts| - 1];
    LoadNext(op, |us| - 1, us);
    forall env
      ensures ListEval(op, us, env) == Eval(t, env)
    {
      JoinUnit(op, ListEval(op, us, env));
    }
  }

  // Subsume the constant in &x+c.
  lemma SubsumeOffset(t: Tree, ts: seq<Tree>, n: nat)
    requires Operands(Plus, t, ts, n, false) && |ts| > 1
    requires ts[|ts| - 1].Con? && ts[|ts| - 2].Amper?
    ensures var a := ts[|ts| - 2];
            Operands(Plus, t, ts[..|ts| - 2] + [Amper(a.sym, a.offset + ts[|ts| - 1].value)], n, false)
  {
    hide Eval, W, Add;
    var k := |ts|;
    var a, c := ts[k - 2], ts[k - 1].value;
    var b := Amper(a.sym, a.offset + c);
    var us := ts[..k - 2] + [b];
    assert us == Without(ts[k - 2 := b], k - 1);
    LoadMerged(Plus, ts, k - 2, k - 1, b);
    forall env
      ensures Eval(b, env) == Add(Eval(a, env), Eval(ts[k - 1], env))
    {
      OffsetValue(a, ts[k - 1], env);
    }
    MergedValue(t, ts, k - 2, k - 1, b);
  }

  lemma OffsetValue(a: Tree, c: Tree, env: Env)
    requires a.Amper? && c.Con?
    ensures Eval(Amper(a.sym, a.offset + c.value), env) == Add(Eval(a, env), Eval(c, env))
  {
    WAdd(env.address(a.sym) + a.offset, c.value);
  }

  lemma SingleOperand(op: Op, t: Tree, ts: seq<Tree>, n: nat)
    requires Operands(op, t, ts, n, false) && |ts| == 1
    ensures Keeps(t, ts[0], false) && Clean(ts[0])
  {
    assert SumWeight(ts) == SumWeight(ts[..0]) + Weight(ts[0]);
    forall env
      ensures Eval(ts[0], env) == Eval(t, env)
    {
      assert ts == [ts[0]];
      ListOne(op, ts[0], env);
    }
  }

  lemma ZeroOperand(op: Op, t: Tree, ts: seq<Tree>, n: nat)
    requires Operands(op, t, ts, n, false) && (op == Times || op == And)
    requires ts[|ts| - 1].Con? && W(ts[|ts| - 1].value) == 0
    ensures Keeps(t, ts[|ts| - 1], false)
  {
    forall env
      ensures Eval(t, env) == 0
    {
      JoinZero(op, ListEval(op, ts[..|ts| - 1], env));
    }
  }

  // ispow2(): the right operand is a constant power of two above 1.
  predicate Pow2Scaled(t: Tree) {
    t.Bin? && t.r.Con? && S(t.r.value) > 1 && BitOp(BitAnd, W(t.r.value), W(t.r.value - 1)) == 0
  }

  function JoinDegree(d1: int, d2: int): int {
    if d1 == d2 then d1 + 1 else Max(d1, d2)
  }

  // Neither the operands are of the kind nor a tree over them.
  ghost predicate Absent(k: Kind, op: Op, ts: seq<Tree>, tree: Tree) {
    NoneOf(k, ts) && (k == Sum ==> op != Plus) && (k == Heavy ==> Weight(tree) <= SMALL)
  }

  // The tree under construction stands for the first i operands.
  ghost predicate Built(op: Op, ts: seq<Tree>, i: nat, tree: Tree)
    requires Commutes(op)
  {
    && 1 <= i <= |ts|
    && Weight(tree) == Load(op, i - 1, ts[..i])
    && (Tame(tree) <==> AllTame(ts[..i]))
    && (forall k :: Absent(k, op, ts, tree) ==> !Has(k, tree))
    && (forall k :: !Has(k, tree) ==> NoneOf(k, ts[..i]))
    && (forall env :: Eval(tree, env) == ListEval(op, ts[..i], env))
    && (i == 1 ==> tree == ts[0])
    && (i > 1 ==> tree.Bin? && tree.op == op && tree.deg >= 1 && tree.r == ts[i - 1])
    && (i == 2 ==> tree.l == ts[0])
    && (i > 2 ==> tree.l.Bin?)
  }

  lemma BuiltOne(op: Op, ts: seq<Tree>)
    requires Commutes(op) && |ts| > 0
    ensures Built(op, ts, 1, ts[0])
  {
    assert ts[..1] == [] + [ts[0]] == [ts[0]];
    SumAppend([], ts[0]);
    forall env
      ensures Eval(ts[0], env) == ListEval(op, ts[..1], env)
    {
      ListOne(op, ts[0], env);
    }
  }

  lemma BuiltNext(op: Op, ts: seq<Tree>, i: nat, tree: Tree, d: int)
    requires Commutes(op) && Built(op, ts, i, tree) && i < |ts| && d >= 1
    ensures Built(op, ts, i + 1, Bin(op, d, tree, ts[i]))
  {
    hide Weight, Tame, Has, Skewed, ListEval, SumWeight;
    assert ts[..i + 1] == ts[..i] + [ts[i]];
    SumAppend(ts[..i], ts[i]);
    LoadNext(op, i - 1, ts[..i]);
    BinFacts(Bin(op, d, tree, ts[i]));
    NotSkewed(op, tree, ts[i]);
    forall env
      ensures Eval(Bin(op, d, tree, ts[i]), env) == ListEval(op, ts[..i + 1], env)
    {
      ListAppend(op, ts[..i], ts[i], env);
    }
  }

  // A tree that a list of at least two operands stands for.
  lemma ChainOf(op: Op, ts: seq<Tree>, n: nat) returns (of: Tree)
    requires Commutes(op) && 2 <= |ts| <= n + 1 && AllClean(ts)
    ensures Operands(op, of, ts, n, false) && Weight(of) == Load(op, |ts| - 1, ts)
    ensures (AllTame(ts) ==> Tame(of)) && (op == Plus ==> Has(Sum, of))
    ensures forall k :: Absent(k, op, ts, of) ==> !Has(k, of)
    ensures forall env :: Eval(of, env) == ListEval(op, ts, env)
  {
    hide Eval, ListEval, Load, SumWeight, Tame, Weight, BitOp, W;
    of := ts[0];
    BuiltOne(op, ts);
    for i := 1 to |ts|
      invariant Built(op, ts, i, of)
    {
      BuiltNext(op, ts, i, of, 1);
      of := Bin(op, 1, of, ts[i]);
    }
    assert ts[..|ts|] == ts;
    BinFacts(of);
  }

  // The loop at the end of acommute: a left-leaning chain over the operands.
  method Rebuild(op: Op, ts: seq<Tree>) returns (tree: Tree)
    requires Commutes(op) && |ts| > 0
    ensures exists u :: Built(op, ts, |ts|, u) && SameButDegree(u, tree)
  {
    hide Eval, ListEval, Load, SumWeight, Tame, Weight, BitOp, W;
    tree := ts[0];
    BuiltOne(op, ts);
    var d := Max(Degree(tree), 1);
    if op == Times {
      d := d + 1;
    }
    var i := 1;
    while i < |ts|
      invariant 1 <= i <= |ts| && d >= 1
      invariant Built(op, ts, i, tree)
    {
      d := JoinDegree(d, Degree(ts[i]));
      BuiltNext(op, ts, i, tree, d);
      tree := Bin(op, d, tree, ts[i]);
      i := i + 1;
    }
    ghost var u := tree;
    if tree.Bin? && tree.op == Times && Pow2Scaled(tree) {
      tree := Bin(Times, Max(Degree(tree.l), 1), tree.l, tree.r);
    }
    assert Built(op, ts, |ts|, u) && SameButDegree(u, tree);
  }

  ghost predicate SameButDegree(u: Tree, t: Tree) {
    u == t || (u.Bin? && t.Bin? && t.deg >= 1 && t == Bin(u.op, t.deg, u.l, u.r))
  }

  lemma BuiltKeeps(op: Op, t: Tree, ts: seq<Tree>, n: nat, u: Tree, tree: Tree, skew: bool)
    requires Operands(op, t, ts, n, skew) && (op == Plus ==> Has(Sum, t))
    requires Built(op, ts, |ts|, u) && SameButDegree(u, tree)
    requires TidyList(op, ts)
    ensures Keeps(t, tree, skew)
    ensures Clean(tree) || (tree.Bin? && tree.op == And && op == And)
    ensures Shaped(op, ts, tree)
  {
    hide ListEval, SumWeight, Weight, Tame, Has, Eval;
    assert ts[..|ts|] == ts;
    DegreeAlone(u, tree);
    forall env | !skew
      ensures Eval(tree, env) == Eval(t, env)
    {
      assert Eval(tree, env) == Eval(u, env) == ListEval(op, ts, env);
    }
  }

  lemma DegreeAlone(u: Tree, t: Tree)
    requires SameButDegree(u, t)
    ensures Weight(t) == Weight(u) && Tame(t) == Tame(u) && (forall k :: Has(k, t) == Has(k, u)) && SameValue(u, t)
  {
    if u != t {
      BinFacts(u);
      BinFacts(t);
    }
  }

  // The operands after dropping units and zeros, or the whole result.
  datatype Trimmed = Done(tree: Tree) | Rest(ts: seq<Tree>)

  ghost predicate GoodTrim(op: Op, of: Tree, r: Trimmed, n: nat) {
    match r
    case Done(u) => Keeps(of, u, false) && Clean(u)
    case Rest(ts) => Operands(op, of, ts, n, false) && TidyList(op, ts)
  }

  ghost predicate TidyList(op: Op, ts: seq<Tree>) {
    && (op != Plus ==> OneConstant(ts))
    && (|ts| > 1 && ts[|ts| - 1].Con? && (op == Times || op == Or) ==> W(ts[|ts| - 1].value) != 0)
    && (|ts| > 1 && ts[|ts| - 1].Con? && op == Times ==> W(ts[|ts| - 1].value) != 1)
  }

  // Toss out "+0", subsume the constant in "&x+c", x*0, x*1.
  method Trim(op: Op, ts: seq<Tree>, ghost of: Tree, ghost n: nat) returns (r: Trimmed)
    requires Operands(op, of, ts, n, false) && OneConstant(ts)
    ensures GoodTrim(op, of, r, n)
    ensures op == Plus && r.Rest? ==> TidySumList(r.ts)
    ensures r.Rest? ==> OneConstant(r.ts)
    ensures AllLeaves(ts) ==> if r.Rest? then AllLeaves(r.ts) else IsLeaf(r.tree)
    ensures op == Plus && |ts| == 2 && PlainSum(Bin(Plus, 0, ts[0], ts[1])) ==> r == Rest(ts)
  {
    hide Keeps, W, Load, Tame, ListEval, SumWeight, Clean, Has, Operands;
    var last := ts[|ts| - 1];
    var us := ts;
    if op == Plus || op == Or {
      if |ts| > 1 && last.Con? && W(last.value) == 0 {
        DropLast(op, of, ts, n);
        us := ts[..|ts| - 1];
      }
      if |us| == 1 {
        SingleOperand(op, of, us, n);
        return Done(us[0]);
      }
      if op == Plus && us[|us| - 1].Con? && us[|us| - 2].Amper? {
        SubsumeOffset(of, us, n);
        var a := us[|us| - 2];
        us := us[..|us| - 2] + [Amper(a.sym, a.offset + us[|us| - 1].value)];
      }
    } else if (op == Times || op == And) && last.Con? {
      if W(last.value) == 0 {
        ZeroOperand(op, of, ts, n);
        ConFacts(last);
        return Done(last);
      }
      if op == Times && W(last.value) == 1 && |ts| > 1 {
        DropLast(op, of, ts, n);
        us := ts[..|ts| - 1];
        if |us| == 1 {
          SingleOperand(op, of, us, n);
          return Done(us[0]);
        }
        assert !us[|us| - 1].Con?;
        return Rest(us);
      }
    }
    return Rest(us);
  }

  // acommute(): flatten, fold, drop units, factor, rebuild.
  method Acommute(t: Tree) returns (res: Outcome<Tree>, ghost skew: bool)
    requires t.Bin? && Commutes(t.op)
    ensures res.Ok? ==> Keeps(t, res.value, skew)
    ensures res.Ok? ==> Clean(res.value) || (t.op == And && res.value.Bin? && res.value.op == And)
    ensures !Has(Heavy, t) ==> !res.Overflow?
    ensures !Has(ZeroDivisor, t) ==> !res.DivideCheck?
    ensures Nodes(t.op, t) > NLIST ==> !res.Ok?
    ensures Leafy(t.op, t) ==> !res.DivideCheck? && (res.Overflow? <==> Nodes(t.op, t) > NLIST)
    ensures Exactly(t, res)
    decreases Weight(t), Rank(t), 3
  {
    hide Keeps, Tame, Load, Weight, Eval, ListEval, SumWeight, W, Backward, Has, Clean, Degree;
    var acl := new Acl(t.op);
    ghost var of, s1, s2;
    var r0, of0, s0 := Flatten(t, acl);
    of, s1, s2 := of0, s0, false;
    if !r0.Ok? {
      return r0.PropagateFailure(), false;
    }
    acl.FoldConstants(of);
    var r := Trim(t.op, acl.llist, of, acl.nextn);
    if r.Done? {
      KeepsTrans(t, of, r.tree, s1, false);
      OffStays(t, of, r.tree, false);
      return Ok(r.tree), s1;
    }
    acl.llist := r.ts;
    if t.op == Plus {
      var d;
      d, s2 := acl.Distrib(of);
      if !d.Ok? {
        return d.PropagateFailure(), false;
      }
    }
    var tree := RebuildFor(t.op, acl.llist, of, acl.nextn, s2);
    KeepsTrans(t, of, tree, s1, s2);
    OffStays(t, of, tree, s2);
    if LeafChain(t) && t.op == Plus {
      TidySumOf(acl.llist, tree);
    }
    return Ok(tree), s1 || s2;
  }

  // What the list of a sum ends in once zeros and offsets are gone.
  ghost predicate TidySumList(ts: seq<Tree>) {
    |ts| > 1 && ts[|ts| - 1].Con? ==> W(ts[|ts| - 1].value) != 0 && !ts[|ts| - 2].Amper?
  }

  // The last operand is on the right; with two the first is on the left.
  ghost predicate Shaped(op: Op, ts: seq<Tree>, tree: Tree) {
    && (|ts| == 1 ==> SameButDegree(ts[0], tree))
    && (|ts| == 2 ==> SameNode(Bin(op, 0, ts[0], ts[1]), tree))
    && (|ts| > 2 ==> tree.Bin? && tree.op == op && tree.l.Bin? && tree.r == ts[|ts| - 1])
  }

  lemma TidySumOf(ts: seq<Tree>, tree: Tree)
    requires |ts| > 0 && AllLeaves(ts) && OneConstant(ts) && TidySumList(ts) && Shaped(Plus, ts, tree)
    ensures TidySum(tree)
  {
  }

  // A value once changed is not put back by what keeps values.
  lemma OffStays(t: Tree, of: Tree, r: Tree, skew: bool)
    requires Keeps(of, r, skew)
    ensures Tame(of) && !SameValue(t, of) ==> !SameValue(t, r)
  {
    hide Eval, Tame, Weight, Has;
    if Tame(of) && SameValue(t, r) {
      assert SameValue(t, of);
    }
  }

  method RebuildFor(op: Op, ts: seq<Tree>, ghost of: Tree, ghost n: nat, ghost skew: bool) returns (tree: Tree)
    requires Operands(op, of, ts, n, skew) && TidyList(op, ts) && (op == Plus ==> Has(Sum, of))
    ensures Keeps(of, tree, skew)
    ensures Clean(tree) || (tree.Bin? && tree.op == And && op == And)
    ensures Shaped(op, ts, tree)
  {
    tree := Rebuild(op, ts);
    ghost var u :| Built(op, ts, |ts|, u) && SameButDegree(u, tree);
    BuiltKeeps(op, of, ts, n, u, tree, skew);
  }

  // The list of t. of is t, or the sum of what is listed if that is no longer t.
  method Flatten(t: Tree, acl: Acl) returns (res: Outcome<Tree>, ghost of: Tree, ghost skew: bool)
    requires t.Bin? && Commutes(t.op) && acl.op == t.op && acl.llist == [] && acl.nextn == 0
    modifies acl
    ensures acl.nextn <= NLIST
    ensures res.Ok? ==> Keeps(t, of, skew) && Operands(t.op, of, acl.llist, acl.nextn, false)
    ensures res.Ok? ==> Descending(acl.llist) && (t.op == Plus ==> Has(Sum, of))
    ensures !Has(Heavy, t) ==> !res.Overflow?
    ensures !Has(ZeroDivisor, t) ==> !res.DivideCheck?
    ensures Nodes(t.op, t) > NLIST ==> !res.Ok?
    ensures Leafy(t.op, t) ==> !res.DivideCheck? && (res.Overflow? <==> Nodes(t.op, t) > NLIST)
    ensures Leafy(t.op, t) && res.Ok? ==> AllLeaves(acl.llist)
    ensures PlainSum(t) ==> res.Ok? && acl.llist == [t.l, t.r]
    ensures BackwardSum(t) && res.Ok? ==> Tame(of) && !SameValue(t, of)
    decreases Weight(t), Rank(t), 2
  {
    var r, s := acl.InsertBoth(t, 0);
    of, skew := t, s;
    if !r.Ok? {
      res := r.PropagateFailure();
      return;
    }
    res := Ok(t);
    if skew {
      of := ChainOf(t.op, acl.llist, acl.nextn);
      ChainKeeps(t, acl.llist, acl.nextn, of);
    } else {
      FlatValue(t, acl.llist, acl.nextn);
    }
  }

  lemma ChainKeeps(t: Tree, ts: seq<Tree>, n: nat, of: Tree)
    requires t.Bin? && Inserted(t.op, [], 0, t, ts, n, true)
    requires Weight(of) == Load(t.op, |ts| - 1, ts)
    requires forall k :: Absent(k, t.op, ts, of) ==> !Has(k, of)
    ensures Keeps(t, of, true)
  {
  }

  lemma FlatValue(t: Tree, ts: seq<Tree>, n: nat)
    requires t.Bin? && Inserted(t.op, [], 0, t, ts, n, false)
    ensures Operands(t.op, t, ts, n, false)
  {
    hide Tame, Weight, Has, Eval, Clean;
    assert Load(t.op, 0, []) == 0;
    BinFacts(t);
    forall env
      ensures ListEval(t.op, ts, env) == Eval(t, env)
    {
      JoinUnit(t.op, Eval(t, env));
    }
  }

  // ---- optim

  method Optim(t: Tree) returns (res: Outcome<Tree>, ghost skew: bool)
    ensures Improved(t, res, skew)
    ensures t.Bin? && Commutes(t.op) && Nodes(t.op, t) > NLIST ==> !res.Ok?
    ensures Exactly(t, res)
    decreases Weight(t), Rank(t), 6
  {
    skew := false;
    match t {
      case Un(_, _, _) =>
        res, skew := Unoptim(t);
      case Bin(op, _, l, r) =>
        if Commutes(op) {
          res, skew := OptimCommutative(t);
          return;
        }
        var l', s1 :- Optim(l);
        var r', s2 :- Optim(r);
        KeepsBin(op, t.deg, t.deg, l, r, l', r', s1, s2);
        ghost var s;
        res, s := OptimBinary(t, l', r', s1 || s2);
        skew := s1 || s2 || s;
        if BackwardShift(t) {
          PlainKept(t, l', r');
        }
      case _ =>
        skew := false;
        res := Ok(t);
    }
  }

  lemma PlainKept(t: Tree, l: Tree, r: Tree)
    requires BackwardShift(t) && SameNode(t.l, l) && r == t.r
    ensures Expandable(Bin(Lshift, 0, l, r)) && ExpandsBackward(Bin(Lshift, 0, l, r))
  {
  }

  // ((x+c)<<d)+y for a tame y and a c other than 0 keeps its value exactly if the six bits
  // of a positive d are not negative.
  method OptimShiftedSum(x: nat, c: int, d: int, y: Tree) returns (t: Tree, res: Outcome<Tree>)
    requires W(c) != 0 && Tame(y)
    ensures t == Bin(Plus, 0, Bin(Lshift, 0, Bin(Plus, 0, Name(x), Con(c)), Con(d)), y)
    ensures res.Ok? ==> (SameValue(t, res.value) <==> !Backward(d))
    ensures IsLeaf(y) ==> res.Ok?
  {
    hide Backward, Eval, W;
    var sum := Bin(Plus, 0, Name(x), Con(c));
    var shift := Bin(Lshift, 0, sum, Con(d));
    t := Bin(Plus, 0, shift, y);
    BinFacts(t);
    BinFacts(shift);
    BinFacts(sum);
    ConFacts(Con(c));
    ConFacts(Con(d));
    ghost var skew;
    res, skew := Optim(t);
  }

  // From acomm: on. An & leaves as &~ of the complement.
  method OptimCommutative(t: Tree) returns (res: Outcome<Tree>, ghost skew: bool)
    requires t.Bin? && Commutes(t.op)
    ensures Improved(t, res, skew)
    ensures Nodes(t.op, t) > NLIST ==> !res.Ok?
    ensures Exactly(t, res)
    decreases Weight(t), Rank(t), 4
  {
    skew := false;
    var a, s0 :- Acommute(t);
    if !(a.Bin? && a.op == And) {
      return Ok(a), s0;
    }
    BinFacts(a);
    var c := Un(Compl, 0, a.r);
    UnFacts(c);
    var l, s1 :- Optim(a.l);
    var r, s2 :- Optim(c);
    var nand := Finish(Nand, l, r);
    NandKeeps(a, l, r, nand, s1, s2);
    KeepsTrans(t, a, nand, s0, s1 || s2);
    return Ok(nand), s0 || s1 || s2;
  }

  // a & b as a &~ ~b
  lemma NandKeeps(a: Tree, l: Tree, r: Tree, nand: Tree, s1: bool, s2: bool)
    requires a.Bin? && a.op == And && Keeps(a.l, l, s1) && Keeps(Un(Compl, 0, a.r), r, s2)
    requires nand.Bin? && nand == Bin(Nand, nand.deg, l, r)
    ensures Keeps(a, nand, s1 || s2)
  {
    hide Weight, Tame, Has, Skewed, Eval, BitOp, Not;
    BinFacts(a);
    BinFacts(nand);
    var c := Un(Compl, 0, a.r);
    UnFacts(c);
    NotSkewed(And, a.l, a.r);
    NotSkewed(Nand, l, r);
    if !s1 && !s2 {
      forall env
        ensures Eval(nand, env) == Eval(a, env)
      {
        NandValue(Eval(l, env), Eval(a.r, env));
        assert Eval(r, env) == Eval(c, env) == ApUn(Compl, Eval(a.r, env));
      }
    }
  }

  // The default degree: one more than equal degrees.
  function Finish(op: Op, l: Tree, r: Tree): (t: Tree)
    ensures t.Bin? && t.op == op && t.l == l && t.r == r && t.deg >= 1
    ensures op != And && Tidy(op, l, r) ==> Clean(t)
  {
    Bin(op, JoinDegree(Max(Degree(l), 1), Max(Degree(r), 0)), l, r)
  }

  // A non-commutative operator over operands optimized with s already.
  method OptimBinary(t: Tree, l: Tree, r: Tree, ghost s: bool) returns (res: Outcome<Tree>, ghost skew: bool)
    requires t.Bin? && !Commutes(t.op)
    requires Keeps(t, Bin(t.op, t.deg, l, r), s) && Clean(l) && Clean(r)
    requires Weight(l) < Weight(t) && Weight(r) < Weight(t)
    ensures Improved(t, res, s || skew)
    ensures t.op == Lshift && !l.Con? && r.Con? && W(r.value) != 0 ==>
        res.Ok? && SameNode(Bin(Lshift, 0, l, r), res.value)
    ensures t.op == Divide || t.op == Mod ==>
        !res.Overflow? && (res.DivideCheck? <==> l.Con? && r.Con? && W(r.value) == 0)
    ensures PlainQuotient(Bin(t.op, 0, l, r)) ==> res.Ok? && SameNode(Bin(t.op, 0, l, r), res.value)
    decreases Weight(t), Rank(t), 5
  {
    hide Eval, Tame, Mul, BitOp, Ash, Has;
    var base := Bin(t.op, t.deg, l, r);
    skew := false;
    match t.op {
      case Rel(rel) =>
        var u := OptimRelation(rel, l, r, base);
        res := Ok(u);
      case Minus =>
        if r.Con? {
          var sum := Bin(Plus, t.deg, l, Con(W(-r.value)));
          NegatedConstant(base);
          KeepsTrans(t, base, sum, s, false);
          var u, s1 :- OptimCommutative(sum);
          KeepsTrans(t, sum, u, s, s1);
          return Ok(u), s1;
        }
        FinishKeeps(base, l, r);
        res := Ok(Finish(Minus, l, r));
      case Divide =>
        res := OptimQuotient(base, l, r);
      case Mod =>
        res := OptimQuotient(base, l, r);
      case Lshift =>
        res := OptimShift(base, l, r);
      case Rshift =>
        if r.Con? && W(r.value) == 0 {
          ShiftByZero(base);
          res := Ok(l);
        } else if r.Con? && W(r.value) == 1 {
          res := FoldOrFinish(base, l, r, 0);
        } else {
          // a right shift is a left shift by the negated count; optimize again
          BinFacts(base);
          UnFacts(Un(Neg, 0, r));
          var l', s1 :- Optim(l);
          var r', s2 :- Optim(Un(Neg, 0, r));
          var left := Bin(Lshift, t.deg, l', r');
          NegatedShift(t.deg, l, r, l', r', s1, s2);
          KeepsTrans(t, base, left, s, s1 || s2);
          res := OptimShift(left, l', r');
          KeepsResult(t, left, res, s || s1 || s2);
          return res, s1 || s2;
        }
      case Nand =>
        if r.Con? && W(r.value) == 0 {
          NandZeroKeeps(base);
          res := Ok(l);
        } else {
          FinishKeeps(base, l, r);
          res := Ok(Finish(Nand, l, r));
        }
      case LogAnd =>
        FinishKeeps(base, l, r);
        res := Ok(Finish(LogAnd, l, r));
      case LogOr =>
        FinishKeeps(base, l, r);
        res := Ok(Finish(LogOr, l, r));
    }
    KeepsResult(t, base, res, s);
  }

  // The constant: label, then the default degree.
  method FoldOrFinish(base: Tree, l: Tree, r: Tree, extra: nat) returns (res: Outcome<Tree>)
    requires base.Bin? && base == Bin(base.op, base.deg, l, r) && Clean(l) && Clean(r)
    requires base.op == Divide || base.op == Mod || base.op == Lshift || base.op == Rshift
    requires !(l.Con? && r.Con?) ==> Tidy(base.op, l, r)
    ensures Improved(base, res, false)
    ensures !l.Con? ==> res.Ok? && SameNode(base, res.value)
    ensures !res.Overflow?
    ensures res.DivideCheck? <==> (base.op == Divide || base.op == Mod) && l.Con? && r.Con? && W(r.value) == 0
  {
    BinFacts(base);
    if l.Con? && r.Con? {
      var v :- Const(base.op, l.value, r.value);
      ConFacts(Con(v));
      assert forall env :: Eval(base, env) == Ap(base.op, W(l.value), W(r.value), env);
      return Ok(Con(v));
    }
    var u := Bin(base.op, JoinDegree(Max(Degree(l), 1) + extra, Max(Degree(r), 0) + extra), l, r);
    BinFacts(u);
    return Ok(u);
  }

  method OptimQuotient(base: Tree, l: Tree, r: Tree) returns (res: Outcome<Tree>)
    requires base.Bin? && base == Bin(base.op, base.deg, l, r) && Clean(l) && Clean(r)
    requires base.op == Divide || base.op == Mod
    ensures Improved(base, res, false)
    ensures !res.Overflow? && (res.DivideCheck? <==> l.Con? && r.Con? && W(r.value) == 0)
    ensures !l.Con? && !(base.op == Divide && r.Con? && W(r.value) == 1) ==> res.Ok? && SameNode(base, res.value)
    ensures base.op == Divide && r.Con? && W(r.value) == 1 ==> res == Ok(l)
  {
    if base.op == Divide && r.Con? && W(r.value) == 1 {
      BinFacts(base);
      assert S(r.value) == 1;
      forall env
        ensures Eval(l, env) == Eval(base, env)
      {
        assert Eval(base, env) == W(Quo(S(Eval(l, env)), 1)) == W(S(Eval(l, env)));
      }
      return Ok(l);
    }
    var extra := if base.op == Divide && Pow2Scaled(base) then 0 else 2;
    res := FoldOrFinish(base, l, r, extra);
  }

  // A constant divisor is one in every environment exactly if it is the word 0.
  lemma ConstantDivisor(op: Op, deg: int, x: Tree, c: int)
    requires op == Divide || op == Mod
    ensures Has(ZeroDivisor, Bin(op, deg, x, Con(c))) <==> W(c) == 0 || Has(ZeroDivisor, x)
  {
    hide W;
    var env := SomeEnv();
    ConValue(Con(c), env);
    ConFacts(Con(c));
    BinFacts(Bin(op, deg, x, Con(c)));
    assert forall e :: Eval(Con(c), e) == W(c);
  }

  method OptimShift(base: Tree, l: Tree, r: Tree) returns (res: Outcome<Tree>)
    requires base.Bin? && base.op == Lshift && base == Bin(Lshift, base.deg, l, r) && Clean(l) && Clean(r)
    ensures Improved(base, res, false)
    ensures !l.Con? && r.Con? && W(r.value) != 0 ==> res.Ok? && SameNode(base, res.value)
  {
    if r.Con? && W(r.value) == 0 {
      ShiftByZero(base);
      return Ok(l);
    }
    res := FoldOrFinish(base, l, r, 0);
  }

  lemma ShiftByZero(t: Tree)
    requires t.Bin? && (t.op == Lshift || t.op == Rshift) && t.r.Con? && W(t.r.value) == 0
    ensures Keeps(t, t.l, false)
  {
    hide Weight, Tame, Has, Skewed, Eval, W, Ash;
    BinFacts(t);
    forall env
      ensures Eval(t.l, env) == Eval(t, env)
    {
      ConValue(t.r, env);
      AshZero(Eval(t.l, env), 0);
    }
  }

  lemma FinishKeeps(t: Tree, l: Tree, r: Tree)
    requires t.Bin? && t == Bin(t.op, t.deg, l, r)
    ensures Keeps(t, Finish(t.op, l, r), false)
  {
    hide JoinDegree, Max, Degree;
    BinFacts(t);
    BinFacts(Finish(t.op, l, r));
  }

  // x &~ 0
  lemma NandZeroKeeps(t: Tree)
    requires t.Bin? && t.op == Nand && t.r.Con? && W(t.r.value) == 0
    ensures Keeps(t, t.l, false)
  {
    hide Eval, BitOp, Not, Weight, Tame, Has, Skewed;
    BinFacts(t);
    forall env
      ensures Eval(t.l, env) == Eval(t, env)
    {
      ConValue(t.r, env);
      NandZero(Eval(t.l, env));
    }
  }

  // x-c as x+(-c)
  lemma NegatedConstant(t: Tree)
    requires t.Bin? && t.op == Minus && t.r.Con?
    ensures Keeps(t, Bin(Plus, t.deg, t.l, Con(W(-t.r.value))), false)
  {
    hide Weight, Tame, Has, Skewed, Eval, W, Add;
    var c := t.r.value;
    var u := Bin(Plus, t.deg, t.l, Con(W(-c)));
    BinFacts(t);
    BinFacts(u);
    ConFacts(t.r);
    ConFacts(u.r);
    assert !Skewed(Plus, u.l, u.r) by { NotSkewed(Plus, u.l, u.r); }
    forall env
      ensures Eval(u, env) == Eval(t, env)
    {
      ConValue(t.r, env);
      ConValue(u.r, env);
      AddNegated(Eval(t.l, env), c);
    }
  }

  lemma NotSkewed(op: Op, l: Tree, r: Tree)
    requires op != Lshift && op != Rshift
    ensures !Skewed(op, l, r)
  {
  }

  lemma ConValue(t: Tree, env: Env)
    requires t.Con?
    ensures Eval(t, env) == W(t.value)
  {
  }

  lemma NegatedShift(deg: int, l: Tree, r: Tree, l': Tree, r': Tree, s1: bool, s2: bool)
    requires Keeps(l, l', s1) && Keeps(Un(Neg, 0, r), r', s2)
    ensures Keeps(Bin(Rshift, deg, l, r), Bin(Lshift, deg, l', r'), s1 || s2)
  {
    hide Weight, Tame, Has, Eval, Ash, W;
    var t, u, n := Bin(Rshift, deg, l, r), Bin(Lshift, deg, l', r'), Un(Neg, 0, r);
    BinFacts(t);
    BinFacts(u);
    UnFacts(n);
    if Tame(t) && Skewed(Lshift, l', r') {
      SameCount(n, r');
    }
    if !s1 && !s2 {
      forall env
        ensures Eval(u, env) == Eval(t, env)
      {
        assert Eval(r', env) == Eval(n, env) == W(-Eval(r, env));
      }
    }
  }

  lemma KeepsResult(t: Tree, u: Tree, res: Outcome<Tree>, skew: bool)
    requires Keeps(t, u, skew) && Improved(u, res, false)
    ensures Improved(t, res, skew)
  {
    if res.Ok? {
      KeepsTrans(t, u, res.value, skew, false);
    }
  }

  // The harder operand goes left; a variable goes right of anything else as hard.
  method OptimRelation(rel: RelOp, l: Tree, r: Tree, ghost base: Tree) returns (u: Tree)
    requires base.Bin? && base == Bin(Rel(rel), base.deg, l, r)
    ensures Keeps(base, u, false) && Clean(u)
  {
    hide Eval, Tame, Has, Weight;
    BinFacts(base);
    NotSkewed(Rel(rel), l, r);
    var d1, d2 := Degree(l), Degree(r);
    if d1 < d2 || (d1 == d2 && l.Name? && !r.Name?) {
      u := Finish(Rel(RelMap(rel)), r, l);
      BinFacts(u);
      NotSkewed(u.op, r, l);
      forall env
        ensures Eval(u, env) == Eval(base, env)
      {
        RelTables(rel, Eval(l, env), Eval(r, env));
      }
    } else {
      u := Finish(Rel(rel), l, r);
      BinFacts(u);
    }
  }

  // unoptim() on - ~ and !.
  method Unoptim(t: Tree) returns (res: Outcome<Tree>, ghost skew: bool)
    requires t.Un?
    ensures Improved(t, res, skew)
    decreases Weight(t), Rank(t), 5
  {
    skew := false;
    var s, s1 :- Optim(t.t);
    skew := s1;
    ghost var base := Un(t.u, t.deg, s);
    KeepsUn(t.u, t.deg, t.deg, t.t, s, s1);
    UnFacts(t);
    if t.u == Excla && s.Bin? && s.op.Rel? {
      var u := Bin(Rel(NotRel(s.op.rel)), Max(1, s.deg), s.l, s.r);
      NegatedRelation(base, u);
      KeepsTrans(t, base, u, s1, false);
      return Ok(u), s1;
    }
    if t.u != Excla && s.Un? && s.u == t.u {
      DoubledKeeps(base);
      KeepsTrans(t, base, s.t, s1, false);
      return Ok(s.t), s1;
    }
    if t.u != Excla && s.Con? {
      FoldedUnKeeps(base);
      KeepsTrans(t, base, Con(ApUn(t.u, W(s.value))), s1, false);
      return Ok(Con(ApUn(t.u, W(s.value)))), s1;
    }
    KeepsUn(t.u, t.deg, Max(1, Degree(s)), s, s, false);
    KeepsTrans(t, base, Un(t.u, Max(1, Degree(s)), s), s1, false);
    return Ok(Un(t.u, Max(1, Degree(s)), s)), s1;
  }

  // - - x and ~ ~ x
  lemma DoubledKeeps(t: Tree)
    requires t.Un? && t.u != Excla && t.t.Un? && t.t.u == t.u
    ensures Keeps(t, t.t.t, false)
  {
    hide Weight, Tame, Has, Eval, W, Not;
    UnFacts(t);
    UnFacts(t.t);
    forall env
      ensures Eval(t.t.t, env) == Eval(t, env)
    {
      var v := Eval(t.t.t, env);
      assert Eval(t.t, env) == ApUn(t.u, v);
      NegateTwice(v);
    }
  }

  lemma FoldedUnKeeps(t: Tree)
    requires t.Un? && t.u != Excla && t.t.Con?
    ensures Keeps(t, Con(ApUn(t.u, W(t.t.value))), false)
  {
    hide Weight, Tame, Has, S;
    var v := t.t.value;
    UnFacts(t);
    ConFacts(t.t);
    ConFacts(Con(ApUn(t.u, W(v))));
  }

  lemma NegatedRelation(t: Tree, u: Tree)
    requires t.Un? && t.u == Excla && t.t.Bin? && t.t.op.Rel?
    requires u.Bin? && u == Bin(Rel(NotRel(t.t.op.rel)), u.deg, t.t.l, t.t.r)
    ensures Keeps(t, u, false)
  {
    hide Weight, Tame, Has, Eval;
    UnFacts(t);
    BinFacts(t.t);
    BinFacts(u);
    NotSkewed(u.op, u.l, u.r);
    forall env
      ensures Eval(u, env) == Eval(t, env)
    {
      RelTables(t.t.op.rel, Eval(t.t.l, env), Eval(t.t.r, env));
      assert Eval(t.t, env) == Compare(t.t.op.rel, Eval(t.t.l, env), Eval(t.t.r, env));
    }
  }

  // ---- what an exhausted distrib leaves behind

  // No constant divides another, unless two of them are equal up to sign.
  lemma ReducedMeans(ts: seq<Tree>)
    requires AllClean(ts) && Reduced(ts)
    ensures (forall i, j :: 0 <= i < |ts| && 0 <= j < |ts| ==> !DividesAt(ts, j, i))
            || exists i, j :: 0 <= i < |ts| && 0 <= j < |ts| && Twins(ts, i, j)
  {
    hide Rem, Quo, S, Divisors;
    if i0, j0 :| 0 <= i0 < |ts| && 0 <= j0 < |ts| && DividesAt(ts, j0, i0) {
      var i := Largest(ts, i0, j0);
      DividedCounts(ts, i);
      assert !Candidate(ts, i);
      var k :| 0 <= k < |ts| && DividesAt(ts, i, k);
      DivisorNoLarger(Scale(ts[i]), Scale(ts[k]));
      assert Divided(ts, k);
      assert Twins(ts, i, k);
    }
  }

  function Abs(x: int): int { if x < 0 then -x else x }

  ghost predicate Twins(ts: seq<Tree>, i: int, j: int)
    requires 0 <= i < |ts| && 0 <= j < |ts|
  {
    i != j && Scaled(ts[i]) && Scaled(ts[j]) && Abs(Scale(ts[i])) == Abs(Scale(ts[j]))
  }

  ghost predicate Divided(ts: seq<Tree>, i: int)
    requires 0 <= i < |ts|
  {
    exists j :: 0 <= j < |ts| && DividesAt(ts, j, i)
  }

  // Among the members some other member divides, one of the largest constants.
  lemma Largest(ts: seq<Tree>, i0: nat, j0: nat) returns (i: nat)
    requires i0 < |ts| && j0 < |ts| && DividesAt(ts, j0, i0)
    ensures i < |ts| && Divided(ts, i)
    ensures forall k :: 0 <= k < |ts| && Divided(ts, k) ==> Abs(Scale(ts[k])) <= Abs(Scale(ts[i]))
  {
    i := i0;
    for n := 0 to |ts|
      invariant i < |ts| && Divided(ts, i)
      invariant forall k :: 0 <= k < n && Divided(ts, k) ==> Abs(Scale(ts[k])) <= Abs(Scale(ts[i]))
    {
      if Divided(ts, n) && Abs(Scale(ts[n])) > Abs(Scale(ts[i])) {
        i := n;
      }
    }
  }

  lemma DividedCounts(ts: seq<Tree>, i: nat)
    requires i < |ts| && Divided(ts, i)
    ensures Divisors(ts, i, |ts|) > 0
  {
    var j :| 0 <= j < |ts| && DividesAt(ts, j, i);
    CountsFrom(ts, i, j, |ts|);
  }

  lemma {:induction false} CountsFrom(ts: seq<Tree>, i: nat, j: nat, n: nat)
    requires i < |ts| && j < n <= |ts| && DividesAt(ts, j, i)
    ensures Divisors(ts, i, n) > 0
    decreases n
  {
    if j < n - 1 {
      CountsFrom(ts, i, j, n - 1);
    }
  }

  lemma DivisorNoLarger(a: int, b: int)
    requires a != 0 && b != 0 && Rem(b, a) == 0
    ensures Abs(a) <= Abs(b)
  {
    QuoExact(b, a);
    var q := Quo(b, a);
    assert q != 0;
    if q > 0 {
      assert Abs(b) == q * Abs(a);
    } else {
      assert Abs(b) == -q * Abs(a);
    }
  }

  // ---- pow2() of v6/c/c11.c: strength reduction before code is chosen

  // pow2()'s loop: halve until nothing is left.
  method LogTwo(d: int) returns (i: nat)
    requires 0 < d < RADIX
    ensures Pow2(i) <= d < Pow2(i + 1)
  {
    var e := d;
    i := 0;
    while e / 2 != 0
      invariant e >= 1 && i >= 0
      invariant e * Pow2(i) <= d < (e + 1) * Pow2(i)
      decreases e
    {
      HalveScaled(e, Pow2(i), d);
      e := e / 2;
      i := i + 1;
    }
  }

  lemma HalveScaled(e: int, p: int, d: int)
    requires e >= 2 && p >= 1 && e * p <= d < (e + 1) * p
    ensures (e / 2) * (2 * p) <= d < (e / 2 + 1) * (2 * p)
  {
    var h := e / 2;
    assert 2 * h <= e <= 2 * h + 1;
    assert (2 * h) * p <= e * p && (e + 1) * p <= (2 * h + 2) * p;
  }

  // The shift agrees with the division for every operand that is not negative or that
  // 2^i divides, and for no other.
  ghost predicate ShiftsQuotient(t: Tree, u: Tree, i: nat)
    requires t.Bin?
  {
    forall env :: Eval(u, env) == Eval(t, env) <==> S(Eval(t.l, env)) >= 0 || S(Eval(t.l, env)) % Pow2(i) == 0
  }

  // x*2^i becomes x<<i; x/2^i becomes x>>i.
  method StrengthReduce(t: Tree) returns (u: Tree)
    requires Pow2Scaled(t) && (t.op == Times || t.op == Divide)
    ensures u.Bin? && u.l == t.l && u.r.Con? && 1 <= u.r.value <= 14 && W(t.r.value) == Pow2(u.r.value)
    ensures t.op == Times ==> u.op == Lshift && SameValue(t, u)
    ensures t.op == Divide ==> u.op == Rshift && ShiftsQuotient(t, u, u.r.value)
  {
    hide Pow2, Bits, Quo, Eval, Ash;
    var d := W(t.r.value);
    var i := LogTwo(d);
    u := Bin(if t.op == Times then Lshift else Rshift, t.deg, t.l, Con(i));
    PowerIs(d, i);
    StrengthValue(t, i);
  }

  // pow2() as a whole: the shift is optimized once more.
  method PowerToShift(t: Tree) returns (res: Outcome<Tree>, ghost skew: bool)
    requires t.Bin? && (t.op == Times || t.op == Divide)
    ensures !Pow2Scaled(t) ==> res == Ok(t)
    ensures res.Ok? && Tame(t) ==> !skew
    ensures res.Ok? && !skew && t.op == Times ==> SameValue(t, res.value)
    ensures res.Ok? && !skew && Pow2Scaled(t) && t.op == Divide ==> DividesRight(t, res.value)
    ensures res.DivideCheck? ==> Has(ZeroDivisor, t.l)
  {
    hide Eval, Tame, Has, Weight, Backward, BitOp;
    skew := false;
    if !Pow2Scaled(t) {
      return Ok(t), false;
    }
    var u := StrengthReduce(t);
    BinFacts(t);
    BinFacts(u);
    ConFacts(u.r);
    ConstantShift(u.op, u.l, u.r.value);
    res, skew := Optim(u);
  }

  // The quotient's value exactly where the dividend is not negative or the divisor divides it.
  ghost predicate DividesRight(t: Tree, r: Tree)
    requires t.Bin? && t.r.Con?
  {
    forall env :: Eval(r, env) == Eval(t, env)
                  <==> S(Eval(t.l, env)) >= 0 || S(Eval(t.l, env)) % Max(1, W(t.r.value)) == 0
  }

  lemma ConstantShift(op: Op, l: Tree, i: int)
    requires 1 <= i <= 14
    ensures !Skewed(op, l, Con(i))
  {
    hide Backward, W, Has;
    var n := Un(Neg, 0, Con(i));
    SmallForward(i);
    ConFacts(Con(i));
    if v :| Backward(v) && Always(n, v) {
      assert Eval(Con(i), SomeEnv()) == i;
      assert Eval(n, SomeEnv()) == W(-i);
      assert false;
    }
  }

  lemma SmallForward(i: int)
    requires 1 <= i <= 14
    ensures !Backward(i) && W(i) == i && !Backward(W(-i))
  {
    NegativeWord(i);
    assert W(RADIX - i) == RADIX - i;
  }

  lemma NegativeWord(i: int)
    requires 1 <= i <= 14
    ensures W(-i) == RADIX - i
  {
  }

  lemma PowerIs(d: int, i: nat)
    requires 1 < d < 32768 && BitOp(BitAnd, d, W(d - 1)) == 0 && Pow2(i) <= d < Pow2(i + 1)
    ensures 1 <= i <= 14 && d == Pow2(i)
  {
    hide Bits;
    WSmall(d - 1);
    Pow2Sixteen();
    var k := ClearLowest(16, d);
    SamePower(k, i);
    assert Pow2(15) * 2 == Pow2(16);
  }

  lemma StrengthValue(t: Tree, i: int)
    requires t.Bin? && t.r.Con? && 1 <= i <= 14 && W(t.r.value) == Pow2(i)
    ensures t.op == Times ==> SameValue(t, Bin(Lshift, t.deg, t.l, Con(i)))
    ensures t.op == Divide ==> ShiftsQuotient(t, Bin(Rshift, t.deg, t.l, Con(i)), i)
  {
    hide Pow2, Quo, Weight, Tame, Eval, W;
    forall env
      ensures t.op == Times ==> Eval(Bin(Lshift, t.deg, t.l, Con(i)), env) == Eval(t, env)
      ensures t.op == Divide ==>
                (Eval(Bin(Rshift, t.deg, t.l, Con(i)), env) == Eval(t, env)
                 <==> S(Eval(t.l, env)) >= 0 || S(Eval(t.l, env)) % Pow2(i) == 0)
    {
      StrengthValueAt(t, i, env);
    }
  }

  lemma StrengthValueAt(t: Tree, i: int, env: Env)
    requires t.Bin? && t.r.Con? && 1 <= i <= 14 && W(t.r.value) == Pow2(i)
    ensures t.op == Times ==> Eval(Bin(Lshift, t.deg, t.l, Con(i)), env) == Eval(t, env)
    ensures t.op == Divide ==>
              (Eval(Bin(Rshift, t.deg, t.l, Con(i)), env) == Eval(t, env)
               <==> S(Eval(t.l, env)) >= 0 || S(Eval(t.l, env)) % Pow2(i) == 0)
  {
    hide Pow2, Quo, Eval, W, S, AshCount, Mul, Ash;
    var x, u, v := Eval(t.l, env), Bin(Lshift, t.deg, t.l, Con(i)), Bin(Rshift, t.deg, t.l, Con(i));
    Pow2Bound(i);
    SmallCount(i);
    SmallWord(Pow2(i));
    SShared(t.r.value, Pow2(i));
    BinFacts(t);
    BinFacts(u);
    BinFacts(v);
    ConValue(t.r, env);
    ConValue(Con(i), env);
    ShiftForQuotientIff(x, i);
    AshLeft(x, i);
    MulWord(x, t.r.value);
  }

  lemma {:induction false} SamePower(k: nat, i: nat)
    requires Pow2(i) <= Pow2(k) < Pow2(i + 1)
    ensures k == i
    decreases k
  {
    if k < i {
      Grows(k, i);
    } else if k > i {
      Grows(i + 1, k);
    }
  }

  lemma {:induction false} Grows(a: nat, b: nat)
    requires a <= b
    ensures Pow2(a) <= Pow2(b) && (a < b ==> Pow2(a) < Pow2(b))
    decreases b
  {
    if a < b {
      Grows(a, b - 1);
    }
  }
}
