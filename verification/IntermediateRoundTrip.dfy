// What getree reads back from a file that the first pass wrote: every record as
// it was written, exactly when no tree needs twenty stack entries or 500 words.

module IntermediateRoundTrip {
  import opened Intermediate

  // The most trees that stand on the stack while this one is read onto it.
  function Peak(n: Node): (p: nat)
    ensures p >= 1
  {
    match n
    case Fsel(_, sub, _) => Peak(sub)
    case Cbranch(sub, _, _) => Peak(sub)
    case Unary(_, _, sub) => Peak(sub)
    case Binary(_, _, l, r) => if Peak(l) > 1 + Peak(r) then Peak(l) else 1 + Peak(r)
    case _ => 1
  }

  // The words its nodes take in treespace.
  function Words(n: Node): (w: nat)
    ensures w >= 3
  {
    match n
    case Null => 3
    case Name(_, _, _) => 6
    case Extern(_, _) => 9
    case Const(_, _, _) => 4
    case Fsel(_, sub, _) => Words(sub) + 5
    case Cbranch(sub, _, _) => Words(sub) + 4
    case Unary(_, _, sub) => Words(sub) + 4
    case Binary(_, _, l, r) => Words(l) + Words(r) + 5
  }

  predicate Fits(n: Node, height: nat, used: nat) {
    height + Peak(n) < STACK && used + Words(n) < SPACE
  }

  // ---- words and names ----

  lemma Assoc<T>(a: seq<T>, b: seq<T>, c: seq<T>)
    ensures (a + b) + c == a + (b + c)
  {
  }

  lemma GetWord(w: Word, rest: seq<Byte>)
    ensures Getw(WordBytes(w) + rest) == w && Rest(WordBytes(w) + rest) == rest
  {
    assert w == w % 256 + 256 * (w / 256);
    assert (WordBytes(w) + rest)[2..] == rest;
  }

  lemma GetOp(op: nat, rest: seq<Byte>)
    requires op < 256
    ensures var b := OpBytes(op) + rest;
      Getw(b) / 256 == 0xFE && Getw(b) % 256 == op && Rest(b) == rest
  {
    GetWord(op + 0xFE00, rest);
  }

  // The characters of a name in front of its first zero.
  function Trim(s: seq<Byte>): (r: seq<Byte>)
    ensures |r| <= |s| && 0 !in r
  {
    if s == [] || s[0] == 0 then [] else [s[0]] + Trim(s[1..])
  }

  lemma {:induction false} StringIs(s: seq<Byte>, n: nat, rest: seq<Byte>)
    requires |s| <= n
    ensures StringBytes(s, n) == Trim(s) + [0]
  {
    if s != [] && s[0] != 0 {
      StringIs(s[1..], n - 1, rest);
      Assoc([s[0]], Trim(s[1..]), [0]);
    }
  }

  lemma {:induction false} NameBack(t: seq<Byte>, rest: seq<Byte>)
    requires 0 !in t
    ensures NameOf(t + [0] + rest) == t && Behind(t + [0] + rest) == rest && 0 in t + [0] + rest
    decreases |t|
  {
    var b := t + [0] + rest;
    assert b[|t|] == 0;
    if t == [] {
      assert b[0] == 0 && b[1..] == rest;
    } else {
      assert b[0] == t[0] != 0;
      assert b[1..] == t[1..] + [0] + rest;
      NameBack(t[1..], rest);
    }
  }

  lemma {:induction false} PadZeros(s: seq<Byte>, p: seq<Byte>)
    requires |s| <= |p| == 8 && p[..|s|] == s && forall i :: |s| <= i < 8 ==> p[i] == 0
    ensures Pad(s) == p
    decreases 8 - |s|
  {
    if |s| < 8 {
      assert p[..|s| + 1] == s + [0];
      PadZeros(s + [0], p);
    }
  }

  lemma {:induction false} TrimPrefix(s: seq<Byte>)
    ensures s[..|Trim(s)|] == Trim(s)
    ensures |Trim(s)| < |s| ==> s[|Trim(s)|] == 0
  {
    if s != [] && s[0] != 0 {
      TrimPrefix(s[1..]);
      assert s[..|Trim(s)|] == [s[0]] + s[1..][..|Trim(s[1..])|];
    }
  }

  // outname gives back the eight bytes that were written.
  lemma NameRead(name: seq<Byte>, rest: seq<Byte>)
    requires Padded(name)
    ensures var b := StringBytes(name, 8) + rest;
      0 in b && Pad(NameOf(b)) == name && Behind(b) == rest
  {
    StringIs(name, 8, rest);
    NameBack(Trim(name), rest);
    TrimPrefix(name);
    PadZeros(Trim(name), name);
  }

  // ---- one node ----

  // What a step does with the record of a node, when its operands stand below.
  lemma StepOp(op: nat, tail: seq<Byte>, rest: seq<Byte>, st: seq<Node>, used: nat)
    requires op < 256
    ensures Step(State((OpBytes(op) + tail) + rest, st, used))
         == if |st| >= STACK then Stop(Botch("Stack botch")) else Operator(op, tail + rest, st, used)
  {
    Assoc(OpBytes(op), tail, rest);
    GetOp(op, tail + rest);
    hide Operator;
  }

  // The bytes of the last record of a tree.
  function LastBytes(n: Node): seq<Byte>
    requires Wellformed(n)
  {
    match n
    case Null => OpBytes(NULLOP)
    case Name(cls, typ, nloc) => OpBytes(NAME) + (WordBytes(cls) + (WordBytes(typ) + WordBytes(nloc)))
    case Extern(typ, name) => OpBytes(NAME) + (WordBytes(EXTERN) + (WordBytes(typ) + StringBytes(name, 8)))
    case Const(op, typ, value) => OpBytes(op) + (WordBytes(typ) + WordBytes(value))
    case Fsel(typ, sub, bits) => OpBytes(FSEL) + (WordBytes(typ) + WordBytes(bits))
    case Cbranch(sub, lbl, cond) => OpBytes(CBRANCH) + (WordBytes(lbl) + WordBytes(cond))
    case Unary(op, typ, sub) => OpBytes(op) + WordBytes(typ)
    case Binary(op, typ, l, r) => OpBytes(op) + WordBytes(typ)
  }

  // The operands of a node, in the order they are read.
  function Operands(n: Node): seq<Node> {
    match n
    case Fsel(_, sub, _) => [sub]
    case Cbranch(sub, _, _) => [sub]
    case Unary(_, _, sub) => [sub]
    case Binary(_, _, l, r) => [l, r]
    case _ => []
  }

  function OwnWords(n: Node): nat {
    match n
    case Null => 3
    case Name(_, _, _) => 6
    case Extern(_, _) => 9
    case Const(_, _, _) => 4
    case Fsel(_, _, _) => 5
    case Cbranch(_, _, _) => 4
    case Unary(_, _, _) => 4
    case Binary(_, _, _, _) => 5
  }

  ghost predicate StepsTo(n: Node, rest: seq<Byte>, st: seq<Node>, used: nat)
    requires Wellformed(n)
  {
    var full := st + Operands(n);
    Step(State(LastBytes(n) + rest, full, used))
    == if |full| >= STACK then Stop(Botch("Stack botch")) else Put(rest, st, used, n, OwnWords(n))
  }

  /** The record of a node takes its operands off the stack and puts the node
      there. */
  lemma StepNode(n: Node, rest: seq<Byte>, st: seq<Node>, used: nat)
    requires Wellformed(n)
    ensures StepsTo(n, rest, st, used)
  {
    hide StepsTo;
    match n
    case Null => StepNull(rest, st, used);
    case Name(_, _, _) => StepName(n, rest, st, used);
    case Extern(_, _) => StepExtern(n, rest, st, used);
    case Const(_, _, _) => StepConst(n, rest, st, used);
    case Fsel(_, _, _) => StepFsel(n, rest, st, used);
    case Cbranch(_, _, _) => StepCbranch(n, rest, st, used);
    case Unary(_, _, _) => StepUnary(n, rest, st, used);
    case Binary(_, _, _, _) => StepBinary(n, rest, st, used);
  }

  lemma StepNull(rest: seq<Byte>, st: seq<Node>, used: nat)
    ensures StepsTo(Null, rest, st, used)
  {
    hide Getw, Rest;
    assert OpBytes(NULLOP) + [] == OpBytes(NULLOP) && [] + rest == rest && st + [] == st;
    StepOp(NULLOP, [], rest, st, used);
  }

  lemma StepConst(n: Node, rest: seq<Byte>, st: seq<Node>, used: nat)
    requires Wellformed(n) && n.Const?
    ensures StepsTo(n, rest, st, used)
  {
    hide Getw, Rest, WordBytes, OpBytes, Step;
    assert st + [] == st;
    StepOp(n.op, WordBytes(n.typ) + WordBytes(n.value), rest, st, used);
    TwoWords(n.typ, n.value, rest);
  }

  lemma StepFsel(n: Node, rest: seq<Byte>, st: seq<Node>, used: nat)
    requires Wellformed(n) && n.Fsel?
    ensures StepsTo(n, rest, st, used)
  {
    hide Getw, Rest, WordBytes, OpBytes, Step;
    Top(st, n.sub);
    StepOp(FSEL, WordBytes(n.typ) + WordBytes(n.bits), rest, st + [n.sub], used);
    TwoWords(n.typ, n.bits, rest);
  }

  lemma StepCbranch(n: Node, rest: seq<Byte>, st: seq<Node>, used: nat)
    requires Wellformed(n) && n.Cbranch?
    ensures StepsTo(n, rest, st, used)
  {
    hide Getw, Rest, WordBytes, OpBytes, Step;
    Top(st, n.sub);
    StepOp(CBRANCH, WordBytes(n.lbl) + WordBytes(n.cond), rest, st + [n.sub], used);
    TwoWords(n.lbl, n.cond, rest);
  }

  lemma StepUnary(n: Node, rest: seq<Byte>, st: seq<Node>, used: nat)
    requires Wellformed(n) && n.Unary?
    ensures StepsTo(n, rest, st, used)
  {
    hide Getw, Rest, WordBytes, OpBytes, Step, Binary1, Binary2;
    Top(st, n.sub);
    StepOp(n.op, WordBytes(n.typ), rest, st + [n.sub], used);
    GetWord(n.typ, rest);
  }

  lemma StepBinary(n: Node, rest: seq<Byte>, st: seq<Node>, used: nat)
    requires Wellformed(n) && n.Binary?
    ensures StepsTo(n, rest, st, used)
  {
    hide Getw, Rest, WordBytes, OpBytes, Step, Binary1, Binary2;
    Assoc(st, [n.left], [n.right]);
    Top(st, n.left);
    Top(st + [n.left], n.right);
    StepOp(n.op, WordBytes(n.typ), rest, st + [n.left, n.right], used);
    GetWord(n.typ, rest);
  }

  lemma Top(st: seq<Node>, n: Node)
    ensures var full := st + [n];
      full != [] && full[..|full| - 1] == st && full[|full| - 1] == n
  {
  }

  lemma TwoWords(v: Word, w: Word, rest: seq<Byte>)
    ensures var b := WordBytes(v) + WordBytes(w) + rest;
      Getw(b) == v && Getw(Rest(b)) == w && Rest(Rest(b)) == rest
  {
    Assoc(WordBytes(v), WordBytes(w), rest);
    GetWord(v, WordBytes(w) + rest);
    GetWord(w, rest);
  }

  lemma StepName(n: Node, rest: seq<Byte>, st: seq<Node>, used: nat)
    requires Wellformed(n) && n.Name?
    ensures StepsTo(n, rest, st, used)
  {
    hide Getw, Rest, WordBytes, OpBytes, Step;
    assert st + [] == st;
    var tail := WordBytes(n.typ) + WordBytes(n.nloc);
    StepOp(NAME, WordBytes(n.cls) + tail, rest, st, used);
    Assoc(WordBytes(n.cls), tail, rest);
    GetWord(n.cls, tail + rest);
    TwoWords(n.typ, n.nloc, rest);
  }

  lemma StepExtern(n: Node, rest: seq<Byte>, st: seq<Node>, used: nat)
    requires Wellformed(n) && n.Extern?
    ensures StepsTo(n, rest, st, used)
  {
    hide Getw, Rest, WordBytes, OpBytes, Step;
    assert st + [] == st;
    var s := StringBytes(n.name, 8);
    StepOp(NAME, WordBytes(EXTERN) + (WordBytes(n.typ) + s), rest, st, used);
    Assoc(WordBytes(EXTERN), WordBytes(n.typ) + s, rest);
    Assoc(WordBytes(n.typ), s, rest);
    GetWord(EXTERN, WordBytes(n.typ) + s + rest);
    GetWord(n.typ, s + rest);
    NameRead(n.name, rest);
  }

  // ---- whole trees ----

  // A node's bytes are those of its operands and then its own record.
  lemma TreeSplit(n: Node)
    requires Wellformed(n)
    ensures match n
      case Fsel(_, sub, _) => TreeBytes(n) == TreeBytes(sub) + LastBytes(n)
      case Cbranch(sub, _, _) => TreeBytes(n) == TreeBytes(sub) + LastBytes(n)
      case Unary(_, _, sub) => TreeBytes(n) == TreeBytes(sub) + LastBytes(n)
      case Binary(_, _, l, r) => TreeBytes(n) == TreeBytes(l) + TreeBytes(r) + LastBytes(n)
      case _ => TreeBytes(n) == LastBytes(n)
  {
    hide WordBytes, OpBytes;
    match n
    case Name(cls, typ, nloc) =>
      Assoc(OpBytes(NAME), WordBytes(cls), WordBytes(typ));
      Assoc(OpBytes(NAME) + WordBytes(cls), WordBytes(typ), WordBytes(nloc));
      Assoc(OpBytes(NAME), WordBytes(cls), WordBytes(typ) + WordBytes(nloc));
    case Extern(typ, name) =>
      Assoc(OpBytes(NAME) + WordBytes(EXTERN), WordBytes(typ), StringBytes(name, 8));
      Assoc(OpBytes(NAME), WordBytes(EXTERN), WordBytes(typ) + StringBytes(name, 8));
    case Const(op, typ, value) => Assoc(OpBytes(op), WordBytes(typ), WordBytes(value));
    case Fsel(typ, sub, bits) => Assoc(OpBytes(FSEL), WordBytes(typ), WordBytes(bits));
    case Cbranch(sub, lbl, cond) => Assoc(OpBytes(CBRANCH), WordBytes(lbl), WordBytes(cond));
    case _ =>
  }

  // The last record of a node read, its operands being on the stack.
  lemma LastRead(n: Node, rest: seq<Byte>, st: seq<Node>, used: nat)
    requires Wellformed(n)
    ensures var o := ReadFrom(State(LastBytes(n) + rest, st + Operands(n), used));
      && (|st + Operands(n)| < STACK && used + OwnWords(n) < SPACE ==>
            o == ReadFrom(State(rest, st + [n], used + OwnWords(n))))
      && (|st + Operands(n)| >= STACK || used + OwnWords(n) >= SPACE || |st| + 1 >= STACK ==> o.Botch?)
  {
    hide Step, LastBytes, ReadFrom, OwnWords;
    StepNode(n, rest, st, used);
    ReadStep(State(LastBytes(n) + rest, st + Operands(n), used));
    if |st| + 1 >= STACK {
      FullStack(rest, st + [n], used + OwnWords(n));
      ReadStep(State(rest, st + [n], used + OwnWords(n)));
    }
  }

  lemma ReadStep(s: State)
    ensures ReadFrom(s) == match Step(s)
                           case Stop(o) => o
                           case Go(s') => ReadFrom(s')
                           case Found(r, s') => Prepend(r, ReadFrom(s'))
  {
    hide Step;
  }

  lemma FullStack(b: seq<Byte>, st: seq<Node>, used: nat)
    requires |st| >= STACK
    ensures Step(State(b, st, used)) == Stop(Botch("Stack botch"))
  {
  }

  // Words and peak of a node from those of its operands.
  lemma Measures(n: Node)
    ensures match n
      case Fsel(_, sub, _) => Words(n) == Words(sub) + OwnWords(n) && Peak(n) == Peak(sub)
      case Cbranch(sub, _, _) => Words(n) == Words(sub) + OwnWords(n) && Peak(n) == Peak(sub)
      case Unary(_, _, sub) => Words(n) == Words(sub) + OwnWords(n) && Peak(n) == Peak(sub)
      case Binary(_, _, l, r) =>
        && Words(n) == Words(l) + Words(r) + OwnWords(n)
        && Peak(n) == if Peak(l) > 1 + Peak(r) then Peak(l) else 1 + Peak(r)
      case _ => Words(n) == OwnWords(n) && Peak(n) == 1 && Operands(n) == []
  {
  }

  /** Reading what treeout wrote puts the same tree on the stack. */
  lemma {:induction false} TreeRead(n: Node, rest: seq<Byte>, st: seq<Node>, used: nat)
    requires Wellformed(n) && Fits(n, |st|, used)
    ensures ReadFrom(State(TreeBytes(n) + rest, st, used)) == ReadFrom(State(rest, st + [n], used + Words(n)))
    decreases n
  {
    hide TreeBytes, LastBytes, ReadFrom, Words, Peak, OwnWords;
    TreeSplit(n);
    Measures(n);
    LastRead(n, rest, st, used + Words(n) - OwnWords(n));
    if n.Fsel? || n.Cbranch? || n.Unary? {
      Assoc(TreeBytes(n.sub), LastBytes(n), rest);
      TreeRead(n.sub, LastBytes(n) + rest, st, used);
    } else if n.Binary? {
      Assoc(TreeBytes(n.left) + TreeBytes(n.right), LastBytes(n), rest);
      Assoc(TreeBytes(n.left), TreeBytes(n.right), LastBytes(n) + rest);
      TreeRead(n.left, TreeBytes(n.right) + (LastBytes(n) + rest), st, used);
      TreeRead(n.right, LastBytes(n) + rest, st + [n.left], used + Words(n.left));
      Assoc(st, [n.left], [n.right]);
      assert [n.left] + [n.right] == Operands(n);
    } else {
      assert st + [] == st;
    }
  }

  /** A tree that does not fit makes the reader complain. */
  lemma {:induction false} TreeBotched(n: Node, rest: seq<Byte>, st: seq<Node>, used: nat)
    requires Wellformed(n) && !Fits(n, |st|, used)
    ensures ReadFrom(State(TreeBytes(n) + rest, st, used)).Botch?
    decreases n
  {
    hide TreeBytes, LastBytes, ReadFrom, Words, Peak, OwnWords;
    TreeSplit(n);
    Measures(n);
    LastRead(n, rest, st, used + Words(n) - OwnWords(n));
    if n.Fsel? || n.Cbranch? || n.Unary? {
      Assoc(TreeBytes(n.sub), LastBytes(n), rest);
      if Fits(n.sub, |st|, used) {
        TreeRead(n.sub, LastBytes(n) + rest, st, used);
      } else {
        TreeBotched(n.sub, LastBytes(n) + rest, st, used);
      }
    } else if n.Binary? {
      Assoc(TreeBytes(n.left) + TreeBytes(n.right), LastBytes(n), rest);
      Assoc(TreeBytes(n.left), TreeBytes(n.right), LastBytes(n) + rest);
      if !Fits(n.left, |st|, used) {
        TreeBotched(n.left, TreeBytes(n.right) + (LastBytes(n) + rest), st, used);
      } else {
        TreeRead(n.left, TreeBytes(n.right) + (LastBytes(n) + rest), st, used);
        if !Fits(n.right, |st| + 1, used + Words(n.left)) {
          TreeBotched(n.right, LastBytes(n) + rest, st + [n.left], used + Words(n.left));
        } else {
          TreeRead(n.right, LastBytes(n) + rest, st + [n.left], used + Words(n.left));
          Assoc(st, [n.left], [n.right]);
          assert [n.left] + [n.right] == Operands(n);
        }
      }
    } else {
      assert st + [] == st;
    }
  }

  // ---- whole files ----

  predicate AllFit(rs: seq<Record>) {
    forall i :: 0 <= i < |rs| && rs[i].Expr? ==> Fits(rs[i].tree, 0, 0)
  }

  lemma StepPlain(op: nat, w: Word, rest: seq<Byte>, st: seq<Node>, used: nat)
    requires |st| < STACK && (op == LABEL || op == BRANCH || (op == EXPR && |st| == 1))
    ensures Step(State((OpBytes(op) + WordBytes(w)) + rest, st, used))
         == if op == LABEL then Found(Label(w), State(rest, st, used))
            else if op == BRANCH then Found(Branch(w), State(rest, st, used))
            else Found(Expr(st[0], w), State(rest, [], 0))
  {
    hide Getw, Rest, WordBytes, OpBytes, Step;
    StepOp(op, WordBytes(w), rest, st, used);
    GetWord(w, rest);
  }

  lemma RecordRead(r: Record, rest: seq<Byte>)
    requires WellformedRecord(r)
    ensures var o := ReadFrom(State(RecordBytes(r) + rest, [], 0));
      if r.Expr? && !Fits(r.tree, 0, 0) then o.Botch? else o == Prepend(r, ReadFrom(State(rest, [], 0)))
  {
    hide TreeBytes, Step, OpBytes, WordBytes;
    match r
    case Expr(tree, line) =>
      var tail := OpBytes(EXPR) + WordBytes(line);
      Assoc(TreeBytes(tree), tail, rest);
      if Fits(tree, 0, 0) {
        TreeRead(tree, tail + rest, [], 0);
        assert [] + [tree] == [tree];
        StepPlain(EXPR, line, rest, [tree], Words(tree));
      } else {
        TreeBotched(tree, tail + rest, [], 0);
      }
    case Label(lab) => StepPlain(LABEL, lab, rest, [], 0);
    case Branch(lab) => StepPlain(BRANCH, lab, rest, [], 0);
  }

  /** A file written by the first pass reads back record by record as it was
      written, if and only if every expression fits the stack and treespace. */
  lemma {:induction false} FileRead(rs: seq<Record>)
    requires WellformedRecords(rs)
    ensures var o := ReadFrom(State(FileBytes(rs), [], 0));
      if AllFit(rs) then o == Read(rs) else o.Botch?
    decreases |rs|
  {
    hide RecordBytes, Step;
    if rs == [] {
      assert OpBytes(0) + [] == OpBytes(0);
      StepOp(0, [], [], [], 0);
    } else {
      RecordRead(rs[0], FileBytes(rs[1..]));
      FileRead(rs[1..]);
      assert rs == [rs[0]] + rs[1..];
      assert AllFit(rs) == (AllFit(rs[1..]) && (rs[0].Expr? ==> Fits(rs[0].tree, 0, 0))) by {
        if AllFit(rs[1..]) && (rs[0].Expr? ==> Fits(rs[0].tree, 0, 0)) {
          assert forall i :: 0 < i < |rs| ==> rs[i] == rs[1..][i - 1];
        }
      }
    }
  }
}
