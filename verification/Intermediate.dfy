// The intermediate file between the two passes of the Sixth Edition C compiler:
// what treeout and outcode of v6/c/c04.c write for expression trees, labels and
// branches, and what getree of v6/c/c11.c reads.
//
// The file is a sequence of bytes.  A word is two bytes, low byte first; an
// operator word carries 0376 in its high byte.

module Intermediate {
  import ExprParser
  import ExprTrees

  type Byte = x: nat | x < 256 witness 0
  type Word = x: nat | x < 0x1_0000 witness 0

  const NULLOP: nat := 218
  const NAME: nat := 20
  const CON: nat := 21
  const FCON: nat := 23
  const SFCON: nat := 24
  const FSEL: nat := 10
  const SETREG: nat := 105
  const CBRANCH: nat := 103
  const BRANCH: nat := 111
  const LABEL: nat := 112
  const EXPR: nat := 214
  const EXTERN: nat := 12
  const LASTOP: nat := 110              // the last entry of both operator tables

  const STACK: nat := 20                // expstack
  const SPACE: nat := 500               // ossiz

  // An expression node, as far as the two passes share its fields.
  datatype Node =
    | Null
    | Name(cls: Word, typ: Word, nloc: Word)
    | Extern(typ: Word, name: seq<Byte>)
    | Const(op: nat, typ: Word, value: Word)
    | Fsel(typ: Word, sub: Node, bits: Word)
    | Cbranch(sub: Node, lbl: Word, cond: Word)
    | Unary(op: nat, typ: Word, sub: Node)
    | Binary(op: nat, typ: Word, left: Node, right: Node)

  datatype Record = Expr(tree: Node, line: Word) | Label(lab: Word) | Branch(lab: Word)

  // ---- the two operator tables ----

  // The BINARY bit of opdope in v6/c/c05.c, and in v6/c/c13.c.
  predicate Binary1(op: nat) { ExprParser.Opdope(op) % 2 == 1 }

  predicate Binary2(op: nat) {
    || 8 <= op <= 9 || 30 <= op <= 33 || 39 <= op <= 50 || 53 <= op <= 55 || 60 <= op <= 88
    || 90 <= op <= 92 || op == 100
  }

  /** The tables agree on which operators are binary, except for the ones that
      only the second pass knows, for sizeof, and for a call without arguments;
      the first pass evaluates the one and turns the other into a call. */
  lemma TablesAgree(op: nat)
    requires op <= LASTOP
    ensures Binary1(op) == Binary2(op) <==> !(81 <= op <= 88 || op == 91 || op == 92 || op == 101)
  {
  }

  // An operator that the default case of both switches takes.
  predicate Plain(op: nat) {
    && 0 < op <= LASTOP
    && op != NAME && op != CON && op != FCON && op != SFCON && op != FSEL && op != CBRANCH && op != SETREG
  }

  predicate Agreed(op: nat) { Plain(op) && Binary1(op) == Binary2(op) }

  // The operator of the node that build() makes: a[i] has become *(a+i).
  function Made(op: int): int { if op == ExprParser.LBRACK then ExprParser.STAR else op }

  lemma OperatorAgreed(o: int)
    requires o == ExprParser.INCAFT || o == ExprParser.DECAFT || o == ExprParser.CALL
      || ExprTrees.UnaryOp(o) || ExprTrees.InfixOp(o)
    ensures o != ExprParser.LBRACK && (o == ExprParser.SIZEOF || (o > 0 && Agreed(o)))
  {
  }

  /** Every node the expression parser has built, but for the sizeof that build()
      evaluates at once, has an operator on which the tables agree. */
  lemma {:induction false} BuiltAgreed(t: ExprTrees.Expr, i: nat)
    requires ExprTrees.Proper(t) && i < |ExprTrees.Calls(t)| && ExprTrees.Calls(t)[i].Build?
    ensures var op := Made(ExprTrees.Calls(t)[i].o);
      op == ExprParser.SIZEOF || (op > 0 && Agreed(op))
    decreases t, 1
  {
    hide Agreed, ExprTrees.InfixOp;
    match t
    case Leaf(_) =>
    case Unary(o, e) =>
      OperatorAgreed(o);
      if i < |ExprTrees.Calls(e)| { BuiltAgreed(e, i); }
    case Post(o, e) =>
      OperatorAgreed(o);
      if i < |ExprTrees.Calls(e)| { BuiltAgreed(e, i); }
    case Infix(o, l, r) =>
      OperatorAgreed(o);
      BuiltInOperands(t, l, r, i);
    case Index(l, x) =>
      OperatorAgreed(ExprParser.STAR);
      BuiltInOperands(t, l, x, i);
    case Apply(f, a) =>
      OperatorAgreed(ExprParser.CALL);
      BuiltInOperands(t, f, a, i);
    case Apply0(f) =>
      OperatorAgreed(ExprParser.CALL);
      if i < |ExprTrees.Calls(f)| { BuiltAgreed(f, i); }
    case Group(e) => BuiltAgreed(e, i);
  }

  lemma {:induction false} BuiltInOperands(t: ExprTrees.Expr, l: ExprTrees.Expr, r: ExprTrees.Expr, i: nat)
    requires l < t && r < t && ExprTrees.Proper(l) && ExprTrees.Proper(r)
    requires var cs := ExprTrees.Calls(l) + ExprTrees.Calls(r);
      i < |cs| ==> cs[i].Build?
    ensures var cs := ExprTrees.Calls(l) + ExprTrees.Calls(r);
      i < |cs| ==> Made(cs[i].o) == ExprParser.SIZEOF || (Made(cs[i].o) > 0 && Agreed(Made(cs[i].o)))
    decreases t, 0
  {
    var n := |ExprTrees.Calls(l)|;
    if i < n {
      BuiltAgreed(l, i);
    } else if i - n < |ExprTrees.Calls(r)| {
      BuiltAgreed(r, i - n);
    }
  }

  // nname: eight bytes, the ones behind a zero all zero.
  predicate Padded(s: seq<Byte>) {
    |s| == 8 && forall i, j :: 0 <= i < j < 8 && s[i] == 0 ==> s[j] == 0
  }

  /** The trees the first pass builds: their shape is what its table says. */
  predicate Wellformed(n: Node) {
    match n
    case Null => true
    case Name(cls, _, _) => cls != EXTERN
    case Extern(_, name) => Padded(name)
    case Const(op, _, _) => op == CON || op == FCON || op == SFCON
    case Fsel(_, sub, _) => Wellformed(sub)
    case Cbranch(sub, _, _) => Wellformed(sub)
    case Unary(op, _, sub) => Agreed(op) && !Binary1(op) && Wellformed(sub)
    case Binary(op, _, l, r) => Agreed(op) && Binary1(op) && Wellformed(l) && Wellformed(r)
  }

  // ---- writing ----

  function WordBytes(w: Word): seq<Byte> { [w % 256, w / 256] }

  // The 'B' of outcode: op | 0376 << 8.
  function OpBytes(op: nat): seq<Byte>
    requires op < 256
  {
    WordBytes(op + 0xFE00)
  }

  // The 'S' of outcode, with n characters left: up to a zero, then a zero.
  function StringBytes(s: seq<Byte>, n: nat): seq<Byte> {
    if n == 0 || s == [] || s[0] == 0 then [0] else [s[0]] + StringBytes(s[1..], n - 1)
  }

  // treeout
  function TreeBytes(n: Node): seq<Byte>
    requires Wellformed(n)
  {
    match n
    case Null => OpBytes(NULLOP)
    case Name(cls, typ, nloc) => OpBytes(NAME) + WordBytes(cls) + WordBytes(typ) + WordBytes(nloc)
    case Extern(typ, name) => OpBytes(NAME) + WordBytes(EXTERN) + WordBytes(typ) + StringBytes(name, 8)
    case Const(op, typ, value) => OpBytes(op) + WordBytes(typ) + WordBytes(value)
    case Fsel(typ, sub, bits) => TreeBytes(sub) + (OpBytes(FSEL) + WordBytes(typ) + WordBytes(bits))
    case Cbranch(sub, lbl, cond) => TreeBytes(sub) + (OpBytes(CBRANCH) + WordBytes(lbl) + WordBytes(cond))
    case Unary(op, typ, sub) => TreeBytes(sub) + (OpBytes(op) + WordBytes(typ))
    case Binary(op, typ, l, r) => TreeBytes(l) + TreeBytes(r) + (OpBytes(op) + WordBytes(typ))
  }

  predicate WellformedRecord(r: Record) { r.Expr? ==> Wellformed(r.tree) }

  function RecordBytes(r: Record): seq<Byte>
    requires WellformedRecord(r)
  {
    match r
    case Expr(tree, line) => TreeBytes(tree) + (OpBytes(EXPR) + WordBytes(line))
    case Label(lab) => OpBytes(LABEL) + WordBytes(lab)
    case Branch(lab) => OpBytes(BRANCH) + WordBytes(lab)
  }

  predicate WellformedRecords(rs: seq<Record>) {
    forall i :: 0 <= i < |rs| ==> WellformedRecord(rs[i])
  }

  // The whole file, with the EOF record behind it.
  function FileBytes(rs: seq<Record>): seq<Byte>
    requires WellformedRecords(rs)
  {
    if rs == [] then OpBytes(0) else RecordBytes(rs[0]) + FileBytes(rs[1..])
  }

  // ---- reading ----

  // What stops the reader; Botch carries its message.
  datatype Outcome = Read(records: seq<Record>) | Botch(message: string)

  // What is left of the file, the stack, and the words of treespace in use.
  datatype State = State(bytes: seq<Byte>, stack: seq<Node>, used: nat)

  datatype Move = Go(state: State) | Found(record: Record, state: State) | Stop(outcome: Outcome)

  // getw; past the end it gives -1.
  function Getw(b: seq<Byte>): Word {
    if |b| >= 2 then
      var low: nat, high: nat := b[0], b[1];
      low + 256 * high
    else 0xFFFF
  }

  function Rest(b: seq<Byte>): seq<Byte> { if |b| >= 2 then b[2..] else [] }

  // outname: the bytes up to a zero, and what is behind it; the file must hold one.
  function NameOf(b: seq<Byte>): seq<Byte> {
    if b == [] || b[0] == 0 then [] else [b[0]] + NameOf(b[1..])
  }

  function Behind(b: seq<Byte>): seq<Byte> {
    if b == [] then [] else if b[0] == 0 then b[1..] else Behind(b[1..])
  }

  function Pad(s: seq<Byte>): (p: seq<Byte>)
    decreases 8 - |s|
  {
    if |s| < 8 then Pad(s + [0]) else s
  }

  // A node put on the stack, if treespace has room for its words.
  function Put(b: seq<Byte>, stack: seq<Node>, used: nat, n: Node, words: nat): Move {
    if used + words >= SPACE then Stop(Botch("Exp. ov. pass 2"))
    else Go(State(b, stack + [n], used + words))
  }

  const SHORT: string := "stack underflow"

  // One record of the loop of getree.
  function Step(s: State): Move {
    if |s.stack| >= STACK then Stop(Botch("Stack botch"))
    else if Getw(s.bytes) / 256 != 0xFE then Stop(Botch("Intermediate file error"))
    else Operator(Getw(s.bytes) % 256, Rest(s.bytes), s.stack, s.used)
  }

  function Operator(op: nat, b: seq<Byte>, st: seq<Node>, used: nat): Move {
    var w0, w1, w2 := Getw(b), Getw(Rest(b)), Getw(Rest(Rest(b)));
    if op == 0 then Stop(Read([]))
    else if op == NAME then
      if w0 == EXTERN then
        var text := Rest(Rest(b));
        if 0 !in text then Stop(Botch("name without end"))
        else Put(Behind(text), st, used, Extern(w1, Pad(NameOf(text))), 9)
      else Put(Rest(Rest(Rest(b))), st, used, Name(w0, w1, w2), 6)
    else if op == CON || op == SFCON || op == FCON then Put(Rest(Rest(b)), st, used, Const(op, w0, w1), 4)
    else if op == NULLOP then Put(b, st, used, Null, 3)
    else if op == LABEL then Found(Label(w0), State(Rest(b), st, used))
    else if op == BRANCH then Found(Branch(w0), State(Rest(b), st, used))
    else if op == EXPR then
      if |st| != 1 then Stop(Botch("Expression input botch"))
      else Found(Expr(st[0], w0), State(Rest(b), [], 0))
    else if op > LASTOP || op == SETREG then Stop(Botch("another record"))
    else if st == [] then Stop(Botch(SHORT))
    else Apply(op, b, st[..|st| - 1], st[|st| - 1], used)
  }

  // The operators that take the top of the stack.
  function Apply(op: nat, b: seq<Byte>, st: seq<Node>, top: Node, used: nat): Move {
    var w0, w1 := Getw(b), Getw(Rest(b));
    if op == FSEL then Put(Rest(Rest(b)), st, used, Fsel(w0, top, w1), 5)
    else if op == CBRANCH then Put(Rest(Rest(b)), st, used, Cbranch(top, w0, w1), 4)
    else if !Binary2(op) then Put(Rest(b), st, used, Unary(op, w0, top), 4)
    else if st == [] then Stop(Botch(SHORT))
    else Put(Rest(b), st[..|st| - 1], used, Binary(op, w0, st[|st| - 1], top), 5)
  }

  lemma StepShortens(s: State)
    ensures Step(s).Go? ==> |Step(s).state.bytes| < |s.bytes|
    ensures Step(s).Found? ==> |Step(s).state.bytes| < |s.bytes|
  {
    BehindShortens(Rest(Rest(Rest(s.bytes))));
  }

  lemma BehindShortens(b: seq<Byte>)
    ensures |Behind(b)| <= |b|
  {
  }

  // getree: the records up to the end of the file.
  function ReadFrom(s: State): Outcome
    decreases |s.bytes|
  {
    StepShortens(s);
    match Step(s)
    case Stop(o) => o
    case Go(s') => ReadFrom(s')
    case Found(r, s') => Prepend(r, ReadFrom(s'))
  }

  function Prepend(r: Record, o: Outcome): Outcome {
    if o.Botch? then o else Read([r] + o.records)
  }
}
