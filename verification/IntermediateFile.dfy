// v6/c/c04.c, treeout and outcode: the first pass appends to its buffer.
// v6/c/c11.c, getree and outname: the second pass takes words off the file and
// builds trees on expstack.

module IntermediateFile {
  import opened Intermediate
  import opened IntermediateRoundTrip

  class TreeWriter {
    var obuf: seq<Byte>

    constructor ()
      ensures obuf == []
    {
      obuf := [];
    }

    method Putw(w: Word)
      modifies this
      ensures obuf == old(obuf) + WordBytes(w)
    {
      obuf := obuf + [w % 256, w / 256];
    }

    // outcode's B.
    method PutOp(op: nat)
      requires op < 256
      modifies this
      ensures obuf == old(obuf) + OpBytes(op)
    {
      Putw(op + 0xFE00);
    }

    // outcode's S.
    method PutString(s: seq<Byte>)
      modifies this
      ensures obuf == old(obuf) + StringBytes(s, 8)
    {
      var n, i := 8, 0;
      while n > 0 && i < |s| && s[i] != 0
        invariant 0 <= n && 0 <= i <= |s|
        invariant obuf + StringBytes(s[i..], n) == old(obuf) + StringBytes(s, 8)
        decreases n
      {
        Assoc(obuf, [s[i]], StringBytes(s[i + 1..], n - 1));
        obuf := obuf + [s[i]];
        n, i := n - 1, i + 1;
      }
      obuf := obuf + [0];
    }

    method TreeOut(n: Node)
      requires Wellformed(n)
      modifies this
      ensures obuf == old(obuf) + TreeBytes(n)
      decreases n
    {
      hide WordBytes, OpBytes, StringBytes, TreeBytes;
      ghost var was := obuf;
      TreeSplit(n);
      match n
      case Null =>
        PutOp(NULLOP);
      case Name(cls, typ, nloc) =>
        PutOp(NAME);
        Putw(cls);
        Putw(typ);
        Putw(nloc);
        Joined(was, OpBytes(NAME), WordBytes(cls), WordBytes(typ), WordBytes(nloc));
      case Extern(typ, name) =>
        PutOp(NAME);
        Putw(EXTERN);
        Putw(typ);
        PutString(name);
        Joined(was, OpBytes(NAME), WordBytes(EXTERN), WordBytes(typ), StringBytes(name, 8));
      case Const(op, typ, value) =>
        PutOp(op);
        Putw(typ);
        Putw(value);
        Joined(was, [], OpBytes(op), WordBytes(typ), WordBytes(value));
      case Fsel(typ, sub, bits) =>
        TreeOut(sub);
        PutOp(FSEL);
        Putw(typ);
        Putw(bits);
        Joined(was, TreeBytes(sub), OpBytes(FSEL), WordBytes(typ), WordBytes(bits));
      case Cbranch(sub, lbl, cond) =>
        TreeOut(sub);
        PutOp(CBRANCH);
        Putw(lbl);
        Putw(cond);
        Joined(was, TreeBytes(sub), OpBytes(CBRANCH), WordBytes(lbl), WordBytes(cond));
      case Unary(op, typ, sub) =>
        TreeOut(sub);
        PutOp(op);
        Putw(typ);
        Joined(was, [], TreeBytes(sub), OpBytes(op), WordBytes(typ));
      case Binary(op, typ, l, r) =>
        TreeOut(l);
        TreeOut(r);
        PutOp(op);
        Putw(typ);
        Joined(was, TreeBytes(l), TreeBytes(r), OpBytes(op), WordBytes(typ));
        Assoc(TreeBytes(l), TreeBytes(r), OpBytes(op) + WordBytes(typ));
    }

    // rcexpr of the first pass.
    method Rcexpr(tree: Node, line: Word)
      requires Wellformed(tree)
      modifies this
      ensures obuf == old(obuf) + RecordBytes(Expr(tree, line))
    {
      hide WordBytes, OpBytes, TreeBytes;
      ghost var was := obuf;
      TreeOut(tree);
      PutOp(EXPR);
      Putw(line);
      Joined(was, [], TreeBytes(tree), OpBytes(EXPR), WordBytes(line));
    }
  }

  lemma Joined(was: seq<Byte>, a: seq<Byte>, b: seq<Byte>, c: seq<Byte>, d: seq<Byte>)
    ensures was + a + b + c + d == was + (a + (b + (c + d)))
    ensures a == [] ==> was + b + c + d == was + (b + (c + d))
  {
    Assoc(was, a, b + (c + d));
    Assoc(was + a, b, c + d);
    Assoc(was + a + b, c, d);
    if a == [] { assert was + a == was && a + (b + (c + d)) == b + (c + d); }
  }

  class TreeReader {
    var ascbuf: seq<Byte>
    const expstack: array<Node>

    constructor (file: seq<Byte>)
      ensures ascbuf == file && expstack.Length == STACK && fresh(expstack)
    {
      ascbuf, expstack := file, new Node[STACK](_ => Null);
    }

    method Word() returns (w: Word)
      modifies this
      ensures w == Getw(old(ascbuf)) && ascbuf == Rest(old(ascbuf))
    {
      w, ascbuf := Getw(ascbuf), Rest(ascbuf);
    }

    // outname: the characters up to a zero, padded to eight.
    method OutName() returns (name: seq<Byte>)
      requires 0 in ascbuf
      modifies this
      ensures name == Pad(NameOf(old(ascbuf))) && ascbuf == Behind(old(ascbuf))
    {
      name := [];
      while ascbuf[0] != 0
        invariant 0 in ascbuf
        invariant name + NameOf(ascbuf) == NameOf(old(ascbuf)) && Behind(ascbuf) == Behind(old(ascbuf))
        decreases |ascbuf|
      {
        Assoc(name, [ascbuf[0]], NameOf(ascbuf[1..]));
        name, ascbuf := name + [ascbuf[0]], ascbuf[1..];
      }
      assert NameOf(ascbuf) == [] && name + [] == name;
      ascbuf := ascbuf[1..];
      ghost var text := name;
      while |name| < 8
        invariant Pad(name) == Pad(text)
        decreases 8 - |name|
      {
        name := name + [0];
      }
    }

    // The state that stack height sp and used words stand for.
    ghost function At(sp: nat, used: nat): State
      requires sp <= expstack.Length
      reads this, expstack
    {
      State(ascbuf, expstack[..sp], used)
    }

    // block() and the node's place on the stack.
    method PutNode(sp: nat, used: nat, n: Node, words: nat) returns (stop: bool, o: Outcome)
      requires sp < expstack.Length
      modifies expstack
      ensures var m := Put(ascbuf, old(expstack[..sp]), used, n, words);
        if m.Stop? then stop && o == m.outcome else !stop && m == Go(At(sp + 1, used + words))
    {
      stop, o := used + words >= SPACE, Botch("Exp. ov. pass 2");
      if !stop {
        expstack[sp] := n;
      }
    }

    // One record.
    method ReadRecord(sp: nat, used: nat)
        returns (stop: bool, o: Outcome, found: seq<Record>, sp': nat, used': nat)
      requires sp <= expstack.Length == STACK
      modifies this, expstack
      ensures sp' <= STACK
      ensures var m := old(Step(At(sp, used)));
        match m
        case Stop(x) => stop && o == x
        case Go(s) => !stop && found == [] && s == At(sp', used')
        case Found(r, s) => !stop && found == [r] && s == At(sp', used')
    {
      hide Getw, Rest, NameOf, Behind, Pad, Binary2;
      stop, o, found, sp', used' := true, Read([]), [], sp, used;
      ghost var st := expstack[..sp];
      if sp >= STACK {
        o := Botch("Stack botch");
        return;
      }
      var op := Word();
      if op / 256 != 0xFE {
        o := Botch("Intermediate file error");
        return;
      }
      op := op % 256;
      if op == 0 {
        return;
      } else if op == NAME || op == CON || op == SFCON || op == FCON || op == NULLOP {
        stop, o, sp', used' := ReadLeaf(op, sp, used);
      } else if op == LABEL || op == BRANCH {
        var w := Word();
        stop, found := false, [if op == LABEL then Label(w) else Branch(w)];
      } else if op == EXPR {
        if sp != 1 {
          o := Botch("Expression input botch");
          return;
        }
        var line := Word();
        stop, found, sp', used' := false, [Expr(expstack[0], line)], 0, 0;
      } else if op > LASTOP || op == SETREG {
        o := Botch("another record");
      } else if sp == 0 {
        o := Botch(SHORT);
      } else {
        assert st[..|st| - 1] == expstack[..sp - 1];
        stop, o, sp', used' := ReadApplied(op, sp - 1, used);
      }
    }

    method ReadLeaf(op: nat, sp: nat, used: nat) returns (stop: bool, o: Outcome, sp': nat, used': nat)
      requires sp < expstack.Length == STACK
      requires op == NAME || op == CON || op == SFCON || op == FCON || op == NULLOP
      modifies this, expstack
      ensures sp' <= STACK
      ensures var m := old(Operator(op, ascbuf, expstack[..sp], used));
        if m.Stop? then stop && o == m.outcome else !stop && m == Go(At(sp', used'))
    {
      hide Getw, Rest, NameOf, Behind, Pad;
      var t, node, words: nat := 0, Null, 3;
      if op == NAME {
        t := Word();
        if t == EXTERN {
          t := Word();
          if 0 !in ascbuf { return true, Botch("name without end"), sp, used; }
          var name := OutName();
          node, words := Extern(t, name), 9;
        } else {
          var typ := Word();
          var nloc := Word();
          node, words := Name(t, typ, nloc), 6;
        }
      } else if op != NULLOP {
        t := Word();
        var value := Word();
        node, words := Const(op, t, value), 4;
      }
      stop, o := PutNode(sp, used, node, words);
      sp', used' := sp + 1, used + words;
    }

    // The operators that replace the top of the stack, at sp.
    method ReadApplied(op: nat, sp: nat, used: nat) returns (stop: bool, o: Outcome, sp': nat, used': nat)
      requires sp < expstack.Length == STACK
      modifies this, expstack
      ensures sp' <= STACK
      ensures var m := old(Apply(op, ascbuf, expstack[..sp], expstack[sp], used));
        if m.Stop? then stop && o == m.outcome else !stop && m == Go(At(sp', used'))
    {
      hide Getw, Rest, Binary2;
      ghost var st := expstack[..sp];
      var t := Word();
      if op == FSEL || op == CBRANCH {
        var w := Word();
        var node := if op == FSEL then Fsel(t, expstack[sp], w) else Cbranch(expstack[sp], t, w);
        var words: nat := if op == FSEL then 5 else 4;
        stop, o := PutNode(sp, used, node, words);
        sp', used' := sp + 1, used + words;
      } else if !Binary2(op) {
        stop, o := PutNode(sp, used, Unary(op, t, expstack[sp]), 4);
        sp', used' := sp + 1, used + 4;
      } else if sp == 0 {
        stop, o, sp', used' := true, Botch(SHORT), sp, used;
      } else {
        assert st[..|st| - 1] == expstack[..sp - 1];
        stop, o := PutNode(sp - 1, used, Binary(op, t, expstack[sp - 1], expstack[sp]), 5);
        sp', used' := sp, used + 5;
      }
    }

    /** getree: all records of the file. */
    method GetTree() returns (o: Outcome)
      requires expstack.Length == STACK
      modifies this, expstack
      ensures o == ReadFrom(State(old(ascbuf), [], 0))
    {
      hide Step, ReadFrom;
      var sp: nat, used: nat, records := 0, 0, [];
      ghost var all := ReadFrom(At(0, 0));
      NoneBefore(all);
      while true
        invariant sp <= STACK
        invariant Before(records, ReadFrom(At(sp, used))) == all
        decreases |ascbuf|
      {
        ReadStep(At(sp, used));
        StepShortens(At(sp, used));
        ghost var before := At(sp, used);
        var stop, found;
        stop, o, found, sp, used := ReadRecord(sp, used);
        if stop {
          return if o.Botch? then o else Read(records + o.records);
        }
        BeforeMore(records, found, ReadFrom(At(sp, used)));
        records := records + found;
      }
    }
  }

  function Before(records: seq<Record>, o: Outcome): Outcome {
    if o.Botch? then o else Read(records + o.records)
  }

  lemma NoneBefore(o: Outcome)
    ensures Before([], o) == o
  {
    if o.Read? { assert [] + o.records == o.records; }
  }

  lemma BeforeMore(records: seq<Record>, found: seq<Record>, o: Outcome)
    requires |found| <= 1
    ensures Before(records + found, o) == Before(records, if found == [] then o else Prepend(found[0], o))
  {
    if o.Read? {
      if found == [] {
        assert records + found == records;
      } else {
        Assoc(records, [found[0]], o.records);
        assert found == [found[0]];
      }
    }
  }
}
