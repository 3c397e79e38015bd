// xv6-x86/sh.c: the parser that advances *ps over the command buffer, and
// nulterminate, which then ends every argument and file name in that same
// buffer with a NUL.

module ShellParser {
  import opened ShellGrammar
  import opened ShellRoundTrip

  // ---- strings that end at a NUL ----

  // The C string that begins at q.
  function CString(b: seq<char>, q: nat): string
    decreases |b| - q
  {
    if q < |b| && b[q] != NUL then [b[q]] + CString(b, q + 1) else ""
  }

  function CStrings(b: seq<char>, ws: seq<Span>): seq<string> {
    if ws == [] then [] else [CString(b, ws[0].q)] + CStrings(b, ws[1..])
  }

  // The tree as runcmd sees it: only where each string begins matters.
  function CTree(b: seq<char>, c: Cmd<Span>): Cmd<string> {
    match c
    case Exec(argv) => Exec(CStrings(b, argv))
    case Redir(x, f, m, fd) => Redir(CTree(b, x), CString(b, f.q), m, fd)
    case Pipe(l, r) => Pipe(CTree(b, l), CTree(b, r))
    case List(l, r) => List(CTree(b, l), CTree(b, r))
    case Back(x) => Back(CTree(b, x))
  }

  // The positions behind the strings of a tree.
  ghost function Ends(c: Cmd<Span>): set<nat> {
    match c
    case Exec(argv) => WordEnds(argv)
    case Redir(x, f, _, _) => Ends(x) + {f.eq}
    case Pipe(l, r) => Ends(l) + Ends(r)
    case List(l, r) => Ends(l) + Ends(r)
    case Back(x) => Ends(x)
  }

  ghost function WordEnds(ws: seq<Span>): set<nat> {
    set w | w in ws :: w.eq
  }

  // b' is b with NULs at the positions of e.
  ghost predicate Terminated(b: seq<char>, b': seq<char>, e: set<nat>) {
    |b'| == |b| && forall i :: 0 <= i < |b| ==> b'[i] == if i in e then NUL else b[i]
  }

  lemma TerminatedThen(a: seq<char>, b: seq<char>, c: seq<char>, e: set<nat>, f: set<nat>)
    requires Terminated(a, b, e) && Terminated(b, c, f)
    ensures Terminated(a, c, e + f)
  {
  }

  // No end lies inside a word.
  ghost predicate Outside(t: Text, e: set<nat>) {
    forall i :: i in e ==> i <= |t| && !WordChar(At(t, i))
  }

  lemma EndsOutside(t: Text, c: Cmd<Span>)
    requires Spanned(t, c)
    ensures Outside(t, Ends(c))
  {
  }

  // The buffer holds the text and the NUL behind it.
  ghost predicate InBuffer(t: Text, b: seq<char>) {
    |t| < |b| && t == b[..|t|] && b[|t|] == NUL
  }

  /** A word whose end holds a NUL reads as itself, whatever other ends do. */
  lemma {:induction false} WordReads(t: Text, was: seq<char>, b: seq<char>, e: set<nat>, w: Span, q: nat)
    requires InBuffer(t, was) && Terminated(was, b, e) && Outside(t, e)
    requires WordSpan(t, w) && w.eq in e && w.q <= q <= w.eq
    ensures CString(b, q) == t[q..w.eq]
    decreases w.eq - q
  {
    if q < w.eq {
      WordReads(t, was, b, e, w, q + 1);
      assert WordChar(t[q]) && was[q] == t[q];
      assert t[q..w.eq] == [t[q]] + t[q + 1..w.eq];
    }
  }

  lemma {:induction false} WordsRead(t: Text, was: seq<char>, b: seq<char>, e: set<nat>, ws: seq<Span>)
    requires InBuffer(t, was) && Terminated(was, b, e) && Outside(t, e) && WordSpans(t, ws) && WordEnds(ws) <= e
    ensures CStrings(b, ws) == Texts(t, ws)
  {
    if ws != [] {
      assert ws[0] in ws;
      WordReads(t, was, b, e, ws[0], ws[0].q);
      assert forall w :: w in ws[1..] ==> w in ws;
      WordsRead(t, was, b, e, ws[1..]);
    }
  }

  /** Once terminated, the tree read as C strings is the tree that was parsed. */
  lemma {:induction false} TreeReads(t: Text, was: seq<char>, b: seq<char>, e: set<nat>, c: Cmd<Span>)
    requires InBuffer(t, was) && Terminated(was, b, e) && Outside(t, e) && Spanned(t, c) && Ends(c) <= e
    ensures CTree(b, c) == Tree(t, c)
    decreases c
  {
    match c
    case Exec(argv) => WordsRead(t, was, b, e, argv);
    case Redir(x, f, _, _) =>
      TreeReads(t, was, b, e, x);
      WordReads(t, was, b, e, f, f.q);
    case Pipe(l, r) =>
      TreeReads(t, was, b, e, l);
      TreeReads(t, was, b, e, r);
    case List(l, r) =>
      TreeReads(t, was, b, e, l);
      TreeReads(t, was, b, e, r);
    case Back(x) => TreeReads(t, was, b, e, x);
  }

  // ---- the routines and their grammar ----

  // A word is added to the simple command that lies below the redirections of c.
  function AddWord(c: Cmd<Span>, w: Span): Cmd<Span> {
    match c
    case Exec(argv) => Exec(argv + [w])
    case Redir(x, f, m, fd) => Redir(AddWord(x, w), f, m, fd)
    case _ => c
  }

  lemma {:induction false} AddWordWrap(argv: seq<Span>, rs: seq<Red<Span>>, w: Span)
    ensures AddWord(Wrap(Exec(argv), rs), w) == Wrap(Exec(argv + [w]), rs)
    decreases |rs|
  {
    if rs != [] { AddWordWrap(argv, rs[..|rs| - 1], w); }
  }

  // Reading on from s, with the redirections rs already read.
  function RedsThen(t: Text, s: nat, rs: seq<Red<Span>>): Parsed<seq<Red<Span>>>
    requires s <= |t|
  {
    var r := Redirs(t, s);
    if r.Panic? then r else Done(rs + r.value, r.next)
  }

  // Reading on from s, with the words argv and the redirections rs already read.
  function ArgsThen(t: Text, s: nat, argv: seq<Span>, rs: seq<Red<Span>>): Parsed<Cmd<Span>>
    requires s <= |t|
  {
    var r := Args(t, s, |argv|);
    if r.Panic? then Panic(r.message)
    else Done(Wrap(Exec(argv + r.value.0), rs + r.value.1), r.next)
  }

  lemma RedsStep(t: Text, s: nat, rs: seq<Red<Span>>)
    requires s <= |t|
    ensures Redirs(t, Skip(t, s)) == Redirs(t, s)
    ensures !Peek(t, s, "<>") ==> RedsThen(t, s, rs) == Done(rs, Skip(t, s))
    ensures Peek(t, s, "<>") ==>
      var tok := GetToken(t, s);
      var f := GetToken(t, tok.next);
      RedsThen(t, s, rs) == if f.kind != 'a' then Panic("missing file for redirection")
                            else RedsThen(t, f.next, rs + [RedOf(tok.kind, f.span)])
  {
    SkipTwice(t, s);
    SameToken(t, s);
    hide Skip, GetToken;
    if !Peek(t, s, "<>") {
      assert rs + [] == rs;
    } else {
      var tok := GetToken(t, s);
      var f := GetToken(t, tok.next);
      if f.kind == 'a' && Redirs(t, f.next).Done? {
        Assoc(rs, [RedOf(tok.kind, f.span)], Redirs(t, f.next).value);
      }
    }
  }

  lemma ArgsThenEnd(t: Text, s: nat, argv: seq<Span>, rs: seq<Red<Span>>)
    requires s <= |t| && (Peek(t, s, "|)&;") || GetToken(t, s).kind == NUL)
    ensures ArgsThen(t, s, argv, rs) == Done(Wrap(Exec(argv), rs), Skip(t, s))
  {
    hide Skip, GetToken, Redirs, Wrap;
    assert argv + [] == argv && rs + [] == rs;
  }

  lemma ArgsThenMore(t: Text, s: nat, argv: seq<Span>, rs: seq<Red<Span>>)
    requires s <= |t| && !Peek(t, s, "|)&;") && GetToken(t, s).kind != NUL
    ensures var tok := GetToken(t, s);
      var reds := Redirs(t, tok.next);
      ArgsThen(t, s, argv, rs)
      == if tok.kind != 'a' then Panic("syntax")
         else if |argv| + 1 >= MAXARGS then Panic("too many args")
         else if reds.Panic? then Panic(reds.message)
         else ArgsThen(t, reds.next, argv + [tok.span], rs + reds.value)
  {
    hide Skip, GetToken, Redirs, Wrap, Args, Peek;
    ArgsStepFull(t, s, |argv|);
    var tok := GetToken(t, s);
    var reds := Redirs(t, tok.next);
    if tok.kind == 'a' && |argv| + 1 < MAXARGS && reds.Done? {
      ThenTail(t, reds.next, argv, rs, tok.span, reds.value);
    }
  }

  lemma ThenTail(t: Text, n: nat, argv: seq<Span>, rs: seq<Red<Span>>, w: Span, more: seq<Red<Span>>)
    requires n <= |t|
    ensures var tail := Args(t, n, |argv| + 1);
      ArgsThen(t, n, argv + [w], rs + more)
      == if tail.Panic? then Panic(tail.message)
         else Done(Wrap(Exec(argv + ([w] + tail.value.0)), rs + (more + tail.value.1)), tail.next)
  {
    hide Wrap, Args;
    var tail := Args(t, n, |argv| + 1);
    assert |argv + [w]| == |argv| + 1;
    if tail.Done? {
      Assoc(argv, [w], tail.value.0);
      Assoc(rs, more, tail.value.1);
    }
  }

  lemma ArgsStepFull(t: Text, s: nat, argc: nat)
    requires s <= |t| && !Peek(t, s, "|)&;") && GetToken(t, s).kind != NUL
    ensures var tok := GetToken(t, s);
      var reds := Redirs(t, tok.next);
      Args(t, s, argc)
      == if tok.kind != 'a' then Panic("syntax")
         else if argc + 1 >= MAXARGS then Panic("too many args")
         else if reds.Panic? then Panic(reds.message)
         else
           var tail := Args(t, reds.next, argc + 1);
           if tail.Panic? then tail
           else Done(([tok.span] + tail.value.0, reds.value + tail.value.1), tail.next)
  {
    hide Skip, GetToken, Redirs;
  }

  lemma RedsStart(t: Text, s: nat)
    requires s <= |t|
    ensures RedsThen(t, s, []) == Redirs(t, s)
  {
    hide Redirs;
    var r := Redirs(t, s);
    if r.Done? { assert [] + r.value == r.value; }
  }

  lemma ExecSimple(t: Text, s: nat)
    requires s <= |t| && !Peek(t, s, "(")
    ensures var reds := Redirs(t, Skip(t, s));
      ExecOf(t, s) == if reds.Panic? then Panic(reds.message) else ArgsThen(t, reds.next, [], reds.value)
  {
    RedsStep(t, s, []);
    hide Skip, GetToken, Redirs, Args, Wrap;
    var reds := Redirs(t, s);
    if reds.Done? {
      var args := Args(t, reds.next, 0);
      if args.Done? { assert [] + args.value.0 == args.value.0; }
    }
  }

  lemma ExecSkip(t: Text, s: nat)
    requires s <= |t| && Peek(t, s, "(")
    ensures ExecOf(t, Skip(t, s)) == ExecOf(t, s)
  {
    SkipTwice(t, s);
    SameToken(t, s);
    hide Skip, GetToken, Redirs, Args, Wrap;
  }

  lemma BacksStep(t: Text, s: nat, c: Cmd<Span>)
    requires s <= |t| && Spanned(t, c)
    ensures Backs(t, s, c) == if Peek(t, s, "&") then Backs(t, GetToken(t, s).next, Back(c)) else Done(c, Skip(t, s))
  {
    hide Skip, GetToken;
  }

  lemma NoneMore(r: Parsed<seq<Red<Span>>>)
    ensures r.Done? ==> [] + r.value == r.value
  {
  }

  lemma WrapNone(c: Cmd<Span>)
    ensures Wrap(c, []) == c
  {
  }

  lemma PeekTwice(t: Text, s: nat, toks: string)
    requires s <= |t|
    ensures Peek(t, Skip(t, s), toks) == Peek(t, s, toks)
  {
    SkipTwice(t, s);
    hide Skip;
  }

  lemma SkipEnd(t: Text)
    ensures Skip(t, |t|) == |t|
  {
  }

  lemma EndToken(t: Text, s: nat)
    requires s <= |t| && GetToken(t, s).kind == NUL
    ensures GetToken(t, s).next == Skip(t, s)
  {
    hide Skip;
  }

  // ---- the parser ----

  class Parser {
    const buf: array<char>
    const es: nat
    var s: nat                              // *ps

    ghost predicate Valid()
      reads this, buf
    {
      && es < buf.Length && s <= es
      && (forall i :: 0 <= i < es ==> buf[i] != NUL)
      && buf[es] == NUL
    }

    ghost function Line(): Text
      requires Valid()
      reads this, buf
    {
      buf[..es]
    }

    // strlen: where the text ends.
    constructor (buf: array<char>)
      requires NUL in buf[..]
      ensures Valid() && this.buf == buf && s == 0
    {
      var n := 0;
      while buf[n] != NUL
        invariant n < buf.Length && NUL in buf[n..]
        invariant forall i :: 0 <= i < n ==> buf[i] != NUL
        decreases buf.Length - n
      {
        assert buf[n..] == [buf[n]] + buf[n + 1..];
        n := n + 1;
      }
      this.buf, es, s := buf, n, 0;
    }

    method SkipBlanks(from: nat) returns (r: nat)
      requires Valid() && from <= es
      ensures r == Skip(Line(), from)
    {
      r := from;
      while r < es && Blank(buf[r])
        invariant from <= r <= es && Skip(Line(), r) == Skip(Line(), from)
      {
        r := r + 1;
      }
    }

    method PeekAt(toks: string) returns (b: bool)
      requires Valid()
      modifies this`s
      ensures Valid() && s == Skip(Line(), old(s)) && b == Peek(Line(), old(s), toks)
    {
      s := SkipBlanks(s);
      b := buf[s] != NUL && buf[s] in toks;
    }

    method SkipWord(from: nat) returns (r: nat)
      requires Valid() && from <= es
      ensures r == WordEnd(Line(), from)
    {
      r := from;
      while r < es && !Blank(buf[r]) && !Symbol(buf[r])
        invariant from <= r <= es && WordEnd(Line(), r) == WordEnd(Line(), from)
      {
        r := r + 1;
      }
    }

    // gettoken
    method Next() returns (k: Lexed)
      requires Valid()
      modifies this`s
      ensures Valid() && k == GetToken(Line(), old(s)) && s == k.next
    {
      hide Skip, WordEnd;
      var q := SkipBlanks(s);
      var e, ret := q, buf[q];
      if Symbol(ret) {
        e := q + 1;
        if ret == '>' && buf[e] == '>' {
          ret, e := '+', e + 1;
        }
      } else if ret != NUL {
        ret := 'a';
        e := SkipWord(q);
      } else {
        SkipEnd(Line());
      }
      s := SkipBlanks(e);
      k := Lexed(ret, Span(q, e), s);
    }

    method ParseRedirs(cmd: Cmd<Span>, ghost base: Cmd<Span>, ghost rs: seq<Red<Span>>)
        returns (r: Parsed<Cmd<Span>>)
      requires Valid() && cmd == Wrap(base, rs)
      modifies this`s
      ensures Valid()
      ensures var reds := Redirs(Line(), old(s));
        if reds.Panic? then r == Panic(reds.message)
        else r == Done(Wrap(base, rs + reds.value), reds.next) && s == reds.next
    {
      hide Skip, GetToken, Redirs;
      var c := cmd;
      ghost var t, have := Line(), [];
      WrapMore(base, rs, []);
      RedsStart(t, s);
      while true
        invariant Valid() && c == Wrap(base, rs + have)
        invariant RedsThen(t, s, have) == Redirs(t, old(s))
        decreases es - s
      {
        RedsStep(t, s, have);
        var from := s;
        var more := PeekAt("<>");
        if !more { break; }
        SameToken(t, from);
        var tok := Next();
        var f := Next();
        if f.kind != 'a' { return Panic("missing file for redirection"); }
        WrapMore(base, rs + have, [RedOf(tok.kind, f.span)]);
        Assoc(rs, have, [RedOf(tok.kind, f.span)]);
        c := if tok.kind == '<' then Redir(c, f.span, O_RDONLY, 0) else Redir(c, f.span, O_WRONLY_CREATE, 1);
        have := have + [RedOf(tok.kind, f.span)];
      }
      r := Done(c, s);
    }

    /** parseblock, which parseexec calls at an open parenthesis. */
    method ParseBlock() returns (r: Parsed<Cmd<Span>>)
      requires Valid()
      modifies this`s
      ensures Valid()
      ensures r == if old(Peek(Line(), s, "(")) then old(ExecOf(Line(), s)) else Panic("parseblock")
      ensures r.Done? ==> s == r.next
      decreases es - s, 0
    {
      hide Skip, GetToken, Redirs, Args, LineOf, Wrap;
      ghost var t, from := Line(), s;
      var ok := PeekAt("(");
      if !ok { return Panic("parseblock"); }
      ExecSkip(t, from);
      SkipTwice(t, from);
      var tok := Next();
      r := ParseLine();
      if r.Panic? { return; }
      ghost var line, mid := r.value, s;
      ok := PeekAt(")");
      if !ok { return Panic("syntax - missing )"); }
      SameToken(t, mid);
      tok := Next();
      WrapNone(line);
      r := ParseRedirs(r.value, line, []);
      NoneMore(Redirs(t, GetToken(t, mid).next));
    }

    method ParseExec() returns (r: Parsed<Cmd<Span>>)
      requires Valid()
      modifies this`s
      ensures Valid() && r == old(ExecOf(Line(), s))
      ensures r.Done? ==> s == r.next
      decreases es - s, 1
    {
      hide Skip, GetToken, Redirs, Args, ExecOf, Wrap, ArgsThen;
      ghost var t, from := Line(), s;
      var open := PeekAt("(");
      if open {
        PeekTwice(t, from, "(");
        ExecSkip(t, from);
        r := ParseBlock();
        return;
      }
      ExecSimple(t, from);
      var argc, ret: Cmd<Span> := 0, Exec([]);
      ghost var argv, rs := [], [];
      WrapNone(Exec([]));
      NoneMore(Redirs(t, s));
      ghost var start := s;
      r := ParseRedirs(ret, ret, []);
      if r.Panic? { return; }
      ret, rs := r.value, Redirs(t, start).value;
      while true
        invariant Valid() && argc == |argv| && argc < MAXARGS
        invariant ret == Wrap(Exec(argv), rs)
        invariant ArgsThen(t, s, argv, rs) == ExecOf(t, from)
        decreases es - s
      {
        ghost var at := s;
        var stop := PeekAt("|)&;");
        if stop {
          ArgsThenEnd(t, at, argv, rs);
          return Done(ret, s);
        }
        SameToken(t, at);
        var tok := Next();
        if tok.kind == NUL {
          ArgsThenEnd(t, at, argv, rs);
          EndToken(t, at);
          return Done(ret, s);
        }
        ArgsThenMore(t, at, argv, rs);
        if tok.kind != 'a' { return Panic("syntax"); }
        AddWordWrap(argv, rs, tok.span);
        ret, argv, argc := AddWord(ret, tok.span), argv + [tok.span], argc + 1;
        if argc >= MAXARGS { return Panic("too many args"); }
        start := s;
        r := ParseRedirs(ret, Exec(argv), rs);
        if r.Panic? { return; }
        ret, rs := r.value, rs + Redirs(t, start).value;
      }
    }

    method ParsePipe() returns (r: Parsed<Cmd<Span>>)
      requires Valid()
      modifies this`s
      ensures Valid() && r == old(PipeOf(Line(), s))
      ensures r.Done? ==> s == r.next
      decreases es - s, 2
    {
      hide Skip, GetToken, ExecOf;
      ghost var t := Line();
      var left := ParseExec();
      if left.Panic? { return left; }
      ghost var at := s;
      var more := PeekAt("|");
      if !more { return Done(left.value, s); }
      SameToken(t, at);
      var tok := Next();
      var right := ParsePipe();
      r := if right.Panic? then right else Done(Pipe(left.value, right.value), s);
    }

    method ParseLine() returns (r: Parsed<Cmd<Span>>)
      requires Valid()
      modifies this`s
      ensures Valid() && r == old(LineOf(Line(), s))
      ensures r.Done? ==> s == r.next
      decreases es - s, 3
    {
      hide Skip, GetToken, PipeOf, Backs;
      ghost var t := Line();
      var pipe := ParsePipe();
      if pipe.Panic? { return pipe; }
      var cmd := pipe.value;
      while true
        invariant Valid() && Spanned(t, cmd) && old(s) <= s
        invariant Backs(t, s, cmd) == Backs(t, pipe.next, pipe.value)
        decreases es - s
      {
        BacksStep(t, s, cmd);
        ghost var at := s;
        var more := PeekAt("&");
        if !more { break; }
        SameToken(t, at);
        var tok := Next();
        cmd := Back(cmd);
      }
      ghost var at := s;
      var more := PeekAt(";");
      SkipTwice(t, at);
      if !more { return Done(cmd, s); }
      SameToken(t, at);
      var tok := Next();
      var right := ParseLine();
      r := if right.Panic? then right else Done(List(cmd, right.value), s);
    }

    /** nulterminate: a NUL behind every string of the tree, and no other change. */
    method NulTerminate(cmd: Cmd<Span>)
      requires forall e :: e in Ends(cmd) ==> e < buf.Length
      modifies buf
      ensures Terminated(old(buf[..]), buf[..], Ends(cmd))
      decreases cmd
    {
      ghost var b := buf[..];
      match cmd
      case Exec(argv) =>
        var i := 0;
        WordEndsNone(argv);
        while i < |argv|
          invariant 0 <= i <= |argv|
          invariant Terminated(b, buf[..], WordEnds(argv[..i]))
        {
          assert argv[i].eq in Ends(cmd);
          WordEndsNext(argv, i);
          buf[argv[i].eq] := NUL;
          i := i + 1;
        }
        assert argv[..i] == argv;
      case Redir(x, f, _, _) =>
        assert Ends(cmd) == Ends(x) + {f.eq};
        NulTerminate(x);
        buf[f.eq] := NUL;
      case Pipe(l, r) =>
        assert Ends(cmd) == Ends(l) + Ends(r);
        NulTerminate(l);
        ghost var mid := buf[..];
        NulTerminate(r);
        TerminatedThen(b, mid, buf[..], Ends(l), Ends(r));
      case List(l, r) =>
        assert Ends(cmd) == Ends(l) + Ends(r);
        NulTerminate(l);
        ghost var mid := buf[..];
        NulTerminate(r);
        TerminatedThen(b, mid, buf[..], Ends(l), Ends(r));
      case Back(x) =>
        assert Ends(cmd) == Ends(x);
        NulTerminate(x);
    }
  }

  lemma WordEndsNone(ws: seq<Span>)
    ensures WordEnds(ws[..0]) == {}
  {
  }

  lemma WordEndsNext(ws: seq<Span>, i: nat)
    requires i < |ws|
    ensures WordEnds(ws[..i + 1]) == WordEnds(ws[..i]) + {ws[i].eq}
  {
    assert ws[..i + 1] == ws[..i] + [ws[i]];
  }

  // The text strlen sees in a buffer, up to its first NUL.
  function Front(b: seq<char>): (t: Text)
    ensures t <= b && (NUL in b ==> |t| < |b| && b[|t|] == NUL)
  {
    if b == [] || b[0] == NUL then [] else [b[0]] + Front(b[1..])
  }

  lemma {:induction false} FrontIs(b: seq<char>, n: nat)
    requires n < |b| && b[n] == NUL && forall i :: 0 <= i < n ==> b[i] != NUL
    ensures Front(b) == b[..n]
    decreases n
  {
    if n > 0 {
      FrontIs(b[1..], n - 1);
      assert b[..n] == [b[0]] + b[1..][..n - 1];
    }
  }

  /** parsecmd: the tree of the line, or the message it panics with; the strings
      of the tree, each read up to its NUL in the one buffer they share, are
      those that were parsed. */
  method ParseCmd(buf: array<char>) returns (r: Parsed<Cmd<Span>>)
    requires NUL in buf[..]
    modifies buf
    ensures var t := Front(old(buf[..]));
      && r == CmdOf(t)
      && (r.Done? ==> CTree(buf[..], r.value) == Tree(t, r.value))
  {
    hide CTree, Tree, LineOf, Ends;
    var p := new Parser(buf);
    ghost var t := p.Line();
    FrontIs(buf[..], p.es);
    r := p.ParseLine();
    if r.Panic? { return; }
    var stop := p.PeekAt("");
    if p.s != p.es { return Panic("syntax"); }
    ghost var b := buf[..];
    EndsOutside(t, r.value);
    p.NulTerminate(r.value);
    TreeReads(t, b, buf[..], Ends(r.value), r.value);
    r := Done(r.value, p.s);
  }
}
