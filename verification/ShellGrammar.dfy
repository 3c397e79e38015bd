// xv6-x86/sh.c: tokens of a command line, and what parseline, parsepipe,
// parseexec, parseblock and parseredirs make of a text.
//
// A text is the command line up to its NUL; a position in it stands for the
// pointer *ps, and the length of the text for es.  An argument or file name is
// a span of the text, from q up to eq.

module ShellGrammar {

  const NUL: char := '\0'
  const MAXARGS: nat := 10

  datatype Cmd<T> =
    | Exec(argv: seq<T>)
    | Redir(cmd: Cmd<T>, file: T, mode: nat, fd: nat)
    | Pipe(left: Cmd<T>, right: Cmd<T>)
    | List(left: Cmd<T>, right: Cmd<T>)
    | Back(cmd: Cmd<T>)

  datatype Span = Span(q: nat, eq: nat)

  // A redirection still to be wrapped around a command.
  datatype Red<T> = Red(file: T, mode: nat, fd: nat)

  // What a parsing routine gives: a value and the new *ps, or a panic.
  datatype Parsed<T> = Done(value: T, next: nat) | Panic(message: string)

  // A command line as strlen sees it.
  type Text = t: string | forall i :: 0 <= i < |t| ==> t[i] != NUL witness ""

  // ---- characters ----

  predicate Blank(c: char) { c in " \t\r\n\U{0b}" }

  predicate Symbol(c: char) { c in "<|>&;()" }

  predicate WordChar(c: char) { c != NUL && !Blank(c) && !Symbol(c) }

  function At(t: Text, s: nat): (c: char)
    ensures c == NUL <==> s >= |t|
  {
    if s < |t| then t[s] else NUL
  }

  // The scan over blanks that starts every look at the text.
  function Skip(t: Text, s: nat): (r: nat)
    requires s <= |t|
    ensures s <= r <= |t| && !Blank(At(t, r))
    ensures forall i :: s <= i < r ==> Blank(t[i])
    decreases |t| - s
  {
    if s < |t| && Blank(t[s]) then Skip(t, s + 1) else s
  }

  function WordEnd(t: Text, s: nat): (r: nat)
    requires s <= |t|
    ensures s <= r <= |t| && !WordChar(At(t, r))
    ensures forall i :: s <= i < r ==> WordChar(t[i])
    decreases |t| - s
  {
    if s < |t| && WordChar(t[s]) then WordEnd(t, s + 1) else s
  }

  // ---- tokens ----

  // gettoken's result: 0, a symbol, '+' for >>, or 'a' for a word.
  datatype Lexed = Lexed(kind: char, span: Span, next: nat)

  // The token that begins at q.
  function TokenAt(t: Text, q: nat): (k: Lexed)
    requires q <= |t| && !Blank(At(t, q))
    ensures k.span.q == q && q <= k.span.eq <= k.next <= |t|
    ensures k.kind == NUL <==> q == |t|
    ensures if k.kind == NUL then k.next == |t| else q < k.next
    ensures k.kind == 'a' <==> WordChar(At(t, q))
    ensures k.kind == 'a' ==> WordSpan(t, k.span)
  {
    var c := At(t, q);
    if c == NUL then Lexed(NUL, Span(q, q), q)
    else if c == '>' && At(t, q + 1) == '>' then Lexed('+', Span(q, q + 2), Skip(t, q + 2))
    else if Symbol(c) then Lexed(c, Span(q, q + 1), Skip(t, q + 1))
    else
      var e := WordEnd(t, q);
      Lexed('a', Span(q, e), Skip(t, e))
  }

  function GetToken(t: Text, s: nat): (k: Lexed)
    requires s <= |t|
    ensures s <= k.span.q <= k.span.eq <= k.next <= |t|
    ensures k.kind == NUL <==> Skip(t, s) == |t|
    ensures if k.kind == NUL then k.next == |t| else s < k.next
    ensures k.kind == 'a' <==> WordChar(At(t, Skip(t, s)))
    ensures k.kind == 'a' ==> WordSpan(t, k.span)
  {
    TokenAt(t, Skip(t, s))
  }

  predicate Peek(t: Text, s: nat, toks: string)
    requires s <= |t|
  {
    At(t, Skip(t, s)) != NUL && At(t, Skip(t, s)) in toks
  }

  // A maximal run of word characters' right end: the span holds word characters
  // and is followed by none.
  predicate WordSpan(t: Text, w: Span) {
    && w.q < w.eq <= |t|
    && (forall i :: w.q <= i < w.eq ==> WordChar(t[i]))
    && !WordChar(At(t, w.eq))
  }

  predicate WordSpans(t: Text, ws: seq<Span>) {
    forall i :: 0 <= i < |ws| ==> WordSpan(t, ws[i])
  }

  predicate WordReds(t: Text, rs: seq<Red<Span>>) {
    forall i :: 0 <= i < |rs| ==> WordSpan(t, rs[i].file)
  }

  // Every span of the tree is a word of the text.
  predicate Spanned(t: Text, c: Cmd<Span>) {
    match c
    case Exec(argv) => WordSpans(t, argv)
    case Redir(x, f, _, _) => Spanned(t, x) && WordSpan(t, f)
    case Pipe(l, r) => Spanned(t, l) && Spanned(t, r)
    case List(l, r) => Spanned(t, l) && Spanned(t, r)
    case Back(x) => Spanned(t, x)
  }

  // redircmd around a command, the last redirection outermost.
  function Wrap<T>(c: Cmd<T>, rs: seq<Red<T>>): Cmd<T> {
    if rs == [] then c
    else
      var r := rs[|rs| - 1];
      Redir(Wrap(c, rs[..|rs| - 1]), r.file, r.mode, r.fd)
  }

  lemma WrapSpanned(t: Text, c: Cmd<Span>, rs: seq<Red<Span>>)
    requires Spanned(t, c) && WordReds(t, rs)
    ensures Spanned(t, Wrap(c, rs))
    decreases |rs|
  {
    if rs != [] {
      WrapSpanned(t, c, rs[..|rs| - 1]);
    }
  }

  lemma WrapMore<T>(c: Cmd<T>, rs: seq<Red<T>>, more: seq<Red<T>>)
    ensures Wrap(Wrap(c, rs), more) == Wrap(c, rs + more)
    decreases |more|
  {
    if more == [] {
      assert rs + more == rs;
    } else {
      WrapMore(c, rs, more[..|more| - 1]);
      assert (rs + more)[..|rs + more| - 1] == rs + more[..|more| - 1];
    }
  }

  // ---- the grammar ----

  const O_RDONLY: nat := 0
  const O_WRONLY_CREATE: nat := 0x201

  function RedOf<T>(kind: char, file: T): Red<T> {
    if kind == '<' then Red(file, O_RDONLY, 0) else Red(file, O_WRONLY_CREATE, 1)
  }

  function Redirs(t: Text, s: nat): (r: Parsed<seq<Red<Span>>>)
    requires s <= |t|
    ensures r.Done? ==> s <= r.next <= |t| && WordReds(t, r.value) && !Peek(t, r.next, "<>")
    decreases |t| - s
  {
    if !Peek(t, s, "<>") then Done([], Skip(t, s))
    else
      var tok := GetToken(t, s);
      var f := GetToken(t, tok.next);
      if f.kind != 'a' then Panic("missing file for redirection")
      else
        var rest := Redirs(t, f.next);
        if rest.Panic? then rest else Done([RedOf(tok.kind, f.span)] + rest.value, rest.next)
  }

  // The loop of parseexec, when argc words have been stored.
  function Args(t: Text, s: nat, argc: nat): (r: Parsed<(seq<Span>, seq<Red<Span>>)>)
    requires s <= |t|
    ensures r.Done? ==> s <= r.next <= |t| && WordSpans(t, r.value.0) && WordReds(t, r.value.1)
    decreases |t| - s
  {
    if Peek(t, s, "|)&;") then Done(([], []), Skip(t, s))
    else
      var tok := GetToken(t, s);
      if tok.kind == NUL then Done(([], []), tok.next)
      else if tok.kind != 'a' then Panic("syntax")
      else if argc + 1 >= MAXARGS then Panic("too many args")
      else
        var reds := Redirs(t, tok.next);
        if reds.Panic? then Panic(reds.message)
        else
          var rest := Args(t, reds.next, argc + 1);
          if rest.Panic? then rest
          else Done(([tok.span] + rest.value.0, reds.value + rest.value.1), rest.next)
  }

  function ExecOf(t: Text, s: nat): (r: Parsed<Cmd<Span>>)
    requires s <= |t|
    ensures r.Done? ==> s <= r.next <= |t| && Spanned(t, r.value)
    decreases |t| - s, 0
  {
    if Peek(t, s, "(") then
      var open := GetToken(t, s);
      var line := LineOf(t, open.next);
      if line.Panic? then line
      else if !Peek(t, line.next, ")") then Panic("syntax - missing )")
      else
        var reds := Redirs(t, GetToken(t, line.next).next);
        if reds.Panic? then Panic(reds.message)
        else
          WrapSpanned(t, line.value, reds.value);
          Done(Wrap(line.value, reds.value), reds.next)
    else
      var reds := Redirs(t, s);
      if reds.Panic? then Panic(reds.message)
      else
        var args := Args(t, reds.next, 0);
        if args.Panic? then Panic(args.message)
        else
          WrapSpanned(t, Exec(args.value.0), reds.value + args.value.1);
          Done(Wrap(Exec(args.value.0), reds.value + args.value.1), args.next)
  }

  function PipeOf(t: Text, s: nat): (r: Parsed<Cmd<Span>>)
    requires s <= |t|
    ensures r.Done? ==> s <= r.next <= |t| && Spanned(t, r.value)
    decreases |t| - s, 1
  {
    var left := ExecOf(t, s);
    if left.Panic? || !Peek(t, left.next, "|") then Skipped(t, left)
    else
      var right := PipeOf(t, GetToken(t, left.next).next);
      if right.Panic? then right else Done(Pipe(left.value, right.value), right.next)
  }

  // peek leaves *ps behind the blanks.
  function Skipped(t: Text, r: Parsed<Cmd<Span>>): (r': Parsed<Cmd<Span>>)
    requires r.Done? ==> r.next <= |t|
  {
    if r.Panic? then r else Done(r.value, Skip(t, r.next))
  }

  // while(peek(ps, es, "&")) ...
  function Backs(t: Text, s: nat, c: Cmd<Span>): (r: Parsed<Cmd<Span>>)
    requires s <= |t| && Spanned(t, c)
    ensures r.Done? && s <= r.next <= |t| && Spanned(t, r.value)
    decreases |t| - s
  {
    if Peek(t, s, "&") then Backs(t, GetToken(t, s).next, Back(c)) else Done(c, Skip(t, s))
  }

  function LineOf(t: Text, s: nat): (r: Parsed<Cmd<Span>>)
    requires s <= |t|
    ensures r.Done? ==> s <= r.next <= |t| && Spanned(t, r.value)
    decreases |t| - s, 2
  {
    var pipe := PipeOf(t, s);
    if pipe.Panic? then pipe
    else
      var left := Backs(t, pipe.next, pipe.value);
      if !Peek(t, left.next, ";") then left
      else
        var right := LineOf(t, GetToken(t, left.next).next);
        if right.Panic? then right else Done(List(left.value, right.value), right.next)
  }

  // parsecmd, up to its call of nulterminate.
  function CmdOf(t: Text): (r: Parsed<Cmd<Span>>)
    ensures r.Done? ==> r.next == |t| && Spanned(t, r.value)
  {
    var line := LineOf(t, 0);
    if line.Panic? then line
    else if Skip(t, line.next) != |t| then Panic("syntax")
    else Done(line.value, |t|)
  }
}
