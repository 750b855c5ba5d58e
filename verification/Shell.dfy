/** The shell's command parser: a recursive descent over one line of text that records
    words as spans of the line and ends them with NULs once the whole line is parsed. */
module Shell {

  const MAXARGS: nat := 10

  /** A command, with words of type W: spans of the line, or their text. */
  datatype Cmd<W> =
    | Exec(argv: seq<W>)
    | Redir(cmd: Cmd<W>, file: W, mode: Mode)
    | Pipe(left: Cmd<W>, right: Cmd<W>)
    | List(left: Cmd<W>, right: Cmd<W>)
    | Back(cmd: Cmd<W>)

  /** Reading (fd 0), or writing and creating (fd 1), which > and >> do alike. */
  datatype Mode = Reading | Writing

  datatype Span = Span(q: nat, eq: nat)

  datatype Result<+T> = Ok(value: T) | Panic

  // ---------------------------------------------------------------------------
  // Tokens

  predicate Blank(c: char) {
    c in [' ', '\t', '\r', '\n', '\U{000B}']
  }

  predicate Symbol(c: char) {
    c in ['<', '|', '>', '&', ';', '(', ')']
  }

  predicate WordChar(c: char) {
    !Blank(c) && !Symbol(c) && c != '\0'
  }

  /** The line is a C string: no NUL before its end. */
  ghost predicate Line(s: string) {
    forall i :: 0 <= i < |s| ==> s[i] != '\0'
  }

  function At(s: string, p: nat): char {
    if p < |s| then s[p] else '\0'
  }

  function SkipBlanks(s: string, p: nat): (r: nat)
    requires p <= |s|
    ensures p <= r <= |s| && !Blank(At(s, r))
    ensures forall i :: p <= i < r ==> Blank(s[i])
    decreases |s| - p
  {
    if p < |s| && Blank(s[p]) then SkipBlanks(s, p + 1) else p
  }

  function WordEnd(s: string, p: nat): (r: nat)
    requires p <= |s|
    ensures p <= r <= |s| && (r < |s| ==> Blank(s[r]) || Symbol(s[r]))
    ensures forall i :: p <= i < r ==> !Blank(s[i]) && !Symbol(s[i])
    decreases |s| - p
  {
    if p < |s| && !Blank(s[p]) && !Symbol(s[p]) then WordEnd(s, p + 1) else p
  }

  /** tok is 'a' for a word, '+' for >>, NUL at the end, or else the symbol. */
  datatype Token = Token(tok: char, span: Span, next: nat)

  function GetToken(s: string, p: nat): (t: Token)
    requires p <= |s|
    ensures p <= t.span.q <= t.span.eq <= t.next <= |s|
    ensures t.tok != '\0' && Line(s) ==> p < t.next
    ensures t.tok == 'a' && Line(s) ==> IsWord(s, t.span)
  {
    var q := SkipBlanks(s, p);
    var c := At(s, q);
    if c == '\0' then Token('\0', Span(q, q), SkipBlanks(s, q))
    else if c == '>' then
      if At(s, q + 1) == '>' then Token('+', Span(q, q + 2), SkipBlanks(s, q + 2))
      else Token('>', Span(q, q + 1), SkipBlanks(s, q + 1))
    else if Symbol(c) then Token(c, Span(q, q + 1), SkipBlanks(s, q + 1))
    else
      var eq := WordEnd(s, q);
      Token('a', Span(q, eq), SkipBlanks(s, eq))
  }

  /** A maximal run of word characters. */
  ghost predicate IsWord(s: string, w: Span) {
    && w.q < w.eq <= |s|
    && (forall i :: w.q <= i < w.eq ==> WordChar(s[i]))
    && (w.eq < |s| ==> Blank(s[w.eq]) || Symbol(s[w.eq]))
  }

  predicate Peek(s: string, p: nat, toks: string)
    requires p <= |s|
  {
    At(s, SkipBlanks(s, p)) in toks && At(s, SkipBlanks(s, p)) != '\0'
  }

  /** Every word and file name that a command records is a word of the line, and no
      command has more than nine arguments. */
  ghost predicate Words(s: string, cmd: Cmd<Span>) {
    match cmd
    case Exec(argv) => |argv| < MAXARGS && forall i :: 0 <= i < |argv| ==> IsWord(s, argv[i])
    case Redir(c, f, _) => Words(s, c) && IsWord(s, f)
    case Pipe(l, r) => Words(s, l) && Words(s, r)
    case List(l, r) => Words(s, l) && Words(s, r)
    case Back(c) => Words(s, c)
  }

  lemma {:induction false} WrapWords(s: string, cmd: Cmd<Span>, list: seq<(Span, Mode)>)
    requires Words(s, cmd) && forall i :: 0 <= i < |list| ==> IsWord(s, list[i].0)
    ensures Words(s, Wrap(cmd, list))
    decreases |list|
  {
    if list != [] {
      WrapWords(s, Redir(cmd, list[0].0, list[0].1), list[1..]);
    }
  }

  // ---------------------------------------------------------------------------
  // The grammar, as functions of the line and a position in it

  datatype Parsed = Parsed(cmd: Cmd<Span>, pos: nat)

  datatype Redirect = Redirect(file: Span, mode: Mode)

  datatype Redirects = Redirects(list: seq<Redirect>, pos: nat)

  datatype Args = Args(argv: seq<Span>, redirs: seq<Redirect>, pos: nat)

  /** parseredirs, collecting the redirections in order. */
  function ParseRedirs(s: string, p: nat): (r: Result<Redirects>)
    requires p <= |s| && Line(s)
    ensures r.Ok? ==> p <= r.value.pos <= |s|
    ensures r.Ok? ==> forall i :: 0 <= i < |r.value.list| ==> IsWord(s, r.value.list[i].file)
    decreases |s| - p
  {
    if !Peek(s, p, "<>") then Ok(Redirects([], SkipBlanks(s, p)))
    else
      var t := GetToken(s, SkipBlanks(s, p));
      var f := GetToken(s, t.next);
      if f.tok != 'a' then Panic
      else match ParseRedirs(s, f.next)
        case Panic => Panic
        case Ok(more) => Ok(Redirects([Redirect(f.span, if t.tok == '<' then Reading else Writing)] + more.list,
            more.pos))
  }

  /** Later redirections go outside of earlier ones. */
  function Wrap<W>(cmd: Cmd<W>, list: seq<(W, Mode)>): Cmd<W>
    decreases |list|
  {
    if list == [] then cmd else Wrap(Redir(cmd, list[0].0, list[0].1), list[1..])
  }

  function Pairs(list: seq<Redirect>): (r: seq<(Span, Mode)>)
    ensures |r| == |list| && forall i :: 0 <= i < |r| ==> r[i] == (list[i].file, list[i].mode)
  {
    seq(|list|, i requires 0 <= i < |list| => (list[i].file, list[i].mode))
  }

  /** The loop of parseexec over words and redirections, with n words already read. */
  function ParseArgs(s: string, p: nat, n: nat): (r: Result<Args>)
    requires p <= |s| && Line(s)
    ensures r.Ok? ==> p <= r.value.pos <= |s|
    ensures r.Ok? ==> forall i :: 0 <= i < |r.value.argv| ==> IsWord(s, r.value.argv[i])
    ensures r.Ok? ==> forall i :: 0 <= i < |r.value.redirs| ==> IsWord(s, r.value.redirs[i].file)
    ensures r.Ok? && n < MAXARGS ==> n + |r.value.argv| < MAXARGS
    decreases |s| - p
  {
    if Peek(s, p, "|)&;") then Ok(Args([], [], SkipBlanks(s, p)))
    else
      var t := GetToken(s, SkipBlanks(s, p));
      if t.tok == '\0' then Ok(Args([], [], t.next))
      else if t.tok != 'a' || n + 1 >= MAXARGS then Panic
      else match ParseRedirs(s, t.next)
        case Panic => Panic
        case Ok(here) =>
          match ParseArgs(s, here.pos, n + 1)
          case Panic => Panic
          case Ok(more) => Ok(Args([t.span] + more.argv, here.list + more.redirs, more.pos))
  }

  function ParseExec(s: string, p: nat): (r: Result<Parsed>)
    requires p <= |s| && Line(s)
    ensures r.Ok? ==> p <= r.value.pos <= |s| && Words(s, r.value.cmd)
    decreases |s| - p, 1
  {
    if Peek(s, p, "(") then ParseBlock(s, SkipBlanks(s, p))
    else match ParseRedirs(s, SkipBlanks(s, p))
      case Panic => Panic
      case Ok(first) =>
        match ParseArgs(s, first.pos, 0)
        case Panic => Panic
        case Ok(args) =>
          WrapWords(s, Exec(args.argv), Pairs(first.list + args.redirs));
          Ok(Parsed(Wrap(Exec(args.argv), Pairs(first.list + args.redirs)), args.pos))
  }

  function ParseBlock(s: string, p: nat): (r: Result<Parsed>)
    requires p <= |s| && Line(s)
    ensures r.Ok? ==> p <= r.value.pos <= |s| && Words(s, r.value.cmd)
    decreases |s| - p, 0
  {
    if !Peek(s, p, "(") then Panic
    else match ParseLine(s, GetToken(s, SkipBlanks(s, p)).next)
      case Panic => Panic
      case Ok(line) =>
        if !Peek(s, line.pos, ")") then Panic
        else match ParseRedirs(s, GetToken(s, SkipBlanks(s, line.pos)).next)
          case Panic => Panic
          case Ok(after) =>
            WrapWords(s, line.cmd, Pairs(after.list));
            Ok(Parsed(Wrap(line.cmd, Pairs(after.list)), after.pos))
  }

  function ParsePipe(s: string, p: nat): (r: Result<Parsed>)
    requires p <= |s| && Line(s)
    ensures r.Ok? ==> p <= r.value.pos <= |s| && Words(s, r.value.cmd)
    decreases |s| - p, 2
  {
    match ParseExec(s, p)
    case Panic => Panic
    case Ok(left) =>
      if !Peek(s, left.pos, "|") then Ok(Parsed(left.cmd, SkipBlanks(s, left.pos)))
      else match ParsePipe(s, GetToken(s, SkipBlanks(s, left.pos)).next)
        case Panic => Panic
        case Ok(right) => Ok(Parsed(Pipe(left.cmd, right.cmd), right.pos))
  }

  /** The loop of parseline over ampersands. */
  function ParseBacks(s: string, cmd: Cmd<Span>, p: nat): (r: Parsed)
    requires p <= |s| && Line(s)
    ensures p <= r.pos <= |s| && (Words(s, cmd) ==> Words(s, r.cmd))
    decreases |s| - p
  {
    if Peek(s, p, "&") then ParseBacks(s, Back(cmd), GetToken(s, SkipBlanks(s, p)).next)
    else Parsed(cmd, SkipBlanks(s, p))
  }

  function ParseLine(s: string, p: nat): (r: Result<Parsed>)
    requires p <= |s| && Line(s)
    ensures r.Ok? ==> p <= r.value.pos <= |s| && Words(s, r.value.cmd)
    decreases |s| - p, 3
  {
    match ParsePipe(s, p)
    case Panic => Panic
    case Ok(first) =>
      var left := ParseBacks(s, first.cmd, first.pos);
      if !Peek(s, left.pos, ";") then Ok(Parsed(left.cmd, SkipBlanks(s, left.pos)))
      else match ParseLine(s, GetToken(s, SkipBlanks(s, left.pos)).next)
        case Panic => Panic
        case Ok(right) => Ok(Parsed(List(left.cmd, right.cmd), right.pos))
  }

  /** parsecmd: the whole line must be one command. */
  function ParseCmd(s: string): (r: Result<Cmd<Span>>)
    requires Line(s)
    ensures r.Ok? ==> Words(s, r.value)
  {
    match ParseLine(s, 0)
    case Panic => Panic
    case Ok(line) => if SkipBlanks(s, line.pos) == |s| then Ok(line.cmd) else Panic
  }

  // ---------------------------------------------------------------------------
  // NUL termination

  ghost predicate HasSpan(cmd: Cmd<Span>, w: Span) {
    match cmd
    case Exec(argv) => w in argv
    case Redir(c, f, _) => w == f || HasSpan(c, w)
    case Pipe(l, r) => HasSpan(l, w) || HasSpan(r, w)
    case List(l, r) => HasSpan(l, w) || HasSpan(r, w)
    case Back(c) => HasSpan(c, w)
  }

  ghost predicate IsEnd(cmd: Cmd<Span>, i: int) {
    exists w :: HasSpan(cmd, w) && w.eq == i
  }

  lemma {:induction false} SpanIsWord(s: string, cmd: Cmd<Span>, w: Span)
    requires Words(s, cmd) && HasSpan(cmd, w)
    ensures IsWord(s, w)
  {
    match cmd
    case Exec(argv) =>
    case Redir(c, f, _) => if w != f { SpanIsWord(s, c, w); }
    case Pipe(l, r) => if HasSpan(l, w) { SpanIsWord(s, l, w); } else { SpanIsWord(s, r, w); }
    case List(l, r) => if HasSpan(l, w) { SpanIsWord(s, l, w); } else { SpanIsWord(s, r, w); }
    case Back(c) => SpanIsWord(s, c, w);
  }

  /** The C string at position q of a buffer. */
  function CString(b: string, q: nat): string
    decreases |b| - q
  {
    if q < |b| && b[q] != '\0' then [b[q]] + CString(b, q + 1) else []
  }

  lemma {:induction false} CStringIs(b: string, q: nat, e: nat)
    requires q <= e < |b| && b[e] == '\0' && forall i :: q <= i < e ==> b[i] != '\0'
    ensures CString(b, q) == b[q..e]
    decreases e - q
  {
    if q < e {
      CStringIs(b, q + 1, e);
      assert b[q..e] == [b[q]] + b[q + 1..e];
    }
  }

  /** b is the line, with its NUL, after nulterminate. */
  ghost predicate Terminated(s: string, cmd: Cmd<Span>, b: string) {
    |b| == |s| + 1 && forall i :: 0 <= i < |b| ==> b[i] == if IsEnd(cmd, i) then '\0' else At(s, i)
  }

  lemma EndOf(cmd: Cmd<Span>, w: Span)
    requires HasSpan(cmd, w)
    ensures IsEnd(cmd, w.eq)
  {}

  /** A NUL replaces a blank, a symbol or the end of the line. */
  lemma EndIsOutside(s: string, cmd: Cmd<Span>, i: nat)
    requires Words(s, cmd) && i < |s|
    ensures IsEnd(cmd, i) ==> !WordChar(s[i])
  {}

  /** No NUL lands inside a word: after any successful parse and nulterminate, every
      argument and file name read as a C string is the text of its token. */
  lemma WordsReadBack(s: string, cmd: Cmd<Span>, b: string, w: Span)
    requires Line(s) && Words(s, cmd) && Terminated(s, cmd, b) && HasSpan(cmd, w)
    ensures w.q <= w.eq <= |s| && CString(b, w.q) == s[w.q..w.eq]
  {
    hide HasSpan, Words, CString, IsEnd, Blank, Symbol;
    SpanIsWord(s, cmd, w);
    EndOf(cmd, w);
    forall i | w.q <= i < w.eq ensures b[i] == s[i] && s[i] != '\0' {
      EndIsOutside(s, cmd, i);
    }
    CStringIs(b, w.q, w.eq);
    assert b[w.q..w.eq] == s[w.q..w.eq];
  }

  /** nulterminate. */
  method NulTerminate(cmd: Cmd<Span>, buf: array<char>)
    requires forall w :: HasSpan(cmd, w) ==> w.eq < buf.Length
    modifies buf
    ensures forall i :: 0 <= i < buf.Length ==> buf[i] == if IsEnd(cmd, i) then '\0' else old(buf[i])
    decreases cmd
  {
    match cmd
    case Exec(argv) =>
      var i := 0;
      while i < |argv|
        invariant 0 <= i <= |argv|
        invariant forall j :: 0 <= j < buf.Length ==>
                  buf[j] == if exists k :: 0 <= k < i && argv[k].eq == j then '\0' else old(buf[j])
      {
        assert HasSpan(cmd, argv[i]);
        buf[argv[i].eq] := '\0';
        i := i + 1;
      }
      forall j | 0 <= j < buf.Length ensures IsEnd(cmd, j) <==> exists k :: 0 <= k < |argv| && argv[k].eq == j {
        if k :| 0 <= k < |argv| && argv[k].eq == j {
          assert HasSpan(cmd, argv[k]);
        }
      }
    case Redir(c, f, _) =>
      assert HasSpan(cmd, f) && forall w :: HasSpan(c, w) ==> HasSpan(cmd, w);
      NulTerminate(c, buf);
      buf[f.eq] := '\0';
      assert forall j :: IsEnd(cmd, j) <==> j == f.eq || IsEnd(c, j);
    case Pipe(l, r) =>
      assert forall w :: HasSpan(l, w) || HasSpan(r, w) <==> HasSpan(cmd, w);
      NulTerminate(l, buf);
      NulTerminate(r, buf);
      assert forall j :: IsEnd(cmd, j) <==> IsEnd(l, j) || IsEnd(r, j);
    case List(l, r) =>
      assert forall w :: HasSpan(l, w) || HasSpan(r, w) <==> HasSpan(cmd, w);
      NulTerminate(l, buf);
      NulTerminate(r, buf);
      assert forall j :: IsEnd(cmd, j) <==> IsEnd(l, j) || IsEnd(r, j);
    case Back(c) =>
      assert forall w :: HasSpan(c, w) <==> HasSpan(cmd, w);
      NulTerminate(c, buf);
      assert forall j :: IsEnd(cmd, j) <==> IsEnd(c, j);
  }
}
