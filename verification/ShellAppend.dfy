/** The shell reads `>>` as it reads `>`: with a blank for the second of them a line parses to
    the same tree. */
module ShellAppend {
  import opened Shell

  /** u is s with a blank for the second character of the token >> at k. */
  ghost predicate Blanked(s: string, u: string, k: nat) {
    && Line(s) && |u| == |s| && k + 1 < |s| && s[k] == '>' && s[k + 1] == '>' && (k == 0 || s[k - 1] != '>')
    && u == s[k + 1 := ' ']
  }

  lemma BlankedIsLine(s: string, u: string, k: nat)
    requires Blanked(s, u, k)
    ensures Line(u)
  {}

  lemma {:induction false} SkipSame(s: string, u: string, k: nat, p: nat)
    requires Blanked(s, u, k) && p <= |s| && p != k + 1
    ensures SkipBlanks(u, p) == SkipBlanks(s, p) != k + 1 && At(u, SkipBlanks(s, p)) == At(s, SkipBlanks(s, p))
    decreases |s| - p
  {
    if p < |s| && Blank(s[p]) {
      SkipSame(s, u, k, p + 1);
    }
  }

  lemma {:induction false} WordSame(s: string, u: string, k: nat, p: nat)
    requires Blanked(s, u, k) && p <= |s| && p != k + 1
    ensures WordEnd(u, p) == WordEnd(s, p) != k + 1
    decreases |s| - p
  {
    if p < |s| && !Blank(s[p]) && !Symbol(s[p]) {
      WordSame(s, u, k, p + 1);
    }
  }

  /** The parser does not tell the two tokens apart. */
  ghost predicate Alike(t: Token, v: Token) {
    && v.next == t.next && (v.tok == 'a' <==> t.tok == 'a') && (v.tok == '\0' <==> t.tok == '\0')
    && (v.tok == '<' <==> t.tok == '<') && (t.tok == 'a' ==> v.span == t.span)
  }

  lemma MarkIs(s: string, q: nat)
    requires q < |s| && s[q] == '>'
    ensures GetToken(s, q) == if At(s, q + 1) == '>' then Token('+', Span(q, q + 2), SkipBlanks(s, q + 2))
                              else Token('>', Span(q, q + 1), SkipBlanks(s, q + 1))
  {
    assert SkipBlanks(s, q) == q;
  }

  lemma BlankIsSkipped(s: string, p: nat)
    requires p < |s| && s[p] == ' '
    ensures SkipBlanks(s, p) == SkipBlanks(s, p + 1)
  {}

  /** The token itself. */
  lemma MarkAlike(s: string, u: string, k: nat)
    requires Blanked(s, u, k)
    ensures Alike(GetToken(s, k), GetToken(u, k)) && GetToken(s, k).next != k + 1
  {
    hide GetToken, SkipBlanks;
    MarkIs(s, k);
    MarkIs(u, k);
    SkipSame(s, u, k, k + 2);
    BlankIsSkipped(u, k + 1);
  }

  /** Another > or >>. */
  lemma OtherMark(s: string, u: string, k: nat, q: nat)
    requires Blanked(s, u, k) && q < |s| && s[q] == '>' && q != k && q != k + 1
    ensures GetToken(u, q) == GetToken(s, q) && GetToken(s, q).next != k + 1
  {
    hide GetToken, SkipBlanks;
    MarkIs(s, q);
    MarkIs(u, q);
    if q + 1 < |s| && s[q + 1] == '>' {
      SkipSame(s, u, k, q + 2);
    } else {
      SkipSame(s, u, k, q + 1);
    }
  }

  lemma OtherToken(s: string, u: string, k: nat, q: nat)
    requires Blanked(s, u, k) && q <= |s| && At(s, q) != '>' && q != k + 1 && !Blank(At(s, q))
    ensures GetToken(u, q) == GetToken(s, q) && GetToken(s, q).next != k + 1
  {
    SkipSame(s, u, k, q);
    if q < |s| && Symbol(s[q]) {
      SkipSame(s, u, k, q + 1);
    } else {
      WordSame(s, u, k, q);
      SkipSame(s, u, k, WordEnd(s, q));
    }
  }

  /** A token is the same from the blanks before it on. */
  lemma TokenSkips(s: string, p: nat)
    requires p <= |s|
    ensures GetToken(s, p) == GetToken(s, SkipBlanks(s, p))
  {}

  lemma TokenSame(s: string, u: string, k: nat, p: nat)
    requires Blanked(s, u, k) && p <= |s| && p != k + 1
    ensures Alike(GetToken(s, p), GetToken(u, p)) && GetToken(s, p).next != k + 1
  {
    hide GetToken;
    SkipSame(s, u, k, p);
    TokenSkips(s, p);
    TokenSkips(u, p);
    var q := SkipBlanks(s, p);
    if q == k {
      MarkAlike(s, u, k);
    } else if At(s, q) == '>' {
      OtherMark(s, u, k, q);
    } else {
      OtherToken(s, u, k, q);
    }
  }

  lemma PeekSame(s: string, u: string, k: nat, p: nat, toks: string)
    requires Blanked(s, u, k) && p <= |s| && p != k + 1
    ensures Peek(u, p, toks) <==> Peek(s, p, toks)
  {
    SkipSame(s, u, k, p);
  }

  /** Where the next token starts, after blanks and one token. */
  lemma NextSame(s: string, u: string, k: nat, p: nat)
    requires Blanked(s, u, k) && p <= |s| && p != k + 1
    ensures SkipBlanks(u, p) == SkipBlanks(s, p) != k + 1
    ensures GetToken(u, SkipBlanks(s, p)).next == GetToken(s, SkipBlanks(s, p)).next != k + 1
  {
    SkipSame(s, u, k, p);
    TokenSame(s, u, k, SkipBlanks(s, p));
  }

  lemma {:induction false} RedirsSame(s: string, u: string, k: nat, p: nat)
    requires Blanked(s, u, k) && Line(u) && p <= |s| && p != k + 1
    ensures ParseRedirs(u, p) == ParseRedirs(s, p) && (ParseRedirs(s, p).Ok? ==> ParseRedirs(s, p).value.pos != k + 1)
    decreases |s| - p
  {
    hide GetToken, SkipBlanks;
    PeekSame(s, u, k, p, "<>");
    NextSame(s, u, k, p);
    if Peek(s, p, "<>") {
      TokenSame(s, u, k, SkipBlanks(s, p));
      var t := GetToken(s, SkipBlanks(s, p));
      TokenSame(s, u, k, t.next);
      var f := GetToken(s, t.next);
      if f.tok == 'a' {
        RedirsSame(s, u, k, f.next);
      }
    }
  }

  lemma {:induction false} ArgsSame(s: string, u: string, k: nat, p: nat, n: nat)
    requires Blanked(s, u, k) && Line(u) && p <= |s| && p != k + 1
    ensures ParseArgs(u, p, n) == ParseArgs(s, p, n) &&
            (ParseArgs(s, p, n).Ok? ==> ParseArgs(s, p, n).value.pos != k + 1)
    decreases |s| - p
  {
    hide GetToken, SkipBlanks, ParseRedirs;
    PeekSame(s, u, k, p, "|)&;");
    NextSame(s, u, k, p);
    if !Peek(s, p, "|)&;") {
      TokenSame(s, u, k, SkipBlanks(s, p));
      var t := GetToken(s, SkipBlanks(s, p));
      if t.tok == 'a' {
        RedirsSame(s, u, k, t.next);
        var here := ParseRedirs(s, t.next);
        if here.Ok? {
          ArgsSame(s, u, k, here.value.pos, n + 1);
        }
      }
    }
  }

  lemma {:induction false} ExecSame(s: string, u: string, k: nat, p: nat)
    requires Blanked(s, u, k) && Line(u) && p <= |s| && p != k + 1
    ensures ParseExec(u, p) == ParseExec(s, p) && (ParseExec(s, p).Ok? ==> ParseExec(s, p).value.pos != k + 1)
    decreases |s| - p, 1
  {
    hide GetToken, SkipBlanks, ParseRedirs, ParseArgs, ParseBlock;
    PeekSame(s, u, k, p, "(");
    NextSame(s, u, k, p);
    if Peek(s, p, "(") {
      BlockSame(s, u, k, SkipBlanks(s, p));
    } else {
      RedirsSame(s, u, k, SkipBlanks(s, p));
      var first := ParseRedirs(s, SkipBlanks(s, p));
      if first.Ok? {
        ArgsSame(s, u, k, first.value.pos, 0);
      }
    }
  }

  lemma {:induction false} BlockSame(s: string, u: string, k: nat, p: nat)
    requires Blanked(s, u, k) && Line(u) && p <= |s| && p != k + 1
    ensures ParseBlock(u, p) == ParseBlock(s, p) && (ParseBlock(s, p).Ok? ==> ParseBlock(s, p).value.pos != k + 1)
    decreases |s| - p, 0
  {
    hide GetToken, SkipBlanks, ParseRedirs, ParseLine;
    PeekSame(s, u, k, p, "(");
    NextSame(s, u, k, p);
    if Peek(s, p, "(") {
      OpenMoves(s, p);
      var next := GetToken(s, SkipBlanks(s, p)).next;
      LineSame(s, u, k, next);
      var line := ParseLine(s, next);
      if line.Ok? {
        PeekSame(s, u, k, line.value.pos, ")");
        NextSame(s, u, k, line.value.pos);
        RedirsSame(s, u, k, GetToken(s, SkipBlanks(s, line.value.pos)).next);
      }
    }
  }

  lemma OpenMoves(s: string, p: nat)
    requires Line(s) && p <= |s| && SkipBlanks(s, p) < |s|
    ensures GetToken(s, SkipBlanks(s, p)).next > p
  {}

  lemma {:induction false} PipeSame(s: string, u: string, k: nat, p: nat)
    requires Blanked(s, u, k) && Line(u) && p <= |s| && p != k + 1
    ensures ParsePipe(u, p) == ParsePipe(s, p) && (ParsePipe(s, p).Ok? ==> ParsePipe(s, p).value.pos != k + 1)
    decreases |s| - p, 2
  {
    hide GetToken, SkipBlanks, ParseExec;
    ExecSame(s, u, k, p);
    var left := ParseExec(s, p);
    if left.Ok? {
      PeekSame(s, u, k, left.value.pos, "|");
      NextSame(s, u, k, left.value.pos);
      if Peek(s, left.value.pos, "|") {
        OpenMoves(s, left.value.pos);
        PipeSame(s, u, k, GetToken(s, SkipBlanks(s, left.value.pos)).next);
      }
    }
  }

  lemma {:induction false} BacksSame(s: string, u: string, k: nat, cmd: Cmd<Span>, p: nat)
    requires Blanked(s, u, k) && Line(u) && p <= |s| && p != k + 1
    ensures ParseBacks(u, cmd, p) == ParseBacks(s, cmd, p) && ParseBacks(s, cmd, p).pos != k + 1
    decreases |s| - p
  {
    hide GetToken, SkipBlanks;
    PeekSame(s, u, k, p, "&");
    NextSame(s, u, k, p);
    if Peek(s, p, "&") {
      OpenMoves(s, p);
      BacksSame(s, u, k, Back(cmd), GetToken(s, SkipBlanks(s, p)).next);
    }
  }

  lemma {:induction false} LineSame(s: string, u: string, k: nat, p: nat)
    requires Blanked(s, u, k) && Line(u) && p <= |s| && p != k + 1
    ensures ParseLine(u, p) == ParseLine(s, p) && (ParseLine(s, p).Ok? ==> ParseLine(s, p).value.pos != k + 1)
    decreases |s| - p, 3
  {
    hide GetToken, SkipBlanks, ParsePipe, ParseBacks;
    PipeSame(s, u, k, p);
    var first := ParsePipe(s, p);
    if first.Ok? {
      BacksSame(s, u, k, first.value.cmd, first.value.pos);
      var left := ParseBacks(s, first.value.cmd, first.value.pos);
      PeekSame(s, u, k, left.pos, ";");
      NextSame(s, u, k, left.pos);
      if Peek(s, left.pos, ";") {
        OpenMoves(s, left.pos);
        LineSame(s, u, k, GetToken(s, SkipBlanks(s, left.pos)).next);
      }
    }
  }

  /** On every line: >> and > followed by a blank give the same tree, or the same panic. */
  lemma AppendIsWrite(s: string, u: string, k: nat)
    requires Blanked(s, u, k)
    ensures Line(u) && ParseCmd(u) == ParseCmd(s)
  {
    hide ParseLine, SkipBlanks;
    BlankedIsLine(s, u, k);
    LineSame(s, u, k, 0);
    if ParseLine(s, 0).Ok? {
      SkipSame(s, u, k, ParseLine(s, 0).value.pos);
    }
  }
}
