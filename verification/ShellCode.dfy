/**
  The parser of user/sh.c over the characters of a command line: gettoken and peek advance a
  position, the parse functions build trees whose words are spans of the line, and
  nulterminate writes into it.
 */
module ShellCode {
  import opened Shell

  // ----- characters

  predicate IsSpace(c: char) { c == ' ' || c == '\t' || c == '\r' || c == '\n' || c == '\U{000B}' }

  predicate IsSymbol(c: char) { c == '<' || c == '|' || c == '>' || c == '&' || c == ';' || c == '(' || c == ')' }

  predicate IsWordChar(c: char) { !IsSpace(c) && !IsSymbol(c) }

  function SkipWs(s: string, i: nat): (k: nat)
    requires i <= |s|
    ensures i <= k <= |s| && (k < |s| ==> !IsSpace(s[k]))
    ensures forall j :: i <= j < k ==> IsSpace(s[j])
    decreases |s| - i
  {
    if i < |s| && IsSpace(s[i]) then SkipWs(s, i + 1) else i
  }

  function WordEnd(s: string, i: nat): (k: nat)
    requires i <= |s|
    ensures i <= k <= |s| && (k < |s| ==> !IsWordChar(s[k]))
    ensures forall j :: i <= j < k ==> IsWordChar(s[j])
    decreases |s| - i
  {
    if i < |s| && IsWordChar(s[i]) then WordEnd(s, i + 1) else i
  }

  /** The token at position k, and where it ends. */
  function Scan(s: string, k: nat): (r: (Token, nat))
    requires k < |s| && !IsSpace(s[k])
    ensures k < r.1 <= |s|
  {
    match s[k]
    case '|' => (Bar, k + 1)
    case '(' => (Open, k + 1)
    case ')' => (Close, k + 1)
    case ';' => (Semi, k + 1)
    case '&' => (Amp, k + 1)
    case '<' => (Lt, k + 1)
    case '>' => if k + 1 < |s| && s[k + 1] == '>' then (Gtgt, k + 2) else (Gt, k + 1)
    case _ => assert WordEnd(s, k) >= k + 1; (Word(s[k..WordEnd(s, k)]), WordEnd(s, k))
  }

  /** The tokens of a line from position i on. */
  function Toks(s: string, i: nat): seq<Token>
    requires i <= |s|
    decreases |s| - i
  {
    var k := SkipWs(s, i);
    if k == |s| then [] else [Scan(s, k).0] + Toks(s, Scan(s, k).1)
  }

  lemma {:induction false} SkipTwice(s: string, i: nat)
    requires i <= |s|
    ensures SkipWs(s, SkipWs(s, i)) == SkipWs(s, i) && Toks(s, SkipWs(s, i)) == Toks(s, i)
  {
  }

  // ----- gettoken and peek

  method SkipSpaces(s: string, i: nat) returns (k: nat)
    requires i <= |s|
    ensures k == SkipWs(s, i)
  {
    k := i;
    while k < |s| && IsSpace(s[k])
      invariant i <= k <= |s| && SkipWs(s, i) == SkipWs(s, k)
    {
      k := k + 1;
    }
  }

  datatype Option<T> = None | Some(value: T)

  /** gettoken: the next token, its span, and where the one after it starts. */
  method GetToken(s: string, i: nat) returns (tok: Option<Token>, q: nat, eq: nat, next: nat)
    requires i <= |s|
    ensures i <= q <= eq <= next <= |s| && (tok == None <==> Toks(s, i) == [])
    ensures tok == None ==> next == |s|
    ensures tok.Some? ==> i < next && Toks(s, i) == [tok.value] + Toks(s, next)
    ensures tok.Some? && tok.value.Word? ==> SpanOk(s, Span(q, eq)) && s[q..eq] == tok.value.text
  {
    q := SkipSpaces(s, i);
    if q == |s| {
      return None, q, q, q;
    }
    var c := s[q];
    eq := q + 1;
    if c == '|' {
      tok := Some(Bar);
    } else if c == '(' {
      tok := Some(Open);
    } else if c == ')' {
      tok := Some(Close);
    } else if c == ';' {
      tok := Some(Semi);
    } else if c == '&' {
      tok := Some(Amp);
    } else if c == '<' {
      tok := Some(Lt);
    } else if c == '>' {
      tok := Some(Gt);
      if eq < |s| && s[eq] == '>' {
        tok := Some(Gtgt);
        eq := eq + 1;
      }
    } else {
      eq := q;
      while eq < |s| && !IsSpace(s[eq]) && !IsSymbol(s[eq])
        invariant q <= eq <= |s| && WordEnd(s, q) == WordEnd(s, eq)
      {
        eq := eq + 1;
      }
      tok := Some(Word(s[q..eq]));
    }
    assert Scan(s, q) == (tok.value, eq);
    next := SkipSpaces(s, eq);
    SkipTwice(s, eq);
  }

  /** peek: skip spaces, and see whether the next character is one of those given. */
  method Peek(s: string, i: nat, toks: string) returns (yes: bool, next: nat)
    requires i <= |s|
    ensures i <= next <= |s| && Toks(s, next) == Toks(s, i) && next == SkipWs(s, i)
    ensures yes <==> next < |s| && s[next] in toks
  {
    next := SkipSpaces(s, i);
    yes := next < |s| && s[next] in toks;
    SkipTwice(s, i);
  }

  /** The first character shows which symbol comes first. */
  lemma FirstChar(s: string, k: nat)
    requires k <= |s| && SkipWs(s, k) == k
    ensures k == |s| <==> Toks(s, k) == []
    ensures k < |s| ==>
      var t := Toks(s, k)[0];
      && (s[k] == '(' <==> t == Open) && (s[k] == ')' <==> t == Close) && (s[k] == '|' <==> t == Bar)
      && (s[k] == ';' <==> t == Semi)
      && (s[k] == '&' <==> t == Amp) && (s[k] == '<' || s[k] == '>' <==> IsRedir(t)) && (IsWordChar(s[k]) <==> t.Word?)
  {
  }

  // ----- trees of spans

  datatype Span = Span(q: nat, eq: nat)

  /** A whole word of the line. */
  ghost predicate SpanOk(s: string, w: Span) {
    && w.q < w.eq <= |s| && (w.eq < |s| ==> !IsWordChar(s[w.eq]))
    && forall j :: w.q <= j < w.eq ==> IsWordChar(s[j])
  }

  datatype SpanRedir = SpanRedir(mode: Mode, file: Span)

  datatype Tree = TExec(args: seq<Span>) | TRedir(cmd: Tree, redir: SpanRedir) | TPipe(left: Tree, right: Tree)
    | TList(left: Tree, right: Tree) | TBack(cmd: Tree)

  ghost predicate SpansOk(s: string, ws: seq<Span>) { forall k :: 0 <= k < |ws| ==> SpanOk(s, ws[k]) }

  ghost predicate RedirsOk(s: string, rs: seq<SpanRedir>) { forall k :: 0 <= k < |rs| ==> SpanOk(s, rs[k].file) }

  /** All words of the tree are whole words of the line. */
  ghost predicate TreeOk(s: string, t: Tree) {
    match t
    case TExec(args) => SpansOk(s, args)
    case TRedir(c, r) => TreeOk(s, c) && SpanOk(s, r.file)
    case TPipe(l, r) => TreeOk(s, l) && TreeOk(s, r)
    case TList(l, r) => TreeOk(s, l) && TreeOk(s, r)
    case TBack(c) => TreeOk(s, c)
  }

  function Text(s: string, w: Span): string {
    if w.q <= w.eq <= |s| then s[w.q..w.eq] else ""
  }

  function Texts(s: string, ws: seq<Span>): seq<string> {
    if ws == [] then [] else Texts(s, ws[..|ws| - 1]) + [Text(s, ws[|ws| - 1])]
  }

  function RedirOf(s: string, r: SpanRedir): Redir { Redir(r.mode, Text(s, r.file)) }

  function RedirsIn(s: string, rs: seq<SpanRedir>): seq<Redir> {
    if rs == [] then [] else RedirsIn(s, rs[..|rs| - 1]) + [RedirOf(s, rs[|rs| - 1])]
  }

  /** The command that a tree stands for. */
  function Abs(s: string, t: Tree): Cmd {
    match t
    case TExec(args) => Exec(Texts(s, args))
    case TRedir(c, r) => Redirect(Abs(s, c), RedirOf(s, r))
    case TPipe(l, r) => Pipe(Abs(s, l), Abs(s, r))
    case TList(l, r) => List(Abs(s, l), Abs(s, r))
    case TBack(c) => Back(Abs(s, c))
  }

  /** The tree under the redirections read so far, the first innermost. */
  function WrapTree(t: Tree, rs: seq<SpanRedir>): Tree
    decreases |rs|
  {
    if rs == [] then t else TRedir(WrapTree(t, rs[..|rs| - 1]), rs[|rs| - 1])
  }

  lemma {:induction false} TextsLength(s: string, ws: seq<Span>)
    ensures |Texts(s, ws)| == |ws|
    decreases |ws|
  {
    if ws != [] { TextsLength(s, ws[..|ws| - 1]); }
  }

  lemma {:induction false} WrapAbs(s: string, t: Tree, rs: seq<SpanRedir>)
    requires TreeOk(s, t) && RedirsOk(s, rs)
    ensures TreeOk(s, WrapTree(t, rs)) && Abs(s, WrapTree(t, rs)) == Wrap(Abs(s, t), RedirsIn(s, rs))
    decreases |rs|
  {
    if rs != [] {
      var init := rs[..|rs| - 1];
      WrapAbs(s, t, init);
      assert RedirsIn(s, rs)[..|RedirsIn(s, rs)| - 1] == RedirsIn(s, init);
    }
  }

  // ----- the parse functions

  datatype Parsed<T> = Good(value: T, next: nat) | Bad(error: Error)

  ghost predicate Agrees(s: string, i: nat, spec: Result<Cmd>, r: Parsed<Tree>) {
    match r
    case Good(t, n) => i <= n <= |s| && TreeOk(s, t) && spec == Ok(Abs(s, t), Toks(s, n))
    case Bad(e) => spec == Result<Cmd>.Err(e)
  }

  /** One round of parseredirs: a redirection sign and a file name. */
  method ParseRedir(s: string, i: nat) returns (r: Parsed<SpanRedir>)
    requires i <= |s| && Toks(s, i) != [] && IsRedir(Toks(s, i)[0])
    ensures RedirIs(s, i, r)
  {
    var tok, q, eq, k := GetToken(s, i);
    var file;
    file, q, eq, k := GetToken(s, k);
    if !(file.Some? && file.value.Word?) {
      return Bad(MissingFile);
    }
    RedirShape(tok.value, file.value, Toks(s, k));
    return Good(SpanRedir(ModeOf(tok.value), Span(q, eq)), k);
  }

  lemma RedirShape(t: Token, f: Token, rest: seq<Token>)
    requires IsRedir(t) && f.Word?
    ensures [t] + ([f] + rest) == RedirTokens(Redir(ModeOf(t), f.text)) + rest
  {
  }

  lemma MoreIn(s: string, rs: seq<SpanRedir>, r: SpanRedir)
    ensures RedirsIn(s, rs + [r]) == RedirsIn(s, rs) + [RedirOf(s, r)]
  {
    assert (rs + [r])[..|rs|] == rs;
  }

  ghost predicate RedirIs(s: string, i: nat, r: Parsed<SpanRedir>)
    requires i <= |s|
  {
    && Toks(s, i) != [] && IsRedir(Toks(s, i)[0])
    && (r.Good? ==>
        i < r.next <= |s| && SpanOk(s, r.value.file)
        && Toks(s, i) == RedirTokens(RedirOf(s, r.value)) + Toks(s, r.next))
    && (r.Bad? ==> r.error == MissingFile && (|Toks(s, i)| < 2 || !Toks(s, i)[1].Word?))
  }

  lemma RedirRound(s: string, rs: seq<SpanRedir>, i: nat, r: Parsed<SpanRedir>)
    requires i <= |s| && RedirIs(s, i, r) && RedirsOk(s, rs)
    ensures r.Bad? ==> Redirs(RedirsIn(s, rs), Toks(s, i)) == Result<seq<Redir>>.Err(r.error)
    ensures r.Good? ==>
      RedirsOk(s, rs + [r.value]) && Redirs(RedirsIn(s, rs), Toks(s, i))
      == Redirs(RedirsIn(s, rs + [r.value]), Toks(s, r.next))
  {
    if r.Good? {
      MoreIn(s, rs, r.value);
      ReadRedir(RedirsIn(s, rs), RedirOf(s, r.value), Toks(s, r.next));
    }
  }

  /** parseredirs, after the redirections in `before`. */
  method ParseRedirs(s: string, i: nat, before: seq<SpanRedir>) returns (r: Parsed<seq<SpanRedir>>)
    requires i <= |s| && RedirsOk(s, before)
    ensures r.Good? ==>
      i <= r.next <= |s| && RedirsOk(s, r.value)
      && Redirs(RedirsIn(s, before), Toks(s, i)) == Ok(RedirsIn(s, r.value), Toks(s, r.next))
    ensures r.Bad? ==> Redirs(RedirsIn(s, before), Toks(s, i)) == Result<seq<Redir>>.Err(r.error)
  {
    var rs := before;
    var more, k := PeekRedir(s, i);
    while more
      invariant i <= k <= |s| && RedirsOk(s, rs) && (more <==> Toks(s, k) != [] && IsRedir(Toks(s, k)[0]))
      invariant Redirs(RedirsIn(s, before), Toks(s, i)) == Redirs(RedirsIn(s, rs), Toks(s, k))
      decreases |s| - k
    {
      var one := ParseRedir(s, k);
      RedirRound(s, rs, k, one);
      if one.Bad? {
        return Bad(one.error);
      }
      rs := rs + [one.value];
      more, k := PeekRedir(s, one.next);
    }
    return Good(rs, k);
  }

  method PeekRedir(s: string, i: nat) returns (yes: bool, next: nat)
    requires i <= |s|
    ensures i <= next <= |s| && Toks(s, next) == Toks(s, i) && (yes <==> Toks(s, i) != [] && IsRedir(Toks(s, i)[0]))
  {
    yes, next := Peek(s, i, "<>");
    SkipTwice(s, i);
    FirstChar(s, next);
  }

  /** peek for one symbol. */
  method PeekFor(s: string, i: nat, c: char, ghost t: Token) returns (yes: bool, next: nat)
    requires i <= |s| && SymbolFor(c, t)
    ensures i <= next <= |s| && Toks(s, next) == Toks(s, i) && (yes <==> First(Toks(s, i), t))
  {
    yes, next := Peek(s, i, [c]);
    SkipTwice(s, i);
    FirstChar(s, next);
  }

  predicate SymbolFor(c: char, t: Token) {
    (c == '(' && t == Open) || (c == ')' && t == Close) || (c == '|' && t == Bar) || (c == ';' && t == Semi)
      || (c == '&' && t == Amp)
  }

  method PeekEnd(s: string, i: nat) returns (yes: bool, next: nat)
    requires i <= |s|
    ensures i <= next <= |s| && Toks(s, next) == Toks(s, i)
    ensures yes <==> Toks(s, i) != [] && Ends(Toks(s, i))
  {
    yes, next := Peek(s, i, "|)&;");
    SkipTwice(s, i);
    FirstChar(s, next);
  }

  /** How a round of parseexec's loop ends. */
  datatype Round = Finished(at: nat) | Failed(error: Error) | Another(word: Span, redirs: seq<SpanRedir>, at: nat)

  ghost predicate RoundIs(s: string, i: nat, nargs: nat, redirs: seq<SpanRedir>, r: Round)
    requires i <= |s|
  {
    var ts := Toks(s, i);
    match r
    case Finished(k) => i <= k <= |s| && Toks(s, k) == ts && Ends(ts)
    case Failed(e) => !Ends(ts) &&
      ((!ts[0].Word? && e == Syntax) || (ts[0].Word? && nargs + 1 >= MAXARGS && e == TooManyArgs) ||
       (ts[0].Word? && nargs + 1 < MAXARGS && Redirs(RedirsIn(s, redirs), ts[1..]) == Result<seq<Redir>>.Err(e)))
    case Another(w, rs, k) =>
      i < k <= |s| && !Ends(ts) && ts[0] == Word(Text(s, w)) && SpanOk(s, w) && RedirsOk(s, rs) && nargs + 1 < MAXARGS
      && Redirs(RedirsIn(s, redirs), ts[1..]) == Ok(RedirsIn(s, rs), Toks(s, k))
  }

  /** One round of parseexec's loop: a word and the redirections after it. */
  method ParseWord(s: string, i: nat, nargs: nat, redirs: seq<SpanRedir>) returns (r: Round)
    requires i <= |s| && RedirsOk(s, redirs)
    ensures RoundIs(s, i, nargs, redirs, r)
  {
    var end, k := PeekEnd(s, i);
    if end {
      return Finished(k);
    }
    var tok, q, eq, next := GetToken(s, k);
    if tok == None {
      return Finished(k);
    }
    assert Toks(s, i)[1..] == Toks(s, next);
    if !tok.value.Word? {
      return Failed(Syntax);
    }
    if nargs + 1 >= MAXARGS {
      return Failed(TooManyArgs);
    }
    var rs := ParseRedirs(s, next, redirs);
    if rs.Bad? {
      return Failed(rs.error);
    }
    return Another(Span(q, eq), rs.value, rs.next);
  }

  /** parseexec without a block: words and redirections. */
  method ParseSimple(s: string, i: nat) returns (r: Parsed<Tree>)
    requires i <= |s|
    ensures Agrees(s, i, Simple(Toks(s, i)), r)
  {
    var rs := ParseRedirs(s, i, []);
    if rs.Bad? {
      return Bad(rs.error);
    }
    var args: seq<Span> := [];
    var redirs, k := rs.value, rs.next;
    while true
      invariant i <= k <= |s| && SpansOk(s, args) && RedirsOk(s, redirs)
      invariant Simple(Toks(s, i)) == Args(Texts(s, args), RedirsIn(s, redirs), Toks(s, k))
      decreases |s| - k
    {
      var round := ParseWord(s, k, |args|, redirs);
      ArgsRound(s, args, redirs, k, round);
      match round
      case Finished(at) =>
        WrapAbs(s, TExec(args), redirs);
        return Good(WrapTree(TExec(args), redirs), at);
      case Failed(e) =>
        return Bad(e);
      case Another(w, more, at) =>
        args, redirs, k := args + [w], more, at;
    }
  }

  /** What a round means for the rest of the command. */
  lemma ArgsRound(s: string, args: seq<Span>, redirs: seq<SpanRedir>, i: nat, r: Round)
    requires i <= |s| && RoundIs(s, i, |args|, redirs, r)
    ensures r.Finished? ==>
      Args(Texts(s, args), RedirsIn(s, redirs), Toks(s, i))
      == Ok(Wrap(Exec(Texts(s, args)), RedirsIn(s, redirs)), Toks(s, r.at))
    ensures r.Failed? ==> Args(Texts(s, args), RedirsIn(s, redirs), Toks(s, i)) == Result<Cmd>.Err(r.error)
    ensures r.Another? ==>
      Args(Texts(s, args), RedirsIn(s, redirs), Toks(s, i))
      == Args(Texts(s, args + [r.word]), RedirsIn(s, r.redirs), Toks(s, r.at))
  {
    TextsLength(s, args);
    if r.Another? { MoreTexts(s, args, r.word); }
  }

  lemma MoreTexts(s: string, ws: seq<Span>, w: Span)
    ensures Texts(s, ws + [w]) == Texts(s, ws) + [Text(s, w)]
  {
    assert (ws + [w])[..|ws|] == ws;
  }

  /** parseexec, with parseblock. */
  method ParseExecAt(s: string, i: nat) returns (r: Parsed<Tree>)
    requires i <= |s|
    ensures Agrees(s, i, ParseExec(Toks(s, i)), r)
    decreases |s| - i, 0
  {
    var block, k := PeekFor(s, i, '(', Open);
    if !block {
      r := ParseSimple(s, k);
      return;
    }
    var tok, q, eq, next := GetToken(s, k);
    var line := ParseLineAt(s, next);
    if line.Bad? {
      return line;
    }
    var close;
    close, k := PeekFor(s, line.next, ')', Close);
    if !close {
      return Bad(MissingParen);
    }
    tok, q, eq, next := GetToken(s, k);
    var rs := ParseRedirs(s, next, []);
    if rs.Bad? {
      return Bad(rs.error);
    }
    WrapAbs(s, line.value, rs.value);
    return Good(WrapTree(line.value, rs.value), rs.next);
  }

  /** parsepipe. */
  method ParsePipeAt(s: string, i: nat) returns (r: Parsed<Tree>)
    requires i <= |s|
    ensures Agrees(s, i, ParsePipe(Toks(s, i)), r)
    decreases |s| - i, 1
  {
    r := ParseExecAt(s, i);
    if r.Bad? {
      return;
    }
    var bar, k := PeekFor(s, r.next, '|', Bar);
    if !bar {
      return Good(r.value, k);
    }
    var tok, q, eq, next := GetToken(s, k);
    var right := ParsePipeAt(s, next);
    if right.Bad? {
      return right;
    }
    return Good(TPipe(r.value, right.value), right.next);
  }

  /** The loop of parseline that puts commands in the background. */
  method ParseAmps(s: string, i: nat, t0: Tree) returns (t: Tree, k: nat)
    requires i <= |s| && TreeOk(s, t0)
    ensures i <= k <= |s| && TreeOk(s, t) && Amps(Abs(s, t0), Toks(s, i)) == Ok(Abs(s, t), Toks(s, k))
  {
    t := t0;
    var amp;
    amp, k := PeekFor(s, i, '&', Amp);
    while amp
      invariant i <= k <= |s| && TreeOk(s, t) && (amp <==> First(Toks(s, k), Amp))
      invariant Amps(Abs(s, t0), Toks(s, i)) == Amps(Abs(s, t), Toks(s, k))
      decreases |s| - k
    {
      var tok, q, eq, next := GetToken(s, k);
      assert Toks(s, k)[1..] == Toks(s, next);
      t := TBack(t);
      amp, k := PeekFor(s, next, '&', Amp);
    }
  }

  /** parseline. */
  method ParseLineAt(s: string, i: nat) returns (r: Parsed<Tree>)
    requires i <= |s|
    ensures Agrees(s, i, ParseLine(Toks(s, i)), r)
    decreases |s| - i, 2
  {
    r := ParsePipeAt(s, i);
    if r.Bad? {
      return;
    }
    var t, k := ParseAmps(s, r.next, r.value);
    var semi;
    semi, k := PeekFor(s, k, ';', Semi);
    if !semi {
      return Good(t, k);
    }
    var tok, q, eq, next := GetToken(s, k);
    var right := ParseLineAt(s, next);
    if right.Bad? {
      return right;
    }
    return Good(TList(t, right.value), right.next);
  }

  /** parsecmd up to nulterminate: the whole line must be a command. */
  method ParseCmd(s: string) returns (r: Parsed<Tree>)
    ensures r.Good? ==> TreeOk(s, r.value) && ParseAll(Toks(s, 0)) == Ok(Abs(s, r.value), [])
    ensures r.Bad? ==> ParseAll(Toks(s, 0)) == Result<Cmd>.Err(r.error)
  {
    r := ParseLineAt(s, 0);
    if r.Bad? {
      return;
    }
    var yes, k := Peek(s, r.next, "");
    FirstChar(s, k);
    if k != |s| {
      return Bad(Leftovers);
    }
  }

  // ----- nulterminate

  const NUL: char := '\0'

  function WordsOf(t: Tree): set<Span> {
    match t
    case TExec(args) => set k | 0 <= k < |args| :: args[k]
    case TRedir(c, r) => WordsOf(c) + {r.file}
    case TPipe(l, r) => WordsOf(l) + WordsOf(r)
    case TList(l, r) => WordsOf(l) + WordsOf(r)
    case TBack(c) => WordsOf(c)
  }

  ghost predicate EndsIn(ws: set<Span>, j: nat) { exists w :: w in ws && w.eq == j }

  /** The buffer has a NUL at the end of each word and is otherwise as before. */
  ghost predicate Terminated(before: seq<char>, after: seq<char>, ws: set<Span>) {
    |after| == |before| && forall j: nat :: TerminatedAt(before, after, ws, j)
  }

  ghost predicate TerminatedAt(before: seq<char>, after: seq<char>, ws: set<Span>, j: nat) {
    j < |before| == |after| ==> after[j] == if EndsIn(ws, j) then NUL else before[j]
  }

  lemma TerminatedThen(a: seq<char>, b: seq<char>, c: seq<char>, ws: set<Span>, us: set<Span>)
    requires Terminated(a, b, ws) && Terminated(b, c, us)
    ensures Terminated(a, c, ws + us)
  {
    forall j: nat ensures TerminatedAt(a, c, ws + us, j) {
      assert TerminatedAt(a, b, ws, j) && TerminatedAt(b, c, us, j);
      assert EndsIn(ws + us, j) <==> EndsIn(ws, j) || EndsIn(us, j) by {
        if EndsIn(ws, j) { var w :| w in ws && w.eq == j; assert w in ws + us; }
        if EndsIn(us, j) { var w :| w in us && w.eq == j; assert w in ws + us; }
      }
    }
  }

  ghost predicate InBuffer(t: Tree, n: nat) {
    forall w :: w in WordsOf(t) ==> w.eq < n
  }

  method PutNul(buf: array<char>, w: Span)
    requires w.eq < buf.Length
    modifies buf
    ensures Terminated(old(buf[..]), buf[..], {w})
  {
    buf[w.eq] := NUL;
    forall j: nat ensures TerminatedAt(old(buf[..]), buf[..], {w}, j) {
      assert j == w.eq ==> EndsIn({w}, j) by { assert w in {w}; }
    }
  }

  lemma TerminatedNone(a: seq<char>)
    ensures Terminated(a, a, {})
  {
    forall j: nat ensures TerminatedAt(a, a, {}, j) { }
  }

  /** nulterminate writes a NUL behind every word of the tree. */
  method NulTerminate(t: Tree, buf: array<char>)
    requires InBuffer(t, buf.Length)
    modifies buf
    ensures Terminated(old(buf[..]), buf[..], WordsOf(t))
    decreases t
  {
    match t
    case TExec(args) =>
      var i := 0;
      ghost var ws: set<Span> := {};
      TerminatedNone(buf[..]);
      while i < |args|
        invariant 0 <= i <= |args| && ws == (set k | 0 <= k < i :: args[k]) && Terminated(old(buf[..]), buf[..], ws)
      {
        assert args[i] in WordsOf(t);
        ghost var mid := buf[..];
        PutNul(buf, args[i]);
        TerminatedThen(old(buf[..]), mid, buf[..], ws, {args[i]});
        ws := ws + {args[i]};
        i := i + 1;
      }
    case TRedir(c, r) =>
      assert r.file in WordsOf(t);
      NulTerminate(c, buf);
      ghost var mid := buf[..];
      PutNul(buf, r.file);
      TerminatedThen(old(buf[..]), mid, buf[..], WordsOf(c), {r.file});
    case TPipe(l, r) =>
      NulTerminate(l, buf);
      ghost var mid := buf[..];
      NulTerminate(r, buf);
      TerminatedThen(old(buf[..]), mid, buf[..], WordsOf(l), WordsOf(r));
    case TList(l, r) =>
      NulTerminate(l, buf);
      ghost var mid := buf[..];
      NulTerminate(r, buf);
      TerminatedThen(old(buf[..]), mid, buf[..], WordsOf(l), WordsOf(r));
    case TBack(c) =>
      NulTerminate(c, buf);
  }

  /** The C string at position q. */
  function CString(b: seq<char>, q: nat): string
    decreases |b| - q
  {
    if q < |b| && b[q] != NUL then [b[q]] + CString(b, q + 1) else ""
  }

  lemma {:induction false} CStringIs(b: seq<char>, q: nat, eq: nat)
    requires q <= eq < |b| && b[eq] == NUL && forall j :: q <= j < eq ==> b[j] != NUL
    ensures CString(b, q) == b[q..eq]
    decreases eq - q
  {
    if q < eq {
      CStringIs(b, q + 1, eq);
      assert b[q..eq] == [b[q]] + b[q + 1..eq];
    }
  }

  lemma {:induction false} WordOk(s: string, t: Tree, w: Span)
    requires TreeOk(s, t) && w in WordsOf(t)
    ensures SpanOk(s, w)
  {
    match t
    case TExec(args) =>
    case TRedir(c, r) => if w in WordsOf(c) { WordOk(s, c, w); }
    case TPipe(l, r) => if w in WordsOf(l) { WordOk(s, l, w); } else { WordOk(s, r, w); }
    case TList(l, r) => if w in WordsOf(l) { WordOk(s, l, w); } else { WordOk(s, r, w); }
    case TBack(c) => WordOk(s, c, w);
  }

  /** Every argument and file name is then exactly its token. */
  lemma WordsIntact(s: string, t: Tree, after: seq<char>, w: Span)
    requires TreeOk(s, t) && w in WordsOf(t) && NUL !in s && Terminated(s + [NUL], after, WordsOf(t))
    ensures CString(after, w.q) == Text(s, w)
  {
    WordOk(s, t, w);
    assert TerminatedAt(s + [NUL], after, WordsOf(t), w.eq) && EndsIn(WordsOf(t), w.eq);
    forall j: nat | w.q <= j < w.eq ensures after[j] == s[j] {
      assert TerminatedAt(s + [NUL], after, WordsOf(t), j);
      if EndsIn(WordsOf(t), j) {
        var u :| u in WordsOf(t) && u.eq == j;
        WordOk(s, t, u);
      }
    }
    CStringIs(after, w.q, w.eq);
    assert after[w.q..w.eq] == s[w.q..w.eq];
  }

  /** parsecmd: the command that the line means, with its words in place in the buffer. */
  method ParseCommand(buf: array<char>, s: string) returns (r: Parsed<Tree>)
    requires buf.Length == |s| + 1 && buf[..] == s + [NUL] && NUL !in s
    modifies buf
    ensures r.Bad? ==> ParseAll(Toks(s, 0)) == Result<Cmd>.Err(r.error) && buf[..] == old(buf[..])
    ensures r.Good? ==> ParseAll(Toks(s, 0)) == Ok(Abs(s, r.value), [])
    ensures r.Good? ==> forall w :: w in WordsOf(r.value) ==> CString(buf[..], w.q) == Text(s, w)
  {
    r := ParseCmd(s);
    if r.Good? {
      forall w | w in WordsOf(r.value) ensures w.eq < buf.Length { WordOk(s, r.value, w); }
      NulTerminate(r.value, buf);
      forall w | w in WordsOf(r.value) ensures CString(buf[..], w.q) == Text(s, w) {
        WordsIntact(s, r.value, buf[..], w);
      }
    }
  }

  // ----- printing as text

  predicate GoodWord(w: string) { w != "" && NUL !in w && forall k :: 0 <= k < |w| ==> IsWordChar(w[k]) }

  predicate GoodToken(t: Token) { t.Word? ==> GoodWord(t.text) }

  predicate GoodTokens(ts: seq<Token>) { forall k :: 0 <= k < |ts| ==> GoodToken(ts[k]) }

  function Show(t: Token): string {
    match t
    case Bar => "|"
    case Open => "("
    case Close => ")"
    case Semi => ";"
    case Amp => "&"
    case Lt => "<"
    case Gt => ">"
    case Gtgt => ">>"
    case Word(w) => w
  }

  /** The tokens with a space behind each. */
  function Unlex(ts: seq<Token>): string {
    if ts == [] then "" else Show(ts[0]) + " " + Unlex(ts[1..])
  }

  /** The text of a token stands at position k, with a space behind it. */
  ghost predicate ShownAt(s: string, k: nat, t: Token) {
    && k + |Show(t)| < |s| && s[k + |Show(t)|] == ' '
    && forall j :: 0 <= j < |Show(t)| ==> s[k + j] == Show(t)[j]
  }

  lemma ScanWord(s: string, k: nat, w: string)
    requires GoodWord(w) && ShownAt(s, k, Word(w))
    ensures !IsSpace(s[k]) && Scan(s, k) == (Word(w), k + |w|)
  {
    assert s[k + 0] == w[0] && IsWordChar(w[0]);
    forall j | k <= j < k + |w| ensures IsWordChar(s[j]) { assert s[k + (j - k)] == w[j - k]; }
    WordEndIs(s, k, k + |w|);
    assert s[k..k + |w|] == w;
  }

  lemma ScanSymbol(s: string, k: nat, t: Token)
    requires !t.Word? && ShownAt(s, k, t)
    ensures !IsSpace(s[k]) && Scan(s, k) == (t, k + |Show(t)|)
  {
    assert s[k + 0] == Show(t)[0];
    if t == Gtgt { assert s[k + 1] == Show(t)[1]; }
  }

  lemma ScanShown(s: string, k: nat, t: Token)
    requires GoodToken(t) && ShownAt(s, k, t)
    ensures !IsSpace(s[k]) && Scan(s, k) == (t, k + |Show(t)|) && SkipWs(s, k) == k
  {
    if t.Word? { ScanWord(s, k, t.text); } else { ScanSymbol(s, k, t); }
  }

  lemma {:induction false} WordEndIs(s: string, i: nat, e: nat)
    requires i <= e < |s| && !IsWordChar(s[e]) && forall j :: i <= j < e ==> IsWordChar(s[j])
    ensures WordEnd(s, i) == e
    decreases e - i
  {
    if i < e { WordEndIs(s, i + 1, e); }
  }

  /** What stands at position k of s if s continues there with a, a space and b. */
  lemma Continues(s: string, k: nat, a: string, b: string)
    requires k <= |s| && s[k..] == a + " " + b
    ensures k + |a| < |s| && s[k + |a|] == ' ' && s[k + |a| + 1..] == b && forall j :: 0 <= j < |a| ==> s[k + j] == a[j]
  {
    var u, n := s[k..], |a|;
    assert u[n] == ' ' && u[n + 1..] == b;
    forall j | 0 <= j < n ensures s[k + j] == a[j] { assert s[k + j] == u[j]; }
    assert s[k + n] == u[n] && s[k + n + 1..] == u[n + 1..];
  }

  /** From position k, token t is followed by the tokens from e on. */
  ghost predicate Starts(s: string, k: nat, t: Token, e: nat) {
    k <= |s| && e <= |s| && Toks(s, k) == [t] + Toks(s, e)
  }

  lemma NextToken(s: string, k: nat, t: Token, e: nat)
    requires GoodToken(t) && ShownAt(s, k, t) && e == k + |Show(t)| + 1
    ensures Starts(s, k, t, e)
  {
    ScanShown(s, k, t);
    assert SkipWs(s, e - 1) == SkipWs(s, e);
    SkipTwice(s, e - 1);
    SkipTwice(s, e);
  }

  lemma NoTokens(s: string, k: nat)
    requires k <= |s| && s[k..] == ""
    ensures Toks(s, k) == []
  {
    assert k == |s|;
  }

  lemma Rejoin(s: string, k: nat, ts: seq<Token>, e: nat)
    requires ts != [] && Starts(s, k, ts[0], e) && Toks(s, e) == ts[1..]
    ensures Toks(s, k) == ts
  {
  }

  lemma LexOne(s: string, k: nat, t: Token, rest: string) returns (e: nat)
    requires GoodToken(t) && k <= |s| && s[k..] == Show(t) + " " + rest
    ensures e <= |s| && s[e..] == rest && Starts(s, k, t, e)
  {
    Continues(s, k, Show(t), rest);
    e := k + |Show(t)| + 1;
    NextToken(s, k, t, e);
  }

  /** The tokens of printed tokens are those tokens. */
  lemma {:induction false} LexUnlex(s: string, k: nat, ts: seq<Token>)
    requires GoodTokens(ts) && k <= |s| && s[k..] == Unlex(ts)
    ensures Toks(s, k) == ts
    decreases |ts|
  {
    if ts == [] {
      NoTokens(s, k);
    } else {
      var e := LexOne(s, k, ts[0], Unlex(ts[1..]));
      LexUnlex(s, e, ts[1..]);
      Rejoin(s, k, ts, e);
    }
  }

  predicate GoodNames(cmd: Cmd) {
    match cmd
    case Exec(args) => forall k :: 0 <= k < |args| ==> GoodWord(args[k])
    case Redirect(c, r) => GoodNames(c) && GoodWord(r.file)
    case Pipe(l, r) => GoodNames(l) && GoodNames(r)
    case List(l, r) => GoodNames(l) && GoodNames(r)
    case Back(c) => GoodNames(c)
  }

  lemma {:induction false} GoodArgs(args: seq<string>)
    requires forall k :: 0 <= k < |args| ==> GoodWord(args[k])
    ensures GoodTokens(Words(args))
    decreases |args|
  {
    if args != [] { GoodArgs(args[1..]); }
  }

  lemma {:induction false} GoodPrint(cmd: Cmd)
    requires GoodNames(cmd)
    ensures GoodTokens(PrintExec(cmd)) && GoodTokens(PrintPipe(cmd)) && GoodTokens(PrintBack(cmd))
      && GoodTokens(PrintLine(cmd))
  {
    match cmd
    case Exec(args) => GoodArgs(args);
    case Redirect(c, r) => GoodPrint(c);
    case Pipe(l, r) => GoodPrint(l); GoodPrint(r);
    case List(l, r) => GoodPrint(l); GoodPrint(r);
    case Back(c) => GoodPrint(c);
  }

  function Print(cmd: Cmd): string { Unlex(PrintLine(cmd)) }

  /** Printing a command as text and parsing the text gives the command back. */
  lemma TextRoundTrip(cmd: Cmd)
    requires Fits(cmd) && GoodNames(cmd)
    ensures ParseAll(Toks(Print(cmd), 0)) == Ok(cmd, [])
  {
    GoodPrint(cmd);
    assert Print(cmd)[0..] == Print(cmd);
    LexUnlex(Print(cmd), 0, PrintLine(cmd));
    RoundTrip(cmd);
  }
}
