/**
  The command language of user/sh.c: tokens, the grammar that parseline, parsepipe,
  parseexec, parseredirs and parseblock accept, and a printer that inverts it.
 */
module Shell {

  const MAXARGS := 10

  datatype Mode = In | Out | Append

  datatype Redir = Redir(mode: Mode, file: string)

  datatype Cmd = Exec(args: seq<string>) | Redirect(cmd: Cmd, redir: Redir) | Pipe(left: Cmd, right: Cmd)
    | List(left: Cmd, right: Cmd) | Back(cmd: Cmd)

  datatype Error = MissingFile | MissingParen | TooManyArgs | Syntax | Leftovers

  /** What gettoken returns; Word stands for 'a', Gtgt for '+'. */
  datatype Token = Bar | Open | Close | Semi | Amp | Lt | Gt | Gtgt | Word(text: string)

  datatype Result<T> = Ok(value: T, rest: seq<Token>) | Err(error: Error)

  // ----- the grammar, over tokens

  predicate First(ts: seq<Token>, t: Token) { ts != [] && ts[0] == t }

  predicate IsRedir(t: Token) { t == Lt || t == Gt || t == Gtgt }

  /** The tokens that end a simple command. */
  predicate Ends(ts: seq<Token>) { ts == [] || ts[0] == Bar || ts[0] == Close || ts[0] == Amp || ts[0] == Semi }

  function ModeOf(t: Token): Mode { if t == Lt then In else if t == Gt then Out else Append }

  function Wrap(cmd: Cmd, redirs: seq<Redir>): Cmd
    decreases |redirs|
  {
    if redirs == [] then cmd else Redirect(Wrap(cmd, redirs[..|redirs| - 1]), redirs[|redirs| - 1])
  }

  /** The redirections that follow, after those already read. */
  function Redirs(redirs: seq<Redir>, ts: seq<Token>): (r: Result<seq<Redir>>)
    ensures r.Ok? ==> |r.rest| <= |ts| && (r.rest == [] || !IsRedir(r.rest[0]))
    decreases |ts|
  {
    if ts == [] || !IsRedir(ts[0]) then Ok(redirs, ts)
    else if |ts| < 2 || !ts[1].Word? then Err(MissingFile)
    else Redirs(redirs + [Redir(ModeOf(ts[0]), ts[1].text)], ts[2..])
  }

  /** The rest of a simple command: words and redirections in any order. */
  function Args(args: seq<string>, redirs: seq<Redir>, ts: seq<Token>): (r: Result<Cmd>)
    ensures r.Ok? ==> |r.rest| <= |ts|
    decreases |ts|
  {
    if Ends(ts) then Ok(Wrap(Exec(args), redirs), ts)
    else if !ts[0].Word? then Err(Syntax)
    else if |args| + 1 >= MAXARGS then Err(TooManyArgs)
    else match Redirs(redirs, ts[1..])
      case Err(e) => Err(e)
      case Ok(redirs', ts') => Args(args + [ts[0].text], redirs', ts')
  }

  function Simple(ts: seq<Token>): (r: Result<Cmd>)
    ensures r.Ok? ==> |r.rest| <= |ts|
  {
    match Redirs([], ts)
    case Err(e) => Err(e)
    case Ok(redirs, ts') => Args([], redirs, ts')
  }

  function ParseExec(ts: seq<Token>): (r: Result<Cmd>)
    ensures r.Ok? ==> |r.rest| <= |ts|
    decreases |ts|, 0
  {
    if !First(ts, Open) then Simple(ts)
    else match ParseLine(ts[1..])
      case Err(e) => Err(e)
      case Ok(cmd, ts1) =>
        if !First(ts1, Close) then Err(MissingParen)
        else match Redirs([], ts1[1..])
          case Err(e) => Err(e)
          case Ok(redirs, ts2) => Ok(Wrap(cmd, redirs), ts2)
  }

  function ParsePipe(ts: seq<Token>): (r: Result<Cmd>)
    ensures r.Ok? ==> |r.rest| <= |ts|
    decreases |ts|, 1
  {
    match ParseExec(ts)
    case Err(e) => Err(e)
    case Ok(cmd, ts1) =>
      if !First(ts1, Bar) then Ok(cmd, ts1)
      else match ParsePipe(ts1[1..])
        case Err(e) => Err(e)
        case Ok(right, ts2) => Ok(Pipe(cmd, right), ts2)
  }

  /** Each & puts the command in the background. */
  function Amps(cmd: Cmd, ts: seq<Token>): (r: Result<Cmd>)
    ensures r.Ok? && |r.rest| <= |ts|
    decreases |ts|
  {
    if First(ts, Amp) then Amps(Back(cmd), ts[1..]) else Ok(cmd, ts)
  }

  function ParseLine(ts: seq<Token>): (r: Result<Cmd>)
    ensures r.Ok? ==> |r.rest| <= |ts|
    decreases |ts|, 2
  {
    match ParsePipe(ts)
    case Err(e) => Err(e)
    case Ok(cmd, ts1) =>
      var b := Amps(cmd, ts1);
      if !First(b.rest, Semi) then b
      else match ParseLine(b.rest[1..])
        case Err(e) => Err(e)
        case Ok(right, ts2) => Ok(List(b.value, right), ts2)
  }

  function ParseAll(ts: seq<Token>): (r: Result<Cmd>)
    ensures r.Ok? ==> r.rest == []
  {
    match ParseLine(ts)
    case Err(e) => Err(e)
    case Ok(cmd, ts1) => if ts1 == [] then Ok(cmd, []) else Err(Leftovers)
  }

  // ----- printing, with parentheses only where they are needed

  function Words(args: seq<string>): seq<Token> {
    if args == [] then [] else [Word(args[0])] + Words(args[1..])
  }

  function RedirTokens(r: Redir): seq<Token> {
    [match r.mode case In => Lt case Out => Gt case Append => Gtgt, Word(r.file)]
  }

  function PrintLine(cmd: Cmd): seq<Token>
    decreases cmd, 4
  {
    if cmd.List? then PrintInner(cmd) else PrintBack(cmd)
  }

  function PrintBack(cmd: Cmd): seq<Token>
    decreases cmd, 3
  {
    if cmd.Back? then PrintInner(cmd) else PrintPipe(cmd)
  }

  function PrintPipe(cmd: Cmd): seq<Token>
    decreases cmd, 2
  {
    if cmd.Pipe? then PrintInner(cmd) else PrintExec(cmd)
  }

  function PrintExec(cmd: Cmd): seq<Token>
    decreases cmd, 1
  {
    match cmd
    case Exec(args) => Words(args)
    case Redirect(c, r) => PrintExec(c) + RedirTokens(r)
    case _ => [Open] + PrintInner(cmd) + [Close]
  }

  function PrintInner(cmd: Cmd): seq<Token>
    requires cmd.List? || cmd.Back? || cmd.Pipe?
    decreases cmd, 0
  {
    match cmd
    case List(l, r) => PrintBack(l) + [Semi] + PrintLine(r)
    case Back(c) => PrintBack(c) + [Amp]
    case Pipe(l, r) => PrintExec(l) + [Bar] + PrintPipe(r)
  }

  /** At most MAXARGS - 1 words in a simple command. */
  predicate Fits(cmd: Cmd) {
    match cmd
    case Exec(args) => |args| < MAXARGS
    case Redirect(c, _) => Fits(c)
    case Pipe(l, r) => Fits(l) && Fits(r)
    case List(l, r) => Fits(l) && Fits(r)
    case Back(c) => Fits(c)
  }

  // ----- the parser inverts the printer

  /** The simple command or block under the redirections. */
  function Base(cmd: Cmd): (c: Cmd)
    ensures !c.Redirect?
  {
    if cmd.Redirect? then Base(cmd.cmd) else cmd
  }

  function RedirsOf(cmd: Cmd): seq<Redir> {
    if cmd.Redirect? then RedirsOf(cmd.cmd) + [cmd.redir] else []
  }

  function RedirsTokens(rs: seq<Redir>): seq<Token> {
    if rs == [] then [] else RedirTokens(rs[0]) + RedirsTokens(rs[1..])
  }

  lemma Assoc<T>(a: seq<T>, b: seq<T>, c: seq<T>)
    ensures (a + b) + c == a + (b + c)
  {
  }

  lemma Split<T>(a: seq<T>, s: seq<T>)
    requires s != []
    ensures a + [s[0]] + s[1..] == a + s
  {
  }

  lemma {:induction false} MoreRedirs(rs: seq<Redir>, r: Redir)
    ensures RedirsTokens(rs + [r]) == RedirsTokens(rs) + RedirTokens(r)
    decreases |rs|
  {
    if rs != [] {
      MoreRedirs(rs[1..], r);
      assert (rs + [r])[1..] == rs[1..] + [r];
    }
  }

  lemma {:induction false} Unwrapped(cmd: Cmd)
    ensures Wrap(Base(cmd), RedirsOf(cmd)) == cmd
      && PrintExec(cmd) == PrintExec(Base(cmd)) + RedirsTokens(RedirsOf(cmd))
    ensures Fits(cmd) ==> Fits(Base(cmd))
  {
    if cmd.Redirect? {
      Unwrapped(cmd.cmd);
      MoreRedirs(RedirsOf(cmd.cmd), cmd.redir);
      assert RedirsOf(cmd)[..|RedirsOf(cmd)| - 1] == RedirsOf(cmd.cmd);
    }
  }

  lemma ReadRedir(before: seq<Redir>, r: Redir, ts: seq<Token>)
    ensures Redirs(before, RedirTokens(r) + ts) == Redirs(before + [r], ts)
  {
    var all := RedirTokens(r) + ts;
    assert all[1] == Word(r.file) && all[2..] == ts;
  }

  lemma {:induction false} ReadRedirs(before: seq<Redir>, rs: seq<Redir>, rest: seq<Token>)
    requires rest == [] || !IsRedir(rest[0])
    ensures Redirs(before, RedirsTokens(rs) + rest) == Ok(before + rs, rest)
    decreases |rs|
  {
    if rs == [] {
      assert RedirsTokens(rs) + rest == rest && before + rs == before;
    } else {
      var ts := RedirsTokens(rs[1..]) + rest;
      Assoc(RedirTokens(rs[0]), RedirsTokens(rs[1..]), rest);
      ReadRedir(before, rs[0], ts);
      ReadRedirs(before + [rs[0]], rs[1..], rest);
      Split(before, rs);
    }
  }

  /** One more word. */
  lemma ReadWord(args: seq<string>, w: string, redirs: seq<Redir>, ts: seq<Token>, ts': seq<Token>)
    requires |args| + 1 < MAXARGS && Redirs([], ts) == Ok(redirs, ts')
    ensures Args(args, [], [Word(w)] + ts) == Args(args + [w], redirs, ts')
  {
    var all := [Word(w)] + ts;
    assert all[0] == Word(w) && all[1..] == ts;
  }

  /** The words of a simple command, then its redirections. */
  lemma {:induction false} ReadArgs(args: seq<string>, more: seq<string>, tail: seq<Token>, rs: seq<Redir>,
      rest: seq<Token>)
    requires |args| + |more| < MAXARGS && more != [] && Redirs([], tail) == Ok(rs, rest) && Ends(rest)
    ensures Args(args, [], Words(more) + tail) == Ok(Wrap(Exec(args + more), rs), rest)
    decreases |more|
  {
    var ts := Words(more[1..]) + tail;
    Assoc([Word(more[0])], Words(more[1..]), tail);
    if |more| == 1 {
      assert ts == tail && args + more == args + [more[0]];
      ReadWord(args, more[0], rs, tail, rest);
    } else {
      assert ts[0] == Word(more[1]);
      ReadWord(args, more[0], [], ts, ts);
      ReadArgs(args + [more[0]], more[1..], tail, rs, rest);
      Split(args, more);
    }
  }

  lemma StartsWithWord(w: string, more: seq<Token>)
    ensures var ts := [Word(w)] + more; ParseExec(ts) == Args([], [], ts)
  {
  }

  lemma ReadSimple(args: seq<string>, tail: seq<Token>, rs: seq<Redir>, rest: seq<Token>)
    requires |args| < MAXARGS && Redirs([], tail) == Ok(rs, rest) && Ends(rest)
    ensures ParseExec(Words(args) + tail) == Ok(Wrap(Exec(args), rs), rest)
  {
    if args == [] {
      ReadNoWords(tail, rs, rest);
      assert Words(args) + tail == tail;
    } else {
      Assoc([Word(args[0])], Words(args[1..]), tail);
      StartsWithWord(args[0], Words(args[1..]) + tail);
      ReadArgs([], args, tail, rs, rest);
      assert [] + args == args;
    }
  }

  lemma ReadNoWords(tail: seq<Token>, rs: seq<Redir>, rest: seq<Token>)
    requires Redirs([], tail) == Ok(rs, rest) && Ends(rest)
    ensures ParseExec(tail) == Ok(Wrap(Exec([]), rs), rest)
  {
  }

  lemma ReadBlock(cmd: Cmd, ts: seq<Token>, tail: seq<Token>, rs: seq<Redir>, rest: seq<Token>)
    requires ParseLine(ts) == Ok(cmd, [Close] + tail) && Redirs([], tail) == Ok(rs, rest)
    ensures ParseExec([Open] + ts) == Ok(Wrap(cmd, rs), rest)
  {
    assert ([Open] + ts)[1..] == ts && ([Close] + tail)[1..] == tail;
  }

  lemma {:induction false} ReadExec(cmd: Cmd, rest: seq<Token>)
    requires Fits(cmd) && Ends(rest)
    ensures ParseExec(PrintExec(cmd) + rest) == Ok(cmd, rest)
    decreases cmd, 2
  {
    Unwrapped(cmd);
    var base, rs := Base(cmd), RedirsOf(cmd);
    var tail := RedirsTokens(rs) + rest;
    ReadRedirs([], rs, rest);
    assert [] + rs == rs;
    Assoc(PrintExec(base), RedirsTokens(rs), rest);
    if base.Exec? {
      ReadSimple(base.args, tail, rs, rest);
    } else {
      var ts := PrintInner(base) + ([Close] + tail);
      Bracketed(PrintInner(base), tail);
      BaseSmaller(cmd);
      ReadInner(base, [Close] + tail);
      ReadBlock(base, ts, tail, rs, rest);
    }
  }

  lemma Infix(a: seq<Token>, op: Token, b: seq<Token>, rest: seq<Token>)
    ensures a + [op] + b + rest == a + ([op] + (b + rest)) && ([op] + (b + rest))[1..] == b + rest
  {
  }

  lemma Bracketed(inner: seq<Token>, tail: seq<Token>)
    ensures [Open] + inner + [Close] + tail == [Open] + (inner + ([Close] + tail))
  {
  }

  lemma {:induction false} BaseSmaller(cmd: Cmd)
    ensures Base(cmd) == cmd || Base(cmd) < cmd
  {
    if cmd.Redirect? { BaseSmaller(cmd.cmd); }
  }

  lemma {:induction false} ReadPipe(cmd: Cmd, rest: seq<Token>)
    requires Fits(cmd) && Ends(rest) && !First(rest, Bar)
    ensures ParsePipe(PrintPipe(cmd) + rest) == Ok(cmd, rest)
    decreases cmd, 3
  {
    if cmd.Pipe? {
      ReadExecThenPipe(cmd, rest);
    } else {
      ReadExec(cmd, rest);
    }
  }

  lemma {:induction false} ReadExecThenPipe(cmd: Cmd, rest: seq<Token>)
    requires cmd.Pipe? && Fits(cmd) && Ends(rest) && !First(rest, Bar)
    ensures ParsePipe(PrintInner(cmd) + rest) == Ok(cmd, rest)
    decreases cmd, 0
  {
    var tail := [Bar] + (PrintPipe(cmd.right) + rest);
    Infix(PrintExec(cmd.left), Bar, PrintPipe(cmd.right), rest);
    ReadExec(cmd.left, tail);
    ReadPipe(cmd.right, rest);
  }

  /** A pipe or background command, up to the & signs that follow. */
  ghost predicate BackReads(ts: seq<Token>, cmd: Cmd, rest: seq<Token>) {
    var p := ParsePipe(ts);
    p.Ok? && Amps(p.value, p.rest) == Amps(cmd, rest)
  }

  lemma {:induction false} ReadBack(cmd: Cmd, rest: seq<Token>)
    requires Fits(cmd) && Ends(rest) && !First(rest, Bar)
    ensures BackReads(PrintBack(cmd) + rest, cmd, rest)
    decreases cmd, 4
  {
    if cmd.Back? {
      ReadBackInner(cmd, rest);
    } else {
      ReadPipe(cmd, rest);
    }
  }

  lemma {:induction false} ReadBackInner(cmd: Cmd, rest: seq<Token>)
    requires cmd.Back? && Fits(cmd) && Ends(rest) && !First(rest, Bar)
    ensures BackReads(PrintInner(cmd) + rest, cmd, rest)
    decreases cmd, 0
  {
    var tail := [Amp] + rest;
    Assoc(PrintBack(cmd.cmd), [Amp], rest);
    ReadBack(cmd.cmd, tail);
    assert tail[1..] == rest;
  }

  lemma {:induction false} ReadLine(cmd: Cmd, rest: seq<Token>)
    requires Fits(cmd) && (rest == [] || rest[0] == Close)
    ensures ParseLine(PrintLine(cmd) + rest) == Ok(cmd, rest)
    decreases cmd, 5
  {
    if cmd.List? {
      ReadInner(cmd, rest);
    } else {
      ReadBack(cmd, rest);
    }
  }

  lemma {:induction false} ReadInner(cmd: Cmd, rest: seq<Token>)
    requires Fits(cmd) && (rest == [] || rest[0] == Close) && (cmd.List? || cmd.Back? || cmd.Pipe?)
    ensures ParseLine(PrintInner(cmd) + rest) == Ok(cmd, rest)
    decreases cmd, 1
  {
    match cmd
    case List(l, r) =>
      var tail := [Semi] + (PrintLine(r) + rest);
      Infix(PrintBack(l), Semi, PrintLine(r), rest);
      ReadBack(l, tail);
      ReadLine(r, rest);
    case Back(_) => ReadBackInner(cmd, rest);
    case Pipe(_, _) => ReadExecThenPipe(cmd, rest);
  }

  /** Parsing a printed command gives the command back. */
  lemma RoundTrip(cmd: Cmd)
    requires Fits(cmd)
    ensures ParseAll(PrintLine(cmd)) == Ok(cmd, [])
  {
    assert PrintLine(cmd) + [] == PrintLine(cmd);
    ReadLine(cmd, []);
  }

  // ----- what the parser accepts can be printed

  lemma {:induction false} WrapFits(cmd: Cmd, redirs: seq<Redir>)
    requires Fits(cmd)
    ensures Fits(Wrap(cmd, redirs))
    decreases |redirs|
  {
    if redirs != [] { WrapFits(cmd, redirs[..|redirs| - 1]); }
  }

  lemma {:induction false} ArgsFit(args: seq<string>, redirs: seq<Redir>, ts: seq<Token>)
    requires |args| < MAXARGS && Args(args, redirs, ts).Ok?
    ensures Fits(Args(args, redirs, ts).value)
    decreases |ts|
  {
    if Ends(ts) {
      WrapFits(Exec(args), redirs);
    } else {
      var r := Redirs(redirs, ts[1..]);
      ArgsFit(args + [ts[0].text], r.value, r.rest);
    }
  }

  lemma {:induction false} AmpsFit(cmd: Cmd, ts: seq<Token>)
    requires Fits(cmd)
    ensures Fits(Amps(cmd, ts).value)
    decreases |ts|
  {
    if First(ts, Amp) { AmpsFit(Back(cmd), ts[1..]); }
  }

  lemma {:induction false} ExecFits(ts: seq<Token>)
    requires ParseExec(ts).Ok?
    ensures Fits(ParseExec(ts).value)
    decreases |ts|, 0
  {
    if First(ts, Open) {
      var line := ParseLine(ts[1..]);
      LineFits(ts[1..]);
      WrapFits(line.value, Redirs([], line.rest[1..]).value);
    } else {
      var r := Redirs([], ts);
      ArgsFit([], r.value, r.rest);
    }
  }

  lemma {:induction false} PipeFits(ts: seq<Token>)
    requires ParsePipe(ts).Ok?
    ensures Fits(ParsePipe(ts).value)
    decreases |ts|, 1
  {
    ExecFits(ts);
    var e := ParseExec(ts);
    if First(e.rest, Bar) { PipeFits(e.rest[1..]); }
  }

  lemma {:induction false} LineFits(ts: seq<Token>)
    requires ParseLine(ts).Ok?
    ensures Fits(ParseLine(ts).value)
    decreases |ts|, 2
  {
    PipeFits(ts);
    var p := ParsePipe(ts);
    var b := Amps(p.value, p.rest);
    AmpsFit(p.value, p.rest);
    if First(b.rest, Semi) { LineFits(b.rest[1..]); }
  }

  /** Any command line that parses means the same as its printing. */
  lemma Normalises(ts: seq<Token>)
    requires ParseAll(ts).Ok?
    ensures ParseAll(PrintLine(ParseAll(ts).value)) == ParseAll(ts)
  {
    LineFits(ts);
    RoundTrip(ParseAll(ts).value);
  }
}
