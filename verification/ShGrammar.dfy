/** The grammar of sh.c, as functions from tokens to command trees, and a printer for trees:
    what is printed parses to what it was printed from. */
module ShGrammar {

  const MAXARGS: nat := 10

  /** `<` opens for reading on 0; `>` and `>>` alike open for writing, creating, on 1. */
  datatype Dir = In | Out

  datatype Cmd<W> =
    | Exec(argv: seq<W>)
    | Redir(cmd: Cmd<W>, file: W, dir: Dir)
    | Pipe(left: Cmd<W>, right: Cmd<W>)
    | List(left: Cmd<W>, right: Cmd<W>)
    | Back(cmd: Cmd<W>)

  /** Symbols are what gettoken returns: the character, or '+' for >>. */
  datatype Token = Word(w: string) | Sym(c: char)

  type Tree = Cmd<string>
  type Tokens = seq<Token>

  /** Bad is a panic of the parser. */
  datatype Result = Parsed(cmd: Tree, rest: Tokens) | Bad

  // ---- The grammar -----------------------------------------------------------------------

  predicate Starts(ts: Tokens, cs: set<char>) { ts != [] && ts[0].Sym? && ts[0].c in cs }

  function DirOf(c: char): Dir { if c == '<' then In else Out }

  function Redirs(cmd: Tree, ts: Tokens): (r: Result)
    ensures r.Parsed? ==> |r.rest| <= |ts| && !Starts(r.rest, {'<', '>', '+'})
    decreases |ts|
  {
    if !Starts(ts, {'<', '>', '+'}) then Parsed(cmd, ts)
    else if |ts| < 2 || !ts[1].Word? then Bad
    else Redirs(Redir(cmd, ts[1].w, DirOf(ts[0].c)), ts[2..])
  }

  /** The words before redirections go to the command that is redirected. */
  function AddArg<W>(cmd: Cmd<W>, w: W): Cmd<W> {
    match cmd
    case Exec(argv) => Exec(argv + [w])
    case Redir(c, file, dir) => Redir(AddArg(c, w), file, dir)
    case _ => cmd
  }

  function Argc<W>(cmd: Cmd<W>): nat {
    match cmd case Exec(argv) => |argv| case Redir(c, _, _) => Argc(c) case _ => 0
  }

  function Args(cmd: Tree, ts: Tokens): (r: Result)
    ensures r.Parsed? ==> |r.rest| <= |ts|
    decreases |ts|
  {
    if ts == [] || Starts(ts, {'|', ')', '&', ';'}) then Parsed(cmd, ts)
    else if !ts[0].Word? || Argc(cmd) + 1 >= MAXARGS then Bad
    else match Redirs(AddArg(cmd, ts[0].w), ts[1..])
         case Bad => Bad
         case Parsed(c, rest) => Args(c, rest)
  }

  function ParseExec(ts: Tokens): (r: Result)
    ensures r.Parsed? ==> |r.rest| <= |ts|
    decreases |ts|, 1
  {
    if Starts(ts, {'('}) then
      match ParseLine(ts[1..])
      case Bad => Bad
      case Parsed(c, rest) => if Starts(rest, {')'}) then Redirs(c, rest[1..]) else Bad
    else
      match Redirs(Exec([]), ts)
      case Bad => Bad
      case Parsed(c, rest) => Args(c, rest)
  }

  function ParsePipe(ts: Tokens): (r: Result)
    ensures r.Parsed? ==> |r.rest| <= |ts|
    decreases |ts|, 2
  {
    match ParseExec(ts)
    case Bad => Bad
    case Parsed(c, rest) =>
      if !Starts(rest, {'|'}) then Parsed(c, rest)
      else match ParsePipe(rest[1..])
           case Bad => Bad
           case Parsed(d, rest') => Parsed(Pipe(c, d), rest')
  }

  function Backs(cmd: Tree, ts: Tokens): (r: Result)
    ensures r.Parsed? && |r.rest| <= |ts| && !Starts(r.rest, {'&'})
    decreases |ts|
  {
    if Starts(ts, {'&'}) then Backs(Back(cmd), ts[1..]) else Parsed(cmd, ts)
  }

  function ParseBacks(ts: Tokens): (r: Result)
    ensures r.Parsed? ==> |r.rest| <= |ts|
    decreases |ts|, 3
  {
    match ParsePipe(ts) case Bad => Bad case Parsed(c, rest) => Backs(c, rest)
  }

  function ParseLine(ts: Tokens): (r: Result)
    ensures r.Parsed? ==> |r.rest| <= |ts|
    decreases |ts|, 4
  {
    match ParseBacks(ts)
    case Bad => Bad
    case Parsed(c, rest) =>
      if !Starts(rest, {';'}) then Parsed(c, rest)
      else match ParseLine(rest[1..])
           case Bad => Bad
           case Parsed(d, rest') => Parsed(List(c, d), rest')
  }

  // ---- The printer ----------------------------------------------------------------------

  function Level(t: Tree): nat {
    match t case List(_, _) => 0 case Back(_) => 1 case Pipe(_, _) => 2 case _ => 3
  }

  function Words(ws: seq<string>): Tokens { if ws == [] then [] else [Word(ws[0])] + Words(ws[1..]) }

  function RedirTokens(file: string, dir: Dir): Tokens { [Sym(if dir.In? then '<' else '>'), Word(file)] }

  function Body(t: Tree): Tokens
    decreases t, 0
  {
    match t
    case Exec(argv) => Words(argv)
    case Redir(c, file, dir) => Print(c, 3) + RedirTokens(file, dir)
    case Pipe(l, r) => Print(l, 3) + [Sym('|')] + Print(r, 2)
    case List(l, r) => Print(l, 1) + [Sym(';')] + Print(r, 0)
    case Back(c) => Print(c, 1) + [Sym('&')]
  }

  /** In parentheses where the grammar asks for something that binds tighter. */
  function Print(t: Tree, level: nat): Tokens
    decreases t, 1
  {
    if Level(t) < level then [Sym('(')] + Body(t) + [Sym(')')] else Body(t)
  }

  /** No command has more words than argv has room for, with its final null. */
  predicate Fits(t: Tree) {
    match t
    case Exec(argv) => |argv| < MAXARGS
    case Redir(c, _, _) => Fits(c)
    case Pipe(l, r) => Fits(l) && Fits(r)
    case List(l, r) => Fits(l) && Fits(r)
    case Back(c) => Fits(c)
  }

  // ---- Parsing what was printed -------------------------------------------------------

  datatype RedirTo = RedirTo(file: string, dir: Dir)

  function Reds(rs: seq<RedirTo>): Tokens {
    if rs == [] then [] else RedirTokens(rs[0].file, rs[0].dir) + Reds(rs[1..])
  }

  function Wrap(t: Tree, rs: seq<RedirTo>): Tree
    decreases |rs|
  {
    if rs == [] then t else Wrap(Redir(t, rs[0].file, rs[0].dir), rs[1..])
  }

  /** What may follow a command at each level. */
  predicate Stops(rest: Tokens, level: nat) {
    rest == [] || Starts(rest, if level == 0 then {')'} else if level == 1 then {')', ';'}
                         else if level == 2 then {')', ';', '&'} else {')', ';', '&', '|'})
  }

  lemma {:induction false} RedsParse(t: Tree, rs: seq<RedirTo>, rest: Tokens)
    requires Stops(rest, 3)
    ensures Redirs(t, Reds(rs) + rest) == Parsed(Wrap(t, rs), rest)
    decreases |rs|
  {
    if rs == [] {
      assert Reds(rs) + rest == rest;
    } else {
      var ts := Reds(rs) + rest;
      assert ts == RedirTokens(rs[0].file, rs[0].dir) + (Reds(rs[1..]) + rest);
      assert ts[2..] == Reds(rs[1..]) + rest;
      RedsParse(Redir(t, rs[0].file, rs[0].dir), rs[1..], rest);
    }
  }

  lemma {:induction false} WordsParse(a: seq<string>, b: seq<string>, rs: seq<RedirTo>, rest: Tokens)
    requires |a| + |b| < MAXARGS && Stops(rest, 3) && (b == [] ==> rs == [])
    ensures Args(Exec(a), Words(b) + Reds(rs) + rest) == Parsed(Wrap(Exec(a + b), rs), rest)
    decreases |b|
  {
    var ts := Words(b) + Reds(rs) + rest;
    if b == [] {
      assert ts == rest && a + b == a;
    } else {
      var tail := Words(b[1..]) + Reds(rs) + rest;
      assert ts == [Word(b[0])] + tail;
      assert a + b == (a + [b[0]]) + b[1..];
      if b[1..] == [] {
        assert tail == Reds(rs) + rest;
        RedsParse(Exec(a + [b[0]]), rs, rest);
        assert a + b == a + [b[0]];
      } else {
        assert tail[0] == Word(b[1]);
        WordsParse(a + [b[0]], b[1..], rs, rest);
      }
    }
  }

  lemma {:induction false} ExecParse(argv: seq<string>, rs: seq<RedirTo>, rest: Tokens)
    requires |argv| < MAXARGS && Stops(rest, 3)
    ensures ParseExec(Words(argv) + Reds(rs) + rest) == Parsed(Wrap(Exec(argv), rs), rest)
  {
    var ts := Words(argv) + Reds(rs) + rest;
    if argv == [] {
      assert ts == Reds(rs) + rest;
      RedsParse(Exec([]), rs, rest);
    } else {
      assert ts[0] == Word(argv[0]);
      WordsParse([], argv, rs, rest);
      assert [] + argv == argv;
    }
  }

  lemma {:induction false} GroupParse(t: Tree, body: Tokens, rs: seq<RedirTo>, rest: Tokens)
    requires Stops(rest, 3)
    requires ParseLine(body + ([Sym(')')] + (Reds(rs) + rest))) == Parsed(t, [Sym(')')] + (Reds(rs) + rest))
    ensures ParseExec([Sym('(')] + body + [Sym(')')] + Reds(rs) + rest) == Parsed(Wrap(t, rs), rest)
  {
    hide Redirs, Args, ParseBacks, Reds, Wrap, Stops;
    var after := [Sym(')')] + (Reds(rs) + rest);
    var ts := [Sym('(')] + body + [Sym(')')] + Reds(rs) + rest;
    assert ts == [Sym('(')] + (body + after);
    assert ts[1..] == body + after && after[1..] == Reds(rs) + rest;
    RedsParse(t, rs, rest);
  }

  /** Every call below either goes to a part of the tree or comes closer to one. */
  function Rank(t: Tree, level: nat): nat
    requires level <= 3
  {
    if Level(t) < level then 9 - level else 4 - level
  }

  /** A command that binds as tight as a word, with redirections after it. */
  lemma {:induction false} PrintedExec(t: Tree, rs: seq<RedirTo>, rest: Tokens)
    requires Fits(t) && Stops(rest, 3)
    ensures ParseExec(Print(t, 3) + Reds(rs) + rest) == Parsed(Wrap(t, rs), rest)
    decreases t, Rank(t, 3)
  {
    hide ParseExec, ParseLine, Stops;
    match t
    case Exec(argv) => ExecParse(argv, rs, rest);
    case Redir(c, file, dir) =>
      var rs' := [RedirTo(file, dir)] + rs;
      PrintedExec(c, rs', rest);
      assert rs'[1..] == rs;
      assert Print(t, 3) + Reds(rs) + rest == Print(c, 3) + Reds(rs') + rest;
    case _ =>
      assert Stops([Sym(')')] + (Reds(rs) + rest), 0) by { CloseStops(Reds(rs) + rest); }
      PrintedLine(t, [Sym(')')] + (Reds(rs) + rest));
      GroupParse(t, Body(t), rs, rest);
  }

  lemma {:induction false} CloseStops(rest: Tokens)
    ensures Stops([Sym(')')] + rest, 0)
  {
  }

  lemma {:induction false} PrintedPipe(t: Tree, rest: Tokens)
    requires Fits(t) && Stops(rest, 2)
    ensures ParsePipe(Print(t, 2) + rest) == Parsed(t, rest)
    decreases t, Rank(t, 2)
  {
    if t.Pipe? {
      var after := [Sym('|')] + (Print(t.right, 2) + rest);
      assert Print(t, 2) + rest == Print(t.left, 3) + Reds([]) + after;
      PrintedExec(t.left, [], after);
      assert after[1..] == Print(t.right, 2) + rest;
      PrintedPipe(t.right, rest);
    } else {
      assert Print(t, 2) + rest == Print(t, 3) + Reds([]) + rest;
      PrintedExec(t, [], rest);
    }
  }

  function Amps(k: nat): Tokens { if k == 0 then [] else [Sym('&')] + Amps(k - 1) }
  function BackN(t: Tree, k: nat): Tree
    decreases k
  {
    if k == 0 then t else BackN(Back(t), k - 1)
  }

  lemma {:induction false} AmpsParse(t: Tree, k: nat, rest: Tokens)
    requires Stops(rest, 1)
    ensures Backs(t, Amps(k) + rest) == Parsed(BackN(t, k), rest)
    decreases k
  {
    if k == 0 {
      assert Amps(k) + rest == rest;
    } else {
      assert (Amps(k) + rest)[1..] == Amps(k - 1) + rest;
      AmpsParse(Back(t), k - 1, rest);
    }
  }

  lemma {:induction false} PrintedBacks(t: Tree, k: nat, rest: Tokens)
    requires Fits(t) && Stops(rest, 1)
    ensures ParseBacks(Print(t, 1) + Amps(k) + rest) == Parsed(BackN(t, k), rest)
    decreases t, Rank(t, 1)
  {
    if t.Back? {
      assert Print(t, 1) + Amps(k) + rest == Print(t.cmd, 1) + Amps(k + 1) + rest;
      PrintedBacks(t.cmd, k + 1, rest);
    } else {
      var after := Amps(k) + rest;
      assert Print(t, 1) + Amps(k) + rest == Print(t, 2) + after;
      AmpsStop(k, rest);
      hide ParsePipe, Print, Stops, Amps;
      PrintedPipe(t, after);
      AmpsParse(t, k, rest);
    }
  }

  lemma {:induction false} AmpsStop(k: nat, rest: Tokens)
    requires Stops(rest, 1)
    ensures Stops(Amps(k) + rest, 2)
  {
  }

  lemma {:induction false} PrintedLine(t: Tree, rest: Tokens)
    requires Fits(t) && Stops(rest, 0)
    ensures ParseLine(Print(t, 0) + rest) == Parsed(t, rest)
    decreases t, Rank(t, 0)
  {
    if t.List? {
      var after := [Sym(';')] + (Print(t.right, 0) + rest);
      assert Print(t, 0) + rest == Print(t.left, 1) + Amps(0) + after;
      PrintedBacks(t.left, 0, after);
      assert after[1..] == Print(t.right, 0) + rest;
      PrintedLine(t.right, rest);
    } else {
      assert Print(t, 0) + rest == Print(t, 1) + Amps(0) + rest;
      PrintedBacks(t, 0, rest);
    }
  }

  // ---- Printing what was parsed -------------------------------------------------------

  lemma {:induction false} AddArgFits(t: Tree, w: string)
    requires Fits(t) && Argc(t) + 1 < MAXARGS
    ensures Fits(AddArg(t, w))
  {
    match t
    case Redir(c, _, _) => AddArgFits(c, w);
    case _ =>
  }

  lemma {:induction false} RedirsFits(t: Tree, ts: Tokens)
    requires Fits(t)
    ensures Redirs(t, ts).Parsed? ==> Fits(Redirs(t, ts).cmd)
    decreases |ts|
  {
    if Starts(ts, {'<', '>', '+'}) && |ts| >= 2 && ts[1].Word? {
      RedirsFits(Redir(t, ts[1].w, DirOf(ts[0].c)), ts[2..]);
    }
  }

  lemma {:induction false} ArgsFits(t: Tree, ts: Tokens)
    requires Fits(t)
    ensures Args(t, ts).Parsed? ==> Fits(Args(t, ts).cmd)
    decreases |ts|
  {
    if ts != [] && ts[0].Word? && Argc(t) + 1 < MAXARGS {
      AddArgFits(t, ts[0].w);
      var r := Redirs(AddArg(t, ts[0].w), ts[1..]);
      RedirsFits(AddArg(t, ts[0].w), ts[1..]);
      if r.Parsed? {
        ArgsFits(r.cmd, r.rest);
      }
    }
  }

  lemma {:induction false} ExecFits(ts: Tokens)
    ensures ParseExec(ts).Parsed? ==> Fits(ParseExec(ts).cmd)
    decreases |ts|, 1
  {
    if Starts(ts, {'('}) {
      var r := ParseLine(ts[1..]);
      LineFits(ts[1..]);
      if r.Parsed? && Starts(r.rest, {')'}) {
        RedirsFits(r.cmd, r.rest[1..]);
      }
    } else {
      var r := Redirs(Exec([]), ts);
      RedirsFits(Exec([]), ts);
      if r.Parsed? {
        ArgsFits(r.cmd, r.rest);
      }
    }
  }

  lemma {:induction false} PipeFits(ts: Tokens)
    ensures ParsePipe(ts).Parsed? ==> Fits(ParsePipe(ts).cmd)
    decreases |ts|, 2
  {
    var r := ParseExec(ts);
    ExecFits(ts);
    if r.Parsed? && Starts(r.rest, {'|'}) {
      PipeFits(r.rest[1..]);
    }
  }

  lemma {:induction false} BacksFits(t: Tree, ts: Tokens)
    requires Fits(t)
    ensures Fits(Backs(t, ts).cmd)
    decreases |ts|
  {
    if Starts(ts, {'&'}) {
      BacksFits(Back(t), ts[1..]);
    }
  }

  lemma {:induction false} LineFits(ts: Tokens)
    ensures ParseLine(ts).Parsed? ==> Fits(ParseLine(ts).cmd)
    decreases |ts|, 4
  {
    hide Backs;
    var r := ParsePipe(ts);
    PipeFits(ts);
    if r.Parsed? {
      BacksFits(r.cmd, r.rest);
      var r' := Backs(r.cmd, r.rest);
      if Starts(r'.rest, {';'}) {
        LineFits(r'.rest[1..]);
      }
    }
  }

  /** Printing settles a command: any line the parser accepts prints to one that parses the same. */
  lemma {:induction false} Reprinted(ts: Tokens)
    requires ParseLine(ts).Parsed? && ParseLine(ts).rest == []
    ensures ParseLine(Print(ParseLine(ts).cmd, 0)) == ParseLine(ts)
  {
    var t := ParseLine(ts).cmd;
    LineFits(ts);
    PrintedLine(t, []);
    assert Print(t, 0) + [] == Print(t, 0);
  }
}
