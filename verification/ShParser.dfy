/** sh.c's parser as it runs: a cursor into the line, trees whose words are stretches of the
    line, and nulterminate writing into it. */
module ShParser {
  import opened Basics
  import opened ShGrammar
  import opened ShLexer
  import ShText

  const NUL: char := '\0'

  /** What argv[i] and eargv[i] point to. */
  datatype Span = Span(q: nat, eq: nat)
  type SpanTree = Cmd<Span>

  /** `sp` is a whole word of `s`. */
  predicate WordAt(s: string, sp: Span) {
    && sp.q < sp.eq <= |s| && (forall k | sp.q <= k < sp.eq :: WordChar(s[k]))
    && (sp.eq < |s| ==> !WordChar(s[sp.eq]))
  }

  predicate Spanned(s: string, t: SpanTree) {
    match t
    case Exec(argv) => forall k | 0 <= k < |argv| :: WordAt(s, argv[k])
    case Redir(c, file, _) => Spanned(s, c) && WordAt(s, file)
    case Pipe(l, r) => Spanned(s, l) && Spanned(s, r)
    case List(l, r) => Spanned(s, l) && Spanned(s, r)
    case Back(c) => Spanned(s, c)
  }

  function TextAt(s: string, sp: Span): string
    requires WordAt(s, sp)
  {
    s[sp.q..sp.eq]
  }

  function WordsOf(s: string, argv: seq<Span>): (r: seq<string>)
    requires forall k | 0 <= k < |argv| :: WordAt(s, argv[k])
    ensures |r| == |argv| && forall k | 0 <= k < |argv| :: r[k] == TextAt(s, argv[k])
  {
    seq(|argv|, k requires 0 <= k < |argv| => TextAt(s, argv[k]))
  }

  /** The tree with each stretch replaced by its text. */
  function TreeOf(s: string, t: SpanTree): Tree
    requires Spanned(s, t)
  {
    match t
    case Exec(argv) => Exec(WordsOf(s, argv))
    case Redir(c, file, dir) => Redir(TreeOf(s, c), TextAt(s, file), dir)
    case Pipe(l, r) => Pipe(TreeOf(s, l), TreeOf(s, r))
    case List(l, r) => List(TreeOf(s, l), TreeOf(s, r))
    case Back(c) => Back(TreeOf(s, c))
  }

  /** What the parser has, at `pos`, is what the grammar gives. */
  ghost predicate Agrees(s: string, pos: nat, r: Option<SpanTree>, spec: Result)
    requires pos <= |s|
  {
    match spec
    case Bad => r.None?
    case Parsed(cmd, rest) => r.Some? && Spanned(s, r.value) && TreeOf(s, r.value) == cmd && Lex(s[pos..]) == rest
  }

  lemma {:induction false} LexEnd(s: string)
    ensures Lex(s[|s|..]) == []
  {
    assert s[|s|..] == "";
  }

  lemma {:induction false} LexSymbol(s: string, q: nat)
    requires q < |s| && Symbol(s[q]) && s[q] != '>'
    ensures Lex(s[q..]) == [Sym(s[q])] + Lex(s[q + 1..])
  {
    assert s[q..][1..] == s[q + 1..];
  }

  /** `>>` is one token. */
  lemma {:induction false} LexGreater(s: string, q: nat)
    requires q < |s| && s[q] == '>'
    ensures Lex(s[q..]) ==
            if q + 1 < |s| && s[q + 1] == '>' then [Sym('+')] + Lex(s[q + 2..]) else [Sym('>')] + Lex(s[q + 1..])
  {
    assert s[q..][1..] == s[q + 1..];
    if q + 1 < |s| && s[q + 1] == '>' {
      assert s[q..][2..] == s[q + 2..];
    }
  }

  lemma {:induction false} LexWord(s: string, sp: Span)
    requires WordAt(s, sp)
    ensures Lex(s[sp.q..]) == [Word(TextAt(s, sp))] + Lex(s[sp.eq..])
  {
    var here, n := s[sp.q..], sp.eq - sp.q;
    WordLenIs(here, n);
    assert here[..n] == s[sp.q..sp.eq] && here[n..] == s[sp.eq..];
  }

  class Parser {
    const s: string
    var pos: nat

    /** Over a C string. */
    constructor (s: string)
      requires NUL !in s
      ensures this.s == s && pos == 0
    {
      this.s, pos := s, 0;
    }

    method SkipSpace()
      requires pos <= |s|
      modifies this`pos
      ensures old(pos) <= pos <= |s| && Lex(s[pos..]) == Lex(s[old(pos)..]) && (pos < |s| ==> !Space(s[pos]))
    {
      while pos < |s| && Space(s[pos])
        invariant old(pos) <= pos <= |s| && Lex(s[pos..]) == Lex(s[old(pos)..])
      {
        assert s[pos..][1..] == s[pos + 1..];
        pos := pos + 1;
      }
    }

    /** The next token, and where it lies. */
    method GetToken() returns (ret: char, sp: Span)
      requires pos <= |s|
      modifies this`pos
      ensures old(pos) <= pos <= |s|
      ensures var ts := Lex(s[old(pos)..]);
              if ts == [] then ret == NUL && Lex(s[pos..]) == []
              else pos > old(pos) && Lex(s[pos..]) == ts[1..] &&
                   match ts[0]
                   case Sym(c) => ret == c && ret != 'a' && ret != NUL
                   case Word(w) => ret == 'a' && WordAt(s, sp) && TextAt(s, sp) == w
    {
      hide Lex;
      SkipSpace();
      var q := pos;
      if pos == |s| {
        LexEnd(s);
        return NUL, Span(q, q);
      }
      if s[pos] in {'|', '(', ')', ';', '&', '<'} {
        LexSymbol(s, q);
        ret := s[pos];
        pos := pos + 1;
      } else if s[pos] == '>' {
        LexGreater(s, q);
        ret := '>';
        pos := pos + 1;
        if pos < |s| && s[pos] == '>' {
          ret := '+';
          pos := pos + 1;
        }
      } else {
        ret := 'a';
        while pos < |s| && !Space(s[pos]) && !Symbol(s[pos])
          invariant q <= pos <= |s| && forall k | q <= k < pos :: WordChar(s[k])
        {
          pos := pos + 1;
        }
        LexWord(s, Span(q, pos));
      }
      sp := Span(q, pos);
      SkipSpace();
    }

    /** Whether the next token begins with one of `toks`. */
    method Peek(toks: set<char>) returns (b: bool)
      requires pos <= |s| && forall c | c in toks :: Symbol(c)
      modifies this`pos
      ensures old(pos) <= pos <= |s| && Lex(s[pos..]) == Lex(s[old(pos)..])
      ensures b == Starts(Lex(s[pos..]), toks + if '>' in toks then {'+'} else {})
      ensures Lex(s[pos..]) == [] ==> pos == |s|
    {
      SkipSpace();
      b := pos < |s| && s[pos] in toks;
    }

    /** The command the text says, or the panic if it says none. */
    method ParseCmd() returns (r: Option<SpanTree>)
      requires pos == 0
      modifies this`pos
      ensures match Parse(s)
              case Bad => r.None?
              case Parsed(cmd, _) => r.Some? && Spanned(s, r.value) && TreeOf(s, r.value) == cmd
      ensures r.Some? ==> ShText.Says(s, TreeOf(s, r.value))
      ensures r.None? ==> forall t :: !ShText.Says(s, t)
    {
      forall t ensures Parse(s) == Parsed(t, []) <==> ShText.Says(s, t) {
        ShText.ParsesExactly(s, t);
      }
      hide ParseLine, Lex, Spanned, TreeOf, ShText.Says;
      assert s[0..] == s;
      r := Line();
      if r.None? {
        return;
      }
      assert s[|s|..] == "";
      EmptyLex();
      var b := Peek({});
      if pos != |s| {
        r := None;
      }
    }

    method Line() returns (r: Option<SpanTree>)
      requires pos <= |s|
      modifies this`pos
      ensures old(pos) <= pos <= |s| && Agrees(s, pos, r, ParseLine(Lex(s[old(pos)..])))
      decreases |s| - pos, 4
    {
      hide Lex, ParsePipe, Spanned, TreeOf;
      ghost var ts := Lex(s[pos..]);
      r := Pipeline();
      if r.None? {
        return;
      }
      var cmd := r.value;
      ghost var first := ParsePipe(ts);
      var b := Peek({'&'});
      while b
        invariant old(pos) <= pos <= |s| && Spanned(s, cmd) && b == Starts(Lex(s[pos..]), {'&'})
        invariant Backs(TreeOf(s, cmd), Lex(s[pos..])) == Backs(first.cmd, first.rest)
        decreases |s| - pos
      {
        var tok, sp := GetToken();
        BackOf(s, cmd);
        cmd := Back(cmd);
        b := Peek({'&'});
      }
      b := Peek({';'});
      if b {
        var tok, sp := GetToken();
        var right := Line();
        if right.None? {
          return None;
        }
        PairOf(s, cmd, right.value);
        cmd := List(cmd, right.value);
      }
      r := Some(cmd);
    }

    method Pipeline() returns (r: Option<SpanTree>)
      requires pos <= |s|
      modifies this`pos
      ensures old(pos) <= pos <= |s| && Agrees(s, pos, r, ParsePipe(Lex(s[old(pos)..])))
      decreases |s| - pos, 2
    {
      hide Lex, ParseExec, Spanned, TreeOf;
      r := Command();
      if r.None? {
        return;
      }
      var b := Peek({'|'});
      if b {
        var tok, sp := GetToken();
        var right := Pipeline();
        if right.None? {
          return None;
        }
        PairOf(s, r.value, right.value);
        r := Some(Pipe(r.value, right.value));
      }
    }

    method Redirections(cmd0: SpanTree) returns (r: Option<SpanTree>)
      requires pos <= |s| && Spanned(s, cmd0)
      modifies this`pos
      ensures old(pos) <= pos <= |s| && Agrees(s, pos, r, Redirs(TreeOf(s, cmd0), Lex(s[old(pos)..])))
    {
      hide Lex, Spanned, TreeOf;
      var cmd := cmd0;
      ghost var spec := Redirs(TreeOf(s, cmd0), Lex(s[pos..]));
      var b := Peek({'<', '>'});
      while b
        invariant old(pos) <= pos <= |s| && Spanned(s, cmd) && b == Starts(Lex(s[pos..]), {'<', '>', '+'})
        invariant Redirs(TreeOf(s, cmd), Lex(s[pos..])) == spec
        decreases |s| - pos
      {
        ghost var ts := Lex(s[pos..]);
        var tok, sp0 := GetToken();
        var kind, sp := GetToken();
        assert |ts| >= 2 ==> ts[1..][0] == ts[1] && ts[1..][1..] == ts[2..];
        if kind != 'a' {
          return None;
        }
        RedirOf(s, cmd, sp, DirOf(tok));
        cmd := Redir(cmd, sp, if tok == '<' then In else Out);
        b := Peek({'<', '>'});
      }
      r := Some(cmd);
    }

    method Block() returns (r: Option<SpanTree>)
      requires pos <= |s| && Starts(Lex(s[pos..]), {'('})
      modifies this`pos
      ensures old(pos) <= pos <= |s| && Agrees(s, pos, r, ParseExec(Lex(s[old(pos)..])))
      decreases |s| - pos, 0
    {
      hide Lex, Redirs, ParseLine, Spanned, TreeOf;
      var b := Peek({'('});
      var tok, sp := GetToken();
      r := Line();
      if r.None? {
        return;
      }
      b := Peek({')'});
      if !b {
        return None;
      }
      tok, sp := GetToken();
      r := Redirections(r.value);
    }

    method Command() returns (r: Option<SpanTree>)
      requires pos <= |s|
      modifies this`pos
      ensures old(pos) <= pos <= |s| && Agrees(s, pos, r, ParseExec(Lex(s[old(pos)..])))
      decreases |s| - pos, 1
    {
      hide Lex, Redirs, ParseLine, AddArg, Argc;
      var b := Peek({'('});
      if b {
        r := Block();
        return;
      }
      ghost var spec := ParseExec(Lex(s[pos..]));
      r := Redirections(Exec([]));
      assert WordsOf(s, []) == [];
      if r.None? {
        return;
      }
      hide Spanned, TreeOf;
      var ret := r.value;
      b := Peek({'|', ')', '&', ';'});
      while !b
        invariant old(pos) <= pos <= |s| && Spanned(s, ret) && b == Starts(Lex(s[pos..]), {'|', ')', '&', ';'})
        invariant Args(TreeOf(s, ret), Lex(s[pos..])) == spec
        decreases |s| - pos
      {
        var tok, sp := GetToken();
        if tok == NUL {
          break;
        }
        if tok != 'a' {
          return None;
        }
        ArgOf(s, ret, sp);
        if Argc(ret) + 1 >= MAXARGS {
          return None;
        }
        r := Redirections(AddArg(ret, sp));
        if r.None? {
          return;
        }
        ret := r.value;
        b := Peek({'|', ')', '&', ';'});
      }
      r := Some(ret);
    }
  }

  lemma {:induction false} EmptyLex()
    ensures Lex("") == []
  {
  }

  lemma {:induction false} WordLenIs(s: string, n: nat)
    requires n <= |s| && (forall k | 0 <= k < n :: WordChar(s[k])) && (n < |s| ==> !WordChar(s[n]))
    ensures WordLen(s) == n
  {
  }

  lemma {:induction false} BackOf(s: string, t: SpanTree)
    requires Spanned(s, t)
    ensures Spanned(s, Back(t)) && TreeOf(s, Back(t)) == Back(TreeOf(s, t))
  {
  }

  lemma {:induction false} PairOf(s: string, l: SpanTree, r: SpanTree)
    requires Spanned(s, l) && Spanned(s, r)
    ensures Spanned(s, List(l, r)) && TreeOf(s, List(l, r)) == List(TreeOf(s, l), TreeOf(s, r))
    ensures Spanned(s, Pipe(l, r)) && TreeOf(s, Pipe(l, r)) == Pipe(TreeOf(s, l), TreeOf(s, r))
  {
  }

  lemma {:induction false} RedirOf(s: string, t: SpanTree, sp: Span, dir: Dir)
    requires Spanned(s, t) && WordAt(s, sp)
    ensures Spanned(s, Redir(t, sp, dir)) && TreeOf(s, Redir(t, sp, dir)) == Redir(TreeOf(s, t), TextAt(s, sp), dir)
  {
  }

  lemma {:induction false} ArgOf(s: string, t: SpanTree, sp: Span)
    requires Spanned(s, t) && WordAt(s, sp)
    ensures Argc(TreeOf(s, t)) == Argc(t)
    ensures Spanned(s, AddArg(t, sp)) && TreeOf(s, AddArg(t, sp)) == AddArg(TreeOf(s, t), TextAt(s, sp))
  {
    match t
    case Exec(argv) => assert WordsOf(s, argv + [sp]) == WordsOf(s, argv) + [TextAt(s, sp)];
    case Redir(c, _, _) => ArgOf(s, c, sp);
    case _ =>
  }

  // ---- nulterminate --------------------------------------------------------------------

  function Spans(t: SpanTree): set<Span> {
    match t
    case Exec(argv) => set k | 0 <= k < |argv| :: argv[k]
    case Redir(c, file, _) => Spans(c) + {file}
    case Pipe(l, r) => Spans(l) + Spans(r)
    case List(l, r) => Spans(l) + Spans(r)
    case Back(c) => Spans(c)
  }

  /** `buf` with a NUL at the end of each of `spans`. */
  ghost predicate Cut(buf: seq<char>, buf': seq<char>, spans: set<Span>) {
    && |buf'| == |buf|
    && forall k | 0 <= k < |buf| :: buf'[k] == if exists sp :: sp in spans && sp.eq == k then NUL else buf[k]
  }

  /** The C string at `q`. */
  function CString(buf: seq<char>, q: nat): string
    requires q <= |buf|
    decreases |buf| - q
  {
    if q == |buf| || buf[q] == NUL then "" else [buf[q]] + CString(buf, q + 1)
  }

  class Line {
    var buf: seq<char>

    /** `was` is ghost, the line as it was parsed, and so is `done`, what has been cut already. */
    method NulTerminate(t: SpanTree, ghost was: seq<char>, ghost done: set<Span>)
      requires |was| > 0 && Spanned(was[..|was| - 1], t) && Cut(was, buf, done)
      modifies this`buf
      ensures Cut(was, buf, done + Spans(t))
      decreases t
    {
      match t
      case Exec(argv) =>
        var i := 0;
        ghost var cut := done;
        while i < |argv|
          invariant i <= |argv| && Cut(was, buf, cut) && cut == done + set k | 0 <= k < i :: argv[k]
        {
          CutOne(was, buf, cut, argv[i]);
          buf := buf[argv[i].eq := NUL];
          cut := cut + {argv[i]};
          i := i + 1;
        }
      case Redir(c, file, _) =>
        NulTerminate(c, was, done);
        CutOne(was, buf, done + Spans(c), file);
        buf := buf[file.eq := NUL];
        assert done + Spans(c) + {file} == done + Spans(t);
      case Pipe(l, r) =>
        NulTerminate(l, was, done);
        NulTerminate(r, was, done + Spans(l));
        assert done + Spans(l) + Spans(r) == done + Spans(t);
      case List(l, r) =>
        NulTerminate(l, was, done);
        NulTerminate(r, was, done + Spans(l));
        assert done + Spans(l) + Spans(r) == done + Spans(t);
      case Back(c) =>
        NulTerminate(c, was, done);
    }
  }

  lemma {:induction false} CutOne(buf: seq<char>, buf': seq<char>, spans: set<Span>, sp: Span)
    requires Cut(buf, buf', spans) && sp.eq < |buf|
    ensures Cut(buf, buf'[sp.eq := NUL], spans + {sp})
  {
    assert sp in spans + {sp};
  }

  lemma {:induction false} SpansAreWords(s: string, t: SpanTree, sp: Span)
    requires Spanned(s, t) && sp in Spans(t)
    ensures WordAt(s, sp)
  {
    match t
    case Exec(_) =>
    case Redir(c, file, _) => if sp != file { SpansAreWords(s, c, sp); }
    case Pipe(l, r) => if sp in Spans(l) { SpansAreWords(s, l, sp); } else { SpansAreWords(s, r, sp); }
    case List(l, r) => if sp in Spans(l) { SpansAreWords(s, l, sp); } else { SpansAreWords(s, r, sp); }
    case Back(c) => SpansAreWords(s, c, sp);
  }

  lemma {:induction false} CStringIs(buf: seq<char>, q: nat, eq: nat)
    requires q <= eq < |buf| && buf[eq] == NUL && forall k | q <= k < eq :: buf[k] != NUL
    ensures CString(buf, q) == buf[q..eq]
    decreases eq - q
  {
    if q < eq {
      CStringIs(buf, q + 1, eq);
      assert buf[q..eq] == [buf[q]] + buf[q + 1..eq];
    }
  }

  /** After nulterminate every argument and file name reads as exactly its token. */
  lemma {:induction false} WordsTerminated(s: string, t: SpanTree, buf: seq<char>, sp: Span)
    requires NUL !in s && Spanned(s, t) && sp in Spans(t) && Cut(s + [NUL], buf, Spans(t))
    ensures WordAt(s, sp) && CString(buf, sp.q) == TextAt(s, sp)
  {
    SpansAreWords(s, t, sp);
    forall k | sp.q <= k < sp.eq ensures buf[k] == s[k] {
      forall other | other in Spans(t) ensures other.eq != k {
        SpansAreWords(s, t, other);
      }
    }
    CStringIs(buf, sp.q, sp.eq);
    assert buf[sp.q..sp.eq] == s[sp.q..sp.eq];
  }
}
