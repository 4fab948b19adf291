/** gettoken of sh.c, as a function from text to tokens, and its inverse. */
module ShLexer {
  import opened ShGrammar

  predicate Space(c: char) { c in {' ', '\t', '\r', '\n', '\U{0B}'} }
  predicate Symbol(c: char) { c in {'<', '|', '>', '&', ';', '(', ')'} }
  predicate WordChar(c: char) { !Space(c) && !Symbol(c) }

  function WordLen(s: string): (n: nat)
    ensures n <= |s| && (forall k | 0 <= k < n :: WordChar(s[k])) && (n < |s| ==> !WordChar(s[n]))
  {
    if s == "" || !WordChar(s[0]) then 0 else 1 + WordLen(s[1..])
  }

  function Lex(s: string): Tokens
    decreases |s|
  {
    if s == "" then []
    else if Space(s[0]) then Lex(s[1..])
    else if Symbol(s[0]) then
      if s[0] == '>' && |s| > 1 && s[1] == '>' then [Sym('+')] + Lex(s[2..]) else [Sym(s[0])] + Lex(s[1..])
    else [Word(s[..WordLen(s)])] + Lex(s[WordLen(s)..])
  }

  /** The whole of parsecmd, up to nulterminate. */
  function Parse(s: string): (r: Result) {
    match ParseLine(Lex(s))
    case Bad => Bad
    case Parsed(cmd, rest) => if rest == [] then Parsed(cmd, rest) else Bad
  }

  // ---- Writing tokens out --------------------------------------------------------------

  predicate Legal(t: Token) {
    match t
    case Word(w) => w != "" && forall k | 0 <= k < |w| :: WordChar(w[k])
    case Sym(c) => Symbol(c) || c == '+'
  }

  function Text(t: Token): string { match t case Word(w) => w case Sym(c) => if c == '+' then ">>" else [c] }

  function Render(ts: Tokens): string { if ts == [] then "" else Text(ts[0]) + " " + Render(ts[1..]) }

  lemma {:induction false} WordLenOf(w: string, s: string)
    requires Legal(Word(w)) && s != "" && !WordChar(s[0])
    ensures WordLen(w + s) == |w|
  {
    assert (w + s)[|w|] == s[0];
  }

  lemma {:induction false} LexText(t: Token, s: string)
    requires Legal(t)
    ensures Lex(Text(t) + " " + s) == [t] + Lex(s)
  {
    var all := Text(t) + " " + s;
    var tail := " " + s;
    assert all == Text(t) + tail;
    assert tail[1..] == s;
    if t.Word? {
      WordLenOf(t.w, tail);
      assert all[..|t.w|] == t.w && all[|t.w|..] == tail && all[0] == t.w[0];
    } else if t.c == '+' {
      assert all[2..] == tail;
    } else {
      assert all[1..] == tail;
    }
  }

  lemma {:induction false} LexRender(ts: Tokens)
    requires forall k | 0 <= k < |ts| :: Legal(ts[k])
    ensures Lex(Render(ts)) == ts
  {
    if ts != [] {
      LexText(ts[0], Render(ts[1..]));
      LexRender(ts[1..]);
    }
  }

  // ---- The round trip -----------------------------------------------------------------

  /** Every word could be typed, and no command has too many. */
  predicate LegalTree(t: Tree) {
    match t
    case Exec(argv) => |argv| < MAXARGS && forall k | 0 <= k < |argv| :: Legal(Word(argv[k]))
    case Redir(c, file, _) => LegalTree(c) && Legal(Word(file))
    case Pipe(l, r) => LegalTree(l) && LegalTree(r)
    case List(l, r) => LegalTree(l) && LegalTree(r)
    case Back(c) => LegalTree(c)
  }

  ghost predicate AllLegal(ts: Tokens) { forall k | 0 <= k < |ts| :: Legal(ts[k]) }

  lemma {:induction false} WordsLegal(ws: seq<string>)
    requires forall k | 0 <= k < |ws| :: Legal(Word(ws[k]))
    ensures AllLegal(Words(ws))
  {
    if ws != [] {
      WordsLegal(ws[1..]);
    }
  }

  lemma {:induction false} JoinLegal(a: Tokens, b: Tokens)
    requires AllLegal(a) && AllLegal(b)
    ensures AllLegal(a + b)
  {
  }

  lemma {:induction false} SymLegal(c: char)
    requires Symbol(c)
    ensures AllLegal([Sym(c)])
  {
  }

  lemma {:induction false} RedirLegal(file: string, dir: Dir)
    requires Legal(Word(file))
    ensures AllLegal(RedirTokens(file, dir))
  {
  }

  lemma {:induction false} BodyLegal(t: Tree)
    requires LegalTree(t)
    ensures Fits(t) && AllLegal(Body(t))
    decreases t, 0
  {
    hide AllLegal, RedirTokens, Legal, Print;
    match t
    case Exec(argv) => WordsLegal(argv);
    case Redir(c, file, dir) =>
      PrintLegal(c, 3);
      RedirLegal(file, dir);
      JoinLegal(Print(c, 3), RedirTokens(file, dir));
    case Pipe(l, r) =>
      PrintLegal(l, 3);
      PrintLegal(r, 2);
      SymLegal('|');
      JoinLegal(Print(l, 3), [Sym('|')]);
      JoinLegal(Print(l, 3) + [Sym('|')], Print(r, 2));
    case List(l, r) =>
      PrintLegal(l, 1);
      PrintLegal(r, 0);
      SymLegal(';');
      JoinLegal(Print(l, 1), [Sym(';')]);
      JoinLegal(Print(l, 1) + [Sym(';')], Print(r, 0));
    case Back(c) =>
      PrintLegal(c, 1);
      SymLegal('&');
      JoinLegal(Print(c, 1), [Sym('&')]);
  }

  lemma {:induction false} PrintLegal(t: Tree, level: nat)
    requires LegalTree(t)
    ensures Fits(t) && AllLegal(Print(t, level))
    decreases t, 1
  {
    hide AllLegal, Body, LegalTree, Fits;
    BodyLegal(t);
    SymLegal('(');
    SymLegal(')');
    JoinLegal([Sym('(')], Body(t));
    JoinLegal([Sym('(')] + Body(t), [Sym(')')]);
  }

  /** Printing a tree and parsing the text gives back the tree. */
  lemma {:induction false} RoundTrip(t: Tree)
    requires LegalTree(t)
    ensures Parse(Render(Print(t, 0))) == Parsed(t, [])
  {
    PrintLegal(t, 0);
    LexRender(Print(t, 0));
    PrintedLine(t, []);
    assert Print(t, 0) + [] == Print(t, 0);
  }

  /** >> is taken for >: both give the same tree. */
  lemma {:induction false} AppendIsWrite(w: string, f: string)
    requires Legal(Word(w)) && Legal(Word(f))
    ensures Parse(Render([Word(w), Sym('+'), Word(f)])) == Parse(Render([Word(w), Sym('>'), Word(f)]))
    ensures Parse(Render([Word(w), Sym('+'), Word(f)])) == Parsed(Redir(Exec([w]), f, Out), [])
  {
    var a, b := [Word(w), Sym('+'), Word(f)], [Word(w), Sym('>'), Word(f)];
    LexRender(a);
    LexRender(b);
    assert a[1..][2..] == [] && b[1..][2..] == [] && [] + [w] == [w];
    var c := Redir(Exec([w]), f, Out);
    assert Redirs(c, []) == Parsed(c, []);
    assert Redirs(Exec([w]), a[1..]) == Parsed(c, []) && Redirs(Exec([w]), b[1..]) == Parsed(c, []);
    assert Args(Exec([]), a) == Parsed(c, []) && Args(Exec([]), b) == Parsed(c, []);
    assert ParsePipe(a) == Parsed(c, []) && ParsePipe(b) == Parsed(c, []);
    assert Backs(c, []) == Parsed(c, []);
    assert ParseLine(a) == Parsed(c, []) && ParseLine(b) == Parsed(c, []);
  }
}
