/** What a line of text says, apart from the scanner: tokens with blanks between them. The
    scanner reads a text as exactly the tokens it was written from, so the parser accepts
    exactly the writings of the grammar's lines. */
module ShText {
  import opened ShGrammar
  import opened ShLexer
  import opened ShSyntax

  datatype Script = End(gap: string) | Next(gap: string, token: Token, more: Script)

  function Written(s: Script): string {
    match s case End(gap) => gap case Next(gap, t, more) => gap + (Text(t) + Written(more))
  }

  function TokensOf(s: Script): Tokens {
    match s case End(_) => [] case Next(_, t, more) => [t] + TokensOf(more)
  }

  predicate Blank(gap: string) { forall k | 0 <= k < |gap| :: gap[k] in {' ', '\t', '\r', '\n', '\U{0B}'} }

  predicate Plain(c: char) { c !in {' ', '\t', '\r', '\n', '\U{0B}', '<', '|', '>', '&', ';', '(', ')'} }

  predicate Typed(t: Token) {
    match t
    case Word(w) => w != "" && forall k | 0 <= k < |w| :: Plain(w[k])
    case Sym(c) => c in {'<', '|', '>', '&', ';', '(', ')', '+'}
  }

  /** Two tokens that would run into one have a blank between them. */
  predicate Apart(t: Token, more: Script) {
    more.gap != "" || more.End? ||
    match t
    case Word(_) => more.token.Sym?
    case Sym(c) => c == '>' ==> more.token.Word? || more.token.c !in {'>', '+'}
  }

  predicate GoodScript(s: Script) {
    Blank(s.gap) && (s.Next? ==> Typed(s.token) && Apart(s.token, s.more) && GoodScript(s.more))
  }

  lemma {:induction false} CharKinds(c: char)
    ensures Plain(c) == WordChar(c) && (Space(c) <==> c in {' ', '\t', '\r', '\n', '\U{0B}'})
    ensures Symbol(c) <==> c in {'<', '|', '>', '&', ';', '(', ')'}
  {
  }

  // ---- What is written is read ------------------------------------------------------------

  /** Blanks in front change nothing. */
  lemma {:induction false} LexBlank(gap: string, s: string)
    requires Blank(gap)
    ensures Lex(gap + s) == Lex(s)
  {
    if gap == "" {
      assert gap + s == s;
    } else {
      assert (gap + s)[1..] == gap[1..] + s;
      LexBlank(gap[1..], s);
    }
  }

  /** What may come right after a token in the text. */
  predicate Cut(t: Token, s: string) {
    s == "" || match t case Word(_) => !WordChar(s[0]) case Sym(c) => c == '>' ==> s[0] != '>'
  }

  lemma {:induction false} WordStops(w: string, s: string)
    requires Typed(Word(w)) && Cut(Word(w), s)
    ensures WordLen(w + s) == |w|
  {
    forall k | 0 <= k < |w| ensures WordChar((w + s)[k]) {
      CharKinds(w[k]);
    }
    if s != "" {
      assert (w + s)[|w|] == s[0];
    }
  }

  lemma {:induction false} LexToken(t: Token, s: string)
    requires Typed(t) && Cut(t, s)
    ensures Lex(Text(t) + s) == [t] + Lex(s)
  {
    var all := Text(t) + s;
    match t
    case Word(w) =>
      WordStops(w, s);
      CharKinds(w[0]);
      assert all[..|w|] == w && all[|w|..] == s && all[0] == w[0];
    case Sym(c) =>
      assert all[0] == Text(t)[0] && all[|Text(t)|..] == s;
      CharKinds(all[0]);
      assert |all| > 1 && c != '+' ==> all[1] == s[0];
  }

  /** Tokens that are apart are cut where the next one starts. */
  lemma {:induction false} ApartCut(t: Token, more: Script)
    requires Typed(t) && Apart(t, more) && GoodScript(more)
    ensures Cut(t, Written(more))
  {
    var s := Written(more);
    if more.gap != "" {
      assert s[0] == more.gap[0];
    } else if more.Next? {
      assert s == Text(more.token) + Written(more.more) && s[0] == Text(more.token)[0];
    }
  }

  lemma {:induction false} WrittenRead(s: Script)
    requires GoodScript(s)
    ensures Lex(Written(s)) == TokensOf(s)
    decreases s
  {
    hide Lex, Blank, Typed, Apart, Cut;
    match s
    case End(gap) =>
      assert gap + "" == gap;
      LexBlank(gap, "");
      LexNothing();
    case Next(gap, t, more) =>
      LexBlank(gap, Text(t) + Written(more));
      ApartCut(t, more);
      LexToken(t, Written(more));
      WrittenRead(more);
  }

  lemma {:induction false} LexNothing()
    ensures Lex("") == []
  {
  }

  // ---- What is read was written -----------------------------------------------------------

  /** The first token of a text that starts with none of the blanks. */
  function First(s: string): (t: Token)
    requires s != "" && !Space(s[0])
  {
    if !Symbol(s[0]) then Word(s[..WordLen(s)])
    else if s[0] == '>' && |s| > 1 && s[1] == '>' then Sym('+')
    else Sym(s[0])
  }

  lemma {:induction false} FirstRead(s: string)
    requires s != "" && !Space(s[0])
    ensures var t := First(s);
            var n := |Text(t)|;
            Typed(t) && 0 < n <= |s| && s == Text(t) + s[n..] && Cut(t, s[n..]) && Lex(s) == [t] + Lex(s[n..])
  {
    var t := First(s);
    CharKinds(s[0]);
    if t.Word? {
      forall k | 0 <= k < |t.w| ensures Plain(t.w[k]) {
        CharKinds(s[k]);
      }
    }
  }

  /** Cut where the next token starts, they are apart. */
  lemma {:induction false} CutApart(t: Token, more: Script)
    requires Typed(t) && GoodScript(more) && Cut(t, Written(more))
    ensures Apart(t, more)
  {
    if more.gap == "" && more.Next? {
      var s := Written(more);
      assert s == Text(more.token) + Written(more.more) && s[0] == Text(more.token)[0];
      if more.token.Word? {
        CharKinds(more.token.w[0]);
      }
    }
  }

  lemma {:induction false} ReadWritten(s: string) returns (r: Script)
    ensures GoodScript(r) && Written(r) == s && TokensOf(r) == Lex(s)
    decreases |s|
  {
    if s == "" {
      r := End("");
    } else if Space(s[0]) {
      CharKinds(s[0]);
      r := ReadWritten(s[1..]);
      var c, r' := [s[0]], r;
      r := r'.(gap := c + r'.gap);
      Blanker(c, r');
    } else {
      hide Lex, Typed, Cut, Apart, First;
      FirstRead(s);
      var t := First(s);
      var more := ReadWritten(s[|Text(t)|..]);
      CutApart(t, more);
      r := Next("", t, more);
    }
  }

  lemma {:induction false} Blanker(c: string, r: Script)
    requires Blank(c) && GoodScript(r)
    ensures var r' := r.(gap := c + r.gap);
            GoodScript(r') && Written(r') == c + Written(r) && TokensOf(r') == TokensOf(r)
  {
    if r.Next? {
      assert c + r.gap + (Text(r.token) + Written(r.more)) == c + (r.gap + (Text(r.token) + Written(r.more)));
    }
  }

  /** A text is read as `ts` exactly if it is a writing of them. */
  lemma {:induction false} ReadsExactly(s: string, ts: Tokens)
    ensures Lex(s) == ts <==> exists r :: GoodScript(r) && Written(r) == s && TokensOf(r) == ts
  {
    hide Lex, GoodScript, Written, TokensOf;
    var r := ReadWritten(s);
    forall r | GoodScript(r) && Written(r) == s && TokensOf(r) == ts ensures Lex(s) == ts {
      WrittenRead(r);
    }
  }

  /** `s` is a writing of a spelling of syntax that means `t`. */
  ghost predicate Says(s: string, t: Tree) {
    exists r, g :: GoodScript(r) && Written(r) == s && Good(g, 0) && Spell(g) == TokensOf(r) && Meaning(g) == t
  }

  /** A text is accepted as command `t` exactly if that is what it says. */
  lemma {:induction false} ParsesExactly(s: string, t: Tree)
    ensures Parse(s) == Parsed(t, []) <==> Says(s, t)
  {
    hide Lex, GoodScript, Written, TokensOf, ParseLine, Good, Spell, Meaning;
    var ts := Lex(s);
    if Parse(s) == Parsed(t, []) {
      var r := ReadWritten(s);
      var g := LineOnly(ts);
      assert Spell(g) == Spell(g) + [] == TokensOf(r);
    }
    forall r, g | GoodScript(r) && Written(r) == s && Good(g, 0) && Spell(g) == TokensOf(r) && Meaning(g) == t
      ensures Parse(s) == Parsed(t, []) {
      WrittenRead(r);
      LineAccepted(g, []);
      assert ts + [] == ts;
    }
  }
}
