/** What the shell's grammar is, apart from the parser: concrete syntax, how it is spelled in
    tokens, and the command it stands for. The parser accepts exactly the spellings, each with
    its command. */
module ShSyntax {
  import opened ShGrammar

  /** A simple command is words and redirections, in any order. */
  datatype Items = Done | Arg(w: string, more: Items) | To(c: char, file: string, more: Items)

  datatype Syntax =
    | Simple(items: Items)
    | Block(line: Syntax, items: Items)
    | Bar(left: Syntax, right: Syntax)
    | Behind(cmd: Syntax, k: nat)
    | Then(left: Syntax, right: Syntax)

  function Argv(i: Items): seq<string> {
    match i case Done => [] case Arg(w, more) => [w] + Argv(more) case To(_, _, more) => Argv(more)
  }

  function Files(i: Items): seq<RedirTo> {
    match i
    case Done => []
    case Arg(_, more) => Files(more)
    case To(c, file, more) => [RedirTo(file, if c == '<' then In else Out)] + Files(more)
  }

  function SpellItems(i: Items): Tokens {
    match i
    case Done => []
    case Arg(w, more) => [Word(w)] + SpellItems(more)
    case To(c, file, more) => [Sym(c), Word(file)] + SpellItems(more)
  }

  function Spell(s: Syntax): Tokens {
    match s
    case Simple(items) => SpellItems(items)
    case Block(line, items) => [Sym('(')] + Spell(line) + [Sym(')')] + SpellItems(items)
    case Bar(l, r) => Spell(l) + [Sym('|')] + Spell(r)
    case Behind(c, k) => Spell(c) + Amps(k)
    case Then(l, r) => Spell(l) + [Sym(';')] + Spell(r)
  }

  /** Redirections wrap the command from the inside out, wherever they stand among the words. */
  function Meaning(s: Syntax): Tree {
    match s
    case Simple(items) => Wrap(Exec(Argv(items)), Files(items))
    case Block(line, items) => Wrap(Meaning(line), Files(items))
    case Bar(l, r) => Pipe(Meaning(l), Meaning(r))
    case Behind(c, k) => BackN(Meaning(c), k)
    case Then(l, r) => List(Meaning(l), Meaning(r))
  }

  /** `>>` is the symbol '+'. */
  predicate GoodItems(i: Items) {
    match i
    case Done => true
    case Arg(_, more) => GoodItems(more)
    case To(c, _, more) => c in {'<', '>', '+'} && GoodItems(more)
  }

  /** `;` binds loosest, then `&`, then `|`; argv has room for MAXARGS - 1 words. */
  predicate Good(s: Syntax, level: nat) {
    match s
    case Simple(items) => GoodItems(items) && |Argv(items)| < MAXARGS
    case Block(line, items) => Good(line, 0) && GoodItems(items) && Argv(items) == []
    case Bar(l, r) => level <= 2 && Good(l, 3) && Good(r, 2)
    case Behind(c, k) => level <= 1 && Good(c, 2)
    case Then(l, r) => level == 0 && Good(l, 1) && Good(r, 0)
  }

  // ---- Every spelling is accepted, with its meaning --------------------------------------

  lemma {:induction false} WrapOne(t: Tree, rs: seq<RedirTo>, file: string, dir: Dir)
    ensures Redir(Wrap(t, rs), file, dir) == Wrap(t, rs + [RedirTo(file, dir)])
    decreases |rs|
  {
    var rs' := rs + [RedirTo(file, dir)];
    if rs == [] {
      assert rs'[1..] == [];
    } else {
      assert rs'[1..] == rs[1..] + [RedirTo(file, dir)];
      WrapOne(Redir(t, rs[0].file, rs[0].dir), rs[1..], file, dir);
    }
  }

  /** A word goes to the innermost command. */
  lemma {:induction false} ArgWrap(t: Tree, rs: seq<RedirTo>, w: string)
    ensures AddArg(Wrap(t, rs), w) == Wrap(AddArg(t, w), rs) && Argc(Wrap(t, rs)) == Argc(t)
    decreases |rs|
  {
    if rs != [] {
      ArgWrap(Redir(t, rs[0].file, rs[0].dir), rs[1..], w);
    }
  }

  lemma {:induction false} FilesAccepted(t: Tree, i: Items, rest: Tokens)
    requires GoodItems(i) && Argv(i) == [] && Stops(rest, 3)
    ensures Redirs(t, SpellItems(i) + rest) == Parsed(Wrap(t, Files(i)), rest)
    decreases i
  {
    var ts := SpellItems(i) + rest;
    match i
    case Done => assert ts == rest;
    case To(c, file, more) =>
      assert ts[2..] == SpellItems(more) + rest;
      var d := if c == '<' then In else Out;
      FilesAccepted(Redir(t, file, d), more, rest);
      assert Files(i)[1..] == Files(more);
    case _ =>
  }

  /** What parseexec's loops have still to do, after words `a` and redirections `rs`. */
  function Rest(a: seq<string>, rs: seq<RedirTo>, ts: Tokens): Result {
    match Redirs(Wrap(Exec(a), rs), ts) case Bad => Bad case Parsed(c, rest) => Args(c, rest)
  }

  lemma {:induction false} RestTo(a: seq<string>, rs: seq<RedirTo>, ts: Tokens)
    requires |ts| >= 2 && Starts(ts, {'<', '>', '+'}) && ts[1].Word?
    ensures Rest(a, rs, ts) == Rest(a, rs + [RedirTo(ts[1].w, if ts[0].c == '<' then In else Out)], ts[2..])
  {
    hide Args;
    WrapOne(Exec(a), rs, ts[1].w, if ts[0].c == '<' then In else Out);
  }

  lemma {:induction false} RestArg(a: seq<string>, rs: seq<RedirTo>, ts: Tokens)
    requires ts != [] && ts[0].Word?
    ensures Rest(a, rs, ts) == if |a| + 1 >= MAXARGS then Bad else Rest(a + [ts[0].w], rs, ts[1..])
  {
    hide Wrap, AddArg, Argc;
    ArgWrap(Exec(a), rs, ts[0].w);
    ArgExec(a, ts[0].w);
  }

  lemma {:induction false} ArgExec(a: seq<string>, w: string)
    ensures AddArg(Exec(a), w) == Exec(a + [w]) && Argc(Exec(a)) == |a|
  {
  }

  lemma {:induction false} RestDone(a: seq<string>, rs: seq<RedirTo>, ts: Tokens)
    requires ts == [] || (ts[0].Sym? && ts[0].c !in {'<', '>', '+'})
    ensures Rest(a, rs, ts) == if Stops(ts, 3) then Parsed(Wrap(Exec(a), rs), ts) else Bad
  {
  }

  lemma {:induction false} ItemsAccepted(a: seq<string>, rs: seq<RedirTo>, i: Items, rest: Tokens)
    requires GoodItems(i) && |a| + |Argv(i)| < MAXARGS && Stops(rest, 3)
    ensures Rest(a, rs, SpellItems(i) + rest) == Parsed(Wrap(Exec(a + Argv(i)), rs + Files(i)), rest)
    decreases i
  {
    hide Rest, Wrap;
    var ts := SpellItems(i) + rest;
    match i
    case Done =>
      RestDone(a, rs, rest);
      assert ts == rest && a + Argv(i) == a && rs + Files(i) == rs;
    case Arg(w, more) =>
      RestArg(a, rs, ts);
      assert ts[1..] == SpellItems(more) + rest;
      ItemsAccepted(a + [w], rs, more, rest);
      assert a + Argv(i) == a + [w] + Argv(more);
    case To(c, file, more) =>
      var r := RedirTo(file, if c == '<' then In else Out);
      RestTo(a, rs, ts);
      assert ts[2..] == SpellItems(more) + rest;
      ItemsAccepted(a, rs + [r], more, rest);
      assert rs + Files(i) == rs + [r] + Files(more);
  }

  /** Words and redirections in any order: the words in order are argv, and the redirections in
      order are around it. */
  lemma {:induction false} SimpleAccepted(i: Items, rest: Tokens)
    requires GoodItems(i) && |Argv(i)| < MAXARGS && Stops(rest, 3)
    ensures ParseExec(SpellItems(i) + rest) == Parsed(Wrap(Exec(Argv(i)), Files(i)), rest)
  {
    var ts := SpellItems(i) + rest;
    assert !Starts(ts, {'('}) by {
      if i.Done? {
        assert ts == rest;
      }
    }
    hide Redirs, Args, ParseLine;
    ItemsAccepted([], [], i, rest);
    assert [] + Argv(i) == Argv(i) && [] + Files(i) == Files(i);
  }

  lemma {:induction false} ExecAccepted(s: Syntax, rest: Tokens)
    requires Good(s, 3) && Stops(rest, 3)
    ensures ParseExec(Spell(s) + rest) == Parsed(Meaning(s), rest)
    decreases s, 0
  {
    hide Redirs, Args, ParseBacks, Wrap;
    if s.Simple? {
      SimpleAccepted(s.items, rest);
    } else {
      var tail := SpellItems(s.items) + rest;
      var after := [Sym(')')] + tail;
      var ts := Spell(s) + rest;
      assert ts == [Sym('(')] + (Spell(s.line) + after);
      assert ts[1..] == Spell(s.line) + after && after[1..] == tail;
      CloseStops(tail);
      LineAccepted(s.line, after);
      FilesAccepted(Meaning(s.line), s.items, rest);
    }
  }

  lemma {:induction false} PipeAccepted(s: Syntax, rest: Tokens)
    requires Good(s, 2) && Stops(rest, 2)
    ensures ParsePipe(Spell(s) + rest) == Parsed(Meaning(s), rest)
    decreases s, 1
  {
    hide ParseExec;
    if s.Bar? {
      var after := [Sym('|')] + (Spell(s.right) + rest);
      assert Spell(s) + rest == Spell(s.left) + after;
      ExecAccepted(s.left, after);
      assert after[1..] == Spell(s.right) + rest;
      PipeAccepted(s.right, rest);
    } else {
      ExecAccepted(s, rest);
    }
  }

  lemma {:induction false} BacksAccepted(s: Syntax, rest: Tokens)
    requires Good(s, 1) && Stops(rest, 1)
    ensures ParseBacks(Spell(s) + rest) == Parsed(Meaning(s), rest)
    decreases s, 2
  {
    hide ParsePipe;
    var c, k := if s.Behind? then s.cmd else s, if s.Behind? then s.k else 0;
    assert Spell(s) + rest == Spell(c) + (Amps(k) + rest);
    AmpsStop(k, rest);
    PipeAccepted(c, Amps(k) + rest);
    AmpsParse(Meaning(c), k, rest);
  }

  lemma {:induction false} LineAccepted(s: Syntax, rest: Tokens)
    requires Good(s, 0) && Stops(rest, 0)
    ensures ParseLine(Spell(s) + rest) == Parsed(Meaning(s), rest)
    decreases s, 3
  {
    hide ParseBacks;
    if s.Then? {
      var after := [Sym(';')] + (Spell(s.right) + rest);
      assert Spell(s) + rest == Spell(s.left) + after;
      BacksAccepted(s.left, after);
      assert after[1..] == Spell(s.right) + rest;
      LineAccepted(s.right, rest);
    } else {
      BacksAccepted(s, rest);
    }
  }

  // ---- Nothing else is ---------------------------------------------------------------------

  lemma {:induction false} FilesOnly(t: Tree, ts: Tokens) returns (i: Items)
    requires Redirs(t, ts).Parsed?
    ensures GoodItems(i) && Argv(i) == [] && ts == SpellItems(i) + Redirs(t, ts).rest
    ensures Redirs(t, ts).cmd == Wrap(t, Files(i))
    decreases |ts|
  {
    if !Starts(ts, {'<', '>', '+'}) {
      i := Done;
    } else {
      var d := if ts[0].c == '<' then In else Out;
      var t' := Redir(t, ts[1].w, d);
      var more := FilesOnly(t', ts[2..]);
      i := To(ts[0].c, ts[1].w, more);
      assert Files(i) == [RedirTo(ts[1].w, d)] + Files(more) && Files(i)[1..] == Files(more);
      assert Redirs(t, ts) == Redirs(t', ts[2..]);
      assert ts == [ts[0], ts[1]] + ts[2..];
    }
  }

  lemma {:induction false} ItemsOnly(a: seq<string>, rs: seq<RedirTo>, ts: Tokens) returns (i: Items)
    requires Rest(a, rs, ts).Parsed? && |a| < MAXARGS
    ensures GoodItems(i) && |a| + |Argv(i)| < MAXARGS && ts == SpellItems(i) + Rest(a, rs, ts).rest
    ensures Rest(a, rs, ts).cmd == Wrap(Exec(a + Argv(i)), rs + Files(i))
    decreases |ts|
  {
    hide Rest, Wrap;
    if Starts(ts, {'<', '>', '+'}) {
      ToWhole(a, rs, ts);
      var r := RedirTo(ts[1].w, if ts[0].c == '<' then In else Out);
      RestTo(a, rs, ts);
      var more := ItemsOnly(a, rs + [r], ts[2..]);
      i := To(ts[0].c, ts[1].w, more);
      assert ts == [ts[0], ts[1]] + ts[2..];
      assert rs + Files(i) == rs + [r] + Files(more);
    } else if ts != [] && ts[0].Word? {
      RestArg(a, rs, ts);
      var more := ItemsOnly(a + [ts[0].w], rs, ts[1..]);
      i := Arg(ts[0].w, more);
      assert ts == [ts[0]] + ts[1..];
      assert a + Argv(i) == a + [ts[0].w] + Argv(more);
    } else {
      i := Done;
      RestDone(a, rs, ts);
      assert a + Argv(i) == a && rs + Files(i) == rs;
    }
  }

  lemma {:induction false} ToWhole(a: seq<string>, rs: seq<RedirTo>, ts: Tokens)
    requires Rest(a, rs, ts).Parsed? && Starts(ts, {'<', '>', '+'})
    ensures |ts| >= 2 && ts[1].Word?
  {
  }

  lemma {:induction false} ExecOnly(ts: Tokens) returns (s: Syntax)
    requires ParseExec(ts).Parsed?
    ensures Good(s, 3) && ts == Spell(s) + ParseExec(ts).rest && ParseExec(ts).cmd == Meaning(s)
    decreases |ts|, 1
  {
    hide Redirs, Args, ParseBacks, Wrap;
    if Starts(ts, {'('}) {
      var r := ParseLine(ts[1..]);
      var line := LineOnly(ts[1..]);
      var items := FilesOnly(r.cmd, r.rest[1..]);
      s := Block(line, items);
      assert ts == [Sym('(')] + ts[1..] && r.rest == [Sym(')')] + r.rest[1..];
    } else {
      NoWrap(Exec([]));
      var items := ItemsOnly([], [], ts);
      assert [] + Argv(items) == Argv(items) && [] + Files(items) == Files(items);
      s := Simple(items);
    }
  }

  lemma {:induction false} NoWrap(t: Tree)
    ensures Wrap(t, []) == t
  {
  }

  lemma {:induction false} Joined(ts: Tokens, l: Tokens, c: char, r: Tokens, mid: Tokens, rest: Tokens)
    requires ts == l + mid && Starts(mid, {c}) && mid[1..] == r + rest
    ensures ts == l + [Sym(c)] + r + rest
  {
    assert mid == [Sym(c)] + mid[1..];
  }

  /** What binds tighter will do where less is asked. */
  lemma {:induction false} Raised(s: Syntax, level: nat)
    requires Good(s, level + 1) && level <= 2
    ensures Good(s, level)
  {
  }

  lemma {:induction false} PipeOnly(ts: Tokens) returns (s: Syntax)
    requires ParsePipe(ts).Parsed?
    ensures Good(s, 2) && ts == Spell(s) + ParsePipe(ts).rest && ParsePipe(ts).cmd == Meaning(s)
    decreases |ts|, 2
  {
    hide ParseExec;
    var r := ParseExec(ts);
    var left := ExecOnly(ts);
    if Starts(r.rest, {'|'}) {
      var right := PipeOnly(r.rest[1..]);
      s := Bar(left, right);
      Joined(ts, Spell(left), '|', Spell(right), r.rest, ParsePipe(ts).rest);
    } else {
      s := left;
      Raised(s, 2);
    }
  }

  lemma {:induction false} AmpsOnly(t: Tree, ts: Tokens) returns (k: nat)
    ensures ts == Amps(k) + Backs(t, ts).rest && Backs(t, ts).cmd == BackN(t, k)
    decreases |ts|
  {
    if Starts(ts, {'&'}) {
      k := AmpsOnly(Back(t), ts[1..]);
      k := k + 1;
      assert ts == [Sym('&')] + ts[1..];
    } else {
      k := 0;
    }
  }

  lemma {:induction false} BacksOnly(ts: Tokens) returns (s: Syntax)
    requires ParseBacks(ts).Parsed?
    ensures Good(s, 1) && ts == Spell(s) + ParseBacks(ts).rest && ParseBacks(ts).cmd == Meaning(s)
    decreases |ts|, 3
  {
    hide ParsePipe, Backs;
    var r := ParsePipe(ts);
    var c := PipeOnly(ts);
    var k := AmpsOnly(r.cmd, r.rest);
    s := Behind(c, k);
  }

  lemma {:induction false} LineOnly(ts: Tokens) returns (s: Syntax)
    requires ParseLine(ts).Parsed?
    ensures Good(s, 0) && ts == Spell(s) + ParseLine(ts).rest && ParseLine(ts).cmd == Meaning(s)
    decreases |ts|, 4
  {
    hide ParseBacks;
    var r := ParseBacks(ts);
    var left := BacksOnly(ts);
    if Starts(r.rest, {';'}) {
      var right := LineOnly(r.rest[1..]);
      s := Then(left, right);
      Joined(ts, Spell(left), ';', Spell(right), r.rest, ParseLine(ts).rest);
    } else {
      s := left;
      Raised(s, 0);
    }
  }

  /** A whole line is accepted, as command `t`, exactly if it is a spelling of some syntax that
      means `t`; so no line has two meanings. */
  lemma {:induction false} AcceptsExactly(ts: Tokens, t: Tree)
    ensures ParseLine(ts) == Parsed(t, []) <==> exists s :: Good(s, 0) && Spell(s) == ts && Meaning(s) == t
  {
    hide ParseLine, Spell, Meaning, Good;
    if ParseLine(ts) == Parsed(t, []) {
      var s := LineOnly(ts);
      assert Spell(s) + [] == Spell(s);
    }
    forall s | Good(s, 0) && Spell(s) == ts && Meaning(s) == t ensures ParseLine(ts) == Parsed(t, []) {
      LineAccepted(s, []);
      assert ts + [] == ts;
    }
  }
}
