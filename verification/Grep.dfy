/** grep.c: the matcher for patterns with ^ . * $, proved against what a pattern means. */
module Grep {

  /** A pattern is a sequence of these, and may end in a $ that anchors it. */
  datatype Item = One(c: char) | Star(c: char)

  function Items(re: string): seq<Item> {
    if re == "" || re == "$" then []
    else if |re| >= 2 && re[1] == '*' then [Star(re[0])] + Items(re[2..])
    else [One(re[0])] + Items(re[1..])
  }

  predicate EndsHere(re: string) {
    if re == "" || re == "$" then re == "$"
    else if |re| >= 2 && re[1] == '*' then EndsHere(re[2..])
    else EndsHere(re[1..])
  }

  predicate Fits(c: char, x: char) { c == '.' || c == x }

  /** The strings a sequence of items stands for. */
  ghost predicate Means(items: seq<Item>, w: string)
    decreases |items|
  {
    if items == [] then w == ""
    else match items[0]
         case One(c) => w != "" && Fits(c, w[0]) && Means(items[1..], w[1..])
         case Star(c) => exists k: nat :: k <= |w| && AllFit(c, w[..k]) && Means(items[1..], w[k..])
  }

  ghost predicate AllFit(c: char, w: string) { forall j | 0 <= j < |w| :: Fits(c, w[j]) }

  /** A string `re` stands for begins at `text[i]`, and ends the text if `re` ends in $. */
  ghost predicate Begins(re: string, text: string, i: nat) {
    exists k: nat :: i <= k <= |text| && Means(Items(re), text[i..k]) && (EndsHere(re) ==> k == |text|)
  }

  /** What match looks for: some stretch of the text, from its start if `re` begins with ^. */
  ghost predicate Matches(re: string, text: string) {
    if re != "" && re[0] == '^' then Begins(re[1..], text, 0)
    else exists i: nat :: i <= |text| && Begins(re, text, i)
  }

  method Match(re: string, text: string) returns (r: bool)
    ensures r <==> Matches(re, text)
  {
    if re != "" && re[0] == '^' {
      r := MatchHere(re[1..], text);
      return;
    }
    var i := 0;
    while true
      invariant i <= |text| && forall j: nat | j < i :: !Begins(re, text, j)
      decreases |text| - i
    {
      r := MatchHere(re, text[i..]);
      BeginsShift(re, text, i);
      if r {
        return;
      }
      if i == |text| {
        return false;
      }
      i := i + 1;
    }
  }

  /** `re` at the beginning of `text`. */
  method MatchHere(re: string, text: string) returns (r: bool)
    ensures r <==> Begins(re, text, 0)
    decreases |re|, 0
  {
    if re == "" {
      EmptyBegins(text);
      return true;
    }
    if |re| >= 2 && re[1] == '*' {
      r := MatchStar(re[0], re[2..], text);
      StarBegins(re, text);
      return;
    }
    if re == "$" {
      EndBegins(text);
      return text == "";
    }
    OneBegins(re, text);
    if text != "" && (re[0] == '.' || re[0] == text[0]) {
      r := MatchHere(re[1..], text[1..]);
      return;
    }
    r := false;
  }

  /** `c`* and then `re` at the beginning of `text`. */
  method MatchStar(c: char, re: string, text: string) returns (r: bool)
    ensures r <==> exists k: nat :: k <= |text| && AllFit(c, text[..k]) && Begins(re, text[k..], 0)
    decreases |re|, 1
  {
    var k := 0;
    while true
      invariant k <= |text| && AllFit(c, text[..k])
      invariant forall j: nat | j < k :: !Begins(re, text[j..], 0)
      decreases |text| - k
    {
      r := MatchHere(re, text[k..]);
      if r {
        return;
      }
      if k == |text| || !(text[k] == c || c == '.') {
        assert forall j: nat | k < j <= |text| :: !AllFit(c, text[..j]) by {
          forall j: nat | k < j <= |text| ensures !AllFit(c, text[..j]) { assert text[..j][k] == text[k]; }
        }
        return false;
      }
      k := k + 1;
    }
  }

  lemma {:induction false} BeginsShift(re: string, text: string, i: nat)
    requires i <= |text|
    ensures Begins(re, text[i..], 0) == Begins(re, text, i)
  {
    if Begins(re, text[i..], 0) {
      var k: nat :| k <= |text[i..]| && Means(Items(re), text[i..][0..k]) && (EndsHere(re) ==> k == |text[i..]|);
      assert text[i..][0..k] == text[i..i + k];
    }
    if Begins(re, text, i) {
      var k: nat :| i <= k <= |text| && Means(Items(re), text[i..k]) && (EndsHere(re) ==> k == |text|);
      assert text[i..][0..k - i] == text[i..k];
    }
  }

  lemma {:induction false} EmptyBegins(text: string)
    ensures Begins("", text, 0)
  {
    assert Means(Items(""), text[0..0]);
  }

  lemma {:induction false} EndBegins(text: string)
    ensures Begins("$", text, 0) <==> text == ""
  {
    assert text[0..0] == "";
    assert Means(Items("$"), text[0..0]);
  }

  lemma {:induction false} OneBegins(re: string, text: string)
    requires re != "" && re != "$" && !(|re| >= 2 && re[1] == '*')
    ensures Begins(re, text, 0) <==> text != "" && Fits(re[0], text[0]) && Begins(re[1..], text[1..], 0)
  {
    var items := Items(re);
    assert items[0] == One(re[0]) && items[1..] == Items(re[1..]);
    if Begins(re, text, 0) {
      var k: nat :| k <= |text| && Means(items, text[0..k]) && (EndsHere(re) ==> k == |text|);
      assert text[1..][0..k - 1] == text[0..k][1..];
    }
    if text != "" && Fits(re[0], text[0]) && Begins(re[1..], text[1..], 0) {
      var k: nat :| k <= |text[1..]| && Means(items[1..], text[1..][0..k]) && (EndsHere(re[1..]) ==> k == |text[1..]|);
      assert text[0..k + 1][1..] == text[1..][0..k];
    }
  }

  lemma {:induction false} StarBegins(re: string, text: string)
    requires |re| >= 2 && re[1] == '*'
    ensures Begins(re, text, 0) <==>
            exists k: nat :: k <= |text| && AllFit(re[0], text[..k]) && Begins(re[2..], text[k..], 0)
  {
    var items := Items(re);
    assert items[0] == Star(re[0]) && items[1..] == Items(re[2..]);
    if Begins(re, text, 0) {
      var m: nat :| m <= |text| && Means(items, text[0..m]) && (EndsHere(re) ==> m == |text|);
      var w := text[0..m];
      var k: nat :| k <= |w| && AllFit(re[0], w[..k]) && Means(items[1..], w[k..]);
      assert w[..k] == text[..k] && text[k..][0..m - k] == w[k..];
      assert Begins(re[2..], text[k..], 0);
    }
    if k: nat :| k <= |text| && AllFit(re[0], text[..k]) && Begins(re[2..], text[k..], 0) {
      var m: nat :| m <= |text[k..]| && Means(items[1..], text[k..][0..m]) && (EndsHere(re[2..]) ==> m == |text[k..]|);
      var w := text[0..k + m];
      assert w[..k] == text[..k] && w[k..] == text[k..][0..m];
      assert Means(items, w);
    }
  }

  // ---- What a pattern is for -----------------------------------------------------------

  /** None of the characters that mean something else. */
  predicate Plain(w: string) { forall k | 0 <= k < |w| :: w[k] !in {'^', '.', '*', '$'} }

  lemma {:induction false} PlainEnds(w: string)
    requires Plain(w)
    ensures !EndsHere(w) && EndsHere(w + "$") && Items(w + "$") == Items(w)
  {
    if w == "" {
      assert w + "$" == "$";
    } else {
      assert (w + "$")[1..] == w[1..] + "$" && (|w| == 1 ==> (w + "$")[1] == '$');
      PlainEnds(w[1..]);
    }
  }

  /** Plain characters stand for themselves. */
  lemma {:induction false} PlainMeans(w: string, t: string)
    requires Plain(w)
    ensures Means(Items(w), t) <==> t == w
  {
    if w != "" {
      assert Items(w) == [One(w[0])] + Items(w[1..]) && Items(w)[1..] == Items(w[1..]);
      if t != "" {
        PlainMeans(w[1..], t[1..]);
        assert w == [w[0]] + w[1..] && t == [t[0]] + t[1..];
      }
    }
  }

  /** `w` stands at `i` in the text. */
  predicate Stands(w: string, text: string, i: nat) { i + |w| <= |text| && text[i..i + |w|] == w }

  lemma {:induction false} PlainBegins(w: string, text: string, i: nat)
    requires Plain(w)
    ensures Begins(w, text, i) <==> Stands(w, text, i)
    ensures Begins(w + "$", text, i) <==> Stands(w, text, i) && i + |w| == |text|
  {
    PlainEnds(w);
    forall k: nat | i <= k <= |text| ensures Means(Items(w), text[i..k]) <==> text[i..k] == w {
      PlainMeans(w, text[i..k]);
    }
    if Stands(w, text, i) {
      assert Means(Items(w), text[i..i + |w|]);
    }
  }

  /** A plain word is looked for anywhere in the text; ^ puts it at the start, $ at the end. */
  lemma {:induction false} PlainMatches(w: string, text: string)
    requires Plain(w)
    ensures Matches(w, text) <==> exists i: nat :: Stands(w, text, i)
    ensures Matches("^" + w, text) <==> w <= text
    ensures Matches(w + "$", text) <==> |w| <= |text| && text[|text| - |w|..] == w
    ensures Matches("^" + w + "$", text) <==> text == w
  {
    hide Begins;
    forall i: nat
      ensures Begins(w, text, i) <==> Stands(w, text, i)
      ensures Begins(w + "$", text, i) <==> Stands(w, text, i) && i + |w| == |text| {
      PlainBegins(w, text, i);
    }
    assert ("^" + w)[1..] == w && ("^" + w + "$")[1..] == w + "$";
    if |w| <= |text| && text[|text| - |w|..] == w {
      assert Stands(w, text, |text| - |w|);
    }
    assert w != "" ==> (w + "$")[0] == w[0];
  }

  lemma {:induction false} OneItem(i: Item, t: string)
    ensures Means([i], t) <==> if i.One? then |t| == 1 && Fits(i.c, t[0]) else AllFit(i.c, t)
  {
    assert [i][1..] == [];
    if i.Star? && AllFit(i.c, t) {
      assert t[..|t|] == t && Means([], t[|t|..]);
    }
  }

  /** `.` is any one character, `.*` any text, and `c*` any number of `c`. */
  lemma {:induction false} DotAndStar(c: char, text: string)
    requires Plain([c])
    ensures Matches("^.$", text) <==> |text| == 1
    ensures Matches("^.*$", text)
    ensures Matches(['^', c, '*', '$'], text) <==> forall k | 0 <= k < |text| :: text[k] == c
  {
    WholeItem(One('.'), ".$", text);
    WholeItem(Star('.'), ".*$", text);
    WholeItem(Star(c), [c, '*', '$'], text);
    assert "^.$"[1..] == ".$" && "^.*$"[1..] == ".*$" && ['^', c, '*', '$'][1..] == [c, '*', '$'];
    assert ".$"[1..] == "$" && ".*$"[2..] == "$" && [c, '*', '$'][2..] == "$";
  }

  lemma {:induction false} WholeItem(i: Item, re: string, text: string)
    ensures Items(re) == [i] && EndsHere(re) ==>
              (Begins(re, text, 0) <==> if i.One? then |text| == 1 && Fits(i.c, text[0]) else AllFit(i.c, text))
  {
    assert text[0..|text|] == text;
    OneItem(i, text);
  }
}
