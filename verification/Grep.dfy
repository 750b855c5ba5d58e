/** grep's regular expression matcher, against the language its patterns denote. */
module Grep {

  // ---------------------------------------------------------------------------
  // The language of a pattern

  /** One element of a pattern: a character (where '.' stands for any), a starred
      character, or the '$' that ends it. */
  datatype Item = One(c: char) | Star(c: char) | End

  predicate Accepts(p: char, c: char) {
    p == '.' || p == c
  }

  /** The words that an element stands for. */
  ghost predicate In(item: Item, w: string) {
    match item
    case One(c) => |w| == 1 && Accepts(c, w[0])
    case Star(c) => forall j :: 0 <= j < |w| ==> Accepts(c, w[j])
    case End => w == []
  }

  /** How a pattern is read: x* before $, and $ special only at the very end. */
  function Parse(re: string): seq<Item> {
    if re == [] then []
    else if |re| > 1 && re[1] == '*' then [Star(re[0])] + Parse(re[2..])
    else if re == "$" then [End]
    else [One(re[0])] + Parse(re[1..])
  }

  ghost predicate Spells(items: seq<Item>, pieces: seq<string>) {
    |pieces| == |items| && forall i :: 0 <= i < |items| ==> In(items[i], pieces[i])
  }

  function Concat(pieces: seq<string>): string {
    if pieces == [] then [] else pieces[0] + Concat(pieces[1..])
  }

  predicate Anchored(items: seq<Item>) {
    items != [] && items[|items| - 1] == End
  }

  /** The text starts with a word spelled by the elements, one piece each, and is
      that word when the pattern ends in '$'. */
  ghost predicate StartsWith(items: seq<Item>, text: string) {
    exists pieces :: Spells(items, pieces) && Begins(items, Concat(pieces), text)
  }

  ghost predicate Begins(items: seq<Item>, w: string, text: string) {
    w <= text && (Anchored(items) ==> w == text)
  }

  /** Some part of the text, its beginning under '^', is in the pattern's language. */
  ghost predicate Contains(re: string, text: string) {
    if re != [] && re[0] == '^' then StartsWith(Parse(re[1..]), text)
    else exists i :: 0 <= i <= |text| && StartsWith(Parse(re), text[i..])
  }

  // ---------------------------------------------------------------------------
  // Patterns as text

  function ShowItem(item: Item): string {
    match item
    case One(c) => [c]
    case Star(c) => [c, '*']
    case End => "$"
  }

  function Show(items: seq<Item>): string {
    if items == [] then [] else ShowItem(items[0]) + Show(items[1..])
  }

  /** Elements that can be written down: no '*' behind a character to be taken literally, and
      '$' at the end, and only there, in its special meaning. */
  predicate Writable(items: seq<Item>) {
    && (forall i :: 0 <= i < |items| - 1 ==> !items[i].End? && (items[i].One? ==> ShowItem(items[i + 1])[0] != '*'))
    && (items != [] ==> items[|items| - 1] != One('$'))
  }

  lemma ShowEnd()
    ensures Show([]) == [] && Writable([]) && Show([End]) == "$" && Writable([End])
  {
    assert Show([End]) == "$" + Show([End][1..]);
  }

  lemma ShowMore(item: Item, items: seq<Item>)
    ensures Show([item] + items) == ShowItem(item) + Show(items)
  {
    assert ([item] + items)[1..] == items;
  }

  lemma WritableMore(item: Item, items: seq<Item>)
    requires Writable(items) && !item.End? && (items == [] ==> item != One('$'))
    requires item.One? && items != [] ==> Show(items)[0] != '*'
    ensures Writable([item] + items)
  {
    if items != [] {
      assert Show(items)[0] == ShowItem(items[0])[0];
    }
    forall i | 0 <= i < |items|
      ensures var all := [item] + items; !all[i].End? && (all[i].One? ==> ShowItem(all[i + 1])[0] != '*')
    {
      if i > 0 {
        assert ([item] + items)[i] == items[i - 1] && ([item] + items)[i + 1] == items[i];
      }
    }
  }

  /** Every pattern is read to its last character. */
  lemma {:induction false} ShowParse(re: string)
    ensures Show(Parse(re)) == re && Writable(Parse(re))
    decreases |re|
  {
    hide Writable;
    if re == [] || re == "$" {
      ShowEnd();
    } else {
      var n := if |re| > 1 && re[1] == '*' then 2 else 1;
      ShowParse(re[n..]);
      var item := Parse(re)[0];
      assert Parse(re) == [item] + Parse(re[n..]) && ShowItem(item) + re[n..] == re;
      ShowMore(item, Parse(re[n..]));
      WritableMore(item, Parse(re[n..]));
    }
  }

  /** Elements written down are read back exactly if they can be written. */
  lemma {:induction false} ParseShow(items: seq<Item>)
    ensures Parse(Show(items)) == items <==> Writable(items)
    decreases |items|
  {
    if items == [] {
    } else if Writable(items) {
      var rest := items[1..];
      ParseShow(rest);
      assert Show(items)[|ShowItem(items[0])|..] == Show(rest);
      assert rest != [] ==> Show(rest)[0] == ShowItem(rest[0])[0];
      assert rest == [] ==> Show(rest) == [];
    } else {
      ShowParse(Show(items));
    }
  }

  // ---------------------------------------------------------------------------
  // How the first element of a pattern decides a match

  lemma StartsWithNothing(text: string)
    ensures StartsWith([], text)
  {
    assert Spells([], []) && Begins([], Concat([]), text);
  }

  lemma StartsWithEnd(text: string)
    ensures StartsWith([End], text) <==> text == []
  {
    forall pieces | Spells([End], pieces) ensures Concat(pieces) == [] {
      assert Concat(pieces) == pieces[0] + Concat(pieces[1..]);
    }
    if text == [] {
      assert Concat([[]]) == [] + Concat([[]][1..]);
      assert Spells([End], [[]]) && Begins([End], Concat([[]]), text);
    }
  }

  /** Adding an element and its piece in front, where the pattern goes on. */
  lemma AddPiece(item: Item, rest: seq<Item>, w: string, text: string)
    requires !item.End? && w <= text && In(item, w) && StartsWith(rest, text[|w|..])
    ensures StartsWith([item] + rest, text)
  {
    var pieces :| Spells(rest, pieces) && Begins(rest, Concat(pieces), text[|w|..]);
    var all := [w] + pieces;
    assert all[1..] == pieces && Concat(all) == w + Concat(pieces);
    assert w + text[|w|..] == text;
    assert Spells([item] + rest, all) && Begins([item] + rest, Concat(all), text);
  }

  /** Taking the first element and its piece away. */
  lemma DropPiece(item: Item, rest: seq<Item>, text: string) returns (w: string)
    requires !item.End? && StartsWith([item] + rest, text)
    ensures w <= text && In(item, w) && StartsWith(rest, text[|w|..])
  {
    var items := [item] + rest;
    var pieces :| Spells(items, pieces) && Begins(items, Concat(pieces), text);
    w := pieces[0];
    assert items[1..] == rest && items[0] == item;
    assert Concat(pieces) == w + Concat(pieces[1..]);
    assert Spells(rest, pieces[1..]);
    assert Begins(rest, Concat(pieces[1..]), text[|w|..]);
  }

  lemma StartsWithOne(c: char, rest: seq<Item>, text: string)
    ensures StartsWith([One(c)] + rest, text) <==> text != [] && Accepts(c, text[0]) && StartsWith(rest, text[1..])
  {
    if StartsWith([One(c)] + rest, text) {
      var w := DropPiece(One(c), rest, text);
    }
    if text != [] && Accepts(c, text[0]) && StartsWith(rest, text[1..]) {
      AddPiece(One(c), rest, text[..1], text);
    }
  }

  ghost predicate StarsTo(c: char, rest: seq<Item>, text: string, k: nat) {
    k <= |text| && (forall j :: 0 <= j < k ==> Accepts(c, text[j])) && StartsWith(rest, text[k..])
  }

  lemma StartsWithStar(c: char, rest: seq<Item>, text: string)
    ensures StartsWith([Star(c)] + rest, text) <==> exists k: nat :: StarsTo(c, rest, text, k)
  {
    if StartsWith([Star(c)] + rest, text) {
      var w := DropPiece(Star(c), rest, text);
      assert StarsTo(c, rest, text, |w|);
    }
    if k: nat :| StarsTo(c, rest, text, k) {
      AddPiece(Star(c), rest, text[..k], text);
    }
  }

  // ---------------------------------------------------------------------------
  // What patterns mean to a user

  /** The pattern lies on the text, character on character, with '.' on any. */
  ghost predicate Covers(re: string, text: string) {
    |re| <= |text| && forall j :: 0 <= j < |re| ==> re[j] == '.' || re[j] == text[j]
  }

  lemma CoversMore(re: string, text: string)
    requires re != [] && text != []
    ensures Covers(re, text) <==> (re[0] == '.' || re[0] == text[0]) && Covers(re[1..], text[1..])
  {
    if Covers(re[1..], text[1..]) {
      forall j | 1 <= j < |re| ensures re[j] == '.' || re[j] == text[j] {
        assert re[1..][j - 1] == re[j] && text[1..][j - 1] == text[j];
      }
    }
  }

  lemma {:induction false} PlainStarts(re: string, text: string)
    requires '*' !in re && (re != [] ==> re[|re| - 1] != '$')
    ensures StartsWith(Parse(re), text) <==> Covers(re, text)
    decreases |re|
  {
    if re == [] {
      StartsWithNothing(text);
    } else {
      StartsWithOne(re[0], Parse(re[1..]), text);
      if text != [] {
        PlainStarts(re[1..], text[1..]);
        CoversMore(re, text);
      }
    }
  }

  /** A pattern without special characters but dots matches exactly where it covers the text. */
  lemma PlainContains(re: string, text: string)
    requires '*' !in re && (re != [] ==> re[0] != '^' && re[|re| - 1] != '$')
    ensures Contains(re, text) <==> exists i :: 0 <= i <= |text| && Covers(re, text[i..])
  {
    forall i | 0 <= i <= |text| ensures StartsWith(Parse(re), text[i..]) <==> Covers(re, text[i..]) {
      PlainStarts(re, text[i..]);
    }
  }

  /** A starred character takes any number of its kind, and a starred dot anything. */
  ghost predicate StarTakes(c: char, re: string, text: string, k: nat) {
    k <= |text| && (forall j :: 0 <= j < k ==> c == '.' || text[j] == c) && StartsWith(Parse(re), text[k..])
  }

  lemma StarStarts(c: char, re: string, text: string)
    ensures StartsWith(Parse([c, '*'] + re), text) <==> exists k: nat :: StarTakes(c, re, text, k)
  {
    assert ([c, '*'] + re)[2..] == re;
    StartsWithStar(c, Parse(re), text);
    if k: nat :| StarsTo(c, Parse(re), text, k) {
      assert StarTakes(c, re, text, k);
    }
    if k: nat :| StarTakes(c, re, text, k) {
      assert StarsTo(c, Parse(re), text, k);
    }
  }

  /** A dollar at the end, and a caret at the beginning, hold the pattern to the text's. */
  lemma {:induction false} DollarStarts(re: string, text: string)
    requires '*' !in re
    ensures StartsWith(Parse(re + "$"), text) <==> |re| == |text| && Covers(re, text)
    decreases |re|
  {
    if re == [] {
      assert re + "$" == "$";
      StartsWithEnd(text);
    } else {
      assert (re + "$")[1..] == re[1..] + "$";
      StartsWithOne(re[0], Parse(re[1..] + "$"), text);
      if text != [] {
        DollarStarts(re[1..], text[1..]);
        CoversMore(re, text);
      }
    }
  }

  lemma CaretDollar(re: string, text: string)
    requires '*' !in re
    ensures Contains("^" + re + "$", text) <==> |re| == |text| && Covers(re, text)
  {
    assert ("^" + re + "$")[1..] == re + "$";
    DollarStarts(re, text);
  }

  // ---------------------------------------------------------------------------
  // The matcher

  /** match: sound and complete for the language of the pattern. */
  method Match(re: string, text: string) returns (found: bool)
    ensures found <==> Contains(re, text)
  {
    if re != [] && re[0] == '^' {
      found := MatchHere(re[1..], text);
      return;
    }
    var i := 0;
    while true
      invariant 0 <= i <= |text|
      invariant forall m :: 0 <= m < i ==> !StartsWith(Parse(re), text[m..])
      decreases |text| - i
    {
      found := MatchHere(re, text[i..]);
      if found || i == |text| {
        return;
      }
      i := i + 1;
    }
  }

  /** matchhere: the pattern at the beginning of the text. */
  method MatchHere(re: string, text: string) returns (found: bool)
    ensures found <==> StartsWith(Parse(re), text)
    decreases |re|, 1
  {
    if re == [] {
      StartsWithNothing(text);
      return true;
    }
    if |re| > 1 && re[1] == '*' {
      found := MatchStar(re[0], re[2..], text);
      return;
    }
    if re == "$" {
      StartsWithEnd(text);
      return text == [];
    }
    StartsWithOne(re[0], Parse(re[1..]), text);
    if text != [] && (re[0] == '.' || re[0] == text[0]) {
      found := MatchHere(re[1..], text[1..]);
      return;
    }
    return false;
  }

  /** matchstar: c* and then the pattern at the beginning of the text. */
  method MatchStar(c: char, re: string, text: string) returns (found: bool)
    ensures found <==> StartsWith([Star(c)] + Parse(re), text)
    decreases |re|, 2
  {
    StartsWithStar(c, Parse(re), text);
    var k := 0;
    while true
      invariant 0 <= k <= |text|
      invariant forall j :: 0 <= j < k ==> Accepts(c, text[j])
      invariant forall m :: 0 <= m < k ==> !StartsWith(Parse(re), text[m..])
      decreases |text| - k
    {
      found := MatchHere(re, text[k..]);
      if found {
        assert StarsTo(c, Parse(re), text, k);
        return;
      }
      if k == |text| || !(text[k] == c || c == '.') {
        return;
      }
      k := k + 1;
    }
  }
}
