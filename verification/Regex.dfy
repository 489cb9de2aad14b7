/**
  The regular expression matcher of grep (src/grep.c:72-106) against a declarative semantics.

  A string ends with its last character; the terminating NUL of the original is its end.
 */
module Regex {

  /** One(c) matches one character, Star(c) any number of them; the character '.' is any character. */
  datatype Item = One(c: char) | Star(c: char)

  /** `anchored` for a leading '^', `toEnd` for a trailing '$'. */
  datatype Pattern = Pattern(anchored: bool, items: seq<Item>, toEnd: bool)

  // ----- syntax -----

  /** A '*' that follows a character repeats it, whatever the character; a '$' is special only as
      the last character; every other character stands for itself. */
  function Items(re: string): (items: seq<Item>)
  {
    if re == [] then []
    else if |re| > 1 && re[1] == '*' then [Star(re[0])] + Items(re[2..])
    else if re == "$" then []
    else [One(re[0])] + Items(re[1..])
  }

  predicate ToEnd(re: string)
  {
    if re == [] then false
    else if |re| > 1 && re[1] == '*' then ToEnd(re[2..])
    else re == "$" || ToEnd(re[1..])
  }

  function Parse(re: string): (p: Pattern)
  {
    if re != [] && re[0] == '^' then Pattern(true, Items(re[1..]), ToEnd(re[1..]))
    else Pattern(false, Items(re), ToEnd(re))
  }

  function PrintItems(items: seq<Item>, toEnd: bool): (re: string)
  {
    if items == [] then (if toEnd then "$" else "")
    else (if items[0].One? then [items[0].c] else [items[0].c, '*']) + PrintItems(items[1..], toEnd)
  }

  function Print(p: Pattern): (re: string)
  {
    (if p.anchored then "^" else "") + PrintItems(p.items, p.toEnd)
  }

  /** No '*' directly behind a single character, and no '$' as a last single character. */
  predicate Printable(items: seq<Item>, toEnd: bool)
  {
    && (forall i :: 0 < i < |items| && items[i].c == '*' ==> items[i - 1].Star?)
    && (items != [] && !toEnd ==> items[|items| - 1] != One('$'))
  }

  lemma {:induction false} ItemsPrint(items: seq<Item>, toEnd: bool)
    requires Printable(items, toEnd)
    ensures Items(PrintItems(items, toEnd)) == items && ToEnd(PrintItems(items, toEnd)) == toEnd
  {
    if items != [] {
      var rest := PrintItems(items[1..], toEnd);
      assert items[1..] != [] ==> rest[0] == items[1].c;
      ItemsPrint(items[1..], toEnd);
      var re := PrintItems(items, toEnd);
      assert items == [items[0]] + items[1..];
      if items[0].Star? {
        assert re[2..] == rest;
      } else {
        assert re[1..] == rest;
      }
    }
  }

  /** A pattern without a '^' that would be read as an anchor. */
  predicate Writable(p: Pattern)
  {
    Printable(p.items, p.toEnd) && (!p.anchored && p.items != [] ==> p.items[0].c != '^')
  }

  lemma {:induction false} PrintOfItems(re: string)
    ensures PrintItems(Items(re), ToEnd(re)) == re
  {
    if |re| > 1 && re[1] == '*' {
      PrintOfItems(re[2..]);
      assert Items(re)[1..] == Items(re[2..]);
      assert [re[0], '*'] + re[2..] == re;
    } else if re != [] && re != "$" {
      PrintOfItems(re[1..]);
      assert Items(re)[1..] == Items(re[1..]);
      assert [re[0]] + re[1..] == re;
    }
  }

  lemma FirstItem(re: string)
    ensures Items(re) != [] ==> re != [] && Items(re)[0].c == re[0]
  {
  }

  lemma PrintableCons(item: Item, rest: seq<Item>, toEnd: bool)
    requires Printable(rest, toEnd) && (rest != [] && rest[0].c == '*' ==> item.Star?)
    requires rest == [] && !toEnd ==> item != One('$')
    ensures Printable([item] + rest, toEnd)
  {
    var items := [item] + rest;
    forall i | 0 < i < |items| && items[i].c == '*'
      ensures items[i - 1].Star?
    {
      assert items[i] == rest[i - 1];
    }
  }

  lemma {:induction false} ItemsPrintable(re: string)
    ensures Printable(Items(re), ToEnd(re))
  {
    if |re| > 1 && re[1] == '*' {
      ItemsPrintable(re[2..]);
      PrintableCons(Star(re[0]), Items(re[2..]), ToEnd(re));
    } else if re != [] && re != "$" {
      ItemsPrintable(re[1..]);
      FirstItem(re[1..]);
      NothingBehind(re[1..]);
      PrintableCons(One(re[0]), Items(re[1..]), ToEnd(re));
    }
  }

  lemma NothingBehind(re: string)
    ensures Items(re) == [] && !ToEnd(re) ==> re == []
  {
  }

  /** Every string is the print of its parse, which is a writable pattern. */
  lemma PrintParse(re: string)
    ensures Print(Parse(re)) == re && Writable(Parse(re))
  {
    if re != [] && re[0] == '^' {
      PrintOfItems(re[1..]);
      ItemsPrintable(re[1..]);
      assert "^" + re[1..] == re;
    } else {
      PrintOfItems(re);
      ItemsPrintable(re);
      FirstItem(re);
      assert "" + re == re;
    }
  }

  /** The patterns that can be written are exactly those that are read back. */
  lemma WritableWhen(p: Pattern)
    ensures Writable(p) <==> exists re :: Parse(re) == p
  {
    if Writable(p) {
      ParsePrint(p);
    }
    if re :| Parse(re) == p {
      PrintParse(re);
    }
  }

  /** Every writable pattern is written by Print and read back by Parse. */
  lemma ParsePrint(p: Pattern)
    requires Writable(p)
    ensures Parse(Print(p)) == p
  {
    ItemsPrint(p.items, p.toEnd);
    var re := PrintItems(p.items, p.toEnd);
    assert p.anchored ==> Print(p)[1..] == re;
    assert !p.anchored ==> Print(p) == re;
  }

  /** The special characters: '*' behind a character repeats it, '^' in front anchors, '$' at the end
      anchors there; a character alone stands for itself, '.' for every character. */
  lemma SpecialCharactersAre(c: char, d: char, x: char)
    requires c != '^' && c != '$' && d != '*' && d != '$'
    ensures Parse([c]) == Pattern(false, [One(c)], false) && Parse([c, '*']) == Pattern(false, [Star(c)], false)
    ensures Parse([c, d]) == Pattern(false, [One(c), One(d)], false)
    ensures Parse(['^', c]) == Pattern(true, [One(c)], false) && Parse([c, '$']) == Pattern(false, [One(c)], true)
    ensures Fits('.', x) && (c != '.' ==> (Fits(c, x) <==> x == c))
  {
    PrintsOne(One(c), false);
    PrintsOne(One(c), true);
    PrintsOne(Star(c), false);
    ReadsAs(Pattern(false, [One(c)], false), [c]);
    ReadsAs(Pattern(false, [Star(c)], false), [c, '*']);
    ReadsAs(Pattern(true, [One(c)], false), ['^', c]);
    ReadsAs(Pattern(false, [One(c)], true), [c, '$']);
    assert PrintItems([One(c), One(d)][1..], false) == [d];
    ReadsAs(Pattern(false, [One(c), One(d)], false), [c, d]);
  }

  lemma PrintsOne(item: Item, toEnd: bool)
    ensures Print(Pattern(false, [item], toEnd)) ==
      (if item.One? then [item.c] else [item.c, '*']) + (if toEnd then "$" else "")
  {
    assert [item][1..] == [];
    assert PrintItems([], toEnd) == if toEnd then "$" else "";
    assert "" + PrintItems([item], toEnd) == PrintItems([item], toEnd);
  }

  lemma ReadsAs(p: Pattern, re: string)
    requires Writable(p) && Print(p) == re
    ensures Parse(re) == p
  {
    ParsePrint(p);
  }

  // ----- meaning -----

  predicate Fits(c: char, x: char) { c == '.' || x == c }

  predicate Piece(item: Item, s: string)
  {
    match item
    case One(c) => |s| == 1 && Fits(c, s[0])
    case Star(c) => forall i :: 0 <= i < |s| ==> Fits(c, s[i])
  }

  predicate PieceAt(item: Item, text: string, a: nat, b: nat)
  {
    a <= b <= |text| && Piece(item, text[a..b])
  }

  /** The cuts divide a stretch of the text into one piece for each item. */
  predicate Divides(items: seq<Item>, text: string, cuts: seq<nat>)
  {
    && |cuts| == |items| + 1 && cuts[|items|] <= |text|
    && forall i :: 0 <= i < |items| ==> PieceAt(items[i], text, cuts[i], cuts[i + 1])
  }

  /** There is a match that starts at position i. */
  ghost predicate MatchesAt(items: seq<Item>, toEnd: bool, text: string, i: nat)
  {
    exists cuts :: Divides(items, text, cuts) && cuts[0] == i && (toEnd ==> cuts[|items|] == |text|)
  }

  /** The text contains a match. */
  ghost predicate Matches(p: Pattern, text: string)
  {
    exists i: nat :: i <= |text| && (p.anchored ==> i == 0) && MatchesAt(p.items, p.toEnd, text, i)
  }

  // ----- the recursion the matcher follows -----

  lemma MatchesNothing(toEnd: bool, text: string, i: nat)
    requires i <= |text|
    ensures MatchesAt([], toEnd, text, i) <==> (toEnd ==> i == |text|)
  {
    if toEnd ==> i == |text| {
      assert Divides([], text, [i]);
    }
  }

  lemma Cons(items: seq<Item>, toEnd: bool, text: string, i: nat, j: nat)
    requires items != [] && PieceAt(items[0], text, i, j) && MatchesAt(items[1..], toEnd, text, j)
    ensures MatchesAt(items, toEnd, text, i)
  {
    var rest :| Divides(items[1..], text, rest) && rest[0] == j && (toEnd ==> rest[|items| - 1] == |text|);
    var cuts := [i] + rest;
    forall k | 0 <= k < |items|
      ensures PieceAt(items[k], text, cuts[k], cuts[k + 1])
    {
      if k > 0 {
        assert PieceAt(items[1..][k - 1], text, rest[k - 1], rest[k]);
      }
    }
    assert Divides(items, text, cuts);
  }

  lemma Uncons(items: seq<Item>, toEnd: bool, text: string, i: nat) returns (j: nat)
    requires items != [] && MatchesAt(items, toEnd, text, i)
    ensures PieceAt(items[0], text, i, j) && MatchesAt(items[1..], toEnd, text, j)
  {
    var cuts :| Divides(items, text, cuts) && cuts[0] == i && (toEnd ==> cuts[|items|] == |text|);
    j := cuts[1];
    assert PieceAt(items[0], text, cuts[0], cuts[1]);
    var rest := cuts[1..];
    forall k | 0 <= k < |items[1..]|
      ensures PieceAt(items[1..][k], text, rest[k], rest[k + 1])
    {
      assert PieceAt(items[k + 1], text, cuts[k + 1], cuts[k + 2]);
    }
    assert Divides(items[1..], text, rest);
  }

  lemma MatchesOne(items: seq<Item>, toEnd: bool, text: string, i: nat)
    requires items != [] && items[0].One? && i <= |text|
    ensures MatchesAt(items, toEnd, text, i) <==>
      i < |text| && Fits(items[0].c, text[i]) && MatchesAt(items[1..], toEnd, text, i + 1)
  {
    if MatchesAt(items, toEnd, text, i) {
      var j := Uncons(items, toEnd, text, i);
      assert j == i + 1 && text[i..j][0] == text[i];
    }
    if i < |text| && Fits(items[0].c, text[i]) && MatchesAt(items[1..], toEnd, text, i + 1) {
      assert PieceAt(items[0], text, i, i + 1);
      Cons(items, toEnd, text, i, i + 1);
    }
  }

  /** A repetition matches nothing, or one character and itself again. */
  lemma MatchesStar(items: seq<Item>, toEnd: bool, text: string, i: nat)
    requires items != [] && items[0].Star? && i <= |text|
    ensures MatchesAt(items, toEnd, text, i) <==>
      || MatchesAt(items[1..], toEnd, text, i)
      || (i < |text| && Fits(items[0].c, text[i]) && MatchesAt(items, toEnd, text, i + 1))
  {
    if MatchesAt(items, toEnd, text, i) {
      var j := Uncons(items, toEnd, text, i);
      if j > i {
        assert text[i..j][0] == text[i] && text[i..j][1..] == text[i + 1..j];
        assert PieceAt(items[0], text, i + 1, j);
        Cons(items, toEnd, text, i + 1, j);
      }
    }
    if MatchesAt(items[1..], toEnd, text, i) {
      assert PieceAt(items[0], text, i, i);
      Cons(items, toEnd, text, i, i);
    }
    if i < |text| && Fits(items[0].c, text[i]) && MatchesAt(items, toEnd, text, i + 1) {
      var j := Uncons(items, toEnd, text, i + 1);
      assert text[i..j] == [text[i]] + text[i + 1..j];
      Cons(items, toEnd, text, i, j);
    }
  }

  // ----- the matcher -----

  /** `matchhere`: search for re at position i of the text. */
  method MatchHere(re: string, text: string, i: nat) returns (yes: bool)
    requires i <= |text|
    ensures yes <==> MatchesAt(Items(re), ToEnd(re), text, i)
    decreases |re|, 0, |text| - i
  {
    if re == [] {
      MatchesNothing(false, text, i);
      return true;
    }
    if |re| > 1 && re[1] == '*' {
      assert Items(re)[1..] == Items(re[2..]);
      yes := MatchStar(re[0], re[2..], text, i, Items(re));
      return;
    }
    if re[0] == '$' && |re| == 1 {
      MatchesNothing(true, text, i);
      return i == |text|;
    }
    assert Items(re)[1..] == Items(re[1..]);
    MatchesOne(Items(re), ToEnd(re), text, i);
    if i < |text| && (re[0] == '.' || re[0] == text[i]) {
      yes := MatchHere(re[1..], text, i + 1);
      return;
    }
    return false;
  }

  /** `matchstar`: search for c*re at position i of the text. */
  method MatchStar(c: char, re: string, text: string, i: nat, ghost items: seq<Item>) returns (yes: bool)
    requires i <= |text| && items != [] && items[0] == Star(c) && items[1..] == Items(re)
    ensures yes <==> MatchesAt(items, ToEnd(re), text, i)
    decreases |re|, 1, |text| - i
  {
    var j := i;
    while true
      invariant i <= j <= |text|
      invariant MatchesAt(items, ToEnd(re), text, i) <==> MatchesAt(items, ToEnd(re), text, j)
      decreases |text| - j
    {
      MatchesStar(items, ToEnd(re), text, j);
      yes := MatchHere(re, text, j);
      if yes {
        return;
      }
      if !(j < |text| && (text[j] == c || c == '.')) {
        return false;
      }
      j := j + 1;
    }
  }

  /** `match` is sound and complete. */
  method Match(re: string, text: string) returns (yes: bool)
    ensures yes <==> Matches(Parse(re), text)
  {
    if re != [] && re[0] == '^' {
      yes := MatchHere(re[1..], text, 0);
      return;
    }
    var i := 0;
    while true
      invariant i <= |text|
      invariant forall j: nat :: j < i ==> !MatchesAt(Items(re), ToEnd(re), text, j)
      decreases |text| - i
    {
      yes := MatchHere(re, text, i);
      if yes || i == |text| {
        return;
      }
      i := i + 1;
    }
  }
}
