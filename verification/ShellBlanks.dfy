/**
  What the characters of a line mean to the parser of src/sh.c, in plain characters: which of them
  are blanks and symbols (src/sh.c:252-253), that one blank is as good as another and blanks at the
  end of a line do not count, and what each operator stands for.
 */
module ShellBlanks {
  import opened ShellGrammar
  import opened ShellRoundTrip

  /** The five characters of `whitespace`. */
  predicate Blank(c: char)
  {
    c in {' ', '\t', '\r', '\n', '\U{0B}'}
  }

  lemma CharactersAre(c: char)
    ensures Space(c) <==> Blank(c)
    ensures Symbol(c) <==> c in {'<', '|', '>', '&', ';', '(', ')'}
    ensures WordChar(c) <==> !Blank(c) && c !in {'<', '|', '>', '&', ';', '(', ')', '\0'}
  {
  }

  predicate Same(c: char, d: char) { c == d || (Blank(c) && Blank(d)) }

  /** Line t is line s with some blanks replaced by others, and maybe more of them at the end. */
  predicate Like(s: string, t: string)
  {
    && |s| <= |t| && (forall i :: 0 <= i < |s| ==> Same(s[i], t[i]))
    && (forall i :: |s| <= i < |t| ==> Blank(t[i]))
  }

  lemma LikeTail(s: string, t: string, k: nat)
    requires Like(s, t) && k <= |s|
    ensures Like(s[k..], t[k..])
  {
  }

  lemma {:induction false} SkipBlanks(t: string)
    requires forall i :: 0 <= i < |t| ==> Blank(t[i])
    ensures Skip(t) == []
  {
    if t != [] {
      CharactersAre(t[0]);
      SkipBlanks(t[1..]);
    }
  }

  lemma {:induction false} LikeSkip(s: string, t: string)
    requires Like(s, t)
    ensures Like(Skip(s), Skip(t)) && Look(Skip(s)) == Look(Skip(t)) && (Skip(s) == [] <==> Skip(t) == [])
  {
    if s == [] {
      SkipBlanks(t);
    } else {
      CharactersAre(s[0]);
      CharactersAre(t[0]);
      if Blank(s[0]) {
        LikeTail(s, t, 1);
        LikeSkip(s[1..], t[1..]);
      }
    }
  }

  lemma {:induction false} LikeWord(s: string, t: string)
    requires Like(s, t)
    ensures WordEnd(s) == WordEnd(t) && s[..WordEnd(s)] == t[..WordEnd(s)] && Like(s[WordEnd(s)..], t[WordEnd(s)..])
  {
    if s == [] {
      if t != [] {
        CharactersAre(t[0]);
      }
    } else {
      CharactersAre(s[0]);
      CharactersAre(t[0]);
      if WordChar(s[0]) {
        LikeTail(s, t, 1);
        LikeWord(s[1..], t[1..]);
        assert s[..WordEnd(s)] == [s[0]] + s[1..][..WordEnd(s[1..])];
        assert t[..WordEnd(t)] == [t[0]] + t[1..][..WordEnd(t[1..])];
      }
    }
  }

  /** The same value, and rests that are alike. */
  predicate SameParse<T(==)>(r: Parse<T>, r': Parse<T>)
  {
    if r.Syntax? then r'.Syntax? else r'.Ok? && r'.value == r.value && Like(r.rest, r'.rest)
  }

  /** What is behind a redirection operator. */
  function Behind(s1: string): (s2: string)
    requires s1 != []
  {
    Skip(if |s1| >= 2 && s1[0] == '>' && s1[1] == '>' then s1[2..] else s1[1..])
  }

  lemma LikeBehind(s1: string, t1: string)
    requires Like(s1, t1) && s1 != [] && s1[0] == t1[0]
    ensures Like(Behind(s1), Behind(t1))
  {
    var k := if |s1| >= 2 && s1[0] == '>' && s1[1] == '>' then 2 else 1;
    LikeTail(s1, t1, k);
    LikeSkip(s1[k..], t1[k..]);
  }

  lemma {:induction false} LikeRedirs(s: string, t: string, acc: seq<Redirection<string>>)
    requires Like(s, t)
    ensures SameParse(ParseRedirs(s, acc), ParseRedirs(t, acc))
    decreases |s|
  {
    LikeSkip(s, t);
    var s1, t1 := Skip(s), Skip(t);
    if Look(s1) == '<' || Look(s1) == '>' {
      LikeBehind(s1, t1);
      var s2, t2 := Behind(s1), Behind(t1);
      LikeWord(s2, t2);
      var n, mode := WordEnd(s2), if s1[0] == '<' then Read else Write;
      if n != 0 {
        LikeRedirs(s2[n..], t2[n..], acc + [Redirection(s2[..n], mode)]);
      }
    }
  }

  lemma {:induction false} LikeArgs(s: string, t: string, argv: seq<string>, rs: seq<Redirection<string>>)
    requires Like(s, t)
    ensures SameParse(ParseArgs(s, argv, rs), ParseArgs(t, argv, rs))
    decreases |s|
  {
    LikeSkip(s, t);
    var s1, t1 := Skip(s), Skip(t);
    if !EndsCommand(Look(s1)) {
      LikeWord(s1, t1);
      var n := WordEnd(s1);
      if n != 0 && |argv| + 1 < MAXARGS {
        LikeRedirs(s1[n..], t1[n..], rs);
        var p, q := ParseRedirs(s1[n..], rs), ParseRedirs(t1[n..], rs);
        if p.Ok? {
          LikeArgs(p.rest, q.rest, argv + [s1[..n]], p.value);
        }
      }
    }
  }

  lemma {:induction false} LikeExec(s: string, t: string)
    requires Like(s, t)
    ensures SameParse(ParseExec(s), ParseExec(t))
    decreases |s|, 1
  {
    LikeSkip(s, t);
    var s1, t1 := Skip(s), Skip(t);
    if Look(s1) == '(' {
      LikeBlock(s1, t1);
    } else {
      LikeRedirs(s1, t1, []);
      var p, q := ParseRedirs(s1, []), ParseRedirs(t1, []);
      if p.Ok? {
        LikeArgs(p.rest, q.rest, [], p.value);
      }
    }
  }

  lemma {:induction false} LikeBlock(s: string, t: string)
    requires Like(s, t) && Look(s) == '(' && Look(t) == '('
    ensures SameParse(ParseBlock(s), ParseBlock(t))
    decreases |s|, 0
  {
    LikeTail(s, t, 1);
    LikeLine(s[1..], t[1..]);
    var p, q := ParseLine(s[1..]), ParseLine(t[1..]);
    if p.Ok? {
      LikeSkip(p.rest, q.rest);
      if Look(Skip(p.rest)) == ')' {
        LikeTail(Skip(p.rest), Skip(q.rest), 1);
        LikeRedirs(Skip(p.rest)[1..], Skip(q.rest)[1..], []);
      }
    }
  }

  lemma {:induction false} LikePipe(s: string, t: string)
    requires Like(s, t)
    ensures SameParse(ParsePipe(s), ParsePipe(t))
    decreases |s|, 2
  {
    LikeExec(s, t);
    var p, q := ParseExec(s), ParseExec(t);
    if p.Ok? {
      LikeSkip(p.rest, q.rest);
      if Look(Skip(p.rest)) == '|' {
        LikeTail(Skip(p.rest), Skip(q.rest), 1);
        LikePipe(Skip(p.rest)[1..], Skip(q.rest)[1..]);
      }
    }
  }

  lemma {:induction false} LikeBacks(s: string, t: string, c: Cmd<string>)
    requires Like(s, t)
    ensures ParseBacks(s, c).0 == ParseBacks(t, c).0 && Like(ParseBacks(s, c).1, ParseBacks(t, c).1)
    ensures Look(ParseBacks(s, c).1) == Look(ParseBacks(t, c).1)
    decreases |s|
  {
    LikeSkip(s, t);
    if Look(Skip(s)) == '&' {
      LikeTail(Skip(s), Skip(t), 1);
      LikeBacks(Skip(s)[1..], Skip(t)[1..], Back(c));
    }
  }

  lemma {:induction false} LikeLine(s: string, t: string)
    requires Like(s, t)
    ensures SameParse(ParseLine(s), ParseLine(t))
    decreases |s|, 3
  {
    LikePipe(s, t);
    var p, q := ParsePipe(s), ParsePipe(t);
    if p.Ok? {
      LikeBacks(p.rest, q.rest, p.value);
      var s1, t1 := ParseBacks(p.rest, p.value).1, ParseBacks(q.rest, p.value).1;
      if Look(s1) == ';' {
        LikeTail(s1, t1, 1);
        LikeLine(s1[1..], t1[1..]);
      }
    }
  }

  /** Lines that differ only in their kinds of blanks, and in blanks at the end, mean the same. */
  lemma BlanksAreAlike(s: string, t: string)
    requires Like(s, t)
    ensures ParseCmd(s) == ParseCmd(t)
  {
    LikeLine(s, t);
    if ParseLine(s).Ok? {
      LikeSkip(ParseLine(s).rest, ParseLine(t).rest);
    }
  }

  /** Any blank may be replaced by any other, or put at the end of the line. */
  lemma AnyBlankWillDo(s: string, i: nat, c: char)
    requires Blank(c)
    ensures i < |s| && Blank(s[i]) ==> ParseCmd(s[i := c]) == ParseCmd(s)
    ensures ParseCmd(s + [c]) == ParseCmd(s)
  {
    if i < |s| && Blank(s[i]) {
      BlanksAreAlike(s, s[i := c]);
    }
    BlanksAreAlike(s, s + [c]);
  }

  /** A word typed with its newline is a command of one word. */
  lemma TypedWord(w: string)
    requires IsWord(w)
    ensures ParseCmd(w + "\n") == Ok(Exec([w]), [])
  {
    RoundTrip(Exec([w]));
    PrintedWord(w);
    BlanksAreAlike(w + " ", w + "\n");
  }

  // ----- the operators -----

  lemma PrintedWord(w: string)
    ensures PrintExec(Exec([w])) == w + " " && PrintPipe(Exec([w])) == w + " "
    ensures PrintBack(Exec([w])) == w + " " && PrintLine(Exec([w])) == w + " "
  {
    var c := Exec([w]);
    assert PrintWords([w]) == w + (" " + PrintWords([]));
    assert PrintPipe(c) == PrintExec(c);
    assert PrintBack(c) == PrintPipe(c);
    assert PrintLine(c) == PrintBack(c);
  }

  /** '|' is a pipe, ';' a list and '&' the background. */
  lemma OperatorsAre(a: string, b: string)
    requires IsWord(a) && IsWord(b)
    ensures ParseCmd(a + " " + "| " + (b + " ")) == Ok(Pipe(Exec([a]), Exec([b])), [])
    ensures ParseCmd(a + " " + "; " + (b + " ")) == Ok(List(Exec([a]), Exec([b])), [])
    ensures ParseCmd(a + " " + "& ") == Ok(Back(Exec([a])), [])
  {
    PrintedWord(a);
    PrintedWord(b);
    var p, l, k := Pipe(Exec([a]), Exec([b])), List(Exec([a]), Exec([b])), Back(Exec([a]));
    RoundTrip(p);
    RoundTrip(l);
    RoundTrip(k);
    assert PrintLine(p) == PrintBack(p) == PrintPipe(p) == a + " " + "| " + (b + " ");
    assert PrintLine(l) == a + " " + "; " + (b + " ");
    assert PrintLine(k) == PrintBack(k) == a + " " + "& ";
  }

  /** '<' reads and '>' writes; a parenthesised list is one command of a pipe. */
  lemma RedirectionsAre(a: string, b: string, f: string)
    requires IsWord(a) && IsWord(b) && IsWord(f)
    ensures ParseCmd(a + " " + "<" + (" " + (f + " "))) == Ok(Redir(Exec([a]), f, Read), [])
    ensures ParseCmd(a + " " + ">" + (" " + (f + " "))) == Ok(Redir(Exec([a]), f, Write), [])
    ensures ParseCmd("( " + (a + " " + "; " + (b + " ")) + ") " + "| " + (f + " ")) ==
      Ok(Pipe(List(Exec([a]), Exec([b])), Exec([f])), [])
  {
    PrintedWord(a);
    PrintedWord(b);
    PrintedWord(f);
    var r, w, l := Redir(Exec([a]), f, Read), Redir(Exec([a]), f, Write), List(Exec([a]), Exec([b]));
    var p := Pipe(l, Exec([f]));
    RoundTrip(r);
    RoundTrip(w);
    RoundTrip(p);
    assert PrintLine(r) == PrintBack(r) == PrintPipe(r) == PrintExec(r) == a + " " + "<" + (" " + (f + " "));
    assert PrintLine(w) == PrintBack(w) == PrintPipe(w) == PrintExec(w) == a + " " + ">" + (" " + (f + " "));
    assert PrintLine(l) == a + " " + "; " + (b + " ");
    assert PrintExec(l) == "( " + PrintLine(l) + ") ";
    assert PrintLine(p) == PrintBack(p) == PrintPipe(p) == PrintExec(l) + "| " + (f + " ");
  }

  /** '>>' opens the file just like '>'. */
  lemma AppendIsWrite(x: string, acc: seq<Redirection<string>>)
    requires Look(x) != '>'
    ensures ParseRedirs(">>" + x, acc) == ParseRedirs(">" + x, acc)
  {
    var s, t := ">>" + x, ">" + x;
    assert s[2..] == x && t[1..] == x;
  }

  /** A command has at most nine arguments. */
  lemma NineArguments(argv: seq<string>)
    ensures WellFormed(Exec(argv)) <==> |argv| <= 9 && forall i :: 0 <= i < |argv| ==> IsWord(argv[i])
  {
  }
}
