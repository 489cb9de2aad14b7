/** Parsing undoes printing, for every command tree the parser can produce. */
module ShellRoundTrip {
  import opened ShellGrammar

  /** Trees the parser can produce: proper words, and at most nine arguments to a command. */
  ghost predicate WellFormed(c: Cmd<string>)
  {
    match c
    case Exec(argv) => |argv| < MAXARGS && forall i :: 0 <= i < |argv| ==> IsWord(argv[i])
    case Redir(d, file, _) => WellFormed(d) && IsWord(file)
    case Pipe(l, r) => WellFormed(l) && WellFormed(r)
    case List(l, r) => WellFormed(l) && WellFormed(r)
    case Back(d) => WellFormed(d)
  }

  /** The character that decides what comes after the current command. */
  function Stop(rest: string): (c: char) { Look(Skip(rest)) }

  // ----- spaces and words -----

  lemma SkipBlank(s: string)
    ensures Skip(" " + s) == Skip(s)
  {
    assert (" " + s)[1..] == s;
  }

  lemma {:induction false} WordEndOf(w: string, x: string)
    requires IsWord(w) && !WordChar(Look(x))
    ensures WordEnd(w + x) == |w|
  {
    var t := w + x;
    assert forall i :: 0 <= i < |w| ==> t[i] == w[i];
    assert |w| < |t| ==> t[|w|] == x[0];
  }

  // ----- redirections -----

  function PrintRedir(r: Redirection<string>): (s: string)
  {
    [Operator(r.mode)] + (" " + (r.file + " "))
  }

  function PrintRedirs(rs: seq<Redirection<string>>): (s: string)
  {
    if rs == [] then "" else PrintRedir(rs[0]) + PrintRedirs(rs[1..])
  }

  lemma RedirsBlank(s: string, acc: seq<Redirection<string>>)
    ensures ParseRedirs(" " + s, acc) == ParseRedirs(s, acc)
  {
    SkipBlank(s);
  }

  lemma WordHead(w: string, x: string)
    requires IsWord(w)
    ensures var s := w + (" " + x);
      Skip(s) == s && WordChar(Look(s)) && WordEnd(s) == |w| && s[..|w|] == w && s[|w|..] == " " + x
  {
    assert Look(" " + x) == ' ';
    WordEndOf(w, " " + x);
  }

  lemma RedirsOperator(mode: Mode, s2: string, acc: seq<Redirection<string>>)
    requires Skip(s2) == s2 && WordEnd(s2) != 0
    ensures var n := WordEnd(s2);
      ParseRedirs([Operator(mode)] + (" " + s2), acc) == ParseRedirs(s2[n..], acc + [Redirection(s2[..n], mode)])
  {
    var s := [Operator(mode)] + (" " + s2);
    assert Skip(s) == s && s[1..] == " " + s2 && s[1] == ' ';
    SkipBlank(s2);
  }

  lemma RedirsOne(r: Redirection<string>, x: string, acc: seq<Redirection<string>>)
    requires IsWord(r.file)
    ensures ParseRedirs(PrintRedir(r) + x, acc) == ParseRedirs(x, acc + [r])
  {
    var s2 := r.file + (" " + x);
    assert PrintRedir(r) + x == [Operator(r.mode)] + (" " + s2);
    WordHead(r.file, x);
    RedirsOperator(r.mode, s2, acc);
    RedirsBlank(x, acc + [r]);
  }

  lemma RedirsNone(x: string, acc: seq<Redirection<string>>)
    requires Stop(x) != '<' && Stop(x) != '>'
    ensures ParseRedirs(x, acc) == Ok(acc, Skip(x))
  {
  }

  lemma PrintRedirsCons(rs: seq<Redirection<string>>, x: string)
    requires rs != []
    ensures PrintRedirs(rs) + x == PrintRedir(rs[0]) + (PrintRedirs(rs[1..]) + x)
  {
    var a, b := PrintRedir(rs[0]), PrintRedirs(rs[1..]);
    assert (a + b) + x == a + (b + x);
  }

  lemma {:induction false} RedirsAll(rs: seq<Redirection<string>>, x: string, acc: seq<Redirection<string>>)
    requires forall i :: 0 <= i < |rs| ==> IsWord(rs[i].file)
    requires Stop(x) != '<' && Stop(x) != '>'
    ensures ParseRedirs(PrintRedirs(rs) + x, acc) == Ok(acc + rs, Skip(x))
    decreases |rs|
  {
    if rs == [] {
      RedirsNone(x, acc);
      assert PrintRedirs(rs) + x == x && acc + rs == acc;
    } else {
      RedirsAll(rs[1..], x, acc + [rs[0]]);
      RedirsMore(rs, x, acc);
    }
  }

  lemma Shift<T>(acc: seq<T>, rs: seq<T>)
    requires rs != []
    ensures (acc + [rs[0]]) + rs[1..] == acc + rs
  {
  }

  lemma RedirsMore(rs: seq<Redirection<string>>, x: string, acc: seq<Redirection<string>>)
    requires rs != [] && IsWord(rs[0].file)
    requires ParseRedirs(PrintRedirs(rs[1..]) + x, acc + [rs[0]]) == Ok((acc + [rs[0]]) + rs[1..], Skip(x))
    ensures ParseRedirs(PrintRedirs(rs) + x, acc) == Ok(acc + rs, Skip(x))
  {
    PrintRedirsCons(rs, x);
    RedirsOne(rs[0], PrintRedirs(rs[1..]) + x, acc);
    Shift(acc, rs);
  }

  // ----- a command with its redirections -----

  function Core(c: Cmd<string>): (d: Cmd<string>)
    ensures !d.Redir?
  {
    if c.Redir? then Core(c.cmd) else c
  }

  function Chain(c: Cmd<string>): (rs: seq<Redirection<string>>)
  {
    if c.Redir? then Chain(c.cmd) + [Redirection(c.file, c.mode)] else []
  }

  lemma Associates(a: string, b: string, c: string)
    ensures (a + b) + c == a + (b + c)
  {
  }

  lemma {:induction false} PrintRedirsSnoc(rs: seq<Redirection<string>>, r: Redirection<string>)
    ensures PrintRedirs(rs + [r]) == PrintRedirs(rs) + PrintRedir(r)
    decreases |rs|
  {
    if rs == [] {
      assert rs + [r] == [r];
    } else {
      PrintRedirsSnoc(rs[1..], r);
      assert (rs + [r])[1..] == rs[1..] + [r];
      Associates(PrintRedir(rs[0]), PrintRedirs(rs[1..]), PrintRedir(r));
    }
  }

  lemma PrintOne(c: Cmd<string>, a: string, b: string)
    requires c.Redir? && PrintExec(c.cmd) == a + b
    ensures PrintExec(c) == a + (b + PrintRedir(Redirection(c.file, c.mode)))
  {
    Associates(a, b, PrintRedir(Redirection(c.file, c.mode)));
  }

  /** Printing a command prints its core and then its redirections, innermost first. */
  lemma {:induction false} PrintChain(c: Cmd<string>)
    ensures PrintExec(c) == PrintExec(Core(c)) + PrintRedirs(Chain(c))
  {
    if c.Redir? {
      PrintChain(c.cmd);
      PrintOne(c, PrintExec(Core(c)), PrintRedirs(Chain(c.cmd)));
      PrintRedirsSnoc(Chain(c.cmd), Redirection(c.file, c.mode));
    }
  }

  lemma {:induction false} SplitChain(c: Cmd<string>)
    requires WellFormed(c)
    ensures PrintExec(c) == PrintExec(Core(c)) + PrintRedirs(Chain(c))
    ensures Wrap(Core(c), Chain(c)) == c && WellFormed(Core(c))
    ensures forall i :: 0 <= i < |Chain(c)| ==> IsWord(Chain(c)[i].file)
  {
    PrintChain(c);
    if c.Redir? {
      SplitChain(c.cmd);
      assert Chain(c)[..|Chain(c)| - 1] == Chain(c.cmd);
    }
  }

  // ----- arguments -----

  lemma WordsFirst(ws: seq<string>, x: string)
    requires ws != []
    ensures PrintWords(ws) + x == ws[0] + (" " + (PrintWords(ws[1..]) + x))
  {
  }

  lemma ArgsStop(x: string, argv: seq<string>, rs: seq<Redirection<string>>)
    requires EndsCommand(Stop(x))
    ensures ParseArgs(x, argv, rs) == Ok(Wrap(Exec(argv), rs), Skip(x))
  {
  }

  lemma ArgsWord(w: string, x: string, argv: seq<string>, rs: seq<Redirection<string>>)
    requires IsWord(w) && |argv| + 1 < MAXARGS && ParseRedirs(x, rs).Ok?
    ensures var p := ParseRedirs(x, rs);
      ParseArgs(w + (" " + x), argv, rs) == ParseArgs(p.rest, argv + [w], p.value)
  {
    WordHead(w, x);
    RedirsBlank(x, rs);
  }

  lemma ArgsLast(w: string, rs: seq<Redirection<string>>, x: string, argv: seq<string>)
    requires IsWord(w) && |argv| + 1 < MAXARGS && EndsCommand(Stop(x))
    requires forall i :: 0 <= i < |rs| ==> IsWord(rs[i].file)
    ensures ParseArgs(w + (" " + (PrintRedirs(rs) + x)), argv, []) == Ok(Wrap(Exec(argv + [w]), rs), Skip(x))
  {
    RedirsAll(rs, x, []);
    ArgsWord(w, PrintRedirs(rs) + x, argv, []);
    assert [] + rs == rs;
    ArgsStop(Skip(x), argv + [w], rs);
  }

  lemma ArgsNext(w: string, v: string, y: string, argv: seq<string>)
    requires IsWord(w) && IsWord(v) && |argv| + 1 < MAXARGS
    ensures ParseArgs(w + (" " + (v + (" " + y))), argv, []) == ParseArgs(v + (" " + y), argv + [w], [])
  {
    var next := v + (" " + y);
    WordHead(v, y);
    RedirsNone(next, []);
    ArgsWord(w, next, argv, []);
  }

  lemma {:induction false} ArgsAll(ws: seq<string>, rs: seq<Redirection<string>>, x: string, argv: seq<string>)
    requires ws != [] && |argv| + |ws| < MAXARGS && forall i :: 0 <= i < |ws| ==> IsWord(ws[i])
    requires forall i :: 0 <= i < |rs| ==> IsWord(rs[i].file)
    requires EndsCommand(Stop(x))
    ensures ParseArgs(PrintWords(ws) + (PrintRedirs(rs) + x), argv, []) == Ok(Wrap(Exec(argv + ws), rs), Skip(x))
    decreases |ws|
  {
    var tail := PrintRedirs(rs) + x;
    WordsFirst(ws, tail);
    if |ws| == 1 {
      assert PrintWords(ws[1..]) + tail == tail;
      ArgsLast(ws[0], rs, x, argv);
      assert [ws[0]] == ws;
    } else {
      WordsFirst(ws[1..], tail);
      ArgsNext(ws[0], ws[1], PrintWords(ws[1..][1..]) + tail, argv);
      ArgsAll(ws[1..], rs, x, argv + [ws[0]]);
      Shift(argv, ws);
    }
  }

  /** Without a parenthesis, `parseexec` reads redirections and then arguments. */
  lemma ExecPlain(s: string)
    requires Stop(s) != '(' && ParseRedirs(s, []).Ok?
    ensures var p := ParseRedirs(s, []); ParseExec(s) == ParseArgs(p.rest, [], p.value)
  {
    assert ParseRedirs(Skip(s), []) == ParseRedirs(s, []) by { SkipTwice(s); }
  }

  lemma SimpleExec(argv: seq<string>, rs: seq<Redirection<string>>, x: string)
    requires |argv| < MAXARGS && forall i :: 0 <= i < |argv| ==> IsWord(argv[i])
    requires forall i :: 0 <= i < |rs| ==> IsWord(rs[i].file)
    requires EndsCommand(Stop(x))
    ensures ParseExec(PrintWords(argv) + (PrintRedirs(rs) + x)) == Ok(Wrap(Exec(argv), rs), Skip(x))
  {
    var tail := PrintRedirs(rs) + x;
    var s := PrintWords(argv) + tail;
    if argv == [] {
      assert s == tail;
      RedirsAll(rs, x, []);
      assert [] + rs == rs;
      TailStop(rs, x);
      ExecPlain(s);
      ArgsStop(Skip(x), [], rs);
    } else {
      WordsFirst(argv, tail);
      WordHead(argv[0], PrintWords(argv[1..]) + tail);
      RedirsNone(s, []);
      ExecPlain(s);
      ArgsAll(argv, rs, x, []);
      assert [] + argv == argv;
    }
  }

  lemma TailStop(rs: seq<Redirection<string>>, x: string)
    requires EndsCommand(Stop(x))
    ensures Stop(PrintRedirs(rs) + x) != '('
  {
    if rs == [] {
      assert PrintRedirs(rs) + x == x;
    } else {
      assert (PrintRedirs(rs) + x)[0] == Operator(rs[0].mode);
    }
  }

  // ----- the levels of the grammar -----

  lemma ExecBlank(s: string)
    ensures ParseExec(" " + s) == ParseExec(s)
  {
    SkipBlank(s);
  }

  lemma PipeBlank(s: string)
    ensures ParsePipe(" " + s) == ParsePipe(s)
  {
    ExecBlank(s);
  }

  lemma LineBlank(s: string)
    ensures ParseLine(" " + s) == ParseLine(s)
  {
    PipeBlank(s);
  }

  lemma BacksBlank(s: string, c: Cmd<string>)
    ensures ParseBacks(" " + s, c) == ParseBacks(s, c)
  {
    SkipBlank(s);
  }

  lemma {:induction false} ExecTrip(c: Cmd<string>, x: string)
    requires WellFormed(c) && EndsCommand(Stop(x))
    ensures ParseExec(PrintExec(c) + x) == Ok(c, Skip(x))
    decreases c, if c.Exec? || c.Redir? then 0 else 8
  {
    SplitChain(c);
    var core, rs := Core(c), Chain(c);
    assert PrintExec(c) + x == PrintExec(core) + (PrintRedirs(rs) + x);
    if core.Exec? {
      SimpleExec(core.argv, rs, x);
    } else {
      CoreSmaller(c);
      BlockTrip(core, rs, x);
    }
  }

  lemma {:induction false} CoreSmaller(c: Cmd<string>)
    ensures Core(c) == c || Core(c) < c
  {
    if c.Redir? {
      CoreSmaller(c.cmd);
    }
  }

  /** A parenthesis opens a line that must be closed again. */
  lemma ExecBlock(y: string, c: Cmd<string>, tail: string, rs: seq<Redirection<string>>, rest: string)
    requires ParseLine(y) == Ok(c, ")" + tail) && ParseRedirs(tail, []) == Ok(rs, rest)
    ensures ParseExec("(" + y) == Ok(Wrap(c, rs), rest)
  {
    assert ("(" + y)[1..] == y;
    assert (")" + tail)[1..] == tail;
    assert Skip("(" + y) == "(" + y;
  }

  lemma {:induction false} BlockTrip(core: Cmd<string>, rs: seq<Redirection<string>>, x: string)
    requires WellFormed(core) && !core.Exec? && !core.Redir?
    requires forall i :: 0 <= i < |rs| ==> IsWord(rs[i].file)
    requires EndsCommand(Stop(x))
    ensures ParseExec(PrintExec(core) + (PrintRedirs(rs) + x)) == Ok(Wrap(core, rs), Skip(x))
    decreases core, 7
  {
    var tail := PrintRedirs(rs) + x;
    var close := ")" + (" " + tail);
    LineTrip(core, close);
    Enclosed(PrintLine(core), core, tail, rs, x);
    BlockText(PrintLine(core), tail);
  }

  lemma BlockText(line: string, tail: string)
    ensures ("( " + line + ") ") + tail == "(" + (" " + (line + (")" + (" " + tail))))
  {
  }

  lemma Enclosed(line: string, core: Cmd<string>, tail: string, rs: seq<Redirection<string>>, x: string)
    requires tail == PrintRedirs(rs) + x && EndsCommand(Stop(x))
    requires forall i :: 0 <= i < |rs| ==> IsWord(rs[i].file)
    requires ParseLine(line + (")" + (" " + tail))) == Ok(core, Skip(")" + (" " + tail)))
    ensures ParseExec("(" + (" " + (line + (")" + (" " + tail))))) == Ok(Wrap(core, rs), Skip(x))
  {
    LineBlank(line + (")" + (" " + tail)));
    RedirsBlank(tail, []);
    RedirsAll(rs, x, []);
    assert [] + rs == rs;
    ExecBlock(" " + (line + (")" + (" " + tail))), core, " " + tail, rs, Skip(x));
  }

  lemma {:induction false} PipeTrip(c: Cmd<string>, x: string)
    requires WellFormed(c) && EndsCommand(Stop(x)) && Stop(x) != '|'
    ensures ParsePipe(PrintPipe(c) + x) == Ok(c, Skip(x))
    decreases c, if c.Back? || c.List? then 10 else 2
  {
    if c.Pipe? {
      var y := "| " + (PrintPipe(c.right) + x);
      assert PrintPipe(c) + x == PrintExec(c.left) + y;
      ExecTrip(c.left, y);
      assert y[1..] == " " + (PrintPipe(c.right) + x);
      PipeBlank(PrintPipe(c.right) + x);
      PipeTrip(c.right, x);
    } else {
      ExecTrip(c, x);
      SkipTwice(x);
    }
  }

  lemma {:induction false} BackTrip(c: Cmd<string>, x: string)
    requires WellFormed(c) && EndsCommand(Stop(x)) && Stop(x) != '|'
    ensures var p := ParsePipe(PrintBack(c) + x);
      p.Ok? && ParseBacks(p.rest, p.value) == ParseBacks(x, c)
    decreases c, if c.List? then 12 else 4
  {
    if c.Back? {
      var y := "& " + x;
      assert PrintBack(c) + x == PrintBack(c.cmd) + y;
      BackTrip(c.cmd, y);
      assert y[1..] == " " + x;
      BacksBlank(x, c);
    } else {
      PipeTrip(c, x);
      SkipTwice(x);
    }
  }

  lemma {:induction false} LineTrip(c: Cmd<string>, x: string)
    requires WellFormed(c) && (Stop(x) == ')' || Stop(x) == '\0')
    ensures ParseLine(PrintLine(c) + x) == Ok(c, Skip(x))
    decreases c, 6
  {
    if c.List? {
      var y := "; " + (PrintLine(c.right) + x);
      assert PrintLine(c) + x == PrintBack(c.left) + y;
      BackTrip(c.left, y);
      assert y[1..] == " " + (PrintLine(c.right) + x);
      LineBlank(PrintLine(c.right) + x);
      LineTrip(c.right, x);
    } else {
      BackTrip(c, x);
    }
  }

  /** Printing a tree and parsing the text gives the tree back, with nothing left over. */
  lemma RoundTrip(c: Cmd<string>)
    requires WellFormed(c)
    ensures ParseCmd(PrintLine(c)) == Ok(c, [])
  {
    LineTrip(c, []);
    assert PrintLine(c) + [] == PrintLine(c);
  }

  // ----- what the parser produces -----

  ghost predicate Files(rs: seq<Redirection<string>>)
  {
    forall i :: 0 <= i < |rs| ==> IsWord(rs[i].file)
  }

  lemma {:induction false} RedirsYieldWords(s: string, acc: seq<Redirection<string>>)
    requires Files(acc)
    ensures ParseRedirs(s, acc).Ok? ==> Files(ParseRedirs(s, acc).value)
    decreases |s|
  {
    var s1 := Skip(s);
    if Look(s1) == '<' || Look(s1) == '>' {
      var mode := if s1[0] == '<' then Read else Write;
      var s2 := Skip(if |s1| >= 2 && s1[0] == '>' && s1[1] == '>' then s1[2..] else s1[1..]);
      var n := WordEnd(s2);
      if n != 0 {
        RedirsYieldWords(s2[n..], acc + [Redirection(s2[..n], mode)]);
      }
    }
  }

  lemma {:induction false} WrapWellFormed(c: Cmd<string>, rs: seq<Redirection<string>>)
    requires WellFormed(c) && Files(rs)
    ensures WellFormed(Wrap(c, rs))
    decreases |rs|
  {
    if rs != [] {
      WrapWellFormed(c, rs[..|rs| - 1]);
    }
  }

  lemma {:induction false} ArgsWellFormed(s: string, argv: seq<string>, rs: seq<Redirection<string>>)
    requires WellFormed(Exec(argv)) && Files(rs)
    ensures ParseArgs(s, argv, rs).Ok? ==> WellFormed(ParseArgs(s, argv, rs).value)
    decreases |s|
  {
    var s1 := Skip(s);
    var n := WordEnd(s1);
    if EndsCommand(Look(s1)) {
      WrapWellFormed(Exec(argv), rs);
    } else if n != 0 && |argv| + 1 < MAXARGS {
      RedirsYieldWords(s1[n..], rs);
      var p := ParseRedirs(s1[n..], rs);
      if p.Ok? {
        ArgsWellFormed(p.rest, argv + [s1[..n]], p.value);
      }
    }
  }

  lemma {:induction false} ExecWellFormed(s: string)
    ensures ParseExec(s).Ok? ==> WellFormed(ParseExec(s).value)
    decreases |s|, 1
  {
    var s1 := Skip(s);
    if Look(s1) == '(' {
      var p := ParseLine(s1[1..]);
      LineWellFormed(s1[1..]);
      if p.Ok? && Look(Skip(p.rest)) == ')' {
        var q := ParseRedirs(Skip(p.rest)[1..], []);
        RedirsYieldWords(Skip(p.rest)[1..], []);
        if q.Ok? {
          WrapWellFormed(p.value, q.value);
        }
      }
    } else {
      RedirsYieldWords(s1, []);
      var p := ParseRedirs(s1, []);
      if p.Ok? {
        ArgsWellFormed(p.rest, [], p.value);
      }
    }
  }

  lemma {:induction false} PipeWellFormed(s: string)
    ensures ParsePipe(s).Ok? ==> WellFormed(ParsePipe(s).value)
    decreases |s|, 2
  {
    ExecWellFormed(s);
    var p := ParseExec(s);
    if p.Ok? && Look(Skip(p.rest)) == '|' {
      PipeWellFormed(Skip(p.rest)[1..]);
    }
  }

  lemma {:induction false} BacksWellFormed(s: string, c: Cmd<string>)
    requires WellFormed(c)
    ensures WellFormed(ParseBacks(s, c).0)
    decreases |s|
  {
    if Look(Skip(s)) == '&' {
      BacksWellFormed(Skip(s)[1..], Back(c));
    }
  }

  lemma {:induction false} LineWellFormed(s: string)
    ensures ParseLine(s).Ok? ==> WellFormed(ParseLine(s).value)
    decreases |s|, 3
  {
    PipeWellFormed(s);
    var p := ParsePipe(s);
    if p.Ok? {
      BacksWellFormed(p.rest, p.value);
      var (c, s1) := ParseBacks(p.rest, p.value);
      if Look(s1) == ';' {
        LineWellFormed(s1[1..]);
      }
    }
  }

  /** Whatever line is accepted, printing its tree gives a normal form with the same meaning. */
  lemma PrintingNormalises(s: string)
    requires ParseCmd(s).Ok?
    ensures WellFormed(ParseCmd(s).value)
    ensures ParseCmd(PrintLine(ParseCmd(s).value)) == ParseCmd(s)
  {
    LineWellFormed(s);
    RoundTrip(ParseCmd(s).value);
  }

  /** The well-formed trees are exactly the trees the parser can produce. */
  lemma ParserImage(c: Cmd<string>)
    ensures WellFormed(c) <==> exists s :: ParseCmd(s) == Ok(c, [])
  {
    if WellFormed(c) {
      RoundTrip(c);
    }
    forall s | ParseCmd(s) == Ok(c, [])
      ensures WellFormed(c)
    {
      LineWellFormed(s);
    }
  }
}
