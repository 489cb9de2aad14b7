/**
  The recursive-descent parser of src/sh.c as it runs over the line buffer: a cursor moved by
  loops, words kept as pairs of buffer positions, and `nulterminate` writing NULs into the buffer.
  Each parsing method is proved to compute the function of the same name in `ShellGrammar`.
 */
module Shell {
  import opened ShellGrammar

  /** A word of the buffer, [q, eq). */
  datatype Span = Span(q: nat, eq: nat)

  /** A span covers a whole word: every character of it, and no word character follows. */
  predicate WordAt(s: string, w: Span)
  {
    && w.q < w.eq <= |s|
    && (forall i :: w.q <= i < w.eq ==> WordChar(s[i]))
    && (w.eq == |s| || !WordChar(s[w.eq]))
  }

  predicate WordsAt(s: string, ws: seq<Span>)
  {
    forall i :: 0 <= i < |ws| ==> WordAt(s, ws[i])
  }

  predicate FilesAt(s: string, rs: seq<Redirection<Span>>)
  {
    forall i :: 0 <= i < |rs| ==> WordAt(s, rs[i].file)
  }

  predicate TreeAt(s: string, c: Cmd<Span>)
  {
    match c
    case Exec(argv) => WordsAt(s, argv)
    case Redir(d, file, _) => TreeAt(s, d) && WordAt(s, file)
    case Pipe(l, r) => TreeAt(s, l) && TreeAt(s, r)
    case List(l, r) => TreeAt(s, l) && TreeAt(s, r)
    case Back(d) => TreeAt(s, d)
  }

  function Text(s: string, w: Span): (r: string)
    requires WordAt(s, w)
  {
    s[w.q..w.eq]
  }

  function Texts(s: string, ws: seq<Span>): (r: seq<string>)
    requires WordsAt(s, ws)
    ensures |r| == |ws| && forall i :: 0 <= i < |ws| ==> r[i] == Text(s, ws[i])
  {
    if ws == [] then [] else Texts(s, ws[..|ws| - 1]) + [Text(s, ws[|ws| - 1])]
  }

  function FileTexts(s: string, rs: seq<Redirection<Span>>): (r: seq<Redirection<string>>)
    requires FilesAt(s, rs)
    ensures |r| == |rs|
  {
    if rs == [] then []
    else
      var last := rs[|rs| - 1];
      FileTexts(s, rs[..|rs| - 1]) + [Redirection(Text(s, last.file), last.mode)]
  }

  /** The tree of strings behind a tree of spans. */
  function TreeText(s: string, c: Cmd<Span>): (r: Cmd<string>)
    requires TreeAt(s, c)
  {
    match c
    case Exec(argv) => Exec(Texts(s, argv))
    case Redir(d, file, mode) => Redir(TreeText(s, d), Text(s, file), mode)
    case Pipe(l, r) => Pipe(TreeText(s, l), TreeText(s, r))
    case List(l, r) => List(TreeText(s, l), TreeText(s, r))
    case Back(d) => Back(TreeText(s, d))
  }

  lemma {:induction false} WrapText(s: string, c: Cmd<Span>, rs: seq<Redirection<Span>>)
    requires TreeAt(s, c) && FilesAt(s, rs)
    ensures TreeAt(s, Wrap(c, rs)) && TreeText(s, Wrap(c, rs)) == Wrap(TreeText(s, c), FileTexts(s, rs))
    decreases |rs|
  {
    if rs != [] {
      WrapText(s, c, rs[..|rs| - 1]);
      assert FileTexts(s, rs)[..|rs| - 1] == FileTexts(s, rs[..|rs| - 1]);
    }
  }

  // ----- the lexer -----

  function Kind(r: string): (c: char)
  {
    if r == [] then '\0'
    else if r[0] == '>' && Look(r[1..]) == '>' then '+'
    else if Symbol(r[0]) || r[0] == '\0' then r[0]
    else 'a'
  }

  function TokenLength(r: string): (n: nat)
    requires !Space(Look(r))
    ensures n <= |r| && (Kind(r) != '\0' ==> 1 <= n)
  {
    match Kind(r)
    case '\0' => 0
    case '+' => 2
    case 'a' => WordEnd(r)
    case _ => 1
  }

  method SkipSpace(s: string, ps: nat) returns (p: nat)
    requires ps <= |s|
    ensures ps <= p <= |s| && s[p..] == Skip(s[ps..])
  {
    p := ps;
    while p < |s| && Space(s[p])
      invariant ps <= p <= |s| && Skip(s[p..]) == Skip(s[ps..])
    {
      assert s[p..][1..] == s[p + 1..];
      p := p + 1;
    }
  }

  /** `peek`, returning the character found there (NUL at the end). */
  method Peek(s: string, ps: nat) returns (c: char, p: nat)
    requires ps <= |s|
    ensures ps <= p <= |s| && s[p..] == Skip(s[ps..]) && c == Look(Skip(s[ps..]))
  {
    p := SkipSpace(s, ps);
    c := if p < |s| then s[p] else '\0';
  }

  method WordStop(s: string, q: nat) returns (eq: nat)
    requires q <= |s|
    ensures q <= eq <= |s| && eq - q == WordEnd(s[q..])
  {
    eq := q;
    while eq < |s| && WordChar(s[eq])
      invariant q <= eq <= |s| && (eq - q) + WordEnd(s[eq..]) == WordEnd(s[q..])
    {
      assert s[eq..][1..] == s[eq + 1..];
      eq := eq + 1;
    }
  }

  /** `gettoken`: the token's kind and extent, and the cursor behind the space that follows it. */
  method GetToken(s: string, ps: nat) returns (tok: char, q: nat, eq: nat, p: nat)
    requires ps <= |s| && '\0' !in s
    ensures ps <= q <= eq <= p <= |s| && s[q..] == Skip(s[ps..])
    ensures tok == Kind(s[q..]) && eq == q + TokenLength(s[q..])
    ensures s[p..] == Skip(s[eq..])
  {
    q := SkipSpace(s, ps);
    eq := q;
    tok := if q < |s| then s[q] else '\0';
    if tok == '\0' {
    } else if tok == '>' {
      eq := eq + 1;
      assert s[q..][1..] == s[eq..];
      if eq < |s| && s[eq] == '>' {
        tok := '+';
        eq := eq + 1;
      }
    } else if Symbol(tok) {
      eq := eq + 1;
    } else {
      tok := 'a';
      eq := WordStop(s, q);
    }
    p := SkipSpace(s, eq);
  }

  lemma RedirsSkip(x: string, acc: seq<Redirection<string>>)
    ensures ParseRedirs(Skip(x), acc) == ParseRedirs(x, acc)
  {
    SkipTwice(x);
  }

  lemma ArgsSkip(x: string, argv: seq<string>, rs: seq<Redirection<string>>)
    ensures ParseArgs(Skip(x), argv, rs) == ParseArgs(x, argv, rs)
  {
    SkipTwice(x);
  }

  /** A token of kind 'a' is a whole word. */
  lemma WordToken(s: string, q: nat, eq: nat)
    requires q <= eq <= |s| && !Space(Look(s[q..])) && eq == q + TokenLength(s[q..])
    ensures Kind(s[q..]) == 'a' <==> WordEnd(s[q..]) != 0
    ensures Kind(s[q..]) == 'a' ==>
      WordAt(s, Span(q, eq)) && eq == q + WordEnd(s[q..]) && s[q..][..eq - q] == s[q..eq] && s[q..][eq - q..] == s[eq..]
  {
    if Kind(s[q..]) == 'a' {
      forall i | q <= i < eq
        ensures WordChar(s[i])
      {
        assert s[i] == s[q..][i - q];
      }
      assert eq < |s| ==> s[eq] == s[q..][eq - q];
    }
  }

  // ----- the parser -----

  /** One round of `parseredirs`, on the remaining input. */
  lemma RedirUnfold(s1: string, acc: seq<Redirection<string>>)
    requires (Look(s1) == '<' || Look(s1) == '>') && s1 != []
    ensures Skip(s1) == s1 && TokenLength(s1) <= |s1|
    ensures var s2 := Skip(s1[TokenLength(s1)..]); var m := WordEnd(s2);
      var mode := if Kind(s1) == '<' then Read else Write;
      ParseRedirs(s1, acc) == if m == 0 then Syntax else ParseRedirs(s2[m..], acc + [Redirection(s2[..m], mode)])
  {
    assert TokenLength(s1) == if |s1| >= 2 && s1[0] == '>' && s1[1] == '>' then 2 else 1;
    assert Kind(s1) == '<' <==> s1[0] == '<';
  }

  lemma FileTextsSnoc(s: string, rs: seq<Redirection<Span>>, r: Redirection<Span>)
    requires FilesAt(s, rs) && WordAt(s, r.file)
    ensures FilesAt(s, rs + [r]) && FileTexts(s, rs + [r]) == FileTexts(s, rs) + [Redirection(Text(s, r.file), r.mode)]
  {
    assert (rs + [r])[..|rs|] == rs;
  }

  lemma TextsSnoc(s: string, ws: seq<Span>, w: Span)
    requires WordsAt(s, ws) && WordAt(s, w)
    ensures WordsAt(s, ws + [w]) && Texts(s, ws + [w]) == Texts(s, ws) + [Text(s, w)]
  {
    assert (ws + [w])[..|ws|] == ws;
  }

  lemma RedirNext(s: string, p: nat, e0: nat, q: nat, acc: seq<Redirection<string>>)
    requires p < |s| && (s[p] == '<' || s[p] == '>') && Skip(s[p..]) == s[p..] && p <= e0 <= q <= |s|
    requires e0 == p + TokenLength(s[p..]) && s[q..] == Skip(s[e0..])
    ensures var m, mode := WordEnd(s[q..]), if Kind(s[p..]) == '<' then Read else Write;
      ParseRedirs(s[p..], acc) ==
      if m == 0 then Syntax else ParseRedirs(s[q..][m..], acc + [Redirection(s[q..][..m], mode)])
  {
    assert s[e0..] == s[p..][TokenLength(s[p..])..];
    RedirUnfold(s[p..], acc);
  }

  /** The operator at p up to e0 and the token from q to eq behind it are a redirection if that
      token is a word. */
  lemma RedirWord(s: string, p: nat, e0: nat, q: nat, eq: nat, acc: seq<Redirection<string>>)
    requires p < |s| && (s[p] == '<' || s[p] == '>') && Skip(s[p..]) == s[p..] && p <= e0 <= q <= eq <= |s|
    requires e0 == p + TokenLength(s[p..]) && s[q..] == Skip(s[e0..]) && eq == q + TokenLength(s[q..])
    ensures Kind(s[q..]) != 'a' ==> ParseRedirs(s[p..], acc).Syntax?
    ensures Kind(s[q..]) == 'a' ==> WordAt(s, Span(q, eq))
    ensures Kind(s[q..]) == 'a' ==>
      ParseRedirs(s[p..], acc) ==
      ParseRedirs(s[eq..], acc + [Redirection(s[q..eq], if Kind(s[p..]) == '<' then Read else Write)])
  {
    RedirNext(s, p, e0, q, acc);
    WordToken(s, q, eq);
  }

  /** The body of the loop of `parseredirs`. */
  method ParseRedirection(s: string, p: nat, ghost acc: seq<Redirection<string>>)
    returns (ok: bool, r: Redirection<Span>, p': nat)
    requires p < |s| && '\0' !in s && (s[p] == '<' || s[p] == '>')
    ensures !ok ==> ParseRedirs(s[p..], acc).Syntax?
    ensures ok ==> p < p' <= |s| && WordAt(s, r.file) && Skip(s[p'..]) == s[p'..]
    ensures ok ==> ParseRedirs(s[p..], acc) == ParseRedirs(s[p'..], acc + [Redirection(Text(s, r.file), r.mode)])
  {
    var tok, q0, e0, p1 := GetToken(s, p);
    var t2, q, eq, p2 := GetToken(s, p1);
    SkipTwice(s[e0..]);
    ok := t2 == 'a';
    r := Redirection(Span(q, eq), if tok == '<' then Read else Write);
    p' := p2;
    RedirWord(s, p, e0, q, eq, acc);
    if ok {
      SkipTwice(s[eq..]);
      RedirsSkip(s[eq..], acc + [Redirection(s[q..eq], r.mode)]);
    }
  }

  method ParseRedirections(s: string, ps: nat, rs0: seq<Redirection<Span>>)
    returns (ok: bool, rs: seq<Redirection<Span>>, p: nat)
    requires ps <= |s| && '\0' !in s && FilesAt(s, rs0)
    ensures ok <==> ParseRedirs(s[ps..], FileTexts(s, rs0)).Ok?
    ensures ok ==> ps <= p <= |s| && FilesAt(s, rs)
    ensures ok ==> ParseRedirs(s[ps..], FileTexts(s, rs0)) == Ok(FileTexts(s, rs), s[p..])
  {
    rs := rs0;
    var c;
    c, p := Peek(s, ps);
    ghost var spec := ParseRedirs(s[ps..], FileTexts(s, rs0));
    RedirsSkip(s[ps..], FileTexts(s, rs0));
    while c == '<' || c == '>'
      invariant ps <= p <= |s| && FilesAt(s, rs) && c == Look(s[p..]) && Skip(s[p..]) == s[p..]
      invariant spec == ParseRedirs(s[p..], FileTexts(s, rs))
      decreases |s| - p
    {
      var r;
      ok, r, p := ParseRedirection(s, p, FileTexts(s, rs));
      if !ok {
        return;
      }
      FileTextsSnoc(s, rs, r);
      rs := rs + [r];
      c, p := Peek(s, p);
    }
    ok := true;
  }

  /** One word of `parseexec`, on the remaining input. */
  lemma ArgsUnfold(s1: string, argv: seq<string>, rs: seq<Redirection<string>>)
    requires Skip(s1) == s1 && !EndsCommand(Look(s1))
    ensures var n := WordEnd(s1);
      ParseArgs(s1, argv, rs) ==
      if n == 0 || |argv| + 1 >= MAXARGS then Syntax
      else
        var p := ParseRedirs(s1[n..], rs);
        if p.Syntax? then Syntax else ParseArgs(p.rest, argv + [s1[..n]], p.value)
  {
  }

  /** The body of the argument loop of `parseexec`: one word with the redirections behind it. */
  method ParseArgument(s: string, p: nat, argv: seq<Span>, rs: seq<Redirection<Span>>)
    returns (ok: bool, argv': seq<Span>, rs': seq<Redirection<Span>>, p': nat)
    requires p <= |s| && '\0' !in s && WordsAt(s, argv) && FilesAt(s, rs)
    requires Skip(s[p..]) == s[p..] && !EndsCommand(Look(s[p..]))
    ensures !ok ==> ParseArgs(s[p..], Texts(s, argv), FileTexts(s, rs)).Syntax?
    ensures ok ==> p < p' <= |s| && WordsAt(s, argv') && FilesAt(s, rs')
    ensures ok ==> ParseArgs(s[p..], Texts(s, argv), FileTexts(s, rs))
                   == ParseArgs(s[p'..], Texts(s, argv'), FileTexts(s, rs'))
  {
    ArgsUnfold(s[p..], Texts(s, argv), FileTexts(s, rs));
    argv', rs' := argv, rs;
    var tok, q, eq, p1 := GetToken(s, p);
    p' := p1;
    WordToken(s, q, eq);
    if tok != 'a' {
      return false, argv', rs', p';
    }
    TextsSnoc(s, argv, Span(q, eq));
    argv' := argv + [Span(q, eq)];
    if |argv'| >= MAXARGS {
      return false, argv', rs', p';
    }
    RedirsSkip(s[eq..], FileTexts(s, rs));
    ok, rs', p' := ParseRedirections(s, p1, rs);
  }

  /** The argument loop of `parseexec`. */
  method ParseArguments(s: string, ps: nat, rs0: seq<Redirection<Span>>)
    returns (ok: bool, c: Cmd<Span>, p: nat)
    requires ps <= |s| && '\0' !in s && FilesAt(s, rs0)
    ensures Agrees(s, ParseArgs(s[ps..], [], FileTexts(s, rs0)), ok, c, p) && (ok ==> ps <= p)
  {
    var argv, rs := [], rs0;
    c := Exec([]);
    var look;
    look, p := Peek(s, ps);
    ghost var spec := ParseArgs(s[ps..], [], FileTexts(s, rs0));
    ArgsSkip(s[ps..], [], FileTexts(s, rs0));
    while !EndsCommand(look)
      invariant ps <= p <= |s| && WordsAt(s, argv) && FilesAt(s, rs)
      invariant look == Look(s[p..]) && Skip(s[p..]) == s[p..]
      invariant spec == ParseArgs(s[p..], Texts(s, argv), FileTexts(s, rs))
      decreases |s| - p
    {
      ok, argv, rs, p := ParseArgument(s, p, argv, rs);
      if !ok {
        return;
      }
      ArgsSkip(s[p..], Texts(s, argv), FileTexts(s, rs));
      look, p := Peek(s, p);
    }
    WrapText(s, Exec(argv), rs);
    ok, c := true, Wrap(Exec(argv), rs);
  }

  /** A method's outcome matches the grammar: the same verdict, tree and remaining input. */
  ghost predicate Agrees(s: string, spec: Parse<Cmd<string>>, ok: bool, c: Cmd<Span>, p: nat)
  {
    && (ok <==> spec.Ok?)
    && (ok ==> p <= |s| && TreeAt(s, c) && TreeText(s, c) == spec.value && s[p..] == spec.rest)
  }

  method ParseExecAt(s: string, ps: nat) returns (ok: bool, c: Cmd<Span>, p: nat)
    requires ps <= |s| && '\0' !in s
    ensures Agrees(s, ParseExec(s[ps..]), ok, c, p) && (ok ==> ps <= p)
    decreases |s| - ps, 1
  {
    var look;
    look, p := Peek(s, ps);
    if look == '(' {
      ok, c, p := ParseBlockAt(s, p);
      return;
    }
    var rs;
    c := Exec([]);
    ok, rs, p := ParseRedirections(s, p, []);
    if ok {
      ok, c, p := ParseArguments(s, p, rs);
    }
  }

  /** `gettoken` on a one-character symbol whose token is not looked at. */
  method Consume(s: string, ps: nat) returns (p: nat)
    requires ps < |s| && '\0' !in s && Symbol(s[ps]) && s[ps] != '>'
    ensures ps < p <= |s| && s[p..] == Skip(s[ps..][1..])
  {
    var tok, q, eq;
    tok, q, eq, p := GetToken(s, ps);
    assert s[eq..] == s[ps..][1..];
  }

  method ParseBlockAt(s: string, ps: nat) returns (ok: bool, c: Cmd<Span>, p: nat)
    requires ps < |s| && '\0' !in s && s[ps] == '('
    ensures Agrees(s, ParseBlock(s[ps..]), ok, c, p) && (ok ==> ps < p)
    decreases |s| - ps, 0
  {
    var look, rs;
    p := Consume(s, ps);
    LineSkip(s[ps..][1..]);
    ok, c, p := ParseLineAt(s, p);
    if !ok {
      return;
    }
    look, p := Peek(s, p);
    if look != ')' {
      return false, c, p;
    }
    RedirsSkip(s[p..][1..], []);
    p := Consume(s, p);
    ok, rs, p := ParseRedirections(s, p, []);
    if ok {
      WrapText(s, c, rs);
      c := Wrap(c, rs);
    }
  }

  method ParsePipeAt(s: string, ps: nat) returns (ok: bool, c: Cmd<Span>, p: nat)
    requires ps <= |s| && '\0' !in s
    ensures Agrees(s, ParsePipe(s[ps..]), ok, c, p) && (ok ==> ps <= p)
    decreases |s| - ps, 2
  {
    var look, right;
    ok, c, p := ParseExecAt(s, ps);
    if !ok {
      return;
    }
    look, p := Peek(s, p);
    if look == '|' {
      PipeSkip(s[p..][1..]);
      p := Consume(s, p);
      ok, right, p := ParsePipeAt(s, p);
      c := Pipe(c, right);
    }
  }

  /** The loop of `parseline` over trailing ampersands. */
  method ParseAmpersands(s: string, ps: nat, c0: Cmd<Span>) returns (look: char, c: Cmd<Span>, p: nat)
    requires ps <= |s| && '\0' !in s && TreeAt(s, c0)
    ensures ps <= p <= |s| && TreeAt(s, c) && look == Look(s[p..])
    ensures ParseBacks(s[ps..], TreeText(s, c0)) == (TreeText(s, c), s[p..])
  {
    c := c0;
    look, p := Peek(s, ps);
    BacksSkip(s[ps..], TreeText(s, c));
    while look == '&'
      invariant ps <= p <= |s| && TreeAt(s, c) && look == Look(s[p..]) && Skip(s[p..]) == s[p..]
      invariant ParseBacks(s[ps..], TreeText(s, c0)) == ParseBacks(s[p..], TreeText(s, c))
      decreases |s| - p
    {
      c := Back(c);
      BacksSkip(s[p..][1..], TreeText(s, c));
      p := Consume(s, p);
      look, p := Peek(s, p);
    }
  }

  lemma BacksSkip(x: string, c: Cmd<string>)
    ensures ParseBacks(Skip(x), c) == ParseBacks(x, c)
  {
    SkipTwice(x);
  }

  method ParseLineAt(s: string, ps: nat) returns (ok: bool, c: Cmd<Span>, p: nat)
    requires ps <= |s| && '\0' !in s
    ensures Agrees(s, ParseLine(s[ps..]), ok, c, p) && (ok ==> ps <= p)
    decreases |s| - ps, 3
  {
    var look, right;
    ok, c, p := ParsePipeAt(s, ps);
    if !ok {
      return;
    }
    look, c, p := ParseAmpersands(s, p, c);
    if look == ';' {
      LineSkip(s[p..][1..]);
      p := Consume(s, p);
      ok, right, p := ParseLineAt(s, p);
      c := List(c, right);
    }
  }

  lemma ExecSkip(x: string)
    ensures ParseExec(Skip(x)) == ParseExec(x)
  {
    SkipTwice(x);
  }

  lemma PipeSkip(x: string)
    ensures ParsePipe(Skip(x)) == ParsePipe(x)
  {
    ExecSkip(x);
  }

  lemma LineSkip(x: string)
    ensures ParseLine(Skip(x)) == ParseLine(x)
  {
    PipeSkip(x);
  }

  // ----- nulterminate -----

  /** k is the position just behind some word of the tree. */
  predicate EndOf(c: Cmd<Span>, k: nat)
  {
    match c
    case Exec(argv) => exists i :: 0 <= i < |argv| && argv[i].eq == k
    case Redir(d, file, _) => EndOf(d, k) || file.eq == k
    case Pipe(l, r) => EndOf(l, k) || EndOf(r, k)
    case List(l, r) => EndOf(l, k) || EndOf(r, k)
    case Back(d) => EndOf(d, k)
  }

  predicate Occurs(c: Cmd<Span>, w: Span)
  {
    match c
    case Exec(argv) => w in argv
    case Redir(d, file, _) => Occurs(d, w) || w == file
    case Pipe(l, r) => Occurs(l, w) || Occurs(r, w)
    case List(l, r) => Occurs(l, w) || Occurs(r, w)
    case Back(d) => Occurs(d, w)
  }

  /** The buffer with a NUL at every word end of the tree. */
  ghost predicate Terminated(b: seq<char>, b': seq<char>, c: Cmd<Span>)
  {
    |b'| == |b| && forall k :: 0 <= k < |b| ==> b'[k] == if EndOf(c, k) then '\0' else b[k]
  }

  method NulTerminate(buf: array<char>, c: Cmd<Span>, ghost s: string)
    requires TreeAt(s, c) && |s| < buf.Length
    modifies buf
    ensures Terminated(old(buf[..]), buf[..], c)
    decreases c
  {
    match c
    case Exec(argv) =>
      for i := 0 to |argv|
        invariant forall k :: 0 <= k < buf.Length ==>
          buf[k] == if exists j :: 0 <= j < i && argv[j].eq == k then '\0' else old(buf[k])
      {
        buf[argv[i].eq] := '\0';
      }
    case Redir(d, file, _) =>
      NulTerminate(buf, d, s);
      buf[file.eq] := '\0';
    case Pipe(l, r) =>
      NulTerminate(buf, l, s);
      NulTerminate(buf, r, s);
    case List(l, r) =>
      NulTerminate(buf, l, s);
      NulTerminate(buf, r, s);
    case Back(d) =>
      NulTerminate(buf, d, s);
  }

  lemma {:induction false} EndsOutsideWords(s: string, c: Cmd<Span>, k: nat)
    requires TreeAt(s, c) && EndOf(c, k)
    ensures k == |s| || (k < |s| && !WordChar(s[k]))
  {
    match c
    case Exec(argv) =>
    case Redir(d, file, _) => if EndOf(d, k) { EndsOutsideWords(s, d, k); }
    case Pipe(l, r) => if EndOf(l, k) { EndsOutsideWords(s, l, k); } else { EndsOutsideWords(s, r, k); }
    case List(l, r) => if EndOf(l, k) { EndsOutsideWords(s, l, k); } else { EndsOutsideWords(s, r, k); }
    case Back(d) => EndsOutsideWords(s, d, k);
  }

  lemma {:induction false} OccursFacts(s: string, c: Cmd<Span>, w: Span)
    requires TreeAt(s, c) && Occurs(c, w)
    ensures WordAt(s, w) && EndOf(c, w.eq)
  {
    match c
    case Exec(argv) =>
    case Redir(d, file, _) => if Occurs(d, w) { OccursFacts(s, d, w); }
    case Pipe(l, r) => if Occurs(l, w) { OccursFacts(s, l, w); } else { OccursFacts(s, r, w); }
    case List(l, r) => if Occurs(l, w) { OccursFacts(s, l, w); } else { OccursFacts(s, r, w); }
    case Back(d) => OccursFacts(s, d, w);
  }

  /** The C string that starts at q. */
  function CString(b: seq<char>, q: nat): (r: string)
    decreases |b| - q
  {
    if q >= |b| || b[q] == '\0' then [] else [b[q]] + CString(b, q + 1)
  }

  lemma {:induction false} CStringIs(b: seq<char>, q: nat, eq: nat)
    requires q <= eq < |b| && b[eq] == '\0' && forall i :: q <= i < eq ==> b[i] != '\0'
    ensures CString(b, q) == b[q..eq]
    decreases eq - q
  {
    if q < eq {
      CStringIs(b, q + 1, eq);
    }
  }

  /** No NUL lands inside a word: the C string at every word of the tree is that word. */
  lemma WordsSurvive(b: seq<char>, b': seq<char>, s: string, c: Cmd<Span>, w: Span)
    requires |s| < |b| && b[..|s|] == s && '\0' !in s && TreeAt(s, c) && Terminated(b, b', c) && Occurs(c, w)
    ensures WordAt(s, w) && CString(b', w.q) == s[w.q..w.eq]
  {
    OccursFacts(s, c, w);
    forall i | w.q <= i < w.eq
      ensures b'[i] == s[i]
    {
      assert b[i] == b[..|s|][i];
      if EndOf(c, i) {
        EndsOutsideWords(s, c, i);
      }
    }
    CStringIs(b', w.q, w.eq);
    assert b'[w.q..w.eq] == s[w.q..w.eq];
  }

  // ----- parsecmd -----

  method Strlen(buf: array<char>) returns (n: nat)
    requires '\0' in buf[..]
    ensures n < buf.Length && buf[n] == '\0' && '\0' !in buf[..n]
  {
    n := 0;
    while buf[n] != '\0'
      invariant n < buf.Length && '\0' !in buf[..n]
      decreases buf.Length - n
    {
      n := n + 1;
    }
  }

  /** `parsecmd` on a NUL-terminated line s: the tree of the grammar, with every argument and file
      name left behind in the buffer as a C string; a rejected line leaves the buffer alone. */
  method ParseCommand(buf: array<char>) returns (ok: bool, c: Cmd<Span>, ghost s: string)
    requires '\0' in buf[..]
    modifies buf
    ensures |s| < buf.Length && s + ['\0'] <= old(buf[..]) && '\0' !in s
    ensures ok <==> ParseCmd(s).Ok?
    ensures !ok ==> buf[..] == old(buf[..])
    ensures ok ==> TreeAt(s, c) && TreeText(s, c) == ParseCmd(s).value
    ensures ok ==> forall w :: Occurs(c, w) ==> WordAt(s, w) && CString(buf[..], w.q) == Text(s, w)
  {
    var n := Strlen(buf);
    var line, p, look := buf[..n], 0, '\0';
    s := line;
    assert s + ['\0'] == buf[..n + 1];
    ghost var b := buf[..];
    assert line[0..] == line;
    ok, c, p := ParseLineAt(line, 0);
    if ok {
      look, p := Peek(line, p);
      ok := p == n;
    }
    if ok {
      NulTerminate(buf, c, line);
      forall w | Occurs(c, w)
        ensures WordAt(s, w) && CString(buf[..], w.q) == Text(s, w)
      {
        WordsSurvive(b, buf[..], s, c, w);
      }
    }
  }
}
