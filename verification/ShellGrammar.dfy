/**
  The command language of the shell (src/sh.c): the parser as functions on the remaining input, and
  a printer.
 */
module ShellGrammar {

  const MAXARGS: nat := 10

  /** Commands over words of type W: strings here, buffer positions in `Shell`. */
  datatype Cmd<W> =
    | Exec(argv: seq<W>)
    | Redir(cmd: Cmd<W>, file: W, mode: Mode)
    | Pipe(left: Cmd<W>, right: Cmd<W>)
    | List(left: Cmd<W>, right: Cmd<W>)
    | Back(cmd: Cmd<W>)

  /** `<` opens for reading as descriptor 0; both `>` and `>>` open for writing as descriptor 1. */
  datatype Mode = Read | Write

  datatype Redirection<W> = Redirection(file: W, mode: Mode)

  /** Syntax stands for each of the parser's panics. */
  datatype Parse<T> = Ok(value: T, rest: string) | Syntax

  // ----- characters and words -----

  predicate Space(c: char)
  {
    c == ' ' || c == '\t' || c == '\r' || c == '\n' || c == '\U{0B}'
  }

  predicate Symbol(c: char)
  {
    c == '<' || c == '|' || c == '>' || c == '&' || c == ';' || c == '(' || c == ')'
  }

  /** What may follow a simple command; NUL stands for the end of the line. */
  predicate EndsCommand(c: char)
  {
    c == '|' || c == ')' || c == '&' || c == ';' || c == '\0'
  }

  predicate WordChar(c: char) { !Space(c) && !Symbol(c) && c != '\0' }

  predicate IsWord(w: string) { w != [] && forall i :: 0 <= i < |w| ==> WordChar(w[i]) }

  /** The character the parser looks at; the terminating NUL at the end. */
  function Look(s: string): (c: char)
  {
    if s == [] then '\0' else s[0]
  }

  function Skip(s: string): (r: string)
    ensures |r| <= |s| && !Space(Look(r))
    ensures s == [] || !Space(s[0]) ==> r == s
  {
    if s != [] && Space(s[0]) then Skip(s[1..]) else s
  }

  lemma SkipTwice(s: string)
    ensures Skip(Skip(s)) == Skip(s)
  {
  }

  function WordEnd(s: string): (n: nat)
    ensures n <= |s| && (forall i :: 0 <= i < n ==> WordChar(s[i]))
    ensures n == |s| || !WordChar(s[n])
    ensures s != [] && WordChar(s[0]) ==> 1 <= n
  {
    if s != [] && WordChar(s[0]) then 1 + WordEnd(s[1..]) else 0
  }

  // ----- the parser -----

  function ParseRedirs(s: string, acc: seq<Redirection<string>>): (r: Parse<seq<Redirection<string>>>)
    ensures r.Ok? ==> |r.rest| <= |s| && !Space(Look(r.rest)) && Look(r.rest) != '<' && Look(r.rest) != '>'
    decreases |s|
  {
    var s1 := Skip(s);
    if Look(s1) != '<' && Look(s1) != '>' then Ok(acc, s1)
    else
      var mode := if s1[0] == '<' then Read else Write;
      var s2 := Skip(if |s1| >= 2 && s1[0] == '>' && s1[1] == '>' then s1[2..] else s1[1..]);
      var n := WordEnd(s2);
      if n == 0 then Syntax
      else ParseRedirs(s2[n..], acc + [Redirection(s2[..n], mode)])
  }

  function Wrap<W>(c: Cmd<W>, rs: seq<Redirection<W>>): (r: Cmd<W>)
    decreases |rs|
  {
    if rs == [] then c
    else Redir(Wrap(c, rs[..|rs| - 1]), rs[|rs| - 1].file, rs[|rs| - 1].mode)
  }

  function ParseArgs(s: string, argv: seq<string>, rs: seq<Redirection<string>>): (r: Parse<Cmd<string>>)
    ensures r.Ok? ==> |r.rest| <= |s|
    decreases |s|
  {
    var s1 := Skip(s);
    var c := Look(s1);
    if EndsCommand(c) then Ok(Wrap(Exec(argv), rs), s1)
    else
      var n := WordEnd(s1);
      if n == 0 || |argv| + 1 >= MAXARGS then Syntax
      else
        var p := ParseRedirs(s1[n..], rs);
        if p.Syntax? then Syntax else ParseArgs(p.rest, argv + [s1[..n]], p.value)
  }

  function ParseExec(s: string): (r: Parse<Cmd<string>>)
    ensures r.Ok? ==> |r.rest| <= |s|
    decreases |s|, 1
  {
    var s1 := Skip(s);
    if Look(s1) == '(' then ParseBlock(s1)
    else
      var p := ParseRedirs(s1, []);
      if p.Syntax? then Syntax else ParseArgs(p.rest, [], p.value)
  }

  function ParseBlock(s: string): (r: Parse<Cmd<string>>)
    requires Look(s) == '('
    ensures r.Ok? ==> |r.rest| < |s|
    decreases |s|, 0
  {
    var p := ParseLine(s[1..]);
    if p.Syntax? || Look(Skip(p.rest)) != ')' then Syntax
    else
      var q := ParseRedirs(Skip(p.rest)[1..], []);
      if q.Syntax? then Syntax else Ok(Wrap(p.value, q.value), q.rest)
  }

  function ParsePipe(s: string): (r: Parse<Cmd<string>>)
    ensures r.Ok? ==> |r.rest| <= |s|
    decreases |s|, 2
  {
    var p := ParseExec(s);
    if p.Syntax? then Syntax
    else
      var s1 := Skip(p.rest);
      if Look(s1) != '|' then Ok(p.value, s1)
      else
        var q := ParsePipe(s1[1..]);
        if q.Syntax? then Syntax else Ok(Pipe(p.value, q.value), q.rest)
  }

  function ParseBacks<W>(s: string, c: Cmd<W>): (r: (Cmd<W>, string))
    ensures |r.1| <= |s| && Skip(r.1) == r.1 && Look(r.1) != '&'
    decreases |s|
  {
    var s1 := Skip(s);
    if Look(s1) == '&' then ParseBacks(s1[1..], Back(c)) else (c, s1)
  }

  function ParseLine(s: string): (r: Parse<Cmd<string>>)
    ensures r.Ok? ==> |r.rest| <= |s|
    decreases |s|, 3
  {
    var p := ParsePipe(s);
    if p.Syntax? then Syntax
    else
      var (c, s1) := ParseBacks(p.rest, p.value);
      if Look(s1) != ';' then Ok(c, s1)
      else
        var q := ParseLine(s1[1..]);
        if q.Syntax? then Syntax else Ok(List(c, q.value), q.rest)
  }

  /** `parsecmd`: the whole line must be consumed. */
  function ParseCmd(s: string): (r: Parse<Cmd<string>>)
  {
    var p := ParseLine(s);
    if p.Syntax? || Skip(p.rest) != [] then Syntax else Ok(p.value, [])
  }

  // ----- the printer -----

  function Operator(mode: Mode): (c: char) { if mode.Read? then '<' else '>' }

  function PrintWords(ws: seq<string>): (r: string)
  {
    if ws == [] then "" else ws[0] + (" " + PrintWords(ws[1..]))
  }

  function PrintExec(c: Cmd<string>): (r: string)
    decreases c, if c.Exec? || c.Redir? then 0 else 4
  {
    match c
    case Exec(argv) => PrintWords(argv)
    case Redir(d, file, mode) => PrintExec(d) + [Operator(mode)] + (" " + (file + " "))
    case _ => "( " + PrintLine(c) + ") "
  }

  function PrintPipe(c: Cmd<string>): (r: string)
    decreases c, if c.Back? || c.List? then 5 else 1
  {
    if c.Pipe? then PrintExec(c.left) + "| " + PrintPipe(c.right) else PrintExec(c)
  }

  function PrintBack(c: Cmd<string>): (r: string)
    decreases c, if c.List? then 6 else 2
  {
    if c.Back? then PrintBack(c.cmd) + "& " else PrintPipe(c)
  }

  function PrintLine(c: Cmd<string>): (r: string)
    decreases c, 3
  {
    if c.List? then PrintBack(c.left) + "; " + PrintLine(c.right) else PrintBack(c)
  }
}
