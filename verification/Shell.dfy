/** The parser of the shell. A place in the line is given by the string that is left to read there; the C code has
    a pointer, and a NUL where the string ends. */
module Shell {
  const MAXARGS: nat := 10

  predicate White(c: char) { c == ' ' || c == '\t' || c == '\r' || c == '\n' || c == 11 as char }

  predicate Symbol(c: char) { c == '<' || c == '|' || c == '>' || c == '&' || c == ';' || c == '(' || c == ')' }

  predicate WordChar(c: char) { !White(c) && !Symbol(c) }

  /** A token: how much is left to read where it begins and where it ends. */
  datatype Span = Span(left: nat, right: nat)

  datatype Mode = Read | Truncate | Append

  /** The trees of sh.c, with the file descriptor of a redirection left implicit: 0 for Read, 1 otherwise. */
  datatype Cmd =
    | Exec(argv: seq<Span>)
    | Redir(cmd: Cmd, file: Span, mode: Mode)
    | Pipe(left: Cmd, right: Cmd)
    | List(left: Cmd, right: Cmd)
    | Back(cmd: Cmd)

  datatype Tok = End | Sym(c: char) | GtGt | Word

  datatype Token = Token(tok: Tok, q: string, eq: string, rest: string)

  datatype Res = Ok(cmd: Cmd, rest: string) | Panic(msg: string)

  // ----- tokens -----

  function Skip(r: string): (s: string)
    ensures |s| <= |r|
  {
    if r != [] && White(r[0]) then Skip(r[1..]) else r
  }

  function WordEnd(r: string): (s: string)
    ensures |s| <= |r|
  {
    if r != [] && WordChar(r[0]) then WordEnd(r[1..]) else r
  }

  /** gettoken: what the token is, where it begins and ends, and where the next one may begin. */
  function GetToken(r: string): (t: Token)
    ensures |t.rest| <= |t.eq| <= |t.q| <= |r| && (t.tok != End ==> |t.rest| < |r|)
  {
    var s := Skip(r);
    if s == [] then Token(End, s, s, s)
    else if s[0] == '>' then
      if |s| > 1 && s[1] == '>' then Token(GtGt, s, s[2..], Skip(s[2..])) else Token(Sym('>'), s, s[1..], Skip(s[1..]))
    else if Symbol(s[0]) then Token(Sym(s[0]), s, s[1..], Skip(s[1..]))
    else Token(Word, s, WordEnd(s[1..]), Skip(WordEnd(s[1..])))
  }

  /** peek: is the next character one of these? */
  predicate Peek(r: string, toks: set<char>) {
    Skip(r) != [] && Skip(r)[0] in toks
  }

  // ----- the parser -----

  function ParseRedirs(c: Cmd, r: string): (res: Res)
    ensures res.Ok? ==> |res.rest| <= |r|
    decreases |r|
  {
    if !Peek(r, {'<', '>'}) then Ok(c, Skip(r))
    else
      var t := GetToken(Skip(r));
      var f := GetToken(t.rest);
      if f.tok != Word then Panic("missing file for redirection")
      else
        var mode := if t.tok == Sym('<') then Read else if t.tok == GtGt then Append else Truncate;
        ParseRedirs(Redir(c, Span(|f.q|, |f.eq|), mode), f.rest)
  }

  /** The words of a command go into its exec node, which redirections may already enclose. */
  function Fill(c: Cmd, argv: seq<Span>): Cmd {
    match c
    case Exec(_) => Exec(argv)
    case Redir(d, f, m) => Redir(Fill(d, argv), f, m)
    case _ => c
  }

  /** The loop of parseexec. */
  function ParseArgs(ret: Cmd, argv: seq<Span>, r: string): (res: Res)
    ensures res.Ok? ==> |res.rest| <= |r|
    decreases |r|
  {
    if Peek(r, {'|', ')', '&', ';'}) then Ok(Fill(ret, argv), Skip(r))
    else
      var t := GetToken(Skip(r));
      if t.tok == End then Ok(Fill(ret, argv), t.rest)
      else if t.tok != Word then Panic("syntax")
      else if |argv| + 1 >= MAXARGS then Panic("too many args")
      else
        match ParseRedirs(ret, t.rest)
        case Panic(m) => Panic(m)
        case Ok(ret', r') => ParseArgs(ret', argv + [Span(|t.q|, |t.eq|)], r')
  }

  function ParseExec(r: string): (res: Res)
    ensures res.Ok? ==> |res.rest| <= |r|
    decreases |r|, 1
  {
    if Peek(r, {'('}) then ParseBlock(Skip(r))
    else
      match ParseRedirs(Exec([]), Skip(r))
      case Panic(m) => Panic(m)
      case Ok(ret, r') => ParseArgs(ret, [], r')
  }

  function ParseBlock(r: string): (res: Res)
    ensures res.Ok? ==> |res.rest| <= |r|
    decreases |r|, 0
  {
    if !Peek(r, {'('}) then Panic("parseblock")
    else
      match ParseLine(GetToken(Skip(r)).rest)
      case Panic(m) => Panic(m)
      case Ok(c, r') => if !Peek(r', {')'}) then Panic("syntax - missing )") else ParseRedirs(c, GetToken(Skip(r')).rest)
  }

  function ParsePipe(r: string): (res: Res)
    ensures res.Ok? ==> |res.rest| <= |r|
    decreases |r|, 2
  {
    match ParseExec(r)
    case Panic(m) => Panic(m)
    case Ok(c, r') =>
      if !Peek(r', {'|'}) then Ok(c, Skip(r'))
      else
        match ParsePipe(GetToken(Skip(r')).rest)
        case Panic(m) => Panic(m)
        case Ok(d, r'') => Ok(Pipe(c, d), r'')
  }

  /** The loop of parseline: one Back for each '&'. */
  function Backs(c: Cmd, r: string): (res: (Cmd, string))
    ensures |res.1| <= |r|
    decreases |r|
  {
    if !Peek(r, {'&'}) then (c, Skip(r)) else Backs(Back(c), GetToken(Skip(r)).rest)
  }

  function ParseLine(r: string): (res: Res)
    ensures res.Ok? ==> |res.rest| <= |r|
    decreases |r|, 3
  {
    match ParsePipe(r)
    case Panic(m) => Panic(m)
    case Ok(c, r') =>
      var (b, s) := Backs(c, r');
      if !Peek(s, {';'}) then Ok(b, Skip(s))
      else
        match ParseLine(GetToken(Skip(s)).rest)
        case Panic(m) => Panic(m)
        case Ok(d, r'') => Ok(List(b, d), r'')
  }

  /** parsecmd, without nulterminate. */
  function ParseCmd(s: string): Res {
    match ParseLine(s)
    case Panic(m) => Panic(m)
    case Ok(c, r) => if Skip(r) != [] then Panic("syntax") else Ok(c, [])
  }
}
