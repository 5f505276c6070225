/** Writing a command out and parsing it gives the command back. */
module ShellTrip {
  import opened Shell

  /** A command with its words as strings. */
  datatype Tree =
    | TExec(argv: seq<string>)
    | TRedir(cmd: Tree, file: string, mode: Mode)
    | TPipe(left: Tree, right: Tree)
    | TList(left: Tree, right: Tree)
    | TBack(cmd: Tree)

  /** The token in line s. */
  function Text(s: string, sp: Span): string {
    if sp.right <= sp.left <= |s| then s[|s| - sp.left..|s| - sp.right] else []
  }

  function Texts(s: string, sps: seq<Span>): seq<string> {
    if sps == [] then [] else [Text(s, sps[0])] + Texts(s, sps[1..])
  }

  /** What a parsed command says when its tokens are read in line s. */
  function ReadTree(s: string, c: Cmd): Tree {
    match c
    case Exec(argv) => TExec(Texts(s, argv))
    case Redir(d, f, m) => TRedir(ReadTree(s, d), Text(s, f), m)
    case Pipe(l, r) => TPipe(ReadTree(s, l), ReadTree(s, r))
    case List(l, r) => TList(ReadTree(s, l), ReadTree(s, r))
    case Back(d) => TBack(ReadTree(s, d))
  }

  predicate Legal(w: string) { w != [] && forall k :: 0 <= k < |w| ==> WordChar(w[k]) }

  predicate LegalTree(t: Tree) {
    match t
    case TExec(argv) => |argv| < MAXARGS && forall k :: 0 <= k < |argv| ==> Legal(argv[k])
    case TRedir(d, f, _) => LegalTree(d) && Legal(f)
    case TPipe(l, r) => LegalTree(l) && LegalTree(r)
    case TList(l, r) => LegalTree(l) && LegalTree(r)
    case TBack(d) => LegalTree(d)
  }

  // ----- writing a command out -----

  function Op(m: Mode): string { if m == Read then ['<'] else if m == Truncate then ['>'] else ['>', '>'] }

  function WordsTo(ws: seq<string>, k: string): string {
    if ws == [] then k else ws[0] + ([' '] + WordsTo(ws[1..], k))
  }

  /** The command, with parentheses around its parts, followed by k. */
  function PrintTo(t: Tree, k: string): string {
    match t
    case TExec(argv) => WordsTo(argv, k)
    case TRedir(d, f, m) => ['('] + PrintTo(d, [')'] + (Op(m) + (f + ([' '] + k))))
    case TPipe(l, r) => ['('] + PrintTo(l, [')'] + (['|'] + (['('] + PrintTo(r, [')'] + k))))
    case TList(l, r) => ['('] + PrintTo(l, [')'] + ([';'] + (['('] + PrintTo(r, [')'] + k))))
    case TBack(d) => ['('] + PrintTo(d, [')'] + (['&'] + k))
  }

  function Print(t: Tree): string { PrintTo(t, []) }

  // ----- tokens -----

  lemma SkipId(r: string)
    requires r == [] || !White(r[0])
    ensures Skip(r) == r
  {
  }

  lemma SkipSpace(k: string)
    ensures Skip([' '] + k) == Skip(k)
  {
  }

  lemma {:induction false} WordEndAt(w: string, k: string)
    requires (forall i :: 0 <= i < |w| ==> WordChar(w[i])) && (k == [] || !WordChar(k[0]))
    ensures WordEnd(w + k) == k
  {
    if w == [] {
      assert w + k == k;
    } else {
      assert (w + k)[1..] == w[1..] + k;
      WordEndAt(w[1..], k);
    }
  }

  /** A legal word followed by a space is a token. */
  lemma WordToken(w: string, k: string)
    requires Legal(w)
    ensures var r := w + ([' '] + k); GetToken(r) == Token(Word, r, [' '] + k, Skip(k)) && Skip(r) == r
  {
    var r := w + ([' '] + k);
    assert WordChar(w[0]) && r[0] == w[0];
    SkipId(r);
    assert r[1..] == w[1..] + ([' '] + k);
    WordEndAt(w[1..], [' '] + k);
    SkipSpace(k);
  }

  lemma SymToken(c: char, k: string)
    requires Symbol(c) && c != '>'
    ensures GetToken([c] + k) == Token(Sym(c), [c] + k, k, Skip(k)) && Skip([c] + k) == [c] + k
  {
  }

  lemma GtToken(m: Mode, k: string)
    requires m != Read && k != [] && k[0] != '>'
    ensures GetToken(Op(m) + k) == Token(if m == Append then GtGt else Sym('>'), Op(m) + k, k, Skip(k))
    ensures Skip(Op(m) + k) == Op(m) + k
  {
  }

  // ----- words -----

  /** What may follow a command that is not followed by anything of its own. */
  predicate Close(k: string) { k == [] || k[0] == ')' }

  lemma Head(ws: seq<string>, k: string)
    requires (forall i :: 0 <= i < |ws| ==> Legal(ws[i])) && Close(k)
    ensures var r := WordsTo(ws, k);
            && Skip(r) == r && (ws == [] ==> r == k) && (ws != [] ==> r != [] && WordChar(r[0]))
            && !Peek(r, {'<', '>'}) && !Peek(r, {'('}) && (Peek(r, {'|', ')', '&', ';'}) <==> ws == [] && k != [])
  {
  }

  /** The tokens of the words. */
  function WordSpans(ws: seq<string>, k: string): seq<Span> {
    if ws == [] then [] else [Span(|WordsTo(ws, k)|, |WordsTo(ws[1..], k)| + 1)] + WordSpans(ws[1..], k)
  }

  lemma NoRedirs(c: Cmd, r: string)
    requires !Peek(r, {'<', '>'})
    ensures ParseRedirs(c, r) == Ok(c, Skip(r))
  {
  }

  lemma NoArgs(argv: seq<Span>, k: string)
    requires Close(k)
    ensures ParseArgs(Exec([]), argv, k) == Ok(Exec(argv), k)
  {
  }

  lemma TokenArg(r: string, e: string, rest: string, argv: seq<Span>)
    requires GetToken(r) == Token(Word, r, e, rest) && Skip(r) == r && r != [] && !Symbol(r[0])
    requires Skip(rest) == rest && !Peek(rest, {'<', '>'}) && |argv| + 1 < MAXARGS
    ensures ParseArgs(Exec([]), argv, r) == ParseArgs(Exec([]), argv + [Span(|r|, |e|)], rest)
  {
    hide *;
    NoRedirs(Exec([]), rest);
    PlainNext(r);
    ArgsNext(r, argv, rest, Token(Word, r, e, rest));
  }

  lemma ArgFacts(w: string, rest: string, r: string)
    requires Legal(w) && Skip(rest) == rest && r == w + ([' '] + rest)
    ensures r != [] && !Symbol(r[0]) && Skip(r) == r && |w| <= |r| && |r[|w|..]| == |rest| + 1
    ensures GetToken(r) == Token(Word, r, r[|w|..], rest)
  {
    hide GetToken, Skip;
    WordToken(w, rest);
    WordFirst(w, [' '] + rest);
    assert r[|w|..] == [' '] + rest;
  }

  lemma OneArg(w: string, rest: string, argv: seq<Span>, r: string)
    requires Legal(w) && Skip(rest) == rest && !Peek(rest, {'<', '>'}) && |argv| + 1 < MAXARGS && r == w + ([' '] + rest)
    ensures ParseArgs(Exec([]), argv, r) == ParseArgs(Exec([]), argv + [Span(|r|, |rest| + 1)], rest)
  {
    hide *;
    ArgFacts(w, rest, r);
    TokenArg(r, r[|w|..], rest, argv);
  }

  lemma WordFirst(w: string, k: string)
    requires Legal(w)
    ensures w + k != [] && !Symbol((w + k)[0])
  {
  }

  lemma PlainNext(r: string)
    requires Skip(r) == r && r != [] && !Symbol(r[0])
    ensures !Peek(r, {'|', ')', '&', ';'})
  {
  }

  lemma ArgsNext(r: string, argv: seq<Span>, rest: string, t: Token)
    requires Skip(r) == r && !Peek(r, {'|', ')', '&', ';'}) && GetToken(r) == t && t.tok == Word && |argv| + 1 < MAXARGS
    requires ParseRedirs(Exec([]), t.rest) == Ok(Exec([]), rest)
    ensures ParseArgs(Exec([]), argv, r) == ParseArgs(Exec([]), argv + [Span(|t.q|, |t.eq|)], rest)
  {
  }

  lemma {:induction false} Args(ws: seq<string>, k: string, argv: seq<Span>)
    requires (forall i :: 0 <= i < |ws| ==> Legal(ws[i])) && Close(k) && |argv| + |ws| < MAXARGS
    ensures ParseArgs(Exec([]), argv, WordsTo(ws, k)) == Ok(Exec(argv + WordSpans(ws, k)), k)
    decreases |ws|
  {
    hide ParseArgs, Peek, Legal;
    if ws == [] {
      NoArgs(argv, k);
      assert argv + WordSpans(ws, k) == argv;
    } else {
      var rest := WordsTo(ws[1..], k);
      Head(ws[1..], k);
      assert Legal(ws[0]);
      OneArg(ws[0], rest, argv, WordsTo(ws, k));
      var sp := Span(|WordsTo(ws, k)|, |rest| + 1);
      Args(ws[1..], k, argv + [sp]);
      assert argv + [sp] + WordSpans(ws[1..], k) == argv + WordSpans(ws, k);
    }
  }

  predicate SpanIn(sp: Span, n: nat) { sp.right <= sp.left <= n }

  predicate InRange(c: Cmd, n: nat) {
    match c
    case Exec(argv) => forall i :: 0 <= i < |argv| ==> SpanIn(argv[i], n)
    case Redir(d, f, _) => InRange(d, n) && SpanIn(f, n)
    case Pipe(l, r) => InRange(l, n) && InRange(r, n)
    case List(l, r) => InRange(l, n) && InRange(r, n)
    case Back(d) => InRange(d, n)
  }

  lemma TextSuffix(p: string, s: string, sp: Span)
    requires SpanIn(sp, |s|)
    ensures Text(p + s, sp) == Text(s, sp)
  {
  }

  lemma {:induction false} TextsSuffix(p: string, s: string, sps: seq<Span>)
    requires forall i :: 0 <= i < |sps| ==> SpanIn(sps[i], |s|)
    ensures Texts(p + s, sps) == Texts(s, sps)
  {
    if sps != [] {
      TextSuffix(p, s, sps[0]);
      TextsSuffix(p, s, sps[1..]);
    }
  }

  /** More text in front does not change what a command says. */
  lemma {:induction false} ReadSuffix(p: string, s: string, c: Cmd)
    requires InRange(c, |s|)
    ensures InRange(c, |p + s|) && ReadTree(p + s, c) == ReadTree(s, c)
  {
    match c
    case Exec(argv) => TextsSuffix(p, s, argv);
    case Redir(d, f, _) => ReadSuffix(p, s, d); TextSuffix(p, s, f);
    case Pipe(l, r) => ReadSuffix(p, s, l); ReadSuffix(p, s, r);
    case List(l, r) => ReadSuffix(p, s, l); ReadSuffix(p, s, r);
    case Back(d) => ReadSuffix(p, s, d);
  }

  lemma {:induction false} SpansRead(ws: seq<string>, k: string)
    ensures var r := WordsTo(ws, k);
            |k| <= |r| && Texts(r, WordSpans(ws, k)) == ws && forall i :: 0 <= i < |WordSpans(ws, k)| ==> SpanIn(WordSpans(ws, k)[i], |r|)
    decreases |ws|
  {
    if ws != [] {
      var r, rest := WordsTo(ws, k), WordsTo(ws[1..], k);
      SpansRead(ws[1..], k);
      var p := ws[0] + [' '];
      assert r == p + rest;
      TextsSuffix(p, rest, WordSpans(ws[1..], k));
      assert Text(r, Span(|r|, |rest| + 1)) == ws[0];
    }
  }

  // ----- commands -----

  /** A command without parts of its own. */
  lemma ExecLine(ws: seq<string>, k: string)
    requires LegalTree(TExec(ws)) && Close(k)
    ensures ParseLine(WordsTo(ws, k)) == Ok(Exec(WordSpans(ws, k)), k)
  {
    var r, c := WordsTo(ws, k), Exec(WordSpans(ws, k));
    Head(ws, k);
    NoRedirs(Exec([]), r);
    Args(ws, k, []);
    assert [] + WordSpans(ws, k) == WordSpans(ws, k);
    assert ParseExec(r) == Ok(c, k) by {
      hide ParseArgs, ParseRedirs, Peek, WordsTo, WordSpans;
    }
    hide ParseExec, WordsTo, WordSpans;
    Closed(r, c, k);
  }

  /** Nothing follows a command at the level of pipes and lists. */
  lemma Closed(r: string, c: Cmd, k: string)
    requires ParseExec(r) == Ok(c, k) && Close(k)
    ensures ParsePipe(r) == Ok(c, k) && ParseLine(r) == Ok(c, k)
  {
  }

  /** A command in parentheses, of which the parser has already read the inside. */
  lemma Block(inner: string, c: Cmd, y: string)
    requires ParseLine(inner) == Ok(c, [')'] + y) && Skip(inner) == inner
    ensures ParseExec(['('] + inner) == ParseRedirs(c, Skip(y))
  {
    hide ParseLine, ParseRedirs, GetToken, Skip, Peek;
    SymToken('(', inner);
    SymToken(')', y);
    IsNext(['('] + inner, {'('});
    IsNext([')'] + y, {')'});
    BlockNext(['('] + inner, inner, c, [')'] + y, Skip(y));
  }

  lemma IsNext(r: string, toks: set<char>)
    requires Skip(r) == r && r != [] && r[0] in toks
    ensures Peek(r, toks)
  {
  }

  lemma BlockNext(r: string, inner: string, c: Cmd, close: string, y: string)
    requires Skip(r) == r && Peek(r, {'('}) && GetToken(r).rest == inner && ParseLine(inner) == Ok(c, close)
    requires Skip(close) == close && Peek(close, {')'}) && GetToken(close).rest == y
    ensures ParseExec(r) == ParseRedirs(c, y)
  {
  }

  /** What is written out ends in k, and does not begin with white space. */
  lemma {:induction false} Prefix(t: Tree, k: string) returns (p: string)
    ensures PrintTo(t, k) == p + k
    decreases t
  {
    match t
    case TExec(argv) => p := WordsPrefix(argv, k);
    case TRedir(d, f, m) =>
      var y := Op(m) + (f + ([' '] + k));
      var q := Prefix(d, [')'] + y);
      p := ['('] + q + [')'] + Op(m) + f + [' '];
      assert ['('] + (q + ([')'] + y)) == p + k;
    case TPipe(l, r) =>
      var e := Prefix(r, [')'] + k);
      var q := Prefix(l, [')'] + (['|'] + (['('] + PrintTo(r, [')'] + k))));
      p := ['('] + q + [')', '|', '('] + e + [')'];
      assert ['('] + (q + ([')'] + (['|'] + (['('] + (e + ([')'] + k)))))) == p + k;
    case TList(l, r) =>
      var e := Prefix(r, [')'] + k);
      var q := Prefix(l, [')'] + ([';'] + (['('] + PrintTo(r, [')'] + k))));
      p := ['('] + q + [')', ';', '('] + e + [')'];
      assert ['('] + (q + ([')'] + ([';'] + (['('] + (e + ([')'] + k)))))) == p + k;
    case TBack(d) =>
      var q := Prefix(d, [')'] + (['&'] + k));
      p := ['('] + q + [')', '&'];
      assert ['('] + (q + ([')'] + (['&'] + k))) == p + k;
  }

  lemma {:induction false} WordsPrefix(ws: seq<string>, k: string) returns (p: string)
    ensures WordsTo(ws, k) == p + k
    decreases |ws|
  {
    if ws == [] {
      p := [];
      assert [] + k == k;
    } else {
      var q := WordsPrefix(ws[1..], k);
      p := ws[0] + [' '] + q;
      assert ws[0] + ([' '] + (q + k)) == p + k;
    }
  }

  /** Nothing follows a pipe at the level of lists. */
  lemma ClosedPipe(r: string, c: Cmd, k: string)
    requires ParsePipe(r) == Ok(c, k) && Close(k)
    ensures ParseLine(r) == Ok(c, k)
  {
  }

  lemma CloseNext(k: string)
    requires Close(k)
    ensures Skip(k) == k && !Peek(k, {'<', '>'}) && !Peek(k, {'|'}) && !Peek(k, {'&'}) && !Peek(k, {';'})
  {
  }

  lemma OneRedir(c: Cmd, f: string, m: Mode, k: string)
    requires Legal(f) && Close(k)
    ensures var y := Op(m) + (f + ([' '] + k));
            Skip(y) == y && ParseRedirs(c, y) == Ok(Redir(c, Span(|f| + 1 + |k|, 1 + |k|), m), k)
  {
    var g := f + ([' '] + k);
    var y := Op(m) + g;
    var c' := Redir(c, Span(|f| + 1 + |k|, 1 + |k|), m);
    CloseNext(k);
    NoRedirs(c', k);
    WordToken(f, k);
    WordFirst(f, [' '] + k);
    assert g[0] != '>';
    if m == Read {
      SymToken('<', g);
    } else {
      GtToken(m, g);
    }
    assert Peek(y, {'<', '>'});
    assert |g| == |f| + 1 + |k| && |[' '] + k| == 1 + |k|;
    hide Skip, GetToken, Peek, Op, Legal;
    RedirNext(c, y, GetToken(y), g, [' '] + k, k, m);
  }

  lemma RedirNext(c: Cmd, y: string, t: Token, g: string, e: string, k: string, m: Mode)
    requires Skip(y) == y && Peek(y, {'<', '>'}) && GetToken(y) == t && t.rest == g && GetToken(g) == Token(Word, g, e, k)
    requires m == if t.tok == Sym('<') then Read else if t.tok == GtGt then Append else Truncate
    ensures ParseRedirs(c, y) == ParseRedirs(Redir(c, Span(|g|, |e|), m), k)
  {
  }

  lemma PipeNext(x: string, c1: Cmd, z: string, c2: Cmd, k: string)
    requires ParseExec(x) == Ok(c1, ['|'] + z) && Skip(z) == z && ParsePipe(z) == Ok(c2, k)
    ensures ParsePipe(x) == Ok(Pipe(c1, c2), k)
  {
    var y := ['|'] + z;
    hide *;
    SymToken('|', z);
    IsNext(y, {'|'}) by {
      assert y[0] == '|';
    }
    PipeStep(x, c1, y, z, c2, k);
  }

  lemma PipeStep(x: string, c1: Cmd, y: string, z: string, c2: Cmd, k: string)
    requires ParseExec(x) == Ok(c1, y) && Peek(y, {'|'}) && Skip(y) == y && GetToken(y).rest == z && ParsePipe(z) == Ok(c2, k)
    ensures ParsePipe(x) == Ok(Pipe(c1, c2), k)
  {
    hide ParseExec, Skip, GetToken, Peek;
  }

  lemma ListNext(x: string, c1: Cmd, z: string, c2: Cmd, k: string)
    requires ParseExec(x) == Ok(c1, [';'] + z) && Skip(z) == z && ParseLine(z) == Ok(c2, k)
    ensures ParseLine(x) == Ok(List(c1, c2), k)
  {
    var y := [';'] + z;
    assert !Peek(y, {'|'}) && !Peek(y, {'&'}) && Skip(y) == y && Peek(y, {';'}) && GetToken(y).rest == z by {
      hide ParseExec, ParseLine;
      SymToken(';', z);
    }
    hide Skip, GetToken, Peek;
    assert ParsePipe(x) == Ok(c1, y) by {
      hide ParseExec, ParseLine;
    }
    hide ParseExec, ParsePipe;
    assert Backs(c1, y) == (c1, y);
    hide Backs;
  }

  lemma BackNext(x: string, c1: Cmd, k: string)
    requires ParseExec(x) == Ok(c1, ['&'] + k) && Close(k)
    ensures ParseLine(x) == Ok(Back(c1), k)
  {
    var y := ['&'] + k;
    CloseNext(k);
    assert !Peek(y, {'|'}) && Peek(y, {'&'}) && Skip(y) == y && GetToken(y).rest == k by {
      hide ParseExec, ParseLine;
      SymToken('&', k);
    }
    hide Skip, GetToken, Peek;
    assert ParsePipe(x) == Ok(c1, y) by {
      hide ParseExec, ParseLine;
    }
    hide ParseExec, ParsePipe;
    assert Backs(Back(c1), k) == (Back(c1), k);
    assert Backs(c1, y) == (Back(c1), k);
    hide Backs;
  }

  /** Parsing r gives c and leaves k, and c says t. */
  predicate Says(r: string, c: Cmd, k: string, t: Tree) {
    ParseLine(r) == Ok(c, k) && Skip(r) == r && InRange(c, |r|) && ReadTree(r, c) == t
  }

  lemma SaysExec(ws: seq<string>, k: string)
    requires LegalTree(TExec(ws)) && Close(k)
    ensures Says(WordsTo(ws, k), Exec(WordSpans(ws, k)), k, TExec(ws))
  {
    hide ParseLine, Skip, Peek;
    ExecLine(ws, k);
    SpansRead(ws, k);
    Head(ws, k);
  }

  lemma OpenParen(inner: string)
    ensures Skip(['('] + inner) == ['('] + inner
  {
  }

  /** The parts of a command in parentheses are read where they were. */
  lemma TwoRead(a: string, c1: Cmd, s: char, b: string, c2: Cmd, q: string)
    requires InRange(c1, |a|) && InRange(c2, |b|) && a == q + ([')'] + ([s] + (['('] + b)))
    ensures var x := ['('] + a;
            InRange(c1, |x|) && InRange(c2, |x|) && ReadTree(x, c1) == ReadTree(a, c1) && ReadTree(x, c2) == ReadTree(b, c2)
  {
    var p := ['('] + q + [')', s, '('];
    assert ['('] + a == p + b;
    hide InRange, ReadTree;
    ReadSuffix(['('], a, c1);
    ReadSuffix(p, b, c2);
  }

  lemma FileRead(inner: string, c1: Cmd, op: string, f: string, k: string, q: string)
    requires InRange(c1, |inner|) && inner == q + ([')'] + (op + (f + ([' '] + k))))
    ensures var x, sp := ['('] + inner, Span(|f| + 1 + |k|, 1 + |k|);
            InRange(c1, |x|) && ReadTree(x, c1) == ReadTree(inner, c1) && SpanIn(sp, |x|) && Text(x, sp) == f
  {
    var g, sp := f + ([' '] + k), Span(|f| + 1 + |k|, 1 + |k|);
    var p := ['('] + q + [')'] + op;
    assert ['('] + inner == p + g;
    assert Text(g, sp) == f;
    hide InRange, ReadTree;
    TextSuffix(p, g, sp);
    ReadSuffix(['('], inner, c1);
  }

  lemma SaysRedir(inner: string, c1: Cmd, d: Tree, f: string, m: Mode, k: string, q: string)
    requires Says(inner, c1, [')'] + (Op(m) + (f + ([' '] + k))), d) && Legal(f) && Close(k)
    requires inner == q + ([')'] + (Op(m) + (f + ([' '] + k))))
    ensures Says(['('] + inner, Redir(c1, Span(|f| + 1 + |k|, 1 + |k|), m), k, TRedir(d, f, m))
  {
    hide ParseLine, Skip, ParseRedirs, ParseExec, Op, Legal, Close, Text;
    FileRead(inner, c1, Op(m), f, k, q);
    var x, y, sp := ['('] + inner, Op(m) + (f + ([' '] + k)), Span(|f| + 1 + |k|, 1 + |k|);
    Block(inner, c1, y);
    OneRedir(c1, f, m, k);
    Closed(x, Redir(c1, sp, m), k);
    OpenParen(inner);
  }

  lemma NotRedir(s: char, z: string)
    requires s == '|' || s == ';' || s == '&'
    ensures Skip([s] + z) == [s] + z && !Peek([s] + z, {'<', '>'})
  {
  }

  /** Two commands in parentheses with a symbol between them, as far as both levels below a list are concerned. */
  lemma TwoBlocks(a: string, c1: Cmd, s: char, b: string, c2: Cmd, k: string)
    requires ParseLine(a) == Ok(c1, [')'] + ([s] + (['('] + b))) && Skip(a) == a && ParseLine(b) == Ok(c2, [')'] + k) && Skip(b) == b
    requires Close(k) && (s == '|' || s == ';')
    ensures ParseExec(['('] + a) == Ok(c1, [s] + (['('] + b)) && Skip(['('] + a) == ['('] + a && Skip(['('] + b) == ['('] + b
    ensures ParsePipe(['('] + b) == Ok(c2, k) && ParseLine(['('] + b) == Ok(c2, k)
  {
    hide *;
    var z := ['('] + b;
    NotRedir(s, z);
    CloseNext(k);
    Block(b, c2, k);
    NoRedirs(c2, k);
    Closed(z, c2, k);
    Block(a, c1, [s] + z);
    NoRedirs(c1, [s] + z);
    OpenParen(b);
    OpenParen(a);
  }

  lemma SaysPipe(a: string, c1: Cmd, l: Tree, b: string, c2: Cmd, r: Tree, k: string, q: string)
    requires Says(a, c1, [')'] + (['|'] + (['('] + b)), l) && Says(b, c2, [')'] + k, r) && Close(k)
    requires a == q + ([')'] + (['|'] + (['('] + b)))
    ensures Says(['('] + a, Pipe(c1, c2), k, TPipe(l, r))
  {
    hide ParseLine, Skip, ParseRedirs, ParseExec, ParsePipe, Peek;
    TwoBlocks(a, c1, '|', b, c2, k);
    TwoRead(a, c1, '|', b, c2, q);
    PipeNext(['('] + a, c1, ['('] + b, c2, k);
    ClosedPipe(['('] + a, Pipe(c1, c2), k);
  }

  lemma SaysList(a: string, c1: Cmd, l: Tree, b: string, c2: Cmd, r: Tree, k: string, q: string)
    requires Says(a, c1, [')'] + ([';'] + (['('] + b)), l) && Says(b, c2, [')'] + k, r) && Close(k)
    requires a == q + ([')'] + ([';'] + (['('] + b)))
    ensures Says(['('] + a, List(c1, c2), k, TList(l, r))
  {
    hide ParseLine, Skip, ParseRedirs, ParseExec, ParsePipe, Peek;
    TwoBlocks(a, c1, ';', b, c2, k);
    TwoRead(a, c1, ';', b, c2, q);
    ListNext(['('] + a, c1, ['('] + b, c2, k);
  }

  lemma SaysBack(a: string, c1: Cmd, d: Tree, k: string)
    requires Says(a, c1, [')'] + (['&'] + k), d) && Close(k)
    ensures Says(['('] + a, Back(c1), k, TBack(d))
  {
    var x, y := ['('] + a, ['&'] + k;
    NotRedir('&', k);
    hide ParseLine, Skip, ParseRedirs, ParseExec, ParsePipe, Peek;
    Block(a, c1, y);
    NoRedirs(c1, y);
    OpenParen(a);
    BackNext(x, c1, k);
    ReadSuffix(['('], a, c1);
  }

  lemma {:induction false} Line(t: Tree, k: string) returns (c: Cmd)
    requires LegalTree(t) && Close(k)
    ensures Says(PrintTo(t, k), c, k, t)
    decreases t
  {
    hide Says, Legal;
    match t
    case TExec(ws) =>
      SaysExec(ws, k);
      c := Exec(WordSpans(ws, k));
    case TRedir(d, f, m) =>
      var y := Op(m) + (f + ([' '] + k));
      var q := Prefix(d, [')'] + y);
      var c1 := Line(d, [')'] + y);
      SaysRedir(PrintTo(d, [')'] + y), c1, d, f, m, k, q);
      c := Redir(c1, Span(|f| + 1 + |k|, 1 + |k|), m);
    case TPipe(l, r) =>
      var b := PrintTo(r, [')'] + k);
      var y := [')'] + (['|'] + (['('] + b));
      var q := Prefix(l, y);
      var c1 := Line(l, y);
      var c2 := Line(r, [')'] + k);
      SaysPipe(PrintTo(l, y), c1, l, b, c2, r, k, q);
      c := Pipe(c1, c2);
    case TList(l, r) =>
      var b := PrintTo(r, [')'] + k);
      var y := [')'] + ([';'] + (['('] + b));
      var q := Prefix(l, y);
      var c1 := Line(l, y);
      var c2 := Line(r, [')'] + k);
      SaysList(PrintTo(l, y), c1, l, b, c2, r, k, q);
      c := List(c1, c2);
    case TBack(d) =>
      var c1 := Line(d, [')'] + (['&'] + k));
      SaysBack(PrintTo(d, [')'] + (['&'] + k)), c1, d, k);
      c := Back(c1);
  }

  /** Parsing what has been written out gives the command back. */
  lemma RoundTrip(t: Tree)
    requires LegalTree(t)
    ensures var res := ParseCmd(Print(t));
            res.Ok? && res.rest == [] && InRange(res.cmd, |Print(t)|) && ReadTree(Print(t), res.cmd) == t
  {
    var _ := Line(t, []);
    hide ParseLine, PrintTo;
    SkipId([]);
  }
}
