/** nulterminate: after it, every word and file name of a parsed command is a C string of its own. */
module ShellNul {
  import opened Shell
  import opened ShellTrip

  const NUL: char := '\0'

  predicate IsSuffix(r: string, s: string) {
    |r| <= |s| && s[|s| - |r|..] == r
  }

  /** A token of line s: a longest run of word characters, as far as its end is concerned. */
  ghost predicate TokOk(s: string, sp: Span) {
    && sp.right < sp.left <= |s|
    && (forall k :: |s| - sp.left <= k < |s| - sp.right ==> WordChar(s[k]))
    && (sp.right == 0 || !WordChar(s[|s| - sp.right]))
  }

  ghost predicate AllTok(s: string, c: Cmd) {
    match c
    case Exec(argv) => forall i :: 0 <= i < |argv| ==> TokOk(s, argv[i])
    case Redir(d, f, _) => AllTok(s, d) && TokOk(s, f)
    case Pipe(l, r) => AllTok(s, l) && AllTok(s, r)
    case List(l, r) => AllTok(s, l) && AllTok(s, r)
    case Back(d) => AllTok(s, d)
  }

  // ----- the parser makes tokens of the line -----

  lemma Shorter(r: string, s: string, n: nat)
    requires IsSuffix(r, s) && n <= |r|
    ensures IsSuffix(r[n..], s)
  {
  }

  lemma {:induction false} SkipSuffix(r: string, s: string)
    requires IsSuffix(r, s)
    ensures IsSuffix(Skip(r), s) && (Skip(r) != [] ==> !White(Skip(r)[0]))
    decreases |r|
  {
    if r != [] && White(r[0]) {
      Shorter(r, s, 1);
      SkipSuffix(r[1..], s);
    }
  }

  lemma {:induction false} WordSuffix(r: string, s: string)
    requires IsSuffix(r, s)
    ensures var e := WordEnd(r);
            IsSuffix(e, s) && (e != [] ==> !WordChar(e[0])) && forall k :: |s| - |r| <= k < |s| - |e| ==> WordChar(s[k])
    decreases |r|
  {
    if r != [] && WordChar(r[0]) {
      Shorter(r, s, 1);
      WordSuffix(r[1..], s);
      assert s[|s| - |r|] == r[0];
    }
  }

  lemma TokenOk(r: string, s: string)
    requires IsSuffix(r, s)
    ensures IsSuffix(GetToken(r).rest, s)
    ensures GetToken(r).tok == Word ==> TokOk(s, Span(|GetToken(r).q|, |GetToken(r).eq|))
  {
    SkipSuffix(r, s);
    var q := Skip(r);
    if q != [] {
      Shorter(q, s, 1);
      if q[0] == '>' {
        if |q| > 1 && q[1] == '>' {
          Shorter(q, s, 2);
          SkipSuffix(q[2..], s);
        } else {
          SkipSuffix(q[1..], s);
        }
      } else if Symbol(q[0]) {
        SkipSuffix(q[1..], s);
      } else {
        WordSuffix(q[1..], s);
        SkipSuffix(WordEnd(q[1..]), s);
        WordIsTok(q, s);
      }
    }
  }

  lemma WordIsTok(q: string, s: string)
    requires IsSuffix(q, s) && q != [] && WordChar(q[0])
    ensures TokOk(s, Span(|q|, |WordEnd(q[1..])|))
  {
    Shorter(q, s, 1);
    WordSuffix(q[1..], s);
    var e := WordEnd(q[1..]);
    assert s[|s| - |q|] == q[0];
    if e != [] {
      assert s[|s| - |e|] == e[0];
    }
  }

  /** The result of a parser: its tokens are tokens of the line, and what is left is a part of it. */
  ghost predicate Good(res: Res, s: string) {
    res.Ok? ==> AllTok(s, res.cmd) && IsSuffix(res.rest, s)
  }

  lemma {:induction false} GoodRedirs(c: Cmd, r: string, s: string)
    requires AllTok(s, c) && IsSuffix(r, s)
    ensures Good(ParseRedirs(c, r), s)
    decreases |r|
  {
    hide TokOk, IsSuffix, GetToken, Skip;
    SkipSuffix(r, s);
    if Peek(r, {'<', '>'}) {
      var t := GetToken(Skip(r));
      TokenOk(Skip(r), s);
      var f := GetToken(t.rest);
      TokenOk(t.rest, s);
      if f.tok == Word {
        var mode := if t.tok == Sym('<') then Read else if t.tok == GtGt then Append else Truncate;
        GoodRedirs(Redir(c, Span(|f.q|, |f.eq|), mode), f.rest, s);
      }
    }
  }

  lemma {:induction false} FillOk(c: Cmd, argv: seq<Span>, s: string)
    requires AllTok(s, c) && forall i :: 0 <= i < |argv| ==> TokOk(s, argv[i])
    ensures AllTok(s, Fill(c, argv))
    decreases c
  {
    hide TokOk;
    match c
    case Redir(d, f, m) => FillOk(d, argv, s);
    case _ =>
  }

  lemma {:induction false} GoodArgs(ret: Cmd, argv: seq<Span>, r: string, s: string)
    requires AllTok(s, ret) && IsSuffix(r, s) && forall i :: 0 <= i < |argv| ==> TokOk(s, argv[i])
    ensures Good(ParseArgs(ret, argv, r), s)
    decreases |r|
  {
    hide TokOk, IsSuffix, GetToken, Skip, AllTok, ParseRedirs, Fill;
    SkipSuffix(r, s);
    FillOk(ret, argv, s);
    if !Peek(r, {'|', ')', '&', ';'}) {
      var t := GetToken(Skip(r));
      TokenOk(Skip(r), s);
      if t.tok == Word && |argv| + 1 < MAXARGS {
        GoodRedirs(ret, t.rest, s);
        var res := ParseRedirs(ret, t.rest);
        if res.Ok? {
          GoodArgs(res.cmd, argv + [Span(|t.q|, |t.eq|)], res.rest, s);
        }
      }
    }
  }

  lemma {:induction false} GoodExec(r: string, s: string)
    requires IsSuffix(r, s)
    ensures Good(ParseExec(r), s)
    decreases |r|, 1
  {
    hide TokOk, IsSuffix, GetToken, Skip, AllTok, ParseRedirs, ParseArgs, ParseBlock;
    SkipSuffix(r, s);
    if Peek(r, {'('}) {
      GoodBlock(Skip(r), s);
    } else {
      NoTok(s);
      GoodRedirs(Exec([]), Skip(r), s);
      var res := ParseRedirs(Exec([]), Skip(r));
      if res.Ok? {
        GoodArgs(res.cmd, [], res.rest, s);
      }
    }
  }

  lemma NoTok(s: string)
    ensures AllTok(s, Exec([]))
  {
  }

  lemma Consumes(r: string)
    requires Skip(r) != [] && Symbol(Skip(r)[0])
    ensures |GetToken(Skip(r)).rest| < |r|
  {
  }

  lemma {:induction false} GoodBlock(r: string, s: string)
    requires IsSuffix(r, s)
    ensures Good(ParseBlock(r), s)
    decreases |r|, 0
  {
    hide TokOk, IsSuffix, GetToken, Skip, AllTok, ParseRedirs, ParseLine;
    SkipSuffix(r, s);
    if Peek(r, {'('}) {
      TokenOk(Skip(r), s);
      Consumes(r);
      GoodLine(GetToken(Skip(r)).rest, s);
      var res := ParseLine(GetToken(Skip(r)).rest);
      if res.Ok? && Peek(res.rest, {')'}) {
        SkipSuffix(res.rest, s);
        TokenOk(Skip(res.rest), s);
        GoodRedirs(res.cmd, GetToken(Skip(res.rest)).rest, s);
      }
    }
  }

  lemma {:induction false} GoodPipe(r: string, s: string)
    requires IsSuffix(r, s)
    ensures Good(ParsePipe(r), s)
    decreases |r|, 2
  {
    hide TokOk, IsSuffix, GetToken, Skip, ParseExec;
    GoodExec(r, s);
    var res := ParseExec(r);
    if res.Ok? {
      SkipSuffix(res.rest, s);
      if Peek(res.rest, {'|'}) {
        TokenOk(Skip(res.rest), s);
        Consumes(res.rest);
        GoodPipe(GetToken(Skip(res.rest)).rest, s);
      }
    }
  }

  lemma {:induction false} GoodBacks(c: Cmd, r: string, s: string)
    requires AllTok(s, c) && IsSuffix(r, s)
    ensures AllTok(s, Backs(c, r).0) && IsSuffix(Backs(c, r).1, s)
    decreases |r|
  {
    hide TokOk, IsSuffix, GetToken, Skip;
    SkipSuffix(r, s);
    if Peek(r, {'&'}) {
      TokenOk(Skip(r), s);
      Consumes(r);
      GoodBacks(Back(c), GetToken(Skip(r)).rest, s);
    }
  }

  lemma {:induction false} GoodLine(r: string, s: string)
    requires IsSuffix(r, s)
    ensures Good(ParseLine(r), s)
    decreases |r|, 3
  {
    hide TokOk, IsSuffix, GetToken, Skip, ParsePipe, Backs;
    GoodPipe(r, s);
    var res := ParsePipe(r);
    if res.Ok? {
      GoodBacks(res.cmd, res.rest, s);
      var x := Backs(res.cmd, res.rest).1;
      SkipSuffix(x, s);
      if Peek(x, {';'}) {
        TokenOk(Skip(x), s);
        Consumes(x);
        GoodLine(GetToken(Skip(x)).rest, s);
      }
    }
  }

  // ----- nulterminate -----

  /** A NUL at the end of each of these tokens; n is the length of the line. */
  function CutAll(b: seq<char>, sps: seq<Span>, n: nat): (b': seq<char>)
    requires |b| == n + 1 && forall i :: 0 <= i < |sps| ==> SpanIn(sps[i], n)
    ensures |b'| == |b|
  {
    if sps == [] then b
    else
      assert SpanIn(sps[|sps| - 1], n);
      CutAll(b, sps[..|sps| - 1], n)[n - sps[|sps| - 1].right := NUL]
  }

  function Cut(b: seq<char>, c: Cmd, n: nat): (b': seq<char>)
    requires |b| == n + 1 && InRange(c, n)
    ensures |b'| == |b|
    decreases c
  {
    match c
    case Exec(argv) => CutAll(b, argv, n)
    case Redir(d, f, _) => Cut(b, d, n)[n - f.right := NUL]
    case Pipe(l, r) => Cut(Cut(b, l, n), r, n)
    case List(l, r) => Cut(Cut(b, l, n), r, n)
    case Back(d) => Cut(b, d, n)
  }

  /** nulterminate, on the buffer that holds a line of n characters and its NUL. */
  method NulTerminate(c: Cmd, buf: array<char>, n: nat)
    requires buf.Length == n + 1 && InRange(c, n)
    modifies buf
    ensures buf[..] == Cut(old(buf[..]), c, n)
    decreases c
  {
    match c
    case Exec(argv) =>
      var i := 0;
      while i < |argv|
        invariant 0 <= i <= |argv| && buf[..] == CutAll(old(buf[..]), argv[..i], n)
      {
        assert argv[..i + 1][..i] == argv[..i];
        buf[n - argv[i].right] := NUL;
        i := i + 1;
      }
      assert argv[..i] == argv;
    case Redir(d, f, _) =>
      NulTerminate(d, buf, n);
      buf[n - f.right] := NUL;
    case Pipe(l, r) =>
      NulTerminate(l, buf, n);
      NulTerminate(r, buf, n);
    case List(l, r) =>
      NulTerminate(l, buf, n);
      NulTerminate(r, buf, n);
    case Back(d) =>
      NulTerminate(d, buf, n);
  }

  /** The tokens of a command. */
  ghost predicate HasTok(c: Cmd, sp: Span) {
    match c
    case Exec(argv) => sp in argv
    case Redir(d, f, _) => HasTok(d, sp) || sp == f
    case Pipe(l, r) => HasTok(l, sp) || HasTok(r, sp)
    case List(l, r) => HasTok(l, sp) || HasTok(r, sp)
    case Back(d) => HasTok(d, sp)
  }

  lemma {:induction false} TokRange(c: Cmd, s: string)
    requires AllTok(s, c)
    ensures InRange(c, |s|)
  {
    match c
    case Exec(_) =>
    case Redir(d, _, _) => TokRange(d, s);
    case Pipe(l, r) => TokRange(l, s); TokRange(r, s);
    case List(l, r) => TokRange(l, s); TokRange(r, s);
    case Back(d) => TokRange(d, s);
  }

  /** A character that is inside some token of the line is not overwritten. */
  predicate Inside(s: string, x: nat) { x < |s| && WordChar(s[x]) }

  lemma {:induction false} CutAllKeeps(b: seq<char>, sps: seq<Span>, s: string, x: nat)
    requires |b| == |s| + 1 && Inside(s, x)
    requires forall i :: 0 <= i < |sps| ==> SpanIn(sps[i], |s|) && TokOk(s, sps[i])
    ensures CutAll(b, sps, |s|)[x] == b[x]
    decreases |sps|
  {
    if sps != [] {
      CutAllKeeps(b, sps[..|sps| - 1], s, x);
      assert TokOk(s, sps[|sps| - 1]);
    }
  }

  lemma {:induction false} CutKeeps(b: seq<char>, c: Cmd, s: string, x: nat)
    requires |b| == |s| + 1 && AllTok(s, c) && InRange(c, |s|) && Inside(s, x)
    ensures Cut(b, c, |s|)[x] == b[x]
    decreases c
  {
    match c
    case Exec(argv) => CutAllKeeps(b, argv, s, x);
    case Redir(d, f, _) => CutKeeps(b, d, s, x);
    case Pipe(l, r) => CutKeeps(b, l, s, x); CutKeeps(Cut(b, l, |s|), r, s, x);
    case List(l, r) => CutKeeps(b, l, s, x); CutKeeps(Cut(b, l, |s|), r, s, x);
    case Back(d) => CutKeeps(b, d, s, x);
  }

  /** A NUL stays a NUL. */
  lemma {:induction false} CutAllNul(b: seq<char>, sps: seq<Span>, n: nat, x: nat)
    requires |b| == n + 1 && (forall i :: 0 <= i < |sps| ==> SpanIn(sps[i], n)) && x <= n
    ensures b[x] == NUL ==> CutAll(b, sps, n)[x] == NUL
    ensures (exists i :: 0 <= i < |sps| && n - sps[i].right == x) ==> CutAll(b, sps, n)[x] == NUL
    decreases |sps|
  {
    if sps != [] {
      CutAllNul(b, sps[..|sps| - 1], n, x);
      if i :| 0 <= i < |sps| && n - sps[i].right == x {
        assert i < |sps| - 1 ==> sps[..|sps| - 1][i] == sps[i];
      }
    }
  }

  lemma {:induction false} CutNul(b: seq<char>, c: Cmd, n: nat, sp: Span)
    requires |b| == n + 1 && InRange(c, n) && sp.right <= n
    ensures b[n - sp.right] == NUL || HasTok(c, sp) ==> Cut(b, c, n)[n - sp.right] == NUL
    decreases c
  {
    match c
    case Exec(argv) => CutAllNul(b, argv, n, n - sp.right);
    case Redir(d, _, _) => CutNul(b, d, n, sp);
    case Pipe(l, r) => CutNul(b, l, n, sp); CutNul(Cut(b, l, n), r, n, sp);
    case List(l, r) => CutNul(b, l, n, sp); CutNul(Cut(b, l, n), r, n, sp);
    case Back(d) => CutNul(b, d, n, sp);
  }

  lemma {:induction false} ItsTok(c: Cmd, sp: Span, s: string)
    requires AllTok(s, c) && HasTok(c, sp)
    ensures TokOk(s, sp)
    decreases c
  {
    match c
    case Exec(argv) =>
    case Redir(d, f, _) => if sp != f { ItsTok(d, sp, s); }
    case Pipe(l, r) => if HasTok(l, sp) { ItsTok(l, sp, s); } else { ItsTok(r, sp, s); }
    case List(l, r) => if HasTok(l, sp) { ItsTok(l, sp, s); } else { ItsTok(r, sp, s); }
    case Back(d) => ItsTok(d, sp, s);
  }

  /** The C string at place x of a buffer. */
  function CString(b: seq<char>, x: nat): string
    requires x <= |b|
    decreases |b| - x
  {
    if x == |b| || b[x] == NUL then [] else [b[x]] + CString(b, x + 1)
  }

  lemma {:induction false} CStringIs(b: seq<char>, x: nat, w: string)
    requires x + |w| < |b| && b[x..x + |w|] == w && b[x + |w|] == NUL && NUL !in w
    ensures CString(b, x) == w
    decreases |w|
  {
    if w != [] {
      assert b[x] == w[0];
      assert b[x + 1..x + |w|] == w[1..];
      CStringIs(b, x + 1, w[1..]);
    }
  }

  ghost predicate AllInside(s: string, lo: nat, hi: nat) {
    forall k: nat :: lo <= k < hi ==> Inside(s, k)
  }

  lemma TextIs(s: string, sp: Span)
    requires NUL !in s && TokOk(s, sp)
    ensures sp.right < sp.left <= |s| && |Text(s, sp)| == sp.left - sp.right && NUL !in Text(s, sp)
    ensures AllInside(s, |s| - sp.left, |s| - sp.right)
  {
  }

  /** Ending the tokens with NUL leaves the characters of every token. */
  lemma KeepsInside(s: string, c: Cmd, lo: nat, hi: nat)
    requires AllTok(s, c) && InRange(c, |s|) && lo <= hi <= |s| && AllInside(s, lo, hi)
    ensures Cut(s + [NUL], c, |s|)[lo..hi] == s[lo..hi]
  {
    hide Cut, AllTok, InRange, Inside;
    var b := Cut(s + [NUL], c, |s|);
    forall k: nat | lo <= k < hi ensures b[k] == s[k] {
      assert Inside(s, k);
      CutKeeps(s + [NUL], c, s, k);
    }
  }

  /** The string at lo is what lies between lo and a NUL at hi. */
  lemma CStringTo(b: seq<char>, lo: nat, hi: nat, w: string)
    requires lo <= hi < |b| && b[lo..hi] == w && b[hi] == NUL && NUL !in w
    ensures CString(b, lo) == w
  {
    CStringIs(b, lo, w);
  }

  lemma TokenReads(s: string, c: Cmd, sp: Span)
    requires NUL !in s && AllTok(s, c) && InRange(c, |s|) && HasTok(c, sp)
    ensures sp.left <= |s| && CString(Cut(s + [NUL], c, |s|), |s| - sp.left) == Text(s, sp) != []
  {
    hide Cut, AllTok, HasTok, InRange, CString, TokOk, AllInside;
    ItsTok(c, sp, s);
    TextIs(s, sp);
    CutNul(s + [NUL], c, |s|, sp);
    KeepsInside(s, c, |s| - sp.left, |s| - sp.right);
    CStringTo(Cut(s + [NUL], c, |s|), |s| - sp.left, |s| - sp.right, Text(s, sp));
  }

  /** After parsecmd and nulterminate every word and every file name reads as exactly its token. */
  lemma TokensRead(s: string, c: Cmd, sp: Span)
    requires NUL !in s && ParseCmd(s) == Ok(c, []) && HasTok(c, sp)
    ensures InRange(c, |s|) && sp.left <= |s|
    ensures CString(Cut(s + [NUL], c, |s|), |s| - sp.left) == Text(s, sp) != []
  {
    assert ParseLine(s).Ok? && ParseLine(s).cmd == c;
    assert IsSuffix(s, s);
    GoodLine(s, s);
    assert AllTok(s, c);
    hide *;
    TokRange(c, s);
    TokenReads(s, c, sp);
  }
}
