/** The matcher of grep, and what a pattern means. Strings end where the C string has its NUL. */
module Grep {
  // ----- what a pattern means -----

  datatype Atom = Lit(c: char) | Dot

  datatype Piece = One(atom: Atom) | Star(atom: Atom)

  /** A pattern without a leading '^': its pieces, and whether it ends in '$'. */
  datatype Pattern = Pattern(pieces: seq<Piece>, end: bool)

  function AtomOf(c: char): Atom { if c == '.' then Dot else Lit(c) }

  predicate Fits(a: Atom, c: char) { a.Dot? || a.c == c }

  function Push(p: Piece, r: Pattern): Pattern { Pattern([p] + r.pieces, r.end) }

  /** How a pattern is read: a character before '*' is repeated, '$' at the end stands for the end of the text, '.' for any
      character, everything else for itself. */
  function Parse(re: string): Pattern {
    if re == [] then Pattern([], false)
    else if |re| > 1 && re[1] == '*' then Push(Star(AtomOf(re[0])), Parse(re[2..]))
    else if re == "$" then Pattern([], true)
    else Push(One(AtomOf(re[0])), Parse(re[1..]))
  }

  predicate AllFit(a: Atom, w: string) { forall i :: 0 <= i < |w| ==> Fits(a, w[i]) }

  /** The strings that the pieces denote. */
  ghost predicate Denotes(ps: seq<Piece>, w: string)
    decreases |ps|
  {
    if ps == [] then w == []
    else match ps[0]
         case One(a) => |w| > 0 && Fits(a, w[0]) && Denotes(ps[1..], w[1..])
         case Star(a) => exists k :: 0 <= k <= |w| && AllFit(a, w[..k]) && Denotes(ps[1..], w[k..])
  }

  /** Some prefix of the text is denoted; all of the text, if the pattern ends in '$'. */
  ghost predicate Here(p: Pattern, text: string) {
    exists n: nat :: n <= |text| && Denotes(p.pieces, text[..n]) && (p.end ==> n == |text|)
  }

  /** Some substring of the text is denoted: from the start if the pattern begins with '^', to the end if it ends in '$'. */
  ghost predicate Matches(re: string, text: string) {
    var start := re != [] && re[0] == '^';
    var p := Parse(if start then re[1..] else re);
    exists i: nat, j: nat :: i <= j <= |text| && Denotes(p.pieces, text[i..j]) && (start ==> i == 0) && (p.end ==> j == |text|)
  }

  // ----- how prefixes are denoted -----

  lemma HereEmpty(text: string)
    ensures Here(Pattern([], false), text) && (Here(Pattern([], true), text) <==> text == [])
  {
    assert Denotes([], text[..0]);
    if text == [] {
      assert text[..0] == text;
    }
  }

  lemma HereOne(a: Atom, r: Pattern, text: string)
    ensures Here(Push(One(a), r), text) <==> text != [] && Fits(a, text[0]) && Here(r, text[1..])
  {
    var p := Push(One(a), r);
    assert p.pieces[1..] == r.pieces;
    if Here(p, text) {
      var n: nat :| n <= |text| && Denotes(p.pieces, text[..n]) && (p.end ==> n == |text|);
      assert text[..n][1..] == text[1..][..n - 1];
    }
    if text != [] && Fits(a, text[0]) && Here(r, text[1..]) {
      var n: nat :| n <= |text[1..]| && Denotes(r.pieces, text[1..][..n]) && (r.end ==> n == |text[1..]|);
      assert text[..n + 1][1..] == text[1..][..n];
      assert Denotes(p.pieces, text[..n + 1]);
    }
  }

  /** A star takes as many characters as fit, and the rest of the pattern follows. */
  ghost predicate AfterStar(a: Atom, r: Pattern, text: string, i: nat) {
    i <= |text| && AllFit(a, text[..i]) && Here(r, text[i..])
  }

  lemma HereStar(a: Atom, r: Pattern, text: string)
    ensures Here(Push(Star(a), r), text) <==> exists i: nat :: AfterStar(a, r, text, i)
  {
    var p := Push(Star(a), r);
    assert p.pieces[1..] == r.pieces;
    if Here(p, text) {
      var n: nat :| n <= |text| && Denotes(p.pieces, text[..n]) && (p.end ==> n == |text|);
      var k :| 0 <= k <= n && AllFit(a, text[..n][..k]) && Denotes(r.pieces, text[..n][k..]);
      assert text[..n][..k] == text[..k] && text[..n][k..] == text[k..][..n - k];
      assert AfterStar(a, r, text, k);
    }
    if i: nat :| AfterStar(a, r, text, i) {
      var n: nat :| n <= |text[i..]| && Denotes(r.pieces, text[i..][..n]) && (r.end ==> n == |text[i..]|);
      assert text[..i + n][..i] == text[..i] && text[..i + n][i..] == text[i..][..n];
      assert Denotes(p.pieces, text[..i + n]);
    }
  }

  /** A prefix of some suffix is a substring. */
  lemma HereSomewhere(p: Pattern, text: string, i: nat)
    requires i <= |text|
    ensures Here(p, text[i..]) <==> exists j: nat :: i <= j <= |text| && Denotes(p.pieces, text[i..j]) && (p.end ==> j == |text|)
  {
    if Here(p, text[i..]) {
      var n: nat :| n <= |text[i..]| && Denotes(p.pieces, text[i..][..n]) && (p.end ==> n == |text[i..]|);
      assert text[i..][..n] == text[i..i + n];
    }
    if j: nat :| i <= j <= |text| && Denotes(p.pieces, text[i..j]) && (p.end ==> j == |text|) {
      assert text[i..][..j - i] == text[i..j];
    }
  }

  // ----- the matcher -----

  /** matchhere: is the pattern found at the beginning of the text? */
  method MatchHere(re: string, text: string) returns (r: bool)
    ensures r <==> Here(Parse(re), text)
    decreases |re|, 0
  {
    HereEmpty(text);
    if re == [] {
      return true;
    }
    if |re| > 1 && re[1] == '*' {
      HereStar(AtomOf(re[0]), Parse(re[2..]), text);
      assert Parse(re) == Push(Star(AtomOf(re[0])), Parse(re[2..]));
      r := MatchStar(re[0], re[2..], text);
      return;
    }
    if re[0] == '$' && |re| == 1 {
      assert Parse(re) == Pattern([], true);
      return text == [];
    }
    HereOne(AtomOf(re[0]), Parse(re[1..]), text);
    if text != [] && (re[0] == '.' || re[0] == text[0]) {
      r := MatchHere(re[1..], text[1..]);
      return;
    }
    return false;
  }

  /** matchstar: is c repeated and then the pattern found at the beginning of the text? */
  method MatchStar(c: char, re: string, text: string) returns (r: bool)
    ensures r <==> exists i: nat :: AfterStar(AtomOf(c), Parse(re), text, i)
    decreases |re|, 1
  {
    var i := 0;
    while true
      invariant 0 <= i <= |text| && AllFit(AtomOf(c), text[..i])
      invariant forall k: nat :: k < i ==> !AfterStar(AtomOf(c), Parse(re), text, k)
      decreases |text| - i
    {
      r := MatchHere(re, text[i..]);
      if r {
        assert AfterStar(AtomOf(c), Parse(re), text, i);
        return;
      }
      if i == |text| || !(text[i] == c || c == '.') {
        break;
      }
      i := i + 1;
    }
    forall k: nat | k > i ensures !AfterStar(AtomOf(c), Parse(re), text, k) {
      if k <= |text| {
        assert text[..k][i] == text[i];
      }
    }
    r := false;
  }

  /** match: is the pattern found anywhere in the text? */
  method Match(re: string, text: string) returns (r: bool)
    ensures r <==> Matches(re, text)
  {
    if re != [] && re[0] == '^' {
      r := MatchHere(re[1..], text);
      HereSomewhere(Parse(re[1..]), text, 0);
      assert text[0..] == text;
      return;
    }
    var i := 0;
    while true
      invariant 0 <= i <= |text| && forall k: nat :: k < i ==> !Here(Parse(re), text[k..])
      decreases |text| - i
    {
      r := MatchHere(re, text[i..]);
      HereSomewhere(Parse(re), text, i);
      if r {
        return;
      }
      if i == |text| {
        break;
      }
      i := i + 1;
    }
    forall k: nat, j: nat | k <= j <= |text| && Denotes(Parse(re).pieces, text[k..j]) ensures Parse(re).end && j != |text| {
      HereSomewhere(Parse(re), text, k);
      assert !Here(Parse(re), text[k..]);
    }
  }
}
