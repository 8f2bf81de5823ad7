/** A rendered terminal line: the characters it shows, interleaved with the
    escape codes that colour them. Python builds such a line as one `str`
    by `+` and f-strings; here it is a sequence of pieces, so concatenation
    of strings is concatenation of sequences, and an escape code is one
    piece rather than several characters. */
module Pieces {
  import opened Colorama

  datatype Piece = Code(token: Token) | Ch(c: char)

  type Line = seq<Piece>

  /** The text `s` written with no colour codes in it. */
  function Lit(s: string): (r: Line)
    ensures |r| == |s|
  {
    if s == [] then [] else [Ch(s[0])] + Lit(s[1..])
  }

  /** The codes `t`, one piece each, with no text between them. */
  function CodesLine(t: seq<Token>): (r: Line)
    ensures |r| == |t|
  {
    if t == [] then [] else [Code(t[0])] + CodesLine(t[1..])
  }

  /** What the terminal shows of one piece. */
  function PieceText(p: Piece): string
  {
    if p.Ch? then [p.c] else []
  }

  /** The escape code one piece carries, if any. */
  function PieceCodes(p: Piece): seq<Token>
  {
    if p.Code? then [p.token] else []
  }

  /** What the terminal shows of a line: its characters, codes removed. */
  function Plain(l: Line): string
  {
    if l == [] then [] else PieceText(l[0]) + Plain(l[1..])
  }

  /** The escape codes of a line, in order, characters removed. */
  function Codes(l: Line): seq<Token>
  {
    if l == [] then [] else PieceCodes(l[0]) + Codes(l[1..])
  }

  /** Stripping the codes of two joined lines strips each. */
  lemma {:induction false} PlainConcat(a: Line, b: Line)
    ensures Plain(a + b) == Plain(a) + Plain(b)
  {
    if a == [] {
      assert a + b == b;
    } else {
      assert (a + b)[1..] == a[1..] + b;
      PlainConcat(a[1..], b);
    }
  }

  /** The codes of two joined lines are the codes of each, in order. */
  lemma {:induction false} CodesConcat(a: Line, b: Line)
    ensures Codes(a + b) == Codes(a) + Codes(b)
  {
    if a == [] {
      assert a + b == b;
    } else {
      assert (a + b)[1..] == a[1..] + b;
      CodesConcat(a[1..], b);
    }
  }

  /** Both views of a line made of four parts. */
  lemma Views4(a: Line, b: Line, c: Line, d: Line)
    ensures Plain(a + b + c + d) == Plain(a) + Plain(b) + Plain(c) + Plain(d)
    ensures Codes(a + b + c + d) == Codes(a) + Codes(b) + Codes(c) + Codes(d)
  {
    PlainConcat(a, b); PlainConcat(a + b, c); PlainConcat(a + b + c, d);
    CodesConcat(a, b); CodesConcat(a + b, c); CodesConcat(a + b + c, d);
  }

  /** Literal text shows exactly itself and carries no code. */
  lemma {:induction false} LitViews(s: string)
    ensures Plain(Lit(s)) == s
    ensures Codes(Lit(s)) == []
  {
    if s != [] {
      assert Lit(s)[1..] == Lit(s[1..]);
      LitViews(s[1..]);
    }
  }

  /** The `k`-th piece of a literal text is its `k`-th character. */
  lemma {:induction false} LitIndex(s: string, k: nat)
    requires k < |s|
    ensures Lit(s)[k] == Ch(s[k])
  {
    if k > 0 {
      assert Lit(s)[k] == Lit(s[1..])[k - 1];
      LitIndex(s[1..], k - 1);
    }
  }

  /** Where the four parts of a four-part line sit. */
  lemma Split4(a: Line, b: Line, c: Line, d: Line)
    ensures (a + b + c + d)[..|a|] == a
    ensures (a + b + c + d)[|a|..|a| + |b|] == b
    ensures (a + b + c + d)[|a| + |b|..|a| + |b| + |c|] == c
    ensures (a + b + c + d)[|a| + |b| + |c|..] == d
  {
    var abc := a + b + c;
    assert (abc + d)[..|abc|] == abc;
    assert (a + b + c)[..|a| + |b|] == a + b;
    assert (a + b)[..|a|] == a;
    assert (a + b)[|a|..] == b;
    assert (a + b + c)[|a| + |b|..] == c;
  }

  /** A one-piece line shows that piece's text and carries its code. */
  lemma SingleViews(p: Piece)
    ensures Plain([p]) == PieceText(p)
    ensures Codes([p]) == PieceCodes(p)
  {
    assert [p][1..] == [];
  }

  /** The `k`-th piece of a run of codes is the `k`-th code. */
  lemma {:induction false} CodesLineIndex(t: seq<Token>, k: nat)
    requires k < |t|
    ensures CodesLine(t)[k] == Code(t[k])
  {
    if k > 0 {
      assert CodesLine(t)[k] == CodesLine(t[1..])[k - 1];
      CodesLineIndex(t[1..], k - 1);
    }
  }

  /** A run of codes shows nothing and is its own code sequence. */
  lemma {:induction false} CodesLineViews(t: seq<Token>)
    ensures Plain(CodesLine(t)) == []
    ensures Codes(CodesLine(t)) == t
  {
    if t != [] {
      assert CodesLine(t)[1..] == CodesLine(t[1..]);
      CodesLineViews(t[1..]);
    }
  }
}
