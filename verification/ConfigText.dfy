/** Config text spelled out character by character: blanks, punctuation, comments, quoted and
    plain words, and what may be open at the end.  Every text is made of such pieces, and they
    fix its tokens. */
module ConfigText {
  import opened Basics
  import opened ConfigLexer
  import opened ConfigSyntax
  import opened ConfigGrammar

  datatype Piece =
    | Blank(c: char)
    | Mark(c: char)
    | Remark(text: string, end: char)
    | Quoted(quote: char, text: string)
    | Plain(text: string)

  /** What the end of the input cuts off. */
  datatype Tail = Whole | OpenRemark(text: string) | OpenPlain(text: string) | OpenQuote(quote: char, text: string)

  predicate BlankChar(c: char) {
    c in [' ', '\t', '\n', '\r']
  }

  predicate EndsLine(c: char) {
    c in ['\n', '\r']
  }

  /** What may follow a plain word. */
  predicate Delimiter(c: char) {
    c in [' ', '\t', '\n', ';', '{', '}', '\'', '"']
  }

  predicate Delimited(s: string) {
    s != "" && Delimiter(s[0])
  }

  predicate RemarkText(u: string) {
    forall i :: 0 <= i < |u| ==> !EndsLine(u[i])
  }

  predicate PlainText(u: string) {
    u != "" && u[0] != '#' && u[0] != '\r' && forall i :: 0 <= i < |u| ==> !Delimiter(u[i])
  }

  /** Inside quotes, the quote stands only after a backslash. */
  predicate QuotedText(q: char, u: string) {
    forall i :: 0 <= i < |u| && u[i] == q ==> i > 0 && u[i - 1] == '\\'
  }

  predicate GoodPiece(p: Piece) {
    match p
    case Blank(c) => BlankChar(c)
    case Mark(c) => c in ['{', '}', ';']
    case Remark(u, e) => RemarkText(u) && EndsLine(e)
    case Quoted(q, u) => q in ['\'', '"'] && QuotedText(q, u) && (u != "" ==> u[|u| - 1] != '\\')
    case Plain(u) => PlainText(u)
  }

  predicate GoodTail(t: Tail) {
    match t
    case Whole => true
    case OpenRemark(u) => RemarkText(u)
    case OpenPlain(u) => PlainText(u)
    case OpenQuote(q, u) => q in ['\'', '"'] && QuotedText(q, u)
  }

  function PieceText(p: Piece): string {
    match p
    case Blank(c) => [c]
    case Mark(c) => [c]
    case Remark(u, e) => ['#'] + u + [e]
    case Quoted(q, u) => [q] + u + [q]
    case Plain(u) => u
  }

  function TailText(t: Tail): string {
    match t
    case Whole => ""
    case OpenRemark(u) => ['#'] + u
    case OpenPlain(u) => u
    case OpenQuote(q, u) => [q] + u
  }

  function TextOf(ps: seq<Piece>, t: Tail): string {
    if ps == [] then TailText(t) else PieceText(ps[0]) + TextOf(ps[1..], t)
  }

  predicate GoodText(ps: seq<Piece>, t: Tail) {
    if ps == [] then GoodTail(t)
    else
      && GoodPiece(ps[0])
      && GoodText(ps[1..], t)
      && (ps[0].Plain? ==> Delimited(TextOf(ps[1..], t)))
  }

  function PieceTokens(p: Piece): seq<Token> {
    match p
    case Blank(_) => []
    case Mark(c) => if c == '{' then [OpenBlock] else if c == '}' then [CloseBlock] else [EndStatement]
    case Remark(_, _) => []
    case Quoted(q, u) => [Word([q] + u + [q])]
    case Plain(u) => [Word(u)]
  }

  function TokensIn(ps: seq<Piece>): seq<Token> {
    if ps == [] then [] else PieceTokens(ps[0]) + TokensIn(ps[1..])
  }

  // ---------- The tokens of the pieces ----------

  lemma SameChars(c: char)
    ensures IsBlank(c) <==> BlankChar(c)
    ensures EndsComment(c) <==> EndsLine(c)
    ensures EndsPlain(c) <==> Delimiter(c)
    ensures IsQuote(c) <==> c in ['\'', '"']
  {
  }

  lemma {:induction false} RemarkLength(u: string, rest: string)
    requires RemarkText(u) && (rest != "" ==> EndsLine(rest[0]))
    ensures CommentLength(u + rest) == |u|
  {
    if u == "" {
      assert u + rest == rest;
      if rest != "" {
        SameChars(rest[0]);
      }
    } else {
      SameChars(u[0]);
      assert (u + rest)[0] == u[0] && (u + rest)[1..] == u[1..] + rest;
      RemarkLength(u[1..], rest);
    }
  }

  /** A comment ends at the first newline or carriage return. */
  lemma RemarkLexes(u: string, e: char, rest: string)
    requires RemarkText(u) && EndsLine(e)
    ensures Lex(['#'] + u + [e] + rest) == Scan(Comment, ['#'] + u, rest)
  {
    var t := ['#'] + u + [e] + rest;
    assert t[1..] == u + ([e] + rest);
    RemarkLength(u, [e] + rest);
    assert CommentLength(t) == 1 + |u|;
    assert SkipBlanks(t) == t && t[..1 + |u|] == ['#'] + u && t[2 + |u|..] == rest;
  }

  lemma RemarkReads(u: string, e: char, rest: string)
    requires RemarkText(u) && EndsLine(e)
    ensures Tokenize(['#'] + u + [e] + rest) == Tokenize(rest)
  {
    RemarkLexes(u, e, rest);
  }

  /** A comment may run into the end of the input. */
  lemma OpenRemarkReads(u: string)
    requires RemarkText(u)
    ensures Lex(['#'] + u) == Scan(Eof, ['#'] + u, "") && Tokenize(['#'] + u) == TokenStream([], true)
  {
    var t := ['#'] + u;
    assert t[1..] == u && u + "" == u;
    RemarkLength(u, "");
    assert SkipBlanks(t) == t;
  }

  lemma PlainIsToken(u: string)
    requires PlainText(u)
    ensures IsPlainToken(u)
  {
    forall i | 0 <= i < |u|
      ensures !EndsPlain(u[i])
    {
      SameChars(u[i]);
    }
    SameChars(u[0]);
  }

  lemma QuotedIsToken(q: char, u: string)
    requires GoodPiece(Quoted(q, u))
    ensures IsQuotedToken([q] + u + [q])
  {
    var w := [q] + u + [q];
    assert forall i :: 1 <= i < |w| - 1 ==> w[i] == u[i - 1];
    assert w[|w| - 2] == if u == "" then q else u[|u| - 1];
  }

  lemma {:induction false} OpenPlainLength(u: string)
    requires forall i :: 0 <= i < |u| ==> !EndsPlain(u[i])
    ensures PlainLength(u) == |u|
  {
    if u != "" {
      OpenPlainLength(u[1..]);
    }
  }

  lemma OpenPlainReads(u: string)
    requires PlainText(u)
    ensures Tokenize(u) == TokenStream([], true)
  {
    PlainIsToken(u);
    OpenPlainLength(u);
    assert SkipBlanks(u) == u;
  }

  lemma {:induction false} OpenQuoteEnd(t: string, i: nat)
    requires 1 <= i <= |t|
    requires forall k :: 1 <= k < |t| && t[k] == t[0] ==> t[k - 1] == '\\'
    ensures QuoteEnd(t, t[0], i) == |t|
    decreases |t| - i
  {
    if i < |t| {
      OpenQuoteEnd(t, i + 1);
    }
  }

  lemma OpenQuoteReads(q: char, u: string)
    requires q in ['\'', '"'] && QuotedText(q, u)
    ensures Tokenize([q] + u) == TokenStream([], false)
  {
    var t := [q] + u;
    assert forall k :: 1 <= k < |t| ==> t[k] == u[k - 1];
    OpenQuoteEnd(t, 1);
    assert SkipBlanks(t) == t;
  }

  lemma BlankSkipped(c: char, rest: string)
    requires BlankChar(c)
    ensures Reads([c] + rest, [], rest)
  {
    SameLexReads(rest, rest);
    assert ([c] + rest)[1..] == rest;
    BlankReads([c] + rest, [], rest);
  }

  lemma MarkReads(c: char, rest: string)
    requires c in ['{', '}', ';']
    ensures Reads([c] + rest, PieceTokens(Mark(c)), rest)
  {
    var s := [c] + rest;
    assert SkipBlanks(s) == s && s[1..] == rest;
    ReadsOne(s);
  }

  lemma QuotedReads(q: char, u: string, rest: string)
    requires GoodPiece(Quoted(q, u))
    ensures Reads([q] + u + [q] + rest, [Word([q] + u + [q])], rest)
  {
    var w := [q] + u + [q];
    var t := w + rest;
    QuotedIsToken(q, u);
    QuoteEndIs(t, q, 1, |w| - 1);
    assert SkipBlanks(t) == t && t[..|w|] == w && t[|w|..] == rest;
    ReadsOne(t);
  }

  /** What one piece gives, before any text that may follow it. */
  lemma PieceReads(p: Piece, rest: string)
    requires GoodPiece(p) && (p.Plain? ==> Delimited(rest))
    ensures Reads(PieceText(p) + rest, PieceTokens(p), rest)
  {
    hide Reads, Tokenize, Lex, QuotedText, RemarkText, PlainText, BlankChar;
    match p
    case Blank(c) => BlankSkipped(c, rest);
    case Mark(c) => MarkReads(c, rest);
    case Remark(u, e) => RemarkSkipped(u, e, rest);
    case Quoted(q, u) => QuotedReads(q, u, rest);
    case Plain(u) => PlainReads(u, rest);
  }

  lemma RemarkSkipped(u: string, e: char, rest: string)
    requires RemarkText(u) && EndsLine(e)
    ensures Reads(['#'] + u + [e] + rest, [], rest)
  {
    RemarkReads(u, e, rest);
    SameLexReads(rest, rest);
  }

  lemma PlainReads(u: string, rest: string)
    requires PlainText(u) && Delimited(rest)
    ensures Reads(u + rest, [Word(u)], rest)
  {
    PlainIsToken(u);
    SameChars(rest[0]);
    WordReads(u, rest);
  }

  lemma TailReads(t: Tail)
    requires GoodTail(t)
    ensures Tokenize(TailText(t)) == TokenStream([], !t.OpenQuote?)
  {
    match t
    case Whole =>
    case OpenRemark(u) => OpenRemarkReads(u);
    case OpenPlain(u) => OpenPlainReads(u);
    case OpenQuote(q, u) => OpenQuoteReads(q, u);
  }

  /** The tokens of a text are those of its pieces, and the end is clean unless it is quoted. */
  lemma {:induction false} TokensOfText(ps: seq<Piece>, t: Tail)
    requires GoodText(ps, t)
    ensures Tokenize(TextOf(ps, t)) == TokenStream(TokensIn(ps), !t.OpenQuote?)
  {
    hide GoodPiece, GoodTail, PieceText, TailText, PieceTokens, Tokenize;
    if ps == [] {
      TailReads(t);
    } else {
      PieceReads(ps[0], TextOf(ps[1..], t));
      TokensOfText(ps[1..], t);
    }
  }

  // ---------- Every text is made of pieces ----------

  lemma LongestRemark(u: string) returns (n: nat)
    ensures n <= |u| && RemarkText(u[..n]) && (n < |u| ==> EndsLine(u[n]))
  {
    n := 0;
    while n < |u| && !EndsLine(u[n])
      invariant n <= |u| && RemarkText(u[..n])
    {
      n := n + 1;
    }
  }

  lemma LongestPlain(u: string) returns (n: nat)
    requires u != "" && u[0] != '#' && u[0] != '\r' && !Delimiter(u[0])
    ensures 0 < n <= |u| && PlainText(u[..n]) && (n < |u| ==> Delimiter(u[n]))
  {
    n := 1;
    while n < |u| && !Delimiter(u[n])
      invariant 0 < n <= |u| && PlainText(u[..n])
    {
      n := n + 1;
    }
  }

  lemma LongestQuoted(q: char, u: string) returns (n: nat)
    requires q != '\\'
    ensures n <= |u| && QuotedText(q, u[..n])
    ensures n < |u| ==> u[n] == q && (n > 0 ==> u[n - 1] != '\\')
  {
    n := 0;
    while n < |u| && !(u[n] == q && (n == 0 || u[n - 1] != '\\'))
      invariant n <= |u| && QuotedText(q, u[..n])
    {
      n := n + 1;
    }
  }

  /** The first piece of a text, or the tail that it is. */
  ghost predicate Begins(s: string, ps: seq<Piece>, t: Tail, rest: string) {
    if ps == [] then GoodTail(t) && TailText(t) == s && rest == ""
    else |ps| == 1 && GoodPiece(ps[0]) && s == PieceText(ps[0]) + rest && |rest| < |s|
         && (ps[0].Plain? ==> Delimited(rest))
  }

  lemma FirstRemark(s: string) returns (ps: seq<Piece>, t: Tail, rest: string)
    requires s != "" && s[0] == '#'
    ensures Begins(s, ps, t, rest)
  {
    var n := LongestRemark(s[1..]);
    var u := s[1..][..n];
    assert s == ['#'] + s[1..];
    if n == |s| - 1 {
      assert s[1..] == u;
      return [], OpenRemark(u), "";
    }
    rest := s[n + 2..];
    assert s[1..] == u + [s[n + 1]] + rest;
    return [Remark(u, s[n + 1])], Whole, rest;
  }

  lemma FirstQuoted(s: string) returns (ps: seq<Piece>, t: Tail, rest: string)
    requires s != "" && s[0] in ['\'', '"']
    ensures Begins(s, ps, t, rest)
  {
    var q := s[0];
    var n := LongestQuoted(q, s[1..]);
    var u := s[1..][..n];
    assert s == [q] + s[1..];
    if n == |s| - 1 {
      assert s[1..] == u;
      return [], OpenQuote(q, u), "";
    }
    rest := s[n + 2..];
    assert s[1..] == u + [q] + rest;
    return [Quoted(q, u)], Whole, rest;
  }

  lemma FirstPlain(s: string) returns (ps: seq<Piece>, t: Tail, rest: string)
    requires s != "" && s[0] != '#' && s[0] != '\r' && !Delimiter(s[0])
    ensures Begins(s, ps, t, rest)
  {
    var n := LongestPlain(s);
    if n == |s| {
      assert s[..n] == s;
      return [], OpenPlain(s), "";
    }
    rest := s[n..];
    assert s == s[..n] + rest;
    return [Plain(s[..n])], Whole, rest;
  }

  lemma FirstPiece(s: string) returns (ps: seq<Piece>, t: Tail, rest: string)
    ensures Begins(s, ps, t, rest)
  {
    if s == "" {
      return [], Whole, "";
    } else if s[0] == '#' {
      ps, t, rest := FirstRemark(s);
    } else if s[0] in ['\'', '"'] {
      ps, t, rest := FirstQuoted(s);
    } else if BlankChar(s[0]) {
      assert s == [s[0]] + s[1..];
      return [Blank(s[0])], Whole, s[1..];
    } else if s[0] in ['{', '}', ';'] {
      assert s == [s[0]] + s[1..];
      return [Mark(s[0])], Whole, s[1..];
    } else {
      ps, t, rest := FirstPlain(s);
    }
  }

  /** Every text is made of good pieces. */
  lemma {:induction false} EveryText(s: string) returns (ps: seq<Piece>, t: Tail)
    ensures GoodText(ps, t) && TextOf(ps, t) == s
    decreases |s|
  {
    hide GoodPiece, GoodTail, PieceText, TailText, Delimited;
    var rest;
    ps, t, rest := FirstPiece(s);
    if ps != [] {
      var qs;
      qs, t := EveryText(rest);
      assert ([ps[0]] + qs)[1..] == qs;
      ps := [ps[0]] + qs;
    }
  }

  /** So the tokens of a text are those of any, and of some, pieces that make it up. */
  lemma TokenizeIff(s: string, ts: TokenStream)
    ensures Tokenize(s) == ts <==>
      exists ps, t :: GoodText(ps, t) && TextOf(ps, t) == s && ts == TokenStream(TokensIn(ps), !t.OpenQuote?)
  {
    hide GoodText, TextOf, Tokenize;
    forall ps, t | GoodText(ps, t)
      ensures Tokenize(TextOf(ps, t)) == TokenStream(TokensIn(ps), !t.OpenQuote?)
    {
      TokensOfText(ps, t);
    }
    var qs, u := EveryText(s);
  }

  // ---------- What parse makes of it ----------

  /** A text is accepted with a tree exactly if its pieces spell the tree and no quote is open. */
  lemma ParseMeans(ps: seq<Piece>, t: Tail, tree: seq<Statement>)
    requires GoodText(ps, t)
    ensures ParseText(TextOf(ps, t), []) == Result(Success, tree) <==>
      !t.OpenQuote? && tree != [] && FullStatements(tree) && Spells(TokensIn(ps), tree)
  {
    hide Tokenize, TokensIn, GoodText, TextOf, Run, Spells, Tree, FullStatements;
    TokensOfText(ps, t);
    AcceptsIffSpells(TokensIn(ps), tree);
  }

  lemma {:induction false} TokensInTwo(xs: seq<Piece>, ys: seq<Piece>)
    ensures TokensIn(xs + ys) == TokensIn(xs) + TokensIn(ys)
  {
    if xs == [] {
      assert xs + ys == ys;
    } else {
      assert (xs + ys)[1..] == xs[1..] + ys;
      TokensInTwo(xs[1..], ys);
    }
  }

  lemma {:induction false} InsertedText(xs: seq<Piece>, p: Piece, ys: seq<Piece>, t: Tail)
    requires GoodText(xs + ys, t) && GoodPiece(p) && !p.Plain?
    requires xs != [] ==> !xs[|xs| - 1].Plain?
    ensures GoodText(xs + ([p] + ys), t)
  {
    hide GoodPiece, PieceText, Delimited;
    if xs == [] {
      assert xs + ([p] + ys) == [p] + ys && ([p] + ys)[1..] == ys && xs + ys == ys;
    } else {
      var zs := xs[1..];
      assert (xs + ys)[1..] == zs + ys && (xs + ([p] + ys))[1..] == zs + ([p] + ys);
      InsertedText(zs, p, ys, t);
      if xs[0].Plain? {
        SameBeginning(zs, p, ys, t);
      }
    }
  }

  lemma SameBeginning(zs: seq<Piece>, p: Piece, ys: seq<Piece>, t: Tail)
    requires zs != [] && GoodText(zs + ys, t) && Delimited(TextOf(zs + ys, t))
    ensures Delimited(TextOf(zs + ([p] + ys), t))
  {
    var z := PieceText(zs[0]);
    assert z != "";
    assert (zs + ys)[0] == zs[0] && (zs + ([p] + ys))[0] == zs[0];
    assert TextOf(zs + ys, t)[0] == z[0] && TextOf(zs + ([p] + ys), t)[0] == z[0];
  }

  /** A comment or a blank put anywhere but right behind a plain word changes nothing. */
  lemma CommentChangesNothing(xs: seq<Piece>, p: Piece, ys: seq<Piece>, t: Tail, base: seq<Statement>)
    requires GoodText(xs + ys, t) && (xs != [] ==> !xs[|xs| - 1].Plain?)
    requires GoodPiece(p) && (p.Remark? || p.Blank?)
    ensures ParseText(TextOf(xs + ([p] + ys), t), base) == ParseText(TextOf(xs + ys, t), base)
  {
    hide GoodText, GoodPiece, TextOf, TokensIn, Run, Tree, Tokenize;
    InsertedText(xs, p, ys, t);
    TokensOfText(xs + ys, t);
    TokensOfText(xs + ([p] + ys), t);
    TokensInTwo(xs, ys);
    TokensInTwo(xs, [p] + ys);
    TokensInTwo([p], ys);
    NoTokensIn(p);
    assert [] + TokensIn(ys) == TokensIn(ys);
  }

  lemma NoTokensIn(p: Piece)
    requires p.Remark? || p.Blank?
    ensures TokensIn([p]) == []
  {
    assert [p][1..] == [];
  }
}
