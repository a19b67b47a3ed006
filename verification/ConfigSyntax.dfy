/** Config trees as values: the tokens a tree stands for, the text ToString prints for it
    (config_parser.cc), and the proof that the printed text lexes to those tokens.  Reading is a
    relation between a text, its tokens and the text that follows, so the proofs go from the parts
    of a line to lines and on to blocks. */
module ConfigSyntax {
  import opened Basics
  import opened ConfigLexer

  /** A statement that ends with a semicolon, or one that owns a block. */
  datatype Statement =
    | Simple(tokens: seq<string>)
    | Block(tokens: seq<string>, body: seq<Statement>)

  datatype Token = Word(text: string) | OpenBlock | CloseBlock | EndStatement

  /** The tokens of an input without its comments, and whether it ended outside a quote. */
  datatype TokenStream = TokenStream(tokens: seq<Token>, clean: bool)

  function Words(ws: seq<string>): (ts: seq<Token>)
    ensures |ts| == |ws|
  {
    seq(|ws|, i requires 0 <= i < |ws| => Word(ws[i]))
  }

  function StatementTokens(st: Statement): seq<Token> {
    match st
    case Simple(ws) => Words(ws) + [EndStatement]
    case Block(ws, body) => Words(ws) + [OpenBlock] + TokensOf(body) + [CloseBlock]
  }

  function TokensOf(sts: seq<Statement>): seq<Token> {
    if sts == [] then [] else StatementTokens(sts[0]) + TokensOf(sts[1..])
  }

  function Prepend(ts: seq<Token>, rest: TokenStream): TokenStream {
    rest.(tokens := ts + rest.tokens)
  }

  function TokenOf(scan: Scan): Token
    requires scan.kind in {Normal, StartBlock, EndBlock, StatementEnd}
  {
    match scan.kind
    case Normal => Word(scan.text)
    case StartBlock => OpenBlock
    case EndBlock => CloseBlock
    case StatementEnd => EndStatement
  }

  function Tokenize(s: string): TokenStream
    decreases |s|
  {
    var scan := Lex(s);
    if scan.kind == Eof then TokenStream([], true)
    else if scan.kind == Error then TokenStream([], false)
    else if scan.kind == Comment then Tokenize(scan.rest)
    else Prepend([TokenOf(scan)], Tokenize(scan.rest))
  }

  // ---------- Printing ----------

  function Indent(depth: int): string {
    if depth <= 0 then "" else "  " + Indent(depth - 1)
  }

  /** Two blanks for each level. */
  lemma {:induction false} IndentIs(depth: int)
    ensures Indent(depth) == seq(if depth <= 0 then 0 else 2 * depth, _ => ' ')
    decreases if depth <= 0 then 0 else depth
  {
    if depth > 0 {
      IndentIs(depth - 1);
    }
  }

  function Join(ws: seq<string>): string {
    if ws == [] then "" else if |ws| == 1 then ws[0] else ws[0] + " " + Join(ws[1..])
  }

  function PrintStatement(st: Statement, depth: int): string {
    Indent(depth) + (Join(st.tokens) +
      match st
      case Simple(_) => ";\n"
      case Block(_, body) => " {\n" + (Print(body, depth + 1) + (Indent(depth) + "}\n")))
  }

  function Print(sts: seq<Statement>, depth: int): string {
    if sts == [] then "" else PrintStatement(sts[0], depth) + Print(sts[1..], depth)
  }

  lemma PrintedOne(st: Statement, depth: int)
    ensures Print([st], depth) == PrintStatement(st, depth)
  {
    assert [st][1..] == [];
  }

  lemma PrintedLine()
    ensures PrintStatement(Simple(["listen", "80"]), 1) == "  listen 80;\n"
  {
    var ws := ["listen", "80"];
    assert ws[1..] == ["80"] && Join(ws) == "listen" + " " + "80";
    IndentIs(1);
  }

  /** A block as it is printed. */
  lemma PrintedExample()
    ensures Print([Block(["server"], [Simple(["listen", "80"])])], 0) == "server {\n  listen 80;\n}\n"
  {
    var line := Simple(["listen", "80"]);
    PrintedOne(Block(["server"], [line]), 0);
    PrintedOne(line, 1);
    PrintedLine();
    assert "server" + (" {\n" + ("  listen 80;\n" + ("" + "}\n"))) == "server {\n  listen 80;\n}\n";
  }

  /** Every token of the tree is text that the tokenizer reads back. */
  predicate LexableTokens(sts: seq<Statement>) {
    sts != [] ==>
      && (forall w :: w in sts[0].tokens ==> IsLexable(w))
      && (sts[0].Block? ==> LexableTokens(sts[0].body))
      && LexableTokens(sts[1..])
  }

  /** Every statement has a token and every block has a statement. */
  predicate FullStatements(sts: seq<Statement>) {
    sts != [] ==>
      && sts[0].tokens != []
      && (sts[0].Block? ==> sts[0].body != [] && FullStatements(sts[0].body))
      && FullStatements(sts[1..])
  }

  /** s is the text of the tokens ts followed by rest. */
  ghost predicate Reads(s: string, ts: seq<Token>, rest: string) {
    Tokenize(s) == Prepend(ts, Tokenize(rest))
  }

  lemma ReadsChain(s: string, ts: seq<Token>, mid: string, us: seq<Token>, rest: string)
    requires Reads(s, ts, mid) && Reads(mid, us, rest)
    ensures Reads(s, ts + us, rest)
  {
    assert ts + (us + Tokenize(rest).tokens) == ts + us + Tokenize(rest).tokens;
  }

  lemma ReadsOne(s: string)
    requires Lex(s).kind in {Normal, StartBlock, EndBlock, StatementEnd}
    ensures Reads(s, [TokenOf(Lex(s))], Lex(s).rest)
  {
  }

  lemma SameLexReads(s: string, t: string)
    requires Lex(s) == Lex(t)
    ensures Reads(s, [], t)
  {
    assert Tokenize(s) == Tokenize(t);
    assert [] + Tokenize(t).tokens == Tokenize(t).tokens;
  }

  lemma BlankReads(s: string, ts: seq<Token>, rest: string)
    requires s != "" && IsBlank(s[0]) && Reads(s[1..], ts, rest)
    ensures Reads(s, ts, rest)
  {
    LexSkipsBlank(s);
  }

  lemma {:induction false} IndentLexes(depth: int, rest: string)
    ensures Lex(Indent(depth) + rest) == Lex(rest)
    decreases if depth <= 0 then 0 else depth
  {
    if depth <= 0 {
      assert Indent(depth) + rest == rest;
    } else {
      var s := Indent(depth) + rest;
      assert s == [' ', ' '] + (Indent(depth - 1) + rest);
      LexSkipsBlank(s);
      LexSkipsBlank(s[1..]);
      assert s[1..][1..] == Indent(depth - 1) + rest;
      IndentLexes(depth - 1, rest);
    }
  }

  lemma IndentReads(depth: int, s: string, ts: seq<Token>, rest: string)
    requires Reads(s, ts, rest)
    ensures Reads(Indent(depth) + s, ts, rest)
  {
    IndentLexes(depth, s);
    SameLexReads(Indent(depth) + s, s);
  }

  lemma WordReads(w: string, rest: string)
    requires IsLexable(w) && rest != "" && EndsPlain(rest[0])
    ensures Reads(w + rest, [Word(w)], rest)
  {
    LexableLexes(w, rest);
    ReadsOne(w + rest);
  }

  lemma {:induction false} JoinReads(ws: seq<string>, rest: string)
    requires forall w :: w in ws ==> IsLexable(w)
    requires rest != "" && EndsPlain(rest[0])
    ensures Reads(Join(ws) + rest, Words(ws), rest)
  {
    hide Reads, IsLexable;
    if ws == [] {
      assert Join(ws) + rest == rest;
      SameLexReads(rest, rest);
    } else {
      assert ws[0] in ws;
      assert Words(ws) == [Word(ws[0])] + Words(ws[1..]);
      if |ws| == 1 {
        assert Words(ws) == [Word(ws[0])];
        WordReads(ws[0], rest);
      } else {
        var tail := Join(ws[1..]) + rest;
        assert Join(ws) + rest == ws[0] + ([' '] + tail);
        WordReads(ws[0], [' '] + tail);
        JoinReads(ws[1..], rest);
        BlankReads([' '] + tail, Words(ws[1..]), rest);
        ReadsChain(Join(ws) + rest, [Word(ws[0])], [' '] + tail, Words(ws[1..]), rest);
      }
    }
  }

  /** A punctuation mark at the end of a line: the newline is skipped. */
  lemma PunctuationReads(c: char, rest: string)
    requires c == ';' || c == '{' || c == '}'
    ensures Reads([c, '\n'] + rest,
                  [if c == ';' then EndStatement else if c == '{' then OpenBlock else CloseBlock], rest)
  {
    var s := [c, '\n'] + rest;
    assert SkipBlanks(s) == s;
    assert s[1..] == ['\n'] + rest && s[1..][1..] == rest;
    ReadsOne(s);
    LexSkipsBlank(s[1..]);
  }

  lemma BlockText(ws: seq<string>, body: seq<Statement>, depth: int, rest: string)
    ensures PrintStatement(Block(ws, body), depth) + rest
            == Indent(depth) + (Join(ws) + ([' '] + (['{', '\n']
               + (Print(body, depth + 1) + (Indent(depth) + (['}', '\n'] + rest))))))
  {
    var i, p := Indent(depth), Print(body, depth + 1);
    var e := i + "}\n";
    Assoc(i, "}\n", rest);
    Assoc(p, e, rest);
    Assoc(" {\n", p + e, rest);
    Assoc(" ", "{\n", p + e + rest);
    assert " {\n" == " " + "{\n";
    Assoc(Join(ws), " {\n" + (p + e), rest);
    Assoc(i, Join(ws) + (" {\n" + (p + e)), rest);
  }

  lemma SimpleReads(ws: seq<string>, depth: int, rest: string)
    requires forall w :: w in ws ==> IsLexable(w)
    ensures Reads(PrintStatement(Simple(ws), depth) + rest, StatementTokens(Simple(ws)), rest)
  {
    var tail := Join(ws) + ([';', '\n'] + rest);
    JoinReads(ws, [';', '\n'] + rest);
    PunctuationReads(';', rest);
    ReadsChain(tail, Words(ws), [';', '\n'] + rest, [EndStatement], rest);
    IndentReads(depth, tail, Words(ws) + [EndStatement], rest);
    Assoc(Join(ws), ";\n", rest);
    Assoc(Indent(depth), Join(ws) + ";\n", rest);
  }

  lemma {:induction false} StatementReads(st: Statement, depth: int, rest: string)
    requires forall w :: w in st.tokens ==> IsLexable(w)
    requires st.Block? ==> LexableTokens(st.body)
    ensures Reads(PrintStatement(st, depth) + rest, StatementTokens(st), rest)
    decreases st, 0
  {
    hide Reads, LexableTokens, IsLexable, PrintStatement, TokensOf;
    match st
    case Simple(ws) =>
      SimpleReads(ws, depth, rest);
    case Block(ws, body) =>
      var inner := Print(body, depth + 1) + (Indent(depth) + (['}', '\n'] + rest));
      BodyReads(body, depth, rest);
      OpeningReads(ws, inner, TokensOf(body) + [CloseBlock], rest);
      assert Words(ws) + ([OpenBlock] + (TokensOf(body) + [CloseBlock]))
          == Words(ws) + [OpenBlock] + TokensOf(body) + [CloseBlock];
      IndentReads(depth, Join(ws) + ([' '] + (['{', '\n'] + inner)), StatementTokens(st), rest);
      BlockText(ws, body, depth, rest);
  }

  lemma OpeningReads(ws: seq<string>, inner: string, ts: seq<Token>, rest: string)
    requires forall w :: w in ws ==> IsLexable(w)
    requires Reads(inner, ts, rest)
    ensures Reads(Join(ws) + ([' '] + (['{', '\n'] + inner)), Words(ws) + ([OpenBlock] + ts), rest)
  {
    var open := ['{', '\n'] + inner;
    JoinReads(ws, [' '] + open);
    PunctuationReads('{', inner);
    ReadsChain(open, [OpenBlock], inner, ts, rest);
    BlankReads([' '] + open, [OpenBlock] + ts, rest);
    ReadsChain(Join(ws) + ([' '] + open), Words(ws), [' '] + open, [OpenBlock] + ts, rest);
  }

  lemma {:induction false} BodyReads(body: seq<Statement>, depth: int, rest: string)
    requires LexableTokens(body)
    ensures Reads(Print(body, depth + 1) + (Indent(depth) + (['}', '\n'] + rest)), TokensOf(body) + [CloseBlock], rest)
    decreases body, 2
  {
    var close := ['}', '\n'] + rest;
    PunctuationReads('}', rest);
    IndentReads(depth, close, [CloseBlock], rest);
    PrintReads(body, depth + 1, Indent(depth) + close);
    ReadsChain(Print(body, depth + 1) + (Indent(depth) + close), TokensOf(body),
               Indent(depth) + close, [CloseBlock], rest);
  }

  /** A printed tree lexes to its own tokens, at any depth and before any text. */
  lemma {:induction false} PrintReads(sts: seq<Statement>, depth: int, rest: string)
    requires LexableTokens(sts)
    ensures Reads(Print(sts, depth) + rest, TokensOf(sts), rest)
    decreases sts, 1
  {
    if sts == [] {
      assert Print(sts, depth) + rest == rest;
    } else {
      var tail := Print(sts[1..], depth) + rest;
      assert Print(sts, depth) + rest == PrintStatement(sts[0], depth) + tail;
      StatementReads(sts[0], depth, tail);
      PrintReads(sts[1..], depth, rest);
      ReadsChain(Print(sts, depth) + rest, StatementTokens(sts[0]), tail, TokensOf(sts[1..]), rest);
    }
  }
}
