/** Printing and parsing configs undo each other: exactly the trees without empty statements
    or blocks and with lexable tokens come back, and every accepted text yields such a tree. */
module ConfigRoundTrip {
  import opened ConfigLexer
  import opened ConfigSyntax
  import opened ConfigGrammar

  /** A tree that can be printed and read back. */
  ghost predicate Printable(tree: seq<Statement>) {
    tree != [] && FullStatements(tree) && LexableTokens(tree)
  }

  ghost predicate LexableWords(toks: seq<Token>) {
    forall i :: 0 <= i < |toks| && toks[i].Word? ==> IsLexable(toks[i].text)
  }

  lemma {:induction false} TokenizeLexable(s: string)
    ensures LexableWords(Tokenize(s).tokens)
    decreases |s|
  {
    var scan := Lex(s);
    if scan.kind != Eof && scan.kind != Error {
      TokenizeLexable(scan.rest);
      if scan.kind == Normal {
        LexedIsLexable(s);
      }
    }
  }

  lemma LexableParts(a: seq<Token>, b: seq<Token>)
    requires LexableWords(a + b)
    ensures LexableWords(a) && LexableWords(b)
  {
    assert forall i :: 0 <= i < |a| ==> (a + b)[i] == a[i];
    assert forall i :: 0 <= i < |b| ==> (a + b)[|a| + i] == b[i];
  }

  lemma {:induction false} LexableTree(sts: seq<Statement>)
    requires LexableWords(TokensOf(sts))
    ensures LexableTokens(sts)
  {
    if sts != [] {
      var st := sts[0];
      LexableParts(StatementTokens(st), TokensOf(sts[1..]));
      LexableTree(sts[1..]);
      match st {
        case Simple(ws) =>
          LexableParts(Words(ws), [EndStatement]);
        case Block(ws, body) =>
          LexableParts(Words(ws) + [OpenBlock] + TokensOf(body), [CloseBlock]);
          LexableParts(Words(ws) + [OpenBlock], TokensOf(body));
          LexableParts(Words(ws), [OpenBlock]);
          LexableTree(body);
      }
      forall w | w in st.tokens
        ensures IsLexable(w)
      {
        var i :| 0 <= i < |st.tokens| && st.tokens[i] == w;
        assert Words(st.tokens)[i] == Word(w);
      }
    }
  }

  /** Whatever text is accepted, even with open blocks at its end or one closing brace too
      many, the tree is one that can be printed. */
  lemma AcceptedIsPrintable(s: string)
    requires ParseText(s, []).outcome == Success
    ensures Printable(ParseText(s, []).tree)
  {
    var toks := Tokenize(s).tokens;
    var tree := ParseText(s, []).tree;
    AcceptedSpells(toks);
    TokenizeLexable(s);
    if toks == TokensOf(tree) + [CloseBlock] {
      LexableParts(TokensOf(tree), [CloseBlock]);
    } else {
      var k: nat :| TokensOf(tree) == toks + Closes(k);
      assert LexableWords(TokensOf(tree));
    }
    LexableTree(tree);
  }

  /** Print then parse gives the tree back, at any depth, exactly when it is printable. */
  lemma PrintThenParse(tree: seq<Statement>, depth: int)
    ensures ParseText(Print(tree, depth), []) == Result(Success, tree) <==> Printable(tree)
  {
    var s := Print(tree, depth);
    if Printable(tree) {
      PrintReads(tree, depth, "");
      assert s + "" == s;
      assert Tokenize("") == TokenStream([], true);
      assert Tokenize(s).tokens == TokensOf(tree) + Closes(0);
      assert TokensOf(tree) == Tokenize(s).tokens + Closes(0);
      SpellsAccepted(Tokenize(s).tokens, tree);
    }
    if ParseText(s, []) == Result(Success, tree) {
      AcceptedIsPrintable(s);
    }
  }

  /** Parse, print, parse gives the same tree as the first parse. */
  lemma ParsePrintParse(s: string, depth: int)
    requires ParseText(s, []).outcome == Success
    ensures ParseText(Print(ParseText(s, []).tree, depth), []) == ParseText(s, [])
  {
    AcceptedIsPrintable(s);
    PrintThenParse(ParseText(s, []).tree, depth);
  }

  // ---------- A config that already holds statements ----------

  /** The state with the statements `base` put in front of the root's. */
  function Under(base: seq<Statement>, st: State): State {
    if st.context == [] then st.(closed := base + st.closed)
    else st.(context := PutUnder(base, st.context))
  }

  function PutUnder(base: seq<Statement>, context: seq<Frame>): seq<Frame>
    requires context != []
  {
    context[0 := context[0].(closed := base + context[0].closed)]
  }

  lemma StepUnder(base: seq<Statement>, st: State, tok: Token)
    ensures Step(Under(base, st), tok) == Under(base, Step(st, tok))
  {
    match tok
    case EndStatement =>
      assert base + st.closed + [Simple(st.current)] == base + (st.closed + [Simple(st.current)]);
    case OpenBlock =>
      if st.context == [] {
        assert [Frame(base + st.closed, st.current)] == PutUnder(base, [Frame(st.closed, st.current)]);
      } else {
        assert PutUnder(base, st.context) + [Frame(st.closed, st.current)]
            == PutUnder(base, st.context + [Frame(st.closed, st.current)]);
      }
    case CloseBlock =>
      if st.context != [] {
        var n := |st.context| - 1;
        var one := [Block(st.context[n].tokens, st.closed)];
        if n == 0 {
          assert base + st.context[0].closed + one == base + (st.context[0].closed + one);
        } else {
          assert PutUnder(base, st.context)[..n] == PutUnder(base, st.context[..n]);
        }
      }
    case _ =>
  }

  lemma {:induction false} RunUnder(base: seq<Statement>, st: State, toks: seq<Token>)
    ensures Run(Under(base, st), toks) == Under(base, Run(st, toks))
    decreases |toks|
  {
    if toks != [] {
      StepUnder(base, st, toks[0]);
      RunUnder(base, Step(st, toks[0]), toks[1..]);
    }
  }

  lemma {:induction false} PlugUnder(base: seq<Statement>, context: seq<Frame>, body: seq<Statement>)
    requires context != []
    ensures Plug(PutUnder(base, context), body) == base + Plug(context, body)
    decreases |context|
  {
    var n := |context| - 1;
    var one := [Block(context[n].tokens, body)];
    if n == 0 {
      assert base + context[0].closed + one == base + (context[0].closed + one);
    } else {
      assert PutUnder(base, context)[..n] == PutUnder(base, context[..n]);
      PlugUnder(base, context[..n], context[n].closed + one);
    }
  }

  /** Parsing into a config that already holds statements appends to them and changes nothing
      else about the result. */
  lemma ParseIntoAppends(s: string, base: seq<Statement>)
    ensures ParseText(s, base).outcome == ParseText(s, []).outcome
    ensures ParseText(s, base).tree == base + ParseText(s, []).tree
  {
    hide Tokenize, Run, Step;
    var toks := Tokenize(s).tokens;
    var st := Run(Init([]), toks);
    assert base + [] == base;
    RunUnder(base, Init([]), toks);
    if st.context == [] {
      assert TopStatements(Under(base, st)) == base + TopStatements(st);
    } else {
      PlugUnder(base, st.context, TopStatements(st));
    }
  }
}
