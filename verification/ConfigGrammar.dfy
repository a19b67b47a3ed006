/** The parser of config_parser.cc as a machine over tokens, and what it accepts: exactly the
    tokens of a tree without empty statements or blocks, where the closing braces at the very
    end may be left out and one closing brace too many may follow. */
module ConfigGrammar {
  import opened ConfigLexer
  import opened ConfigSyntax

  /** A block under construction below the top of the stack: its finished statements and the
      tokens of the statement whose block is being read. */
  datatype Frame = Frame(closed: seq<Statement>, tokens: seq<string>)

  /** Undefined stands for top() or pop() on the empty stack. */
  datatype Status = Running | Rejected | Undefined

  /** How a parse ends: true, false, or undefined behaviour on the way. */
  datatype Outcome = Success | Failure | UndefinedBehaviour

  /** The parser between two tokens.  The stack has one entry per frame and one for `closed`;
      `current` holds the tokens of an unfinished statement, and `popped` says that a closing
      brace too many has emptied the stack. */
  datatype State = State(
    context: seq<Frame>,
    closed: seq<Statement>,
    current: seq<string>,
    last: TokenType,
    popped: bool,
    status: Status)

  datatype Result = Result(outcome: Outcome, tree: seq<Statement>)

  function Init(base: seq<Statement>): State {
    State([], base, [], Start, false, Running)
  }

  function Step(st: State, tok: Token): State {
    if st.status != Running then st
    else
      match tok
      case Word(w) =>
        if st.popped then st.(status := Undefined)
        else st.(current := st.current + [w], last := Normal)
      case EndStatement =>
        if st.last != Normal then st.(status := Rejected)
        else st.(closed := st.closed + [Simple(st.current)], current := [], last := StatementEnd)
      case OpenBlock =>
        if st.last != Normal then st.(status := Rejected)
        else st.(context := st.context + [Frame(st.closed, st.current)], closed := [], current := [],
                 last := StartBlock)
      case CloseBlock =>
        if st.last != StatementEnd && st.last != EndBlock then st.(status := Rejected)
        else if st.popped then st.(status := Undefined)
        else if st.context == [] then st.(popped := true, last := EndBlock)
        else
          var n := |st.context| - 1;
          var f := st.context[n];
          st.(context := st.context[..n], closed := f.closed + [Block(f.tokens, st.closed)],
              last := EndBlock)
  }

  function Run(st: State, toks: seq<Token>): State
    decreases |toks|
  {
    if toks == [] then st else Run(Step(st, toks[0]), toks[1..])
  }

  /** The end of the input: clean unless it is inside a quoted token. */
  function Finish(st: State, clean: bool): Outcome {
    match st.status
    case Undefined => UndefinedBehaviour
    case Rejected => Failure
    case Running =>
      if clean && (st.last == StatementEnd || st.last == EndBlock) then Success else Failure
  }

  /** The frames around a block, closed over it. */
  function Plug(context: seq<Frame>, body: seq<Statement>): seq<Statement>
    decreases |context|
  {
    if context == [] then body
    else
      var n := |context| - 1;
      Plug(context[..n], context[n].closed + [Block(context[n].tokens, body)])
  }

  function TopStatements(st: State): seq<Statement> {
    st.closed + if st.current == [] then [] else [Simple(st.current)]
  }

  /** The whole tree built so far, seen from the root. */
  function Tree(st: State): seq<Statement> {
    Plug(st.context, TopStatements(st))
  }

  /** The rest of a parse: from state st on the text s. */
  function ParseRest(st: State, s: string): Result {
    var ts := Tokenize(s);
    var end := Run(st, ts.tokens);
    Result(Finish(end, ts.clean), Tree(end))
  }

  /** Parsing a text into a config that already holds the statements `base`. */
  function ParseText(s: string, base: seq<Statement>): Result {
    ParseRest(Init(base), s)
  }

  // ---------- The machine against the grammar ----------

  function Closes(k: nat): (ts: seq<Token>)
    ensures |ts| == k && forall i :: 0 <= i < k ==> ts[i] == CloseBlock
  {
    seq(k, _ => CloseBlock)
  }

  /** The tokens of a tree, or all of them but some closing braces at the end, or all of them
      and one closing brace too many. */
  ghost predicate Spells(toks: seq<Token>, tree: seq<Statement>) {
    || toks == TokensOf(tree) + [CloseBlock]
    || exists k: nat :: TokensOf(tree) == toks + Closes(k)
  }

  function WrittenFrames(context: seq<Frame>): seq<Token>
    decreases |context|
  {
    if context == [] then []
    else
      var n := |context| - 1;
      WrittenFrames(context[..n]) + TokensOf(context[n].closed) + Words(context[n].tokens) + [OpenBlock]
  }

  /** The tokens that lead to a state. */
  function Written(st: State): seq<Token> {
    WrittenFrames(st.context) + TokensOf(st.closed) + Words(st.current)
    + if st.popped then [CloseBlock] else []
  }

  ghost predicate FullContext(context: seq<Frame>) {
    forall i :: 0 <= i < |context| ==> FullStatements(context[i].closed) && context[i].tokens != []
  }

  /** What every running state satisfies, whatever the config held before the parse. */
  ghost predicate Steady(st: State) {
    && st.status == Running
    && (st.last == Normal <==> st.current != [])
    && (st.popped ==> st.context == [] && st.last == EndBlock)
  }

  /** What every running state satisfies if the config held no empty statement or block. */
  ghost predicate Ok(st: State) {
    && Steady(st)
    && FullContext(st.context)
    && FullStatements(st.closed)
    && (st.last == StatementEnd || st.last == EndBlock ==> st.closed != [])
  }

  lemma StepSteady(st: State, tok: Token)
    requires Steady(st) && Step(st, tok).status == Running
    ensures Steady(Step(st, tok))
  {
  }

  lemma {:induction false} TokensOfAppend(a: seq<Statement>, b: seq<Statement>)
    ensures TokensOf(a + b) == TokensOf(a) + TokensOf(b)
  {
    if a == [] {
      assert a + b == b;
    } else {
      assert (a + b)[1..] == a[1..] + b;
      TokensOfAppend(a[1..], b);
    }
  }

  lemma TokensOfOne(st: Statement)
    ensures TokensOf([st]) == StatementTokens(st)
  {
    assert [st][1..] == [];
  }

  lemma {:induction false} FullAppend(a: seq<Statement>, b: seq<Statement>)
    ensures FullStatements(a + b) <==> FullStatements(a) && FullStatements(b)
  {
    if a == [] {
      assert a + b == b;
    } else {
      assert (a + b)[1..] == a[1..] + b;
      FullAppend(a[1..], b);
    }
  }

  lemma CloseFrame(f: Frame, body: seq<Statement>)
    requires FullStatements(f.closed) && f.tokens != [] && FullStatements(body) && body != []
    ensures FullStatements(f.closed + [Block(f.tokens, body)])
  {
    FullAppend(f.closed, [Block(f.tokens, body)]);
    assert [Block(f.tokens, body)][1..] == [];
  }

  lemma StepOk(st: State, tok: Token)
    requires Ok(st) && Step(st, tok).status == Running
    ensures Ok(Step(st, tok))
  {
    match tok
    case EndStatement =>
      FullAppend(st.closed, [Simple(st.current)]);
      assert [Simple(st.current)][1..] == [];
    case CloseBlock =>
      if st.context != [] {
        CloseFrame(st.context[|st.context| - 1], st.closed);
      }
    case _ =>
  }

  /** Finishing a statement only regroups the tokens. */
  lemma AppendWritten(before: seq<Token>, closed: seq<Statement>, one: Statement)
    ensures before + TokensOf(closed + [one]) == before + TokensOf(closed) + StatementTokens(one)
  {
    TokensOfAppend(closed, [one]);
    TokensOfOne(one);
  }

  /** The parts of what is written: frames, finished statements, words and the last brace. */
  lemma WrittenParts(st: State)
    ensures !st.popped ==> Written(st) == WrittenFrames(st.context) + TokensOf(st.closed) + Words(st.current)
    ensures st.popped && st.current == [] ==>
              Written(st) == WrittenFrames(st.context) + TokensOf(st.closed) + [CloseBlock]
    ensures !st.popped && st.current == [] ==> Written(st) == WrittenFrames(st.context) + TokensOf(st.closed)
  {
  }

  lemma WrittenFrame(context: seq<Frame>, f: Frame)
    ensures WrittenFrames(context + [f])
            == WrittenFrames(context) + TokensOf(f.closed) + Words(f.tokens) + [OpenBlock]
  {
    assert (context + [f])[..|context|] == context;
  }

  lemma LastWritten(context: seq<Frame>, n: nat)
    requires |context| == n + 1
    ensures WrittenFrames(context)
            == WrittenFrames(context[..n]) + TokensOf(context[n].closed) + Words(context[n].tokens) + [OpenBlock]
  {
  }

  lemma ManyWords(before: seq<Token>, ws: seq<string>, w: string)
    ensures before + Words(ws + [w]) == before + Words(ws) + [Word(w)]
  {
    assert Words(ws + [w]) == Words(ws) + [Word(w)];
  }

  lemma StepWritten(st: State, tok: Token)
    requires Ok(st) && Step(st, tok).status == Running
    ensures Written(Step(st, tok)) == Written(st) + [tok]
  {
    hide Written, WrittenFrames, FullStatements, FullContext, TokensOf, Words;
    var next := Step(st, tok);
    WrittenParts(st);
    WrittenParts(next);
    match tok
    case Word(w) =>
      ManyWords(WrittenFrames(st.context) + TokensOf(st.closed), st.current, w);
    case EndStatement =>
      EndWritten(WrittenFrames(st.context), st.closed, st.current);
    case OpenBlock =>
      WrittenFrame(st.context, Frame(st.closed, st.current));
      assert TokensOf([]) == [] by { NoTokens(); }
    case CloseBlock =>
      if st.context != [] {
        var n := |st.context| - 1;
        LastWritten(st.context, n);
        CloseWritten(WrittenFrames(st.context[..n]), st.context[n], st.closed);
      }
  }

  lemma NoTokens()
    ensures TokensOf([]) == []
  {
  }

  lemma EndWritten(before: seq<Token>, closed: seq<Statement>, ws: seq<string>)
    ensures before + TokensOf(closed + [Simple(ws)]) == before + TokensOf(closed) + Words(ws) + [EndStatement]
  {
    AppendWritten(before, closed, Simple(ws));
  }

  lemma CloseWritten(before: seq<Token>, f: Frame, body: seq<Statement>)
    ensures before + TokensOf(f.closed + [Block(f.tokens, body)])
            == before + TokensOf(f.closed) + Words(f.tokens) + [OpenBlock] + TokensOf(body) + [CloseBlock]
  {
    AppendWritten(before, f.closed, Block(f.tokens, body));
    Rebracket(before, TokensOf(f.closed), Words(f.tokens), TokensOf(body));
  }

  lemma Rebracket(a: seq<Token>, b: seq<Token>, c: seq<Token>, d: seq<Token>)
    ensures a + b + (c + [OpenBlock] + d + [CloseBlock]) == a + b + c + [OpenBlock] + d + [CloseBlock]
  {
    var e := a + b;
    assert e + (c + [OpenBlock] + d + [CloseBlock]) == e + (c + [OpenBlock] + d) + [CloseBlock];
    assert e + (c + [OpenBlock] + d) == e + c + [OpenBlock] + d;
  }

  lemma {:induction false} RunAppend(st: State, a: seq<Token>, b: seq<Token>)
    ensures Run(st, a + b) == Run(Run(st, a), b)
    decreases |a|
  {
    if a == [] {
      assert a + b == b;
    } else {
      assert (a + b)[1..] == a[1..] + b;
      RunAppend(Step(st, a[0]), a[1..], b);
    }
  }

  lemma {:induction false} RunStopped(st: State, toks: seq<Token>)
    requires st.status != Running
    ensures Run(st, toks) == st
    decreases |toks|
  {
    if toks != [] {
      RunStopped(st, toks[1..]);
    }
  }

  /** A running state remembers exactly the tokens it has taken. */
  lemma {:induction false} RunWritten(st: State, toks: seq<Token>)
    requires Ok(st) && Run(st, toks).status == Running
    ensures Ok(Run(st, toks)) && Written(Run(st, toks)) == Written(st) + toks
    decreases |toks|
  {
    hide Step, Ok, Written;
    if toks != [] {
      if Step(st, toks[0]).status != Running {
        RunStopped(Step(st, toks[0]), toks[1..]);
      }
      StepOk(st, toks[0]);
      StepWritten(st, toks[0]);
      RunWritten(Step(st, toks[0]), toks[1..]);
      assert toks == [toks[0]] + toks[1..];
    }
  }

  lemma Regroup<T>(a: seq<T>, b: seq<T>, c: seq<T>, d: seq<T>, e: seq<T>, f: seq<T>)
    ensures a + (b + (c + d + e)) + f == a + b + c + d + (e + f)
  {
    assert b + (c + d + e) == b + c + d + e;
    assert a + (b + c + d + e) == a + b + c + d + e;
  }

  /** Closing the open frames adds one closing brace for each. */
  lemma {:induction false} PlugTokens(context: seq<Frame>, body: seq<Statement>)
    ensures TokensOf(Plug(context, body)) == WrittenFrames(context) + TokensOf(body) + Closes(|context|)
    decreases |context|
  {
    if context != [] {
      var n := |context| - 1;
      var one := Block(context[n].tokens, body);
      PlugTokens(context[..n], context[n].closed + [one]);
      TokensOfAppend(context[n].closed, [one]);
      TokensOfOne(one);
      Regroup(WrittenFrames(context[..n]), TokensOf(context[n].closed), Words(context[n].tokens) + [OpenBlock],
              TokensOf(body), [CloseBlock], Closes(n));
      assert [CloseBlock] + Closes(n) == Closes(n + 1);
      assert WrittenFrames(context[..n]) + TokensOf(context[n].closed) + (Words(context[n].tokens) + [OpenBlock])
          == WrittenFrames(context);
    }
  }

  lemma {:induction false} PlugFull(context: seq<Frame>, body: seq<Statement>)
    requires FullContext(context) && FullStatements(body) && body != []
    ensures FullStatements(Plug(context, body)) && Plug(context, body) != []
    decreases |context|
  {
    if context != [] {
      var n := |context| - 1;
      CloseFrame(context[n], body);
      PlugFull(context[..n], context[n].closed + [Block(context[n].tokens, body)]);
    }
  }

  lemma PlugNone(body: seq<Statement>)
    ensures Plug([], body) == body && WrittenFrames([]) == []
  {
  }

  /** From the start, a running state has been written by just the tokens read. */
  lemma NothingBefore(toks: seq<Token>)
    ensures Ok(Init([])) && Written(Init([])) + toks == toks
  {
    assert Written(Init([])) == [];
    assert [] + toks == toks;
  }

  /** Soundness: what the machine accepts spells the tree it has built. */
  lemma AcceptedSpells(toks: seq<Token>)
    requires Finish(Run(Init([]), toks), true) == Success
    ensures var tree := Tree(Run(Init([]), toks));
            tree != [] && FullStatements(tree) && Spells(toks, tree)
  {
    hide Run, Step, Plug, Written, WrittenFrames, Words, TokensOf, FullStatements, FullContext;
    var st := Run(Init([]), toks);
    NothingBefore(toks);
    RunWritten(Init([]), toks);
    WrittenParts(st);
    PlugTokens(st.context, TopStatements(st));
    assert TopStatements(st) == st.closed;
    PlugFull(st.context, st.closed);
    if !st.popped {
      assert TokensOf(Tree(st)) == toks + Closes(|st.context|);
    } else {
      PlugNone(st.closed);
      assert WrittenFrames([]) + TokensOf(st.closed) == TokensOf(st.closed) + Closes(0);
    }
  }

  lemma {:induction false} RunWords(st: State, ws: seq<string>)
    requires st.status == Running && !st.popped && ws != []
    ensures Run(st, Words(ws)) == st.(current := st.current + ws, last := Normal)
    decreases |ws|
  {
    assert Words(ws)[1..] == Words(ws[1..]);
    assert st.current + [ws[0]] + ws[1..] == st.current + ws;
    if |ws| > 1 {
      RunWords(Step(st, Word(ws[0])), ws[1..]);
    } else {
      assert Words(ws[1..]) == [] && st.current + [ws[0]] == st.current + ws;
    }
  }

  lemma RunOne(st: State, tok: Token)
    ensures Run(st, [tok]) == Step(st, tok)
  {
    assert [tok][1..] == [];
  }

  function LastOf(sts: seq<Statement>): TokenType
    requires sts != []
  {
    if sts[|sts| - 1].Block? then EndBlock else StatementEnd
  }

  lemma {:induction false} RunStatement(st: State, one: Statement)
    requires st.status == Running && !st.popped && st.current == []
    requires one.tokens != [] && (one.Block? ==> one.body != [] && FullStatements(one.body))
    ensures Run(st, StatementTokens(one)) == st.(closed := st.closed + [one], last := LastOf([one]))
    decreases one, 0
  {
    var ws := one.tokens;
    var named := st.(current := ws, last := Normal);
    RunWords(st, ws);
    assert st.current + ws == ws;
    match one
    case Simple(_) =>
      RunAppend(st, Words(ws), [EndStatement]);
      RunOne(named, EndStatement);
    case Block(_, body) =>
      var inner := Step(named, OpenBlock);
      var full := inner.(closed := body, last := LastOf(body));
      RunTokens(inner, body);
      assert [] + body == body;
      RunOne(named, OpenBlock);
      RunOne(full, CloseBlock);
      RunAppend(st, Words(ws), [OpenBlock]);
      RunAppend(st, Words(ws) + [OpenBlock], TokensOf(body));
      RunAppend(st, Words(ws) + [OpenBlock] + TokensOf(body), [CloseBlock]);
      assert full.context[..|st.context|] == st.context;
  }

  /** The machine reads the tokens of a tree back into the tree. */
  lemma {:induction false} RunTokens(st: State, sts: seq<Statement>)
    requires st.status == Running && !st.popped && st.current == []
    requires FullStatements(sts)
    ensures Run(st, TokensOf(sts))
            == if sts == [] then st else st.(closed := st.closed + sts, last := LastOf(sts))
    decreases sts, 1
  {
    if sts != [] {
      var next := st.(closed := st.closed + [sts[0]], last := LastOf([sts[0]]));
      RunStatement(st, sts[0]);
      RunAppend(st, StatementTokens(sts[0]), TokensOf(sts[1..]));
      RunTokens(next, sts[1..]);
      assert st.closed + [sts[0]] + sts[1..] == st.closed + sts;
      assert sts[1..] == [] ==> st.closed + [sts[0]] == st.closed + sts;
    }
  }

  /** A closing brace leaves the tree as it is. */
  lemma {:induction false} ClosesKeepTree(st: State, k: nat)
    requires Ok(st) && Run(st, Closes(k)).status == Running && !Run(st, Closes(k)).popped
    ensures Tree(Run(st, Closes(k))) == Tree(st) && !st.popped
    ensures k > 0 ==> st.last == StatementEnd || st.last == EndBlock
    decreases k
  {
    if k > 0 {
      assert Closes(k)[1..] == Closes(k - 1);
      var next := Step(st, CloseBlock);
      if next.status != Running {
        RunStopped(next, Closes(k - 1));
      }
      StepOk(st, CloseBlock);
      ClosesKeepTree(next, k - 1);
      assert TopStatements(st) == st.closed && TopStatements(next) == next.closed;
    }
  }

  /** Completeness: whatever spells a full tree is accepted, with that tree. */
  lemma SpellsAccepted(toks: seq<Token>, tree: seq<Statement>)
    requires tree != [] && FullStatements(tree) && Spells(toks, tree)
    ensures var st := Run(Init([]), toks);
            Finish(st, true) == Success && Tree(st) == tree
  {
    var full := Init([]).(closed := tree, last := LastOf(tree));
    RunTokens(Init([]), tree);
    assert [] + tree == tree;
    assert TopStatements(full) == tree;
    if toks == TokensOf(tree) + [CloseBlock] {
      RunAppend(Init([]), TokensOf(tree), [CloseBlock]);
      RunOne(full, CloseBlock);
      assert TopStatements(Step(full, CloseBlock)) == tree;
    } else {
      var k: nat :| TokensOf(tree) == toks + Closes(k);
      var st := Run(Init([]), toks);
      RunAppend(Init([]), toks, Closes(k));
      if st.status != Running {
        RunStopped(st, Closes(k));
      }
      RunWritten(Init([]), toks);
      ClosesKeepTree(st, k);
    }
  }

  /** The language of the parser, both ways. */
  lemma AcceptsIffSpells(toks: seq<Token>, tree: seq<Statement>)
    ensures (Finish(Run(Init([]), toks), true) == Success && Tree(Run(Init([]), toks)) == tree)
            <==> (tree != [] && FullStatements(tree) && Spells(toks, tree))
  {
    if Finish(Run(Init([]), toks), true) == Success {
      AcceptedSpells(toks);
    }
    if tree != [] && FullStatements(tree) && Spells(toks, tree) {
      SpellsAccepted(toks, tree);
    }
  }

  /** Tokens that are a whole tree and one closing brace too many. */
  ghost predicate OverClosed(toks: seq<Token>) {
    exists tree: seq<Statement> :: tree != [] && FullStatements(tree) && toks == TokensOf(tree) + [CloseBlock]
  }

  lemma PoppedIffOverClosed(toks: seq<Token>)
    ensures (var st := Run(Init([]), toks); st.status == Running && st.popped) <==> OverClosed(toks)
  {
    var st := Run(Init([]), toks);
    hide Run, Step, Written, WrittenFrames, TokensOf, FullStatements, FullContext;
    if st.status == Running && st.popped {
      NothingBefore(toks);
      RunWritten(Init([]), toks);
      WrittenParts(st);
      PlugNone(st.closed);
      assert toks == TokensOf(st.closed) + [CloseBlock];
    }
    if OverClosed(toks) {
      PoppedByOneMore(toks);
    }
  }

  lemma PoppedByOneMore(toks: seq<Token>)
    requires OverClosed(toks)
    ensures Run(Init([]), toks).status == Running && Run(Init([]), toks).popped
  {
    var tree: seq<Statement> :| tree != [] && FullStatements(tree) && toks == TokensOf(tree) + [CloseBlock];
    RunTokens(Init([]), tree);
    assert [] + tree == tree;
    RunAppend(Init([]), TokensOf(tree), [CloseBlock]);
    RunOne(Init([]).(closed := tree, last := LastOf(tree)), CloseBlock);
  }

  /** Token i is a word or a closing brace right after a whole tree and one closing brace too
      many. */
  ghost predicate MisusedAt(toks: seq<Token>, i: nat) {
    i < |toks| && OverClosed(toks[..i]) && (toks[i].Word? || toks[i].CloseBlock?)
  }

  ghost predicate Misused(toks: seq<Token>) {
    exists i: nat :: MisusedAt(toks, i)
  }

  lemma MisusedLast(toks: seq<Token>, n: nat)
    requires |toks| == n + 1
    ensures Misused(toks) <==> Misused(toks[..n]) || MisusedAt(toks, n)
  {
    forall i: nat | i < n
      ensures MisusedAt(toks, i) <==> MisusedAt(toks[..n], i)
    {
      assert toks[..n][..i] == toks[..i];
    }
  }

  /** The stack is used when empty exactly when such a token comes. */
  lemma {:induction false} UndefinedIff(toks: seq<Token>)
    ensures Run(Init([]), toks).status == Undefined <==> Misused(toks)
    decreases |toks|
  {
    hide Written, OverClosed, FullContext, FullStatements;
    if toks != [] {
      var n := |toks| - 1;
      var st := Run(Init([]), toks[..n]);
      assert toks == toks[..n] + [toks[n]];
      RunAppend(Init([]), toks[..n], [toks[n]]);
      RunOne(st, toks[n]);
      UndefinedIff(toks[..n]);
      PoppedIffOverClosed(toks[..n]);
      MisusedLast(toks, n);
      if st.status == Running {
        NothingBefore(toks[..n]);
        RunWritten(Init([]), toks[..n]);
      }
    }
  }
}
