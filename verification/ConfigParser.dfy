/** The config objects of config_parser.h, the loop that builds them and the methods that
    print them, tied to the values of ConfigGrammar and ConfigSyntax. */
module ConfigParser {
  import opened Basics
  import opened ConfigLexer
  import opened ConfigSyntax
  import opened ConfigGrammar

  class NginxConfigStatement {
    var tokens: seq<string>
    var childBlock: NginxConfig?

    constructor ()
      ensures tokens == [] && childBlock == null
    {
      tokens := [];
      childBlock := null;
    }

    /** The statement and all below it lie in fp and have the value v. */
    ghost predicate Holds(v: Statement, fp: set<object>)
      reads fp
      decreases v, 0
    {
      && this in fp
      && tokens == v.tokens
      && (v.Simple? ==> childBlock == null)
      && (v.Block? ==> childBlock != null && childBlock in fp && childBlock.HoldsAll(v.body, fp))
    }

    method ToString(depth: int, ghost v: Statement, ghost fp: set<object>) returns (s: string)
      requires Holds(v, fp)
      ensures s == PrintStatement(v, depth)
      decreases v, 0
    {
      hide PrintStatement, Print, Indent, Join;
      PrintedInOrder(v, depth);
      s := AppendIndent("", depth);
      var line := JoinTokens(tokens);
      s := s + line;
      if childBlock != null {
        s := s + " {\n";
        var block := childBlock.ToString(depth + 1, v.body, fp);
        s := s + block;
        s := AppendIndent(s, depth);
        s := s + "}";
      } else {
        s := s + ";";
      }
      s := s + "\n";
    }
  }

  class NginxConfig {
    var statements: seq<NginxConfigStatement>

    constructor ()
      ensures statements == []
    {
      statements := [];
    }

    ghost predicate HoldsAll(v: seq<Statement>, fp: set<object>)
      reads this, fp
      decreases v, 0
    {
      && |statements| == |v|
      && forall i :: 0 <= i < |v| ==> statements[i].Holds(v[i], fp)
    }

    /** The config's statements are the tree v, all of it in fp and none of it the config. */
    ghost predicate Owns(v: seq<Statement>, fp: set<object>)
      reads this, fp
    {
      this !in fp && HoldsAll(v, fp)
    }

    method ToString(depth: int, ghost v: seq<Statement>, ghost fp: set<object>) returns (s: string)
      requires HoldsAll(v, fp)
      ensures s == Print(v, depth)
      decreases v, 0
    {
      s := "";
      var i := 0;
      while i < |statements|
        invariant 0 <= i <= |statements|
        invariant s + Print(v[i..], depth) == Print(v, depth)
      {
        var line := statements[i].ToString(depth, v[i], fp);
        assert v[i..][1..] == v[i + 1..];
        Assoc(s, line, Print(v[i + 1..], depth));
        s := s + line;
        i := i + 1;
      }
    }
  }

  /** The appends of NginxConfigStatement::ToString, in the order they happen. */
  lemma PrintedInOrder(v: Statement, depth: int)
    ensures PrintStatement(v, depth)
            == match v
               case Simple(ws) => Indent(depth) + Join(ws) + ";" + "\n"
               case Block(ws, body) =>
                 Indent(depth) + Join(ws) + " {\n" + Print(body, depth + 1) + Indent(depth) + "}" + "\n"
  {
    var i, j := Indent(depth), Join(v.tokens);
    match v
    case Simple(_) =>
      assert ";\n" == ";" + "\n";
      Assoc(i, j, ";\n");
      Assoc(i + j, ";", "\n");
    case Block(_, body) =>
      var p := Print(body, depth + 1);
      assert "}\n" == "}" + "\n";
      Assoc(i, j, " {\n" + (p + (i + "}\n")));
      Assoc(i + j, " {\n", p + (i + "}\n"));
      Assoc(i + j + " {\n", p, i + "}\n");
      Assoc(i + j + " {\n" + p, i, "}\n");
      Assoc(i + j + " {\n" + p + i, "}", "\n");
  }

  method AppendIndent(s: string, depth: int) returns (r: string)
    ensures r == s + Indent(depth)
  {
    r := s;
    var i := 0;
    while i < depth
      invariant 0 <= i && (i <= depth || depth < 0)
      invariant r + Indent(depth - i) == s + Indent(depth)
    {
      Assoc(r, "  ", Indent(depth - i - 1));
      r := r + "  ";
      i := i + 1;
    }
    assert r + "" == r;
  }

  method JoinTokens(ws: seq<string>) returns (r: string)
    ensures r == Join(ws)
  {
    r := "";
    var i := 0;
    while i < |ws|
      invariant 0 <= i <= |ws|
      invariant i == 0 ==> r == ""
      invariant i > 0 ==> r == Join(ws[..i])
    {
      if i != 0 {
        r := r + " ";
      }
      JoinLast(ws[..i], ws[i]);
      assert ws[..i] + [ws[i]] == ws[..i + 1];
      r := r + ws[i];
      i := i + 1;
    }
    assert ws[..i] == ws;
  }

  lemma {:induction false} JoinLast(ws: seq<string>, w: string)
    ensures Join(ws + [w]) == if ws == [] then w else Join(ws) + " " + w
  {
    if |ws| > 0 {
      assert (ws + [w])[1..] == ws[1..] + [w];
      JoinLast(ws[1..], w);
    }
  }

  lemma {:induction false} StatementHoldsMono(s: NginxConfigStatement, v: Statement, a: set<object>, b: set<object>)
    requires s.Holds(v, a) && a <= b
    ensures s.Holds(v, b)
    decreases v, 0
  {
    if v.Block? {
      HoldsAllMono(s.childBlock, v.body, a, b);
    }
  }

  lemma {:induction false} HoldsAllMono(c: NginxConfig, v: seq<Statement>, a: set<object>, b: set<object>)
    requires c.HoldsAll(v, a) && a <= b
    ensures c.HoldsAll(v, b)
    decreases v, 0
  {
    forall i | 0 <= i < |v|
      ensures c.statements[i].Holds(v[i], b)
    {
      StatementHoldsMono(c.statements[i], v[i], a, b);
    }
  }

  /** Block c holds the finished statements vs, followed by n more. */
  ghost predicate Starts(c: NginxConfig, vs: seq<Statement>, n: nat, done: set<object>)
    reads c, done
  {
    && |c.statements| == |vs| + n
    && forall i :: 0 <= i < |vs| ==> c.statements[i].Holds(vs[i], done)
  }

  /** A stack entry below the top: `next`, the entry above it, is the child block of its last
      statement. */
  ghost predicate Level(f: Frame, c: NginxConfig, s: NginxConfigStatement, next: NginxConfig, done: set<object>)
    reads c, s, done
  {
    && Starts(c, f.closed, 1, done)
    && c.statements[|f.closed|] == s
    && s.tokens == f.tokens
    && s.childBlock == next
  }

  /** The top of the stack between two statements. */
  ghost predicate TopIdle(st: State, c: NginxConfig, done: set<object>)
    reads c, done
  {
    Starts(c, st.closed, 0, done)
  }

  /** The top of the stack inside a statement. */
  ghost predicate TopBusy(st: State, c: NginxConfig, s: NginxConfigStatement, done: set<object>)
    reads c, s, done
  {
    && Starts(c, st.closed, 1, done)
    && c.statements[|st.closed|] == s
    && s.tokens == st.current
    && s.childBlock == null
  }

  lemma LastIsOpen(st: State, c: NginxConfig, s: NginxConfigStatement, done: set<object>)
    requires TopBusy(st, c, s, done)
    ensures c.statements != [] && c.statements[|c.statements| - 1] == s
  {
  }

  lemma StartsMono(c: NginxConfig, vs: seq<Statement>, n: nat, a: set<object>, b: set<object>)
    requires Starts(c, vs, n, a) && a <= b
    ensures Starts(c, vs, n, b)
  {
    forall i | 0 <= i < |vs|
      ensures c.statements[i].Holds(vs[i], b)
    {
      StatementHoldsMono(c.statements[i], vs[i], a, b);
    }
  }

  /** The last statement of a block becomes the open one when it gets a block of its own. */
  lemma LevelOpens(f: Frame, c: NginxConfig, s: NginxConfigStatement, next: NginxConfig, done: set<object>)
    requires Starts(c, f.closed, 1, done) && c.statements[|f.closed|] == s
    requires s.tokens == f.tokens && s.childBlock == next && next.statements == []
    ensures Level(f, c, s, next, done) && Starts(next, [], 0, done)
  {
  }

  /** A statement that ends is finished. */
  lemma StatementCloses(st: State, c: NginxConfig, s: NginxConfigStatement, done: set<object>, more: set<object>)
    requires TopBusy(st, c, s, done) && done <= more && s in more
    ensures Starts(c, st.closed + [Simple(st.current)], 0, more)
  {
    StartsMono(c, st.closed, 1, done, more);
    assert s.Holds(Simple(st.current), more);
  }

  /** A block that ends is the body of the open statement below it, which ends with it. */
  lemma LevelCloses(f: Frame, c: NginxConfig, s: NginxConfigStatement, next: NginxConfig,
                    body: seq<Statement>, done: set<object>, more: set<object>)
    requires Level(f, c, s, next, done) && Starts(next, body, 0, done)
    requires done <= more && next in more && s in more
    ensures Starts(c, f.closed + [Block(f.tokens, body)], 0, more)
  {
    StartsMono(next, body, 0, done, more);
    StartsMono(c, f.closed, 1, done, more);
    assert s.Holds(Block(f.tokens, body), more);
  }

  /** The parser's stack of blocks.  `spine` is what the stack holds until one closing brace
      too many empties it, `open` are the unfinished statements, one in each block but perhaps
      the top one, `done` is where everything finished lies, and `made` is what the parse has
      allocated: all of these but the root and what it held before. */
  class ConfigStack {
    ghost const given: set<object>
    ghost var made: set<object>
    var stack: seq<NginxConfig>
    ghost var spine: seq<NginxConfig>
    ghost var open: seq<NginxConfigStatement>
    ghost var done: set<object>

    ghost predicate Separate()
      reads this
    {
      && spine != []
      && this !in done
      && (forall i, j :: 0 <= i < j < |spine| ==> spine[i] != spine[j])
      && (forall i, j :: 0 <= i < j < |open| ==> open[i] != open[j])
      && (forall i :: 0 <= i < |spine| ==> spine[i] !in done)
      && (forall i :: 0 <= i < |open| ==> open[i] !in done && open[i] in made)
      && (forall i :: 1 <= i < |spine| ==> spine[i] in made)
      && given <= done <= given + made
    }

    ghost predicate Levels(st: State)
      reads this, spine, open, done
    {
      && |spine| == |st.context| + 1
      && |open| == |st.context| + (if st.current == [] then 0 else 1)
      && forall i :: 0 <= i < |st.context| ==> Level(st.context[i], spine[i], open[i], spine[i + 1], done)
    }

    /** The heap is the state st of the machine, the root of the tree being `root`. */
    ghost predicate Builds(root: NginxConfig, st: State)
      reads this, spine, open, done
    {
      && Spine(root, st)
      && stack == (if st.popped then [] else spine)
    }

    ghost predicate Spine(root: NginxConfig, st: State)
      reads this, spine, open, done
    {
      && Separate()
      && spine[0] == root
      && Levels(st)
      && (st.current == [] ==> TopIdle(st, TopBlock(), done))
      && (st.current != [] ==> TopBusy(st, TopBlock(), LastOpen(), done))
    }

    ghost function TopBlock(): NginxConfig
      requires spine != []
      reads this
    {
      spine[|spine| - 1]
    }

    ghost function LastOpen(): NginxConfigStatement
      requires open != []
      reads this
    {
      open[|open| - 1]
    }

    constructor (config: NginxConfig, ghost base: seq<Statement>, ghost fp: set<object>)
      requires config.Owns(base, fp)
      ensures Builds(config, Init(base))
      ensures given == fp && made == {}
    {
      given, made := fp, {};
      stack := [config];
      spine := [config];
      open := [];
      done := fp;
    }

    method NewStatement(ghost root: NginxConfig, ghost st: State, w: string)
      requires Steady(st) && Builds(root, st) && !st.popped && st.current == []
      modifies this`open, this`made, TopBlock()`statements
      ensures Builds(root, Step(st, Word(w)))
      ensures fresh(made - old(made))
    {
      hide Level, NginxConfigStatement.Holds, NginxConfig.HoldsAll;
      var top := stack[|stack| - 1];
      var statement := new NginxConfigStatement();
      statement.tokens := statement.tokens + [w];
      top.statements := top.statements + [statement];
      open := open + [statement];
      made := made + {statement};
    }

    method AddToken(ghost root: NginxConfig, ghost st: State, w: string)
      requires Steady(st) && Builds(root, st) && !st.popped && st.current != []
      modifies LastOpen()`tokens
      ensures Builds(root, Step(st, Word(w)))
    {
      hide Level, NginxConfigStatement.Holds, NginxConfig.HoldsAll;
      var top := stack[|stack| - 1];
      var statement := top.statements[|top.statements| - 1];
      statement.tokens := statement.tokens + [w];
    }

    ghost method EndStatement(root: NginxConfig, st: State)
      requires Steady(st) && Builds(root, st) && st.last == Normal
      modifies this`open, this`done
      ensures Builds(root, Step(st, Token.EndStatement))
    {
      hide Starts;
      var more := done + {LastOpen()};
      MoreDone(st, more);
      StatementCloses(st, TopBlock(), LastOpen(), done, more);
      done := more;
      open := open[..|open| - 1];
    }

    method OpenBlock(ghost root: NginxConfig, ghost st: State)
      requires Steady(st) && Builds(root, st) && st.last == Normal
      modifies this`stack, this`spine, this`made, LastOpen()`childBlock
      ensures Builds(root, Step(st, Token.OpenBlock))
      ensures fresh(made - old(made))
    {
      hide Level, Starts;
      var top := stack[|stack| - 1];
      LastIsOpen(st, top, LastOpen(), done);
      var newConfig := new NginxConfig();
      top.statements[|top.statements| - 1].childBlock := newConfig;
      stack := stack + [newConfig];
      spine := spine + [newConfig];
      made := made + {newConfig};
      LevelOpens(Frame(st.closed, st.current), top, LastOpen(), newConfig, done);
    }

    method CloseBlock(ghost root: NginxConfig, ghost st: State)
      requires Steady(st) && Builds(root, st) && !st.popped
      requires st.last == StatementEnd || st.last == EndBlock
      modifies this`stack, this`spine, this`open, this`done
      ensures Builds(root, Step(st, Token.CloseBlock))
    {
      stack := stack[..|stack| - 1];
      if |stack| > 0 {
        MergeTop(root, st);
      }
    }

    ghost method MergeTop(root: NginxConfig, st: State)
      requires Steady(st) && Spine(root, st) && st.context != []
      requires st.last == StatementEnd || st.last == EndBlock
      modifies this`spine, this`open, this`done
      ensures Spine(root, Step(st, Token.CloseBlock))
      ensures spine == old(spine)[..|old(spine)| - 1]
    {
      hide Starts;
      var n := |st.context|;
      var more := done + {TopBlock(), LastOpen()};
      LevelCloses(st.context[n - 1], spine[n - 1], open[n - 1], spine[n], st.closed, done, more);
      MoreDone(st, more);
      done := more;
      spine := spine[..n];
      open := open[..n - 1];
    }

    /** One token that is neither a comment nor the end; the status says whether it is
        refused or the empty stack would be used. */
    method Take(ghost root: NginxConfig, ghost st: State, tokenType: TokenType, token: string,
                lastTokenType: TokenType, ghost tok: Token) returns (status: Status)
      requires Steady(st) && Builds(root, st) && st.last == lastTokenType
      requires tokenType in {Normal, StatementEnd, StartBlock, EndBlock}
      requires tok == TokenOf(Scan(tokenType, token, ""))
      modifies this, made, root`statements
      ensures status == Step(st, tok).status
      ensures status == Running ==> Builds(root, Step(st, tok))
      ensures status != Running ==> Builds(root, st)
      ensures fresh(made - old(made))
    {
      status := Running;
      if tokenType == Normal {
        if |stack| == 0 {
          return Undefined;
        }
        if lastTokenType != Normal {
          NewStatement(root, st, token);
        } else {
          AddToken(root, st, token);
        }
      } else if tokenType == StatementEnd {
        if lastTokenType != Normal {
          return Rejected;
        }
        EndStatement(root, st);
      } else if tokenType == StartBlock {
        if lastTokenType != Normal {
          return Rejected;
        }
        OpenBlock(root, st);
      } else {
        if lastTokenType != StatementEnd && lastTokenType != EndBlock {
          return Rejected;
        }
        if |stack| == 0 {
          return Undefined;
        }
        CloseBlock(root, st);
      }
    }

    /** Finished statements stay finished when more becomes finished. */
    lemma MoreDone(st: State, more: set<object>)
      requires Levels(st) && done <= more
      ensures forall i :: 0 <= i < |st.context| ==> Level(st.context[i], spine[i], open[i], spine[i + 1], more)
    {
      forall i | 0 <= i < |st.context|
        ensures Level(st.context[i], spine[i], open[i], spine[i + 1], more)
      {
        assert Level(st.context[i], spine[i], open[i], spine[i + 1], done);
        StartsMono(spine[i], st.context[i].closed, 1, done, more);
      }
    }

    /** Everything below the root. */
    ghost function Below(): set<object>
      requires spine != []
      reads this
    {
      done + (set c <- spine[1..]) + (set s <- open)
    }

    /** From level i of the spine up to the root. */
    lemma {:induction false} Climb(st: State, i: nat, body: seq<Statement>, all: set<object>)
      requires Levels(st) && i <= |st.context| && spine[i].HoldsAll(body, all)
      requires done <= all && forall j :: 0 <= j < |open| ==> open[j] in all
      requires forall j :: 1 <= j < |spine| ==> spine[j] in all
      ensures spine[0].HoldsAll(Plug(st.context[..i], body), all)
      decreases i
    {
      if i == 0 {
        assert st.context[..0] == [];
      } else {
        var f, c, s := st.context[i - 1], spine[i - 1], open[i - 1];
        assert Level(f, c, s, spine[i], done);
        StartsMono(c, f.closed, 1, done, all);
        assert s.Holds(Block(f.tokens, body), all);
        assert st.context[..i][..i - 1] == st.context[..i - 1];
        Climb(st, i - 1, f.closed + [Block(f.tokens, body)], all);
      }
    }

    lemma BelowHolds()
      requires Separate()
      ensures done <= Below() && spine[0] !in Below()
      ensures forall j :: 0 <= j < |open| ==> open[j] in Below()
      ensures forall j :: 1 <= j < |spine| ==> spine[j] in Below()
    {
      assert forall j :: 1 <= j < |spine| ==> spine[1..][j - 1] == spine[j];
    }

    lemma TopOwned(st: State, all: set<object>)
      requires Steady(st) && spine != [] && done <= all
      requires st.current == [] ==> TopIdle(st, TopBlock(), done)
      requires st.current != [] ==> open != [] && LastOpen() in all && TopBusy(st, TopBlock(), LastOpen(), done)
      ensures TopBlock().HoldsAll(TopStatements(st), all)
    {
      if st.current == [] {
        StartsMono(TopBlock(), st.closed, 0, done, all);
        assert TopStatements(st) == st.closed;
      } else {
        StartsMono(TopBlock(), st.closed, 1, done, all);
        assert LastOpen().Holds(Simple(st.current), all);
      }
    }

    /** The root owns the tree of the state. */
    lemma RootOwnsTree(root: NginxConfig, st: State)
      requires Steady(st) && Builds(root, st)
      ensures root.Owns(Tree(st), Below())
    {
      var n := |st.context|;
      BelowHolds();
      TopOwned(st, Below());
      assert st.context[..n] == st.context;
      Climb(st, n, TopStatements(st), Below());
    }
  }

  /** One turn of the parser's loop: takes a token and acts on it.  While `more` holds the
      machine is in state `next` and the rest of the parse decides; otherwise r is its end. */
  method Turn(input: InputStream, configStack: ConfigStack, lastTokenType: TokenType,
              ghost root: NginxConfig, ghost st: State)
    returns (more: bool, r: Outcome, last: TokenType, ghost next: State)
    requires input.Valid() && input !in configStack.given && input !in configStack.made
    requires Steady(st) && st.last == lastTokenType && configStack.Builds(root, st)
    modifies input, configStack, configStack.made, root`statements
    ensures input.Valid() && fresh(configStack.made - old(configStack.made))
    ensures Steady(next) && next.last == last && configStack.Builds(root, next)
    ensures more ==> |input.Rest()| < |old(input.Rest())|
    ensures more ==> ParseRest(st, old(input.Rest())) == ParseRest(next, input.Rest())
    ensures !more ==> ParseRest(st, old(input.Rest())) == Result(r, Tree(next))
  {
    hide ParseRest, Lex;
    ghost var before := input.Rest();
    assert input !in configStack.done;
    var tokenType, token := ParseToken(input);
    assert configStack.Builds(root, st);
    r, last, next := Failure, lastTokenType, st;
    RestEnds(st, before);
    if tokenType == Error {
      return false, Failure, last, next;
    }
    if tokenType == Comment {
      return true, Failure, last, next;
    }
    if tokenType == Eof {
      r := if lastTokenType == StatementEnd || lastTokenType == EndBlock then Success else Failure;
      return false, r, last, next;
    }
    more, r, last, next := ActOn(configStack, tokenType, token, lastTokenType, root, st, before);
  }

  /** The part of a turn after the token is read; `before` is the input it was read from. */
  method ActOn(configStack: ConfigStack, tokenType: TokenType, token: string, lastTokenType: TokenType,
               ghost root: NginxConfig, ghost st: State, ghost before: string)
    returns (more: bool, r: Outcome, last: TokenType, ghost next: State)
    requires tokenType in {Normal, StatementEnd, StartBlock, EndBlock}
    requires Lex(before).kind == tokenType && Lex(before).text == token
    requires Steady(st) && st.last == lastTokenType && configStack.Builds(root, st)
    modifies configStack, configStack.made, root`statements
    ensures fresh(configStack.made - old(configStack.made))
    ensures Steady(next) && next.last == last && configStack.Builds(root, next)
    ensures more ==> ParseRest(st, before) == ParseRest(next, Lex(before).rest)
    ensures !more ==> ParseRest(st, before) == Result(r, Tree(next))
  {
    hide ParseRest, ConfigStack.Builds, Lex;
    ghost var tok := TokenOf(Lex(before));
    RestTaken(st, before);
    var status := configStack.Take(root, st, tokenType, token, lastTokenType, tok);
    if status != Running {
      r := if status == Undefined then UndefinedBehaviour else Failure;
      return false, r, lastTokenType, st;
    }
    StepSteady(st, tok);
    return true, Failure, tokenType, Step(st, tok);
  }

  /** Fills config from the input.  `base` is the tree that config holds before, in the
      objects fp; whatever the outcome, config then owns the machine's tree. */
  method Parse(input: InputStream, config: NginxConfig, ghost base: seq<Statement>, ghost fp: set<object>)
    returns (r: Outcome, ghost owned: set<object>)
    requires input.Valid() && input !in fp
    requires config.Owns(base, fp)
    modifies input, config`statements
    ensures r == ParseText(old(input.Rest()), base).outcome
    ensures config.Owns(ParseText(old(input.Rest()), base).tree, owned)
    ensures fp <= owned && fresh(owned - fp)
  {
    hide ParseRest;
    ghost var goal := ParseText(input.Rest(), base);
    ghost var st := Init(base);
    var configStack := new ConfigStack(config, base, fp);
    var lastTokenType := Start;
    var more := true;
    r := Failure;
    while more
      invariant input.Valid() && fresh(configStack) && fresh(configStack.made)
      invariant configStack.given == fp
      invariant Steady(st) && st.last == lastTokenType && configStack.Builds(config, st)
      invariant more ==> ParseRest(st, input.Rest()) == goal
      invariant !more ==> goal == Result(r, Tree(st))
      decreases more, |input.Rest()|
    {
      more, r, lastTokenType, st := Turn(input, configStack, lastTokenType, config, st);
    }
    configStack.RootOwnsTree(config, st);
    owned := configStack.Below();
  }

  /** The tokenizer reports the end of the input, an open quote or a comment. */
  lemma RestEnds(st: State, s: string)
    requires Steady(st)
    ensures Lex(s).kind == Error ==> ParseRest(st, s) == Result(Failure, Tree(st))
    ensures Lex(s).kind == Eof ==> ParseRest(st, s) == Result(Finish(st, true), Tree(st))
    ensures Lex(s).kind == Comment ==> ParseRest(st, s) == ParseRest(st, Lex(s).rest)
  {
  }

  /** The tokenizer reports a token that the machine takes. */
  lemma RestTaken(st: State, s: string)
    requires Steady(st) && Lex(s).kind in {Normal, StatementEnd, StartBlock, EndBlock}
    ensures var next := Step(st, TokenOf(Lex(s)));
            if next.status == Running then ParseRest(st, s) == ParseRest(next, Lex(s).rest)
            else ParseRest(st, s) == Result(Finish(next, true), Tree(st))
  {
    var tok := TokenOf(Lex(s));
    var toks := Tokenize(Lex(s).rest).tokens;
    assert ([tok] + toks)[1..] == toks;
    if Step(st, tok).status != Running {
      RunStopped(Step(st, tok), toks);
    }
  }
}
