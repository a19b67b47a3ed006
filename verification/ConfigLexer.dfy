/** The tokenizer of config_parser.cc: what one call of ParseToken takes from the input
    (Lex), the loop that takes it (ParseToken), and when text lexes back to the
    token it was printed from. */
module ConfigLexer {

  datatype TokenType =
    | Start
    | Normal
    | StartBlock
    | EndBlock
    | Comment
    | StatementEnd
    | Eof
    | Error

  datatype LexState = InitialWhitespace | SingleQuote | DoubleQuote | InComment | InNormal

  /** One call of the tokenizer: the token's type, its text and the input left behind. */
  datatype Scan = Scan(kind: TokenType, text: string, rest: string)

  predicate IsBlank(c: char) {
    c == ' ' || c == '\t' || c == '\n' || c == '\r'
  }

  predicate IsQuote(c: char) {
    c == '"' || c == '\''
  }

  /** The characters that end a plain token.  A carriage return is not one of them. */
  predicate EndsPlain(c: char) {
    c == ' ' || c == '\t' || c == '\n' || c == ';' || c == '{' || c == '}' || IsQuote(c)
  }

  predicate EndsComment(c: char) {
    c == '\n' || c == '\r'
  }

  function SkipBlanks(s: string): (t: string)
    ensures |t| <= |s|
    ensures t != "" ==> !IsBlank(t[0])
  {
    if s != "" && IsBlank(s[0]) then SkipBlanks(s[1..]) else s
  }

  /** The length of the longest prefix without a character that ends a plain token. */
  function PlainLength(s: string): (n: nat)
    ensures n <= |s|
  {
    if s == "" || EndsPlain(s[0]) then 0 else 1 + PlainLength(s[1..])
  }

  function CommentLength(s: string): (n: nat)
    ensures n <= |s|
  {
    if s == "" || EndsComment(s[0]) then 0 else 1 + CommentLength(s[1..])
  }

  /** The position of the first quote q at or after i that no backslash precedes, or |s|. */
  function QuoteEnd(s: string, q: char, i: nat): (n: nat)
    requires 1 <= i <= |s|
    ensures i <= n <= |s|
    decreases |s| - i
  {
    if i == |s| || (s[i] == q && s[i - 1] != '\\') then i else QuoteEnd(s, q, i + 1)
  }

  /** What one call of the tokenizer does to the rest of the input.  A plain token or a
      comment that runs into the end of the input is dropped, an open quote is an error. */
  function Lex(s: string): (r: Scan)
    ensures r.kind != Eof && r.kind != Error ==> |r.rest| < |s|
    ensures r.kind != Start
  {
    LexToken(SkipBlanks(s))
  }

  function LexToken(t: string): (r: Scan)
    requires t != "" ==> !IsBlank(t[0])
    ensures r.kind != Eof && r.kind != Error ==> |r.rest| < |t|
    ensures r.kind != Start
  {
    if t == "" then Scan(Eof, "", "")
    else if t[0] == '{' then Scan(StartBlock, "{", t[1..])
    else if t[0] == '}' then Scan(EndBlock, "}", t[1..])
    else if t[0] == ';' then Scan(StatementEnd, ";", t[1..])
    else if t[0] == '#' then LexComment(t)
    else if IsQuote(t[0]) then LexQuoted(t)
    else LexPlain(t)
  }

  function LexComment(t: string): Scan {
    var n := CommentLength(t);
    if n == |t| then Scan(Eof, t, "") else Scan(Comment, t[..n], t[n + 1..])
  }

  function LexQuoted(t: string): Scan
    requires t != ""
  {
    var n := QuoteEnd(t, t[0], 1);
    if n == |t| then Scan(Error, t, "") else Scan(Normal, t[..n + 1], t[n + 1..])
  }

  function LexPlain(t: string): Scan {
    var n := PlainLength(t);
    if n == |t| then Scan(Eof, t, "") else Scan(Normal, t[..n], t[n..])
  }

  function QuoteOf(state: LexState): char {
    if state.DoubleQuote? then '"' else '\''
  }

  /** The rest of one call, from the middle of a token: the state, the text so far and the
      counter that a backslash in a quoted token sets to 2. */
  ghost function Resume(state: LexState, value: string, count: int, s: string): (r: Scan)
    decreases |s|
  {
    if s == "" then
      Scan(if state.SingleQuote? || state.DoubleQuote? then Error else Eof, value, "")
    else
      var c := s[0];
      match state
      case InitialWhitespace =>
        if c == '{' then Scan(StartBlock, [c], s[1..])
        else if c == '}' then Scan(EndBlock, [c], s[1..])
        else if c == ';' then Scan(StatementEnd, [c], s[1..])
        else if IsBlank(c) then Resume(state, value, count, s[1..])
        else if c == '#' then Resume(InComment, [c], count, s[1..])
        else if c == '"' then Resume(DoubleQuote, [c], count, s[1..])
        else if c == '\'' then Resume(SingleQuote, [c], count, s[1..])
        else Resume(InNormal, value + [c], count, s[1..])
      case InComment =>
        if EndsComment(c) then Scan(Comment, value, s[1..])
        else Resume(state, value + [c], count, s[1..])
      case InNormal =>
        if EndsPlain(c) then Scan(Normal, value, s)
        else Resume(state, value + [c], count, s[1..])
      case _ =>
        var n := if c == '\\' then 2 else count - 1;
        if c == QuoteOf(state) && n != 1 then Scan(Normal, value + [c], s[1..])
        else Resume(state, value + [c], n, s[1..])
  }

  lemma {:induction false} ResumeComment(t: string, i: nat, count: int)
    requires i <= |t|
    ensures var n := i + CommentLength(t[i..]);
            Resume(InComment, t[..i], count, t[i..])
            == if n == |t| then Scan(Eof, t, "") else Scan(Comment, t[..n], t[n + 1..])
    decreases |t| - i
  {
    if i == |t| {
      assert t[..i] == t;
    } else if !EndsComment(t[i]) {
      assert t[..i] + [t[i]] == t[..i + 1];
      ResumeComment(t, i + 1, count);
    }
  }

  lemma {:induction false} ResumeNormal(t: string, i: nat, count: int)
    requires i <= |t|
    ensures var n := i + PlainLength(t[i..]);
            Resume(InNormal, t[..i], count, t[i..])
            == if n == |t| then Scan(Eof, t, "") else Scan(Normal, t[..n], t[n..])
    decreases |t| - i
  {
    if i == |t| {
      assert t[..i] == t;
    } else if !EndsPlain(t[i]) {
      assert t[..i] + [t[i]] == t[..i + 1];
      ResumeNormal(t, i + 1, count);
    }
  }

  /** In a quoted token the counter is 2 exactly after a backslash, so a quote ends the token
      exactly when no backslash stands before it. */
  lemma {:induction false} ResumeQuoted(state: LexState, t: string, i: nat, count: int)
    requires state.SingleQuote? || state.DoubleQuote?
    requires 1 <= i <= |t| && count <= 2
    requires count == 2 <==> t[i - 1] == '\\'
    ensures var n := QuoteEnd(t, QuoteOf(state), i);
            Resume(state, t[..i], count, t[i..])
            == if n == |t| then Scan(Error, t, "") else Scan(Normal, t[..n + 1], t[n + 1..])
    decreases |t| - i
  {
    hide Resume;
    if i == |t| {
      QuoteRunsOut(state, t, count);
    } else {
      QuotedStep(state, t, i, count);
      if !(t[i] == QuoteOf(state) && t[i - 1] != '\\') {
        ResumeQuoted(state, t, i + 1, if t[i] == '\\' then 2 else count - 1);
      }
    }
  }

  lemma QuoteRunsOut(state: LexState, t: string, count: int)
    requires state.SingleQuote? || state.DoubleQuote?
    ensures Resume(state, t[..|t|], count, t[|t|..]) == Scan(Error, t, "")
  {
    assert t[..|t|] == t;
  }

  /** One character of a quoted token. */
  lemma QuotedStep(state: LexState, t: string, i: nat, count: int)
    requires state.SingleQuote? || state.DoubleQuote?
    requires 1 <= i < |t| && count <= 2
    requires count == 2 <==> t[i - 1] == '\\'
    ensures Resume(state, t[..i], count, t[i..])
            == if t[i] == QuoteOf(state) && t[i - 1] != '\\' then Scan(Normal, t[..i + 1], t[i + 1..])
               else Resume(state, t[..i + 1], if t[i] == '\\' then 2 else count - 1, t[i + 1..])
  {
    assert t[i..][1..] == t[i + 1..] && t[..i] + [t[i]] == t[..i + 1];
  }

  lemma {:induction false} ResumeBlanks(s: string)
    ensures Resume(InitialWhitespace, "", 0, s) == Resume(InitialWhitespace, "", 0, SkipBlanks(s))
    decreases |s|
  {
    if s != "" && IsBlank(s[0]) {
      ResumeBlanks(s[1..]);
    }
  }

  lemma ResumeToken(t: string)
    requires t != "" && !IsBlank(t[0])
    ensures Resume(InitialWhitespace, "", 0, t) == LexToken(t)
  {
    assert "" + [t[0]] == [t[0]] == t[..1];
    if t[0] == '#' {
      ResumeComment(t, 1, 0);
    } else if t[0] == '"' {
      ResumeQuoted(DoubleQuote, t, 1, 0);
    } else if t[0] == '\'' {
      ResumeQuoted(SingleQuote, t, 1, 0);
    } else if !EndsPlain(t[0]) {
      ResumeNormal(t, 1, 0);
    }
  }

  /** The five-state scanner takes exactly the token that Lex describes. */
  lemma ResumeIsLex(s: string)
    ensures Resume(InitialWhitespace, "", 0, s) == Lex(s)
  {
    ResumeBlanks(s);
    if SkipBlanks(s) != "" {
      ResumeToken(SkipBlanks(s));
    }
  }

  /** A stream of characters: position and the good() flag of an istream. */
  class InputStream {
    const data: string
    var pos: nat
    var good: bool

    ghost predicate Valid()
      reads this
    {
      pos <= |data|
    }

    /** What is still to be read. */
    ghost function Rest(): string
      reads this
      requires Valid()
    {
      if good then data[pos..] else ""
    }

    constructor (data: string)
      ensures Valid() && good && Rest() == data
    {
      this.data := data;
      pos, good := 0, true;
    }

    /** At the end of the data the read fails and the stream stops being good. */
    method Get() returns (c: char)
      requires Valid() && good
      modifies this
      ensures Valid()
      ensures good == (old(Rest()) != "")
      ensures good ==> pos == old(pos) + 1 && old(Rest()) == [c] + Rest()
    {
      if pos < |data| {
        c := data[pos];
        pos := pos + 1;
      } else {
        c := '\0';
        good := false;
      }
    }

    method Unget()
      requires Valid() && good && pos > 0
      modifies this
      ensures Valid() && good && pos == old(pos) - 1
      ensures Rest() == [data[pos]] + old(Rest())
    {
      pos := pos - 1;
    }
  }

  /** Takes one token from the input. */
  method ParseToken(input: InputStream) returns (kind: TokenType, value: string)
    requires input.Valid()
    modifies input
    ensures input.Valid()
    ensures Scan(kind, value, input.Rest()) == Lex(old(input.Rest()))
  {
    ghost var start := input.Rest();
    ResumeIsLex(start);
    var state := InitialWhitespace;
    var countPrevSingle := 0;
    var countPrevDouble := 0;
    value := "";
    while input.good
      invariant input.Valid()
      invariant state != SingleQuote ==> countPrevSingle == 0
      invariant state != DoubleQuote ==> countPrevDouble == 0
      invariant input.good ==>
          Resume(state, value, if state.DoubleQuote? then countPrevDouble else countPrevSingle, input.Rest())
          == Resume(InitialWhitespace, "", 0, start)
      invariant !input.good ==> start == "" && state == InitialWhitespace && value == ""
      decreases input.good, |input.Rest()|
    {
      ghost var before := input.Rest();
      var c := input.Get();
      if !input.good {
        break;
      }
      assert before[1..] == input.Rest();
      match state
      case InitialWhitespace =>
        match c {
          case '{' => return StartBlock, [c];
          case '}' => return EndBlock, [c];
          case '#' => value, state := [c], InComment;
          case '"' => value, state := [c], DoubleQuote;
          case '\'' => value, state := [c], SingleQuote;
          case ';' => return StatementEnd, [c];
          case ' ' =>
          case '\t' =>
          case '\n' =>
          case '\r' =>
          case _ => value, state := value + [c], InNormal;
        }
      case SingleQuote =>
        if c == '\\' { countPrevSingle := 2; } else { countPrevSingle := countPrevSingle - 1; }
        value := value + [c];
        if c == '\'' && countPrevSingle != 1 {
          return Normal, value;
        }
      case DoubleQuote =>
        if c == '\\' { countPrevDouble := 2; } else { countPrevDouble := countPrevDouble - 1; }
        value := value + [c];
        if c == '"' && countPrevDouble != 1 {
          return Normal, value;
        }
      case InComment =>
        if c == '\n' || c == '\r' {
          return Comment, value;
        }
        value := value + [c];
      case InNormal =>
        if c == ' ' || c == '\t' || c == '\n' || c == '\t' ||
           c == ';' || c == '{' || c == '}' || c == '"' || c == '\'' {
          input.Unget();
          return Normal, value;
        }
        value := value + [c];
    }
    if state == SingleQuote || state == DoubleQuote {
      return Error, value;
    }
    kind := Eof;
  }

  // ---------- Text that lexes back to itself ----------

  predicate IsPlainToken(w: string) {
    w != "" && !IsBlank(w[0]) && w[0] != '#' && forall i :: 0 <= i < |w| ==> !EndsPlain(w[i])
  }

  /** A quoted token: every inner quote of its own kind follows a backslash, the closing
      quote does not. */
  predicate IsQuotedToken(w: string) {
    && |w| >= 2
    && IsQuote(w[0])
    && w[|w| - 1] == w[0]
    && w[|w| - 2] != '\\'
    && forall i :: 1 <= i < |w| - 1 && w[i] == w[0] ==> w[i - 1] == '\\'
  }

  predicate IsLexable(w: string) {
    IsPlainToken(w) || IsQuotedToken(w)
  }

  lemma {:induction false} PlainLengthIs(w: string, rest: string)
    requires forall i :: 0 <= i < |w| ==> !EndsPlain(w[i])
    requires rest != "" && EndsPlain(rest[0])
    ensures PlainLength(w + rest) == |w|
  {
    if w == "" {
      assert w + rest == rest;
    } else {
      assert (w + rest)[1..] == w[1..] + rest;
      PlainLengthIs(w[1..], rest);
    }
  }

  lemma {:induction false} QuoteEndIs(t: string, q: char, i: nat, n: nat)
    requires 1 <= i <= n < |t|
    requires t[n] == q && t[n - 1] != '\\'
    requires forall k :: i <= k < n && t[k] == q ==> t[k - 1] == '\\'
    ensures QuoteEnd(t, q, i) == n
    decreases n - i
  {
    if i < n {
      QuoteEndIs(t, q, i + 1, n);
    }
  }

  lemma {:induction false} PlainLengthProperty(s: string)
    ensures var n := PlainLength(s);
            (forall i :: 0 <= i < n ==> !EndsPlain(s[i])) && (n < |s| ==> EndsPlain(s[n]))
  {
    if s != "" && !EndsPlain(s[0]) {
      PlainLengthProperty(s[1..]);
    }
  }

  lemma {:induction false} QuoteEndProperty(s: string, q: char, i: nat)
    requires 1 <= i <= |s|
    ensures var n := QuoteEnd(s, q, i);
            && (n < |s| ==> s[n] == q && s[n - 1] != '\\')
            && forall k :: i <= k < n && s[k] == q ==> s[k - 1] == '\\'
    decreases |s| - i
  {
    if i < |s| && !(s[i] == q && s[i - 1] != '\\') {
      QuoteEndProperty(s, q, i + 1);
    }
  }

  /** Every plain or quoted token the tokenizer returns is lexable text. */
  lemma LexedIsLexable(s: string)
    requires Lex(s).kind == Normal
    ensures IsLexable(Lex(s).text)
  {
    var t := SkipBlanks(s);
    var w := Lex(s).text;
    assert w == t[..|w|];
    if IsQuote(t[0]) {
      QuoteEndProperty(t, t[0], 1);
      assert IsQuotedToken(w);
    } else {
      PlainLengthProperty(t);
      assert IsPlainToken(w);
    }
  }

  /** Lexable text lexes back to itself before any character that ends a plain token. */
  lemma LexableLexes(w: string, rest: string)
    requires IsLexable(w) && rest != "" && EndsPlain(rest[0])
    ensures Lex(w + rest) == Scan(Normal, w, rest)
  {
    var t := w + rest;
    assert SkipBlanks(t) == t;
    assert t[..|w|] == w && t[|w|..] == rest;
    if IsPlainToken(w) {
      PlainLengthIs(w, rest);
    } else {
      QuoteEndIs(t, t[0], 1, |w| - 1);
    }
  }

  lemma LexSkipsBlank(s: string)
    requires s != "" && IsBlank(s[0])
    ensures Lex(s) == Lex(s[1..])
  {
  }
}
