/** The requests that parse accepts, spelled out byte by byte: which codes may stand in each part,
    and the request that comes out. */
module RequestText {
  import opened Digits
  import opened Runs
  import opened RequestGrammar
  import opened RequestMachine
  import opened RequestLanguage

  const MARKS := {'!', '#', '$', '%', '&', '\'', '*', '+', '-', '.', '^', '_', '`', '|', '~'}
  const SPECIALS :=
    {'(', ')', '<', '>', '@', ',', ';', ':', '\\', '\"', '/', '[', ']', '?', '=', '{', '}', ' ', '\t'}

  predicate DigitCode(n: int) {
    48 <= n <= 57
  }

  predicate LetterCode(n: int) {
    65 <= n <= 90 || 97 <= n <= 122
  }

  /** A name consists of letters, digits and fifteen marks. */
  predicate NameChar(c: char) {
    LetterCode(c as int) || DigitCode(c as int) || c in MARKS
  }

  lemma TokenChars(c: char)
    ensures IsTokenChar(c) <==> NameChar(c)
  {
  }

  lemma SpecialChars(c: char)
    ensures IsTspecial(c) <==> c in SPECIALS
  {
  }

  /** Besides the control characters a URI has no blank. */
  lemma OtherChars(c: char)
    ensures IsUriChar(c) <==> c as int > 32 && c as int != 127
    ensures !IsCtl(c) <==> c as int >= 32 && c as int != 127
    ensures IsLws(c) <==> c as int == 32 || c as int == 9
  {
  }

  ghost predicate Name(s: string) {
    s != "" && forall i :: 0 <= i < |s| ==> NameChar(s[i])
  }

  ghost predicate Target(s: string) {
    forall i :: 0 <= i < |s| ==> s[i] as int > 32 && s[i] as int != 127
  }

  ghost predicate Number(s: string) {
    s != "" && forall i :: 0 <= i < |s| ==> DigitCode(s[i] as int)
  }

  ghost predicate Content(s: string) {
    forall i :: 0 <= i < |s| ==> s[i] as int >= 32 && s[i] as int != 127
  }

  ghost predicate Blanks(s: string) {
    s != "" && forall i :: 0 <= i < |s| ==> s[i] == ' ' || s[i] == '\t'
  }

  /** A header: its name, the rest of its line, and its continuation lines. */
  datatype Header = Header(name: string, first: string, folds: seq<Fold>)

  ghost predicate Continuation(f: Fold) {
    Blanks(f.lws) && Content(f.text) && (f.text != "" ==> f.text[0] != ' ' && f.text[0] != '\t')
  }

  ghost predicate Continuations(fs: seq<Fold>) {
    fs != [] ==> Continuations(fs[..|fs| - 1]) && Continuation(fs[|fs| - 1])
  }

  ghost predicate WellFormed(h: Header) {
    Name(h.name) && Content(h.first) && Continuations(h.folds)
  }

  ghost predicate AllWellFormed(hs: seq<Header>) {
    hs != [] ==> AllWellFormed(hs[..|hs| - 1]) && WellFormed(hs[|hs| - 1])
  }

  function ContinuationLines(fs: seq<Fold>): string {
    if fs == [] then ""
    else
      var f := fs[|fs| - 1];
      ContinuationLines(fs[..|fs| - 1]) + "\r\n" + f.lws + f.text
  }

  function HeaderLines(hs: seq<Header>): string {
    if hs == [] then ""
    else
      var h := hs[|hs| - 1];
      HeaderLines(hs[..|hs| - 1]) + (h.name + ": " + h.first + ContinuationLines(h.folds)) + "\r\n"
  }

  /** The bytes of a request. */
  function Bytes(verb: string, uri: string, major: string, minor: string, hs: seq<Header>): string {
    verb + " " + uri + " HTTP/" + major + "." + minor + "\r\n" + (HeaderLines(hs) + "\r\n")
  }

  function ContinuedText(fs: seq<Fold>): string {
    if fs == [] then "" else ContinuedText(fs[..|fs| - 1]) + fs[|fs| - 1].text
  }

  /** What the request holds of each header. */
  function Held(hs: seq<Header>): seq<(string, string)> {
    seq(|hs|, i requires 0 <= i < |hs| => (hs[i].name, hs[i].first + ContinuedText(hs[i].folds)))
  }

  // ---------- As derivations ----------

  function FoldList(fs: seq<Fold>): List<Fold> {
    if fs == [] then Empty else Add(FoldList(fs[..|fs| - 1]), fs[|fs| - 1])
  }

  function FieldOf(h: Header): Field {
    Field(h.name, h.first, FoldList(h.folds))
  }

  function FieldList(hs: seq<Header>): List<Field> {
    if hs == [] then Empty else Add(FieldList(hs[..|hs| - 1]), FieldOf(hs[|hs| - 1]))
  }

  lemma NameIsToken(s: string)
    ensures Name(s) <==> s != "" && TokenText(s)
  {
    hide NameChar, IsTokenChar;
    forall i | 0 <= i < |s|
      ensures NameChar(s[i]) <==> IsTokenChar(s[i])
    {
      TokenChars(s[i]);
    }
  }

  lemma SameTexts(s: string)
    ensures Target(s) <==> UriText(s)
    ensures Content(s) <==> ValueText(s)
    ensures Blanks(s) <==> s != "" && LwsText(s)
    ensures Number(s) <==> s != "" && AllDigits(s)
  {
  }

  lemma {:induction false} FoldsAgree(fs: seq<Fold>)
    ensures Continuations(fs) <==> GoodFolds(FoldList(fs))
    ensures ContinuationLines(fs) == FoldsText(FoldList(fs))
    ensures ContinuedText(fs) == FoldsValue(FoldList(fs))
  {
    if fs != [] {
      var f := fs[|fs| - 1];
      FoldsAgree(fs[..|fs| - 1]);
      SameTexts(f.lws);
      SameTexts(f.text);
    }
  }

  lemma HeaderAgrees(h: Header)
    ensures WellFormed(h) <==> GoodField(FieldOf(h))
    ensures h.name + ": " + h.first + ContinuationLines(h.folds) == FieldText(FieldOf(h))
    ensures HeaderOf(FieldOf(h)) == (h.name, h.first + ContinuedText(h.folds))
  {
    hide Name, TokenText, Content, ValueText, Continuations, GoodFolds;
    NameIsToken(h.name);
    SameTexts(h.first);
    FoldsAgree(h.folds);
  }

  lemma {:induction false} HeadersAgree(hs: seq<Header>)
    ensures AllWellFormed(hs) <==> GoodFields(FieldList(hs))
    ensures HeaderLines(hs) == FieldsText(FieldList(hs))
    ensures Held(hs) == HeadersOf(FieldList(hs))
  {
    hide WellFormed, GoodField, FieldText, HeaderOf, FieldOf, ContinuationLines;
    if hs != [] {
      HeadersAgree(hs[..|hs| - 1]);
      HeaderAgrees(hs[|hs| - 1]);
      assert Held(hs) == Held(hs[..|hs| - 1]) + [HeaderOf(FieldOf(hs[|hs| - 1]))];
    }
  }

  ghost predicate Acceptable(verb: string, uri: string, major: string, minor: string, hs: seq<Header>) {
    Name(verb) && Target(uri) && Number(major) && Number(minor) && AllWellFormed(hs)
  }

  lemma RequestAgrees(verb: string, uri: string, major: string, minor: string, hs: seq<Header>)
    ensures var e := Derivation(verb, uri, major, minor, FieldList(hs));
            && (Acceptable(verb, uri, major, minor, hs) <==> Good(e))
            && Bytes(verb, uri, major, minor, hs) == Text(e)
            && RequestOf(e) == Request(verb, uri, Held(hs))
  {
    hide Name, Target, Number, AllWellFormed, TokenText, UriText, AllDigits, GoodFields;
    NameIsToken(verb);
    SameTexts(uri);
    SameTexts(major);
    SameTexts(minor);
    HeadersAgree(hs);
  }

  /** Every request of such bytes is accepted, up to its last byte, with its method, URI and
      headers, whatever follows it. */
  lemma RequestIsAccepted(verb: string, uri: string, major: string, minor: string, hs: seq<Header>, rest: string)
    requires Acceptable(verb, uri, major, minor, hs)
    ensures var bytes := Bytes(verb, uri, major, minor, hs);
            Parse(FRESH, bytes + rest)
            == Outcome(True, Config(ExpectingNewline3, Request(verb, uri, Held(hs))), |bytes|)
  {
    hide Acceptable, Bytes, Text, Good, RequestOf;
    RequestAgrees(verb, uri, major, minor, hs);
    Complete(Derivation(verb, uri, major, minor, FieldList(hs)), rest);
  }

  lemma {:induction false} FoldsListed(l: List<Fold>) returns (fs: seq<Fold>)
    ensures FoldList(fs) == l
  {
    match l
    case Empty => fs := [];
    case Add(init, f) =>
      fs := FoldsListed(init);
      assert (fs + [f])[..|fs|] == fs;
      fs := fs + [f];
  }

  lemma {:induction false} FieldsListed(l: List<Field>) returns (hs: seq<Header>)
    ensures FieldList(hs) == l
  {
    match l
    case Empty => hs := [];
    case Add(init, f) =>
      hs := FieldsListed(init);
      var fs := FoldsListed(f.folds);
      var h := Header(f.name, f.first, fs);
      assert (hs + [h])[..|hs|] == hs;
      hs := hs + [h];
  }

  /** Nothing else is accepted. */
  lemma AcceptedIsRequest(s: string)
      returns (verb: string, uri: string, major: string, minor: string, hs: seq<Header>)
    requires Parse(FRESH, s).verdict == True
    ensures Acceptable(verb, uri, major, minor, hs)
    ensures Bytes(verb, uri, major, minor, hs) == s[..Parse(FRESH, s).consumed]
    ensures Parse(FRESH, s).left == Config(ExpectingNewline3, Request(verb, uri, Held(hs)))
  {
    hide Acceptable, Bytes, Text, Good, RequestOf;
    var e := Sound(s);
    hs := FieldsListed(e.fields);
    verb, uri, major, minor := e.verb, e.uri, e.major, e.minor;
    RequestAgrees(verb, uri, major, minor, hs);
  }

  /** The state before a URI, in which no call leaves the parser, would take the first byte of one. */
  lemma BeforeUri(r: Request, c: char)
    ensures Consume(Config(UriStart, r), c)
         == if c as int >= 32 && c as int != 127 then Continue(Config(Uri, r.(uri := r.uri + [c]))) else Stop(false)
  {
  }
}
