/** The request machine with its history: a draft of the derivation that each byte extends,
    what the draft has written so far, and the request it describes.  A lemma for each kind of
    state shows that one accepted byte keeps the draft in order, the text one byte longer and the
    request the same as the one that the machine builds; EveryByteSteps puts them together. */
module RequestDraft {
  import opened Basics
  import opened Digits
  import opened RequestGrammar
  import opened RequestMachine

  /** A derivation in progress: finished fields and, inside a field, the current one. */
  datatype Draft = Draft(verb: string, uri: string, major: string, minor: string, fields: List<Field>, cur: Field)

  const NO_FIELD := Field("", "", Empty)
  const BLANK := Draft("", "", "", "", Empty, NO_FIELD)

  predicate InField(q: State) {
    q == HeaderLws || q == HeaderName || q == SpaceBeforeHeaderValue || q == HeaderValue || q == ExpectingNewline2
  }

  /** How far into the request line a state is. */
  function Stage(q: State): nat {
    match q
    case MethodStart => 0
    case Method => 1
    case UriStart | Uri => 2
    case HttpVersionH | HttpVersionT1 | HttpVersionT2 | HttpVersionP | HttpVersionSlash | MajorStart => 3
    case Major | MinorStart => 4
    case Minor | ExpectingNewline1 => 5
    case _ => 6
  }

  ghost predicate FineLine(q: State, d: Draft) {
    && q != UriStart
    && TokenText(d.verb) && UriText(d.uri) && AllDigits(d.major) && AllDigits(d.minor)
    && (Stage(q) < 1 <==> d.verb == "")
    && (Stage(q) < 2 ==> d.uri == "")
    && (Stage(q) < 4 <==> d.major == "")
    && (Stage(q) < 5 <==> d.minor == "")
    && (Stage(q) < 6 ==> d.fields == Empty)
  }

  ghost predicate FineField(q: State, f: Field) {
    if !InField(q) then f == NO_FIELD
    else if q == HeaderName || q == SpaceBeforeHeaderValue then
      f.name != "" && TokenText(f.name) && f.first == "" && f.folds == Empty
    else
      && GoodField(f)
      && (q == HeaderLws ==> f.folds.Add? && f.folds.last.text == "")
      && (q == HeaderValue && f.folds.Add? ==> f.folds.last.text != "")
  }

  /** What the machine knows about its draft in each state; UriStart is never reached. */
  ghost predicate Fine(q: State, d: Draft) {
    FineLine(q, d) && FineField(q, d.cur) && GoodFields(d.fields)
  }

  function AddLws(f: Field, c: char): Field
    requires f.folds.Add?
  {
    f.(folds := Add(f.folds.init, f.folds.last.(lws := f.folds.last.lws + [c])))
  }

  function AddValue(f: Field, c: char): Field {
    if f.folds.Empty? then f.(first := f.first + [c])
    else f.(folds := Add(f.folds.init, f.folds.last.(text := f.folds.last.text + [c])))
  }

  /** A field taken up again by a continuation line. */
  function Reopen(f: Field, c: char): Field {
    f.(folds := Add(f.folds, Fold([c], "")))
  }

  function ExtendHeader(q: State, c: char, d: Draft): Draft
    requires q == HeaderLws ==> d.cur.folds.Add?
  {
    match q
    case HeaderLineStart =>
      if c == '\r' then d
      else if d.fields.Add? && IsLws(c) then d.(fields := d.fields.init, cur := Reopen(d.fields.last, c))
      else d.(cur := Field([c], "", Empty))
    case HeaderLws =>
      if c == '\r' then d else if IsLws(c) then d.(cur := AddLws(d.cur, c)) else d.(cur := AddValue(d.cur, c))
    case HeaderName => if c == ':' then d else d.(cur := d.cur.(name := d.cur.name + [c]))
    case HeaderValue => if c == '\r' then d else d.(cur := AddValue(d.cur, c))
    case ExpectingNewline2 => d.(fields := Add(d.fields, d.cur), cur := NO_FIELD)
    case _ => d
  }

  function ExtendLine(q: State, c: char, d: Draft): Draft {
    match q
    case MethodStart => d.(verb := d.verb + [c])
    case Method => if c == ' ' then d else d.(verb := d.verb + [c])
    case Uri => if c == ' ' then d else d.(uri := d.uri + [c])
    case MajorStart => d.(major := d.major + [c])
    case Major => if c == '.' then d else d.(major := d.major + [c])
    case MinorStart => d.(minor := d.minor + [c])
    case Minor => if c == '\r' then d else d.(minor := d.minor + [c])
    case _ => d
  }

  /** The draft after an accepted byte. */
  function Extend(q: State, c: char, d: Draft): Draft
    requires q == HeaderLws ==> d.cur.folds.Add?
  {
    if Stage(q) < 6 then ExtendLine(q, c, d) else ExtendHeader(q, c, d)
  }

  function LineWritten(q: State, d: Draft): string {
    match q
    case MethodStart | Method => d.verb
    case UriStart | Uri => d.verb + " " + d.uri
    case HttpVersionH => d.verb + " " + d.uri + " "
    case HttpVersionT1 => d.verb + " " + d.uri + " H"
    case HttpVersionT2 => d.verb + " " + d.uri + " HT"
    case HttpVersionP => d.verb + " " + d.uri + " HTT"
    case HttpVersionSlash => d.verb + " " + d.uri + " HTTP"
    case MajorStart | Major => d.verb + " " + d.uri + " HTTP/" + d.major
    case MinorStart | Minor => d.verb + " " + d.uri + " HTTP/" + d.major + "." + d.minor
    case ExpectingNewline1 => d.verb + " " + d.uri + " HTTP/" + d.major + "." + d.minor + "\r"
    case _ => HeadText(d.verb, d.uri, d.major, d.minor)
  }

  function FieldWritten(q: State, f: Field): string {
    match q
    case HeaderName => f.name
    case SpaceBeforeHeaderValue => f.name + ":"
    case HeaderLws | HeaderValue => FieldText(f)
    case ExpectingNewline2 => FieldText(f) + "\r"
    case ExpectingNewline3 => "\r"
    case _ => ""
  }

  function HeadersWritten(q: State, d: Draft): string {
    FieldsText(d.fields) + FieldWritten(q, d.cur)
  }

  /** The bytes consumed so far, read off the draft. */
  function Written(q: State, d: Draft): string {
    LineWritten(q, d) + HeadersWritten(q, d)
  }

  /** The request built so far, read off the draft. */
  function RequestSoFar(q: State, d: Draft): Request {
    Request(d.verb, d.uri, HeadersOf(d.fields) + if InField(q) then [HeaderOf(d.cur)] else [])
  }

  // ---------- One byte ----------

  lemma ExtendLineFine(q: State, c: char, d: Draft)
    requires Fine(q, d) && Stage(q) < 6 && Next(q, c, false).Go?
    ensures Fine(Next(q, c, false).next, Extend(q, c, d))
  {
    hide *;
    if q == MethodStart || q == Method || q == Uri {
      ExtendWordFine(q, c, d);
    } else if q in {MajorStart, Major, MinorStart, Minor} {
      ExtendNumberFine(q, c, d);
    } else {
      ExtendVersionFine(q, c, d);
    }
  }

  lemma ExtendWordFine(q: State, c: char, d: Draft)
    requires Fine(q, d) && Next(q, c, false).Go?
    requires q == MethodStart || q == Method || q == Uri
    ensures Fine(Next(q, c, false).next, Extend(q, c, d))
  {
    hide TokenText, UriText, AllDigits, IsTokenChar, IsUriChar, GoodFields;
    MoreText(d, c);
  }

  lemma ExtendVersionFine(q: State, c: char, d: Draft)
    requires Fine(q, d) && Stage(q) < 6 && Next(q, c, false).Go?
    requires q !in {MethodStart, Method, Uri, MajorStart, Major, MinorStart, Minor}
    ensures Fine(Next(q, c, false).next, Extend(q, c, d))
  {
    hide TokenText, UriText, AllDigits, IsDigit, GoodFields;
  }

  lemma ExtendNumberFine(q: State, c: char, d: Draft)
    requires Fine(q, d) && Next(q, c, false).Go?
    requires q in {MajorStart, Major, MinorStart, Minor}
    ensures Fine(Next(q, c, false).next, Extend(q, c, d))
  {
    hide TokenText, UriText, AllDigits, IsDigit, GoodFields;
    MoreText(d, c);
  }

  lemma MoreText(d: Draft, c: char)
    ensures TokenText(d.verb) && IsTokenChar(c) ==> TokenText(d.verb + [c])
    ensures UriText(d.uri) && !IsCtl(c) && c != ' ' ==> UriText(d.uri + [c])
    ensures AllDigits(d.major) && IsDigit(c) ==> AllDigits(d.major + [c])
    ensures AllDigits(d.minor) && IsDigit(c) ==> AllDigits(d.minor + [c])
  {
  }

  lemma ExtendVersionWritten(q: State, c: char, d: Draft)
    requires Fine(q, d) && Stage(q) < 6 && Next(q, c, false).Go?
    requires q in {HttpVersionH, HttpVersionT1, HttpVersionT2, HttpVersionP, HttpVersionSlash}
    ensures LineWritten(Next(q, c, false).next, Extend(q, c, d)) == LineWritten(q, d) + [c]
  {
    var line := d.verb + " " + d.uri;
    assert LineWritten(q, d) + [c]
        == line + match q
                  case HttpVersionH => " H"
                  case HttpVersionT1 => " HT"
                  case HttpVersionT2 => " HTT"
                  case HttpVersionP => " HTTP"
                  case _ => " HTTP/";
  }

  lemma ExtendNumberWritten(q: State, c: char, d: Draft)
    requires Fine(q, d) && Next(q, c, false).Go?
    requires q in {MajorStart, Major, MinorStart, Minor, ExpectingNewline1}
    ensures LineWritten(Next(q, c, false).next, Extend(q, c, d)) == LineWritten(q, d) + [c]
  {
    var line := d.verb + " " + d.uri + " HTTP/";
    var dotted := line + d.major + ".";
    match q
    case MajorStart | Major =>
      assert line + (d.major + [c]) == line + d.major + [c];
    case MinorStart | Minor =>
      assert dotted + (d.minor + [c]) == dotted + d.minor + [c];
    case ExpectingNewline1 =>
      assert CRLF == "\r" + [c];
    case _ =>
  }

  lemma ExtendLineWritten(q: State, c: char, d: Draft)
    requires Fine(q, d) && Stage(q) < 6 && Next(q, c, false).Go?
    ensures LineWritten(Next(q, c, false).next, Extend(q, c, d)) == LineWritten(q, d) + [c]
  {
    match q
    case MethodStart | Method | Uri =>
      assert d.verb + " " + (d.uri + [c]) == d.verb + " " + d.uri + [c];
    case MajorStart | Major | MinorStart | Minor | ExpectingNewline1 => ExtendNumberWritten(q, c, d);
    case HttpVersionH | HttpVersionT1 | HttpVersionT2 | HttpVersionP | HttpVersionSlash =>
      ExtendVersionWritten(q, c, d);
    case _ =>
  }

  lemma AddValueGood(f: Field, c: char)
    requires GoodField(f) && !IsCtl(c)
    requires f.folds.Add? && f.folds.last.text == "" ==> !IsLws(c)
    ensures GoodField(AddValue(f, c))
    ensures AddValue(f, c).folds.Add? ==> AddValue(f, c).folds.last.text != ""
  {
  }

  lemma AddLwsGood(f: Field, c: char)
    requires GoodField(f) && f.folds.Add? && IsLws(c)
    ensures GoodField(AddLws(f, c))
  {
  }

  lemma AddValueText(f: Field, c: char)
    ensures FieldText(AddValue(f, c)) == FieldText(f) + [c]
  {
    var start := f.name + ": ";
    match f.folds
    case Empty =>
      assert start + (f.first + [c]) + "" == start + f.first + "" + [c];
    case Add(init, g) =>
      var before := FoldsText(init) + CRLF + g.lws;
      Regroup(start + f.first, before, g.text, [c]);
      Regroup("", before, g.text, [c]);
  }

  lemma AddLwsText(f: Field, c: char)
    requires f.folds.Add? && f.folds.last.text == ""
    ensures FieldText(AddLws(f, c)) == FieldText(f) + [c]
  {
    var start := f.name + ": " + f.first;
    var before := FoldsText(f.folds.init) + CRLF;
    var lws := f.folds.last.lws;
    assert before + (lws + [c]) + "" == before + lws + "" + [c];
    assert start + (before + lws + "" + [c]) == start + (before + lws + "") + [c];
  }

  lemma ReopenText(f: Field, c: char)
    ensures FieldText(Reopen(f, c)) == FieldText(f) + CRLF + [c]
  {
    var start := f.name + ": " + f.first;
    assert FoldsText(f.folds) + CRLF + [c] + "" == FoldsText(f.folds) + CRLF + [c];
    Regroup(start, FoldsText(f.folds), CRLF, [c]);
  }

  lemma Regroup(a: string, b: string, c: string, d: string)
    ensures a + b + c + d == a + (b + c + d) && a + b + c == a + (b + c) && b + c + d == b + (c + d)
  {
  }

  lemma ValueAdd(f: Field, c: char)
    ensures HeaderOf(AddValue(f, c)) == (HeaderOf(f).0, HeaderOf(f).1 + [c])
  {
    match f.folds
    case Empty =>
      assert f.first + [c] + "" == f.first + "" + [c];
    case Add(init, g) =>
      Regroup(f.first, FoldsValue(init), g.text, [c]);
  }

  lemma LwsHasNoValue(f: Field, c: char)
    ensures HeaderOf(Reopen(f, c)) == HeaderOf(f)
    ensures f.folds.Add? ==> HeaderOf(AddLws(f, c)) == HeaderOf(f)
  {
    assert FoldsValue(f.folds) + "" == FoldsValue(f.folds);
  }

  // ---------- The draft keeps step with the machine ----------

  /** If the byte is accepted, the next draft is fine, what it has written is one byte longer,
      and the request it describes is the one the machine builds. */
  ghost predicate StepsWell(q: State, c: char, d: Draft)
    requires Fine(q, d)
  {
    var m := Next(q, c, d.fields.Add?);
    m.Go? ==>
      && Fine(m.next, Extend(q, c, d))
      && Written(m.next, Extend(q, c, d)) == Written(q, d) + [c]
      && BackDefined(q, RequestSoFar(q, d))
      && RequestSoFar(m.next, Extend(q, c, d)) == Push(q, c, RequestSoFar(q, d))
  }

  /** The same inside the headers, where the request line stays as it is. */
  ghost predicate HeaderStepsWell(q: State, c: char, d: Draft)
    requires Fine(q, d) && Stage(q) == 6
  {
    var m := Next(q, c, d.fields.Add?);
    var e := Extend(q, c, d);
    m.Go? ==>
      && Stage(m.next) == 6
      && e.verb == d.verb && e.uri == d.uri && e.major == d.major && e.minor == d.minor
      && FineField(m.next, e.cur) && GoodFields(e.fields)
      && HeadersWritten(m.next, e) == HeadersWritten(q, d) + [c]
      && BackDefined(q, RequestSoFar(q, d))
      && RequestSoFar(m.next, e) == Push(q, c, RequestSoFar(q, d))
  }

  lemma LineRequest(q: State, c: char, d: Draft)
    requires Fine(q, d) && Stage(q) < 6 && Next(q, c, false).Go?
    ensures var next := Next(q, c, false).next;
            !InField(q) && !InField(next) && BackDefined(q, RequestSoFar(q, d))
    ensures var r := RequestSoFar(q, d);
            Push(q, c, r) == Request(Extend(q, c, d).verb, Extend(q, c, d).uri, r.headers)
    ensures Extend(q, c, d).fields == Empty && Next(q, c, false).next != ExpectingNewline3
  {
  }

  /** On the request line no header has been written. */
  lemma NoHeaders(q: State, d: Draft)
    requires Fine(q, d) && !InField(q) && q != ExpectingNewline3 && (Stage(q) < 6 || d.fields == Empty)
    ensures d.fields == Empty && HeadersWritten(q, d) == ""
    ensures RequestSoFar(q, d) == Request(d.verb, d.uri, [])
  {
  }

  lemma LineWell(q: State, c: char, d: Draft)
    requires Fine(q, d) && Stage(q) < 6
    ensures StepsWell(q, c, d)
  {
    hide Fine, LineWritten, HeadersWritten, RequestSoFar, Next, Push, Extend, BackDefined;
    NoHeaders(q, d);
    if Next(q, c, false).Go? {
      ExtendLineFine(q, c, d);
      ExtendLineWritten(q, c, d);
      LineRequest(q, c, d);
      NoHeaders(Next(q, c, false).next, Extend(q, c, d));
      assert LineWritten(q, d) + "" == LineWritten(q, d);
    }
  }

  /** A blank at the start of a line takes the last field up again. */
  lemma FoldWell(c: char, d: Draft)
    requires Fine(HeaderLineStart, d) && d.fields.Add? && IsLws(c)
    ensures HeaderStepsWell(HeaderLineStart, c, d)
  {
    var f, before := d.fields.last, FieldsText(d.fields.init);
    ReopenText(f, c);
    Regroup(before, FieldText(f), CRLF, [c]);
    assert FieldsText(d.fields) + "" == FieldsText(d.fields);
    LwsHasNoValue(f, c);
    assert HeadersOf(d.fields) + [] == HeadersOf(d.fields);
  }

  /** A byte that starts a new field. */
  lemma NewFieldWell(c: char, d: Draft)
    requires Fine(HeaderLineStart, d) && IsTokenChar(c)
    ensures HeaderStepsWell(HeaderLineStart, c, d)
  {
    assert FieldsText(d.fields) + "" == FieldsText(d.fields);
    assert "" + FoldsValue(Empty) == "";
    assert HeadersOf(d.fields) + [] == HeadersOf(d.fields);
  }

  lemma BlankLineWell(d: Draft)
    requires Fine(HeaderLineStart, d)
    ensures HeaderStepsWell(HeaderLineStart, '\r', d)
  {
    assert FieldsText(d.fields) + "" == FieldsText(d.fields);
  }

  lemma LineStartWell(c: char, d: Draft)
    requires Fine(HeaderLineStart, d)
    ensures HeaderStepsWell(HeaderLineStart, c, d)
  {
    if c == '\r' {
      BlankLineWell(d);
    } else if d.fields.Add? && IsLws(c) {
      FoldWell(c, d);
    } else if IsTokenChar(c) {
      NewFieldWell(c, d);
    }
  }

  lemma LastHeader(hs: seq<(string, string)>, h: (string, string), g: (string, string))
    ensures (hs + [h])[|hs| := g] == hs + [g]
  {
  }

  lemma LwsWell(c: char, d: Draft)
    requires Fine(HeaderLws, d)
    ensures HeaderStepsWell(HeaderLws, c, d)
  {
    hide FieldText, FieldsText, HeaderOf, HeadersOf, GoodField, GoodFields, TokenText, UriText, AllDigits, IsTokenChar;
    if IsLws(c) {
      AddLwsGood(d.cur, c);
      AddLwsText(d.cur, c);
      LwsHasNoValue(d.cur, c);
    } else if c != '\r' && !IsCtl(c) {
      ValueWell(HeaderLws, c, d);
    }
  }

  lemma ValueWell(q: State, c: char, d: Draft)
    requires q == HeaderLws || q == HeaderValue
    requires Fine(q, d) && !IsCtl(c) && (q == HeaderLws ==> !IsLws(c))
    ensures HeaderStepsWell(q, c, d)
  {
    hide FieldText, FieldsText, HeaderOf, HeadersOf, GoodField, GoodFields, TokenText, UriText, AllDigits, AddValue;
    AddValueGood(d.cur, c);
    AddValueText(d.cur, c);
    ValueAdd(d.cur, c);
    LastHeader(HeadersOf(d.fields), HeaderOf(d.cur), HeaderOf(AddValue(d.cur, c)));
  }

  lemma NameWell(c: char, d: Draft)
    requires Fine(HeaderName, d)
    ensures HeaderStepsWell(HeaderName, c, d)
  {
    if c != ':' && IsTokenChar(c) {
      LastHeader(HeadersOf(d.fields), HeaderOf(d.cur), HeaderOf(d.cur.(name := d.cur.name + [c])));
    }
  }

  lemma SpaceWell(c: char, d: Draft)
    requires Fine(SpaceBeforeHeaderValue, d)
    ensures HeaderStepsWell(SpaceBeforeHeaderValue, c, d)
  {
    if c == ' ' {
      assert d.cur.name + ": " == d.cur.name + ":" + [c];
      assert FieldText(d.cur) == d.cur.name + ":" + [c];
    }
  }

  lemma FieldEndWell(c: char, d: Draft)
    requires Fine(ExpectingNewline2, d)
    ensures HeaderStepsWell(ExpectingNewline2, c, d)
  {
    if c == '\n' {
      var before, text := FieldsText(d.fields), FieldText(d.cur);
      assert CRLF == "\r" + [c];
      Regroup(before, text, "\r", [c]);
      assert before + text + CRLF + "" == before + text + CRLF;
      assert HeadersOf(Add(d.fields, d.cur)) + [] == HeadersOf(d.fields) + [HeaderOf(d.cur)];
    }
  }

  lemma ValueStateWell(c: char, d: Draft)
    requires Fine(HeaderValue, d)
    ensures HeaderStepsWell(HeaderValue, c, d)
  {
    hide FieldText, FieldsText, HeaderOf, HeadersOf, GoodField, TokenText;
    if c != '\r' && !IsCtl(c) {
      ValueWell(HeaderValue, c, d);
    }
  }

  lemma RequestEndWell(c: char, d: Draft)
    requires Fine(ExpectingNewline3, d)
    ensures HeaderStepsWell(ExpectingNewline3, c, d)
  {
  }

  lemma HeaderByteSteps(q: State, c: char, d: Draft)
    requires Fine(q, d) && Stage(q) == 6
    ensures HeaderStepsWell(q, c, d)
  {
    hide Fine, HeaderStepsWell;
    match q
    case HeaderLineStart => LineStartWell(c, d);
    case HeaderLws => LwsWell(c, d);
    case HeaderName => NameWell(c, d);
    case SpaceBeforeHeaderValue => SpaceWell(c, d);
    case HeaderValue => ValueStateWell(c, d);
    case ExpectingNewline2 => FieldEndWell(c, d);
    case ExpectingNewline3 => RequestEndWell(c, d);
  }

  /** Every accepted byte keeps the draft and the machine together. */
  lemma EveryByteSteps(q: State, c: char, d: Draft)
    requires Fine(q, d)
    ensures StepsWell(q, c, d)
  {
    hide FineField, GoodFields, TokenText, UriText, AllDigits, Next, Extend, Push, RequestSoFar, HeadersWritten;
    if Stage(q) < 6 {
      LineWell(q, c, d);
    } else {
      HeaderByteSteps(q, c, d);
      assert LineWritten(q, d) + (HeadersWritten(q, d) + [c]) == Written(q, d) + [c];
    }
  }
}
