/** What parse accepts from a fresh parser: exactly the texts of the well-formed derivations, and
    it gives up at the first byte that none can explain. */
module RequestLanguage {
  import opened Basics
  import opened Digits
  import opened Runs
  import opened RequestGrammar
  import opened RequestMachine
  import opened RequestDraft

  datatype Point = Point(q: State, d: Draft)

  type FinePoint = p: Point | Fine(p.q, p.d) witness Point(MethodStart, BLANK)

  const START: FinePoint := Point(MethodStart, BLANK)

  /** The machine with its draft, as far as bytes are accepted and do not end the request. */
  ghost function Step(p: FinePoint, c: char): Option<FinePoint> {
    match Next(p.q, c, p.d.fields.Add?)
    case Go(next) => EveryByteSteps(p.q, c, p.d); Some(Point(next, Extend(p.q, c, p.d)))
    case _ => None
  }

  ghost function Output(p: FinePoint): string {
    Written(p.q, p.d)
  }

  /** The configuration that a state and a draft stand for. */
  ghost function View(p: FinePoint): Live {
    HeadersIffFields(p.d.fields);
    Config(p.q, RequestSoFar(p.q, p.d))
  }

  lemma HeadersIffFields(fs: List<Field>)
    ensures HeadersOf(fs) != [] <==> fs.Add?
  {
  }

  lemma StepWrites(p: FinePoint, c: char)
    requires Step(p, c).Some?
    ensures Output(Step(p, c).value) == Output(p) + [c]
  {
    EveryByteSteps(p.q, c, p.d);
  }

  /** consume does what the control says. */
  lemma ConsumeSteps(p: FinePoint, c: char)
    ensures if Step(p, c).Some? then Consume(View(p), c) == Continue(View(Step(p, c).value))
            else Consume(View(p), c) == Stop(p.q == ExpectingNewline3 && c == '\n')
  {
    HeadersIffFields(p.d.fields);
    EveryByteSteps(p.q, c, p.d);
    assert Next(p.q, c, View(p).request.headers != []) == Next(p.q, c, p.d.fields.Add?);
    OnlyNewline3Ends(p.q, c, p.d.fields.Add?);
  }

  /** The byte that ends a request is a newline after the blank line's return. */
  lemma OnlyNewline3Ends(q: State, c: char, some: bool)
    ensures Next(q, c, some).Done? <==> q == ExpectingNewline3 && c == '\n'
  {
  }

  /** A path of the machine with its draft writes what it reads, and is a run of parse without
      a verdict. */
  lemma PathsAreRuns(p: FinePoint, w: string)
    ensures Parse(View(p), w).verdict == Indeterminate <==> Follow(Step, p, w).Some?
    ensures Follow(Step, p, w).Some? ==>
        && Parse(View(p), w).left == View(Follow(Step, p, w).value)
        && Output(Follow(Step, p, w).value) == Output(p) + w
  {
    forall t: FinePoint, c | Step(t, c).Some?
      ensures Output(Step(t, c).value) == Output(t) + [c]
    {
      StepWrites(t, c);
    }
    forall t: FinePoint, c
      ensures if Step(t, c).Some? then Consume(View(t), c) == Continue(View(Step(t, c).value))
              else Consume(View(t), c).Stop?
    {
      ConsumeSteps(t, c);
    }
    FollowWrites(Step, Output, p, w);
    FollowDrives(Step, Consume, View, p, w);
  }

  // ---------- Soundness ----------

  ghost function Finished(d: Draft): Derivation {
    Derivation(d.verb, d.uri, d.major, d.minor, d.fields)
  }

  lemma FinishedText(d: Draft)
    requires Fine(ExpectingNewline3, d)
    ensures Good(Finished(d)) && Text(Finished(d)) == Written(ExpectingNewline3, d) + "\n"
    ensures RequestOf(Finished(d)) == RequestSoFar(ExpectingNewline3, d)
  {
    hide TokenText, UriText, AllDigits, GoodFields, FieldsText, HeadText;
    var head, fields := HeadText(d.verb, d.uri, d.major, d.minor), FieldsText(d.fields);
    assert CRLF == "\r" + "\n";
    assert fields + "\r" + "\n" == fields + CRLF;
    assert head + (fields + "\r") + "\n" == head + (fields + "\r" + "\n");
    assert HeadersOf(d.fields) + [] == HeadersOf(d.fields);
  }

  /** Before an accepted input's last byte, the draft is a whole derivation. */
  lemma AcceptedDraft(s: string) returns (p: FinePoint)
    requires Parse(FRESH, s).verdict == True
    ensures var n := Parse(FRESH, s).consumed;
            && 0 < n && s[n - 1] == '\n' && p.q == ExpectingNewline3
            && Output(p) == s[..n - 1] && Parse(FRESH, s).left == View(p)
  {
    hide Fine, Step, Next, Extend;
    var n := Parse(FRESH, s).consumed;
    DriveLastByte(Consume, FRESH, s);
    assert View(START) == FRESH;
    PathsAreRuns(START, s[..n - 1]);
    p := Follow(Step, START, s[..n - 1]).value;
    ConsumeSteps(p, s[n - 1]);
    assert Output(START) == "" && "" + s[..n - 1] == s[..n - 1];
  }

  lemma FinishedPoint(p: FinePoint)
    requires p.q == ExpectingNewline3
    ensures Good(Finished(p.d)) && Text(Finished(p.d)) == Output(p) + "\n"
    ensures View(p) == Config(ExpectingNewline3, RequestOf(Finished(p.d)))
  {
    FinishedText(p.d);
  }

  /** Every accepted input is the text of a derivation and yields its request. */
  lemma Sound(s: string) returns (e: Derivation)
    requires Parse(FRESH, s).verdict == True
    ensures Good(e) && Text(e) == s[..Parse(FRESH, s).consumed]
    ensures Parse(FRESH, s).left == Config(ExpectingNewline3, RequestOf(e))
  {
    hide Text, Good, Fine, Output, RequestOf;
    var n := Parse(FRESH, s).consumed;
    var p := AcceptedDraft(s);
    FinishedPoint(p);
    assert s[..n - 1] + "\n" == s[..n];
    e := Finished(p.d);
  }

  // ---------- Completeness ----------

  /** The text w leads from p to p2. */
  ghost predicate Leads(p: FinePoint, w: string, p2: FinePoint) {
    Follow(Step, p, w) == Some(p2)
  }

  lemma Chain(p: FinePoint, a: string, m: FinePoint, b: string, r: FinePoint)
    requires Leads(p, a, m) && Leads(m, b, r)
    ensures Leads(p, a + b, r)
  {
    FollowAppend(Step, p, a, b);
  }

  lemma Stays(p: FinePoint)
    ensures Leads(p, "", p)
  {
  }

  lemma One(p: FinePoint, c: char, p2: FinePoint)
    requires Step(p, c) == Some(p2)
    ensures Leads(p, [c], p2)
  {
    FollowOne(Step, p, c);
  }

  /** The bytes that keep the machine in a state. */
  ghost predicate Loops(q: State, c: char) {
    match q
    case Method | HeaderName => IsTokenChar(c)
    case Uri => IsUriChar(c)
    case Major | Minor => IsDigit(c)
    case HeaderValue => !IsCtl(c)
    case HeaderLws => IsLws(c)
    case _ => false
  }

  ghost predicate LoopText(q: State, w: string) {
    forall i :: 0 <= i < |w| ==> Loops(q, w[i])
  }

  ghost function AddValueText(f: Field, w: string): Field {
    if f.folds.Empty? then f.(first := f.first + w)
    else f.(folds := Add(f.folds.init, f.folds.last.(text := f.folds.last.text + w)))
  }

  ghost function AddLwsText(f: Field, w: string): Field
    requires f.folds.Add?
  {
    f.(folds := Add(f.folds.init, f.folds.last.(lws := f.folds.last.lws + w)))
  }

  /** The draft after the bytes w have gone round in a state. */
  ghost function Fill(q: State, d: Draft, w: string): Draft
    requires Fine(q, d)
  {
    match q
    case Method => d.(verb := d.verb + w)
    case Uri => d.(uri := d.uri + w)
    case Major => d.(major := d.major + w)
    case Minor => d.(minor := d.minor + w)
    case HeaderName => d.(cur := d.cur.(name := d.cur.name + w))
    case HeaderValue => d.(cur := AddValueText(d.cur, w))
    case HeaderLws => d.(cur := AddLwsText(d.cur, w))
    case _ => d
  }

  lemma LoopStep(q: State, d: Draft, c: char)
    requires Fine(q, d) && Loops(q, c)
    ensures Fine(q, Fill(q, d, [c])) && Step(Point(q, d), c) == Some(Point(q, Fill(q, d, [c])))
  {
    hide Written, RequestSoFar, Push, BackDefined, TokenText, UriText, AllDigits;
    EveryByteSteps(q, c, d);
  }

  lemma FillNone(q: State, d: Draft)
    requires Fine(q, d)
    ensures Fill(q, d, "") == d
  {
    assert d.verb + "" == d.verb && d.uri + "" == d.uri && d.major + "" == d.major && d.minor + "" == d.minor;
    assert d.cur.name + "" == d.cur.name && d.cur.first + "" == d.cur.first;
    if d.cur.folds.Add? {
      assert d.cur.folds.last.text + "" == d.cur.folds.last.text;
      assert d.cur.folds.last.lws + "" == d.cur.folds.last.lws;
    }
  }

  lemma FillMore(q: State, d: Draft, c: char, w: string)
    requires Fine(q, d) && Fine(q, Fill(q, d, [c]))
    ensures Fill(q, Fill(q, d, [c]), w) == Fill(q, d, [c] + w)
  {
    hide FineLine, GoodField, GoodFields, TokenText, GoodFolds, ValueText;
    match q
    case Method => Assoc(d.verb, [c], w);
    case Uri => Assoc(d.uri, [c], w);
    case Major => Assoc(d.major, [c], w);
    case Minor => Assoc(d.minor, [c], w);
    case HeaderName => Assoc(d.cur.name, [c], w);
    case HeaderValue => AddMore(d.cur, c, w);
    case HeaderLws => AddMore(d.cur, c, w);
    case _ =>
  }

  lemma AddMore(f: Field, c: char, w: string)
    ensures AddValueText(AddValueText(f, [c]), w) == AddValueText(f, [c] + w)
    ensures f.folds.Add? ==> AddLwsText(AddLwsText(f, [c]), w) == AddLwsText(f, [c] + w)
  {
    if f.folds.Empty? {
      Assoc(f.first, [c], w);
    } else {
      Assoc(f.folds.last.text, [c], w);
      Assoc(f.folds.last.lws, [c], w);
    }
  }

  lemma {:induction false} Loop(q: State, d: Draft, w: string)
    requires Fine(q, d) && LoopText(q, w)
    ensures Fine(q, Fill(q, d, w)) && Leads(Point(q, d), w, Point(q, Fill(q, d, w)))
    decreases |w|
  {
    hide Fine, Step, Fill, Leads, Next, Extend;
    if w == "" {
      FillNone(q, d);
      Stays(Point(q, d));
    } else {
      assert w == [w[0]] + w[1..];
      LoopStep(q, d, w[0]);
      One(Point(q, d), w[0], Point(q, Fill(q, d, [w[0]])));
      Loop(q, Fill(q, d, [w[0]]), w[1..]);
      FillMore(q, d, w[0], w[1..]);
      Chain(Point(q, d), [w[0]], Point(q, Fill(q, d, [w[0]])), w[1..], Point(q, Fill(q, d, w)));
    }
  }

  /** A first byte that leads into a loop, and the bytes of the loop. */
  lemma Enter(p: FinePoint, q: State, d: Draft, w: string)
    requires w != "" && Fine(q, d) && Step(p, w[0]) == Some(Point(q, d)) && LoopText(q, w[1..])
    ensures Fine(q, Fill(q, d, w[1..])) && Leads(p, w, Point(q, Fill(q, d, w[1..])))
  {
    hide Fine, Step, Fill, Leads, LoopText;
    One(p, w[0], Point(q, d));
    Loop(q, d, w[1..]);
    assert w == [w[0]] + w[1..];
    Chain(p, [w[0]], Point(q, d), w[1..], Point(q, Fill(q, d, w[1..])));
  }

  ghost function Line(verb: string, uri: string, major: string, minor: string): Draft {
    Draft(verb, uri, major, minor, Empty, NO_FIELD)
  }

  /** A byte that leads on and leaves the draft as it is. */
  lemma Passes(q: State, d: Draft, c: char, next: State)
    requires Fine(q, d) && Next(q, c, d.fields.Add?) == Go(next) && Extend(q, c, d) == d
    ensures Fine(next, d) && Leads(Point(q, d), [c], Point(next, d))
  {
    EveryByteSteps(q, c, d);
    One(Point(q, d), c, Point(next, d));
  }

  lemma VerbLeads(verb: string)
    requires verb != "" && TokenText(verb)
    ensures Fine(Uri, Line(verb, "", "", ""))
    ensures Leads(START, verb + " ", Point(Uri, Line(verb, "", "", "")))
  {
    hide Leads, Written, RequestSoFar;
    var d := Line(verb, "", "", "");
    assert "" + [verb[0]] == [verb[0]];
    Enter(START, Method, Line([verb[0]], "", "", ""), verb);
    assert [verb[0]] + verb[1..] == verb;
    Passes(Method, d, ' ', Uri);
    Chain(START, verb, Point(Method, d), " ", Point(Uri, d));
  }

  lemma UriLeads(verb: string, uri: string)
    requires verb != "" && TokenText(verb) && UriText(uri)
    ensures Fine(Uri, Line(verb, "", "", "")) && Fine(HttpVersionH, Line(verb, uri, "", ""))
    ensures Leads(Point(Uri, Line(verb, "", "", "")), uri + " ", Point(HttpVersionH, Line(verb, uri, "", "")))
  {
    hide Leads, Step;
    var d := Line(verb, uri, "", "");
    Loop(Uri, Line(verb, "", "", ""), uri);
    assert "" + uri == uri;
    Passes(Uri, d, ' ', HttpVersionH);
    Chain(Point(Uri, Line(verb, "", "", "")), uri, Point(Uri, d), " ", Point(HttpVersionH, d));
  }

  lemma HttpLeads(d: Draft)
    requires Fine(HttpVersionH, d)
    ensures Fine(MajorStart, d) && Leads(Point(HttpVersionH, d), "HTTP/", Point(MajorStart, d))
  {
    hide Fine, Step, Leads;
    Passes(HttpVersionH, d, 'H', HttpVersionT1);
    Passes(HttpVersionT1, d, 'T', HttpVersionT2);
    Passes(HttpVersionT2, d, 'T', HttpVersionP);
    Passes(HttpVersionP, d, 'P', HttpVersionSlash);
    Passes(HttpVersionSlash, d, '/', MajorStart);
    assert "HTTP" + "/" == "HTTP/" && "HTT" + "P" == "HTTP" && "HT" + "T" == "HTT" && "H" + "T" == "HT";
    Chain(Point(HttpVersionH, d), "H", Point(HttpVersionT1, d), "T", Point(HttpVersionT2, d));
    Chain(Point(HttpVersionH, d), "HT", Point(HttpVersionT2, d), "T", Point(HttpVersionP, d));
    Chain(Point(HttpVersionH, d), "HTT", Point(HttpVersionP, d), "P", Point(HttpVersionSlash, d));
    Chain(Point(HttpVersionH, d), "HTTP", Point(HttpVersionSlash, d), "/", Point(MajorStart, d));
  }

  lemma MajorLeads(verb: string, uri: string, major: string)
    requires Fine(MajorStart, Line(verb, uri, "", "")) && major != "" && AllDigits(major)
    ensures Fine(MinorStart, Line(verb, uri, major, ""))
    ensures Leads(Point(MajorStart, Line(verb, uri, "", "")), major + ".",
                  Point(MinorStart, Line(verb, uri, major, "")))
  {
    hide Fine, Step, Leads, Next, Extend;
    var p := Point(MajorStart, Line(verb, uri, "", ""));
    var d := Line(verb, uri, major, "");
    var first := Line(verb, uri, [major[0]], "");
    MajorStarts(verb, uri, major[0]);
    Enter(p, Major, first, major);
    assert [major[0]] + major[1..] == major;
    MajorEnds(d);
    Chain(p, major, Point(Major, d), ".", Point(MinorStart, d));
  }

  lemma MajorStarts(verb: string, uri: string, c: char)
    requires Fine(MajorStart, Line(verb, uri, "", "")) && IsDigit(c)
    ensures Fine(Major, Line(verb, uri, [c], ""))
    ensures Step(Point(MajorStart, Line(verb, uri, "", "")), c) == Some(Point(Major, Line(verb, uri, [c], "")))
  {
    hide Written, RequestSoFar, Push, BackDefined, TokenText, UriText, AllDigits;
    EveryByteSteps(MajorStart, c, Line(verb, uri, "", ""));
    assert "" + [c] == [c];
  }

  lemma MajorEnds(d: Draft)
    requires Fine(Major, d)
    ensures Fine(MinorStart, d) && Leads(Point(Major, d), ".", Point(MinorStart, d))
  {
    Passes(Major, d, '.', MinorStart);
  }

  lemma MinorLeads(verb: string, uri: string, major: string, minor: string)
    requires Fine(MinorStart, Line(verb, uri, major, "")) && minor != "" && AllDigits(minor)
    ensures Fine(HeaderLineStart, Line(verb, uri, major, minor))
    ensures Leads(Point(MinorStart, Line(verb, uri, major, "")), minor + CRLF,
                  Point(HeaderLineStart, Line(verb, uri, major, minor)))
  {
    hide Fine, Step, Leads, Next, Extend;
    var p := Point(MinorStart, Line(verb, uri, major, ""));
    var d := Line(verb, uri, major, minor);
    MinorStarts(verb, uri, major, minor[0]);
    Enter(p, Minor, Line(verb, uri, major, [minor[0]]), minor);
    assert [minor[0]] + minor[1..] == minor;
    LineDone(d);
    Chain(p, minor, Point(Minor, d), CRLF, Point(HeaderLineStart, d));
  }

  lemma MinorStarts(verb: string, uri: string, major: string, c: char)
    requires Fine(MinorStart, Line(verb, uri, major, "")) && IsDigit(c)
    ensures Fine(Minor, Line(verb, uri, major, [c]))
    ensures Step(Point(MinorStart, Line(verb, uri, major, "")), c) == Some(Point(Minor, Line(verb, uri, major, [c])))
  {
    hide Written, RequestSoFar, Push, BackDefined, TokenText, UriText, AllDigits;
    EveryByteSteps(MinorStart, c, Line(verb, uri, major, ""));
    assert "" + [c] == [c];
  }

  lemma LineDone(d: Draft)
    requires Fine(Minor, d)
    ensures Fine(HeaderLineStart, d) && Leads(Point(Minor, d), CRLF, Point(HeaderLineStart, d))
  {
    hide Leads, Step, TokenText, UriText, AllDigits;
    Passes(Minor, d, '\r', ExpectingNewline1);
    Passes(ExpectingNewline1, d, '\n', HeaderLineStart);
    Chain(Point(Minor, d), "\r", Point(ExpectingNewline1, d), "\n", Point(HeaderLineStart, d));
    assert CRLF == "\r" + "\n";
  }

  lemma HeadParts(verb: string, uri: string, major: string, minor: string)
    ensures HeadText(verb, uri, major, minor)
            == verb + " " + ((uri + " ") + ("HTTP/" + ((major + ".") + (minor + CRLF))))
  {
    assert " HTTP/" == " " + "HTTP/";
    var a := verb + " ";
    Assoc(a + uri, " ", "HTTP/");
    Assoc(a, uri, " ");
    Assoc(a + (uri + " ") + "HTTP/", major, ".");
    Assoc(a + (uri + " ") + "HTTP/" + (major + "."), minor, CRLF);
    Assoc(a + (uri + " ") + "HTTP/", major + ".", minor + CRLF);
    Assoc(a + (uri + " "), "HTTP/", (major + ".") + (minor + CRLF));
    Assoc(a, uri + " ", "HTTP/" + ((major + ".") + (minor + CRLF)));
  }

  lemma HeadLeads(verb: string, uri: string, major: string, minor: string)
    requires verb != "" && TokenText(verb) && UriText(uri)
    requires major != "" && AllDigits(major) && minor != "" && AllDigits(minor)
    ensures Fine(HeaderLineStart, Line(verb, uri, major, minor))
    ensures Leads(START, HeadText(verb, uri, major, minor), Point(HeaderLineStart, Line(verb, uri, major, minor)))
  {
    hide Leads, Step, Next, Extend, HeadText;
    var end := Line(verb, uri, major, minor);
    VerbLeads(verb);
    UriLeads(verb, uri);
    HttpLeads(Line(verb, uri, "", ""));
    MajorLeads(verb, uri, major);
    MinorLeads(verb, uri, major, minor);
    var p5 := Point(HeaderLineStart, end);
    Chain(Point(MajorStart, Line(verb, uri, "", "")), major + ".", Point(MinorStart, Line(verb, uri, major, "")),
          minor + CRLF, p5);
    Chain(Point(HttpVersionH, Line(verb, uri, "", "")), "HTTP/", Point(MajorStart, Line(verb, uri, "", "")),
          (major + ".") + (minor + CRLF), p5);
    Chain(Point(Uri, Line(verb, "", "", "")), uri + " ", Point(HttpVersionH, Line(verb, uri, "", "")),
          "HTTP/" + ((major + ".") + (minor + CRLF)), p5);
    Chain(START, verb + " ", Point(Uri, Line(verb, "", "", "")),
          (uri + " ") + ("HTTP/" + ((major + ".") + (minor + CRLF))), p5);
    HeadParts(verb, uri, major, minor);
  }

  // ---------- Fields ----------

  /** Drafts at the start of a header line. */
  ghost function Between(d: Draft, fields: List<Field>): Draft {
    d.(fields := fields, cur := NO_FIELD)
  }

  ghost function Inside(d: Draft, fields: List<Field>, cur: Field): Draft {
    d.(fields := fields, cur := cur)
  }

  lemma LineEndLeads(q: State, d: Draft, f: Field)
    requires q == HeaderValue || q == HeaderLws
    requires Fine(q, d) && d.cur == f && GoodField(f)
    ensures Fine(HeaderLineStart, Between(d, Add(d.fields, f)))
    ensures Leads(Point(q, d), CRLF, Point(HeaderLineStart, Between(d, Add(d.fields, f))))
  {
    hide Leads, TokenText, UriText, AllDigits, GoodFolds;
    var e := Between(d, Add(d.fields, f));
    Passes(q, d, '\r', ExpectingNewline2);
    One(Point(ExpectingNewline2, d), '\n', Point(HeaderLineStart, e));
    Chain(Point(q, d), "\r", Point(ExpectingNewline2, d), "\n", Point(HeaderLineStart, e));
    assert CRLF == "\r" + "\n";
  }

  lemma ColonLeads(e: Draft)
    requires Fine(HeaderName, e)
    ensures Fine(HeaderValue, e) && Leads(Point(HeaderName, e), ": ", Point(HeaderValue, e))
  {
    hide Leads, Step, TokenText, UriText, AllDigits;
    Passes(HeaderName, e, ':', SpaceBeforeHeaderValue);
    Passes(SpaceBeforeHeaderValue, e, ' ', HeaderValue);
    Chain(Point(HeaderName, e), ":", Point(SpaceBeforeHeaderValue, e), " ", Point(HeaderValue, e));
    assert ": " == ":" + " ";
  }

  lemma NameStarts(d: Draft, c: char)
    requires Fine(HeaderLineStart, d) && IsTokenChar(c)
    ensures var first := Inside(d, d.fields, Field([c], "", Empty));
            Fine(HeaderName, first) && Step(Point(HeaderLineStart, d), c) == Some(Point(HeaderName, first))
  {
    hide Written, RequestSoFar, Push, BackDefined, TokenText, UriText, AllDigits;
    EveryByteSteps(HeaderLineStart, c, d);
  }

  lemma NameLeads(d: Draft, name: string)
    requires Fine(HeaderLineStart, d) && name != "" && TokenText(name)
    ensures var e := Inside(d, d.fields, Field(name, "", Empty));
            Fine(HeaderValue, e) && Leads(Point(HeaderLineStart, d), name + ": ", Point(HeaderValue, e))
  {
    hide Fine, Step, Leads, Next, Extend;
    var p := Point(HeaderLineStart, d);
    var e := Inside(d, d.fields, Field(name, "", Empty));
    NameStarts(d, name[0]);
    Enter(p, HeaderName, Inside(d, d.fields, Field([name[0]], "", Empty)), name);
    assert [name[0]] + name[1..] == name;
    ColonLeads(e);
    Chain(p, name, Point(HeaderName, e), ": ", Point(HeaderValue, e));
  }

  lemma FillFirst(e: Draft, f: Field)
    requires Fine(HeaderValue, e) && e.cur == Field(f.name, "", Empty) && f.folds.Empty?
    ensures Fill(HeaderValue, e, f.first) == e.(cur := f)
  {
    assert "" + f.first == f.first;
  }

  lemma FirstLineText(f: Field)
    requires f.folds.Empty?
    ensures FieldText(f) == f.name + ": " + f.first
  {
  }

  lemma FirstLineLeads(d: Draft, f: Field)
    requires Fine(HeaderLineStart, d) && GoodField(f) && f.folds.Empty?
    ensures Fine(HeaderLineStart, Between(d, Add(d.fields, f)))
    ensures Leads(Point(HeaderLineStart, d), FieldText(f) + CRLF,
                  Point(HeaderLineStart, Between(d, Add(d.fields, f))))
  {
    hide Fine, Step, Leads, Next, Extend, Fill, TokenText, FoldsText;
    var p := Point(HeaderLineStart, d);
    var e := Inside(d, d.fields, Field(f.name, "", Empty));
    NameLeads(d, f.name);
    Loop(HeaderValue, e, f.first);
    FillFirst(e, f);
    Chain(p, f.name + ": ", Point(HeaderValue, e), f.first, Point(HeaderValue, Inside(d, d.fields, f)));
    LineEndLeads(HeaderValue, Inside(d, d.fields, f), f);
    FirstLineText(f);
    Chain(p, FieldText(f), Point(HeaderValue, Inside(d, d.fields, f)), CRLF,
          Point(HeaderLineStart, Between(d, Add(d.fields, f))));
  }

  /** A field with a continuation line of these blanks and this text at its end. */
  ghost function Folded(f: Field, lws: string, text: string): Field {
    f.(folds := Add(f.folds, Fold(lws, text)))
  }

  lemma LwsStarts(d: Draft, fields: List<Field>, f: Field, c: char)
    requires Fine(HeaderLineStart, d) && d.fields == Add(fields, f) && IsLws(c)
    ensures var first := Inside(d, fields, Folded(f, [c], ""));
            Fine(HeaderLws, first) && Step(Point(HeaderLineStart, d), c) == Some(Point(HeaderLws, first))
  {
    hide Written, RequestSoFar, Push, BackDefined, TokenText, UriText, AllDigits;
    EveryByteSteps(HeaderLineStart, c, d);
  }

  lemma FillLws(d: Draft, fields: List<Field>, f: Field, lws: string)
    requires lws != "" && Fine(HeaderLws, Inside(d, fields, Folded(f, [lws[0]], "")))
    ensures Fill(HeaderLws, Inside(d, fields, Folded(f, [lws[0]], "")), lws[1..])
            == Inside(d, fields, Folded(f, lws, ""))
  {
    assert [lws[0]] + lws[1..] == lws;
  }

  /** The blanks that start a continuation line. */
  lemma LwsLeads(d: Draft, fields: List<Field>, f: Field, lws: string)
    requires Fine(HeaderLineStart, d) && d.fields == Add(fields, f) && lws != "" && LwsText(lws)
    ensures var e := Inside(d, fields, Folded(f, lws, ""));
            Fine(HeaderLws, e) && Leads(Point(HeaderLineStart, d), lws, Point(HeaderLws, e))
  {
    hide Fine, Step, Leads, Fill;
    LwsStarts(d, fields, f, lws[0]);
    Enter(Point(HeaderLineStart, d), HeaderLws, Inside(d, fields, Folded(f, [lws[0]], "")), lws);
    FillLws(d, fields, f, lws);
  }

  lemma FoldTextStarts(d: Draft, fields: List<Field>, f: Field, lws: string, c: char)
    requires Fine(HeaderLws, Inside(d, fields, Folded(f, lws, ""))) && !IsCtl(c) && !IsLws(c)
    ensures var first := Inside(d, fields, Folded(f, lws, [c]));
            && Fine(HeaderValue, first)
            && Step(Point(HeaderLws, Inside(d, fields, Folded(f, lws, ""))), c) == Some(Point(HeaderValue, first))
  {
    hide Written, RequestSoFar, Push, BackDefined, TokenText, UriText, AllDigits;
    assert "" + [c] == [c];
    EveryByteSteps(HeaderLws, c, Inside(d, fields, Folded(f, lws, "")));
  }

  lemma FoldTextLeads(d: Draft, fields: List<Field>, f: Field, fold: Fold)
    requires GoodFold(fold) && fold.text != ""
    requires Fine(HeaderLws, Inside(d, fields, Folded(f, fold.lws, "")))
    ensures var e, g := Inside(d, fields, Folded(f, fold.lws, "")), Inside(d, fields, Folded(f, fold.lws, fold.text));
            Fine(HeaderValue, g) && Leads(Point(HeaderLws, e), fold.text, Point(HeaderValue, g))
  {
    hide Fine, Step, Leads, Fill;
    var e := Inside(d, fields, Folded(f, fold.lws, ""));
    var first := Inside(d, fields, Folded(f, fold.lws, [fold.text[0]]));
    FoldTextStarts(d, fields, f, fold.lws, fold.text[0]);
    Enter(Point(HeaderLws, e), HeaderValue, first, fold.text);
    FillFoldText(d, fields, f, fold.lws, fold.text);
  }

  lemma FillFoldText(d: Draft, fields: List<Field>, f: Field, lws: string, text: string)
    requires text != "" && Fine(HeaderValue, Inside(d, fields, Folded(f, lws, [text[0]])))
    ensures Fill(HeaderValue, Inside(d, fields, Folded(f, lws, [text[0]])), text[1..])
            == Inside(d, fields, Folded(f, lws, text))
  {
    assert [text[0]] + text[1..] == text;
  }

  lemma FoldGood(d: Draft, fields: List<Field>, f: Field, fold: Fold)
    requires Fine(HeaderLineStart, d) && d.fields == Add(fields, f) && GoodFold(fold)
    ensures GoodField(Folded(f, fold.lws, fold.text))
  {
  }

  lemma FoldLeads(d: Draft, fields: List<Field>, f: Field, fold: Fold)
    requires Fine(HeaderLineStart, d) && d.fields == Add(fields, f) && GoodFold(fold)
    ensures var g := f.(folds := Add(f.folds, fold));
            && Fine(HeaderLineStart, Between(d, Add(fields, g)))
            && Leads(Point(HeaderLineStart, d), fold.lws + fold.text + CRLF,
                     Point(HeaderLineStart, Between(d, Add(fields, g))))
  {
    hide Fine, Step, Leads, Fill;
    var p := Point(HeaderLineStart, d);
    var g := Folded(f, fold.lws, fold.text);
    var e := Inside(d, fields, Folded(f, fold.lws, ""));
    FoldGood(d, fields, f, fold);
    LwsLeads(d, fields, f, fold.lws);
    if fold.text == "" {
      LineEndLeads(HeaderLws, e, g);
      assert fold.lws + fold.text == fold.lws;
      Chain(p, fold.lws, Point(HeaderLws, e), CRLF, Point(HeaderLineStart, Between(d, Add(fields, g))));
    } else {
      FoldTextLeads(d, fields, f, fold);
      Chain(p, fold.lws, Point(HeaderLws, e), fold.text, Point(HeaderValue, Inside(d, fields, g)));
      LineEndLeads(HeaderValue, Inside(d, fields, g), g);
      Chain(p, fold.lws + fold.text, Point(HeaderValue, Inside(d, fields, g)), CRLF,
            Point(HeaderLineStart, Between(d, Add(fields, g))));
    }
  }

  lemma {:induction false} FieldLeads(d: Draft, f: Field)
    requires Fine(HeaderLineStart, d) && GoodField(f)
    ensures Fine(HeaderLineStart, Between(d, Add(d.fields, f)))
    ensures Leads(Point(HeaderLineStart, d), FieldText(f) + CRLF,
                  Point(HeaderLineStart, Between(d, Add(d.fields, f))))
    decreases f.folds
  {
    match f.folds
    case Empty => FirstLineLeads(d, f);
    case Add(init, fold) =>
      var g := f.(folds := init);
      var mid := Between(d, Add(d.fields, g));
      FieldLeads(d, g);
      FoldLeads(mid, d.fields, g, fold);
      Chain(Point(HeaderLineStart, d), FieldText(g) + CRLF, Point(HeaderLineStart, mid),
            fold.lws + fold.text + CRLF, Point(HeaderLineStart, Between(d, Add(d.fields, f))));
      FieldTextGrows(g, fold);
  }

  lemma FieldTextGrows(g: Field, fold: Fold)
    ensures FieldText(g.(folds := Add(g.folds, fold))) + CRLF
            == (FieldText(g) + CRLF) + (fold.lws + fold.text + CRLF)
  {
    var start, folds := g.name + ": " + g.first, FoldsText(g.folds);
    Assoc(folds + CRLF, fold.lws, fold.text);
    Assoc(folds, CRLF, fold.lws + fold.text);
    Assoc(start, folds, CRLF + (fold.lws + fold.text));
    Assoc(start + folds, CRLF, fold.lws + fold.text);
    Assoc(start + folds + CRLF, fold.lws + fold.text, CRLF);
  }

  lemma {:induction false} FieldsLead(d: Draft, fs: List<Field>)
    requires Fine(HeaderLineStart, d) && d.fields == Empty && GoodFields(fs)
    ensures Fine(HeaderLineStart, Between(d, fs))
    ensures Leads(Point(HeaderLineStart, d), FieldsText(fs), Point(HeaderLineStart, Between(d, fs)))
  {
    if fs.Add? {
      FieldsLead(d, fs.init);
      FieldLeads(Between(d, fs.init), fs.last);
      Chain(Point(HeaderLineStart, d), FieldsText(fs.init), Point(HeaderLineStart, Between(d, fs.init)),
            FieldText(fs.last) + CRLF, Point(HeaderLineStart, Between(d, fs)));
      Assoc(FieldsText(fs.init), FieldText(fs.last), CRLF);
    }
  }

  ghost function Whole(e: Derivation): Draft {
    Draft(e.verb, e.uri, e.major, e.minor, e.fields, NO_FIELD)
  }

  /** The text of a derivation, but for its last byte, leads to the draft of that derivation. */
  lemma TextLeads(e: Derivation)
    requires Good(e)
    ensures Fine(ExpectingNewline3, Whole(e))
    ensures Leads(START, HeadText(e.verb, e.uri, e.major, e.minor) + (FieldsText(e.fields) + "\r"),
                  Point(ExpectingNewline3, Whole(e)))
  {
    hide Leads, Step, Fine, HeadText, FieldsText, TokenText, UriText, AllDigits, GoodFields;
    var d := Line(e.verb, e.uri, e.major, e.minor);
    var p, r := Point(HeaderLineStart, d), Point(ExpectingNewline3, Whole(e));
    HeadLeads(e.verb, e.uri, e.major, e.minor);
    FieldsLead(d, e.fields);
    assert Between(d, e.fields) == Whole(e);
    Passes(HeaderLineStart, Whole(e), '\r', ExpectingNewline3);
    Chain(p, FieldsText(e.fields), Point(HeaderLineStart, Whole(e)), "\r", r);
    Chain(START, HeadText(e.verb, e.uri, e.major, e.minor), p, FieldsText(e.fields) + "\r", r);
  }

  lemma TextParts(e: Derivation)
    ensures Text(e) == HeadText(e.verb, e.uri, e.major, e.minor) + (FieldsText(e.fields) + "\r") + "\n"
  {
    assert CRLF == "\r" + "\n";
    Assoc(FieldsText(e.fields), "\r", "\n");
    Assoc(HeadText(e.verb, e.uri, e.major, e.minor), FieldsText(e.fields) + "\r", "\n");
  }

  lemma WholeView(e: Derivation)
    requires Good(e) && Fine(ExpectingNewline3, Whole(e))
    ensures View(Point(ExpectingNewline3, Whole(e))) == Config(ExpectingNewline3, RequestOf(e))
  {
    assert HeadersOf(e.fields) + [] == HeadersOf(e.fields);
  }

  /** The text of a derivation is accepted before any further bytes, and yields its request. */
  lemma Complete(e: Derivation, rest: string)
    requires Good(e)
    ensures Parse(FRESH, Text(e) + rest)
            == Outcome(True, Config(ExpectingNewline3, RequestOf(e)), |Text(e)|)
  {
    hide Text, HeadText, FieldsText, Good, Fine, RequestOf;
    var most := HeadText(e.verb, e.uri, e.major, e.minor) + (FieldsText(e.fields) + "\r");
    TextLeads(e);
    TextParts(e);
    assert View(START) == FRESH;
    PathsAreRuns(START, most);
    WholeView(e);
    LastNewline(Point(ExpectingNewline3, Whole(e)), rest);
    Assoc(most, "\n", rest);
    ParseIsIncremental(FRESH, most, "\n" + rest);
  }

  lemma LastNewline(p: FinePoint, rest: string)
    requires p.q == ExpectingNewline3
    ensures Parse(View(p), "\n" + rest) == Outcome(True, View(p), 1)
  {
    ConsumeSteps(p, '\n');
    assert ("\n" + rest)[0] == '\n';
  }

  // ---------- The language ----------

  /** parse returns true after n bytes exactly when those bytes are the text of a derivation. */
  lemma AcceptsIffDerivable(s: string, n: nat)
    ensures (Parse(FRESH, s).verdict == True && Parse(FRESH, s).consumed == n)
            <==> (n <= |s| && exists e: Derivation :: Good(e) && Text(e) == s[..n])
  {
    if Parse(FRESH, s).verdict == True && Parse(FRESH, s).consumed == n {
      var e := Sound(s);
    }
    if n <= |s| {
      assert s[..n] + s[n..] == s;
      forall e: Derivation | Good(e) && Text(e) == s[..n]
        ensures Parse(FRESH, s).verdict == True && Parse(FRESH, s).consumed == n
      {
        Complete(e, s[n..]);
      }
    }
  }

  /** A text has one derivation, and no accepted text is a proper prefix of another. */
  lemma PrefixFree(a: Derivation, b: Derivation)
    requires Good(a) && Good(b) && Text(a) <= Text(b)
    ensures a == b
  {
    var rest := Text(b)[|Text(a)|..];
    assert Text(a) + rest == Text(b) == Text(b) + "";
    Complete(a, rest);
    Complete(b, "");
    assert Text(a) == Text(b);
    TextParts(a);
    TextParts(b);
    TextLeads(a);
    TextLeads(b);
    var m := Text(a)[..|Text(a)| - 1];
    assert m == HeadText(a.verb, a.uri, a.major, a.minor) + (FieldsText(a.fields) + "\r");
    assert m == HeadText(b.verb, b.uri, b.major, b.minor) + (FieldsText(b.fields) + "\r");
    assert Whole(a) == Whole(b);
  }

  /** A byte that brings each state nearer to the end of a request. */
  ghost function NextByte(q: State): char {
    match q
    case MethodStart => 'G'
    case Method | Uri | SpaceBeforeHeaderValue => ' '
    case HttpVersionH => 'H'
    case HttpVersionT1 | HttpVersionT2 => 'T'
    case HttpVersionP => 'P'
    case HttpVersionSlash => '/'
    case MajorStart | MinorStart => '0'
    case Major => '.'
    case HeaderName => ':'
    case ExpectingNewline1 | ExpectingNewline2 => '\n'
    case _ => '\r'
  }

  ghost function Distance(q: State): nat {
    match q
    case MethodStart => 14
    case Method => 13
    case UriStart | Uri => 12
    case HttpVersionH => 11
    case HttpVersionT1 => 10
    case HttpVersionT2 => 9
    case HttpVersionP => 8
    case HttpVersionSlash => 7
    case MajorStart => 6
    case Major | HeaderName => 5
    case MinorStart | SpaceBeforeHeaderValue => 4
    case Minor | HeaderLws | HeaderValue => 3
    case ExpectingNewline1 | ExpectingNewline2 => 2
    case HeaderLineStart => 1
    case ExpectingNewline3 => 0
  }

  lemma Nearer(p: FinePoint)
    requires p.q != ExpectingNewline3
    ensures Step(p, NextByte(p.q)).Some? && Distance(Step(p, NextByte(p.q)).value.q) < Distance(p.q)
  {
    hide FineField, GoodFields, Extend, TokenText, UriText, AllDigits;
  }

  /** From every state a request can still be finished. */
  lemma {:induction false} CanFinish(p: FinePoint) returns (w: string, r: FinePoint)
    ensures Leads(p, w, r) && r.q == ExpectingNewline3
    decreases Distance(p.q)
  {
    if p.q == ExpectingNewline3 {
      return "", p;
    }
    Nearer(p);
    var c := NextByte(p.q);
    var v;
    One(p, c, Step(p, c).value);
    v, r := CanFinish(Step(p, c).value);
    w := [c] + v;
    Chain(p, [c], Step(p, c).value, v, r);
  }

  /** s is what some derivation's text starts with, and not all of it. */
  ghost predicate Viable(s: string) {
    exists e: Derivation :: Good(e) && |s| < |Text(e)| && Text(e)[..|s|] == s
  }

  /** A path to the state before the last byte has read all of a derivation but that byte. */
  lemma PathSpells(w: string, r: FinePoint) returns (e: Derivation)
    requires Leads(START, w, r) && r.q == ExpectingNewline3
    ensures Good(e) && Text(e) == w + "\n"
  {
    PathsAreRuns(START, w);
    assert Output(START) == "" && "" + w == w;
    FinishedPoint(r);
    e := Finished(r.d);
  }

  lemma CompletesFrom(s: string) returns (w: string, r: FinePoint)
    requires Parse(FRESH, s).verdict == Indeterminate
    ensures Leads(START, s + w, r) && r.q == ExpectingNewline3
  {
    assert View(START) == FRESH;
    PathsAreRuns(START, s);
    w, r := CanFinish(Follow(Step, START, s).value);
    FollowAppend(Step, START, s, w);
  }

  lemma ExtendsToText(s: string)
    requires Parse(FRESH, s).verdict == Indeterminate
    ensures Viable(s)
  {
    var w, r := CompletesFrom(s);
    var e := PathSpells(s + w, r);
    StartsText(s, w, Text(e), e);
  }

  lemma StartsText(s: string, w: string, t: string, e: Derivation)
    requires Good(e) && t == Text(e) && t == s + w + "\n"
    ensures Viable(s)
  {
    assert |s| < |t| && t[..|s|] == s;
  }

  /** parse asks for more exactly when what it has seen can still become a request. */
  lemma IndeterminateIffViable(s: string)
    ensures Parse(FRESH, s).verdict == Indeterminate <==> Viable(s)
  {
    if Parse(FRESH, s).verdict == Indeterminate {
      ExtendsToText(s);
    } else if Viable(s) {
      var e: Derivation :| Good(e) && |s| < |Text(e)| && Text(e)[..|s|] == s;
      var rest := Text(e)[|s|..];
      assert s + rest == Text(e) == Text(e) + "";
      Complete(e, "");
      ParseIsIncremental(FRESH, s, rest);
    }
  }

  /** parse returns false at the first byte after which nothing can become a request: what is
      before that byte still can. */
  lemma FailsAtFirstBadByte(s: string)
    requires Parse(FRESH, s).verdict == False
    ensures var n := Parse(FRESH, s).consumed;
            && 0 < n && Viable(s[..n - 1])
            && !exists e: Derivation :: Good(e) && (s[..n] <= Text(e) || Text(e) <= s[..n])
  {
    var n := Parse(FRESH, s).consumed;
    DriveLastByte(Consume, FRESH, s);
    ExtendsToText(s[..n - 1]);
    forall e: Derivation | Good(e)
      ensures !(s[..n] <= Text(e)) && !(Text(e) <= s[..n])
    {
      FailedIsHopeless(s, e);
    }
  }

  lemma FailedIsHopeless(s: string, e: Derivation)
    requires Parse(FRESH, s).verdict == False && Good(e)
    ensures var n := Parse(FRESH, s).consumed;
            !(s[..n] <= Text(e)) && !(Text(e) <= s[..n])
  {
    hide Text, Good, Consume;
    var n := Parse(FRESH, s).consumed;
    if s[..n] <= Text(e) {
      FailedNoBeginning(s, n, e, Text(e)[n..]);
    }
    if Text(e) <= s[..n] {
      FailedNoText(s, e, s[|Text(e)|..]);
    }
  }

  /** What was refused begins no text. */
  lemma FailedNoBeginning(s: string, n: nat, e: Derivation, rest: string)
    requires Good(e) && n == Parse(FRESH, s).consumed <= |s| && Text(e) == s[..n] + rest
    ensures Parse(FRESH, s).verdict != False
  {
    hide Text, Good, RequestOf;
    assert Text(e) + "" == Text(e);
    Complete(e, "");
    if Parse(FRESH, s).verdict == False {
      PrefixVerdict(s, n);
      ParseIsIncremental(FRESH, s[..n], rest);
      assert false;
    }
  }

  /** What was refused does not begin with a text. */
  lemma FailedNoText(s: string, e: Derivation, rest: string)
    requires Good(e) && s == Text(e) + rest
    ensures Parse(FRESH, s).verdict == True
  {
    Complete(e, rest);
  }

  /** A verdict depends only on the bytes consumed. */
  lemma PrefixVerdict(s: string, n: nat)
    requires Parse(FRESH, s).verdict != Indeterminate && n == Parse(FRESH, s).consumed
    ensures Parse(FRESH, s[..n]) == Parse(FRESH, s)
  {
    hide Consume;
    DriveLastByte(Consume, FRESH, s);
    assert s[..n] == s[..n - 1] + [s[n - 1]];
    ParseIsIncremental(FRESH, s[..n - 1], [s[n - 1]]);
  }
}
