/** The byte-by-byte machine of request_parser.cc and the loop that drives it
    (request_handler.h), as functions. */
module RequestMachine {
  import opened Basics
  import opened RequestGrammar
  import opened Runs

  datatype State =
    | MethodStart | Method | UriStart | Uri
    | HttpVersionH | HttpVersionT1 | HttpVersionT2 | HttpVersionP | HttpVersionSlash
    | MajorStart | Major | MinorStart | Minor
    | ExpectingNewline1
    | HeaderLineStart | HeaderLws | HeaderName | SpaceBeforeHeaderValue | HeaderValue
    | ExpectingNewline2 | ExpectingNewline3

  /** Where a byte leads: on to a state, to the end of the request, or nowhere. */
  datatype Move = Go(next: State) | Done | Bad

  function When(ok: bool, next: State): Move {
    if ok then Go(next) else Bad
  }

  /** The control of the machine; `some` says whether the request has a header already. */
  function Next(q: State, c: char, some: bool): Move {
    match q
    case MethodStart => When(IsTokenChar(c), Method)
    case Method => if c == ' ' then Go(Uri) else When(IsTokenChar(c), Method)
    case UriStart => When(!IsCtl(c), Uri)
    case Uri => if c == ' ' then Go(HttpVersionH) else When(!IsCtl(c), Uri)
    case HttpVersionH => When(c == 'H', HttpVersionT1)
    case HttpVersionT1 => When(c == 'T', HttpVersionT2)
    case HttpVersionT2 => When(c == 'T', HttpVersionP)
    case HttpVersionP => When(c == 'P', HttpVersionSlash)
    case HttpVersionSlash => When(c == '/', MajorStart)
    case MajorStart => When(IsDigit(c), Major)
    case Major => if c == '.' then Go(MinorStart) else When(IsDigit(c), Major)
    case MinorStart => When(IsDigit(c), Minor)
    case Minor => if c == '\r' then Go(ExpectingNewline1) else When(IsDigit(c), Minor)
    case ExpectingNewline1 => When(c == '\n', HeaderLineStart)
    case HeaderLineStart =>
      if c == '\r' then Go(ExpectingNewline3)
      else if some && IsLws(c) then Go(HeaderLws)
      else When(IsTokenChar(c), HeaderName)
    case HeaderLws =>
      if c == '\r' then Go(ExpectingNewline2)
      else if IsLws(c) then Go(HeaderLws)
      else When(!IsCtl(c), HeaderValue)
    case HeaderName => if c == ':' then Go(SpaceBeforeHeaderValue) else When(IsTokenChar(c), HeaderName)
    case SpaceBeforeHeaderValue => When(c == ' ', HeaderValue)
    case HeaderValue => if c == '\r' then Go(ExpectingNewline2) else When(!IsCtl(c), HeaderValue)
    case ExpectingNewline2 => When(c == '\n', HeaderLineStart)
    case ExpectingNewline3 => if c == '\n' then Done else Bad
  }

  /** The last header exists wherever the code calls back() on the headers, and where the
      next byte can lead there. */
  predicate BackDefined(q: State, r: Request) {
    q == HeaderLws || q == HeaderName || q == SpaceBeforeHeaderValue || q == HeaderValue ==> r.headers != []
  }

  function PushName(r: Request, c: char): Request
    requires r.headers != []
  {
    var n := |r.headers| - 1;
    r.(headers := r.headers[n := (r.headers[n].0 + [c], r.headers[n].1)])
  }

  function PushValue(r: Request, c: char): Request
    requires r.headers != []
  {
    var n := |r.headers| - 1;
    r.(headers := r.headers[n := (r.headers[n].0, r.headers[n].1 + [c])])
  }

  /** What an accepted byte adds to the request. */
  function Push(q: State, c: char, r: Request): Request
    requires BackDefined(q, r)
  {
    match q
    case MethodStart => r.(verb := r.verb + [c])
    case Method => if c == ' ' then r else r.(verb := r.verb + [c])
    case UriStart => r.(uri := r.uri + [c])
    case Uri => if c == ' ' then r else r.(uri := r.uri + [c])
    case HeaderLineStart =>
      if c == '\r' || (r.headers != [] && IsLws(c)) then r else r.(headers := r.headers + [([c], "")])
    case HeaderLws => if c == '\r' || IsLws(c) then r else PushValue(r, c)
    case HeaderName => if c == ':' then r else PushName(r, c)
    case HeaderValue => if c == '\r' then r else PushValue(r, c)
    case _ => r
  }

  /** The parser's state and the request it fills, with back() defined where it is called. */
  datatype Config = Config(state: State, request: Request)

  type Live = p: Config | BackDefined(p.state, p.request) witness Config(MethodStart, EMPTY_REQUEST)

  const FRESH: Live := Config(MethodStart, EMPTY_REQUEST)

  /** One call of consume.  In every state it reaches, back() is again defined. */
  function Consume(p: Live, c: char): Turn<Live> {
    match Next(p.state, c, p.request.headers != [])
    case Done => Stop(true)
    case Bad => Stop(false)
    case Go(next) => Continue(Config(next, Push(p.state, c, p.request)))
  }

  /** What a call of parse does. */
  function Parse(p: Live, data: string): Outcome<Live> {
    Drive(Consume, p, data)
  }

  /** Two calls of parse on the pieces of an input do what one call on the whole does. */
  lemma ParseIsIncremental(p: Live, a: string, b: string)
    ensures var first := Parse(p, a);
            Parse(p, a + b)
            == if first.verdict != Indeterminate then first
               else var second := Parse(first.left, b);
                    second.(consumed := |a| + second.consumed)
  {
    DriveIsIncremental(Consume, p, a, b);
  }
}
