/** The language that the states of request_parser.cc encode, as derivations: a request line,
    header fields with folded continuation lines, and a blank line.  A derivation has a text, the
    bytes that it stands for, and a request, what a server is to hold after reading them; lists grow
    at their end, because that is where the parser adds to them. */
module RequestGrammar {
  import opened Digits

  /** Codes of 128 and above play the part of the bytes that are negative as a signed char:
      they are neither characters nor control characters. */
  predicate IsChar(c: char) {
    c as int <= 127
  }

  predicate IsCtl(c: char) {
    c as int <= 31 || c as int == 127
  }

  predicate IsTspecial(c: char) {
    match c
    case '(' | ')' | '<' | '>' | '@' | ',' | ';' | ':' | '\\' | '"'
       | '/' | '[' | ']' | '?' | '=' | '{' | '}' | ' ' | '\t' => true
    case _ => false
  }

  predicate IsTokenChar(c: char) {
    IsChar(c) && !IsCtl(c) && !IsTspecial(c)
  }

  predicate IsUriChar(c: char) {
    !IsCtl(c) && c != ' '
  }

  predicate IsLws(c: char) {
    c == ' ' || c == '\t'
  }

  ghost predicate TokenText(s: string) {
    forall i :: 0 <= i < |s| ==> IsTokenChar(s[i])
  }

  ghost predicate UriText(s: string) {
    forall i :: 0 <= i < |s| ==> IsUriChar(s[i])
  }

  ghost predicate LwsText(s: string) {
    forall i :: 0 <= i < |s| ==> IsLws(s[i])
  }

  ghost predicate ValueText(s: string) {
    forall i :: 0 <= i < |s| ==> !IsCtl(s[i])
  }

  /** A list that grows at its end. */
  datatype List<T> = Empty | Add(init: List<T>, last: T)

  /** A continuation line: blanks, then text that starts with none. */
  datatype Fold = Fold(lws: string, text: string)

  datatype Field = Field(name: string, first: string, folds: List<Fold>)

  datatype Derivation = Derivation(verb: string, uri: string, major: string, minor: string, fields: List<Field>)

  const CRLF := "\r\n"

  ghost predicate GoodFold(f: Fold) {
    f.lws != "" && LwsText(f.lws) && ValueText(f.text) && (f.text != "" ==> !IsLws(f.text[0]))
  }

  ghost predicate GoodFolds(fs: List<Fold>) {
    fs.Add? ==> GoodFolds(fs.init) && GoodFold(fs.last)
  }

  ghost predicate GoodField(f: Field) {
    f.name != "" && TokenText(f.name) && ValueText(f.first) && GoodFolds(f.folds)
  }

  ghost predicate GoodFields(fs: List<Field>) {
    fs.Add? ==> GoodFields(fs.init) && GoodField(fs.last)
  }

  /** The well-formed derivations.  The URI may be empty and a field may have no value. */
  ghost predicate Good(d: Derivation) {
    && d.verb != "" && TokenText(d.verb)
    && UriText(d.uri)
    && d.major != "" && AllDigits(d.major)
    && d.minor != "" && AllDigits(d.minor)
    && GoodFields(d.fields)
  }

  function FoldsText(fs: List<Fold>): string {
    match fs
    case Empty => ""
    case Add(init, f) => FoldsText(init) + CRLF + f.lws + f.text
  }

  /** A field without the line end that closes it. */
  function FieldText(f: Field): string {
    f.name + ": " + f.first + FoldsText(f.folds)
  }

  function FieldsText(fs: List<Field>): string {
    match fs
    case Empty => ""
    case Add(init, f) => FieldsText(init) + FieldText(f) + CRLF
  }

  function HeadText(verb: string, uri: string, major: string, minor: string): string {
    verb + " " + uri + " HTTP/" + major + "." + minor + CRLF
  }

  /** The bytes that a derivation stands for. */
  function Text(d: Derivation): string {
    HeadText(d.verb, d.uri, d.major, d.minor) + (FieldsText(d.fields) + CRLF)
  }

  // ---------- What a derivation means ----------

  function FoldsValue(fs: List<Fold>): string {
    match fs
    case Empty => ""
    case Add(init, f) => FoldsValue(init) + f.text
  }

  /** Name and unfolded value: the line ends and the blanks that start continuation lines go. */
  function HeaderOf(f: Field): (string, string) {
    (f.name, f.first + FoldsValue(f.folds))
  }

  function HeadersOf(fs: List<Field>): seq<(string, string)> {
    match fs
    case Empty => []
    case Add(init, f) => HeadersOf(init) + [HeaderOf(f)]
  }

  datatype Request = Request(verb: string, uri: string, headers: seq<(string, string)>)

  const EMPTY_REQUEST := Request("", "", [])

  function RequestOf(d: Derivation): Request {
    Request(d.verb, d.uri, HeadersOf(d.fields))
  }
}
