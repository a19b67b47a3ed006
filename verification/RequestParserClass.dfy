/** HttpRequest and request_parser as objects that update in place (request_handler.h,
    request_parser.cc), proved against the functions of RequestMachine. */
module RequestParserClass {
  import opened Basics
  import opened RequestGrammar
  import opened RequestMachine
  import opened Runs

  class HttpRequest {
    var rawRequest: string
    var verb: string
    var uri: string
    var version: string
    var headers: seq<(string, string)>
    var body: string

    constructor ()
      ensures Value() == EMPTY_REQUEST
    {
      rawRequest, verb, uri, version, headers, body := "", "", "", "", [], "";
    }

    function Value(): Request
      reads this
    {
      Request(verb, uri, headers)
    }

    /** A new header whose name starts with c. */
    method PushBackHeader(c: char)
      modifies this`headers
      ensures Value() == Request(verb, uri, old(headers) + [([c], "")])
    {
      ghost var before := headers;
      headers := headers + [("", "")];
      PushBackFirst(c);
      assert "" + [c] == [c];
      assert headers == before + [([c], "")];
    }

    method PushBackFirst(c: char)
      requires headers != []
      modifies this`headers
      ensures Value() == PushName(old(Value()), c) && headers != []
    {
      var n := |headers| - 1;
      headers := headers[n := (headers[n].0 + [c], headers[n].1)];
    }

    method PushBackSecond(c: char)
      requires headers != []
      modifies this`headers
      ensures Value() == PushValue(old(Value()), c) && headers != []
    {
      var n := |headers| - 1;
      headers := headers[n := (headers[n].0, headers[n].1 + [c])];
    }
  }

  class RequestParser {
    var state: State

    constructor ()
      ensures state == MethodStart
    {
      state := MethodStart;
    }

    method Reset()
      modifies this
      ensures state == MethodStart
    {
      state := MethodStart;
    }

    /** Handles one byte: a byte that is not accepted changes nothing. */
    method ConsumeByte(req: HttpRequest, input: char) returns (r: Tribool)
      requires BackDefined(state, req.Value())
      modifies this, req`verb, req`uri, req`headers
      ensures BackDefined(state, req.Value())
      ensures match Consume(Config(old(state), old(req.Value())), input)
              case Stop(accept) =>
                r == (if accept then True else False) && state == old(state) && req.Value() == old(req.Value())
              case Continue(p) =>
                r == Indeterminate && Config(state, req.Value()) == p
    {
      hide IsTspecial;
      r := Indeterminate;
      match state
      case MethodStart =>
        if !IsChar(input) || IsCtl(input) || IsTspecial(input) { return False; }
        state := Method;
        req.verb := req.verb + [input];
      case Method =>
        if input == ' ' {
          state := Uri;
        } else if !IsChar(input) || IsCtl(input) || IsTspecial(input) {
          return False;
        } else {
          req.verb := req.verb + [input];
        }
      case UriStart =>
        if IsCtl(input) { return False; }
        state := Uri;
        req.uri := req.uri + [input];
      case Uri =>
        if input == ' ' {
          state := HttpVersionH;
        } else if IsCtl(input) {
          return False;
        } else {
          req.uri := req.uri + [input];
        }
      case HttpVersionH =>
        if input == 'H' { state := HttpVersionT1; } else { return False; }
      case HttpVersionT1 =>
        if input == 'T' { state := HttpVersionT2; } else { return False; }
      case HttpVersionT2 =>
        if input == 'T' { state := HttpVersionP; } else { return False; }
      case HttpVersionP =>
        if input == 'P' { state := HttpVersionSlash; } else { return False; }
      case HttpVersionSlash =>
        if input == '/' { state := MajorStart; } else { return False; }
      case MajorStart =>
        if IsDigit(input) { state := Major; } else { return False; }
      case Major =>
        if input == '.' { state := MinorStart; } else if !IsDigit(input) { return False; }
      case MinorStart =>
        if IsDigit(input) { state := Minor; } else { return False; }
      case Minor =>
        if input == '\r' { state := ExpectingNewline1; } else if !IsDigit(input) { return False; }
      case ExpectingNewline1 =>
        if input == '\n' { state := HeaderLineStart; } else { return False; }
      case HeaderLineStart =>
        if input == '\r' {
          state := ExpectingNewline3;
        } else if req.headers != [] && (input == ' ' || input == '\t') {
          state := HeaderLws;
        } else if !IsChar(input) || IsCtl(input) || IsTspecial(input) {
          return False;
        } else {
          req.PushBackHeader(input);
          state := HeaderName;
        }
      case HeaderLws =>
        if input == '\r' {
          state := ExpectingNewline2;
        } else if input == ' ' || input == '\t' {
        } else if IsCtl(input) {
          return False;
        } else {
          state := HeaderValue;
          req.PushBackSecond(input);
        }
      case HeaderName =>
        if input == ':' {
          state := SpaceBeforeHeaderValue;
        } else if !IsChar(input) || IsCtl(input) || IsTspecial(input) {
          return False;
        } else {
          req.PushBackFirst(input);
        }
      case SpaceBeforeHeaderValue =>
        if input == ' ' { state := HeaderValue; } else { return False; }
      case HeaderValue =>
        if input == '\r' {
          state := ExpectingNewline2;
        } else if IsCtl(input) {
          return False;
        } else {
          req.PushBackSecond(input);
        }
      case ExpectingNewline2 =>
        if input == '\n' { state := HeaderLineStart; } else { return False; }
      case ExpectingNewline3 =>
        return if input == '\n' then True else False;
    }

    /** Parses until a verdict or the end of the data; begin is the number of bytes consumed. */
    method ParseData(req: HttpRequest, data: string) returns (result: Tribool, begin: nat)
      requires BackDefined(state, req.Value())
      modifies this, req`verb, req`uri, req`headers
      ensures BackDefined(state, req.Value())
      ensures Outcome(result, Config(state, req.Value()), begin)
              == Parse(Config(old(state), old(req.Value())), data)
    {
      ghost var goal := Parse(Config(state, req.Value()), data);
      begin := 0;
      while begin != |data|
        invariant begin <= |data|
        invariant BackDefined(state, req.Value())
        invariant var rest := Parse(Config(state, req.Value()), data[begin..]);
                  goal == rest.(consumed := begin + rest.consumed)
        decreases |data| - begin
      {
        var c := data[begin];
        assert data[begin..][1..] == data[begin + 1..];
        begin := begin + 1;
        result := ConsumeByte(req, c);
        if result == True || result == False {
          return result, begin;
        }
      }
      result := Indeterminate;
    }
  }
}
