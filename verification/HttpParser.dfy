/**
 The parser object of lib/http/request_parser.cpp and the chunked reading of
 lib/http/connection.cpp.
 */
module HttpParser {
  import opened HttpSpec

  class RequestParser {
    var state: State
    /** The request under construction, which the connection owns. */
    var request: Request

    function View(): Machine
      reads this
    {
      Machine(state, request)
    }

    predicate Valid()
      reads this
    {
      Sound(View())
    }

    constructor (major: nat, minor: nat)
      ensures View() == Ready(major, minor) && Valid()
    {
      state := MethodStart;
      request := Request([], [], major, minor, []);
    }

    method Consume(input: Char) returns (verdict: Verdict)
      requires Valid()
      modifies this
      ensures Valid()
      ensures Step(verdict, View()) == HttpSpec.Consume(old(View()), input)
    {
      match state {
        case MethodStart =>
          if !IsChar(input) || IsCtl(input) || IsTspecial(input) { return Bad; }
          state := Method;
          request := request.(verb := request.verb + [input]);
        case Method =>
          if input == SPACE {
            state := Uri;
          } else if !IsChar(input) || IsCtl(input) || IsTspecial(input) {
            return Bad;
          } else {
            request := request.(verb := request.verb + [input]);
          }
        case Uri =>
          if input == SPACE {
            state := VersionH;
          } else if IsCtl(input) {
            return Bad;
          } else {
            request := request.(uri := request.uri + [input]);
          }
        case VersionH =>
          if input != 72 { return Bad; }
          state := VersionT1;
        case VersionT1 =>
          if input != 84 { return Bad; }
          state := VersionT2;
        case VersionT2 =>
          if input != 84 { return Bad; }
          state := VersionP;
        case VersionP =>
          if input != 80 { return Bad; }
          state := VersionSlash;
        case VersionSlash =>
          if input != 47 { return Bad; }
          request := request.(major := 0, minor := 0);
          state := MajorStart;
        case MajorStart =>
          if !IsDigit(input) { return Bad; }
          request := request.(major := request.major * 10 + (input - 48));
          state := Major;
        case Major =>
          if input == DOT {
            state := MinorStart;
          } else if IsDigit(input) {
            request := request.(major := request.major * 10 + (input - 48));
          } else {
            return Bad;
          }
        case MinorStart =>
          if !IsDigit(input) { return Bad; }
          request := request.(minor := request.minor * 10 + (input - 48));
          state := Minor;
        case Minor =>
          if input == CR {
            state := ExpectingNewline1;
          } else if IsDigit(input) {
            request := request.(minor := request.minor * 10 + (input - 48));
          } else {
            return Bad;
          }
        case ExpectingNewline1 =>
          if input != LF { return Bad; }
          state := HeaderLineStart;
        case _ =>
          verdict := ConsumeHeader(input);
          return;
      }
      return Indeterminate;
    }

    /** The states from the first header line on. */
    method ConsumeHeader(input: Char) returns (verdict: Verdict)
      requires Valid()
      requires state == HeaderLineStart || InHeader(state) || state == ExpectingNewline3
      modifies this
      ensures Valid()
      ensures Step(verdict, View()) == HttpSpec.Consume(old(View()), input)
    {
      match state {
        case HeaderLineStart =>
          if input == CR {
            state := ExpectingNewline3;
          } else if |request.headers| != 0 && (input == SPACE || input == TAB) {
            state := HeaderLws;
          } else if !IsChar(input) || IsCtl(input) || IsTspecial(input) {
            return Bad;
          } else {
            request := request.(headers := request.headers + [Header([input], [])]);
            state := HeaderName;
          }
        case HeaderLws =>
          if input == CR {
            state := ExpectingNewline2;
          } else if input == SPACE || input == TAB {
            return Indeterminate;
          } else if IsCtl(input) {
            return Bad;
          } else {
            state := HeaderValue;
            request := WithValue(request, input);
          }
        case HeaderName =>
          if input == COLON {
            state := SpaceBeforeHeaderValue;
          } else if !IsChar(input) || IsCtl(input) || IsTspecial(input) {
            return Bad;
          } else {
            request := WithName(request, input);
          }
        case SpaceBeforeHeaderValue =>
          if input != SPACE { return Bad; }
          state := HeaderValue;
        case HeaderValue =>
          if input == CR {
            state := ExpectingNewline2;
          } else if IsCtl(input) {
            return Bad;
          } else {
            request := WithValue(request, input);
          }
        case ExpectingNewline2 =>
          if input != LF { return Bad; }
          state := HeaderLineStart;
        case _ =>
          return if input == LF then Good else Bad;
      }
      return Indeterminate;
    }

    /** parse: consumes characters until there is a verdict. */
    method Parse(text: Text) returns (verdict: Verdict, used: nat)
      requires Valid()
      modifies this
      ensures Valid()
      ensures Parsed(verdict, View(), used) == Feed(old(View()), text)
    {
      hide HttpSpec.Consume;
      used := 0;
      assert text[0..] == text;
      while used < |text|
        invariant 0 <= used <= |text| && Valid()
        invariant var p := Feed(View(), text[used..]);
                  Feed(old(View()), text) == p.(used := used + p.used)
      {
        assert text[used..][0] == text[used] && text[used..][1..] == text[used + 1..];
        verdict := Consume(text[used]);
        used := used + 1;
        if verdict == Good || verdict == Bad {
          return;
        }
      }
      assert text[used..] == [];
      verdict := Indeterminate;
    }
  }

  /** The reads of a connection: each chunk is parsed as it arrives, until there is a verdict. */
  method ReadRequest(parser: RequestParser, chunks: seq<Text>) returns (verdict: Verdict, used: nat)
    requires parser.Valid()
    modifies parser
    ensures parser.Valid()
    ensures Parsed(verdict, parser.View(), used) == Feed(old(parser.View()), Concat(chunks))
  {
    hide Feed;
    used := 0;
    assert chunks[0..] == chunks;
    ChunksDoNotMatter(parser.View(), chunks);
    var i := 0;
    while i < |chunks|
      invariant 0 <= i <= |chunks| && parser.Valid()
      invariant var p := FeedChunks(parser.View(), chunks[i..]);
                FeedChunks(old(parser.View()), chunks) == p.(used := used + p.used)
    {
      assert chunks[i..][0] == chunks[i] && chunks[i..][1..] == chunks[i + 1..];
      var n;
      verdict, n := parser.Parse(chunks[i]);
      used := used + n;
      i := i + 1;
      if verdict != Indeterminate {
        return;
      }
    }
    assert chunks[i..] == [];
    verdict := Indeterminate;
  }
}
