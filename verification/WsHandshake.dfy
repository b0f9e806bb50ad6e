/** The opening handshake, sections 4.1 and 4.2.2 of RFC 6455: printing and parsing the request and the response. */
module WsHandshake {

  const MAGIC := "258EAFA5-E914-47DA-95CA-C5AB0DC85B11"
  const KEY_HEADER := "Sec-WebSocket-Key"
  const ACCEPT_HEADER := "Sec-WebSocket-Accept"

  // ---- std::string::find and std::getline ----

  /** The first position of `c` at or behind `from`; none is the string's length (`npos` in the source). */
  function Find(s: string, c: char, from: nat): (i: nat)
    requires from <= |s|
    ensures from <= i <= |s|
    ensures i < |s| ==> s[i] == c
    ensures forall j | from <= j < i :: s[j] != c
    decreases |s| - from
  {
    if from == |s| || s[from] == c then from else Find(s, c, from + 1)
  }

  lemma {:induction false} FoundAt(s: string, c: char, from: nat, n: nat)
    requires from <= n <= |s| && (n < |s| ==> s[n] == c) && forall j | from <= j < n :: s[j] != c
    ensures Find(s, c, from) == n
    decreases n - from
  {
  }

  /** An input stream over a buffer; `eof` is set once a read has run into its end. */
  datatype Stream = Stream(rest: string, eof: bool)

  /** `getline`: the line read, which stays as it was when the stream is already at its end. */
  function Line(st: Stream, line: string): string {
    if st.eof then line else st.rest[..Find(st.rest, '\n', 0)]
  }

  function AfterLine(st: Stream): Stream {
    if st.eof then st
    else
      var i := Find(st.rest, '\n', 0);
      if i < |st.rest| then Stream(st.rest[i + 1..], false) else Stream("", true)
  }

  // ---- header lines ----

  type Headers = map<string, string>

  /** `header.insert`: the first value for a name stays. The value loses its last character, the carriage return. */
  function AddHeader(h: Headers, line: string): Headers
    requires ':' in line
  {
    var end := Find(line, ':', 0);
    var start := if end + 1 < |line| && line[end + 1] == ' ' then end + 2 else end + 1;
    if start < |line| then Insert(h, line[..end], line[start..|line| - 1]) else h
  }

  function Insert(h: Headers, name: string, value: string): Headers {
    if name in h then h else h[name := value]
  }

  /** What the header loop does from a stream on: it ends at the first line without a colon, or never. */
  datatype Loop = Ends(headers: Headers, stream: Stream) | Hangs

  function HeaderLoop(st: Stream, line: string, h: Headers): Loop
    decreases if st.eof then 0 else 1 + |st.rest|
  {
    if ':' !in line then Ends(h, st)
    else if st.eof then Hangs
    else HeaderLoop(AfterLine(st), Line(st, line), AddHeader(h, line))
  }

  // ---- the server's parser ----

  datatype Request = Request(verb: string, path: string, version: string, headers: Headers)

  datatype Parsed = Parsed(request: Request, stream: Stream) | NeverReturns

  /** The request line: verb, path and version, if it has two spaces. */
  function RequestLine(line: string): seq<string> {
    var verbEnd := Find(line, ' ', 0);
    if verbEnd == |line| then []
    else
      var pathEnd := Find(line, ' ', verbEnd + 1);
      if pathEnd == |line| then []
      else [line[..verbEnd], line[verbEnd + 1..pathEnd],
            if pathEnd + 6 < |line| then line[pathEnd + 6..|line| - 1] else "1.1"]
  }

  /** `parse_handshake` of the server; without a proper request line it looks no further. */
  function ParseRequest(st: Stream): Parsed {
    var line, st1 := Line(st, ""), AfterLine(st);
    var parts := RequestLine(line);
    if parts == [] then Parsed(Request("", "", "", map[]), st1)
    else
      match HeaderLoop(AfterLine(st1), Line(st1, line), map[])
      case Ends(h, st2) => Parsed(Request(parts[0], parts[1], parts[2], h), st2)
      case Hangs => NeverReturns
  }

  /** `parse_handshake` of the client: the status line is skipped. */
  function ParseResponse(st: Stream): Loop {
    var line, st1 := Line(st, ""), AfterLine(st);
    HeaderLoop(AfterLine(st1), Line(st1, line), map[])
  }

  // ---- the printed messages ----

  function Print(lines: seq<string>): string {
    if lines == [] then "" else lines[0] + "\r\n" + Print(lines[1..])
  }

  function HeaderLines(fields: seq<(string, string)>): seq<string> {
    if fields == [] then [] else [fields[0].0 + ": " + fields[0].1] + HeaderLines(fields[1..])
  }

  function RequestFields(host: string, key: string): seq<(string, string)> {
    [("Host", host), ("Upgrade", "websocket"), ("Connection", "Upgrade"), (KEY_HEADER, key),
     ("Sec-WebSocket-Version", "13")]
  }

  function RequestText(path: string, host: string, key: string): string {
    Print([PrintedRequestLine(path)] + HeaderLines(RequestFields(host, key)) + [""])
  }

  function ResponseFields(accept: string): seq<(string, string)> {
    [("Upgrade", "websocket"), ("Connection", "Upgrade"), (ACCEPT_HEADER, accept)]
  }

  function ResponseText(accept: string): string {
    Print([StatusLine()] + HeaderLines(ResponseFields(accept)) + [""])
  }

  function StatusLine(): string {
    "HTTP/1.1 101 Web Socket Protocol Handshake"
  }

  /** What a parser is to recover: each name with its first value. */
  function FirstWins(h: Headers, fields: seq<(string, string)>): Headers
    decreases |fields|
  {
    if fields == [] then h else FirstWins(Insert(h, fields[0].0, fields[0].1), fields[1..])
  }

  ghost predicate Printable(fields: seq<(string, string)>) {
    forall i | 0 <= i < |fields| :: ':' !in fields[i].0 && '\n' !in fields[i].0 && '\n' !in fields[i].1
  }

  // ---- recovering printed headers ----

  lemma LinePrinted(line: string, before: string, rest: string)
    requires '\n' !in line
    ensures Line(Stream(line + "\r\n" + rest, false), before) == line + "\r"
    ensures AfterLine(Stream(line + "\r\n" + rest, false)) == Stream(rest, false)
  {
    var s := line + "\r\n" + rest;
    assert s[|line| + 1] == '\n';
    assert forall j | 0 <= j < |line| :: s[j] == line[j];
    FoundAt(s, '\n', 0, |line| + 1);
    assert s[..|line| + 1] == line + "\r" && s[|line| + 2..] == rest;
  }

  lemma HeaderPrinted(h: Headers, name: string, value: string)
    requires ':' !in name
    ensures var line := name + ": " + value + "\r"; ':' in line && AddHeader(h, line) == Insert(h, name, value)
  {
    var line := name + ": " + value + "\r";
    assert line[|name|] == ':' && line[|name| + 1] == ' ';
    assert forall j | 0 <= j < |name| :: line[j] == name[j];
    FoundAt(line, ':', 0, |name|);
    assert line[..|name|] == name && line[|name| + 2..|line| - 1] == value;
  }

  lemma ColonAt(name: string, rest: string)
    requires ':' !in name
    ensures var line := name + ":" + rest; ':' in line && Find(line, ':', 0) == |name| && line[..|name|] == name
  {
    var line := name + ":" + rest;
    assert line[|name|] == ':';
    assert forall j | 0 <= j < |name| :: line[j] == name[j];
    FoundAt(line, ':', 0, |name|);
  }

  /**
   * Behind the colon one space is dropped, and no other; an empty value is a value, but a line cut off there is not.
   */
  lemma HeaderForms(h: Headers, name: string, value: string)
    requires ':' !in name && name !in h
    ensures ':' in name + ":" + (" " + value + "\r")
    ensures AddHeader(h, name + ":" + (" " + value + "\r")) == h[name := value]
    ensures (value == "" || value[0] != ' ') ==>
      ':' in name + ":" + (value + "\r") && AddHeader(h, name + ":" + (value + "\r")) == h[name := value]
  {
    ColonAt(name, " " + value + "\r");
    ColonAt(name, value + "\r");
    var n, spaced, plain := |name|, name + ":" + (" " + value + "\r"), name + ":" + (value + "\r");
    assert spaced[n + 1] == ' ' && spaced[n + 2..|spaced| - 1] == value;
    assert plain[n + 1..|plain| - 1] == value && plain[n + 1] == (value + "\r")[0];
    hide Find;
  }

  lemma HeaderCutOff(h: Headers, name: string)
    requires ':' !in name
    ensures ':' in name + ":" + "" && AddHeader(h, name + ":" + "") == h
    ensures ':' in name + ":" + " " && AddHeader(h, name + ":" + " ") == h
  {
    ColonAt(name, "");
    ColonAt(name, " ");
    hide Find;
  }

  /** Any printed header block is recovered, first duplicate first, and exactly what follows the blank line is left. */
  lemma {:induction false} HeadersRoundTrip(fields: seq<(string, string)>, h: Headers, before: string, leftover: string)
    requires Printable(fields)
    ensures var st := Stream(Print(HeaderLines(fields) + [""]) + leftover, false);
      HeaderLoop(AfterLine(st), Line(st, before), h) == Ends(FirstWins(h, fields), Stream(leftover, false))
    decreases |fields|
  {
    if fields == [] {
      assert HeaderLines(fields) + [""] == [""];
      assert [""][1..] == [];
      assert Print([""]) + leftover == "" + "\r\n" + leftover;
      LinePrinted("", before, leftover);
    } else {
      var text := fields[0].0 + ": " + fields[0].1;
      var rest := Print(HeaderLines(fields[1..]) + [""]);
      assert (HeaderLines(fields) + [""])[1..] == HeaderLines(fields[1..]) + [""];
      assert Print(HeaderLines(fields) + [""]) + leftover == text + "\r\n" + (rest + leftover);
      LinePrinted(text, before, rest + leftover);
      HeaderPrinted(h, fields[0].0, fields[0].1);
      HeadersRoundTrip(fields[1..], Insert(h, fields[0].0, fields[0].1), text + "\r", leftover);
    }
  }

  /** `i` is the first field called `name`; none is the number of fields. */
  ghost predicate FirstNamed(fields: seq<(string, string)>, name: string, i: nat) {
    i <= |fields| && (forall j | 0 <= j < i :: fields[j].0 != name) && (i < |fields| ==> fields[i].0 == name)
  }

  /** Each name has the value of its first field; no other name is there. */
  lemma {:induction false} FirstValue(h: Headers, fields: seq<(string, string)>, name: string, i: nat)
    requires FirstNamed(fields, name, i)
    ensures name in FirstWins(h, fields) <==> name in h || i < |fields|
    ensures name in FirstWins(h, fields) ==>
      FirstWins(h, fields)[name] == if name in h then h[name] else fields[i].1
    decreases |fields|
  {
    if fields == [] {
    } else {
      var rest := if i == 0 then FirstAfter(fields[1..], name) else i - 1;
      FirstAfterFound(fields[1..], name);
      FirstValue(Insert(h, fields[0].0, fields[0].1), fields[1..], name, rest);
    }
  }

  ghost function FirstAfter(fields: seq<(string, string)>, name: string): nat {
    if fields == [] || fields[0].0 == name then 0 else 1 + FirstAfter(fields[1..], name)
  }

  lemma {:induction false} FirstAfterFound(fields: seq<(string, string)>, name: string)
    ensures FirstNamed(fields, name, FirstAfter(fields, name))
  {
    if fields == [] || fields[0].0 == name {
    } else {
      FirstAfterFound(fields[1..], name);
    }
  }

  lemma FirstLinePrinted(line: string, fields: seq<(string, string)>, leftover: string)
    requires '\n' !in line
    ensures var st := Stream(Print([line] + HeaderLines(fields) + [""]) + leftover, false);
      && Line(st, "") == line + "\r"
      && AfterLine(st) == Stream(Print(HeaderLines(fields) + [""]) + leftover, false)
  {
    var lines := [line] + HeaderLines(fields) + [""];
    var rest := Print(HeaderLines(fields) + [""]);
    assert lines[0] == line && lines[1..] == HeaderLines(fields) + [""];
    assert Print(lines) + leftover == line + "\r\n" + (rest + leftover);
    LinePrinted(line, "", rest + leftover);
  }

  // ---- when the header loops end ----

  /** `s[a..b]` is a line of `s`: it reaches from one line feed, or the start, to the next one, or the end. */
  ghost predicate IsLine(s: string, a: int, b: int) {
    && 0 <= a <= b <= |s| && '\n' !in s[a..b]
    && (a == 0 || s[a - 1] == '\n') && (b == |s| || s[b] == '\n')
  }

  ghost predicate AllLinesHaveColons(s: string) {
    forall a, b | IsLine(s, a, b) :: ':' in s[a..b]
  }

  lemma Shifted(s: string, k: nat, a: int, b: int)
    requires 0 <= a <= b && k + b <= |s|
    ensures s[k..][a..b] == s[k + a..k + b]
  {
  }

  /** A line of what follows the first line feed is a line of the text. */
  lemma LineOfRest(s: string, rest: string, i: nat, a: int, b: int)
    requires i < |s| && s[i] == '\n' && rest == s[i + 1..] && IsLine(rest, a, b)
    ensures IsLine(s, i + 1 + a, i + 1 + b) && s[i + 1 + a..i + 1 + b] == rest[a..b]
  {
    Shifted(s, i + 1, a, b);
  }

  /** A line of the text is its first line, or a line of what follows. */
  lemma LineOfAll(s: string, i: nat, a: int, b: int)
    requires i == Find(s, '\n', 0) && IsLine(s, a, b)
    ensures if a == 0 then b == i
      else i < a && IsLine(s[i + 1..], a - i - 1, b - i - 1) && s[i + 1..][a - i - 1..b - i - 1] == s[a..b]
  {
    if a == 0 {
      LineEnd(s, b, i);
    } else {
      Shifted(s, i + 1, a - i - 1, b - i - 1);
    }
  }

  lemma LineEnd(s: string, b: nat, i: nat)
    requires b <= |s| && i <= |s| && '\n' !in s[0..b] && (i < |s| ==> s[i] == '\n')
    ensures b <= i
  {
  }

  lemma ColonsSplit(s: string, i: nat)
    requires i == Find(s, '\n', 0)
    ensures AllLinesHaveColons(s) <==> ':' in s[..i] && (i < |s| ==> AllLinesHaveColons(s[i + 1..]))
  {
    assert s[0..i] == s[..i] && IsLine(s, 0, i);
    if AllLinesHaveColons(s) && i < |s| {
      var rest := s[i + 1..];
      forall a, b | IsLine(rest, a, b) ensures ':' in rest[a..b] {
        LineOfRest(s, rest, i, a, b);
      }
    }
    if ':' in s[..i] && (i < |s| ==> AllLinesHaveColons(s[i + 1..])) {
      hide IsLine;
      forall a, b | IsLine(s, a, b) ensures ':' in s[a..b] {
        LineOfAll(s, i, a, b);
      }
    }
  }

  /**
   * From a text on, the header loop runs for ever if and only if every line of the text, an unfinished last one
   * included, has a colon.
   */
  lemma {:induction false} LoopHangsExactly(s: string, before: string, h: Headers)
    ensures HeaderLoop(AfterLine(Stream(s, false)), Line(Stream(s, false), before), h).Hangs? <==> AllLinesHaveColons(s)
    decreases |s|
  {
    var i := Find(s, '\n', 0);
    var line := s[..i];
    ColonsSplit(s, i);
    var st := Stream(s, false);
    assert Line(st, before) == line;
    assert AfterLine(st) == if i < |s| then Stream(s[i + 1..], false) else Stream("", true);
    hide AllLinesHaveColons, AddHeader, Find, Line, AfterLine;
    if ':' in line && i < |s| {
      LoopHangsExactly(s[i + 1..], line, AddHeader(h, line));
    }
  }

  /** `async_read_until` has found the end of the header. */
  predicate BlankLineAt(s: string, p: int) {
    0 <= p && p + 4 <= |s| && s[p] == '\r' && s[p + 1] == '\n' && s[p + 2] == '\r' && s[p + 3] == '\n'
  }

  /**
   * Both parsers run only when the end of the header was found; then they return, well-formed as the input may be or
   * not.
   */
  lemma ParsersReturn(s: string, p: int)
    requires BlankLineAt(s, p)
    ensures ParseRequest(Stream(s, false)).Parsed? && ParseResponse(Stream(s, false)).Ends?
  {
    var st, i := Stream(s, false), Find(s, '\n', 0);
    var rest := s[i + 1..];
    assert i <= p + 1;
    BlankStops(rest, p + 1 - i);
    LoopHangsExactly(rest, Line(st, ""), map[]);
  }

  lemma BlankStops(s: string, a: int)
    requires 0 <= a && a + 2 <= |s| && s[a] == '\r' && s[a + 1] == '\n' && (a == 0 || s[a - 1] == '\n')
    ensures !AllLinesHaveColons(s)
  {
    assert s[a..a + 1] == ['\r'];
    assert IsLine(s, a, a + 1);
  }

  // ---- the request ----

  function PrintedRequestLine(path: string): string {
    "GET " + path + " HTTP/1.1"
  }

  lemma RequestLineRoundTrip(path: string)
    requires ' ' !in path
    ensures RequestLine(PrintedRequestLine(path) + "\r") == ["GET", path, "1.1"]
  {
    var line, n := PrintedRequestLine(path) + "\r", |path|;
    assert line[..3] == "GET" && line[3] == ' ' && line[4 + n] == ' ';
    assert forall j | 0 <= j < 3 :: line[j] == "GET"[j];
    assert forall j | 4 <= j < 4 + n :: line[j] == path[j - 4];
    FoundAt(line, ' ', 0, 3);
    FoundAt(line, ' ', 4, 4 + n);
    assert line[4..4 + n] == path && line[n + 10..n + 13] == "1.1";
  }

  lemma SpaceAt(before: string, word: string, rest: string)
    requires ' ' !in word
    ensures Find(before + word + " " + rest, ' ', |before|) == |before| + |word|
    ensures Find(before + word, ' ', |before|) == |before + word|
  {
    var line := before + word + " " + rest;
    assert forall j | |before| <= j < |before| + |word| :: line[j] == word[j - |before|];
    FoundAt(line, ' ', |before|, |before| + |word|);
    assert forall j | |before| <= j < |before| + |word| :: (before + word)[j] == word[j - |before|];
    FoundAt(before + word, ' ', |before|, |before + word|);
  }

  /** Any request line: verb and path up to the spaces, the version behind "HTTP/" or 1.1 if the line is too short. */
  lemma AnyRequestLine(verb: string, path: string, rest: string)
    requires ' ' !in verb && ' ' !in path
    ensures RequestLine(verb + " " + path + " " + rest)
         == [verb, path, if |rest| > 5 then rest[5..|rest| - 1] else "1.1"]
  {
    hide Find;
    var line := verb + " " + path + " " + rest;
    assert Find(line, ' ', 0) == |verb| by {
      assert "" + verb + " " + (path + " " + rest) == line;
      SpaceAt("", verb, path + " " + rest);
    }
    assert Find(line, ' ', |verb| + 1) == |verb| + 1 + |path| by {
      SpaceAt(verb + " ", path, rest);
    }
    ThreeParts(verb, path, rest);
  }

  lemma ThreeParts(verb: string, path: string, rest: string)
    ensures var line, v, n := verb + " " + path + " " + rest, |verb|, |path|;
      && |line| == v + n + 2 + |rest| && line[..v] == verb && line[v + 1..v + 1 + n] == path
      && (|rest| > 5 ==> line[v + n + 7..|line| - 1] == rest[5..|rest| - 1])
  {
  }

  /** A line without two spaces is no request line. */
  lemma NoRequestLine(verb: string, path: string)
    requires ' ' !in verb && ' ' !in path
    ensures RequestLine(verb) == [] && RequestLine(verb + " " + path) == []
  {
    assert "" + verb == verb && "" + verb + " " + path == verb + " " + path;
    SpaceAt("", verb, path);
    SpaceAt(verb + " ", path, "");
    hide Find;
  }

  /** Any request with a proper request line is parsed back, whatever its headers. */
  lemma PrintedRequestParsed(line: string, fields: seq<(string, string)>, leftover: string)
    requires '\n' !in line && Printable(fields) && RequestLine(line + "\r") != []
    ensures var parts := RequestLine(line + "\r");
      ParseRequest(Stream(Print([line] + HeaderLines(fields) + [""]) + leftover, false))
      == Parsed(Request(parts[0], parts[1], parts[2], FirstWins(map[], fields)), Stream(leftover, false))
  {
    hide RequestLine;
    FirstLinePrinted(line, fields, leftover);
    HeadersRoundTrip(fields, map[], line + "\r", leftover);
  }

  /** Every request the client prints is parsed back whole, and what follows it stays in the buffer untouched. */
  lemma RequestRoundTrip(path: string, host: string, key: string, leftover: string)
    requires ' ' !in path && '\n' !in path && '\n' !in host && '\n' !in key
    ensures ParseRequest(Stream(RequestText(path, host, key) + leftover, false))
         == Parsed(Request("GET", path, "1.1", RequestHeaders(host, key)), Stream(leftover, false))
  {
    RequestLineRoundTrip(path);
    RequestHeadersRecovered(host, key);
    FieldsPrintable(path, host, key);
    hide ParseRequest, RequestLine, Print, HeaderLines, FirstWins, RequestFields, PrintedRequestLine;
    PrintedRequestParsed(PrintedRequestLine(path), RequestFields(host, key), leftover);
  }

  lemma FieldsPrintable(path: string, host: string, key: string)
    requires '\n' !in path && '\n' !in host && '\n' !in key
    ensures '\n' !in PrintedRequestLine(path) && Printable(RequestFields(host, key))
  {
  }

  function RequestHeaders(host: string, key: string): Headers {
    map["Host" := host, "Upgrade" := "websocket", "Connection" := "Upgrade", KEY_HEADER := key,
        "Sec-WebSocket-Version" := "13"]
  }

  lemma FirstOf(h: Headers, field: (string, string), rest: seq<(string, string)>)
    ensures FirstWins(h, [field] + rest) == FirstWins(Insert(h, field.0, field.1), rest)
  {
  }

  lemma RequestHeadersRecovered(host: string, key: string)
    ensures FirstWins(map[], RequestFields(host, key)) == RequestHeaders(host, key)
  {
    var fields := RequestFields(host, key);
    var h1 := map["Host" := host];
    var h2 := h1["Upgrade" := "websocket"];
    var h3 := h2["Connection" := "Upgrade"];
    var h4 := h3[KEY_HEADER := key];
    assert fields == [fields[0]] + fields[1..];
    FirstOf(map[], fields[0], fields[1..]);
    assert fields[1..] == [fields[1]] + fields[2..];
    FirstOf(h1, fields[1], fields[2..]);
    assert fields[2..] == [fields[2]] + fields[3..];
    FirstOf(h2, fields[2], fields[3..]);
    assert fields[3..] == [fields[3]] + [fields[4]];
    FirstOf(h3, fields[3], [fields[4]]);
    assert [fields[4]] == [fields[4]] + [];
    FirstOf(h4, fields[4], []);
  }

  /**
   * The path arrives if and only if it has neither a space nor a line feed: a space ends the path early, a line feed
   * leaves no request line at all. Host and key have no part in it.
   */
  lemma PathRecoveredExactly(path: string, host: string, key: string, leftover: string)
    ensures var p := ParseRequest(Stream(RequestText(path, host, key) + leftover, false));
      p.Parsed? && p.request.path == path <==> ' ' !in path && '\n' !in path
  {
    var fields := HeaderLines(RequestFields(host, key));
    var text := RequestText(path, host, key) + leftover;
    RequestTextLayout(path, fields, leftover);
    if ' ' !in path && '\n' !in path {
      var rest := Print(fields + [""]) + leftover;
      RequestLineRoundTrip(path);
      LinePrinted(PrintedRequestLine(path), "", rest);
      var p := EndOfHeader(path, fields, leftover);
      ParsersReturn(text, p);
    } else {
      var i := FirstBreak(path);
      BrokenRequestLine(text, path, i);
    }
    hide RequestLine, HeaderLoop, Print, RequestFields, PrintedRequestLine;
  }

  lemma RequestTextLayout(path: string, fields: seq<string>, leftover: string)
    ensures var text := Print([PrintedRequestLine(path)] + fields + [""]) + leftover;
      && text == PrintedRequestLine(path) + "\r\n" + (Print(fields + [""]) + leftover)
      && text[..4 + |path|] == "GET " + path
  {
    var lines := [PrintedRequestLine(path)] + fields + [""];
    assert lines[0] == PrintedRequestLine(path) && lines[1..] == fields + [""];
  }

  lemma EndOfHeader(path: string, fields: seq<string>, leftover: string) returns (p: nat)
    ensures BlankLineAt(Print([PrintedRequestLine(path)] + fields + [""]) + leftover, p)
  {
    var lines := [PrintedRequestLine(path)] + fields;
    PrintLast(lines, "");
    p := EndsInBreak(lines);
  }

  lemma EndsInBreak(lines: seq<string>) returns (p: nat)
    requires lines != []
    ensures |Print(lines)| == p + 2 && Print(lines)[p] == '\r' && Print(lines)[p + 1] == '\n'
  {
    var n := |lines| - 1;
    assert lines == lines[..n] + [lines[n]];
    PrintLast(lines[..n], lines[n]);
    p := |Print(lines)| - 2;
  }

  lemma FirstBreak(path: string) returns (i: nat)
    requires ' ' in path || '\n' in path
    ensures i < |path| && (path[i] == ' ' || path[i] == '\n')
    ensures forall j | 0 <= j < i :: path[j] != ' ' && path[j] != '\n'
  {
    i := 0;
    while path[i] != ' ' && path[i] != '\n'
      invariant i < |path| && (forall j | 0 <= j < i :: path[j] != ' ' && path[j] != '\n')
      invariant exists j :: i <= j < |path| && (path[j] == ' ' || path[j] == '\n')
      decreases |path| - i
    {
      i := i + 1;
    }
  }

  lemma BrokenRequestLine(text: string, path: string, i: nat)
    requires |text| >= 4 + |path| && text[..4 + |path|] == "GET " + path
    requires i < |path| && (path[i] == ' ' || path[i] == '\n')
    requires forall j | 0 <= j < i :: path[j] != ' ' && path[j] != '\n'
    ensures var parts := RequestLine(Line(Stream(text, false), ""));
      if path[i] == '\n' then parts == [] else |parts| == 3 && parts[1] == path[..i]
  {
    assert forall j | 0 <= j < 4 + |path| :: text[j] == ("GET " + path)[j];
    assert text[0] == 'G' && text[1] == 'E' && text[2] == 'T' && text[3] == ' ';
    var end := Find(text, '\n', 0);
    var line := text[..end];
    assert forall j | 0 <= j < 4 + i :: text[j] != '\n';
    assert end >= 4 + i;
    FoundAt(line, ' ', 0, 3);
    if path[i] == '\n' {
      FoundAt(text, '\n', 0, 4 + i);
      FoundAt(line, ' ', 4, |line|);
    } else {
      FoundAt(line, ' ', 4, 4 + i);
      assert line[4..4 + i] == path[..i];
    }
  }

  // ---- the response, and the whole exchange ----

  /** Any response is parsed back, whatever its headers. */
  lemma PrintedResponseParsed(line: string, fields: seq<(string, string)>, leftover: string)
    requires '\n' !in line && Printable(fields)
    ensures ParseResponse(Stream(Print([line] + HeaderLines(fields) + [""]) + leftover, false))
         == Ends(FirstWins(map[], fields), Stream(leftover, false))
  {
    FirstLinePrinted(line, fields, leftover);
    HeadersRoundTrip(fields, map[], line + "\r", leftover);
  }

  /**
   * In what either parser makes of printed headers, a name is present if and only if some field has it, and its value
   * is that of the first such field.
   */
  lemma FirstDuplicateWins(line: string, fields: seq<(string, string)>, leftover: string, name: string, i: nat)
    requires '\n' !in line && Printable(fields)
    requires i <= |fields| && (forall j | 0 <= j < i :: fields[j].0 != name) && (i < |fields| ==> fields[i].0 == name)
    ensures var st := Stream(Print([line] + HeaderLines(fields) + [""]) + leftover, false);
      && ParseResponse(st).Ends?
      && (name in ParseResponse(st).headers <==> i < |fields|)
      && (i < |fields| ==> ParseResponse(st).headers[name] == fields[i].1)
      && (RequestLine(line + "\r") != [] ==>
            && ParseRequest(st).Parsed?
            && (name in ParseRequest(st).request.headers <==> i < |fields|)
            && (i < |fields| ==> ParseRequest(st).request.headers[name] == fields[i].1))
  {
    FirstValue(map[], fields, name, i);
    hide ParseResponse, ParseRequest, RequestLine, Print, HeaderLines, FirstWins;
    PrintedResponseParsed(line, fields, leftover);
    if RequestLine(line + "\r") != [] {
      PrintedRequestParsed(line, fields, leftover);
    }
  }

  function ResponseHeaders(accept: string): Headers {
    map["Upgrade" := "websocket", "Connection" := "Upgrade", ACCEPT_HEADER := accept]
  }

  lemma ResponseHeadersRecovered(accept: string)
    ensures FirstWins(map[], ResponseFields(accept)) == ResponseHeaders(accept)
  {
    var fields := ResponseFields(accept);
    var h1 := map["Upgrade" := "websocket"];
    var h2 := h1["Connection" := "Upgrade"];
    assert fields == [fields[0]] + fields[1..];
    FirstOf(map[], fields[0], fields[1..]);
    assert fields[1..] == [fields[1]] + [fields[2]];
    FirstOf(h1, fields[1], [fields[2]]);
    assert [fields[2]] == [fields[2]] + [];
    FirstOf(h2, fields[2], []);
  }

  lemma ResponseFieldsPrintable(accept: string)
    requires '\n' !in accept
    ensures '\n' !in StatusLine() && Printable(ResponseFields(accept))
  {
  }

  /** The response's accept value reaches the client, and nothing but what follows the response stays in the buffer. */
  lemma ResponseRoundTrip(accept: string, leftover: string)
    requires '\n' !in accept
    ensures ParseResponse(Stream(ResponseText(accept) + leftover, false))
         == Ends(ResponseHeaders(accept), Stream(leftover, false))
  {
    ResponseHeadersRecovered(accept);
    ResponseFieldsPrintable(accept);
    hide ParseResponse, Print, HeaderLines, FirstWins, ResponseFields, ResponseHeaders, StatusLine;
    PrintedResponseParsed(StatusLine(), ResponseFields(accept), leftover);
  }

  /** SHA-1 is any function at all; Base64 is any pair whose decoder undoes its encoder, printing one line. */
  datatype Crypto = Crypto(sha1: string -> string, encode: string -> string, decode: string -> string)

  ghost predicate Lawful(c: Crypto) {
    forall s: string :: c.decode(c.encode(s)) == s && '\n' !in c.encode(s)
  }

  /** `generate_handshake`: a response only if the request carried a key. */
  function GenerateHandshake(c: Crypto, h: Headers): string {
    if KEY_HEADER in h then ResponseText(c.encode(c.sha1(h[KEY_HEADER] + MAGIC))) else ""
  }

  /** The client's test; a missing header counts as an empty one. */
  predicate Accepts(c: Crypto, key: string, h: Headers) {
    c.decode(if ACCEPT_HEADER in h then h[ACCEPT_HEADER] else "") == c.sha1(key + MAGIC)
  }

  /** A message is its lines, each with a carriage return and a line feed behind it. */
  lemma PrintIsLines(line: string, lines: seq<string>)
    ensures Print([]) == "" && Print([line] + lines) == line + "\r\n" + Print(lines)
  {
    assert ([line] + lines)[1..] == lines;
  }

  /** The request and the response line by line, and the client's test. */
  lemma MessageTexts(c: Crypto, path: string, host: string, key: string, h: Headers)
    ensures RequestText(path, host, key)
         == Print(["GET " + path + " HTTP/1.1", "Host: " + host, "Upgrade: websocket", "Connection: Upgrade",
                   "Sec-WebSocket-Key: " + key, "Sec-WebSocket-Version: 13", ""])
    ensures GenerateHandshake(c, h) == if "Sec-WebSocket-Key" !in h then "" else
      Print(["HTTP/1.1 101 Web Socket Protocol Handshake", "Upgrade: websocket", "Connection: Upgrade",
             "Sec-WebSocket-Accept: "
             + c.encode(c.sha1(h["Sec-WebSocket-Key"] + "258EAFA5-E914-47DA-95CA-C5AB0DC85B11")), ""])
    ensures Accepts(c, key, h) <==>
      (c.decode(if "Sec-WebSocket-Accept" in h then h["Sec-WebSocket-Accept"] else "")
       == c.sha1(key + "258EAFA5-E914-47DA-95CA-C5AB0DC85B11"))
  {
    hide Print, HeaderLines;
    RequestLines(host, key);
    assert [PrintedRequestLine(path)] + HeaderLines(RequestFields(host, key)) + [""]
        == ["GET " + path + " HTTP/1.1", "Host: " + host, "Upgrade: websocket", "Connection: Upgrade",
            "Sec-WebSocket-Key: " + key, "Sec-WebSocket-Version: 13", ""];
    if KEY_HEADER in h {
      ResponseLines(c.encode(c.sha1(h[KEY_HEADER] + MAGIC)));
    }
  }

  /**
   * The whole opening handshake: whatever follows either message in its buffer, the server understands the request and
   * answers it, the client understands the answer and accepts it, and both leave what follows untouched.
   */
  lemma HandshakeSucceeds(c: Crypto, path: string, host: string, nonce: string, early: string, late: string)
    requires Lawful(c) && ' ' !in path && '\n' !in path && '\n' !in host
    ensures var key := c.encode(nonce);
      var p := ParseRequest(Stream(RequestText(path, host, key) + early, false));
      && p.Parsed? && p.request.path == path && p.stream == Stream(early, false)
      && GenerateHandshake(c, p.request.headers) != ""
      && var r := ParseResponse(Stream(GenerateHandshake(c, p.request.headers) + late, false));
      r.Ends? && r.stream == Stream(late, false) && Accepts(c, key, r.headers)
  {
    var key := c.encode(nonce);
    RequestRoundTrip(path, host, key, early);
    var accept := c.encode(c.sha1(key + MAGIC));
    assert RequestHeaders(host, key)[KEY_HEADER] == key;
    ResponseRoundTrip(accept, late);
    assert |Print([StatusLine()] + HeaderLines(ResponseFields(accept)) + [""])| > 0;
  }

  // ---- the endpoints' methods ----

  /** `std::istream` over a buffer, with `getline`. */
  class TextStream {
    var rest: string
    var eof: bool

    ghost function Abs(): Stream
      reads this
    {
      Stream(rest, eof)
    }

    constructor (text: string)
      ensures Abs() == Stream(text, false)
    {
      rest, eof := text, false;
    }

    method GetLine(line: string) returns (next: string)
      modifies this
      ensures next == Line(old(Abs()), line) && Abs() == AfterLine(old(Abs()))
    {
      if eof {
        return line;
      }
      var i := Find(rest, '\n', 0);
      next := rest[..i];
      if i < |rest| {
        rest := rest[i + 1..];
      } else {
        rest, eof := "", true;
      }
    }
  }

  /** The header loop both parsers share. */
  method ReadHeaders(stream: TextStream, firstLine: string) returns (header: Headers)
    requires HeaderLoop(stream.Abs(), firstLine, map[]).Ends?
    modifies stream
    ensures Ends(header, stream.Abs()) == HeaderLoop(old(stream.Abs()), firstLine, map[])
  {
    header := map[];
    var line := firstLine;
    while Find(line, ':', 0) < |line|
      invariant HeaderLoop(stream.Abs(), line, header) == HeaderLoop(old(stream.Abs()), firstLine, map[])
      decreases if stream.eof then 0 else 1 + |stream.rest|
    {
      var end := Find(line, ':', 0);
      var start := end + 1;
      if start < |line| {
        if line[start] == ' ' {
          start := start + 1;
        }
        if start < |line| {
          if line[..end] !in header {
            header := header[line[..end] := line[start..|line| - 1]];
          }
        }
      }
      line := stream.GetLine(line);
    }
  }

  class ServerHandshake {
    var verb: string
    var path: string
    var version: string
    var header: Headers

    constructor ()
      ensures Request(verb, path, version, header) == Request("", "", "", map[])
    {
      verb, path, version, header := "", "", "", map[];
    }

    method ParseHandshake(stream: TextStream)
      requires ParseRequest(stream.Abs()).Parsed?
      requires Request(verb, path, version, header) == Request("", "", "", map[])
      modifies this, stream
      ensures Parsed(Request(verb, path, version, header), stream.Abs()) == ParseRequest(old(stream.Abs()))
    {
      var line := stream.GetLine("");
      var verbEnd := Find(line, ' ', 0);
      if verbEnd < |line| {
        var pathEnd := Find(line, ' ', verbEnd + 1);
        if pathEnd < |line| {
          verb := line[..verbEnd];
          path := line[verbEnd + 1..pathEnd];
          version := if pathEnd + 6 < |line| then line[pathEnd + 6..|line| - 1] else "1.1";
          line := stream.GetLine(line);
          header := ReadHeaders(stream, line);
        }
      }
    }
  }

  /** The client's parser. */
  method ParseServerResponse(stream: TextStream) returns (header: Headers)
    requires ParseResponse(stream.Abs()).Ends?
    modifies stream
    ensures Ends(header, stream.Abs()) == ParseResponse(old(stream.Abs()))
  {
    var line := stream.GetLine("");
    line := stream.GetLine(line);
    header := ReadHeaders(stream, line);
  }

  /** `<<` of one line. */
  method PutLine(buffer: string, line: string, ghost lines: seq<string>) returns (buffer': string)
    requires buffer == Print(lines)
    ensures buffer' == Print(lines + [line])
  {
    PrintLast(lines, line);
    buffer' := buffer + line + "\r\n";
  }

  lemma {:induction false} PrintLast(lines: seq<string>, line: string)
    ensures Print(lines + [line]) == Print(lines) + line + "\r\n"
  {
    if lines == [] {
      assert [line][1..] == [];
    } else {
      assert (lines + [line])[1..] == lines[1..] + [line];
      PrintLast(lines[1..], line);
    }
  }

  lemma {:induction false} HeaderLinesAt(fields: seq<(string, string)>, i: nat)
    requires i < |fields|
    ensures |HeaderLines(fields)| == |fields| && HeaderLines(fields)[i] == fields[i].0 + ": " + fields[i].1
  {
    if i > 0 {
      HeaderLinesAt(fields[1..], i - 1);
    } else if |fields| > 1 {
      HeaderLinesAt(fields[1..], 0);
    }
  }

  /** The client's `handshake`, as far as it prints. */
  method WriteRequest(path: string, host: string, key: string) returns (request: string)
    ensures request == RequestText(path, host, key)
  {
    request := PutLine("", "GET " + path + " HTTP/1.1", []);
    ghost var lines := [PrintedRequestLine(path)];
    request := PutLine(request, "Host: " + host, lines);
    lines := lines + ["Host: " + host];
    request := PutLine(request, "Upgrade: websocket", lines);
    lines := lines + ["Upgrade: websocket"];
    request := PutLine(request, "Connection: Upgrade", lines);
    lines := lines + ["Connection: Upgrade"];
    request := PutLine(request, "Sec-WebSocket-Key: " + key, lines);
    lines := lines + ["Sec-WebSocket-Key: " + key];
    request := PutLine(request, "Sec-WebSocket-Version: 13", lines);
    lines := lines + ["Sec-WebSocket-Version: 13"];
    request := PutLine(request, "", lines);
    RequestLines(host, key);
    assert lines + [""] == [PrintedRequestLine(path)] + HeaderLines(RequestFields(host, key)) + [""];
  }

  lemma ResponseLines(accept: string)
    ensures [StatusLine()] + HeaderLines(ResponseFields(accept)) + [""]
         == ["HTTP/1.1 101 Web Socket Protocol Handshake", "Upgrade: websocket", "Connection: Upgrade",
             "Sec-WebSocket-Accept: " + accept, ""]
  {
    var f := ResponseFields(accept);
    HeaderLinesAt(f, 0);
    HeaderLinesAt(f, 1);
    HeaderLinesAt(f, 2);
    hide HeaderLines;
    assert "Upgrade" + ": " + "websocket" == "Upgrade: websocket" && ACCEPT_HEADER + ": " == "Sec-WebSocket-Accept: ";
    assert "Connection" + ": " + "Upgrade" == "Connection: Upgrade";
  }

  lemma RequestLines(host: string, key: string)
    ensures HeaderLines(RequestFields(host, key)) == ["Host: " + host, "Upgrade: websocket", "Connection: Upgrade",
                                                      "Sec-WebSocket-Key: " + key, "Sec-WebSocket-Version: 13"]
  {
    var f := RequestFields(host, key);
    HeaderLinesAt(f, 0);
    HeaderLinesAt(f, 1);
    HeaderLinesAt(f, 2);
    HeaderLinesAt(f, 3);
    HeaderLinesAt(f, 4);
    assert "Host" + ": " == "Host: " && "Upgrade" + ": " + "websocket" == "Upgrade: websocket";
    assert "Connection" + ": " + "Upgrade" == "Connection: Upgrade" && KEY_HEADER + ": " == "Sec-WebSocket-Key: ";
    assert "Sec-WebSocket-Version" + ": " + "13" == "Sec-WebSocket-Version: 13";
  }
}
