/**
 A request printed in wire form reads back as what was printed.
 */
module HttpMessage {
  import opened Common
  import opened HttpRequest

  datatype Message = Message(
    verb: string, uri: string, params: seq<(string, string)>, version: string, headers: seq<(string, string)>)

  function UrlText(m: Message): string {
    if m.params == [] then m.uri
    else
      PrintedPairsCount(m.params);
      m.uri + "?" + Join(PrintPairs(m.params), '&')
  }

  lemma {:induction false} PrintedPairsCount(ps: seq<(string, string)>)
    ensures |PrintPairs(ps)| == |ps|
  {
    if ps != [] {
      PrintedPairsCount(ps[1..]);
    }
  }

  /** The pairs the printed query is read as. */
  function QueryOf(ps: seq<(string, string)>): seq<(string, string)> {
    if ps == [] then []
    else
      PrintedPairsCount(ps);
      QueryPairs(Join(PrintPairs(ps), '&'))
  }

  /** Those pairs are the parameters if and only if no part of them holds '=' or '&'. */
  lemma ParamsSurviveIffPlain(ps: seq<(string, string)>)
    ensures QueryOf(ps) == ps <==> AllPlain(ps)
  {
    if ps != [] {
      QueryRoundTrip(ps);
    }
  }

  function RequestLineText(m: Message): string {
    m.verb + " " + UrlText(m) + " " + m.version + "\r"
  }

  function HeaderText(h: (string, string)): string {
    h.0 + ": " + h.1 + "\r"
  }

  function HeaderLines(hs: seq<(string, string)>): seq<string> {
    if hs == [] then [] else [HeaderText(hs[0])] + HeaderLines(hs[1..])
  }

  /** All lines; the last piece is what follows the final line feed. */
  function MessageLines(m: Message): seq<string> {
    ([RequestLineText(m)] + HeaderLines(m.headers)) + ["\r", ""]
  }

  function MessageText(m: Message): string {
    Join(MessageLines(m), LF)
  }

  predicate Word(s: string) {
    ' ' !in s && LF !in s && '?' !in s
  }

  /** A header of one line: the name ends at its first colon, the value may hold more of them. */
  predicate OneLineHeader(h: (string, string)) {
    ':' !in h.0 && LF !in h.0 && LF !in h.1
  }

  ghost predicate Sendable(m: Message) {
    && (m.verb == "GET" || m.verb == "POST")
    && Word(m.uri) && ' ' !in m.version && LF !in m.version
    && (forall i | 0 <= i < |m.params| :: Word(m.params[i].0) && Word(m.params[i].1))
    && (forall i | 0 <= i < |m.headers| :: OneLineHeader(m.headers[i]))
  }

  /** What a header line stores: the trimmed name, and the trimmed value up to its first colon. */
  function Stored(h: (string, string)): (string, string) {
    (Trim(h.0), Trim(Split(" " + h.1 + "\r", ':')[0]))
  }

  function AllStored(hs: seq<(string, string)>): seq<(string, string)> {
    if hs == [] then [] else [Stored(hs[0])] + AllStored(hs[1..])
  }

  /** The fields the reader ends with; the version keeps the carriage return of its line. */
  function ReadBack(m: Message): Fields {
    Fields(Finished, m.verb, UrlText(m), m.uri, m.version + "\r",
           SetAll(map[], AllStored(m.headers)), SetAll(map[], QueryOf(m.params)), map[])
  }

  // ---- Trimming ----

  predicate Trimmed(s: string) {
    s == "" || (!IsSpace(s[0]) && !IsSpace(s[|s| - 1]))
  }

  lemma {:induction false} TrimRightStops(s: string)
    requires s == "" || !IsSpace(s[|s| - 1])
    ensures TrimRight(s) == s && TrimRight(s + "\r") == s
  {
    assert (s + "\r")[..|s|] == s;
    assert TrimRight(s) == s;
  }

  lemma TrimName(s: string)
    requires Trimmed(s)
    ensures Trim(s) == s
  {
    TrimRightStops(s);
  }

  lemma TrimValue(s: string)
    requires Trimmed(s)
    ensures Trim(" " + s + "\r") == s
  {
    if s == "" {
      assert (" " + s + "\r")[..1] == " " && (" " + s + "\r")[1] == '\r';
      assert TrimRight(" ") == "" by { assert " "[..0] == ""; }
    } else {
      var t := " " + s;
      assert t[|t| - 1] == s[|s| - 1];
      TrimRightStops(t);
      assert t[0] == ' ' && t[1..] == s;
      assert TrimLeft(s) == s;
    }
  }

  // ---- Lines ----

  lemma {:induction false} JoinedWithout(parts: seq<string>, d: char, c: char)
    requires parts != [] && d != c && forall i | 0 <= i < |parts| :: c !in parts[i]
    ensures c !in Join(parts, d)
  {
    if |parts| > 1 {
      JoinedWithout(parts[1..], d, c);
    }
  }

  lemma {:induction false} PrintedWithout(ps: seq<(string, string)>, c: char)
    requires c != '=' && forall i | 0 <= i < |ps| :: c !in ps[i].0 && c !in ps[i].1
    ensures |PrintPairs(ps)| == |ps| && forall i | 0 <= i < |ps| :: c !in PrintPairs(ps)[i]
  {
    if ps != [] {
      PrintedWithout(ps[1..], c);
      assert c !in ps[0].0 + "=" + ps[0].1;
      forall i | 0 <= i < |ps| ensures c !in PrintPairs(ps)[i] {
        if i > 0 {
          assert PrintPairs(ps)[i] == PrintPairs(ps[1..])[i - 1];
        }
      }
    }
  }

  lemma UrlIsOneWord(m: Message)
    requires Sendable(m)
    ensures ' ' !in UrlText(m) && LF !in UrlText(m)
  {
    if m.params != [] {
      PrintedWithout(m.params, ' ');
      PrintedWithout(m.params, LF);
      JoinedWithout(PrintPairs(m.params), '&', ' ');
      JoinedWithout(PrintPairs(m.params), '&', LF);
    }
  }

  lemma UrlReadsBack(m: Message, f: Fields)
    requires Sendable(m) && f.url == UrlText(m)
    ensures ReadUrl(f) == f.(uri := m.uri, urlParams := SetAll(f.urlParams, QueryOf(m.params)))
  {
    SplitPlain(m.uri, '?');
    if m.params != [] {
      PrintedWithout(m.params, '?');
      var query := Join(PrintPairs(m.params), '&');
      JoinedWithout(PrintPairs(m.params), '&', '?');
      SplitConcat(m.uri, '?', query);
      SplitPlain(query, '?');
      assert m.uri + "?" + query == m.uri + ['?'] + query;
    }
  }

  lemma RequestLineSplits(m: Message)
    requires Sendable(m)
    ensures Split(RequestLineText(m), ' ') == [m.verb, UrlText(m), m.version + "\r"]
  {
    hide UrlText, Split;
    var url, version := UrlText(m), m.version + "\r";
    UrlIsOneWord(m);
    assert RequestLineText(m) == m.verb + [' '] + (url + [' '] + version);
    SplitConcat(m.verb, ' ', url + [' '] + version);
    SplitConcat(url, ' ', version);
    SplitPlain(m.verb, ' ');
    SplitPlain(url, ' ');
    SplitPlain(version, ' ');
  }

  lemma RequestLineReadsBack(m: Message)
    requires Sendable(m)
    ensures OneLine(NoFields, RequestLineText(m)) ==
      More(ReadBack(m).(part := Headers, headers := map[]))
  {
    RequestLineSplits(m);
    UrlReadsBack(m, NoFields.(verb := m.verb, url := UrlText(m)));
    assert RequestLineText(m)[0] == m.verb[0];
  }

  lemma {:induction false} TrimAddsNothing(s: string, c: char)
    requires c !in s
    ensures c !in TrimLeft(s) && c !in TrimRight(s)
  {
    if s != "" {
      TrimAddsNothing(s[1..], c);
      TrimAddsNothing(s[..|s| - 1], c);
    }
  }

  lemma {:induction false} FirstPieceWithout(s: string, d: char)
    ensures d !in Split(s, d)[0]
  {
    if s != "" {
      FirstPieceWithout(s[1..], d);
    }
  }

  lemma HeaderReadsBack(f: Fields, h: (string, string))
    requires f.part.Headers? && OneLineHeader(h)
    ensures OneLine(f, HeaderText(h)) == More(f.(headers := f.headers[Stored(h).0 := Stored(h).1]))
  {
    var line, value := HeaderText(h), " " + h.1 + "\r";
    assert line == h.0 + [':'] + value;
    SplitConcat(h.0, ':', value);
    SplitPlain(h.0, ':');
    assert ':' in line && ':' !in "\r";
  }

  lemma {:induction false} TrimLeftTrims(s: string)
    requires s == "" || !IsSpace(s[|s| - 1])
    ensures Trimmed(TrimLeft(s))
  {
    if s != "" && IsSpace(s[0]) {
      TrimLeftTrims(s[1..]);
    }
  }

  lemma {:induction false} TrimRightTrims(s: string)
    ensures TrimRight(s) == "" || !IsSpace(TrimRight(s)[|TrimRight(s)| - 1])
  {
    if s != "" && IsSpace(s[|s| - 1]) {
      TrimRightTrims(s[..|s| - 1]);
    }
  }

  lemma TrimTrims(s: string)
    ensures Trimmed(Trim(s))
  {
    TrimRightTrims(s);
    TrimLeftTrims(TrimRight(s));
  }

  /** A header is stored as it was sent if and only if its parts are trimmed and its value has no colon. */
  lemma HeaderSurvivesIffNoColon(h: (string, string))
    requires OneLineHeader(h)
    ensures Stored(h) == h <==> Trimmed(h.0) && Trimmed(h.1) && ':' !in h.1
  {
    hide TrimLeft, TrimRight, Split, Trimmed;
    var value := " " + h.1 + "\r";
    var stored := Split(value, ':')[0];
    TrimTrims(h.0);
    TrimTrims(stored);
    FirstPieceWithout(value, ':');
    TrimAddsNothing(stored, ':');
    TrimAddsNothing(TrimRight(stored), ':');
    if Trimmed(h.0) && Trimmed(h.1) && ':' !in h.1 {
      TrimName(h.0);
      SplitPlain(value, ':');
      TrimValue(h.1);
    }
  }

  /** The rest of a value after its first colon, a port for instance, is lost. */
  lemma ValueStopsAtColon(name: string, host: string, port: string)
    requires host != "" && Trimmed(host) && ':' !in host
    ensures Stored((name, host + ":" + port)).1 == host
  {
    var before, after := " " + host, port + "\r";
    assert " " + (host + ":" + port) + "\r" == before + [':'] + after;
    SplitConcat(before, ':', after);
    SplitPlain(before, ':');
    assert before[|before| - 1] == host[|host| - 1];
    TrimRightStops(before);
    assert before[0] == ' ' && before[1..] == host;
    assert TrimLeft(host) == host;
  }

  lemma PortLostFromHost()
    ensures Stored(("Host", "localhost:8080")).1 == "localhost"
  {
    hide Stored;
    assert "localhost" + ":" + "8080" == "localhost:8080";
    ValueStopsAtColon("Host", "localhost", "8080");
  }

  lemma {:induction false} HeadersReadBack(f: Fields, hs: seq<(string, string)>, rest: seq<string>)
    requires f.part.Headers? && forall i | 0 <= i < |hs| :: OneLineHeader(hs[i])
    ensures ReadLines(f, HeaderLines(hs) + rest) == ReadLines(f.(headers := SetAll(f.headers, AllStored(hs))), rest)
    decreases |hs|
  {
    hide OneLine, Stored, HeaderText;
    if hs == [] {
      assert HeaderLines(hs) + rest == rest;
    } else {
      HeaderReadsBack(f, hs[0]);
      var more := HeaderLines(hs[1..]) + rest;
      assert HeaderLines(hs) + rest == [HeaderText(hs[0])] + more;
      assert ([HeaderText(hs[0])] + more)[1..] == more;
      var first := Stored(hs[0]);
      HeadersReadBack(f.(headers := f.headers[first.0 := first.1]), hs[1..], rest);
      assert AllStored(hs)[1..] == AllStored(hs[1..]);
    }
  }

  lemma EndOfHeaders(f: Fields)
    requires f.part.Headers?
    ensures ReadLines(f, ["\r", ""]) == (f.(part := Finished), ReadOver)
  {
    var g := f.(part := Finished);
    assert ["\r", ""][1..] == [""] && [""][1..] == [];
    assert ReadLines(g, []) == (g, ReadOver);
    assert ReadLines(g, [""]) == (g, ReadOver);
  }

  lemma LinesReadBack(m: Message)
    requires Sendable(m)
    ensures ReadLines(NoFields, MessageLines(m)) == (ReadBack(m), ReadOver)
  {
    hide OneLine, RequestLineText, HeaderText, UrlText;
    RequestLineReadsBack(m);
    var f := ReadBack(m).(part := Headers, headers := map[]);
    var rest := HeaderLines(m.headers) + ["\r", ""];
    assert MessageLines(m) == [RequestLineText(m)] + rest;
    assert ([RequestLineText(m)] + rest)[1..] == rest;
    HeadersReadBack(f, m.headers, ["\r", ""]);
    EndOfHeaders(f.(headers := SetAll(f.headers, AllStored(m.headers))));
  }

  // ---- Framing ----

  lemma {:induction false} HeaderLinesFramed(hs: seq<(string, string)>)
    requires forall i | 0 <= i < |hs| :: OneLineHeader(hs[i])
    ensures AllFramed(HeaderLines(hs))
  {
    if hs != [] {
      HeaderLinesFramed(hs[1..]);
      var line := HeaderText(hs[0]);
      assert Framed(line);
      forall i | 0 <= i < |HeaderLines(hs)| ensures Framed(HeaderLines(hs)[i]) {
        assert i > 0 ==> HeaderLines(hs)[i] == HeaderLines(hs[1..])[i - 1];
      }
    }
  }

  /** A line without line feed that ends in a carriage return. */
  predicate Framed(line: string) {
    LF !in line && line != "" && line[|line| - 1] == '\r'
  }

  predicate AllFramed(lines: seq<string>) {
    forall i | 0 <= i < |lines| :: Framed(lines[i])
  }

  lemma {:induction false} JoinConcat(a: seq<string>, b: seq<string>, d: char)
    requires a != [] && b != []
    ensures Join(a + b, d) == Join(a, d) + [d] + Join(b, d)
    ensures Join(a, d) != "" || a[|a| - 1] == ""
    ensures a[|a| - 1] != "" ==> Join(a, d)[|Join(a, d)| - 1] == a[|a| - 1][|a[|a| - 1]| - 1]
    decreases |a|
  {
    if |a| == 1 {
      assert a == [a[0]] && (a + b)[1..] == b;
    } else {
      assert (a + b)[1..] == a[1..] + b;
      JoinConcat(a[1..], b, d);
    }
  }

  lemma LinesFramed(m: Message)
    requires Sendable(m)
    ensures AllFramed([RequestLineText(m)] + HeaderLines(m.headers))
  {
    UrlIsOneWord(m);
    assert Framed(RequestLineText(m));
    HeaderLinesFramed(m.headers);
  }

  lemma FramedTextIsComplete(lines: seq<string>)
    requires lines != [] && AllFramed(lines)
    ensures var all := lines + ["\r", ""];
      Complete(Join(all, LF)) && Split(Join(all, LF), LF) == all
  {
    var end := ["\r", ""];
    SplitJoin(lines + end, LF);
    JoinConcat(lines, end, LF);
    assert end[1..] == [""];
    assert Join(end, LF) == "\r\n";
    EndsInBlankLine(Join(lines, LF));
    assert Join(lines, LF) + [LF] + "\r\n" == Join(lines, LF) + "\n\r\n";
  }

  lemma EndsInBlankLine(head: string)
    requires head != "" && head[|head| - 1] == '\r'
    ensures Complete(head + "\n\r\n")
  {
    var text := head + "\n\r\n";
    assert text[|text| - 4..] == "\r\n\r\n";
  }

  lemma TextIsComplete(m: Message)
    requires Sendable(m)
    ensures Complete(MessageText(m)) && Split(MessageText(m), LF) == MessageLines(m)
  {
    hide Split, Join, Complete, RequestLineText, HeaderLines, Sendable, AllFramed;
    LinesFramed(m);
    FramedTextIsComplete([RequestLineText(m)] + HeaderLines(m.headers));
  }

  /** The reader accepts the printed request and finds every part of it. */
  lemma PrintedRequestReadsBack(m: Message)
    requires Sendable(m) && |MessageText(m)| <= MaxRequestSize
    ensures Outcome(Readable(Fresh, MessageText(m))) == (ReadBack(m), ReadOver)
  {
    hide MessageText, ReadLines, Split, MessageLines, ReadBack;
    TextIsComplete(m);
    LinesReadBack(m);
    assert "" + MessageText(m) == MessageText(m);
  }

  // ---- Any chunking ----

  /** The last piece of one split text runs into the first of the next. */
  function Glue(a: seq<string>, b: seq<string>): (g: seq<string>)
    requires a != [] && b != []
    ensures g != []
  {
    a[..|a| - 1] + [a[|a| - 1] + b[0]] + b[1..]
  }

  lemma GlueAfter(x: string, a: seq<string>, b: seq<string>)
    requires a != [] && b != []
    ensures Glue([x] + a, b) == [x] + Glue(a, b)
  {
    assert ([x] + a)[..|a|] == [x] + a[..|a| - 1];
  }

  lemma GlueInto(c: char, a: seq<string>, b: seq<string>)
    requires a != [] && b != []
    ensures Glue([[c] + a[0]] + a[1..], b) == [[c] + Glue(a, b)[0]] + Glue(a, b)[1..]
  {
    if |a| == 1 {
      assert [c] + (a[0] + b[0]) == ([c] + a[0]) + b[0];
    } else {
      var rest := a[1..];
      GlueAfter(a[0], rest, b);
      assert [a[0]] + rest == a;
      GlueAfter([c] + a[0], rest, b);
    }
  }

  lemma {:induction false} SplitGlue(p: string, q: string, d: char)
    ensures Split(p + q, d) == Glue(Split(p, d), Split(q, d))
  {
    hide Glue;
    var b := Split(q, d);
    if p == "" {
      assert p + q == q;
      GlueNothing(b);
    } else {
      assert (p + q)[1..] == p[1..] + q && (p + q)[0] == p[0];
      SplitGlue(p[1..], q, d);
      GlueAfter("", Split(p[1..], d), b);
      GlueInto(p[0], Split(p[1..], d), b);
    }
  }

  lemma GlueNothing(b: seq<string>)
    requires b != []
    ensures Glue([""], b) == b
  {
    assert [""][..0] == [] && "" + b[0] == b[0];
  }

  /** A complete text has the blank line as its last but one piece. */
  lemma CompleteSplit(p: string)
    requires Complete(p)
    ensures |Split(p, LF)| >= 2 && Split(p, LF)[|Split(p, LF)| - 2] == "\r"
  {
    var x := p[..|p| - 4];
    assert p == x + BlankLineEnd;
    assert p == (x + "\r") + [LF] + "\r\n";
    SplitConcat(x + "\r", LF, "\r\n");
    assert "\r\n" == "\r" + [LF] + "";
    SplitConcat("\r", LF, "");
    SplitPlain("\r", LF);
    assert Split("\r\n", LF) == ["\r", ""];
  }

  /** Among the lines of a message only the last but one is blank. */
  lemma OneBlankLine(m: Message, i: nat)
    requires Sendable(m) && i < |MessageLines(m)|
    ensures MessageLines(m)[i] == "\r" <==> i == |MessageLines(m)| - 2
  {
    var hs := HeaderLines(m.headers);
    if i == 0 {
      assert RequestLineText(m)[0] == m.verb[0];
    } else if i <= |hs| {
      HeaderLineAt(m.headers, i - 1);
      assert MessageLines(m)[i] == hs[i - 1] && ':' !in "\r";
    }
  }

  lemma {:induction false} HeaderLineAt(hs: seq<(string, string)>, i: nat)
    requires i < |HeaderLines(hs)|
    ensures ':' in HeaderLines(hs)[i]
  {
    if i == 0 {
      assert HeaderText(hs[0])[|hs[0].0|] == ':';
    } else {
      HeaderLineAt(hs[1..], i - 1);
    }
  }

  /** No proper prefix of a printed request looks complete. */
  lemma CompleteOnlyAtTheEnd(m: Message, p: string, q: string)
    requires Sendable(m) && MessageText(m) == p + q && Complete(p)
    ensures q == ""
  {
    hide Sendable, MessageLines, MessageText, Complete;
    var a, b, lines := Split(p, LF), Split(q, LF), MessageLines(m);
    TextIsComplete(m);
    CompleteSplit(p);
    SplitGlue(p, q, LF);
    assert lines[|a| - 2] == a[|a| - 2];
    OneBlankLine(m, |a| - 2);
    LastLineEmpty(m);
    assert |b| == 1 && a[|a| - 1] + b[0] == "";
    JoinSplit(q, LF);
  }

  lemma LastLineEmpty(m: Message)
    ensures |MessageLines(m)| >= 2 && MessageLines(m)[|MessageLines(m)| - 1] == ""
  {
  }

  lemma {:induction false} AlwaysCutCleanly(m: Message, buff: string, chunks: seq<string>)
    requires Sendable(m) && MessageText(m) == buff + Concat(chunks)
    requires forall i | 0 <= i < |chunks| :: chunks[i] != ""
    ensures CutCleanly(buff, chunks)
    decreases |chunks|
  {
    hide Sendable, MessageText, Complete;
    if |chunks| > 1 {
      var p, rest := buff + chunks[0], chunks[1..];
      assert buff + Concat(chunks) == p + Concat(rest);
      assert Concat(rest) != "" by { assert Concat(rest) == rest[0] + Concat(rest[1..]); }
      if Complete(p) {
        CompleteOnlyAtTheEnd(m, p, Concat(rest));
      }
      AlwaysCutCleanly(m, p, rest);
    }
  }

  /** Cut into non-empty chunks anywhere, a printed request reads back whole. */
  lemma EveryChunkingReadsBack(m: Message, chunks: seq<string>)
    requires Sendable(m) && |MessageText(m)| <= MaxRequestSize
    requires chunks != [] && Concat(chunks) == MessageText(m)
    requires forall i | 0 <= i < |chunks| :: chunks[i] != ""
    ensures Outcome(Feed(Fresh, chunks)) == (ReadBack(m), ReadOver)
  {
    hide Sendable, MessageText, Readable, ReadBack, CutCleanly;
    assert "" + Concat(chunks) == MessageText(m);
    AlwaysCutCleanly(m, "", chunks);
    ChunkingDoesNotMatter(chunks);
    FeedFew(Fresh, MessageText(m), "");
    PrintedRequestReadsBack(m);
  }
}
