/**
 The incremental HTTP request reader (http/http_server/http_request.cpp). Reading
 lines or tokens from a string stream until it is exhausted is splitting at the
 delimiter, the piece after the last delimiter included.
 */
module HttpRequest {
  import opened Common

  const LF := '\n'
  const BlankLineEnd := "\r\n\r\n"
  const MaxRequestSize := 1024 * 1024 * 10

  // ---- Splitting ----

  function Split(s: string, d: char): (parts: seq<string>)
    ensures parts != []
  {
    if s == "" then [""]
    else
      var rest := Split(s[1..], d);
      if s[0] == d then [""] + rest else [[s[0]] + rest[0]] + rest[1..]
  }

  function Join(parts: seq<string>, d: char): string
    requires parts != []
  {
    if |parts| == 1 then parts[0] else parts[0] + [d] + Join(parts[1..], d)
  }

  lemma {:induction false} SplitConcat(a: string, d: char, b: string)
    ensures Split(a + [d] + b, d) == Split(a, d) + Split(b, d)
  {
    if a == "" {
      assert (a + [d] + b)[1..] == b;
    } else {
      assert (a + [d] + b)[1..] == a[1..] + [d] + b;
      SplitConcat(a[1..], d, b);
    }
  }

  lemma {:induction false} SplitPlain(s: string, d: char)
    requires d !in s
    ensures Split(s, d) == [s]
  {
    if s != "" {
      SplitPlain(s[1..], d);
      assert s == [s[0]] + s[1..];
    }
  }

  /** Splitting loses nothing. */
  lemma {:induction false} JoinSplit(s: string, d: char)
    ensures Join(Split(s, d), d) == s
  {
    if s != "" {
      JoinSplit(s[1..], d);
      var rest := Split(s[1..], d);
      if s[0] == d {
        assert ([""] + rest)[1..] == rest;
        assert s == [d] + s[1..];
      } else {
        var parts := [[s[0]] + rest[0]] + rest[1..];
        assert s == [s[0]] + s[1..];
        if |rest| > 1 {
          assert parts[1..] == rest[1..];
        }
      }
    }
  }

  /** Joining pieces without the delimiter and splitting gives them back. */
  lemma {:induction false} SplitJoin(parts: seq<string>, d: char)
    requires parts != [] && forall i | 0 <= i < |parts| :: d !in parts[i]
    ensures Split(Join(parts, d), d) == parts
  {
    SplitPlain(parts[0], d);
    if |parts| == 1 {
      assert parts == [parts[0]];
    } else {
      SplitConcat(parts[0], d, Join(parts[1..], d));
      SplitJoin(parts[1..], d);
      assert parts == [parts[0]] + parts[1..];
    }
  }

  function TrimLeft(s: string): string {
    if s != "" && IsSpace(s[0]) then TrimLeft(s[1..]) else s
  }

  function TrimRight(s: string): string {
    if s != "" && IsSpace(s[|s| - 1]) then TrimRight(s[..|s| - 1]) else s
  }

  function Trim(s: string): string {
    TrimLeft(TrimRight(s))
  }

  // ---- Parameters ----

  type Params = map<string, string>

  /** Alternating keys and values; a key at the end has an empty value. */
  function Pairs(parts: seq<string>): seq<(string, string)> {
    if parts == [] then []
    else if |parts| == 1 then [(parts[0], "")]
    else [(parts[0], parts[1])] + Pairs(parts[2..])
  }

  /** Keys and values in turn. */
  function InTurn(ps: seq<(string, string)>): seq<string> {
    if ps == [] then [] else [ps[0].0, ps[0].1] + InTurn(ps[1..])
  }

  /** The pairs of a part are its pieces between '=' in turn, with an empty value added to a last lone key. */
  lemma {:induction false} PairsInTurn(parts: seq<string>)
    ensures InTurn(Pairs(parts)) == parts + (if |parts| % 2 == 1 then [""] else [])
  {
    if |parts| >= 2 {
      PairsInTurn(parts[2..]);
      assert Pairs(parts)[1..] == Pairs(parts[2..]);
      assert parts == [parts[0], parts[1]] + parts[2..];
    } else if |parts| == 1 {
      assert Pairs(parts)[1..] == [];
    }
  }

  /** A query that is one plain word is a key with an empty value. */
  lemma LoneKey(k: string)
    requires Plain(k)
    ensures QueryPairs(k) == [(k, "")]
  {
    SplitPlain(k, '&');
    SplitPlain(k, '=');
    assert [k][1..] == [] && AllPairs([]) == [];
  }

  function AllPairs(kvs: seq<string>): seq<(string, string)> {
    if kvs == [] then [] else Pairs(Split(kvs[0], '=')) + AllPairs(kvs[1..])
  }

  /** The key-value pairs of a query string, in order. */
  function QueryPairs(query: string): seq<(string, string)> {
    AllPairs(Split(query, '&'))
  }

  /** Later pairs overwrite earlier ones. */
  function SetAll(m: Params, ps: seq<(string, string)>): Params
    decreases |ps|
  {
    if ps == [] then m else SetAll(m[ps[0].0 := ps[0].1], ps[1..])
  }

  /** The value of the last pair with the key. */
  function LastValue(ps: seq<(string, string)>, k: string): Option<string> {
    if ps == [] then None
    else if ps[|ps| - 1].0 == k then Some(ps[|ps| - 1].1)
    else LastValue(ps[..|ps| - 1], k)
  }

  /** Each key ends up with its last value; other keys stay as they were. */
  lemma {:induction false} SetAllKeepsLast(m: Params, ps: seq<(string, string)>, k: string)
    ensures var r := SetAll(m, ps);
      match LastValue(ps, k)
      case Some(v) => k in r && r[k] == v
      case None => (k in r <==> k in m) && (k in r ==> r[k] == m[k])
    decreases |ps|
  {
    if ps != [] {
      var front, last := ps[..|ps| - 1], ps[|ps| - 1];
      SetAllKeepsLast(m, front, k);
      assert ps == front + [last];
      SetAllConcat(m, front, [last]);
      assert [last][1..] == [];
    }
  }

  lemma {:induction false} SetAllConcat(m: Params, a: seq<(string, string)>, b: seq<(string, string)>)
    ensures SetAll(m, a + b) == SetAll(SetAll(m, a), b)
    decreases |a|
  {
    if a == [] {
      assert a + b == b;
    } else {
      assert (a + b)[1..] == a[1..] + b;
      SetAllConcat(m[a[0].0 := a[0].1], a[1..], b);
    }
  }

  lemma {:induction false} AllPairsConcat(a: seq<string>, b: seq<string>)
    ensures AllPairs(a + b) == AllPairs(a) + AllPairs(b)
  {
    if a == [] {
      assert a + b == b;
    } else {
      assert (a + b)[1..] == a[1..] + b;
      AllPairsConcat(a[1..], b);
    }
  }

  /** The two loops of parse_url_params over the pieces between '&' and between '='. */
  method ReadQuery(params: Params, query: string) returns (m: Params)
    ensures m == SetAll(params, QueryPairs(query))
  {
    m := params;
    var kvs := Split(query, '&');
    for i := 0 to |kvs|
      invariant m == SetAll(params, AllPairs(kvs[..i]))
    {
      assert kvs[..i + 1] == kvs[..i] + [kvs[i]];
      AllPairsConcat(kvs[..i], [kvs[i]]);
      assert AllPairs([kvs[i]]) == Pairs(Split(kvs[i], '='));
      SetAllConcat(params, AllPairs(kvs[..i]), Pairs(Split(kvs[i], '=')));
      var parts := Split(kvs[i], '=');
      var j := 0;
      ghost var m0 := m;
      assert parts[0..] == parts;
      while j < |parts|
        invariant 0 <= j <= |parts|
        invariant SetAll(m0, Pairs(parts)) == SetAll(m, Pairs(parts[j..]))
      {
        ghost var rest := parts[j..];
        var key := parts[j];
        var value := if j + 1 < |parts| then parts[j + 1] else "";
        m := m[key := value];
        if j + 1 < |parts| {
          assert rest[2..] == parts[j + 2..];
          assert Pairs(rest)[1..] == Pairs(parts[j + 2..]);
          j := j + 2;
        } else {
          assert Pairs(rest)[1..] == [];
          j := j + 1;
          assert parts[j..] == [];
        }
      }
      assert parts[|parts|..] == [];
    }
    assert kvs[..|kvs|] == kvs;
  }

  function PrintPairs(ps: seq<(string, string)>): seq<string> {
    if ps == [] then [] else [ps[0].0 + "=" + ps[0].1] + PrintPairs(ps[1..])
  }

  predicate Plain(s: string) {
    '=' !in s && '&' !in s
  }

  /** A query printed from plain pairs reads back as those pairs. */
  lemma {:induction false} PrintedPairsReadBack(ps: seq<(string, string)>)
    requires forall i | 0 <= i < |ps| :: Plain(ps[i].0) && Plain(ps[i].1)
    ensures |PrintPairs(ps)| == |ps| && AllPairs(PrintPairs(ps)) == ps
    ensures forall i | 0 <= i < |ps| :: '&' !in PrintPairs(ps)[i]
  {
    if ps != [] {
      PrintedPairsReadBack(ps[1..]);
      var printed := PrintPairs(ps);
      assert printed[0] == ps[0].0 + "=" + ps[0].1 && printed[1..] == PrintPairs(ps[1..]);
      PrintedPairReadsBack(ps[0].0, ps[0].1);
      assert ps == [ps[0]] + ps[1..] && ps[0] == (ps[0].0, ps[0].1);
    }
  }

  lemma PrintedPairReadsBack(k: string, v: string)
    requires Plain(k) && Plain(v)
    ensures Pairs(Split(k + "=" + v, '=')) == [(k, v)] && '&' !in k + "=" + v
  {
    SplitConcat(k, '=', v);
    SplitPlain(k, '=');
    SplitPlain(v, '=');
    assert k + "=" + v == k + ['='] + v;
    assert [k] + [v] == [k, v] && [k, v][2..] == [];
  }

  lemma {:induction false} PrintedAt(ps: seq<(string, string)>, i: nat)
    requires i < |ps|
    ensures |PrintPairs(ps)| == |ps| && PrintPairs(ps)[i] == ps[i].0 + "=" + ps[i].1
  {
    if |ps| == 1 {
      assert ps[1..] == [];
    } else {
      PrintedAt(ps[1..], if i == 0 then 0 else i - 1);
    }
  }

  lemma SplitInTwo(s: string, d: char)
    requires d in s
    ensures |Split(s, d)| >= 2
  {
    var i :| 0 <= i < |s| && s[i] == d;
    assert s == s[..i] + [d] + s[i + 1..];
    SplitConcat(s[..i], d, s[i + 1..]);
  }

  /** Delimiters inside the parts make more pieces than there were parts. */
  lemma {:induction false} JoinedPieces(parts: seq<string>, d: char)
    requires parts != []
    ensures |Split(Join(parts, d), d)| >= |parts|
    ensures (exists i :: 0 <= i < |parts| && d in parts[i]) ==> |Split(Join(parts, d), d)| > |parts|
  {
    if d in parts[0] {
      SplitInTwo(parts[0], d);
    }
    if |parts| > 1 {
      SplitConcat(parts[0], d, Join(parts[1..], d));
      JoinedPieces(parts[1..], d);
      assert forall i | 1 <= i < |parts| :: parts[i] == parts[1..][i - 1];
    }
  }

  lemma PairsCount(parts: seq<string>)
    ensures |parts| >= 1 ==> |Pairs(parts)| >= 1
    ensures |parts| >= 3 ==> |Pairs(parts)| >= 2
  {
    if |parts| >= 3 {
      assert |Pairs(parts[2..])| >= 1;
    }
  }

  /** Every piece gives a pair, and one with more than one '=' gives more. */
  lemma {:induction false} AllPairsCount(kvs: seq<string>)
    ensures |AllPairs(kvs)| >= |kvs|
    ensures (exists i :: 0 <= i < |kvs| && |Split(kvs[i], '=')| >= 3) ==> |AllPairs(kvs)| > |kvs|
  {
    if kvs != [] {
      PairsCount(Split(kvs[0], '='));
      AllPairsCount(kvs[1..]);
      assert forall i | 1 <= i < |kvs| :: kvs[i] == kvs[1..][i - 1];
    }
  }

  lemma PieceCount(k: string, v: string)
    requires '=' in k || '=' in v
    ensures |Split(k + "=" + v, '=')| >= 3
  {
    assert k + "=" + v == k + ['='] + v;
    SplitConcat(k, '=', v);
    if '=' in k {
      SplitInTwo(k, '=');
    } else {
      SplitInTwo(v, '=');
    }
  }

  ghost predicate AllPlain(ps: seq<(string, string)>) {
    forall i | 0 <= i < |ps| :: Plain(ps[i].0) && Plain(ps[i].1)
  }

  lemma ExtraPairs(ps: seq<(string, string)>)
    requires ps != [] && !AllPlain(ps)
    ensures PrintPairs(ps) != [] && |QueryPairs(Join(PrintPairs(ps), '&'))| > |ps|
  {
    hide Pairs, AllPairs, Split, Join, PrintPairs;
    var i :| 0 <= i < |ps| && !(Plain(ps[i].0) && Plain(ps[i].1));
    var printed := PrintPairs(ps);
    PrintedAt(ps, i);
    JoinedPieces(printed, '&');
    AllPairsCount(Split(Join(printed, '&'), '&'));
    if forall k | 0 <= k < |printed| :: '&' !in printed[k] {
      SplitJoin(printed, '&');
      assert '&' !in printed[i];
      PieceCount(ps[i].0, ps[i].1);
    }
  }

  /** A printed query reads back as its pairs if and only if no part holds '=' or '&'. */
  lemma QueryRoundTrip(ps: seq<(string, string)>)
    requires ps != []
    ensures PrintPairs(ps) != []
    ensures QueryPairs(Join(PrintPairs(ps), '&')) == ps <==> AllPlain(ps)
  {
    if AllPlain(ps) {
      PrintedPairsReadBack(ps);
      SplitJoin(PrintPairs(ps), '&');
    } else {
      ExtraPairs(ps);
    }
  }

  // ---- The request ----

  datatype Phase = RequestLine | Headers | Body | Finished

  datatype Status = ReadContinue | ReadOver | ReadError | ReachMaxSize

  datatype Fields = Fields(
    part: Phase, verb: string, url: string, uri: string, version: string,
    headers: Params, urlParams: Params, bodyParams: Params)

  const NoFields := Fields(RequestLine, "", "", "", "", map[], map[], map[])

  /** Splits the url at '?' and reads the query up to a second '?'. */
  function ReadUrl(f: Fields): Fields {
    var parts := Split(f.url, '?');
    var g := f.(uri := parts[0]);
    if |parts| == 1 then g else g.(urlParams := SetAll(f.urlParams, QueryPairs(parts[1])))
  }

  /** Method, url and version; the flag tells whether the line was accepted. */
  function ReadRequestLine(f: Fields, line: string): (Fields, bool) {
    var parts := Split(line, ' ');
    var g := f.(verb := parts[0]);
    if |parts| == 1 then (g, false)
    else if |parts| == 2 then (g.(url := parts[1]), false)
    else (ReadUrl(g.(url := parts[1])).(version := parts[2]), true)
  }

  function ReadHeader(f: Fields, line: string): Fields {
    var parts := Split(line, ':');
    if |parts| < 2 then f else f.(headers := f.headers[Trim(parts[0]) := Trim(parts[1])])
  }

  /** Insertion keeps the first value of a key. */
  function InsertAll(m: Params, ps: seq<(string, string)>): Params
    decreases |ps|
  {
    if ps == [] then m
    else InsertAll(if ps[0].0 in m then m else m[ps[0].0 := ps[0].1], ps[1..])
  }

  datatype LineResult = More(f: Fields) | Stop(f: Fields) | Fail(f: Fields)

  function OneLine(f: Fields, line: string): LineResult {
    if line == "\r" then More(f.(part := Finished))
    else if f.part.RequestLine? then
      var (g, ok) := ReadRequestLine(f, line);
      if !ok || (g.verb != "POST" && g.verb != "GET") then Fail(g) else More(g.(part := Headers))
    else if f.part.Headers? && line != "" then More(ReadHeader(f, line))
    else if f.part.Body? && line != "" then
      Stop(f.(bodyParams := InsertAll(f.bodyParams, QueryPairs(line)), part := Finished))
    else More(f)
  }

  /** The loop over the lines: the fields afterwards and the status returned. */
  function ReadLines(f: Fields, lines: seq<string>): (Fields, Status)
    decreases |lines|
  {
    if lines == [] then (f, if f.part.Finished? then ReadOver else ReadContinue)
    else match OneLine(f, lines[0])
      case Fail(g) => (g, ReadError)
      case Stop(g) => (g, ReadOver)
      case More(g) => ReadLines(g, lines[1..])
  }

  predicate Complete(buff: string) {
    |buff| >= 4 && buff[|buff| - 4..] == BlankLineEnd
  }

  /** good: the stream has not been read to its end. */
  datatype State = State(f: Fields, buff: string, total: nat, good: bool)

  const Fresh := State(NoFields, "", 0, true)

  function Readable(s: State, chunk: string): (State, Status) {
    var s1 := s.(total := s.total + |chunk|);
    if s1.total > MaxRequestSize then (s1, ReachMaxSize)
    else
      var s2 := if s.good then s1.(buff := s.buff + chunk) else s1;
      if s2.total < 4 || !s2.good || !Complete(s2.buff) then (s2, ReadContinue)
      else
        var (f, status) := ReadLines(s2.f, Split(s2.buff, LF));
        (s2.(f := f, good := status == ReadError), status)
  }

  class Request {
    var f: Fields
    var buff: string
    var total: nat
    var good: bool

    ghost function View(): State
      reads this
    {
      State(f, buff, total, good)
    }

    constructor ()
      ensures View() == Fresh
    {
      f, buff, total, good := NoFields, "", 0, true;
    }

    method OnReadable(chunk: string) returns (status: Status)
      modifies this
      ensures (View(), status) == Readable(old(View()), chunk)
    {
      hide Split, OneLine;
      total := total + |chunk|;
      if total > MaxRequestSize {
        return ReachMaxSize;
      }
      if good {
        buff := buff + chunk;
      }
      if total < 4 || !good || !Complete(buff) {
        return ReadContinue;
      }
      var lines := Split(buff, LF);
      ghost var f0 := f;
      assert lines[0..] == lines;
      for i := 0 to |lines|
        invariant ReadLines(f0, lines) == ReadLines(f, lines[i..])
        invariant buff == old(View()).buff + chunk && total == old(View()).total + |chunk| && good
      {
        assert lines[i..][0] == lines[i] && lines[i..][1..] == lines[i + 1..];
        var r := ReadLine(lines[i]);
        if r.Fail? {
          return ReadError;
        }
        if r.Stop? {
          good := false;
          return ReadOver;
        }
      }
      good := false;
      status := if f.part.Finished? then ReadOver else ReadContinue;
    }

    /** The body of the loop over the lines. */
    method ReadLine(line: string) returns (r: LineResult)
      modifies `f
      ensures r == OneLine(old(f), line) && f == r.f
    {
      hide Split;
      if line == "\r" {
        f := f.(part := Finished);
      } else if f.part.RequestLine? {
        var ok := ParseRequestLine(line);
        if !ok || (f.verb != "POST" && f.verb != "GET") {
          return Fail(f);
        }
        f := f.(part := Headers);
      } else if f.part.Headers? && line != "" {
        f := ReadHeader(f, line);
      } else if f.part.Body? && line != "" {
        f := f.(bodyParams := InsertAll(f.bodyParams, QueryPairs(line)), part := Finished);
        return Stop(f);
      }
      r := More(f);
    }

    method ParseRequestLine(line: string) returns (ok: bool)
      modifies `f
      ensures (f, ok) == ReadRequestLine(old(f), line)
    {
      hide Split, ReadUrl;
      var parts := Split(line, ' ');
      f := f.(verb := parts[0]);
      if |parts| == 1 {
        return false;
      }
      f := f.(url := parts[1]);
      if |parts| == 2 {
        return false;
      }
      ParseUrlParams();
      f := f.(version := parts[2]);
      ok := true;
    }

    method ParseUrlParams()
      modifies `f
      ensures f == ReadUrl(old(f))
    {
      hide Split, SetAll, QueryPairs;
      var parts := Split(f.url, '?');
      f := f.(uri := parts[0]);
      if |parts| > 1 {
        var params := ReadQuery(f.urlParams, parts[1]);
        f := f.(urlParams := params);
      }
    }
  }

  // ---- Chunks ----

  /** The state and last status after a sequence of chunks. */
  function Feed(s: State, chunks: seq<string>): (State, Status)
    requires chunks != []
    decreases |chunks|
  {
    var (s', status) := Readable(s, chunks[0]);
    if |chunks| == 1 then (s', status) else Feed(s', chunks[1..])
  }

  function Concat(chunks: seq<string>): string {
    if chunks == [] then "" else chunks[0] + Concat(chunks[1..])
  }

  /** No chunk boundary before the last one falls, within the limit, right after a blank line. */
  ghost predicate CutCleanly(buff: string, chunks: seq<string>)
    decreases |chunks|
  {
    |chunks| <= 1 ||
    (!(Complete(buff + chunks[0]) && |buff + chunks[0]| <= MaxRequestSize) && CutCleanly(buff + chunks[0], chunks[1..]))
  }

  /** What a caller sees of a call: the parsed fields and the status. */
  function Outcome(r: (State, Status)): (Fields, Status) {
    (r.0.f, r.1)
  }

  /** A chunk that completes nothing is only stored. */
  lemma StoredOnly(s: State, chunk: string)
    requires s.good && s.total == |s.buff| && s.total + |chunk| <= MaxRequestSize && !Complete(s.buff + chunk)
    ensures Readable(s, chunk) == (s.(buff := s.buff + chunk, total := s.total + |chunk|), ReadContinue)
  {
  }

  lemma {:induction false} TooBigStays(s: State, chunks: seq<string>)
    requires chunks != [] && s.total > MaxRequestSize
    ensures Outcome(Feed(s, chunks)) == (s.f, ReachMaxSize)
    decreases |chunks|
  {
    if |chunks| > 1 {
      TooBigStays(Readable(s, chunks[0]).0, chunks[1..]);
    }
  }

  lemma {:induction false} FeedAsOne(s: State, chunks: seq<string>)
    requires chunks != [] && s.good && s.total == |s.buff| && CutCleanly(s.buff, chunks)
    ensures Outcome(Feed(s, chunks)) == Outcome(Readable(s, Concat(chunks)))
    decreases |chunks|
  {
    hide ReadLines, Split, Complete;
    if |chunks| == 1 {
      assert chunks[1..] == [] && Concat(chunks) == chunks[0];
    } else {
      var s1, rest := Readable(s, chunks[0]).0, Concat(chunks[1..]);
      assert s.buff + chunks[0] + rest == s.buff + Concat(chunks);
      assert |Concat(chunks)| == |chunks[0]| + |rest|;
      if s1.total > MaxRequestSize {
        TooBigStays(s1, chunks[1..]);
      } else {
        StoredOnly(s, chunks[0]);
        FeedAsOne(s1, chunks[1..]);
      }
    }
  }

  /** However a request of any size is cleanly cut, the final status and all fields are the same. */
  lemma ChunkingDoesNotMatter(chunks: seq<string>)
    requires chunks != [] && CutCleanly("", chunks)
    ensures Outcome(Feed(Fresh, chunks)) == Outcome(Feed(Fresh, [Concat(chunks)]))
  {
    hide Readable, CutCleanly;
    FeedAsOne(Fresh, chunks);
  }

  /** Nothing after the blank line is read. */
  lemma {:induction false} FinishedStays(f: Fields, lines: seq<string>)
    requires f.part.Finished?
    ensures ReadLines(f, lines) == (f, ReadOver)
    decreases |lines|
  {
    if lines != [] {
      FinishedStays(OneLine(f, lines[0]).f, lines[1..]);
    }
  }

  lemma {:induction false} BlankLineDecides(f: Fields, lines: seq<string>)
    requires "\r" in lines
    ensures ReadLines(f, lines).1 == ReadOver || ReadLines(f, lines).1 == ReadError
    decreases |lines|
  {
    match OneLine(f, lines[0])
    case More(g) =>
      if lines[0] == "\r" {
        FinishedStays(g, lines[1..]);
      } else {
        BlankLineDecides(g, lines[1..]);
      }
    case _ =>
  }

  lemma CompleteHasBlankLine(buff: string)
    requires Complete(buff)
    ensures "\r" in Split(buff, LF)
  {
    var x := buff[..|buff| - 4];
    assert buff == x + BlankLineEnd;
    assert buff == (x + "\r") + [LF] + "\r\n";
    SplitConcat(x + "\r", LF, "\r\n");
    assert "\r\n" == "\r" + [LF] + "";
    SplitConcat("\r", LF, "");
    SplitPlain("\r", LF);
    assert Split("\r\n", LF)[0] == "\r";
  }

  /** A buffer within the limit that ends in a blank line is decided: over or error, never continue. */
  lemma CompleteIsDecided(s: State, chunk: string)
    requires s.good && s.total == |s.buff| && s.total + |chunk| <= MaxRequestSize && Complete(s.buff + chunk)
    ensures Readable(s, chunk).1 == ReadOver || Readable(s, chunk).1 == ReadError
  {
    CompleteHasBlankLine(s.buff + chunk);
    BlankLineDecides(s.f, Split(s.buff + chunk, LF));
  }

  lemma {:induction false} NeverInBody(f: Fields, lines: seq<string>)
    requires !f.part.Body?
    ensures !ReadLines(f, lines).0.part.Body? && ReadLines(f, lines).0.bodyParams == f.bodyParams
    decreases |lines|
  {
    if lines != [] {
      var r := OneLine(f, lines[0]);
      if r.More? {
        NeverInBody(r.f, lines[1..]);
      }
    }
  }

  /** No sequence of chunks ever fills the body parameters: the body phase is never entered. */
  lemma {:induction false} BodyNeverRead(s: State, chunks: seq<string>)
    requires chunks != [] && !s.f.part.Body?
    ensures Feed(s, chunks).0.f.bodyParams == s.f.bodyParams
    decreases |chunks|
  {
    NeverInBody(s.f, Split(if s.good then s.buff + chunks[0] else s.buff, LF));
    if |chunks| > 1 {
      BodyNeverRead(Readable(s, chunks[0]).0, chunks[1..]);
    }
  }

  // ---- When a complete request is over ----

  /** A request line the reader refuses: fewer than three parts, or neither GET nor POST. */
  predicate Refused(line: string) {
    var parts := Split(line, ' ');
    line != "\r" && (|parts| < 3 || (parts[0] != "GET" && parts[0] != "POST"))
  }

  /** The fields a request line leaves behind, refused or not. */
  function After(line: string): Fields {
    ReadRequestLine(NoFields, line).0
  }

  lemma {:induction false} PastRequestLine(f: Fields, lines: seq<string>)
    requires f.part.Headers? || f.part.Finished?
    ensures var (g, status) := ReadLines(f, lines);
      status != ReadError && g.verb == f.verb && (status == ReadOver ==> g.part.Finished?)
    decreases |lines|
  {
    if lines != [] {
      PastRequestLine(OneLine(f, lines[0]).f, lines[1..]);
    }
  }

  /** The first line of a buffer ending in a blank line decides. */
  lemma FirstLineDecides(lines: seq<string>)
    requires lines != [] && "\r" in lines
    ensures var (g, status) := ReadLines(NoFields, lines);
      if Refused(lines[0]) then (g, status) == (After(lines[0]), ReadError)
      else status == ReadOver && g.part.Finished? && g.verb == if lines[0] == "\r" then "" else Split(lines[0], ' ')[0]
  {
    hide Split;
    BlankLineDecides(NoFields, lines);
    var r := OneLine(NoFields, lines[0]);
    if r.More? {
      PastRequestLine(r.f, lines[1..]);
    }
  }

  /**
   A complete request within the limit is accepted if and only if its first line is blank
   or is a request line of three parts with GET or POST; accepted, it has a method if and
   only if its first line is not blank.
   */
  lemma OverIffFirstLine(buff: string)
    requires Complete(buff) && |buff| <= MaxRequestSize
    ensures var first, (s, status) := Split(buff, LF)[0], Readable(Fresh, buff);
      && (status == ReadOver <==> !Refused(first))
      && (status == ReadOver ==> s.f.part.Finished? && (s.f.verb in {"GET", "POST"} <==> first != "\r"))
      && (status != ReadOver ==> status == ReadError && s.f == After(first))
  {
    hide Split, ReadLines, After, Complete, Readable, Refused;
    CompleteHasBlankLine(buff);
    FirstLineDecides(Split(buff, LF));
    ReadAtOnce(buff);
    AcceptedVerb(Split(buff, LF)[0]);
  }

  lemma ReadAtOnce(buff: string)
    requires Complete(buff) && |buff| <= MaxRequestSize
    ensures Outcome(Readable(Fresh, buff)) == ReadLines(NoFields, Split(buff, LF))
  {
    hide ReadLines, Split;
    assert "" + buff == buff;
  }

  lemma AcceptedVerb(line: string)
    ensures !Refused(line) && line != "\r" ==> Split(line, ' ')[0] in {"GET", "POST"}
    ensures "" !in {"GET", "POST"}
  {
    hide Split;
  }

  lemma StartsBlank()
    ensures Complete(BlankLineEnd) && Split(BlankLineEnd, LF)[0] == "\r"
  {
    var b := BlankLineEnd;
    assert b == "\r" + [LF] + "\r\n";
    SplitConcat("\r", LF, "\r\n");
    SplitPlain("\r", LF);
    assert b[|b| - 4..] == b;
  }

  /** Two blank lines are accepted without any method. */
  lemma BlankRequestAccepted()
    ensures Readable(Fresh, BlankLineEnd).1 == ReadOver && Readable(Fresh, BlankLineEnd).0.f.verb !in {"GET", "POST"}
  {
    hide Split, Readable, Complete, Refused;
    StartsBlank();
    BlankIsNotRefused();
    OverIffFirstLine(BlankLineEnd);
  }

  lemma BlankIsNotRefused()
    ensures !Refused("\r")
  {
  }

  // ---- What a request line sets ----

  /** A line of one word sets the method alone, one of two words the url as well; both are refused. */
  lemma ShortLine(verb: string, url: string)
    requires ' ' !in verb && ' ' !in url
    ensures After(verb) == NoFields.(verb := verb)
    ensures After(verb + " " + url) == NoFields.(verb := verb, url := url)
    ensures (verb != "\r" ==> Refused(verb)) && Refused(verb + " " + url)
  {
    SplitPlain(verb, ' ');
    SplitPlain(url, ' ');
    SplitConcat(verb, ' ', url);
    assert verb + " " + url == verb + [' '] + url;
    assert (verb + " " + url)[|verb|] == ' ' && ' ' !in "\r";
  }

  /** Three words and anything more after a blank: method, url and version; the rest is ignored. */
  lemma LongLine(verb: string, url: string, version: string, more: string)
    requires ' ' !in verb && ' ' !in url && ' ' !in version
    ensures After(verb + " " + url + " " + version) ==
      ReadUrl(NoFields.(verb := verb, url := url)).(version := version)
    ensures After(verb + " " + url + " " + version + " " + more) == After(verb + " " + url + " " + version)
    ensures Refused(verb + " " + url + " " + version) <==> verb !in {"GET", "POST"}
  {
    hide ReadUrl, Split;
    ThreeWords(verb, url, version);
    var line := verb + " " + url + " " + version;
    assert line + " " + more == line + [' '] + more;
    SplitConcat(line, ' ', more);
    assert line[|verb|] == ' ' && ' ' !in "\r";
  }

  lemma ThreeWords(a: string, b: string, c: string)
    requires ' ' !in a && ' ' !in b && ' ' !in c
    ensures Split(a + " " + b + " " + c, ' ') == [a, b, c]
  {
    hide Split;
    assert a + " " + b + " " + c == a + [' '] + (b + [' '] + c);
    SplitConcat(a, ' ', b + [' '] + c);
    SplitConcat(b, ' ', c);
    SplitPlain(a, ' ');
    SplitPlain(b, ' ');
    SplitPlain(c, ' ');
  }

  /** The url up to its first '?' is the uri; the query ends at a second '?'. */
  lemma UrlParts(f: Fields, uri: string, query: string, more: string)
    requires '?' !in uri && '?' !in query
    ensures ReadUrl(f.(url := uri)) == f.(url := uri, uri := uri)
    ensures var url := uri + "?" + query;
      ReadUrl(f.(url := url)) == f.(url := url, uri := uri, urlParams := SetAll(f.urlParams, QueryPairs(query)))
    ensures var url := uri + "?" + query + "?" + more;
      ReadUrl(f.(url := url)) == f.(url := url, uri := uri, urlParams := SetAll(f.urlParams, QueryPairs(query)))
  {
    hide Split, SetAll, QueryPairs;
    SplitPlain(uri, '?');
    SplitPlain(query, '?');
    assert uri + "?" + query == uri + ['?'] + query;
    SplitConcat(uri, '?', query);
    assert uri + "?" + query + "?" + more == (uri + "?" + query) + ['?'] + more;
    SplitConcat(uri + "?" + query, '?', more);
  }

  /** A header line without a colon sets nothing. */
  lemma NoColonNoHeader(f: Fields, line: string)
    requires f.part.Headers? && line != "\r" && ':' !in line
    ensures OneLine(f, line) == More(f)
  {
    SplitPlain(line, ':');
  }

  // ---- When a cut matters ----

  /** Once a request is over, further chunks change no field and decide nothing. */
  lemma {:induction false} OverIsFinal(s: State, chunks: seq<string>)
    requires chunks != [] && !s.good
    ensures !Feed(s, chunks).0.good
    ensures Outcome(Feed(s, chunks)) ==
      (s.f, if s.total + |Concat(chunks)| > MaxRequestSize then ReachMaxSize else ReadContinue)
    decreases |chunks|
  {
    assert |Concat(chunks)| == |chunks[0]| + |Concat(chunks[1..])|;
    if |chunks| > 1 {
      OverIsFinal(Readable(s, chunks[0]).0, chunks[1..]);
    }
  }

  lemma {:induction false} SetAllOnKey(m: Params, m': Params, ps: seq<(string, string)>, k: string)
    ensures var a, b := SetAll(m, ps), SetAll(m', ps);
      if exists p | p in ps :: p.0 == k then k in a && k in b && a[k] == b[k]
      else (k in a <==> k in m) && (k in a ==> a[k] == m[k])
    decreases |ps|
  {
    if ps != [] {
      SetAllOnKey(m[ps[0].0 := ps[0].1], m'[ps[0].0 := ps[0].1], ps[1..], k);
      assert forall p :: p in ps <==> p == ps[0] || p in ps[1..];
      if exists p | p in ps[1..] :: p.0 == k {
        var p :| p in ps[1..] && p.0 == k;
        assert p in ps;
      } else {
        SetAllOnKey(m'[ps[0].0 := ps[0].1], m[ps[0].0 := ps[0].1], ps[1..], k);
      }
    }
  }

  lemma SetAllTwice(m: Params, ps: seq<(string, string)>)
    ensures SetAll(SetAll(m, ps), ps) == SetAll(m, ps)
  {
    hide SetAll;
    var a, b := SetAll(SetAll(m, ps), ps), SetAll(m, ps);
    forall k ensures (k in a <==> k in b) && (k in a ==> a[k] == b[k]) {
      SetAllOnKey(b, m, ps, k);
    }
  }

  /** Parsing the same request line again changes nothing. */
  lemma RequestLineTwice(line: string)
    ensures ReadRequestLine(After(line), line) == ReadRequestLine(NoFields, line)
  {
    hide Split, SetAll;
    var url := Split(line, ' ');
    if |url| > 2 {
      var parts := Split(url[1], '?');
      if |parts| > 1 {
        SetAllTwice(map[], QueryPairs(parts[1]));
      }
    }
  }

  lemma {:induction false} FirstPieceStays(p: string, q: string, d: char)
    requires d in p
    ensures Split(p + q, d)[0] == Split(p, d)[0]
  {
    assert (p + q)[0] == p[0] && (p + q)[1..] == p[1..] + q;
    if p[0] != d {
      FirstPieceStays(p[1..], q, d);
    }
  }

  /** The same first line, refused again and again while chunks arrive. */
  ghost predicate RefusedSoFar(s: State, line: string) {
    && s.good && s.total == |s.buff| && LF in s.buff
    && Split(s.buff, LF)[0] == line && Refused(line) && s.f == After(line)
  }

  lemma RefusedAgain(s: State, line: string, chunk: string)
    requires RefusedSoFar(s, line) && s.total + |chunk| <= MaxRequestSize
    ensures var (s', status) := Readable(s, chunk);
      RefusedSoFar(s', line) && s'.buff == s.buff + chunk &&
      status == if Complete(s.buff + chunk) then ReadError else ReadContinue
  {
    hide Split;
    FirstPieceStays(s.buff, chunk, LF);
    RequestLineTwice(line);
  }

  lemma {:induction false} RefusedForGood(s: State, line: string, chunks: seq<string>)
    requires chunks != [] && RefusedSoFar(s, line)
    ensures Outcome(Feed(s, chunks)) == (After(line), Decision(s.buff + Concat(chunks), ReadError))
    decreases |chunks|
  {
    hide Complete, RefusedSoFar, Split, After;
    var s1, rest := Readable(s, chunks[0]).0, Concat(chunks[1..]);
    RefusedFacts(s, line);
    assert s.buff + Concat(chunks) == s.buff + chunks[0] + rest;
    if s.total + |chunks[0]| > MaxRequestSize {
      if |chunks| > 1 {
        TooBigStays(s1, chunks[1..]);
      }
    } else {
      RefusedAgain(s, line, chunks[0]);
      if |chunks| > 1 {
        RefusedForGood(s1, line, chunks[1..]);
      } else {
        RefusedFacts(s1, line);
        assert s.buff + chunks[0] + rest == s.buff + chunks[0];
      }
    }
  }

  lemma RefusedFacts(s: State, line: string)
    requires RefusedSoFar(s, line)
    ensures s.good && s.total == |s.buff| && s.f == After(line)
  {
  }

  /** The status of a whole text that is decided as given when it is complete. */
  function Decision(text: string, decided: Status): Status {
    if |text| > MaxRequestSize then ReachMaxSize else if Complete(text) then decided else ReadContinue
  }

  lemma WholeOutcome(text: string)
    ensures var r, first := Outcome(Readable(Fresh, text)), Split(text, LF)[0];
      if |text| > MaxRequestSize || !Complete(text) then r == (NoFields, Decision(text, ReadOver))
      else if Refused(first) then r == (After(first), ReadError)
      else r.1 == ReadOver
  {
    hide Split, Refused, Complete, ReadLines, After;
    assert "" + text == text;
    if Complete(text) && |text| <= MaxRequestSize {
      OverIffFirstLine(text);
    }
  }

  lemma {:induction false} LateCutsAreClean(buff: string, chunks: seq<string>)
    requires |buff| > MaxRequestSize
    ensures CutCleanly(buff, chunks)
    decreases |chunks|
  {
    hide Complete;
    if |chunks| > 1 {
      LateCutsAreClean(buff + chunks[0], chunks[1..]);
    }
  }

  /** What an unclean cut leads to: the first line decides at the cut, once and for all. */
  lemma {:induction false} EarlyCutOutcome(buff: string, chunks: seq<string>)
    requires !CutCleanly(buff, chunks)
    ensures var r, text := Outcome(Feed(Fresh.(buff := buff, total := |buff|), chunks)), buff + Concat(chunks);
      var first := Split(text, LF)[0];
      if Refused(first) then r == (After(first), Decision(text, ReadError))
      else r.0.part.Finished? && r.1 == (if |text| > MaxRequestSize then ReachMaxSize else ReadContinue)
    decreases |chunks|
  {
    hide Split, Refused, Complete, Readable;
    var s, p, rest := Fresh.(buff := buff, total := |buff|), buff + chunks[0], Concat(chunks[1..]);
    assert buff + Concat(chunks) == p + rest;
    if |p| > MaxRequestSize {
      LateCutsAreClean(p, chunks[1..]);
    } else if Complete(p) {
      CutHere(s, chunks[0], rest);
      var s1, first := Readable(s, chunks[0]).0, Split(p + rest, LF)[0];
      if Refused(first) {
        RefusedForGood(s1, first, chunks[1..]);
      } else {
        OverIsFinal(s1, chunks[1..]);
      }
    } else {
      StoredOnly(s, chunks[0]);
      EarlyCutOutcome(p, chunks[1..]);
    }
  }

  /** The first complete buffer, and the text that goes on after it. */
  lemma CutHere(s: State, chunk: string, rest: string)
    requires s == Fresh.(buff := s.buff, total := |s.buff|)
    requires Complete(s.buff + chunk) && |s.buff + chunk| <= MaxRequestSize
    ensures var s1, first := Readable(s, chunk).0, Split(s.buff + chunk + rest, LF)[0];
      && s1.total == |s.buff + chunk|
      && (Refused(first) ==> RefusedSoFar(s1, first) && s1.buff == s.buff + chunk)
      && (!Refused(first) ==> !s1.good && s1.f.part.Finished?)
  {
    hide Split, Refused;
    var p := s.buff + chunk;
    assert p[|p| - 1] == BlankLineEnd[3];
    FirstPieceStays(p, rest, LF);
    CompleteHasBlankLine(p);
    FirstLineDecides(Split(p, LF));
  }

  /** A request line that leaves every field as it was. */
  predicate SetsNothing(line: string) {
    var parts := Split(line, ' ');
    parts[0] == "" && (|parts| > 1 ==> parts[1] == "") && (|parts| > 2 ==> parts[2] == "")
  }

  lemma SetsNothingMeans(line: string)
    ensures SetsNothing(line) <==> After(line) == NoFields
  {
    assert Split("", '?') == [""];
  }

  /**
   Cutting changes nothing a caller sees if and only if every early cut is clean, or the
   request line is refused and either it sets no field or the whole is complete and not too big.
   */
  lemma CutMattersIff(chunks: seq<string>)
    requires chunks != []
    ensures var text := Concat(chunks);
      var first := Split(text, LF)[0];
      Outcome(Feed(Fresh, chunks)) == Outcome(Feed(Fresh, [text])) <==>
        || CutCleanly("", chunks)
        || (Refused(first) && (SetsNothing(first) || (Complete(text) && |text| <= MaxRequestSize)))
  {
    hide Split, Refused, Complete, Readable, CutCleanly, SetsNothing, After, Feed;
    var text := Concat(chunks);
    FeedFew(Fresh, text, "");
    if CutCleanly("", chunks) {
      ChunkingDoesNotMatter(chunks);
    } else {
      assert "" + text == text && Fresh.(buff := "", total := 0) == Fresh;
      EarlyCutOutcome("", chunks);
      WholeOutcome(text);
      SetsNothingMeans(Split(text, LF)[0]);
    }
  }

  lemma FeedFew(s: State, a: string, b: string)
    ensures Feed(s, [a]) == Readable(s, a)
    ensures Feed(s, [a, b]) == Feed(Readable(s, a).0, [b])
  {
    hide Readable;
    assert [a, b][1..] == [b];
  }

  /** Four bytes that end a request, sent twice: in one piece they are accepted, cut they end undecided. */
  lemma BoundaryAfterBlankLineMatters()
    ensures Feed(Fresh, [BlankLineEnd, BlankLineEnd]).1 == ReadContinue
    ensures Feed(Fresh, [BlankLineEnd + BlankLineEnd]).1 == ReadOver
  {
    hide Split, Refused, Complete, Readable, Feed;
    var b := BlankLineEnd;
    StartsBlank();
    BlankIsNotRefused();
    BlankRequestAccepted();
    DoubledEnd();
    FeedFew(Fresh, b, b);
    FeedFew(Fresh, b + b, "");
    OverEndsStream(Fresh, b);
    OverIsFinal(Readable(Fresh, b).0, [b]);
    FirstPieceStays(b, b, LF);
    OverIffFirstLine(b + b);
    assert Concat([b]) == b by { assert [b][1..] == []; }
  }

  lemma OverEndsStream(s: State, chunk: string)
    requires Readable(s, chunk).1 == ReadOver
    ensures !Readable(s, chunk).0.good && Readable(s, chunk).0.total == s.total + |chunk|
  {
  }

  lemma DoubledEnd()
    ensures Complete(BlankLineEnd + BlankLineEnd) && |BlankLineEnd + BlankLineEnd| == 8
  {
    var both := BlankLineEnd + BlankLineEnd;
    assert both[|both| - 4..] == BlankLineEnd;
  }
}
