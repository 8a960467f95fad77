/** Printing a request and parsing it back. */
module RequestPrinter {
  import opened CString
  import opened HashMap
  import opened Wrappers
  import opened RequestParser

  datatype Request = Request(verb: string, path: string, query: seq<Binding>, protocol: string, version: string,
                             headers: seq<Binding>, body: string)

  // ---------- printing ----------

  function Pair(b: Binding): string { b.key + "=" + b.value }

  function Pairs(q: seq<Binding>): string
    requires q != []
  {
    if |q| == 1 then Pair(q[0]) else Pair(q[0]) + "&" + Pairs(q[1..])
  }

  function Header(b: Binding): string { b.key + ": " + b.value + "\r\n" }

  function Headers(hs: seq<Binding>): string {
    if hs == [] then "" else Header(hs[0]) + Headers(hs[1..])
  }

  /** From the protocol to the end of the body. */
  function Tail(r: Request): string {
    r.protocol + (['/'] + (r.version + (['\r'] + (['\n'] + (Headers(r.headers) + (['\r'] + (['\n'] + r.body)))))))
  }

  /** verb SP path [ "?" pairs ] SP protocol "/" version CRLF headers CRLF body */
  function Print(r: Request): string {
    r.verb + ([' '] + (r.path +
      (if r.query == [] then [' '] + Tail(r) else ['?'] + (Pairs(r.query) + ([' '] + Tail(r))))))
  }

  // ---------- what can be printed ----------

  predicate Lacks(s: string, bad: string) { forall i | 0 <= i < |s| :: s[i] !in bad && s[i] != '\0' }

  predicate NoLineBreak(s: string) {
    forall i | 0 <= i < |s| :: s[i] != '\0' && !(s[i] == '\r' && i + 1 < |s| && s[i + 1] == '\n')
  }

  predicate WellFormed(r: Request) {
    && r.verb != [] && (r.verb[0] == 'G' || r.verb[0] == 'P') && Lacks(r.verb, " ")
    && r.path != [] && r.path[0] == '/' && Lacks(r.path, "? ")
    && (forall i | 0 <= i < |r.query| :: Lacks(r.query[i].key, "= ") && Lacks(r.query[i].value, "& "))
    && Lacks(r.protocol, "/") && NoLineBreak(r.version)
    && (forall i | 0 <= i < |r.headers| :: WellFormedHeader(r.headers[i]))
  }

  predicate WellFormedHeader(h: Binding) {
    h.key != [] && 'A' <= h.key[0] <= 'Z' && Lacks(h.key, ":") && NoLineBreak(h.key) && NoLineBreak(h.value)
  }

  // ---------- fields ----------

  /** In this state the character is kept and nothing else happens. */
  predicate Kept(state: State, write: bool, c: char, next: char) {
    match state
    case Method => write && c != ' '
    case Path => write && c != '?' && c != ' '
    case QueryStart => c != '=' && next != ' '
    case QueryTemp => c != '&' && c != ' '
    case PvStart => c != '/'
    case PvTemp => !(c == '\r' && next == '\n')
    case Param1 => (write || 'A' <= c <= 'Z') && c != ':' && !(c == '\r' && next == '\n')
    case Param3 => !(c == '\r' && next == '\n')
    case _ => false
  }

  /** Every character of a field that `after` follows is kept. */
  predicate AllKept(state: State, write: bool, seg: string, after: char)
    decreases |seg|
  {
    seg == [] ||
    (seg[0] != '\0' && Kept(state, write, seg[0], if |seg| > 1 then seg[1] else after)
        && AllKept(state, true, seg[1..], after))
  }

  lemma {:induction false} KeptStep(hash: string -> nat, m: Machine, s: string)
    requires Ok(m) && s != [] && Kept(m.state, m.write, s[0], Head(s[1..]))
    ensures Step(hash, m, s) == m.(temp := m.temp + [s[0]], write := true)
  {
  }

  lemma {:induction false} SplitHead(seg: string, rest: string)
    requires seg != []
    ensures (seg + rest)[1..] == seg[1..] + rest && seg + rest == [seg[0]] + (seg[1..] + rest)
    ensures Head((seg + rest)[1..]) == if |seg| > 1 then seg[1] else Head(rest)
  {
  }

  lemma {:induction false} JoinHead(temp: string, seg: string)
    requires seg != []
    ensures temp + [seg[0]] + seg[1..] == temp + seg
  {
  }

  lemma {:induction false} Scan(hash: string -> nat, m: Machine, seg: string, rest: string)
    requires Ok(m) && AllKept(m.state, m.write, seg, Head(rest))
    ensures Run(hash, m, seg + rest) == Run(hash, m.(temp := m.temp + seg, write := m.write || seg != []), rest)
    decreases |seg|
  {
    if seg == [] {
      assert seg + rest == rest && m.temp + seg == m.temp;
    } else {
      SplitHead(seg, rest);
      KeptStep(hash, m, seg + rest);
      JoinHead(m.temp, seg);
      Scan(hash, m.(temp := m.temp + [seg[0]], write := true), seg[1..], rest);
    }
  }

  lemma {:induction false} OneStep(hash: string -> nat, m: Machine, c: char, rest: string)
    requires Ok(m) && !Stopped(m.state) && c != '\0'
    ensures Run(hash, m, [c] + rest) == Run(hash, Step(hash, m, [c] + rest), rest)
  {
    assert ([c] + rest)[1..] == rest;
  }

  /** A field scanned up to its terminating character, which empties the buffer. */
  lemma {:induction false} FieldAfter(hash: string -> nat, m: Machine, seg: string, c: char, rest: string)
    requires Ok(m) && c != '\0' && AllKept(m.state, m.write, seg, c) && !Stopped(m.state)
    ensures var n := m.(temp := m.temp + seg, write := m.write || seg != []);
            Run(hash, m, seg + ([c] + rest)) == Run(hash, Step(hash, n, [c] + rest), rest)
  {
    Scan(hash, m, seg, [c] + rest);
    OneStep(hash, m.(temp := m.temp + seg, write := m.write || seg != []), c, rest);
  }

  lemma {:induction false} Field(hash: string -> nat, m: Machine, seg: string, c: char, rest: string)
    requires Ok(m) && m.temp == "" && c != '\0' && AllKept(m.state, m.write, seg, c) && !Stopped(m.state)
    ensures var n := m.(temp := seg, write := m.write || seg != []);
            Run(hash, m, seg + ([c] + rest)) == Run(hash, Step(hash, n, [c] + rest), rest)
  {
    FieldAfter(hash, m, seg, c, rest);
    assert "" + seg == seg;
  }

  /** A field without the characters that end it is kept. */
  lemma {:induction false} PlainField(state: State, write: bool, seg: string, after: char)
    requires match state
             case Method => write && Lacks(seg, " ")
             case Path => write && Lacks(seg, "? ")
             case QueryStart => Lacks(seg, "= ") && after == '='
             case QueryTemp => Lacks(seg, "& ")
             case PvStart => Lacks(seg, "/")
             case PvTemp => NoLineBreak(seg) && after == '\r'
             case Param1 => (write || (seg != [] && 'A' <= seg[0] <= 'Z')) && Lacks(seg, ":") && NoLineBreak(seg)
                 && after == ':'
             case Param3 => NoLineBreak(seg) && after == '\r'
             case _ => false
    ensures AllKept(state, write, seg, after)
    decreases |seg|
  {
    if seg != [] {
      assert forall i | 0 <= i < |seg[1..]| :: seg[1..][i] == seg[i + 1];
      PlainField(state, true, seg[1..], after);
    }
  }

  // ---------- the characters that end a field ----------

  lemma {:induction false} EndVerb(hash: string -> nat, n: Machine, rest: string)
    requires Ok(n) && n.state == Method
    ensures Step(hash, n, [' '] + rest)
            == n.(write := false, temp := "", state := PathStart, req := n.req.(verb := n.temp))
  {
  }

  lemma {:induction false} EndPath(hash: string -> nat, n: Machine, c: char, rest: string)
    requires Ok(n) && n.state == Path && (c == '?' || c == ' ')
    ensures Step(hash, n, [c] + rest)
            == n.(write := false, temp := "", state := if c == '?' then QueryStart else PvStart,
                req := n.req.(path := n.temp))
  {
  }

  lemma {:induction false} EndKey(hash: string -> nat, n: Machine, rest: string)
    requires Ok(n) && n.state == QueryStart
    ensures Step(hash, n, ['='] + rest)
            == n.(write := false, temp := "", state := QueryTemp, req := n.req.(qkey := n.temp))
  {
  }

  lemma {:induction false} EndValue(hash: string -> nat, n: Machine, c: char, rest: string)
    requires Ok(n) && n.state == QueryTemp && (c == '&' || c == ' ')
    ensures Step(hash, n, [c] + rest)
            == n.(write := false, temp := "", state := if c == '&' then QueryStart else PvStart,
                  req := n.req.(query := Put(hash, n.req.query, n.req.qkey, n.temp)))
  {
  }

  lemma {:induction false} EndProtocol(hash: string -> nat, n: Machine, rest: string)
    requires Ok(n) && n.state == PvStart
    ensures Step(hash, n, ['/'] + rest)
            == n.(write := false, temp := "", state := PvTemp, req := n.req.(protocol := n.temp))
  {
  }

  lemma {:induction false} EndVersion(hash: string -> nat, n: Machine, rest: string)
    requires Ok(n) && n.state == PvTemp && Head(rest) == '\n'
    ensures Step(hash, n, ['\r'] + rest)
            == n.(write := false, temp := "", state := ParamStart, req := n.req.(version := n.temp))
  {
    assert (['\r'] + rest)[1..] == rest;
  }

  lemma {:induction false} EndName(hash: string -> nat, n: Machine, rest: string)
    requires Ok(n) && n.state == Param1
    ensures Step(hash, n, [':'] + rest)
            == n.(write := false, temp := "", state := Param2, req := n.req.(pkey := n.temp))
  {
  }

  lemma {:induction false} EndHeader(hash: string -> nat, n: Machine, rest: string)
    requires Ok(n) && n.state == Param3 && Head(rest) == '\n'
    ensures Step(hash, n, ['\r'] + rest)
            == n.(write := false, temp := "", state := ParamStart,
                req := n.req.(params := Put(hash, n.req.params, n.req.pkey, n.temp)))
  {
    assert (['\r'] + rest)[1..] == rest;
  }

  lemma {:induction false} StepNewline(hash: string -> nat, n: Machine, rest: string)
    requires Ok(n) && n.state == ParamStart && !n.write && n.temp == ""
    ensures Step(hash, n, ['\n'] + rest) == n.(state := Param1)
  {
  }

  lemma {:induction false} StepSpace(hash: string -> nat, n: Machine, rest: string)
    requires Ok(n) && n.state == Param2 && !n.write && n.temp == ""
    ensures Step(hash, n, [' '] + rest) == n.(state := Param3)
  {
  }

  lemma {:induction false} StepBlank(hash: string -> nat, n: Machine, rest: string)
    requires Ok(n) && n.state == Param1 && !n.write && n.temp == "" && Head(rest) == '\n'
    ensures Step(hash, n, ['\r'] + rest) == n.(state := BodyStart)
  {
    assert (['\r'] + rest)[1..] == rest;
  }

  lemma {:induction false} StepBodyStart(hash: string -> nat, n: Machine, rest: string)
    requires Ok(n) && n.state == BodyStart && !n.write && n.temp == ""
    ensures Step(hash, n, ['\n'] + rest)
            == if n.req.verb == "POST" then n.(state := Body) else n.(state := Done, req := n.req.(body := Some("")))
  {
  }

  /** The first character of a verb or a path, which is already part of it. */
  lemma {:induction false} OpenField(hash: string -> nat, m: Machine, m1: Machine, seg: string, c: char, rest: string)
    requires Ok(m) && !Stopped(m.state) && seg != [] && seg[0] != '\0' && c != '\0'
    requires Step(hash, m, seg + ([c] + rest)) == m1 && m1.temp == [seg[0]] && m1.write && !Stopped(m1.state)
    requires AllKept(m1.state, true, seg[1..], c)
    ensures Run(hash, m, seg + ([c] + rest)) == Run(hash, Step(hash, m1.(temp := seg), [c] + rest), rest)
  {
    SplitHead(seg, [c] + rest);
    OneStep(hash, m, seg[0], seg[1..] + ([c] + rest));
    FieldAfter(hash, m1, seg[1..], c, rest);
    JoinHead("", seg);
    assert "" + [seg[0]] == [seg[0]] && "" + seg == seg;
  }

  // ---------- the request line ----------

  lemma {:induction false} ParseVerb(hash: string -> nat, verb: string, rest: string)
    requires verb != [] && (verb[0] == 'G' || verb[0] == 'P') && Lacks(verb, " ")
    ensures Run(hash, Init(), verb + ([' '] + rest))
            == Run(hash, Init().(state := PathStart, req := EmptyReq().(verb := verb)), rest)
  {
    var m := Init().(state := Method, write := true, temp := [verb[0]]);
    PlainField(m.state, m.write, verb[1..], ' ');
    OpenField(hash, Init(), m, verb, ' ', rest);
    EndVerb(hash, m.(temp := verb), rest);
  }

  lemma {:induction false} ParsePath(hash: string -> nat, m: Machine, path: string, c: char, rest: string)
    requires Ok(m) && m.state == PathStart && !m.write && m.temp == "" && (c == '?' || c == ' ')
    requires path != [] && path[0] == '/' && Lacks(path, "? ")
    ensures Run(hash, m, path + ([c] + rest))
            == Run(hash, m.(state := if c == '?' then QueryStart else PvStart, req := m.req.(path := path)), rest)
  {
    var m1 := m.(state := Path, write := true, temp := [path[0]]);
    PlainField(m1.state, m1.write, path[1..], c);
    OpenField(hash, m, m1, path, c, rest);
    EndPath(hash, m1.(temp := path), c, rest);
  }

  /** One pair of the query; the last one ends with a space, the others with an ampersand. */
  lemma {:induction false} ParsePair(hash: string -> nat, m: Machine, b: Binding, c: char, rest: string)
    requires Ok(m) && m.state == QueryStart && !m.write && m.temp == "" && (c == '&' || c == ' ')
    requires Lacks(b.key, "= ") && Lacks(b.value, "& ")
    ensures Run(hash, m, Pair(b) + ([c] + rest))
            == Run(hash, m.(state := if c == '&' then QueryStart else PvStart,
                            req := m.req.(qkey := b.key, query := Put(hash, m.req.query, b.key, b.value))), rest)
  {
    var more := b.value + ([c] + rest);
    assert Pair(b) + ([c] + rest) == b.key + (['='] + more);
    ParseKey(hash, m, b.key, more);
    ParseValue(hash, m.(state := QueryTemp, req := m.req.(qkey := b.key)), b.value, c, rest);
  }

  lemma {:induction false} ParseKey(hash: string -> nat, m: Machine, key: string, rest: string)
    requires Ok(m) && m.state == QueryStart && !m.write && m.temp == "" && Lacks(key, "= ")
    ensures Run(hash, m, key + (['='] + rest)) == Run(hash, m.(state := QueryTemp, req := m.req.(qkey := key)), rest)
  {
    PlainField(m.state, m.write, key, '=');
    Field(hash, m, key, '=', rest);
    EndKey(hash, m.(temp := key, write := key != []), rest);
  }

  lemma {:induction false} ParseValue(hash: string -> nat, n: Machine, value: string, c: char, rest: string)
    requires Ok(n) && n.state == QueryTemp && !n.write && n.temp == "" && Lacks(value, "& ") && (c == '&' || c == ' ')
    ensures Run(hash, n, value + ([c] + rest))
            == Run(hash, n.(state := if c == '&' then QueryStart else PvStart,
                            req := n.req.(query := Put(hash, n.req.query, n.req.qkey, value))), rest)
  {
    PlainField(n.state, n.write, value, c);
    Field(hash, n, value, c, rest);
    EndValue(hash, n.(temp := value, write := value != []), c, rest);
  }

  lemma {:induction false} ParsePairs(hash: string -> nat, m: Machine, q: seq<Binding>, rest: string)
      returns (key: string)
    requires Ok(m) && m.state == QueryStart && !m.write && m.temp == "" && q != []
    requires forall i | 0 <= i < |q| :: Lacks(q[i].key, "= ") && Lacks(q[i].value, "& ")
    ensures Run(hash, m, Pairs(q) + ([' '] + rest))
            == Run(hash, m.(state := PvStart, req := m.req.(qkey := key, query := PutEach(hash, m.req.query, q))), rest)
    decreases |q|
  {
    if |q| == 1 {
      ParsePair(hash, m, q[0], ' ', rest);
      assert q[1..] == [];
      key := q[0].key;
    } else {
      var more := Pairs(q[1..]) + ([' '] + rest);
      assert Pairs(q) + ([' '] + rest) == Pair(q[0]) + (['&'] + more);
      ParsePair(hash, m, q[0], '&', more);
      key := ParsePairs(hash,
          m.(req := m.req.(qkey := q[0].key, query := Put(hash, m.req.query, q[0].key, q[0].value))), q[1..], rest);
    }
  }

  /** Inserting pairs front to back, as the parser meets them. */
  function PutEach(hash: string -> nat, bs: Buckets, q: seq<Binding>): (r: Buckets)
    requires bs != []
    ensures r != []
    decreases |q|
  {
    if q == [] then bs else PutEach(hash, Put(hash, bs, q[0].key, q[0].value), q[1..])
  }

  lemma {:induction false} PutEachIsPutAll(hash: string -> nat, bs: Buckets, q: seq<Binding>, r: seq<Binding>)
    requires bs != []
    ensures PutEach(hash, PutAll(hash, bs, q), r) == PutAll(hash, bs, q + r)
    decreases |r|
  {
    if r == [] {
      assert q + r == q;
    } else {
      assert (q + [r[0]])[..|q|] == q && q + [r[0]] + r[1..] == q + r;
      PutEachIsPutAll(hash, bs, q + [r[0]], r[1..]);
    }
  }

  lemma {:induction false} ParseProtocol(hash: string -> nat, m: Machine, protocol: string, version: string,
      rest: string)
    requires Ok(m) && m.state == PvStart && !m.write && m.temp == "" && Lacks(protocol, "/") && NoLineBreak(version)
    requires Head(rest) == '\n'
    ensures Run(hash, m, protocol + (['/'] + (version + (['\r'] + rest))))
            == Run(hash, m.(state := ParamStart, req := m.req.(protocol := protocol, version := version)), rest)
  {
    PlainField(m.state, m.write, protocol, '/');
    Field(hash, m, protocol, '/', version + (['\r'] + rest));
    EndProtocol(hash, m.(temp := protocol, write := protocol != []), version + (['\r'] + rest));
    var n := m.(state := PvTemp, req := m.req.(protocol := protocol));
    PlainField(n.state, n.write, version, '\r');
    Field(hash, n, version, '\r', rest);
    EndVersion(hash, n.(temp := version, write := version != []), rest);
  }

  // ---------- headers and body ----------

  /** One header, from the line feed before it to the carriage return after it. */
  lemma {:induction false} ParseHeader(hash: string -> nat, m: Machine, b: Binding, rest: string)
    requires Ok(m) && m.state == ParamStart && !m.write && m.temp == "" && WellFormedHeader(b) && Head(rest) == '\n'
    ensures Run(hash, m, ['\n'] + (b.key + ([':'] + ([' '] + (b.value + (['\r'] + rest))))))
            == Run(hash, m.(req := m.req.(pkey := b.key, params := Put(hash, m.req.params, b.key, b.value))), rest)
  {
    var tail2 := b.value + (['\r'] + rest);
    var tail1 := b.key + ([':'] + ([' '] + tail2));
    OneStep(hash, m, '\n', tail1);
    StepNewline(hash, m, tail1);
    ParseName(hash, m.(state := Param1), b.key, tail2);
    ParseHeaderValue(hash, m.(state := Param3, req := m.req.(pkey := b.key)), b.value, rest);
  }

  lemma {:induction false} ParseName(hash: string -> nat, m: Machine, name: string, rest: string)
    requires Ok(m) && m.state == Param1 && !m.write && m.temp == ""
    requires name != [] && 'A' <= name[0] <= 'Z' && Lacks(name, ":") && NoLineBreak(name)
    ensures Run(hash, m, name + ([':'] + ([' '] + rest)))
            == Run(hash, m.(state := Param3, req := m.req.(pkey := name)), rest)
  {
    PlainField(m.state, m.write, name, ':');
    Field(hash, m, name, ':', [' '] + rest);
    EndName(hash, m.(temp := name, write := true), [' '] + rest);
    var n := m.(state := Param2, req := m.req.(pkey := name));
    OneStep(hash, n, ' ', rest);
    StepSpace(hash, n, rest);
  }

  lemma {:induction false} ParseHeaderValue(hash: string -> nat, m: Machine, value: string, rest: string)
    requires Ok(m) && m.state == Param3 && !m.write && m.temp == "" && NoLineBreak(value) && Head(rest) == '\n'
    ensures Run(hash, m, value + (['\r'] + rest))
            == Run(hash, m.(state := ParamStart,
                req := m.req.(params := Put(hash, m.req.params, m.req.pkey, value))), rest)
  {
    PlainField(m.state, m.write, value, '\r');
    Field(hash, m, value, '\r', rest);
    EndHeader(hash, m.(temp := value, write := value != []), rest);
  }

  lemma {:induction false} HeadersFirst(hs: seq<Binding>, rest: string)
    requires hs != []
    ensures var b, more := hs[0], ['\n'] + (Headers(hs[1..]) + rest);
            ['\n'] + (Headers(hs) + rest) == ['\n'] + (b.key + ([':'] + ([' '] + (b.value + (['\r'] + more)))))
  {
  }

  lemma {:induction false} ParseHeaders(hash: string -> nat, m: Machine, hs: seq<Binding>, rest: string)
      returns (key: string)
    requires Ok(m) && m.state == ParamStart && !m.write && m.temp == ""
    requires forall i | 0 <= i < |hs| :: WellFormedHeader(hs[i])
    ensures Run(hash, m, ['\n'] + (Headers(hs) + rest))
            == Run(hash, m.(req := m.req.(pkey := key, params := PutEach(hash, m.req.params, hs))), ['\n'] + rest)
    decreases |hs|
  {
    if hs == [] {
      assert Headers(hs) + rest == rest;
      key := m.req.pkey;
    } else {
      var b, more := hs[0], ['\n'] + (Headers(hs[1..]) + rest);
      HeadersFirst(hs, rest);
      ParseHeader(hash, m, b, more);
      key := ParseHeaders(hash, m.(req := m.req.(pkey := b.key, params := Put(hash, m.req.params, b.key, b.value))),
          hs[1..], rest);
    }
  }

  /** The empty line: a request that is not a POST is done, a POST waits for its body. */
  lemma {:induction false} ParseBlankLine(hash: string -> nat, m: Machine, rest: string)
    requires Ok(m) && m.state == ParamStart && !m.write && m.temp == ""
    ensures Run(hash, m, ['\n'] + (['\r'] + (['\n'] + rest)))
            == if m.req.verb == "POST" then Run(hash, m.(state := Body), rest)
               else m.(state := Done, req := m.req.(body := Some("")))
  {
    OneStep(hash, m, '\n', ['\r'] + (['\n'] + rest));
    StepNewline(hash, m, ['\r'] + (['\n'] + rest));
    OneStep(hash, m.(state := Param1), '\r', ['\n'] + rest);
    StepBlank(hash, m.(state := Param1), ['\n'] + rest);
    OneStep(hash, m.(state := BodyStart), '\n', rest);
    StepBodyStart(hash, m.(state := BodyStart), rest);
  }

  lemma {:induction false} ParseBody(hash: string -> nat, m: Machine, body: string)
    requires Ok(m) && m.state == Body && !m.write && m.temp == ""
    ensures Run(hash, m, body)
            == if Head(body) == '\0' then m else WithBody(hash, m, body)
  {
    if Head(body) != '\0' {
      var n := WithBody(hash, m, body);
      assert Step(hash, m, body) == n;
      assert Run(hash, n, body[1..]) == n;
    }
  }

  /** The machine when it has looked at the body. */
  function WithBody(hash: string -> nat, m: Machine, body: string): Machine
    requires m.req.params != []
  {
    var length := Lookup(hash, m.req.params, "Content-Length");
    m.(state := BodyEnd(length, Lookup(hash, m.req.params, "Content-Type"), body),
       req := m.req.(body := BodyText(length, body)))
  }

  // ---------- the whole request ----------

  /** What is in the request when the empty line has been read. */
  ghost predicate Holds(hash: string -> nat, r: Request, q: Req) {
    && q.verb == r.verb && q.path == r.path && q.protocol == r.protocol && q.version == r.version
    && q.query == PutAll(hash, Empty(TABLE_SIZE), r.query) && q.params == PutAll(hash, Empty(TABLE_SIZE), r.headers)
  }

  lemma {:induction false} ParseTarget(hash: string -> nat, r: Request) returns (q: Req)
    requires WellFormed(r)
    ensures q.verb == r.verb && q.path == r.path && q.params == Empty(TABLE_SIZE) && q.body == None
    ensures q.query == PutAll(hash, Empty(TABLE_SIZE), r.query)
    ensures Run(hash, Init(), Print(r)) == Run(hash, Machine(PvStart, false, "", q), Tail(r))
  {
    q := EmptyReq().(verb := r.verb, path := r.path);
    var m := Machine(PathStart, false, "", EmptyReq().(verb := r.verb));
    var rest := if r.query == [] then [' '] + Tail(r) else ['?'] + (Pairs(r.query) + ([' '] + Tail(r)));
    ParseVerb(hash, r.verb, r.path + rest);
    if r.query == [] {
      ParsePath(hash, m, r.path, ' ', Tail(r));
    } else {
      ParsePath(hash, m, r.path, '?', Pairs(r.query) + ([' '] + Tail(r)));
      var key := ParsePairs(hash, Machine(QueryStart, false, "", q), r.query, Tail(r));
      PutEachIsPutAll(hash, Empty(TABLE_SIZE), [], r.query);
      assert [] + r.query == r.query;
      q := q.(qkey := key, query := PutEach(hash, Empty(TABLE_SIZE), r.query));
    }
  }

  lemma {:induction false} ParseTail(hash: string -> nat, r: Request, q: Req) returns (p: Req)
    requires WellFormed(r) && q.query != [] && q.params == Empty(TABLE_SIZE)
    ensures p.verb == q.verb && p.path == q.path && p.query == q.query && p.body == q.body
    ensures p.protocol == r.protocol && p.version == r.version
    ensures p.params == PutAll(hash, Empty(TABLE_SIZE), r.headers)
    ensures Run(hash, Machine(PvStart, false, "", q), Tail(r))
            == Run(hash, Machine(ParamStart, false, "", p), ['\n'] + (['\r'] + (['\n'] + r.body)))
  {
    var end := ['\r'] + (['\n'] + r.body);
    ParseProtocol(hash, Machine(PvStart, false, "", q), r.protocol, r.version, ['\n'] + (Headers(r.headers) + end));
    p := q.(protocol := r.protocol, version := r.version);
    var key := ParseHeaders(hash, Machine(ParamStart, false, "", p), r.headers, end);
    PutEachIsPutAll(hash, Empty(TABLE_SIZE), [], r.headers);
    assert [] + r.headers == r.headers;
    p := p.(pkey := key, params := PutEach(hash, Empty(TABLE_SIZE), r.headers));
  }

  lemma {:induction false} ParseHead(hash: string -> nat, r: Request) returns (p: Req)
    requires WellFormed(r)
    ensures Holds(hash, r, p) && p.body == None && Ok(Machine(ParamStart, false, "", p))
    ensures Run(hash, Init(), Print(r))
            == Run(hash, Machine(ParamStart, false, "", p), ['\n'] + (['\r'] + (['\n'] + r.body)))
  {
    var q := ParseTarget(hash, r);
    p := ParseTail(hash, r, q);
  }

  lemma {:induction false} ParseEnd(hash: string -> nat, m: Machine, body: string)
    requires Ok(m) && m.state == ParamStart && !m.write && m.temp == ""
    ensures Run(hash, m, ['\n'] + (['\r'] + (['\n'] + body)))
            == if m.req.verb != "POST" then m.(state := Done, req := m.req.(body := Some("")))
               else if Head(body) == '\0' then m.(state := Body)
               else WithBody(hash, m, body)
  {
    ParseBlankLine(hash, m, body);
    if m.req.verb == "POST" { ParseBody(hash, m.(state := Body), body); }
  }

  /** Parsing a printed request: the parts come back as they were, with both tables holding the pairs in
      order. A request that is not a POST is done. A POST is left waiting for its body exactly when
      nothing, or a NUL, follows the empty line; otherwise its last Content-Length and Content-Type
      decide whether it is done, and with which body, or whether the body is handed on as multipart or
      copied from outside the text. */
  lemma {:induction false} ParsePrint(hash: string -> nat, r: Request)
    requires WellFormed(r)
    ensures var m := Run(hash, Init(), Print(r));
            var length, contentType := Last(r.headers, "Content-Length"), Last(r.headers, "Content-Type");
            && Holds(hash, r, m.req)
            && (r.verb != "POST" ==> m.state == Done && m.req.body == Some(""))
            && (r.verb == "POST" && Head(r.body) == '\0' ==> m.state == Body && m.req.body == None)
            && (r.verb == "POST" && Head(r.body) != '\0' ==>
                  m.state == BodyEnd(length, contentType, r.body) && m.req.body == BodyText(length, r.body))
  {
    var p := ParseHead(hash, r);
    ParseEnd(hash, Machine(ParamStart, false, "", p), r.body);
    LookupLast(hash, TABLE_SIZE, r.headers, "Content-Length");
    LookupLast(hash, TABLE_SIZE, r.headers, "Content-Type");
  }

  /** A Content-Length that asks for no memory outside a text of n characters: none, one within the text,
      or one above 1 MiB, which is not followed. */
  predicate LengthFits(length: Option<string>, n: nat) {
    length.Some? ==> 0 <= Atoi(length.value) <= n || 1048576 < Atoi(length.value)
  }

  predicate NotMultiPart(contentType: Option<string>) {
    contentType.Some? ==> !Contains(contentType.value, "multipart/form-data")
  }

  /** The parser finishes such a request exactly under these conditions on its parts. */
  lemma {:induction false} DoneIff(hash: string -> nat, r: Request)
    requires WellFormed(r)
    ensures Run(hash, Init(), Print(r)).state == Done
            <==> r.verb != "POST"
                 || (r.body != [] && r.body[0] != '\0' && LengthFits(Last(r.headers, "Content-Length"), |r.body|)
                     && NotMultiPart(Last(r.headers, "Content-Type")))
  {
    ParsePrint(hash, r);
  }

  /** The round trip: for every well-formed GET-like request, and every POST that is not multipart and
      has a non-empty body that its last Content-Length announces, parsing the printed text ends with
      exactly the original parts, and a lookup in either table gives the last value printed for the key. */
  lemma {:induction false} RoundTrip(hash: string -> nat, r: Request, key: string)
    requires WellFormed(r)
    requires if r.verb == "POST" then 0 < |r.body| <= 1048576 && r.body[0] != '\0'
                                      && Last(r.headers, "Content-Length") == Some(Decimal(|r.body|))
                                      && NotMultiPart(Last(r.headers, "Content-Type"))
             else r.body == ""
    ensures var m := Run(hash, Init(), Print(r));
            && m.state == Done && Holds(hash, r, m.req) && m.req.body == Some(r.body)
            && Lookup(hash, m.req.query, key) == Last(r.query, key)
            && Lookup(hash, m.req.params, key) == Last(r.headers, key)
  {
    ParsePrint(hash, r);
    AtoiDecimal(|r.body|);
    assert r.body[..|r.body|] == r.body;
    LookupLast(hash, TABLE_SIZE, r.query, key);
    LookupLast(hash, TABLE_SIZE, r.headers, key);
  }
}
