/** What becomes of a request: the body of a POST under every Content-Length, and the texts the parser
    refuses or reads loosely. Everything is said of the text itself and of the limits in figures. */
module RequestOutcomes {
  import opened CString
  import opened HashMap
  import opened Wrappers
  import opened RequestParser
  import opened RequestPrinter

  // ---------- numbers ----------

  /** atoi reads digits in base ten: one more digit multiplies by ten and adds. */
  lemma {:induction false} AtoiNextDigit(s: string, c: char)
    requires s != [] && (forall i | 0 <= i < |s| :: '0' <= s[i] <= '9') && '0' <= c <= '9'
    ensures Atoi(s + [c]) == 10 * Atoi(s) + (c as int - '0' as int)
  {
    DigitsAppend(s, (c - '0') as nat, 0);
    assert Digit((c - '0') as nat) == c;
    assert (s + [c])[0] == s[0];
  }

  lemma {:induction false} AtoiOneDigit(c: char)
    requires '0' <= c <= '9'
    ensures Atoi([c]) == c as int - '0' as int
  {
    assert [c][1..] == [];
    assert Digits([c], 0) == Digits([], (c - '0') as nat);
  }

  lemma {:induction false} DigitsStop(s: string, c: char, rest: string, acc: nat)
    requires !('0' <= c <= '9')
    ensures Digits(s + [c] + rest, acc) == Digits(s, acc)
  {
    if s == [] {
      assert s + [c] + rest == [c] + rest;
    } else {
      assert (s + [c] + rest)[1..] == s[1..] + [c] + rest && (s + [c] + rest)[0] == s[0];
      if '0' <= s[0] <= '9' { DigitsStop(s[1..], c, rest, acc * 10 + (s[0] - '0') as nat); }
    }
  }

  /** What follows the digits does not count, blanks before them do not, and a minus sign negates. */
  lemma {:induction false} AtoiAround(s: string, c: char, rest: string)
    requires s != [] && (forall i | 0 <= i < |s| :: '0' <= s[i] <= '9')
    ensures !('0' <= c <= '9') ==> Atoi(s + [c] + rest) == Atoi(s)
    ensures Atoi([' '] + s) == Atoi(['\t'] + s) == Atoi(['+'] + s) == Atoi(s)
    ensures Atoi(['-'] + s) == -Atoi(s)
  {
    assert ([' '] + s)[1..] == s && (['\t'] + s)[1..] == s && (['+'] + s)[1..] == s && (['-'] + s)[1..] == s;
    if !('0' <= c <= '9') {
      DigitsStop(s, c, rest, 0);
      assert (s + [c] + rest)[0] == s[0];
    }
  }

  /** What does not start with a digit, a blank or a sign counts as 0. */
  lemma {:induction false} AtoiNoNumber(s: string)
    requires s == [] || !('0' <= s[0] <= '9' || s[0] == ' ' || '\t' <= s[0] <= '\r' || s[0] == '-' || s[0] == '+')
    ensures Atoi(s) == 0
  {
  }

  lemma {:induction false} AtoiSample()
    ensures Atoi("1024") == 1024
  {
    AtoiOneDigit('1');
    AtoiNextDigit("1", '0');
    AtoiNextDigit("10", '2');
    AtoiNextDigit("102", '4');
    assert "1" + ['0'] == "10" && "10" + ['2'] == "102" && "102" + ['4'] == "1024";
  }

  // ---------- the body of a POST ----------

  /** A POST with something other than a NUL after the empty line. */
  ghost predicate Post(r: Request) {
    WellFormed(r) && r.verb == "POST" && r.body != [] && r.body[0] != '\0'
  }

  /** Where the parser ends with a body that it could copy or left alone. */
  function Finished(r: Request): State {
    if NotMultiPart(Last(r.headers, "Content-Type")) then Done else MultiPart
  }

  /** Whatever the last Content-Length says: a number of at most 1 MiB that the text can meet takes exactly
      that many characters, whatever follows them in the buffer; a larger one takes nothing; one beyond
      the end of the text, up to the limit, or below zero makes the copy leave the text. */
  lemma {:induction false} PostBody(hash: string -> nat, r: Request, length: string)
    requires Post(r) && Last(r.headers, "Content-Length") == Some(length)
    ensures var m, n := Run(hash, Init(), Print(r)), Atoi(length);
            && Holds(hash, r, m.req)
            && (0 <= n <= |r.body| && n <= 1048576 ==> m.state == Finished(r) && m.req.body == Some(r.body[..n]))
            && (1048576 < n ==> m.state == Finished(r) && m.req.body == None)
            && (n < 0 || |r.body| < n <= 1048576 ==> m.state == Overrun)
  {
    ParsePrint(hash, r);
  }

  lemma {:induction false} PostNoLength(hash: string -> nat, r: Request)
    requires Post(r) && Last(r.headers, "Content-Length") == None
    ensures var m := Run(hash, Init(), Print(r));
            Holds(hash, r, m.req) && m.state == Finished(r) && m.req.body == None
  {
    ParsePrint(hash, r);
  }

  /** So a length printed in decimal, at most that of what follows and at most 1 MiB, ends with just that
      much of it as the body. */
  lemma {:induction false} PostPrinted(hash: string -> nat, r: Request, n: nat)
    requires Post(r) && NotMultiPart(Last(r.headers, "Content-Type")) && n <= |r.body| && n <= 1048576
    requires Last(r.headers, "Content-Length") == Some(Decimal(n))
    ensures var m := Run(hash, Init(), Print(r));
            m.state == Done && Holds(hash, r, m.req) && m.req.body == Some(r.body[..n])
  {
    PostBody(hash, r, Decimal(n));
    AtoiDecimal(n);
  }

  // ---------- what the parser refuses ----------

  /** Once invalid, the parser reads to the end of the text and keeps the request as it is. */
  lemma {:induction false} InvalidStays(hash: string -> nat, m: Machine, s: string)
    requires Ok(m) && m.state == Invalid
    ensures Run(hash, m, s).state == Invalid && Run(hash, m, s).req == m.req
    decreases |s|
  {
    if s != [] && s[0] != '\0' { InvalidStays(hash, Step(hash, m, s), s[1..]); }
  }

  lemma {:induction false} TurnsInvalid(hash: string -> nat, m: Machine, s: string)
    requires Ok(m) && s != [] && s[0] != '\0' && !Stopped(m.state) && Step(hash, m, s).state == Invalid
    requires Step(hash, m, s).req == m.req
    ensures Run(hash, m, s).state == Invalid && Run(hash, m, s).req == m.req
  {
    InvalidStays(hash, Step(hash, m, s), s[1..]);
  }

  /** A text that starts with neither G nor P is invalid and fills in nothing; no text leaves the start. */
  lemma {:induction false} BadVerb(hash: string -> nat, s: string)
    ensures s != [] && s[0] !in ['G', 'P', '\0']
            ==> Run(hash, Init(), s).state == Invalid && Run(hash, Init(), s).req == EmptyReq()
    ensures s == [] || s[0] == '\0' ==> Run(hash, Init(), s) == Init()
  {
    if s != [] && s[0] !in ['G', 'P', '\0'] { TurnsInvalid(hash, Init(), s); }
  }

  /** A target that does not start with a slash is invalid; the verb alone has been read. */
  lemma {:induction false} BadPath(hash: string -> nat, verb: string, c: char, rest: string)
    requires verb != [] && (verb[0] == 'G' || verb[0] == 'P') && Lacks(verb, " ") && c != '/' && c != '\0'
    ensures var m := Run(hash, Init(), verb + ([' '] + ([c] + rest)));
            m.state == Invalid && m.req == EmptyReq().(verb := verb)
  {
    ParseVerb(hash, verb, [c] + rest);
    TurnsInvalid(hash, Machine(PathStart, false, "", EmptyReq().(verb := verb)), [c] + rest);
  }

  /** The last key of a query, without '=', before the blank: every character but the last is kept. */
  lemma {:induction false} KeyRuns(hash: string -> nat, m: Machine, key: string, rest: string)
    requires Ok(m) && m.state == QueryStart && key != [] && Lacks(key, "= ")
    ensures Run(hash, m, key + ([' '] + rest)).state == Invalid
    ensures Run(hash, m, key + ([' '] + rest)).req == m.req
    decreases |key|
  {
    var s := key + ([' '] + rest);
    SplitHead(key, [' '] + rest);
    if |key| == 1 {
      TurnsInvalid(hash, m, s);
    } else {
      assert key[1] !in "= ";
      KeptStep(hash, m, s);
      assert forall i | 0 <= i < |key[1..]| :: key[1..][i] == key[i + 1];
      KeyRuns(hash, m.(temp := m.temp + [s[0]], write := true), key[1..], rest);
    }
  }

  /** Pairs each followed by an ampersand. */
  function Each(q: seq<Binding>): string {
    if q == [] then "" else q[0].key + (['='] + (q[0].value + (['&'] + Each(q[1..]))))
  }

  lemma {:induction false} EachFirst(q: seq<Binding>, rest: string)
    requires q != []
    ensures Each(q) + rest == Pair(q[0]) + (['&'] + (Each(q[1..]) + rest))
  {
    var b, each := q[0], Each(q[1..]);
    assert Each(q) == b.key + (['='] + (b.value + (['&'] + each)));
    assert Pair(b) == b.key + (['='] + b.value);
  }

  lemma {:induction false} ParseEach(hash: string -> nat, m: Machine, q: seq<Binding>, rest: string)
      returns (key: string)
    requires Ok(m) && m.state == QueryStart && !m.write && m.temp == ""
    requires forall i | 0 <= i < |q| :: Lacks(q[i].key, "= ") && Lacks(q[i].value, "& ")
    ensures Run(hash, m, Each(q) + rest)
            == Run(hash, m.(req := m.req.(qkey := key, query := PutEach(hash, m.req.query, q))), rest)
    decreases |q|
  {
    if q == [] {
      assert Each(q) + rest == rest;
      key := m.req.qkey;
    } else {
      var more := Each(q[1..]) + rest;
      EachFirst(q, rest);
      ParsePair(hash, m, q[0], '&', more);
      key := ParseEach(hash,
          m.(req := m.req.(qkey := q[0].key, query := Put(hash, m.req.query, q[0].key, q[0].value))), q[1..], rest);
    }
  }

  /** A query that ends in a key without '=' is invalid, after any number of whole pairs. */
  lemma {:induction false} BadQuery(hash: string -> nat, verb: string, path: string, q: seq<Binding>, key: string,
      rest: string)
    requires verb != [] && (verb[0] == 'G' || verb[0] == 'P') && Lacks(verb, " ")
    requires path != [] && path[0] == '/' && Lacks(path, "? ")
    requires forall i | 0 <= i < |q| :: Lacks(q[i].key, "= ") && Lacks(q[i].value, "& ")
    requires key != [] && Lacks(key, "= ")
    ensures var m := Run(hash, Init(), verb + ([' '] + (path + (['?'] + (Each(q) + (key + ([' '] + rest)))))));
            m.state == Invalid && m.req.verb == verb && m.req.path == path && m.req.protocol == ""
  {
    var end := key + ([' '] + rest);
    ParseVerb(hash, verb, path + (['?'] + (Each(q) + end)));
    var m := Machine(PathStart, false, "", EmptyReq().(verb := verb));
    ParsePath(hash, m, path, '?', Each(q) + end);
    var n := Machine(QueryStart, false, "", EmptyReq().(verb := verb, path := path));
    var last := ParseEach(hash, n, q, end);
    KeyRuns(hash, n.(req := n.req.(qkey := last, query := PutEach(hash, n.req.query, q))), key, rest);
  }

  // ---------- what the parser reads loosely ----------

  /** Before a header name, every character up to the first capital letter is dropped. */
  lemma {:induction false} NameSkips(hash: string -> nat, m: Machine, junk: string, rest: string)
    requires Ok(m) && m.state == Param1 && !m.write && m.temp == ""
    requires forall i | 0 <= i < |junk| :: junk[i] !in [':', '\r', '\0'] && !('A' <= junk[i] <= 'Z')
    ensures Run(hash, m, junk + rest) == Run(hash, m, rest)
    decreases |junk|
  {
    if junk == [] {
      assert junk + rest == rest;
    } else {
      SplitHead(junk, rest);
      assert junk[0] !in [':', '\r', '\0'];
      assert Step(hash, m, junk + rest) == m;
      assert forall i | 0 <= i < |junk[1..]| :: junk[1..][i] == junk[i + 1];
      NameSkips(hash, m, junk[1..], rest);
    }
  }

  lemma {:induction false} LooseName(hash: string -> nat, m: Machine, name: string, c: char, rest: string)
    requires Ok(m) && m.state == Param1 && !m.write && m.temp == "" && c != '\0'
    requires name != [] && 'A' <= name[0] <= 'Z' && Lacks(name, ":") && NoLineBreak(name)
    ensures Run(hash, m, name + ([':'] + ([c] + rest)))
            == Run(hash, m.(state := Param3, req := m.req.(pkey := name)), rest)
  {
    PlainField(m.state, m.write, name, ':');
    Field(hash, m, name, ':', [c] + rest);
    EndName(hash, m.(temp := name, write := true), [c] + rest);
    var n := m.(state := Param2, req := m.req.(pkey := name));
    OneStep(hash, n, c, rest);
    assert Step(hash, n, [c] + rest) == n.(state := Param3);
  }

  /** A header line with other characters before the name's first capital letter and any character in
      place of the blank after the colon is read as if it had been written properly. */
  lemma {:induction false} LooseHeader(hash: string -> nat, m: Machine, junk: string, b: Binding, c: char,
      rest: string)
    requires Ok(m) && m.state == Param1 && !m.write && m.temp == "" && WellFormedHeader(b)
    requires forall i | 0 <= i < |junk| :: junk[i] !in [':', '\r', '\0'] && !('A' <= junk[i] <= 'Z')
    requires c != '\0' && rest != [] && rest[0] == '\n'
    ensures var n := m.req.(pkey := b.key, params := Put(hash, m.req.params, b.key, b.value));
            Run(hash, m, junk + (b.key + ([':'] + ([c] + (b.value + (['\r'] + rest))))))
            == Run(hash, m.(state := ParamStart, req := n), rest)
  {
    var tail := b.value + (['\r'] + rest);
    NameSkips(hash, m, junk, b.key + ([':'] + ([c] + tail)));
    LooseName(hash, m, b.key, c, tail);
    ParseHeaderValue(hash, m.(state := Param3, req := m.req.(pkey := b.key)), b.value, rest);
  }

  // ---------- a request spelled out ----------

  lemma {:induction false} SampleTail(r: Request)
    requires r.protocol == "HTTP" && r.version == "1.1" && r.headers == [Binding("N", "w")] && r.body == ""
    ensures Tail(r) == "HTTP/1.1\r\n" + "N: w\r\n\r\n"
  {
    assert r.headers[1..] == [];
    assert Headers(r.headers) == "N: w\r\n";
    assert "HTTP" + ['/'] + "1.1" + ['\r'] + ['\n'] == "HTTP/1.1\r\n";
  }

  lemma {:induction false} SampleText(r: Request)
    requires r == Request("GET", "/a", [Binding("k", "v")], "HTTP", "1.1", [Binding("N", "w")], "")
    ensures Print(r) == "GET /a?k=v " + "HTTP/1.1\r\n" + "N: w\r\n\r\n"
  {
    SampleTail(r);
    var t := "HTTP/1.1\r\n" + "N: w\r\n\r\n";
    assert Pairs(r.query) == "k=v";
    assert r.verb + [' '] + r.path + ['?'] + "k=v" + [' '] == "GET /a?k=v ";
  }

  lemma {:induction false} SampleOk(r: Request)
    requires r == Request("GET", "/a", [Binding("k", "v")], "HTTP", "1.1", [Binding("N", "w")], "")
    ensures WellFormed(r) && Last(r.query, "k") == Some("v") && Last(r.headers, "N") == Some("w")
  {
  }

  /** Read to the end, with its parts and both its tables. */
  lemma {:induction false} Sample(hash: string -> nat)
    ensures var m := Run(hash, Init(), "GET /a?k=v " + "HTTP/1.1\r\n" + "N: w\r\n\r\n");
            && Ok(m) && m.state == Done && m.req.verb == "GET" && m.req.path == "/a" && m.req.body == Some("")
            && m.req.protocol == "HTTP" && m.req.version == "1.1"
            && Lookup(hash, m.req.query, "k") == Some("v") && Lookup(hash, m.req.params, "N") == Some("w")
  {
    var r := Request("GET", "/a", [Binding("k", "v")], "HTTP", "1.1", [Binding("N", "w")], "");
    SampleText(r);
    SampleOk(r);
    RoundTrip(hash, r, "k");
    RoundTrip(hash, r, "N");
  }
}
