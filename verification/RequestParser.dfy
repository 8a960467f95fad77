/**
  The HTTP request parser of Src/request.c: one pass over the text with a state, a flag that says whether
  the current character is kept, and a scratch buffer. `Print` is the request format of sections 3.1.1
  and 3.2 of RFC 7230; parsing what it prints gives the request back.
*/
module RequestParser {
  import opened CString
  import opened HashMap
  import opened Wrappers

  const TABLE_SIZE: nat := 17
  const BODY_MAX: int := 1024 * 1024

  datatype State =
    | Invalid | Start | Method | PathStart | Path | QueryStart | QueryTemp | PvStart | PvTemp
    | ParamStart | Param1 | Param2 | Param3 | BodyStart | Body | Done | MultiPart | Overrun

  /** The request's fields, with the keys of the query pair and the header being read. `body` is None
      while the body is not set. */
  datatype Req = Req(verb: string, path: string, qkey: string, query: Buckets, protocol: string, version: string,
                     pkey: string, params: Buckets, body: Option<string>)

  /** The parser's locals and the request. */
  datatype Machine = Machine(state: State, write: bool, temp: string, req: Req)

  function EmptyReq(): Req { Req("", "", "", Empty(TABLE_SIZE), "", "", "", Empty(TABLE_SIZE), None) }

  function Init(): Machine { Machine(Start, false, "", EmptyReq()) }

  ghost predicate Ok(m: Machine) { m.req.query != [] && m.req.params != [] }

  // ---------- atoi ----------

  predicate IsDigit(c: char) { '0' <= c <= '9' }

  function Digits(s: string, acc: nat): nat {
    if s == [] || !IsDigit(s[0]) then acc else Digits(s[1..], acc * 10 + (s[0] - '0') as nat)
  }

  predicate IsSpace(c: char) { c == ' ' || '\t' <= c <= '\r' }

  function Atoi(s: string): int {
    if s == [] then 0
    else if IsSpace(s[0]) then Atoi(s[1..])
    else if s[0] == '-' then -(Digits(s[1..], 0) as int)
    else if s[0] == '+' then Digits(s[1..], 0)
    else Digits(s, 0)
  }

  function Digit(d: nat): char
    requires d < 10
  {
    '0' + d as char
  }

  function Decimal(n: nat): (s: string)
    ensures s != [] && forall i | 0 <= i < |s| :: IsDigit(s[i])
  {
    if n < 10 then [Digit(n)] else Decimal(n / 10) + [Digit(n % 10)]
  }

  lemma {:induction false} DigitsAppend(s: string, d: nat, acc: nat)
    requires d < 10 && forall i | 0 <= i < |s| :: IsDigit(s[i])
    ensures Digits(s + [Digit(d)], acc) == Digits(s, acc) * 10 + d
  {
    if s == [] {
      assert (s + [Digit(d)])[1..] == [];
      assert Digits([], (Digit(d) - '0') as nat) == d;
    } else {
      assert (s + [Digit(d)])[1..] == s[1..] + [Digit(d)];
      DigitsAppend(s[1..], d, acc * 10 + (s[0] - '0') as nat);
    }
  }

  /** atoi reads back what was printed in decimal. */
  lemma {:induction false} AtoiDecimal(n: nat)
    ensures Atoi(Decimal(n)) == n && Digits(Decimal(n), 0) == n
  {
    if n < 10 {
      assert Decimal(n) == [] + [Digit(n)];
      DigitsAppend([], n, 0);
    } else {
      AtoiDecimal(n / 10);
      DigitsAppend(Decimal(n / 10), n % 10, 0);
    }
  }

  // ---------- one character ----------

  /** The character at the start of a text, NUL at its end. */
  function Head(s: string): char { if s == [] then '\0' else s[0] }

  /** The body that a Content-Length announces at the start of the text, if it is set at all. */
  function BodyText(length: Option<string>, text: string): Option<string> {
    if length.Some? && 0 <= Atoi(length.value) <= BODY_MAX && Atoi(length.value) <= |text|
    then Some(text[..Atoi(length.value)])
    else None
  }

  /** A Content-Length for which the code copies memory outside the text. */
  predicate Overruns(length: Option<string>, text: string) {
    length.Some? && (Atoi(length.value) < 0 || |text| < Atoi(length.value) <= BODY_MAX)
  }

  predicate IsMultiPart(contentType: Option<string>) {
    contentType.Some? && Contains(contentType.value, "multipart/form-data")
  }

  /** Where the body leaves the parser. With `Overrun` the copy has gone outside the text; with
      `MultiPart` the body is handed on to req_parse_multi_part. Neither is followed further. */
  function BodyEnd(length: Option<string>, contentType: Option<string>, text: string): State {
    if Overruns(length, text) then Overrun else if IsMultiPart(contentType) then MultiPart else Done
  }

  predicate Stopped(s: State) { s == Done || s == MultiPart || s == Overrun }

  /** The `switch` of req_parse_http up to the query. */
  function TargetSwitch(hash: string -> nat, m: Machine, c: char, next: char): Machine
    requires Ok(m)
  {
    match m.state
    case Start =>
      if c == 'G' || c == 'P' then m.(write := true, state := Method) else m.(state := Invalid)
    case Method =>
      if c == ' ' then m.(write := false, state := PathStart, req := m.req.(verb := m.temp)) else m
    case PathStart =>
      if c == '/' then m.(write := true, state := Path) else m.(state := Invalid)
    case Path =>
      if c == '?' then m.(write := false, state := QueryStart, req := m.req.(path := m.temp))
      else if c == ' ' then m.(write := false, state := PvStart, req := m.req.(path := m.temp))
      else m
    case QueryStart =>
      if c == '=' then m.(write := false, req := m.req.(qkey := m.temp), state := QueryTemp)
      else if next == ' ' then m.(write := true, state := Invalid)
      else m.(write := true)
    case QueryTemp =>
      if c == '&' || c == ' '
      then m.(write := false, req := m.req.(query := Put(hash, m.req.query, m.req.qkey, m.temp)),
              state := if c == '&' then QueryStart else PvStart)
      else m.(write := true)
    case _ => m
  }

  /** The `switch` from the protocol on; `rest` is the text from the current character. */
  function RestSwitch(hash: string -> nat, m: Machine, c: char, next: char, rest: string): Machine
    requires Ok(m)
  {
    match m.state
    case PvStart =>
      if c == '/' then m.(write := false, req := m.req.(protocol := m.temp), state := PvTemp) else m.(write := true)
    case PvTemp =>
      if c == '\r' && next == '\n' then m.(write := false, req := m.req.(version := m.temp), state := ParamStart)
      else m.(write := true)
    case ParamStart => m.(state := Param1)
    case Param1 =>
      if c == ':' then m.(write := false, req := m.req.(pkey := m.temp), state := Param2)
      else if c == '\r' && next == '\n' then m.(state := BodyStart)
      else m.(write := m.write || 'A' <= c <= 'Z')
    case Param2 => m.(state := Param3)
    case Param3 =>
      if c == '\r' && next == '\n'
      then m.(write := false, req := m.req.(params := Put(hash, m.req.params, m.req.pkey, m.temp)), state := ParamStart)
      else m.(write := true)
    case BodyStart =>
      if m.req.verb == "POST" then m.(state := Body) else m.(state := Done, req := m.req.(body := Some("")))
    case Body =>
      var length := Lookup(hash, m.req.params, "Content-Length");
      m.(state := BodyEnd(length, Lookup(hash, m.req.params, "Content-Type"), rest),
         req := m.req.(body := BodyText(length, rest)))
    case _ => m
  }

  predicate InTarget(s: State) {
    s == Start || s == Method || s == PathStart || s == Path || s == QueryStart || s == QueryTemp
  }

  function Switch(hash: string -> nat, m: Machine, s: string): Machine
    requires Ok(m) && s != []
  {
    if InTarget(m.state) then TargetSwitch(hash, m, s[0], Head(s[1..]))
    else RestSwitch(hash, m, s[0], Head(s[1..]), s)
  }

  /** One turn of the `while` loop with s left to read. */
  function Step(hash: string -> nat, m: Machine, s: string): (r: Machine)
    requires Ok(m) && s != []
    ensures Ok(r)
  {
    var w := Switch(hash, m, s);
    w.(temp := if w.write then w.temp + [s[0]] else "")
  }

  /** The loop with s left to read: it stops at a NUL, at the end, or when the request is done. */
  function Run(hash: string -> nat, m: Machine, s: string): Machine
    requires Ok(m)
    decreases |s|
  {
    if s == [] || s[0] == '\0' || Stopped(m.state) then m
    else Run(hash, Step(hash, m, s), s[1..])
  }

  lemma {:induction false} RunStep(hash: string -> nat, m: Machine, data: string, p: nat)
    requires Ok(m) && p < |data| && data[p] != '\0' && !Stopped(m.state)
    ensures Run(hash, m, data[p..]) == Run(hash, Step(hash, m, data[p..]), data[p + 1..])
  {
    assert data[p..][1..] == data[p + 1..];
  }

  class Parser {
    const hash: string -> nat
    var state: State
    var write: bool
    var temp: string
    var req: Req

    ghost function Snapshot(): Machine reads this {
      Machine(state, write, temp, req)
    }

    constructor (hash: string -> nat)
      ensures Snapshot() == Init() && this.hash == hash
    {
      this.hash := hash;
      state, write, temp, req := Start, false, "", EmptyReq();
    }

    method FeedTarget(c: char, next: char)
      requires Ok(Snapshot())
      modifies this
      ensures Snapshot() == TargetSwitch(hash, old(Snapshot()), c, next)
    {
      match state {
        case Start =>
          if c == 'G' || c == 'P' { write := true; state := Method; } else { state := Invalid; }
        case Method =>
          if c == ' ' { write := false; state := PathStart; req := req.(verb := temp); }
        case PathStart =>
          if c == '/' { write := true; state := Path; } else { state := Invalid; }
        case Path =>
          if c == '?' { write := false; state := QueryStart; req := req.(path := temp); }
          if c == ' ' { write := false; state := PvStart; req := req.(path := temp); }
        case QueryStart =>
          write := true;
          var flag := true;
          if c == '=' { write := false; req := req.(qkey := temp); state := QueryTemp; flag := false; }
          if next == ' ' && flag { state := Invalid; }
        case QueryTemp =>
          write := true;
          if c == '&' || c == ' ' {
            req := req.(query := Put(hash, req.query, req.qkey, temp));
            write := false;
            state := if c == '&' then QueryStart else PvStart;
          }
        case _ =>
      }
    }

    /** The case PARSE_BODY, with the text from the current character on. */
    method FeedBody(rest: string)
      requires Ok(Snapshot()) && state == Body
      modifies this
      ensures Snapshot() == RestSwitch(hash, old(Snapshot()), Head(rest), Head(rest), rest)
    {
      var cls, cts := Lookup(hash, req.params, "Content-Length"), Lookup(hash, req.params, "Content-Type");
      req := req.(body := None);
      state := Done;
      if cls.Some? {
        var len := Atoi(cls.value);
        if len <= BODY_MAX {
          if len < 0 || |rest| < len { state := Overrun; return; }
          req := req.(body := Some(rest[..len]));
        }
      }
      if cts.Some? && Contains(cts.value, "multipart/form-data") { state := MultiPart; }
    }

    method FeedRest(c: char, next: char, rest: string)
      requires Ok(Snapshot())
      modifies this
      ensures Snapshot() == RestSwitch(hash, old(Snapshot()), c, next, rest)
    {
      match state {
        case PvStart =>
          write := true;
          if c == '/' { write := false; req := req.(protocol := temp); state := PvTemp; }
        case PvTemp =>
          write := true;
          if c == '\r' && next == '\n' { write := false; req := req.(version := temp); state := ParamStart; }
        case ParamStart => state := Param1;
        case Param1 =>
          if 'A' <= c <= 'Z' { write := true; }
          if c == ':' { write := false; req := req.(pkey := temp); state := Param2; }
          if c == '\r' && next == '\n' { state := BodyStart; }
        case Param2 => state := Param3;
        case Param3 =>
          write := true;
          if c == '\r' && next == '\n' {
            write := false;
            req := req.(params := Put(hash, req.params, req.pkey, temp));
            state := ParamStart;
          }
        case BodyStart =>
          if req.verb == "POST" { state := Body; } else { state := Done; req := req.(body := Some("")); }
        case Body =>
          FeedBody(rest);
        case _ =>
      }
    }

    /** The body of the `while` loop of req_parse_http for the character at p. */
    method Feed(data: string, p: nat)
      requires Ok(Snapshot()) && p < |data|
      modifies this
      ensures Snapshot() == Step(hash, old(Snapshot()), data[p..])
    {
      var next := if p + 1 < |data| then data[p + 1] else '\0';
      assert next == Head(data[p..][1..]);
      if InTarget(state) {
        FeedTarget(data[p], next);
      } else {
        FeedRest(data[p], next, data[p..]);
      }
      temp := if write then temp + [data[p]] else "";
    }

    /** req_parse_http */
    method Parse(data: string)
      requires Snapshot() == Init()
      modifies this
      ensures Snapshot() == Run(hash, Init(), data)
    {
      var p := 0;
      ghost var end := Run(hash, Snapshot(), data);
      assert data[0..] == data;
      while p < |data| && data[p] != '\0'
        invariant 0 <= p <= |data| && Ok(Snapshot()) && !Stopped(state) && Run(hash, Snapshot(), data[p..]) == end
      {
        RunStep(hash, Snapshot(), data, p);
        Feed(data, p);
        p := p + 1;
        if Stopped(state) { break; }
      }
    }
  }
}
