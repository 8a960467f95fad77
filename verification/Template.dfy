/**
  The template renderer of Src/template.c. A template is text with slots `[#name#]` and list blocks
  `[@name@... {{item}} ...@]`. The renderer is one pass over the characters with a scratch buffer of which
  only the first 64 characters are ever cleared.
*/
module Template {
  import opened CString
  import opened Wrappers

  /** The array `dec`, up to its first null pointer. */
  type Dec = d: seq<string> | |d| <= 20

  /** A Kvmap entry of type 1, 2 or 3. A callback is what it makes of `parsed_str` and the block string. */
  datatype Entry =
    | Scalar(key: string, value: string)
    | Callback(key: string, func: (string, string) -> string)
    | Items(key: string, items: Dec)

  const ITEM: string := "{{item}}"
  const CLEARED: nat := 64

  /** The C string in a buffer; beyond its end a buffer holds NULs. */
  function CStr(b: string): (s: string)
    ensures |s| <= |b|
  {
    if b == [] || b[0] == '\0' then [] else [b[0]] + CStr(b[1..])
  }

  function Drop(b: string, n: nat): string { if n <= |b| then b[n..] else [] }

  /** t written over the buffer from pos on. */
  function Splice(b: string, pos: nat, t: string): string {
    if pos <= |b| then b[..pos] + t + Drop(b, pos + |t|) else b
  }

  /** memset of the first 64 characters. */
  function Clear(b: string): string {
    seq(|b|, i requires 0 <= i < |b| => if i < CLEARED then '\0' else b[i])
  }

  // ---------- filling in ----------

  /** The values of all scalar entries of that name, in order. */
  function Values(kv: seq<Entry>, name: string): string
    decreases |kv|
  {
    if |kv| == 0 then []
    else (if kv[0].Scalar? && kv[0].key == name then kv[0].value else []) + Values(kv[1..], name)
  }

  function Repeat(before: string, after: string, items: seq<string>): string
    decreases |items|
  {
    if items == [] then [] else before + items[0] + after + Repeat(before, after, items[1..])
  }

  /** `inner` once per item; undefined when there is no place for the item. */
  function Expand(inner: string, items: seq<string>): Option<string> {
    match Find(inner, ITEM)
    case None => None
    case Some(i) => Some(Repeat(inner[..i], inner[i + |ITEM|..], items))
  }

  function Prefixed(out: string, r: Option<(string, string)>): Option<(string, string)> {
    match r
    case None => None
    case Some((more, p)) => Some((out + more, p))
  }

  lemma {:induction false} PrefixedAssociates(a: string, b: string, r: Option<(string, string)>)
    ensures Prefixed([], r) == r && Prefixed(a, Prefixed(b, r)) == Prefixed(a + b, r)
  {
    if r.Some? { assert a + (b + r.value.0) == a + b + r.value.0 && [] + r.value.0 == r.value.0; }
  }

  /** What an entry of type 2 or 3 makes of the block string and the accumulated `parsed_str`. */
  function Fill(e: Entry, inner: string, parsed: string): Option<string>
    requires !e.Scalar?
  {
    match e
    case Callback(_, func) => Some(func(parsed, inner))
    case Items(_, items) =>
      match Expand(inner, items)
      case None => None
      case Some(text) => Some(parsed + text)
  }

  /** The loop over the entries at the end of a block: what is appended to the result and the
      accumulated `parsed_str`. The block string is wiped by the first entry that uses it. */
  function Blocks(kv: seq<Entry>, name: string, inner: string, parsed: string): Option<(string, string)>
    decreases |kv|
  {
    if |kv| == 0 then Some(([], parsed))
    else if !kv[0].Scalar? && kv[0].key == name then
      match Fill(kv[0], inner, parsed)
      case None => None
      case Some(p) => Prefixed(p, Blocks(kv[1..], name, [], p))
    else Blocks(kv[1..], name, inner, parsed)
  }

  // ---------- the machine ----------

  datatype Machine = Machine(state: int, writeTemp: bool, writeRes: bool, temp: string, tempPos: nat,
                             parsed: string, result: string, crashed: bool)

  const Start: Machine := Machine(0, false, true, [], 0, [], [], false)

  function CloseBlock(m: Machine, kv: seq<Entry>): Machine {
    var text := CStr(m.temp);
    match Find(text, "@")
    case None => m.(crashed := true)
    case Some(at) =>
      match Blocks(kv, text[..at], text[at + 1..], m.parsed)
      case None => m.(crashed := true)
      case Some((out, p)) => m.(result := m.result + out, parsed := p, temp := m.temp[at := '\0'], state := -2)
  }

  function Switch(m: Machine, c: char, next: char, kv: seq<Entry>): Machine {
    if m.state == 0 then
      if c == '[' && next == '#' then m.(writeRes := false, state := -1)
      else if c == '[' && next == '@' then m.(writeRes := false, state := -11)
      else m.(writeRes := true)
    else if m.state == -1 then m.(state := 1)
    else if m.state == -11 then m.(state := 2)
    else if m.state == 1 then
      if c == '#' && next == ']' then
        m.(writeTemp := false, result := m.result + Values(kv, CStr(m.temp)), state := -2)
      else m.(writeTemp := true)
    else if m.state == 2 then
      if c == '@' && next == ']' then CloseBlock(m.(writeTemp := false), kv)
      else m.(writeTemp := true)
    else if m.state == -2 then m.(state := 0)
    else m
  }

  function Store(m: Machine, c: char): Machine {
    var m := if m.writeTemp then m.(temp := Splice(m.temp, m.tempPos, [c]), tempPos := m.tempPos + 1)
             else if m.tempPos != 0 then m.(tempPos := 0, temp := Clear(m.temp))
             else m;
    if m.writeRes then m.(result := m.result + [c]) else m
  }

  function Step(m: Machine, c: char, next: char, kv: seq<Entry>): Machine {
    var m := Switch(m, c, next, kv);
    if m.crashed then m else Store(m, c)
  }

  /** The character after the first. */
  function Next(s: string): char { if |s| < 2 then '\0' else s[1] }

  function Run(m: Machine, s: string, kv: seq<Entry>): Machine
    decreases |s|
  {
    if s == [] || m.crashed then m else Run(Step(m, s[0], Next(s), kv), s[1..], kv)
  }

  /** None: the code follows a null pointer. */
  function Outcome(m: Machine): Option<string> { if m.crashed then None else Some(m.result) }

  // ---------- the code ----------

  lemma {:induction false} Rejoin(out: string, a: string, b: string, c: string, rest: string)
    ensures out + (a + b + c + rest) == out + a + b + c + rest
  {
  }

  /** parse_dec, given the place of the item. */
  method ParseDec(tt: string, items: Dec, inner: string, start: nat) returns (out: string)
    requires Find(inner, ITEM) == Some(start)
    ensures out == tt + Expand(inner, items).value
  {
    var before, other := inner[..start], inner[start + |ITEM|..];
    out := tt;
    var i := 0;
    while i <= 20 && i < |items|
      invariant 0 <= i <= |items|
      invariant out + Repeat(before, other, items[i..]) == tt + Repeat(before, other, items)
    {
      assert items[i..][1..] == items[i + 1..];
      Rejoin(out, before, items[i], other, Repeat(before, other, items[i + 1..]));
      out := out + before;
      out := out + items[i];
      out := out + other;
      i := i + 1;
    }
  }

  /** The loop over the entries at the end of a slot. */
  method FillSlot(kv: seq<Entry>, name: string, result: string) returns (out: string)
    ensures out == result + Values(kv, name)
  {
    out := result;
    var num := 0;
    while num < |kv|
      invariant 0 <= num <= |kv|
      invariant out + Values(kv[num..], name) == result + Values(kv, name)
    {
      assert kv[num..][1..] == kv[num + 1..];
      if kv[num].key == name && kv[num].Scalar? { out := out + kv[num].value; }
      num := num + 1;
    }
  }

  /** The loop over the entries at the end of a list block. */
  method FillBlock(kv: seq<Entry>, name: string, inner: string, parsed: string) returns (r: Option<(string, string)>)
    ensures r == Blocks(kv, name, inner, parsed)
  {
    var out, p, block, num := [], parsed, inner, 0;
    PrefixedAssociates([], [], Blocks(kv, name, inner, parsed));
    assert kv[0..] == kv;
    while num < |kv|
      invariant 0 <= num <= |kv|
      invariant Blocks(kv, name, inner, parsed) == Prefixed(out, Blocks(kv[num..], name, block, p))
    {
      assert kv[num..][1..] == kv[num + 1..];
      if kv[num].key == name && !kv[num].Scalar? {
        if kv[num].Callback? {
          p := kv[num].func(p, block);
        } else {
          var start := Find(block, ITEM);
          if start.None? { return None; }
          p := ParseDec(p, kv[num].items, block, start.value);
        }
        PrefixedAssociates(out, p, Blocks(kv[num + 1..], name, [], p));
        out := out + p;
        block := [];
      }
      num := num + 1;
    }
    assert out + [] == out;
    r := Some((out, p));
  }

  /** parse_context */
  method ParseContext(context: string, kv: seq<Entry>) returns (r: Option<string>)
    requires '\0' !in context
    ensures r == Outcome(Run(Start, context, kv))
  {
    var m := Start;
    var p := 0;
    while p < |context|
      invariant 0 <= p <= |context| && !m.crashed
      invariant Run(m, context[p..], kv) == Run(Start, context, kv)
    {
      var c, next := context[p], if p + 1 < |context| then context[p + 1] else '\0';
      assert context[p..][1..] == context[p + 1..] && next == Next(context[p..]);
      m := OneCharacter(m, c, next, kv);
      if m.crashed { return None; }
      p := p + 1;
    }
    r := Some(m.result);
  }

  /** The switch of parse_context. */
  method Dispatch(m: Machine, c: char, next: char, kv: seq<Entry>) returns (n: Machine)
    ensures n == Switch(m, c, next, kv)
  {
    n := m;
    if n.state == 0 {
      n := n.(writeRes := true);
      if c == '[' && next == '#' { n := n.(writeRes := false, state := -1); }
      if c == '[' && next == '@' { n := n.(writeRes := false, state := -11); }
    } else if n.state == -1 {
      n := n.(state := 1);
    } else if n.state == -11 {
      n := n.(state := 2);
    } else if n.state == 1 {
      n := n.(writeTemp := true);
      if c == '#' && next == ']' {
        n := n.(writeTemp := false);
        var result := FillSlot(kv, CStr(n.temp), n.result);
        n := n.(result := result, state := -2);
      }
    } else if n.state == 2 {
      n := n.(writeTemp := true);
      if c == '@' && next == ']' {
        n := n.(writeTemp := false);
        var text := CStr(n.temp);
        var start := Find(text, "@");
        if start.None? { return n.(crashed := true); }
        var filled := FillBlock(kv, text[..start.value], text[start.value + 1..], n.parsed);
        if filled.None? { return n.(crashed := true); }
        n := n.(result := n.result + filled.value.0, parsed := filled.value.1, temp := n.temp[start.value := '\0'],
            state := -2);
      }
    } else if n.state == -2 {
      n := n.(state := 0);
    }
  }

  /** One turn of the loop of parse_context. */
  method OneCharacter(m: Machine, c: char, next: char, kv: seq<Entry>) returns (n: Machine)
    ensures n == Step(m, c, next, kv)
  {
    n := Dispatch(m, c, next, kv);
    if n.crashed { return; }
    if n.writeTemp {
      n := n.(temp := Splice(n.temp, n.tempPos, [c]), tempPos := n.tempPos + 1);
    } else if n.tempPos != 0 {
      n := n.(tempPos := 0, temp := Clear(n.temp));
    }
    if n.writeRes { n := n.(result := n.result + [c]); }
  }

  // ---------- pieces ----------

  /** A slot or block is named by what stands between its brackets. */
  datatype Piece = Text(text: string) | Slot(name: string) | Block(content: string)

  function PieceOf(o: char, t: string): Piece { if o == '#' then Slot(t) else Block(t) }

  predicate Opens(s: string) { |s| >= 2 && s[0] == '[' && (s[1] == '#' || s[1] == '@') }

  /** Where the first slot or block begins, or the length. */
  function Opening(s: string): (i: nat)
    ensures i <= |s| && (i < |s| ==> Opens(s[i..]))
  {
    if s == [] || Opens(s) then 0 else 1 + Opening(s[1..])
  }

  /** Where what begins at the start of s ends, counted from behind its opening. */
  function Ending(s: string): Option<nat>
    requires |s| >= 2
  {
    Find(s[2..], [s[1], ']'])
  }

  /** The pieces of a template, by search: a slot ends at the first `#]`, a block at the first `@]`, and
      one that does not end swallows the rest. */
  function Pieces(s: string): seq<Piece>
    decreases |s|
  {
    if s == [] then []
    else if Opening(s) > 0 then [Text(s[..Opening(s)])] + Pieces(s[Opening(s)..])
    else
      match Ending(s)
      case None => []
      case Some(j) => [PieceOf(s[1], s[2..][..j])] + Pieces(s[2..][j + 2..])
  }

  function Append(out: string, rest: Option<string>): Option<string> {
    match rest
    case None => None
    case Some(more) => Some(out + more)
  }

  /** The scratch buffer when t has been collected in it, and when it has been left again. */
  function Typed(t: string, temp: string): string { t + Drop(temp, |t|) }

  function Left(t: string, temp: string): string { if t == [] then temp else Clear(temp) }

  /** What the code renders for pieces, given the scratch buffer and the accumulated block text. */
  function Rendered(ps: seq<Piece>, temp: string, parsed: string, kv: seq<Entry>): Option<string>
    decreases |ps|
  {
    if ps == [] then Some([])
    else match ps[0]
      case Text(t) => Append(t, Rendered(ps[1..], temp, parsed, kv))
      case Slot(name) =>
        Append(Values(kv, CStr(Typed(name, temp))), Rendered(ps[1..], Left(name, Typed(name, temp)), parsed, kv))
      case Block(content) =>
        var full := Typed(content, temp);
        var text := CStr(full);
        match Find(text, "@")
        case None => None
        case Some(at) =>
          match Blocks(kv, text[..at], text[at + 1..], parsed)
          case None => None
          case Some((out, p)) => Append(out, Rendered(ps[1..], Left(content, full[at := '\0']), p, kv))
  }

  // ---------- the machine renders the pieces ----------

  ghost predicate Idle(m: Machine) { m.state == 0 && !m.writeTemp && m.tempPos == 0 && !m.crashed }

  lemma {:induction false} RunStep(m: Machine, s: string, kv: seq<Entry>)
    requires s != [] && !m.crashed
    ensures Run(m, s, kv) == Run(Step(m, s[0], Next(s), kv), s[1..], kv)
  {
  }

  lemma {:induction false} StepText(m: Machine, s: string, kv: seq<Entry>)
    requires Idle(m) && s != [] && !Opens(s)
    ensures Step(m, s[0], Next(s), kv) == m.(writeRes := true, result := m.result + [s[0]])
  {
  }

  /** In plain text every character is copied. */
  lemma {:induction false} RunText(m: Machine, s: string, i: nat, kv: seq<Entry>)
    requires Idle(m) && i <= Opening(s)
    ensures var w := m.writeRes || i > 0;
            Run(m, s, kv) == Run(m.(writeRes := w, result := m.result + s[..i]), s[i..], kv)
    decreases i
  {
    if i > 0 {
      StepText(m, s, kv);
      RunStep(m, s, kv);
      RunText(m.(writeRes := true, result := m.result + [s[0]]), s[1..], i - 1, kv);
      TextSplit(m.result, s, i);
    } else {
      assert m.result + s[..0] == m.result && s[0..] == s;
    }
  }

  lemma {:induction false} TextSplit(r: string, s: string, i: nat)
    requires 0 < i <= |s|
    ensures r + [s[0]] + s[1..][..i - 1] == r + s[..i] && s[1..][i - 1..] == s[i..]
  {
    FirstOf(s, i);
    assert r + [s[0]] + s[1..][..i - 1] == r + ([s[0]] + s[1..][..i - 1]);
  }

  /** Inside a slot (state 1) or a block (state 2), whose end is `o` followed by `]`. */
  ghost predicate Inside(m: Machine, o: char) {
    && m.state == (if o == '#' then 1 else 2) && (o == '#' || o == '@')
    && !m.writeRes && !m.crashed && m.tempPos <= |m.temp|
  }

  function Collected(m: Machine, t: string): Machine {
    if t == [] then m
    else m.(writeTemp := true, temp := Splice(m.temp, m.tempPos, t), tempPos := m.tempPos + |t|)
  }

  lemma {:induction false} StepCollect(m: Machine, o: char, s: string, kv: seq<Entry>)
    requires Inside(m, o) && s != [] && !([o, ']'] <= s)
    ensures Step(m, s[0], Next(s), kv) == Collected(m, [s[0]])
  {
  }

  lemma {:induction false} StillInside(m: Machine, o: char, t: string)
    requires Inside(m, o)
    ensures Inside(Collected(m, t), o)
  {
  }

  lemma {:induction false} SpliceTwice(b: string, pos: nat, c: char, t: string)
    requires pos <= |b|
    ensures Splice(Splice(b, pos, [c]), pos + 1, t) == Splice(b, pos, [c] + t)
  {
    var d := Splice(b, pos, [c]);
    assert d[..pos + 1] == b[..pos] + [c];
    assert Drop(d, pos + 1 + |t|) == Drop(b, pos + 1 + |t|);
  }

  lemma {:induction false} CollectTwice(m: Machine, c: char, t: string)
    requires m.tempPos <= |m.temp|
    ensures Collected(Collected(m, [c]), t) == Collected(m, [c] + t)
  {
    if t == [] {
      assert [c] + t == [c];
    } else {
      SpliceTwice(m.temp, m.tempPos, c, t);
    }
  }

  /** Characters before the end are collected in the scratch buffer. */
  lemma {:induction false} RunCollect(m: Machine, o: char, s: string, j: nat, kv: seq<Entry>)
    requires Inside(m, o) && j <= |s| && (Find(s, [o, ']']).Some? ==> j <= Find(s, [o, ']']).value)
    ensures Run(m, s, kv) == Run(Collected(m, s[..j]), s[j..], kv)
    decreases j
  {
    if j > 0 {
      var n, t := Collected(m, [s[0]]), s[1..][..j - 1];
      StepCollect(m, o, s, kv);
      StillInside(m, o, [s[0]]);
      RunStep(m, s, kv);
      RunCollect(n, o, s[1..], j - 1, kv);
      CollectTwice(m, s[0], t);
      FirstOf(s, j);
    } else {
      assert s[0..] == s && s[..0] == [];
    }
  }

  lemma {:induction false} FirstOf(s: string, j: nat)
    requires 0 < j <= |s|
    ensures [s[0]] + s[1..][..j - 1] == s[..j] && s[1..][j - 1..] == s[j..]
  {
  }

  /** A slot or block begins. */
  lemma {:induction false} RunOpen(m: Machine, s: string, kv: seq<Entry>)
    requires Idle(m) && Opens(s)
    ensures var n := m.(state := if s[1] == '#' then 1 else 2, writeRes := false);
            Inside(n, s[1]) && Run(m, s, kv) == Run(n, s[2..], kv)
  {
    RunStep(m, s, kv);
    RunStep(Step(m, s[0], Next(s), kv), s[1..], kv);
    assert s[1..][1..] == s[2..];
  }

  /** One that does not end swallows the rest. */
  lemma {:induction false} RunUnclosed(m: Machine, s: string, kv: seq<Entry>)
    requires Idle(m) && Opens(s) && Find(s[2..], [s[1], ']']).None?
    ensures Outcome(Run(m, s, kv)) == Some(m.result)
  {
    RunOpen(m, s, kv);
    var n := m.(state := if s[1] == '#' then 1 else 2, writeRes := false);
    RunCollect(n, s[1], s[2..], |s| - 2, kv);
    StillInside(n, s[1], s[2..]);
    assert s[2..][..|s| - 2] == s[2..];
  }

  /** The machine just before the end of the slot or block that collected t. */
  function Full(m: Machine, o: char, t: string): Machine {
    Collected(m.(state := if o == '#' then 1 else 2, writeRes := false), t)
  }

  lemma {:induction false} CollectedTyped(m: Machine, t: string)
    requires m.tempPos == 0
    ensures Collected(m, t).temp == Typed(t, m.temp)
  {
  }

  lemma {:induction false} RunToEnd(m: Machine, s: string, j: nat, kv: seq<Entry>)
    requires Idle(m) && Opens(s) && Find(s[2..], [s[1], ']']) == Some(j)
    ensures var f, rest := Full(m, s[1], s[2..][..j]), s[2..][j..];
            && Inside(f, s[1]) && f.temp == Typed(s[2..][..j], m.temp) && [s[1], ']'] <= rest
            && Run(m, s, kv) == Run(f, rest, kv)
  {
    var n := m.(state := if s[1] == '#' then 1 else 2, writeRes := false);
    RunOpen(m, s, kv);
    RunCollect(n, s[1], s[2..], j, kv);
    StillInside(n, s[1], s[2..][..j]);
    CollectedTyped(n, s[2..][..j]);
    FoundThere(s[2..], [s[1], ']']);
  }

  /** Idle again, the scratch buffer cleared if anything was in it. */
  function Leave(f: Machine, temp: string): Machine {
    f.(state := 0, writeTemp := false, writeRes := false, tempPos := 0,
        temp := if f.tempPos != 0 then Clear(temp) else temp)
  }

  lemma {:induction false} RunCloseSlot(f: Machine, rest: string, kv: seq<Entry>)
    requires Inside(f, '#') && "#]" <= rest
    ensures Run(f, rest, kv) == Run(Leave(f, f.temp).(result := f.result + Values(kv, CStr(f.temp))), rest[2..], kv)
  {
    RunStep(f, rest, kv);
    RunStep(Step(f, rest[0], Next(rest), kv), rest[1..], kv);
    assert rest[1..][1..] == rest[2..];
  }

  lemma {:induction false} RunCloseBlock(f: Machine, rest: string, kv: seq<Entry>)
    requires Inside(f, '@') && "@]" <= rest
    ensures var c := CloseBlock(f, kv);
            if c.crashed then Outcome(Run(f, rest, kv)) == None
            else Run(f, rest, kv) == Run(Leave(f, c.temp).(result := c.result, parsed := c.parsed), rest[2..], kv)
  {
    RunStep(f, rest, kv);
    var n := Step(f, rest[0], Next(rest), kv);
    if !n.crashed {
      RunStep(n, rest[1..], kv);
      assert rest[1..][1..] == rest[2..];
    }
  }

  lemma {:induction false} LeaveFull(m: Machine, o: char, t: string, b: string)
    requires Idle(m)
    ensures Leave(Full(m, o, t), b) == m.(writeRes := false, temp := Left(t, b))
  {
  }

  lemma {:induction false} RunSlot(m: Machine, s: string, j: nat, kv: seq<Entry>)
    requires Idle(m) && Opens(s) && s[1] == '#' && Find(s[2..], "#]") == Some(j)
    ensures var name := s[2..][..j];
            var n := m.(writeRes := false, result := m.result + Values(kv, CStr(Typed(name, m.temp))),
                        temp := Left(name, Typed(name, m.temp)));
            Run(m, s, kv) == Run(n, s[2..][j + 2..], kv)
  {
    RunToEnd(m, s, j, kv);
    RunCloseSlot(Full(m, '#', s[2..][..j]), s[2..][j..], kv);
    LeaveFull(m, '#', s[2..][..j], Typed(s[2..][..j], m.temp));
    assert s[2..][j..][2..] == s[2..][j + 2..];
  }

  lemma {:induction false} CloseFull(m: Machine, t: string, kv: seq<Entry>)
    requires Idle(m) && Full(m, '@', t).temp == Typed(t, m.temp)
    ensures var c, d := CloseBlock(m.(temp := Typed(t, m.temp)), kv), CloseBlock(Full(m, '@', t), kv);
            c.crashed == d.crashed && c.temp == d.temp && c.result == d.result && c.parsed == d.parsed
  {
  }

  lemma {:induction false} RunBlock(m: Machine, s: string, j: nat, kv: seq<Entry>)
    requires Idle(m) && Opens(s) && s[1] == '@' && Find(s[2..], "@]") == Some(j)
    ensures var content := s[2..][..j];
            var c := CloseBlock(m.(temp := Typed(content, m.temp)), kv);
            if c.crashed then Outcome(Run(m, s, kv)) == None
            else Run(m, s, kv) == Run(m.(writeRes := false, result := c.result, parsed := c.parsed,
                                         temp := Left(content, c.temp)), s[2..][j + 2..], kv)
  {
    RunToEnd(m, s, j, kv);
    RunCloseBlock(Full(m, '@', s[2..][..j]), s[2..][j..], kv);
    CloseFull(m, s[2..][..j], kv);
    LeaveFull(m, '@', s[2..][..j], CloseBlock(Full(m, '@', s[2..][..j]), kv).temp);
    assert s[2..][j..][2..] == s[2..][j + 2..];
  }

  lemma {:induction false} AppendTwice(a: string, b: string, r: Option<string>)
    ensures Append(a, Append(b, r)) == Append(a + b, r)
  {
    if r.Some? { assert a + (b + r.value) == a + b + r.value; }
  }

  /** From an idle state, what is left of the template is rendered piece by piece. */
  lemma {:induction false} RunPieces(m: Machine, s: string, kv: seq<Entry>)
    requires Idle(m)
    ensures Outcome(Run(m, s, kv)) == Append(m.result, Rendered(Pieces(s), m.temp, m.parsed, kv))
    decreases |s|
  {
    if s == [] {
      assert m.result + [] == m.result;
    } else if Opening(s) > 0 {
      RunTextPiece(m, s, kv);
    } else if Find(s[2..], [s[1], ']']).None? {
      RunUnclosed(m, s, kv);
      assert m.result + [] == m.result;
    } else if s[1] == '#' {
      RunSlotPiece(m, s, kv);
    } else {
      RunBlockPiece(m, s, kv);
    }
  }

  lemma {:induction false} RunTextPiece(m: Machine, s: string, kv: seq<Entry>)
    requires Idle(m) && s != [] && Opening(s) > 0
    ensures Outcome(Run(m, s, kv)) == Append(m.result, Rendered(Pieces(s), m.temp, m.parsed, kv))
    decreases |s|, 0
  {
    var i := Opening(s);
    RunText(m, s, i, kv);
    RunPieces(m.(writeRes := true, result := m.result + s[..i]), s[i..], kv);
    AppendTwice(m.result, s[..i], Rendered(Pieces(s[i..]), m.temp, m.parsed, kv));
    assert Pieces(s)[0] == Text(s[..i]) && Pieces(s)[1..] == Pieces(s[i..]);
  }

  lemma {:induction false} PiecesFrom(s: string, j: nat)
    requires Opens(s) && Ending(s) == Some(j)
    ensures Pieces(s) == [PieceOf(s[1], s[2..][..j])] + Pieces(s[2..][j + 2..])
  {
  }

  lemma {:induction false} FirstPiece(s: string, j: nat) returns (ps: seq<Piece>)
    requires Opens(s) && Find(s[2..], [s[1], ']']) == Some(j)
    ensures ps == Pieces(s) && ps != [] && ps[1..] == Pieces(s[2..][j + 2..])
    ensures ps[0] == PieceOf(s[1], s[2..][..j])
  {
    PiecesFrom(s, j);
    var p, rest := PieceOf(s[1], s[2..][..j]), Pieces(s[2..][j + 2..]);
    ps := [p] + rest;
  }

  lemma {:induction false} RunSlotPiece(m: Machine, s: string, kv: seq<Entry>)
    requires Idle(m) && Opens(s) && s[1] == '#' && Find(s[2..], "#]").Some?
    ensures Outcome(Run(m, s, kv)) == Append(m.result, Rendered(Pieces(s), m.temp, m.parsed, kv))
    decreases |s|, 0
  {
    var j := Find(s[2..], "#]").value;
    var name, rest := s[2..][..j], s[2..][j + 2..];
    RunSlot(m, s, j, kv);
    var ps := FirstPiece(s, j);
    var out, temp := Values(kv, CStr(Typed(name, m.temp))), Left(name, Typed(name, m.temp));
    RunPieces(m.(writeRes := false, result := m.result + out, temp := temp), rest, kv);
    SlotRendered(m, name, ps, kv);
  }

  lemma {:induction false} SlotRendered(m: Machine, name: string, ps: seq<Piece>, kv: seq<Entry>)
    requires ps != [] && ps[0] == Slot(name)
    ensures Append(m.result, Rendered(ps, m.temp, m.parsed, kv))
         == Append(m.result + Values(kv, CStr(Typed(name, m.temp))),
             Rendered(ps[1..], Left(name, Typed(name, m.temp)), m.parsed, kv))
  {
    AppendTwice(m.result, Values(kv, CStr(Typed(name, m.temp))),
        Rendered(ps[1..], Left(name, Typed(name, m.temp)), m.parsed, kv));
  }

  lemma {:induction false} RunBlockPiece(m: Machine, s: string, kv: seq<Entry>)
    requires Idle(m) && Opens(s) && s[1] == '@' && Find(s[2..], "@]").Some?
    ensures Outcome(Run(m, s, kv)) == Append(m.result, Rendered(Pieces(s), m.temp, m.parsed, kv))
    decreases |s|, 0
  {
    var j := Find(s[2..], "@]").value;
    var content, rest := s[2..][..j], s[2..][j + 2..];
    RunBlock(m, s, j, kv);
    var ps := FirstPiece(s, j);
    BlockRendered(m, content, ps, kv);
    var c := CloseBlock(m.(temp := Typed(content, m.temp)), kv);
    if !c.crashed {
      var temp := Left(content, c.temp);
      RunPieces(m.(writeRes := false, result := c.result, parsed := c.parsed, temp := temp), rest, kv);
    }
  }

  /** The step of Rendered for a block is what closing the block does. */
  lemma {:induction false} BlockRendered(m: Machine, content: string, ps: seq<Piece>, kv: seq<Entry>)
    requires ps != [] && ps[0] == Block(content) && !m.crashed
    ensures var c := CloseBlock(m.(temp := Typed(content, m.temp)), kv);
            Append(m.result, Rendered(ps, m.temp, m.parsed, kv))
            == if c.crashed then None else Append(c.result, Rendered(ps[1..], Left(content, c.temp), c.parsed, kv))
  {
    var c := CloseBlock(m.(temp := Typed(content, m.temp)), kv);
    if !c.crashed {
      var text := CStr(Typed(content, m.temp));
      var at := Find(text, "@").value;
      var out := Blocks(kv, text[..at], text[at + 1..], m.parsed).value.0;
      AppendTwice(m.result, out, Rendered(ps[1..], Left(content, c.temp), c.parsed, kv));
    }
  }

  /** Every template is rendered piece by piece. */
  lemma {:induction false} RendersPieces(context: string, kv: seq<Entry>)
    ensures Outcome(Run(Start, context, kv)) == Rendered(Pieces(context), [], [], kv)
  {
    RunPieces(Start, context, kv);
    var r := Rendered(Pieces(context), [], [], kv);
    if r.Some? { assert [] + r.value == r.value; }
  }
}
