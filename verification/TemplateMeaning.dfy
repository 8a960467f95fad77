/**
  What templates mean, and when the renderer of Src/template.c gives it: a template stands for its pieces,
  one after the other. The code differs in two ways. `parsed_str` is never emptied, so a filled block
  repeats the filled blocks before it; and the scratch buffer is never cleared beyond 64 characters, so a
  longer text can be read with characters of an earlier one behind it.
*/
module TemplateMeaning {
  import opened CString
  import opened Template
  import opened Wrappers

  // ---------- the compositional meaning ----------

  /** The entries that fill a block of this name, in order. */
  function Fillers(kv: seq<Entry>, name: string): (fs: seq<Entry>)
    ensures forall i | 0 <= i < |fs| :: !fs[i].Scalar?
    decreases |kv|
  {
    if |kv| == 0 then []
    else (if !kv[0].Scalar? && kv[0].key == name then [kv[0]] else []) + Fillers(kv[1..], name)
  }

  /** What they make of the block, given the text accumulated before: the first one sees the block's inner
      text, later ones an empty text. */
  function FillAll(fs: seq<Entry>, inner: string, parsed: string): Option<(string, string)>
    requires forall i | 0 <= i < |fs| :: !fs[i].Scalar?
    decreases |fs|
  {
    if |fs| == 0 then Some(([], parsed))
    else match Fill(fs[0], inner, parsed)
      case None => None
      case Some(p) => Prefixed(p, FillAll(fs[1..], [], p))
  }

  /** A block with the text accumulated before it; undefined without its `@`. */
  function Filling(content: string, parsed: string, kv: seq<Entry>): Option<(string, string)> {
    match Find(content, "@")
    case None => None
    case Some(at) => FillAll(Fillers(kv, content[..at]), content[at + 1..], parsed)
  }

  /** A template stands for its pieces, each on its own. */
  function Meaning(ps: seq<Piece>, kv: seq<Entry>): Option<string>
    decreases |ps|
  {
    if ps == [] then Some([])
    else match ps[0]
      case Text(t) => Append(t, Meaning(ps[1..], kv))
      case Slot(name) => Append(Values(kv, name), Meaning(ps[1..], kv))
      case Block(content) =>
        match Filling(content, [], kv)
        case None => None
        case Some((out, _)) => Append(out, Meaning(ps[1..], kv))
  }

  /** The meaning if `parsed_str` is never emptied. */
  function Echoed(ps: seq<Piece>, parsed: string, kv: seq<Entry>): Option<string>
    decreases |ps|
  {
    if ps == [] then Some([])
    else match ps[0]
      case Text(t) => Append(t, Echoed(ps[1..], parsed, kv))
      case Slot(name) => Append(Values(kv, name), Echoed(ps[1..], parsed, kv))
      case Block(content) =>
        match Filling(content, parsed, kv)
        case None => None
        case Some((out, p)) => Append(out, Echoed(ps[1..], p, kv))
  }

  /** The loop over all entries is the entries of that name. */
  lemma {:induction false} BlocksFill(kv: seq<Entry>, name: string, inner: string, parsed: string)
    ensures Blocks(kv, name, inner, parsed) == FillAll(Fillers(kv, name), inner, parsed)
    decreases |kv|
  {
    if |kv| > 0 {
      var rest := Fillers(kv[1..], name);
      if !kv[0].Scalar? && kv[0].key == name {
        assert Fillers(kv, name)[1..] == rest;
        var p := Fill(kv[0], inner, parsed);
        if p.Some? { BlocksFill(kv[1..], name, [], p.value); }
      } else {
        assert Fillers(kv, name) == rest;
        BlocksFill(kv[1..], name, inner, parsed);
      }
    }
  }

  // ---------- what is read from the scratch buffer ----------

  lemma {:induction false} CStrOver(t: string, b: string)
    requires '\0' !in t && (b == [] || b[0] == '\0')
    ensures CStr(t + b) == t
  {
    if t == [] {
      assert t + b == b;
    } else {
      assert (t + b)[1..] == t[1..] + b;
      CStrOver(t[1..], b);
    }
  }

  lemma {:induction false} CStrLonger(t: string, b: string)
    requires '\0' !in t && b != [] && b[0] != '\0'
    ensures |CStr(t + b)| > |t|
  {
    if t == [] {
      assert t + b == b;
    } else {
      assert (t + b)[1..] == t[1..] + b;
      CStrLonger(t[1..], b);
    }
  }

  lemma {:induction false} ReadIff(t: string, temp: string)
    requires '\0' !in t
    ensures CStr(Typed(t, temp)) == t <==> |t| >= |temp| || temp[|t|] == '\0'
  {
    if |t| >= |temp| || temp[|t|] == '\0' {
      CStrOver(t, Drop(temp, |t|));
    } else {
      CStrLonger(t, Drop(temp, |t|));
    }
  }

  /** Every text looked up is the text collected, up to a block that has no `@`. */
  ghost predicate Reads(ps: seq<Piece>, temp: string)
    decreases |ps|
  {
    ps == [] ||
    match ps[0]
    case Text(_) => Reads(ps[1..], temp)
    case Slot(t) => CStr(Typed(t, temp)) == t && Reads(ps[1..], Left(t, Typed(t, temp)))
    case Block(t) =>
      && CStr(Typed(t, temp)) == t
      && (Find(t, "@").Some? ==> Reads(ps[1..], Left(t, Typed(t, temp)[Find(t, "@").value := '\0'])))
  }

  /** The characters between the brackets of a slot or block. */
  function Between(p: Piece): string {
    match p
    case Text(_) => []
    case Slot(t) => t
    case Block(t) => t
  }

  /** The last of the pieces whose text is longer than n. */
  function LastLonger(past: seq<Piece>, n: nat): Option<Piece> {
    if past == [] then None
    else if |Between(past[|past| - 1])| > n then Some(past[|past| - 1])
    else LastLonger(past[..|past| - 1], n)
  }

  /** A text of length n is followed by no stale character: it is short enough to be cleared, or no
      earlier text was longer, or the last longer one was a block with its `@`, which the code overwrites
      with NUL, just there. */
  predicate Unstained(n: nat, past: seq<Piece>) {
    n < 64 ||
    match LastLonger(past, n)
    case None => true
    case Some(p) => p.Block? && Find(p.content, "@") == Some(n)
  }

  /** All texts of the template are, given the pieces before them. */
  predicate Undisturbed(ps: seq<Piece>, past: seq<Piece>)
    decreases |ps|
  {
    ps == [] ||
    match ps[0]
    case Text(_) => Undisturbed(ps[1..], past)
    case Slot(t) => Unstained(|t|, past) && Undisturbed(ps[1..], past + [ps[0]])
    case Block(t) => Unstained(|t|, past) && (Find(t, "@").Some? ==> Undisturbed(ps[1..], past + [ps[0]]))
  }

  /** The scratch buffer holds NULs where it is cleared, and from there on what the pieces left. */
  ghost predicate Stained(temp: string, past: seq<Piece>) {
    && (forall i | 0 <= i < |temp| && i < 64 :: temp[i] == '\0')
    && (forall i: nat | 64 <= i :: i < |temp| <==> LastLonger(past, i).Some?)
    && (forall i: nat | 64 <= i < |temp| :: temp[i] == '\0' <==> Unstained(i, past))
  }

  lemma {:induction false} StainedRead(t: string, temp: string, past: seq<Piece>)
    requires Stained(temp, past) && '\0' !in t
    ensures CStr(Typed(t, temp)) == t <==> Unstained(|t|, past)
  {
    ReadIff(t, temp);
  }

  lemma {:induction false} LastLongerAppend(past: seq<Piece>, p: Piece, n: nat)
    ensures LastLonger(past + [p], n) == if |Between(p)| > n then Some(p) else LastLonger(past, n)
  {
    assert (past + [p])[..|past|] == past;
  }

  /** What a slot or block leaves in the buffer; `full` is the buffer when it ends. */
  lemma {:induction false} StainedAfter(p: Piece, temp: string, full: string, past: seq<Piece>)
    requires Stained(temp, past) && !p.Text? && '\0' !in Between(p)
    requires var t := Between(p); |full| == |Typed(t, temp)| && forall i | 0 <= i < |full| ::
               full[i] == if p.Block? && Find(t, "@") == Some(i) then '\0' else Typed(t, temp)[i]
    requires p.Block? ==> Find(p.content, "@").Some?
    ensures Stained(Left(Between(p), full), past + [p])
  {
    var t := Between(p);
    var b := Left(t, full);
    assert t == [] ==> full == temp;
    forall i: nat | 64 <= i
      ensures i < |b| <==> LastLonger(past + [p], i).Some?
      ensures i < |b| ==> (b[i] == '\0' <==> Unstained(i, past + [p]))
    {
      LastLongerAppend(past, p, i);
      if i < |t| { assert Typed(t, temp)[i] == t[i]; } else if i < |temp| { assert Typed(t, temp)[i] == temp[i]; }
    }
  }

  ghost predicate NulFree(ps: seq<Piece>) { forall i | 0 <= i < |ps| :: '\0' !in Between(ps[i]) }

  lemma {:induction false} ReadsFrom(ps: seq<Piece>, temp: string, past: seq<Piece>)
    requires Stained(temp, past) && NulFree(ps)
    ensures Reads(ps, temp) <==> Undisturbed(ps, past)
    decreases |ps|
  {
    if ps != [] {
      match ps[0]
      case Text(_) => ReadsFrom(ps[1..], temp, past);
      case Slot(t) =>
        assert '\0' !in Between(ps[0]);
        StainedRead(t, temp, past);
        StainedAfter(ps[0], temp, Typed(t, temp), past);
        ReadsFrom(ps[1..], Left(t, Typed(t, temp)), past + [ps[0]]);
      case Block(t) =>
        assert '\0' !in Between(ps[0]);
        StainedRead(t, temp, past);
        if Find(t, "@").Some? {
          var full := Typed(t, temp)[Find(t, "@").value := '\0'];
          StainedAfter(ps[0], temp, full, past);
          ReadsFrom(ps[1..], Left(t, full), past + [ps[0]]);
        }
    }
  }

  /** For every template: the texts looked up are the texts collected if and only if every text of 64
      characters or more that is shorter than an earlier one stands under the `@` of the last of those. */
  lemma {:induction false} ReadsIff(ps: seq<Piece>)
    requires NulFree(ps)
    ensures Reads(ps, []) <==> Undisturbed(ps, [])
  {
    ReadsFrom(ps, [], []);
  }

  lemma {:induction false} TwoSlots(a: string, b: string, kv: seq<Entry>)
    ensures var ps, temp := [Slot(a), Slot(b)], Left(a, Typed(a, []));
            && Meaning(ps, kv) == Some(Values(kv, a) + Values(kv, b))
            && Rendered(ps, [], [], kv) == Some(Values(kv, CStr(Typed(a, []))) + Values(kv, CStr(Typed(b, temp))))
            && (Reads(ps, []) ==> CStr(Typed(b, temp)) == b)
  {
    var ps, q := [Slot(a), Slot(b)], [Slot(b)];
    assert ps[1..] == q && q[1..] == [];
    var temp := Left(a, Typed(a, []));
    var v, w := Values(kv, b), Values(kv, CStr(Typed(b, temp)));
    assert v + [] == v && w + [] == w;
    assert Meaning(q, kv) == Some(v) && Rendered(q, temp, [], kv) == Some(w);
    assert Reads(q, temp) ==> CStr(Typed(b, temp)) == b;
  }

  lemma {:induction false} OneValue(b: string, value: string, name: string, kv: seq<Entry>)
    requires kv == [Scalar(b, value)]
    ensures Values(kv, name) == if name == b then value else []
  {
    assert kv[1..] == [] && value + [] == value;
  }

  /** The shorter of two long slots is misread, and the output is not the meaning: on every such template,
      with a value for that slot. */
  lemma {:induction false} ShorterSlotMisread(a: string, b: string, value: string, kv: seq<Entry>)
    requires 64 <= |b| < |a| && '\0' !in a && '\0' !in b && Find(a, "#]").None? && Find(b, "#]").None?
    requires value != [] && kv == [Scalar(b, value)]
    ensures var ps := [Slot(a), Slot(b)];
            && !Reads(ps, []) && Meaning(ps, kv) == Some(value) && Outcome(Run(Start, Print(ps), kv)) == Some([])
  {
    Misread(a, b);
    TwoSlots(a, b, kv);
    TwoValues(a, b, CStr(Typed(b, Left(a, Typed(a, [])))), value, kv);
    TwoSlotsRead(a, b, kv);
  }

  lemma {:induction false} TwoValues(a: string, b: string, c: string, value: string, kv: seq<Entry>)
    requires kv == [Scalar(b, value)] && a != b && c != b
    ensures Values(kv, a) + Values(kv, b) == value && Values(kv, a) + Values(kv, c) == []
  {
    OneValue(b, value, a, kv);
    OneValue(b, value, b, kv);
    OneValue(b, value, c, kv);
    assert [] + value == value;
  }

  lemma {:induction false} TwoSlotsRead(a: string, b: string, kv: seq<Entry>)
    requires Find(a, "#]").None? && Find(b, "#]").None?
    ensures var ps := [Slot(a), Slot(b)]; Outcome(Run(Start, Print(ps), kv)) == Rendered(ps, [], [], kv)
  {
    var ps, q := [Slot(a), Slot(b)], [Slot(b)];
    assert ps[1..] == q && q[1..] == [];
    assert WellFormed(q) && WellFormed(ps);
    PiecesOfPrint(ps);
    RendersPieces(Print(ps), kv);
  }

  lemma {:induction false} Misread(a: string, b: string)
    requires 64 <= |b| < |a| && '\0' !in a && '\0' !in b
    ensures CStr(Typed(a, [])) == a && CStr(Typed(b, Left(a, Typed(a, [])))) != b
  {
    ReadIff(a, []);
    ReadIff(b, Left(a, Typed(a, [])));
  }

  // ---------- texts that are read as collected ----------

  lemma {:induction false} FillingIs(content: string, parsed: string, kv: seq<Entry>, at: nat)
    requires Find(content, "@") == Some(at)
    ensures Filling(content, parsed, kv) == Blocks(kv, content[..at], content[at + 1..], parsed)
  {
    BlocksFill(kv, content[..at], content[at + 1..], parsed);
  }

  /** Then the scratch buffer does not show. */
  lemma {:induction false} ReadRendered(ps: seq<Piece>, temp: string, parsed: string, kv: seq<Entry>)
    requires Reads(ps, temp)
    ensures Rendered(ps, temp, parsed, kv) == Echoed(ps, parsed, kv)
    decreases |ps|
  {
    if ps != [] {
      match ps[0]
      case Text(_) => ReadRendered(ps[1..], temp, parsed, kv);
      case Slot(t) => ReadRendered(ps[1..], Left(t, Typed(t, temp)), parsed, kv);
      case Block(t) =>
        if Find(t, "@").Some? {
          var at := Find(t, "@").value;
          FillingIs(t, parsed, kv, at);
          var r := Blocks(kv, t[..at], t[at + 1..], parsed);
          if r.Some? { ReadRendered(ps[1..], Left(t, Typed(t, temp)[at := '\0']), r.value.1, kv); }
        }
    }
  }

  // ---------- when the code meets the meaning ----------

  /** Whether some entry fills the block. */
  predicate Filled(content: string, kv: seq<Entry>) {
    Find(content, "@").Some? && |Fillers(kv, content[..Find(content, "@").value])| > 0
  }

  /** No filled block after a filled block that leaves visible text. */
  predicate NoEcho(ps: seq<Piece>, shown: bool, kv: seq<Entry>)
    decreases |ps|
  {
    ps == [] ||
    if ps[0].Block? && Filled(ps[0].content, kv) then
      var r := Filling(ps[0].content, [], kv);
      !shown && (r.Some? ==> NoEcho(ps[1..], r.value.1 != [], kv))
    else NoEcho(ps[1..], shown, kv)
  }

  /** Whether a block can be filled does not depend on what was accumulated before it. */
  lemma {:induction false} FillAllSome(fs: seq<Entry>, inner: string, p: string, q: string)
    requires forall i | 0 <= i < |fs| :: !fs[i].Scalar?
    ensures FillAll(fs, inner, p).Some? == FillAll(fs, inner, q).Some?
    decreases |fs|
  {
    if |fs| > 0 && Fill(fs[0], inner, p).Some? {
      FillAllSome(fs[1..], [], Fill(fs[0], inner, p).value, Fill(fs[0], inner, q).value);
    }
  }

  lemma {:induction false} FillingSome(content: string, p: string, q: string, kv: seq<Entry>)
    ensures Filling(content, p, kv).Some? == Filling(content, q, kv).Some?
  {
    if Find(content, "@").Some? {
      var at := Find(content, "@").value;
      FillAllSome(Fillers(kv, content[..at]), content[at + 1..], p, q);
    }
  }

  lemma {:induction false} Unfilled(content: string, p: string, kv: seq<Entry>)
    requires !Filled(content, kv) && Find(content, "@").Some?
    ensures Filling(content, p, kv) == Some(([], p))
  {
  }

  /** The code fails exactly where the meaning is undefined. */
  lemma {:induction false} EchoedSome(ps: seq<Piece>, parsed: string, kv: seq<Entry>)
    ensures Echoed(ps, parsed, kv).Some? == Meaning(ps, kv).Some?
    decreases |ps|
  {
    if ps != [] {
      match ps[0]
      case Text(_) => EchoedSome(ps[1..], parsed, kv);
      case Slot(_) => EchoedSome(ps[1..], parsed, kv);
      case Block(content) =>
        FillingSome(content, parsed, [], kv);
        var r := Filling(content, parsed, kv);
        if r.Some? { EchoedSome(ps[1..], r.value.1, kv); }
    }
  }

  /** Without a block that repeats an earlier one the code gives the meaning, callbacks included. */
  lemma {:induction false} NoEchoMeaning(ps: seq<Piece>, parsed: string, kv: seq<Entry>)
    requires NoEcho(ps, parsed != [], kv)
    ensures Echoed(ps, parsed, kv) == Meaning(ps, kv)
    decreases |ps|
  {
    if ps != [] {
      match ps[0]
      case Text(_) => NoEchoMeaning(ps[1..], parsed, kv);
      case Slot(_) => NoEchoMeaning(ps[1..], parsed, kv);
      case Block(content) =>
        if Filled(content, kv) {
          var r := Filling(content, [], kv);
          assert parsed == [];
          if r.Some? { NoEchoMeaning(ps[1..], r.value.1, kv); }
        } else if Find(content, "@").Some? {
          Unfilled(content, parsed, kv);
          Unfilled(content, [], kv);
          NoEchoMeaning(ps[1..], parsed, kv);
        }
    }
  }

  predicate NoCallbacks(kv: seq<Entry>) { forall i | 0 <= i < |kv| :: !kv[i].Callback? }

  lemma {:induction false} FillersAreItems(kv: seq<Entry>, name: string)
    requires NoCallbacks(kv)
    ensures forall i | 0 <= i < |Fillers(kv, name)| :: Fillers(kv, name)[i].Items?
    decreases |kv|
  {
    if |kv| > 0 { FillersAreItems(kv[1..], name); }
  }

  /** Of several lists of one name the second meets a wiped block string, so a block is filled by at most
      one: its text is appended to what was accumulated, and all of that is shown. */
  lemma {:induction false} OneList(fs: seq<Entry>, inner: string, parsed: string)
    requires (forall i | 0 <= i < |fs| :: fs[i].Items?) && |fs| > 0
    ensures FillAll(fs, inner, parsed)
            == if |fs| == 1 && Expand(inner, fs[0].items).Some? then
                 var p := parsed + Expand(inner, fs[0].items).value; Some((p, p))
               else None
  {
    var e := Expand(inner, fs[0].items);
    if e.Some? {
      var p := parsed + e.value;
      assert p + [] == p;
      if |fs| > 1 { assert Find<char>([], ITEM) == None; }
    }
  }

  /** A filled block with lists only. */
  lemma {:induction false} ListFilling(content: string, parsed: string, kv: seq<Entry>)
    requires NoCallbacks(kv) && Filled(content, kv) && Filling(content, [], kv).Some?
    ensures var e := Filling(content, [], kv).value;
            e.0 == e.1 && Filling(content, parsed, kv) == Some((parsed + e.0, parsed + e.0))
  {
    var at := Find(content, "@").value;
    var fs := Fillers(kv, content[..at]);
    FillersAreItems(kv, content[..at]);
    OneList(fs, content[at + 1..], []);
    OneList(fs, content[at + 1..], parsed);
    var e := Expand(content[at + 1..], fs[0].items).value;
    assert [] + e == e;
  }

  /** The null pointers of the code, for lists: a block without its `@`, a block that a list should fill
      without a place for the item, and two lists of one name, of which the second finds no block. */
  predicate BlockFails(content: string, kv: seq<Entry>) {
    match Find(content, "@")
    case None => true
    case Some(at) =>
      var lists := |Fillers(kv, content[..at])|;
      lists >= 2 || (lists == 1 && Find(content[at + 1..], ITEM).None?)
  }

  lemma {:induction false} FillingFails(content: string, kv: seq<Entry>)
    requires NoCallbacks(kv)
    ensures Filling(content, [], kv).None? <==> BlockFails(content, kv)
  {
    if Find(content, "@").Some? {
      var at := Find(content, "@").value;
      var fs := Fillers(kv, content[..at]);
      FillersAreItems(kv, content[..at]);
      if |fs| > 0 { OneList(fs, content[at + 1..], []); }
    }
  }

  ghost predicate SomeBlockFails(ps: seq<Piece>, kv: seq<Entry>) {
    exists i | 0 <= i < |ps| :: ps[i].Block? && BlockFails(ps[i].content, kv)
  }

  lemma {:induction false} FailsFirst(ps: seq<Piece>, kv: seq<Entry>)
    requires ps != []
    ensures SomeBlockFails(ps, kv) <==> (ps[0].Block? && BlockFails(ps[0].content, kv)) || SomeBlockFails(ps[1..], kv)
  {
    if SomeBlockFails(ps[1..], kv) {
      var i :| 0 <= i < |ps| - 1 && ps[1..][i].Block? && BlockFails(ps[1..][i].content, kv);
      assert ps[i + 1] == ps[1..][i];
    }
    if SomeBlockFails(ps, kv) {
      var i :| 0 <= i < |ps| && ps[i].Block? && BlockFails(ps[i].content, kv);
      if i > 0 { assert ps[i] == ps[1..][i - 1]; }
    }
  }

  lemma {:induction false} MeaningFails(ps: seq<Piece>, kv: seq<Entry>)
    requires NoCallbacks(kv)
    ensures Meaning(ps, kv).None? <==> SomeBlockFails(ps, kv)
    decreases |ps|
  {
    if ps != [] {
      FailsFirst(ps, kv);
      MeaningFails(ps[1..], kv);
      if ps[0].Block? { FillingFails(ps[0].content, kv); }
    }
  }

  /** When the code follows a null pointer, for every template whose texts are read as collected. */
  lemma {:induction false} FailsIff(context: string, kv: seq<Entry>)
    requires '\0' !in context && Undisturbed(Pieces(context), []) && NoCallbacks(kv)
    ensures Outcome(Run(Start, context, kv)).None? <==> SomeBlockFails(Pieces(context), kv)
  {
    RendersMeaningIff(context, kv);
    MeaningFails(Pieces(context), kv);
  }

  /** With lists only, that condition is exact. */
  lemma {:induction false} EchoIff(ps: seq<Piece>, parsed: string, kv: seq<Entry>)
    requires NoCallbacks(kv) && Meaning(ps, kv).Some?
    ensures var e, m := Echoed(ps, parsed, kv), Meaning(ps, kv);
            e.Some? && |e.value| >= |m.value| && (e == m <==> NoEcho(ps, parsed != [], kv))
    decreases |ps|
  {
    if ps != [] {
      match ps[0]
      case Text(t) =>
        EchoIff(ps[1..], parsed, kv);
        SameAfter(t, Echoed(ps[1..], parsed, kv), Meaning(ps[1..], kv));
      case Slot(name) =>
        EchoIff(ps[1..], parsed, kv);
        SameAfter(Values(kv, name), Echoed(ps[1..], parsed, kv), Meaning(ps[1..], kv));
      case Block(content) =>
        if Filled(content, kv) {
          EchoBlock(ps, content, parsed, kv);
        } else {
          Unfilled(content, parsed, kv);
          Unfilled(content, [], kv);
          EchoIff(ps[1..], parsed, kv);
          SameAfter([], Echoed(ps[1..], parsed, kv), Meaning(ps[1..], kv));
        }
    }
  }

  lemma {:induction false} EchoBlock(ps: seq<Piece>, content: string, parsed: string, kv: seq<Entry>)
    requires NoCallbacks(kv) && Meaning(ps, kv).Some? && ps != [] && ps[0] == Block(content) && Filled(content, kv)
    ensures var e, m := Echoed(ps, parsed, kv), Meaning(ps, kv);
            e.Some? && |e.value| >= |m.value| && (e == m <==> NoEcho(ps, parsed != [], kv))
    decreases |ps|, 0
  {
    ListFilling(content, parsed, kv);
    var e := Filling(content, [], kv).value.0;
    EchoIff(ps[1..], parsed + e, kv);
    SameAfter(e, Echoed(ps[1..], parsed + e, kv), Meaning(ps[1..], kv));
    assert parsed == [] ==> parsed + e == e;
  }

  lemma {:induction false} SameAfter(t: string, a: Option<string>, b: Option<string>)
    ensures Append(t, a) == Append(t, b) <==> a == b
  {
    if a.Some? && b.Some? && t + a.value == t + b.value {
      assert a.value == (t + a.value)[|t|..] == (t + b.value)[|t|..] == b.value;
    }
  }

  /** For every template whose texts are read as collected: the code fails exactly where the meaning is
      undefined; it gives the meaning when no block repeats an earlier one; and without callbacks only
      then. */
  lemma {:induction false} RendersMeaningIff(context: string, kv: seq<Entry>)
    requires '\0' !in context && Undisturbed(Pieces(context), [])
    ensures var ps := Pieces(context);
            var r, m := Outcome(Run(Start, context, kv)), Meaning(ps, kv);
            && r.Some? == m.Some?
            && (NoEcho(ps, false, kv) ==> r == m)
            && (NoCallbacks(kv) && m.Some? ==> (r == m <==> NoEcho(ps, false, kv)))
  {
    var ps := Pieces(context);
    PiecesNulFree(context);
    ReadsIff(ps);
    RendersPieces(context, kv);
    ReadRendered(ps, [], [], kv);
    EchoedSome(ps, [], kv);
    if NoEcho(ps, false, kv) { NoEchoMeaning(ps, [], kv); }
    if NoCallbacks(kv) && Meaning(ps, kv).Some? { EchoIff(ps, [], kv); }
  }

  lemma {:induction false} NulFreeCons(ps: seq<Piece>)
    requires ps != [] && '\0' !in Between(ps[0]) && NulFree(ps[1..])
    ensures NulFree(ps)
  {
    forall i | 0 <= i < |ps| ensures '\0' !in Between(ps[i]) {
      if i > 0 { assert ps[i] == ps[1..][i - 1]; }
    }
  }

  lemma {:induction false} PiecesNulFree(s: string)
    requires '\0' !in s
    ensures NulFree(Pieces(s))
    decreases |s|
  {
    if s != [] && Opening(s) > 0 {
      PiecesNulFree(s[Opening(s)..]);
      NulFreeCons([Text(s[..Opening(s)])] + Pieces(s[Opening(s)..]));
    } else if s != [] && Find(s[2..], [s[1], ']']).Some? {
      var j := Find(s[2..], [s[1], ']']).value;
      PiecesNulFree(s[2..][j + 2..]);
      var ps := FirstPiece(s, j);
      assert Between(ps[0]) == s[2..][..j];
      NulFreeCons(ps);
    }
  }

  // ---------- templates written from pieces ----------

  function Written(p: Piece): string {
    match p
    case Text(t) => t
    case Slot(name) => "[#" + name + "#]"
    case Block(content) => "[@" + content + "@]"
  }

  function Print(ps: seq<Piece>): string
    decreases |ps|
  {
    if ps == [] then [] else Written(ps[0]) + Print(ps[1..])
  }

  /** Texts contain no opening and are not split; slots and blocks do not contain their own end. */
  predicate WellFormed(ps: seq<Piece>)
    decreases |ps|
  {
    ps == [] ||
    (WellFormed(ps[1..]) &&
     match ps[0]
     case Text(t) => t != [] && Opening(t) == |t| && (|ps| > 1 ==> !ps[1].Text?)
     case Slot(name) => Find(name, "#]").None?
     case Block(content) => Find(content, "@]").None?)
  }

  lemma {:induction false} NotOpened(t: string, rest: string)
    requires t != [] && !Opens(t) && (rest == [] || rest[0] == '[')
    ensures !Opens(t + rest)
  {
    var s := t + rest;
    if |s| > 1 && s[0] == '[' {
      assert s[1] == if |t| > 1 then t[1] else '[';
    }
  }

  lemma {:induction false} OpeningAfter(t: string, rest: string)
    requires Opening(t) == |t| && (rest == [] || Opens(rest))
    ensures Opening(t + rest) == |t|
  {
    if t == [] {
      assert t + rest == rest;
    } else {
      assert (t + rest)[1..] == t[1..] + rest;
      NotOpened(t, rest);
      OpeningAfter(t[1..], rest);
    }
  }

  lemma {:induction false} EndAfter(t: string, o: char, rest: string)
    requires Find(t, [o, ']']).None? && o != ']'
    ensures Find(t + [o, ']'] + rest, [o, ']']) == Some(|t|)
  {
    var s := t + [o, ']'] + rest;
    if t == [] {
      assert s[..2] == [o, ']'];
    } else {
      assert s[1..] == t[1..] + [o, ']'] + rest;
      assert !([o, ']'] <= s) by {
        if |t| == 1 { assert s[1] == o; } else { assert s[0] == t[0] && s[1] == t[1]; }
      }
      EndAfter(t[1..], o, rest);
    }
  }

  lemma {:induction false} PrintOpens(ps: seq<Piece>)
    requires ps != [] ==> !ps[0].Text?
    ensures Print(ps) == [] || Opens(Print(ps))
  {
    if ps != [] {
      var s := Print(ps);
      assert s[0] == '[' && (s[1] == '#' || s[1] == '@');
    }
  }

  lemma {:induction false} PiecesOfEnclosed(t: string, o: char, rest: string)
    requires o in "#@" && Find(t, [o, ']']).None?
    ensures Pieces(['[', o] + t + [o, ']'] + rest) == [PieceOf(o, t)] + Pieces(rest)
  {
    var s := ['[', o] + t + [o, ']'] + rest;
    assert s[2..] == t + [o, ']'] + rest && s[1] == o;
    EndAfter(t, o, rest);
    assert Opens(s);
    assert s[2..][..|t|] == t && s[2..][|t| + 2..] == rest;
    var ps := FirstPiece(s, |t|);
  }

  lemma {:induction false} PiecesOfText(t: string, rest: string)
    requires t != [] && Opening(t) == |t| && (rest == [] || Opens(rest))
    ensures Pieces(t + rest) == [Text(t)] + Pieces(rest)
  {
    OpeningAfter(t, rest);
    assert (t + rest)[..|t|] == t && (t + rest)[|t|..] == rest;
  }

  /** Reading a written template gives back its pieces. */
  lemma {:induction false} PiecesOfPrint(ps: seq<Piece>)
    requires WellFormed(ps)
    ensures Pieces(Print(ps)) == ps
    decreases |ps|
  {
    if ps != [] {
      PiecesOfPrint(ps[1..]);
      PiecesOfFirst(ps, Print(ps[1..]));
      assert ps == [ps[0]] + ps[1..];
    }
  }

  lemma {:induction false} PiecesOfFirst(ps: seq<Piece>, rest: string)
    requires WellFormed(ps) && ps != [] && rest == Print(ps[1..])
    ensures Pieces(Print(ps)) == [ps[0]] + Pieces(rest)
  {
    match ps[0]
    case Text(t) =>
      PrintOpens(ps[1..]);
      PiecesOfText(t, rest);
    case Slot(name) =>
      PiecesOfEnclosed(name, '#', rest);
      assert Print(ps) == "[#" + name + "#]" + rest;
    case Block(content) =>
      PiecesOfEnclosed(content, '@', rest);
      assert Print(ps) == "[@" + content + "@]" + rest;
  }

  // ---------- at most one block ----------

  function BlockCount(ps: seq<Piece>): nat
    decreases |ps|
  {
    if ps == [] then 0 else (if ps[0].Block? then 1 else 0) + BlockCount(ps[1..])
  }

  ghost predicate ShortSlots(ps: seq<Piece>) { forall i | 0 <= i < |ps| && ps[i].Slot? :: |ps[i].name| < 64 }

  /** Before the block only short texts have been collected. */
  lemma {:induction false} ShortPast(past: seq<Piece>, n: nat)
    requires n >= 64 && forall i | 0 <= i < |past| :: |Between(past[i])| < 64
    ensures LastLonger(past, n) == None
  {
    if past != [] { ShortPast(past[..|past| - 1], n); }
  }

  lemma {:induction false} OneBlockUndisturbed(ps: seq<Piece>, past: seq<Piece>)
    requires ShortSlots(ps) && BlockCount(ps) <= 1
    requires BlockCount(ps) == 1 ==> forall i | 0 <= i < |past| :: |Between(past[i])| < 64
    ensures Undisturbed(ps, past)
    decreases |ps|
  {
    if ps != [] {
      match ps[0]
      case Text(_) => OneBlockUndisturbed(ps[1..], past);
      case Slot(_) => OneBlockUndisturbed(ps[1..], past + [ps[0]]);
      case Block(t) =>
        if |t| >= 64 { ShortPast(past, |t|); }
        OneBlockUndisturbed(ps[1..], past + [ps[0]]);
    }
  }

  lemma {:induction false} OneBlockNoEcho(ps: seq<Piece>, shown: bool, kv: seq<Entry>)
    requires BlockCount(ps) <= if shown then 0 else 1
    ensures NoEcho(ps, shown, kv)
    decreases |ps|
  {
    if ps != [] {
      if BlockCount(ps[1..]) == 0 { OneBlockNoEcho(ps[1..], true, kv); }
      if BlockCount(ps[1..]) <= if shown then 0 else 1 { OneBlockNoEcho(ps[1..], shown, kv); }
      OneBlockNoEcho(ps[1..], false, kv);
    }
  }

  /** Text, slots with names under 64 characters and at most one block of any length: rendering the
      written template gives the meaning of its pieces, and fails only where they have none. */
  lemma {:induction false} RendersWritten(ps: seq<Piece>, kv: seq<Entry>)
    requires WellFormed(ps) && '\0' !in Print(ps) && ShortSlots(ps) && BlockCount(ps) <= 1
    ensures Outcome(Run(Start, Print(ps), kv)) == Meaning(ps, kv)
  {
    PiecesOfPrint(ps);
    OneBlockUndisturbed(ps, []);
    OneBlockNoEcho(ps, false, kv);
    RendersMeaningIff(Print(ps), kv);
  }

  // ---------- two blocks ----------

  lemma {:induction false} TwoBlocksPrinted(b: string)
    requires Find(b, "@]").None?
    ensures var ps := [Block(b), Block(b)]; WellFormed(ps) && Print(ps) == "[@" + b + "@]" + ("[@" + b + "@]")
  {
    var ps, q := [Block(b), Block(b)], [Block(b)];
    assert ps[1..] == q && q[1..] == [];
    assert WellFormed(q);
    assert Print(q) == "[@" + b + "@]" + [];
    assert "[@" + b + "@]" + [] == "[@" + b + "@]";
  }

  lemma {:induction false} TwoBlocksRead(b: string, kv: seq<Entry>)
    requires Find(b, "@]").None? && '\0' !in b
    ensures var context := "[@" + b + "@]" + ("[@" + b + "@]");
            Outcome(Run(Start, context, kv)) == Echoed([Block(b), Block(b)], [], kv)
  {
    var ps := [Block(b), Block(b)];
    TwoBlocksPrinted(b);
    PiecesOfPrint(ps);
    RendersPieces(Print(ps), kv);
    SameBlockReads(b);
    ReadRendered(ps, [], [], kv);
  }

  lemma {:induction false} TwoBlocks(b: string, kv: seq<Entry>, e: string)
    requires Filling(b, [], kv) == Some((e, e)) && Filling(b, e, kv) == Some((e + e, e + e))
    ensures var ps := [Block(b), Block(b)]; Echoed(ps, [], kv) == Some(e + e + e) && Meaning(ps, kv) == Some(e + e)
  {
    var ps, q := [Block(b), Block(b)], [Block(b)];
    assert ps[1..] == q && q[1..] == [];
    assert e + [] == e && e + e + [] == e + e;
    assert Meaning(q, kv) == Some(e) && Echoed(q, e, kv) == Some(e + e);
    assert e + (e + e) == e + e + e;
  }

  /** The same filled block twice: its second rendering repeats the first. */
  lemma {:induction false} TwiceEchoes(b: string, kv: seq<Entry>, e: string)
    requires NoCallbacks(kv) && Filled(b, kv) && Filling(b, [], kv) == Some((e, e))
    requires '\0' !in b && Find(b, "@]").None?
    ensures var context := "[@" + b + "@]" + ("[@" + b + "@]");
            Outcome(Run(Start, context, kv)) == Some(e + e + e) && Meaning([Block(b), Block(b)], kv) == Some(e + e)
  {
    TwoBlocksRead(b, kv);
    ListFilling(b, e, kv);
    TwoBlocks(b, kv, e);
  }

  lemma {:induction false} SameBlockReads(b: string)
    requires '\0' !in b
    ensures Reads([Block(b), Block(b)], [])
  {
    var ps := [Block(b), Block(b)];
    assert ps[1..] == [Block(b)] && ps[1..][1..] == [] && [Block(b)][1..] == [];
    ReadIff(b, []);
    if Find(b, "@").Some? { ReadIff(b, Left(b, Typed(b, [])[Find(b, "@").value := '\0'])); }
  }

  lemma {:induction false} NoEnd(s: string, o: char)
    requires ']' !in s
    ensures Find(s, [o, ']']).None?
  {
    if s != [] {
      if |s| > 1 { assert s[1] != [o, ']'][1]; }
      NoEnd(s[1..], o);
    }
  }

  lemma {:induction false} ExampleBlock(b: string, kv: seq<Entry>)
    requires b == "l@{{item}}" && kv == [Items("l", ["x"])]
    ensures NoCallbacks(kv) && Filled(b, kv) && Filling(b, [], kv) == Some(("x", "x"))
  {
    assert Find(b, "@") == Some(1) by {
      assert b[0] == 'l' && "@"[0] == '@' && b[1] == '@';
      assert Find(b[1..], "@") == Some(0);
    }
    assert b[..1] == "l" && b[2..] == ITEM;
    assert kv[1..] == [];
    assert Fillers(kv, "l") == [kv[0]];
    OneItem(ITEM, kv[0].items);
    OneList([kv[0]], ITEM, []);
    assert [] + "x" == "x";
  }

  lemma {:induction false} OneItem(inner: string, items: seq<string>)
    requires inner == ITEM && items == ["x"]
    ensures Expand(inner, items) == Some("x")
  {
    assert Find(inner, ITEM) == Some(0);
    assert inner[..0] == [] && inner[|ITEM|..] == [] && items[1..] == [];
    assert Repeat([], [], items) == [] + "x" + [] + [];
    assert [] + "x" + [] + [] == "x";
  }

  /** For instance, a list with the one item x. */
  lemma {:induction false} TwoBlocksEcho(b: string, context: string, kv: seq<Entry>)
    requires context == "[@l@{{item}}@][@l@{{item}}@]" && b == "l@{{item}}" && kv == [Items("l", ["x"])]
    ensures Outcome(Run(Start, context, kv)) == Some("xxx") && Meaning([Block(b), Block(b)], kv) == Some("xx")
  {
    ExampleBlock(b, kv);
    NoEnd(b, '@');
    ExampleText(b, context);
    TwiceEchoes(b, kv, "x");
    ThreeTimes("x");
  }

  lemma {:induction false} ThreeTimes(e: string)
    requires e == "x"
    ensures e + e == "xx" && e + e + e == "xxx"
  {
    assert "xx" + "x" == "xxx";
  }

  lemma {:induction false} ExampleText(b: string, context: string)
    requires context == "[@l@{{item}}@][@l@{{item}}@]" && b == "l@{{item}}"
    ensures context == "[@" + b + "@]" + ("[@" + b + "@]") && '\0' !in b && ']' !in b
  {
  }
}
