/**
  The text that slots and blocks render to, said of the template and the values alone: where each item of
  a list stands, what several values for one slot give, and what callbacks of one name make in turn.
*/
module TemplateText {
  import opened CString
  import opened Template
  import opened TemplateMeaning
  import opened Wrappers

  // ---------- the place of the item ----------

  lemma {:induction false} NoneBefore(p: string, q: string, k: nat)
    requires Find(p, "{{item}}").None? && k < |p|
    ensures !("{{item}}" <= (p + "{{item}}" + q)[k..])
  {
    var s, d := p + "{{item}}" + q, |p| - k;
    if d >= 8 {
      NotAt(p, "{{item}}", k);
      assert s[k..][..8] == p[k..][..8];
    } else {
      assert s[k..][d..] == "{{item}}" + q;
      Straddles(s[k..], d, "{{item}}");
    }
  }

  lemma {:induction false} NotAt(p: string, item: string, k: nat)
    requires Find(p, item).None? && k <= |p|
    ensures !(item <= p[k..])
  {
    if item <= p[k..] { FoundFirst(p, item, k); }
  }

  /** The pattern does not overlap itself: where it stands, it does not begin again. */
  lemma {:induction false} Straddles(s: string, d: nat, item: string)
    requires item == "{{item}}" && 0 < d < 8 && d <= |s| && item <= s[d..]
    ensures !(item <= s)
  {
    assert s[d] == item[0] && s[d + 1] == item[1];
    assert d == 1 || d == 2 || d == 3 || d == 4 || d == 5 || d == 6 || d == 7;
    assert item[2] == 'i' && item[3] == 't' && item[4] == 'e' && item[5] == 'm' && item[6] == '}' && item[7] == '}';
  }

  /** Behind a text that does not contain it, the item is found just there. */
  lemma {:induction false} FirstPlace(p: string, q: string)
    requires Find(p, "{{item}}").None?
    ensures Find(p + "{{item}}" + q, "{{item}}") == Some(|p|)
  {
    var s := p + "{{item}}" + q;
    assert s[|p|..] == "{{item}}" + q;
    FoundFirst(s, "{{item}}", |p|);
    FoundThere(s, "{{item}}");
    var k := Find(s, "{{item}}").value;
    if k < |p| { NoneBefore(p, q, k); }
  }

  // ---------- lists ----------

  lemma {:induction false} RepeatAppend(p: string, q: string, items: seq<string>, x: string)
    ensures Repeat(p, q, items + [x]) == Repeat(p, q, items) + (p + x + q)
    decreases |items|
  {
    if items == [] {
      assert [x][1..] == [] && items + [x] == [x];
      assert p + x + q + [] == [] + (p + x + q);
    } else {
      var rest := Repeat(p, q, items[1..]);
      assert (items + [x])[1..] == items[1..] + [x] && (items + [x])[0] == items[0];
      RepeatAppend(p, q, items[1..], x);
      assert p + items[0] + q + (rest + (p + x + q)) == p + items[0] + q + rest + (p + x + q);
    }
  }

  lemma {:induction false} ExpandIs(p: string, q: string, items: seq<string>)
    requires Find(p, "{{item}}").None?
    ensures Expand(p + "{{item}}" + q, items) == Some(Repeat(p, q, items))
  {
    FirstPlace(p, q);
    var s := p + "{{item}}" + q;
    assert s[..|p|] == p && s[|p| + 8..] == q;
  }

  /** A list renders to nothing when it is empty, and one more item appends the text before the place of
      the item, the item, and the text after it. */
  lemma {:induction false} ExpandLaw(p: string, q: string, items: seq<string>, x: string)
    requires Find(p, "{{item}}").None?
    ensures var t := p + "{{item}}" + q;
            && Expand(t, []) == Some("")
            && Expand(t, items).Some? && Expand(t, items + [x]) == Some(Expand(t, items).value + p + x + q)
  {
    ExpandIs(p, q, []);
    ExpandIs(p, q, items);
    ExpandIs(p, q, items + [x]);
    RepeatAppend(p, q, items, x);
    var out := Repeat(p, q, items);
    assert out + (p + x + q) == out + p + x + q;
  }

  /** The length of the first n blocks. */
  function Width(p: string, q: string, items: seq<string>, n: nat): nat
    requires n <= |items|
  {
    if n == 0 then 0 else Width(p, q, items, n - 1) + |p| + |items[n - 1]| + |q|
  }

  lemma {:induction false} WidthOf(p: string, q: string, a: seq<string>, b: seq<string>, n: nat)
    requires n <= |a| && n <= |b| && a[..n] == b[..n]
    ensures Width(p, q, a, n) == Width(p, q, b, n)
  {
    if n > 0 {
      assert a[..n][n - 1] == b[..n][n - 1] && a[..n - 1] == a[..n][..n - 1] && b[..n - 1] == b[..n][..n - 1];
      WidthOf(p, q, a, b, n - 1);
    }
  }

  /** Block i stands behind the blocks before it and is the item between the two texts; nothing else is
      in the output. */
  lemma {:induction false} ItemStands(p: string, q: string, items: seq<string>, i: nat)
    requires Find(p, "{{item}}").None? && i < |items|
    ensures var out := Expand(p + "{{item}}" + q, items);
            && out.Some? && |out.value| == Width(p, q, items, |items|)
            && Width(p, q, items, i) <= Width(p, q, items, i + 1) <= |out.value|
            && out.value[Width(p, q, items, i)..Width(p, q, items, i + 1)] == p + items[i] + q
  {
    ExpandIs(p, q, items);
    RepeatStands(p, q, items, i);
  }

  lemma {:induction false} RepeatLength(p: string, q: string, items: seq<string>)
    ensures |Repeat(p, q, items)| == Width(p, q, items, |items|)
    decreases |items|
  {
    if items != [] {
      var n := |items| - 1;
      assert items == items[..n] + [items[n]];
      RepeatAppend(p, q, items[..n], items[n]);
      RepeatLength(p, q, items[..n]);
      WidthOf(p, q, items[..n], items, n);
    }
  }

  lemma {:induction false} RepeatStands(p: string, q: string, items: seq<string>, i: nat)
    requires i < |items|
    ensures var out, from, to := Repeat(p, q, items), Width(p, q, items, i), Width(p, q, items, i + 1);
            |out| == Width(p, q, items, |items|) && from <= to <= |out| && out[from..to] == p + items[i] + q
    decreases |items|
  {
    var n := |items| - 1;
    var first, last := items[..n], items[n];
    var out := Repeat(p, q, first);
    assert items == first + [last];
    RepeatAppend(p, q, first, last);
    RepeatLength(p, q, first);
    RepeatLength(p, q, items);
    WidthOf(p, q, first, items, n);
    if i < n {
      RepeatStands(p, q, first, i);
      WidthOf(p, q, first, items, i);
      WidthOf(p, q, first, items, i + 1);
      Within(out, p + last + q, Width(p, q, items, i), Width(p, q, items, i + 1));
    } else {
      assert (out + (p + last + q))[|out|..] == p + last + q;
    }
  }

  lemma {:induction false} Within(a: string, b: string, from: nat, to: nat)
    requires from <= to <= |a|
    ensures (a + b)[from..to] == a[from..to]
  {
  }

  // ---------- plain text ----------

  lemma {:induction false} NoBracket(t: string)
    requires '[' !in t
    ensures Opening(t) == |t|
  {
    if t != [] { NoBracket(t[1..]); }
  }

  /** Text without a bracket is copied, and a slot or block that does not end shows nothing. */
  lemma {:induction false} RendersText(t: string, o: char, u: string, kv: seq<Entry>)
    requires '[' !in t && (o == '#' || o == '@') && Find(u, [o, ']']).None?
    ensures Outcome(Run(Start, t, kv)) == Some(t) && Outcome(Run(Start, t + (['[', o] + u), kv)) == Some(t)
  {
    var rest := ['[', o] + u;
    NoBracket(t);
    RunText(Start, t, |t|, kv);
    assert t[..|t|] == t && t[|t|..] == [] && [] + t == t;
    OpeningAfter(t, rest);
    RunText(Start, t + rest, |t|, kv);
    assert (t + rest)[..|t|] == t && (t + rest)[|t|..] == rest && rest[2..] == u;
    var m := Start.(writeRes := Start.writeRes || |t| > 0, result := t);
    RunUnclosed(m, rest, kv);
  }

  // ---------- slots ----------

  /** Every scalar entry of the name adds its value at the end; no other entry adds anything. */
  lemma {:induction false} ValuesLaw(kv: seq<Entry>, e: Entry, name: string)
    ensures Values([], name) == ""
    ensures Values(kv + [e], name) == Values(kv, name) + if e.Scalar? && e.key == name then e.value else ""
    decreases |kv|
  {
    if |kv| == 0 {
      assert kv + [e] == [e] && [e][1..] == [];
    } else {
      assert (kv + [e])[1..] == kv[1..] + [e] && (kv + [e])[0] == kv[0];
      ValuesLaw(kv[1..], e, name);
    }
  }

  /** A slot alone in its template renders to the values of its name. */
  lemma {:induction false} RendersSlot(name: string, kv: seq<Entry>, e: Entry)
    requires Find(name, "#]").None? && '\0' !in name && |name| < 64
    ensures var t := "[#" + name + "#]";
            && Outcome(Run(Start, t, [])) == Some("")
            && Outcome(Run(Start, t, kv)).Some?
            && Outcome(Run(Start, t, kv + [e]))
               == Some(Outcome(Run(Start, t, kv)).value + if e.Scalar? && e.key == name then e.value else "")
  {
    SlotAlone(name, []);
    SlotAlone(name, kv);
    SlotAlone(name, kv + [e]);
    ValuesLaw(kv, e, name);
  }

  lemma {:induction false} SlotAlone(name: string, kv: seq<Entry>)
    requires Find(name, "#]").None? && '\0' !in name && |name| < 64
    ensures Outcome(Run(Start, "[#" + name + "#]", kv)) == Some(Values(kv, name))
  {
    var ps := [Slot(name)];
    assert ps[1..] == [] && "[#" + name + "#]" + [] == "[#" + name + "#]";
    assert WellFormed(ps) && Values(kv, name) + [] == Values(kv, name);
    RendersWritten(ps, kv);
  }

  // ---------- blocks ----------

  /** A block string: a name without '@', an '@', and the inner text. */
  ghost predicate Proper(name: string, inner: string) {
    '@' !in name && '\0' !in name && '\0' !in inner && Find(name + "@" + inner, "@]").None?
  }

  lemma {:induction false} NameEnds(name: string, inner: string)
    requires '@' !in name
    ensures var b := name + "@" + inner; Find(b, "@") == Some(|name|) && b[..|name|] == name && b[|name| + 1..] == inner
  {
    var b := name + "@" + inner;
    assert b[|name|..] == "@" + inner;
    FoundFirst(b, "@", |name|);
    FoundThere(b, "@");
    var k := Find(b, "@").value;
    assert b[k..][0] == '@' && b[k] == '@';
  }

  lemma {:induction false} BlockAlone(name: string, inner: string, kv: seq<Entry>)
    requires Proper(name, inner)
    ensures Outcome(Run(Start, "[@" + name + "@" + inner + "@]", kv))
            == match FillAll(Fillers(kv, name), inner, [])
               case None => None
               case Some((out, _)) => Some(out)
  {
    var b := name + "@" + inner;
    NameEnds(name, inner);
    var ps := [Block(b)];
    assert ps[1..] == [] && "[@" + b + "@]" + [] == "[@" + name + "@" + inner + "@]";
    assert WellFormed(ps);
    RendersWritten(ps, kv);
    var f := Filling(b, [], kv);
    if f.Some? { assert f.value.0 + [] == f.value.0; }
  }

  /** Entries that have nothing to do with the block. */
  ghost predicate Foreign(kv: seq<Entry>, name: string) {
    forall i | 0 <= i < |kv| :: kv[i].Scalar? || kv[i].key != name
  }

  lemma {:induction false} ForeignFillers(kv: seq<Entry>, name: string)
    requires Foreign(kv, name)
    ensures Fillers(kv, name) == []
    decreases |kv|
  {
    if |kv| > 0 { ForeignFillers(kv[1..], name); }
  }

  lemma {:induction false} FillersConcat(a: seq<Entry>, b: seq<Entry>, name: string)
    ensures Fillers(a + b, name) == Fillers(a, name) + Fillers(b, name)
    decreases |a|
  {
    if |a| == 0 {
      assert a + b == b;
    } else {
      assert (a + b)[1..] == a[1..] + b && (a + b)[0] == a[0];
      FillersConcat(a[1..], b, name);
    }
  }

  lemma {:induction false} OneFiller(a: seq<Entry>, e: Entry, b: seq<Entry>)
    requires Foreign(a, e.key) && Foreign(b, e.key) && !e.Scalar?
    ensures Fillers(a + [e] + b, e.key) == [e]
  {
    ForeignFillers(a, e.key);
    ForeignFillers(b, e.key);
    FillersConcat(a + [e], b, e.key);
    FillersConcat(a, [e], e.key);
    assert [e][1..] == [];
  }

  lemma {:induction false} ListAlone(name: string, p: string, q: string, items: Dec, a: seq<Entry>, b: seq<Entry>)
    requires Proper(name, p + "{{item}}" + q) && Find(p, "{{item}}").None?
    requires Foreign(a, name) && Foreign(b, name)
    ensures Outcome(Run(Start, "[@" + name + "@" + (p + "{{item}}" + q) + "@]", a + [Items(name, items)] + b))
            == Expand(p + "{{item}}" + q, items)
  {
    var e, inner := Items(name, items), p + "{{item}}" + q;
    OneFiller(a, e, b);
    BlockAlone(name, inner, a + [e] + b);
    ExpandIs(p, q, items);
    OneList([e], inner, []);
    assert [] + Expand(inner, items).value == Expand(inner, items).value;
  }

  /** A list block rendered by the code, wherever the list stands among the entries: nothing for the empty
      list, and one more item appends the text before, the item and the text after. */
  lemma {:induction false} RendersItems(name: string, p: string, q: string, items: Dec, x: string, a: seq<Entry>,
      b: seq<Entry>)
    requires Proper(name, p + "{{item}}" + q) && Find(p, "{{item}}").None? && |items| < 20
    requires Foreign(a, name) && Foreign(b, name)
    ensures var t := "[@" + name + "@" + (p + "{{item}}" + q) + "@]";
            var out := Outcome(Run(Start, t, a + [Items(name, items)] + b));
            && Outcome(Run(Start, t, a + [Items(name, [])] + b)) == Some("")
            && out.Some?
            && Outcome(Run(Start, t, a + [Items(name, items + [x])] + b)) == Some(out.value + p + x + q)
  {
    ListAlone(name, p, q, [], a, b);
    ListAlone(name, p, q, items, a, b);
    ListAlone(name, p, q, items + [x], a, b);
    ExpandLaw(p, q, items, x);
  }

  lemma {:induction false} TwoFillers(f: (string, string) -> string, g: (string, string) -> string, name: string,
      inner: string)
    ensures var kv := [Callback(name, f), Callback(name, g)];
            var out := f("", inner);
            Fillers(kv, name) == kv && FillAll(kv, inner, []) == Some((out + g(out, ""), g(out, "")))
    ensures var kv := [Callback(name, f)];
            Fillers(kv, name) == kv && FillAll(kv, inner, []) == Some((f("", inner), f("", inner)))
  {
    var kv, one, last := [Callback(name, f), Callback(name, g)], [Callback(name, f)], [Callback(name, g)];
    assert kv[1..] == last && last[1..] == [] && one[1..] == [];
    assert Fillers(last, name) == last && Fillers(one, name) == one && kv == [kv[0]] + last;
    var out := f("", inner);
    assert FillAll(last, [], out) == Some((g(out, "") + [], g(out, "")));
    assert g(out, "") + [] == g(out, "") && out + [] == out;
  }

  /** A callback sees no accumulated text and the inner text of the block; a second one of the same name
      sees what the first one made, and an empty block. */
  lemma {:induction false} RendersCallbacks(name: string, inner: string, f: (string, string) -> string,
      g: (string, string) -> string)
    requires Proper(name, inner)
    ensures var t := "[@" + name + "@" + inner + "@]";
            var out := f("", inner);
            && Outcome(Run(Start, t, [])) == Some("")
            && Outcome(Run(Start, t, [Callback(name, f)])) == Some(out)
            && Outcome(Run(Start, t, [Callback(name, f), Callback(name, g)])) == Some(out + g(out, ""))
  {
    TwoFillers(f, g, name, inner);
    BlockAlone(name, inner, []);
    BlockAlone(name, inner, [Callback(name, f)]);
    BlockAlone(name, inner, [Callback(name, f), Callback(name, g)]);
  }
}
