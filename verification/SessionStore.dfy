/**
  The session table of Src/session.c: buckets of sessions chained newest first, each session with its
  own chain of data entries, newest first. A session string may occur in several nodes. The reference
  is the history of calls: what a lookup returns is the last write that took effect.
*/
module SessionStore {
  import opened Wrappers

  datatype Entry = Entry(key: string, data: string, stored: int)
  datatype Session = Session(id: string, entries: seq<Entry>)

  const EXPIRE: int := 300

  // ---------- the reference ----------

  datatype Op =
    | Create(id: string, key: string, data: string, now: int)
    | Add(id: string, key: string, data: string, now: int)
    | Update(id: string, key: string, data: string, now: int)

  ghost predicate Known(h: seq<Op>, id: string) {
    exists i | 0 <= i < |h| :: h[i].Create? && h[i].id == id
  }

  /** The last call that wrote this key of this session: creating always writes, adding only to a
      session that was created before, updating only a key that was written before. */
  ghost function LastWrite(h: seq<Op>, id: string, key: string): Option<Entry> {
    if h == [] then None
    else
      var op, before := h[|h| - 1], h[..|h| - 1];
      if op.id == id && op.key == key
         && (op.Create? || (op.Add? && Known(before, id)) || (op.Update? && LastWrite(before, id, key).Some?))
      then Some(Entry(key, op.data, op.now))
      else LastWrite(before, id, key)
  }

  /** What getSession should return at time `now`. */
  ghost function Visible(h: seq<Op>, id: string, key: string, now: int): Option<string> {
    match LastWrite(h, id, key)
    case Some(e) => if now <= e.stored + 300 then Some(e.data) else None
    case None => None
  }

  /** Calls about another session string or another key change nothing for this one. */
  lemma {:induction false} OthersDoNotMatter(h: seq<Op>, op: Op, id: string, key: string, now: int)
    requires op.id != id || op.key != key
    ensures Visible(h + [op], id, key, now) == Visible(h, id, key, now)
  {
    assert (h + [op])[..|h|] == h;
  }

  /** A session of this name was created in the first n calls. */
  ghost predicate CreatedIn(h: seq<Op>, n: nat, id: string)
    requires n <= |h|
  {
    exists i | 0 <= i < n :: h[i].Create? && h[i].id == id
  }

  /** Call i brought the key into the session: it created the session with it, or added it to one that was
      there. */
  ghost predicate Brings(h: seq<Op>, i: nat, id: string, key: string)
    requires i < |h|
  {
    h[i].id == id && h[i].key == key && (h[i].Create? || (h[i].Add? && CreatedIn(h, i, id)))
  }

  ghost predicate Brought(h: seq<Op>, id: string, key: string) {
    exists i {:trigger Brings(h, i, id, key)} | 0 <= i < |h| :: Brings(h, i, id, key)
  }

  lemma {:induction false} CreatedInPrefix(h: seq<Op>, n: nat, m: nat, id: string)
    requires n <= m <= |h|
    ensures CreatedIn(h[..m], n, id) <==> CreatedIn(h, n, id)
  {
    assert forall i | 0 <= i < n :: h[..m][i] == h[i];
  }

  lemma {:induction false} BroughtPrefix(h: seq<Op>, id: string, key: string)
    requires h != []
    ensures var n := |h| - 1; Brought(h, id, key) <==> Brings(h, n, id, key) || Brought(h[..n], id, key)
  {
    var n := |h| - 1;
    forall i | 0 <= i < n ensures Brings(h[..n], i, id, key) <==> Brings(h, i, id, key) {
      assert h[..n][i] == h[i];
      CreatedInPrefix(h, i, n, id);
    }
  }

  /** A key has a value exactly when some call brought it in; overwriting alone does not. */
  lemma {:induction false} WrittenIff(h: seq<Op>, id: string, key: string)
    ensures LastWrite(h, id, key).Some? <==> Brought(h, id, key)
  {
    if h != [] {
      var n := |h| - 1;
      WrittenIff(h[..n], id, key);
      BroughtPrefix(h, id, key);
      CreatedInPrefix(h, n, n, id);
      assert Known(h[..n], id) <==> CreatedIn(h[..n], n, id);
    }
  }

  /** A call that takes effect is seen for 300 seconds and then no more: creating always takes effect,
      adding when the session was created before, updating when the key was brought in before. Any
      other call changes nothing. */
  lemma {:induction false} WriteIsSeen(h: seq<Op>, op: Op, now: int)
    ensures Visible(h + [op], op.id, op.key, now)
            == if op.Create? || (op.Add? && CreatedIn(h, |h|, op.id)) || (op.Update? && Brought(h, op.id, op.key))
               then (if now <= op.now + 300 then Some(op.data) else None)
               else Visible(h, op.id, op.key, now)
  {
    assert (h + [op])[..|h|] == h;
    WrittenIff(h, op.id, op.key);
    assert Known(h, op.id) <==> CreatedIn(h, |h|, op.id);
  }

  // ---------- chains ----------

  function First(es: seq<Entry>, key: string): Option<Entry> {
    if es == [] then None else if es[0].key == key then Some(es[0]) else First(es[1..], key)
  }

  /** All entries of one session string in a chain, in the order a search meets them. */
  function Entries(b: seq<Session>, id: string): seq<Entry> {
    if b == [] then [] else (if b[0].id == id then b[0].entries else []) + Entries(b[1..], id)
  }

  lemma {:induction false} FirstConcat(xs: seq<Entry>, ys: seq<Entry>, key: string)
    ensures First(xs + ys, key) == if First(xs, key).Some? then First(xs, key) else First(ys, key)
  {
    if xs == [] {
      assert xs + ys == ys;
    } else {
      assert (xs + ys)[1..] == xs[1..] + ys;
      FirstConcat(xs[1..], ys, key);
    }
  }

  lemma {:induction false} EntriesConcat(b: seq<Session>, c: seq<Session>, id: string)
    ensures Entries(b + c, id) == Entries(b, id) + Entries(c, id)
  {
    if b == [] {
      assert b + c == c;
    } else {
      assert (b + c)[1..] == b[1..] + c;
      EntriesConcat(b[1..], c, id);
    }
  }

  /** A chain around its j-th session. */
  lemma {:induction false} EntriesAround(b: seq<Session>, j: nat, s: Session, id: string)
    requires j < |b|
    ensures Entries(b[j := s], id)
            == Entries(b[..j], id) + (if s.id == id then s.entries else []) + Entries(b[j + 1..], id)
  {
    assert b[j := s] == b[..j] + ([s] + b[j + 1..]);
    EntriesConcat(b[..j], [s] + b[j + 1..], id);
    assert ([s] + b[j + 1..])[1..] == b[j + 1..];
  }

  lemma {:induction false} NotThere(b: seq<Session>, id: string)
    requires forall i | 0 <= i < |b| :: b[i].id != id
    ensures Entries(b, id) == []
  {
    if b != [] { NotThere(b[1..], id); }
  }

  /** Replacing the entries of the j-th session leaves the other session strings of the bucket alone. */
  lemma {:induction false} OtherSessions(b: seq<Session>, j: nat, es: seq<Entry>, id: string)
    requires j < |b| && b[j].id != id
    ensures Entries(b[j := Session(b[j].id, es)], id) == Entries(b, id)
  {
    EntriesAround(b, j, Session(b[j].id, es), id);
    EntriesAround(b, j, b[j], id);
    assert b[j := b[j]] == b;
  }

  /** Adding in front of the first node of a session adds in front of all its entries. */
  lemma {:induction false} AddedFirst(b: seq<Session>, j: nat, e: Entry)
    requires j < |b| && forall i | 0 <= i < j :: b[i].id != b[j].id
    ensures Entries(b[j := Session(b[j].id, [e] + b[j].entries)], b[j].id) == [e] + Entries(b, b[j].id)
  {
    var id, es, post := b[j].id, b[j].entries, Entries(b[j + 1..], b[j].id);
    NotThere(b[..j], id);
    EntriesAround(b, j, Session(id, [e] + es), id);
    EntriesAround(b, j, b[j], id);
    assert b[j := b[j]] == b;
    PrependAssoc(e, es, post);
  }

  lemma {:induction false} PrependAssoc(e: Entry, es: seq<Entry>, post: seq<Entry>)
    ensures [] + ([e] + es) + post == [e] + ([] + es + post)
  {
  }

  lemma {:induction false} FirstInside(pre: seq<Entry>, es: seq<Entry>, k: nat, x: Entry, post: seq<Entry>, q: string)
    requires k < |es| && x.key == es[k].key && First(pre, x.key) == None && First(es[..k], x.key) == None
    ensures First(pre + es[k := x] + post, q)
            == if q == x.key then Some(x) else First(pre + es + post, q)
  {
    var rest := es[k + 1..] + post;
    assert pre + es[k := x] + post == pre + (es[..k] + ([x] + rest));
    assert pre + es + post == pre + (es[..k] + ([es[k]] + rest));
    FirstConcat(pre, es[..k] + ([x] + rest), q);
    FirstConcat(es[..k], [x] + rest, q);
    FirstConcat(pre, es[..k] + ([es[k]] + rest), q);
    FirstConcat(es[..k], [es[k]] + rest, q);
    assert ([x] + rest)[1..] == rest && ([es[k]] + rest)[1..] == rest;
  }

  /** Overwriting the first entry with this key, k-th in the j-th session, changes what a search for
      this key finds and nothing else. */
  lemma {:induction false} Overwritten(b: seq<Session>, j: nat, k: nat, e: Entry, key: string)
    requires j < |b| && k < |b[j].entries| && b[j].entries[k].key == e.key
    requires First(Entries(b[..j], b[j].id), e.key) == None && First(b[j].entries[..k], e.key) == None
    ensures First(Entries(b[j := Session(b[j].id, b[j].entries[k := e])], b[j].id), key)
            == if key == e.key then Some(e) else First(Entries(b, b[j].id), key)
  {
    var id, es := b[j].id, b[j].entries;
    EntriesAround(b, j, Session(id, es[k := e]), id);
    EntriesAround(b, j, b[j], id);
    assert b[j := b[j]] == b;
    FirstInside(Entries(b[..j], id), es, k, e, Entries(b[j + 1..], id), key);
  }

  /** The entry a search of the whole chain meets first. */
  lemma {:induction false} Met(b: seq<Session>, j: nat, k: nat)
    requires j < |b| && k < |b[j].entries|
    requires First(Entries(b[..j], b[j].id), b[j].entries[k].key) == None
    requires First(b[j].entries[..k], b[j].entries[k].key) == None
    ensures First(Entries(b, b[j].id), b[j].entries[k].key) == Some(b[j].entries[k])
  {
    Overwritten(b, j, k, b[j].entries[k], b[j].entries[k].key);
    assert b[j].entries[k := b[j].entries[k]] == b[j].entries && b[j := b[j]] == b;
  }

  /** Nothing met in the first j sessions and nothing in the j-th either. */
  lemma {:induction false} NotMet(b: seq<Session>, j: nat, id: string, key: string)
    requires j < |b| && First(Entries(b[..j], id), key) == None
    requires b[j].id == id ==> First(b[j].entries, key) == None
    ensures First(Entries(b[..j + 1], id), key) == None
  {
    assert b[..j + 1] == b[..j] + [b[j]];
    EntriesConcat(b[..j], [b[j]], id);
    assert Entries([b[j]], id) == if b[j].id == id then b[j].entries else [];
    FirstConcat(Entries(b[..j], id), Entries([b[j]], id), key);
  }

  method FindEntry(es: seq<Entry>, key: string) returns (k: nat)
    ensures k <= |es| && First(es[..k], key) == None
    ensures k < |es| ==> es[k].key == key
  {
    k := 0;
    while k < |es| && es[k].key != key
      invariant 0 <= k <= |es| && First(es[..k], key) == None
    {
      assert es[..k + 1] == es[..k] + [es[k]];
      FirstConcat(es[..k], [es[k]], key);
      k := k + 1;
    }
  }

  /** The nested search of getSession and UpdateSessionData: the session and the entry it stops at. */
  method Search(b: seq<Session>, id: string, key: string) returns (found: bool, j: nat, k: nat)
    ensures found ==>
              && j < |b| && b[j].id == id && k < |b[j].entries| && b[j].entries[k].key == key
              && First(Entries(b[..j], id), key) == None && First(b[j].entries[..k], key) == None
    ensures !found ==> First(Entries(b, id), key) == None
  {
    j, k := 0, 0;
    while j < |b|
      invariant 0 <= j <= |b| && First(Entries(b[..j], id), key) == None
    {
      if b[j].id == id {
        k := FindEntry(b[j].entries, key);
        if k < |b[j].entries| { return true, j, k; }
        assert b[j].entries[..k] == b[j].entries;
      }
      NotMet(b, j, id, key);
      j := j + 1;
    }
    assert b[..j] == b;
    found := false;
  }

  // ---------- the table ----------

  ghost predicate HasNode(b: seq<Session>, id: string) {
    exists i | 0 <= i < |b| :: b[i].id == id
  }

  ghost predicate Finds(b: seq<Session>, h: seq<Op>, id: string, key: string) {
    First(Entries(b, id), key) == LastWrite(h, id, key)
  }

  /** A bucket tells the history of this session string. */
  ghost predicate Tells(b: seq<Session>, h: seq<Op>, id: string) {
    (HasNode(b, id) <==> Known(h, id)) && forall key :: Finds(b, h, id, key)
  }

  lemma {:induction false} KnownAppend(h: seq<Op>, op: Op, id: string)
    ensures Known(h + [op], id) <==> Known(h, id) || (op.Create? && op.id == id)
    ensures (h + [op])[..|h|] == h
  {
    if Known(h, id) {
      var i :| 0 <= i < |h| && h[i].Create? && h[i].id == id;
      assert (h + [op])[i] == h[i];
    }
    if op.Create? && op.id == id { assert (h + [op])[|h|] == op; }
  }

  /** A call about another session string, whose bucket reads the same for this one. */
  lemma {:induction false} TellsOther(b: seq<Session>, b': seq<Session>, h: seq<Op>, op: Op, id: string)
    requires Tells(b, h, id) && op.id != id && Entries(b', id) == Entries(b, id)
             && (HasNode(b', id) <==> HasNode(b, id))
    ensures Tells(b', h + [op], id)
  {
    KnownAppend(h, op, id);
    forall key ensures Finds(b', h + [op], id, key) { assert Finds(b, h, id, key); }
  }

  lemma {:induction false} TellsCreate(b: seq<Session>, h: seq<Op>, op: Op, id: string)
    requires Tells(b, h, id) && op.Create?
    ensures Tells([Session(op.id, [Entry(op.key, op.data, op.now)])] + b, h + [op], id)
  {
    var e := Entry(op.key, op.data, op.now);
    var b' := [Session(op.id, [e])] + b;
    assert b'[1..] == b;
    KnownAppend(h, op, id);
    assert HasNode(b', id) <==> op.id == id || HasNode(b, id) by {
      assert b'[0].id == op.id;
      if HasNode(b, id) { var i :| 0 <= i < |b| && b[i].id == id; assert b'[i + 1].id == id; }
    }
    forall key ensures Finds(b', h + [op], id, key) {
      assert Finds(b, h, id, key);
      if op.id == id {
        assert Entries(b', id) == [e] + Entries(b, id);
        FirstConcat([e], Entries(b, id), key);
      } else {
        assert Entries(b', id) == [] + Entries(b, id) == Entries(b, id);
      }
    }
  }

  /** SessionAdd found its session at j, or nowhere. */
  lemma {:induction false} TellsAdd(b: seq<Session>, h: seq<Op>, op: Op, j: nat, id: string)
    requires Tells(b, h, id) && Tells(b, h, op.id) && op.Add? && j <= |b| && (forall i | 0 <= i < j :: b[i].id != op.id)
    requires j < |b| ==> b[j].id == op.id
    ensures var e := Entry(op.key, op.data, op.now);
            Tells(if j < |b| then b[j := Session(op.id, [e] + b[j].entries)] else b, h + [op], id)
  {
    var e := Entry(op.key, op.data, op.now);
    var b' := if j < |b| then b[j := Session(op.id, [e] + b[j].entries)] else b;
    KnownAppend(h, op, id);
    assert j < |b| <==> HasNode(b, op.id);
    assert HasNode(b', id) <==> HasNode(b, id) by {
      assert forall i | 0 <= i < |b| :: b'[i].id == b[i].id;
    }
    if op.id != id {
      if j < |b| { OtherSessions(b, j, [e] + b[j].entries, id); }
    } else if j < |b| {
      AddedFirst(b, j, e);
    }
    forall key ensures Finds(b', h + [op], id, key) {
      assert Finds(b, h, id, key);
      if op.id == id && j < |b| { FirstConcat([e], Entries(b, id), key); }
    }
  }

  /** UpdateSessionData found the entry k of session j, or nothing. */
  lemma {:induction false} TellsUpdate(b: seq<Session>, h: seq<Op>, op: Op, found: bool, j: nat, k: nat, id: string)
    requires Tells(b, h, id) && Tells(b, h, op.id) && op.Update?
    requires found ==>
               && j < |b| && b[j].id == op.id && k < |b[j].entries| && b[j].entries[k].key == op.key
               && First(Entries(b[..j], op.id), op.key) == None && First(b[j].entries[..k], op.key) == None
    requires !found ==> First(Entries(b, op.id), op.key) == None
    ensures var e := Entry(op.key, op.data, op.now);
            Tells(if found then b[j := Session(op.id, b[j].entries[k := e])] else b, h + [op], id)
  {
    var e := Entry(op.key, op.data, op.now);
    var b' := if found then b[j := Session(op.id, b[j].entries[k := e])] else b;
    KnownAppend(h, op, id);
    assert Finds(b, h, op.id, op.key);
    assert HasNode(b', id) <==> HasNode(b, id) by {
      assert forall i | 0 <= i < |b| :: b'[i].id == b[i].id;
    }
    if found && op.id != id { OtherSessions(b, j, b[j].entries[k := e], id); }
    forall key ensures Finds(b', h + [op], id, key) {
      assert Finds(b, h, id, key);
      if found && op.id == id {
        Met(b, j, k);
        Overwritten(b, j, k, e, key);
      }
    }
  }

  ghost predicate TableTells(hash: string -> nat, buckets: seq<seq<Session>>, h: seq<Op>) {
    |buckets| > 0 && forall id :: Tells(buckets[hash(id) % |buckets|], h, id)
  }

  lemma {:induction false} OneBucketChanges(hash: string -> nat, buckets: seq<seq<Session>>, h: seq<Op>, op: Op,
      b: seq<Session>)
    requires TableTells(hash, buckets, h)
    requires forall id | hash(id) % |buckets| == hash(op.id) % |buckets| :: Tells(b, h + [op], id)
    ensures TableTells(hash, buckets[hash(op.id) % |buckets| := b], h + [op])
  {
    var n := |buckets|;
    var buckets' := buckets[hash(op.id) % n := b];
    forall id ensures Tells(buckets'[hash(id) % n], h + [op], id) {
      if hash(id) % n != hash(op.id) % n {
        assert Tells(buckets[hash(id) % n], h, id);
        TellsOther(buckets[hash(id) % n], buckets[hash(id) % n], h, op, id);
      }
    }
  }

  class Store {
    const hash: string -> nat
    var buckets: seq<seq<Session>>
    ghost var history: seq<Op>

    /** Whatever the hash function, the table answers for the whole history. */
    ghost predicate Valid() reads this {
      TableTells(hash, buckets, history)
    }

    constructor (hash: string -> nat, size: nat)
      requires 0 < size
      ensures Valid() && history == []
    {
      this.hash := hash;
      buckets := seq(size, _ => []);
      history := [];
    }

    /** SessionCreate, given the session string it drew. */
    method Create(id: string, key: string, data: string, now: int)
      requires Valid()
      modifies this
      ensures Valid() && history == old(history) + [Op.Create(id, key, data, now)]
    {
      ghost var op := Op.Create(id, key, data, now);
      var ix := hash(id) % |buckets|;
      var b := [Session(id, [Entry(key, data, now)])] + buckets[ix];
      forall s | hash(s) % |buckets| == ix ensures Tells(b, history + [op], s) {
        assert Tells(buckets[hash(s) % |buckets|], history, s);
        TellsCreate(buckets[ix], history, op, s);
      }
      OneBucketChanges(hash, buckets, history, op, b);
      buckets := buckets[ix := b];
      history := history + [op];
    }

    /** SessionAdd: 1 if the session exists, -2 otherwise. */
    method Add(id: string, key: string, data: string, now: int) returns (r: int)
      requires Valid()
      modifies this
      ensures Valid() && history == old(history) + [Op.Add(id, key, data, now)]
      ensures r == if Known(old(history), id) then 1 else -2
    {
      ghost var op := Op.Add(id, key, data, now);
      var ix := hash(id) % |buckets|;
      var b := buckets[ix];
      assert Tells(b, history, id);
      var j := 0;
      while j < |b| && b[j].id != id
        invariant 0 <= j <= |b| && forall i | 0 <= i < j :: b[i].id != id
      {
        j := j + 1;
      }
      var b' := if j < |b| then b[j := Session(id, [Entry(key, data, now)] + b[j].entries)] else b;
      forall s | hash(s) % |buckets| == ix ensures Tells(b', history + [op], s) {
        assert Tells(buckets[hash(s) % |buckets|], history, s);
        TellsAdd(b, history, op, j, s);
      }
      r := if j < |b| then 1 else -2;
      OneBucketChanges(hash, buckets, history, op, b');
      buckets := buckets[ix := b'];
      history := history + [op];
    }

    /** UpdateSessionData: 1 if the key was there, expired or not, 0 otherwise. */
    method Update(id: string, key: string, data: string, now: int) returns (r: int)
      requires Valid()
      modifies this
      ensures Valid() && history == old(history) + [Op.Update(id, key, data, now)]
      ensures r == if LastWrite(old(history), id, key).Some? then 1 else 0
    {
      ghost var op := Op.Update(id, key, data, now);
      var ix := hash(id) % |buckets|;
      var b := buckets[ix];
      assert Tells(b, history, id) && Finds(b, history, id, key);
      var found, j, k := Search(b, id, key);
      if found { Met(b, j, k); }
      var b' := if found then b[j := Session(id, b[j].entries[k := Entry(key, data, now)])] else b;
      forall s | hash(s) % |buckets| == ix ensures Tells(b', history + [op], s) {
        assert Tells(buckets[hash(s) % |buckets|], history, s);
        TellsUpdate(b, history, op, found, j, k, s);
      }
      r := if found then 1 else 0;
      OneBucketChanges(hash, buckets, history, op, b');
      buckets := buckets[ix := b'];
      history := history + [op];
    }

    /** getSession: the data of the last write, unless it has expired. */
    method Get(id: string, key: string, now: int) returns (r: Option<string>)
      requires Valid()
      ensures r == Visible(history, id, key, now)
    {
      var b := buckets[hash(id) % |buckets|];
      var found, j, k := Search(b, id, key);
      assert Tells(b, history, id) && Finds(b, history, id, key);
      r := None;
      if found {
        Met(b, j, k);
        if now <= b[j].entries[k].stored + EXPIRE { r := Some(b[j].entries[k].data); }
      }
    }
  }
}
