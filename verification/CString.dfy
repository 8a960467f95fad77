/** C strings: the memory behind one, and searching. */
module CString {
  import opened Wrappers

  type Byte = bv8

  /** strlen */
  function StrLen(mem: seq<Byte>): (n: nat)
    requires 0 in mem
    ensures n < |mem| && mem[n] == 0 && 0 !in mem[..n]
  {
    if mem[0] == 0 then 0 else
      var n := 1 + StrLen(mem[1..]);
      assert mem[..n] == [mem[0]] + mem[1..][..n - 1];
      n
  }

  lemma {:induction false} StrLenOf(s: seq<Byte>, mem: seq<Byte>)
    requires 0 !in s && |s| < |mem| && mem[..|s|] == s && mem[|s|] == 0
    ensures StrLen(mem) == |s|
  {
    if s != [] { StrLenOf(s[1..], mem[1..]); }
  }

  /** strstr: where the pattern first occurs. */
  function Find<T(==)>(s: seq<T>, pattern: seq<T>): (r: Option<nat>)
    ensures r.Some? ==> r.value + |pattern| <= |s|
  {
    if pattern <= s then Some(0)
    else if s == [] then None
    else match Find(s[1..], pattern)
      case None => None
      case Some(i) => Some(i + 1)
  }

  predicate Contains<T(==)>(s: seq<T>, pattern: seq<T>) { Find(s, pattern).Some? }

  lemma {:induction false} FoundThere<T>(s: seq<T>, pattern: seq<T>)
    requires Find(s, pattern).Some?
    ensures pattern <= s[Find(s, pattern).value..]
  {
    if pattern <= s {
      assert s[0..] == s;
    } else {
      FoundThere(s[1..], pattern);
      assert s[1..][Find(s[1..], pattern).value..] == s[Find(s, pattern).value..];
    }
  }

  /** Wherever the pattern stands, it is found there or before. */
  lemma {:induction false} FoundFirst<T>(s: seq<T>, pattern: seq<T>, k: nat)
    requires k <= |s| && pattern <= s[k..]
    ensures Find(s, pattern).Some? && Find(s, pattern).value <= k
  {
    if k == 0 {
      assert s[0..] == s;
    } else if !(pattern <= s) {
      assert s[1..][k - 1..] == s[k..];
      FoundFirst(s[1..], pattern, k - 1);
    }
  }

  lemma {:induction false} ContainsAfter<T>(s: seq<T>, rest: seq<T>, pattern: seq<T>)
    requires pattern != [] && pattern[0] !in s
    ensures Contains(s + rest, pattern) == Contains(rest, pattern)
  {
    if s == [] {
      assert s + rest == rest;
    } else {
      assert (s + rest)[1..] == s[1..] + rest && (s + rest)[0] == s[0];
      ContainsAfter(s[1..], rest, pattern);
    }
  }
}
