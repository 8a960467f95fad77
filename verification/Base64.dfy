/**
  The encoder and decoder of Src/utility/base64.c, against section 4 of RFC 4648. Inputs are the memory
  behind a pointer: a C string, its terminator and whatever lies beyond.
*/
module Base64 {
  import opened CString

  const PAD: Byte := 61

  // ---------- the code ----------

  /** base64_table */
  function Letter(d: Byte): Byte
    requires d < 64
  {
    if d < 26 then 65 + d
    else if d < 52 then 97 + (d - 26)
    else if d < 62 then 48 + (d - 52)
    else if d == 62 then 43
    else 47
  }

  /** The table of base64_decode, whose entries for characters outside the alphabet are 0. */
  function Digit(c: Byte): (d: Byte)
    ensures d < 64
  {
    if 65 <= c <= 90 then c - 65
    else if 97 <= c <= 122 then c - 97 + 26
    else if 48 <= c <= 57 then c - 48 + 52
    else if c == 43 then 62
    else if c == 47 then 63
    else 0
  }

  function Pack(a: Byte, b: Byte, c: Byte): (r: seq<Byte>)
    ensures |r| == 4
  {
    [Letter(a >> 2), Letter(((a & 0x3) << 4) | (b >> 4)), Letter(((b & 0xF) << 2) | (c >> 6)), Letter(c & 0x3F)]
  }

  function Unpack(w: Byte, x: Byte, y: Byte, z: Byte): (r: seq<Byte>)
    requires w < 64 && x < 64 && y < 64 && z < 64
    ensures |r| == 3
  {
    [(w << 2) | (x >> 4), (x << 4) | (y >> 2), (y << 6) | z]
  }

  function PackAt(s: seq<Byte>, j: nat): (r: seq<Byte>)
    requires j + 3 <= |s|
    ensures |r| == 4
  {
    Pack(s[j], s[j + 1], s[j + 2])
  }

  /** What is left over by whole groups, zero-filled and padded. */
  function Tail(t: seq<Byte>): (r: seq<Byte>)
    requires |t| < 3
  {
    if |t| == 0 then []
    else if |t| == 1 then Pack(t[0], 0, 0)[..2] + [PAD, PAD]
    else Pack(t[0], t[1], 0)[..3] + [PAD]
  }

  /** g groups of three bytes, encoded. */
  function Packed(s: seq<Byte>, g: nat): (r: seq<Byte>)
    requires 3 * g <= |s|
    ensures |r| == 4 * g
  {
    if g == 0 then [] else Packed(s, g - 1) + PackAt(s, 3 * (g - 1))
  }

  /** A string of q whole groups and up to two more bytes, encoded. */
  function EncodedIn(s: seq<Byte>, q: nat): seq<Byte>
    requires 3 * q <= |s| < 3 * q + 3
  {
    Packed(s, q) + Tail(s[3 * q..])
  }

  /** Section 4 of RFC 4648. */
  function Encoded(s: seq<Byte>): seq<Byte> { EncodedIn(s, |s| / 3) }

  function UnpackAt(s: seq<Byte>, i: nat): (r: seq<Byte>)
    requires i + 4 <= |s|
    ensures |r| == 3
  {
    Unpack(Digit(s[i]), Digit(s[i + 1]), Digit(s[i + 2]), Digit(s[i + 3]))
  }

  /** g groups of four letters, decoded. */
  function Unpacked(s: seq<Byte>, g: nat): (r: seq<Byte>)
    requires 4 * g <= |s|
    ensures |r| == 3 * g
  {
    if g == 0 then [] else Unpacked(s, g - 1) + UnpackAt(s, 4 * (g - 1))
  }

  // ---------- the encoder ----------

  /** The padding written over the last group. */
  ghost function Padded(raw: seq<Byte>, r: nat): seq<Byte>
    requires r != 0 ==> |raw| >= 2
  {
    if r == 0 then raw
    else if r == 1 then raw[..|raw| - 2] + [PAD, PAD]
    else raw[..|raw| - 1] + [PAD]
  }

  /** The switch at the end of base64_encode. */
  method WritePadding(res: array<Byte>, i: nat, r: nat)
    requires i == res.Length - 1 && r < 3 && (r != 0 ==> i >= 4)
    modifies res
    ensures res[..] == Padded(old(res[..i]), r) + [old(res[i])]
  {
    if r == 1 {
      res[i - 2] := PAD;
      res[i - 1] := PAD;
    } else if r == 2 {
      res[i - 1] := PAD;
    }
  }

  /** One turn of the loop of base64_encode. */
  method EncodeGroup(mem: seq<Byte>, j: nat, res: array<Byte>, i: nat)
    requires j + 3 <= |mem| && i + 4 <= res.Length
    modifies res
    ensures res[..i + 4] == old(res[..i]) + PackAt(mem, j)
    ensures forall k | i + 4 <= k < res.Length :: res[k] == old(res[k])
  {
    var group := PackAt(mem, j);
    res[i] := group[0];
    res[i + 1] := group[1];
    res[i + 2] := group[2];
    res[i + 3] := group[3];
  }

  /** The loop of base64_encode. */
  method EncodeGroups(mem: seq<Byte>, res: array<Byte>, len: int, ghost all: nat)
    requires len == 4 * all && res.Length == len + 1 && 3 * all <= |mem|
    modifies res
    ensures res[..len] == Packed(mem, all) && res[len] == old(res[len])
  {
    var i: nat, j: nat := 0, 0;
    ghost var g: nat := 0;
    while i < len - 2
      invariant i == 4 * g && j == 3 * g && g <= all
      invariant res[..i] == Packed(mem, g) && res[len] == old(res[len])
    {
      EncodeGroup(mem, j, res, i);
      i, j, g := i + 4, j + 3, g + 1;
    }
    assert g == all;
  }

  /** base64_encode. In a last group of one byte it reads one byte beyond the terminator; neither
      that byte nor anything after it shows in the result. */
  method Encode(mem: seq<Byte>) returns (res: array<Byte>)
    requires 0 in mem && (StrLen(mem) % 3 == 1 ==> StrLen(mem) + 1 < |mem|)
    ensures res[..] == Encoded(mem[..StrLen(mem)]) + [0]
  {
    var n := StrLen(mem);
    var q, r := n / 3, n % 3;
    var len := if r == 0 then q * 4 else (q + 1) * 4;
    res := new Byte[len + 1];
    res[len] := 0;
    EncodeAll(mem, n, q, r, res, len);
  }

  method EncodeAll(mem: seq<Byte>, n: nat, q: nat, r: nat, res: array<Byte>, len: nat)
    requires n == 3 * q + r && r < 3 && n < |mem| && mem[n] == 0 && (r == 1 ==> n + 1 < |mem|)
    requires len == 4 * (if r == 0 then q else q + 1) && res.Length == len + 1 && res[len] == 0
    modifies res
    ensures res[..] == EncodedIn(mem[..n], q) + [0]
  {
    PaddedIsEncoded(mem, q, r);
    EncodeGroups(mem, res, len, if r == 0 then q else q + 1);
    WritePadding(res, len, r);
  }

  lemma {:induction false} Regroup(done: seq<Byte>, group: seq<Byte>, rest: seq<Byte>)
    ensures done + (group + rest) == done + group + rest
  {
  }

  lemma {:induction false} PackedPrefix(s: seq<Byte>, mem: seq<Byte>, g: nat)
    requires 3 * g <= |s| <= |mem| && mem[..|s|] == s
    ensures Packed(mem, g) == Packed(s, g)
  {
    if g > 0 {
      PackedPrefix(s, mem, g - 1);
      assert forall k | 0 <= k < |s| :: s[k] == mem[k];
    }
  }

  lemma {:induction false} PadLater(group: seq<Byte>, raw: seq<Byte>, r: nat)
    requires |raw| >= 2
    ensures Padded(group + raw, r) == group + Padded(raw, r)
  {
  }

  /** The letters kept beside the padding do not depend on the byte beyond the terminator. */
  lemma {:induction false} PadGroup(t: seq<Byte>, b: Byte, c: Byte)
    requires 0 < |t| < 3 && (if |t| == 1 then b == 0 else b == t[1] && c == 0)
    ensures Padded(Pack(t[0], b, c), |t|) == Tail(t)
  {
  }

  lemma {:induction false} PadEnd(p: seq<Byte>, t: seq<Byte>, b: Byte, c: Byte)
    requires 0 < |t| < 3 && (if |t| == 1 then b == 0 else b == t[1] && c == 0)
    ensures Padded(p + Pack(t[0], b, c), |t|) == p + Tail(t)
  {
    PadGroup(t, b, c);
    PadLater(p, Pack(t[0], b, c), |t|);
  }

  /** For a string of q whole groups and r more bytes. */
  lemma {:induction false} PaddedIsEncoded(mem: seq<Byte>, q: nat, r: nat)
    requires r < 3 && 3 * q + r < |mem| && mem[3 * q + r] == 0 && (r > 0 ==> 3 * q + 3 <= |mem|)
    ensures Padded(Packed(mem, if r == 0 then q else q + 1), r) == EncodedIn(mem[..3 * q + r], q)
  {
    var s := mem[..3 * q + r];
    var t := s[3 * q..];
    PackedPrefix(s, mem, q);
    if r == 0 {
      Whole(s, t, q);
    } else {
      LastGroup(mem, q, t[0], mem[3 * q + 1], mem[3 * q + 2]);
      PadEnd(Packed(s, q), t, mem[3 * q + 1], mem[3 * q + 2]);
    }
  }

  lemma {:induction false} Whole(s: seq<Byte>, t: seq<Byte>, q: nat)
    requires |s| == 3 * q && t == s[3 * q..]
    ensures Packed(s, q) == EncodedIn(s, q)
  {
    assert t == [] && Tail(t) == [];
  }

  lemma {:induction false} LastGroup(mem: seq<Byte>, q: nat, a: Byte, b: Byte, c: Byte)
    requires 3 * q + 3 <= |mem| && a == mem[3 * q] && b == mem[3 * q + 1] && c == mem[3 * q + 2]
    ensures Packed(mem, q + 1) == Packed(mem, q) + Pack(a, b, c)
  {
  }

  // ---------- the decoder ----------

  /** The length base64_decode computes. */
  function OutLen(code: seq<Byte>): int {
    if Contains(code, [PAD, PAD]) then |code| / 4 * 3 - 2
    else if Contains(code, [PAD]) then |code| / 4 * 3 - 1
    else |code| / 4 * 3
  }

  function Groups(code: seq<Byte>): nat { (|code| + 1) / 4 }

  /** What the decoder leaves in a buffer of whole groups: the groups are written over the terminator
      whenever the terminator lies among them. */
  ghost predicate Decoded(mem: seq<Byte>, buffer: seq<Byte>)
    requires 0 in mem
  {
    var code := mem[..StrLen(mem)];
    && |buffer| == 3 * Groups(code) + 1
    && buffer[..3 * Groups(code)] == Unpacked(mem, Groups(code))
    && (OutLen(code) == 3 * Groups(code) ==> buffer[OutLen(code)] == 0)
  }

  /** One turn of the loop of base64_decode. */
  method DecodeGroup(mem: seq<Byte>, i: nat, res: array<Byte>, j: nat)
    requires i + 4 <= |mem| && j + 3 <= res.Length
    modifies res
    ensures res[..j + 3] == old(res[..j]) + UnpackAt(mem, i)
    ensures forall k | j + 3 <= k < res.Length :: res[k] == old(res[k])
  {
    var group := UnpackAt(mem, i);
    res[j] := group[0];
    res[j + 1] := group[1];
    res[j + 2] := group[2];
  }

  /** The loop of base64_decode. */
  method DecodeGroups(mem: seq<Byte>, res: array<Byte>, len: int, ghost groups: nat)
    requires 4 * groups <= len + 1 < 4 * groups + 4 && len < |mem| && res.Length == 3 * groups + 1
    modifies res
    ensures res[..3 * groups] == Unpacked(mem, groups) && res[3 * groups] == old(res[3 * groups])
  {
    var i: nat, j: nat := 0, 0;
    ghost var g: nat := 0;
    while i < len - 2
      invariant i == 4 * g && j == 3 * g && g <= groups
      invariant res[..j] == Unpacked(mem, g) && res[3 * groups] == old(res[3 * groups])
    {
      DecodeGroup(mem, i, res, j);
      i, j, g := i + 4, j + 3, g + 1;
    }
  }

  /** base64_decode. Its table ends at 'z', and its terminator must not fall before the buffer. */
  method Decode(mem: seq<Byte>) returns (res: array<Byte>)
    requires 0 in mem && (forall i | 0 <= i < StrLen(mem) :: mem[i] <= 122) && OutLen(mem[..StrLen(mem)]) >= 0
    ensures Decoded(mem, res[..])
  {
    var len: int := StrLen(mem);
    var strLen, groups := OutLen(mem[..len]), Groups(mem[..len]);
    res := new Byte[3 * groups + 1];
    res[strLen] := 0;
    DecodeGroups(mem, res, len, groups);
  }

  // ---------- one group ----------

  lemma {:induction false} DigitLetter(d: Byte)
    requires d < 64
    ensures Digit(Letter(d)) == d && Letter(d) != PAD && 0 < Letter(d) <= 122
  {
  }

  ghost predicate Letters(s: seq<Byte>) { forall c | c in s :: c != PAD && 0 < c <= 122 }

  lemma {:induction false} GroupLetters(a: Byte, b: Byte, c: Byte)
    ensures var p := Pack(a, b, c);
            && Letters(p)
            && Digit(p[0]) == a >> 2 && Digit(p[1]) == ((a & 0x3) << 4) | (b >> 4)
            && Digit(p[2]) == ((b & 0xF) << 2) | (c >> 6) && Digit(p[3]) == c & 0x3F
  {
    DigitLetter(a >> 2);
    DigitLetter(((a & 0x3) << 4) | (b >> 4));
    DigitLetter(((b & 0xF) << 2) | (c >> 6));
    DigitLetter(c & 0x3F);
  }

  lemma {:induction false} UnpackPack(a: Byte, b: Byte, c: Byte)
    ensures Unpack(a >> 2, ((a & 0x3) << 4) | (b >> 4), ((b & 0xF) << 2) | (c >> 6), c & 0x3F) == [a, b, c]
  {
  }

  lemma {:induction false} GroupBack(a: Byte, b: Byte, c: Byte)
    ensures UnpackAt(Pack(a, b, c), 0) == [a, b, c]
  {
    GroupLetters(a, b, c);
    UnpackPack(a, b, c);
  }

  /** The padded group decodes to the left-over bytes and zeros. */
  lemma {:induction false} TailBack(t: seq<Byte>)
    requires 0 < |t| < 3
    ensures |Tail(t)| == 4
    ensures UnpackAt(Tail(t), 0) == if |t| == 1 then [t[0], 0, 0] else [t[0], t[1], 0]
  {
    var b := if |t| == 2 then t[1] else 0;
    GroupLetters(t[0], b, 0);
    UnpackPack(t[0], b, 0);
  }

  /** The four digits of a group are its 24 bits cut into four. */
  lemma {:induction false} GroupNumber(a: Byte, b: Byte, c: Byte)
    ensures var p := Pack(a, b, c);
            ((a as bv24) << 16) | ((b as bv24) << 8) | (c as bv24)
            == ((Digit(p[0]) as bv24) << 18) | ((Digit(p[1]) as bv24) << 12)
               | ((Digit(p[2]) as bv24) << 6) | (Digit(p[3]) as bv24)
  {
    GroupLetters(a, b, c);
  }

  // ---------- whole strings ----------

  ghost function Pads(r: nat): seq<Byte> {
    if r == 0 then [] else if r == 1 then [PAD, PAD] else [PAD]
  }

  lemma {:induction false} PackedLetters(s: seq<Byte>, g: nat)
    requires 3 * g <= |s|
    ensures Letters(Packed(s, g))
  {
    if g > 0 {
      PackedLetters(s, g - 1);
      GroupLetters(s[3 * (g - 1)], s[3 * (g - 1) + 1], s[3 * (g - 1) + 2]);
    }
  }

  lemma {:induction false} LettersStart(p: seq<Byte>, n: nat)
    requires Letters(p) && n <= |p|
    ensures Letters(p[..n])
  {
    forall c | c in p[..n] ensures c in p {}
  }

  lemma {:induction false} TailIs(t: seq<Byte>, p: seq<Byte>)
    requires 0 < |t| < 3 && p == Pack(t[0], if |t| == 2 then t[1] else 0, 0)
    ensures Tail(t) == p[..|t| + 1] + Pads(|t|)
  {
    assert |t| == 1 || |t| == 2;
  }

  lemma {:induction false} LastLetters(t: seq<Byte>) returns (body: seq<Byte>)
    requires 0 < |t| < 3
    ensures Letters(body) && Tail(t) == body + Pads(|t|) && |Tail(t)| == 4
  {
    var b := if |t| == 2 then t[1] else 0;
    var p := Pack(t[0], b, 0);
    GroupLetters(t[0], b, 0);
    LettersStart(p, |t| + 1);
    TailIs(t, p);
    body := p[..|t| + 1];
  }

  lemma {:induction false} TailShape(t: seq<Byte>) returns (body: seq<Byte>)
    requires |t| < 3
    ensures Letters(body) && Tail(t) == body + Pads(|t|) && |Tail(t)| == if |t| == 0 then 0 else 4
  {
    if |t| == 0 {
      body := [];
    } else {
      body := LastLetters(t);
    }
  }

  lemma {:induction false} ShapeIn(s: seq<Byte>, q: nat) returns (body: seq<Byte>)
    requires 3 * q <= |s| < 3 * q + 3
    ensures |EncodedIn(s, q)| == 4 * if |s| == 3 * q then q else q + 1
    ensures Letters(body) && EncodedIn(s, q) == body + Pads(|s| - 3 * q)
  {
    var t := s[3 * q..];
    PackedLetters(s, q);
    var b := TailShape(t);
    Regroup(Packed(s, q), b, Pads(|t|));
    body := Packed(s, q) + b;
  }

  /** Length, alphabet and padding of an encoding. */
  lemma {:induction false} EncodedShape(s: seq<Byte>)
    ensures |Encoded(s)| == (|s| + 2) / 3 * 4
    ensures exists body :: Letters(body) && Encoded(s) == body + Pads(|s| % 3)
  {
    GroupCount(|s|);
    var body := ShapeIn(s, |s| / 3);
  }

  lemma {:induction false} GroupCount(n: nat)
    ensures n - 3 * (n / 3) == n % 3
    ensures (n + 2) / 3 == if n == 3 * (n / 3) then n / 3 else n / 3 + 1
  {
  }

  lemma {:induction false} PadsFound(body: seq<Byte>, r: nat)
    requires Letters(body) && r < 3
    ensures Contains(body + Pads(r), [PAD, PAD]) <==> r == 1
    ensures Contains(body + Pads(r), [PAD]) <==> r != 0
  {
    ContainsAfter(body, Pads(r), [PAD, PAD]);
    ContainsAfter(body, Pads(r), [PAD]);
    assert r == 2 ==> Pads(r)[1..] == [];
  }

  lemma {:induction false} OutLenIn(s: seq<Byte>, q: nat)
    requires 3 * q <= |s| < 3 * q + 3
    ensures OutLen(EncodedIn(s, q)) == |s| && Groups(EncodedIn(s, q)) == if |s| == 3 * q then q else q + 1
  {
    var body := ShapeIn(s, q);
    PadsFound(body, |s| - 3 * q);
  }

  lemma {:induction false} LastFour(p: seq<Byte>, group: seq<Byte>, mem: seq<Byte>)
    requires |group| == 4 && |mem| >= |p| + 4 && mem[..|p| + 4] == p + group
    ensures mem[..|p|] == p && forall i | 0 <= i < 4 :: mem[|p| + i] == group[i]
  {
    assert mem[..|p|] == mem[..|p| + 4][..|p|];
    forall i | 0 <= i < 4 ensures mem[|p| + i] == group[i] {
      assert mem[|p| + i] == mem[..|p| + 4][|p| + i];
    }
  }

  lemma {:induction false} PackedGrows(s: seq<Byte>, g: nat, h: nat)
    requires h <= g && 3 * g <= |s|
    ensures Packed(s, h) <= Packed(s, g)
  {
    if h < g { PackedGrows(s, g - 1, h); }
  }

  lemma {:induction false} PackedGroup(s: seq<Byte>, g: nat, k: nat)
    requires k < g && 3 * g <= |s|
    ensures Packed(s, g)[4 * k..4 * k + 4] == PackAt(s, 3 * k)
  {
    PackedGrows(s, g, k + 1);
    Behind(Packed(s, k), PackAt(s, 3 * k), Packed(s, g));
  }

  lemma {:induction false} Behind(p: seq<Byte>, t: seq<Byte>, whole: seq<Byte>)
    requires p + t <= whole
    ensures whole[|p|..|p| + |t|] == t
  {
    assert whole[..|p| + |t|] == p + t;
  }

  /** The k-th group of letters decodes to the k-th group of bytes. */
  ghost predicate GroupReads(mem: seq<Byte>, s: seq<Byte>, k: nat) {
    4 * k + 4 <= |mem| && 3 * k + 3 <= |s| && UnpackAt(mem, 4 * k) == s[3 * k..3 * k + 3]
  }

  lemma {:induction false} GroupsRead(mem: seq<Byte>, s: seq<Byte>, g: nat)
    requires 3 * g <= |s| && 4 * g <= |mem|
    requires forall k: nat {:trigger GroupReads(mem, s, k)} | k < g :: GroupReads(mem, s, k)
    ensures Unpacked(mem, g) == s[..3 * g]
  {
    if g > 0 {
      GroupsRead(mem, s, g - 1);
      assert GroupReads(mem, s, g - 1);
      assert s[..3 * g] == s[..3 * (g - 1)] + s[3 * (g - 1)..3 * g];
    }
  }

  lemma {:induction false} SliceOfPrefix(mem: seq<Byte>, n: nat, i: nat)
    requires i + 4 <= n <= |mem|
    ensures mem[..n][i..i + 4] == mem[i..i + 4]
  {
  }

  lemma {:induction false} OneGroupRead(mem: seq<Byte>, s: seq<Byte>, g: nat, k: nat)
    requires 3 * g <= |s| && 4 * g <= |mem| && mem[..4 * g] == Packed(s, g) && k < g
    ensures GroupReads(mem, s, k)
  {
    PackedGroup(s, g, k);
    SliceOfPrefix(mem, 4 * g, 4 * k);
    GroupBack(s[3 * k], s[3 * k + 1], s[3 * k + 2]);
    SameUnpack(PackAt(s, 3 * k), mem, 4 * k);
  }

  /** Decoding the whole groups of an encoding gives back their bytes. */
  lemma {:induction false} UnpackedPacked(s: seq<Byte>, mem: seq<Byte>, g: nat)
    requires 3 * g <= |s| && 4 * g <= |mem| && mem[..4 * g] == Packed(s, g)
    ensures Unpacked(mem, g) == s[..3 * g]
  {
    forall k: nat | k < g ensures GroupReads(mem, s, k) { OneGroupRead(mem, s, g, k); }
    GroupsRead(mem, s, g);
  }

  lemma {:induction false} SameUnpack(group: seq<Byte>, mem: seq<Byte>, i: nat)
    requires |group| == 4 && i + 4 <= |mem| && mem[i..i + 4] == group
    ensures UnpackAt(mem, i) == UnpackAt(group, 0)
  {
    assert mem[i + 0] == group[0];
  }

  /** Decoding all groups gives back the bytes, and zero after an incomplete group. */
  lemma {:induction false} UnpackedEncoded(s: seq<Byte>, mem: seq<Byte>, q: nat, g: nat)
    requires 3 * q <= |s| < 3 * q + 3 && g == if |s| == 3 * q then q else q + 1
    requires 4 * g <= |mem| && mem[..4 * g] == EncodedIn(s, q)
    ensures var u := Unpacked(mem, g); u[..|s|] == s && (|s| < |u| ==> u[|s|] == 0)
  {
    if |s| == 3 * q {
      assert EncodedIn(s, q) == Packed(s, q) && s[..3 * q] == s;
      UnpackedPacked(s, mem, q);
    } else {
      UnpackedTail(s, mem, q, s[3 * q..]);
    }
  }

  lemma {:induction false} UnpackedTail(s: seq<Byte>, mem: seq<Byte>, q: nat, t: seq<Byte>)
    requires 3 * q < |s| < 3 * q + 3 && t == s[3 * q..]
    requires 4 * q + 4 <= |mem| && mem[..4 * q + 4] == Packed(s, q) + Tail(t)
    ensures var u := Unpacked(mem, q + 1); u[..|s|] == s && u[|s|] == 0
  {
    LastFour(Packed(s, q), Tail(t), mem);
    UnpackedPacked(s, mem, q);
    TailAt(t, mem, 4 * q);
    Joined(s, q, UnpackAt(mem, 4 * q));
    assert Unpacked(mem, q + 1) == s[..3 * q] + UnpackAt(mem, 4 * q);
  }

  lemma {:induction false} TailAt(t: seq<Byte>, mem: seq<Byte>, i: nat)
    requires 0 < |t| < 3 && i + 4 <= |mem| && |Tail(t)| == 4 && forall k | 0 <= k < 4 :: mem[i + k] == Tail(t)[k]
    ensures UnpackAt(mem, i) == if |t| == 1 then [t[0], 0, 0] else [t[0], t[1], 0]
  {
    TailBack(t);
    SameUnpack(Tail(t), mem, i);
  }

  lemma {:induction false} Joined(s: seq<Byte>, q: nat, group: seq<Byte>)
    requires 3 * q < |s| < 3 * q + 3 && |group| == 3
    requires group[0] == s[3 * q] && group[|s| - 3 * q] == 0 && (|s| == 3 * q + 2 ==> group[1] == s[3 * q + 1])
    ensures (s[..3 * q] + group)[..|s|] == s && (s[..3 * q] + group)[|s|] == 0
  {
  }

  lemma {:induction false} Terminated(s: seq<Byte>, u: seq<Byte>, buffer: seq<Byte>)
    requires 0 !in s && |s| <= |u| && u[..|s|] == s && (|s| < |u| ==> u[|s|] == 0)
    requires |buffer| == |u| + 1 && buffer[..|u|] == u && (|s| == |u| ==> buffer[|s|] == 0)
    ensures 0 in buffer && StrLen(buffer) == |s| && buffer[..|s|] == s
  {
    assert buffer[|s|] == 0;
    assert buffer[..|s|] == u[..|s|];
    StrLenOf(s, buffer);
  }

  /** An encoding is a C string. */
  lemma {:induction false} EncodedString(code: seq<Byte>, body: seq<Byte>, r: nat, mem: seq<Byte>)
    requires Letters(body) && code == body + Pads(r) && code + [0] <= mem
    ensures 0 in mem && StrLen(mem) == |code| && mem[..StrLen(mem)] == code
  {
    assert mem[|code|] == (code + [0])[|code|];
    assert mem[..|code|] == (code + [0])[..|code|];
    StrLenOf(code, mem);
  }

  lemma {:induction false} RoundTripIn(s: seq<Byte>, q: nat, mem: seq<Byte>, buffer: seq<Byte>)
    requires 3 * q <= |s| < 3 * q + 3
    requires 0 !in s && EncodedIn(s, q) + [0] <= mem && 0 in mem && Decoded(mem, buffer)
    ensures OutLen(mem[..StrLen(mem)]) == |s|
    ensures 0 in buffer && StrLen(buffer) == |s| && buffer[..|s|] == s
  {
    var g := if |s| == 3 * q then q else q + 1;
    var body := ShapeIn(s, q);
    EncodedString(EncodedIn(s, q), body, |s| - 3 * q, mem);
    OutLenIn(s, q);
    UnpackedEncoded(s, mem, q, g);
    Terminated(s, Unpacked(mem, g), buffer);
  }

  /** Decoding the encoding of a string yields that string and its terminator, at the computed length. */
  lemma {:induction false} RoundTrip(s: seq<Byte>, mem: seq<Byte>, buffer: seq<Byte>)
    requires 0 !in s && Encoded(s) + [0] <= mem && 0 in mem && Decoded(mem, buffer)
    ensures OutLen(mem[..StrLen(mem)]) == |s|
    ensures 0 in buffer && StrLen(buffer) == |s| && buffer[..|s|] == s
  {
    RoundTripIn(s, |s| / 3, mem, buffer);
  }

  /** The decoder may be given any encoding. */
  lemma {:induction false} EncodedDecodable(s: seq<Byte>)
    ensures OutLen(Encoded(s)) == |s| && 0 !in Encoded(s) && forall c | c in Encoded(s) :: c <= 122
  {
    OutLenIn(s, |s| / 3);
    var body := ShapeIn(s, |s| / 3);
  }

  /** Different strings have different encodings. */
  lemma {:induction false} EncodedInjective(s: seq<Byte>, t: seq<Byte>)
    requires Encoded(s) == Encoded(t)
    ensures s == t
  {
    var q := |s| / 3;
    OutLenIn(s, q);
    OutLenIn(t, |t| / 3);
    InjectiveIn(s, t, q);
  }

  lemma {:induction false} InjectiveIn(s: seq<Byte>, t: seq<Byte>, q: nat)
    requires 3 * q <= |s| == |t| < 3 * q + 3 && EncodedIn(s, q) == EncodedIn(t, q)
    ensures s == t
  {
    var code, g := EncodedIn(s, q), if |s| == 3 * q then q else q + 1;
    var body := ShapeIn(s, q);
    assert code[..4 * g] == code;
    UnpackedEncoded(s, code, q, g);
    UnpackedEncoded(t, code, q, g);
  }

  // ---------- the letters ----------

  /** Table 1 of RFC 4648, in its order. */
  const TABLE: string := "ABCDEFGHIJKLMNOPQRSTUVWXYZ" + "abcdefghijklmnopqrstuvwxyz" + "0123456789+/"

  lemma {:induction false} Upper(d: Byte, t: string)
    requires d < 26 && t == "ABCDEFGHIJKLMNOPQRSTUVWXYZ"
    ensures |t| == 26 && t[d as nat] as int == Letter(d) as int
  {
    assert d == 0 || d == 1 || d == 2 || d == 3 || d == 4 || d == 5 || d == 6 || d == 7 || d == 8 || d == 9 ||
        d == 10 || d == 11 || d == 12 || d == 13 || d == 14 || d == 15 || d == 16 || d == 17 || d == 18 ||
        d == 19 || d == 20 || d == 21 || d == 22 || d == 23 || d == 24 || d == 25;
  }

  lemma {:induction false} Lower(d: Byte, t: string)
    requires 26 <= d < 52 && t == "abcdefghijklmnopqrstuvwxyz"
    ensures |t| == 26 && t[d as nat - 26] as int == Letter(d) as int
  {
    assert d == 26 || d == 27 || d == 28 || d == 29 || d == 30 || d == 31 || d == 32 || d == 33 || d == 34 ||
        d == 35 || d == 36 || d == 37 || d == 38 || d == 39 || d == 40 || d == 41 || d == 42 || d == 43 ||
        d == 44 || d == 45 || d == 46 || d == 47 || d == 48 || d == 49 || d == 50 || d == 51;
  }

  lemma {:induction false} Rest(d: Byte, t: string)
    requires 52 <= d < 64 && t == "0123456789+/"
    ensures |t| == 12 && t[d as nat - 52] as int == Letter(d) as int
  {
    assert d == 52 || d == 53 || d == 54 || d == 55 || d == 56 || d == 57 || d == 58 || d == 59 || d == 60 ||
        d == 61 || d == 62 || d == 63;
  }

  lemma {:induction false} Parts(u: string, l: string, r: string)
    requires u == "ABCDEFGHIJKLMNOPQRSTUVWXYZ" && l == "abcdefghijklmnopqrstuvwxyz" && r == "0123456789+/"
    ensures TABLE == u + l + r && |u| == 26 && |l| == 26 && |r| == 12
  {
  }

  /** The letter of a digit is the character at that place of the table. */
  lemma {:induction false} LetterInTable(d: Byte)
    requires d < 64
    ensures |TABLE| == 64 && Letter(d) as int == TABLE[d as nat] as int
  {
    var u, l, r := "ABCDEFGHIJKLMNOPQRSTUVWXYZ", "abcdefghijklmnopqrstuvwxyz", "0123456789+/";
    Parts(u, l, r);
    if d < 26 { Upper(d, u); } else if d < 52 { Lower(d, l); } else { Rest(d, r); }
  }

  /** And a character is read as the digit whose letter it is. */
  lemma {:induction false} DigitInTable(c: Byte, d: Byte)
    requires d < 64
    ensures |TABLE| == 64 && (c as int == TABLE[d as nat] as int ==> Digit(c) == d)
  {
    LetterInTable(d);
    DigitLetter(d);
    if c as int == Letter(d) as int { SameByte(c, Letter(d)); }
  }

  /** Or as 0 if it is none. */
  lemma {:induction false} NoLetterIsZero(c: Byte)
    ensures |TABLE| == 64 && (c as int == TABLE[Digit(c) as nat] as int || Digit(c) == 0)
  {
    LetterInTable(Digit(c));
    DigitElse(c);
  }

  lemma {:induction false} DigitElse(c: Byte)
    ensures Letter(Digit(c)) == c || Digit(c) == 0
  {
  }

  lemma {:induction false} SameByte(c: Byte, d: Byte)
    requires c as int == d as int
    ensures c == d
  {
  }

  /** Three bytes as one 24-bit group. */
  function Word24(a: Byte, b: Byte, c: Byte): bv24 { ((a as bv24) << 16) | ((b as bv24) << 8) | (c as bv24) }

  /** One of the four 6-bit parts of a group, from the highest. */
  function Sextet(w: bv24, i: nat): Byte
    requires i < 4
  {
    match i
    case 0 => ((w >> 18) & 0x3F) as Byte
    case 1 => ((w >> 12) & 0x3F) as Byte
    case 2 => ((w >> 6) & 0x3F) as Byte
    case _ => (w & 0x3F) as Byte
  }

  lemma {:induction false} PackSextets(a: Byte, b: Byte, c: Byte)
    ensures var w := Word24(a, b, c);
            && Sextet(w, 0) == a >> 2 && Sextet(w, 1) == ((a & 0x3) << 4) | (b >> 4)
            && Sextet(w, 2) == ((b & 0xF) << 2) | (c >> 6) && Sextet(w, 3) == c & 0x3F
    ensures forall i | 0 <= i < 4 :: Sextet(Word24(a, b, c), i) < 64
  {
  }

  /** Section 4 of RFC 4648 for one group of which `given` bytes are there, the others being zero: the
      characters of the table at its 6-bit parts, and '=' for a part without any given bit. */
  ghost predicate SpellsGroup(out: seq<Byte>, a: Byte, b: Byte, c: Byte, given: nat) {
    |out| == 4 && forall i {:trigger Spelled(out, a, b, c, given, i)} | 0 <= i < 4 :: Spelled(out, a, b, c, given, i)
  }

  /** The character for the i-th part. */
  ghost predicate Spelled(out: seq<Byte>, a: Byte, b: Byte, c: Byte, given: nat, i: nat)
    requires |out| == 4 && i < 4
  {
    var d := Sextet(Word24(a, b, c), i);
    d < 64 && |TABLE| == 64 && out[i] as int == (if i <= given then TABLE[d as nat] else '=') as int
  }

  lemma {:induction false} PackSpells(a: Byte, b: Byte, c: Byte, i: nat)
    requires i < 4
    ensures Spelled(Pack(a, b, c), a, b, c, 3, i)
  {
    PackSextets(a, b, c);
    LetterInTable(Sextet(Word24(a, b, c), i));
  }

  lemma {:induction false} GroupSpells(a: Byte, b: Byte, c: Byte)
    ensures SpellsGroup(Pack(a, b, c), a, b, c, 3)
  {
    forall i | 0 <= i < 4 ensures Spelled(Pack(a, b, c), a, b, c, 3, i) { PackSpells(a, b, c, i); }
  }

  lemma {:induction false} TailSpells(t: seq<Byte>)
    requires 0 < |t| < 3
    ensures SpellsGroup(Tail(t), t[0], if |t| == 2 then t[1] else 0, 0, |t|)
  {
    var b := if |t| == 2 then t[1] else 0;
    GroupSpells(t[0], b, 0);
    var p := Pack(t[0], b, 0);
    forall i | 0 <= i < 4 ensures Spelled(Tail(t), t[0], b, 0, |t|, i) {
      assert Spelled(p, t[0], b, 0, 3, i);
      assert i <= |t| ==> Tail(t)[i] == p[i];
    }
  }

  lemma {:induction false} InFront(p: seq<Byte>, t: seq<Byte>, i: nat)
    requires i + 4 <= |p|
    ensures (p + t)[i..i + 4] == p[i..i + 4]
  {
  }

  lemma {:induction false} WholeGroupAt(s: seq<Byte>, q: nat, k: nat)
    requires 3 * q <= |s| < 3 * q + 3 && k < q
    ensures 4 * k + 4 <= |EncodedIn(s, q)| && EncodedIn(s, q)[4 * k..4 * k + 4] == PackAt(s, 3 * k)
  {
    PackedGroup(s, q, k);
    InFront(Packed(s, q), Tail(s[3 * q..]), 4 * k);
  }

  lemma {:induction false} LastGroupAt(s: seq<Byte>, q: nat)
    requires 3 * q < |s| < 3 * q + 3
    ensures |EncodedIn(s, q)| == 4 * q + 4 && EncodedIn(s, q)[4 * q..4 * q + 4] == Tail(s[3 * q..])
  {
    var t := Tail(s[3 * q..]);
    TailBack(s[3 * q..]);
    Behind(Packed(s, q), t, Packed(s, q) + t);
  }

  lemma {:induction false} SpellsWhole(s: seq<Byte>, q: nat, k: nat, g: seq<Byte>)
    requires 3 * q <= |s| < 3 * q + 3 && k < q && g == PackAt(s, 3 * k)
    ensures SpellsGroup(g, s[3 * k], s[3 * k + 1], s[3 * k + 2], 3)
  {
    GroupSpells(s[3 * k], s[3 * k + 1], s[3 * k + 2]);
  }

  lemma {:induction false} SpellsLast(s: seq<Byte>, q: nat, g: seq<Byte>)
    requires 3 * q < |s| < 3 * q + 3 && g == Tail(s[3 * q..])
    ensures SpellsGroup(g, s[3 * q], if 3 * q + 1 < |s| then s[3 * q + 1] else 0, 0, |s| - 3 * q)
  {
    TailSpells(s[3 * q..]);
  }

  lemma {:induction false} WholeGroupIn(s: seq<Byte>, q: nat, k: nat) returns (g: seq<Byte>)
    requires 3 * q <= |s| < 3 * q + 3 && k < q
    ensures 4 * k + 4 <= |EncodedIn(s, q)| && g == EncodedIn(s, q)[4 * k..4 * k + 4]
    ensures SpellsGroup(g, s[3 * k], s[3 * k + 1], s[3 * k + 2], 3)
  {
    WholeGroupAt(s, q, k);
    g := EncodedIn(s, q)[4 * k..4 * k + 4];
    SpellsWhole(s, q, k, g);
  }

  lemma {:induction false} LastGroupIn(s: seq<Byte>, q: nat) returns (g: seq<Byte>)
    requires 3 * q < |s| < 3 * q + 3
    ensures 4 * q + 4 <= |EncodedIn(s, q)| && g == EncodedIn(s, q)[4 * q..4 * q + 4]
    ensures SpellsGroup(g, s[3 * q], if 3 * q + 1 < |s| then s[3 * q + 1] else 0, 0, |s| - 3 * q)
  {
    LastGroupAt(s, q);
    g := EncodedIn(s, q)[4 * q..4 * q + 4];
    SpellsLast(s, q, g);
  }

  /** Every whole group of every encoding, character by character. */
  lemma {:induction false} EncodedSpells(s: seq<Byte>, k: nat)
    requires 3 * k + 3 <= |s|
    ensures 4 * k + 4 <= |Encoded(s)|
    ensures SpellsGroup(Encoded(s)[4 * k..4 * k + 4], s[3 * k], s[3 * k + 1], s[3 * k + 2], 3)
  {
    var g := WholeGroupIn(s, |s| / 3, k);
  }

  /** And the last one, of one byte or two. */
  lemma {:induction false} EncodedEnds(s: seq<Byte>, q: nat)
    requires q == |s| / 3 && 3 * q < |s|
    ensures |Encoded(s)| == 4 * q + 4
    ensures SpellsGroup(Encoded(s)[4 * q..4 * q + 4], s[3 * q], if 3 * q + 1 < |s| then s[3 * q + 1] else 0, 0,
                        |s| - 3 * q)
  {
    var g := LastGroupIn(s, q);
    LastGroupAt(s, q);
  }

  /** Four digits are put together to the 24 bits of three bytes. */
  lemma {:induction false} UnpackNumber(w: Byte, x: Byte, y: Byte, z: Byte)
    requires w < 64 && x < 64 && y < 64 && z < 64
    ensures var u := Unpack(w, x, y, z);
            Word24(u[0], u[1], u[2])
            == ((w as bv24) << 18) | ((x as bv24) << 12) | ((y as bv24) << 6) | (z as bv24)
  {
  }

  /** "Man" is encoded as "TWFu". */
  lemma {:induction false} Man(s: seq<Byte>)
    requires s == [77, 97, 110]
    ensures Encoded(s) == [84, 87, 70, 117]
  {
    assert Encoded(s) == EncodedIn(s, 1) && s[3..] == [];
    assert Packed(s, 1) == [] + PackAt(s, 0);
  }
}
