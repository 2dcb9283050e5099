/** HASH_JEN, the default hash function of uthash.h, in 32-bit arithmetic. */
module Jenkins {
  import opened Bits

  type byte = x: nat | x < 0x100

  type word = x: nat | x < 0x1_0000_0000

  /** The three mixed words: _hj_i, _hj_j and hashv. */
  datatype State = State(a: word, b: word, c: word)

  const INITIAL := State(0x9e3779b9, 0x9e3779b9, 0xfeedbeef)

  // ----- unsigned 32-bit arithmetic -----

  function Add(x: word, y: word): word {
    if x + y < 0x1_0000_0000 then x + y else x + y - 0x1_0000_0000
  }

  function Sub(x: word, y: word): word {
    if x >= y then x - y else x - y + 0x1_0000_0000
  }

  function XorWord(x: word, y: word): word {
    WordIs32Bits();
    XorBound(x, y, 32);
    Xor(x, y)
  }

  function ShiftRight(x: word, k: nat): word {
    ShrBound(x, k);
    Shr(x, k)
  }

  function ShiftLeft(x: word, k: nat): word { (x * Pow2(k)) % 0x1_0000_0000 }

  lemma WordIs32Bits()
    ensures Pow2(32) == 0x1_0000_0000
  {
    assert Pow2(8) == 0x100;
    assert Pow2(16) == 0x1_0000;
    assert Pow2(24) == 0x100_0000;
  }

  lemma {:induction false} ShrBound(x: nat, k: nat)
    ensures Shr(x, k) <= x
    decreases k
  {
    if k > 0 {
      ShrBound(x / 2, k - 1);
    }
  }

  lemma WordLaws(x: word, t: word)
    ensures XorWord(XorWord(x, t), t) == x
    ensures Sub(Add(x, t), t) == x && Add(Sub(x, t), t) == x && Sub(Add(x, t), x) == t
  {
    XorUndoes(x, t);
  }

  /** The operations are those of unsigned 32-bit numbers: a sum and a difference modulo 2^32, a
      quotient, a shift that drops the bits beyond the 32nd, and a xor that sets exactly the bits in
      which its operands differ. */
  lemma WordOperations(x: word, y: word, k: nat)
    ensures Add(x, y) == (x + y) % 0x1_0000_0000 && Sub(x, y) == (x - y) % 0x1_0000_0000
    ensures ShiftRight(x, k) == x / Pow2(k)
    ensures forall j: nat :: Bit(ShiftLeft(x, k), j) <==> k <= j < 32 && Bit(x, j - k)
    ensures Bit(XorWord(x, y), k) <==> Bit(x, k) != Bit(y, k)
    ensures XorWord(x, y) == XorWord(y, x) && XorWord(x, 0) == x && XorWord(x, x) == 0
  {
    Modulo(x, y);
    hide *;
    forall j: nat ensures Bit(ShiftLeft(x, k), j) <==> k <= j < 32 && Bit(x, j - k) {
      var q := ShlIs(x, k);
      ShiftedBit(x, k, j);
      RemainderBit(x * Pow2(k), 32, q, ShiftLeft(x, k), j);
    }
    ShiftAndMask(x, k);
    XorIsXor(x, y, k);
    ShrIs(x, k);
  }

  lemma Modulo(x: word, y: word)
    ensures Add(x, y) == (x + y) % 0x1_0000_0000 && Sub(x, y) == (x - y) % 0x1_0000_0000
  {
  }

  lemma ShlIs(x: word, k: nat) returns (q: nat)
    ensures x * Pow2(k) == q * Pow2(32) + ShiftLeft(x, k) && ShiftLeft(x, k) < Pow2(32)
  {
    WordIs32Bits();
    q := (x * Pow2(k)) / 0x1_0000_0000;
  }

  lemma ShrIs(x: word, k: nat)
    ensures ShiftRight(x, k) == Shr(x, k)
  {
  }

  lemma XorIsXor(x: word, y: word, k: nat)
    ensures Bit(XorWord(x, y), k) <==> Bit(x, k) != Bit(y, k)
    ensures XorWord(x, y) == XorWord(y, x) && XorWord(x, 0) == x && XorWord(x, x) == 0
  {
    hide Xor, Bit, Pow2;
    XorBit(x, y, k);
    forall j: nat
      ensures Bit(Xor(x, y), j) <==> Bit(Xor(y, x), j)
      ensures Bit(Xor(x, 0), j) <==> Bit(x, j)
      ensures Bit(Xor(x, x), j) <==> Bit(0, j)
    {
      XorBit(x, y, j);
      XorBit(y, x, j);
      XorBit(x, 0, j);
      XorBit(x, x, j);
      NoBits(j);
    }
    SameBits(Xor(x, y), Xor(y, x));
    SameBits(Xor(x, 0), x);
    SameBits(Xor(x, x), 0);
  }

  // ----- HASH_JEN_MIX -----

  /** x -= y; x -= z; x ^= t; */
  function Forward(x: word, y: word, z: word, t: word): word { XorWord(Sub(Sub(x, y), z), t) }

  function Backward(x: word, y: word, z: word, t: word): word { Add(Add(XorWord(x, t), z), y) }

  function StepA(s: State, t: word): State { s.(a := Forward(s.a, s.b, s.c, t)) }
  function StepB(s: State, t: word): State { s.(b := Forward(s.b, s.c, s.a, t)) }
  function StepC(s: State, t: word): State { s.(c := Forward(s.c, s.a, s.b, t)) }

  /** Three of the nine lines, with their shift amounts. */
  function Round(s: State, x: nat, y: nat, z: nat): State {
    var s1 := StepA(s, ShiftRight(s.c, x));
    var s2 := StepB(s1, ShiftLeft(s1.a, y));
    StepC(s2, ShiftRight(s2.b, z))
  }

  function Mix(s: State): State { Round(Round(Round(s, 13, 8, 13), 12, 16, 5), 3, 10, 15) }

  /** The nine lines of the macro, in place. */
  method MixInPlace(s: State) returns (s': State)
    ensures s' == Mix(s)
  {
    hide Sub, XorWord, ShiftRight, ShiftLeft;
    var a, b, c := s.a, s.b, s.c;
    a := Sub(a, b); a := Sub(a, c); a := XorWord(a, ShiftRight(c, 13));
    b := Sub(b, c); b := Sub(b, a); b := XorWord(b, ShiftLeft(a, 8));
    c := Sub(c, a); c := Sub(c, b); c := XorWord(c, ShiftRight(b, 13));
    a := Sub(a, b); a := Sub(a, c); a := XorWord(a, ShiftRight(c, 12));
    b := Sub(b, c); b := Sub(b, a); b := XorWord(b, ShiftLeft(a, 16));
    c := Sub(c, a); c := Sub(c, b); c := XorWord(c, ShiftRight(b, 5));
    a := Sub(a, b); a := Sub(a, c); a := XorWord(a, ShiftRight(c, 3));
    b := Sub(b, c); b := Sub(b, a); b := XorWord(b, ShiftLeft(a, 10));
    c := Sub(c, a); c := Sub(c, b); c := XorWord(c, ShiftRight(b, 15));
    s' := State(a, b, c);
  }

  function UnstepA(s: State, t: word): State { s.(a := Backward(s.a, s.b, s.c, t)) }
  function UnstepB(s: State, t: word): State { s.(b := Backward(s.b, s.c, s.a, t)) }
  function UnstepC(s: State, t: word): State { s.(c := Backward(s.c, s.a, s.b, t)) }

  function Unround(s: State, x: nat, y: nat, z: nat): State {
    var s2 := UnstepC(s, ShiftRight(s.b, z));
    var s1 := UnstepB(s2, ShiftLeft(s2.a, y));
    UnstepA(s1, ShiftRight(s1.c, x))
  }

  function Unmix(s: State): State { Unround(Unround(Unround(s, 3, 10, 15), 12, 16, 5), 13, 8, 13) }

  lemma Undo(x: word, y: word, z: word, t: word)
    ensures Backward(Forward(x, y, z, t), y, z, t) == x
    ensures Forward(Backward(x, y, z, t), y, z, t) == x
  {
    hide XorWord, Add, Sub;
    WordLaws(Sub(Sub(x, y), z), t);
    WordLaws(x, t);
    WordLaws(Sub(x, y), z);
    WordLaws(x, y);
    WordLaws(XorWord(x, t), z);
    WordLaws(Add(XorWord(x, t), z), y);
  }

  lemma StepsUndo(s: State, t: word)
    ensures UnstepA(StepA(s, t), t) == s == StepA(UnstepA(s, t), t)
    ensures UnstepB(StepB(s, t), t) == s == StepB(UnstepB(s, t), t)
    ensures UnstepC(StepC(s, t), t) == s == StepC(UnstepC(s, t), t)
    ensures StepA(s, t).c == s.c == UnstepA(s, t).c
    ensures StepB(s, t).a == s.a == UnstepB(s, t).a
    ensures StepC(s, t).b == s.b == UnstepC(s, t).b
  {
    hide Forward, Backward;
    Undo(s.a, s.b, s.c, t);
    Undo(s.b, s.c, s.a, t);
    Undo(s.c, s.a, s.b, t);
  }

  lemma RoundIsBijective(s: State, x: nat, y: nat, z: nat)
    ensures Unround(Round(s, x, y, z), x, y, z) == s
    ensures Round(Unround(s, x, y, z), x, y, z) == s
  {
    hide StepA, StepB, StepC, UnstepA, UnstepB, UnstepC, ShiftRight, ShiftLeft;
    var s1 := StepA(s, ShiftRight(s.c, x));
    var s2 := StepB(s1, ShiftLeft(s1.a, y));
    StepsUndo(s, ShiftRight(s.c, x));
    StepsUndo(s1, ShiftLeft(s1.a, y));
    StepsUndo(s2, ShiftRight(s2.b, z));
    var u2 := UnstepC(s, ShiftRight(s.b, z));
    var u1 := UnstepB(u2, ShiftLeft(u2.a, y));
    StepsUndo(s, ShiftRight(s.b, z));
    StepsUndo(u2, ShiftLeft(u2.a, y));
    StepsUndo(u1, ShiftRight(u1.c, x));
  }

  /** HASH_JEN_MIX is a bijection on triples of words. */
  lemma MixIsBijective(s: State)
    ensures Unmix(Mix(s)) == s && Mix(Unmix(s)) == s
  {
    hide Round, Unround;
    var s1 := Round(s, 13, 8, 13);
    var s2 := Round(s1, 12, 16, 5);
    RoundIsBijective(s, 13, 8, 13);
    RoundIsBijective(s1, 12, 16, 5);
    RoundIsBijective(s2, 3, 10, 15);
    var u2 := Unround(s, 3, 10, 15);
    var u1 := Unround(u2, 12, 16, 5);
    RoundIsBijective(s, 3, 10, 15);
    RoundIsBijective(u2, 12, 16, 5);
    RoundIsBijective(u1, 13, 8, 13);
  }

  lemma MixIsInjective(s: State, t: State)
    requires Mix(s) == Mix(t)
    ensures s == t
  {
    MixIsBijective(s);
    MixIsBijective(t);
  }

  // ----- HASH_JEN -----

  /** Four bytes, little-endian. */
  function Word(b0: byte, b1: byte, b2: byte, b3: byte): word { b0 + b1 * 0x100 + b2 * 0x1_0000 + b3 * 0x100_0000 }

  lemma WordIsInjective(a0: byte, a1: byte, a2: byte, a3: byte, b0: byte, b1: byte, b2: byte, b3: byte)
    requires Word(a0, a1, a2, a3) == Word(b0, b1, b2, b3)
    ensures a0 == b0 && a1 == b1 && a2 == b2 && a3 == b3
  {
    TwoDigits(0x1_0000, a0 + a1 * 0x100, a2 + a3 * 0x100, b0 + b1 * 0x100, b2 + b3 * 0x100);
    TwoDigits(0x100, a0, a1, b0, b1);
    TwoDigits(0x100, a2, a3, b2, b3);
  }

  lemma TwoDigits(base: nat, a0: nat, a1: nat, b0: nat, b1: nat)
    requires a0 < base && b0 < base && a0 + a1 * base == b0 + b1 * base
    ensures a0 == b0 && a1 == b1
  {
    QuotientIs(a0 + a1 * base, base, a1);
    QuotientIs(b0 + b1 * base, base, b1);
  }

  lemma AddIsInjective(x: word, w: word, y: word, v: word)
    requires Add(x, w) == Add(y, v)
    ensures x == y <==> w == v
  {
    hide Add, Sub;
    WordLaws(x, w);
    WordLaws(y, v);
  }

  /** A full block of twelve bytes. */
  function AddBlock(s: State, k: seq<byte>): State
    requires |k| == 12
  {
    State(Add(s.a, Word(k[0], k[1], k[2], k[3])),
          Add(s.b, Word(k[4], k[5], k[6], k[7])),
          Add(s.c, Word(k[8], k[9], k[10], k[11])))
  }

  function At(k: seq<byte>, i: nat): byte { if i < |k| then k[i] else 0 }

  /** The last, partial block: the low byte of hashv is reserved for the key length. */
  function AddTail(s: State, k: seq<byte>, len: word): State
    requires |k| < 12
  {
    State(Add(s.a, Word(At(k, 0), At(k, 1), At(k, 2), At(k, 3))),
          Add(s.b, Word(At(k, 4), At(k, 5), At(k, 6), At(k, 7))),
          Add(Add(s.c, len), Word(0, At(k, 8), At(k, 9), At(k, 10))))
  }

  /** HASH_JEN from a given state on. */
  function Run(s: State, key: seq<byte>, len: word): State
    decreases |key|
  {
    if |key| >= 12 then Run(Mix(AddBlock(s, key[..12])), key[12..], len)
    else Mix(AddTail(s, key, len))
  }

  /** The two words that a change in a block reaches are different ones. */
  lemma AddBlockIsInjective(s: State, t: State, k: seq<byte>, l: seq<byte>)
    requires |k| == |l| == 12 && AddBlock(s, k) == AddBlock(t, l)
    ensures s == t <==> k == l
  {
    hide Add, Word;
    AddIsInjective(s.a, Word(k[0], k[1], k[2], k[3]), t.a, Word(l[0], l[1], l[2], l[3]));
    AddIsInjective(s.b, Word(k[4], k[5], k[6], k[7]), t.b, Word(l[4], l[5], l[6], l[7]));
    AddIsInjective(s.c, Word(k[8], k[9], k[10], k[11]), t.c, Word(l[8], l[9], l[10], l[11]));
    if s == t {
      WordIsInjective(k[0], k[1], k[2], k[3], l[0], l[1], l[2], l[3]);
      WordIsInjective(k[4], k[5], k[6], k[7], l[4], l[5], l[6], l[7]);
      WordIsInjective(k[8], k[9], k[10], k[11], l[8], l[9], l[10], l[11]);
    }
  }

  lemma AddTailIsInjective(s: State, t: State, k: seq<byte>, l: seq<byte>, len: word)
    requires |k| == |l| < 12 && AddTail(s, k, len) == AddTail(t, l, len)
    ensures s == t <==> k == l
  {
    hide Add, Word;
    AddIsInjective(s.a, Word(At(k, 0), At(k, 1), At(k, 2), At(k, 3)),
                   t.a, Word(At(l, 0), At(l, 1), At(l, 2), At(l, 3)));
    AddIsInjective(s.b, Word(At(k, 4), At(k, 5), At(k, 6), At(k, 7)),
                   t.b, Word(At(l, 4), At(l, 5), At(l, 6), At(l, 7)));
    AddIsInjective(Add(s.c, len), Word(0, At(k, 8), At(k, 9), At(k, 10)),
                   Add(t.c, len), Word(0, At(l, 8), At(l, 9), At(l, 10)));
    if s == t {
      WordIsInjective(At(k, 0), At(k, 1), At(k, 2), At(k, 3), At(l, 0), At(l, 1), At(l, 2), At(l, 3));
      WordIsInjective(At(k, 4), At(k, 5), At(k, 6), At(k, 7), At(l, 4), At(l, 5), At(l, 6), At(l, 7));
      WordIsInjective(0, At(k, 8), At(k, 9), At(k, 10), 0, At(l, 8), At(l, 9), At(l, 10));
      TailBytes(k, l);
    } else if k == l {
      if s.c != t.c && Add(s.c, len) == Add(t.c, len) {
        AddIsInjective(s.c, len, t.c, len);
      }
    }
  }

  lemma TailBytes(k: seq<byte>, l: seq<byte>)
    requires |k| == |l| < 12
    requires forall i :: 0 <= i < 11 ==> At(k, i) == At(l, i)
    ensures k == l
  {
    forall i | 0 <= i < |k| ensures k[i] == l[i] {
      assert At(k, i) == At(l, i);
    }
  }

  /** Different states stay different, whatever follows. */
  lemma {:induction false} RunKeepsApart(s: State, t: State, key: seq<byte>, len: word)
    requires s != t
    ensures Run(s, key, len) != Run(t, key, len)
    decreases |key|
  {
    hide Mix, AddBlock, AddTail;
    if |key| >= 12 {
      var s', t' := AddBlock(s, key[..12]), AddBlock(t, key[..12]);
      if s' == t' { AddBlockIsInjective(s, t, key[..12], key[..12]); }
      if Mix(s') == Mix(t') { MixIsInjective(s', t'); }
      RunKeepsApart(Mix(s'), Mix(t'), key[12..], len);
    } else {
      var s', t' := AddTail(s, key, len), AddTail(t, key, len);
      if s' == t' { AddTailIsInjective(s, t, key, key, len); }
      if Mix(s') == Mix(t') { MixIsInjective(s', t'); }
    }
  }

  /** Two keys of the same length that differ in exactly one block of twelve bytes, the partial
      last block included, end in different states. */
  lemma {:induction false} OneBlockMatters(s: State, k: seq<byte>, l: seq<byte>, b: nat, len: word)
    requires |k| == |l| && 12 * b <= |k| && k != l
    requires k[..12 * b] == l[..12 * b]
    requires 12 * b + 12 <= |k| ==> k[12 * b + 12..] == l[12 * b + 12..]
    ensures Run(s, k, len) != Run(s, l, len)
    decreases |k|
  {
    hide Mix, AddBlock, AddTail;
    if |k| < 12 {
      var s', t' := AddTail(s, k, len), AddTail(s, l, len);
      if s' == t' { AddTailIsInjective(s, s, k, l, len); }
      if Mix(s') == Mix(t') { MixIsInjective(s', t'); }
    } else if b == 0 {
      var s', t' := AddBlock(s, k[..12]), AddBlock(s, l[..12]);
      assert k == k[..12] + k[12..] && l == l[..12] + l[12..];
      if s' == t' { AddBlockIsInjective(s, s, k[..12], l[..12]); }
      if Mix(s') == Mix(t') { MixIsInjective(s', t'); }
      RunKeepsApart(Mix(s'), Mix(t'), k[12..], len);
    } else {
      assert k[..12] == k[..12 * b][..12] == l[..12];
      assert k[12..][..12 * (b - 1)] == k[..12 * b][12..] == l[..12 * b][12..] == l[12..][..12 * (b - 1)];
      if 12 * b + 12 <= |k| {
        assert k[12..][12 * (b - 1) + 12..] == k[12 * b + 12..];
        assert l[12..][12 * (b - 1) + 12..] == l[12 * b + 12..];
      }
      assert k == k[..12] + k[12..] && l == l[..12] + l[12..];
      OneBlockMatters(Mix(AddBlock(s, k[..12])), k[12..], l[12..], b - 1, len);
    }
  }

  // ----- the macro itself -----

  /** The hash value of a key. */
  function Hash(key: seq<byte>): word
    requires |key| < 0x1_0000_0000
  {
    Run(INITIAL, key, |key|).c
  }

  /** _hj_key[p - base], read at most once. */
  method Byte(key: seq<byte>, p: nat, ghost read: set<nat>) returns (b: word, ghost read': set<nat>)
    requires p < |key| && p !in read
    ensures b == key[p] && read' == read + {p}
  {
    b := key[p];
    read' := read + {p};
  }

  method ReadWord(key: seq<byte>, p: nat, ghost read: set<nat>) returns (w: word, ghost read': set<nat>)
    requires p + 4 <= |key| && forall i :: p <= i < p + 4 ==> i !in read
    ensures w == Word(key[p], key[p + 1], key[p + 2], key[p + 3])
    ensures read' == read + {p, p + 1, p + 2, p + 3}
  {
    var b0, b1, b2, b3;
    b0, read' := Byte(key, p, read);
    b1, read' := Byte(key, p + 1, read');
    b2, read' := Byte(key, p + 2, read');
    b3, read' := Byte(key, p + 3, read');
    w := b0 + b1 * 0x100 + b2 * 0x1_0000 + b3 * 0x100_0000;
  }

  /** The indices from `lo` up to `hi`. */
  ghost function Range(lo: nat, hi: nat): (r: set<nat>)
    ensures forall x :: x in r <==> lo <= x < hi
    decreases hi
  {
    if lo >= hi then {} else Range(lo, hi - 1) + {hi - 1}
  }

  lemma AddAdd(x: word, a: word, b: word)
    requires a + b < 0x1_0000_0000
    ensures Add(Add(x, a), b) == Add(x, a + b)
  {
  }

  lemma AddZero(x: word)
    ensures Add(x, 0) == x
  {
  }

  /** One case of the switch: it is passed through when the key reaches index `p`. */
  method Case(x: word, key: seq<byte>, p: nat, shift: nat, ghost read: set<nat>)
    returns (x': word, ghost b: byte, ghost read': set<nat>)
    requires p !in read && (shift == 1 || shift == 0x100 || shift == 0x1_0000 || shift == 0x100_0000)
    ensures b == At(key, p) && x' == Add(x, b * shift)
    ensures read' == if p < |key| then read + {p} else read
  {
    x', b, read' := x, 0, read;
    if p < |key| {
      var k;
      k, read' := Byte(key, p, read);
      b := k;
      x' := Add(x, k * shift);
    } else {
      AddZero(x);
    }
  }

  lemma AddWord(x: word, b0: byte, b1: byte, b2: byte, b3: byte)
    ensures Add(Add(Add(Add(x, b3 * 0x100_0000), b2 * 0x1_0000), b1 * 0x100), b0 * 1) == Add(x, Word(b0, b1, b2, b3))
  {
    hide Add;
    AddAdd(x, b3 * 0x100_0000, b2 * 0x1_0000);
    AddAdd(x, b3 * 0x100_0000 + b2 * 0x1_0000, b1 * 0x100);
    AddAdd(x, b3 * 0x100_0000 + b2 * 0x1_0000 + b1 * 0x100, b0);
  }

  /** Four cases of the fall-through switch: bytes p + 3 down to p go into one word. */
  method TailWord(x0: word, key: seq<byte>, p: nat, ghost read0: set<nat>)
    returns (x: word, ghost read: set<nat>)
    requires read0 !! Range(p, p + 4)
    ensures x == Add(x0, Word(At(key, p), At(key, p + 1), At(key, p + 2), At(key, p + 3)))
    ensures forall i :: i in read <==> i in read0 || (p <= i < p + 4 && i < |key|)
  {
    hide Add, Word, Range;
    ghost var b0: byte, b1: byte, b2: byte, b3: byte;
    x, b3, read := Case(x0, key, p + 3, 0x100_0000, read0);
    x, b2, read := Case(x, key, p + 2, 0x1_0000, read);
    x, b1, read := Case(x, key, p + 1, 0x100, read);
    x, b0, read := Case(x, key, p, 1, read);
    AddWord(x0, b0, b1, b2, b3);
  }

  lemma BlockOf(s: State, key: seq<byte>, p: nat)
    requires p + 12 <= |key|
    ensures AddBlock(s, key[p..][..12]) ==
            State(Add(s.a, Word(key[p], key[p + 1], key[p + 2], key[p + 3])),
                  Add(s.b, Word(key[p + 4], key[p + 5], key[p + 6], key[p + 7])),
                  Add(s.c, Word(key[p + 8], key[p + 9], key[p + 10], key[p + 11])))
  {
    hide Add, Word;
  }

  /** Body of the loop: twelve bytes are added and mixed in. */
  method Block(s0: State, key: seq<byte>, p: nat, ghost read0: set<nat>) returns (s: State, ghost read: set<nat>)
    requires p + 12 <= |key| && read0 == Range(0, p)
    ensures s == Mix(AddBlock(s0, key[p..][..12])) && read == Range(0, p + 12)
  {
    hide Mix, Add, Word, AddBlock;
    BlockOf(s0, key, p);
    var w0, w1, w2;
    w0, read := ReadWord(key, p, read0);
    w1, read := ReadWord(key, p + 4, read);
    w2, read := ReadWord(key, p + 8, read);
    s := MixInPlace(State(Add(s0.a, w0), Add(s0.b, w1), Add(s0.c, w2)));
  }

  lemma RunTail(s: State, key: seq<byte>, len: word)
    requires |key| < 12
    ensures Run(s, key, len) == Mix(AddTail(s, key, len))
  {
  }

  lemma RunBlock(s: State, key: seq<byte>, len: word)
    requires |key| >= 12
    ensures Run(s, key, len) == Run(Mix(AddBlock(s, key[..12])), key[12..], len)
  {
  }

  /** HASH_JEN: the final state and the bucket of a key, every byte of which is read exactly once. */
  method HashJen(key: seq<byte>, numBkts: nat) returns (s: State, bkt: nat, ghost read: set<nat>)
    requires |key| < 0x1_0000_0000 && numBkts > 0
    ensures s == Run(INITIAL, key, |key|)
    ensures bkt == And(Hash(key), numBkts - 1)
    ensures read == Range(0, |key|)
  {
    hide Mix, Add, Word, Run;
    s := State(0x9e3779b9, 0x9e3779b9, 0xfeedbeef);
    assert key[0..] == key;
    var p: nat, k: nat := 0, |key|;
    read := {};
    while k >= 12
      invariant p + k == |key| && read == Range(0, p)
      invariant Run(s, key[p..], |key|) == Run(INITIAL, key, |key|)
    {
      RunBlock(s, key[p..], |key|);
      assert key[p..][12..] == key[p + 12..];
      s, read := Block(s, key, p, read);
      p, k := p + 12, k - 12;
    }
    var i, j, hashv := s.a, s.b, s.c;
    hashv := Add(hashv, |key|);
    hashv, read := TailWord3(hashv, key, p + 8, read);
    j, read := TailWord(j, key, p + 4, read);
    i, read := TailWord(i, key, p, read);
    forall x: nat | x < 12 ensures At(key[p..], x) == At(key, p + x) { }
    assert State(i, j, hashv) == AddTail(s, key[p..], |key|);
    assert read == Range(0, |key|);
    RunTail(s, key[p..], |key|);
    s := MixInPlace(State(i, j, hashv));
    bkt := And(s.c, numBkts - 1);
  }

  /** Cases 11, 10 and 9: the low byte of hashv is left alone. */
  method TailWord3(x0: word, key: seq<byte>, p: nat, ghost read0: set<nat>)
    returns (x: word, ghost read: set<nat>)
    requires read0 !! Range(p, p + 3)
    ensures x == Add(x0, Word(0, At(key, p), At(key, p + 1), At(key, p + 2)))
    ensures forall i :: i in read <==> i in read0 || (p <= i < p + 3 && i < |key|)
  {
    hide Add, Word, Range;
    ghost var b0: byte, b1: byte, b2: byte;
    x, b2, read := Case(x0, key, p + 2, 0x100_0000, read0);
    x, b1, read := Case(x, key, p + 1, 0x1_0000, read);
    x, b0, read := Case(x, key, p, 0x100, read);
    AddWord(x0, 0, b0, b1, b2);
    AddZero(x);
  }
}
