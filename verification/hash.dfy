/** The shell's hasher (src/hash.rs): a 64-bit state mixed with one word per 8-byte block, a
    short tail assembled with overlapping reads, and a finaliser that folds in the length. */
module Hash {
  type byte = bv8
  type word = bv64

  const SEED: word := 0x2432_f6a8_8848_5a30

  // ----- Words from bytes -----

  function Widen(b: byte): word {
    b as word
  }

  /** Four bytes, little-endian. */
  function Quad(a: byte, b: byte, c: byte, d: byte): word {
    Four(Widen(a), Widen(b), Widen(c), Widen(d))
  }

  function Four(a: word, b: word, c: word, d: word): word {
    a | (b << 8) | (c << 16) | (d << 24)
  }

  /** Eight bytes, little-endian. */
  function Block(s: seq<byte>): word
    requires |s| == 8
  {
    Pair(Quad(s[0], s[1], s[2], s[3]), Quad(s[4], s[5], s[6], s[7]))
  }

  function Pair(lo: word, hi: word): word {
    lo | (hi << 32)
  }

  /** One to seven bytes: two overlapping reads of four bytes, or the first, middle and last. */
  function ReadShortTail(s: seq<byte>): word
    requires 0 < |s| < 8
  {
    var n := |s|;
    if n >= 4 then
      Overlap(Quad(s[0], s[1], s[2], s[3]), Quad(s[n - 4], s[n - 3], s[n - 2], s[n - 1]), n - 4)
    else
      Triple(s[0], s[n / 2], s[n - 1])
  }

  function Triple(a: byte, b: byte, c: byte): word {
    Widen(a) | (Widen(b) << 8) | (Widen(c) << 16)
  }

  /** `lo | (hi << (shift * 8))`. */
  function Overlap(lo: word, hi: word, shift: nat): word
    requires shift < 4
  {
    match shift
    case 0 => lo | hi
    case 1 => lo | (hi << 8)
    case 2 => lo | (hi << 16)
    case 3 => lo | (hi << 24)
  }

  lemma QuadInjective(a: byte, b: byte, c: byte, d: byte, e: byte, f: byte, g: byte, h: byte)
    requires Quad(a, b, c, d) == Quad(e, f, g, h)
    ensures a == e && b == f && c == g && d == h
  {
  }

  lemma QuadIsShort(a: byte, b: byte, c: byte, d: byte)
    ensures Quad(a, b, c, d) < 0x1_0000_0000
  {
  }

  lemma PairInjective(a: word, b: word, c: word, d: word)
    requires a < 0x1_0000_0000 && b < 0x1_0000_0000 && c < 0x1_0000_0000 && d < 0x1_0000_0000
    requires Pair(a, b) == Pair(c, d)
    ensures a == c && b == d
  {
  }

  lemma BlockInjective(s: seq<byte>, t: seq<byte>)
    requires |s| == |t| == 8 && Block(s) == Block(t)
    ensures s == t
  {
    hide Quad, Pair;
    QuadIsShort(s[0], s[1], s[2], s[3]);
    QuadIsShort(s[4], s[5], s[6], s[7]);
    QuadIsShort(t[0], t[1], t[2], t[3]);
    QuadIsShort(t[4], t[5], t[6], t[7]);
    PairInjective(Quad(s[0], s[1], s[2], s[3]), Quad(s[4], s[5], s[6], s[7]),
                  Quad(t[0], t[1], t[2], t[3]), Quad(t[4], t[5], t[6], t[7]));
    QuadInjective(s[0], s[1], s[2], s[3], t[0], t[1], t[2], t[3]);
    QuadInjective(s[4], s[5], s[6], s[7], t[4], t[5], t[6], t[7]);
  }

  /** The bytes of a tail can be read back from its word: nothing overlaps except equal bytes. */
  lemma TailInjective(s: seq<byte>, t: seq<byte>)
    requires 0 < |s| == |t| < 8 && ReadShortTail(s) == ReadShortTail(t)
    ensures s == t
  {
    hide Quad, Overlap, Triple;
    match |s|
    case 1 => TailThree(s[0], s[0], s[0], t[0], t[0], t[0]);
    case 2 => TailThree(s[0], s[1], s[1], t[0], t[1], t[1]);
    case 3 => TailThree(s[0], s[1], s[2], t[0], t[1], t[2]);
    case 4 => TailFour(s[0], s[1], s[2], s[3], t[0], t[1], t[2], t[3]);
    case 5 => TailFive(s[0], s[1], s[2], s[3], s[4], t[0], t[1], t[2], t[3], t[4]);
    case 6 => TailSix(s[0], s[1], s[2], s[3], s[4], s[5], t[0], t[1], t[2], t[3], t[4], t[5]);
    case 7 => TailSeven(s[0], s[1], s[2], s[3], s[4], s[5], s[6], t[0], t[1], t[2], t[3], t[4], t[5], t[6]);
  }

  lemma TailThree(a: byte, b: byte, c: byte, d: byte, e: byte, f: byte)
    requires Triple(a, b, c) == Triple(d, e, f)
    ensures a == d && b == e && c == f
  {
  }

  lemma TailFour(a: byte, b: byte, c: byte, d: byte, e: byte, f: byte, g: byte, h: byte)
    requires Overlap(Quad(a, b, c, d), Quad(a, b, c, d), 0) == Overlap(Quad(e, f, g, h), Quad(e, f, g, h), 0)
    ensures a == e && b == f && c == g && d == h
  {
  }

  lemma TailFive(a: byte, b: byte, c: byte, d: byte, e: byte, f: byte, g: byte, h: byte, i: byte, j: byte)
    requires Overlap(Quad(a, b, c, d), Quad(b, c, d, e), 1) == Overlap(Quad(f, g, h, i), Quad(g, h, i, j), 1)
    ensures a == f && b == g && c == h && d == i && e == j
  {
  }

  lemma TailSix(a: byte, b: byte, c: byte, d: byte, e: byte, f: byte,
                g: byte, h: byte, i: byte, j: byte, k: byte, l: byte)
    requires Overlap(Quad(a, b, c, d), Quad(c, d, e, f), 2) == Overlap(Quad(g, h, i, j), Quad(i, j, k, l), 2)
    ensures a == g && b == h && c == i && d == j && e == k && f == l
  {
  }

  lemma TailSeven(a: byte, b: byte, c: byte, d: byte, e: byte, f: byte, g: byte,
                  h: byte, i: byte, j: byte, k: byte, l: byte, m: byte, n: byte)
    requires Overlap(Quad(a, b, c, d), Quad(d, e, f, g), 3) == Overlap(Quad(h, i, j, k), Quad(k, l, m, n), 3)
    ensures a == h && b == i && c == j && d == k && e == l && f == m && g == n
  {
  }

  // ----- Mixing -----

  function Xor(a: word, b: word): word {
    a ^ b
  }

  function Unscaled(w: word): word {
    w * 0x2040_003d_7809_70bd
  }

  /** Multiplication by an odd constant is undone by its inverse modulo 2^64. */
  function Scaled(w: word): (r: word)
    ensures Unscaled(r) == w
  {
    assert w * 0x517c_c1b7_2722_0a95 * 0x2040_003d_7809_70bd == w;
    w * 0x517c_c1b7_2722_0a95
  }

  function Rotated(state: word): word {
    state.RotateLeft(5)
  }

  function Mix(state: word, w: word): word {
    Xor(Rotated(state), Scaled(w))
  }

  lemma ScaledInjective(v: word, w: word)
    requires Scaled(v) == Scaled(w)
    ensures v == w
  {
    hide Scaled, Unscaled;
    assert Unscaled(Scaled(v)) == v && Unscaled(Scaled(w)) == w;
  }

  lemma RotatedInjective(s: word, t: word)
    requires Rotated(s) == Rotated(t)
    ensures s == t
  {
  }

  lemma XorCancels(a: word, b: word, c: word)
    ensures Xor(a, b) == Xor(a, c) ==> b == c
    ensures Xor(b, a) == Xor(c, a) ==> b == c
  {
  }

  lemma MixInjective(s: word, t: word, v: word, w: word)
    requires Mix(s, v) == Mix(t, w)
    ensures s == t ==> v == w
    ensures v == w ==> s == t
  {
    hide Scaled, Rotated, Xor;
    if s == t {
      XorCancels(Rotated(s), Scaled(v), Scaled(w));
      ScaledInjective(v, w);
    }
    if v == w {
      XorCancels(Scaled(v), Rotated(s), Rotated(t));
      RotatedInjective(s, t);
    }
  }

  // ----- Finishing -----

  function Shift30(x: word): word { x >> 30 }

  function Shift27(x: word): word { x >> 27 }

  function Shift31(x: word): word { x >> 31 }

  function UnscaledA(x: word): word { x * 0x96de_1b17_3f11_9089 }

  function ScaledA(x: word): (r: word)
    ensures UnscaledA(r) == x
  {
    assert x * 0xbf58_476d_1ce4_e5b9 * 0x96de_1b17_3f11_9089 == x;
    x * 0xbf58_476d_1ce4_e5b9
  }

  function UnscaledB(x: word): word { x * 0x3196_42b2_d24d_8ec3 }

  function ScaledB(x: word): (r: word)
    ensures UnscaledB(r) == x
  {
    assert x * 0x94d0_49bb_1331_11eb * 0x3196_42b2_d24d_8ec3 == x;
    x * 0x94d0_49bb_1331_11eb
  }

  function Finish(state: word, length: word): word {
    var a := Xor(state, length);
    var b := ScaledA(Xor(a, Shift30(a)));
    var c := ScaledB(Xor(b, Shift27(b)));
    Xor(c, Shift31(c))
  }

  lemma XorExchange(x: word, y: word, a: word, b: word)
    requires Xor(x, a) == Xor(y, b)
    ensures Xor(x, y) == Xor(a, b)
  {
    RawXorExchange(x, y, a, b);
  }

  lemma RawXorExchange(x: word, y: word, a: word, b: word)
    requires x ^ a == y ^ b
    ensures x ^ y == a ^ b
  {
  }

  lemma XorZero(x: word, y: word)
    requires Xor(x, y) == 0
    ensures x == y
  {
  }

  lemma Shift30Facts(x: word, y: word)
    ensures Shift30(Xor(x, y)) == Xor(Shift30(x), Shift30(y))
    ensures x == Shift30(x) ==> x == 0
  {
    if x == Shift30(x) {
      assert x == (x >> 30) >> 30;
      assert x == ((x >> 30) >> 30) >> 30;
    }
  }

  lemma Shift27Facts(x: word, y: word)
    ensures Shift27(Xor(x, y)) == Xor(Shift27(x), Shift27(y))
    ensures x == Shift27(x) ==> x == 0
  {
    if x == Shift27(x) {
      assert x == (x >> 27) >> 27;
      assert x == ((x >> 27) >> 27) >> 27;
    }
  }

  lemma Shift31Facts(x: word, y: word)
    ensures Shift31(Xor(x, y)) == Xor(Shift31(x), Shift31(y))
    ensures x == Shift31(x) ==> x == 0
  {
    if x == Shift31(x) {
      assert x == (x >> 31) >> 31;
      assert x == ((x >> 31) >> 31) >> 31;
    }
  }

  /** A shift that loses low bits, xored with its argument, loses nothing. */
  lemma XorShift30Injective(x: word, y: word)
    requires Xor(x, Shift30(x)) == Xor(y, Shift30(y))
    ensures x == y
  {
    hide Shift30, Xor;
    XorExchange(x, y, Shift30(x), Shift30(y));
    Shift30Facts(x, y);
    Shift30Facts(Xor(x, y), y);
    XorZero(x, y);
  }

  lemma XorShift27Injective(x: word, y: word)
    requires Xor(x, Shift27(x)) == Xor(y, Shift27(y))
    ensures x == y
  {
    hide Shift27, Xor;
    XorExchange(x, y, Shift27(x), Shift27(y));
    Shift27Facts(x, y);
    Shift27Facts(Xor(x, y), y);
    XorZero(x, y);
  }

  lemma XorShift31Injective(x: word, y: word)
    requires Xor(x, Shift31(x)) == Xor(y, Shift31(y))
    ensures x == y
  {
    hide Shift31, Xor;
    XorExchange(x, y, Shift31(x), Shift31(y));
    Shift31Facts(x, y);
    Shift31Facts(Xor(x, y), y);
    XorZero(x, y);
  }

  lemma ScaledAInjective(x: word, y: word)
    requires ScaledA(x) == ScaledA(y)
    ensures x == y
  {
    hide ScaledA, UnscaledA;
    assert UnscaledA(ScaledA(x)) == x && UnscaledA(ScaledA(y)) == y;
  }

  lemma ScaledBInjective(x: word, y: word)
    requires ScaledB(x) == ScaledB(y)
    ensures x == y
  {
    hide ScaledB, UnscaledB;
    assert UnscaledB(ScaledB(x)) == x && UnscaledB(ScaledB(y)) == y;
  }

  /** The finaliser is a bijection of the state for each length. */
  lemma FinishInjective(s: word, t: word, length: word)
    requires Finish(s, length) == Finish(t, length)
    ensures s == t
  {
    hide Shift30, Shift27, Shift31, ScaledA, ScaledB, Xor;
    var a1, a2 := Xor(s, length), Xor(t, length);
    var b1, b2 := ScaledA(Xor(a1, Shift30(a1))), ScaledA(Xor(a2, Shift30(a2)));
    var c1, c2 := ScaledB(Xor(b1, Shift27(b1))), ScaledB(Xor(b2, Shift27(b2)));
    XorShift31Injective(c1, c2);
    ScaledBInjective(Xor(b1, Shift27(b1)), Xor(b2, Shift27(b2)));
    XorShift27Injective(b1, b2);
    ScaledAInjective(Xor(a1, Shift30(a1)), Xor(a2, Shift30(a2)));
    XorShift30Injective(a1, a2);
    XorCancels(length, s, t);
  }

  // ----- Hashing a key -----

  /** The state after a key: its 8-byte blocks and then its tail. */
  function Absorb(state: word, s: seq<byte>): word
    decreases |s|
  {
    if |s| >= 8 then Absorb(Mix(state, Block(s[..8])), s[8..])
    else if s != [] then Mix(state, ReadShortTail(s))
    else state
  }

  function Length(n: nat): word {
    (n % 0x1_0000_0000_0000_0000) as word
  }

  class ShellHasher {
    var state: word
    var length: word

    constructor ()
      ensures state == SEED && length == 0
    {
      state, length := SEED, 0;
    }

    method MixIn(w: word)
      modifies this`state
      ensures state == Mix(old(state), w)
    {
      hide Scaled, Rotated, Xor;
      state := Xor(Rotated(state), Scaled(w));
    }

    method Write(bytes: seq<byte>)
      modifies this
      ensures state == Absorb(old(state), bytes)
      ensures length == old(length) + Length(|bytes|)
    {
      hide Mix, Block, ReadShortTail;
      length := length + Length(|bytes|);
      var rest := bytes;
      while |rest| >= 8
        invariant Absorb(state, rest) == Absorb(old(state), bytes)
        invariant length == old(length) + Length(|bytes|)
      {
        MixIn(Block(rest[..8]));
        rest := rest[8..];
      }
      if |rest| > 0 {
        MixIn(ReadShortTail(rest));
      }
    }

    function Hash(): word
      reads this
    {
      Finish(state, length)
    }
  }

  /** Different states stay different whatever they absorb. */
  lemma {:induction false} AbsorbInjectiveInState(a: word, b: word, s: seq<byte>)
    requires Absorb(a, s) == Absorb(b, s)
    ensures a == b
    decreases |s|
  {
    hide Mix, Block, ReadShortTail;
    if |s| >= 8 {
      var w := Block(s[..8]);
      AbsorbInjectiveInState(Mix(a, w), Mix(b, w), s[8..]);
      MixInjective(a, b, w, w);
    } else if s != [] {
      MixInjective(a, b, ReadShortTail(s), ReadShortTail(s));
    }
  }

  /** The keys agree everywhere but in the `k`-th 8-byte block (or in the tail, when that is
      where the `k`-th block would be). */
  predicate AgreeOutsideBlock(s: seq<byte>, t: seq<byte>, k: nat)
    requires |s| == |t|
  {
    forall i :: 0 <= i < |s| && !(8 * k <= i < 8 * k + 8) ==> s[i] == t[i]
  }

  lemma AbsorbsOneBlock(a: word, s: seq<byte>)
    requires |s| >= 8
    ensures Absorb(a, s) == Absorb(Mix(a, Block(s[..8])), s[8..])
  {
    hide Mix, Block;
  }

  lemma TailChangesState(a: word, s: seq<byte>, t: seq<byte>)
    requires |s| == |t| < 8 && s != t
    ensures Absorb(a, s) != Absorb(a, t)
  {
    hide Mix, ReadShortTail;
    if Absorb(a, s) == Absorb(a, t) {
      MixInjective(a, a, ReadShortTail(s), ReadShortTail(t));
      TailInjective(s, t);
    }
  }

  lemma FirstBlockChangesState(a: word, s: seq<byte>, t: seq<byte>)
    requires |s| == |t| >= 8 && s[8..] == t[8..] && s[..8] != t[..8]
    ensures Absorb(a, s) != Absorb(a, t)
  {
    hide Mix, Block, Absorb;
    AbsorbsOneBlock(a, s);
    AbsorbsOneBlock(a, t);
    if Absorb(a, s) == Absorb(a, t) {
      AbsorbInjectiveInState(Mix(a, Block(s[..8])), Mix(a, Block(t[..8])), s[8..]);
      MixInjective(a, a, Block(s[..8]), Block(t[..8]));
      BlockInjective(s[..8], t[..8]);
    }
  }

  lemma {:induction false} OneBlockChangesState(a: word, s: seq<byte>, t: seq<byte>, k: nat)
    requires |s| == |t| && s != t && AgreeOutsideBlock(s, t, k)
    ensures Absorb(a, s) != Absorb(a, t)
    decreases |s|
  {
    hide Mix, Block, Absorb;
    if |s| < 8 {
      TailChangesState(a, s, t);
    } else {
      assert s == s[..8] + s[8..] && t == t[..8] + t[8..];
      if k == 0 {
        assert forall i :: 0 <= i < |s| - 8 ==> s[8..][i] == s[i + 8] && t[8..][i] == t[i + 8];
        assert s[8..] == t[8..];
        FirstBlockChangesState(a, s, t);
      } else {
        assert s[..8] == t[..8];
        forall i | 0 <= i < |s| - 8 && !(8 * (k - 1) <= i < 8 * (k - 1) + 8) ensures s[8..][i] == t[8..][i] {
          assert s[i + 8] == t[i + 8];
        }
        AbsorbsOneBlock(a, s);
        AbsorbsOneBlock(a, t);
        OneBlockChangesState(Mix(a, Block(s[..8])), s[8..], t[8..], k - 1);
      }
    }
  }

  /** Two keys of the same length that differ in exactly one block, or in the tail, never
      collide, from any common earlier state. */
  lemma OneBlockNeverCollides(a: word, length: word, s: seq<byte>, t: seq<byte>, k: nat)
    requires |s| == |t| && s != t && AgreeOutsideBlock(s, t, k)
    ensures Finish(Absorb(a, s), length) != Finish(Absorb(a, t), length)
  {
    hide Finish, Absorb;
    OneBlockChangesState(a, s, t, k);
    if Finish(Absorb(a, s), length) == Finish(Absorb(a, t), length) {
      FinishInjective(Absorb(a, s), Absorb(a, t), length);
    }
  }

  /** Hence keys of the same length up to eight bytes never collide. */
  lemma ShortKeysNeverCollide(a: word, length: word, s: seq<byte>, t: seq<byte>)
    requires |s| == |t| <= 8 && s != t
    ensures Finish(Absorb(a, s), length) != Finish(Absorb(a, t), length)
  {
    OneBlockNeverCollides(a, length, s, t, 0);
  }

  /** One key hashed by a new hasher. */
  method HashKey(key: seq<byte>) returns (h: word)
    ensures h == Finish(Absorb(SEED, key), Length(|key|))
  {
    hide Absorb, Finish;
    var hasher := new ShellHasher();
    hasher.Write(key);
    h := hasher.Hash();
  }

  /** The length counts: one state finished with two lengths gives two values. */
  lemma LengthIsFoldedIn(state: word, m: word, n: word)
    requires Finish(state, m) == Finish(state, n)
    ensures m == n
  {
    hide ScaledA, ScaledB, Xor, Shift27, Shift30, Shift31, Finish;
    FinishIsSymmetric(state, m);
    FinishIsSymmetric(state, n);
    FinishInjective(m, n, state);
  }

  lemma FinishIsSymmetric(state: word, length: word)
    ensures Finish(state, length) == Finish(length, state)
  {
    assert Xor(state, length) == Xor(length, state);
  }

  lemma ShortKey(a: word, s: seq<byte>)
    requires 0 < |s| < 8
    ensures Absorb(a, s) == Mix(a, ReadShortTail(s))
  {
    hide Mix, ReadShortTail;
  }

  /** A zero byte at the end of a tail of four bytes or more does not change its word, so only the
      count of bytes keeps `PATH` and `PATH` with a zero byte apart; and it does. */
  lemma TrailingZeroIsCounted(a: word, s: seq<byte>, m: word, n: word)
    requires 4 <= |s| < 7 && m != n
    ensures Finish(Absorb(a, s + [0]), m) == Finish(Absorb(a, s), m)
    ensures Finish(Absorb(a, s + [0]), m) != Finish(Absorb(a, s), n)
  {
    hide Finish, Mix, ReadShortTail, Absorb;
    ZeroAddsNothing(s);
    ShortKey(a, s);
    ShortKey(a, s + [0]);
    if Finish(Absorb(a, s), m) == Finish(Absorb(a, s), n) {
      LengthIsFoldedIn(Absorb(a, s), m, n);
    }
  }

  lemma ZeroAddsNothing(s: seq<byte>)
    requires 4 <= |s| < 7
    ensures ReadShortTail(s + [0]) == ReadShortTail(s)
  {
    hide Widen, Overlap, Quad;
    var t := s + [0];
    assert Quad(t[0], t[1], t[2], t[3]) == Quad(s[0], s[1], s[2], s[3]);
    match |s|
    case 4 => ZeroAfterFour(s[0], s[1], s[2], s[3]);
    case 5 => ZeroAfterFive(s[0], s[1], s[2], s[3], s[4]);
    case 6 => ZeroAfterSix(s[0], s[1], s[2], s[3], s[4], s[5]);
  }

  lemma WidenZero()
    ensures Widen(0) == 0
  {
  }

  lemma FourThenZero(a: word, b: word, c: word, d: word)
    ensures Overlap(Four(a, b, c, d), Four(a, b, c, d), 0) == Overlap(Four(a, b, c, d), Four(b, c, d, 0), 1)
  {
  }

  lemma FiveThenZero(a: word, b: word, c: word, d: word, e: word)
    ensures Overlap(Four(a, b, c, d), Four(b, c, d, e), 1) == Overlap(Four(a, b, c, d), Four(c, d, e, 0), 2)
  {
  }

  lemma SixThenZero(a: word, b: word, c: word, d: word, e: word, f: word)
    ensures Overlap(Four(a, b, c, d), Four(c, d, e, f), 2) == Overlap(Four(a, b, c, d), Four(d, e, f, 0), 3)
  {
  }

  lemma ZeroAfterFour(a: byte, b: byte, c: byte, d: byte)
    ensures Overlap(Quad(a, b, c, d), Quad(a, b, c, d), 0) == Overlap(Quad(a, b, c, d), Quad(b, c, d, 0), 1)
  {
    hide Widen, Four, Overlap;
    WidenZero();
    FourThenZero(Widen(a), Widen(b), Widen(c), Widen(d));
  }

  lemma ZeroAfterFive(a: byte, b: byte, c: byte, d: byte, e: byte)
    ensures Overlap(Quad(a, b, c, d), Quad(b, c, d, e), 1) == Overlap(Quad(a, b, c, d), Quad(c, d, e, 0), 2)
  {
    hide Widen, Four, Overlap;
    WidenZero();
    FiveThenZero(Widen(a), Widen(b), Widen(c), Widen(d), Widen(e));
  }

  lemma ZeroAfterSix(a: byte, b: byte, c: byte, d: byte, e: byte, f: byte)
    ensures Overlap(Quad(a, b, c, d), Quad(c, d, e, f), 2) == Overlap(Quad(a, b, c, d), Quad(d, e, f, 0), 3)
  {
    hide Widen, Four, Overlap;
    WidenZero();
    SixThenZero(Widen(a), Widen(b), Widen(c), Widen(d), Widen(e), Widen(f));
  }

  /** The values for an empty key, a tail and a block, worked out by hand from the constants: they
      fix the constants, the seed and the order of the steps. */
  lemma EmptyKey()
    ensures Finish(Absorb(SEED, []), 0) == 0x8fbf_0996_1452_5106
  {
  }

  lemma KnownTail()
    ensures Finish(Absorb(SEED, [80, 65, 84, 72]), 4) == 0x8528_ec11_57b8_47e7
  {
    hide Quad, Overlap, Absorb, Finish, Mix;
    var path: seq<byte> := [80, 65, 84, 72];
    PathWord();
    ShortKey(SEED, path);
    PathFinished();
  }

  lemma PathFinished()
    ensures Finish(Mix(SEED, 0x4854_4150), 4) == 0x8528_ec11_57b8_47e7
  {
    assert Mix(SEED, 0x4854_4150) == 0xb118_a140_493c_6594;
  }

  lemma PathWord()
    ensures Overlap(Quad(80, 65, 84, 72), Quad(80, 65, 84, 72), 0) == 0x4854_4150
  {
  }

  lemma KnownBlock()
    ensures Finish(Absorb(SEED, [72, 79, 83, 84, 78, 65, 77, 69]), 8) == 0xce6a_bf0e_4ae2_aee4
  {
    hide Quad, Pair, Finish, Mix;
    var host: seq<byte> := [72, 79, 83, 84, 78, 65, 77, 69];
    assert host[..8] == host && host[8..] == [];
    HostnameWord();
    HostnameFinished();
  }

  lemma HostnameFinished()
    ensures Finish(Mix(SEED, 0x454d_414e_5453_4f48), 8) == 0xce6a_bf0e_4ae2_aee4
  {
    assert Mix(SEED, 0x454d_414e_5453_4f48) == 0xbca8_3f6f_dc2e_b2ec;
  }

  lemma HostnameWord()
    ensures Pair(Quad(72, 79, 83, 84), Quad(78, 65, 77, 69)) == 0x454d_414e_5453_4f48
  {
  }
}
