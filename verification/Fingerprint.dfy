/** Fingerprint words: `count` 5-bit fields sliced from key bytes, most significant bit first. */
module Fingerprint {
  import opened Prelude
  import opened Arith

  const MIN_BYTES: nat := 8

  /** The locked 32-word table, addressed by 5 bits. */
  const WORDS: seq<string> := [
    "ALFA", "BRAVO", "CHARLIE", "DELTA", "ECHO", "FOXTROT", "GOLF", "HOTEL", "INDIA", "JULIETT",
    "KILO", "LIMA", "MIKE", "NOVEMBER", "OSCAR", "PAPA", "QUEBEC", "ROMEO", "SIERRA", "TANGO",
    "UNIFORM", "VICTOR", "WHISKEY", "XRAY", "YANKEE", "ZULU", "ZERO", "WUN", "TOO", "TREE",
    "FOWER", "FIFE"]

  datatype FingerprintError = TooShort(got: nat, need: nat)

  // ----- Reference: the bitstream and its numeral --------------------------

  function Pow2(n: nat): (p: nat)
    ensures p >= 1
  {
    if n == 0 then 1 else 2 * Pow2(n - 1)
  }

  /** The bytes as one big-endian numeral. */
  function Numeral(bytes: seq<Byte>): nat {
    if bytes == [] then 0 else Numeral(bytes[..|bytes| - 1]) * 256 + bytes[|bytes| - 1]
  }

  /** The first `n` bits of the zero-extended big-endian bitstream, as a numeral. */
  function TopBits(bytes: seq<Byte>, n: nat): nat {
    MulNonNeg(Numeral(bytes), Pow2(n));
    Numeral(bytes) * Pow2(n) / Pow2(8 * |bytes|)
  }

  /** Digits base 32, most significant first, as one numeral. */
  function FromDigits(digits: seq<nat>): nat {
    if digits == [] then 0 else FromDigits(digits[..|digits| - 1]) * 32 + digits[|digits| - 1]
  }

  /** The 5-bit field at word index `i` of the zero-extended numeral. */
  function Field(bytes: seq<Byte>, i: nat): nat { TopBits(bytes, 5 * (i + 1)) % 32 }

  function Fields(bytes: seq<Byte>, count: nat): seq<nat> { seq(count, i requires i >= 0 => Field(bytes, i)) }

  /** The words of the first `count` fields. */
  function Words(bytes: seq<Byte>, count: nat): seq<string> {
    seq(count, i requires i >= 0 => WORDS[Field(bytes, i)])
  }

  // ----- The loop ----------------------------------------------------------

  function ByteAt(bytes: seq<Byte>, i: nat): Byte { if i < |bytes| then bytes[i] else 0 }

  /** Word indices from the two-byte window, or an error for fewer than eight bytes. The shifts and
      masks are written as the divisions and remainders they are on non-negative integers. */
  method WordsFromBytes(bytes: seq<Byte>, count: nat) returns (r: Result<seq<string>, FingerprintError>)
    ensures r.Err? <==> |bytes| < MIN_BYTES
    ensures r.Err? ==> r.error == TooShort(|bytes|, MIN_BYTES)
    ensures r.Ok? ==> r.value == Words(bytes, count)
  {
    if |bytes| < MIN_BYTES {
      return Err(TooShort(|bytes|, MIN_BYTES));
    }
    var out: seq<string> := [];
    for i := 0 to count
      invariant out == Words(bytes, i)
    {
      var bitOffset := i * 5;
      var byteIdx := bitOffset / 8;
      var off := bitOffset % 8;
      var hi: nat := ByteAt(bytes, byteIdx);
      var lo: nat := ByteAt(bytes, byteIdx + 1);
      var combined := hi * 256 + lo;
      var idx := (combined / Pow2(11 - off)) % 32;
      WindowIsField(bytes, i);
      out := out + [WORDS[idx]];
    }
    return Ok(out);
  }

  // ----- Arithmetic of powers ---------------------------------------------

  lemma {:induction false} Pow2Add(a: nat, b: nat)
    ensures Pow2(a + b) == Pow2(a) * Pow2(b)
    decreases a
  {
    if a > 0 {
      Pow2Add(a - 1, b);
      assert Pow2(a + b) == 2 * Pow2(a - 1 + b);
    }
  }

  // ----- The window is the field -------------------------------------------

  lemma {:induction false} NumeralBound(bytes: seq<Byte>)
    ensures Numeral(bytes) < Pow2(8 * |bytes|)
  {
    if bytes != [] {
      NumeralBound(bytes[..|bytes| - 1]);
      Pow2Add(8, 8 * (|bytes| - 1));
      assert Pow2(8) == 256;
    }
  }

  /** Whole bytes off the top: the first `8 k` bits are the numeral of the first `k` bytes. */
  lemma {:induction false} TopBytes(bytes: seq<Byte>, k: nat)
    requires k <= |bytes|
    ensures TopBits(bytes, 8 * k) == Numeral(bytes[..k])
    decreases |bytes| - k
  {
    var n := |bytes|;
    if k == n {
      assert bytes[..k] == bytes;
      DivUnique(Numeral(bytes) * Pow2(8 * n), Numeral(bytes), 0, Pow2(8 * n));
    } else {
      TopBytes(bytes, k + 1);
      TopShift(bytes, 8 * k, 8);
      assert Pow2(8) == 256;
      assert bytes[..k + 1][..k] == bytes[..k];
      DivUnique(Numeral(bytes[..k + 1]), Numeral(bytes[..k]), bytes[k], 256);
    }
  }

  /** Fewer bits are the quotient of more bits. */
  lemma TopShift(bytes: seq<Byte>, n: nat, m: nat)
    ensures TopBits(bytes, n) == TopBits(bytes, n + m) / Pow2(m)
  {
    var x, d := Numeral(bytes), Pow2(8 * |bytes|);
    Pow2Add(n, m);
    MulAssoc(x, Pow2(n), Pow2(m));
    MulNonNeg(x, Pow2(n));
    MulNonNeg(x, Pow2(n + m));
    DivDiv(x * Pow2(n + m), d, Pow2(m));
    CancelFactor(x * Pow2(n), Pow2(m), d);
  }

  /** Bits past the end are zeros. */
  lemma TopPastEnd(bytes: seq<Byte>, m: nat)
    ensures TopBits(bytes, 8 * |bytes| + m) == Numeral(bytes) * Pow2(m)
  {
    var x, d := Numeral(bytes), Pow2(8 * |bytes|);
    Pow2Add(m, 8 * |bytes|);
    MulAssoc(x, Pow2(m), d);
    MulDiv(x * Pow2(m), d);
  }

  /** One more byte of the zero-extended stream. */
  lemma TopByteStep(bytes: seq<Byte>, k: nat)
    ensures TopBits(bytes, 8 * (k + 1)) == TopBits(bytes, 8 * k) * 256 + ByteAt(bytes, k)
  {
    if k < |bytes| {
      TopBytes(bytes, k);
      TopBytes(bytes, k + 1);
      assert bytes[..k + 1][..k] == bytes[..k];
    } else {
      var m := 8 * (k - |bytes|);
      TopPastEnd(bytes, m);
      TopPastEnd(bytes, m + 8);
      Pow2Add(m, 8);
      assert Pow2(8) == 256;
      assert 8 * |bytes| + m == 8 * k && 8 * |bytes| + (m + 8) == 8 * (k + 1);
    }
  }

  /** The source's shift-and-mask of the two-byte window is the 5-bit field of the numeral. */
  lemma WindowIsField(bytes: seq<Byte>, i: nat)
    ensures var k, off := i * 5 / 8, i * 5 % 8;
            Field(bytes, i) == ((ByteAt(bytes, k) * 256 + ByteAt(bytes, k + 1)) / Pow2(11 - off)) % 32
    ensures Field(bytes, i) < 32
  {
    var k, off := i * 5 / 8, i * 5 % 8;
    var w: nat := ByteAt(bytes, k) * 256 + ByteAt(bytes, k + 1);
    TopByteStep(bytes, k);
    TopByteStep(bytes, k + 1);
    assert 5 * (i + 1) + (11 - off) == 8 * (k + 2);
    TopShift(bytes, 5 * (i + 1), 11 - off);
    WindowSplit(TopBits(bytes, 8 * k), w, off);
  }

  /** The bits above a 16-bit window do not reach the 5-bit field inside it. */
  lemma WindowSplit(top: nat, w: nat, off: nat)
    requires off < 8
    ensures ((top * 65536 + w) / Pow2(11 - off)) % 32 == (w / Pow2(11 - off)) % 32
  {
    Pow2Add(11 - off, 5 + off);
    Pow2Add(off, 5);
    assert Pow2(5) == 32;
    assert Pow2(16) == 65536 by { Pow2Add(8, 8); assert Pow2(8) == 256; }
    MaskSplit(top, w, Pow2(11 - off), Pow2(off));
  }

  lemma MaskSplit(top: nat, w: nat, p: nat, u: nat)
    requires p > 0 && p * (u * 32) == 65536
    ensures ((top * 65536 + w) / p) % 32 == (w / p) % 32
  {
    var q := top * u * 32;
    MulAssoc(top, u, 32);
    MulAssoc(top, u * 32, p);
    assert (u * 32) * p == p * (u * 32);
    SplitQuotient(q, w, p);
    SplitQuotient(top * u, w / p, 32);
  }

  // ----- What the words determine ------------------------------------------

  /** The fields put back together are the first `5 * count` bits of the stream. */
  lemma {:induction false} FieldsReassemble(bytes: seq<Byte>, count: nat)
    ensures FromDigits(Fields(bytes, count)) == TopBits(bytes, 5 * count)
  {
    NumeralBound(bytes);
    if count == 0 {
      assert Fields(bytes, 0) == [];
      DivUnique(Numeral(bytes), 0, Numeral(bytes), Pow2(8 * |bytes|));
    } else {
      FieldsReassemble(bytes, count - 1);
      var fs := Fields(bytes, count);
      assert fs[..count - 1] == Fields(bytes, count - 1);
      TopShift(bytes, 5 * (count - 1), 5);
      assert Pow2(5) == 32;
    }
  }

  /** The table spells 32 different words: each can be read back. */
  lemma WordsDistinct(i: nat, j: nat)
    requires i < 32 && j < 32 && WORDS[i] == WORDS[j]
    ensures i == j
  {
    SpelledLow(i);
    SpelledLow(j);
    SpelledHigh(i);
    SpelledHigh(j);
  }

  /** Reads a word's table index back from its first letters. */
  function SpelledAt(w: string): int
    requires |w| >= 3
  {
    if w[0] == 'Z' && w[1] == 'E' then 26
    else if w[0] == 'W' && w[1] == 'U' then 27
    else if w[0] == 'T' && w[1] == 'O' then 28
    else if w[0] == 'T' && w[1] == 'R' then 29
    else if w[0] == 'F' && w[2] == 'W' then 30
    else if w[0] == 'F' && w[1] == 'I' then 31
    else w[0] as int - 'A' as int
  }

  lemma SpelledLow(i: nat)
    requires i < 32
    ensures i < 16 ==> |WORDS[i]| >= 3 && SpelledAt(WORDS[i]) == i
  {}

  lemma SpelledHigh(i: nat)
    requires i < 32
    ensures i >= 16 ==> |WORDS[i]| >= 3 && SpelledAt(WORDS[i]) == i
  {}

  /** Fewer words are a prefix of more words. */
  lemma FewerWordsArePrefix(bytes: seq<Byte>, few: nat, many: nat)
    requires few <= many
    ensures Words(bytes, few) == Words(bytes, many)[..few]
  {}

  /** Whether `count` words tell any two keys of `n` bytes apart. */
  ghost predicate Separates(n: nat, count: nat) {
    forall a: seq<Byte>, b: seq<Byte> :: |a| == n && |b| == n && Words(a, count) == Words(b, count) ==> a == b
  }

  /** Words tell the keys of one length apart exactly when they cover every bit of them. */
  lemma WordsSeparateKeys(n: nat, count: nat)
    ensures Separates(n, count) <==> 5 * count >= 8 * n
  {
    if 5 * count >= 8 * n {
      forall a: seq<Byte>, b: seq<Byte> | |a| == n && |b| == n && Words(a, count) == Words(b, count) ensures a == b {
        WordsDetermineBytes(a, b, count);
      }
    } else {
      LastBitUnseen(n, count);
    }
  }

  lemma WordsDetermineBytes(a: seq<Byte>, b: seq<Byte>, count: nat)
    requires |a| == |b| && 5 * count >= 8 * |a| && Words(a, count) == Words(b, count)
    ensures a == b
  {
    forall i: nat | i < count ensures Field(a, i) == Field(b, i) {
      assert Words(a, count)[i] == Words(b, count)[i];
      WordsDistinct(Field(a, i), Field(b, i));
    }
    assert Fields(a, count) == Fields(b, count);
    FieldsReassemble(a, count);
    FieldsReassemble(b, count);
    var m := 5 * count - 8 * |a|;
    TopPastEnd(a, m);
    TopPastEnd(b, m);
    CancelEqual(Numeral(a), Numeral(b), Pow2(m));
    NumeralInjective(a, b);
  }

  /** Two keys that differ only in their last bit share every word that stops short of it. */
  lemma LastBitUnseen(n: nat, count: nat)
    requires 5 * count < 8 * n
    ensures exists a: seq<Byte>, b: seq<Byte> ::
              |a| == n && |b| == n && a != b && Words(a, count) == Words(b, count)
  {
    var a: seq<Byte> := Zeros(n - 1) + [0];
    var b: seq<Byte> := Zeros(n - 1) + [1];
    assert a[..n - 1] == Zeros(n - 1) == b[..n - 1];
    ZerosNumeral(n - 1);
    assert Numeral(a) == 0 && Numeral(b) == 1;
    forall i: nat | i < count ensures Field(a, i) == Field(b, i) {
      Pow2Grows(5 * (i + 1), 8 * n - 5 * (i + 1));
      DivUnique(Pow2(5 * (i + 1)), 0, Pow2(5 * (i + 1)), Pow2(8 * n));
      DivUnique(0, 0, 0, Pow2(8 * n));
      assert TopBits(a, 5 * (i + 1)) == 0 == TopBits(b, 5 * (i + 1));
    }
    assert Words(a, count) == Words(b, count);
    assert a[n - 1] != b[n - 1];
  }

  function Zeros(n: nat): (z: seq<Byte>)
    ensures |z| == n
  {
    if n == 0 then [] else Zeros(n - 1) + [0]
  }

  lemma {:induction false} ZerosNumeral(n: nat)
    ensures Numeral(Zeros(n)) == 0
  {
    if n > 0 {
      ZerosNumeral(n - 1);
      assert Zeros(n)[..n - 1] == Zeros(n - 1);
    }
  }

  lemma {:induction false} Pow2Grows(a: nat, k: nat)
    requires k > 0
    ensures Pow2(a) < Pow2(a + k)
    decreases k
  {
    if k > 1 { Pow2Grows(a, k - 1); }
  }

  lemma {:induction false} NumeralInjective(a: seq<Byte>, b: seq<Byte>)
    requires |a| == |b| && Numeral(a) == Numeral(b)
    ensures a == b
  {
    if a != [] {
      var a', b' := a[..|a| - 1], b[..|b| - 1];
      NumeralInjective(a', b');
      assert a == a' + [a[|a| - 1]] && b == b' + [b[|b| - 1]];
    }
  }
}
