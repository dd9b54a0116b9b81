/** The keys of the agent's disk queue: 64-digit binary strings, in the order of the numbers they encode. */
module BinaryKeys {
  import opened Prelude
  import KeyedTree
  import opened Lexicographic

  type u64 = n: nat | n < 0x1_0000_0000_0000_0000

  // ---------- Keys ----------

  function Pow2(n: nat): (r: nat)
    ensures r > 0
  {
    if n == 0 then 1 else 2 * Pow2(n - 1)
  }

  /** The width lowest binary digits, most significant first. */
  function Binary(n: nat, width: nat): (s: string)
    ensures |s| == width
  {
    if width == 0 then "" else Binary(n / 2, width - 1) + [if n % 2 == 1 then '1' else '0']
  }

  predicate IsBinary(s: string) { forall i :: 0 <= i < |s| ==> s[i] == '0' || s[i] == '1' }

  function Value(s: string): nat {
    if s == [] then 0 else 2 * Value(s[..|s| - 1]) + if s[|s| - 1] == '1' then 1 else 0
  }

  const KEY_DIGITS: nat := 64

  function EncodeKey(key: nat): string { Binary(key, KEY_DIGITS) }

  /** Parsing in radix 2: an optional plus sign, then at least one digit, within 64 bits. */
  function DecodeKey(key: string): Option<u64> {
    var digits := if key != [] && key[0] == '+' then key[1..] else key;
    if digits == [] || !IsBinary(digits) || Value(digits) >= 0x1_0000_0000_0000_0000 then None
    else Some(Value(digits))
  }

  lemma {:induction false} BinaryValue(n: nat, width: nat)
    requires n < Pow2(width)
    ensures IsBinary(Binary(n, width)) && Value(Binary(n, width)) == n
  {
    if width > 0 {
      BinaryValue(n / 2, width - 1);
      var s := Binary(n, width);
      assert s[..width - 1] == Binary(n / 2, width - 1);
    }
  }

  lemma {:induction false} Pow2Add(a: nat, b: nat)
    ensures Pow2(a + b) == Pow2(a) * Pow2(b)
  {
    if a > 0 {
      Pow2Add(a - 1, b);
      assert 2 * Pow2(a - 1) * Pow2(b) == 2 * (Pow2(a - 1) * Pow2(b));
    }
  }

  lemma Pow2Doubles(n: nat, v: nat)
    requires Pow2(n) == v
    ensures Pow2(2 * n) == v * v
  {
    Pow2Add(n, n);
  }

  lemma Pow2Of64()
    ensures Pow2(KEY_DIGITS) == 0x1_0000_0000_0000_0000
  {
    assert Pow2(4) == 0x10;
    Pow2Doubles(4, 0x10);
    Pow2Doubles(8, 0x100);
    Pow2Doubles(16, 0x1_0000);
    Pow2Doubles(32, 0x1_0000_0000);
  }

  /** Decoding undoes encoding. */
  lemma KeyRoundTrip(key: u64)
    ensures DecodeKey(EncodeKey(key)) == Some(key) && Value(EncodeKey(key)) == key
  {
    Pow2Of64();
    BinaryValue(key, KEY_DIGITS);
    assert EncodeKey(key)[0] in ['0', '1'];
  }

  function CharCode(c: char): int { c as int }

  /** How the tree orders keys. */
  predicate KeyLess(a: string, b: string) { LexLess(a, b, CharCode) }

  lemma KeyLessIsStrict()
    ensures Strict(KeyLess)
  {
    forall a, b | KeyLess(a, b) ensures !KeyLess(b, a) { LexAsymmetric(a, b, CharCode); }
    forall a, b, c | KeyLess(a, b) && KeyLess(b, c) ensures KeyLess(a, c) { LexTransitive(a, b, c, CharCode); }
    forall a, b ensures a == b || KeyLess(a, b) || KeyLess(b, a) { LexTotal(a, b, CharCode); }
  }

  lemma {:induction false} FirstDifference(a: string, b: string, i: nat)
    requires |a| == |b| && IsBinary(a) && IsBinary(b) && i < |a| && a[..i] == b[..i] && a[i] < b[i]
    ensures Value(a) < Value(b)
  {
    var n := |a| - 1;
    if i < n {
      assert a[..n][..i] == a[..i] && b[..n][..i] == b[..i];
      FirstDifference(a[..n], b[..n], i);
    } else {
      assert a[..n] == b[..n] && a[n] == '0' && b[n] == '1';
    }
  }

  lemma LessIsLess(a: string, b: string)
    requires |a| == |b| && IsBinary(a) && IsBinary(b) && KeyLess(a, b)
    ensures Value(a) < Value(b)
  {
    LexIsFirstDifference(a, b, CharCode);
    var i :| 0 <= i < |a| && a[..i] == b[..i] && CharCode(a[i]) < CharCode(b[i]);
    FirstDifference(a, b, i);
  }

  lemma {:induction false} ValueInjective(a: string, b: string)
    requires |a| == |b| && IsBinary(a) && IsBinary(b) && Value(a) == Value(b)
    ensures a == b
  {
    if a != [] {
      var n := |a| - 1;
      ValueInjective(a[..n], b[..n]);
      assert a == a[..n] + [a[n]] && b == b[..n] + [b[n]];
    }
  }

  /** The tree's order on encoded keys is the numeric order. */
  lemma KeyOrder(a: nat, b: nat)
    requires a < 0x1_0000_0000_0000_0000 && b < 0x1_0000_0000_0000_0000
    ensures KeyLess(EncodeKey(a), EncodeKey(b)) <==> a < b
  {
    Pow2Of64();
    BinaryValue(a, KEY_DIGITS);
    BinaryValue(b, KEY_DIGITS);
    LexTotal(EncodeKey(a), EncodeKey(b), CharCode);
    if KeyLess(EncodeKey(a), EncodeKey(b)) {
      LessIsLess(EncodeKey(a), EncodeKey(b));
    } else if KeyLess(EncodeKey(b), EncodeKey(a)) {
      LessIsLess(EncodeKey(b), EncodeKey(a));
    }
  }

  /** The codec the queue's tree is keyed by. */
  function Codec(): (c: KeyedTree.KeyCodec)
    ensures KeyedTree.Faithful(c, 0x1_0000_0000_0000_0000)
  {
    KeyLessIsStrict();
    forall k: nat | k < 0x1_0000_0000_0000_0000 ensures Value(EncodeKey(k)) == k { KeyRoundTrip(k); }
    forall j: nat, k: nat | j < 0x1_0000_0000_0000_0000 && k < 0x1_0000_0000_0000_0000
      ensures KeyLess(EncodeKey(j), EncodeKey(k)) <==> j < k
    {
      KeyOrder(j, k);
    }
    KeyedTree.KeyCodec(EncodeKey, Value, KeyLess)
  }
}
