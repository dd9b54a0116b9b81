/**
  The byte keys of the state store: family prefixes, 16-byte counters, and the agreement of byte order with
  numeric order.
 */
module StateKeys {
  import opened Prelude
  import opened Bytes
  import opened Lexicographic

  type Id = s: seq<byte> | |s| == 16 witness seq(16, _ => 0)

  // ---------- Families of keys ----------

  datatype Family = LastSeenBlockHeight | MissingBlocksCounter | MissingBlocks | MissingEventsCounter | MissingEvents | MissingEventsIndex

  function FamilyName(f: Family): string {
    match f
    case LastSeenBlockHeight => "last_seen_block_height"
    case MissingBlocksCounter => "id_counter_missing_blocks"
    case MissingBlocks => "missing_blocks_"
    case MissingEventsCounter => "id_counter_missing_events"
    case MissingEvents => "missing_events_"
    case MissingEventsIndex => "index_missing_events_"
  }

  function Ascii(s: string): (bs: seq<byte>)
    ensures |bs| == |s|
  {
    seq(|s|, i requires 0 <= i < |s| => s[i] as int % 256)
  }

  function Prefix(f: Family): seq<byte> { Ascii(FamilyName(f)) }

  function Key(f: Family, suffix: seq<byte>): seq<byte> { Prefix(f) + suffix }

  /** A position at which the names of two different families differ. */
  function Difference(f: Family, g: Family): nat {
    var a, b := FamilyName(f), FamilyName(g);
    if a[0] != b[0] then 0 else if a[1] != b[1] then 1 else if a[8] != b[8] then 8 else 19
  }

  /** The letters that tell the family names apart. */
  lemma Letters(f: Family)
    ensures
      var n := FamilyName(f);
      |n| >= 15 &&
      match f
      case LastSeenBlockHeight => n[0] == 'l'
      case MissingBlocksCounter => |n| == 25 && n[0] == 'i' && n[1] == 'd' && n[8] == 'e' && n[19] == 'b'
      case MissingBlocks => n[0] == 'm' && n[1] == 'i' && n[8] == 'b'
      case MissingEventsCounter => |n| == 25 && n[0] == 'i' && n[1] == 'd' && n[8] == 'e' && n[19] == 'e'
      case MissingEvents => n[0] == 'm' && n[1] == 'i' && n[8] == 'e'
      case MissingEventsIndex => n[0] == 'i' && n[1] == 'n'
  {
  }

  lemma NamesDiffer(f: Family, g: Family)
    requires f != g
    ensures
      var i := Difference(f, g);
      i < |FamilyName(f)| && i < |FamilyName(g)| && FamilyName(f)[i] != FamilyName(g)[i] &&
      FamilyName(f)[i] < 128 as char && FamilyName(g)[i] < 128 as char
  {
    Letters(f);
    Letters(g);
  }

  lemma DifferingNames(a: string, x: seq<byte>, b: string, y: seq<byte>, i: nat)
    requires i < |a| && i < |b| && a[i] != b[i] && a[i] < 128 as char && b[i] < 128 as char
    ensures Ascii(a) + x != Ascii(b) + y
  {
    assert (Ascii(a) + x)[i] == a[i] as int && (Ascii(b) + y)[i] == b[i] as int;
  }

  /** Keys of different families are never equal, whatever their suffixes. */
  lemma FamiliesNeverCollide(f: Family, x: seq<byte>, g: Family, y: seq<byte>)
    requires f != g
    ensures Key(f, x) != Key(g, y)
  {
    NamesDiffer(f, g);
    DifferingNames(FamilyName(f), x, FamilyName(g), y, Difference(f, g));
  }

  lemma KeyInjective(f: Family, x: seq<byte>, y: seq<byte>)
    ensures Key(f, x) == Key(f, y) ==> x == y
  {
    assert Key(f, x)[|Prefix(f)|..] == x && Key(f, y)[|Prefix(f)|..] == y;
  }

  // ---------- Numbers, most significant byte first ----------

  function BigEndian(s: seq<byte>): (n: nat)
    ensures n < Pow256(|s|)
  {
    if s == [] then 0 else 256 * BigEndian(s[..|s| - 1]) + s[|s| - 1]
  }

  /** The width lowest bytes of n, most significant first. */
  function ToBigEndian(n: nat, width: nat): (bs: seq<byte>)
    ensures |bs| == width
  {
    if width == 0 then [] else ToBigEndian(n / 256, width - 1) + [n % 256]
  }

  lemma {:induction false} BigEndianRoundTrip(n: nat, width: nat)
    requires n < Pow256(width)
    ensures BigEndian(ToBigEndian(n, width)) == n
  {
    if width > 0 {
      BigEndianRoundTrip(n / 256, width - 1);
      assert ToBigEndian(n, width)[..width - 1] == ToBigEndian(n / 256, width - 1);
    }
  }

  /** Two numbers written with one more digit: the leading part decides, then the digit. */
  lemma LastDigit(a: seq<byte>, b: seq<byte>, n: nat)
    requires |a| == |b| == n + 1
    ensures BigEndian(a) == BigEndian(b) <==> BigEndian(a[..n]) == BigEndian(b[..n]) && a[n] == b[n]
    ensures BigEndian(a) < BigEndian(b) <==>
            BigEndian(a[..n]) < BigEndian(b[..n]) || (BigEndian(a[..n]) == BigEndian(b[..n]) && a[n] < b[n])
  {
    LastDigitDecides(BigEndian(a[..n]), a[n], BigEndian(b[..n]), b[n]);
  }

  lemma LastDigitDecides(x: nat, d: byte, y: nat, e: byte)
    ensures 256 * x + d == 256 * y + e <==> x == y && d == e
    ensures 256 * x + d < 256 * y + e <==> x < y || (x == y && d < e)
  {
  }

  lemma {:induction false} BigEndianInjective(a: seq<byte>, b: seq<byte>)
    requires |a| == |b| && BigEndian(a) == BigEndian(b)
    ensures a == b
    decreases |a|
  {
    if a != [] {
      var n := |a| - 1;
      LastDigit(a, b, n);
      BigEndianInjective(a[..n], b[..n]);
      assert a == a[..n] + [a[n]] && b == b[..n] + [b[n]];
    }
  }

  function ByteCode(x: byte): int { x }

  /** How the database orders keys. */
  predicate ByteOrder(a: seq<byte>, b: seq<byte>) { LexLess(a, b, ByteCode) }

  lemma ByteOrderIsStrict()
    ensures Strict(ByteOrder)
  {
    forall a, b | ByteOrder(a, b) ensures !ByteOrder(b, a) { LexAsymmetric(a, b, ByteCode); }
    forall a, b, c | ByteOrder(a, b) && ByteOrder(b, c) ensures ByteOrder(a, c) { LexTransitive(a, b, c, ByteCode); }
    forall a, b ensures a == b || ByteOrder(a, b) || ByteOrder(b, a) { LexTotal(a, b, ByteCode); }
  }

  lemma {:induction false} FirstDifferenceDecides(a: seq<byte>, b: seq<byte>, i: nat)
    requires |a| == |b| && i < |a| && a[..i] == b[..i] && a[i] < b[i]
    ensures BigEndian(a) < BigEndian(b)
    decreases |a|
  {
    var n := |a| - 1;
    LastDigit(a, b, n);
    if i < n {
      assert a[..n][..i] == a[..i] && b[..n][..i] == b[..i];
      FirstDifferenceDecides(a[..n], b[..n], i);
    }
  }

  lemma UpwardIsLess(a: seq<byte>, b: seq<byte>)
    requires |a| == |b| && ByteOrder(a, b)
    ensures BigEndian(a) < BigEndian(b)
  {
    LexIsFirstDifference(a, b, ByteCode);
    var i :| 0 <= i < |a| && a[..i] == b[..i] && ByteCode(a[i]) < ByteCode(b[i]);
    FirstDifferenceDecides(a, b, i);
  }

  /** Iterating in byte order is iterating in numeric order, for keys of one length. */
  lemma ByteOrderIsNumericOrder(a: seq<byte>, b: seq<byte>)
    requires |a| == |b|
    ensures ByteOrder(a, b) <==> BigEndian(a) < BigEndian(b)
  {
    LexTotal(a, b, ByteCode);
    if ByteOrder(a, b) {
      UpwardIsLess(a, b);
    } else if ByteOrder(b, a) {
      UpwardIsLess(b, a);
    }
  }

  /** A carry: one digit goes up and the run of 255s after it becomes zeros. */
  lemma {:induction false} CarryAddsOne(cur: seq<byte>, next: seq<byte>, i: nat)
    requires |cur| == |next| && i < |cur| && cur[i] < 255 && next[i] == cur[i] + 1
    requires forall k :: 0 <= k < i ==> next[k] == cur[k]
    requires forall k :: i < k < |cur| ==> next[k] == 0 && cur[k] == 255
    ensures BigEndian(next) == BigEndian(cur) + 1
  {
    var n := |cur| - 1;
    if i == n {
      assert next[..n] == cur[..n];
    } else {
      CarryAddsOne(cur[..n], next[..n], i);
    }
  }

  lemma {:induction false} AllNinesWrap(cur: seq<byte>, zeros: seq<byte>)
    requires |cur| == |zeros| && forall k :: 0 <= k < |cur| ==> cur[k] == 255 && zeros[k] == 0
    ensures BigEndian(cur) + 1 == Pow256(|cur|) && BigEndian(zeros) == 0
  {
    if cur != [] {
      var n := |cur| - 1;
      AllNinesWrap(cur[..n], zeros[..n]);
    }
  }

  /** Counting up by one: the last digit that is not 255 goes up, the digits after it become zero. */
  function Successor(s: seq<byte>): (r: seq<byte>)
    ensures |r| == |s|
  {
    if s == [] then []
    else if s[|s| - 1] == 255 then Successor(s[..|s| - 1]) + [0]
    else s[..|s| - 1] + [s[|s| - 1] + 1]
  }

  /** The successor is one more, modulo 256 to the length. */
  lemma {:induction false} SuccessorAddsOne(s: seq<byte>)
    ensures BigEndian(Successor(s)) == if BigEndian(s) + 1 == Pow256(|s|) then 0 else BigEndian(s) + 1
  {
    if s != [] {
      var n := |s| - 1;
      SuccessorAddsOne(s[..n]);
      assert Successor(s)[..n] == if s[n] == 255 then Successor(s[..n]) else s[..n];
    }
  }

  lemma CarriedIsSuccessor(cur: Id, next: Id, i: nat)
    requires i < 16 && cur[i] < 255 && next[i] == cur[i] + 1
    requires forall k :: 0 <= k < i ==> next[k] == cur[k]
    requires forall k :: i < k < 16 ==> next[k] == 0 && cur[k] == 255
    ensures next == Successor(cur)
  {
    CarryAddsOne(cur, next, i);
    SuccessorAddsOne(cur);
    BigEndianInjective(next, Successor(cur));
  }

  lemma WrappedIsSuccessor(cur: Id, zeros: Id)
    requires forall k :: 0 <= k < 16 ==> cur[k] == 255 && zeros[k] == 0
    ensures zeros == Successor(cur)
  {
    AllNinesWrap(cur, zeros);
    SuccessorAddsOne(cur);
    BigEndianInjective(zeros, Successor(cur));
  }

  /** The code's way to the successor of a 16-byte counter: in place, from the last digit. */
  method GetNextKey(currentKey: Id) returns (next: Id)
    ensures next == Successor(currentKey)
  {
    var nextKey := new byte[16](k requires 0 <= k < 16 => currentKey[k]);
    var i := 15;
    while i >= 0
      invariant -1 <= i <= 15
      invariant forall k :: 0 <= k <= i ==> nextKey[k] == currentKey[k]
      invariant forall k :: i < k < 16 ==> nextKey[k] == 0 && currentKey[k] == 255
    {
      if nextKey[i] == 255 {
        for j := i to 16
          invariant forall k :: 0 <= k < i ==> nextKey[k] == currentKey[k]
          invariant forall k :: i <= k < j ==> nextKey[k] == 0
        {
          nextKey[j] := 0;
        }
        i := i - 1;
        continue;
      }
      nextKey[i] := nextKey[i] + 1;
      next := nextKey[..];
      CarriedIsSuccessor(currentKey, next, i);
      return;
    }
    next := seq(16, _ => 0);
    WrappedIsSuccessor(currentKey, next);
  }
}
