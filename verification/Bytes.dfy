/** Byte strings, little-endian integers and 4-byte alignment, as netlink lays them out. */
module Bytes {
  type Byte = x: int | 0 <= x < 0x100
  type U16 = x: int | 0 <= x < 0x1_0000
  type U32 = x: int | 0 <= x < 0x1_0000_0000

  datatype Option<+T> = None | Some(value: T)

  function Zeros(n: nat): (s: seq<Byte>)
    ensures |s| == n
    ensures forall i :: 0 <= i < n ==> s[i] == 0
  {
    seq(n, _ => 0)
  }

  /** NLA_ALIGN: the least multiple of 4 that is at least n. */
  function Align4(n: nat): (r: nat)
    ensures n <= r < n + 4 && r % 4 == 0
  {
    (n + 3) / 4 * 4
  }

  lemma AlignAdd(a: nat, b: nat)
    requires a % 4 == 0
    ensures Align4(a + b) == a + Align4(b)
  {
  }

  lemma SliceOfDrop<T>(s: seq<T>, a: nat, i: nat, j: nat)
    requires i <= j && a + j <= |s|
    ensures s[a..][i..j] == s[a + i..a + j] && s[a..][j..] == s[a + j..]
  {
  }

  /** vector::resize with zero fill. */
  function Resize(s: seq<Byte>, n: nat): (r: seq<Byte>)
    ensures |r| == n
  {
    if n <= |s| then s[..n] else s + Zeros(n - |s|)
  }

  // ----- little-endian integers of any width -----

  function Pow256(width: nat): (p: nat)
    ensures p > 0
  {
    if width == 0 then 1 else 256 * Pow256(width - 1)
  }

  /** The low `width` bytes of n: what storing n through a width-byte pointer writes. */
  function LE(n: nat, width: nat): (b: seq<Byte>)
    ensures |b| == width
  {
    if width == 0 then [] else [n % 256] + LE(n / 256, width - 1)
  }

  function FromLE(b: seq<Byte>): nat {
    if b == [] then 0 else b[0] + 256 * FromLE(b[1..])
  }

  lemma {:induction false} FromLEBound(b: seq<Byte>)
    ensures FromLE(b) < Pow256(|b|)
  {
    if b != [] {
      FromLEBound(b[1..]);
    }
  }

  lemma {:induction false} FromLEofLE(n: nat, width: nat)
    requires n < Pow256(width)
    ensures FromLE(LE(n, width)) == n
  {
    if width > 0 {
      FromLEofLE(n / 256, width - 1);
    }
  }

  /** Little-endian means that the i-th byte counts 256^i: one more byte counts 256 to the number of those before. */
  lemma {:induction false} FromLESnoc(b: seq<Byte>, x: Byte)
    ensures FromLE([]) == 0 && FromLE(b + [x]) == FromLE(b) + x * Pow256(|b|)
  {
    if b == [] {
      assert b + [x] == [x] && [x][1..] == [] && Pow256(0) == 1;
    } else {
      assert (b + [x])[0] == b[0] && (b + [x])[1..] == b[1..] + [x];
      FromLESnoc(b[1..], x);
      var y: int, p := x, Pow256(|b| - 1);
      assert 256 * (y * p) == y * (256 * p);
    }
  }

  /** A 32-bit integer is stored with its low byte first. */
  lemma LEBytes(n: U32)
    ensures LE(n, 4) == [n % 256, n / 256 % 256, n / 0x1_0000 % 256, n / 0x100_0000] == U32Bytes(n)
  {
    var a, b, c := n / 256, n / 0x1_0000, n / 0x100_0000;
    assert a / 256 == b && b / 256 == c && c < 256;
    assert LE(c, 1) == [c] + LE(c / 256, 0) == [c];
    assert LE(b, 2) == [b % 256] + LE(c, 1);
    assert LE(a, 3) == [a % 256] + LE(b, 2);
  }

  // ----- fixed-width fields inside a buffer -----

  function GetU16(s: seq<Byte>, off: nat): U16
    requires off + 2 <= |s|
  {
    s[off] + 256 * (s[off + 1] as int)
  }

  lemma LowBytes(v: nat)
    ensures v % 256 + 256 * (v / 256 % 256) == v % 0x1_0000
  {
    var q := v / 256;
    assert v == 256 * q + v % 256 && q == 256 * (q / 256) + q % 256;
    assert v == 0x1_0000 * (q / 256) + (256 * (q % 256) + v % 256);
  }

  /** Store the low 16 bits of v. */
  function PutU16(s: seq<Byte>, off: nat, v: nat): (r: seq<Byte>)
    requires off + 2 <= |s|
    ensures |r| == |s|
    ensures GetU16(r, off) == v % 0x1_0000
  {
    LowBytes(v);
    s[off := v % 256][off + 1 := v / 256 % 256]
  }

  function GetU32(s: seq<Byte>, off: nat): (v: U32)
    requires off + 4 <= |s|
  {
    GetU16(s, off) + 0x1_0000 * (GetU16(s, off + 2) as int)
  }

  function U16Bytes(v: nat): (b: seq<Byte>)
    ensures |b| == 2 && GetU16(b, 0) == v % 0x1_0000
  {
    LowBytes(v);
    [v % 256, v / 256 % 256]
  }

  lemma U16At(s: seq<Byte>, off: nat, v: U16)
    requires off + 2 <= |s| && s[off..off + 2] == U16Bytes(v)
    ensures GetU16(s, off) == v
  {
    assert s[off] == s[off..off + 2][0] && s[off + 1] == s[off..off + 2][1];
  }

  lemma Halves(v: nat)
    ensures v % 0x1_0000 + 0x1_0000 * (v / 0x1_0000 % 0x1_0000) == v % 0x1_0000_0000
  {
    var q, r := v / 0x1_0000_0000, v % 0x1_0000_0000;
    assert v == 0x1_0000_0000 * q + r;
    assert v / 0x1_0000 == 0x1_0000 * q + r / 0x1_0000;
  }

  function U32Bytes(v: nat): (b: seq<Byte>)
    ensures |b| == 4 && GetU32(b, 0) == v % 0x1_0000_0000
  {
    var lo, hi := U16Bytes(v), U16Bytes(v / 0x1_0000);
    Halves(v);
    assert GetU16(lo + hi, 0) == GetU16(lo, 0) && GetU16(lo + hi, 2) == GetU16(hi, 0);
    lo + hi
  }

  lemma U32At(s: seq<Byte>, off: nat, v: U32)
    requires off + 4 <= |s| && s[off..off + 4] == U32Bytes(v)
    ensures GetU32(s, off) == v
  {
    var b := s[off..off + 4];
    assert s[off] == b[0] && s[off + 1] == b[1] && s[off + 2] == b[2] && s[off + 3] == b[3];
  }

  lemma U32BytesWraps(x: nat, y: nat)
    ensures U32Bytes(x % 0x1_0000_0000 + y) == U32Bytes(x + y)
  {
    var q, v := x / 0x1_0000_0000, x % 0x1_0000_0000 + y;
    assert x + y == v + 0x1_0000_0000 * q;
    assert (x + y) / 0x1_0000 == v / 0x1_0000 + 0x1_0000 * q;
    U16BytesWraps(v, 0x1_0000 * q);
    U16BytesWraps(v / 0x1_0000, q);
  }

  lemma U16BytesWraps(v: nat, q: nat)
    ensures U16Bytes(v + 0x1_0000 * q) == U16Bytes(v)
  {
    AddMultiple(v, 256 * q);
    AddMultiple(v / 256, q);
  }

  lemma AddMultiple(v: nat, k: nat)
    ensures (v + 256 * k) % 256 == v % 256 && (v + 256 * k) / 256 == v / 256 + k
  {
    var q, r := v / 256, v % 256;
    assert v + 256 * k == 256 * (q + k) + r;
  }

  /** Store the low 32 bits of v. */
  function PutU32(s: seq<Byte>, off: nat, v: nat): (r: seq<Byte>)
    requires off + 4 <= |s|
    ensures |r| == |s|
    ensures GetU32(r, off) == v % 0x1_0000_0000
  {
    var r := s[..off] + U32Bytes(v) + s[off + 4..];
    assert GetU32(r, off) == GetU32(U32Bytes(v), 0);
    r
  }

  // ----- bits -----

  predicate BitSet(x: nat, k: nat) {
    if k == 0 then x % 2 == 1 else BitSet(x / 2, k - 1)
  }

  /** The `|` of two unsigned numbers. */
  function BitOr(x: nat, y: nat): (r: nat)
    decreases x + y
  {
    if x == 0 then y else if y == 0 then x
    else 2 * BitOr(x / 2, y / 2) + if x % 2 == 1 || y % 2 == 1 then 1 else 0
  }

  lemma BitOrHalves(x: nat, y: nat)
    requires x > 0 && y > 0
    ensures BitOr(x, y) / 2 == BitOr(x / 2, y / 2)
    ensures BitOr(x, y) % 2 == if x % 2 == 1 || y % 2 == 1 then 1 else 0
  {
    var half, low := BitOr(x / 2, y / 2), if x % 2 == 1 || y % 2 == 1 then 1 else 0;
    assert BitOr(x, y) == 2 * half + low;
  }

  lemma {:induction false} BitOrSets(x: nat, y: nat, k: nat)
    ensures BitSet(BitOr(x, y), k) <==> BitSet(x, k) || BitSet(y, k)
    decreases k
  {
    if x == 0 || y == 0 {
      ZeroHasNoBits(k);
    } else {
      BitOrHalves(x, y);
      if k > 0 {
        BitOrSets(x / 2, y / 2, k - 1);
      }
    }
  }

  lemma {:induction false} ZeroHasNoBits(k: nat)
    ensures !BitSet(0, k)
  {
    if k > 0 {
      ZeroHasNoBits(k - 1);
    }
  }

  lemma {:induction false} BitOrFits(x: nat, y: nat, bound: nat)
    requires x < Pow2(bound) && y < Pow2(bound)
    ensures BitOr(x, y) < Pow2(bound)
    decreases bound
  {
    if x != 0 && y != 0 {
      BitOrFits(x / 2, y / 2, bound - 1);
    }
  }

  function Pow2(n: nat): (p: nat)
    ensures p > 0
  {
    if n == 0 then 1 else 2 * Pow2(n - 1)
  }

  // ----- concatenation and ascending traversal (the iteration order of std::map and std::set) -----

  lemma ConcatAssoc<T>(a: seq<T>, b: seq<T>, c: seq<T>)
    ensures a + b + c == a + (b + c)
  {
  }

  lemma Shift<T>(a: seq<T>, x: T, b: seq<T>)
    ensures a + ([x] + b) == (a + [x]) + b
  {
  }

  lemma PrefixSnoc<T>(s: seq<T>, i: nat)
    requires i < |s|
    ensures s[..i + 1] == s[..i] + [s[i]]
  {
  }

  lemma FlattenCons<T>(s: seq<T>, ss: seq<seq<T>>)
    ensures Flatten([s] + ss) == s + Flatten(ss)
  {
    assert ([s] + ss)[1..] == ss;
  }

  function Flatten<T>(ss: seq<seq<T>>): seq<T> {
    if ss == [] then [] else ss[0] + Flatten(ss[1..])
  }

  lemma {:induction false} FlattenAppend<T>(a: seq<seq<T>>, b: seq<seq<T>>)
    ensures Flatten(a + b) == Flatten(a) + Flatten(b)
  {
    if a == [] {
      assert a + b == b;
    } else {
      assert (a + b)[0] == a[0] && (a + b)[1..] == a[1..] + b;
      FlattenAppend(a[1..], b);
      assert a[0] + (Flatten(a[1..]) + Flatten(b)) == a[0] + Flatten(a[1..]) + Flatten(b);
    }
  }

  /** a is obtained from b by dropping elements, keeping the order. */
  predicate IsSubsequence<T(==)>(a: seq<T>, b: seq<T>) {
    a == [] || (b != [] && ((a[0] == b[0] && IsSubsequence(a[1..], b[1..])) || IsSubsequence(a, b[1..])))
  }

  lemma {:induction false} SubsequenceAppend<T>(a: seq<T>, b: seq<T>, c: seq<T>, d: seq<T>)
    requires IsSubsequence(a, b) && IsSubsequence(c, d)
    ensures IsSubsequence(a + c, b + d)
    decreases |b|
  {
    if b == [] {
      assert a + c == c && b + d == d;
    } else {
      assert (b + d)[1..] == b[1..] + d;
      if a == [] {
        assert a + c == c;
        assert IsSubsequence(a, b[1..]);
        SubsequenceAppend(a, b[1..], c, d);
      } else if a[0] == b[0] && IsSubsequence(a[1..], b[1..]) {
        SubsequenceAppend(a[1..], b[1..], c, d);
        assert (a + c)[1..] == a[1..] + c;
      } else {
        SubsequenceAppend(a, b[1..], c, d);
      }
    }
  }

  lemma Member<T>(s: set<T>) returns (y: T)
    requires s != {}
    ensures y in s
  {
    y :| y in s;
  }

  lemma LeastExists(s: set<int>) returns (m: int)
    requires s != {}
    ensures m in s && forall x :: x in s ==> m <= x
    decreases |s|
  {
    var y := Member(s);
    m := y;
    if s != {y} {
      var k := LeastExists(s - {y});
      assert forall x :: x in s ==> x == y || x in s - {y};
      m := if k < y then k else y;
    }
  }

  function Least(s: set<int>): (m: int)
    requires s != {}
    ensures m in s && forall x :: x in s ==> m <= x
  {
    assert exists m :: m in s && forall x :: x in s ==> m <= x by {
      var m := LeastExists(s);
    }
    var m :| m in s && forall x :: x in s ==> m <= x;
    m
  }

  ghost predicate StrictlyAscending(s: seq<int>) {
    forall i, j :: 0 <= i < j < |s| ==> s[i] < s[j]
  }

  /** The elements of a set in increasing order. */
  function Ascending(s: set<int>): (r: seq<int>)
    ensures StrictlyAscending(r)
    ensures forall x :: x in r <==> x in s
    decreases |s|
  {
    if s == {} then [] else
      var m := Least(s);
      var tail := Ascending(s - {m});
      assert forall x :: x in tail ==> m < x;
      [m] + tail
  }
}
