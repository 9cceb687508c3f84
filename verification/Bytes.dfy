/** Byte strings and integers in network byte order, flute/net/Endian.h. */
module Bytes {

  // A C char, seen as unsigned.
  type Byte = c: char | c as int < 256

  // Position of the first CR LF, or |s| if there is none: std::search for kCRLF.
  function IndexOfCRLF(s: seq<Byte>): (i: nat)
    ensures i <= |s|
    ensures i < |s| ==> i + 1 < |s| && s[i] == '\r' && s[i + 1] == '\n'
  {
    if |s| < 2 then |s|
    else if s[0] == '\r' && s[1] == '\n' then 0
    else 1 + IndexOfCRLF(s[1..])
  }

  lemma Assoc<T>(a: seq<T>, b: seq<T>, c: seq<T>)
    ensures a + b + c == a + (b + c)
  {
  }

  predicate HasCRLF(s: seq<Byte>) {
    exists i :: 0 <= i < |s| - 1 && s[i] == '\r' && s[i + 1] == '\n'
  }

  // Position of the first occurrence of c, or |s|: std::find.
  function IndexOf(s: seq<Byte>, c: Byte): (i: nat)
    ensures i <= |s|
    ensures i < |s| ==> s[i] == c
    ensures forall k :: 0 <= k < i ==> s[k] != c
  {
    if s == [] || s[0] == c then 0 else 1 + IndexOf(s[1..], c)
  }

  lemma {:induction false} CRLFIsFirst(s: seq<Byte>)
    ensures forall k :: 0 <= k < IndexOfCRLF(s) && k + 1 < |s| ==> !(s[k] == '\r' && s[k + 1] == '\n')
    ensures IndexOfCRLF(s) < |s| <==> HasCRLF(s)
  {
    if |s| >= 2 && !(s[0] == '\r' && s[1] == '\n') {
      CRLFIsFirst(s[1..]);
      assert forall k :: 0 < k && k + 1 < |s| ==> s[k] == s[1..][k - 1] && s[k + 1] == s[1..][k];
    }
  }

  // The position is determined by being the first.
  lemma CRLFIsUnique(s: seq<Byte>, i: nat)
    requires i + 1 < |s| && s[i] == '\r' && s[i + 1] == '\n'
    requires forall k :: 0 <= k < i ==> !(s[k] == '\r' && s[k + 1] == '\n')
    ensures IndexOfCRLF(s) == i
  {
    CRLFIsFirst(s);
    assert HasCRLF(s);
    var j := IndexOfCRLF(s);
    assert !(j < i) && !(i < j);
  }

  lemma FindIsUnique(s: seq<Byte>, c: Byte, i: nat)
    requires i < |s| && s[i] == c && forall k :: 0 <= k < i ==> s[k] != c
    ensures IndexOf(s, c) == i
  {
    var j := IndexOf(s, c);
    assert !(j < i) && !(i < j);
  }

  // ---------- Network byte order ----------

  function Pow256(w: nat): (p: nat)
    ensures p > 0
  {
    if w == 0 then 1 else 256 * Pow256(w - 1)
  }

  // The w low bytes of x, most significant first.
  function BigEndian(x: nat, w: nat): (s: seq<Byte>)
    ensures |s| == w
  {
    if w == 0 then [] else BigEndian(x / 256, w - 1) + [(x % 256) as char]
  }

  function FromBigEndian(s: seq<Byte>): nat {
    if s == [] then 0 else FromBigEndian(s[..|s| - 1]) * 256 + s[|s| - 1] as int
  }

  predicate IsSigned(x: int, w: nat) {
    w > 0 && -(Pow256(w) / 2) <= x < Pow256(w) / 2
  }

  // A signed integer of w bytes as it goes on the wire, and back.
  function EncodeInt(x: int, w: nat): (s: seq<Byte>)
    ensures |s| == w
  {
    BigEndian(x % Pow256(w), w)
  }

  function DecodeInt(s: seq<Byte>): int {
    var u := FromBigEndian(s);
    if u < Pow256(|s|) / 2 then u else u - Pow256(|s|)
  }

  lemma {:induction false} BigEndianByte(x: nat, w: nat, i: nat)
    requires i < w
    ensures BigEndian(x, w)[i] as int == x / Pow256(w - 1 - i) % 256
  {
    if i == w - 1 {
      assert x / Pow256(0) == x;
    } else {
      BigEndianByte(x / 256, w - 1, i);
      DivideTwice(x, Pow256(w - 2 - i));
    }
  }

  lemma DivideTwice(x: nat, b: nat)
    requires b > 0
    ensures x / 256 / b == x / (256 * b)
  {
    var q, r := x / 256, x % 256;
    var q', r' := q / b, q % b;
    QuotientIs(x, 256 * b, q', 256 * r' + r) by {
      assert q == b * q' + r' && 0 <= r' < b;
      assert (256 * b) * q' == 256 * (b * q');
    }
  }

  lemma QuotientIs(x: nat, d: nat, q: int, r: int)
    requires d > 0 && x == d * q + r && 0 <= r < d
    ensures x / d == q
  {
    var k := x / d - q;
    assert x == d * (x / d) + x % d;
    assert k * d == r - x % d;
    SmallMultiple(k, d);
  }

  lemma {:induction false} BigEndianRoundTrip(x: nat, w: nat)
    requires x < Pow256(w)
    ensures FromBigEndian(BigEndian(x, w)) == x
  {
    if w > 0 {
      assert x / 256 < Pow256(w - 1);
      BigEndianRoundTrip(x / 256, w - 1);
      var s := BigEndian(x, w);
      assert s[..|s| - 1] == BigEndian(x / 256, w - 1);
    }
  }

  lemma SmallMultiple(k: int, p: int)
    requires p > 0
    ensures k * p <= -p || k == 0 || p <= k * p
  {
    if k > 0 { assert (k - 1) * p >= 0; }
    if k < 0 { assert (-k - 1) * p >= 0; }
  }

  lemma ModOfSmall(x: int, p: int)
    requires p > 0 && -p <= x < p
    ensures x % p == if x >= 0 then x else x + p
  {
    var q, r := x / p, x % p;
    assert x == q * p + r;
    SmallMultiple(q, p);
    SmallMultiple(q + 1, p);
    assert (q + 1) * p == q * p + p;
  }

  /** Network order: byte i counts units of 256 to the power w - 1 - i, in two's complement. */
  lemma NetworkOrder(x: int, w: nat, i: nat)
    requires i < w
    ensures EncodeInt(x, w)[i] as int == x % Pow256(w) / Pow256(w - 1 - i) % 256
  {
    hide Pow256;
    BigEndianByte(x % Pow256(w), w, i);
  }

  /** What host_to_net writes, net_to_host reads back, negative numbers included. */
  lemma IntRoundTrip(x: int, w: nat)
    requires IsSigned(x, w)
    ensures DecodeInt(EncodeInt(x, w)) == x
  {
    var p, half := Pow256(w), 128 * Pow256(w - 1);
    assert p == 2 * half;
    hide Pow256, BigEndian, FromBigEndian;
    ModOfSmall(x, p);
    var u := if x >= 0 then x else x + p;
    assert EncodeInt(x, w) == BigEndian(u, w);
    BigEndianRoundTrip(u, w);
    assert p / 2 == half;
  }

  // ---------- Integers in a byte queue ----------

  datatype Int = Int(width: nat, value: int)

  function EncodeAll(xs: seq<Int>): seq<Byte> {
    if xs == [] then [] else EncodeInt(xs[0].value, xs[0].width) + EncodeAll(xs[1..])
  }

  // Reading integers of the given widths off the front, one after the other.
  function DecodeAll(s: seq<Byte>, widths: seq<nat>): seq<Int> {
    if widths == [] || |s| < widths[0] then []
    else [Int(widths[0], DecodeInt(s[..widths[0]]))] + DecodeAll(s[widths[0]..], widths[1..])
  }

  function Widths(xs: seq<Int>): (ws: seq<nat>)
    ensures |ws| == |xs|
  {
    if xs == [] then [] else [xs[0].width] + Widths(xs[1..])
  }

  lemma {:induction false} EncodeAllLast(xs: seq<Int>, x: Int)
    ensures EncodeAll(xs + [x]) == EncodeAll(xs) + EncodeInt(x.value, x.width)
  {
    hide EncodeInt;
    if xs == [] {
      assert [x][1..] == [] && [] + [x] == [x];
      assert EncodeAll([x][1..]) == [];
    } else {
      EncodeAllLast(xs[1..], x);
      assert (xs + [x])[1..] == xs[1..] + [x] && (xs + [x])[0] == xs[0];
    }
  }

  lemma EncodeAllFirst(xs: seq<Int>)
    requires xs != [] && IsSigned(xs[0].value, xs[0].width)
    ensures var s, w := EncodeAll(xs), xs[0].width;
            w <= |s| && DecodeInt(s[..w]) == xs[0].value && s[w..] == EncodeAll(xs[1..])
  {
    hide EncodeInt, DecodeInt, IsSigned;
    IntRoundTrip(xs[0].value, xs[0].width);
    var head := EncodeInt(xs[0].value, xs[0].width);
    assert EncodeAll(xs) == head + EncodeAll(xs[1..]);
    assert EncodeAll(xs)[..xs[0].width] == head;
  }

  lemma DecodeStep(s: seq<Byte>, xs: seq<Int>)
    requires xs != [] && xs[0].width <= |s|
    ensures var w := xs[0].width;
            DecodeAll(s, Widths(xs)) == [Int(w, DecodeInt(s[..w]))] + DecodeAll(s[w..], Widths(xs[1..]))
  {
    hide DecodeInt;
    assert Widths(xs)[1..] == Widths(xs[1..]);
  }

  /** Integers appended in network order are read back equal, first in first out. */
  lemma {:induction false} IntsAreFifo(xs: seq<Int>, rest: seq<Byte>)
    requires forall i :: 0 <= i < |xs| ==> IsSigned(xs[i].value, xs[i].width)
    ensures DecodeAll(EncodeAll(xs) + rest, Widths(xs)) == xs
  {
    if xs != [] {
      hide EncodeAll, DecodeAll, DecodeInt, IsSigned, Widths;
      var x, s, bytes := xs[0], EncodeAll(xs) + rest, EncodeAll(xs);
      EncodeAllFirst(xs);
      assert s[..x.width] == bytes[..x.width] && s[x.width..] == bytes[x.width..] + rest;
      DecodeStep(s, xs);
      IntsAreFifo(xs[1..], rest);
      assert xs == [x] + xs[1..];
    }
  }

  // ---------- Appending and reading in turn ----------

  datatype IntOp = PushInt(x: Int) | PopInt(width: nat)

  // Integers fit their widths, and a read finds one of its width at the front.
  predicate CanPerform(q: seq<Int>, ops: seq<IntOp>)
    decreases |ops|
  {
    (forall i :: 0 <= i < |q| ==> IsSigned(q[i].value, q[i].width)) &&
    if ops == [] then true
    else match ops[0]
      case PushInt(x) => IsSigned(x.value, x.width) && CanPerform(q + [x], ops[1..])
      case PopInt(w) => q != [] && q[0].width == w && CanPerform(q[1..], ops[1..])
  }

  function Popped(q: seq<Int>, ops: seq<IntOp>): seq<int>
    decreases |ops|
  {
    if ops == [] then []
    else match ops[0]
      case PushInt(x) => Popped(q + [x], ops[1..])
      case PopInt(_) => if q == [] then [] else [q[0].value] + Popped(q[1..], ops[1..])
  }

  function Remaining(q: seq<Int>, ops: seq<IntOp>): seq<Int>
    decreases |ops|
  {
    if ops == [] then q
    else match ops[0]
      case PushInt(x) => Remaining(q + [x], ops[1..])
      case PopInt(_) => if q == [] then [] else Remaining(q[1..], ops[1..])
  }

  function Pushed(ops: seq<IntOp>): seq<Int> {
    if ops == [] then [] else (match ops[0] { case PushInt(x) => [x] case PopInt(_) => [] }) + Pushed(ops[1..])
  }

  function Values(xs: seq<Int>): (vs: seq<int>)
    ensures |vs| == |xs| && forall i :: 0 <= i < |xs| ==> vs[i] == xs[i].value
  {
    if xs == [] then [] else [xs[0].value] + Values(xs[1..])
  }

  /** First in, first out: what was there and what was pushed is what was popped and what remains. */
  lemma {:induction false} Fifo(q: seq<Int>, ops: seq<IntOp>)
    requires CanPerform(q, ops)
    ensures Values(q + Pushed(ops)) == Popped(q, ops) + Values(Remaining(q, ops))
    decreases |ops|
  {
    hide CanPerform, Popped, Remaining, Pushed, Values;
    PushedStep(ops);
    if ops == [] {
      FifoEnd(q, ops);
      assert q + [] == q && [] + Values(q) == Values(q);
    } else {
      FifoStep(q, ops);
      match ops[0]
      case PushInt(x) =>
        Fifo(q + [x], ops[1..]);
        assert q + ([x] + Pushed(ops[1..])) == q + [x] + Pushed(ops[1..]);
      case PopInt(_) =>
        Fifo(q[1..], ops[1..]);
        ValuesStep(q, Pushed(ops));
        var popped, rest := Popped(q[1..], ops[1..]), Values(Remaining(q, ops));
        assert [q[0].value] + (popped + rest) == [q[0].value] + popped + rest;
    }
  }

  lemma PushedStep(ops: seq<IntOp>)
    ensures ops == [] ==> Pushed(ops) == []
    ensures ops != [] && ops[0].PushInt? ==> Pushed(ops) == [ops[0].x] + Pushed(ops[1..])
    ensures ops != [] && ops[0].PopInt? ==> Pushed(ops) == Pushed(ops[1..])
  {
  }

  lemma ValuesStep(q: seq<Int>, more: seq<Int>)
    requires q != []
    ensures Values(q + more) == [q[0].value] + Values(q[1..] + more)
  {
    assert (q + more)[1..] == q[1..] + more;
  }

  lemma FifoStep(q: seq<Int>, ops: seq<IntOp>)
    requires CanPerform(q, ops) && ops != []
    ensures ops[0].PushInt? ==>
              && CanPerform(q + [ops[0].x], ops[1..])
              && Popped(q, ops) == Popped(q + [ops[0].x], ops[1..])
              && Remaining(q, ops) == Remaining(q + [ops[0].x], ops[1..])
    ensures ops[0].PopInt? ==>
              && q != [] && q[0].width == ops[0].width && IsSigned(q[0].value, q[0].width)
              && CanPerform(q[1..], ops[1..])
              && Popped(q, ops) == [q[0].value] + Popped(q[1..], ops[1..])
              && Remaining(q, ops) == Remaining(q[1..], ops[1..])
  {
    hide IsSigned;
  }

  lemma FifoEnd(q: seq<Int>, ops: seq<IntOp>)
    requires ops == []
    ensures Popped(q, ops) == [] && Remaining(q, ops) == q
  {
  }
}
