/**
 * UUIDv7 identifiers (packages/core/src/id.ts; section 5.7 of RFC 9562):
 * 48 bits of milliseconds, version 7, a 12-bit counter, variant 10 and 62
 * random bits. Clock readings are milliseconds since 1970.
 */
module Uuid {
  const MAX_COUNTER := 0xfff
  const TIME_RANGE := 0x1_0000_0000_0000

  type Byte = b: nat | b < 256

  /** The two module variables. */
  datatype Stamp = Stamp(time: int, counter: nat) {
    predicate Before(other: Stamp) {
      time < other.time || (time == other.time && counter < other.counter)
    }
  }

  const INITIAL := Stamp(-1, 0)

  /** What they become when the clock reads `now`. */
  function NextStamp(last: Stamp, now: nat): Stamp {
    if now > last.time then Stamp(now, 0)
    else if last.counter + 1 > MAX_COUNTER then Stamp(last.time + 1, 0)
    else Stamp(last.time, last.counter + 1)
  }

  // ---- Layout

  function BigEndian(value: nat, n: nat): (bytes: seq<Byte>)
    ensures |bytes| == n
  {
    if n == 0 then [] else BigEndian(value / 256, n - 1) + [value % 256]
  }

  function ValueOf(bytes: seq<Byte>): nat {
    if bytes == [] then 0 else 256 * ValueOf(bytes[..|bytes| - 1]) + bytes[|bytes| - 1]
  }

  /** The 16 bytes; a timestamp outside 48 bits keeps its low 48. */
  function Bytes(timestamp: int, counter: nat, random: seq<Byte>): (bytes: seq<Byte>)
    requires counter <= MAX_COUNTER && |random| == 8
    ensures |bytes| == 16
  {
    BigEndian(timestamp % TIME_RANGE, 6)
    + [0x70 + counter / 256, counter % 256, 0x80 + random[0] % 0x40]
    + random[1..]
  }

  function HexDigit(d: nat): char
    requires d < 16
  {
    "0123456789abcdef"[d]
  }

  function HexValue(c: char): nat {
    if '0' <= c <= '9' then c as int - '0' as int
    else if 'a' <= c <= 'f' then 10 + c as int - 'a' as int
    else 0
  }

  function ToHex(bytes: seq<Byte>): (hex: string)
    ensures |hex| == 2 * |bytes|
  {
    if bytes == [] then ""
    else
      var b := bytes[|bytes| - 1];
      ToHex(bytes[..|bytes| - 1]) + [HexDigit(b / 16), HexDigit(b % 16)]
  }

  function Dashed(hex: string): (id: string)
    requires |hex| == 32
    ensures |id| == 36
  {
    hex[..8] + "-" + hex[8..12] + "-" + hex[12..16] + "-" + hex[16..20] + "-" + hex[20..]
  }

  function Format(timestamp: int, counter: nat, random: seq<Byte>): (id: string)
    requires counter <= MAX_COUNTER && |random| == 8
    ensures |id| == 36
  {
    Dashed(ToHex(Bytes(timestamp, counter, random)))
  }

  /** `Number.parseInt(hex, 16)` on lower-case hexadecimal. */
  function ParseHex(hex: string): nat {
    if hex == "" then 0 else 16 * ParseHex(hex[..|hex| - 1]) + HexValue(hex[|hex| - 1])
  }

  /** Read the creation time back: the first twelve digits without dashes. */
  function TimestampOf(id: string): nat {
    var hex := WithoutDashes(id);
    ParseHex(if |hex| <= 12 then hex else hex[..12])
  }

  function WithoutDashes(s: string): string {
    if s == "" then "" else (if s[0] == '-' then "" else [s[0]]) + WithoutDashes(s[1..])
  }

  class Generator {
    var lastTimestamp: int
    var counter: nat

    constructor ()
      ensures Stamp(lastTimestamp, counter) == INITIAL
    {
      lastTimestamp, counter := -1, 0;
    }

    /** One identifier for a clock reading and eight random bytes. */
    method Next(now: nat, random: seq<Byte>) returns (id: string)
      requires counter <= MAX_COUNTER && lastTimestamp >= -1 && |random| == 8
      modifies this
      ensures Stamp(lastTimestamp, counter) == NextStamp(Stamp(old(lastTimestamp), old(counter)), now)
      ensures counter <= MAX_COUNTER && lastTimestamp >= 0
      ensures id == Format(lastTimestamp, counter, random)
    {
      if now == lastTimestamp {
        counter := counter + 1;
        if counter > MAX_COUNTER {
          lastTimestamp, counter := lastTimestamp + 1, 0;
        }
      } else if now > lastTimestamp {
        lastTimestamp, counter := now, 0;
      } else {
        counter := counter + 1;
        if counter > MAX_COUNTER {
          lastTimestamp, counter := lastTimestamp + 1, 0;
        }
      }
      var bytes := FillBytes(lastTimestamp, counter, random);
      id := Dashed(ToHex(bytes[..]));
    }
  }

  /** The byte array, filled in place. */
  method FillBytes(timestamp: nat, counter: nat, random: seq<Byte>) returns (bytes: array<Byte>)
    requires counter <= MAX_COUNTER && |random| == 8
    ensures fresh(bytes) && bytes[..] == Bytes(timestamp, counter, random)
  {
    bytes := new Byte[16](_ => 0);
    bytes[0] := timestamp / 0x100_0000_0000 % 256;
    bytes[1] := timestamp / 0x1_0000_0000 % 256;
    bytes[2] := timestamp / 0x100_0000 % 256;
    bytes[3] := timestamp / 0x1_0000 % 256;
    bytes[4] := timestamp / 0x100 % 256;
    bytes[5] := timestamp % 256;
    bytes[6] := 0x70 + counter / 256 % 16;
    bytes[7] := counter % 256;
    bytes[8] := 0x80 + random[0] % 0x40;
    hide Bytes;
    ghost var head := Bytes(timestamp, counter, random)[..9];
    assert bytes[..9] == head by { BytesHead(timestamp, counter, random); }
    for index := 9 to 16
      invariant bytes[..9] == head
      invariant forall i :: 9 <= i < index ==> bytes[i] == random[i - 8]
    {
      bytes[index] := random[index - 8];
    }
    BytesTail(timestamp, counter, random);
    assert bytes[..] == head + random[1..];
  }

  lemma BytesHead(timestamp: nat, counter: nat, random: seq<Byte>)
    requires counter <= MAX_COUNTER && |random| == 8
    ensures Bytes(timestamp, counter, random)[..9] == [
      timestamp / 0x100_0000_0000 % 256, timestamp / 0x1_0000_0000 % 256, timestamp / 0x100_0000 % 256,
      timestamp / 0x1_0000 % 256, timestamp / 0x100 % 256, timestamp % 256,
      0x70 + counter / 256 % 16, counter % 256, 0x80 + random[0] % 0x40]
  {
    TimeBytes(timestamp);
    hide BigEndian;
  }

  lemma BytesTail(timestamp: int, counter: nat, random: seq<Byte>)
    requires counter <= MAX_COUNTER && |random| == 8
    ensures Bytes(timestamp, counter, random) == Bytes(timestamp, counter, random)[..9] + random[1..]
  {
  }

  lemma TimeBytes(t: nat)
    ensures BigEndian(t % TIME_RANGE, 6) == [
      t / 0x100_0000_0000 % 256, t / 0x1_0000_0000 % 256, t / 0x100_0000 % 256,
      t / 0x1_0000 % 256, t / 0x100 % 256, t % 256]
  {
    var v := t % TIME_RANGE;
    SixBytes(v);
    ByteOfLow48(t);
  }

  lemma SixBytes(v: nat)
    ensures BigEndian(v, 6) == [
      v / 0x100_0000_0000 % 256, v / 0x1_0000_0000 % 256, v / 0x100_0000 % 256,
      v / 0x1_0000 % 256, v / 0x100 % 256, v % 256]
  {
    var v1 := v / 256;
    var v2 := v1 / 256;
    var v3 := v2 / 256;
    var v4 := v3 / 256;
    var v5 := v4 / 256;
    Divisions(v);
    assert BigEndian(v4, 2) == [v5 % 256, v4 % 256] by {
      assert BigEndian(v5, 1) == [v5 % 256] by { assert BigEndian(v5 / 256, 0) == []; }
    }
    assert BigEndian(v3, 3) == [v5 % 256, v4 % 256, v3 % 256];
    assert BigEndian(v2, 4) == [v5 % 256, v4 % 256, v3 % 256, v2 % 256];
    assert BigEndian(v1, 5) == [v5 % 256, v4 % 256, v3 % 256, v2 % 256, v1 % 256];
  }

  lemma Divisions(v: nat)
    ensures v / 256 / 256 == v / 0x1_0000
    ensures v / 256 / 256 / 256 == v / 0x100_0000
    ensures v / 256 / 256 / 256 / 256 == v / 0x1_0000_0000
    ensures v / 256 / 256 / 256 / 256 / 256 == v / 0x100_0000_0000
  {
  }

  lemma ByteOfLow48(t: nat)
    ensures var v := t % TIME_RANGE;
      && v / 0x100_0000_0000 % 256 == t / 0x100_0000_0000 % 256
      && v / 0x1_0000_0000 % 256 == t / 0x1_0000_0000 % 256
      && v / 0x100_0000 % 256 == t / 0x100_0000 % 256
      && v / 0x1_0000 % 256 == t / 0x1_0000 % 256
      && v / 0x100 % 256 == t / 0x100 % 256
      && v % 256 == t % 256
  {
    var q, v := t / TIME_RANGE, t % TIME_RANGE;
    assert t == q * TIME_RANGE + v;
    Shifts(q, v);
    AddMultiple(q, v / 0x100_0000_0000);
    AddMultiple(q * 0x100, v / 0x1_0000_0000);
    AddMultiple(q * 0x1_0000, v / 0x100_0000);
    AddMultiple(q * 0x100_0000, v / 0x1_0000);
    AddMultiple(q * 0x1_0000_0000, v / 0x100);
    AddMultiple(q * 0x100_0000_0000, v);
  }

  /** Multiples of 2^48 shift out to multiples of 256. */
  lemma Shifts(q: nat, v: nat)
    ensures (q * TIME_RANGE + v) / 0x100 == 256 * (q * 0x1_0000_0000) + v / 0x100
    ensures (q * TIME_RANGE + v) / 0x1_0000 == 256 * (q * 0x100_0000) + v / 0x1_0000
    ensures (q * TIME_RANGE + v) / 0x100_0000 == 256 * (q * 0x1_0000) + v / 0x100_0000
    ensures (q * TIME_RANGE + v) / 0x1_0000_0000 == 256 * (q * 0x100) + v / 0x1_0000_0000
    ensures (q * TIME_RANGE + v) / 0x100_0000_0000 == 256 * q + v / 0x100_0000_0000
  {
  }

  lemma AddMultiple(x: nat, k: nat)
    ensures (256 * x + k) % 256 == k % 256
  {
  }

  // ---- Order

  /** The first difference decides; a string is not below its own prefix. */
  ghost predicate LexLess(a: seq<nat>, b: seq<nat>) {
    exists k :: 0 <= k < |a| && k < |b| && a[..k] == b[..k] && a[k] < b[k]
  }

  ghost predicate StringLess(a: string, b: string) {
    exists k :: 0 <= k < |a| && k < |b| && a[..k] == b[..k] && a[k] < b[k]
  }

  function Pow256(n: nat): nat {
    if n == 0 then 1 else 256 * Pow256(n - 1)
  }

  lemma {:induction false} BigEndianOrder(a: nat, b: nat, n: nat)
    requires a < b < Pow256(n)
    ensures LexLess(BigEndian(a, n), BigEndian(b, n))
  {
    var x, y := BigEndian(a, n), BigEndian(b, n);
    if a / 256 < b / 256 {
      BigEndianOrder(a / 256, b / 256, n - 1);
      var p, q := BigEndian(a / 256, n - 1), BigEndian(b / 256, n - 1);
      var k :| 0 <= k < |p| && k < |q| && p[..k] == q[..k] && p[k] < q[k];
      assert x[..k] == p[..k] && y[..k] == q[..k];
    } else {
      assert x[..n - 1] == y[..n - 1] && x[n - 1] < y[n - 1];
    }
  }

  lemma BytesOrder(t1: int, c1: nat, r1: seq<Byte>, t2: int, c2: nat, r2: seq<Byte>)
    requires c1 <= MAX_COUNTER && c2 <= MAX_COUNTER && |r1| == 8 && |r2| == 8
    requires t1 % TIME_RANGE < t2 % TIME_RANGE || (t1 % TIME_RANGE == t2 % TIME_RANGE && c1 < c2)
    ensures LexLess(Bytes(t1, c1, r1), Bytes(t2, c2, r2))
  {
    var a, b := Bytes(t1, c1, r1), Bytes(t2, c2, r2);
    var x, y := BigEndian(t1 % TIME_RANGE, 6), BigEndian(t2 % TIME_RANGE, 6);
    if t1 % TIME_RANGE < t2 % TIME_RANGE {
      assert Pow256(6) == TIME_RANGE by { assert Pow256(3) == 0x100_0000; }
      BigEndianOrder(t1 % TIME_RANGE, t2 % TIME_RANGE, 6);
      var k :| 0 <= k < 6 && x[..k] == y[..k] && x[k] < y[k];
      assert a[..k] == x[..k] && b[..k] == y[..k] && a[k] < b[k];
    } else {
      assert a[..6] == x == y == b[..6];
      if c1 / 256 < c2 / 256 {
        assert a[6] < b[6];
      } else {
        assert a[6] == b[6] && a[7] < b[7];
        assert a[..7] == x + [a[6]] && b[..7] == y + [b[6]];
      }
    }
  }

  lemma HexDigitOrder(a: nat, b: nat)
    requires a < 16 && b < 16
    ensures HexDigit(a) < HexDigit(b) <==> a < b
    ensures HexValue(HexDigit(a)) == a && HexDigit(a) != '-'
  {
  }

  lemma {:induction false} HexAt(bytes: seq<Byte>, k: nat)
    requires k < |bytes|
    ensures ToHex(bytes)[2 * k] == HexDigit(bytes[k] / 16)
    ensures ToHex(bytes)[2 * k + 1] == HexDigit(bytes[k] % 16)
    ensures ToHex(bytes)[..2 * k] == ToHex(bytes[..k])
  {
    var n := |bytes| - 1;
    if k < n {
      HexAt(bytes[..n], k);
      assert bytes[..n][..k] == bytes[..k];
    }
  }

  lemma HexKeepsOrder(a: seq<Byte>, b: seq<Byte>)
    requires |a| == |b| && LexLess(a, b)
    ensures StringLess(ToHex(a), ToHex(b))
  {
    hide ToHex, HexDigit, StringLess;
    var k :| 0 <= k < |a| && a[..k] == b[..k] && a[k] < b[k];
    HexAt(a, k);
    HexAt(b, k);
    HexDigitOrder(a[k] / 16, b[k] / 16);
    HexDigitOrder(a[k] % 16, b[k] % 16);
    if a[k] / 16 < b[k] / 16 {
      LessAt(ToHex(a), ToHex(b), 2 * k);
    } else {
      LessAfter(ToHex(a), ToHex(b), 2 * k);
    }
  }

  lemma LessAt(a: string, b: string, k: nat)
    requires k < |a| && k < |b| && a[..k] == b[..k] && a[k] < b[k]
    ensures StringLess(a, b)
  {
  }

  lemma LessAfter(a: string, b: string, k: nat)
    requires k + 1 < |a| && k + 1 < |b| && a[..k] == b[..k] && a[k] == b[k] && a[k + 1] < b[k + 1]
    ensures StringLess(a, b)
  {
    assert a[..k + 1] == a[..k] + [a[k]] && b[..k + 1] == b[..k] + [b[k]];
  }

  /** Where a digit goes once the dashes are in. */
  function DashedIndex(k: nat): nat {
    k + if k < 8 then 0 else if k < 12 then 1 else if k < 16 then 2 else if k < 20 then 3 else 4
  }

  lemma DashedAt(hex: string, k: nat)
    requires |hex| == 32 && k < 32
    ensures Dashed(hex)[DashedIndex(k)] == hex[k]
  {
  }

  lemma DashedPrefix(a: string, b: string, k: nat)
    requires |a| == |b| == 32 && k < 32 && a[..k] == b[..k]
    ensures Dashed(a)[..DashedIndex(k)] == Dashed(b)[..DashedIndex(k)]
  {
    forall i | 0 <= i < DashedIndex(k)
      ensures Dashed(a)[i] == Dashed(b)[i]
    {
      if i != 8 && i != 13 && i != 18 && i != 23 {
        var j := i - if i < 8 then 0 else if i < 13 then 1 else if i < 18 then 2 else if i < 23 then 3 else 4;
        DashedAt(a, j);
        DashedAt(b, j);
        assert a[j] == a[..k][j] && b[j] == b[..k][j];
      }
    }
  }

  /** Identifiers sort as their (timestamp, counter) pairs do, whatever the random bits. */
  lemma IdsSortByStamp(t1: int, c1: nat, r1: seq<Byte>, t2: int, c2: nat, r2: seq<Byte>)
    requires c1 <= MAX_COUNTER && c2 <= MAX_COUNTER && |r1| == 8 && |r2| == 8
    requires t1 % TIME_RANGE < t2 % TIME_RANGE || (t1 % TIME_RANGE == t2 % TIME_RANGE && c1 < c2)
    ensures StringLess(Format(t1, c1, r1), Format(t2, c2, r2))
  {
    var a, b := ToHex(Bytes(t1, c1, r1)), ToHex(Bytes(t2, c2, r2));
    BytesOrder(t1, c1, r1, t2, c2, r2);
    HexKeepsOrder(Bytes(t1, c1, r1), Bytes(t2, c2, r2));
    hide Dashed, Bytes, ToHex;
    var k :| 0 <= k < |a| && k < |b| && a[..k] == b[..k] && a[k] < b[k];
    DashedAt(a, k);
    DashedAt(b, k);
    DashedPrefix(a, b, k);
  }

  /** Version 7 and variant 10 stand where the layout puts them, whatever the random bits. */
  lemma VersionAndVariant(timestamp: int, counter: nat, random: seq<Byte>)
    requires counter <= MAX_COUNTER && |random| == 8
    ensures Format(timestamp, counter, random)[14] == '7'
    ensures Format(timestamp, counter, random)[19] in "89ab"
  {
    var bytes := Bytes(timestamp, counter, random);
    HexAt(bytes, 6);
    HexAt(bytes, 8);
    DashedAt(ToHex(bytes), 12);
    DashedAt(ToHex(bytes), 16);
  }

  // ---- Reading the time back

  lemma {:induction false} ParseOfHex(bytes: seq<Byte>)
    ensures ParseHex(ToHex(bytes)) == ValueOf(bytes)
  {
    if bytes != [] {
      var n := |bytes| - 1;
      var b, hex := bytes[n], ToHex(bytes);
      ParseOfHex(bytes[..n]);
      HexDigitOrder(b / 16, b / 16);
      HexDigitOrder(b % 16, b % 16);
      assert hex[..|hex| - 1] == ToHex(bytes[..n]) + [HexDigit(b / 16)];
      assert hex[..|hex| - 1][..|hex| - 2] == ToHex(bytes[..n]);
    }
  }

  lemma {:induction false} ValueOfBigEndian(v: nat, n: nat)
    requires v < Pow256(n)
    ensures ValueOf(BigEndian(v, n)) == v
  {
    if n > 0 {
      ValueOfBigEndian(v / 256, n - 1);
      assert BigEndian(v, n)[..n - 1] == BigEndian(v / 256, n - 1);
    }
  }

  lemma {:induction false} WithoutDashesConcat(a: string, b: string)
    ensures WithoutDashes(a + b) == WithoutDashes(a) + WithoutDashes(b)
  {
    if a == "" {
      assert a + b == b;
    } else {
      assert (a + b)[1..] == a[1..] + b;
      WithoutDashesConcat(a[1..], b);
    }
  }

  lemma {:induction false} WithoutDashesSame(s: string)
    requires '-' !in s
    ensures WithoutDashes(s) == s
  {
    if s != "" {
      WithoutDashesSame(s[1..]);
    }
  }

  lemma {:induction false} HexHasNoDash(bytes: seq<Byte>)
    ensures '-' !in ToHex(bytes)
  {
    if bytes != [] {
      var b := bytes[|bytes| - 1];
      HexHasNoDash(bytes[..|bytes| - 1]);
      HexDigitOrder(b / 16, b % 16);
      HexDigitOrder(b % 16, b / 16);
    }
  }

  lemma Regrouped(a: string, b: string, c: string, d: string, e: string)
    ensures a + "-" + b + "-" + c + "-" + d + "-" + e == a + ("-" + (b + ("-" + (c + ("-" + (d + ("-" + e)))))))
  {
    Three(a + "-" + b + "-" + c + "-", d, "-" + e);
    Three(a + "-" + b + "-" + c + "-" + d, "-", e);
    Three(a + "-" + b + "-", c, "-" + (d + ("-" + e)));
    Three(a + "-" + b + "-" + c, "-", d + ("-" + e));
    Three(a + "-", b, "-" + (c + ("-" + (d + ("-" + e)))));
    Three(a + "-" + b, "-", c + ("-" + (d + ("-" + e))));
    Three(a, "-", b + ("-" + (c + ("-" + (d + ("-" + e))))));
  }

  lemma Three(x: string, y: string, z: string)
    ensures x + y + z == x + (y + z)
  {
  }

  lemma PartsOf(hex: string)
    requires |hex| == 32
    ensures hex == hex[..8] + (hex[8..12] + (hex[12..16] + (hex[16..20] + hex[20..])))
  {
    assert hex[16..] == hex[16..20] + hex[20..];
    assert hex[12..] == hex[12..16] + hex[16..];
    assert hex[8..] == hex[8..12] + hex[12..];
    assert hex == hex[..8] + hex[8..];
  }

  lemma DashesRemoved(hex: string)
    requires |hex| == 32 && '-' !in hex
    ensures WithoutDashes(Dashed(hex)) == hex
  {
    var a, b, c, d, e := hex[..8], hex[8..12], hex[12..16], hex[16..20], hex[20..];
    hide WithoutDashes;
    Regrouped(a, b, c, d, e);
    WithoutDashesSame(e);
    DashDropped(d, e);
    DashDropped(c, d + ("-" + e));
    DashDropped(b, c + ("-" + (d + ("-" + e))));
    DashDropped(a, b + ("-" + (c + ("-" + (d + ("-" + e))))));
    PartsOf(hex);
  }

  lemma DashDropped(a: string, rest: string)
    requires '-' !in a
    ensures WithoutDashes(a + ("-" + rest)) == a + WithoutDashes(rest)
  {
    hide WithoutDashes;
    WithoutDashesSame(a);
    WithoutDashesConcat(a, "-" + rest);
    FirstDashDropped(rest);
  }

  lemma FirstDashDropped(rest: string)
    ensures WithoutDashes("-" + rest) == WithoutDashes(rest)
  {
    assert ("-" + rest)[1..] == rest;
  }

  /** The time read back is the low 48 bits of the timestamp that went in. */
  lemma TimestampReadsBack(timestamp: int, counter: nat, random: seq<Byte>)
    requires counter <= MAX_COUNTER && |random| == 8
    ensures TimestampOf(Format(timestamp, counter, random)) == timestamp % TIME_RANGE
  {
    var bytes := Bytes(timestamp, counter, random);
    var hex := ToHex(bytes);
    HexHasNoDash(bytes);
    DashesRemoved(hex);
    HexAt(bytes, 6);
    ParseOfHex(bytes[..6]);
    assert bytes[..6] == BigEndian(timestamp % TIME_RANGE, 6);
    assert Pow256(6) == TIME_RANGE by { assert Pow256(3) == 0x100_0000; }
    ValueOfBigEndian(timestamp % TIME_RANGE, 6);
  }

  // ---- Runs

  /** The stamps issued for a sequence of clock readings. */
  function Stamps(last: Stamp, readings: seq<nat>): (stamps: seq<Stamp>)
    ensures |stamps| == |readings|
    decreases |readings|
  {
    if readings == [] then []
    else
      var stamp := NextStamp(last, readings[0]);
      [stamp] + Stamps(stamp, readings[1..])
  }

  lemma {:induction false} StampsIncrease(last: Stamp, readings: seq<nat>)
    requires last.counter <= MAX_COUNTER && last.time >= -1
    ensures forall i :: 0 <= i < |readings| ==>
      && last.Before(Stamps(last, readings)[i])
      && Stamps(last, readings)[i].counter <= MAX_COUNTER && Stamps(last, readings)[i].time >= 0
    ensures forall i, j :: 0 <= i < j < |readings| ==> Stamps(last, readings)[i].Before(Stamps(last, readings)[j])
    decreases |readings|
  {
    if readings != [] {
      var stamp := NextStamp(last, readings[0]);
      StampsIncrease(stamp, readings[1..]);
    }
  }

  /** The stamp before the i-th. */
  function Previous(last: Stamp, readings: seq<nat>, i: nat): Stamp
    requires i < |readings|
  {
    if i == 0 then last else Stamps(last, readings)[i - 1]
  }

  /**
   * A reading later than the stamp before it is taken as it is, and starts the
   * counter; any other reading only counts on, 4096 to the millisecond.
   */
  lemma {:induction false} StampsFollowClock(last: Stamp, readings: seq<nat>, i: nat)
    requires i < |readings| && last.counter < 4096
    ensures var before, stamp := Previous(last, readings, i), Stamps(last, readings)[i];
      && stamp.counter < 4096 && readings[i] <= stamp.time
      && (if readings[i] > before.time then stamp == Stamp(readings[i], 0)
          else 4096 * stamp.time + stamp.counter == 4096 * before.time + before.counter + 1)
    decreases |readings|
  {
    if i > 0 {
      StampsFollowClock(NextStamp(last, readings[0]), readings[1..], i - 1);
    }
  }

  function MaxReading(readings: seq<nat>): nat
    requires readings != []
  {
    if |readings| == 1 then readings[0]
    else
      var rest := MaxReading(readings[1..]);
      if readings[0] > rest then readings[0] else rest
  }

  /** The clock is outrun by at most one millisecond for each 4096 identifiers issued. */
  lemma {:induction false} AheadOfClock(last: Stamp, readings: seq<nat>, i: nat, bound: nat, issued: nat)
    requires last.counter <= MAX_COUNTER && i < |readings|
    requires forall k :: 0 <= k <= i ==> readings[k] <= bound
    requires 4096 * (last.time - bound) + last.counter < issued || last.time == -1
    ensures var stamp := Stamps(last, readings)[i];
      4096 * (stamp.time - bound) + stamp.counter < issued + i + 1
    decreases |readings|
  {
    if i > 0 {
      AheadOfClock(NextStamp(last, readings[0]), readings[1..], i - 1, bound, issued + 1);
    }
  }

  /**
   * For any clock readings below the 48-bit range, backwards and stalled ones
   * included, each identifier sorts after all before it, and its timestamp is
   * ahead of the largest reading so far by at most (identifiers issued) / 4096.
   */
  lemma IdentifiersIncrease(readings: seq<nat>, randoms: seq<seq<Byte>>, i: nat, j: nat)
    requires i < j < |readings| == |randoms| && |randoms[i]| == 8 && |randoms[j]| == 8
    requires forall k :: 0 <= k <= j ==> readings[k] + j / 4096 < TIME_RANGE
    ensures var a, b := Stamps(INITIAL, readings)[i], Stamps(INITIAL, readings)[j];
      && a.counter <= MAX_COUNTER && b.counter <= MAX_COUNTER
      && StringLess(Format(a.time, a.counter, randoms[i]), Format(b.time, b.counter, randoms[j]))
      && b.time <= MaxReading(readings[..j + 1]) + j / 4096
  {
    hide Stamps, MaxReading, Format, StringLess;
    var a, b, most := Stamps(INITIAL, readings)[i], Stamps(INITIAL, readings)[j], MaxReading(readings[..j + 1]);
    StampsIncrease(INITIAL, readings);
    MaxIsMax(readings[..j + 1]);
    forall k | 0 <= k <= j ensures readings[k] <= most {
      assert readings[..j + 1][k] == readings[k];
    }
    AheadOfClock(INITIAL, readings, i, most, 0);
    AheadOfClock(INITIAL, readings, j, most, 0);
    var k :| 0 <= k < |readings[..j + 1]| && readings[..j + 1][k] == most;
    assert readings[k] == most;
    IdsSortByStamp(a.time, a.counter, randoms[i], b.time, b.counter, randoms[j]);
  }

  lemma {:induction false} MaxIsMax(readings: seq<nat>)
    requires readings != []
    ensures forall k :: 0 <= k < |readings| ==> readings[k] <= MaxReading(readings)
    ensures exists k :: 0 <= k < |readings| && readings[k] == MaxReading(readings)
  {
    if |readings| > 1 {
      MaxIsMax(readings[1..]);
      var k :| 0 <= k < |readings[1..]| && readings[1..][k] == MaxReading(readings[1..]);
      assert readings[k + 1] == MaxReading(readings[1..]);
    } else {
      assert readings[0] == MaxReading(readings);
    }
  }

  /**
   * The creation time read back from an identifier is never before its clock
   * reading, and is that reading if every earlier identifier's time is before it.
   */
  lemma IdentifiersTellTheTime(readings: seq<nat>, i: nat, random: seq<Byte>)
    requires i < |readings| && |random| == 8
    requires forall k :: 0 <= k <= i ==> readings[k] + i / 4096 < TIME_RANGE
    ensures var stamps := Stamps(INITIAL, readings);
      && stamps[i].counter <= MAX_COUNTER
      && var time := TimestampOf(Format(stamps[i].time, stamps[i].counter, random));
      && time == stamps[i].time >= readings[i]
      && ((forall k :: 0 <= k < i ==> stamps[k].time < readings[i]) ==> time == readings[i])
  {
    hide Stamps, Format, MaxReading, TimestampOf;
    var stamps, most := Stamps(INITIAL, readings), MaxReading(readings[..i + 1]);
    StampsFollowClock(INITIAL, readings, i);
    MaxIsMax(readings[..i + 1]);
    forall k | 0 <= k <= i ensures readings[k] <= most {
      assert readings[..i + 1][k] == readings[k];
    }
    AheadOfClock(INITIAL, readings, i, most, 0);
    var k :| 0 <= k < |readings[..i + 1]| && readings[..i + 1][k] == most;
    assert readings[k] == most;
    TimestampReadsBack(stamps[i].time, stamps[i].counter, random);
  }

  lemma StringLessIsAsymmetric(a: string, b: string)
    requires StringLess(a, b)
    ensures !StringLess(b, a)
  {
    var k :| 0 <= k < |a| && k < |b| && a[..k] == b[..k] && a[k] < b[k];
    forall j | 0 <= j < |b| && j < |a| && b[..j] == a[..j]
      ensures !(b[j] < a[j])
    {
      PrefixesDiffer(a, b, k, j);
      assert j < k ==> a[j] == a[..k][j] && b[j] == b[..k][j];
    }
  }

  lemma PrefixesDiffer(a: string, b: string, k: nat, j: nat)
    requires k < |a| && k < |b| && a[k] != b[k] && j <= |a| && j <= |b|
    ensures k < j ==> a[..j] != b[..j]
  {
    assert k < j ==> a[..j][k] == a[k] && b[..j][k] == b[k];
  }

  /**
   * Of two identifiers less than 2^48 milliseconds apart the later one sorts
   * behind exactly when the time did not leave the 48-bit range in between.
   */
  lemma WrapsAtTheEnd(t1: nat, c1: nat, r1: seq<Byte>, t2: nat, c2: nat, r2: seq<Byte>)
    requires c1 <= MAX_COUNTER && c2 <= MAX_COUNTER && |r1| == 8 && |r2| == 8
    requires t1 < t2 < t1 + TIME_RANGE
    ensures StringLess(Format(t1, c1, r1), Format(t2, c2, r2)) <==> t1 / TIME_RANGE == t2 / TIME_RANGE
  {
    hide Format, StringLess;
    if t1 / TIME_RANGE == t2 / TIME_RANGE {
      IdsSortByStamp(t1, c1, r1, t2, c2, r2);
    } else {
      IdsSortByStamp(t2, c2, r2, t1, c1, r1);
      StringLessIsAsymmetric(Format(t2, c2, r2), Format(t1, c1, r1));
    }
  }

  // ---- Uniqueness

  lemma HexInjective(a: seq<Byte>, b: seq<Byte>)
    requires |a| == |b| && ToHex(a) == ToHex(b)
    ensures a == b
  {
    hide ToHex, HexDigit;
    forall k | 0 <= k < |a|
      ensures a[k] == b[k]
    {
      HexAt(a, k);
      HexAt(b, k);
      HexDigitOrder(a[k] / 16, b[k] / 16);
      HexDigitOrder(b[k] / 16, a[k] / 16);
      HexDigitOrder(a[k] % 16, b[k] % 16);
      HexDigitOrder(b[k] % 16, a[k] % 16);
    }
  }

  lemma DashedInjective(a: seq<Byte>, b: seq<Byte>)
    requires |a| == |b| == 16 && Dashed(ToHex(a)) == Dashed(ToHex(b))
    ensures a == b
  {
    hide ToHex, Dashed;
    HexHasNoDash(a);
    HexHasNoDash(b);
    DashesRemoved(ToHex(a));
    DashesRemoved(ToHex(b));
    HexInjective(a, b);
  }

  /** Two identifiers are the same exactly when their 48-bit times, their counters and their 62 random bits are. */
  lemma SameIdExactly(t1: int, c1: nat, r1: seq<Byte>, t2: int, c2: nat, r2: seq<Byte>)
    requires c1 <= MAX_COUNTER && c2 <= MAX_COUNTER && |r1| == 8 && |r2| == 8
    ensures Format(t1, c1, r1) == Format(t2, c2, r2) <==>
      && t1 % 0x1_0000_0000_0000 == t2 % 0x1_0000_0000_0000 && c1 == c2
      && r1[0] % 64 == r2[0] % 64 && r1[1..] == r2[1..]
  {
    if Format(t1, c1, r1) == Format(t2, c2, r2) {
      var a, b := Bytes(t1, c1, r1), Bytes(t2, c2, r2);
      DashedInjective(a, b);
      assert a[..6] == BigEndian(t1 % TIME_RANGE, 6) && b[..6] == BigEndian(t2 % TIME_RANGE, 6);
      assert Pow256(6) == TIME_RANGE by { assert Pow256(3) == 0x100_0000; }
      ValueOfBigEndian(t1 % TIME_RANGE, 6);
      ValueOfBigEndian(t2 % TIME_RANGE, 6);
      assert a[6] == b[6] && a[7] == b[7] && a[8] == b[8];
      assert a[9..] == r1[1..] && b[9..] == r2[1..];
    }
  }
}
