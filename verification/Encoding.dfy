// Byte strings: big-endian numbers and parts of longer strings.
module Encoding {
  import opened Objects

  function BigEndian(b: Bytes): nat {
    if b == [] then 0 else BigEndian(b[..|b| - 1]) * 256 + b[|b| - 1] as nat
  }

  // The low `n` bytes of a number, most significant first.
  function ToBigEndian(value: nat, n: nat): (r: Bytes)
    ensures |r| == n
  {
    if n == 0 then [] else ToBigEndian(value / 256, n - 1) + [(value % 256) as byte]
  }

  lemma {:induction false} BigEndianInverse(value: nat, n: nat)
    requires value < Pow(256, n)
    ensures BigEndian(ToBigEndian(value, n)) == value
  {
    if n > 0 {
      var r := ToBigEndian(value, n);
      assert Pow(256, n) == 256 * Pow(256, n - 1);
      BigEndianInverse(value / 256, n - 1);
      assert r[..n - 1] == ToBigEndian(value / 256, n - 1);
    }
  }

  lemma {:induction false} ToBigEndianInverse(b: Bytes)
    ensures BigEndian(b) < Pow(256, |b|) && ToBigEndian(BigEndian(b), |b|) == b
  {
    if b != [] {
      ToBigEndianInverse(b[..|b| - 1]);
      assert Pow(256, |b|) == 256 * Pow(256, |b| - 1);
      assert BigEndian(b) / 256 == BigEndian(b[..|b| - 1]);
      assert b == b[..|b| - 1] + [b[|b| - 1]];
    }
  }

  // These bytes stand at this position.
  predicate Occurs(b: Bytes, at: nat, part: Bytes) {
    at + |part| <= |b| && b[at..at + |part|] == part
  }

  lemma OccursBoth(b: Bytes, at: nat, first: Bytes, second: Bytes)
    ensures Occurs(b, at, first + second) <==> Occurs(b, at, first) && Occurs(b, at + |first|, second)
  {
    if Occurs(b, at, first) && Occurs(b, at + |first|, second) {
      assert b[at..at + |first + second|] == first + second;
    }
    if Occurs(b, at, first + second) {
      assert first == (first + second)[..|first|] && second == (first + second)[|first|..];
    }
  }

  lemma OccursFits(b: Bytes, at: nat, part: Bytes)
    requires Occurs(b, at, part)
    ensures at + |part| <= |b|
  {
  }

  lemma OneByte(b: Bytes, at: nat, header: byte)
    requires Occurs(b, at, [header])
    ensures at < |b| && b[at] == header
  {
    assert b[at..at + 1][0] == header;
  }

  lemma Slices(b: Bytes, at: nat, middle: nat, end: nat)
    requires at <= middle <= end <= |b|
    ensures b[at..end] == b[at..middle] + b[middle..end]
  {
  }

  lemma {:induction false} BigEndianFront(b: Bytes)
    requires b != []
    ensures BigEndian(b) == b[0] as nat * Pow(256, |b| - 1) + BigEndian(b[1..])
  {
    if |b| > 1 {
      BigEndianFront(b[..|b| - 1]);
      assert b[..|b| - 1][1..] == b[1..][..|b| - 2] && b[1..][|b| - 2] == b[|b| - 1];
      assert Pow(256, |b| - 1) == 256 * Pow(256, |b| - 2);
    } else {
      assert b[..0] == [] && b[1..] == [];
    }
  }

  // A big-endian number in two's complement.
  function TwosComplement(b: Bytes): int {
    if b != [] && b[0] as nat >= 128 then BigEndian(b) - Pow(256, |b|) else BigEndian(b)
  }
}
