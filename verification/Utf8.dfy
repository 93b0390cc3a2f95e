// What counts as text: the bytes that are scalar values one after the other, each in the
// form that section 3 of RFC 3629 gives it.
module Utf8 {
  import opened Objects
  import opened Cbor

  predicate IsScalar(c: nat) {
    c <= 0x10_FFFF && !(0xD800 <= c <= 0xDFFF)
  }

  function EncodeScalar(c: nat): (b: Bytes)
    requires IsScalar(c)
    ensures b != []
  {
    if c < 0x80 then [c as byte]
    else if c < 0x800 then [(0xC0 + c / 64) as byte, (0x80 + c % 64) as byte]
    else if c < 0x1_0000 then [(0xE0 + c / 4096) as byte, (0x80 + c / 64 % 64) as byte, (0x80 + c % 64) as byte]
    else
      [(0xF0 + c / 0x4_0000) as byte, (0x80 + c / 4096 % 64) as byte, (0x80 + c / 64 % 64) as byte, (0x80 + c % 64) as byte]
  }

  predicate AreScalars(text: seq<nat>) {
    forall i :: 0 <= i < |text| ==> IsScalar(text[i])
  }

  function EncodeText(text: seq<nat>): Bytes
    requires AreScalars(text)
  {
    if text == [] then [] else EncodeScalar(text[0]) + EncodeText(text[1..])
  }

  // The bytes begin with the form of one scalar value, in `n` bytes.
  predicate Begins(b: Bytes, n: nat) {
    && 1 <= n <= 4 && n <= |b|
    && if n == 1 then b[0] as nat < 0x80
       else
         && (forall i :: 1 <= i < n ==> 0x80 <= b[i] as nat < 0xC0)
         && if n == 2 then 0xC2 <= b[0] as nat < 0xE0
            else if n == 3 then
              0xE0 <= b[0] as nat < 0xF0 && (b[0] as nat == 0xE0 ==> b[1] as nat >= 0xA0) && (b[0] as nat == 0xED ==> b[1] as nat < 0xA0)
            else 0xF0 <= b[0] as nat < 0xF5 && (b[0] as nat == 0xF0 ==> b[1] as nat >= 0x90) && (b[0] as nat == 0xF4 ==> b[1] as nat < 0x90)
  }

  // ... and text comes behind it.
  predicate Follows(b: Bytes, n: nat) {
    Begins(b, n) && IsUtf8(b[n..])
  }

  lemma Utf8Step(b: Bytes)
    requires b != []
    ensures IsUtf8(b) <==> exists n: nat :: Follows(b, n)
  {
    if IsUtf8(b) {
      var n := if b[0] as nat < 0x80 then 1 else if b[0] as nat < 0xE0 then 2 else if b[0] as nat < 0xF0 then 3 else 4;
      assert Follows(b, n);
    }
  }

  // The number with these digits to the base 64.
  lemma DigitsOf(p: nat, q: nat, r: nat, s: nat)
    requires q < 64 && r < 64 && s < 64
    ensures var v := p * 0x4_0000 + q * 4096 + r * 64 + s;
      v / 0x4_0000 == p && v / 4096 % 64 == q && v / 64 % 64 == r && v % 64 == s && v / 4096 == p * 64 + q && v / 64 == p * 4096 + q * 64 + r
  {
    var v := p * 0x4_0000 + q * 4096 + r * 64 + s;
    assert v / 64 == p * 4096 + q * 64 + r;
    assert v / 4096 == p * 64 + q;
    assert v / 0x4_0000 == p;
  }

  function Digit(b: Bytes, i: nat): nat {
    if i < |b| && b[i] as nat >= 0x80 then b[i] as nat - 0x80 else 0
  }

  function FormValue(b: Bytes, n: nat): nat
    requires Begins(b, n)
  {
    if n == 1 then b[0] as nat
    else if n == 2 then (b[0] as nat - 0xC0) * 64 + Digit(b, 1)
    else if n == 3 then (b[0] as nat - 0xE0) * 4096 + Digit(b, 1) * 64 + Digit(b, 2)
    else (b[0] as nat - 0xF0) * 0x4_0000 + Digit(b, 1) * 4096 + Digit(b, 2) * 64 + Digit(b, 3)
  }

  lemma EncodeDigits(p: nat, q: nat, r: nat, s: nat)
    requires p < 5 && q < 64 && r < 64 && s < 64 && IsScalar(p * 0x4_0000 + q * 4096 + r * 64 + s)
    ensures var c := p * 0x4_0000 + q * 4096 + r * 64 + s;
      EncodeScalar(c) ==
        if c < 0x80 then [c as byte]
        else if c < 0x800 then [(0xC0 + r) as byte, (0x80 + s) as byte]
        else if c < 0x1_0000 then [(0xE0 + q) as byte, (0x80 + r) as byte, (0x80 + s) as byte]
        else [(0xF0 + p) as byte, (0x80 + q) as byte, (0x80 + r) as byte, (0x80 + s) as byte]
  {
    DigitsOf(p, q, r, s);
  }

  // What the bytes begin with is the form of that value.
  lemma FormReads(b: Bytes, n: nat)
    requires Begins(b, n)
    ensures IsScalar(FormValue(b, n)) && EncodeScalar(FormValue(b, n)) == b[..n]
  {
    hide EncodeScalar;
    if n == 1 {
      EncodeDigits(0, 0, b[0] as nat / 64, b[0] as nat % 64);
    } else if n == 2 {
      EncodeDigits(0, 0, b[0] as nat - 0xC0, Digit(b, 1));
      assert b[..2] == [b[0], b[1]];
    } else if n == 3 {
      EncodeDigits(0, b[0] as nat - 0xE0, Digit(b, 1), Digit(b, 2));
      assert b[..3] == [b[0], b[1], b[2]];
    } else {
      EncodeDigits(b[0] as nat - 0xF0, Digit(b, 1), Digit(b, 2), Digit(b, 3));
      assert b[..4] == [b[0], b[1], b[2], b[3]];
    }
  }

  lemma TwoBegin(x: byte, y: byte, rest: Bytes)
    requires 0xC2 <= x as nat < 0xE0 && 0x80 <= y as nat < 0xC0
    ensures var b := [x, y] + rest; Begins(b, 2) && FormValue(b, 2) == (x as nat - 0xC0) * 64 + (y as nat - 0x80)
  {
  }

  lemma ThreeBegin(x: byte, y: byte, z: byte, rest: Bytes)
    requires 0xE0 <= x as nat < 0xF0 && 0x80 <= y as nat < 0xC0 && 0x80 <= z as nat < 0xC0
    requires (x as nat == 0xE0 ==> y as nat >= 0xA0) && (x as nat == 0xED ==> y as nat < 0xA0)
    ensures var b := [x, y, z] + rest;
      Begins(b, 3) && FormValue(b, 3) == (x as nat - 0xE0) * 4096 + (y as nat - 0x80) * 64 + (z as nat - 0x80)
  {
  }

  lemma FourBegin(w: byte, x: byte, y: byte, z: byte, rest: Bytes)
    requires 0xF0 <= w as nat < 0xF5 && 0x80 <= x as nat < 0xC0 && 0x80 <= y as nat < 0xC0 && 0x80 <= z as nat < 0xC0
    requires (w as nat == 0xF0 ==> x as nat >= 0x90) && (w as nat == 0xF4 ==> x as nat < 0x90)
    ensures var b := [w, x, y, z] + rest;
      Begins(b, 4)
      && FormValue(b, 4) == (w as nat - 0xF0) * 0x4_0000 + (x as nat - 0x80) * 4096 + (y as nat - 0x80) * 64 + (z as nat - 0x80)
  {
  }

  // Every value has these digits.
  lemma Digits(c: nat)
    ensures c == c / 0x4_0000 * 0x4_0000 + c / 4096 % 64 * 4096 + c / 64 % 64 * 64 + c % 64
  {
    assert c == c / 64 * 64 + c % 64;
    assert c / 64 == c / 64 / 64 * 64 + c / 64 % 64;
    assert c / 64 / 64 == c / 4096;
    assert c / 4096 == c / 4096 / 64 * 64 + c / 4096 % 64;
    assert c / 4096 / 64 == c / 0x4_0000;
  }

  // The form of a value begins as one should, and has that value.
  lemma FormOf(p: nat, q: nat, r: nat, s: nat, rest: Bytes)
    requires q < 64 && r < 64 && s < 64 && IsScalar(p * 0x4_0000 + q * 4096 + r * 64 + s)
    ensures var c := p * 0x4_0000 + q * 4096 + r * 64 + s; var b := EncodeScalar(c) + rest;
      Begins(b, |EncodeScalar(c)|) && FormValue(b, |EncodeScalar(c)|) == c
  {
    hide Begins, FormValue;
    DigitsOf(p, q, r, s);
    var c := p * 0x4_0000 + q * 4096 + r * 64 + s;
    if c < 0x80 {
      OneBegins(c as byte, rest);
    } else if c < 0x800 {
      TwoBegin((0xC0 + r) as byte, (0x80 + s) as byte, rest);
    } else if c < 0x1_0000 {
      ThreeBegin((0xE0 + q) as byte, (0x80 + r) as byte, (0x80 + s) as byte, rest);
    } else {
      FourBegin((0xF0 + p) as byte, (0x80 + q) as byte, (0x80 + r) as byte, (0x80 + s) as byte, rest);
    }
  }

  lemma FormBegins(c: nat, rest: Bytes)
    requires IsScalar(c)
    ensures var b := EncodeScalar(c) + rest; Begins(b, |EncodeScalar(c)|) && FormValue(b, |EncodeScalar(c)|) == c
  {
    hide *;
    Digits(c);
    FormOf(c / 0x4_0000, c / 4096 % 64, c / 64 % 64, c % 64, rest);
  }

  lemma OneBegins(x: byte, rest: Bytes)
    requires x as nat < 0x80
    ensures var b := [x] + rest; Begins(b, 1) && FormValue(b, 1) == x as nat
  {
  }

  // Only one number of bytes can begin a text.
  lemma OneForm(b: Bytes, m: nat, n: nat)
    requires Begins(b, m) && Begins(b, n)
    ensures m == n
  {
  }

  lemma {:induction false} TextIsUtf8(text: seq<nat>)
    requires AreScalars(text)
    ensures IsUtf8(EncodeText(text))
  {
    hide IsUtf8, EncodeScalar, IsScalar, Begins, FormValue;
    if text == [] {
      NoText();
    } else {
      TextIsUtf8(text[1..]);
      FormBegins(text[0], EncodeText(text[1..]));
      Utf8Step(EncodeText(text));
      assert Follows(EncodeText(text), |EncodeScalar(text[0])|);
    }
  }

  lemma BeginsWithin(b: Bytes, n: nat)
    requires Begins(b, n)
    ensures 1 <= n <= |b|
  {
  }

  lemma NoText()
    ensures IsUtf8([])
  {
  }

  lemma {:induction false} Utf8IsText(b: Bytes) returns (text: seq<nat>)
    requires IsUtf8(b)
    ensures AreScalars(text) && EncodeText(text) == b
    decreases |b|
  {
    hide IsUtf8, EncodeScalar, IsScalar, Begins, FormValue;
    text := [];
    if b != [] {
      Utf8Step(b);
      var n: nat :| Follows(b, n);
      FormReads(b, n);
      BeginsWithin(b, n);
      var rest := Utf8IsText(b[n..]);
      text := [FormValue(b, n)] + rest;
      assert text[1..] == rest && b == b[..n] + b[n..];
    }
  }

  // Accepted as text are exactly the encodings of scalar values, ...
  lemma Utf8Exactly(b: Bytes)
    ensures IsUtf8(b) <==> exists text :: AreScalars(text) && EncodeText(text) == b
  {
    hide IsUtf8, EncodeText, AreScalars;
    if IsUtf8(b) {
      var text := Utf8IsText(b);
    }
    forall text | AreScalars(text) && EncodeText(text) == b
      ensures IsUtf8(b)
    {
      TextIsUtf8(text);
    }
  }

  // ... and no two texts have one encoding.
  lemma {:induction false} OneText(x: seq<nat>, y: seq<nat>)
    requires AreScalars(x) && AreScalars(y) && EncodeText(x) == EncodeText(y)
    ensures x == y
  {
    hide IsUtf8, EncodeScalar, IsScalar, Begins, FormValue;
    if x != [] && y != [] {
      FormBegins(x[0], EncodeText(x[1..]));
      FormBegins(y[0], EncodeText(y[1..]));
      OneForm(EncodeText(x), |EncodeScalar(x[0])|, |EncodeScalar(y[0])|);
      assert EncodeText(x)[|EncodeScalar(x[0])|..] == EncodeText(x[1..]);
      assert EncodeText(y)[|EncodeScalar(y[0])|..] == EncodeText(y[1..]);
      OneText(x[1..], y[1..]);
      assert x == [x[0]] + x[1..] && y == [y[0]] + y[1..];
    }
  }
}
