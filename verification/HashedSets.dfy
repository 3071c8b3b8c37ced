/**
  The set hash shared with the dashboard: the XOR of a dual djb2 hash over the UTF-16
  code units of every member. Words are unsigned 32-bit integers with wrap-around.
 */
module HashedSets {
  const MODULUS := 0x1_0000_0000

  type Word = w: int | 0 <= w < MODULUS
  type Rune = r: int | 0 <= r <= 0x10_FFFF
  type CodeUnit = u: int | 0 <= u < 0x1_0000
  type Text = seq<Rune>

  datatype Words = Words(high: Word, low: Word)

  // ---- Bitwise exclusive or ----

  function Xor(a: nat, b: nat): nat
    decreases a + b
  {
    if a == 0 && b == 0 then 0 else 2 * Xor(a / 2, b / 2) + (a + b) % 2
  }

  lemma {:induction false} XorCommutes(a: nat, b: nat)
    ensures Xor(a, b) == Xor(b, a)
    decreases a + b
  {
    if a + b > 0 { XorCommutes(a / 2, b / 2); }
  }

  lemma {:induction false} XorAssociates(a: nat, b: nat, c: nat)
    ensures Xor(Xor(a, b), c) == Xor(a, Xor(b, c))
    decreases a + b + c
  {
    hide Xor;
    XorHalf(a, b);
    XorHalf(b, c);
    XorHalf(Xor(a, b), c);
    XorHalf(a, Xor(b, c));
    if a + b + c > 0 {
      XorAssociates(a / 2, b / 2, c / 2);
      SameParity(Xor(a, b), a + b, c);
      SameParity(Xor(b, c), b + c, a);
      assert a + b + c == b + c + a;
    } else {
      XorZero(0);
    }
  }

  lemma SameParity(x: nat, y: nat, z: nat)
    requires x % 2 == y % 2
    ensures (x + z) % 2 == (y + z) % 2 && (z + x) % 2 == (y + z) % 2
  {
  }

  lemma XorHalf(a: nat, b: nat)
    ensures Xor(a, b) / 2 == Xor(a / 2, b / 2) && Xor(a, b) % 2 == (a + b) % 2
    ensures Xor(a, b) == 2 * Xor(a / 2, b / 2) + (a + b) % 2
  {
    if a == 0 && b == 0 {
      assert Xor(0, 0) == 0;
    }
  }

  lemma {:induction false} XorSelf(a: nat)
    ensures Xor(a, a) == 0
  {
    if a > 0 { XorSelf(a / 2); }
  }

  lemma {:induction false} XorZero(a: nat)
    ensures Xor(a, 0) == a && Xor(0, a) == a
  {
    if a > 0 { XorZero(a / 2); }
  }

  function Pow(base: nat, n: nat): nat {
    if n == 0 then 1 else base * Pow(base, n - 1)
  }

  lemma {:induction false} PowAdd(base: nat, m: nat, n: nat)
    ensures Pow(base, m + n) == Pow(base, m) * Pow(base, n)
    decreases n
  {
    var p := Pow(base, m);
    if n > 0 {
      PowAdd(base, m, n - 1);
      var q := Pow(base, n - 1);
      assert Pow(base, n) == base * q && Pow(base, m + n) == base * Pow(base, m + n - 1);
      hide Pow;
      MulSwap(base, p, q);
    }
  }

  lemma MulSwap(x: nat, y: nat, z: nat)
    ensures x * (y * z) == y * (x * z)
  {
  }

  lemma PowersOfTwo()
    ensures Pow(2, 5) == 32 && Pow(2, 6) == 64 && Pow(2, 32) == MODULUS
  {
    assert Pow(2, 1) == 2 && Pow(2, 2) == 4 && Pow(2, 3) == 8 && Pow(2, 4) == 16 && Pow(2, 5) == 32;
    PowAdd(2, 4, 4);
    PowAdd(2, 8, 8);
    PowAdd(2, 16, 16);
  }

  lemma {:induction false} XorBound(a: nat, b: nat, n: nat)
    requires a < Pow(2, n) && b < Pow(2, n)
    ensures Xor(a, b) < Pow(2, n)
    decreases n
  {
    if n > 0 {
      XorBound(a / 2, b / 2, n - 1);
    }
  }

  function Xor32(a: Word, b: Word): Word {
    PowersOfTwo();
    XorBound(a, b, 32);
    Xor(a, b)
  }

  function XorWords(a: Words, b: Words): Words {
    Words(Xor32(a.high, b.high), Xor32(a.low, b.low))
  }

  const ZERO := Words(0, 0)

  lemma XorWordsLaws(a: Words, b: Words, c: Words)
    ensures XorWords(a, b) == XorWords(b, a)
    ensures XorWords(XorWords(a, b), c) == XorWords(a, XorWords(b, c))
    ensures XorWords(a, a) == ZERO && XorWords(a, ZERO) == a
  {
    XorCommutes(a.high, b.high);
    XorCommutes(a.low, b.low);
    XorAssociates(a.high, b.high, c.high);
    XorAssociates(a.low, b.low, c.low);
    XorSelf(a.high);
    XorSelf(a.low);
    XorZero(a.high);
    XorZero(a.low);
  }

  // ---- The string hash ----

  /** `utf16.Encode`, section 2.1 of RFC 2781; lone surrogates become U+FFFD. */
  function Utf16Encode(text: Text): seq<CodeUnit> {
    if text == [] then []
    else
      var r := text[|text| - 1];
      Utf16Encode(text[..|text| - 1])
      + (if 0x1_0000 <= r then [0xD800 + (r - 0x1_0000) / 0x400, 0xDC00 + (r - 0x1_0000) % 0x400]
         else if 0xD800 <= r < 0xE000 then [0xFFFD]
         else [r])
  }

  /** Value of the units as digits of the given base, most significant first. */
  function Digits(base: nat, units: seq<CodeUnit>): nat {
    if units == [] then 0 else units[0] * Pow(base, |units| - 1) + Digits(base, units[1..])
  }

  /** seed * base^n + scale * (u0 * base^(n-1) + ... + u(n-1)), modulo 2^32. */
  function ClosedForm(seed: nat, base: nat, scale: nat, units: seq<CodeUnit>): Word {
    (seed * Pow(base, |units|) + scale * Digits(base, units)) % MODULUS
  }

  lemma DigitsUnfold(base: nat, units: seq<CodeUnit>, u: CodeUnit)
    requires units != []
    ensures Digits(base, units) == units[0] * Pow(base, |units| - 1) + Digits(base, units[1..])
    ensures Digits(base, units + [u]) == units[0] * Pow(base, |units|) + Digits(base, units[1..] + [u])
    ensures Pow(base, |units|) == base * Pow(base, |units| - 1)
  {
    assert (units + [u])[1..] == units[1..] + [u];
  }

  lemma Horner(first: nat, base: nat, p: nat, rest: nat, u: nat)
    ensures first * (base * p) + (base * rest + u) == base * (first * p + rest) + u
  {
    MulSwap(first, base, p);
  }

  lemma {:induction false} DigitsAppend(base: nat, units: seq<CodeUnit>, u: CodeUnit)
    ensures Digits(base, units + [u]) == base * Digits(base, units) + u
  {
    if units == [] {
      assert [] + [u] == [u] && [u][1..] == [];
      assert Pow(base, 0) == 1;
    } else {
      hide Pow, Digits;
      DigitsAppend(base, units[1..], u);
      DigitsUnfold(base, units, u);
      Horner(units[0], base, Pow(base, |units| - 1), Digits(base, units[1..]), u);
    }
  }

  lemma ModStep(base: nat, x: nat, extra: nat)
    ensures (base * (x % MODULUS) + extra) % MODULUS == (base * x + extra) % MODULUS
  {
    var q, r := x / MODULUS, x % MODULUS;
    assert base * x == base * (MODULUS * q + r) == MODULUS * (base * q) + base * r;
    ModPlusMultiple(base * r + extra, base * q);
  }

  lemma ModPlusMultiple(a: nat, k: nat)
    ensures (a + MODULUS * k) % MODULUS == a % MODULUS
  {
  }

  lemma ClosedFormStep(seed: nat, base: nat, scale: nat, units: seq<CodeUnit>, u: CodeUnit)
    ensures ClosedForm(seed, base, scale, units + [u]) ==
              (base * ClosedForm(seed, base, scale, units) + u * scale) % MODULUS
  {
    var p, d := Pow(base, |units|), Digits(base, units);
    var x: nat := seed * p + scale * d;
    assert ClosedForm(seed, base, scale, units) == x % MODULUS;
    var p', d' := Pow(base, |units| + 1), Digits(base, units + [u]);
    assert ClosedForm(seed, base, scale, units + [u]) == (seed * p' + scale * d') % MODULUS;
    DigitsAppend(base, units, u);
    assert p' == base * p;
    hide Pow, Digits, ClosedForm;
    Factor(seed, base, scale, p, d, u);
    ModStep(base, x, u * scale);
  }

  lemma Factor(seed: nat, base: nat, scale: nat, p: nat, d: nat, u: nat)
    ensures seed * (base * p) + scale * (base * d + u) == base * (seed * p + scale * d) + u * scale
  {
    assert seed * (base * p) == base * (seed * p);
    assert scale * (base * d + u) == base * (scale * d) + u * scale;
  }

  /** The value the two djb2 loops compute. */
  function Hash(text: Text): Words {
    HashOfUnits(Utf16Encode(text))
  }

  function HashOfUnits(units: seq<CodeUnit>): Words {
    Words(ClosedForm(5381, 33, 1, units), ClosedForm(5387, 65, 37, units))
  }

  function Add32(a: Word, b: Word): Word {
    (a + b) % MODULUS
  }

  function Shl32(a: Word, k: nat): Word {
    (a * Pow(2, k)) % MODULUS
  }

  /** `djb2Dual`, with the shifts and wrapping additions of the loop. */
  method Djb2Dual(value: Text) returns (high: Word, low: Word)
    ensures Words(high, low) == Hash(value)
  {
    high, low := 5381, 5387;
    var units := Utf16Encode(value);
    assert Digits(33, []) == 0 && Digits(65, []) == 0 && Pow(33, 0) == 1 && Pow(65, 0) == 1;
    for i := 0 to |units|
      invariant high == ClosedForm(5381, 33, 1, units[..i])
      invariant low == ClosedForm(5387, 65, 37, units[..i])
    {
      var unit := units[i];
      assert units[..i + 1] == units[..i] + [unit];
      ClosedFormStep(5381, 33, 1, units[..i], unit);
      ClosedFormStep(5387, 65, 37, units[..i], unit);
      DualStep(high, low, unit);
      high := Add32(Add32(Shl32(high, 5), high), unit);
      low := Add32(Add32(Shl32(low, 6), low), (unit * 37) % MODULUS);
    }
    assert units[..|units|] == units;
  }

  lemma AddMod(x: nat, y: nat)
    ensures (x % MODULUS + y) % MODULUS == (x + y) % MODULUS
    ensures (y + x % MODULUS) % MODULUS == (x + y) % MODULUS
  {
  }

  lemma DualStep(high: Word, low: Word, unit: CodeUnit)
    ensures Add32(Add32(Shl32(high, 5), high), unit) == (33 * high + unit * 1) % MODULUS
    ensures Add32(Add32(Shl32(low, 6), low), (unit * 37) % MODULUS) == (65 * low + unit * 37) % MODULUS
  {
    PowersOfTwo();
    hide Pow;
    AddMod(high * 32, high);
    AddMod(33 * high, unit);
    AddMod(low * 64, low);
    AddMod(65 * low, (unit * 37) % MODULUS);
    AddMod(unit * 37, 65 * low);
  }

  /** What one more code unit does to both words. */
  function Mixed(w: Words, unit: CodeUnit): Words {
    Words((33 * w.high + unit) % 0x1_0000_0000, (65 * w.low + 37 * unit) % 0x1_0000_0000)
  }

  lemma HashOfNothing()
    ensures Hash([]) == Words(5381, 5387)
  {
    assert Pow(33, 0) == 1 && Pow(65, 0) == 1;
  }

  /**
    What one more character does to the hash. A character beyond the basic plane is mixed
    in as the surrogate pair that stands for it, a lone surrogate as U+FFFD. With the hash
    of nothing this determines the hash of every text.
   */
  lemma HashGrows(text: Text, r: Rune) returns (high: CodeUnit, low: CodeUnit)
    ensures r < 0xD800 || 0xE000 <= r < 0x1_0000 ==> Hash(text + [r]) == Mixed(Hash(text), r)
    ensures 0xD800 <= r < 0xE000 ==> Hash(text + [r]) == Mixed(Hash(text), 0xFFFD)
    ensures 0x1_0000 <= r ==>
              && 0xD800 <= high < 0xDC00 && 0xDC00 <= low < 0xE000
              && r == 0x1_0000 + 1024 * (high - 0xD800) + (low - 0xDC00)
              && Hash(text + [r]) == Mixed(Mixed(Hash(text), high), low)
  {
    var units := Utf16Encode(text);
    assert (text + [r])[..|text|] == text;
    assert Utf16Encode(text + [r]) == units + Utf16Encode([r]) by {
      assert [r][..0] == [];
    }
    high, low := 0, 0;
    if 0x1_0000 <= r {
      high, low := 0xD800 + (r - 0x1_0000) / 0x400, 0xDC00 + (r - 0x1_0000) % 0x400;
      assert units + [high, low] == units + [high] + [low];
      UnitMixed(units, high);
      UnitMixed(units + [high], low);
    } else {
      UnitMixed(units, if 0xD800 <= r < 0xE000 then 0xFFFD else r);
    }
  }

  lemma UnitMixed(units: seq<CodeUnit>, unit: CodeUnit)
    ensures HashOfUnits(units + [unit]) == Mixed(HashOfUnits(units), unit)
  {
    ClosedFormStep(5381, 33, 1, units, unit);
    ClosedFormStep(5387, 65, 37, units, unit);
  }

  // ---- The set ----

  /** XOR of the hashes of all members. */
  ghost function Fold(members: set<Text>): Words {
    if members == {} then ZERO
    else
      var x :| x in members;
      XorWords(Hash(x), Fold(members - {x}))
  }

  /** The fold does not depend on the order in which members are taken. */
  lemma {:induction false} FoldTakesAny(members: set<Text>, x: Text)
    requires x in members
    ensures Fold(members) == XorWords(Hash(x), Fold(members - {x}))
    decreases |members|
  {
    hide Hash, XorWords;
    var y :| y in members && Fold(members) == XorWords(Hash(y), Fold(members - {y}));
    if x != y {
      FoldTakesAny(members - {y}, x);
      FoldTakesAny(members - {x}, y);
      var rest := members - {x} - {y};
      assert members - {y} - {x} == rest;
      XorWordsLaws(Hash(y), Hash(x), Fold(rest));
      XorWordsLaws(Hash(x), Hash(y), Fold(rest));
    }
  }

  /** No member, one member, and two members whose words differ in some bits. */
  lemma SmallFolds(x: Text)
    ensures Fold({}) == Words(0, 0) && Fold({x}) == Hash(x)
    ensures XorWords(Words(0xC, 0x5), Words(0xA, 0x5)) == Words(0x6, 0)
  {
    FoldTakesAny({x}, x);
    assert {x} - {x} == {};
    XorWordsLaws(Hash(x), ZERO, ZERO);
    hide Fold, Hash;
    assert Xor(1, 1) == 0 && Xor(3, 2) == 1 && Xor(6, 5) == 3 && Xor(12, 10) == 6;
    XorSelf(5);
  }

  class HashedSet {
    var members: set<Text>
    var hashHigh: Word
    var hashLow: Word

    /** Both words are a function of the members alone. */
    ghost predicate Valid()
      reads this
    {
      Words(hashHigh, hashLow) == Fold(members)
    }

    constructor ()
      ensures Valid() && members == {}
    {
      members, hashHigh, hashLow := {}, 0, 0;
    }

    method Add(value: Text)
      requires Valid()
      modifies this
      ensures Valid() && members == old(members) + {value}
    {
      if value in members {
        return;
      }
      members := members + {value};
      var high, low := Djb2Dual(value);
      FoldTakesAny(members, value);
      assert members - {value} == old(members);
      XorWordsLaws(Words(hashHigh, hashLow), Hash(value), ZERO);
      hashHigh := Xor32(hashHigh, high);
      hashLow := Xor32(hashLow, low);
    }

    method Delete(value: Text) returns (existed: bool)
      requires Valid()
      modifies this
      ensures Valid() && members == old(members) - {value}
      ensures existed <==> value in old(members)
    {
      if value !in members {
        return false;
      }
      FoldTakesAny(members, value);
      members := members - {value};
      var high, low := Djb2Dual(value);
      CancelOut(Hash(value), Fold(members));
      hashHigh := Xor32(hashHigh, high);
      hashLow := Xor32(hashLow, low);
      return true;
    }

    /** `NewHashedSet(items...)`. */
    static method FromItems(items: seq<Text>) returns (s: HashedSet)
      ensures fresh(s) && s.Valid() && s.members == set x | x in items
    {
      s := new HashedSet();
      for i := 0 to |items|
        invariant s.Valid() && fresh(s)
        invariant s.members == set x | x in items[..i]
      {
        s.Add(items[i]);
        assert items[..i + 1] == items[..i] + [items[i]];
      }
      assert items[..|items|] == items;
    }
  }

  lemma CancelOut(h: Words, rest: Words)
    ensures XorWords(XorWords(h, rest), h) == rest
  {
    XorWordsLaws(h, rest, h);
    XorWordsLaws(h, h, rest);
    XorWordsLaws(XorWords(h, rest), h, h);
    XorWordsLaws(rest, h, h);
    XorWordsLaws(h, XorWords(h, rest), h);
  }
}
