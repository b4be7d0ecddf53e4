/** Request identifiers: 48 bits of clock, 80 bits of spread counter, 26 base-32 digits. */
module RequestIds {
  import opened Basics

  const ALPHABET := "0123456789ABCDEFGHJKMNPQRSTVWXYZ"
  const SPREAD := 0x9E37_79B9_7F4A_7C15
  const WIDTH := 26

  const CLOCK_BITS: nat := 48
  const SPREAD_BITS: nat := 80
  const VALUE_BITS: nat := 128
  const COUNTER_BITS: nat := 64

  function Pow2(k: nat): (r: nat)
    ensures r > 0
  {
    if k == 0 then 1 else 2 * Pow2(k - 1)
  }

  function Digit(d: nat): char
    requires d < 32
  {
    ALPHABET[d]
  }

  /** The last `n` base-32 digits of `v`, most significant first. */
  function Encode(v: nat, n: nat): (s: string)
    ensures |s| == n
  {
    if n == 0 then [] else Encode(v / 32, n - 1) + [Digit(v % 32)]
  }

  /** The clock above, the counter spread over the 80 bits below. */
  function Value(ms: nat, counter: nat): nat {
    High(ms) * Pow2(SPREAD_BITS) + Low(counter)
  }

  function High(ms: nat): (h: nat)
    ensures h < Pow2(CLOCK_BITS)
  {
    ms % Pow2(CLOCK_BITS)
  }

  function Low(counter: nat): (l: nat)
    ensures l < Pow2(SPREAD_BITS)
  {
    counter * SPREAD % Pow2(VALUE_BITS) % Pow2(SPREAD_BITS)
  }

  function Id(ms: nat, counter: nat): string {
    Encode(Value(ms, counter), WIDTH)
  }

  function Next(counter: nat): (r: nat)
    ensures r < Pow2(COUNTER_BITS)
  {
    (counter + 1) % Pow2(COUNTER_BITS)
  }

  // ---------- the code ----------

  class Generator {
    var counter: nat

    predicate Valid()
      reads this
    {
      counter < Pow2(COUNTER_BITS)
    }

    constructor ()
      ensures Valid() && counter == 0
    {
      counter := 0;
    }

    method RequestId(ms: nat) returns (id: string)
      requires Valid()
      modifies this
      ensures Valid() && counter == Next(old(counter))
      ensures id == Id(ms, old(counter))
    {
      var value := Value(ms, counter);
      counter := Next(counter);
      id := EncodeLoop(value);
    }
  }

  /** Fills the slots from the last to the first, five bits at a time. */
  method EncodeLoop(value: nat) returns (id: string)
    ensures id == Encode(value, WIDTH)
  {
    var v := value;
    var out := new char[WIDTH](i => '0');
    var k := WIDTH;
    while k > 0
      invariant 0 <= k <= WIDTH
      invariant Encode(value, WIDTH) == Encode(v, k) + out[k..]
    {
      k := k - 1;
      ghost var later := out[k + 1..];
      out[k] := Digit(v % 32);
      assert out[k..] == [Digit(v % 32)] + later;
      v := v / 32;
    }
    return out[..];
  }

  // ---------- order ----------

  lemma {:induction false} NextDigit(c: nat)
    requires c < 31
    ensures Digit(c) < Digit(c + 1)
  {}

  lemma {:induction false} DigitsAscend(c: nat, d: nat)
    requires c < d < 32
    ensures Digit(c) < Digit(d)
    decreases d
  {
    NextDigit(d - 1);
    if c < d - 1 {
      DigitsAscend(c, d - 1);
    }
  }

  lemma {:induction false} DigitOrder(c: nat, d: nat)
    requires c < 32 && d < 32
    ensures c < d <==> Digit(c) < Digit(d)
  {
    if c < d {
      DigitsAscend(c, d);
    } else if d < c {
      DigitsAscend(d, c);
    }
  }

  lemma {:induction false} LessAppended(a: string, b: string, x: char, y: char)
    requires |a| == |b|
    ensures Less(a + [x], b + [y]) <==> Less(a, b) || (a == b && x < y)
    decreases |a|
  {
    if a == [] {
    } else {
      LessAppended(a[1..], b[1..], x, y);
      assert (a + [x])[1..] == a[1..] + [x] && (b + [y])[1..] == b[1..] + [y];
      assert a == [a[0]] + a[1..] && b == [b[0]] + b[1..];
    }
  }

  /** As many digits as hold both numbers order the strings as the numbers. */
  lemma {:induction false} EncodeOrder(u: nat, v: nat, n: nat)
    requires u < Pow2(5 * n) && v < Pow2(5 * n)
    ensures u < v <==> Less(Encode(u, n), Encode(v, n))
    ensures u == v <==> Encode(u, n) == Encode(v, n)
    decreases n
  {
    if n == 0 {
    } else {
      Pow2Split(5 * (n - 1), 5);
      assert Pow2(5) == 32;
      EncodeOrder(u / 32, v / 32, n - 1);
      LessAppended(Encode(u / 32, n - 1), Encode(v / 32, n - 1), Digit(u % 32), Digit(v % 32));
      DigitOrder(u % 32, v % 32);
      DigitOrder(v % 32, u % 32);
      LastDigit(u, v, n);
    }
  }

  lemma {:induction false} LastDigit(u: nat, v: nat, n: nat)
    requires n > 0
    ensures Encode(u, n) == Encode(v, n) <==>
              Encode(u / 32, n - 1) == Encode(v / 32, n - 1) && Digit(u % 32) == Digit(v % 32)
  {
    var s, t := Encode(u, n), Encode(v, n);
    assert s[..n - 1] == Encode(u / 32, n - 1) && t[..n - 1] == Encode(v / 32, n - 1);
    assert s[n - 1] == Digit(u % 32) && t[n - 1] == Digit(v % 32);
  }

  lemma {:induction false} Doubled(p: int, q: int)
    ensures 2 * (p * q) == p * (2 * q)
  {}

  lemma {:induction false} Pow2Split(i: nat, j: nat)
    ensures Pow2(i + j) == Pow2(i) * Pow2(j)
    decreases j
  {
    if j == 0 {
    } else {
      var p, q := Pow2(i), Pow2(j - 1);
      Pow2Split(i, j - 1);
      assert Pow2(i + j) == 2 * Pow2(i + (j - 1)) && Pow2(j) == 2 * q;
      Doubled(p, q);
    }
  }

  lemma {:induction false} Pow2Grows(i: nat, j: nat)
    requires i <= j
    ensures 1 <= Pow2(i) <= Pow2(j)
    decreases j
  {
    if i < j {
      Pow2Grows(i, j - 1);
    } else if j > 0 {
      Pow2Grows(j - 1, j - 1);
    }
  }

  lemma {:induction false} JoinBelow(high: nat, low: nat, p: nat, q: nat)
    requires high < p && low < q
    ensures high * q + low < p * q
  {
    assert high * q + q == (high + 1) * q;
    assert (high + 1) * q <= p * q;
  }

  lemma {:induction false} ValueFits(ms: nat, counter: nat)
    ensures Value(ms, counter) < Pow2(5 * WIDTH)
  {
    JoinBelow(High(ms), Low(counter), Pow2(CLOCK_BITS), Pow2(SPREAD_BITS));
    Pow2Split(CLOCK_BITS, SPREAD_BITS);
    Pow2Grows(VALUE_BITS, 5 * WIDTH);
  }

  /** Identifiers sort as strings exactly as their 128-bit values. */
  lemma {:induction false} IdsSortAsValues(ms: nat, c: nat, ms': nat, c': nat)
    ensures Less(Id(ms, c), Id(ms', c')) <==> Value(ms, c) < Value(ms', c')
    ensures Id(ms, c) == Id(ms', c') <==> Value(ms, c) == Value(ms', c')
  {
    ValueFits(ms, c);
    ValueFits(ms', c');
    EncodeOrder(Value(ms, c), Value(ms', c'), WIDTH);
  }

  lemma {:induction false} JoinOrder(h: nat, l: nat, h': nat, l': nat, q: nat)
    requires h < h' && l < q
    ensures h * q + l < h' * q + l'
  {
    JoinBelow(h, l, h', q);
  }

  lemma {:induction false} HigherSortsLater(ms: nat, c: nat, ms': nat, c': nat)
    requires High(ms) < High(ms')
    ensures Less(Id(ms, c), Id(ms', c'))
  {
    JoinOrder(High(ms), Low(c), High(ms'), Low(c'), Pow2(SPREAD_BITS));
    IdsSortAsValues(ms, c, ms', c');
  }

  lemma {:induction false} Widths()
    ensures Pow2(48) == 0x1_0000_0000_0000 && Pow2(64) == 0x1_0000_0000_0000_0000
    ensures Pow2(80) == 0x1_0000_0000_0000_0000_0000
  {
    assert Pow2(8) == 256;
    hide Pow2;
    Pow2Split(8, 8);
    Pow2Split(16, 16);
    Pow2Split(32, 16);
    Pow2Split(32, 32);
    Pow2Split(64, 16);
  }

  /** The clock readings lie in the same 2^48 milliseconds, the second later. */
  predicate LaterInEra(ms: nat, ms': nat) {
    ms < ms' && ms / 0x1_0000_0000_0000 == ms' / 0x1_0000_0000_0000
  }

  /** A later millisecond sorts later, until the 48 bits of clock start over. */
  lemma {:induction false} LaterSortsLater(ms: nat, c: nat, ms': nat, c': nat)
    requires LaterInEra(ms, ms')
    ensures Less(Id(ms, c), Id(ms', c'))
  {
    Widths();
    HigherSortsLater(ms, c, ms', c');
  }

  // ---------- what an identifier says ----------

  /** The place of a digit in the alphabet. */
  predicate Worth(c: char, d: nat) {
    d < 32 && "0123456789ABCDEFGHJKMNPQRSTVWXYZ"[d] == c
  }

  /** `s` is `v` in base 32, most significant digit first. */
  predicate Spells(s: string, v: nat) {
    if s == [] then v == 0
    else Worth(s[|s| - 1], v % 32) && Spells(s[..|s| - 1], v / 32)
  }

  lemma {:induction false} EncodeSpells(v: nat, n: nat)
    requires v < Pow2(5 * n)
    ensures Spells(Encode(v, n), v)
    decreases n
  {
    if n == 0 {
    } else {
      Pow2Split(5 * (n - 1), 5);
      assert Pow2(5) == 32;
      EncodeSpells(v / 32, n - 1);
      var s := Encode(v, n);
      assert s[..n - 1] == Encode(v / 32, n - 1);
      assert Worth(s[n - 1], v % 32);
    }
  }

  /** An identifier is 26 base-32 digits: the clock modulo 2^48 above 80 bits of the counter times a constant. */
  lemma {:induction false} IdSays(ms: nat, c: nat)
    ensures |Id(ms, c)| == 26
    ensures Spells(Id(ms, c), ms % 0x1_0000_0000_0000 * 0x1_0000_0000_0000_0000_0000
                              + c * 0x9E37_79B9_7F4A_7C15 % 0x1_0000_0000_0000_0000_0000)
  {
    Widths();
    LowIsSpread(c);
    ValueFits(ms, c);
    EncodeSpells(Value(ms, c), 26);
  }

  // ---------- uniqueness ----------

  lemma {:induction false} OddTimesOdd(d: int, c: int)
    requires d % 2 == 1 && c % 2 == 1
    ensures (d * c) % 2 == 1
  {
    var i, j := d / 2, c / 2;
    assert d * c == 2 * (2 * i * j + i + j) + 1;
  }

  lemma {:induction false} OddFactor(d: int, c: int)
    requires c % 2 == 1 && (d * c) % 2 == 0
    ensures d % 2 == 0
  {
    if d % 2 == 1 {
      OddTimesOdd(d, c);
    }
  }

  /** An odd factor cancels modulo any power of two. */
  lemma {:induction false} OddCancels(d: int, c: int, k: nat, q: int) returns (z: int)
    requires c % 2 == 1 && d * c == q * Pow2(k)
    ensures d == z * Pow2(k)
    decreases k
  {
    if k == 0 {
      z := d;
    } else {
      var p := Pow2(k - 1);
      assert q * Pow2(k) == 2 * (q * p);
      OddFactor(d, c);
      var e := d / 2;
      assert d * c == 2 * (e * c);
      z := OddCancels(e, c, k - 1, q);
      assert z * Pow2(k) == 2 * (z * p);
    }
  }

  lemma {:induction false} SmallMultiple(d: nat, z: int, p: nat)
    requires d == z * p && d < p
    ensures d == 0
  {
    Multiples(z, p);
  }

  /** The remainders agree, so the difference is a multiple. */
  lemma {:induction false} SameRemainder(a: nat, b: nat, p: nat) returns (q: int)
    requires p > 0 && a % p == b % p
    ensures b - a == q * p
  {
    q := b / p - a / p;
    assert b == (b / p) * p + b % p && a == (a / p) * p + a % p;
  }

  /** Reducing by the wider power first changes nothing. */
  lemma {:induction false} NestedRemainder(x: nat, p: nat, r: nat)
    requires p > 0 && r > 0 && r * p > 0
    ensures x % (r * p) % p == x % p
  {
    var a := x / (r * p);
    var y := x % (r * p);
    Regroup(a, r, p);
    assert x == a * (r * p) + y;
    assert y == (y / p) * p + y % p;
    Distributes(a * r, y / p, p);
    Remainder(x, a * r + y / p, y % p, p);
  }

  lemma {:induction false} Regroup(a: int, r: int, p: int)
    ensures a * (r * p) == (a * r) * p
  {}

  lemma {:induction false} Distributes(a: int, b: int, p: int)
    ensures (a + b) * p == a * p + b * p
  {}

  lemma {:induction false} LowIsSpread(c: nat)
    ensures Low(c) == c * SPREAD % Pow2(SPREAD_BITS)
  {
    Pow2Split(CLOCK_BITS, SPREAD_BITS);
    NestedRemainder(c * SPREAD, Pow2(SPREAD_BITS), Pow2(CLOCK_BITS));
  }

  /** The spread is injective on 64-bit counters. */
  lemma {:induction false} SpreadInjective(c: nat, d: nat)
    requires c <= d < Pow2(COUNTER_BITS) && Low(c) == Low(d)
    ensures c == d
  {
    LowIsSpread(c);
    LowIsSpread(d);
    Pow2Grows(COUNTER_BITS, SPREAD_BITS);
    var q := SameRemainder(c * SPREAD, d * SPREAD, Pow2(SPREAD_BITS));
    assert (d - c) * SPREAD == q * Pow2(SPREAD_BITS);
    var z := OddCancels(d - c, SPREAD, SPREAD_BITS, q);
    SmallMultiple(d - c, z, Pow2(SPREAD_BITS));
  }

  lemma {:induction false} LowPart(high: nat, low: nat, high': nat, low': nat, q: nat)
    requires high * q + low == high' * q + low' && low < q && low' < q
    ensures low == low'
  {
    Remainder(high * q + low, high, low, q);
    Remainder(high' * q + low', high', low', q);
  }

  /** Different 64-bit counters never give the same identifier, whatever the clock read. */
  lemma {:induction false} IdsAreDistinct(c: nat, ms: nat, d: nat, ms': nat)
    requires c < d < Pow2(COUNTER_BITS)
    ensures Id(ms, c) != Id(ms', d)
  {
    IdsSortAsValues(ms, c, ms', d);
    if Value(ms, c) == Value(ms', d) {
      LowPart(High(ms), Low(c), High(ms'), Low(d), Pow2(SPREAD_BITS));
      SpreadInjective(c, d);
    }
  }

  // ---------- a process ----------

  /** The counter a process draws for its `k`-th call. */
  function Drawn(k: nat): nat {
    if k == 0 then 0 else Next(Drawn(k - 1))
  }

  lemma {:induction false} NextSmall(c: nat)
    requires c + 1 < Pow2(COUNTER_BITS)
    ensures Next(c) == c + 1
  {
    Remainder(c + 1, 0, c + 1, Pow2(COUNTER_BITS));
  }

  lemma {:induction false} DrawnIsPosition(k: nat)
    requires k < Pow2(COUNTER_BITS)
    ensures Drawn(k) == k
    decreases k
  {
    if k == 0 {
    } else {
      DrawnIsPosition(k - 1);
      NextSmall(k - 1);
    }
  }

  /** The identifiers of a process whose calls read these clocks. */
  function Issued(clocks: seq<nat>): (ids: seq<string>)
    ensures |ids| == |clocks|
  {
    seq(|clocks|, k requires 0 <= k < |clocks| => Id(clocks[k], Drawn(k)))
  }

  /** Calling the generator once per clock reading, from its first call on. */
  method IssueAll(clocks: seq<nat>) returns (ids: seq<string>)
    ensures ids == Issued(clocks)
  {
    hide Id, Issued, Pow2;
    var g := new Generator();
    ids := [];
    for k := 0 to |clocks|
      invariant fresh(g) && g.Valid() && g.counter == Drawn(k)
      invariant ids == Issued(clocks)[..k]
    {
      var id := g.RequestId(clocks[k]);
      IssuedNext(ids, clocks, k, id);
      ids := ids + [id];
    }
  }

  lemma {:induction false} IssuedNext(ids: seq<string>, clocks: seq<nat>, k: nat, id: string)
    requires k < |clocks| && ids == Issued(clocks)[..k] && id == Id(clocks[k], Drawn(k))
    ensures ids + [id] == Issued(clocks)[..k + 1]
  {
    assert Issued(clocks)[k] == id;
    TakeOneMore(Issued(clocks), k);
  }

  lemma {:induction false} TakeOneMore(s: seq<string>, k: nat)
    requires k < |s|
    ensures s[..k] + [s[k]] == s[..k + 1]
  {}

  /** The first 2^64 identifiers of a process are pairwise distinct, whatever the clock read, and one with a
      later clock sorts later. */
  lemma {:induction false} IssuedAreDistinct(clocks: seq<nat>, i: nat, j: nat)
    requires i < j < |clocks| <= Pow2(COUNTER_BITS)
    ensures Issued(clocks)[i] != Issued(clocks)[j]
    ensures LaterInEra(clocks[i], clocks[j]) ==> Less(Issued(clocks)[i], Issued(clocks)[j])
  {
    DrawnIsPosition(i);
    DrawnIsPosition(j);
    IdsAreDistinct(i, clocks[i], j, clocks[j]);
    if LaterInEra(clocks[i], clocks[j]) {
      LaterSortsLater(clocks[i], i, clocks[j], j);
    }
  }
}
