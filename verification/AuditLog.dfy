/** The hash-chained audit log over any keyed hash. */
module AuditLog {
  newtype Byte = x: int | 0 <= x < 256

  type Bytes = seq<Byte>

  /** The keyed hash with its key fixed; nothing is known of it but its tag length. */
  type Mac = Bytes -> Bytes

  const TAG := 32
  const WORD := 0x1_0000_0000_0000_0000

  type U64 = n: int | 0 <= n < WORD

  ghost predicate FixedLength(mac: Mac) {
    forall m :: |mac(m)| == TAG
  }

  // ---------- encodings ----------

  /** `n` in `width` bytes, least significant first. */
  function LittleEndian(n: nat, width: nat): (r: Bytes)
    ensures |r| == width
  {
    if width == 0 then [] else [(n % 256) as Byte] + LittleEndian(n / 256, width - 1)
  }

  function Power256(k: nat): nat {
    if k == 0 then 1 else 256 * Power256(k - 1)
  }

  lemma {:induction false} LittleEndianInjective(m: nat, n: nat, width: nat)
    requires m < Power256(width) && n < Power256(width)
    requires LittleEndian(m, width) == LittleEndian(n, width)
    ensures m == n
    decreases width
  {
    if width == 0 {
    } else {
      var x, y := LittleEndian(m, width), LittleEndian(n, width);
      assert x[0] == y[0] && x[1..] == y[1..];
      LittleEndianInjective(m / 256, n / 256, width - 1);
    }
  }

  lemma {:induction false} WordIs8Bytes()
    ensures Power256(8) == WORD
  {
    assert Power256(4) == 0x1_0000_0000;
  }

  function HexDigit(d: int): Byte
    requires 0 <= d < 16
  {
    if d < 10 then (48 + d) as Byte else (87 + d) as Byte
  }

  /** Two lower-case digits per byte. */
  function Hex(b: Bytes): (r: Bytes)
    ensures |r| == 2 * |b|
  {
    if b == [] then [] else [HexDigit(b[0] as int / 16), HexDigit(b[0] as int % 16)] + Hex(b[1..])
  }

  lemma {:induction false} HexInjective(a: Bytes, b: Bytes)
    requires Hex(a) == Hex(b)
    ensures a == b
    decreases |a|
  {
    assert |a| == |b|;
    if a != [] {
      var x, y := Hex(a), Hex(b);
      assert x[0] == y[0] && x[1] == y[1] && x[2..] == Hex(a[1..]) && y[2..] == Hex(b[1..]);
      HexInjective(a[1..], b[1..]);
      assert a == [a[0]] + a[1..] && b == [b[0]] + b[1..];
    }
  }

  // ---------- the chain ----------

  datatype Entry = Entry(number: U64, event: Bytes, prev: Bytes, hash: Bytes)

  function Message(prev: Bytes, number: U64, event: Bytes): Bytes {
    prev + LittleEndian(number, 8) + event
  }

  function ChainHash(mac: Mac, prev: Bytes, number: U64, event: Bytes): Bytes {
    Hex(mac(Message(prev, number, event)))
  }

  type Log = seq<Entry>

  function Head(l: Log): Bytes {
    if l == [] then [] else l[|l| - 1].hash
  }

  predicate Linked(mac: Mac, e: Entry, prev: Bytes) {
    e.prev == prev && e.hash == ChainHash(mac, prev, e.number, e.event)
  }

  /** Every entry carries the hash before it, and its own hash chained onto that. */
  predicate Verifies(mac: Mac, l: Log) {
    l != [] ==> Linked(mac, l[|l| - 1], Head(Before(l))) && Verifies(mac, Before(l))
  }

  function Before(l: Log): Log
    requires l != []
  {
    l[..|l| - 1]
  }

  lemma {:induction false} PrefixVerifies(mac: Mac, l: Log, n: nat)
    requires Verifies(mac, l) && n <= |l|
    ensures Verifies(mac, l[..n])
    decreases |l|
  {
    if n == |l| {
      assert l[..n] == l;
    } else {
      PrefixVerifies(mac, Before(l), n);
      assert l[..n] == Before(l)[..n];
    }
  }

  function Wrap(n: nat): U64 {
    n % WORD
  }

  lemma {:induction false} NextNumber(n: nat)
    ensures Wrap(Wrap(n) + 1) == Wrap(n + 1)
  {}

  /** Numbers count up from zero, as 64-bit values. */
  predicate Numbered(l: Log) {
    forall i :: 0 <= i < |l| ==> l[i].number == Wrap(i)
  }

  function Appended(mac: Mac, l: Log, event: Bytes): Log {
    var number := if l == [] then 0 else Wrap(l[|l| - 1].number + 1);
    l + [Entry(number, event, Head(l), ChainHash(mac, Head(l), number, event))]
  }

  lemma {:induction false} AppendVerifies(mac: Mac, l: Log, event: Bytes)
    requires Verifies(mac, l)
    ensures Verifies(mac, Appended(mac, l, event))
  {
    assert Before(Appended(mac, l, event)) == l;
  }

  lemma {:induction false} AppendNumbers(mac: Mac, l: Log, event: Bytes)
    requires Numbered(l)
    ensures Numbered(Appended(mac, l, event))
  {
    if l != [] {
      NextNumber(|l| - 1);
    }
  }

  /** A log that verifies still does after an append, and numbers stay positions. */
  lemma {:induction false} AppendKeeps(mac: Mac, l: Log, event: Bytes)
    requires Verifies(mac, l) && Numbered(l)
    ensures Verifies(mac, Appended(mac, l, event)) && Numbered(Appended(mac, l, event))
    ensures Appended(mac, l, event)[|l|].number == Wrap(|l|) && Appended(mac, l, event)[|l|].event == event
  {
    AppendVerifies(mac, l, event);
    AppendNumbers(mac, l, event);
  }

  function AppendAll(mac: Mac, events: seq<Bytes>): Log {
    if events == [] then []
    else Appended(mac, AppendAll(mac, events[..|events| - 1]), events[|events| - 1])
  }

  /** Whatever was appended, the log verifies, numbers its entries by position and holds the events in order. */
  lemma {:induction false} AppendedLogsVerify(mac: Mac, events: seq<Bytes>)
    ensures var l := AppendAll(mac, events); Verifies(mac, l) && Numbered(l) && Records(l, events)
    decreases |events|
  {
    if events == [] {
    } else {
      var shorter := events[..|events| - 1];
      AppendedLogsVerify(mac, shorter);
      AppendKeeps(mac, AppendAll(mac, shorter), events[|events| - 1]);
      RecordsOneMore(mac, AppendAll(mac, shorter), events);
    }
  }

  /** The log holds exactly these events in order. */
  predicate Records(l: Log, events: seq<Bytes>) {
    |l| == |events| && forall i :: 0 <= i < |l| ==> l[i].event == events[i]
  }

  lemma {:induction false} RecordsOneMore(mac: Mac, l: Log, events: seq<Bytes>)
    requires events != [] && Records(l, events[..|events| - 1])
    ensures Records(Appended(mac, l, events[|events| - 1]), events)
  {}

  // ---------- what an entry says ----------

  /** The number these bytes stand for, least significant first. */
  function Reading(b: Bytes): nat {
    if b == [] then 0 else b[0] as int + 256 * Reading(b[1..])
  }

  lemma {:induction false} LittleEndianReads(n: nat, width: nat)
    requires n < Power256(width)
    ensures Reading(LittleEndian(n, width)) == n
    decreases width
  {
    if width == 0 {
    } else {
      LittleEndianReads(n / 256, width - 1);
      assert LittleEndian(n, width)[1..] == LittleEndian(n / 256, width - 1);
    }
  }

  lemma {:induction false} OneReading(a: Bytes, b: Bytes)
    requires |a| == |b| && Reading(a) == Reading(b)
    ensures a == b
    decreases |a|
  {
    if a == [] {
    } else {
      OneReading(a[1..], b[1..]);
      assert a == [a[0]] + a[1..] && b == [b[0]] + b[1..];
    }
  }

  /** The two bytes are the ASCII codes of the byte's lower-case hexadecimal digits. */
  predicate InDigits(b: Byte, high: Byte, low: Byte) {
    && high as int == "0123456789abcdef"[b as int / 16] as int
    && low as int == "0123456789abcdef"[b as int % 16] as int
  }

  /** `r` writes every byte of `b` as two hexadecimal digits. */
  ghost predicate InHex(b: Bytes, r: Bytes) {
    |r| == 2 * |b| && forall i :: 0 <= i < |b| ==> InDigits(b[i], r[2 * i], r[2 * i + 1])
  }

  lemma {:induction false} HexDigits(b: Byte)
    ensures InDigits(b, HexDigit(b as int / 16), HexDigit(b as int % 16))
  {}

  lemma {:induction false} HexAt(b: Bytes, i: nat)
    requires i < |b|
    ensures InDigits(b[i], Hex(b)[2 * i], Hex(b)[2 * i + 1])
    decreases |b|
  {
    hide InDigits, HexDigit;
    if i == 0 {
      HexDigits(b[0]);
    } else {
      HexAt(b[1..], i - 1);
      assert Hex(b)[2..] == Hex(b[1..]);
    }
  }

  lemma {:induction false} OneHex(b: Bytes, q: Bytes, r: Bytes)
    requires InHex(b, q) && InHex(b, r)
    ensures q == r
  {
    forall j | 0 <= j < |r|
      ensures q[j] == r[j]
    {
      var i := j / 2;
      assert InDigits(b[i], q[2 * i], q[2 * i + 1]) && InDigits(b[i], r[2 * i], r[2 * i + 1]);
      assert j == 2 * i || j == 2 * i + 1;
    }
  }

  lemma {:induction false} HexIs(b: Bytes, r: Bytes)
    ensures r == Hex(b) <==> InHex(b, r)
  {
    forall i | 0 <= i < |b|
      ensures InDigits(b[i], Hex(b)[2 * i], Hex(b)[2 * i + 1])
    {
      HexAt(b, i);
    }
    hide Hex, InDigits;
    assert InHex(b, Hex(b));
    if InHex(b, r) {
      OneHex(b, r, Hex(b));
    }
  }

  /** The entry continues a chain whose last hash is `prev`: it carries that hash, and its own is the tag
      of that hash, its number in eight bytes and its event, in hexadecimal. */
  ghost predicate Continues(mac: Mac, e: Entry, prev: Bytes) {
    && e.prev == prev
    && exists number: Bytes :: |number| == 8 && Reading(number) == e.number && InHex(mac(prev + number + e.event), e.hash)
  }

  lemma {:induction false} LinkedMeans(mac: Mac, e: Entry, prev: Bytes)
    ensures Linked(mac, e, prev) <==> Continues(mac, e, prev)
  {
    WordIs8Bytes();
    LittleEndianReads(e.number, 8);
    HexIs(mac(Message(prev, e.number, e.event)), e.hash);
    if Continues(mac, e, prev) {
      var number: Bytes :| |number| == 8 && Reading(number) == e.number && InHex(mac(prev + number + e.event), e.hash);
      OneReading(number, LittleEndian(e.number, 8));
    }
  }

  ghost predicate ContinuesAt(mac: Mac, l: Log, i: nat)
    requires i < |l|
  {
    Continues(mac, l[i], if i == 0 then [] else l[i - 1].hash)
  }

  ghost predicate AllContinue(mac: Mac, l: Log) {
    forall i :: 0 <= i < |l| ==> ContinuesAt(mac, l, i)
  }

  lemma {:induction false} AllButLast(mac: Mac, l: Log)
    requires l != []
    ensures AllContinue(mac, l) <==> AllContinue(mac, Before(l)) && ContinuesAt(mac, l, |l| - 1)
  {
    hide ContinuesAt;
    forall i | 0 <= i < |l| - 1
      ensures ContinuesAt(mac, Before(l), i) <==> ContinuesAt(mac, l, i)
    {
      ContinuesBefore(mac, l, i);
    }
  }

  /** A log verifies exactly if every entry continues the chain before it, the first one the empty chain. */
  lemma {:induction false} VerifiesIff(mac: Mac, l: Log)
    ensures Verifies(mac, l) <==> AllContinue(mac, l)
    decreases |l|
  {
    if l == [] {
    } else {
      VerifiesIff(mac, Before(l));
      AllButLast(mac, l);
      LastContinues(mac, l);
      hide AllContinue, ContinuesAt, Linked, Head;
    }
  }

  lemma {:induction false} ContinuesBefore(mac: Mac, l: Log, i: nat)
    requires i < |l| - 1
    ensures ContinuesAt(mac, Before(l), i) <==> ContinuesAt(mac, l, i)
  {
    hide Continues;
  }

  lemma {:induction false} LastContinues(mac: Mac, l: Log)
    requires l != []
    ensures ContinuesAt(mac, l, |l| - 1) <==> Linked(mac, l[|l| - 1], Head(Before(l)))
  {
    hide Continues, Linked;
    LinkedMeans(mac, l[|l| - 1], Head(Before(l)));
  }

  // ---------- binding ----------

  /** The two entries hash different messages to the same tag. */
  predicate Collide(mac: Mac, d: Entry, e: Entry) {
    var m, n := Message(d.prev, d.number, d.event), Message(e.prev, e.number, e.event);
    m != n && mac(m) == mac(n)
  }

  ghost predicate CollideAt(mac: Mac, l: Log, m: Log, d: nat) {
    1 <= d <= |l| && d <= |m| && Collide(mac, l[|l| - d], m[|m| - d])
  }

  /** Counting from the end, some pair of entries collides. */
  ghost predicate Colliding(mac: Mac, l: Log, m: Log) {
    exists d: nat :: CollideAt(mac, l, m, d)
  }

  /** Messages split one way only, once the chained hashes are equally long. */
  lemma {:induction false} MessageSplits(p: Bytes, s: U64, e: Bytes, q: Bytes, t: U64, f: Bytes)
    requires |p| == |q| && Message(p, s, e) == Message(q, t, f)
    ensures p == q && s == t && e == f
  {
    var m, k := Message(p, s, e), |p|;
    assert m[..k] == p && m[..k] == q;
    assert m[k..k + 8] == LittleEndian(s, 8) && m[k..k + 8] == LittleEndian(t, 8);
    assert m[k + 8..] == e && m[k + 8..] == f;
    WordIs8Bytes();
    LittleEndianInjective(s, t, 8);
  }

  /** The first entry of a numbered log never hashes the message of a later entry. */
  lemma {:induction false} GenesisDiffers(p: Bytes, s: U64, e: Bytes, f: Bytes)
    requires p != [] && p[0] != 0
    ensures Message(p, s, e) != Message([], 0, f)
  {
    assert Message(p, s, e)[0] == p[0];
    assert Message([], 0, f)[0] == LittleEndian(0, 8)[0];
  }

  lemma {:induction false} HeadLength(mac: Mac, l: Log)
    requires FixedLength(mac) && Verifies(mac, l) && l != []
    ensures |Head(l)| == 2 * TAG && Head(l)[0] != 0
  {
    var e := l[|l| - 1];
    var tag := mac(Message(e.prev, e.number, e.event));
    assert Head(l) == Hex(tag) && |tag| == TAG;
    assert Hex(tag)[0] == HexDigit(tag[0] as int / 16);
  }

  /** Entries at the same place in their chains with one hash: a collision, or the same entry. */
  lemma {:induction false} SameHash(mac: Mac, d: Entry, e: Entry, p: Bytes, q: Bytes)
    requires Linked(mac, d, p) && Linked(mac, e, q) && d.hash == e.hash
    requires |p| == |q|
    ensures Collide(mac, d, e) || d == e
  {
    var m, n := Message(d.prev, d.number, d.event), Message(e.prev, e.number, e.event);
    HexInjective(mac(m), mac(n));
    if m == n {
      MessageSplits(d.prev, d.number, d.event, e.prev, e.number, e.event);
    }
  }

  /** A first entry and a later one with one hash collide. */
  lemma {:induction false} GenesisCollides(mac: Mac, d: Entry, e: Entry, p: Bytes)
    requires Linked(mac, d, p) && Linked(mac, e, []) && d.hash == e.hash
    requires p != [] && p[0] != 0 && e.number == 0
    ensures Collide(mac, d, e) && Collide(mac, e, d)
  {
    HexInjective(mac(Message(d.prev, d.number, d.event)), mac(Message(e.prev, e.number, e.event)));
    GenesisDiffers(d.prev, d.number, d.event, e.event);
  }

  ghost predicate Comparable(l: Log, m: Log) {
    |l| == |m| || (Numbered(l) && Numbered(m))
  }

  lemma {:induction false} LastEntriesAgree(mac: Mac, l: Log, m: Log)
    requires FixedLength(mac) && Verifies(mac, l) && Verifies(mac, m) && l != [] && m != []
    requires Comparable(l, m) && Head(l) == Head(m)
    ensures Collide(mac, l[|l| - 1], m[|m| - 1]) || (l[|l| - 1] == m[|m| - 1] && (|l| == 1 <==> |m| == 1))
  {
    if |l| > 1 {
      HeadLength(mac, Before(l));
    }
    if |m| > 1 {
      HeadLength(mac, Before(m));
    }
    if |l| > 1 && |m| == 1 {
      GenesisCollides(mac, l[|l| - 1], m[0], Head(Before(l)));
    } else if |l| == 1 && |m| > 1 {
      GenesisCollides(mac, m[|m| - 1], l[0], Head(Before(m)));
    } else {
      SameHash(mac, l[|l| - 1], m[|m| - 1], Head(Before(l)), Head(Before(m)));
    }
  }

  lemma {:induction false} Descend(mac: Mac, l: Log, m: Log)
    requires Verifies(mac, l) && Verifies(mac, m) && |l| > 1 && |m| > 1 && Comparable(l, m)
    requires l[|l| - 1] == m[|m| - 1]
    ensures Verifies(mac, Before(l)) && Verifies(mac, Before(m)) && Comparable(Before(l), Before(m))
    ensures Head(Before(l)) == Head(Before(m))
  {}

  lemma {:induction false} Singletons(l: Log, m: Log)
    requires |l| == 1 == |m| && l[0] == m[0]
    ensures l == m
  {}

  /** The head binds the log: two logs that verify and end in the same hash are the same log, or
      hold an explicit pair of different messages with one tag. They must be equally long, or both
      numbered as appending numbers them. */
  lemma {:induction false} HeadBinds(mac: Mac, l: Log, m: Log)
    requires FixedLength(mac) && Verifies(mac, l) && Verifies(mac, m) && l != [] && m != []
    requires Comparable(l, m) && Head(l) == Head(m)
    ensures l == m || Colliding(mac, l, m)
    decreases |l|
  {
    LastEntriesAgree(mac, l, m);
    if Collide(mac, l[|l| - 1], m[|m| - 1]) {
      assert CollideAt(mac, l, m, 1);
    } else if |l| == 1 {
      Singletons(l, m);
    } else {
      Descend(mac, l, m);
      HeadBinds(mac, Before(l), Before(m));
      Extend(mac, l, m);
    }
  }

  lemma {:induction false} Extend(mac: Mac, l: Log, m: Log)
    requires l != [] && m != [] && l[|l| - 1] == m[|m| - 1]
    requires Before(l) == Before(m) || Colliding(mac, Before(l), Before(m))
    ensures l == m || Colliding(mac, l, m)
  {
    if Before(l) == Before(m) {
      assert l == Before(l) + [l[|l| - 1]] && m == Before(m) + [m[|m| - 1]];
    } else {
      var k: nat :| CollideAt(mac, Before(l), Before(m), k);
      assert CollideAt(mac, l, m, k + 1);
    }
  }

  // ---------- the code ----------

  class Audit {
    const mac: Mac
    var entries: Log

    constructor (mac: Mac)
      ensures this.mac == mac && entries == []
    {
      this.mac, entries := mac, [];
    }

    method Append(event: Bytes) returns (number: U64)
      modifies this
      ensures entries == Appended(mac, old(entries), event)
      ensures old(Verifies(mac, entries) && Numbered(entries)) ==>
                Verifies(mac, entries) && Numbered(entries) && number == Wrap(|old(entries)|)
    {
      ghost var before := entries;
      var prev: Bytes := [];
      number := 0;
      if entries != [] {
        var last := entries[|entries| - 1];
        number, prev := Wrap(last.number + 1), last.hash;
      }
      entries := entries + [Entry(number, event, prev, ChainHash(mac, prev, number, event))];
      if Verifies(mac, before) && Numbered(before) {
        AppendKeeps(mac, before, event);
      }
    }

    method Verify() returns (ok: bool)
      ensures ok == Verifies(mac, entries)
    {
      var prev: Bytes := [];
      for i := 0 to |entries|
        invariant prev == Head(entries[..i]) && Verifies(mac, entries[..i])
      {
        var e := entries[i];
        assert Before(entries[..i + 1]) == entries[..i];
        if e.prev != prev || e.hash != ChainHash(mac, prev, e.number, e.event) {
          if Verifies(mac, entries) {
            PrefixVerifies(mac, entries, i + 1);
          }
          return false;
        }
        prev := e.hash;
      }
      assert entries[..|entries|] == entries;
      return true;
    }
  }
}
