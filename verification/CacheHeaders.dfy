/** Reading header text: comma-separated lists, cache directives and numbers, and what they say by
    position in the text. */
module CacheHeaders {
  import opened Basics

  // ---------- reading ----------

  function TrimStart(s: string, chars: string): string {
    if s != [] && s[0] in chars then TrimStart(s[1..], chars) else s
  }

  function TrimEnd(s: string, chars: string): string {
    if s != [] && s[|s| - 1] in chars then TrimEnd(s[..|s| - 1], chars) else s
  }

  function Strip(s: string, chars: string): string {
    TrimEnd(TrimStart(s, chars), chars)
  }

  function Trim(s: string): string {
    Strip(s, " \t")
  }

  function Unquote(s: string): string {
    Strip(s, "\"")
  }

  function IndexOf(s: string, c: char): (i: nat)
    ensures i <= |s| && (i < |s| ==> s[i] == c) && c !in s[..i]
  {
    if s == [] || s[0] == c then 0
    else
      var i := IndexOf(s[1..], c);
      assert s[..i + 1] == [s[0]] + s[1..][..i];
      i + 1
  }

  function Split(s: string, c: char): (pieces: seq<string>)
    ensures pieces != []
    decreases |s|
  {
    var i := IndexOf(s, c);
    if i == |s| then [s] else [s[..i]] + Split(s[i + 1..], c)
  }

  /** The trimmed, non-empty members of a comma-separated list. */
  function Members(pieces: seq<string>): seq<string> {
    if pieces == [] then []
    else
      var m := Trim(pieces[0]);
      (if m == [] then [] else [m]) + Members(pieces[1..])
  }

  function ListOf(s: string): seq<string> {
    Members(Split(s, ','))
  }

  /** The lower-case name and the unquoted value of one directive. */
  function NameOf(m: string): string {
    Lower(Trim(m[..IndexOf(m, '=')]))
  }

  function ValueOf(m: string): string {
    var i := IndexOf(m, '=');
    Unquote(Trim(if i == |m| then "" else m[i + 1..]))
  }

  /** Directives by lower-case name; a repeated one counts with its last value. */
  function Directives(pieces: seq<string>): map<string, string> {
    if pieces == [] then map[]
    else
      var earlier, m := Directives(pieces[..|pieces| - 1]), Trim(pieces[|pieces| - 1]);
      if m == [] then earlier else earlier[NameOf(m) := ValueOf(m)]
  }

  predicate Digits(s: string) {
    forall i :: 0 <= i < |s| ==> '0' <= s[i] <= '9'
  }

  function Decimal(s: string): nat
    requires Digits(s)
  {
    if s == [] then 0 else Decimal(s[..|s| - 1]) * 10 + (s[|s| - 1] as int - '0' as int)
  }

  const U64_MAX: nat := 0xFFFF_FFFF_FFFF_FFFF

  /** An unsigned 64-bit number: digits, an optional plus sign before them. */
  function ParseU64(s: string): Option<nat> {
    var t := if |s| > 1 && s[0] == '+' then s[1..] else s;
    if t != [] && Digits(t) && Decimal(t) <= U64_MAX then Some(Decimal(t)) else None
  }

  // ---------- what the text says ----------

  /** `m` is `s` without the `chars` around it. */
  ghost predicate Stripped(s: string, chars: string, m: string) {
    exists a, b :: StrippedAt(s, chars, a, b) && m == s[a..b]
  }

  ghost predicate StrippedAt(s: string, chars: string, a: int, b: int) {
    && 0 <= a <= b <= |s|
    && (forall k :: 0 <= k < a || b <= k < |s| ==> s[k] in chars)
    && (a < b ==> s[a] !in chars && s[b - 1] !in chars)
  }

  /** `s[i..j]` is what stands between two commas, or a comma and an end. */
  predicate Piece(s: string, i: int, j: int) {
    && 0 <= i <= j <= |s|
    && (i == 0 || s[i - 1] == ',') && (j == |s| || s[j] == ',')
    && ',' !in s[i..j]
  }

  /** The list `s` has the member `m`: one of its pieces without the blanks around it, if anything is
      left. */
  ghost predicate Lists(s: string, m: string) {
    m != [] && exists i, j :: Piece(s, i, j) && Stripped(s[i..j], " \t", m)
  }

  /** The member `m` gives the directive `name`, in any case, the value `v`: what follows the first
      equals sign, without the blanks and then the quotes around it. */
  ghost predicate Gives(m: string, name: string, v: string) {
    exists e :: && 0 <= e <= |m| && '=' !in m[..e] && (e < |m| ==> m[e] == '=')
                && NameIs(m[..e], name) && ValueIs(m[if e < |m| then e + 1 else e..], v)
  }

  ghost predicate NameIs(s: string, name: string) {
    exists k :: Stripped(s, " \t", k) && SameName(k, name)
  }

  ghost predicate ValueIs(s: string, v: string) {
    exists w :: Stripped(s, " \t", w) && Stripped(w, "\"", v)
  }

  ghost predicate GivesAt(s: string, i: int, j: int, name: string, v: string) {
    Piece(s, i, j) && PieceGives(s[i..j], name, v)
  }

  ghost predicate PieceGives(p: string, name: string, v: string) {
    exists m :: m != [] && Stripped(p, " \t", m) && Gives(m, name, v)
  }

  /** The header `s` has the directive `name`. */
  ghost predicate Mentions(s: string, name: string) {
    exists i, j, v :: GivesAt(s, i, j, name, v)
  }

  /** The header `s` gives `name` the value `v`: the last mention counts. */
  ghost predicate Says(s: string, name: string, v: string) {
    exists i, j :: GivesAt(s, i, j, name, v) && forall i', j', v' :: GivesAt(s, i', j', name, v') ==> i' <= i
  }

  /** `n` written in decimal. */
  function Written(n: nat): string {
    var digit := [(n % 10 + '0' as int) as char];
    if n < 10 then digit else Written(n / 10) + digit
  }

  /** `s` spells the number `n` below 2^64: an optional plus sign, any number of zeros, the number. */
  ghost predicate Spells(s: string, n: nat) {
    n < 0x1_0000_0000_0000_0000 && exists k: nat :: SpellsFrom(s, k, n)
  }

  predicate SpellsFrom(s: string, k: nat, n: nat) {
    && k <= |s| && s[k..] == Written(n)
    && forall i :: 0 <= i < k ==> s[i] == '0' || (i == 0 && s[i] == '+')
  }

  // ---------- stripping ----------

  lemma {:induction false} TrimStartAt(s: string, chars: string) returns (a: nat)
    ensures a <= |s| && TrimStart(s, chars) == s[a..]
    ensures (forall k :: 0 <= k < a ==> s[k] in chars) && (a < |s| ==> s[a] !in chars)
  {
    if s != [] && s[0] in chars {
      a := TrimStartAt(s[1..], chars);
      a := a + 1;
    } else {
      a := 0;
    }
  }

  lemma {:induction false} TrimEndAt(s: string, chars: string) returns (b: nat)
    ensures b <= |s| && TrimEnd(s, chars) == s[..b]
    ensures (forall k :: b <= k < |s| ==> s[k] in chars) && (b > 0 ==> s[b - 1] !in chars)
  {
    if s != [] && s[|s| - 1] in chars {
      b := TrimEndAt(s[..|s| - 1], chars);
    } else {
      b := |s|;
    }
  }

  lemma {:induction false} StripStrips(s: string, chars: string)
    ensures Stripped(s, chars, Strip(s, chars))
  {
    var a := TrimStartAt(s, chars);
    var t := s[a..];
    var b := TrimEndAt(t, chars);
    assert t[..b] == s[a..a + b];
    forall k | a + b <= k < |s|
      ensures s[k] in chars
    {
      assert t[k - a] == s[k];
    }
    assert b > 0 ==> t[b - 1] == s[a + b - 1];
    assert StrippedAt(s, chars, a, a + b);
  }

  lemma {:induction false} OneStrippedAt(s: string, chars: string, a: int, b: int, c: int, d: int)
    requires StrippedAt(s, chars, a, b) && StrippedAt(s, chars, c, d)
    ensures s[a..b] == s[c..d]
  {
  }

  lemma {:induction false} StripIs(s: string, chars: string, m: string)
    ensures Stripped(s, chars, m) <==> m == Strip(s, chars)
  {
    StripStrips(s, chars);
    if Stripped(s, chars, m) {
      var a :| exists b :: StrippedAt(s, chars, a, b) && m == s[a..b];
      var b :| StrippedAt(s, chars, a, b) && m == s[a..b];
      var c :| exists d :: StrippedAt(s, chars, c, d) && Strip(s, chars) == s[c..d];
      var d :| StrippedAt(s, chars, c, d) && Strip(s, chars) == s[c..d];
      OneStrippedAt(s, chars, a, b, c, d);
    }
  }

  // ---------- pieces ----------

  /** Where the piece `k` starts. */
  ghost function Start(s: string, k: nat): (i: nat)
    requires k < |Split(s, ',')|
    decreases |s|
  {
    var i := IndexOf(s, ',');
    if k == 0 then 0 else i + 1 + Start(s[i + 1..], k - 1)
  }

  lemma {:induction false} PieceOf(s: string, k: nat)
    requires k < |Split(s, ',')|
    ensures var i, p := Start(s, k), Split(s, ',')[k];
            Piece(s, i, i + |p|) && s[i..i + |p|] == p
    decreases |s|
  {
    hide Split, Start, Piece, IndexOf;
    var c := IndexOf(s, ',');
    if k == 0 {
      FirstOfSplit(s);
    } else {
      RestOfSplit(s, k);
      var t := s[c + 1..];
      PieceOf(t, k - 1);
      PieceShift(s, c + 1, Start(t, k - 1), Start(t, k - 1) + |Split(t, ',')[k - 1]|);
    }
  }

  lemma {:induction false} FirstOfSplit(s: string)
    ensures var c := IndexOf(s, ',');
            Start(s, 0) == 0 && Split(s, ',')[0] == s[..c] == s[0..c] && Piece(s, 0, c)
  {
    assert s[..IndexOf(s, ',')] == s[0..IndexOf(s, ',')];
  }

  lemma {:induction false} RestOfSplit(s: string, k: nat)
    requires 0 < k
    ensures var c := IndexOf(s, ',');
            if c == |s| then k >= |Split(s, ',')|
            else && |Split(s, ',')| == |Split(s[c + 1..], ',')| + 1
                 && (k < |Split(s, ',')| ==>
                       && Split(s, ',')[k] == Split(s[c + 1..], ',')[k - 1]
                       && Start(s, k) == c + 1 + Start(s[c + 1..], k - 1))
  {}

  /** Pieces after a comma are pieces of the rest. */
  lemma {:induction false} PieceShift(s: string, c: nat, i: int, j: int)
    requires 0 < c <= |s| && s[c - 1] == ','
    ensures Piece(s[c..], i, j) ==> Piece(s, c + i, c + j) && s[c..][i..j] == s[c + i..c + j]
    ensures i >= 0 && Piece(s, c + i, c + j) ==> Piece(s[c..], i, j)
  {
    if 0 <= i <= j && c + j <= |s| {
      assert s[c..][i..j] == s[c + i..c + j];
    }
  }

  lemma {:induction false} PieceIs(s: string, i: int, j: int) returns (k: nat)
    requires Piece(s, i, j)
    ensures k < |Split(s, ',')| && Start(s, k) == i && Split(s, ',')[k] == s[i..j]
    decreases |s|
  {
    hide Split, Start, IndexOf;
    var c := IndexOf(s, ',');
    if i <= c {
      FirstPiece(s, i, j);
      FirstOfSplit(s);
      k := 0;
      assert Split(s, ',')[k] == s[i..j];
    } else {
      PieceShift(s, c + 1, i - c - 1, j - c - 1);
      k := PieceIs(s[c + 1..], i - c - 1, j - c - 1);
      LaterPiece(s, i, j, k);
      k := k + 1;
    }
  }

  lemma {:induction false} LaterPiece(s: string, i: int, j: int, k: nat)
    requires Piece(s, i, j) && i > IndexOf(s, ',')
    requires var t := s[IndexOf(s, ',') + 1..];
             var d := IndexOf(s, ',') + 1;
             k < |Split(t, ',')| && Start(t, k) == i - d && Split(t, ',')[k] == t[i - d..j - d]
    ensures k + 1 < |Split(s, ',')| && Start(s, k + 1) == i && Split(s, ',')[k + 1] == s[i..j]
  {
    hide Split, Start, IndexOf;
    RestOfSplit(s, k + 1);
    SliceOfRest(s, IndexOf(s, ',') + 1, i, j);
  }

  lemma {:induction false} SliceOfRest(s: string, d: int, i: int, j: int)
    requires 0 <= d <= i <= j <= |s|
    ensures s[d..][i - d..j - d] == s[i..j]
  {
    var t, u := s[d..][i - d..j - d], s[i..j];
    forall k | 0 <= k < j - i
      ensures t[k] == u[k]
    {
      assert t[k] == s[d..][i - d + k] == s[i + k];
    }
  }

  lemma {:induction false} FirstPiece(s: string, i: int, j: int)
    requires Piece(s, i, j) && i <= IndexOf(s, ',')
    ensures i == 0 && j == IndexOf(s, ',')
  {
    var c := IndexOf(s, ',');
    assert c < |s| ==> s[c] == ',';
  }

  lemma {:induction false} StartsInOrder(s: string, k: nat, l: nat)
    requires k < l < |Split(s, ',')|
    ensures Start(s, k) < Start(s, l)
    decreases |s|
  {
    if k > 0 {
      StartsInOrder(s[IndexOf(s, ',') + 1..], k - 1, l - 1);
    }
  }

  // ---------- lists ----------

  lemma {:induction false} MembersMean(pieces: seq<string>, m: string)
    ensures m in Members(pieces) <==> m != [] && exists k :: 0 <= k < |pieces| && Trim(pieces[k]) == m
  {
    if pieces == [] {
    } else {
      MembersMean(pieces[1..], m);
      assert forall k :: 0 < k < |pieces| ==> pieces[k] == pieces[1..][k - 1];
    }
  }

  /** The members read from a list are exactly the ones it has. */
  lemma {:induction false} ListOfMeans(s: string, m: string)
    ensures m in ListOf(s) <==> Lists(s, m)
  {
    var pieces := Split(s, ',');
    MembersMean(pieces, m);
    if m in ListOf(s) {
      var k :| 0 <= k < |pieces| && Trim(pieces[k]) == m;
      PieceOf(s, k);
      StripIs(pieces[k], " \t", m);
    }
    if Lists(s, m) {
      var i :| exists j :: Piece(s, i, j) && Stripped(s[i..j], " \t", m);
      var j :| Piece(s, i, j) && Stripped(s[i..j], " \t", m);
      var k := PieceIs(s, i, j);
      StripIs(pieces[k], " \t", m);
    }
  }

  // ---------- directives ----------

  lemma {:induction false} NameMeans(s: string, name: string)
    ensures NameIs(s, name) <==> Lower(Trim(s)) == Lower(name)
  {
    StripIs(s, " \t", Trim(s));
    LowerFolds(Trim(s), name);
    if NameIs(s, name) {
      var k :| Stripped(s, " \t", k) && SameName(k, name);
      StripIs(s, " \t", k);
    }
  }

  lemma {:induction false} ValueMeans(s: string, v: string)
    ensures ValueIs(s, v) <==> v == Unquote(Trim(s))
  {
    StripIs(s, " \t", Trim(s));
    StripIs(Trim(s), "\"", v);
    if ValueIs(s, v) {
      var w :| Stripped(s, " \t", w) && Stripped(w, "\"", v);
      StripIs(s, " \t", w);
    }
  }

  lemma {:induction false} OneEquals(m: string, e: int)
    requires 0 <= e <= |m| && '=' !in m[..e] && (e < |m| ==> m[e] == '=')
    ensures e == IndexOf(m, '=')
  {
    assert '=' !in m[..IndexOf(m, '=')];
  }

  lemma {:induction false} GivesMeans(m: string, name: string, v: string)
    ensures Gives(m, name, v) <==> NameOf(m) == Lower(name) && ValueOf(m) == v
  {
    hide NameIs, ValueIs, Trim, Unquote, IndexOf;
    var i := IndexOf(m, '=');
    NameMeans(m[..i], name);
    var rest := m[if i < |m| then i + 1 else i..];
    ValueMeans(rest, v);
    assert i == |m| ==> rest == "";
    if Gives(m, name, v) {
      var e :| && 0 <= e <= |m| && '=' !in m[..e] && (e < |m| ==> m[e] == '=')
               && NameIs(m[..e], name) && ValueIs(m[if e < |m| then e + 1 else e..], v);
      OneEquals(m, e);
    }
  }

  /** The piece `k` gives a directive. */
  predicate Given(pieces: seq<string>, k: nat, name: string, v: string) {
    && k < |pieces| && Trim(pieces[k]) != []
    && NameOf(Trim(pieces[k])) == Lower(name) && ValueOf(Trim(pieces[k])) == v
  }

  lemma {:induction false} GivenFront(pieces: seq<string>, k: nat, name: string, v: string)
    requires pieces != [] && k < |pieces| - 1
    ensures Given(pieces, k, name, v) <==> Given(pieces[..|pieces| - 1], k, name, v)
  {}

  lemma {:induction false} GivenIsIn(pieces: seq<string>, k: nat, name: string, v: string)
    requires Given(pieces, k, name, v)
    ensures Lower(name) in Directives(pieces)
    decreases |pieces|
  {
    if k < |pieces| - 1 {
      GivenFront(pieces, k, name, v);
      GivenIsIn(pieces[..|pieces| - 1], k, name, v);
    }
  }

  /** A directive has the value its last piece gives. */
  lemma {:induction false} LastGiven(pieces: seq<string>, name: string) returns (k: nat)
    requires Lower(name) in Directives(pieces)
    ensures Given(pieces, k, name, Directives(pieces)[Lower(name)])
    ensures forall l: nat, v :: Given(pieces, l, name, v) ==> l <= k
    decreases |pieces|
  {
    var last := |pieces| - 1;
    var m := Trim(pieces[last]);
    if m != [] && NameOf(m) == Lower(name) {
      k := last;
    } else {
      k := LastGiven(pieces[..last], name);
      GivenFront(pieces, k, name, Directives(pieces)[Lower(name)]);
      forall l: nat, v | Given(pieces, l, name, v)
        ensures l <= k
      {
        GivenFront(pieces, l, name, v);
      }
    }
  }

  lemma {:induction false} GivenIsGivesAt(s: string, k: nat, name: string, v: string)
    requires k < |Split(s, ',')|
    ensures var i, p := Start(s, k), Split(s, ',')[k];
            Given(Split(s, ','), k, name, v) <==> GivesAt(s, i, i + |p|, name, v)
  {
    hide Piece, PieceGives, NameOf, ValueOf, Split, Start, Trim;
    PieceOf(s, k);
    PieceGivesMeans(Split(s, ',')[k], name, v);
  }

  lemma {:induction false} PieceGivesMeans(p: string, name: string, v: string)
    ensures PieceGives(p, name, v) <==> Trim(p) != [] && NameOf(Trim(p)) == Lower(name) && ValueOf(Trim(p)) == v
  {
    hide Gives, Stripped, NameOf, ValueOf, Strip;
    StripIs(p, " \t", Trim(p));
    GivesMeans(Trim(p), name, v);
    if PieceGives(p, name, v) {
      var m :| m != [] && Stripped(p, " \t", m) && Gives(m, name, v);
      StripIs(p, " \t", m);
    }
  }

  /** Every place that gives a directive is a piece. */
  lemma {:induction false} GivesAtIsGiven(s: string, i: int, j: int, name: string, v: string) returns (k: nat)
    requires GivesAt(s, i, j, name, v)
    ensures k < |Split(s, ',')| && i == Start(s, k) && Given(Split(s, ','), k, name, v)
  {
    k := PieceIs(s, i, j);
    assert j == i + |Split(s, ',')[k]|;
    GivenIsGivesAt(s, k, name, v);
  }

  /** The directives read from a header are the ones it mentions. */
  lemma {:induction false} DirectivesMean(s: string, name: string)
    ensures Lower(name) in Directives(Split(s, ',')) <==> Mentions(s, name)
  {
    hide Directives, Given, GivesAt, Split, Start;
    var pieces := Split(s, ',');
    if Lower(name) in Directives(pieces) {
      var k := LastGiven(pieces, name);
      assert k < |pieces| by {
        GivenInRange(pieces, k, name, Directives(pieces)[Lower(name)]);
      }
      GivenIsGivesAt(s, k, name, Directives(pieces)[Lower(name)]);
    }
    if Mentions(s, name) {
      var i :| exists j, v :: GivesAt(s, i, j, name, v);
      var j :| exists v :: GivesAt(s, i, j, name, v);
      var v :| GivesAt(s, i, j, name, v);
      var k := GivesAtIsGiven(s, i, j, name, v);
      GivenIsIn(pieces, k, name, v);
    }
  }

  lemma {:induction false} GivenInRange(pieces: seq<string>, k: nat, name: string, v: string)
    requires Given(pieces, k, name, v)
    ensures k < |pieces|
  {}

  /** And their values are the ones it gives last. */
  lemma {:induction false} ValuesMean(s: string, name: string, v: string)
    ensures Lower(name) in Directives(Split(s, ',')) && Directives(Split(s, ','))[Lower(name)] == v <==> Says(s, name, v)
  {
    hide Directives, Given, GivesAt, Says, Mentions;
    if Lower(name) in Directives(Split(s, ',')) {
      var w := Directives(Split(s, ','))[Lower(name)];
      ValueIsSaid(s, name);
      if Says(s, name, v) {
        SaidOnce(s, name, v, w);
      }
    } else if Says(s, name, v) {
      SaidIsMentioned(s, name, v);
      DirectivesMean(s, name);
    }
  }

  lemma {:induction false} SaidIsMentioned(s: string, name: string, v: string)
    requires Says(s, name, v)
    ensures Mentions(s, name)
  {
    var i :| exists j :: GivesAt(s, i, j, name, v) && forall i', j', v' :: GivesAt(s, i', j', name, v') ==> i' <= i;
  }

  lemma {:induction false} ValueIsSaid(s: string, name: string)
    requires Lower(name) in Directives(Split(s, ','))
    ensures Says(s, name, Directives(Split(s, ','))[Lower(name)])
  {
    hide Directives, Given, GivesAt, Split, Start;
    var pieces := Split(s, ',');
    var v := Directives(pieces)[Lower(name)];
    var k := LastGiven(pieces, name);
    GivenInRange(pieces, k, name, v);
    GivenIsGivesAt(s, k, name, v);
    forall i', j', v' | GivesAt(s, i', j', name, v')
      ensures i' <= Start(s, k)
    {
      var l := GivesAtIsGiven(s, i', j', name, v');
      if l < k {
        StartsInOrder(s, l, k);
      }
    }
  }

  lemma {:induction false} SaidOnce(s: string, name: string, v: string, w: string)
    requires Says(s, name, v) && Says(s, name, w)
    ensures v == w
  {
    hide GivesAt;
    var i :| exists j :: GivesAt(s, i, j, name, v) && forall i', j', v' :: GivesAt(s, i', j', name, v') ==> i' <= i;
    var j :| GivesAt(s, i, j, name, v);
    var k :| exists l :: GivesAt(s, k, l, name, w) && forall i', j', v' :: GivesAt(s, i', j', name, v') ==> i' <= k;
    var l :| GivesAt(s, k, l, name, w);
    GivenOnce(s, i, j, l, name, v, w);
  }

  /** One piece starts at each place, and gives one value. */
  lemma {:induction false} GivenOnce(s: string, i: int, j: int, l: int, name: string, v: string, w: string)
    requires GivesAt(s, i, j, name, v) && GivesAt(s, i, l, name, w)
    ensures v == w
  {
    hide PieceGives, NameOf, ValueOf, Trim;
    PieceGivesMeans(s[i..j], name, v);
    PieceGivesMeans(s[i..l], name, w);
  }

  // ---------- numbers ----------

  lemma {:induction false} DigitsWrite(t: string) returns (k: nat)
    requires t != [] && Digits(t)
    ensures SpellsFrom(t, k, Decimal(t)) && (Decimal(t) == 0 ==> forall i :: 0 <= i < |t| ==> t[i] == '0')
    ensures k == 0 || t[0] == '0'
    decreases |t|
  {
    var last := |t| - 1;
    var u, d := t[..last], t[last] as int - '0' as int;
    if last == 0 {
      k := 0;
      assert Written(d) == [t[last]];
      assert t[0..] == [t[last]];
    } else {
      k := DigitsWrite(u);
      if Decimal(u) == 0 {
        k := last;
        assert Written(d) == [t[last]] == t[k..];
      } else {
        assert Decimal(t) / 10 == Decimal(u) && Decimal(t) % 10 == d;
        assert t[k..] == u[k..] + [t[last]];
      }
    }
  }

  lemma {:induction false} WrittenIsDecimal(t: string, k: nat, n: nat)
    requires k <= |t| && t[k..] == Written(n) && forall i :: 0 <= i < k ==> t[i] == '0'
    ensures t != [] && Digits(t) && Decimal(t) == n
    decreases n, |t|
  {
    var last := |t| - 1;
    var u := t[..last];
    assert t[last] == Written(n)[|Written(n)| - 1];
    if n < 10 {
      assert k == last;
      ZerosAreZero(u);
    } else {
      assert u[k..] == Written(n)[..|Written(n)| - 1] == Written(n / 10);
      WrittenIsDecimal(u, k, n / 10);
    }
    assert t == u + [t[last]];
  }

  lemma {:induction false} ZerosAreZero(t: string)
    requires forall i :: 0 <= i < |t| ==> t[i] == '0'
    ensures Digits(t) && Decimal(t) == 0
    decreases |t|
  {
    if t == [] {
    } else {
      ZerosAreZero(t[..|t| - 1]);
    }
  }

  lemma {:induction false} WrittenDigits(n: nat)
    ensures Written(n) != [] && '0' <= Written(n)[0] <= '9'
    decreases n
  {
    if n >= 10 {
      WrittenDigits(n / 10);
    }
  }

  /** A text is read as a number exactly if it spells it. */
  lemma {:induction false} NumberMeans(s: string, n: nat)
    ensures ParseU64(s) == Some(n) <==> Spells(s, n)
  {
    if ParseU64(s) == Some(n) {
      ReadIsSpelled(s, n);
    }
    if Spells(s, n) {
      var k: nat :| SpellsFrom(s, k, n);
      SpelledIsRead(s, k, n);
    }
  }

  lemma {:induction false} ReadIsSpelled(s: string, n: nat)
    requires ParseU64(s) == Some(n)
    ensures Spells(s, n)
  {
    if |s| > 1 && s[0] == '+' {
      var k := DigitsWrite(s[1..]);
      assert s[k + 1..] == s[1..][k..];
      forall i | 0 <= i < k + 1
        ensures s[i] == '0' || (i == 0 && s[i] == '+')
      {
        assert i > 0 ==> s[i] == s[1..][i - 1];
      }
      assert SpellsFrom(s, k + 1, n);
    } else {
      var k := DigitsWrite(s);
    }
  }

  lemma {:induction false} SpelledIsRead(s: string, k: nat, n: nat)
    requires SpellsFrom(s, k, n) && n < 0x1_0000_0000_0000_0000
    ensures ParseU64(s) == Some(n)
  {
    WrittenDigits(n);
    if k > 0 && s[0] == '+' {
      assert s[1..][k - 1..] == s[k..];
      WrittenIsDecimal(s[1..], k - 1, n);
    } else {
      WrittenIsDecimal(s, k, n);
      assert '0' <= s[0] <= '9';
    }
  }
}
