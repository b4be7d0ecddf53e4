/** "Did you mean": the two-row edit distance and the nearest defined name. */
module EditDistance {
  import opened Basics

  // ---------- edits ----------

  /** At most one character inserted, deleted or replaced. */
  ghost predicate OneEdit(s: string, t: string) {
    exists x: string, u: string, v: string, z: string :: EditAt(s, t, x, u, v, z)
  }

  ghost predicate EditAt(s: string, t: string, x: string, u: string, v: string, z: string) {
    |u| <= 1 && |v| <= 1 && s == x + u + z && t == x + v + z
  }

  /** From `s` to `t` one edit at a time. */
  ghost predicate EditChain(path: seq<string>, s: string, t: string) {
    && path != [] && path[0] == s && path[|path| - 1] == t
    && forall i :: 0 <= i < |path| - 1 ==> OneEdit(path[i], path[i + 1])
  }

  // ---------- the recurrence ----------

  function Init(s: string): string
    requires s != []
  {
    s[..|s| - 1]
  }

  function Last(s: string): char
    requires s != []
  {
    s[|s| - 1]
  }

  function Lev(a: string, b: string): nat
    decreases |a| + |b|
  {
    if a == [] then |b|
    else if b == [] then |a|
    else
      Min(Min(Lev(Init(a), b) + 1, Lev(a, Init(b)) + 1),
          Lev(Init(a), Init(b)) + if Last(a) == Last(b) then 0 else 1)
  }

  // ---------- no chain is shorter ----------

  lemma {:induction false} Appends(x: string, c: char)
    ensures Init(x + [c]) == x && Last(x + [c]) == c
  {}

  lemma {:induction false} DeleteLast(a: string, x: string, c: char)
    ensures Lev(a, x) <= Lev(a, x + [c]) + 1
    decreases |a|
  {
    Appends(x, c);
    if a != [] {
      DeleteLast(Init(a), x, c);
    }
  }

  lemma {:induction false} ReplaceLast(a: string, x: string, c: char, d: char)
    ensures Lev(a, x + [d]) <= Lev(a, x + [c]) + 1
    decreases |a|
  {
    Appends(x, c);
    Appends(x, d);
    if a != [] {
      ReplaceLast(Init(a), x, c, d);
    }
  }

  lemma {:induction false} EditAtEnd(a: string, x: string, u: string, v: string)
    requires |u| <= 1 && |v| <= 1
    ensures Lev(a, x + v) <= Lev(a, x + u) + 1
  {
    if u == [] && v == [] {
      assert x + u == x + v;
    } else if u == [] {
      Appends(x, v[0]);
      assert x + u == x && v == [v[0]];
    } else if v == [] {
      DeleteLast(a, x, u[0]);
      assert x + v == x && u == [u[0]];
    } else {
      ReplaceLast(a, x, u[0], v[0]);
      assert u == [u[0]] && v == [v[0]];
    }
  }

  /** One edit moves the distance by at most one. */
  lemma {:induction false} EditMovesByOne(a: string, s: string, t: string, x: string, u: string, v: string, z: string)
    requires EditAt(s, t, x, u, v, z)
    ensures Lev(a, t) <= Lev(a, s) + 1
    decreases |z|, |a|
  {
    if z == [] {
      assert s == x + u && t == x + v;
      EditAtEnd(a, x, u, v);
    } else if a != [] {
      var z' := Init(z);
      assert Init(s) == x + u + z' && Init(t) == x + v + z' && Last(s) == Last(t);
      EditMovesByOne(Init(a), s, t, x, u, v, z);
      EditMovesByOne(a, Init(s), Init(t), x, u, v, z');
      EditMovesByOne(Init(a), Init(s), Init(t), x, u, v, z');
    }
  }

  lemma {:induction false} LevOfSelf(a: string)
    ensures Lev(a, a) == 0
    decreases |a|
  {
    if a == [] {
    } else {
      LevOfSelf(Init(a));
    }
  }

  /** However two strings are joined by single edits, it takes at least `Lev` of them. */
  lemma {:induction false} LevIsLeast(path: seq<string>, a: string, b: string)
    requires EditChain(path, a, b)
    ensures Lev(a, b) <= |path| - 1
    decreases |path|
  {
    if |path| == 1 {
      LevOfSelf(a);
    } else {
      var shorter := path[..|path| - 1];
      var s := path[|path| - 2];
      assert OneEdit(s, path[|path| - 2 + 1]);
      LevIsLeast(shorter, a, s);
      var x: string, u: string, v: string, z: string :| EditAt(s, b, x, u, v, z);
      EditMovesByOne(a, s, b, x, u, v, z);
    }
  }

  // ---------- some chain is that short ----------

  lemma {:induction false} EditBefore(s: string, t: string, c: char)
    requires OneEdit(s, t)
    ensures OneEdit(s + [c], t + [c])
  {
    var x: string, u: string, v: string, z: string :| EditAt(s, t, x, u, v, z);
    assert EditAt(s + [c], t + [c], x, u, v, z + [c]);
  }

  lemma {:induction false} ChainBefore(path: seq<string>, s: string, t: string, c: char) returns (r: seq<string>)
    requires EditChain(path, s, t)
    ensures EditChain(r, s + [c], t + [c]) && |r| == |path|
  {
    r := seq(|path|, i requires 0 <= i < |path| => path[i] + [c]);
    forall i | 0 <= i < |r| - 1
      ensures OneEdit(r[i], r[i + 1])
    {
      EditBefore(path[i], path[i + 1], c);
    }
  }

  lemma {:induction false} EndEdit(x: string, u: string, v: string)
    requires |u| <= 1 && |v| <= 1
    ensures OneEdit(x + u, x + v)
  {
    assert EditAt(x + u, x + v, x, u, v, []);
  }

  lemma {:induction false} ChainGrows(path: seq<string>, s: string, t: string, t': string)
    requires EditChain(path, s, t) && OneEdit(t, t')
    ensures EditChain(path + [t'], s, t')
  {}

  lemma {:induction false} Regroup(a: string)
    requires a != []
    ensures a == Init(a) + [Last(a)] && a == a + [] && Init(a) + [] == Init(a)
  {}

  /** Exactly `Lev` single edits suffice. */
  lemma {:induction false} LevIsReached(a: string, b: string) returns (path: seq<string>)
    ensures EditChain(path, a, b) && |path| == Lev(a, b) + 1
    decreases |a| + |b|
  {
    if a == [] && b == [] {
      path := [a];
    } else if a == [] || (b != [] && Lev(a, b) == Lev(a, Init(b)) + 1) {
      Regroup(b);
      EndEdit(Init(b), [], [Last(b)]);
      path := LevIsReached(a, Init(b));
      ChainGrows(path, a, Init(b), b);
      path := path + [b];
    } else if b == [] || Lev(a, b) == Lev(Init(a), b) + 1 {
      Regroup(a);
      EndEdit(Init(a), [Last(a)], []);
      path := LevIsReached(Init(a), b);
      path := [a] + path;
    } else {
      path := LevOfLast(a, b);
    }
  }

  lemma {:induction false} LevOfLast(a: string, b: string) returns (path: seq<string>)
    requires a != [] && b != []
    requires Lev(a, b) == Lev(Init(a), Init(b)) + if Last(a) == Last(b) then 0 else 1
    ensures EditChain(path, a, b) && |path| == Lev(a, b) + 1
    decreases |a| + |b|, 0
  {
    Regroup(a);
    Regroup(b);
    path := LevIsReached(Init(a), Init(b));
    path := ChainBefore(path, Init(a), Init(b), Last(a));
    if Last(a) != Last(b) {
      EndEdit(Init(b), [Last(a)], [Last(b)]);
      ChainGrows(path, a, Init(b) + [Last(a)], b);
      path := path + [b];
    }
  }

  // ---------- a metric ----------

  lemma {:induction false} LevSymmetric(a: string, b: string)
    ensures Lev(a, b) == Lev(b, a)
    decreases |a| + |b|
  {
    if a != [] && b != [] {
      LevSymmetric(Init(a), b);
      LevSymmetric(a, Init(b));
      LevSymmetric(Init(a), Init(b));
    }
  }

  /** Going through a third string is never shorter. */
  lemma {:induction false} LevTriangle(a: string, b: string, c: string)
    ensures Lev(a, c) <= Lev(a, b) + Lev(b, c)
  {
    var p := LevIsReached(a, b);
    var q := LevIsReached(b, c);
    var joined := p + q[1..];
    forall i | 0 <= i < |joined| - 1
      ensures OneEdit(joined[i], joined[i + 1])
    {
      if i < |p| - 1 {
        assert OneEdit(p[i], p[i + 1]);
      } else {
        var j := i - (|p| - 1);
        assert joined[i] == q[j] && joined[i + 1] == q[j + 1];
      }
    }
    LevIsLeast(joined, a, c);
  }

  // ---------- the code ----------

  /** Row `row` of the table up to column `n`, for the first `i` characters of `a`. */
  ghost predicate RowIs(row: seq<nat>, a: string, b: string, n: nat)
    requires n <= |b|
  {
    n < |row| && forall j :: 0 <= j <= n ==> row[j] == Lev(a, b[..j])
  }

  lemma {:induction false} Cell(a: string, b: string, i: nat, j: nat)
    requires i < |a| && j < |b|
    ensures Lev(a[..i + 1], b[..j + 1]) ==
              Min(Min(Lev(a[..i], b[..j + 1]) + 1, Lev(a[..i + 1], b[..j]) + 1),
                  Lev(a[..i], b[..j]) + if a[i] == b[j] then 0 else 1)
  {
    assert Init(a[..i + 1]) == a[..i] && Init(b[..j + 1]) == b[..j];
  }

  /** The cell the inner loop writes extends the row by one column. */
  lemma {:induction false} NextCell(prev: seq<nat>, curr: seq<nat>, a: string, b: string, i: nat, j: nat, cell: nat)
    requires i < |a| && j < |b| && |curr| == |b| + 1
    requires RowIs(prev, a[..i], b, |b|) && RowIs(curr, a[..i + 1], b, j)
    requires cell == Min(Min(prev[j + 1] + 1, curr[j] + 1), prev[j] + if a[i] == b[j] then 0 else 1)
    ensures RowIs(curr[j + 1 := cell], a[..i + 1], b, j + 1)
  {
    Cell(a, b, i, j);
  }

  lemma {:induction false} FirstRow(row: seq<nat>, a: string, b: string)
    requires |row| == |b| + 1 && forall j :: 0 <= j <= |b| ==> row[j] == j
    ensures RowIs(row, a[..0], b, |b|)
  {}

  lemma {:induction false} FirstCell(row: seq<nat>, a: string, b: string, i: nat)
    requires i < |a| && row != [] && row[0] == i + 1
    ensures RowIs(row, a[..i + 1], b, 0)
  {}

  /** Two rows, swapped after each character of `a`. */
  method Levenshtein(a: string, b: string) returns (d: nat)
    ensures d == Lev(a, b)
  {
    var prev := new nat[|b| + 1](i => i);
    var curr := new nat[|b| + 1](i => 0);
    FirstRow(prev[..], a, b);
    for i := 0 to |a|
      invariant prev != curr && prev.Length == curr.Length == |b| + 1 && fresh(prev) && fresh(curr)
      invariant RowIs(prev[..], a[..i], b, |b|)
    {
      curr[0] := i + 1;
      FillRow(prev, curr, a, b, i);
      prev, curr := curr, prev;
    }
    assert a[..|a|] == a && b[..|b|] == b;
    return prev[..][|b|];
  }

  method FillRow(prev: array<nat>, curr: array<nat>, a: string, b: string, i: nat)
    requires i < |a| && prev != curr && prev.Length == curr.Length == |b| + 1 && curr[0] == i + 1
    requires RowIs(prev[..], a[..i], b, |b|)
    modifies curr
    ensures RowIs(curr[..], a[..i + 1], b, |b|)
  {
    FirstCell(curr[..], a, b, i);
    for j := 0 to |b|
      invariant RowIs(curr[..], a[..i + 1], b, j)
    {
      var cost := if a[i] != b[j] then 1 else 0;
      var cell: nat := Min(Min(prev[j + 1] + 1, curr[j] + 1), prev[j] + cost);
      NextCell(prev[..], curr[..], a, b, i, j, cell);
      ghost var row := curr[..];
      curr[j + 1] := cell;
      assert curr[..] == row[j + 1 := cell];
    }
  }

  const REACH := 2

  /** `i` is the first of the closest names, and within reach. */
  ghost predicate Closest(name: string, defined: seq<string>, i: nat) {
    && i < |defined| && Lev(name, defined[i]) <= REACH
    && (forall j :: 0 <= j < |defined| ==> Lev(name, defined[i]) <= Lev(name, defined[j]))
    && (forall j :: 0 <= j < i ==> Lev(name, defined[i]) < Lev(name, defined[j]))
  }

  method Nearest(name: string, defined: seq<string>) returns (best: Option<string>)
    ensures best.None? <==> forall j :: 0 <= j < |defined| ==> Lev(name, defined[j]) > 2
    ensures best.Some? ==> exists i: nat :: Closest(name, defined, i) && best.value == defined[i]
  {
    best := None;
    var least, at := REACH + 1, 0;
    for j := 0 to |defined|
      invariant best.None? ==> least == REACH + 1
      invariant best.Some? ==> 0 <= at < j && best.value == defined[at] && least == Lev(name, defined[at]) <= REACH
      invariant forall k :: 0 <= k < j ==> least <= Lev(name, defined[k])
      invariant best.Some? ==> forall k :: 0 <= k < at ==> least < Lev(name, defined[k])
    {
      var d := Levenshtein(name, defined[j]);
      if d <= REACH && (best.None? || d < least) {
        best, least, at := Some(defined[j]), d, j;
      }
    }
    assert best.Some? ==> Closest(name, defined, at);
  }
}
