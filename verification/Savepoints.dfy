/** Savepoint identifiers: the name followed by a running decimal number, with nothing between the two. */
module Savepoints {
  import opened Text

  function Identifier(name: string, id: nat): string {
    name + Decimal(id)
  }

  /** The identifiers sent by a run of `setSavepoint` calls that starts with the counter at `start`. */
  function Sent(names: seq<string>, start: nat): (r: seq<string>)
    ensures |r| == |names|
  {
    seq(|names|, k requires 0 <= k < |names| => Identifier(names[k], start + k))
  }

  /** The first power of ten above `id`. */
  function Scale(id: nat): (p: nat)
    ensures p > id && p > 1
  {
    if id < 10 then 10 else 10 * Scale(id / 10)
  }

  // ---------------------------------------------------------------- decimals

  /** Writing `i` after `q` writes the number with the digits of both. */
  lemma {:induction false} DecimalAppend(q: nat, i: nat)
    requires q > 0
    ensures Decimal(q) + Decimal(i) == Decimal(q * Scale(i) + i)
  {
    if i < 10 {
      LastDigit(q, i);
    } else {
      hide Scale;
      var k := Scale(i / 10);
      assert Scale(i) == 10 * k by { ScaleTenth(i); }
      var below := q * k + i / 10;
      assert q * (10 * k) + i == 10 * below + i % 10 by { Tenfold(q, k, i); }
      DecimalAppend(q, i / 10);
      LastDigit(below, i % 10);
      LastDigit(i / 10, i % 10);
    }
  }

  lemma ScaleTenth(i: nat)
    requires i >= 10
    ensures Scale(i) == 10 * Scale(i / 10)
  {
  }

  lemma Tenfold(q: nat, k: nat, i: nat)
    ensures q * (10 * k) + i == 10 * (q * k + i / 10) + i % 10
  {
  }

  lemma LastDigit(n: nat, d: nat)
    requires n > 0 && d < 10
    ensures Decimal(10 * n + d) == Decimal(n) + [Digit(d)]
  {
  }

  /** A digit string without a leading zero is the decimal of its value. */
  lemma {:induction false} DecimalOfValue(s: string)
    requires s != [] && AllDigits(s) && s[0] != '0'
    ensures Value(s) > 0 && Decimal(Value(s)) == s
  {
    var last := s[|s| - 1] as int - '0' as int;
    assert Digit(last) == s[|s| - 1];
    if |s| == 1 {
      assert s[..0] == [];
    } else {
      var front := s[..|s| - 1];
      DecimalOfValue(front);
      assert Value(s) == 10 * Value(front) + last;
      assert s == front + [s[|s| - 1]];
    }
  }

  lemma DecimalLengths(i: nat, j: nat)
    requires i <= j
    ensures |Decimal(i)| <= |Decimal(j)|
  {
    if i >= 10 {
      DecimalLengths(i / 10, j / 10);
    }
  }

  // ---------------------------------------------------------------- when two identifiers are the same

  /** The later number ends in the earlier one's digits, and the earlier name carries the rest of them. */
  predicate Clashes(m: string, i: nat, n: string, j: nat) {
    i < j && j % Scale(i) == i && m == n + Decimal(j / Scale(i))
  }

  lemma Quotient(j: nat, p: nat, i: nat) returns (q: nat)
    requires i < j && p > 0 && j % p == i
    ensures q == j / p && q > 0 && j == q * p + i
  {
    q := j / p;
    assert j == q * p + j % p;
  }

  lemma ClashCollides(m: string, i: nat, n: string, j: nat)
    requires Clashes(m, i, n, j)
    ensures Identifier(m, i) == Identifier(n, j)
  {
    hide Scale, Decimal;
    var p := Scale(i);
    var q := Quotient(j, p, i);
    DecimalAppend(q, i);
    assert n + Decimal(j) == n + Decimal(q) + Decimal(i);
  }

  lemma CollisionClashes(m: string, i: nat, n: string, j: nat)
    requires i < j && Identifier(m, i) == Identifier(n, j)
    ensures Clashes(m, i, n, j)
  {
    hide Scale, Decimal, Value;
    DecimalLengths(i, j);
    var di, dj := Decimal(i), Decimal(j);
    var d := |dj| - |di|;
    var whole := m + di;
    assert whole == n + dj;
    assert whole[|m|..] == di && whole[|n|..] == dj;
    assert |m| == |n| + d;
    assert dj[d..] == whole[|n|..][d..] == whole[|m|..] == di;
    if d == 0 {
      DecimalInjective(i, j);
    } else {
      var pre := dj[..d];
      assert dj == pre + di;
      DecimalOfValue(pre);
      var q := Value(pre);
      DecimalAppend(q, i);
      DecimalInjective(j, q * Scale(i) + i);
      DivMod(q, Scale(i), i);
      assert m == whole[..|m|] == n + pre;
    }
  }

  lemma OneLess(x: nat, p: nat)
    requires x > 0
    ensures x * p == (x - 1) * p + p && (x - 1) * p >= 0
  {
  }

  lemma {:induction false} QuotientAtMost(a: nat, b: nat, p: nat, r: nat, t: nat)
    requires a * p + r == b * p + t && r < p && t < p
    ensures a <= b
    decreases a
  {
    if a > 0 {
      OneLess(a, p);
      if b > 0 {
        OneLess(b, p);
        QuotientAtMost(a - 1, b - 1, p, r, t);
      }
    }
  }

  lemma DivMod(q: nat, p: nat, i: nat)
    requires i < p
    ensures (q * p + i) / p == q && (q * p + i) % p == i
  {
    var n := q * p + i;
    var a, r := n / p, n % p;
    assert a * p + r == n;
    QuotientAtMost(a, q, p, r, i);
    QuotientAtMost(q, a, p, i, r);
  }

  /** Two savepoints of one connection share an identifier exactly when they clash. */
  lemma SameIdentifierIff(m: string, i: nat, n: string, j: nat)
    requires i < j
    ensures Identifier(m, i) == Identifier(n, j) <==> Clashes(m, i, n, j)
  {
    if Clashes(m, i, n, j) {
      ClashCollides(m, i, n, j);
    } else if Identifier(m, i) == Identifier(n, j) {
      CollisionClashes(m, i, n, j);
    }
  }

  ghost predicate Distinct(ids: seq<string>) {
    forall a, b :: 0 <= a < b < |ids| ==> ids[a] != ids[b]
  }

  ghost predicate ClashFree(names: seq<string>, start: nat) {
    forall a, b :: 0 <= a < b < |names| ==> !Clashes(names[a], start + a, names[b], start + b)
  }

  /** The identifiers of a run are pairwise distinct exactly when no two calls clash. */
  lemma DistinctIff(names: seq<string>, start: nat)
    ensures Distinct(Sent(names, start)) <==> ClashFree(names, start)
  {
    hide Clashes, Identifier;
    forall a, b | 0 <= a < b < |names|
      ensures Sent(names, start)[a] == Sent(names, start)[b]
         <==> Clashes(names[a], start + a, names[b], start + b)
    {
      SameIdentifierIff(names[a], start + a, names[b], start + b);
    }
  }

  predicate EndsInDigit(s: string) {
    s != [] && IsDigit(s[|s| - 1])
  }

  lemma PlainNameClashes(m: string, i: nat, n: string, j: nat)
    requires !EndsInDigit(m)
    ensures !Clashes(m, i, n, j)
  {
    hide Scale, Decimal;
    if i < j {
      var digits := Decimal(j / Scale(i));
      assert IsDigit(digits[|digits| - 1]);
      assert (n + digits)[|n + digits| - 1] == digits[|digits| - 1];
    }
  }

  /** Names that do not end in a digit never clash, in runs of any length. */
  lemma PlainNamesDistinct(names: seq<string>, start: nat)
    requires forall k :: 0 <= k < |names| ==> !EndsInDigit(names[k])
    ensures Distinct(Sent(names, start))
  {
    hide Clashes, EndsInDigit, Sent;
    DistinctIff(names, start);
    forall a, b | 0 <= a < b < |names|
      ensures !Clashes(names[a], start + a, names[b], start + b)
    {
      PlainNameClashes(names[a], start + a, names[b], start + b);
    }
  }

  /** With digits at the end of names it can happen: "a1" as number 0 and "a" as number 10. */
  lemma ClashExample()
    ensures Identifier("a1", 0) == Identifier("a", 10) == "a10"
  {
    assert Decimal(10) == Decimal(1) + ['0'];
    assert "a1" + Decimal(0) == "a10";
  }
}
