/** What `unquoteIdentifier` makes of an identifier quoted by the rule of SQL. Its search start falls behind the run it
    collapses by the number of characters before the run, so that long runs lose backticks. */
module Collapsing {
  import opened Text
  import opened Quoting

  const PAIR: string := [TICK, TICK]

  predicate PairAt(s: string, k: int): (r: bool)
    ensures r ==> 0 <= k < |s| - 1
  {
    0 <= k && k + 1 < |s| && s[k] == TICK && s[k + 1] == TICK
  }

  ghost predicate NoPairs(s: string, from: int) {
    forall k :: from <= k ==> !PairAt(s, k)
  }

  /** What is left of a run of `m` backticks that starts `lag` characters after the search start. */
  function Left(m: nat, lag: int): nat
    requires m >= 1 && m + lag >= 0
  {
    var n := m - (m + lag) / 2;
    if n < 1 then 1 else n
  }

  /** The collapsed form of a doubled name, with the search start `lag` characters behind: a run of r backticks comes
      out as r - lag / 2 of them, but at least one, where `lag` counts the characters before it too. */
  function Collapsed(s: string, lag: nat): string
    decreases |s|
  {
    var (plain, run, rest) := Cut(s);
    if run == 0 then s
    else
      var left := Left(2 * run, lag + |plain|);
      plain + Ticks(left) + Collapsed(rest, LagAfter(2 * run, lag + |plain|))
  }

  function LagAfter(m: nat, lag: int): (r: nat)
    requires m >= 1 && m + lag >= 0
    ensures r <= 1 || Left(m, lag) == 1
  {
    lag + 2 * Left(m, lag) - m
  }

  // ---------------------------------------------------------------- the replacement loop

  lemma MatchIsPair(s: string, k: nat)
    ensures MatchesAt(s, PAIR, k) <==> PairAt(s, k)
  {
    if k + 2 <= |s| {
      assert s[k..k + 2] == [s[k], s[k + 1]];
    }
  }

  lemma NothingToCollapse(s: string, prev: nat)
    requires NoPairs(s, prev)
    ensures ReplaceFrom(s, PAIR, [TICK], prev) == s
  {
    forall k: nat | prev <= k ensures !MatchesAt(s, PAIR, k) {
      MatchIsPair(s, k);
    }
    ReplaceDone(s, PAIR, [TICK], prev);
  }

  /** The text before a run, as far as the search sees it, holds no pair and does not end in a backtick. */
  ghost predicate Settled(a: string, prev: nat) {
    NoPairs(a, prev) && (prev < |a| ==> a[|a| - 1] != TICK)
  }

  lemma PairInRun(a: string, m: nat, b: string, prev: nat)
    requires Settled(a, prev)
    requires var at := if prev < |a| then |a| else prev; at + 2 <= |a| + m
    ensures Find(a + Ticks(m) + b, PAIR, prev) == Some(if prev < |a| then |a| else prev)
  {
    var s := a + Ticks(m) + b;
    var at := if prev < |a| then |a| else prev;
    assert PairAt(s, at);
    MatchIsPair(s, at);
    forall k: nat | prev <= k < at ensures !MatchesAt(s, PAIR, k) {
      MatchIsPair(s, k);
      assert s[k] == a[k];
      if k + 1 < |a| {
        assert s[k + 1] == a[k + 1];
        assert !PairAt(a, k);
      }
    }
    FindIs(s, PAIR, prev, at);
  }

  /** One run is collapsed until what the search sees of it is a single backtick or nothing. */
  lemma {:induction false} CollapseRun(a: string, m: nat, b: string, prev: nat)
    requires m >= 1 && prev <= |a| + m && Settled(a, prev)
    ensures var left := Left(m, |a| - prev);
            left <= m && ReplaceFrom(a + Ticks(m) + b, PAIR, [TICK], prev)
                      == ReplaceFrom(a + Ticks(left) + b, PAIR, [TICK], prev + m - left)
    decreases |a| + m - prev
  {
    hide ReplaceFrom, Find, Ticks, NoPairs;
    var at := if prev < |a| then |a| else prev;
    if at + 2 <= |a| + m {
      PairInRun(a, m, b, prev);
      SpliceRun(a, m, b, at, 2, 1);
      assert Ticks(1) == [TICK];
      ReplaceStep(a + Ticks(m) + b, PAIR, [TICK], prev, at, a + Ticks(m - 1) + b);
      SettledLater(a, prev);
      CollapseRun(a, m - 1, b, prev + 1);
      assert Left(m - 1, |a| - prev - 1) == Left(m, |a| - prev);
    }
  }

  lemma SettledLater(a: string, prev: nat)
    requires Settled(a, prev)
    ensures Settled(a, prev + 1)
  {
  }

  /** After a run the search sees no pair. */
  lemma SettledAfterRun(a: string, m: nat, prev: nat)
    requires m >= 1 && prev <= |a| + m && Settled(a, prev)
    ensures var left := Left(m, |a| - prev);
            left <= m && NoPairs(a + Ticks(left), prev + m - left)
  {
    var left := Left(m, |a| - prev);
    var s := a + Ticks(left);
    assert LagAfter(m, |a| - prev) <= 1 || left == 1;
    forall k | prev + m - left <= k ensures !PairAt(s, k) {
      assert 0 <= k < |a| ==> s[k] == a[k];
      assert 0 <= k + 1 < |a| ==> s[k + 1] == a[k + 1];
      assert !PairAt(a, k);
    }
  }

  lemma NoPairsPlain(done: string, plain: string, from: int)
    requires NoPairs(done, from) && Absent(TICK, plain)
    ensures NoPairs(done + plain, from)
  {
    var s := done + plain;
    forall k | from <= k ensures !PairAt(s, k) {
      assert 0 <= k < |done| ==> s[k] == done[k];
      assert 0 <= k + 1 < |done| ==> s[k + 1] == done[k + 1];
      assert |done| <= k + 1 < |s| ==> s[k + 1] == plain[k + 1 - |done|];
      assert !PairAt(done, k);
    }
  }

  lemma {:induction false} ReplaceCollapses(done: string, s: string, lag: nat)
    requires lag <= |done| && NoPairs(done, |done| - lag)
    requires lag > 0 && s != "" && s[0] == TICK ==> done[|done| - 1] != TICK
    ensures ReplaceFrom(done + Doubled(s), PAIR, [TICK], |done| - lag) == done + Collapsed(s, lag)
    decreases |s|
  {
    hide ReplaceFrom, Find, Ticks, Cut, Doubled, NoPairs, Absent, Left, LagAfter, Collapsed;
    var (plain, run, rest) := Cut(s);
    var prev := |done| - lag;
    NoPairsPlain(done, plain, prev);
    CollapsedBlock(s, lag);
    if run == 0 {
      assert s == plain by { NoTicks(plain); }
      DoubledPlain(s);
      NothingToCollapse(done + s, prev);
    } else {
      CollapseBlock(done, s, lag);
      var left, lag' := Left(2 * run, lag + |plain|), LagAfter(2 * run, lag + |plain|);
      var done' := done + plain + Ticks(left);
      ReplaceCollapses(done', rest, lag');
      assert done' + Collapsed(rest, lag') == done + (plain + Ticks(left) + Collapsed(rest, lag'));
    }
  }

  lemma CollapsedBlock(s: string, lag: nat)
    ensures var (plain, run, rest) := Cut(s);
            Collapsed(s, lag)
            == if run == 0 then s
               else plain + Ticks(Left(2 * run, lag + |plain|)) + Collapsed(rest, LagAfter(2 * run, lag + |plain|))
  {
    hide Cut, Ticks, Left, LagAfter;
  }

  /** The first plain stretch and run of `s`. */
  lemma CollapseBlock(done: string, s: string, lag: nat)
    requires lag <= |done| && NoPairs(done + Cut(s).0, |done| - lag) && Cut(s).1 > 0
    requires lag > 0 && s != "" && s[0] == TICK ==> done[|done| - 1] != TICK
    ensures var (plain, run, rest) := Cut(s);
            var left, lag' := Left(2 * run, lag + |plain|), LagAfter(2 * run, lag + |plain|);
            var done' := done + plain + Ticks(left);
            lag' <= |done'| && NoPairs(done', |done'| - lag')
            && ReplaceFrom(done + Doubled(s), PAIR, [TICK], |done| - lag)
            == ReplaceFrom(done' + Doubled(rest), PAIR, [TICK], |done'| - lag')
  {
    hide ReplaceFrom, Find, Cut, Doubled, NoPairs, Left;
    var (plain, run, rest) := Cut(s);
    var a, prev := done + plain, |done| - lag;
    SettledBeforeRun(done, s, lag);
    CollapseRun(a, 2 * run, Doubled(rest), prev);
    SettledAfterRun(a, 2 * run, prev);
    DoubledCut(s);
    assert done + Doubled(s) == a + Ticks(2 * run) + Doubled(rest);
  }

  lemma NoTicks(plain: string)
    ensures plain + Ticks(0) + "" == plain
  {
    assert Ticks(0) == "";
  }

  lemma SettledBeforeRun(done: string, s: string, lag: nat)
    requires lag <= |done| && NoPairs(done + Cut(s).0, |done| - lag) && Cut(s).1 > 0
    requires lag > 0 && s != "" && s[0] == TICK ==> done[|done| - 1] != TICK
    ensures Settled(done + Cut(s).0, |done| - lag)
  {
    var (plain, run, rest) := Cut(s);
    if plain == "" {
      assert s[0] == TICK;
    } else {
      assert (done + plain)[|done + plain| - 1] == plain[|plain| - 1];
    }
  }

  // ---------------------------------------------------------------- when nothing is lost

  /** The number of characters other than backticks. */
  function PlainCount(s: string): nat {
    if s == "" then 0 else (if s[0] == TICK then 0 else 1) + PlainCount(s[1..])
  }

  /** No two adjacent backticks have more than one other character before them, `lag` included. */
  ghost predicate FewBefore(s: string, lag: nat) {
    forall k :: PairAt(s, k) ==> lag + PlainCount(s[..k]) <= 1
  }

  lemma {:induction false} PlainCountConcat(a: string, b: string)
    ensures PlainCount(a + b) == PlainCount(a) + PlainCount(b)
  {
    if a == "" {
      assert a + b == b;
    } else {
      assert (a + b)[1..] == a[1..] + b;
      PlainCountConcat(a[1..], b);
    }
  }

  lemma {:induction false} PlainCountPlain(s: string)
    requires Absent(TICK, s)
    ensures PlainCount(s) == |s|
  {
    if s != "" {
      PlainCountPlain(s[1..]);
    }
  }

  lemma {:induction false} PlainCountTicks(n: nat)
    ensures PlainCount(Ticks(n)) == 0
  {
    if n > 0 {
      assert Ticks(n)[1..] == Ticks(n - 1);
      PlainCountTicks(n - 1);
    }
  }

  /** What stands before position `k` of a cut name. */
  lemma CountBefore(plain: string, run: nat, rest: string, k: nat)
    requires Absent(TICK, plain)
    ensures var s := plain + Ticks(run) + rest;
            (|plain| <= k <= |plain| + run ==> PlainCount(s[..k]) == |plain|)
            && (|plain| + run <= k <= |s| ==>
                  PlainCount(s[..k]) == |plain| + PlainCount(rest[..k - |plain| - run]))
  {
    var s := plain + Ticks(run) + rest;
    PlainCountPlain(plain);
    if |plain| <= k <= |plain| + run {
      var n := k - |plain|;
      assert s[..k] == plain + Ticks(n);
      PlainCountConcat(plain, Ticks(n));
      PlainCountTicks(n);
    }
    if |plain| + run <= k <= |s| {
      var n := k - |plain| - run;
      assert s[..k] == plain + Ticks(run) + rest[..n];
      PlainCountConcat(plain + Ticks(run), rest[..n]);
      PlainCountConcat(plain, Ticks(run));
      PlainCountTicks(run);
    }
  }

  /** The pairs of a cut name lie in its first run or in the rest. */
  lemma PairsOfCut(plain: string, run: nat, rest: string, k: int)
    requires Absent(TICK, plain) && (rest != "" ==> rest[0] != TICK)
    ensures PairAt(plain + Ticks(run) + rest, k)
       <==> |plain| <= k < |plain| + run - 1 || PairAt(rest, k - |plain| - run)
  {
    var s := plain + Ticks(run) + rest;
    if 0 <= k && k + 1 < |s| {
      assert k < |plain| ==> s[k] == plain[k];
      assert |plain| + run <= k ==> s[k] == rest[k - |plain| - run];
      assert |plain| + run <= k + 1 ==> s[k + 1] == rest[k + 1 - |plain| - run];
      assert |plain| <= k < |plain| + run ==> s[k] == TICK;
      assert |plain| <= k + 1 < |plain| + run ==> s[k + 1] == TICK;
    }
  }

  lemma FewBeforeCut(s: string, lag: nat)
    requires Cut(s).1 > 0
    ensures var (plain, run, rest) := Cut(s);
            FewBefore(s, lag) <==> (run >= 2 ==> lag + |plain| <= 1) && FewBefore(rest, lag + |plain|)
  {
    hide Cut, Ticks, Absent, PairAt, PlainCount;
    var (plain, run, rest) := Cut(s);
    var skip := |plain| + run;
    if FewBefore(s, lag) {
      if run >= 2 {
        PairsOfCut(plain, run, rest, |plain|);
        CountBefore(plain, run, rest, |plain|);
      }
      forall k | PairAt(rest, k) ensures lag + |plain| + PlainCount(rest[..k]) <= 1 {
        PairsOfCut(plain, run, rest, k + skip);
        CountBefore(plain, run, rest, k + skip);
      }
    }
    if (run >= 2 ==> lag + |plain| <= 1) && FewBefore(rest, lag + |plain|) {
      forall k | PairAt(s, k) ensures lag + PlainCount(s[..k]) <= 1 {
        PairsOfCut(plain, run, rest, k);
        CountBefore(plain, run, rest, k);
      }
    }
  }

  /** A run keeps its length exactly if it is single or starts at most one character behind. */
  lemma RunKept(run: nat, lag: nat)
    requires run > 0
    ensures Left(2 * run, lag) <= run
    ensures Left(2 * run, lag) == run <==> run == 1 || lag <= 1
    ensures Left(2 * run, lag) == run ==> LagAfter(2 * run, lag) == lag
  {
  }

  lemma NoRunNoPairs(s: string, lag: nat)
    requires Cut(s).1 == 0
    ensures Collapsed(s, lag) == s && FewBefore(s, lag)
  {
    hide FewBefore;
    var (plain, run, rest) := Cut(s);
    NoTicks(plain);
    assert s == plain;
    AbsentNoPairs(s, lag);
  }

  lemma AbsentNoPairs(s: string, lag: nat)
    requires Absent(TICK, s)
    ensures FewBefore(s, lag)
  {
  }

  /** The collapsed name is never longer, and it is the name exactly if no pair has too much before it. */
  lemma {:induction false} CollapsedIff(s: string, lag: nat)
    ensures |Collapsed(s, lag)| <= |s|
    ensures Collapsed(s, lag) == s <==> FewBefore(s, lag)
    decreases |s|
  {
    hide Cut, Ticks, FewBefore, Left, LagAfter;
    var (plain, run, rest) := Cut(s);
    if run == 0 {
      NoRunNoPairs(s, lag);
    } else {
      var l := lag + |plain|;
      var left, lag' := Left(2 * run, l), LagAfter(2 * run, l);
      RunKept(run, l);
      FewBeforeCut(s, lag);
      CollapsedIff(rest, lag');
      if left == run {
        var c := Collapsed(s, lag);
        assert c == plain + Ticks(run) + Collapsed(rest, l);
        assert s[|plain| + run..] == rest && c[|plain| + run..] == Collapsed(rest, l);
      }
    }
  }

  lemma {:induction false} DoubledKeepsNul(s: string)
    ensures Absent('\0', Doubled(s)) <==> Absent('\0', s)
  {
    if s != "" {
      DoubledKeepsNul(s[1..]);
      var head := if s[0] == TICK then [TICK, TICK] else [s[0]];
      AbsentConcat('\0', head, Doubled(s[1..]));
      AbsentConcat('\0', [s[0]], s[1..]);
      assert s == [s[0]] + s[1..];
    }
  }

  /** `unquoteIdentifier` reads a name quoted by the rule of SQL back exactly if the name has no NUL and no two adjacent
      backticks with more than one other character before them. */
  lemma UnquoteSqlQuotedIff(s: string)
    ensures UnquoteIdentifier(SqlQuoted(s)) == s <==> Absent('\0', s) && FewBefore(s, 0)
  {
    hide ReplaceFrom, Collapsed, CStr, Doubled, FewBefore, Absent;
    var q := SqlQuoted(s);
    assert q[1..|q| - 1] == Doubled(s);
    DoubledKeepsNul(s);
    if Absent('\0', s) {
      NoPairsNowhere();
      ReplaceCollapses("", s, 0);
      assert "" + Doubled(s) == Doubled(s) && "" + Collapsed(s, 0) == Collapsed(s, 0);
      CollapsedIff(s, 0);
    } else {
      ReplaceKeepsNulOut(CStr(Doubled(s)), 0);
    }
  }

  lemma NoPairsNowhere()
    ensures NoPairs("", 0)
  {
  }
}
