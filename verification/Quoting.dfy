/** `MariaDbConnection::quoteIdentifier` and `unquoteIdentifier`, over the `replace` the connector really has,
    against the quoting rule of SQL (every backtick doubled). */
module Quoting {
  import opened Text

  function Ticks(n: nat): (s: string)
    ensures |s| == n && forall i :: 0 <= i < n ==> s[i] == TICK
  {
    seq(n, i => TICK)
  }

  // ---------------------------------------------------------------- the rule of SQL

  function Doubled(s: string): string {
    if s == [] then []
    else (if s[0] == TICK then [TICK, TICK] else [s[0]]) + Doubled(s[1..])
  }

  /** An identifier as the server prints it. */
  function SqlQuoted(s: string): (q: string)
    ensures |q| >= 2 && q[0] == TICK && q[|q| - 1] == TICK
  {
    [TICK] + Doubled(s) + [TICK]
  }

  // ---------------------------------------------------------------- the connector

  function QuoteIdentifier(s: string): string {
    [TICK] + ReplaceFrom(s, [TICK], [TICK, TICK], 0) + [TICK]
  }

  function UnquoteIdentifier(s: string): string {
    if |s| >= 2 && s[0] == TICK && s[|s| - 1] == TICK
    then ReplaceFrom(CStr(s[1..|s| - 1]), [TICK, TICK], [TICK], 0)
    else s
  }

  // ---------------------------------------------------------------- what the replacement loop computes

  /** The length of the longest backtick-free prefix. */
  function PlainPrefix(s: string): (n: nat)
    ensures n <= |s| && Absent(TICK, s[..n])
    ensures n < |s| ==> s[n] == TICK
  {
    if s == [] || s[0] == TICK then 0
    else
      var n := PlainPrefix(s[1..]);
      assert s[..n + 1] == [s[0]] + s[1..][..n];
      n + 1
  }

  /** The length of the leading run of backticks. */
  function TickPrefix(s: string): (n: nat)
    ensures n <= |s| && s[..n] == Ticks(n)
    ensures n < |s| ==> s[n] != TICK
  {
    if s == [] || s[0] != TICK then 0
    else
      var n := TickPrefix(s[1..]);
      assert s[..n + 1] == [s[0]] + s[1..][..n];
      n + 1
  }

  /** Cuts `s` into a plain stretch, the run of backticks after it, and the rest. */
  function Cut(s: string): (r: (string, nat, string))
    ensures s == r.0 + Ticks(r.1) + r.2
    ensures Absent(TICK, r.0)
    ensures r.1 == 0 ==> r.2 == []
    ensures r.2 != [] ==> r.2[0] != TICK
  {
    var n := PlainPrefix(s);
    var run := TickPrefix(s[n..]);
    assert s == s[..n] + s[n..][..run] + s[n..][run..];
    (s[..n], run, s[n..][run..])
  }

  /** The text the connector writes between the quotes: a run of r backticks after a plain
      stretch of length k comes out as k + 2r backticks. */
  function Smeared(s: string): string
    decreases |s|
  {
    var (plain, run, rest) := Cut(s);
    if run == 0 then s
    else plain + Ticks(|plain| + 2 * run) + Smeared(rest)
  }

  lemma TickFoundAt(a: string, m: nat, b: string, prev: nat)
    requires m > 0 && prev < |a| + m
    requires forall i :: prev <= i < |a| ==> a[i] != TICK
    ensures Find(a + Ticks(m) + b, [TICK], prev) == Some(if prev < |a| then |a| else prev)
  {
    var s := a + Ticks(m) + b;
    var at := if prev < |a| then |a| else prev;
    assert s[at..at + 1] == [TICK];
    forall i: nat | prev <= i < at ensures !MatchesAt(s, [TICK], i) {
      assert s[i] == a[i];
      assert s[i..i + 1] == [s[i]];
    }
    FindIs(s, [TICK], prev, at);
  }

  /** Putting `m` backticks for `k` of them anywhere in a run. */
  lemma SpliceRun(a: string, m: nat, b: string, pos: nat, k: nat, t: nat)
    requires |a| <= pos && pos + k <= |a| + m
    ensures var s := a + Ticks(m) + b;
            s[..pos] + Ticks(t) + s[pos + k..] == a + Ticks(m - k + t) + b
  {
  }

  lemma ReplaceStops(s: string, p: string, t: string, prev: nat)
    requires p != [] && prev <= |s| && Absent(TICK, s[prev..]) && p[0] == TICK
    ensures ReplaceFrom(s, p, t, prev) == s
  {
    forall i: nat | prev <= i && i + |p| <= |s| ensures !MatchesAt(s, p, i) {
      assert s[i..i + |p|][0] == s[i] == s[prev..][i - prev];
    }
  }

  /** One run is widened until the search start has caught up with its end. */
  lemma {:induction false} WidenRun(a: string, m: nat, b: string, prev: nat)
    requires 0 < m && prev <= |a| + m
    requires forall i :: prev <= i < |a| ==> a[i] != TICK
    ensures var grown := m + (|a| + m - prev);
            ReplaceFrom(a + Ticks(m) + b, [TICK], [TICK, TICK], prev)
            == ReplaceFrom(a + Ticks(grown) + b, [TICK], [TICK, TICK], |a| + grown)
    decreases |a| + m - prev
  {
    hide ReplaceFrom, Find, Ticks;
    if prev < |a| + m {
      TickFoundAt(a, m, b, prev);
      var pos := if prev < |a| then |a| else prev;
      SpliceRun(a, m, b, pos, 1, 2);
      assert Ticks(2) == [TICK, TICK];
      ReplaceStep(a + Ticks(m) + b, [TICK], [TICK, TICK], prev, pos, a + Ticks(m + 1) + b);
      WidenRun(a, m + 1, b, prev + 2);
    }
  }

  lemma {:induction false} ReplaceSmears(done: string, s: string)
    ensures ReplaceFrom(done + s, [TICK], [TICK, TICK], |done|) == done + Smeared(s)
    decreases |s|
  {
    hide ReplaceFrom, Find, Ticks, Cut;
    var (plain, run, rest) := Cut(s);
    if run == 0 {
      assert s == plain && (done + s)[|done|..] == s;
      ReplaceStops(done + s, [TICK], [TICK, TICK], |done|);
    } else {
      var a := done + plain;
      assert done + s == a + Ticks(run) + rest;
      WidenRun(a, run, rest, |done|);
      var wide := a + Ticks(|plain| + 2 * run);
      ReplaceSmears(wide, rest);
      assert wide + Smeared(rest) == done + Smeared(s);
    }
  }

  /** The closed form of `quoteIdentifier`. */
  lemma QuoteIdentifierSmears(s: string)
    ensures QuoteIdentifier(s) == [TICK] + Smeared(s) + [TICK]
  {
    hide ReplaceFrom, Smeared;
    ReplaceSmears("", s);
    assert "" + s == s && "" + Smeared(s) == Smeared(s);
  }

  // ---------------------------------------------------------------- unquoting undoes quoting

  lemma PairFoundAt(a: string, m: nat, b: string, prev: nat)
    requires forall i :: prev <= i < |a| ==> a[i] != TICK
    requires var at := if prev < |a| then |a| else prev; at + 2 <= |a| + m
    ensures Find(a + Ticks(m) + b, [TICK, TICK], prev) == Some(if prev < |a| then |a| else prev)
  {
    var s := a + Ticks(m) + b;
    var at := if prev < |a| then |a| else prev;
    assert s[at..at + 2] == [TICK, TICK];
    forall i: nat | prev <= i < at ensures !MatchesAt(s, [TICK, TICK], i) {
      assert s[i] == a[i];
      if i + 2 <= |s| {
        assert s[i..i + 2][0] == s[i];
      }
    }
    FindIs(s, [TICK, TICK], prev, at);
  }

  /** The run that quoting left is narrowed back to its own length, and no further. */
  lemma {:induction false} NarrowRun(a: string, run: nat, b: string, prev: nat)
    requires prev <= |a| + run
    requires run > 0 && forall i :: prev <= i < |a| ==> a[i] != TICK
    ensures ReplaceFrom(a + Ticks(2 * run + |a| - prev) + b, [TICK, TICK], [TICK], prev)
         == ReplaceFrom(a + Ticks(run) + b, [TICK, TICK], [TICK], |a| + run)
    decreases |a| + run - prev
  {
    hide ReplaceFrom, Find, Ticks;
    if prev < |a| + run {
      var m := 2 * run + |a| - prev;
      PairFoundAt(a, m, b, prev);
      var pos := if prev < |a| then |a| else prev;
      SpliceRun(a, m, b, pos, 2, 1);
      assert Ticks(1) == [TICK];
      ReplaceStep(a + Ticks(m) + b, [TICK, TICK], [TICK], prev, pos, a + Ticks(m - 1) + b);
      NarrowRun(a, run, b, prev + 1);
    }
  }

  lemma {:induction false} ReplaceUnsmears(done: string, s: string)
    ensures ReplaceFrom(done + Smeared(s), [TICK, TICK], [TICK], |done|) == done + s
    decreases |s|
  {
    hide ReplaceFrom, Find, Ticks, Cut;
    var (plain, run, rest) := Cut(s);
    if run == 0 {
      assert s == plain && (done + s)[|done|..] == s;
      ReplaceStops(done + s, [TICK, TICK], [TICK], |done|);
    } else {
      var a := done + plain;
      assert done + Smeared(s) == a + Ticks(2 * run + |a| - |done|) + Smeared(rest);
      NarrowRun(a, run, Smeared(rest), |done|);
      ReplaceUnsmears(a + Ticks(run), rest);
      assert a + Ticks(run) + rest == done + s;
    }
  }

  lemma {:induction false} SmearedKeepsNul(s: string)
    ensures Absent('\0', Smeared(s)) <==> Absent('\0', s)
    decreases |s|
  {
    hide Ticks, Cut, Absent;
    var (plain, run, rest) := Cut(s);
    if run > 0 {
      SmearedKeepsNul(rest);
      AbsentPieces(plain, run, rest);
      AbsentPieces(plain, |plain| + 2 * run, Smeared(rest));
    }
  }

  lemma AbsentPieces(plain: string, run: nat, rest: string)
    ensures Absent('\0', plain + Ticks(run) + rest) <==> Absent('\0', plain) && Absent('\0', rest)
  {
    AbsentConcat('\0', plain + Ticks(run), rest);
    AbsentConcat('\0', plain, Ticks(run));
  }

  lemma AbsentConcat(c: char, a: string, b: string)
    ensures Absent(c, a + b) <==> Absent(c, a) && Absent(c, b)
  {
    if Absent(c, a + b) {
      forall i | 0 <= i < |a| ensures a[i] != c { assert (a + b)[i] == a[i]; }
      forall i | 0 <= i < |b| ensures b[i] != c { assert (a + b)[|a| + i] == b[i]; }
    }
  }

  lemma {:induction false} ReplaceKeepsNulOut(s: string, prev: nat)
    requires Absent('\0', s)
    ensures Absent('\0', ReplaceFrom(s, [TICK, TICK], [TICK], prev))
    decreases |s| - prev
  {
    var hit := Find(s, [TICK, TICK], prev);
    if hit.Some? {
      ReplaceKeepsNulOut(s[..hit.value] + [TICK] + s[hit.value + 2..], prev + 1);
    }
  }

  /** Unquoting gives the name back exactly for the names without a NUL byte. */
  lemma UnquoteQuote(s: string)
    ensures UnquoteIdentifier(QuoteIdentifier(s)) == s <==> Absent('\0', s)
  {
    hide ReplaceFrom, Smeared, CStr, QuoteIdentifier;
    QuoteIdentifierSmears(s);
    var q := QuoteIdentifier(s);
    assert q[1..|q| - 1] == Smeared(s);
    SmearedKeepsNul(s);
    if Absent('\0', s) {
      ReplaceUnsmears("", s);
      assert "" + Smeared(s) == Smeared(s) && "" + s == s;
    } else {
      ReplaceKeepsNulOut(CStr(Smeared(s)), 0);
    }
  }

  /** A text that is not between backticks is no quoted name and comes back as it is; so does a single backtick. */
  lemma UnquoteOther(s: string)
    requires |s| < 2 || s[0] != TICK || s[|s| - 1] != TICK
    ensures UnquoteIdentifier(s) == s
  {
  }

  // ---------------------------------------------------------------- against the rule of SQL

  /** Every backtick of `s` comes before every other character. */
  predicate TicksLead(s: string) {
    forall i, j :: 0 <= i < j < |s| && s[j] == TICK ==> s[i] == TICK
  }

  lemma {:induction false} DoubledConcat(a: string, b: string)
    ensures Doubled(a + b) == Doubled(a) + Doubled(b)
  {
    if a == [] {
      assert a + b == b;
    } else {
      assert (a + b)[1..] == a[1..] + b;
      DoubledConcat(a[1..], b);
    }
  }

  lemma {:induction false} DoubledPlain(s: string)
    requires Absent(TICK, s)
    ensures Doubled(s) == s
  {
    if s != [] {
      DoubledPlain(s[1..]);
    }
  }

  lemma {:induction false} DoubledTicks(n: nat)
    ensures Doubled(Ticks(n)) == Ticks(2 * n)
  {
    if n > 0 {
      assert Ticks(n)[1..] == Ticks(n - 1);
      DoubledTicks(n - 1);
      assert [TICK, TICK] + Ticks(2 * (n - 1)) == Ticks(2 * n);
    }
  }

  lemma DoubledCut(s: string)
    ensures var (plain, run, rest) := Cut(s); Doubled(s) == plain + Ticks(2 * run) + Doubled(rest)
  {
    var (plain, run, rest) := Cut(s);
    DoubledConcat(plain + Ticks(run), rest);
    DoubledConcat(plain, Ticks(run));
    DoubledPlain(plain);
    DoubledTicks(run);
  }

  lemma {:induction false} SmearedLength(s: string)
    ensures |Smeared(s)| >= |Doubled(s)|
    decreases |s|
  {
    DoubledCut(s);
    var (plain, run, rest) := Cut(s);
    if run > 0 {
      SmearedLength(rest);
    }
  }

  lemma TicksLeadRest(run: nat, rest: string)
    ensures TicksLead(Ticks(run) + rest) <==> TicksLead(rest)
  {
    var s := Ticks(run) + rest;
    if TicksLead(s) {
      forall i, j | 0 <= i < j < |rest| && rest[j] == TICK ensures rest[i] == TICK {
        assert s[run + i] == rest[i] && s[run + j] == rest[j];
      }
    }
  }

  /** The quoting is right as long as the first plain stretch is empty or followed by no backtick. */
  lemma {:induction false} SmearedIsDoubled(s: string)
    ensures Smeared(s) == Doubled(s) <==> TicksLead(s)
    decreases |s|
  {
    hide Doubled, Ticks, Cut;
    DoubledCut(s);
    var (plain, run, rest) := Cut(s);
    if run == 0 {
      assert Ticks(0) == "" && Doubled("") == "" by { DoubledTicks(0); }
    } else if plain == [] {
      SmearedIsDoubled(rest);
      TicksLeadRest(run, rest);
      assert s == Ticks(run) + rest;
      var t := Ticks(2 * run);
      assert Smeared(s) == t + Smeared(rest) && Doubled(s) == t + Doubled(rest);
      assert Smeared(rest) == Smeared(s)[2 * run..] && Doubled(rest) == Doubled(s)[2 * run..];
    } else {
      SmearedLength(rest);
      assert |Smeared(s)| > |Doubled(s)|;
      assert s[0] == plain[0] && s[|plain|] == TICK;
    }
  }

  /** `quoteIdentifier` follows the rule of SQL exactly for the names whose backticks all lead. */
  lemma QuoteIdentifierIsSqlQuoted(s: string)
    ensures QuoteIdentifier(s) == SqlQuoted(s) <==> TicksLead(s)
  {
    QuoteIdentifierSmears(s);
    SmearedIsDoubled(s);
    var q, r := QuoteIdentifier(s), SqlQuoted(s);
    assert q[1..|q| - 1] == Smeared(s) && r[1..|r| - 1] == Doubled(s);
  }

  /** The shortest name that is quoted wrongly. */
  lemma QuoteIdentifierCounterexample()
    ensures QuoteIdentifier("a`") == "`a````" != SqlQuoted("a`")
  {
    hide ReplaceFrom, Doubled, Cut, Smeared;
    var s := "a`";
    QuoteIdentifierSmears(s);
    assert Smeared(s) == "a```" by { SmearedExample(); }
    assert [TICK] + Smeared(s) + [TICK] == "`a````";
    QuoteIdentifierIsSqlQuoted(s);
    assert !TicksLead(s) by { assert s[0] != TICK && s[1] == TICK; }
  }

  lemma SmearedExample()
    ensures Smeared("a`") == "a```"
  {
    var s := "a`";
    assert s[1..] == "`" && "`"[1..] == "";
    assert PlainPrefix("`") == 0 && PlainPrefix(s) == 1;
    assert TickPrefix("") == 0 && TickPrefix("`") == 1;
    assert Smeared("") == "";
    assert Ticks(3) == "```";
    assert "a" + Ticks(3) + "" == "a```";
  }
}
