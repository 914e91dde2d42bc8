/** The two decoders of quoted identifiers, `unquoteIdentifier` and `parseIdentifier`: when they agree, on names quoted
    by the rule of SQL and on names quoted by the connector. */
module DecoderAgreement {
  import opened Text
  import opened Quoting
  import opened Collapsing
  import opened Identifiers

  /** `parseIdentifier` reads from `q`, before a character that ends a name, what `unquoteIdentifier` makes of it. */
  predicate Agree(q: string, c: char) {
    var r := ReadIdentifier(q + [c], 0, "");
    r.Ok? && r.value.1 == Identifier("", UnquoteIdentifier(q))
  }

  /** On the quoting of SQL they agree exactly if no backtick pair has more than one other character before it. */
  lemma AgreeOnSqlQuotedIff(s: string, c: char)
    requires c != TICK && c != '.'
    ensures Agree(SqlQuoted(s), c) <==> Absent('\0', s) && FewBefore(s, 0)
  {
    hide FewBefore, Absent, UnquoteIdentifier, SqlQuoted;
    ReadSqlQuoted(s, c);
    UnquoteSqlQuotedIff(s);
  }

  /** The shortest name on which they differ. */
  lemma DisagreeExample()
    ensures UnquoteIdentifier(SqlQuoted("aa``")) == "aa`"
    ensures ReadIdentifier(SqlQuoted("aa``") + ",", 0, "") == Ok((8, Identifier("", "aa``")))
  {
    hide UnquoteIdentifier, ReadIdentifier, Doubled;
    DoubledExample();
    ReadSqlQuoted("aa``", ',');
    CollapseExample();
    UnquoteIs(SqlQuoted("aa``"), "aa````");
    assert [TICK] + "aa````" + [TICK] == SqlQuoted("aa``");
    assert CStr("aa````") == "aa````" by { assert Absent('\0', "aa````"); }
  }

  lemma UnquoteIs(q: string, body: string)
    requires q == [TICK] + body + [TICK]
    ensures UnquoteIdentifier(q) == ReplaceFrom(CStr(body), PAIR, [TICK], 0)
  {
    assert q[1..|q| - 1] == body;
  }

  lemma CollapseExample()
    ensures ReplaceFrom("aa````", PAIR, [TICK], 0) == "aa`"
  {
    hide ReplaceFrom;
    assert Settled("aa", 0);
    CollapseRun("aa", 4, "", 0);
    assert "aa" + Ticks(4) + "" == "aa````" && "aa" + Ticks(1) + "" == "aa`";
    NothingToCollapse("aa`", 3);
  }

  lemma DoubledExample()
    ensures Doubled("aa``") == "aa````"
  {
    assert Doubled("aa" + Ticks(2)) == Doubled("aa") + Doubled(Ticks(2)) by { DoubledConcat("aa", Ticks(2)); }
    DoubledPlain("aa");
    DoubledTicks(2);
    assert "aa" + Ticks(2) == "aa``" && "aa" + Ticks(4) == "aa````";
  }

  // ---------------------------------------------------------------- the connector's own quoting

  lemma {:induction false} CStrConcat(a: string, b: string)
    ensures CStr(a + b) == if Absent('\0', a) then a + CStr(b) else CStr(a)
  {
    if a == "" {
      assert a + b == b;
    } else if a[0] != '\0' {
      assert (a + b)[1..] == a[1..] + b;
      CStrConcat(a[1..], b);
      AbsentConcat('\0', [a[0]], a[1..]);
      assert a == [a[0]] + a[1..];
    } else {
      assert !Absent('\0', a);
    }
  }

  lemma CutIs(plain: string, run: nat, rest: string)
    requires Absent(TICK, plain) && run > 0 && (rest != "" ==> rest[0] != TICK)
    ensures Cut(plain + Ticks(run) + rest) == (plain, run, rest)
  {
    var s := plain + Ticks(run) + rest;
    PrefixIs(s, |plain|);
    assert s[|plain|..] == Ticks(run) + rest;
    RunIs(run, rest);
    assert s[..|plain|] == plain && s[|plain|..][run..] == rest;
  }

  lemma {:induction false} PrefixIs(s: string, n: nat)
    requires n < |s| && Absent(TICK, s[..n]) && s[n] == TICK
    ensures PlainPrefix(s) == n
  {
    if n > 0 {
      assert s[..n][0] == s[0] && s[1..][..n - 1] == s[..n][1..];
      PrefixIs(s[1..], n - 1);
    }
  }

  lemma {:induction false} RunIs(run: nat, rest: string)
    requires rest != "" ==> rest[0] != TICK
    ensures TickPrefix(Ticks(run) + rest) == run
  {
    var s := Ticks(run) + rest;
    if run > 0 {
      assert s[1..] == Ticks(run - 1) + rest;
      RunIs(run - 1, rest);
    } else {
      assert s == rest;
    }
  }

  lemma PlainSmeared(s: string)
    requires Absent(TICK, s)
    ensures Smeared(s) == s
  {
    hide Cut, Ticks;
    NoRun(s);
  }

  lemma NoRun(s: string)
    requires Absent(TICK, s)
    ensures Cut(s).1 == 0
  {
    hide Cut, PlainPrefix, TickPrefix;
    var (plain, run, rest) := Cut(s);
    if run > 0 {
      RunStandsIn(plain, run, rest);
    }
  }

  lemma RunStandsIn(plain: string, run: nat, rest: string)
    requires run > 0
    ensures !Absent(TICK, plain + Ticks(run) + rest)
  {
    assert (plain + Ticks(run) + rest)[|plain|] == TICK;
  }

  lemma SmearedOf(plain: string, run: nat, rest: string)
    requires Absent(TICK, plain) && run > 0 && (rest != "" ==> rest[0] != TICK)
    ensures Smeared(plain + Ticks(run) + rest) == plain + Ticks(|plain| + 2 * run) + Smeared(rest)
  {
    hide Cut, Ticks, Absent, Smeared;
    CutIs(plain, run, rest);
    SmearedIs(plain + Ticks(run) + rest);
  }

  lemma SmearedIs(s: string)
    ensures var c := Cut(s);
            Smeared(s) == if c.1 == 0 then s else c.0 + Ticks(|c.0| + 2 * c.1) + Smeared(c.2)
  {
    hide Cut, Ticks;
  }

  /** A NUL after the first run: the run is quoted as before. */
  lemma CutAfterRun(plain: string, run: nat, rest: string)
    requires Absent(TICK, plain) && Absent('\0', plain) && run > 0 && (rest != "" ==> rest[0] != TICK)
    requires CStr(Smeared(rest)) == Smeared(CStr(rest))
    ensures CStr(plain + Ticks(|plain| + 2 * run) + Smeared(rest)) == Smeared(CStr(plain + Ticks(run) + rest))
  {
    hide Smeared, Ticks, Absent, CStr;
    CStrBlock(plain, run, rest);
    CStrBlock(plain, |plain| + 2 * run, Smeared(rest));
    CStrHead(rest);
    SmearedOf(plain, run, CStr(rest));
  }

  /** A NUL before the first run: no backtick is left. */
  lemma CutBeforeRun(plain: string, run: nat, rest: string)
    requires Absent(TICK, plain) && !Absent('\0', plain)
    ensures CStr(plain + Ticks(|plain| + 2 * run) + Smeared(rest)) == Smeared(CStr(plain + Ticks(run) + rest))
  {
    hide Smeared, Ticks, Absent, CStr;
    CStrBlock(plain, run, rest);
    CStrBlock(plain, |plain| + 2 * run, Smeared(rest));
    CStrPlain(plain);
    PlainSmeared(CStr(plain));
  }

  /** Quoting and cutting at a NUL can be done in either order. */
  lemma {:induction false} SmearedCStr(s: string)
    ensures CStr(Smeared(s)) == Smeared(CStr(s))
    decreases |s|
  {
    hide Cut, Ticks, Absent, CStr, Smeared;
    var (plain, run, rest) := Cut(s);
    if run == 0 {
      NoTicks(plain);
      CStrPlain(s);
      PlainSmeared(s);
      PlainSmeared(CStr(s));
    } else {
      SmearedOf(plain, run, rest);
      SmearedCStr(rest);
      if Absent('\0', plain) {
        CutAfterRun(plain, run, rest);
      } else {
        CutBeforeRun(plain, run, rest);
      }
    }
  }

  lemma CStrHead(s: string)
    ensures CStr(s) != "" ==> s != "" && CStr(s)[0] == s[0]
  {
  }

  lemma CStrPlain(s: string)
    requires Absent(TICK, s)
    ensures Absent(TICK, CStr(s))
  {
    assert forall i :: 0 <= i < |CStr(s)| ==> CStr(s)[i] == s[i];
  }

  lemma CStrBlock(plain: string, run: nat, rest: string)
    ensures CStr(plain + Ticks(run) + rest)
         == if Absent('\0', plain) then plain + Ticks(run) + CStr(rest) else CStr(plain)
  {
    CStrConcat(plain + Ticks(run), rest);
    CStrConcat(plain, Ticks(run));
    AbsentConcat('\0', plain, Ticks(run));
  }

  /** Whatever the name: unquoting what the connector quoted gives the name up to its first NUL. */
  lemma UnquoteQuoteIs(s: string)
    ensures UnquoteIdentifier(QuoteIdentifier(s)) == CStr(s)
  {
    hide ReplaceFrom, Smeared, CStr, QuoteIdentifier;
    QuoteIdentifierSmears(s);
    var q := QuoteIdentifier(s);
    assert q[1..|q| - 1] == Smeared(s);
    SmearedCStr(s);
    ReplaceUnsmears("", CStr(s));
    assert "" + Smeared(CStr(s)) == Smeared(CStr(s)) && "" + CStr(s) == CStr(s);
  }

  /** Everything from the NUL on is lost. */
  lemma UnquoteNulExample()
    ensures UnquoteIdentifier(QuoteIdentifier("a\0b")) == "a"
  {
    hide UnquoteIdentifier, QuoteIdentifier;
    UnquoteQuoteIs("a\0b");
    CStrConcat("a", "\0b");
    assert "a" + "\0b" == "a\0b" && CStr("\0b") == "" && "a" + "" == "a";
  }

  lemma SmearedHead(s: string)
    requires s != ""
    ensures Smeared(s) != "" && (Smeared(s)[0] == TICK ==> |Smeared(s)| >= 2 && Smeared(s)[1] == TICK)
  {
    var (plain, run, rest) := Cut(s);
    if plain != "" {
      assert s[0] == plain[0];
      assert run > 0 ==> Smeared(s)[0] == plain[0];
    } else {
      assert run > 0;
    }
  }

  /** The parity decoder reads a name out of the connector's quoting exactly where it stands closed. */
  lemma ReadsAsIff(s: string, c: char, name: string)
    requires c != TICK && c != '.'
    ensures var r := ReadIdentifier(QuoteIdentifier(s) + [c], 0, "");
            var x := Smeared(s) + [TICK, c];
            (r.Ok? && r.value.1 == Identifier("", name)) <==> ClosedIn(x, name) && x[|Doubled(name)| + 1] != '.'
  {
    hide ReadQuoted, Doubled, Smeared, Ticks, QuoteIdentifier;
    QuoteIdentifierSmears(s);
    var part := QuoteIdentifier(s) + [c];
    var x := Smeared(s) + [TICK, c];
    assert part == [TICK] + x;
    var r := ReadIdentifier(part, 0, "");
    if r.Ok? && r.value.1 == Identifier("", name) {
      ReadsSound(s, c, name, x, part);
    }
    if ClosedIn(x, name) && x[|Doubled(name)| + 1] != '.' {
      var after := |Doubled(name)| + 2;
      assert part[1..after] == x[..after - 1] && part[after] == x[after - 1];
      ReadQuotedAccepts(part, 1, name, after);
    }
  }

  lemma ReadsSound(s: string, c: char, name: string, x: string, part: string)
    requires c != TICK && c != '.' && x == Smeared(s) + [TICK, c] && part == [TICK] + x
    requires var r := ReadIdentifier(part, 0, ""); r.Ok? && r.value.1 == Identifier("", name)
    ensures ClosedIn(x, name) && x[|Doubled(name)| + 1] != '.'
  {
    hide ReadQuoted, Doubled, Smeared, Ticks;
    var q := ReadQuoted(part, 1);
    ReadQuotedSound(part, 1);
    assert part[1..q.after] == x[..q.after - 1] && part[q.after] == x[q.after - 1];
    assert part[q.after] != '.' by { NotDotted(s, c, name, x, part); }
    assert q.text == name && q.after - 1 == |Doubled(name)| + 1;
  }

  lemma NotDotted(s: string, c: char, name: string, x: string, part: string)
    requires c != TICK && c != '.' && x == Smeared(s) + [TICK, c] && part == [TICK] + x
    requires var r := ReadIdentifier(part, 0, ""); r.Ok? && r.value.1 == Identifier("", name)
    ensures part[ReadQuoted(part, 1).after] != '.'
  {
    hide ReadQuoted, Smeared, Ticks;
    var q := ReadQuoted(part, 1);
    ReadQuotedSound(part, 1);
    SchemaKept(part, q.after + 1, q.text);
    if part[q.after] == '.' && q.text == "" {
      assert part[1..q.after] == [TICK];
      assert q.after == 2 && part[1..2][0] == part[1] == x[0] && part[2] == x[1];
      if s != "" {
        SmearedHead(s);
      } else {
        PlainSmeared(s);
      }
    }
  }

  /** One character that is not a backtick, with a run of backticks at the end. */
  predicate LoneThenTicks(p: string) {
    p != "" && p[|p| - 1] == TICK && PlainCount(p) == 1
  }

  /** The character after the closing backtick of `name`. */
  predicate NextIs(x: string, name: string, c: char) {
    var n := |Doubled(name)| + 1;
    n < |x| && x[n] == c
  }

  lemma ClosedInAfterIff(t: string, x: string, s: string, rest: string)
    requires Doubled(s) == t + Doubled(rest)
    ensures ClosedIn(t + x, s) <==> ClosedIn(x, rest)
    ensures forall c :: NextIs(x, rest, c) ==> NextIs(t + x, s, c)
  {
    hide Doubled;
    ClosedInAfter(t, x, s, rest);
    var n, n' := |Doubled(s)|, |Doubled(rest)|;
    if ClosedIn(x, rest) {
      assert (t + x)[..n + 1] == t + x[..n' + 1];
      assert (t + x)[n + 1] == x[n' + 1];
    }
  }

  lemma LoneThenTicksRest(run: nat, rest: string)
    ensures LoneThenTicks(Ticks(run) + rest) <==> LoneThenTicks(rest)
  {
    PlainCountConcat(Ticks(run), rest);
    PlainCountTicks(run);
  }

  lemma LastRun(plain: string, run: nat, tail: string, p: string)
    requires plain != "" && Absent(TICK, plain) && run > 0 && tail != "" && tail[0] != TICK
    requires p == plain + Ticks(run) && Doubled(p) == plain + Ticks(2 * run)
    ensures ClosedIn(plain + Ticks(|plain| + 2 * run) + tail, p) <==> LoneThenTicks(p)
    ensures LoneThenTicks(p) ==> NextIs(plain + Ticks(|plain| + 2 * run) + tail, p, tail[0])
  {
    hide Doubled;
    var x := plain + Ticks(|plain| + 2 * run) + tail;
    var n := |plain| + 2 * run;
    PlainCountConcat(plain, Ticks(run));
    PlainCountPlain(plain);
    PlainCountTicks(run);
    assert x[..n + 1] == plain + Ticks(2 * run + 1) == Doubled(p) + [TICK];
    assert |plain| == 1 ==> x[n + 1] == tail[0];
    assert |plain| > 1 ==> x[n + 1] == TICK;
  }

  /** Where the connector's quoting goes on with another character, the name stands closed in it in one case only. */
  lemma {:induction false} SmearedClosedIff(p: string, tail: string)
    requires tail != "" && tail[0] != TICK
    ensures ClosedIn(Smeared(p) + tail, p) <==> LoneThenTicks(p)
    ensures LoneThenTicks(p) ==> NextIs(Smeared(p) + tail, p, tail[0])
    decreases |p|
  {
    hide Doubled, Ticks, Cut, ClosedIn, LoneThenTicks, Absent, NextIs;
    var (plain, run, rest) := Cut(p);
    DoubledCut(p);
    if run == 0 {
      NoTicks(plain);
      PlainNotClosed(p, tail);
    } else if plain == "" {
      assert p == Ticks(run) + rest;
      assert Doubled(p) == Ticks(2 * run) + Doubled(rest);
      assert Smeared(p) + tail == Ticks(2 * run) + (Smeared(rest) + tail);
      SmearedClosedIff(rest, tail);
      ClosedInAfterIff(Ticks(2 * run), Smeared(rest) + tail, p, rest);
      LoneThenTicksRest(run, rest);
    } else if rest == "" {
      assert Doubled(rest) == "" by { NothingQuoted(); }
      assert Smeared(rest) == "" by { NothingQuoted(); }
      assert Smeared(p) + tail == plain + Ticks(|plain| + 2 * run) + tail;
      LastRun(plain, run, tail, p);
    } else {
      assert Smeared(p) + tail == plain + Ticks(|plain| + 2 * run) + (Smeared(rest) + tail);
      SmearedRunHides(plain, run, rest, Smeared(rest) + tail, p);
      NotLone(plain, run, rest);
    }
  }

  lemma NothingQuoted()
    ensures Doubled("") == "" && Smeared("") == ""
  {
    PlainSmeared("");
  }

  lemma PlainNotClosed(p: string, tail: string)
    requires Absent(TICK, p) && tail != "" && tail[0] != TICK && Smeared(p) == p
    ensures !ClosedIn(Smeared(p) + tail, p) && !LoneThenTicks(p)
  {
    DoubledPlain(p);
    var x := p + tail;
    assert x[|p|] == tail[0];
    if |p| + 1 < |x| {
      assert x[..|p| + 1][|p|] == x[|p|];
      assert (p + [TICK])[|p|] == TICK;
    }
  }

  lemma NotLone(plain: string, run: nat, rest: string)
    requires plain != "" && Absent(TICK, plain) && rest != "" && rest[0] != TICK
    ensures !LoneThenTicks(plain + Ticks(run) + rest)
  {
    PlainCountConcat(plain + Ticks(run), rest);
    PlainCountConcat(plain, Ticks(run));
    PlainCountPlain(plain);
    assert PlainCount(rest) >= 1;
  }

  /** A cut name is followed by a NUL in the quoted text. */
  lemma AfterNul(s: string) returns (tail: string)
    requires !Absent('\0', s)
    ensures tail != "" && tail[0] == '\0' && Smeared(s) == Smeared(CStr(s)) + tail
  {
    hide Smeared, CStr, Absent;
    SmearedCStr(s);
    SmearedKeepsNul(s);
    var t := Smeared(s);
    CutAtNul(t);
    tail := t[|CStr(t)|..];
    assert t == t[..|CStr(t)|] + tail;
  }

  /** On the connector's own quoting they agree exactly if the backticks of the name all lead, or, in a name with a NUL,
      if before the NUL stand one other character and at the end backticks. */
  lemma AgreeOnOwnQuotingIff(s: string, c: char)
    requires c != TICK && c != '.'
    ensures Agree(QuoteIdentifier(s), c) <==> if Absent('\0', s) then TicksLead(s) else LoneThenTicks(CStr(s))
  {
    hide UnquoteIdentifier, QuoteIdentifier, Absent, TicksLead, LoneThenTicks, CStr, Smeared, Doubled;
    UnquoteQuoteIs(s);
    if Absent('\0', s) {
      ReadQuoteIdentifierIff(s, c);
      assert CStr(s) == s;
    } else {
      ReadsAsIff(s, c, CStr(s));
      var tail := AfterNul(s);
      var p, x := CStr(s), Smeared(s) + [TICK, c];
      assert x == Smeared(p) + (tail + [TICK, c]);
      SmearedClosedIff(p, tail + [TICK, c]);
    }
  }
}
