/** The substring search for ON UPDATE / ON DELETE actions over a printed constraint line: when it is right. */
module ActionSearch {
  import opened Text
  import opened Quoting
  import opened Identifiers
  import opened ImportedKeys
  import opened ConstraintText

  // ---------------------------------------------------------------- no match crosses a backtick

  lemma MatchInLeft(a: string, b: string, p: string, i: nat)
    requires MatchesAt(a, p, i)
    ensures MatchesAt(a + b, p, i)
  {
    assert (a + b)[i..i + |p|] == a[i..i + |p|];
  }

  lemma MatchInRight(a: string, b: string, p: string, i: nat)
    requires MatchesAt(b, p, i)
    ensures MatchesAt(a + b, p, |a| + i)
  {
    assert (a + b)[|a| + i..|a| + i + |p|] == b[i..i + |p|];
  }

  lemma NotAcrossTick(a: string, b: string, p: string, i: nat)
    requires Absent(TICK, p) && i <= |a|
    ensures |a| < i + |p| ==> !MatchesAt(a + [TICK] + b, p, i)
  {
    var s := a + [TICK] + b;
    if |a| < i + |p| <= |s| {
      assert s[i..i + |p|][|a| - i] == s[|a|] == TICK;
    }
  }

  lemma MatchOnOneSide(a: string, b: string, p: string, i: nat)
    requires Absent(TICK, p) && p != "" && MatchesAt(a + [TICK] + b, p, i)
    ensures Contains(a, p) || Contains(b, p)
  {
    var s := a + [TICK] + b;
    if i <= |a| {
      NotAcrossTick(a, b, p, i);
      assert s[i..i + |p|] == a[i..i + |p|];
      assert MatchesAt(a, p, i);
    } else {
      var j := i - |a| - 1;
      assert s[i..i + |p|] == b[j..j + |p|];
      assert MatchesAt(b, p, j);
    }
  }

  lemma ContainsAcrossTick(a: string, b: string, p: string)
    requires Absent(TICK, p) && p != ""
    ensures Contains(a + [TICK] + b, p) <==> Contains(a, p) || Contains(b, p)
  {
    var s := a + [TICK] + b;
    if Contains(s, p) {
      var i: nat :| MatchesAt(s, p, i);
      MatchOnOneSide(a, b, p, i);
    }
    if Contains(a, p) {
      var i: nat :| MatchesAt(a, p, i);
      assert s == a + ([TICK] + b);
      MatchInLeft(a, [TICK] + b, p, i);
    }
    if Contains(b, p) {
      var i: nat :| MatchesAt(b, p, i);
      MatchInRight(a + [TICK], b, p, i);
    }
  }

  lemma TooShort(a: string, p: string)
    requires |a| < |p|
    ensures !Contains(a, p)
  {
  }

  lemma {:induction false} ContainsDoubled(s: string, p: string)
    requires Absent(TICK, p) && p != ""
    ensures Contains(Doubled(s), p) <==> Contains(s, p)
    decreases |s|
  {
    hide Doubled, MatchesAt;
    var n := PlainPrefix(s);
    if n == |s| {
      assert s[..n] == s;
      DoubledPlain(s);
    } else {
      var plain, rest := s[..n], s[n + 1..];
      assert s == plain + [TICK] + rest;
      ContainsDoubled(rest, p);
      ContainsAcrossTick(plain, rest, p);
      DoubledConcat(plain + [TICK], rest);
      DoubledConcat(plain, [TICK]);
      DoubledPlain(plain);
      DoubledOne();
      TooShort("", p);
      ContainsAcrossTick("", Doubled(rest), p);
      ContainsAcrossTick(plain, "" + [TICK] + Doubled(rest), p);
      assert Doubled(s) == plain + [TICK] + ("" + [TICK] + Doubled(rest));
    }
  }

  lemma DoubledOne()
    ensures Doubled([TICK]) == [TICK, TICK]
  {
  }

  /** A pattern without backticks occurs in quoted text exactly where it occurs in a name or between names. */
  lemma ContainsQuoted(a: string, s: string, b: string, p: string)
    requires Absent(TICK, p) && p != ""
    ensures Contains(a + SqlQuoted(s) + b, p) <==> Contains(a, p) || Contains(s, p) || Contains(b, p)
  {
    hide MatchesAt, Doubled, Contains;
    ContainsDoubled(s, p);
    ContainsAcrossTick(Doubled(s), b, p);
    ContainsAcrossTick(a, Doubled(s) + [TICK] + b, p);
    assert a + SqlQuoted(s) + b == a + [TICK] + (Doubled(s) + [TICK] + b);
  }

  ghost predicate SomeContains(names: seq<string>, p: string) {
    exists i :: 0 <= i < |names| && Contains(names[i], p)
  }

  lemma {:induction false} ContainsNameList(a: string, names: seq<string>, b: string, p: string)
    requires Absent(TICK, p) && |p| > 2 && names != []
    ensures Contains(a + NameList(names) + b, p) <==> Contains(a, p) || SomeContains(names, p) || Contains(b, p)
    decreases |names|
  {
    hide MatchesAt, Doubled, Contains, SqlQuoted;
    if |names| == 1 {
      ContainsQuoted(a, names[0], b, p);
    } else {
      var rest := names[1..];
      ContainsNameList(", ", rest, b, p);
      TooShort(", ", p);
      ContainsQuoted(a, names[0], ", " + NameList(rest) + b, p);
      assert a + NameList(names) + b == a + SqlQuoted(names[0]) + (", " + NameList(rest) + b);
      SomeContainsFirst(names, p);
    }
  }

  lemma SomeContainsFirst(names: seq<string>, p: string)
    requires names != []
    ensures SomeContains(names, p) <==> Contains(names[0], p) || SomeContains(names[1..], p)
  {
    if SomeContains(names, p) {
      var i :| 0 <= i < |names| && Contains(names[i], p);
      assert i > 0 ==> names[1..][i - 1] == names[i];
    }
    if SomeContains(names[1..], p) {
      var i :| 0 <= i < |names[1..]| && Contains(names[1..][i], p);
      assert names[i + 1] == names[1..][i];
    }
  }

  /** Some identifier of the key contains `p`. */
  ghost predicate Mentions(fk: ForeignKey, p: string) {
    Contains(fk.name, p) || SomeContains(fk.FkColumns(), p) || Contains(fk.schema, p) || Contains(fk.table, p)
    || SomeContains(fk.PkColumns(), p)
  }

  lemma ContainsTable(a: string, schema: string, table: string, b: string, p: string)
    requires Absent(TICK, p) && |p| > 2
    ensures Contains(a + TableText(schema, table) + b, p)
      <==> Contains(a, p) || Contains(schema, p) || Contains(table, p) || Contains(b, p)
  {
    hide MatchesAt, Doubled, Contains, SqlQuoted;
    if schema == "" {
      ContainsQuoted(a, table, b, p);
      TooShort("", p);
    } else {
      ContainsQuoted(".", table, b, p);
      TooShort(".", p);
      ContainsQuoted(a, schema, "." + SqlQuoted(table) + b, p);
      assert a + TableText(schema, table) + b == a + SqlQuoted(schema) + ("." + SqlQuoted(table) + b);
    }
  }

  /** In a printed line a pattern longer than every fixed stretch occurs in an identifier or in the tail. */
  lemma ContainsLine(fk: ForeignKey, comma: bool, p: string)
    requires Absent(TICK, p) && |p| > 14 && fk.columns != []
    ensures Contains(Line(fk, comma), p) <==> Mentions(fk, p) || Contains(")" + Tail(fk, comma), p)
  {
    hide MatchesAt, Contains, SqlQuoted, NameList, TableText, Tail;
    var e := ")" + Tail(fk, comma);
    ContainsNameList(" (", fk.PkColumns(), e, p);
    TooShort(" (", p);
    var d := " (" + NameList(fk.PkColumns()) + e;
    ContainsTable(") REFERENCES ", fk.schema, fk.table, d, p);
    TooShort(") REFERENCES ", p);
    var c := ") REFERENCES " + TableText(fk.schema, fk.table) + d;
    ContainsNameList(" FOREIGN KEY (", fk.FkColumns(), c, p);
    TooShort(" FOREIGN KEY (", p);
    var b := " FOREIGN KEY (" + NameList(fk.FkColumns()) + c;
    ContainsQuoted("CONSTRAINT ", fk.name, b, p);
    TooShort("CONSTRAINT ", p);
    LineRegroups(SqlQuoted(fk.name), NameList(fk.FkColumns()), TableText(fk.schema, fk.table),
                 NameList(fk.PkColumns()), Tail(fk, comma));
  }

  lemma LineRegroups(n: string, l1: string, t: string, l2: string, tail: string)
    ensures "CONSTRAINT" + (" " + n) + " FOREIGN KEY" + (" (" + l1 + ")") + " REFERENCES" + (" " + t)
            + (" (" + l2 + ")") + tail
         == "CONSTRAINT " + n + (" FOREIGN KEY (" + l1 + (") REFERENCES " + t + (" (" + l2 + (")" + tail))))
  {
    assert " FOREIGN KEY (" == " FOREIGN KEY" + " (";
    assert ") REFERENCES " == ")" + " REFERENCES" + " ";
    assert "CONSTRAINT " == "CONSTRAINT" + " ";
    Regroup("CONSTRAINT", " ", n, " FOREIGN KEY", " (", l1, ")", " REFERENCES", t, l2, tail);
  }

  lemma Regroup(k1: string, sp: string, n: string, k2: string, open: string, l1: string, close: string, k3: string,
                t: string, l2: string, tail: string)
    ensures k1 + (sp + n) + k2 + (open + l1 + close) + k3 + (sp + t) + (open + l2 + close) + tail
         == (k1 + sp) + n + ((k2 + open) + l1 + ((close + k3 + sp) + t + (open + l2 + (close + tail))))
  {
    var x := open + l2 + (close + tail);
    assert (open + l2 + close) + tail == x;
    var y := (close + k3 + sp) + t + x;
    assert close + (k3 + ((sp + t) + x)) == y;
    var z := (k2 + open) + l1 + y;
    assert k2 + ((open + l1 + close) + (k3 + ((sp + t) + x))) == z by {
      assert (open + l1 + close) + (k3 + ((sp + t) + x)) == open + l1 + (close + (k3 + ((sp + t) + x)));
    }
    LineGroups(k1, sp + n, k2, open + l1 + close, k3, sp + t, open + l2 + close, tail);
    assert k1 + ((sp + n) + z) == (k1 + sp) + n + z;
  }

  // ---------------------------------------------------------------- the tail of the line

  /** Anchors a match: the pattern has `c` at `k`, the text has it at `j` only. */
  lemma MatchesOnlyAt(s: string, p: string, k: nat, j: nat)
    requires k < |p| && k <= j
    requires forall i :: 0 <= i < |s| && s[i] == p[k] ==> i == j
    ensures Contains(s, p) <==> MatchesAt(s, p, j - k)
  {
    forall i: nat | MatchesAt(s, p, i) ensures i == j - k {
      assert s[i..i + |p|][k] == s[i + k];
    }
  }

  lemma ActionHeads(a: Action, u: Action)
    ensures ActionText(a) != "" && (ActionText(a)[0] == ActionText(u)[0] ==> a == u)
    ensures ActionText(a)[0] != 'E' && Absent('P', ActionText(a)) && NoLE(ActionText(a))
  {
    match a
    case Restrict => assert |ActionText(a)| == 8;
    case Cascade => assert |ActionText(a)| == 7;
    case SetNull => assert |ActionText(a)| == 8;
    case NoAction => assert |ActionText(a)| == 9;
  }

  /** After the keyword stands `u`: the pattern with action `a` matches there exactly if a is u. */
  lemma KeywordThenAction(front: string, keyword: string, u: Action, back: string, a: Action)
    ensures MatchesAt(front + keyword + ActionText(u) + back, keyword + ActionText(a), |front|) <==> a == u
  {
    hide ActionText;
    ActionHeads(a, u);
    ActionHeads(u, a);
    var s := front + keyword + ActionText(u) + back;
    var p := keyword + ActionText(a);
    if a == u {
      assert s[|front|..|front| + |p|] == p;
    } else if |front| + |p| <= |s| {
      assert s[|front|..|front| + |p|][|keyword|] == s[|front| + |keyword|] == ActionText(u)[0];
      assert p[|keyword|] == ActionText(a)[0];
    }
  }

  lemma AbsentP(del: Option<Action>)
    ensures Absent('P', ")" + ActionClause(ON_DELETE, del))
  {
    assert Absent('P', ")");
    if del.Some? {
      ActionHeads(del.value, del.value);
      assert |ON_DELETE| == 10 && Absent('P', " " + ON_DELETE);
      AbsentConcat('P', " " + ON_DELETE, ActionText(del.value));
    }
    AbsentConcat('P', ")", ActionClause(ON_DELETE, del));
  }

  lemma TailUpdate(fk: ForeignKey, comma: bool, a: Action)
    ensures Contains(")" + Tail(fk, comma), ON_UPDATE + ActionText(a)) <==> fk.onUpdate == Some(a)
  {
    hide ActionText, Contains, MatchesAt, Absent;
    var front := ")" + ActionClause(ON_DELETE, fk.onDelete);
    var back := if comma then "," else "";
    AbsentP(fk.onDelete);
    NoPInBack(comma);
    if fk.onUpdate == None {
      assert ")" + Tail(fk, comma) == front + back;
      NoUpdate(front, back, a);
    } else {
      var u := fk.onUpdate.value;
      assert ")" + Tail(fk, comma) == front + " " + ON_UPDATE + ActionText(u) + back;
      OneUpdate(front, u, back, a);
    }
  }

  lemma NoPInBack(comma: bool)
    ensures Absent('P', if comma then "," else "")
  {
  }

  lemma FifthIsP(a: Action)
    ensures |ON_UPDATE + ActionText(a)| > 10 && (ON_UPDATE + ActionText(a))[4] == 'P'
  {
    hide ActionText;
    ActionHeads(a, a);
    assert |ON_UPDATE| == 10 && ON_UPDATE[4] == 'P';
  }

  lemma NoUpdate(front: string, back: string, a: Action)
    requires Absent('P', front) && Absent('P', back)
    ensures !Contains(front + back, ON_UPDATE + ActionText(a))
  {
    hide ActionText, Contains;
    var s, p := front + back, ON_UPDATE + ActionText(a);
    AbsentConcat('P', front, back);
    FifthIsP(a);
    MatchesOnlyAt(s, p, 4, |s| + 4);
    NoMatchAtEnd(s, p);
  }

  lemma OneUpdate(front: string, u: Action, back: string, a: Action)
    requires Absent('P', front) && Absent('P', back)
    ensures Contains(front + " " + ON_UPDATE + ActionText(u) + back, ON_UPDATE + ActionText(a)) <==> a == u
  {
    hide ActionText, Contains, MatchesAt, Absent;
    var f, rest := front + " ", ActionText(u) + back;
    var s, p := f + ON_UPDATE + ActionText(u) + back, ON_UPDATE + ActionText(a);
    ActionHeads(u, u);
    AbsentConcat('P', ActionText(u), back);
    AbsentConcat('P', front, " ");
    NoPInSpace();
    assert s == f + (ON_UPDATE + rest);
    OnlyP(f, rest);
    FifthIsP(a);
    MatchesOnlyAt(s, p, 4, |f| + 4);
    KeywordThenAction(f, ON_UPDATE, u, back, a);
  }

  lemma NoPInSpace()
    ensures Absent('P', " ")
  {
  }

  lemma NoMatchAtEnd(s: string, p: string)
    requires p != ""
    ensures !MatchesAt(s, p, |s|)
  {
  }

  lemma OnlyP(f: string, rest: string)
    requires Absent('P', f) && Absent('P', rest)
    ensures var s := f + (ON_UPDATE + rest); forall i :: 0 <= i < |s| && s[i] == 'P' ==> i == |f| + 4
  {
    var s := f + (ON_UPDATE + rest);
    assert |ON_UPDATE| == 10 && forall i :: 0 <= i < 10 && ON_UPDATE[i] == 'P' ==> i == 4;
    forall i | 0 <= i < |s| && s[i] == 'P' ensures i == |f| + 4 {
      if |f| <= i < |f| + 10 {
        assert s[i] == ON_UPDATE[i - |f|];
      }
    }
  }

  predicate NoLE(s: string) {
    forall i :: 0 <= i < |s| - 1 && s[i] == 'L' ==> s[i + 1] != 'E'
  }

  lemma NoLEConcat(a: string, b: string)
    requires NoLE(a) && NoLE(b) && (b == "" || b[0] != 'E')
    ensures NoLE(a + b)
  {
    var s := a + b;
    forall i | 0 <= i < |s| - 1 && s[i] == 'L' ensures s[i + 1] != 'E' {
      if i < |a| - 1 {
        assert s[i] == a[i] && s[i + 1] == a[i + 1];
      } else if i == |a| - 1 {
        assert s[i + 1] == b[0];
      } else {
        assert s[i] == b[i - |a|] && s[i + 1] == b[i + 1 - |a|];
      }
    }
  }

  lemma AfterDelete(fk: ForeignKey, comma: bool)
    ensures var r := ActionClause(ON_UPDATE, fk.onUpdate) + (if comma then "," else "");
            NoLE(r) && (r == "" || r[0] != 'E')
  {
    hide ActionText;
    var back := if comma then "," else "";
    assert NoLE(back);
    if fk.onUpdate.Some? {
      var u := fk.onUpdate.value;
      ActionHeads(u, u);
      assert |ON_UPDATE| == 10 && NoLE(" " + ON_UPDATE);
      NoLEConcat(" " + ON_UPDATE, ActionText(u));
      NoLEConcat(" " + ON_UPDATE + ActionText(u), back);
      assert (" " + ON_UPDATE + ActionText(u))[0] == ' ';
    } else {
      assert "" + back == back;
    }
  }

  lemma TailDelete(fk: ForeignKey, comma: bool, a: Action)
    ensures Contains(")" + Tail(fk, comma), ON_DELETE + ActionText(a)) <==> fk.onDelete == Some(a)
  {
    hide ActionText, Contains, NoLE;
    var r := ActionClause(ON_UPDATE, fk.onUpdate) + (if comma then "," else "");
    AfterDelete(fk, comma);
    if fk.onDelete == None {
      assert ")" + Tail(fk, comma) == ")" + r;
      NoDelete(r, a);
    } else {
      var d := fk.onDelete.value;
      assert ")" + Tail(fk, comma) == ") " + ON_DELETE + ActionText(d) + r;
      OneDelete(d, r, a);
    }
  }

  lemma NoDelete(r: string, a: Action)
    requires NoLE(r) && (r == "" || r[0] != 'E')
    ensures !Contains(")" + r, ON_DELETE + ActionText(a))
  {
    hide ActionText, MatchesAt, NoLE;
    OneNoLE();
    NoLEConcat(")", r);
    forall i: nat | MatchesAt(")" + r, ON_DELETE + ActionText(a), i) ensures false {
      MatchNeedsLE(")" + r, a, i);
    }
  }

  lemma OneDelete(d: Action, r: string, a: Action)
    requires NoLE(r) && (r == "" || r[0] != 'E')
    ensures Contains(") " + ON_DELETE + ActionText(d) + r, ON_DELETE + ActionText(a)) <==> a == d
  {
    hide ActionText, MatchesAt, NoLE;
    var s, p := ") " + ON_DELETE + ActionText(d) + r, ON_DELETE + ActionText(a);
    ActionHeads(d, d);
    NoLEConcat(ActionText(d), r);
    var rest := ActionText(d) + r;
    assert s == ") " + ON_DELETE + rest;
    forall i: nat | MatchesAt(s, p, i) ensures i == 2 {
      MatchNeedsLE(s, a, i);
      OnlyLE(rest, i + 5);
    }
    KeywordThenAction(") ", ON_DELETE, d, r, a);
    assert |") "| == 2;
  }

  lemma OneNoLE()
    ensures NoLE(")")
  {
  }

  lemma MatchNeedsLE(s: string, a: Action, i: nat)
    requires MatchesAt(s, ON_DELETE + ActionText(a), i)
    ensures i + 6 < |s| && s[i + 5] == 'L' && s[i + 6] == 'E' && !NoLE(s)
  {
    var p := ON_DELETE + ActionText(a);
    assert |ON_DELETE| == 10 && p[5] == ON_DELETE[5] == 'L' && p[6] == ON_DELETE[6] == 'E';
    assert s[i..i + |p|][5] == s[i + 5] && s[i..i + |p|][6] == s[i + 6];
  }

  lemma OnlyLE(rest: string, j: nat)
    requires NoLE(rest)
    requires var s := ") " + ON_DELETE + rest; j + 1 < |s| && s[j] == 'L' && s[j + 1] == 'E'
    ensures j == 7
  {
    var s := ") " + ON_DELETE + rest;
    assert |ON_DELETE| == 10 && |") "| == 2;
    assert forall i :: 12 <= i < |s| ==> s[i] == rest[i - 12];
    if 2 <= j < 12 {
      assert s[j] == ON_DELETE[j - 2];
      assert forall i :: 0 <= i < 10 && ON_DELETE[i] == 'L' ==> i == 5;
    }
  }

  // ---------------------------------------------------------------- when the search is right

  function Effective(a: Option<Action>): Action {
    match a case None => Restrict case Some(action) => action
  }

  /** No identifier holds the text of an action that the search would prefer to the printed one. */
  ghost predicate Unconfused(fk: ForeignKey, prefix: string, printed: Option<Action>) {
    forall a: Action :: Rank(Effective(printed)) < Rank(a) ==> !Mentions(fk, prefix + ActionText(a))
  }

  lemma PatternShape(prefix: string, a: Action)
    requires prefix == ON_UPDATE || prefix == ON_DELETE
    ensures var p := prefix + ActionText(a); Absent(TICK, p) && |p| > 14
  {
    assert |ON_UPDATE| == 10 && |ON_DELETE| == 10 && Absent(TICK, ON_UPDATE) && Absent(TICK, ON_DELETE);
    match a
    case Restrict => assert |ActionText(a)| == 8;
    case Cascade => assert |ActionText(a)| == 7;
    case SetNull => assert |ActionText(a)| == 8;
    case NoAction => assert |ActionText(a)| == 9;
    AbsentConcat(TICK, prefix, ActionText(a));
  }

  lemma ActionInIff(part: string, prefix: string, fk: ForeignKey, printed: Option<Action>)
    requires forall a: Action :: Contains(part, prefix + ActionText(a))
               <==> Mentions(fk, prefix + ActionText(a)) || printed == Some(a)
    ensures ActionIn(part, prefix) == Effective(printed) <==> Unconfused(fk, prefix, printed)
    ensures Rank(Effective(printed)) <= Rank(ActionIn(part, prefix))
  {
    hide ActionText, Contains, Mentions;
    assert ACTIONS[0] == Restrict && ACTIONS[1] == Cascade && ACTIONS[2] == SetNull && ACTIONS[3] == NoAction;
    var r1 := ActionAmong(part, prefix, 1);
    var r2 := ActionAmong(part, prefix, 2);
    var r3 := ActionAmong(part, prefix, 3);
    var r4 := ActionAmong(part, prefix, 4);
    assert ActionAmong(part, prefix, 0) == Restrict && r1 == Restrict;
    assert r2 == if Contains(part, prefix + ActionText(Cascade)) then Cascade else r1;
    assert r3 == if Contains(part, prefix + ActionText(SetNull)) then SetNull else r2;
    assert r4 == if Contains(part, prefix + ActionText(NoAction)) then NoAction else r3;
  }

  /** The update rule is read right exactly when no identifier mentions an action the search would prefer. */
  lemma UpdateRuleIff(fk: ForeignKey, comma: bool)
    requires fk.columns != []
    ensures ActionIn(Line(fk, comma), ON_UPDATE) == Effective(fk.onUpdate) <==> Unconfused(fk, ON_UPDATE, fk.onUpdate)
    ensures Rank(Effective(fk.onUpdate)) <= Rank(ActionIn(Line(fk, comma), ON_UPDATE))
  {
    hide Contains, Mentions, Line, Tail, ActionText, ActionIn, Unconfused;
    forall a: Action
      ensures Contains(Line(fk, comma), ON_UPDATE + ActionText(a))
        <==> Mentions(fk, ON_UPDATE + ActionText(a)) || fk.onUpdate == Some(a)
    {
      PatternShape(ON_UPDATE, a);
      ContainsLine(fk, comma, ON_UPDATE + ActionText(a));
      TailUpdate(fk, comma, a);
    }
    ActionInIff(Line(fk, comma), ON_UPDATE, fk, fk.onUpdate);
  }

  lemma DeleteRuleIff(fk: ForeignKey, comma: bool)
    requires fk.columns != []
    ensures ActionIn(Line(fk, comma), ON_DELETE) == Effective(fk.onDelete) <==> Unconfused(fk, ON_DELETE, fk.onDelete)
    ensures Rank(Effective(fk.onDelete)) <= Rank(ActionIn(Line(fk, comma), ON_DELETE))
  {
    hide Contains, Mentions, Line, Tail, ActionText, ActionIn, Unconfused;
    forall a: Action
      ensures Contains(Line(fk, comma), ON_DELETE + ActionText(a))
        <==> Mentions(fk, ON_DELETE + ActionText(a)) || fk.onDelete == Some(a)
    {
      PatternShape(ON_DELETE, a);
      ContainsLine(fk, comma, ON_DELETE + ActionText(a));
      TailDelete(fk, comma, a);
    }
    ActionInIff(Line(fk, comma), ON_DELETE, fk, fk.onDelete);
  }

  // ---------------------------------------------------------------- the round trip

  /** The rows of a foreign key with these rules: the i-th columns paired, at KEY_SEQ i. */
  function RowsWith(fk: ForeignKey, u: Action, d: Action, catalog: string, tableName: string): (rows: seq<Row>)
    ensures |rows| == |fk.columns|
  {
    seq(|fk.columns|, i requires 0 <= i < |fk.columns| =>
      Row(if fk.schema == "" then catalog else fk.schema, fk.table, fk.columns[i].1,
          catalog, tableName, fk.columns[i].0, Decimal(i + 1),
          RuleText(u), RuleText(d), fk.name, "7"))
  }

  /** The code of a rule, as it stands in a row. */
  function RuleText(a: Action): string {
    match a case Cascade => "0" case Restrict => "1" case SetNull => "2" case NoAction => "3"
  }

  lemma RuleTextIs(a: Action)
    ensures RuleText(a) == Decimal(Code(a))
  {
  }

  /** The rows the foreign key stands for. */
  function ExpectedRows(fk: ForeignKey, catalog: string, tableName: string): (rows: seq<Row>)
    ensures |rows| == |fk.columns|
  {
    RowsWith(fk, Effective(fk.onUpdate), Effective(fk.onDelete), catalog, tableName)
  }

  /** A printed line always parses, to the right rows but for the rules. */
  lemma LineReads(fk: ForeignKey, comma: bool, catalog: string, tableName: string)
    ensures var line := Line(fk, comma);
            LineRows(line, catalog, tableName)
            == Ok(RowsWith(fk, ActionIn(line, ON_UPDATE), ActionIn(line, ON_DELETE), catalog, tableName))
  {
    hide ReadConstraint, ActionIn, Line, IsKeyLine, KeyRows, RowsWith;
    var line := Line(fk, comma);
    LineParses(fk, comma);
    LineIsKeyLine(fk, comma);
    KeyRowsAre(fk, ActionIn(line, ON_UPDATE), ActionIn(line, ON_DELETE), catalog, tableName);
  }

  lemma KeyRowsAre(fk: ForeignKey, u: Action, d: Action, catalog: string, tableName: string)
    ensures KeyRows(fk.ToConstraint(), Code(u), Code(d), catalog, tableName) == RowsWith(fk, u, d, catalog, tableName)
  {
    hide Decimal, Code, RuleText;
    RuleTextIs(u);
    RuleTextIs(d);
    assert Decimal(KEY_NOT_DEFERRABLE) == "7" by { SevenText(); }
    var found := KeyRows(fk.ToConstraint(), Code(u), Code(d), catalog, tableName);
    var rows := RowsWith(fk, u, d, catalog, tableName);
    forall i | 0 <= i < |rows| ensures found[i] == rows[i] {
    }
  }

  /** A printed constraint line is read back to exactly its rows, precisely when no identifier confuses the search. */
  lemma LineRoundTripIff(fk: ForeignKey, comma: bool, catalog: string, tableName: string)
    requires fk.columns != []
    ensures LineRows(Line(fk, comma), catalog, tableName) == Ok(ExpectedRows(fk, catalog, tableName))
      <==> Unconfused(fk, ON_UPDATE, fk.onUpdate) && Unconfused(fk, ON_DELETE, fk.onDelete)
  {
    hide LineRows, ActionIn, Unconfused, Decimal, Line;
    var line := Line(fk, comma);
    LineReads(fk, comma, catalog, tableName);
    UpdateRuleIff(fk, comma);
    DeleteRuleIff(fk, comma);
    var u, d := ActionIn(line, ON_UPDATE), ActionIn(line, ON_DELETE);
    if u != Effective(fk.onUpdate) || d != Effective(fk.onDelete) {
      assert RowsWith(fk, u, d, catalog, tableName)[0] != ExpectedRows(fk, catalog, tableName)[0];
    }
  }

  /** A table named like an action: the key prints none, and CASCADE is read for it. */
  lemma ConfusedExample(catalog: string, tableName: string)
    ensures var fk := ForeignKey("k", [("a", "b")], "", "ON UPDATE CASCADE", None, None);
            LineRows(Line(fk, false), catalog, tableName) != Ok(ExpectedRows(fk, catalog, tableName))
  {
    hide LineRows, ExpectedRows, Line;
    var fk := ForeignKey("k", [("a", "b")], "", "ON UPDATE CASCADE", None, None);
    LineRoundTripIff(fk, false, catalog, tableName);
    var p := ON_UPDATE + ActionText(Cascade);
    assert p == fk.table;
    assert MatchesAt(fk.table, p, 0);
    assert Mentions(fk, p);
  }

  lemma SevenText()
    ensures Decimal(KEY_NOT_DEFERRABLE) == "7"
  {
  }

  lemma LineIsKeyLine(fk: ForeignKey, comma: bool)
    ensures IsKeyLine(Line(fk, comma))
  {
    var rest := (" " + SqlQuoted(fk.name)) + (" FOREIGN KEY" + ((" (" + NameList(fk.FkColumns()) + ")")
      + (" REFERENCES" + ((" " + TableText(fk.schema, fk.table)) + ((" (" + NameList(fk.PkColumns()) + ")")
      + Tail(fk, comma))))));
    LineGroups("CONSTRAINT", " " + SqlQuoted(fk.name), " FOREIGN KEY", " (" + NameList(fk.FkColumns()) + ")",
               " REFERENCES", " " + TableText(fk.schema, fk.table), " (" + NameList(fk.PkColumns()) + ")",
               Tail(fk, comma));
    assert Line(fk, comma) == "CONSTRAINT" + rest;
  }
}
