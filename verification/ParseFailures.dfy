/** How the identifier parsers fail, and where: a checked read past the end, or a parse exception at a position. */
module ParseFailures {
  import opened Text
  import opened Quoting
  import opened Identifiers

  /** A keyword is a read past the end exactly where the text ends inside it. */
  lemma {:induction false} KeywordTooShort(part: string, pos: nat, keyword: string, i: nat)
    requires i <= |keyword| && pos <= |part|
    ensures ReadKeyword(part, pos, keyword, i) == Err(OutOfRange)
       <==> |part| - pos < |keyword| - i && part[pos..] <= keyword[i..]
    decreases |keyword| - i
  {
    if i < |keyword| && pos < |part| {
      assert part[pos..] == [part[pos]] + part[pos + 1..] && keyword[i..] == [keyword[i]] + keyword[i + 1..];
      if part[pos] == keyword[i] {
        KeywordTooShort(part, pos + 1, keyword, i + 1);
      }
    }
  }

  /** And an exception at `e` exactly where the text first differs from it at `e`. */
  lemma {:induction false} KeywordDiffers(part: string, pos: nat, keyword: string, i: nat, e: nat)
    requires i <= |keyword| && pos <= |part|
    ensures ReadKeyword(part, pos, keyword, i) == Err(ParseError(e))
       <==> pos <= e < |part| && e - pos < |keyword| - i && part[pos..e] == keyword[i..i + e - pos]
            && part[e] != keyword[i + e - pos]
    decreases |keyword| - i
  {
    if i < |keyword| && pos < |part| {
      if part[pos] == keyword[i] {
        KeywordDiffers(part, pos + 1, keyword, i + 1, e);
        if pos < e < |part| && e - pos < |keyword| - i {
          assert part[pos..e] == [part[pos]] + part[pos + 1..e];
          assert keyword[i..i + e - pos] == [keyword[i]] + keyword[i + 1..i + e - pos];
        }
      } else if pos < e < |part| && e - pos < |keyword| - i {
        assert part[pos..e][0] != keyword[i..i + e - pos][0];
      }
    }
  }

  lemma SpacesOnly(a: string, white: string)
    requires AllSpaces(white)
    ensures AfterSpaces(a + white, |a|) == |a + white|
  {
    var part := a + white;
    assert part[|a|..|part|] == white;
    AfterSpacesIs(part, |a|, |part|);
  }

  lemma SpacesThen(a: string, white: string, c: char, b: string)
    requires AllSpaces(white) && !IsSpace(c)
    ensures AfterSpaces(a + white + [c] + b, |a|) == |a + white|
  {
    var part := a + white + [c] + b;
    assert part[|a|..|a + white|] == white;
    AfterSpacesIs(part, |a|, |a + white|);
  }

  /** A name that is missing: a read past the end, or an exception at what stands there. */
  lemma NoName(a: string, white: string, c: char, b: string, schema: string)
    requires AllSpaces(white) && !IsSpace(c) && c != TICK
    ensures ReadIdentifier(a + white, |a|, schema) == Err(OutOfRange)
    ensures ReadIdentifier(a + white + [c] + b, |a|, schema) == Err(ParseError(|a + white|))
  {
    hide ReadQuoted, AfterSpaces;
    SpacesOnly(a, white);
    SpacesThen(a, white, c, b);
    assert (a + white + [c] + b)[|a + white|] == c;
  }

  lemma {:induction false} DoubledIsOpen(part: string, i: nat, s: string)
    requires i <= |part| && part[i..] == Doubled(s)
    ensures ReadQuoted(part, i) == Unclosed
    decreases |s|
  {
    if s == "" {
      assert |part| == i;
    } else {
      var n := if s[0] == TICK then 2 else 1;
      var head := if s[0] == TICK then [TICK, TICK] else [s[0]];
      assert part[i..] == head + Doubled(s[1..]);
      assert part[i..][0] == part[i] && (n == 2 ==> part[i..][1] == part[i + 1]);
      assert part[i + n..] == part[i..][n..] == Doubled(s[1..]);
      DoubledIsOpen(part, i + n, s[1..]);
    }
  }

  /** A name that is not closed, or closed only at the very end, fails at the start of the whole. */
  lemma NotClosed(a: string, white: string, s: string, schema: string)
    requires AllSpaces(white)
    ensures ReadIdentifier(a + white + [TICK] + Doubled(s), |a|, schema) == Err(ParseError(|a|))
    ensures ReadIdentifier(a + white + [TICK] + (Doubled(s) + [TICK]), |a|, schema) == Err(ParseError(|a|))
  {
    hide ReadQuoted, AfterSpaces, Doubled;
    var open := |a + white|;
    var p := a + white + [TICK] + Doubled(s);
    SpacesThen(a, white, TICK, Doubled(s));
    assert p[open] == TICK && p[open + 1..] == Doubled(s);
    DoubledIsOpen(p, open + 1, s);
    var q := a + white + [TICK] + (Doubled(s) + [TICK]);
    SpacesThen(a, white, TICK, Doubled(s) + [TICK]);
    assert q[open] == TICK && q[open + 1..|q|] == Doubled(s) + [TICK];
    ReadQuotedAccepts(q, open + 1, s, |q|);
  }

  /** A third component fails at its dot. */
  lemma ThirdDot(a: string, s: string, b: string, schema: string)
    requires schema != ""
    ensures ReadIdentifier(a + SqlQuoted(s) + "." + b, |a|, schema) == Err(ParseError(|a + SqlQuoted(s)|))
  {
    hide ReadQuoted, AfterSpaces, Doubled;
    var q := SqlQuoted(s);
    var part := a + q + "." + b;
    var after := |a + q|;
    assert part[|a|..after] == q && part[|a|] == TICK && part[after] == '.';
    assert part[|a| + 1..after] == q[1..] == Doubled(s) + [TICK];
    AfterSpacesIs(part, |a|, |a|);
    ReadQuotedAccepts(part, |a| + 1, s, after);
  }

  /** A list that is missing: a read past the end, or an exception at what stands there. */
  lemma NoList(a: string, white: string, c: char, b: string)
    requires AllSpaces(white) && !IsSpace(c) && c != '('
    ensures ReadList(a + white, |a|) == Err(OutOfRange)
    ensures ReadList(a + white + [c] + b, |a|) == Err(ParseError(|a + white|))
  {
    hide ReadItems, AfterSpaces;
    SpacesOnly(a, white);
    SpacesThen(a, white, c, b);
    assert (a + white + [c] + b)[|a + white|] == c;
  }

  /** A list that stops after a comma or its parenthesis: a read past the end; a stray character: an exception at the
      start of the whole list. */
  lemma ListStops(a: string, white: string, c: char, b: string)
    requires AllSpaces(white) && !IsSpace(c) && c != ')' && c != ',' && c != TICK
    ensures ReadList(a + "(" + white, |a|) == Err(OutOfRange)
    ensures ReadList(a + "(" + white + [c] + b, |a|) == Err(ParseError(|a|))
  {
    hide AfterSpaces, ReadIdentifier;
    SpacesOnly(a + "(", white);
    SpacesThen(a + "(", white, c, b);
    var p, q := a + "(" + white, a + "(" + white + [c] + b;
    assert p[|a|] == '(' && q[|a|] == '(' && q[|a + "(" + white|] == c;
    AfterSpacesIs(p, |a|, |a|);
    AfterSpacesIs(q, |a|, |a|);
  }
}
