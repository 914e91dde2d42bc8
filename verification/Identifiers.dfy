/** The identifier parsers of `MariaDbDatabaseMetaData`: loops that decode backtick runs by parity, proved against
    a decoder that reads one backtick pair at a time, and both against the grammar of quoted names. */
module Identifiers {
  import opened Text
  import opened Quoting

  datatype Identifier = Identifier(schema: string, name: string)

  // ---------------------------------------------------------------- white space and keywords

  function AfterSpaces(part: string, start: nat): (pos: nat)
    ensures pos <= |part|
    ensures start <= |part| ==> start <= pos && AllSpaces(part[start..pos])
    ensures pos < |part| ==> start <= pos && !IsSpace(part[pos])
    decreases |part| - start
  {
    if |part| <= start then |part|
    else if IsSpace(part[start]) then
      var pos := AfterSpaces(part, start + 1);
      assert part[start..pos] == [part[start]] + part[start + 1..pos];
      pos
    else start
  }

  method SkipWhite(part: string, startPos: nat) returns (pos: nat)
    ensures pos == AfterSpaces(part, startPos)
  {
    pos := startPos;
    while pos < |part|
      invariant AfterSpaces(part, pos) == AfterSpaces(part, startPos)
    {
      if !IsSpace(part[pos]) {
        return;
      }
      pos := pos + 1;
    }
    pos := |part|;
  }

  lemma {:induction false} AfterSpacesIs(part: string, start: nat, pos: nat)
    requires start <= pos <= |part| && AllSpaces(part[start..pos])
    requires pos < |part| ==> !IsSpace(part[pos])
    ensures AfterSpaces(part, start) == pos
    decreases pos - start
  {
    if start < pos {
      assert part[start..pos][0] == part[start];
      assert part[start + 1..pos] == part[start..pos][1..];
      AfterSpacesIs(part, start + 1, pos);
    }
  }

  /** Reads `keyword` from its character `i` on. */
  function ReadKeyword(part: string, pos: nat, keyword: string, i: nat): Result<nat>
    requires i <= |keyword|
    decreases |keyword| - i
  {
    if i == |keyword| then Ok(pos)
    else if |part| <= pos then Err(OutOfRange)
    else if part[pos] != keyword[i] then Err(ParseError(pos))
    else ReadKeyword(part, pos + 1, keyword, i + 1)
  }

  method SkipKeyword(part: string, startPos: nat, keyword: string) returns (r: Result<nat>)
    ensures r == ReadKeyword(part, AfterSpaces(part, startPos), keyword, 0)
  {
    var pos: nat := SkipWhite(part, startPos);
    var i := 0;
    while i < |keyword|
      invariant 0 <= i <= |keyword|
      invariant ReadKeyword(part, pos, keyword, i) == ReadKeyword(part, AfterSpaces(part, startPos), keyword, 0)
    {
      if |part| <= pos {
        return Err(OutOfRange);
      }
      if part[pos] != keyword[i] {
        return Err(ParseError(pos));
      }
      i := i + 1;
      pos := pos + 1;
    }
    return Ok(pos);
  }

  /** A keyword is read exactly where its text stands. */
  lemma {:induction false} ReadKeywordIff(part: string, pos: nat, keyword: string, i: nat, end: nat)
    requires i <= |keyword| && pos <= |part|
    ensures ReadKeyword(part, pos, keyword, i) == Ok(end)
      <==> end == pos + |keyword| - i && MatchesAt(part, keyword[i..], pos)
    decreases |keyword| - i
  {
    if i < |keyword| && pos < |part| {
      ReadKeywordIff(part, pos + 1, keyword, i + 1, end);
      var k := keyword[i..];
      assert k == [keyword[i]] + keyword[i + 1..];
      if pos + |k| <= |part| {
        assert part[pos..pos + |k|] == [part[pos]] + part[pos + 1..pos + |k|];
        assert part[pos..pos + |k|] == k ==> part[pos..pos + |k|][1..] == k[1..];
      }
    }
  }

  // ---------------------------------------------------------------- quoted names, one pair at a time

  datatype Quoted = Closed(text: string, after: nat) | Unclosed

  function Prefixed(t: string, q: Quoted): Quoted {
    match q
    case Closed(text, after) => Closed(t + text, after)
    case Unclosed => Unclosed
  }

  /** Reads a quoted name from just after its opening backtick. */
  function ReadQuoted(part: string, i: nat): (q: Quoted)
    ensures q.Closed? ==> i < q.after <= |part|
    decreases |part| - i
  {
    if |part| <= i then Unclosed
    else if part[i] != TICK then Prefixed([part[i]], ReadQuoted(part, i + 1))
    else if i + 1 < |part| && part[i + 1] == TICK then Prefixed([TICK], ReadQuoted(part, i + 2))
    else Closed("", i + 1)
  }

  lemma PrefixedTwice(a: string, b: string, q: Quoted)
    ensures Prefixed(a, Prefixed(b, q)) == Prefixed(a + b, q)
  {
    if q.Closed? {
      assert a + (b + q.text) == a + b + q.text;
    }
  }

  /** A run of backticks decodes by its parity. */
  lemma {:induction false} ReadRun(part: string, i: nat, run: nat)
    requires i + run <= |part| && part[i..i + run] == Ticks(run)
    requires i + run < |part| ==> part[i + run] != TICK
    ensures ReadQuoted(part, i) ==
            if run % 2 == 0 then Prefixed(Ticks(run / 2), ReadQuoted(part, i + run))
            else Closed(Ticks(run / 2), i + run)
    decreases run
  {
    if run >= 2 {
      assert part[i..i + run][0] == part[i] && part[i..i + run][1] == part[i + 1];
      assert part[i + 2..i + run] == part[i..i + run][2..] == Ticks(run - 2);
      ReadRun(part, i + 2, run - 2);
      assert [TICK] + Ticks((run - 2) / 2) == Ticks(run / 2);
      if run % 2 == 0 {
        PrefixedTwice([TICK], Ticks((run - 2) / 2), ReadQuoted(part, i + run));
      }
    } else if run == 1 {
      assert part[i..i + 1][0] == part[i];
      assert Ticks(0) == "";
    } else {
      var q := ReadQuoted(part, i);
      if q.Closed? {
        assert Ticks(0) + q.text == q.text;
      }
    }
  }

  /** What `parseIdentifier` answers, with the schema found so far. */
  function ReadIdentifier(part: string, start: nat, schema: string): (r: Result<(nat, Identifier)>)
    ensures r.Ok? ==> start < r.value.0 < |part|
    decreases |part| - start
  {
    var open := AfterSpaces(part, start);
    if |part| <= open then Err(OutOfRange)
    else if part[open] != TICK then Err(ParseError(open))
    else
      match ReadQuoted(part, open + 1)
      case Unclosed => Err(ParseError(start))
      case Closed(text, after) =>
        if after == |part| then Err(ParseError(start))
        else if part[after] != '.' then Ok((after, Identifier(schema, text)))
        else if schema != "" then Err(ParseError(after))
        else ReadIdentifier(part, after + 1, text)
  }

  /** Up to `pos` the name has decoded to `sb`, apart from the run of `quotes` backticks just before `pos`. */
  ghost predicate Scanned(part: string, body: nat, pos: nat, quotes: nat, sb: string) {
    body <= pos - quotes && pos <= |part| && part[pos - quotes..pos] == Ticks(quotes)
    && ReadQuoted(part, body) == Prefixed(sb, ReadQuoted(part, pos - quotes))
  }

  lemma ScanStart(part: string, body: nat)
    requires body <= |part|
    ensures Scanned(part, body, body, 0, "")
  {
    var q := ReadQuoted(part, body);
    if q.Closed? {
      assert "" + q.text == q.text;
    }
  }

  lemma ScanTick(part: string, body: nat, pos: nat, quotes: nat, sb: string)
    requires Scanned(part, body, pos, quotes, sb) && pos < |part| && part[pos] == TICK
    ensures Scanned(part, body, pos + 1, quotes + 1, sb)
  {
    assert part[pos - quotes..pos + 1] == part[pos - quotes..pos] + [TICK] == Ticks(quotes + 1);
  }

  lemma ScanOther(part: string, body: nat, pos: nat, quotes: nat, sb: string)
    requires Scanned(part, body, pos, quotes, sb) && pos < |part| && part[pos] != TICK
    ensures var sb' := sb + Ticks(quotes / 2);
            if quotes % 2 == 1 then ReadQuoted(part, body) == Closed(sb', pos)
            else Scanned(part, body, pos + 1, 0, sb' + [part[pos]])
  {
    ReadRun(part, pos - quotes, quotes);
    if quotes % 2 == 0 {
      PrefixedTwice(sb, Ticks(quotes / 2), ReadQuoted(part, pos));
      PrefixedTwice(sb + Ticks(quotes / 2), [part[pos]], ReadQuoted(part, pos + 1));
    }
  }

  lemma ScanEnd(part: string, body: nat, quotes: nat, sb: string)
    requires Scanned(part, body, |part|, quotes, sb)
    ensures var q := ReadQuoted(part, body); q == Unclosed || q.after == |part|
  {
    ReadRun(part, |part| - quotes, quotes);
  }

  /** The source's loop: it counts a run of backticks and settles it at the next other character. */
  method ParseIdentifier(part: string, startPos: nat, identifier: Identifier)
    returns (r: Result<(nat, Identifier)>)
    ensures r == ReadIdentifier(part, startPos, identifier.schema)
    decreases |part| - startPos
  {
    hide ReadQuoted, Ticks, Prefixed, AfterSpaces, Scanned;
    var pos := SkipWhite(part, startPos);
    if |part| <= pos {
      return Err(OutOfRange);
    }
    if part[pos] != TICK {
      return Err(ParseError(pos));
    }
    pos := pos + 1;
    ghost var body := pos;
    var sb := "";
    var quotes: nat := 0;
    ScanStart(part, body);
    while pos < |part|
      invariant body <= pos <= |part| && Scanned(part, body, pos, quotes, sb)
    {
      var ch := part[pos];
      if ch == TICK {
        ScanTick(part, body, pos, quotes, sb);
        quotes := quotes + 1;
      } else {
        ScanOther(part, body, pos, quotes, sb);
        sb := AppendTicks(sb, quotes / 2);
        if quotes % 2 == 1 {
          if ch == '.' {
            if identifier.schema != "" {
              return Err(ParseError(pos));
            }
            r := ParseIdentifier(part, pos + 1, identifier.(schema := sb));
            return;
          }
          return Ok((pos, identifier.(name := sb)));
        }
        quotes := 0;
        sb := sb + [ch];
      }
      pos := pos + 1;
    }
    ScanEnd(part, body, quotes, sb);
    return Err(ParseError(startPos));
  }

  method AppendTicks(sb: string, n: nat) returns (r: string)
    ensures r == sb + Ticks(n)
  {
    r := sb;
    for j := 0 to n
      invariant r == sb + Ticks(j)
    {
      r := r + [TICK];
      assert Ticks(j + 1) == Ticks(j) + [TICK];
    }
  }

  // ---------------------------------------------------------------- the grammar of names

  lemma {:induction false} ReadQuotedAccepts(part: string, i: nat, s: string, after: nat)
    requires i <= after <= |part| && part[i..after] == Doubled(s) + [TICK]
    requires after < |part| ==> part[after] != TICK
    ensures ReadQuoted(part, i) == Closed(s, after)
    decreases |s|
  {
    var t := part[i..after];
    assert t[0] == part[i];
    if s != [] {
      var step := if s[0] == TICK then 2 else 1;
      assert step == 2 ==> t[1] == part[i + 1];
      assert Doubled(s)[step..] == Doubled(s[1..]);
      assert part[i + step..after] == t[step..] == Doubled(s[1..]) + [TICK];
      ReadQuotedAccepts(part, i + step, s[1..], after);
      assert [s[0]] + s[1..] == s;
    }
  }

  lemma {:induction false} ReadQuotedSound(part: string, i: nat)
    requires ReadQuoted(part, i).Closed?
    ensures var q := ReadQuoted(part, i);
            part[i..q.after] == Doubled(q.text) + [TICK] && (q.after < |part| ==> part[q.after] != TICK)
    decreases |part| - i
  {
    var q := ReadQuoted(part, i);
    if part[i] != TICK {
      ReadQuotedSound(part, i + 1);
      assert part[i..q.after] == [part[i]] + part[i + 1..q.after];
      assert q.text[1..] == ReadQuoted(part, i + 1).text;
    } else if i + 1 < |part| && part[i + 1] == TICK {
      ReadQuotedSound(part, i + 2);
      assert part[i..q.after] == [TICK, TICK] + part[i + 2..q.after];
      assert q.text[1..] == ReadQuoted(part, i + 2).text;
    }
  }

  ghost predicate Opens(t: string, white: string, first: string, rest: string) {
    AllSpaces(white) && t == white + SqlQuoted(first) + rest
  }

  /** `t` is white space, a quoted name, and, as long as no schema is known yet, possibly a dot and more. */
  ghost predicate DottedText(t: string, schema: string, id: Identifier)
    decreases |t|
  {
    exists white, first, rest :: Opens(t, white, first, rest) &&
      if rest == "" then id == Identifier(schema, first)
      else rest[0] == '.' && schema == "" && DottedText(rest[1..], first, id)
  }

  ghost predicate EndsName(part: string, end: nat) {
    end < |part| && part[end] != TICK && part[end] != '.'
  }

  lemma Slice(part: string, start: nat, end: nat, i: nat, j: nat)
    requires start <= end <= |part| && i <= j <= end - start
    ensures part[start..end][i..j] == part[start + i..start + j]
  {
    var t, u := part[start..end][i..j], part[start + i..start + j];
    assert |t| == |u|;
    forall k | 0 <= k < |t| ensures t[k] == u[k] {
      assert t[k] == part[start..end][i + k];
    }
  }

  /** Where the three pieces of `part[start..end]` stand in `part`. */
  lemma Pieces(part: string, start: nat, end: nat, x: string, y: string, z: string)
    requires start <= end <= |part| && part[start..end] == x + y + z
    ensures var i, j := start + |x|, start + |x| + |y|;
            part[start..i] == x && part[i..j] == y && part[j..end] == z
  {
    var t := x + y + z;
    var i, j := |x|, |x| + |y|;
    assert t[0..i] == x && t[i..j] == y && t[j..|t|] == z;
    Slice(part, start, end, 0, i);
    Slice(part, start, end, i, j);
    Slice(part, start, end, j, |t|);
  }

  lemma OpenedAt(part: string, start: nat, end: nat, white: string, first: string, rest: string)
    requires start <= end <= |part| && Opens(part[start..end], white, first, rest)
    requires rest != "" ==> rest[0] == '.'
    requires rest == "" ==> EndsName(part, end)
    ensures var open := AfterSpaces(part, start); var after := end - |rest|;
            open < |part| && part[open] == TICK && ReadQuoted(part, open + 1) == Closed(first, after)
            && after < |part| && (rest != "" ==> part[after] == '.' && part[after + 1..end] == rest[1..])
  {
    hide ReadQuoted, Doubled, AfterSpaces;
    var quoted := SqlQuoted(first);
    var open := start + |white|;
    var after := open + |quoted|;
    Pieces(part, start, end, white, quoted, rest);
    assert part[open] == part[open..after][0];
    AfterSpacesIs(part, start, open);
    assert part[open + 1..after] == part[open..after][1..] == Doubled(first) + [TICK];
    if rest != "" {
      assert part[after] == part[after..end][0];
      assert part[after + 1..end] == part[after..end][1..];
    }
    ReadQuotedAccepts(part, open + 1, first, after);
  }

  lemma {:induction false} ReadIdentifierAccepts(part: string, start: nat, end: nat, schema: string, id: Identifier)
    requires start <= end && EndsName(part, end) && DottedText(part[start..end], schema, id)
    ensures ReadIdentifier(part, start, schema) == Ok((end, id))
    decreases end - start
  {
    hide ReadQuoted, AfterSpaces, Opens;
    var white, first, rest :| Opens(part[start..end], white, first, rest) &&
      if rest == "" then id == Identifier(schema, first)
      else rest[0] == '.' && schema == "" && DottedText(rest[1..], first, id);
    OpenedAt(part, start, end, white, first, rest);
    if rest != "" {
      ReadIdentifierAccepts(part, end - |rest| + 1, end, first, id);
    }
  }

  lemma OpensFrom(part: string, start: nat, end: nat)
    requires start <= |part| && AfterSpaces(part, start) < |part| && part[AfterSpaces(part, start)] == TICK
    requires var q := ReadQuoted(part, AfterSpaces(part, start) + 1); q.Closed? && q.after <= end <= |part|
    ensures var open := AfterSpaces(part, start); var q := ReadQuoted(part, open + 1);
            Opens(part[start..end], part[start..open], q.text, part[q.after..end])
            && (q.after < |part| ==> part[q.after] != TICK)
  {
    hide ReadQuoted, Doubled, AfterSpaces;
    var open := AfterSpaces(part, start);
    var q := ReadQuoted(part, open + 1);
    ReadQuotedSound(part, open + 1);
    assert part[open..q.after] == [TICK] + part[open + 1..q.after] == SqlQuoted(q.text);
    assert part[start..end] == part[start..open] + part[open..q.after] + part[q.after..end];
  }

  lemma {:induction false} ReadIdentifierSound(part: string, start: nat, schema: string)
    requires ReadIdentifier(part, start, schema).Ok?
    ensures var (end, id) := ReadIdentifier(part, start, schema).value;
            EndsName(part, end) && DottedText(part[start..end], schema, id)
    decreases |part| - start
  {
    hide ReadQuoted, Doubled, AfterSpaces, Opens;
    var (end, id) := ReadIdentifier(part, start, schema).value;
    var open := AfterSpaces(part, start);
    var q := ReadQuoted(part, open + 1);
    OpensFrom(part, start, end);
    var rest := part[q.after..end];
    if part[q.after] == '.' {
      ReadIdentifierSound(part, q.after + 1, q.text);
      assert rest[1..] == part[q.after + 1..end];
    }
  }

  /** `parseIdentifier` is the exact inverse of quoting: it succeeds on the dotted names of the grammar,
      stops right after them, and on nothing else. */
  lemma ReadIdentifierIff(part: string, start: nat, schema: string, end: nat, id: Identifier)
    ensures ReadIdentifier(part, start, schema) == Ok((end, id))
      <==> start <= end && EndsName(part, end) && DottedText(part[start..end], schema, id)
  {
    if ReadIdentifier(part, start, schema) == Ok((end, id)) {
      ReadIdentifierSound(part, start, schema);
    }
    if start <= end && EndsName(part, end) && DottedText(part[start..end], schema, id) {
      ReadIdentifierAccepts(part, start, end, schema, id);
    }
  }

  // ---------------------------------------------------------------- names quoted by the connector itself

  /** A name quoted by the SQL rule and followed by a character that ends it is read back. */
  lemma ReadSqlQuoted(s: string, c: char)
    requires c != TICK && c != '.'
    ensures ReadIdentifier(SqlQuoted(s) + [c], 0, "") == Ok((|SqlQuoted(s)|, Identifier("", s)))
  {
    var q := SqlQuoted(s);
    var part := q + [c];
    assert part[0..|q|] == q;
    assert Opens(q, "", s, "") by { assert "" + q + "" == q; }
    ReadIdentifierAccepts(part, 0, |q|, "", Identifier("", s));
  }

  /** `name` stands at the start of `x` and is closed there. */
  ghost predicate ClosedIn(x: string, name: string) {
    var n := |Doubled(name)|;
    n + 1 < |x| && x[..n + 1] == Doubled(name) + [TICK] && x[n + 1] != TICK
  }

  lemma ClosedInAfter(t: string, x: string, s: string, rest: string)
    requires Doubled(s) == t + Doubled(rest)
    ensures ClosedIn(t + x, s) ==> ClosedIn(x, rest)
  {
    hide Doubled;
    var n, n' := |Doubled(s)|, |Doubled(rest)|;
    if ClosedIn(t + x, s) {
      assert x[..n' + 1] == (t + x)[..n + 1][|t|..];
      assert (Doubled(s) + [TICK])[|t|..] == Doubled(rest) + [TICK];
      assert x[n' + 1] == (t + x)[n + 1];
    }
  }

  lemma SmearedRunHides(plain: string, run: nat, rest: string, tail: string, s: string)
    requires plain != "" && (rest != "" ==> rest[0] != TICK) && tail != "" && (rest == "" ==> tail[0] == TICK)
    requires Doubled(s) == plain + Ticks(2 * run) + Doubled(rest)
    ensures !ClosedIn(plain + Ticks(|plain| + 2 * run) + tail, s)
  {
    var x := plain + Ticks(|plain| + 2 * run) + tail;
    var k := |plain| + 2 * run;
    assert x[k] == TICK;
    if rest != "" {
      DoubledHead(rest);
      assert (Doubled(s) + [TICK])[k] == Doubled(rest)[0];
      assert k < |x| && |Doubled(s)| + 1 < |x| ==> x[..|Doubled(s)| + 1][k] == x[k];
    } else {
      assert x[k + 1] == TICK;
    }
  }

  /** Where the connector's own quoting breaks the SQL rule, the right name is not what stands there. */
  lemma {:induction false} SmearedHidesName(s: string, c: char)
    requires !TicksLead(s)
    ensures !ClosedIn(Smeared(s) + [TICK, c], s)
    decreases |s|
  {
    hide Doubled, Ticks, Cut, ClosedIn;
    var (plain, run, rest) := Cut(s);
    DoubledCut(s);
    if plain == [] {
      assert s == Ticks(run) + rest;
      TicksLeadRest(run, rest);
      SmearedHidesName(rest, c);
      assert Doubled(s) == Ticks(2 * run) + Doubled(rest);
      ClosedInAfter(Ticks(2 * run), Smeared(rest) + [TICK, c], s, rest);
      assert Smeared(s) + [TICK, c] == Ticks(2 * run) + (Smeared(rest) + [TICK, c]);
    } else {
      assert Smeared("") == "" by { assert Cut("").1 == 0; }
      SmearedRunHides(plain, run, rest, Smeared(rest) + [TICK, c], s);
      assert Smeared(s) + [TICK, c] == plain + Ticks(|plain| + 2 * run) + (Smeared(rest) + [TICK, c]);
    }
  }

  lemma DoubledHead(s: string)
    requires s != "" && s[0] != TICK
    ensures Doubled(s) != "" && Doubled(s)[0] == s[0]
  {
  }

  /** The parity decoder reads a name quoted by `quoteIdentifier` back exactly when its backticks all lead,
      while `unquoteIdentifier` reads back every one of them. */
  lemma ReadQuoteIdentifierIff(s: string, c: char)
    requires c != TICK && c != '.'
    ensures var r := ReadIdentifier(QuoteIdentifier(s) + [c], 0, "");
            (r.Ok? && r.value.1 == Identifier("", s)) <==> TicksLead(s)
  {
    QuoteIdentifierIsSqlQuoted(s);
    if TicksLead(s) {
      ReadSqlQuoted(s, c);
    } else {
      ReadQuoteIdentifierFails(s, c);
    }
  }

  lemma ReadQuoteIdentifierFails(s: string, c: char)
    requires c != TICK && c != '.' && !TicksLead(s)
    ensures var r := ReadIdentifier(QuoteIdentifier(s) + [c], 0, "");
            !(r.Ok? && r.value.1 == Identifier("", s))
  {
    hide ReadQuoted, Doubled, Smeared, Ticks, QuoteIdentifier;
    QuoteIdentifierSmears(s);
    var part := QuoteIdentifier(s) + [c];
    var x := Smeared(s) + [TICK, c];
    assert part == [TICK] + x;
    var q := ReadQuoted(part, 1);
    var r := ReadIdentifier(part, 0, "");
    if r.Ok? && r.value.1 == Identifier("", s) {
      ReadQuotedSound(part, 1);
      assert part[1..q.after] == x[..q.after - 1];
      if part[q.after] == '.' {
        SchemaKept(part, q.after + 1, q.text);
        assert q.text == "";
        assert Doubled("") == "" by { DoubledTicks(0); assert Ticks(0) == ""; }
        assert x[..q.after - 1] == [TICK] && q.after == 2;
        assert x[0] == x[..1][0];
        SmearedHeadIs(s);
      } else {
        assert q.after - 1 == |Doubled(s)| + 1;
        SmearedHidesName(s, c);
      }
      assert false;
    }
  }

  lemma SchemaKept(part: string, start: nat, schema: string)
    ensures var r := ReadIdentifier(part, start, schema); r.Ok? && schema != "" ==> r.value.1.schema == schema
  {
  }

  lemma SmearedHeadIs(s: string)
    requires !TicksLead(s)
    ensures |Smeared(s)| >= 2 && (Smeared(s)[0] == TICK ==> Smeared(s)[1] == TICK)
  {
    var (plain, run, rest) := Cut(s);
    if plain == "" {
      assert run > 0;
    } else {
      assert s[0] == plain[0];
      assert run > 0 ==> Smeared(s)[0] == plain[0];
      assert |s| >= 2;
    }
  }

  // ---------------------------------------------------------------- lists of names

  function ReadItems(part: string, start: nat, from: nat): (r: Result<(nat, seq<Identifier>)>)
    ensures r.Ok? ==> from < r.value.0 <= |part|
    decreases |part| - from
  {
    var pos := AfterSpaces(part, from);
    if |part| <= pos then Err(OutOfRange)
    else if part[pos] == ')' then Ok((pos + 1, []))
    else if part[pos] == ',' then ReadItems(part, start, pos + 1)
    else if part[pos] == TICK then
      match ReadIdentifier(part, pos, "")
      case Err(e) => Err(e)
      case Ok((after, id)) =>
        match ReadItems(part, start, after)
        case Err(e) => Err(e)
        case Ok((end, ids)) => Ok((end, [id] + ids))
    else Err(ParseError(start))
  }

  function ReadList(part: string, start: nat): (r: Result<(nat, seq<Identifier>)>)
    ensures r.Ok? ==> start < r.value.0 <= |part|
  {
    var open := AfterSpaces(part, start);
    if |part| <= open then Err(OutOfRange)
    else if part[open] != '(' then Err(ParseError(open))
    else ReadItems(part, start, open + 1)
  }

  function Appended(ids: seq<Identifier>, r: Result<(nat, seq<Identifier>)>): Result<(nat, seq<Identifier>)> {
    match r
    case Err(e) => Err(e)
    case Ok((end, more)) => Ok((end, ids + more))
  }

  method ParseIdentifierList(part: string, startPos: nat) returns (r: Result<(nat, seq<Identifier>)>)
    ensures r == ReadList(part, startPos)
  {
    hide ReadIdentifier, AfterSpaces;
    var pos := SkipWhite(part, startPos);
    if |part| <= pos {
      return Err(OutOfRange);
    }
    if part[pos] != '(' {
      return Err(ParseError(pos));
    }
    pos := pos + 1;
    var list: seq<Identifier> := [];
    AppendedNone(ReadItems(part, startPos, pos));
    while true
      invariant ReadList(part, startPos) == Appended(list, ReadItems(part, startPos, pos))
      decreases |part| - pos
    {
      ghost var from := pos;
      pos := SkipWhite(part, pos);
      if |part| <= pos {
        return Err(OutOfRange);
      }
      match part[pos]
      case ')' =>
        assert list + [] == list;
        return Ok((pos + 1, list));
      case '`' =>
        var id := ParseIdentifier(part, pos, Identifier("", ""));
        if id.Err? {
          return Err(id.error);
        }
        AppendedTwice(list, id.value.1, ReadItems(part, startPos, id.value.0));
        pos := id.value.0;
        list := list + [id.value.1];
      case ',' =>
        pos := pos + 1;
      case _ =>
        return Err(ParseError(startPos));
    }
  }

  lemma AppendedNone(r: Result<(nat, seq<Identifier>)>)
    ensures Appended([], r) == r
  {
    if r.Ok? {
      assert [] + r.value.1 == r.value.1;
    }
  }

  lemma AppendedTwice(list: seq<Identifier>, id: Identifier, r: Result<(nat, seq<Identifier>)>)
    ensures Appended(list, Appended([id], r)) == Appended(list + [id], r)
  {
    if r.Ok? {
      assert list + ([id] + r.value.1) == list + [id] + r.value.1;
    }
  }

  /** The text after "(": white space and commas anywhere, names in order, and the closing parenthesis. */
  ghost predicate ListBody(t: string, ids: seq<Identifier>)
    decreases |t|
  {
    t != "" &&
    if IsSpace(t[0]) || t[0] == ',' then ListBody(t[1..], ids)
    else if t[0] == ')' then t == ")" && ids == []
    else t[0] == TICK && ids != [] && exists n: nat :: NameThenList(t, n, ids)
  }

  ghost predicate NameThenList(t: string, n: nat, ids: seq<Identifier>)
    requires ids != []
    decreases |t|, 0
  {
    0 < n < |t| && EndsName(t, n) && DottedText(t[..n], "", ids[0]) && ListBody(t[n..], ids[1..])
  }

  lemma ReadItemsSpace(part: string, start: nat, from: nat)
    requires from < |part| && IsSpace(part[from])
    ensures ReadItems(part, start, from) == ReadItems(part, start, from + 1)
  {
    assert AfterSpaces(part, from) == AfterSpaces(part, from + 1);
  }

  lemma Cut2(part: string, from: nat, end: nat, n: nat)
    requires from <= end <= |part| && n < end - from
    ensures var t := part[from..end];
            t[..n] == part[from..from + n] && t[n] == part[from + n] && t[n..] == part[from + n..end]
  {
    Slice(part, from, end, 0, n);
    Slice(part, from, end, n, end - from);
  }

  lemma ReadItemsStep(part: string, start: nat, from: nat)
    requires from < |part| && !IsSpace(part[from])
    ensures part[from] == ')' ==> ReadItems(part, start, from) == Ok((from + 1, []))
    ensures part[from] == ',' ==> ReadItems(part, start, from) == ReadItems(part, start, from + 1)
    ensures part[from] == TICK && ReadIdentifier(part, from, "").Ok? ==>
      ReadItems(part, start, from) == Appended([ReadIdentifier(part, from, "").value.1],
                                               ReadItems(part, start, ReadIdentifier(part, from, "").value.0))
  {
    hide ReadIdentifier;
    AfterSpacesIs(part, from, from);
  }

  lemma {:induction false} ReadItemsAccepts(part: string, start: nat, from: nat, end: nat, ids: seq<Identifier>)
    requires from < end <= |part| && ListBody(part[from..end], ids)
    ensures ReadItems(part, start, from) == Ok((end, ids))
    decreases end - from
  {
    hide ReadItems, ReadIdentifier, DottedText;
    var t := part[from..end];
    assert t[0] == part[from];
    assert t[1..] == part[from + 1..end];
    if IsSpace(t[0]) {
      ReadItemsAccepts(part, start, from + 1, end, ids);
      ReadItemsSpace(part, start, from);
    } else {
      ReadItemsStep(part, start, from);
      if t[0] == ',' {
        ReadItemsAccepts(part, start, from + 1, end, ids);
      } else if t[0] == TICK {
        var n: nat :| NameThenList(t, n, ids);
        Cut2(part, from, end, n);
        ReadIdentifierAccepts(part, from, from + n, "", ids[0]);
        ReadItemsAccepts(part, start, from + n, end, ids[1..]);
        assert [ids[0]] + ids[1..] == ids;
      }
    }
  }

  lemma {:induction false} ReadItemsSound(part: string, start: nat, from: nat)
    requires ReadItems(part, start, from).Ok?
    ensures var (end, ids) := ReadItems(part, start, from).value; ListBody(part[from..end], ids)
    decreases |part| - from
  {
    hide ReadIdentifier, DottedText;
    var (end, ids) := ReadItems(part, start, from).value;
    var t := part[from..end];
    assert t[0] == part[from];
    assert t[1..] == part[from + 1..end];
    if IsSpace(part[from]) {
      ReadItemsSpace(part, start, from);
      ReadItemsSound(part, start, from + 1);
    } else if part[from] == ',' {
      ReadItemsSound(part, start, from + 1);
    } else if part[from] == TICK {
      ReadIdentifierSound(part, from, "");
      var (after, id) := ReadIdentifier(part, from, "").value;
      ReadItemsSound(part, start, after);
      var n := after - from;
      Cut2(part, from, end, n);
      assert ids[1..] == ReadItems(part, start, after).value.1;
      assert NameThenList(t, n, ids);
    }
  }

  /** `parseIdentifierList` succeeds exactly on parenthesised lists of the grammar, returns their names
      in order and stops just past the closing parenthesis. */
  lemma ReadListIff(part: string, start: nat, end: nat, ids: seq<Identifier>)
    ensures ReadList(part, start) == Ok((end, ids)) <==>
      var open := AfterSpaces(part, start);
      open < |part| && part[open] == '(' && open + 1 < end <= |part| && ListBody(part[open + 1..end], ids)
  {
    var open := AfterSpaces(part, start);
    if open < |part| && part[open] == '(' {
      if ReadItems(part, start, open + 1) == Ok((end, ids)) {
        ReadItemsSound(part, start, open + 1);
      }
      if open + 1 < end <= |part| && ListBody(part[open + 1..end], ids) {
        ReadItemsAccepts(part, start, open + 1, end, ids);
      }
    }
  }
}
