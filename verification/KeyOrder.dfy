/** The row comparator of `getImportedKeys` and the sort that uses it. */
module KeyOrder {
  import opened Text
  import opened ImportedKeys

  // ---------------------------------------------------------------- the comparator of the source

  /** The sign of `strncmp`: the first difference decides, a common NUL ends the comparison. */
  function StrNCmp(a: string, b: string, n: nat): int
    requires n <= |a| && n <= |b|
  {
    if n == 0 then 0
    else if a[0] != b[0] then a[0] as int - b[0] as int
    else if a[0] == '\0' then 0
    else StrNCmp(a[1..], b[1..], n - 1)
  }

  function Min(m: nat, n: nat): nat {
    if m < n then m else n
  }

  predicate RowLess(r1: Row, r2: Row) {
    var schema := StrNCmp(r1.pkSchema, r2.pkSchema, Min(|r1.pkSchema|, |r2.pkSchema|));
    if schema != 0 then schema < 0
    else if |r1.pkSchema| != |r2.pkSchema| then |r1.pkSchema| < |r2.pkSchema|
    else
      var table := StrNCmp(r1.pkTable, r2.pkTable, Min(|r1.pkTable|, |r2.pkTable|));
      if table != 0 then table < 0
      else if |r1.pkTable| != |r2.pkTable| then |r1.pkTable| < |r2.pkTable|
      else if |r1.keySeq| != |r2.keySeq| then |r1.keySeq| - |r2.keySeq| < 0
      else StrNCmp(r1.keySeq, r2.keySeq, |r1.keySeq|) < 0
  }

  // ---------------------------------------------------------------- lexicographic order

  predicate LexLess(a: string, b: string) {
    b != "" && (a == "" || a[0] < b[0] || (a[0] == b[0] && LexLess(a[1..], b[1..])))
  }

  lemma {:induction false} LexIrreflexive(a: string)
    ensures !LexLess(a, a)
  {
    if a != "" {
      LexIrreflexive(a[1..]);
    }
  }

  lemma {:induction false} LexTotal(a: string, b: string)
    ensures !LexLess(a, a)
    ensures LexLess(a, b) || LexLess(b, a) || a == b
    ensures !(LexLess(a, b) && LexLess(b, a))
    decreases |a|
  {
    LexIrreflexive(a);
    if a != "" && b != "" {
      LexTotal(a[1..], b[1..]);
      assert a == [a[0]] + a[1..] && b == [b[0]] + b[1..];
    }
  }

  lemma {:induction false} LexTransitive(a: string, b: string, c: string)
    requires LexLess(a, b) && LexLess(b, c)
    ensures LexLess(a, c)
    decreases |b|
  {
    if a != "" && a[0] == b[0] == c[0] {
      LexTransitive(a[1..], b[1..], c[1..]);
    }
  }

  /** What one name column contributes: its bytes up to the first NUL, then its size. */
  predicate NameLess(a: string, b: string) {
    LexLess(CStr(a), CStr(b)) || (CStr(a) == CStr(b) && |a| < |b|)
  }

  predicate NameSame(a: string, b: string) {
    CStr(a) == CStr(b) && |a| == |b|
  }

  /** How `strncmp` over the shorter length relates to the order of the texts up to their NULs. */
  predicate Compares(a: string, b: string, r: int) {
    && (r < 0 ==> LexLess(CStr(a), CStr(b)))
    && (r > 0 ==> LexLess(CStr(b), CStr(a)))
    && (r == 0 && |a| == |b| ==> CStr(a) == CStr(b))
    && (r == 0 && |a| < |b| ==> CStr(a) == CStr(b) || LexLess(CStr(a), CStr(b)))
    && (r == 0 && |b| < |a| ==> CStr(a) == CStr(b) || LexLess(CStr(b), CStr(a)))
  }

  lemma {:induction false} StrNCmpCompares(a: string, b: string, n: nat)
    requires n == Min(|a|, |b|)
    ensures Compares(a, b, StrNCmp(a, b, n))
    decreases |a|
  {
    if a != "" && b != "" && a[0] == b[0] && a[0] != '\0' {
      hide Compares, LexLess, CStr;
      StrNCmpCompares(a[1..], b[1..], n - 1);
      ComparesCons(a, b, StrNCmp(a, b, n));
    }
  }

  lemma ComparesCons(a: string, b: string, r: int)
    requires a != "" && b != "" && a[0] == b[0] && a[0] != '\0' && Compares(a[1..], b[1..], r)
    ensures Compares(a, b, r)
  {
    hide LexLess, CStr;
    var x, y := CStr(a[1..]), CStr(b[1..]);
    assert CStr(a) == [a[0]] + x && CStr(b) == [a[0]] + y by { CStrCons(a); CStrCons(b); }
    LexCons(a[0], x, y);
    LexCons(a[0], y, x);
  }

  lemma CStrCons(s: string)
    requires s != "" && s[0] != '\0'
    ensures CStr(s) == [s[0]] + CStr(s[1..])
  {
  }

  lemma LexCons(c: char, x: string, y: string)
    ensures LexLess([c] + x, [c] + y) <==> LexLess(x, y)
    ensures [c] + x == [c] + y <==> x == y
  {
    assert ([c] + x)[1..] == x && ([c] + y)[1..] == y;
  }

  /** One column of the comparator decides exactly as `NameLess`. */
  lemma NameStage(a: string, b: string)
    ensures var r := StrNCmp(a, b, Min(|a|, |b|));
            ((r < 0 || (r == 0 && |a| < |b|)) <==> NameLess(a, b))
            && (r == 0 && |a| == |b| <==> NameSame(a, b))
  {
    hide LexLess, CStr, StrNCmp;
    var n := Min(|a|, |b|);
    StrNCmpCompares(a, b, n);
    LexTotal(CStr(a), CStr(b));
    if CStr(a) == CStr(b) {
      SameCStr(a, b);
    }
  }

  lemma {:induction false} SameCStr(a: string, b: string)
    requires CStr(a) == CStr(b)
    ensures StrNCmp(a, b, Min(|a|, |b|)) == 0
    decreases |a|
  {
    if a != "" && b != "" && a[0] != '\0' && b[0] != '\0' {
      assert CStr(a)[0] == a[0] && CStr(b)[0] == b[0];
      assert CStr(a)[1..] == CStr(a[1..]) && CStr(b)[1..] == CStr(b[1..]);
      SameCStr(a[1..], b[1..]);
    }
  }

  predicate SeqLess(a: string, b: string) {
    |a| < |b| || (|a| == |b| && LexLess(CStr(a), CStr(b)))
  }

  predicate KeyLess(r1: Row, r2: Row) {
    NameLess(r1.pkSchema, r2.pkSchema) || (NameSame(r1.pkSchema, r2.pkSchema) && (
      NameLess(r1.pkTable, r2.pkTable) || (NameSame(r1.pkTable, r2.pkTable) && SeqLess(r1.keySeq, r2.keySeq))))
  }

  lemma RowLessIsKeyLess(r1: Row, r2: Row)
    ensures RowLess(r1, r2) <==> KeyLess(r1, r2)
  {
    NameStage(r1.pkSchema, r2.pkSchema);
    NameStage(r1.pkTable, r2.pkTable);
    NameExclusive(r1.pkSchema, r2.pkSchema);
    NameExclusive(r1.pkTable, r2.pkTable);
    if |r1.keySeq| == |r2.keySeq| {
      NameStage(r1.keySeq, r2.keySeq);
    }
  }

  lemma NameExclusive(a: string, b: string)
    ensures !(NameLess(a, b) && NameSame(a, b))
  {
    LexTotal(CStr(a), CStr(b));
  }

  lemma NameOrder(a: string, b: string, c: string)
    ensures !NameLess(a, a)
    ensures NameLess(a, b) || NameLess(b, a) || NameSame(a, b)
    ensures NameLess(a, b) && NameLess(b, c) ==> NameLess(a, c)
    ensures NameSame(a, b) && NameLess(b, c) ==> NameLess(a, c)
    ensures NameLess(a, b) && NameSame(b, c) ==> NameLess(a, c)
  {
    var x, y, z := CStr(a), CStr(b), CStr(c);
    LexTotal(x, y);
    if LexLess(x, y) && LexLess(y, z) {
      LexTransitive(x, y, z);
    }
  }

  lemma SeqOrder(a: string, b: string, c: string)
    ensures !SeqLess(a, a)
    ensures SeqLess(a, b) || SeqLess(b, a) || NameSame(a, b)
    ensures SeqLess(a, b) && SeqLess(b, c) ==> SeqLess(a, c)
    ensures NameSame(a, b) && SeqLess(b, c) ==> SeqLess(a, c)
    ensures SeqLess(a, b) && NameSame(b, c) ==> SeqLess(a, c)
  {
    var x, y, z := CStr(a), CStr(b), CStr(c);
    LexTotal(x, y);
    if LexLess(x, y) && LexLess(y, z) {
      LexTransitive(x, y, z);
    }
  }

  predicate Tied(r1: Row, r2: Row) {
    !RowLess(r1, r2) && !RowLess(r2, r1)
  }

  predicate KeySame(r1: Row, r2: Row) {
    NameSame(r1.pkSchema, r2.pkSchema) && NameSame(r1.pkTable, r2.pkTable) && NameSame(r1.keySeq, r2.keySeq)
  }

  lemma KeyOrderLaws(r1: Row, r2: Row, r3: Row)
    ensures !KeyLess(r1, r1)
    ensures KeyLess(r1, r2) && KeyLess(r2, r3) ==> KeyLess(r1, r3)
    ensures KeyLess(r1, r2) || KeyLess(r2, r1) || KeySame(r1, r2)
    ensures KeySame(r1, r2) ==> !KeyLess(r1, r2) && !KeyLess(r2, r1)
  {
    hide NameLess, SeqLess;
    NameOrder(r1.pkSchema, r2.pkSchema, r3.pkSchema);
    NameOrder(r1.pkTable, r2.pkTable, r3.pkTable);
    SeqOrder(r1.keySeq, r2.keySeq, r3.keySeq);
    NameExclusive(r1.pkSchema, r2.pkSchema);
    NameExclusive(r2.pkSchema, r1.pkSchema);
    NameExclusive(r1.pkTable, r2.pkTable);
    NameExclusive(r2.pkTable, r1.pkTable);
    SeqExclusive(r1.keySeq, r2.keySeq);
    SeqExclusive(r2.keySeq, r1.keySeq);
  }

  lemma SeqExclusive(a: string, b: string)
    ensures !(SeqLess(a, b) && NameSame(a, b))
  {
    LexTotal(CStr(a), CStr(b));
  }

  /** The comparator is a strict weak order on all rows: `std::sort` may rely on it. */
  lemma RowLessIsStrictWeakOrder(r1: Row, r2: Row, r3: Row)
    ensures !RowLess(r1, r1)
    ensures RowLess(r1, r2) && RowLess(r2, r3) ==> RowLess(r1, r3)
    ensures Tied(r1, r2) && Tied(r2, r3) ==> Tied(r1, r3)
  {
    hide RowLess, KeyLess;
    RowLessIsKeyLess(r1, r1);
    RowLessIsKeyLess(r1, r2);
    RowLessIsKeyLess(r2, r1);
    RowLessIsKeyLess(r2, r3);
    RowLessIsKeyLess(r3, r2);
    RowLessIsKeyLess(r1, r3);
    RowLessIsKeyLess(r3, r1);
    KeyOrderLaws(r1, r2, r3);
    KeyOrderLaws(r2, r3, r1);
    KeyOrderLaws(r1, r3, r2);
  }

  // ---------------------------------------------------------------- what the order means

  lemma {:induction false} LexAppend(x: string, y: string, c: char, d: char)
    requires |x| == |y|
    ensures LexLess(x + [c], y + [d]) <==> LexLess(x, y) || (x == y && c < d)
  {
    if x != "" {
      assert (x + [c])[1..] == x[1..] + [c] && (y + [d])[1..] == y[1..] + [d];
      LexAppend(x[1..], y[1..], c, d);
      assert x == [x[0]] + x[1..] && y == [y[0]] + y[1..];
    }
  }

  /** Comparing decimal texts by length and then by bytes compares the numbers. */
  lemma {:induction false} DecimalOrder(m: nat, n: nat)
    ensures m < n <==> |Decimal(m)| < |Decimal(n)| || (|Decimal(m)| == |Decimal(n)| && LexLess(Decimal(m), Decimal(n)))
    decreases m + n
  {
    if m < 10 && n < 10 {
      assert LexLess([Digit(m)], [Digit(n)]) <==> Digit(m) < Digit(n) by {
        assert [Digit(m)][1..] == "" && [Digit(n)][1..] == "";
      }
    } else if m < 10 || n < 10 {
    } else {
      DecimalOrder(m / 10, n / 10);
      LexAppendIf(m, n);
      if m / 10 == n / 10 {
        LexTotal(Decimal(m / 10), Decimal(n / 10));
      } else if Decimal(m / 10) == Decimal(n / 10) {
        DecimalInjective(m / 10, n / 10);
      }
    }
  }

  lemma LexAppendIf(m: nat, n: nat)
    requires m >= 10 && n >= 10
    ensures |Decimal(m / 10)| == |Decimal(n / 10)| ==>
      (LexLess(Decimal(m), Decimal(n)) <==>
        LexLess(Decimal(m / 10), Decimal(n / 10)) || (Decimal(m / 10) == Decimal(n / 10) && m % 10 < n % 10))
  {
    if |Decimal(m / 10)| == |Decimal(n / 10)| {
      LexAppend(Decimal(m / 10), Decimal(n / 10), Digit(m % 10), Digit(n % 10));
    }
  }

  /** On rows whose names hold no NUL and whose KEY_SEQ is a number, the comparator is the lexicographic order on
      (schema, table, number), which is the order the documentation promises. */
  lemma RowLessIsDocumented(r1: Row, r2: Row, m: nat, n: nat)
    requires Absent('\0', r1.pkSchema) && Absent('\0', r2.pkSchema)
    requires Absent('\0', r1.pkTable) && Absent('\0', r2.pkTable)
    requires r1.keySeq == Decimal(m) && r2.keySeq == Decimal(n)
    ensures RowLess(r1, r2) <==>
      LexLess(r1.pkSchema, r2.pkSchema) || (r1.pkSchema == r2.pkSchema && (
        LexLess(r1.pkTable, r2.pkTable) || (r1.pkTable == r2.pkTable && m < n)))
  {
    hide RowLess, LexLess, Decimal;
    RowLessIsKeyLess(r1, r2);
    DecimalOrder(m, n);
    DigitsHoldNoNul(Decimal(m));
    DigitsHoldNoNul(Decimal(n));
    assert CStr(r1.pkSchema) == r1.pkSchema && CStr(r2.pkSchema) == r2.pkSchema;
    assert CStr(r1.pkTable) == r1.pkTable && CStr(r2.pkTable) == r2.pkTable;
  }

  lemma DigitsHoldNoNul(s: string)
    requires AllDigits(s)
    ensures CStr(s) == s
  {
    assert Absent('\0', s);
  }

  // ---------------------------------------------------------------- the sort

  predicate Sorted(rows: seq<Row>) {
    forall i, j :: 0 <= i < j < |rows| ==> !RowLess(rows[j], rows[i])
  }

  /** What `std::sort` promises under a strict weak order. */
  method SortRows(data: seq<Row>) returns (rows: seq<Row>)
    ensures Sorted(rows) && multiset(rows) == multiset(data)
  {
    rows := [];
    for k := 0 to |data|
      invariant Sorted(rows) && multiset(rows) == multiset(data[..k])
    {
      assert data[..k + 1] == data[..k] + [data[k]];
      rows := InsertRow(rows, data[k]);
    }
    assert data[..|data|] == data;
  }

  method InsertRow(rows: seq<Row>, row: Row) returns (r: seq<Row>)
    requires Sorted(rows)
    ensures Sorted(r) && multiset(r) == multiset(rows) + multiset{row}
  {
    hide RowLess;
    var i := |rows|;
    while i > 0 && RowLess(row, rows[i - 1])
      invariant 0 <= i <= |rows|
      invariant forall k :: i <= k < |rows| ==> RowLess(row, rows[k])
    {
      i := i - 1;
    }
    r := rows[..i] + [row] + rows[i..];
    assert rows == rows[..i] + rows[i..];
    forall k | 0 <= k < |rows| ensures k < i ==> !RowLess(row, rows[k]) {
      if k < i {
        RowLessIsStrictWeakOrder(row, rows[k], rows[i - 1]);
        NotLessTransfers(row, rows[k], rows[i - 1]);
      }
    }
    forall k | i <= k < |rows| ensures !RowLess(rows[k], row) {
      RowLessIsStrictWeakOrder(row, rows[k], row);
    }
    SortedInsert(rows, i, row);
  }

  /** In a strict weak order "not less" is transitive. */
  lemma NotLessTransfers(row: Row, a: Row, b: Row)
    requires !RowLess(row, b) && (a == b || !RowLess(b, a))
    ensures !RowLess(row, a)
  {
    hide RowLess;
    RowLessIsStrictWeakOrder(row, a, b);
    RowLessIsStrictWeakOrder(b, row, a);
    RowLessIsStrictWeakOrder(a, b, row);
  }

  lemma SortedInsert(rows: seq<Row>, i: nat, row: Row)
    requires i <= |rows| && Sorted(rows)
    requires forall k :: 0 <= k < i ==> !RowLess(row, rows[k])
    requires forall k :: i <= k < |rows| ==> !RowLess(rows[k], row)
    ensures Sorted(rows[..i] + [row] + rows[i..])
  {
    hide RowLess;
    var r := rows[..i] + [row] + rows[i..];
    forall p, q | 0 <= p < q < |r| ensures !RowLess(r[q], r[p]) {
      var x := if p < i then p else p - 1;
      var y := if q < i then q else q - 1;
      if p != i && q != i {
        assert r[p] == rows[x] && r[q] == rows[y];
      }
    }
  }

  /** What `getImportedKeys` answers for a table definition: the first failure, or the rows of the text in order. */
  ghost predicate Answers(r: Result<seq<Row>>, tableDef: string, tableName: string, catalog: string) {
    var found := TableRows(Fields(tableDef, '\n'), catalog, tableName);
    if found.Err? then r == Err(found.error)
    else r.Ok? && Sorted(r.value) && multiset(r.value) == multiset(found.value)
  }

  /** The whole of `getImportedKeys`: the rows of the text, ordered by the comparator. */
  method GetImportedKeys(tableDef: string, tableName: string, catalog: string) returns (r: Result<seq<Row>>)
    ensures Answers(r, tableDef, tableName, catalog)
  {
    var data :- ImportedRows(tableDef, tableName, catalog);
    var rows := SortRows(data);
    return Ok(rows);
  }
}
