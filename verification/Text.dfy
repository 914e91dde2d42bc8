/** String helpers of the connector: searching, in-place replacement, splitting and trimming.
    A `char` stands for one byte of the C++ string. */
module Text {

  datatype Option<+T> = None | Some(value: T)

  /** Where the C++ code throws: `ParseError` for its ParseException, `OutOfRange` for a checked `at` past the end. */
  datatype Failure = ParseError(pos: nat) | OutOfRange

  datatype Result<+T> = Ok(value: T) | Err(error: Failure) {
    predicate IsFailure() {
      Err?
    }

    function PropagateFailure<U>(): Result<U>
      requires Err?
    {
      Err(error)
    }

    function Extract(): T
      requires Ok?
    {
      value
    }
  }

  const TICK: char := '`'

  /** `std::isspace` in the C locale. */
  predicate IsSpace(c: char) {
    c == ' ' || 9 <= c as int <= 13
  }

  predicate AllSpaces(s: string) {
    forall i :: 0 <= i < |s| ==> IsSpace(s[i])
  }

  predicate Absent(c: char, s: string) {
    forall i :: 0 <= i < |s| ==> s[i] != c
  }

  predicate MatchesAt(s: string, p: string, i: nat) {
    i + |p| <= |s| && s[i..i + |p|] == p
  }

  ghost predicate Contains(s: string, p: string) {
    exists i: nat :: MatchesAt(s, p, i)
  }

  /** `std::string::find`: the first match at or after `from`. */
  function Find(s: string, p: string, from: nat): (r: Option<nat>)
    ensures r.Some? ==> from <= r.value && MatchesAt(s, p, r.value)
    ensures r.Some? ==> forall i: nat :: from <= i < r.value ==> !MatchesAt(s, p, i)
    ensures r.None? ==> forall i: nat :: from <= i ==> !MatchesAt(s, p, i)
    decreases |s| - from
  {
    if |s| < from + |p| then None
    else if MatchesAt(s, p, from) then Some(from)
    else Find(s, p, from + 1)
  }

  lemma FindIs(s: string, p: string, from: nat, at: nat)
    requires from <= at && MatchesAt(s, p, at)
    requires forall i: nat :: from <= i < at ==> !MatchesAt(s, p, i)
    ensures Find(s, p, from) == Some(at)
  {
    var r := Find(s, p, from);
    assert r.Some?;
  }

  /** `replaceInternal`: after a hit at `pos` the next search starts |subst| after the previous
      search start, not after `pos`. */
  function ReplaceFrom(s: string, substr: string, subst: string, prev: nat): string
    requires substr != []
    decreases |s| - prev
  {
    match Find(s, substr, prev)
    case None => s
    case Some(pos) =>
      ReplaceFrom(s[..pos] + subst + s[pos + |substr|..], substr, subst, prev + |subst|)
  }

  lemma ReplaceStep(s: string, p: string, t: string, prev: nat, pos: nat, s': string)
    requires p != [] && Find(s, p, prev) == Some(pos)
    requires s' == s[..pos] + t + s[pos + |p|..]
    ensures ReplaceFrom(s, p, t, prev) == ReplaceFrom(s', p, t, prev + |t|)
  {
  }

  lemma ReplaceDone(s: string, p: string, t: string, prev: nat)
    requires p != [] && Find(s, p, prev) == None
    ensures ReplaceFrom(s, p, t, prev) == s
  {
  }

  method Replace(str: string, substr: string, subst: string) returns (text: string)
    requires substr != []  // an empty pattern is found again and again at the same place
    ensures text == ReplaceFrom(str, substr, subst, 0)
  {
    hide ReplaceFrom;
    text := str;
    var prev: nat := 0;
    var hit := Find(text, substr, prev);
    while hit.Some?
      invariant hit == Find(text, substr, prev)
      invariant ReplaceFrom(text, substr, subst, prev) == ReplaceFrom(str, substr, subst, 0)
      decreases |text| - prev
    {
      var next := text[..hit.value] + subst + text[hit.value + |substr|..];
      ReplaceStep(text, substr, subst, prev, hit.value, next);
      text := next;
      prev := prev + |subst|;
      hit := Find(text, substr, prev);
    }
    ReplaceDone(text, substr, subst, prev);
  }

  /** `SQLString::substr` returns through `c_str()`, which drops everything from the first NUL on. */
  function CStr(s: string): (r: string)
    ensures r <= s && Absent('\0', r)
    ensures r == s <==> Absent('\0', s)
  {
    if s == [] || s[0] == '\0' then []
    else
      var t := CStr(s[1..]);
      assert t <= s[1..];
      assert t == s[1..] ==> [s[0]] + t == s;
      assert [s[0]] + t == s ==> t == s[1..] by { assert [s[0]] + t == s ==> s[1..] == ([s[0]] + t)[1..]; }
      assert Absent('\0', s) ==> Absent('\0', s[1..]);
      assert Absent('\0', s[1..]) ==> Absent('\0', s) by { assert s == [s[0]] + s[1..]; }
      [s[0]] + t
  }

  /** Where a text is cut, a NUL stands. */
  lemma {:induction false} CutAtNul(t: string)
    requires !Absent('\0', t)
    ensures |CStr(t)| < |t| && t[|CStr(t)|] == '\0'
  {
    if t[0] != '\0' {
      assert t == [t[0]] + t[1..];
      CutAtNul(t[1..]);
    }
  }

  // ---------------------------------------------------------------- splitting and trimming

  /** The fields of `s` between occurrences of the one-character separator. */
  function Fields(s: string, sep: char): (r: seq<string>)
    ensures |r| >= 1
  {
    if s == [] then [""]
    else
      var rest := Fields(s[1..], sep);
      if s[0] == sep then [""] + rest
      else [[s[0]] + rest[0]] + rest[1..]
  }

  function Join(parts: seq<string>, sep: char): string {
    if |parts| == 0 then ""
    else if |parts| == 1 then parts[0]
    else parts[0] + [sep] + Join(parts[1..], sep)
  }

  lemma {:induction false} FieldsOfFirst(part: string, rest: string, sep: char)
    requires Absent(sep, part)
    ensures Fields(part + [sep] + rest, sep) == [part] + Fields(rest, sep)
  {
    var s := part + [sep] + rest;
    if part == [] {
      assert s[1..] == rest;
    } else {
      assert s[1..] == part[1..] + [sep] + rest;
      FieldsOfFirst(part[1..], rest, sep);
      assert [part[0]] + part[1..] == part;
    }
  }

  lemma {:induction false} FieldsOfAbsent(s: string, sep: char)
    requires Absent(sep, s)
    ensures Fields(s, sep) == [s]
  {
    if s != [] {
      FieldsOfAbsent(s[1..], sep);
      assert [s[0]] + s[1..] == s;
    }
  }

  /** Texts on both sides of a separator are split on their own. */
  lemma {:induction false} FieldsOfBoth(a: string, b: string, sep: char)
    ensures Fields(a + [sep] + b, sep) == Fields(a, sep) + Fields(b, sep)
  {
    var s := a + [sep] + b;
    if a == [] {
      assert s[1..] == b;
    } else {
      assert s[1..] == a[1..] + [sep] + b;
      FieldsOfBoth(a[1..], b, sep);
    }
  }

  /** Splitting undoes joining whenever no part holds the separator. */
  lemma {:induction false} FieldsOfJoin(parts: seq<string>, sep: char)
    requires |parts| >= 1
    requires forall i :: 0 <= i < |parts| ==> Absent(sep, parts[i])
    ensures Fields(Join(parts, sep), sep) == parts
  {
    if |parts| == 1 {
      FieldsOfAbsent(parts[0], sep);
    } else {
      FieldsOfFirst(parts[0], Join(parts[1..], sep), sep);
      FieldsOfJoin(parts[1..], sep);
    }
  }

  /** `split` with a one-character delimiter, as the loop over `find` runs it. */
  method Split(str: string, sep: char) returns (result: seq<string>)
    ensures result == Fields(str, sep)
  {
    hide Fields;
    result := [];
    var prevOffset: nat := 0;
    var offset := Find(str, [sep], prevOffset);
    assert str[0..] == str;
    while offset.Some?
      invariant prevOffset <= |str|
      invariant offset == Find(str, [sep], prevOffset)
      invariant Fields(str, sep) == result + Fields(str[prevOffset..], sep)
      decreases |str| - prevOffset
    {
      var token := str[prevOffset..offset.value];
      SplitStep(str, sep, prevOffset, offset.value, result);
      result := result + [token];
      prevOffset := offset.value + 1;
      offset := Find(str, [sep], prevOffset);
    }
    AbsentAfter(str, sep, prevOffset);
    FieldsOfAbsent(str[prevOffset..], sep);
    result := result + [str[prevOffset..]];
  }

  lemma SplitStep(str: string, sep: char, from: nat, at: nat, done: seq<string>)
    requires from <= at < |str| && Find(str, [sep], from) == Some(at)
    ensures done + Fields(str[from..], sep) == done + [str[from..at]] + Fields(str[at + 1..], sep)
  {
    forall i | from <= i < at ensures str[i] != sep {
      assert !MatchesAt(str, [sep], i);
      assert str[i..i + 1] == [str[i]];
    }
    assert str[at..at + 1] == [sep];
    assert str[from..] == str[from..at] + [sep] + str[at + 1..];
    FieldsOfFirst(str[from..at], str[at + 1..], sep);
  }

  lemma AbsentAfter(str: string, sep: char, from: nat)
    requires from <= |str| && Find(str, [sep], from) == None
    ensures Absent(sep, str[from..])
  {
    forall i | 0 <= i < |str[from..]| ensures str[from..][i] != sep {
      assert !MatchesAt(str, [sep], from + i);
      assert str[from + i..from + i + 1] == [str[from + i]];
    }
  }

  function LTrim(s: string): string {
    if s != [] && IsSpace(s[0]) then LTrim(s[1..]) else s
  }

  function RTrim(s: string): string {
    if s != [] && IsSpace(s[|s| - 1]) then RTrim(s[..|s| - 1]) else s
  }

  function Trim(s: string): string {
    RTrim(LTrim(s))
  }

  lemma {:induction false} TrimIndented(indent: string, s: string)
    requires AllSpaces(indent)
    requires s != [] && !IsSpace(s[0]) && !IsSpace(s[|s| - 1])
    ensures Trim(indent + s) == s
  {
    if indent == [] {
      assert indent + s == s;
    } else {
      assert (indent + s)[1..] == indent[1..] + s;
      TrimIndented(indent[1..], s);
    }
  }

  /** Trimming takes away all white space on both ends and nothing else. */
  lemma {:induction false} TrimBoth(indent: string, s: string, trail: string)
    requires AllSpaces(indent) && AllSpaces(trail)
    requires s == "" || (!IsSpace(s[0]) && !IsSpace(s[|s| - 1]))
    ensures Trim(indent + s + trail) == s
    decreases |indent| + |trail|
  {
    var text := indent + s + trail;
    if indent != "" {
      assert text[1..] == indent[1..] + s + trail;
      TrimBoth(indent[1..], s, trail);
    } else if s == "" {
      assert text == trail;
      LTrimAll(trail);
    } else {
      assert text == s + trail;
      RTrimAll(s, trail);
    }
  }

  lemma {:induction false} LTrimAll(white: string)
    requires AllSpaces(white)
    ensures LTrim(white) == ""
  {
    if white != "" {
      LTrimAll(white[1..]);
    }
  }

  lemma {:induction false} RTrimAll(s: string, trail: string)
    requires s != "" && !IsSpace(s[|s| - 1]) && AllSpaces(trail)
    ensures RTrim(s + trail) == s
  {
    var text := s + trail;
    if trail == "" {
      assert text == s;
    } else {
      assert text[..|text| - 1] == s + trail[..|trail| - 1];
      RTrimAll(s, trail[..|trail| - 1]);
    }
  }

  /** White space is what the C locale says. */
  lemma WhiteSpace(c: char)
    ensures IsSpace(c) <==> c in {' ', '\t', '\n', '\r', 11 as char, 12 as char}
  {
  }

  // ---------------------------------------------------------------- decimal numbers

  function Digit(d: nat): char
    requires d < 10
  {
    ('0' as int + d) as char
  }

  predicate IsDigit(c: char) {
    '0' <= c <= '9'
  }

  predicate AllDigits(s: string) {
    forall i :: 0 <= i < |s| ==> IsDigit(s[i])
  }

  /** `std::to_string` of a non-negative number. */
  function Decimal(n: nat): (s: string)
    ensures s != [] && AllDigits(s)
    ensures n > 0 ==> s[0] != '0'
  {
    if n < 10 then [Digit(n)] else Decimal(n / 10) + [Digit(n % 10)]
  }

  /** The value of a digit string. */
  function Value(s: string): nat
    requires AllDigits(s)
  {
    if s == [] then 0
    else 10 * Value(s[..|s| - 1]) + (s[|s| - 1] as int - '0' as int)
  }

  lemma {:induction false} ValueOfDecimal(n: nat)
    ensures Value(Decimal(n)) == n
  {
    if n >= 10 {
      ValueOfDecimal(n / 10);
      var s := Decimal(n);
      assert s[..|s| - 1] == Decimal(n / 10);
    } else {
      assert Decimal(n)[..0] == [];
    }
  }

  lemma DecimalInjective(m: nat, n: nat)
    requires Decimal(m) == Decimal(n)
    ensures m == n
  {
    ValueOfDecimal(m);
    ValueOfDecimal(n);
  }
}
