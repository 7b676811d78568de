/** A1 references such as `$AA$3`: reading them, and writing them back. */
module CellRefs {
  import opened Options
  import opened Division
  import opened Strings

  datatype CellRef = CellRef(row: nat, column: nat)

  datatype Match = Match(letters: string, digits: string)

  predicate IsUpper(c: char) {
    'A' <= c <= 'Z'
  }

  predicate AllUpper(s: string) {
    forall i | 0 <= i < |s| :: IsUpper(s[i])
  }

  predicate AllDigits(s: string) {
    forall i | 0 <= i < |s| :: IsDigit(s[i])
  }

  // ---- The pattern ----

  function Dollar(there: bool): string {
    if there then "$" else ""
  }

  /** What the two groups of the pattern may hold. */
  predicate IsMatch(m: Match) {
    1 <= |m.letters| <= 3 && AllUpper(m.letters) && m.digits != "" && AllDigits(m.digits) && m.digits[0] != '0'
  }

  function Written(m: Match, d1: bool, d2: bool): string {
    Dollar(d1) + m.letters + Dollar(d2) + m.digits
  }

  /** How many capital letters s begins with. */
  function Letters(s: string): (n: nat)
    ensures n <= |s| && AllUpper(s[..n]) && (n < |s| ==> !IsUpper(s[n]))
  {
    if s != "" && IsUpper(s[0]) then
      var n := 1 + Letters(s[1..]);
      assert forall i | 0 < i < n :: s[i] == s[1..][..n - 1][i - 1];
      n
    else 0
  }

  function AfterDollar(s: string): string {
    if s != "" && s[0] == '$' then s[1..] else s
  }

  /** The pattern's groups, when it matches. */
  function MatchA1(s: string): (m: Option<Match>)
    ensures m.Some? ==> IsMatch(m.value)
  {
    var t := AfterDollar(s);
    var n := Letters(t);
    var digits := AfterDollar(t[n..]);
    if 1 <= n <= 3 && digits != "" && AllDigits(digits) && digits[0] != '0' then Some(Match(t[..n], digits)) else None
  }

  /** The scan finds a match exactly when there is one, and there is only one. */
  lemma MatchedExactly(s: string, m: Match)
    ensures MatchA1(s) == Some(m) <==> IsMatch(m) && exists d1, d2 :: s == Written(m, d1, d2)
  {
    if MatchA1(s) == Some(m) {
      ScanIsWritten(s);
    }
    if IsMatch(m) {
      forall d1, d2 | s == Written(m, d1, d2)
        ensures MatchA1(s) == Some(m)
      {
        WrittenIsScanned(m, d1, d2);
      }
    }
  }

  lemma AfterDollarIs(s: string)
    ensures s == Dollar(s != "" && s[0] == '$') + AfterDollar(s)
  {
  }

  lemma AfterDollarOf(d: bool, s: string)
    requires s != "" && s[0] != '$'
    ensures AfterDollar(Dollar(d) + s) == s
  {
    assert d ==> (Dollar(d) + s)[1..] == s;
    assert !d ==> Dollar(d) + s == s;
  }

  lemma FourParts(a: string, b: string, c: string, d: string)
    ensures a + b + c + d == a + (b + (c + d))
  {
  }

  lemma ScanIsWritten(s: string)
    requires MatchA1(s).Some?
    ensures exists d1, d2 :: s == Written(MatchA1(s).value, d1, d2)
  {
    hide Letters, AfterDollar, Dollar, IsMatch;
    var m := MatchA1(s).value;
    var t := AfterDollar(s);
    var rest := t[Letters(t)..];
    AfterDollarIs(s);
    AfterDollarIs(rest);
    var d1, d2 := s != "" && s[0] == '$', rest != "" && rest[0] == '$';
    assert t == m.letters + rest;
    FourParts(Dollar(d1), m.letters, Dollar(d2), m.digits);
    assert s == Written(m, d1, d2);
  }

  lemma {:induction false} LettersOf(letters: string, rest: string)
    requires AllUpper(letters) && (rest == "" || !IsUpper(rest[0]))
    ensures Letters(letters + rest) == |letters|
  {
    if letters == "" {
      assert letters + rest == rest;
    } else {
      LettersOf(letters[1..], rest);
      assert (letters + rest)[1..] == letters[1..] + rest;
    }
  }

  lemma WrittenIsScanned(m: Match, d1: bool, d2: bool)
    requires IsMatch(m)
    ensures MatchA1(Written(m, d1, d2)) == Some(m)
  {
    hide Letters, AfterDollar;
    var rest := Dollar(d2) + m.digits;
    var t := m.letters + rest;
    FourParts(Dollar(d1), m.letters, Dollar(d2), m.digits);
    assert IsDigit(m.digits[0]) && IsUpper(m.letters[0]) && t[0] == m.letters[0];
    AfterDollarOf(d1, t);
    AfterDollarOf(d2, m.digits);
    assert !IsUpper(rest[0]);
    LettersOf(m.letters, rest);
    assert t[..|m.letters|] == m.letters && t[|m.letters|..] == rest;
  }

  // ---- Columns: bijective base 26 ----

  function LetterValue(c: char): (v: nat)
    requires IsUpper(c)
    ensures 1 <= v <= 26
  {
    c as int - 64
  }

  /** The number of a column name: A is 1, Z is 26, AA is 27. */
  function ColumnOf(letters: string): (n: nat)
    requires AllUpper(letters)
    ensures letters != "" ==> n >= 1
  {
    if letters == "" then 0
    else 26 * ColumnOf(letters[..|letters| - 1]) + LetterValue(letters[|letters| - 1])
  }

  function LastLetter(column: nat): (c: char)
    requires column >= 1
    ensures IsUpper(c)
  {
    'A' + ((column - 1) % 26) as char
  }

  function ColumnName(column: nat): (letters: string)
    ensures AllUpper(letters) && (column >= 1 ==> letters != "")
  {
    if column == 0 then "" else ColumnName((column - 1) / 26) + [LastLetter(column)]
  }

  lemma {:induction false} ColumnNameReads(column: nat)
    ensures ColumnOf(ColumnName(column)) == column
  {
    if column == 0 {
    } else {
      ColumnNameReads((column - 1) / 26);
      var s := ColumnName(column);
      assert s[..|s| - 1] == ColumnName((column - 1) / 26);
    }
  }

  lemma {:induction false} ColumnReadIsNamed(letters: string)
    requires AllUpper(letters)
    ensures ColumnName(ColumnOf(letters)) == letters
  {
    if letters == "" {
    } else {
      var front, last := letters[..|letters| - 1], letters[|letters| - 1];
      ColumnReadIsNamed(front);
      var n := ColumnOf(front);
      assert ColumnOf(letters) - 1 == 26 * n + (LetterValue(last) - 1);
      QuotientAndRemainder(26, n, LetterValue(last) - 1);
      assert letters == front + [last];
    }
  }

  /** Names of one to three letters are exactly the columns 1 to 18278. */
  lemma {:induction false} ColumnsOfThreeLetters(letters: string)
    requires AllUpper(letters)
    ensures 1 <= |letters| <= 3 <==> 1 <= ColumnOf(letters) <= 18278
  {
    ColumnBounds(letters);
  }

  /** The lowest and the highest number of a name of n letters: A...A and Z...Z. */
  function Lowest(n: nat): nat {
    if n == 0 then 0 else 26 * Lowest(n - 1) + 1
  }

  lemma {:induction false} ColumnBounds(letters: string)
    requires AllUpper(letters)
    ensures Lowest(|letters|) <= ColumnOf(letters) <= 26 * Lowest(|letters|)
    ensures |letters| > 3 ==> ColumnOf(letters) > 18278
    ensures |letters| <= 3 ==> ColumnOf(letters) <= 18278
  {
    if letters == "" {
    } else {
      ColumnBounds(letters[..|letters| - 1]);
    }
  }

  // ---- Reading and writing references ----

  function Digits(m: Match): nat
    requires IsMatch(m)
  {
    ReadDecimal(m.digits)
  }

  /** The cell a text refers to, by the pattern's groups. */
  function CellOf(m: Match): (c: CellRef)
    requires IsMatch(m)
  {
    CellRef(Digits(m), ColumnOf(m.letters))
  }

  /** `parseA1` */
  method ParseA1(ref: string) returns (r: Option<CellRef>)
    ensures r == Parsed(ref)
  {
    var m := MatchA1(Upper(Trim(ref)));
    if m == None {
      return None;
    }
    var letters := m.value.letters;
    var column := 0;
    for i := 0 to |letters|
      invariant column == ColumnOf(letters[..i])
    {
      assert letters[..i + 1][..i] == letters[..i];
      column := column * 26 + (letters[i] as int - 64);
    }
    assert letters[..|letters|] == letters;
    r := Some(CellRef(ReadDecimal(m.value.digits), column));
  }

  function Parsed(ref: string): Option<CellRef> {
    var m :- MatchA1(Upper(Trim(ref)));
    Some(CellOf(m))
  }

  /** A reference as a sheet shows it, with or without the signs that fix column and row. */
  function Print(c: CellRef, d1: bool, d2: bool): string {
    Written(Match(ColumnName(c.column), Decimal(c.row)), d1, d2)
  }

  lemma {:induction false} DecimalStarts(n: nat)
    requires n >= 1
    ensures Decimal(n)[0] != '0'
  {
    if n >= 10 {
      DecimalStarts(n / 10);
      assert Decimal(n)[0] == Decimal(n / 10)[0];
    }
  }

  /** Decimal digits without a leading zero are those of their number. */
  lemma {:induction false} DigitsAreDecimal(digits: string)
    requires digits != "" && AllDigits(digits) && digits[0] != '0'
    ensures ReadDecimal(digits) >= 1 && Decimal(ReadDecimal(digits)) == digits
  {
    var front, last := digits[..|digits| - 1], digits[|digits| - 1];
    assert IsDigit(last) && digits == front + [last];
    if front != "" {
      DigitsAreDecimal(front);
    }
    var n, d: nat := ReadDecimal(front), last as int - '0' as int;
    QuotientAndRemainder(10, n, d);
  }

  predicate InSheet(c: CellRef) {
    c.row >= 1 && 1 <= c.column <= 18278
  }

  lemma PrintedMatches(c: CellRef)
    requires InSheet(c)
    ensures IsMatch(Match(ColumnName(c.column), Decimal(c.row)))
    ensures CellOf(Match(ColumnName(c.column), Decimal(c.row))) == c
  {
    ColumnNameReads(c.column);
    ColumnsOfThreeLetters(ColumnName(c.column));
    DecimalStarts(c.row);
    DecimalReads(c.row);
  }

  /** Every cell's reference is read back, with or without `$`, spaces around it, in either case. */
  lemma ParsePrint(c: CellRef, d1: bool, d2: bool, ref: string)
    requires InSheet(c) && Upper(Trim(ref)) == Print(c, d1, d2)
    ensures Parsed(ref) == Some(c)
  {
    PrintedMatches(c);
    WrittenIsScanned(Match(ColumnName(c.column), Decimal(c.row)), d1, d2);
  }

  predicate IsPlain(s: string) {
    forall i | 0 <= i < |s| :: IsUpper(s[i]) || IsDigit(s[i]) || s[i] == '$'
  }

  lemma PlainSurvives(s: string)
    requires IsPlain(s)
    ensures Upper(Trim(s)) == s && Upper(Trim(Lower(s))) == s
    ensures Tight(s) && Tight(Lower(s))
  {
    assert forall i | 0 <= i < |s| :: UpperChar(LowerChar(s[i])) == s[i] && UpperChar(s[i]) == s[i];
    assert forall i | 0 <= i < |s| :: !IsSpace(s[i]) && !IsSpace(LowerChar(s[i]));
    TightTrimsToItself(s);
    TightTrimsToItself(Lower(s));
  }

  /** A printed reference is read back in capitals and in small letters. */
  lemma PrintedIsRead(c: CellRef, d1: bool, d2: bool)
    requires InSheet(c)
    ensures Parsed(Print(c, d1, d2)) == Some(c) && Parsed(Lower(Print(c, d1, d2))) == Some(c)
  {
    var s := Print(c, d1, d2);
    assert IsPlain(s);
    PlainSurvives(s);
    ParsePrint(c, d1, d2, s);
    ParsePrint(c, d1, d2, Lower(s));
  }

  lemma PrintIsPlain(c: CellRef, d1: bool, d2: bool)
    ensures IsPlain(Print(c, d1, d2))
  {
  }

  /** As it is with any white space around it. */
  lemma PrintedIsReadAnywhere(c: CellRef, d1: bool, d2: bool, a: string, b: string)
    requires InSheet(c) && AllSpace(a) && AllSpace(b)
    ensures Parsed(a + Print(c, d1, d2) + b) == Some(c)
    ensures Parsed(a + Lower(Print(c, d1, d2)) + b) == Some(c)
  {
    hide Trim, MatchA1, Upper, Lower, Print, IsPlain, Tight, AllSpace;
    var s := Print(c, d1, d2);
    PrintedIsRead(c, d1, d2);
    PrintIsPlain(c, d1, d2);
    PlainSurvives(s);
    TrimDrops(a, s, b);
    TrimDrops(a, Lower(s), b);
    TightTrimsToItself(s);
    TightTrimsToItself(Lower(s));
  }

  lemma PrintedText(row: nat, column: nat, digits: string, letters: string)
    requires digits != "" && AllDigits(digits) && digits[0] != '0' && ReadDecimal(digits) == row
    requires AllUpper(letters) && ColumnOf(letters) == column
    ensures Print(CellRef(row, column), false, false) == letters + digits
  {
    hide Decimal, ReadDecimal, ColumnName, ColumnOf, AllDigits, AllUpper;
    DigitsAreDecimal(digits);
    ColumnReadIsNamed(letters);
    assert "" + letters + "" + digits == letters + digits;
  }

  /** `B12` is row 12 of the second column, and `aa1` row 1 of the 27th. */
  lemma KnownReferences()
    ensures Parsed("B12") == Some(CellRef(12, 2)) && Parsed("aa1") == Some(CellRef(1, 27))
  {
    hide Print, MatchA1, Upper, Trim;
    assert "12"[..1] == "1" && "1"[..0] == "" && "B"[..0] == "" && "AA"[..1] == "A" && "A"[..0] == "";
    PrintedText(12, 2, "12", "B");
    PrintedText(1, 27, "1", "AA");
    PrintedIsRead(CellRef(12, 2), false, false);
    PrintedIsRead(CellRef(1, 27), false, false);
    assert "B" + "12" == "B12" && "AA" + "1" == "AA1" && Lower("AA1") == "aa1";
  }

  /** And what is read is always a cell of the sheet, whose reference is the text, trimmed and in capitals. */
  lemma PrintParse(ref: string)
    requires Parsed(ref).Some?
    ensures InSheet(Parsed(ref).value) && exists d1, d2 :: Upper(Trim(ref)) == Print(Parsed(ref).value, d1, d2)
  {
    var s := Upper(Trim(ref));
    var m := MatchA1(s).value;
    ScanIsWritten(s);
    var d1, d2 :| s == Written(m, d1, d2);
    ColumnReadIsNamed(m.letters);
    ColumnsOfThreeLetters(m.letters);
    DigitsAreDecimal(m.digits);
    assert Print(Parsed(ref).value, d1, d2) == Written(m, d1, d2);
  }
}
