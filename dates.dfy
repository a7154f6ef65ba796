/** Date repair for the DateCreated column (logic.py:20-45, used at logic.py:139-151 and by
    mappings.py:27-48): two known-bad shapes of a dateIssued string are rewritten, every
    other string is kept. The month names are the English abbreviations of the C locale;
    datetime.strptime's parsing is modelled for the two-digit shapes the gates admit. */
module Dates {
  import opened Wrappers
  import opened PyStr
  import opened Soup

  /** The value DateCreated takes when a record has no dateIssued element. */
  const NoDate: string := "n.d."

  const MonthAbbrevs: seq<string> :=
    ["Jan", "Feb", "Mar", "Apr", "May", "Jun", "Jul", "Aug", "Sep", "Oct", "Nov", "Dec"]

  function LowerAscii(c: char): char
  {
    if 'A' <= c <= 'Z' then (c as int + 32) as char else c
  }

  /** a == b up to ASCII case, as %b compares month names. */
  predicate SameIgnoringCase(a: string, b: string)
  {
    |a| == |b| && forall k | 0 <= k < |a| :: LowerAscii(a[k]) == LowerAscii(b[k])
  }

  function MonthFrom(s: string, k: nat): (m: nat)
    requires k <= 12
    ensures m == 0 || k < m <= 12
    decreases 12 - k
  {
    if k == 12 then 0
    else if SameIgnoringCase(MonthAbbrevs[k], s) then k + 1
    else MonthFrom(s, k + 1)
  }

  /** strptime's %b: the month 1..12 whose abbreviation equals s up to ASCII case, or 0. */
  function MonthNumber(s: string): (m: nat)
    ensures m <= 12
  {
    MonthFrom(s, 0)
  }

  lemma {:induction false} MonthFromMeaning(s: string, k: nat)
    requires k <= 12
    ensures var m := MonthFrom(s, k);
            && (m > 0 ==> SameIgnoringCase(MonthAbbrevs[m - 1], s))
            && (m == 0 <==> forall j | k <= j < 12 :: !SameIgnoringCase(MonthAbbrevs[j], s))
    decreases 12 - k
  {
    if k < 12 && !SameIgnoringCase(MonthAbbrevs[k], s) {
      MonthFromMeaning(s, k + 1);
    }
  }

  /** %b reads the month whose abbreviation s spells, in any case, and no other; 0 means
      s spells none of them. */
  lemma MonthNumberMeaning(s: string)
    ensures var m := MonthNumber(s);
            && (m > 0 ==> SameIgnoringCase(MonthAbbrevs[m - 1], s))
            && (m == 0 <==> forall j | 0 <= j < 12 :: !SameIgnoringCase(MonthAbbrevs[j], s))
  {
    MonthFromMeaning(s, 0);
  }

  predicate IsLeapYear(y: int)
  {
    y % 4 == 0 && (y % 100 != 0 || y % 400 == 0)
  }

  function DaysInMonth(y: int, m: int): nat
    requires 1 <= m <= 12
  {
    if m == 2 then (if IsLeapYear(y) then 29 else 28)
    else if m == 4 || m == 6 || m == 9 || m == 11 then 30
    else 31
  }

  /** What datetime accepts as a calendar date. */
  predicate ValidDate(d: int, m: int, y: int)
  {
    1 <= y <= 9999 && 1 <= m <= 12 && 1 <= d <= DaysInMonth(y, m)
  }

  /** strptime(s, '%b-%y'): year and month; %y reads 69..99 as 19YY and 00..68 as 20YY. */
  function ParseLetterDate(s: string): (r: Result<(nat, nat)>)
    ensures r.Ok? ==> 1900 <= r.value.0 <= 2068 && 1 <= r.value.1 <= 12
  {
    if |s| == 6 && s[3] == '-' && IsDigit(s[4]) && IsDigit(s[5]) && MonthNumber(s[..3]) > 0 then
      var yy := DecimalValue(s[4..]);
      Pad2OfDigits(s[4..]);
      Ok((if yy <= 68 then 2000 + yy else 1900 + yy, MonthNumber(s[..3])))
    else Err(ValueError)
  }

  /** strptime(s, '%d-%m-%Y'): day, month and year, for a valid calendar date. */
  function ParseNumericDate(s: string): (r: Result<(nat, nat, nat)>)
    ensures r.Ok? ==> ValidDate(r.value.0, r.value.1, r.value.2)
  {
    if |s| == 10 && s[2] == '-' && s[5] == '-' && AllDigits(s[..2]) && AllDigits(s[3..5]) && AllDigits(s[6..]) then
      var d, m, y := DecimalValue(s[..2]), DecimalValue(s[3..5]), DecimalValue(s[6..]);
      if ValidDate(d, m, y) then Ok((d, m, y)) else Err(ValueError)
    else Err(ValueError)
  }

  /** convert_date(dt_str, letter_date): a letter date goes through strftime('%Y-%m'), is
      split on '-', and its year loses 100 when above 1999; any other date is reordered
      by strftime('%Y-%m-%d'). A string strptime refuses raises ValueError. */
  function ConvertDate(s: string, letterDate: bool): Result<string>
  {
    if letterDate then
      var ym :- ParseLetterDate(s);
      var revDate := Pad4(ym.0) + "-" + Pad2(ym.1);
      assert revDate == Join([Pad4(ym.0), Pad2(ym.1)], '-');
      SplitJoin([Pad4(ym.0), Pad2(ym.1)], '-');
      var pts := Split(revDate, '-');
      var yearNum := DecimalValue(pts[0]);
      var year := if yearNum > 1999 then yearNum - 100 else yearNum;
      Ok(Join(pts[0 := NatToStr(year)], '-'))
    else
      var dmy :- ParseNumericDate(s);
      Ok(Pad4(dmy.2) + "-" + Pad2(dmy.1) + "-" + Pad2(dmy.0))
  }

  // ---------------------------------------------------------------- the gates

  /** ^[A-Z][a-z]{2}-\d{2}$ without the anchors: the letter shape, e.g. Jun-17,
      with \d read as an ASCII digit. */
  predicate LetterShape(s: string)
  {
    && |s| == 6
    && 'A' <= s[0] <= 'Z' && 'a' <= s[1] <= 'z' && 'a' <= s[2] <= 'z'
    && s[3] == '-' && IsDigit(s[4]) && IsDigit(s[5])
  }

  /** ^\d{2}-\d{2}-[1-2]\d{3}$ without the anchors: the numeric shape, e.g.
      21-01-1917, with \d read as an ASCII digit. */
  predicate NumericShape(s: string)
  {
    && |s| == 10
    && IsDigit(s[0]) && IsDigit(s[1]) && s[2] == '-'
    && IsDigit(s[3]) && IsDigit(s[4]) && s[5] == '-'
    && '1' <= s[6] <= '2' && IsDigit(s[7]) && IsDigit(s[8]) && IsDigit(s[9])
  }

  /** re.match(pattern1, s): `$` also matches just before a final newline. */
  predicate MatchesPattern1(s: string)
  {
    LetterShape(s) || (|s| > 0 && s[|s| - 1] == '\n' && LetterShape(s[..|s| - 1]))
  }

  /** re.match(pattern2, s) */
  predicate MatchesPattern2(s: string)
  {
    NumericShape(s) || (|s| > 0 && s[|s| - 1] == '\n' && NumericShape(s[..|s| - 1]))
  }

  /** The gate and the repair of a dateIssued value (logic.py:145-148, mappings.py:43-46). */
  function RepairDate(d: string): Result<string>
  {
    if MatchesPattern1(d) then ConvertDate(d, true)
    else if MatchesPattern2(d) then ConvertDate(d, false)
    else Ok(d)
  }

  /** The stripped text of the first dateIssued, or "n.d." when there is none. */
  function DateIssued(soup: Element): string
  {
    match FindText(soup, Tag("dateIssued"))
    case Some(t) => t
    case None => NoDate
  }

  // ---------------------------------------------------------------- properties

  /** str() of a year 1900..1999 is "19" followed by its last two digits, zero-padded. */
  lemma NatToStrNineteen(yy: nat)
    requires yy < 100
    ensures NatToStr(1900 + yy) == "19" + Pad2(yy)
  {
    var t, u := yy / 10, yy % 10;
    assert 1900 + yy == 10 * (190 + t) + u;
    assert 190 + t == 10 * 19 + t;
    assert NatToStr(19) == "19";
    NatToStrAppendDigit(19, t);
    NatToStrAppendDigit(190 + t, u);
    assert "19" + [DigitChar(t)] + [DigitChar(u)] == "19" + Pad2(yy);
  }

  /** The letter branch of convert_date, once strptime has read the year and month. */
  lemma ConvertLetterDate(s: string, year: nat, m: nat)
    requires ParseLetterDate(s) == Ok((year, m))
    ensures ConvertDate(s, true) == Ok(NatToStr(if year > 1999 then year - 100 else year) + "-" + Pad2(m))
  {
    var pts := [Pad4(year), Pad2(m)];
    SplitJoin(pts, '-');
    assert Join(pts, '-') == Pad4(year) + "-" + Pad2(m);
    Pad4Value(year);
    var y := if year > 1999 then year - 100 else year;
    assert Join(pts[0 := NatToStr(y)], '-') == NatToStr(y) + "-" + Pad2(m);
  }

  /** The abbreviation of a letter-shaped date is one of the twelve English ones exactly. */
  lemma CapitalisedMonth(s: string, m: nat)
    requires |s| == 3 && 'A' <= s[0] <= 'Z' && 'a' <= s[1] <= 'z' && 'a' <= s[2] <= 'z'
    requires 1 <= m <= 12 && SameIgnoringCase(MonthAbbrevs[m - 1], s)
    ensures s == MonthAbbrevs[m - 1]
  {
    var a := MonthAbbrevs[m - 1];
    assert |a| == 3 && 'A' <= a[0] <= 'Z' && 'a' <= a[1] <= 'z' && 'a' <= a[2] <= 'z';
    assert LowerAscii(a[0]) == LowerAscii(s[0]) && LowerAscii(a[1]) == LowerAscii(s[1]) && LowerAscii(a[2]) == LowerAscii(s[2]);
  }

  /** The two year digits of a letter-shaped date read back as they were written. */
  lemma LetterYearDigits(s: string)
    requires LetterShape(s)
    ensures AllDigits(s[4..]) && DecimalValue(s[4..]) < 100 && Pad2(DecimalValue(s[4..])) == s[4..]
  {
    var ys := s[4..];
    assert |ys| == 2 && ys[0] == s[4] && ys[1] == s[5];
    Pad2OfDigits(ys);
  }

  /** Mon-YY becomes 19YY-MM when Mon is an English month abbreviation, and fails with
      ValueError otherwise. */
  lemma LetterDateRepair(s: string)
    requires LetterShape(s)
    ensures MonthNumber(s[..3]) == 0 ==> RepairDate(s) == Err(ValueError)
    ensures MonthNumber(s[..3]) > 0 ==>
      && s[..3] == MonthAbbrevs[MonthNumber(s[..3]) - 1]
      && RepairDate(s) == Ok("19" + s[4..] + "-" + Pad2(MonthNumber(s[..3])))
  {
    assert MatchesPattern1(s);
    if MonthNumber(s[..3]) > 0 {
      LetterDateKnownMonth(s, MonthNumber(s[..3]));
      assert RepairDate(s) == ConvertDate(s, true);
    }
  }

  lemma LetterDateKnownMonth(s: string, m: nat)
    requires LetterShape(s) && 0 < m == MonthNumber(s[..3])
    ensures s[..3] == MonthAbbrevs[m - 1]
    ensures ConvertDate(s, true) == Ok("19" + s[4..] + "-" + Pad2(m))
  {
    MonthNumberMeaning(s[..3]);
    CapitalisedMonth(s[..3], m);
    var year := LetterYear(s, m);
    LetterYearDigits(s);
    LetterYearPrinted(DecimalValue(s[4..]), year);
    ConvertLetterDate(s, year, m);
  }

  /** strptime reads a letter-shaped date with a known month, with %y's century rule. */
  lemma LetterYear(s: string, m: nat) returns (year: nat)
    requires LetterShape(s) && 0 < m == MonthNumber(s[..3])
    ensures ParseLetterDate(s) == Ok((year, m))
    ensures year == if DecimalValue(s[4..]) <= 68 then 2000 + DecimalValue(s[4..]) else 1900 + DecimalValue(s[4..])
  {
    var yy := DecimalValue(s[4..]);
    year := if yy <= 68 then 2000 + yy else 1900 + yy;
  }

  /** The year convert_date prints back after its correction is 19 and the two digits. */
  lemma LetterYearPrinted(yy: nat, year: nat)
    requires yy < 100 && year == if yy <= 68 then 2000 + yy else 1900 + yy
    ensures NatToStr(if year > 1999 then year - 100 else year) == "19" + Pad2(yy)
  {
    NatToStrNineteen(yy);
  }

  /** DD-MM-YYYY becomes YYYY-MM-DD with the same digits when it is a real calendar date,
      and fails with ValueError otherwise (month 13, day 31 of a 30-day month, 29 February
      of a common year). */
  lemma NumericDateRepair(s: string)
    requires NumericShape(s)
    ensures var d, m, y := DecimalValue(s[..2]), DecimalValue(s[3..5]), DecimalValue(s[6..]);
            && (ValidDate(d, m, y) ==> RepairDate(s) == Ok(s[6..] + "-" + s[3..5] + "-" + s[..2]))
            && (!ValidDate(d, m, y) ==> RepairDate(s) == Err(ValueError))
  {
    assert !MatchesPattern1(s);
    assert MatchesPattern2(s);
    assert AllDigits(s[..2]) && AllDigits(s[3..5]) && AllDigits(s[6..]);
    Pad2OfDigits(s[..2]);
    Pad2OfDigits(s[3..5]);
    Pad4OfDigits(s[6..]);
  }

  /** Strings of neither shape are kept, already-repaired ones in particular. */
  lemma IsoDatesKept(s: string)
    requires (|s| == 10 && s[4] == '-' && s[7] == '-' && AllDigits(s[..4])) || (|s| == 7 && s[4] == '-' && AllDigits(s[..4]))
    ensures RepairDate(s) == Ok(s)
  {
    assert IsDigit(s[..4][2]);
    assert !MatchesPattern1(s) && !MatchesPattern2(s);
  }

  lemma LetterRepairIdempotent(s: string)
    requires LetterShape(s) && RepairDate(s).Ok?
    ensures RepairDate(RepairDate(s).value) == RepairDate(s)
  {
    LetterDateRepair(s);
    var t := RepairDate(s).value;
    assert t == "19" + s[4..] + "-" + Pad2(MonthNumber(s[..3]));
    assert |t| == 7 && t[4] == '-' && t[..4] == "19" + s[4..];
    assert AllDigits(t[..4]) by {
      assert t[..4][0] == '1' && t[..4][1] == '9' && t[..4][2] == s[4] && t[..4][3] == s[5];
    }
    IsoDatesKept(t);
  }

  lemma NumericRepairIdempotent(s: string)
    requires NumericShape(s) && RepairDate(s).Ok?
    ensures RepairDate(RepairDate(s).value) == RepairDate(s)
  {
    NumericDateRepair(s);
    var t := RepairDate(s).value;
    assert t == s[6..] + "-" + s[3..5] + "-" + s[..2];
    assert |t| == 10 && t[4] == '-' && t[7] == '-' && t[..4] == s[6..];
    assert AllDigits(t[..4]) by {
      assert forall k | 0 <= k < 4 :: t[..4][k] == s[6 + k];
    }
    IsoDatesKept(t);
  }

  /** Repairing a repaired date changes nothing. */
  lemma RepairIdempotent(s: string)
    ensures RepairDate(s).Ok? ==> RepairDate(RepairDate(s).value) == RepairDate(s)
  {
    if RepairDate(s).Ok? {
      // A gate passed with a trailing newline leaves strptime a string it refuses.
      if MatchesPattern1(s) && LetterShape(s) {
        LetterRepairIdempotent(s);
      } else if !MatchesPattern1(s) && MatchesPattern2(s) && NumericShape(s) {
        NumericRepairIdempotent(s);
      }
    }
  }

  /** The cases the date test of the repository checks: Jan-20, Jan-62, Jan-00, Dec-01
      and 30-01-1989. */
  lemma RepositoryCaseJan20()
    ensures RepairDate("Jan-20") == Ok("1920-01")
  {
    JanuaryCase("Jan-20", "1920-01");
  }

  lemma RepositoryCaseJan62()
    ensures RepairDate("Jan-62") == Ok("1962-01")
  {
    JanuaryCase("Jan-62", "1962-01");
  }

  lemma RepositoryCaseJan00()
    ensures RepairDate("Jan-00") == Ok("1900-01")
  {
    JanuaryCase("Jan-00", "1900-01");
  }

  lemma RepositoryCaseDec01()
    ensures RepairDate("Dec-01") == Ok("1901-12")
  {
    assert LetterShape("Dec-01") && "Dec-01"[..3] == "Dec" && "Dec-01"[4..] == "01";
    DecemberCase("Dec-01", "1901-12");
  }

  lemma CaseDigits()
    ensures DecimalValue("30") == 30 && DecimalValue("01") == 1 && DecimalValue("1989") == 1989
  {
    assert "30"[..1] == "3" && "01"[..1] == "0" && "1989"[..3] == "198" && "198"[..2] == "19" && "19"[..1] == "1";
    assert DecimalValue("3") == 3 && DecimalValue("0") == 0 && DecimalValue("1") == 1;
    assert DecimalValue("19") == 19;
    assert DecimalValue("198") == 198;
  }

  lemma DecemberCase(s: string, out: string)
    requires LetterShape(s) && s[..3] == "Dec" && out == "19" + s[4..] + "-12"
    ensures RepairDate(s) == Ok(out)
  {
    assert Pad2(12) == "12";
    assert MonthNumber(s[..3]) == 12 by {
      JanDec();
    }
    LetterDateCase(s, 12, out);
  }

  lemma JanuaryCase(s: string, out: string)
    requires LetterShape(s) && s[..3] == "Jan" && out == "19" + s[4..] + "-01"
    ensures RepairDate(s) == Ok(out)
  {
    assert Pad2(1) == "01";
    assert MonthNumber(s[..3]) == 1 by {
      JanDec();
    }
    LetterDateCase(s, 1, out);
  }

  lemma JanDec()
    ensures MonthNumber("Jan") == 1 && MonthNumber("Dec") == 12
  {
    assert SameIgnoringCase(MonthAbbrevs[0], "Jan");
    assert MonthFrom("Dec", 11) == 12 by {
      assert SameIgnoringCase(MonthAbbrevs[11], "Dec");
    }
    var k := 11;
    while k > 0
      invariant 0 <= k <= 11 && MonthFrom("Dec", k) == 12
    {
      k := k - 1;
      assert MonthAbbrevs[k][0] != 'D' && MonthAbbrevs[k][0] != 'd';
    }
  }

  lemma LetterDateCase(s: string, m: nat, out: string)
    requires LetterShape(s) && 1 <= m <= 12 && MonthNumber(s[..3]) == m
    requires out == "19" + s[4..] + "-" + Pad2(m)
    ensures RepairDate(s) == Ok(out)
  {
    LetterDateRepair(s);
  }

  lemma RepositoryCase30011989()
    ensures RepairDate("30-01-1989") == Ok("1989-01-30")
  {
    var s := "30-01-1989";
    assert s[..2] == "30" && s[3..5] == "01" && s[6..] == "1989";
    CaseDigits();
    assert ValidDate(30, 1, 1989);
    NumericDateRepair(s);
    assert s[6..] + "-" + s[3..5] + "-" + s[..2] == "1989-01-30";
  }
}
