/**
 * The zones of the two sizes of identity card and of a passport, as ICAO Doc 9303 parts 4 to 6 lay them out field
 * after field; and that they are read back.
 */
module MrzLayouts {
  import opened Errors
  import opened Mrz
  import opened MrzNames
  import opened MrzZone

  /** What is printed on a data page; names and the optional fields as they stand in the zone. */
  datatype Page = Page(
    kind: string,
    issuer: string,
    number: string,
    birth: string,
    sex: char,
    expiry: string,
    nationality: string,
    names: string,
    optional: string,
    more: string
  )

  // ---- The document number -----------------------------------------------------------------

  /** What stands for its check digit: a filler when the number goes on elsewhere. */
  function Mark(number: string): char {
    if |number| <= 9 then DigitOf(NumberField(number)) else '<'
  }

  /** What is printed behind it: the rest of a long number and its check digit, or else what is wanted there. */
  function Rest(number: string, optional: string): (f: string)
    requires |number| <= |optional| + 8
    ensures |f| == |optional|
  {
    if |number| <= 9 then optional else number[9..] + [DigitOf(number)] + Fill(|optional| + 8 - |number|)
  }

  predicate CardNumber(number: string, room: nat) {
    1 <= |number| <= DOC_NUMBER_MAX && |number| <= room + 8 && Printable(number) && '<' !in number
  }

  lemma {:induction false} RunOf(s: string, n: nat)
    requires '<' !in s
    ensures RunLength(s + Fill(n)) == |s|
    decreases |s|
  {
    if s == [] {
      assert s + Fill(n) == Fill(n);
    } else {
      assert (s + Fill(n))[0] == s[0] && (s + Fill(n))[1..] == s[1..] + Fill(n);
      RunOf(s[1..], n);
    }
  }

  /** The number is read back from its field, and from the optional data behind it when it is long. */
  lemma NumberRead(number: string, optional: string)
    requires CardNumber(number, |optional|) && Printable(optional)
    ensures
      var n := DocumentNumber(NumberField(number), Mark(number), Rest(number, optional));
      && n.text == number && n.extended == (|number| > 9) && NumberOk(NumberField(number), n)
    ensures Printable(NumberField(number) + [Mark(number)] + Rest(number, optional))
  {
    hide Sum, NonFiller;
    FillerHasValue();
    if |number| <= 9 {
      FieldIsNumber(number);
      DigitIsPrintable(NumberField(number));
    } else {
      NonFillerKeeps(number[..9]);
      DigitIsPrintable(number);
      RunOf(number[9..] + [DigitOf(number)], |optional| + 8 - |number|);
      assert number[..9] + number[9..] == number;
      assert Rest(number, optional)[..|number| - 9] == number[9..];
    }
  }

  // ---- The lines ---------------------------------------------------------------------------

  predicate Fits(c: Page, room: nat, names: nat, more: nat) {
    && |c.kind| == 2 && |c.issuer| == |c.nationality| == 3 && |c.birth| == |c.expiry| == DATE_LEN
    && |c.names| == names && |c.optional| == room && |c.more| == more && CardNumber(c.number, room)
    && Printable(c.kind) && Printable(c.issuer) && Printable(c.nationality) && Printable(c.birth) && Printable(c.expiry)
    && Printable(c.names) && Printable(c.optional) && Printable(c.more) && Printable([c.sex])
  }

  /** A date with its check digit. */
  function Dated(date: string): (f: string)
    ensures |f| == |date| + 1
  {
    date + [DigitOf(date)]
  }

  /** The document number, its mark, and the optional data behind it. */
  function Numbered(number: string, optional: string): (f: string)
    requires |number| <= |optional| + 8
    ensures |f| == 10 + |optional|
  {
    NumberField(number) + [Mark(number)] + Rest(number, optional)
  }

  lemma DatedPrintable(date: string)
    requires Printable(date)
    ensures Printable(Dated(date)) && CheckDigitOk(date, DigitOf(date))
  {
    hide CheckDigit, DigitOf;
    DigitIsPrintable(date);
  }

  /** What the composite digit of the smaller card is over. */
  function Td1Composite(c: Page): string
    requires Fits(c, 15, 30, 11)
  {
    Numbered(c.number, c.optional) + Dated(c.birth) + Dated(c.expiry) + c.more
  }

  /** Three lines of thirty: the number on the first, the dates on the second, the names on the third. */
  function Td1Zone(c: Page): (zone: string)
    requires Fits(c, 15, 30, 11)
    ensures |zone| == 90
  {
    (c.kind + c.issuer + Numbered(c.number, c.optional))
    + (Dated(c.birth) + [c.sex] + Dated(c.expiry) + c.nationality + c.more + [DigitOf(Td1Composite(c))])
    + c.names
  }

  /** What the composite digit of the larger card is over. */
  function Td2Composite(c: Page): string
    requires Fits(c, 7, 31, 0)
  {
    NumberField(c.number) + [Mark(c.number)] + Dated(c.birth) + Dated(c.expiry) + Rest(c.number, c.optional)
  }

  /** Two lines of thirty-six: the names on the first, all else on the second. */
  function Td2Zone(c: Page): (zone: string)
    requires Fits(c, 7, 31, 0)
    ensures |zone| == 72
  {
    (c.kind + c.issuer + c.names)
    + (NumberField(c.number) + [Mark(c.number)] + c.nationality + Dated(c.birth) + [c.sex] + Dated(c.expiry)
       + Rest(c.number, c.optional) + [DigitOf(Td2Composite(c))])
  }

  lemma Td1Printable(c: Page)
    requires Fits(c, 15, 30, 11)
    ensures Printable(Td1Zone(c))
    ensures CheckDigit(Td1Composite(c)) == Some(DigitOf(Td1Composite(c)))
  {
    hide CharValue, CheckDigit, DigitOf, Dated, Mark, Rest, NumberField;
    NumberRead(c.number, c.optional);
    DatedPrintable(c.birth);
    DatedPrintable(c.expiry);
    DigitIsPrintable(Td1Composite(c));
  }

  /** Where the fields of the three lines lie. */
  lemma Td1Fields(c: Page)
    requires Fits(c, 15, 30, 11)
    ensures
      var zone := Td1Zone(c);
      var l1, l2 := zone[..30], zone[30..60];
      && l1[..2] == c.kind && l1[2..5] == c.issuer
      && l1[5..14] == NumberField(c.number) && l1[14] == Mark(c.number)
      && l1[15..30] == Rest(c.number, c.optional) && l1[5..30] == Numbered(c.number, c.optional) && zone[60..90] == c.names
      && l2[..6] == c.birth && l2[6] == DigitOf(c.birth) && l2[..7] == Dated(c.birth) && l2[7..8] == [c.sex]
      && l2[8..14] == c.expiry && l2[14] == DigitOf(c.expiry) && l2[8..15] == Dated(c.expiry)
      && l2[15..18] == c.nationality && l2[18..29] == c.more
      && l2[29] == DigitOf(Td1Composite(c))
  {
    hide CharValue, CheckDigit, DigitOf, Mark, Rest, NumberField, Printable, Td1Composite;
    var zone := Td1Zone(c);
    var l1, l2 := zone[..30], zone[30..60];
    assert l1 == c.kind + c.issuer + Numbered(c.number, c.optional);
    assert l1[5..30] == Numbered(c.number, c.optional);
    assert l2 == Dated(c.birth) + [c.sex] + Dated(c.expiry) + c.nationality + c.more + [DigitOf(Td1Composite(c))];
    assert l2[..7] == Dated(c.birth) && l2[7..8] == [c.sex] && l2[8..15] == Dated(c.expiry);
    assert l2[15..18] == c.nationality && l2[18..29] == c.more;
  }

  /**
   * The zone of a card is read back, every check digit valid: number, dates, sex, states, names and
   * optional data, for every number of up to twenty characters, those that go on in the optional data included.
   */
  lemma Td1Parses(c: Page)
    requires Fits(c, 15, 30, 11)
    ensures MrzZone.Parse(Td1Zone(c))
            == Ok(Parsed(Td1, Compact(c.kind, 2), Compact(c.issuer, 3), Names(c.names), c.number, c.birth, c.expiry,
                         Compact([c.sex], 1), Compact(c.nationality, 3), Compact(c.more, 15), true))
  {
    hide CharValue, CheckDigit, DigitOf, Mark, Rest, NumberField, Printable, Compact, Names, Td1Zone;
    hide Stripped, Dated, Numbered, DocumentNumber, NumberOk, CheckDigitOk;
    Td1Printable(c);
    Td1Fields(c);
    StrippedKeeps(Td1Zone(c));
    NumberRead(c.number, c.optional);
    DatedPrintable(c.birth);
    DatedPrintable(c.expiry);
  }

  lemma Td2Printable(c: Page)
    requires Fits(c, 7, 31, 0)
    ensures Printable(Td2Zone(c))
    ensures CheckDigit(Td2Composite(c)) == Some(DigitOf(Td2Composite(c)))
  {
    hide CharValue, CheckDigit, DigitOf, Dated, Mark, Rest, NumberField;
    NumberRead(c.number, c.optional);
    DatedPrintable(c.birth);
    DatedPrintable(c.expiry);
    DigitIsPrintable(Td2Composite(c));
  }

  /** Where the fields of the two lines lie. */
  lemma Td2Fields(c: Page)
    requires Fits(c, 7, 31, 0)
    ensures
      var zone := Td2Zone(c);
      var l1, l2 := zone[..36], zone[36..];
      && l1[..2] == c.kind && l1[2..5] == c.issuer && l1[5..36] == c.names
      && l2[..9] == NumberField(c.number) && l2[9] == Mark(c.number) && l2[10..13] == c.nationality
      && l2[13..19] == c.birth && l2[19] == DigitOf(c.birth) && l2[20..21] == [c.sex]
      && l2[21..27] == c.expiry && l2[27] == DigitOf(c.expiry) && l2[28..35] == Rest(c.number, c.optional)
      && l2[35] == DigitOf(Td2Composite(c))
  {
    hide CharValue, CheckDigit, DigitOf, Mark, Rest, NumberField, Printable, Td2Composite;
    var zone := Td2Zone(c);
    assert zone[..36] == c.kind + c.issuer + c.names;
    assert zone[36..] == NumberField(c.number) + [Mark(c.number)] + c.nationality + Dated(c.birth) + [c.sex]
                         + Dated(c.expiry) + Rest(c.number, c.optional) + [DigitOf(Td2Composite(c))];
  }

  /** What a parser weighs is what was weighed. */
  lemma Td2CompositeRead(c: Page)
    requires Fits(c, 7, 31, 0)
    ensures
      var l2 := Td2Zone(c)[36..];
      l2[..10] + l2[13..20] + l2[21..35] == Td2Composite(c)
  {
    hide CharValue, CheckDigit, DigitOf, Mark, Rest, NumberField, Printable, Td2Zone, Dated;
    Td2Fields(c);
    var l2 := Td2Zone(c)[36..];
    assert l2[..10] == NumberField(c.number) + [Mark(c.number)];
    assert l2[13..20] == Dated(c.birth) by { SplitLast(l2, 13, 20, c.birth); }
    assert l2[21..28] == Dated(c.expiry) by { SplitLast(l2, 21, 28, c.expiry); }
    assert l2[21..35] == l2[21..28] + l2[28..35];
  }

  lemma SplitLast(l: string, i: nat, j: nat, date: string)
    requires i < j <= |l| && l[i..j - 1] == date && l[j - 1] == DigitOf(date)
    ensures l[i..j] == Dated(date)
  {
    hide DigitOf;
    assert l[i..j] == l[i..j - 1] + [l[j - 1]];
  }

  /** So is that of the larger card, whose optional data are its own when the number does not need them. */
  lemma Td2Parses(c: Page)
    requires Fits(c, 7, 31, 0)
    ensures MrzZone.Parse(Td2Zone(c))
            == Ok(Parsed(Td2, Compact(c.kind, 2), Compact(c.issuer, 3), Names(c.names), c.number, c.birth, c.expiry,
                         Compact([c.sex], 1), Compact(c.nationality, 3),
                         if |c.number| <= 9 then Compact(c.optional, 15) else "", true))
  {
    hide CharValue, CheckDigit, DigitOf, Mark, Rest, NumberField, Printable, Compact, Names, Td2Zone;
    hide Td2Composite, Stripped, Dated, DocumentNumber, NumberOk, CheckDigitOk;
    Td2Printable(c);
    Td2Fields(c);
    Td2CompositeRead(c);
    StrippedKeeps(Td2Zone(c));
    NumberRead(c.number, c.optional);
    DatedPrintable(c.birth);
    DatedPrintable(c.expiry);
    ShortRest(c.number, c.optional);
  }

  lemma ShortRest(number: string, optional: string)
    requires |number| <= |optional| + 8
    ensures |number| <= 9 ==> Rest(number, optional) == optional
  {
  }

  // ---- The passport ------------------------------------------------------------------------

  /** A passport's number is never continued. */
  predicate IsPassport(c: Page) {
    Fits(c, 14, 39, 0) && |c.number| <= 9
  }

  /** What the composite digit of a passport is over. */
  function Td3Composite(c: Page): string
    requires IsPassport(c)
  {
    NumberField(c.number) + [Mark(c.number)] + Dated(c.birth) + Dated(c.expiry) + Dated(c.optional)
  }

  /** Two lines of forty-four: the names on the first, and a digit of its own for the optional data on the second. */
  function Td3Zone(c: Page): (zone: string)
    requires IsPassport(c)
    ensures |zone| == 88
  {
    (c.kind + c.issuer + c.names)
    + (NumberField(c.number) + [Mark(c.number)] + c.nationality + Dated(c.birth) + [c.sex] + Dated(c.expiry)
       + Dated(c.optional) + [DigitOf(Td3Composite(c))])
  }

  lemma Td3Printable(c: Page)
    requires IsPassport(c)
    ensures Printable(Td3Zone(c))
    ensures CheckDigit(Td3Composite(c)) == Some(DigitOf(Td3Composite(c)))
  {
    hide CharValue, CheckDigit, DigitOf, Dated, Mark, Rest, NumberField;
    NumberRead(c.number, c.optional);
    DatedPrintable(c.birth);
    DatedPrintable(c.expiry);
    DatedPrintable(c.optional);
    DigitIsPrintable(Td3Composite(c));
  }

  /** Where the fields of the two lines lie. */
  lemma Td3Fields(c: Page)
    requires IsPassport(c)
    ensures
      var zone := Td3Zone(c);
      var l1, l2 := zone[..44], zone[44..];
      && l1[..2] == c.kind && l1[2..5] == c.issuer && l1[5..44] == c.names
      && l2[..9] == NumberField(c.number) && l2[9] == Mark(c.number) && l2[10..13] == c.nationality
      && l2[13..19] == c.birth && l2[19] == DigitOf(c.birth) && l2[20..21] == [c.sex]
      && l2[21..27] == c.expiry && l2[27] == DigitOf(c.expiry)
      && l2[28..42] == c.optional && l2[42] == DigitOf(c.optional) && l2[43] == DigitOf(Td3Composite(c))
  {
    hide CharValue, CheckDigit, DigitOf, Mark, NumberField, Printable, Td3Composite;
    var zone := Td3Zone(c);
    assert zone[..44] == c.kind + c.issuer + c.names;
    assert zone[44..] == NumberField(c.number) + [Mark(c.number)] + c.nationality + Dated(c.birth) + [c.sex]
                         + Dated(c.expiry) + Dated(c.optional) + [DigitOf(Td3Composite(c))];
  }

  lemma Td3CompositeRead(c: Page)
    requires IsPassport(c)
    ensures
      var l2 := Td3Zone(c)[44..];
      l2[..10] + l2[13..20] + l2[21..43] == Td3Composite(c)
  {
    hide CharValue, CheckDigit, DigitOf, Mark, NumberField, Printable, Td3Zone, Dated;
    Td3Fields(c);
    var l2 := Td3Zone(c)[44..];
    assert l2[..10] == NumberField(c.number) + [Mark(c.number)];
    assert l2[13..20] == Dated(c.birth) by { SplitLast(l2, 13, 20, c.birth); }
    assert l2[21..28] == Dated(c.expiry) by { SplitLast(l2, 21, 28, c.expiry); }
    assert l2[28..43] == Dated(c.optional) by { SplitLast(l2, 28, 43, c.optional); }
    assert l2[21..43] == l2[21..28] + l2[28..43];
  }

  /** And so is a passport's, whatever its issuer and its holder's nationality. */
  lemma Td3Parses(c: Page)
    requires IsPassport(c)
    ensures MrzZone.Parse(Td3Zone(c))
            == Ok(Parsed(Td3, Compact(c.kind, 2), Compact(c.issuer, 3), Names(c.names), c.number, c.birth, c.expiry,
                         Compact([c.sex], 1), Compact(c.nationality, 3), Compact(c.optional, 15), true))
  {
    hide CharValue, CheckDigit, DigitOf, Mark, NumberField, Printable, Compact, Names, Td3Zone;
    hide Td3Composite, Stripped, Dated, DocumentNumber, NumberOk, CheckDigitOk;
    Td3Printable(c);
    Td3Fields(c);
    Td3CompositeRead(c);
    StrippedKeeps(Td3Zone(c));
    ShortNumberRead(c.number);
    DatedPrintable(c.birth);
    DatedPrintable(c.expiry);
    DatedPrintable(c.optional);
  }

  lemma ShortNumberRead(number: string)
    requires PassportNumber(number)
    ensures
      var n := DocumentNumber(NumberField(number), Mark(number), "");
      n.text == number && NumberOk(NumberField(number), n)
  {
    hide Sum, NonFiller;
    FieldIsNumber(number);
    DigitIsPrintable(NumberField(number));
  }

  // ---- When a zone is in order -------------------------------------------------------------

  /** A check digit is the last decimal digit of 7 A + 3 B + C over its characters. */
  predicate Weighed(field: string, printed: char) {
    && Printable(field) && '0' <= printed <= '9'
    && printed as int - '0' as int == (7 * PlainSum(field, 0) + 3 * PlainSum(field, 1) + PlainSum(field, 2)) % 10
  }

  /** A field of fillers may have a filler for its digit. */
  predicate Agrees(field: string, printed: char) {
    Weighed(field, printed) || (printed == '<' && forall i :: 0 <= i < |field| ==> field[i] == '<')
  }

  lemma WeighedIs(field: string, printed: char)
    ensures CheckDigit(field) == Some(printed) <==> Weighed(field, printed)
  {
    hide CharValue, PlainSum, CheckDigit, Printable;
    CheckDigitInNumbers(field);
  }

  lemma AgreesIs(field: string, printed: char)
    ensures CheckDigitOk(field, printed) <==> Agrees(field, printed)
  {
    hide Weighed, CheckDigit;
    WeighedIs(field, printed);
    if printed == '<' {
      NoFillerDigit(field);
      if AllFiller(field) {
        assert forall i | 0 <= i < |field| :: field[i] in field;
      } else {
        var c :| c in field && c != '<';
        var i :| 0 <= i < |field| && field[i] == c;
      }
    }
  }

  lemma NoFillerDigit(field: string)
    ensures !Weighed(field, '<')
  {
    hide CharValue, PlainSum, Printable;
  }

  /** The number's own digit, for a number that goes on `optional` places from the beginning of the zone. */
  predicate NumberAgrees(raw: string, at: nat, optional: nat, end: nat)
    requires at + 10 <= optional <= end <= |raw|
  {
    var run := RunLength(raw[optional..end]);
    if raw[at + 9] == '<' && run >= 2 then
      Agrees(Take(NonFiller(raw[at..at + 9]) + raw[optional..optional + run - 1], 20), raw[optional + run - 1])
    else Agrees(raw[at..at + 9], raw[at + 9])
  }

  lemma NumberInOrder(raw: string, at: nat, optional: nat, end: nat)
    requires at + 10 <= optional <= end <= |raw|
    ensures NumberAgrees(raw, at, optional, end)
            <==> NumberOk(raw[at..at + 9], DocumentNumber(raw[at..at + 9], raw[at + 9], raw[optional..end]))
  {
    hide Agrees, CheckDigitOk, RunLength, NonFiller;
    var field, tail := raw[at..at + 9], raw[optional..end];
    var run, n := RunLength(tail), DocumentNumber(field, raw[at + 9], tail);
    AgreesIs(n.text, n.digit);
    AgreesIs(field, raw[at + 9]);
    if raw[at + 9] == '<' && run >= 2 {
      assert tail[..run - 1] == raw[optional..optional + run - 1];
      NonFillerShrinks(field);
    }
  }

  lemma {:induction false} NonFillerShrinks(s: string)
    ensures |NonFiller(s)| <= |s|
    decreases |s|
  {
    if s != [] {
      NonFillerShrinks(s[1..]);
    }
  }

  lemma Within(raw: string, a: nat, b: nat, i: nat, j: nat)
    requires a <= b <= |raw| && i <= j <= b - a
    ensures raw[a..b][i..j] == raw[a + i..a + j]
  {
    assert forall k | 0 <= k < j - i :: raw[a..b][i..j][k] == raw[a + i..a + j][k];
  }

  /**
   * A passport's zone is in order exactly when the digits at places 54, 64, 72, 87 and 88 agree: with the
   * number, the two dates, the optional data, and all of those with their digits.
   */
  lemma Td3InOrder(raw: string)
    requires |raw| == 88
    ensures ParseTd3(raw).valid
            <==> NumberAgrees(raw, 44, 54, 54) && Agrees(raw[57..63], raw[63]) && Agrees(raw[65..71], raw[71])
                 && Agrees(raw[72..86], raw[86]) && Weighed(raw[44..54] + raw[57..64] + raw[65..87], raw[87])
  {
    hide Agrees, CheckDigitOk, CheckDigit, Weighed, NumberAgrees, NumberOk, DocumentNumber, Compact, Names;
    NumberInOrder(raw, 44, 54, 54);
    AgreesIs(raw[57..63], raw[63]);
    AgreesIs(raw[65..71], raw[71]);
    AgreesIs(raw[72..86], raw[86]);
    WeighedIs(raw[44..54] + raw[57..64] + raw[65..87], raw[87]);
    var l2 := raw[44..];
    assert l2 == raw[44..88] && raw[54..54] == "" && l2[..9] == raw[44..53] && l2[..10] == raw[44..54];
    Within(raw, 44, 88, 13, 19);
    Within(raw, 44, 88, 21, 27);
    Within(raw, 44, 88, 28, 42);
    Within(raw, 44, 88, 13, 20);
    Within(raw, 44, 88, 21, 43);
  }

  /** The zone of the larger card: digits at places 46, 56 and 64 and, over all but the names, at place 72. */
  lemma Td2InOrder(raw: string)
    requires |raw| == 72
    ensures ParseTd2(raw).valid
            <==> NumberAgrees(raw, 36, 64, 71) && Agrees(raw[49..55], raw[55]) && Agrees(raw[57..63], raw[63])
                 && Weighed(raw[36..46] + raw[49..56] + raw[57..71], raw[71])
  {
    hide Agrees, CheckDigitOk, CheckDigit, Weighed, NumberAgrees, NumberOk, DocumentNumber, Compact, Names;
    NumberInOrder(raw, 36, 64, 71);
    AgreesIs(raw[49..55], raw[55]);
    AgreesIs(raw[57..63], raw[63]);
    WeighedIs(raw[36..46] + raw[49..56] + raw[57..71], raw[71]);
    var l2 := raw[36..];
    assert l2 == raw[36..72] && l2[..9] == raw[36..45] && l2[..10] == raw[36..46];
    Within(raw, 36, 72, 13, 19);
    Within(raw, 36, 72, 21, 27);
    Within(raw, 36, 72, 28, 35);
    Within(raw, 36, 72, 13, 20);
    Within(raw, 36, 72, 21, 35);
  }

  /** The zone of the smaller card: digits at places 15, 37 and 45 and, over both lines, at place 60. */
  lemma Td1InOrder(raw: string)
    requires |raw| == 90
    ensures ParseTd1(raw).valid
            <==> NumberAgrees(raw, 5, 15, 30) && Agrees(raw[30..36], raw[36]) && Agrees(raw[38..44], raw[44])
                 && Weighed(raw[5..30] + raw[30..37] + raw[38..45] + raw[48..59], raw[59])
  {
    hide Agrees, CheckDigitOk, CheckDigit, Weighed, NumberAgrees, NumberOk, DocumentNumber, Compact, Names;
    NumberInOrder(raw, 5, 15, 30);
    AgreesIs(raw[30..36], raw[36]);
    AgreesIs(raw[38..44], raw[44]);
    WeighedIs(raw[5..30] + raw[30..37] + raw[38..45] + raw[48..59], raw[59]);
    var l1, l2 := raw[..30], raw[30..60];
    assert l1 == raw[0..30] && l2[..6] == raw[30..36] && l2[..7] == raw[30..37];
    Within(raw, 0, 30, 5, 14);
    Within(raw, 0, 30, 15, 30);
    Within(raw, 0, 30, 5, 30);
    Within(raw, 30, 60, 8, 14);
    Within(raw, 30, 60, 8, 15);
    Within(raw, 30, 60, 18, 29);
  }

  /** The parser of a zone without separators. */
  function ParseBare(raw: string): Parsed
    requires |raw| in {72, 88, 90}
  {
    if |raw| == 90 then ParseTd1(raw) else if |raw| == 72 then ParseTd2(raw) else ParseTd3(raw)
  }

  lemma AlteredField(field: string, printed: char, k: nat, c: char)
    requires Agrees(field, printed) && k < |field|
    requires CharValue(c) < 0 || CharValue(c) % 10 != CharValue(field[k]) % 10
    ensures !Agrees(field[k := c], printed)
  {
    hide CharValue, PlainSum, Weighed, CheckDigit, Printable;
    AgreesIs(field, printed);
    AgreesIs(field[k := c], printed);
    WeighedIs(field, printed);
    WeighedIs(field[k := c], printed);
    FillerValue();
    assert field[k := c][k] == c;
    if Weighed(field, printed) {
      NotFiller(field, printed);
      CheckDigitInNumbers(field);
      CheckDigitInNumbers(field[k := c]);
      if CharValue(c) >= 0 {
        ReplacementDetected(field, k, c);
      } else {
        NotPrintable(field[k := c], k);
      }
    } else {
      NoFillerDigit(field[k := c]);
    }
  }

  lemma NotFiller(field: string, printed: char)
    requires Weighed(field, printed)
    ensures printed != '<'
  {
    NoFillerDigit(field);
  }

  lemma FillerValue()
    ensures CharValue('<') == 0
  {
  }

  lemma NotPrintable(s: string, k: nat)
    requires k < |s| && CharValue(s[k]) < 0
    ensures !Printable(s)
  {
    assert s[k] in s;
  }

  /** Where the dates stand in a zone of this length. */
  function DatePlaces(length: nat): set<nat> {
    if length == 90 then {30, 38} else if length == 72 then {49, 57} else {57, 65}
  }

  /**
   * A date with one character that stands for another value, before the same digit: whatever else differs
   * between two zones of the same layout, at most one of them is in order.
   */
  lemma AlteredDate(raw: string, other: string, at: nat, k: nat, c: char)
    requires |raw| == |other| && |raw| in {72, 88, 90} && at in DatePlaces(|raw|) && k < 6
    requires CharValue(c) < 0 || CharValue(c) % 10 != CharValue(raw[at + k]) % 10
    requires other[at..at + 6] == raw[at..at + 6][k := c] && other[at + 6] == raw[at + 6]
    ensures !(ParseBare(raw).valid && ParseBare(other).valid)
  {
    hide CharValue, Agrees, Weighed, NumberAgrees, ParseTd1, ParseTd2, ParseTd3;
    if |raw| == 90 {
      Td1InOrder(raw);
      Td1InOrder(other);
    } else if |raw| == 72 {
      Td2InOrder(raw);
      Td2InOrder(other);
    } else {
      Td3InOrder(raw);
      Td3InOrder(other);
    }
    var field := raw[at..at + 6];
    assert field[k] == raw[at + k];
    if Agrees(field, raw[at + 6]) {
      AlteredField(field, raw[at + 6], k, c);
    }
  }
}
