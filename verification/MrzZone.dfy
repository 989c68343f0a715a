/** What is read from a machine readable zone, and the zone of a passport built from its three fields. */
module MrzZone {
  import opened Bytes
  import opened Errors
  import opened Mrz
  import opened MrzNames

  datatype Format = Td1 | Td2 | Td3

  datatype Parsed = Parsed(
    format: Format,
    documentType: string,
    issuer: string,
    names: (string, string),
    number: string,
    birth: string,
    expiry: string,
    sex: string,
    nationality: string,
    optional: string,
    valid: bool
  )

  // ---- Fields ------------------------------------------------------------------------------

  function NonFiller(s: string): string {
    if s == [] then []
    else if s[0] == '<' then NonFiller(s[1..])
    else [s[0]] + NonFiller(s[1..])
  }

  function Take(s: string, n: nat): string {
    if |s| <= n then s else s[..n]
  }

  /** A fixed width field without its fillers, as much of it as there is room for. */
  function Compact(field: string, room: nat): string {
    Take(NonFiller(field), room)
  }

  method CopyCompact(field: string, room: nat) returns (s: string)
    ensures s == Compact(field, room)
  {
    s := "";
    var i := 0;
    assert NonFiller(field[..0]) == [];
    while i < |field| && |s| < room
      invariant 0 <= i <= |field| && |s| <= room && s == NonFiller(field[..i])
    {
      NonFillerAppend(field[..i], field[i..i + 1]);
      assert field[..i + 1] == field[..i] + field[i..i + 1];
      if field[i] != '<' {
        s := s + [field[i]];
      }
      i := i + 1;
    }
    NonFillerAppend(field[..i], field[i..]);
    assert field == field[..i] + field[i..];
  }

  lemma {:induction false} NonFillerAppend(a: string, b: string)
    ensures NonFiller(a + b) == NonFiller(a) + NonFiller(b)
    decreases |a|
  {
    if a == [] {
      assert a + b == b;
    } else {
      assert (a + b)[1..] == a[1..] + b;
      NonFillerAppend(a[1..], b);
    }
  }

  lemma {:induction false} NonFillerKeeps(s: string)
    requires '<' !in s
    ensures NonFiller(s) == s
    decreases |s|
  {
    if s != [] {
      NonFillerKeeps(s[1..]);
    }
  }

  lemma {:induction false} NonFillerDrops(n: nat)
    ensures NonFiller(Fill(n)) == []
    decreases n
  {
    if n > 0 {
      assert Fill(n)[1..] == Fill(n - 1);
      NonFillerDrops(n - 1);
    }
  }

  predicate AllFiller(s: string) {
    forall c :: c in s ==> c == '<'
  }

  /** A printed digit agrees with its field; a filler for a digit only with a field of fillers. */
  predicate CheckDigitOk(field: string, printed: char) {
    if printed == '<' then AllFiller(field) else CheckDigit(field) == Some(printed)
  }

  /** How far the continuation of a long number runs. */
  function RunLength(s: string): (n: nat)
    ensures n <= |s|
  {
    if s == [] || s[0] == '<' then 0 else 1 + RunLength(s[1..])
  }

  datatype Number = Number(text: string, digit: char, extended: bool)

  /** The document number, continued in the optional data when a filler stands for its digit. */
  function DocumentNumber(field: string, printed: char, optional: string): Number {
    var short := Compact(field, DOC_NUMBER_MAX);
    var run := RunLength(optional);
    if printed != '<' || run < 2 then Number(short, printed, false)
    else Number(Take(short + optional[..run - 1], DOC_NUMBER_MAX), optional[run - 1], true)
  }

  predicate NumberOk(field: string, n: Number) {
    if n.extended then CheckDigitOk(n.text, n.digit) else CheckDigitOk(field, n.digit)
  }

  // ---- The three layouts -------------------------------------------------------------------

  function ParseTd3(raw: string): Parsed
    requires |raw| == 88
  {
    var l1, l2 := raw[..44], raw[44..];
    var n := DocumentNumber(l2[..9], l2[9], "");
    var composite := CheckDigit(l2[..10] + l2[13..20] + l2[21..43]);
    Parsed(Td3, Compact(l1[..2], 2), Compact(l1[2..5], 3), Names(l1[5..44]),
           n.text, l2[13..19], l2[21..27], Compact(l2[20..21], 1), Compact(l2[10..13], 3), Compact(l2[28..42], 15),
           NumberOk(l2[..9], n) && CheckDigitOk(l2[13..19], l2[19]) && CheckDigitOk(l2[21..27], l2[27])
           && CheckDigitOk(l2[28..42], l2[42]) && composite == Some(l2[43]))
  }

  function ParseTd2(raw: string): Parsed
    requires |raw| == 72
  {
    var l1, l2 := raw[..36], raw[36..];
    var n := DocumentNumber(l2[..9], l2[9], l2[28..35]);
    var composite := CheckDigit(l2[..10] + l2[13..20] + l2[21..35]);
    Parsed(Td2, Compact(l1[..2], 2), Compact(l1[2..5], 3), Names(l1[5..36]),
           n.text, l2[13..19], l2[21..27], Compact(l2[20..21], 1), Compact(l2[10..13], 3),
           if n.extended then "" else Compact(l2[28..35], 15),
           NumberOk(l2[..9], n) && CheckDigitOk(l2[13..19], l2[19]) && CheckDigitOk(l2[21..27], l2[27])
           && composite == Some(l2[35]))
  }

  function ParseTd1(raw: string): Parsed
    requires |raw| == 90
  {
    var l1, l2 := raw[..30], raw[30..60];
    var n := DocumentNumber(l1[5..14], l1[14], l1[15..30]);
    var composite := CheckDigit(l1[5..30] + l2[..7] + l2[8..15] + l2[18..29]);
    Parsed(Td1, Compact(l1[..2], 2), Compact(l1[2..5], 3), Names(raw[60..90]),
           n.text, l2[..6], l2[8..14], Compact(l2[7..8], 1), Compact(l2[15..18], 3), Compact(l2[18..29], 15),
           NumberOk(l1[5..14], n) && CheckDigitOk(l2[..6], l2[6]) && CheckDigitOk(l2[8..14], l2[14])
           && composite == Some(l2[29]))
  }

  predicate IsSpace(c: char) {
    c == ' ' || c == '\r' || c == '\n' || c == '\t'
  }

  function Stripped(s: string): string {
    if s == [] then []
    else Stripped(s[..|s| - 1]) + if IsSpace(s[|s| - 1]) then [] else [s[|s| - 1]]
  }

  /** The length, once separators are dropped, decides the layout. */
  function Parse(raw: string): Result<Parsed> {
    var zone := Stripped(raw);
    if |zone| == 90 then Ok(ParseTd1(zone))
    else if |zone| == 72 then Ok(ParseTd2(zone))
    else if |zone| == 88 then Ok(ParseTd3(zone))
    else Err(Error.Parse)
  }

  method ParseZone(raw: string) returns (r: Result<Parsed>)
    ensures r == Parse(raw)
  {
    hide ParseTd1, ParseTd2, ParseTd3;
    var buffer := new char[90];
    var n, i := 0, 0;
    assert raw[..0] == [];
    while i < |raw|
      invariant 0 <= i <= |raw| && 0 <= n <= 90
      invariant buffer[..n] == Stripped(raw[..i])
    {
      assert raw[..i + 1][..i] == raw[..i];
      if !IsSpace(raw[i]) {
        if n >= 90 {
          StrippedGrows(raw, i + 1);
          return Err(Error.Parse);
        }
        buffer[n] := raw[i];
        n := n + 1;
      }
      i := i + 1;
    }
    assert raw[..i] == raw;
    if n == 90 {
      return Ok(ParseTd1(buffer[..n]));
    } else if n == 72 {
      return Ok(ParseTd2(buffer[..n]));
    } else if n == 88 {
      return Ok(ParseTd3(buffer[..n]));
    }
    return Err(Error.Parse);
  }

  lemma {:induction false} StrippedGrows(s: string, k: nat)
    requires k <= |s|
    ensures |Stripped(s[..k])| <= |Stripped(s)|
    decreases |s|
  {
    if k < |s| {
      var t := s[..|s| - 1];
      assert t[..k] == s[..k];
      StrippedGrows(t, k);
    } else {
      assert s[..k] == s;
    }
  }

  lemma {:induction false} StrippedKeeps(s: string)
    requires Printable(s)
    ensures Stripped(s) == s
    decreases |s|
  {
    if s != [] {
      StrippedKeeps(s[..|s| - 1]);
      assert s[|s| - 1] in s;
    }
  }

  // ---- A passport's zone -------------------------------------------------------------------

  const LINE_ONE := "P<UTOERIKSSON<<ANNA<MARIA"

  function DigitOf(field: string): char {
    if CheckDigit(field).Some? then CheckDigit(field).value else '\0'
  }

  /** The number padded to the width of its field. */
  function NumberField(number: string): (f: string)
    ensures |f| == 9
  {
    if |number| >= 9 then number[..9] else number + Fill(9 - |number|)
  }

  /** The second line up to its last character. */
  function LineTwo(number: string, birth: string, expiry: string): string {
    var f := NumberField(number);
    f + [DigitOf(f)] + "UTO" + birth + [DigitOf(birth)] + "F" + expiry + [DigitOf(expiry)] + Fill(15)
  }

  /** The zone of the passport that holds these three fields. */
  function BuildZone(number: string, birth: string, expiry: string): (zone: string)
    requires |birth| == |expiry| == DATE_LEN
    ensures |zone| == 88
  {
    var l2 := LineTwo(number, birth, expiry);
    LINE_ONE + Fill(44 - |LINE_ONE|) + l2 + [DigitOf(l2[..10] + l2[13..20] + l2[21..28] + l2[28..43])]
  }

  /** A document number a passport can carry: one to nine characters, none of them a filler. */
  predicate PassportNumber(number: string) {
    1 <= |number| <= 9 && Printable(number) && '<' !in number
  }

  lemma FieldIsNumber(number: string)
    requires PassportNumber(number)
    ensures Printable(NumberField(number)) && Compact(NumberField(number), DOC_NUMBER_MAX) == number
  {
    hide CharValue;
    if |number| == 9 {
      assert NumberField(number) == number;
    } else {
      assert CharValue('<') >= 0 by { FillerHasValue(); }
      NonFillerAppend(number, Fill(9 - |number|));
      NonFillerDrops(9 - |number|);
    }
    NonFillerKeeps(number);
  }

  lemma FillerHasValue()
    ensures CharValue('<') == 0
  {
  }

  lemma DigitIsPrintable(field: string)
    requires Printable(field)
    ensures CheckDigit(field) == Some(DigitOf(field)) && DigitOf(field) != '<' && CharValue(DigitOf(field)) >= 0
  {
    hide Sum;
  }

  /** Where the fields of the second line lie. */
  lemma LineTwoFields(number: string, birth: string, expiry: string)
    requires |birth| == |expiry| == DATE_LEN
    ensures
      var f, l := NumberField(number), LineTwo(number, birth, expiry);
      && |l| == 43 && l[..9] == f && l[9] == DigitOf(f) && l[10..13] == "UTO"
      && l[13..19] == birth && l[19] == DigitOf(birth) && l[20] == 'F'
      && l[21..27] == expiry && l[27] == DigitOf(expiry) && l[28..43] == Fill(15)
  {
    hide DigitOf, NumberField, Fill;
  }

  lemma LineTwoPrintable(number: string, birth: string, expiry: string)
    requires PassportNumber(number) && |birth| == |expiry| == DATE_LEN && Printable(birth) && Printable(expiry)
    ensures Printable(LineTwo(number, birth, expiry))
  {
    FieldIsNumber(number);
    DigitIsPrintable(NumberField(number));
    DigitIsPrintable(birth);
    DigitIsPrintable(expiry);
    hide DigitOf, NumberField;
  }

  /** The composite field is printable, and weighs what both sides weigh. */
  lemma CompositeAgrees(l: string, last: char)
    requires |l| == 43 && Printable(l)
    ensures
      var composite := l[..10] + l[13..20] + l[21..28] + l[28..43];
      && Printable(composite)
      && (l + [last])[..10] + (l + [last])[13..20] + (l + [last])[21..43] == composite
  {
    hide CharValue;
    assert l[21..28] + l[28..43] == l[21..43];
    assert (l + [last])[..10] == l[..10] && (l + [last])[13..20] == l[13..20] && (l + [last])[21..43] == l[21..43];
    assert l[..10] + l[13..20] + l[21..28] + l[28..43] == l[..10] + l[13..20] + l[21..43];
  }

  /**
   * The zone built for a passport parses to the three fields it was built from, every check digit in it
   * valid: for every number of one to nine characters and every pair of dates.
   */
  lemma BuiltZoneParses(number: string, birth: string, expiry: string)
    requires PassportNumber(number) && |birth| == |expiry| == DATE_LEN && Printable(birth) && Printable(expiry)
    ensures Parse(BuildZone(number, birth, expiry))
            == Ok(Parsed(Td3, "P", "UTO", ("ERIKSSON", "ANNA MARIA"), number, birth, expiry, "F", "UTO", "", true))
  {
    hide CheckDigit, DigitOf, NumberField, Stripped, Printable, NonFiller, LineTwo, Names;
    var zone, l := BuildZone(number, birth, expiry), LineTwo(number, birth, expiry);
    LineTwoFields(number, birth, expiry);
    LineTwoPrintable(number, birth, expiry);
    var last := DigitOf(l[..10] + l[13..20] + l[21..28] + l[28..43]);
    CompositeAgrees(l, last);
    DigitIsPrintable(l[..10] + l[13..20] + l[21..28] + l[28..43]);
    ZonePrintable(l, last);
    StrippedKeeps(zone);
    var l2 := zone[44..];
    assert l2 == l + [last];
    SecondLineParses(l2, number, birth, expiry);
    assert zone[..44] == LINE_ONE + Fill(44 - |LINE_ONE|);
    FirstLineParses();
  }

  /** The first line names its holder. */
  lemma FirstLineParses()
    ensures
      var l1 := LINE_ONE + Fill(44 - |LINE_ONE|);
      Compact(l1[..2], 2) == "P" && Compact(l1[2..5], 3) == "UTO" && Names(l1[5..44]) == ("ERIKSSON", "ANNA MARIA")
  {
    hide Names, NonFiller, Fill, Printed;
    var surname, given := "ERIKSSON", "ANNA MARIA";
    var name := Printed(surname) + "<<" + Printed(given) + Fill(19);
    LineOneIs(surname, given);
    var l1 := "P<" + "UTO" + name;
    assert l1[..2] == "P<" && l1[2..5] == "UTO" && l1[5..44] == name;
    LettersStay();
    PrintedNamesRead(surname, given, 19);
  }

  lemma LineOneIs(surname: string, given: string)
    requires surname == "ERIKSSON" && given == "ANNA MARIA"
    ensures LINE_ONE + Fill(44 - |LINE_ONE|) == "P<" + "UTO" + (Printed(surname) + "<<" + Printed(given) + Fill(19))
  {
    assert Printed(surname) == "ERIKSSON" && Printed(given) == "ANNA<MARIA";
    assert LINE_ONE == "P<" + "UTO" + ("ERIKSSON" + "<<" + "ANNA<MARIA");
  }

  lemma LettersStay()
    ensures NonFiller("P<") == "P" && NonFiller("UTO") == "UTO"
  {
    NonFillerKeeps("UTO");
    assert "P<"[1..] == "<";
  }

  lemma ZonePrintable(l: string, last: char)
    requires Printable(l) && CharValue(last) >= 0
    ensures Printable(LINE_ONE + Fill(44 - |LINE_ONE|) + l + [last])
  {
  }

  /** A stretch of a line lies where it lay in the front part of it. */
  lemma FrontStretch(l2: string, l: string, i: nat, j: nat)
    requires |l| <= |l2| && l2[..|l|] == l && i <= j <= |l|
    ensures l2[i..j] == l[i..j]
  {
    SliceOfSlice(l2, 0, |l|, i, j);
    assert l2[0..|l|] == l;
  }

  /** The fields of a whole second line, where a parser takes them. */
  lemma SecondLineFields(l2: string, number: string, birth: string, expiry: string)
    requires |birth| == |expiry| == DATE_LEN
    requires |l2| == 44 && l2[..43] == LineTwo(number, birth, expiry)
    ensures
      var f := NumberField(number);
      && l2[..9] == f && l2[9] == DigitOf(f) && l2[10..13] == "UTO"
      && l2[13..19] == birth && l2[19] == DigitOf(birth) && l2[20..21] == "F"
      && l2[21..27] == expiry && l2[27] == DigitOf(expiry) && l2[28..42] == Fill(14) && l2[42] == '<'
  {
    hide CheckDigit, DigitOf, NumberField, LineTwo, Printable;
    var l := LineTwo(number, birth, expiry);
    LineTwoFields(number, birth, expiry);
    FrontStretch(l2, l, 0, 9);
    FrontStretch(l2, l, 10, 13);
    FrontStretch(l2, l, 13, 19);
    FrontStretch(l2, l, 20, 21);
    FrontStretch(l2, l, 21, 27);
    FrontStretch(l2, l, 28, 42);
    FillerTail(l);
    assert l2[9] == l[9] && l2[19] == l[19] && l2[27] == l[27] && l2[42] == l[42];
    assert l[20..21] == [l[20]];
  }

  lemma FillerTail(l: string)
    requires |l| == 43 && l[28..43] == Fill(15)
    ensures l[28..42] == Fill(14) && l[42] == '<'
  {
    assert l[28..43][14] == l[42];
    forall i | 0 <= i < 14 ensures l[28..42][i] == Fill(14)[i] {
      assert l[28..42][i] == l[28..43][i];
    }
  }

  lemma SecondLineParses(l2: string, number: string, birth: string, expiry: string)
    requires PassportNumber(number) && |birth| == |expiry| == DATE_LEN && Printable(birth) && Printable(expiry)
    requires |l2| == 44 && l2[..43] == LineTwo(number, birth, expiry)
    requires CheckDigit(l2[..10] + l2[13..20] + l2[21..43]) == Some(l2[43])
    ensures
      var n := DocumentNumber(l2[..9], l2[9], "");
      && n.text == number && l2[13..19] == birth && l2[21..27] == expiry
      && Compact(l2[20..21], 1) == "F" && Compact(l2[10..13], 3) == "UTO" && Compact(l2[28..42], 15) == ""
      && NumberOk(l2[..9], n) && CheckDigitOk(l2[13..19], l2[19]) && CheckDigitOk(l2[21..27], l2[27])
      && CheckDigitOk(l2[28..42], l2[42])
  {
    hide CheckDigit, DigitOf, NumberField, LineTwo, Printable, NonFiller;
    SecondLineFields(l2, number, birth, expiry);
    FieldIsNumber(number);
    DigitIsPrintable(NumberField(number));
    DigitIsPrintable(birth);
    DigitIsPrintable(expiry);
    NonFillerDrops(14);
    NonFillerKeeps("UTO");
    NonFillerKeeps("F");
  }

  // ---- The password ------------------------------------------------------------------------

  function Upper(s: string): (u: string)
    ensures |u| == |s|
  {
    seq(|s|, i requires 0 <= i < |s| => if 'a' <= s[i] <= 'z' then s[i] - 'a' + 'A' else s[i])
  }

  const SMALL := "abcdefghijklmnopqrstuvwxyz"
  const CAPITALS := "ABCDEFGHIJKLMNOPQRSTUVWXYZ"

  lemma SmallAre(c: char)
    ensures 'a' <= c <= 'z' ==> c in SMALL
  {
    if 'a' <= c <= 'z' {
      assert SMALL[c as int - 'a' as int] == c;
    }
  }

  lemma CapitalOf(k: nat)
    requires k < 26
    ensures 'a' <= SMALL[k] <= 'z' && SMALL[k] - 'a' + 'A' == CAPITALS[k]
  {
  }

  /** A small letter becomes its capital; whatever is not one stays as it is. */
  lemma CapitalsInLetters(s: string, i: nat, k: nat)
    requires i < |s|
    ensures k < 26 && s[i] == SMALL[k] ==> Upper(s)[i] == CAPITALS[k]
    ensures s[i] !in SMALL ==> Upper(s)[i] == s[i]
  {
    SmallAre(s[i]);
    if k < 26 {
      CapitalOf(k);
    }
  }

  predicate AllDigits(s: string) {
    forall c :: c in s ==> '0' <= c <= '9'
  }

  /** The string the access keys are derived from: three fields as printed, each with its digit. */
  function Information(number: string, birth: string, expiry: string, room: nat): Result<string> {
    if number == "" || |number| > DOC_NUMBER_MAX || |birth| != DATE_LEN || |expiry| != DATE_LEN then Err(InvalidInput)
    else if !AllDigits(birth) || !AllDigits(expiry) || !Printable(Upper(number)) then Err(InvalidInput)
    else
      var doc := Upper(number);
      var field := if |doc| < 9 then doc + Fill(9 - |doc|) else doc;
      if |field| + 1 + 2 * (DATE_LEN + 1) + 1 > room then Err(BufferTooSmall)
      else Ok(field + [DigitOf(field)] + birth + [DigitOf(birth)] + expiry + [DigitOf(expiry)])
  }

  /** Fields that cannot be printed are refused as such: their lengths, and what they are made of. */
  lemma UnprintableFields(number: string, birth: string, expiry: string, room: nat)
    ensures
      var printed := 1 <= |number| <= 20 && |birth| == |expiry| == 6
                     && AllDigits(birth) && AllDigits(expiry) && Printable(Upper(number));
      && (Information(number, birth, expiry, room) == Err(InvalidInput) <==> !printed)
      && (printed ==> (Information(number, birth, expiry, room) == Err(BufferTooSmall)
                       <==> (if |number| < 9 then 9 else |number|) + 16 > room))
  {
    hide Upper, AllDigits, Printable, DigitOf;
    assert |Upper(number)| == |number| by { UpperLength(number); }
  }

  lemma UpperLength(s: string)
    ensures |Upper(s)| == |s|
  {
  }

  /** A zone of no known length is refused. */
  lemma UnknownLayout(raw: string)
    ensures Parse(raw).Ok? <==> |Stripped(raw)| in {72, 88, 90}
    ensures Parse(raw).Err? ==> Parse(raw).error == Error.Parse
  {
    hide ParseTd1, ParseTd2, ParseTd3;
  }

  /** What is typed for a passport, in either case, gives the very characters its zone prints. */
  lemma InformationIsPrinted(number: string, birth: string, expiry: string)
    requires PassportNumber(Upper(number)) && |birth| == |expiry| == DATE_LEN && AllDigits(birth) && AllDigits(expiry)
    ensures
      var l2 := BuildZone(Upper(number), birth, expiry)[44..];
      Information(number, birth, expiry, INFO_MAX) == Ok(l2[..10] + l2[13..20] + l2[21..28])
  {
    hide DigitOf, Upper, Printable, LineTwo;
    var l := LineTwo(Upper(number), birth, expiry);
    LineTwoFields(Upper(number), birth, expiry);
    var zone := BuildZone(Upper(number), birth, expiry);
    var l2 := zone[44..];
    assert l2[..43] == l;
    var doc := Upper(number);
    assert (if |doc| < 9 then doc + Fill(9 - |doc|) else doc) == NumberField(doc);
    assert forall i :: 0 <= i < 43 ==> l2[i] == l2[..43][i];
    assert l2[..10] == l[..9] + [l[9]] && l2[13..20] == l[13..19] + [l[19]] && l2[21..28] == l[21..27] + [l[27]];
    var f, d1, d2, d3 := NumberField(doc), DigitOf(NumberField(doc)), DigitOf(birth), DigitOf(expiry);
    assert f + [d1] + birth + [d2] + expiry + [d3] == (f + [d1]) + (birth + [d2]) + (expiry + [d3]);
  }
}
