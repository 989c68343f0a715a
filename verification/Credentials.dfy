/** What was typed in from the data page, and the passwords both access protocols make of it. */
module Credentials {
  import opened Bytes
  import opened Errors
  import opened SecureMessaging
  import opened Digests
  import opened Mrz
  import opened MrzZone

  /** `can` is the Card Access Number, when one was entered. */
  datatype Credentials = Credentials(number: string, birth: string, expiry: string, can: string, hasCan: bool)

  predicate IsDate(s: string) {
    |s| == DATE_LEN && AllDigits(s)
  }

  /** The three fields are present and well formed; the number as printed, in capitals. */
  predicate ValidMrz(c: Credentials) {
    0 < |c.number| <= DOC_NUMBER_MAX && Printable(c.number) && IsDate(c.birth) && IsDate(c.expiry)
  }

  predicate SixDigits(s: string) {
    |s| == 6 && forall i :: 0 <= i < 6 ==> s[i] in "0123456789"
  }

  lemma DigitsAre(c: char)
    ensures '0' <= c <= '9' <==> c in "0123456789"
  {
    if '0' <= c <= '9' {
      assert "0123456789"[c as int - '0' as int] == c;
    }
  }

  lemma DateIs(s: string)
    ensures IsDate(s) <==> SixDigits(s)
  {
    forall c: char ensures '0' <= c <= '9' <==> c in "0123456789" {
      DigitsAre(c);
    }
    if SixDigits(s) {
      forall c | c in s ensures '0' <= c <= '9' {
        var i :| 0 <= i < |s| && s[i] == c;
      }
    } else if IsDate(s) {
      forall i | 0 <= i < 6 ensures s[i] in "0123456789" {
        assert s[i] in s;
      }
    }
  }

  lemma PrintedIs(c: char)
    ensures CharValue(c) >= 0 <==> c in ALPHABET || c == '<'
  {
    if c in ALPHABET {
      var i :| 0 <= i < |ALPHABET| && ALPHABET[i] == c;
      ValuesInNumbers(i);
    } else if CharValue(c) >= 0 {
      NoOtherValues(c);
    }
  }

  /** The entries that are accepted: up to twenty capitals, digits and fillers, and two dates of six digits. */
  lemma EntriesInNumbers(c: Credentials)
    ensures ValidMrz(c)
            <==> 1 <= |c.number| <= 20 && (forall d :: d in c.number ==> d in ALPHABET || d == '<')
                 && SixDigits(c.birth) && SixDigits(c.expiry)
  {
    hide CharValue, IsDate, SixDigits;
    DateIs(c.birth);
    DateIs(c.expiry);
    forall d: char ensures CharValue(d) >= 0 <==> d in ALPHABET || d == '<' {
      PrintedIs(d);
    }
  }

  predicate UsesCan(c: Credentials) {
    c.hasCan && c.can != ""
  }

  /** The characters of a string as the bytes that hold them. */
  function Characters(s: string): (b: Bytes)
    ensures |b| == |s|
  {
    seq(|s|, i requires 0 <= i < |s| => s[i] as int % 256)
  }

  /** The string the keys come from, as bytes. */
  function InformationBytes(c: Credentials): Result<Bytes> {
    match Information(c.number, c.birth, c.expiry, INFO_MAX)
    case Err(e) => Err(e)
    case Ok(s) => Ok(Characters(s))
  }

  /** What BAC starts from: well formed fields, and a string that fits its buffer. */
  function BacInformation(c: Credentials): Result<Bytes> {
    if !ValidMrz(c) then Err(InvalidInput) else InformationBytes(c)
  }

  const PASSWORD_MAX := 20

  /** PACE's password: the CAN as printed, or the digest of the three fields. */
  function Password(h: Hashes, c: Credentials): Result<Bytes> {
    if UsesCan(c) then (if |c.can| > PASSWORD_MAX then Err(InvalidInput) else Ok(Characters(c.can)))
    else
      match InformationBytes(c)
      case Err(e) => Err(e)
      case Ok(information) => Ok(h.sha1(information))
  }

  function PasswordKey(h: Hashes, suite: Suite, c: Credentials): (r: Result<Bytes>)
    requires LawfulHashes(h)
    ensures r.Ok? ==> |r.value| == KeySize(suite)
  {
    match Password(h, c)
    case Err(e) => Err(e)
    case Ok(password) => Ok(Derive(h, suite, password, COUNTER_PACE))
  }

  /** The password's key: counter 3, over the CAN as typed or over SHA-1 of the printed characters. */
  lemma PasswordKeyIs(h: Hashes, suite: Suite, c: Credentials)
    requires LawfulHashes(h) && PasswordKey(h, suite, c).Ok?
    ensures c.hasCan && c.can != "" ==> IsHead(h, suite, Characters(c.can) + [0, 0, 0, 3], PasswordKey(h, suite, c).value)
    ensures !c.hasCan || c.can == "" ==>
      && InformationBytes(c).Ok?
      && IsHead(h, suite, h.sha1(InformationBytes(c).value) + [0, 0, 0, 3], PasswordKey(h, suite, c).value)
  {
    hide IsHead, Derive, InformationBytes, Characters;
    DerivedKey(h, suite, Password(h, c).value, 3);
  }

  /** A CAN of up to twenty characters is a password as it stands. */
  lemma CanInNumbers(h: Hashes, c: Credentials)
    requires c.hasCan && c.can != ""
    ensures Password(h, c) == if |c.can| <= 20 then Ok(Characters(c.can)) else Err(InvalidInput)
  {
  }

  /** Entries that are not accepted are refused as such, and no others. */
  lemma InvalidEntries(c: Credentials)
    ensures BacInformation(c) == Err(InvalidInput) <==> !ValidMrz(c)
  {
    if ValidMrz(c) {
      LongNumbersAreRefused(c);
    }
  }

  lemma CapitalsStay(s: string)
    requires Printable(s)
    ensures Upper(s) == s
  {
    forall i | 0 <= i < |s| ensures Upper(s)[i] == s[i] {
      assert s[i] in s && CharValue(s[i]) >= 0;
    }
  }

  /**
   * Well formed fields are not always usable: the string is made for document numbers of up to sixteen
   * characters, and a longer one, though accepted as an entry, is refused when the key is derived.
   */
  lemma LongNumbersAreRefused(c: Credentials)
    requires ValidMrz(c)
    ensures BacInformation(c).Ok? <==> |c.number| <= 16
    ensures |c.number| > 16 ==> BacInformation(c) == Err(BufferTooSmall)
    ensures BacInformation(c).Ok? ==> |BacInformation(c).value| == (if |c.number| < 9 then 9 else |c.number|) + 15
  {
    hide DigitOf, Printable, Upper;
    CapitalsStay(c.number);
  }
}
