/** The name field of a machine readable zone: identifiers parted by two fillers, their parts by one. */
module MrzNames {
  import opened Bytes

  const NAME_MAX := 39

  /** Where the first run of two fillers begins, or the end of the field. */
  function Parting(field: string, i: nat): (split: nat)
    requires i <= |field|
    ensures i <= split <= |field|
    decreases |field| - i
  {
    if i + 1 >= |field| then |field|
    else if field[i] == '<' && field[i + 1] == '<' then i
    else Parting(field, i + 1)
  }

  /** Without the fillers it begins with. */
  function Unpadded(s: string): string {
    if s != [] && s[0] == '<' then Unpadded(s[1..]) else s
  }

  /** A filler inside an identifier stands for a space. */
  function Spaced(s: string): (t: string)
    ensures |t| == |s|
  {
    seq(|s|, i requires 0 <= i < |s| => if s[i] == '<' then ' ' else s[i])
  }

  /** Without the spaces it ends with. */
  function Trimmed(s: string): string {
    if s != [] && s[|s| - 1] == ' ' then Trimmed(s[..|s| - 1]) else s
  }

  /** One identifier as text, as much of it as there is room for. */
  function Identifier(s: string, room: nat): string {
    var text := Spaced(Unpadded(s));
    Trimmed(text[..Min(|text|, room)])
  }

  /** Surname and given names; a field without a parting is a surname. */
  function Names(field: string): (string, string) {
    var split := Parting(field, 0);
    (Identifier(field[..split], NAME_MAX), if split < |field| then Identifier(field[split..], NAME_MAX) else "")
  }

  // ---- The code's loops --------------------------------------------------------------------

  method CopyIdentifier(s: string, room: nat) returns (text: string)
    ensures text == Identifier(s, room)
  {
    text := "";
    var i := 0;
    ghost var start := Unpadded(s);
    ghost var whole := Spaced(start);
    assert s[0..] == s;
    while i < |s| && |text| < room
      invariant 0 <= i <= |s| && |text| <= room
      invariant if text == "" then start == Unpadded(s[i..]) else whole == text + Spaced(s[i..])
    {
      StepIdentifier(start, s[i..], text);
      assert s[i..][1..] == s[i + 1..];
      if s[i] == '<' {
        if |text| > 0 {
          text := text + [' '];
        }
      } else {
        text := text + [s[i]];
      }
      i := i + 1;
    }
    assert text == whole[..Min(|whole|, room)] by {
      if text == "" && i == |s| {
        assert s[i..] == "";
      }
    }
    text := TrimEnd(text);
  }

  /** Without the spaces at its end. */
  method TrimEnd(text: string) returns (trimmed: string)
    ensures trimmed == Trimmed(text)
  {
    var end := |text|;
    assert text[..end] == text;
    while end > 0 && text[end - 1] == ' '
      invariant 0 <= end <= |text| && Trimmed(text) == Trimmed(text[..end])
    {
      assert text[..end][..end - 1] == text[..end - 1];
      end := end - 1;
    }
    trimmed := text[..end];
  }

  /** What one more character of the identifier does to its text. */
  lemma StepIdentifier(start: string, rest: string, text: string)
    requires rest != ""
    requires if text == "" then start == Unpadded(rest) else Spaced(start) == text + Spaced(rest)
    ensures
      if rest[0] != '<' then Spaced(start) == text + [rest[0]] + Spaced(rest[1..])
      else if text != "" then Spaced(start) == text + [' '] + Spaced(rest[1..])
      else start == Unpadded(rest[1..])
  {
    hide Unpadded, Spaced;
    UnpaddedStep(rest);
    SpacedStep(rest);
    var c, after := if rest[0] == '<' then ' ' else rest[0], Spaced(rest[1..]);
    if text == "" {
      assert text + [c] + after == [c] + after;
    } else {
      assert text + ([c] + after) == text + [c] + after;
    }
  }

  lemma UnpaddedStep(s: string)
    requires s != ""
    ensures Unpadded(s) == if s[0] == '<' then Unpadded(s[1..]) else s
  {
  }

  lemma SpacedStep(s: string)
    requires s != ""
    ensures Spaced(s) == [if s[0] == '<' then ' ' else s[0]] + Spaced(s[1..])
  {
  }

  method CopyName(field: string) returns (surname: string, given: string)
    ensures (surname, given) == Names(field)
  {
    hide Identifier;
    var split := |field|;
    var i := 0;
    while i + 1 < |field|
      invariant 0 <= i <= |field| && split == |field| && Parting(field, 0) == Parting(field, i)
    {
      if field[i] == '<' && field[i + 1] == '<' {
        split := i;
        break;
      }
      i := i + 1;
    }
    surname := CopyIdentifier(field[..split], NAME_MAX);
    given := "";
    if split < |field| {
      given := CopyIdentifier(field[split..], NAME_MAX);
    }
  }

  // ---- A printed name is read back ---------------------------------------------------------

  /** Words of one or more characters, one space between any two. */
  predicate WellSpaced(s: string) {
    && s != "" && s[0] != ' ' && s[|s| - 1] != ' ' && '<' !in s
    && forall i :: 0 < i < |s| ==> s[i - 1] != ' ' || s[i] != ' '
  }

  function Printed(s: string): (t: string)
    ensures |t| == |s|
  {
    seq(|s|, i requires 0 <= i < |s| => if s[i] == ' ' then '<' else s[i])
  }

  function Fill(n: nat): (s: string)
    ensures |s| == n
  {
    seq(n, i => '<')
  }

  function Blanks(n: nat): (s: string)
    ensures |s| == n
  {
    seq(n, i => ' ')
  }

  lemma {:induction false} PartingAt(field: string, i: nat, split: nat)
    requires i <= split && split + 1 < |field| && field[split] == '<' && field[split + 1] == '<'
    requires forall k :: i <= k < split ==> field[k] != '<' || field[k + 1] != '<'
    ensures Parting(field, i) == split
    decreases split - i
  {
    if i < split {
      PartingAt(field, i + 1, split);
    }
  }

  lemma {:induction false} BlanksTrimmed(s: string, n: nat)
    requires s == "" || s[|s| - 1] != ' '
    ensures Trimmed(s + Blanks(n)) == s
    decreases n
  {
    var t := s + Blanks(n);
    if n == 0 {
      assert t == s;
    } else {
      assert t[..|t| - 1] == s + Blanks(n - 1);
      BlanksTrimmed(s, n - 1);
    }
  }

  /** An identifier and any padding behind it give the identifier back. */
  lemma IdentifierRead(s: string, n: nat, room: nat)
    requires WellSpaced(s) && |s| <= room
    ensures Identifier(Printed(s) + Fill(n), room) == s
  {
    var field := Printed(s) + Fill(n);
    assert field[0] != '<' by {
      assert s[0] in s;
    }
    assert Unpadded(field) == field;
    assert Spaced(field) == s + Blanks(n) by {
      forall i | 0 <= i < |s| ensures Spaced(field)[i] == s[i] {
        assert s[i] in s;
      }
    }
    var cut := Min(|field|, room);
    assert (s + Blanks(n))[..cut] == s + Blanks(cut - |s|);
    BlanksTrimmed(s, cut - |s|);
  }

  /** What is printed for a surname and given names is read back as them, with any padding behind. */
  lemma PrintedNamesRead(surname: string, given: string, padding: nat)
    requires WellSpaced(surname) && WellSpaced(given) && |surname| <= NAME_MAX && |given| <= NAME_MAX
    ensures Names(Printed(surname) + "<<" + Printed(given) + Fill(padding)) == (surname, given)
  {
    hide Identifier, Unpadded;
    var field := Printed(surname) + "<<" + Printed(given) + Fill(padding);
    forall k | 0 <= k < |surname| ensures field[k] != '<' || field[k + 1] != '<' {
      assert surname[k] in surname;
      if k + 1 < |surname| {
        assert surname[k + 1 - 1] != ' ' || surname[k + 1] != ' ';
        assert surname[k + 1] in surname;
      }
    }
    PartingAt(field, 0, |surname|);
    assert field[..|surname|] == Printed(surname) + Fill(0);
    IdentifierRead(surname, 0, NAME_MAX);
    var rest := Printed(given) + Fill(padding);
    assert field[|surname|..] == "<<" + rest;
    UnpaddedTwice(rest);
    IdentifierRead(given, padding, NAME_MAX);
    SameIdentifier(rest);
  }

  lemma UnpaddedTwice(s: string)
    ensures Unpadded("<<" + s) == Unpadded(s)
  {
    assert ("<<" + s)[1..] == "<" + s && ("<" + s)[1..] == s;
  }

  lemma SameIdentifier(s: string)
    requires Unpadded("<<" + s) == Unpadded(s)
    ensures Identifier("<<" + s, NAME_MAX) == Identifier(s, NAME_MAX)
  {
  }
}
