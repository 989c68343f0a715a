/**
 * Finding the facial image in the head of EF.DG2 by its signature, in a prefix that may end
 * anywhere, and why it does not matter where.
 */
module FaceImage {
  import opened Bytes
  import opened Errors

  datatype Format = Jpeg | Jpeg2000

  datatype Face = Face(offset: nat, format: Format)

  const JPEG_SOI: Bytes := [0xFF, 0xD8, 0xFF]
  const JP2_SIGNATURE: Bytes := [0x00, 0x00, 0x00, 0x0C, 0x6A, 0x50, 0x20, 0x20, 0x0D, 0x0A, 0x87, 0x0A]
  const J2K_CODESTREAM: Bytes := [0xFF, 0x4F, 0xFF, 0x51]

  const SIGNATURES := 3

  function Magic(s: nat): (magic: Bytes)
    requires s < SIGNATURES
    ensures |magic| >= 3
  {
    if s == 0 then JPEG_SOI else if s == 1 then JP2_SIGNATURE else J2K_CODESTREAM
  }

  function FormatOf(s: nat): Format
    requires s < SIGNATURES
  {
    if s == 0 then Jpeg else Jpeg2000
  }

  predicate Occurs(data: Bytes, offset: nat, s: nat)
    requires s < SIGNATURES
  {
    offset + |Magic(s)| <= |data| && data[offset..offset + |Magic(s)|] == Magic(s)
  }

  /** The first signature, in the table's order, that starts at `offset`. */
  function SignatureAt(data: Bytes, offset: nat, s: nat): Option<nat>
    requires s <= SIGNATURES
    decreases SIGNATURES - s
  {
    if s == SIGNATURES then None
    else if Occurs(data, offset, s) then Some(s)
    else SignatureAt(data, offset, s + 1)
  }

  function FindFrom(data: Bytes, offset: nat): (r: Option<Face>)
    ensures r.Some? ==> offset <= r.value.offset < |data|
    decreases |data| - offset
  {
    if offset >= |data| then None
    else
      var s := SignatureAt(data, offset, 0);
      if s.Some? then
        SignatureAtOccurs(data, offset, 0);
        Some(Face(offset, FormatOf(s.value)))
      else FindFrom(data, offset + 1)
  }

  /** The search, offset by offset and signature by signature. */
  method FindImage(data: Bytes) returns (r: Option<Face>)
    ensures r == FindFrom(data, 0)
  {
    hide Occurs;
    var offset := 0;
    while offset < |data|
      invariant 0 <= offset <= |data| && FindFrom(data, 0) == FindFrom(data, offset)
    {
      var s := 0;
      while s < SIGNATURES
        invariant 0 <= s <= SIGNATURES
        invariant SignatureAt(data, offset, 0) == SignatureAt(data, offset, s)
      {
        if Occurs(data, offset, s) {
          return Some(Face(offset, FormatOf(s)));
        }
        s := s + 1;
      }
      offset := offset + 1;
    }
    return None;
  }

  lemma {:induction false} SignatureAtOccurs(data: Bytes, offset: nat, s: nat)
    requires s <= SIGNATURES
    ensures
      match SignatureAt(data, offset, s)
      case Some(t) => s <= t < SIGNATURES && Occurs(data, offset, t)
      case None => forall t :: s <= t < SIGNATURES ==> !Occurs(data, offset, t)
    decreases SIGNATURES - s
  {
    hide Occurs;
    if s < SIGNATURES {
      SignatureAtOccurs(data, offset, s + 1);
    }
  }

  /** No signature occurs inside another, nor begins another, nor occurs in itself further on. */
  lemma SignaturesApart(a: nat, b: nat, d: nat)
    requires a < SIGNATURES && b < SIGNATURES && d + |Magic(b)| <= |Magic(a)|
    requires Magic(a)[d..d + |Magic(b)|] == Magic(b)
    ensures a == b && d == 0
  {
    var x, y := Magic(a), Magic(b);
    assert forall i :: 0 <= i < |y| ==> x[d + i] == y[i] by {
      forall i | 0 <= i < |y| ensures x[d + i] == y[i] {
        assert x[d..d + |y|][i] == y[i];
      }
    }
    assert x[d] == y[0] && x[d + 1] == y[1] && x[d + 2] == y[2];
  }

  /** One occurrence that starts earlier than another also ends earlier. */
  lemma OccurrencesInOrder(data: Bytes, p: nat, a: nat, o: nat, b: nat)
    requires a < SIGNATURES && b < SIGNATURES && p <= o
    requires Occurs(data, p, a) && Occurs(data, o, b)
    ensures p + |Magic(a)| < o + |Magic(b)| || (p == o && a == b)
  {
    if o + |Magic(b)| <= p + |Magic(a)| {
      var d := o - p;
      SliceOfSlice(data, p, p + |Magic(a)|, d, d + |Magic(b)|);
      SignaturesApart(a, b, d);
    }
  }

  /** The three signatures in bytes, and the formats they stand for: JPEG, and JPEG 2000 as a file or as a bare codestream. */
  lemma SignaturesInBytes(rest: Bytes)
    ensures FindFrom([0xFF, 0xD8, 0xFF] + rest, 0) == Some(Face(0, Jpeg))
    ensures FindFrom([0x00, 0x00, 0x00, 0x0C, 0x6A, 0x50, 0x20, 0x20, 0x0D, 0x0A, 0x87, 0x0A] + rest, 0) == Some(Face(0, Jpeg2000))
    ensures FindFrom([0xFF, 0x4F, 0xFF, 0x51] + rest, 0) == Some(Face(0, Jpeg2000))
  {
    StartsWith(0, rest);
    StartsWith(1, rest);
    StartsWith(2, rest);
    assert JPEG_SOI == [0xFF, 0xD8, 0xFF] && J2K_CODESTREAM == [0xFF, 0x4F, 0xFF, 0x51];
  }

  lemma StartsWith(s: nat, rest: Bytes)
    requires s < SIGNATURES
    ensures FindFrom(Magic(s) + rest, 0) == Some(Face(0, FormatOf(s)))
  {
    var data := Magic(s) + rest;
    assert data[0..0 + |Magic(s)|] == Magic(s);
    SignatureAtOccurs(data, 0, 0);
    var t := SignatureAt(data, 0, 0).value;
    OccurrencesInOrder(data, 0, s, 0, t);
    OccurrencesInOrder(data, 0, t, 0, s);
  }

  /** A hit is the least place where any signature occurs whole, and it names the one that does. */
  ghost predicate Least(data: Bytes, f: Face) {
    && (exists s :: 0 <= s < SIGNATURES && Occurs(data, f.offset, s) && f.format == FormatOf(s))
    && forall p, t :: 0 <= p < f.offset && 0 <= t < SIGNATURES ==> !Occurs(data, p, t)
  }

  lemma {:induction false} FindIsLeast(data: Bytes, from: nat)
    requires forall p, t :: 0 <= p < from && 0 <= t < SIGNATURES ==> !Occurs(data, p, t)
    ensures
      match FindFrom(data, from)
      case Some(f) => Least(data, f)
      case None => forall p, t :: 0 <= p && 0 <= t < SIGNATURES ==> !Occurs(data, p, t)
    decreases |data| - from
  {
    hide Magic;
    if from < |data| {
      hide Occurs;
      SignatureAtOccurs(data, from, 0);
      if SignatureAt(data, from, 0).None? {
        FindIsLeast(data, from + 1);
      }
    }
  }

  lemma LeastIsUnique(data: Bytes, f: Face, g: Face)
    requires Least(data, f) && Least(data, g)
    ensures f == g
  {
    hide Occurs;
    var s :| 0 <= s < SIGNATURES && Occurs(data, f.offset, s) && f.format == FormatOf(s);
    var t :| 0 <= t < SIGNATURES && Occurs(data, g.offset, t) && g.format == FormatOf(t);
    if f.offset == g.offset {
      OccurrencesInOrder(data, f.offset, s, g.offset, t);
      OccurrencesInOrder(data, g.offset, t, f.offset, s);
    }
  }

  lemma OccursInPrefix(data: Bytes, k: nat, offset: nat, s: nat)
    requires k <= |data| && s < SIGNATURES
    ensures Occurs(data[..k], offset, s) <==> Occurs(data, offset, s) && offset + |Magic(s)| <= k
  {
    hide Magic;
    if offset + |Magic(s)| <= k {
      assert data[..k][offset..offset + |Magic(s)|] == data[offset..offset + |Magic(s)|];
    }
  }

  /** Once some prefix yields a hit, everything longer yields the same one. */
  lemma HitIsFinal(data: Bytes, k: nat)
    requires k <= |data| && FindFrom(data[..k], 0).Some?
    ensures FindFrom(data, 0) == FindFrom(data[..k], 0)
  {
    hide Occurs, Magic, FindFrom;
    var f := FindFrom(data[..k], 0).value;
    FindIsLeast(data[..k], 0);
    FindIsLeast(data, 0);
    var s :| 0 <= s < SIGNATURES && Occurs(data[..k], f.offset, s) && f.format == FormatOf(s);
    OccursInPrefix(data, k, f.offset, s);
    forall p, t | 0 <= p < f.offset && 0 <= t < SIGNATURES ensures !Occurs(data, p, t) {
      OccursInPrefix(data, k, p, t);
      if Occurs(data, p, t) {
        OccurrencesInOrder(data, p, t, f.offset, s);
      }
    }
    assert Least(data, f);
    LeastIsUnique(data, f, FindFrom(data, 0).value);
  }
}
