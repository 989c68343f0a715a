/**
 * Secure Messaging refines plain messaging: through the envelope the chip runs the command the
 * caller meant, the caller gets the answer the chip gave, and the two counters stay equal.
 */
module SmRefinement {
  import opened Bytes
  import opened Errors
  import opened Numbers
  import opened Tlv
  import opened Cipher
  import opened Mac
  import opened Apdu
  import opened SecureMessaging
  import opened SimChip

  // ---- The command, on its way to the chip -------------------------------------------------

  /** An object the reader writes is the object the chip reads there. */
  lemma ReadDoOfObject(before: Bytes, tag: byte, value: Bytes, after: Bytes)
    requires |value| <= 0xFF
    ensures
      var data := before + Object(tag, value) + after;
      var start := |before| + 1 + EncodedLengthSize(|value|);
      && ReadDo(data, |before|) == Some(Do(tag, start, |value|))
      && data[start..start + |value|] == value
      && start + |value| == |before| + |Object(tag, value)|
  {
    var enc := EncodeLength(|value|);
    var data := before + Object(tag, value) + after;
    assert data == before + [tag] + enc + value + after;
    assert data[|before|] == tag;
    assert forall i :: 0 <= i < |enc| ==> data[|before| + 1 + i] == enc[i];
    assert data[|before| + 1] == enc[0];
    var start := |before| + 1 + |enc|;
    assert data[start..start + |value|] == value;
  }

  /** The chip's Le for a command that asks for at most 256 bytes. */
  function ChipLe(le: int): nat
    requires le == LE_NONE || 1 <= le <= LE_MAX
  {
    if le == LE_NONE then 0 else le
  }

  lemma PickChecksum(before: Bytes, mac: Bytes, acc: Picked)
    requires |mac| == MAC_SIZE
    ensures Pick(before + Object(DO_MAC, mac), |before|, acc)
            == Some(acc.(checksum := Some(mac), covered := |before|))
  {
    ReadDoOfObject(before, DO_MAC, mac, []);
    assert before + Object(DO_MAC, mac) + [] == before + Object(DO_MAC, mac);
  }

  lemma PickLe(before: Bytes, le: int, mac: Bytes, acc: Picked)
    requires |mac| == MAC_SIZE && (le == LE_NONE || 1 <= le <= LE_MAX) && acc.le == 0
    ensures Pick(before + Do97(le) + Object(DO_MAC, mac), |before|, acc)
            == Some(acc.(le := ChipLe(le), checksum := Some(mac), covered := |before + Do97(le)|))
  {
    hide EncodeLength;
    if le == LE_NONE {
      assert before + Do97(le) == before;
      PickChecksum(before, mac, acc);
    } else {
      var value: Bytes := [if le == LE_MAX then 0 else le];
      ReadDoOfObject(before, DO_LE, value, Object(DO_MAC, mac));
      PickChecksum(before + Do97(le), mac, acc.(le := ChipLe(le)));
    }
  }

  /** The chip picks out of an envelope exactly what the reader put in. */
  lemma PickEnvelope(cryptogram: Bytes, le: int, mac: Bytes)
    requires |mac| == MAC_SIZE && (le == LE_NONE || 1 <= le <= LE_MAX) && |cryptogram| <= 0xFF
    ensures
      var objects := (if cryptogram == [] then [] else Object(DO_CRYPTOGRAM_PADDED, cryptogram)) + Do97(le);
      Pick(objects + Object(DO_MAC, mac), 0, Picked(None, 0, None, 0))
      == Some(Picked(if cryptogram == [] then None else Some(cryptogram), ChipLe(le), Some(mac), |objects|))
  {
    hide Object, EncodeLength, Do97;
    var start := Picked(None, 0, None, 0);
    if cryptogram == [] {
      assert [] + Do97(le) == Do97(le);
      PickLe([], le, mac, start);
    } else {
      var do87 := Object(DO_CRYPTOGRAM_PADDED, cryptogram);
      var rest := Do97(le) + Object(DO_MAC, mac);
      ReadDoOfObject([], DO_CRYPTOGRAM_PADDED, cryptogram, rest);
      assert [] + do87 + rest == do87 + Do97(le) + Object(DO_MAC, mac);
      PickLe(do87, le, mac, start.(cryptogram := Some(cryptogram)));
    }
  }

  /** Commands that Secure Messaging carries faithfully: class bits clear, Le absent or 1 to 256. */
  predicate Carriable(c: Command) {
    ClearSm(c.cla) == c.cla && (c.le == LE_NONE || 1 <= c.le <= LE_MAX)
  }

  lemma SmallEnvelope(s: Session, c: Command)
    requires PayloadLen(s, c) <= PAYLOAD_MAX
    ensures |c.data| <= 0xFF && (c.data != [] ==> 1 + PaddedLen(|c.data|, BlockSize(s.suite)) <= 0xFF)
  {
    hide PaddedLen;
  }

  /** A class byte in its three parts: above, the two bits that mark Secure Messaging, and below. */
  lemma ClassBits(cla: byte)
    ensures ClearSm(SetSm(cla)) == ClearSm(cla) && SetSm(cla) / 4 % 4 == 3
  {
    var q, low: nat := cla / 4, cla % 4;
    var high: nat, marks: nat := q / 4, q % 4;
    assert cla == 4 * (4 * high + marks) + low;
    assert SetSm(cla) == 4 * (4 * high + 3) + low;
    hide SetSm;
    Quarter(4 * high + 3, low);
    Quarter(high, 3);
  }

  lemma Quarter(x: nat, low: nat)
    requires low < 4
    ensures (4 * x + low) / 4 == x && (4 * x + low) % 4 == low
  {
  }

  /** The value of DO'87', or nothing when there is no data to send. */
  function Cryptogram(p: Primitives, s: Session, data: Bytes): Bytes
    requires Lawful(p) && Keyed(s)
  {
    if data == [] then [] else [PADDING_INDICATOR] + Encrypt(p, s, Pad(data, BlockSize(s.suite)))
  }

  lemma CryptogramOpens(p: Primitives, s: Session, data: Bytes)
    requires Lawful(p) && Keyed(s) && data != []
    ensures
      var x := Cryptogram(p, s, data);
      && |x| == 1 + PaddedLen(|data|, BlockSize(s.suite)) && |x| >= 2 && x[0] == PADDING_INDICATOR
      && Whole(|x| - 1, BlockSize(s.suite))
      && Unpad(Decrypt(p, s, x[1..])) == Some(data)
  {
    hide Iv, Encryption, Decrypt, Encrypt;
    var padded := Pad(data, BlockSize(s.suite));
    assert Cryptogram(p, s, data)[1..] == Encrypt(p, s, padded);
    DecryptInverts(p, s, padded);
    PadRoundTrip(data, BlockSize(s.suite));
  }

  /** What the chip unwraps is what it would have been given in the clear. */
  lemma UnwrapInvertsEnvelope(p: Primitives, s: Session, c: Command)
    requires Lawful(p) && Keyed(s) && Carriable(c) && PayloadLen(s, c) <= PAYLOAD_MAX
    ensures Unwrap(p, s, ViewOf(Envelope(p, s, c))) == (SW_OK, Some(ViewOf(c))) && Envelope(p, s, c).le == 256
  {
    hide Checksum, Iv, Encryption, Encrypt, Decrypt, Unpad, Pad, Pick, PaddedLen, Object, Whole, PayloadLen, ClearSm, SetSm;
    hide SimMac, SimDecrypt;
    SmallEnvelope(s, c);
    if c.data != [] {
      CryptogramOpens(p, s, c.data);
      SimCipherIsSession(p, s, Cryptogram(p, s, c.data)[1..]);
    }
    var e := Envelope(p, s, c);
    var objects := Objects(p, s, c);
    var mac := Checksum(p, s, CommandMacInput(s, Header(e), objects));
    SimMacIsChecksum(p, s, CommandMacInput(s, Header(e), objects));
    var x := Cryptogram(p, s, c.data);
    assert objects == (if x == [] then [] else Object(DO_CRYPTOGRAM_PADDED, x)) + Do97(c.le);
    PickEnvelope(x, c.le, mac);
    assert e.data == objects + Object(DO_MAC, mac);
    assert e.data[..|objects|] == objects;
    ClassBits(c.cla);
  }

  // ---- The answer, on its way back ---------------------------------------------------------

  lemma SimDoIsObject(tag: byte, value: Bytes)
    requires |value| <= 0xFF
    ensures SimDo(tag, value) == Object(tag, value)
  {
  }

  /** `n` is a node with this tag and value, starting here. */
  predicate Holds(response: Bytes, n: Node, tag: byte, start: nat, value: Bytes) {
    && n.tag == tag as int && n.start == start && n.valueLen == |value| && n.End() <= |response| - 2
    && response[n.valueStart..n.End()] == value
  }

  /** One object of a response, where the reader's cursor finds it. */
  lemma NodeOfObject(response: Bytes, before: Bytes, tag: byte, value: Bytes, after: Bytes, sw: Bytes)
    returns (n: Node)
    requires tag in {DO_CRYPTOGRAM_PADDED, DO_STATUS, DO_MAC} && |value| <= 0xFF && |sw| == 2
    requires response == before + Object(tag, value) + after + sw
    ensures ReadNode(response, |response| - 2, |before|) == Some(n)
    ensures Holds(response, n, tag, |before|, value) && n.End() == |before| + |Object(tag, value)|
  {
    var body := before + Object(tag, value) + after;
    ObjectRoundTrip(before, tag, value, after);
    assert response[..|response| - 2] == body;
    ReadNodeSlice(response, |response| - 2, |before|);
    n := ReadNode(body, |body|, |before|).value;
    SliceOfSlice(response, 0, |body|, n.valueStart, n.End());
  }

  /** The wrapped answer as it arrives. */
  function Wrapped(x: Bytes, status: Bytes, mac: Bytes, sw: Bytes): Bytes {
    (if x == [] then [] else Object(DO_CRYPTOGRAM_PADDED, x)) + Object(DO_STATUS, status) + Object(DO_MAC, mac) + sw
  }

  /** The reader's cursor sees the status and the checksum, from where the cryptogram ends. */
  lemma WalkStatusAndMac(response: Bytes, before: Bytes, status: Bytes, mac: Bytes, sw: Bytes)
    returns (a: Node, b: Node)
    requires |status| == 2 && |mac| == MAC_SIZE && |sw| == 2
    requires response == before + Object(DO_STATUS, status) + Object(DO_MAC, mac) + sw
    ensures
      var d99 := Object(DO_STATUS, status);
      && Holds(response, a, DO_STATUS, |before|, status)
      && Holds(response, b, DO_MAC, |before + d99|, mac) && b.End() == |response| - 2
      && Walk(response, |response| - 2, |before|) == ([a, b], true)
  {
    hide ReadNode, Object;
    var d99, d8e := Object(DO_STATUS, status), Object(DO_MAC, mac);
    var end := |response| - 2;
    a := NodeOfObject(response, before, DO_STATUS, status, d8e, sw);
    assert before + d99 + d8e + [] + sw == response;
    b := NodeOfObject(response, before + d99, DO_MAC, mac, [], sw);
    assert Tile(response, end, [], end, end);
    assert [b][1..] == [] && [a, b][1..] == [b];
    assert Tile(response, end, [b], |before + d99|, end);
    assert Tile(response, end, [a, b], |before|, end);
    TilingIsWalked(response, end, [a, b], |before|);
  }

  /** The reader finds in a wrapped answer exactly what the chip put in. */
  lemma InspectWrapped(x: Bytes, status: Bytes, mac: Bytes, sw: Bytes, block: nat, outSize: nat)
    requires |status| == 2 && |mac| == MAC_SIZE && |sw| == 2 && (block == 8 || block == 16)
    requires |Wrapped(x, status, mac, sw)| <= APDU_MAX_SIZE
    requires x != [] ==> x[0] == PADDING_INDICATOR && 1 < |x| <= outSize + 1 && |x| <= 0xFF && Whole(|x| - 1, block)
    ensures
      var response := Wrapped(x, status, mac, sw);
      var r := Inspect(response, block, outSize);
      && r.Ok? && r.value.mac == mac && r.value.sw == StatusWord(status[0], status[1])
      && r.value.covered == |response| - 2 - |Object(DO_MAC, mac)|
      && (x == [] <==> r.value.cipher.None?)
      && (x != [] ==> response[r.value.cipher.value.0..r.value.cipher.value.0 + r.value.cipher.value.1] == x[1..])
  {
    hide ReadNode, Object, Walk, Whole, Collect, FromSw;
    var d87 := if x == [] then [] else Object(DO_CRYPTOGRAM_PADDED, x);
    var response := Wrapped(x, status, mac, sw);
    var end := |response| - 2;
    var a, b := WalkStatusAndMac(response, d87, status, mac, sw);
    CollectTwo(a, b);
    assert response[a.valueStart..a.End()][0] == status[0] && response[a.valueStart..a.End()][1] == status[1];
    if x != [] {
      assert [] + d87 + (Object(DO_STATUS, status) + Object(DO_MAC, mac)) + sw == response;
      var c := NodeOfObject(response, [], DO_CRYPTOGRAM_PADDED, x, Object(DO_STATUS, status) + Object(DO_MAC, mac), sw);
      WalkOneMore(response, end, c, [a, b]);
      CollectThree(c, a, b);
      assert response[c.valueStart..c.End()][0] == x[0];
      assert response[c.valueStart + 1..c.End()] == response[c.valueStart..c.End()][1..];
    }
  }

  lemma WalkOneMore(data: Bytes, end: nat, c: Node, rest: seq<Node>)
    requires 0 < end <= |data| && ReadNode(data, end, 0) == Some(c) && Walk(data, end, c.End()) == (rest, true)
    ensures Walk(data, end, 0) == ([c] + rest, true)
  {
  }

  lemma CollectTwo(a: Node, b: Node)
    requires a.tag == DO_STATUS as int && b.tag == DO_MAC as int
    ensures Collect([a, b]) == Some(Found(None, Some(a), Some(b)))
  {
    assert [a, b][..1] == [a] && [a][..0] == [];
    assert Collect([a]) == Some(Found(None, Some(a), None));
  }

  lemma CollectThree(c: Node, a: Node, b: Node)
    requires c.tag == DO_CRYPTOGRAM_PADDED as int && a.tag == DO_STATUS as int && b.tag == DO_MAC as int
    ensures [c] + [a, b] == [c, a, b]
    ensures Collect([c, a, b]) == Some(Found(Some(c), Some(a), Some(b)))
  {
    assert [c, a, b][..2] == [c, a] && [c, a][..1] == [c] && [c][..0] == [];
    assert Collect([c]) == Some(Found(Some(c), None, None));
    assert Collect([c, a]) == Some(Found(Some(c), Some(a), None));
  }

  // ---- One exchange ------------------------------------------------------------------------

  /** Room for the wrapped answer and the outer status word in one APDU. */
  predicate AnswerFits(s: Session, answer: Response) {
    answer.sw <= 0xFFFF && Do87Len(s, |answer.data|) + 4 + 2 + MAC_SIZE + 2 <= APDU_MAX_SIZE
  }

  lemma FittingAnswerIsShort(s: Session, answer: Response)
    requires AnswerFits(s, answer) && answer.data != []
    ensures 1 + PaddedLen(|answer.data|, BlockSize(s.suite)) <= 0xF0 && CryptogramFits(s, |answer.data|)
  {
    hide PaddedLen;
  }

  /** The chip's envelope, in the reader's terms. */
  lemma WrapIsWrapped(p: Primitives, s: Session, answer: Response)
    requires Lawful(p) && Keyed(s) && AnswerFits(s, answer)
    ensures
      var x := Cryptogram(p, s, answer.data);
      var objects := AnswerObjects(p, s, answer);
      var (body, sw) := Wrap(p, s, answer);
      && sw == SW_OK
      && body + Be16(sw) == Wrapped(x, Be16(answer.sw), Checksum(p, s, s.ssc + objects), Be16(SW_OK))
      && body[..|objects|] == objects && |body| == |objects| + 10 && |body| + 2 <= APDU_MAX_SIZE
  {
    hide Checksum, Encrypt, SimMac, SimEncrypt, Pad, PaddedLen, Object, SimDo, EncodeLength;
    var x := Cryptogram(p, s, answer.data);
    var mac := Checksum(p, s, s.ssc + AnswerObjects(p, s, answer));
    SimMacIsChecksum(p, s, s.ssc + AnswerObjects(p, s, answer));
    SimCipherIsSession(p, s, Pad(answer.data, BlockSize(s.suite)));
    if answer.data != [] {
      FittingAnswerIsShort(s, answer);
      CryptogramOpens(p, s, answer.data);
      SimDoIsObject(DO_CRYPTOGRAM_PADDED, x);
      ObjectSize(DO_CRYPTOGRAM_PADDED, x);
    }
    SimDoIsObject(DO_STATUS, Be16(answer.sw));
    ObjectSize(DO_STATUS, Be16(answer.sw));
    SimDoIsObject(DO_MAC, mac);
    ObjectSize(DO_MAC, mac);
  }

  /** The data of an answer and its status word, as the checksum covers them. */
  function AnswerBytes(p: Primitives, s: Session, answer: Response): Bytes
    requires Lawful(p) && Keyed(s) && answer.sw <= 0xFFFF
  {
    SealedBytes(p, s, answer.data) + [0x99, 0x02] + Be16(answer.sw)
  }

  lemma SealedOnChip(p: Primitives, s: Session, data: Bytes)
    requires Lawful(p) && Keyed(s) && data != [] && PaddedLen(|data|, BlockSize(s.suite)) <= 0xF0
    ensures SimDo(DO_CRYPTOGRAM_PADDED, [PADDING_INDICATOR] + SimEncrypt(p, s, Pad(data, BlockSize(s.suite))))
            == SealedBytes(p, s, data)
  {
    hide Lawful, Encrypt, SimEncrypt, Pad, PaddedLen;
    SimCipherIsSession(p, s, Pad(data, BlockSize(s.suite)));
  }

  lemma AnswerObjectsAre(p: Primitives, s: Session, answer: Response)
    requires Lawful(p) && Keyed(s) && AnswerFits(s, answer)
    ensures AnswerObjects(p, s, answer) == AnswerBytes(p, s, answer)
  {
    hide Lawful, SimEncrypt, Pad, PaddedLen, Be16, SealedBytes;
    StatusObject(answer.sw);
    if answer.data != [] {
      FittingAnswerIsShort(s, answer);
      SealedOnChip(p, s, answer.data);
    } else {
      assert SealedBytes(p, s, []) == [] by { NothingSealed(p, s); }
    }
    hide SimDo;
    var sealed := SealedBytes(p, s, answer.data);
    assert sealed + ([0x99, 0x02] + Be16(answer.sw)) == sealed + [0x99, 0x02] + Be16(answer.sw);
  }

  lemma NothingSealed(p: Primitives, s: Session)
    requires Lawful(p) && Keyed(s)
    ensures SealedBytes(p, s, []) == []
  {
  }

  lemma StatusObject(sw: nat)
    requires sw <= 0xFFFF
    ensures SimDo(DO_STATUS, Be16(sw)) == [0x99, 0x02] + Be16(sw)
  {
  }

  /**
   * A wrapped answer byte by byte: the data sealed, the status word, and a checksum over both under the
   * stepped counter.
   */
  lemma AnswerInBytes(p: Primitives, s: Session, answer: Response)
    requires Lawful(p) && Keyed(s) && AnswerFits(s, answer)
    ensures answer.sw <= 0xFFFF
    ensures
      var objects := AnswerBytes(p, s, answer);
      Wrap(p, s, answer) == (objects + [0x8E, 0x08] + Checksum(p, s, s.ssc + objects), 0x9000)
  {
    hide Lawful, Checksum, SimMac, AnswerObjects, AnswerBytes;
    AnswerObjectsAre(p, s, answer);
    WrapIsWrapped(p, s, answer);
    var objects := AnswerObjects(p, s, answer);
    SimMacIsChecksum(p, s, s.ssc + objects);
    var mac := Checksum(p, s, s.ssc + objects);
    assert SimDo(DO_MAC, mac) == [0x8E, 0x08] + mac;
    assert objects + ([0x8E, 0x08] + mac) == objects + [0x8E, 0x08] + mac;
  }

  /** Whatever the chip wraps is within the Le that any protected command asks with. */
  lemma AnswerWithinLe(p: Primitives, s: Session, c: Command, outSize: nat, t: Session, answer: Response)
    requires Lawful(p) && Keyed(s) && Keyed(t) && Protect(p, s, c, outSize).1.Ok? && answer.sw <= 0xFFFF
    ensures
      var asked := Read7816(Protect(p, s, c, outSize).1.value);
      asked.Some? && |Wrap(p, t, answer).0| <= asked.value.le
  {
    hide Lawful, Read7816, Protect, SimMac, AnswerObjects;
    ProtectedInBytes(p, s, c, outSize);
  }

  lemma ObjectSize(tag: byte, value: Bytes)
    ensures |Object(tag, value)| == 1 + EncodedLengthSize(|value|) + |value|
  {
  }

  /** A response whose checksum is right is delivered as it was laid out. */
  lemma VerifiedIsDelivered(p: Primitives, s: Session, response: Bytes, outSize: nat, l: Layout)
    requires Lawful(p) && Keyed(s) && s.established && Inspect(response, BlockSize(s.suite), outSize) == Ok(l)
    requires l.covered <= |response| && Checksum(p, Step(s), Step(s).ssc + response[..l.covered]) == l.mac
    ensures Unprotect(p, s, response, outSize) == (Step(s), Deliver(p, Step(s), response, l))
  {
    hide Lawful, Inspect, Checksum, Deliver, Inc;
  }

  /** What is laid out as an answer's cryptogram and status word is delivered as that answer. */
  lemma LayoutDelivers(p: Primitives, t: Session, response: Bytes, l: Layout, x: Bytes, answer: Response)
    requires Lawful(p) && Keyed(t) && l.sw == answer.sw
    requires l.cipher.Some? ==>
      l.cipher.value.0 + l.cipher.value.1 <= |response| && Whole(l.cipher.value.1, BlockSize(t.suite))
      && x != [] && response[l.cipher.value.0..l.cipher.value.0 + l.cipher.value.1] == x[1..]
      && Unpad(Decrypt(p, t, x[1..])) == Some(answer.data)
    requires l.cipher.None? ==> answer.data == []
    ensures Deliver(p, t, response, l) == Ok(answer)
  {
    hide Lawful, Unpad, Decrypt, Whole;
  }

  /** The reader recovers the chip's answer from its envelope. */
  lemma UnprotectInvertsWrap(p: Primitives, s: Session, answer: Response, outSize: nat)
    requires Lawful(p) && Keyed(s) && s.established && AnswerFits(s, answer) && outSize >= APDU_MAX_SIZE
    ensures
      var t := Step(s);
      var (body, sw) := Wrap(p, t, answer);
      Unprotect(p, s, body + Be16(sw), outSize) == (t, Ok(answer))
  {
    hide Checksum, Encrypt, Decrypt, Pad, PaddedLen, Object, Inspect, Unpad, Wrap, AnswerObjects, Wrapped, Whole;
    hide SimMac, SimEncrypt, Unprotect, Deliver, Lawful;
    var t := Step(s);
    var x := Cryptogram(p, t, answer.data);
    var objects := AnswerObjects(p, t, answer);
    var mac := Checksum(p, t, t.ssc + objects);
    var (body, sw) := Wrap(p, t, answer);
    AnswerFitsIgnoresCounter(s, answer);
    WrapIsWrapped(p, t, answer);
    if answer.data != [] {
      FittingAnswerIsShort(t, answer);
      CryptogramOpens(p, t, answer.data);
    }
    InspectWrapped(x, Be16(answer.sw), mac, Be16(SW_OK), BlockSize(s.suite), outSize);
    ObjectSize(DO_MAC, mac);
    var response := body + Be16(sw);
    assert response[..|objects|] == body[..|objects|];
    var l := Inspect(response, BlockSize(s.suite), outSize).value;
    VerifiedIsDelivered(p, s, response, outSize, l);
    LayoutDelivers(p, t, response, l, x, answer);
  }

  lemma AnswerFitsIgnoresCounter(s: Session, answer: Response)
    ensures AnswerFits(Step(s), answer) == AnswerFits(s, answer)
  {
  }

  /** A command that can be protected, to a chip whose answer to it can be wrapped. */
  ghost predicate Exchangeable<A>(run: Application<A>, s: Session, app: A, c: Command) {
    && Carriable(c) && PayloadLen(s, c) <= PAYLOAD_MAX
    && AnswerFits(s, run(app, ViewOf(c)).1)
  }

  datatype Exchanged<A> = Exchanged(reader: Session, chip: Session, app: A, answer: Result<Response>)

  /** A command through Secure Messaging: protected, carried, handled, carried back, unprotected. */
  function ProtectedExchange<A>(p: Primitives, run: Application<A>, reader: Session, chip: Session, app: A, c: Command, outSize: nat)
    : Exchanged<A>
    requires Lawful(p) && Keyed(reader) && Keyed(chip)
  {
    var (r1, tx) := Protect(p, reader, c, outSize);
    match tx
    case Err(e) => Exchanged(r1, chip, app, Err(e))
    case Ok(wire) =>
      var (c1, app1, rx) := SimChip.Transceive(p, run, chip, app, wire);
      var (r2, answer) := Unprotect(p, r1, rx, outSize);
      Exchanged(r2, c1, app1, answer)
  }

  /**
   * One exchange through the envelope is the plain exchange: the same command run once, the same
   * answer, and both counters two steps on.
   */
  lemma ExchangeRefinesPlain<A>(p: Primitives, run: Application<A>, s: Session, app: A, c: Command, outSize: nat)
    requires Lawful(p) && Keyed(s) && s.established && outSize >= APDU_MAX_SIZE && Exchangeable(run, s, app, c)
    ensures
      var (app1, answer) := run(app, ViewOf(c));
      var t := s.(ssc := IncBy(s.ssc, 2));
      ProtectedExchange(p, run, s, s, app, c, outSize) == Exchanged(t, t, app1, Ok(answer))
  {
    hide Envelope, Unwrap, Wrap, Unprotect, PayloadLen, Encode, ParseCommand, Inc, AnswerFits, ClearSm, SetSm;
    var s1 := Step(s);
    ProtectAllOrNothing(p, s, c, outSize);
    LengthsIgnoreCounter(s, c);
    WireReachesChip(p, s1, c, outSize);
    UnwrapInvertsEnvelope(p, s1, c);
    var (app1, answer) := run(app, ViewOf(c));
    AnswerFitsIgnoresCounter(s, answer);
    assert answer.sw <= 0xFFFF by { FitsBoundsStatus(s, answer); }
    UnprotectInvertsWrap(p, s1, answer, outSize);
    assert Step(s1) == s.(ssc := IncBy(s.ssc, 2)) by { TwoSteps(s.ssc); }
    WrapIsOk(p, Step(s1), answer);
  }

  lemma FitsBoundsStatus(s: Session, answer: Response)
    requires AnswerFits(s, answer)
    ensures answer.sw <= 0xFFFF
  {
  }

  lemma WrapIsOk(p: Primitives, s: Session, answer: Response)
    requires Lawful(p) && Keyed(s) && answer.sw <= 0xFFFF
    ensures Wrap(p, s, answer).1 == SW_OK || Wrap(p, s, answer).1 == SW_WRONG_LENGTH
  {
  }

  lemma TwoSteps(ssc: Bytes)
    ensures IncBy(ssc, 2) == Inc(Inc(ssc))
  {
    assert IncBy(ssc, 1) == Inc(IncBy(ssc, 0));
  }

  /** The chip's parser takes the serialised envelope apart, and sees its class byte. */
  lemma WireReachesChip(p: Primitives, s: Session, c: Command, outSize: nat)
    requires Lawful(p) && Keyed(s) && Carriable(c) && PayloadLen(s, c) <= PAYLOAD_MAX && outSize >= APDU_MAX_SIZE
    ensures
      var e := Envelope(p, s, c);
      && Encode(e, outSize).Ok?
      && ParseCommand(Encode(e, outSize).value) == Some(ViewOf(e))
      && e.cla / 4 % 4 != 0
  {
    hide Checksum, Objects, PayloadLen, ParseCommand, Encode, ViewOf, SetSm;
    EnvelopeLength(p, s, c);
    ClassBits(c.cla);
    var e := Envelope(p, s, c);
    EncodeRoundTrip(e, outSize);
    ParseReadsShortCommands(e, outSize);
  }

  // ---- A whole session ---------------------------------------------------------------------

  /** Commands given to the chip in the clear, one after another. */
  function PlainRun<A>(run: Application<A>, app: A, commands: seq<Command>): (A, seq<Response>)
    requires forall c :: c in commands ==> LeValid(c.le)
  {
    if commands == [] then (app, [])
    else
      var k := |commands| - 1;
      var (app1, answers) := PlainRun(run, app, commands[..k]);
      var (app2, answer) := run(app1, ViewOf(commands[k]));
      (app2, answers + [answer])
  }

  datatype Ran<A> = Ran(reader: Session, chip: Session, app: A, answers: seq<Response>, failed: bool)

  /** The same commands through Secure Messaging, up to the first that fails. */
  function ProtectedRun<A>(p: Primitives, run: Application<A>, s: Session, app: A, commands: seq<Command>, outSize: nat): (r: Ran<A>)
    requires Lawful(p) && Keyed(s)
    ensures Keyed(r.reader) && Keyed(r.chip)
  {
    if commands == [] then Ran(s, s, app, [], false)
    else
      var k := |commands| - 1;
      var r := ProtectedRun(p, run, s, app, commands[..k], outSize);
      if r.failed then r
      else
        var x := ProtectedExchange(p, run, r.reader, r.chip, r.app, commands[k], outSize);
        ExchangeKeepsKeys(p, run, r.reader, r.chip, r.app, commands[k], outSize);
        if x.answer.Err? then Ran(x.reader, x.chip, x.app, r.answers, true)
        else Ran(x.reader, x.chip, x.app, r.answers + [x.answer.value], false)
  }

  lemma ExchangeKeepsKeys<A>(p: Primitives, run: Application<A>, reader: Session, chip: Session, app: A, c: Command, outSize: nat)
    requires Lawful(p) && Keyed(reader) && Keyed(chip)
    ensures
      var x := ProtectedExchange(p, run, reader, chip, app, c, outSize);
      && Keyed(x.reader) && x.reader == reader.(ssc := x.reader.ssc)
      && Keyed(x.chip) && x.chip == chip.(ssc := x.chip.ssc)
  {
    hide Inspect, Checksum, Decrypt, Unpad, Unwrap, Wrap, ParseCommand, Refusal, Envelope, Encode, Inc;
  }

  /** Every command fits its envelope, and so does the answer it gets when its turn comes. */
  ghost predicate RunExchangeable<A>(run: Application<A>, s: Session, app: A, commands: seq<Command>) {
    && (forall c :: c in commands ==> LeValid(c.le))
    && forall k :: 0 <= k < |commands| ==> Exchangeable(run, s, PlainRun(run, app, commands[..k]).0, commands[k])
  }

  lemma EarlierRunExchangeable<A>(run: Application<A>, s: Session, app: A, commands: seq<Command>)
    requires commands != [] && RunExchangeable(run, s, app, commands)
    ensures
      var n := |commands| - 1;
      && RunExchangeable(run, s, app, commands[..n])
      && Exchangeable(run, s, PlainRun(run, app, commands[..n]).0, commands[n])
  {
    hide PlainRun, Exchangeable, LeValid;
    var n := |commands| - 1;
    var earlier := commands[..n];
    forall k | 0 <= k < n
      ensures Exchangeable(run, s, PlainRun(run, app, earlier[..k]).0, earlier[k])
    {
      assert commands[..k] == earlier[..k];
    }
  }

  lemma {:induction false} RunRefinesPlain<A>(p: Primitives, run: Application<A>, s: Session, app: A, commands: seq<Command>, outSize: nat)
    requires Lawful(p) && Keyed(s) && s.established && outSize >= APDU_MAX_SIZE
    requires RunExchangeable(run, s, app, commands)
    ensures
      var t := s.(ssc := IncBy(s.ssc, 2 * |commands|));
      var (app1, answers) := PlainRun(run, app, commands);
      ProtectedRun(p, run, s, app, commands, outSize) == Ran(t, t, app1, answers, false)
    decreases |commands|
  {
    hide ProtectedExchange, Inc, IncBy, Exchangeable, LeValid, RunExchangeable, Lawful;
    NoSteps(s.ssc);
    assert forall c :: c in commands ==> LeValid(c.le) by { RunHasValidLe(run, s, app, commands); }
    if commands != [] {
      var n := |commands| - 1;
      EarlierRunExchangeable(run, s, app, commands);
      RunRefinesPlain(p, run, s, app, commands[..n], outSize);
      var t := s.(ssc := IncBy(s.ssc, 2 * n));
      var app1 := PlainRun(run, app, commands[..n]).0;
      ExchangeableIgnoresCounter(run, s, t.ssc, app1, commands[n]);
      ExchangeRefinesPlain(p, run, t, app1, commands[n], outSize);
      IncByCompose(s.ssc, 2 * n, 2);
    }
  }

  lemma NoSteps(ssc: Bytes)
    ensures IncBy(ssc, 0) == ssc
  {
  }

  lemma RunHasValidLe<A>(run: Application<A>, s: Session, app: A, commands: seq<Command>)
    requires RunExchangeable(run, s, app, commands)
    ensures forall c :: c in commands ==> LeValid(c.le)
  {
  }

  /**
   * Secure Messaging refines plain messaging over any number of commands: the chip ends in the
   * state, and the caller with the answers, that the commands in the clear would have given; and
   * after n of them each counter is its start plus 2n modulo 256 to the width of the block.
   */
  lemma SessionRefinesPlain<A>(p: Primitives, run: Application<A>, s: Session, app: A, commands: seq<Command>, outSize: nat)
    requires Lawful(p) && Keyed(s) && s.established && outSize >= APDU_MAX_SIZE
    requires RunExchangeable(run, s, app, commands)
    ensures forall c :: c in commands ==> LeValid(c.le)
    ensures
      var r := ProtectedRun(p, run, s, app, commands, outSize);
      && !r.failed && (r.app, r.answers) == PlainRun(run, app, commands)
      && r.reader == r.chip
      && BeValue(r.reader.ssc) == (BeValue(s.ssc) + 2 * |commands|) % Pow256(BlockSize(s.suite))
  {
    hide ProtectedRun, PlainRun, RunExchangeable, LeValid, BeValue, Pow256, IncBy;
    RunHasValidLe(run, s, app, commands);
    RunRefinesPlain(p, run, s, app, commands, outSize);
    IncByAdds(s.ssc, 2 * |commands|);
  }

  lemma ExchangeableIgnoresCounter<A>(run: Application<A>, s: Session, ssc: Bytes, app: A, c: Command)
    ensures Exchangeable(run, s.(ssc := ssc), app, c) == Exchangeable(run, s, app, c)
  {
  }
}
