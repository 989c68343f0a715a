/**
 * Every command that the reader builds, in the bytes that leave it, as ICAO Doc 9303 part 10 section 3.6 and
 * part 11 sections 4.3 and 4.4 print them.
 */
module CommandBytes {
  import opened Bytes
  import opened Errors
  import opened Tlv
  import opened Apdu
  import opened SecureMessaging
  import opened OneFile
  import opened CardAccess
  import opened ReadRun
  import Bac
  import Pace

  /** The APDU of a command. */
  function Sent(c: Command): Bytes {
    match Encode(c, APDU_MAX_SIZE)
    case Err(_) => []
    case Ok(apdu) => apdu
  }

  lemma SentShort(c: Command)
    requires LeValid(c.le) && |c.data| <= 200 && c.le <= 256
    ensures Sent(c) == [c.cla, c.ins, c.p1, c.p2] + (if c.data == [] then [] else [|c.data|] + c.data)
                       + if c.le < 0 then [] else [c.le % 256]
  {
    EncodeRoundTrip(c, APDU_MAX_SIZE);
  }

  // ---- Selecting ---------------------------------------------------------------------------

  lemma SelectApplicationSent()
    ensures Sent(SelectApplication())
            == [0x00, 0xA4, 0x04, 0x0C, 0x07, 0xA0, 0x00, 0x00, 0x02, 0x47, 0x10, 0x01]
  {
    SentShort(SelectApplication());
  }

  lemma SelectCardAccessSent()
    ensures Sent(SelectCardAccess()) == [0x00, 0xA4, 0x02, 0x0C, 0x02, 0x01, 0x1C]
  {
    SentShort(SelectCardAccess());
  }

  /** EF.COM is 011E, EF.SOD is 011D, and data group n is 0100 + n. */
  lemma SelectFileSent(id: nat)
    requires id < 18
    ensures Sent(SelectFile(id))
            == [0x00, 0xA4, 0x02, 0x0C, 0x02, 0x01, if id == 0 then 0x1E else if id == 1 then 0x1D else id - 1]
    ensures DgNumber(id) == if id < 2 then -1 else id - 1
    ensures EacProtected(id) <==> DgNumber(id) == 3 || DgNumber(id) == 4
  {
    SentShort(SelectFile(id));
  }

  // ---- Reading -----------------------------------------------------------------------------

  /** The offset of a READ BINARY is in P1 and P2 as far as 15 bits go, and in a data object '54' beyond. */
  lemma ReadBinarySent(offset: nat, length: nat)
    requires 1 <= length <= 256
    ensures offset < 0x8000 ==>
      Sent(ReadBinary(offset, length)) == [0x00, 0xB0, offset / 256, offset % 256, length % 256]
    ensures offset < 0x1_0000 ==>
      Sent(ReadBinaryOdd(offset, length))
      == [0x00, 0xB1, 0x00, 0x00, 0x04, 0x54, 0x02, offset / 256, offset % 256, length % 256]
  {
    SentShort(ReadBinary(offset, length));
    if offset < 0x1_0000 {
      SentShort(ReadBinaryOdd(offset, length));
    }
  }

  // ---- Opening the chip --------------------------------------------------------------------

  lemma BacSent(payload: Bytes)
    requires |payload| == 40
    ensures Sent(Bac.GET_CHALLENGE) == [0x00, 0x84, 0x00, 0x00, 0x08]
    ensures Sent(Bac.ExternalAuthenticateApdu(payload)) == [0x00, 0x82, 0x00, 0x00, 0x28] + payload + [0x28]
  {
    hide Sent;
    SentShort(Bac.GET_CHALLENGE);
    SentShort(Bac.ExternalAuthenticateApdu(payload));
  }

  /** MSE:Set AT names the protocol by its identifier, and the password by 02 for the CAN and 01 for the zone. */
  lemma SetAtSent<G>(i: Pace.Info<G>)
    requires 1 <= |i.oid| <= 16
    ensures Sent(Pace.SetAtApdu(i))
            == [0x00, 0x22, 0xC1, 0xA4, 5 + |i.oid|, 0x80, |i.oid|] + i.oid + [0x83, 0x01, if i.can then 0x02 else 0x01]
  {
    SentShort(Pace.SetAtApdu(i));
  }

  lemma DynamicIs(tag: byte, value: Bytes)
    requires |value| <= 120
    ensures Pace.Dynamic(None) == [0x7C, 0x00]
    ensures Pace.Dynamic(Some((tag, value))) == [0x7C, 2 + |value|, tag, |value|] + value
  {
  }

  /**
   * GENERAL AUTHENTICATE: nothing inside 7C in the first round, one object in the others, and 10 in the class
   * byte of all but the last.
   */
  lemma GeneralAuthenticateSent(tag: byte, value: Bytes, chaining: bool)
    requires |value| <= 120
    ensures Sent(Pace.RoundApdu(None, chaining))
            == [if chaining then 0x10 else 0x00, 0x86, 0x00, 0x00, 0x02, 0x7C, 0x00, 0x00]
    ensures Sent(Pace.RoundApdu(Some((tag, value)), chaining))
            == [if chaining then 0x10 else 0x00, 0x86, 0x00, 0x00, 4 + |value|]
               + ([0x7C, 2 + |value|, tag, |value|] + value) + [0x00]
  {
    hide Sent, Pace.Dynamic;
    DynamicIs(tag, value);
    SentShort(Pace.RoundApdu(None, chaining));
    SentShort(Pace.RoundApdu(Some((tag, value)), chaining));
  }
}
