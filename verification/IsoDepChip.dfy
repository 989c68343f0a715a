/**
 * The card half of the protocol, rules C to E and 9 to 13 of ISO/IEC 14443-4, on a wire that may
 * lose a frame before the card sees it or lose the answer after the card has acted.
 */
module IsoDepChip {
  import opened Bytes
  import opened Errors
  import opened IsoDepBlocks

  const APDU_MAX := 1024

  /** One block of an answer, and how many times the card asks for more time before sending it. */
  datatype Piece = Piece(inf: Bytes, wtx: nat)

  datatype Reply = Reply(pieces: seq<Piece>, wtxm: byte)

  datatype Fate = Delivered | Dropped | AnswerLost(damaged: bool)

  /**
   * What is fixed about a card: its ATS, what it answers to a command given everything it has run
   * before, and what becomes of the n-th frame put on the wire to it.
   */
  datatype Env = Env(ats: Bytes, app: seq<Bytes> -> Reply, fate: nat -> Fate)

  /** The card answers every command with at least one block and asks with a legal multiplier. */
  ghost predicate RuleFollowing(env: Env) {
    forall log: seq<Bytes> :: |env.app(log).pieces| >= 1 && 1 <= env.app(log).wtxm <= 0x3F
  }

  datatype ChipState = ChipState(
    activated: bool,
    number: bit,
    last: Bytes,          // the block rule 11 has the card send again
    command: Bytes,       // the command, as far as it has been reassembled
    executed: seq<Bytes>, // every command run, in order
    reply: Reply,
    sent: nat,            // blocks of the reply already sent
    wtxPending: nat,
    tick: nat             // frames the reader has put on the wire
  )

  /** Put a block on the wire and remember it. */
  function Put(s: ChipState, block: Bytes): (ChipState, Answer) {
    if |block| > FRAME_MAX then (s, Failed(BufferTooSmall))
    else (s.(last := block), Frame(block))
  }

  function AskWtx(s: ChipState): (ChipState, Answer) {
    Put(s, [PCB_S_WTX, s.reply.wtxm])
  }

  /** The next block of the answer, chained unless it is the last. */
  function AnswerBlock(s: ChipState): Bytes {
    [IPcb(s.number, s.sent + 1 < |s.reply.pieces|)] +
    if s.sent < |s.reply.pieces| then s.reply.pieces[s.sent].inf else []
  }

  function SendAnswer(s: ChipState): (ChipState, Answer) {
    Put(if s.sent < |s.reply.pieces| then s.(sent := s.sent + 1) else s, AnswerBlock(s))
  }

  /** Begin the next block of the answer, asking for time first if the card needs it. */
  function BeginPiece(s: ChipState): (ChipState, Answer) {
    var s1 := s.(wtxPending := if s.sent < |s.reply.pieces| then s.reply.pieces[s.sent].wtx else 0);
    if s1.wtxPending > 0 then AskWtx(s1) else SendAnswer(s1)
  }

  predicate IsRats(tx: Bytes) { |tx| > 0 && tx[0] == CMD_RATS }

  predicate IsDeselect(tx: Bytes) { |tx| > 0 && And(tx[0], 0xF7) == PCB_S_DESELECT }

  /** S(WTX): the reader granting the time that was asked for. */
  function ReactGrant(s: ChipState, tx: Bytes): (ChipState, Answer)
    requires |tx| > 0
  {
    if |tx| < 2 || And(tx[1], 0x3F) != s.reply.wtxm then (s, Failed(Protocol))
    else
      var s1 := s.(wtxPending := if s.wtxPending > 0 then s.wtxPending - 1 else 0);
      if s1.wtxPending > 0 then AskWtx(s1) else SendAnswer(s1)
  }

  /** R-blocks: rule 11 repeats, rule 12 denies, rules E and 13 carry on with the chain. */
  function ReactR(s: ChipState, pcb: byte): (ChipState, Answer) {
    if BlockNumber(pcb) == s.number then Put(s, s.last)
    else if IsRNak(pcb) then Put(s, [RAck(s.number)])
    else if s.sent == 0 || s.sent >= |s.reply.pieces| then (s, Failed(CardLost))
    else BeginPiece(s.(number := Flip(s.number)))
  }

  /** I-blocks: rule D toggles and takes whatever arrives; the last block of a chain is executed. */
  function ReactI(env: Env, s: ChipState, tx: Bytes): (ChipState, Answer)
    requires |tx| > 0
  {
    var s1 := s.(number := Flip(s.number));
    if |s.command| + |tx| - 1 > APDU_MAX then (s1, Failed(BufferTooSmall))
    else
      var s2 := s1.(command := s.command + tx[1..]);
      if IsChained(tx[0]) then Put(s2, [RAck(s2.number)])
      else
        var log := s.executed + [s2.command];
        BeginPiece(s2.(command := [], executed := log, reply := env.app(log), sent := 0))
  }

  /** What the card does with a frame that reaches it. */
  function React(env: Env, s: ChipState, tx: Bytes): (ChipState, Answer) {
    if |tx| == 0 then (s, Failed(InvalidInput))
    else if IsRats(tx) then
      if |env.ats| > FRAME_MAX then (s, Failed(BufferTooSmall))
      else (s.(activated := true, number := 1), Frame(env.ats))
    else if !s.activated then (s, Failed(CardLost))
    else if IsDeselect(tx) then (s.(activated := false), Frame([PCB_S_DESELECT]))
    else if And(tx[0], 0xF7) == PCB_S_WTX then ReactGrant(s, tx)
    else if IsRBlock(tx[0]) then ReactR(s, tx[0])
    else if IsIBlock(tx[0]) then ReactI(env, s, tx)
    else (s, Failed(Protocol))
  }

  /** An answer the wire loses: a frame that never came, or one that arrived damaged. */
  function Through(fate: Fate, a: Answer): Answer {
    if fate.AnswerLost? && a.Frame? then Failed(if fate.damaged then Transport else CardLost) else a
  }

  /** The card behind the lossy wire, as the reader's frame function sees it. */
  function ChipFrame(env: Env, s: ChipState, tx: Bytes): (ChipState, Answer) {
    var fate := env.fate(s.tick);
    if fate.Dropped? then (s.(tick := s.tick + 1), Failed(CardLost))
    else
      var (s1, a) := React(env, s, tx);
      (s1.(tick := s.tick + 1), if IsRats(tx) || IsDeselect(tx) then a else Through(fate, a))
  }

  function Behaviour(env: Env): Card<ChipState> {
    (s: ChipState, tx: Bytes) => ChipFrame(env, s, tx)
  }

  /** The card as an object whose fields change frame by frame, computing ChipFrame. */
  class Chip {
    const env: Env
    var activated: bool
    var blockNumber: bit
    var lastBlock: Bytes
    var command: Bytes
    var executed: seq<Bytes>
    var reply: Reply
    var sent: nat
    var wtxPending: nat
    var frames: nat

    function State(): ChipState
      reads this
    {
      ChipState(activated, blockNumber, lastBlock, command, executed, reply, sent, wtxPending, frames)
    }

    constructor (env: Env)
      ensures this.env == env && !activated && executed == [] && command == [] && frames == 0
    {
      this.env := env;
      activated, blockNumber, lastBlock, command, executed := false, 0, [], [], [];
      reply, sent, wtxPending, frames := Reply([], 1), 0, 0, 0;
    }

    method Send(block: Bytes, fate: Fate) returns (answer: Answer)
      modifies this
      ensures var (s, a) := Put(old(State()), block); State() == s && answer == Through(fate, a)
    {
      if |block| > FRAME_MAX {
        return Failed(BufferTooSmall);
      }
      lastBlock := block;
      if fate.AnswerLost? {
        return Failed(if fate.damaged then Transport else CardLost);
      }
      answer := Frame(block);
    }

    method Answer(fate: Fate) returns (answer: Answer)
      modifies this
      ensures var (s, a) := SendAnswer(old(State())); State() == s && answer == Through(fate, a)
    {
      var block := AnswerBlock(State());
      if sent < |reply.pieces| {
        sent := sent + 1;
      }
      answer := Send(block, fate);
    }

    method Begin(fate: Fate) returns (answer: Answer)
      modifies this
      ensures var (s, a) := BeginPiece(old(State())); State() == s && answer == Through(fate, a)
    {
      wtxPending := if sent < |reply.pieces| then reply.pieces[sent].wtx else 0;
      if wtxPending > 0 {
        answer := Send([PCB_S_WTX, reply.wtxm], fate);
      } else {
        answer := Answer(fate);
      }
    }

    method HandleGrant(tx: Bytes, fate: Fate) returns (answer: Answer)
      requires |tx| > 0
      modifies this
      ensures var (s, a) := ReactGrant(old(State()), tx); State() == s && answer == Through(fate, a)
    {
      if |tx| < 2 || And(tx[1], 0x3F) != reply.wtxm {
        return Failed(Protocol);
      }
      if wtxPending > 0 {
        wtxPending := wtxPending - 1;
      }
      if wtxPending > 0 {
        answer := Send([PCB_S_WTX, reply.wtxm], fate);
      } else {
        answer := Answer(fate);
      }
    }

    method HandleR(pcb: byte, fate: Fate) returns (answer: Answer)
      modifies this
      ensures var (s, a) := ReactR(old(State()), pcb); State() == s && answer == Through(fate, a)
    {
      if BlockNumber(pcb) == blockNumber {
        answer := Send(lastBlock, fate);
      } else if IsRNak(pcb) {
        answer := Send([RAck(blockNumber)], fate);
      } else if sent == 0 || sent >= |reply.pieces| {
        answer := Failed(CardLost);
      } else {
        blockNumber := Flip(blockNumber);
        answer := Begin(fate);
      }
    }

    method HandleI(tx: Bytes, fate: Fate) returns (answer: Answer)
      requires |tx| > 0
      modifies this
      ensures var (s, a) := ReactI(env, old(State()), tx); State() == s && answer == Through(fate, a)
    {
      blockNumber := Flip(blockNumber);
      if |command| + |tx| - 1 > APDU_MAX {
        return Failed(BufferTooSmall);
      }
      command := command + tx[1..];
      if IsChained(tx[0]) {
        answer := Send([RAck(blockNumber)], fate);
      } else {
        executed := executed + [command];
        command, reply, sent := [], env.app(executed), 0;
        answer := Begin(fate);
      }
    }

    /** One frame from the reader, and what the reader hears. */
    method ReceiveFrame(tx: Bytes) returns (answer: Answer)
      modifies this
      ensures (State(), answer) == ChipFrame(env, old(State()), tx)
    {
      hide And, IsRBlock, IsIBlock, ReactGrant, ReactR, ReactI;
      var frame := frames;
      var fate := env.fate(frame);
      if fate.Dropped? {
        answer := Failed(CardLost);
      } else if |tx| == 0 {
        answer := Failed(InvalidInput);
      } else if tx[0] == CMD_RATS {
        if |env.ats| > FRAME_MAX {
          answer := Failed(BufferTooSmall);
        } else {
          activated, blockNumber := true, 1;
          answer := Frame(env.ats);
        }
      } else if !activated {
        answer := Failed(CardLost);
      } else if IsDeselect(tx) {
        activated := false;
        answer := Frame([PCB_S_DESELECT]);
      } else if And(tx[0], 0xF7) == PCB_S_WTX {
        answer := HandleGrant(tx, fate);
      } else if IsRBlock(tx[0]) {
        answer := HandleR(tx[0], fate);
      } else if IsIBlock(tx[0]) {
        answer := HandleI(tx, fate);
      } else {
        answer := Failed(Protocol);
      }
      frames := frame + 1;
    }
  }
}
