/**
 * The flashing protocol: the host's responses to replies, and the firmware's
 * command loop as a machine driven by one received byte at a time.
 */
module FlashProtocol {
  import opened Bits
  import opened IsspTarget
  import opened IsspOperations

  // Characters of the protocol.
  const NL: Byte := 0x0A
  const PLUS: Byte := 0x2B
  const ZERO: Byte := 0x30
  const ONE: Byte := 0x31
  const TWO: Byte := 0x32
  const INIT: Byte := 0x61
  const ERASE: Byte := 0x62
  const PROGRAM: Byte := 0x63
  const VERIFY: Byte := 0x64
  const SECURE: Byte := 0x65
  const VERIFY_SECURITY: Byte := 0x66
  const CHECK: Byte := 0x67
  const RESTART: Byte := 0x78
  const QUIT: Byte := 0x7A

  predicate IsCommand(c: Byte) {
    0x61 <= c <= 0x7A
  }

  function Reply(cmd: Byte, arg: Byte): (r: seq<Byte>)
    ensures |r| == 4
  {
    [cmd, NL, arg, NL]
  }

  // ---------------------------------------------------------------- firmware

  /** What the command loop is waiting for. */
  datatype Pc = Command | Terminator(cmd: Byte) | Data(cmd: Byte) | Halted

  datatype Firmware = Firmware(pc: Pc, blockNum: nat, checksum: Word, buf: seq<Byte>, chip: Chip)

  predicate FirmwareOk(f: Firmware) {
    |f.chip.shift| < FRAME && (f.pc.Data? ==> |f.buf| < BLOCK_SIZE && f.blockNum < BLOCKS)
  }

  datatype Reaction = Reaction(fw: Firmware, reply: seq<Byte>)

  ghost function Answer(f: Firmware, o: Outcome, cmd: Byte): Reaction {
    Reaction(f.(pc := Command, chip := o.chip), Reply(cmd, if o.failed then ONE else ZERO))
  }

  /** A complete command line has arrived. */
  ghost function Dispatch(w: World, f: Firmware, cmd: Byte): Reaction {
    var idle := f.(pc := Command);
    match cmd
    case 0x61 =>
      var o := InitializeOutcome(w, f.chip);
      if o.failed then Answer(f, o, cmd) else
      var i := SiliconIdOutcome(w, o.chip);
      Reaction(idle.(chip := i.chip), Reply(cmd, if i.failed then TWO else ZERO))
    case 0x62 => Answer(f, EraseOutcome(w, f.chip), cmd)
    case 0x63 => Reaction(f.(pc := Data(cmd), blockNum := 0, checksum := 0, buf := []), [])
    case 0x64 => Reaction(f.(pc := Data(cmd), blockNum := 0, buf := []), [])
    case 0x65 => Reaction(f.(pc := Data(cmd), blockNum := 0, buf := []), [])
    case 0x66 => Reaction(f.(pc := Data(cmd), blockNum := 0, buf := []), [])
    case 0x67 =>
      var o := ChecksumOutcome(w, f.chip);
      Reaction(idle.(chip := o.chip),
               Reply(cmd, if o.failed then ONE else if Result(o.chip) != f.checksum then TWO else ZERO))
    case 0x78 => Reaction(idle.(chip := Reset(w, f.chip)), Reply(cmd, ZERO))
    case 0x7A => Reaction(f.(pc := Halted), [])
    case _ => Reaction(idle, [])
  }

  /** The reply to block k of a programming or verifying run, and what is awaited next. */
  ghost function NextBlock(f: Firmware, o: Outcome, cmd: Byte): Reaction {
    if o.failed then Answer(f, o, cmd)
    else if f.blockNum < BLOCKS - 1 then
      Reaction(f.(pc := Data(cmd), blockNum := f.blockNum + 1, buf := [], chip := o.chip), Reply(cmd, PLUS))
    else Reaction(f.(pc := Command, blockNum := f.blockNum + 1, chip := o.chip), Reply(cmd, ZERO))
  }

  /** The running 16-bit sum of the blocks programmed so far. */
  function Accumulate(f: Firmware, data: seq<Byte>): Firmware {
    f.(checksum := (f.checksum + Sum(data) % 0x10000) % 0x10000)
  }

  /** All 64 bytes of a block have arrived. */
  ghost function Block(w: World, f: Firmware, cmd: Byte, data: seq<Byte>): Reaction
    requires |data| == BLOCK_SIZE && f.blockNum < BLOCKS
  {
    match cmd
    case 0x63 =>
      NextBlock(Accumulate(f, data), LoadAndProgram(w, f.chip, f.blockNum, data), cmd)
    case 0x64 => NextBlock(f, VerifyOutcome(w, f.chip, f.blockNum as Byte, data), cmd)
    case 0x65 => Answer(f, SecurityFlashOutcome(w, f.chip, data), cmd)
    case _ => Answer(f, SecurityVerifyOutcome(w, f.chip, data), cmd)
  }

  /** One byte is read from the serial input queue. */
  ghost function Receive(w: World, f: Firmware, b: Byte): Reaction
    requires FirmwareOk(f)
  {
    match f.pc
    case Command => Reaction(f.(pc := Terminator(b)), [])
    case Terminator(cmd) =>
      if IsCommand(cmd) && b == NL then Dispatch(w, f, cmd) else Reaction(f.(pc := Command), [])
    case Data(cmd) =>
      var data := f.buf + [b];
      if |data| < BLOCK_SIZE then Reaction(f.(buf := data), []) else Block(w, f.(buf := data), cmd, data)
    case Halted => Reaction(f, [])
  }

  lemma DispatchOk(w: World, f: Firmware, cmd: Byte)
    requires |f.chip.shift| < FRAME
    ensures FirmwareOk(Dispatch(w, f, cmd).fw)
  {
    match cmd
    case 0x61 =>
      OtherOperationsAlign(w, f.chip, Zeroes());
      OtherOperationsAlign(w, InitializeOutcome(w, f.chip).chip, Zeroes());
    case 0x62 => HandshakeAligns(w, f.chip, VectorBits(ERASE_ALL, 308) + [false]);
    case 0x67 => HandshakeAligns(w, f.chip, ChecksumSequence());
    case _ =>
  }

  /** The chip after a block has been loaded and programmed. */
  ghost function LoadAndProgram(w: World, c: Chip, k: nat, data: seq<Byte>): Outcome
    requires |data| == BLOCK_SIZE && k < BLOCKS
  {
    ProgramOutcome(w, Feed(w, c, LoadBits(data, BLOCK_SIZE)), k as Byte)
  }

  lemma LoadAndProgramOk(w: World, c: Chip, k: nat, data: seq<Byte>)
    requires |c.shift| < FRAME && |data| == BLOCK_SIZE && k < BLOCKS
    ensures |LoadAndProgram(w, c, k, data).chip.shift| < FRAME
  {
    FeedKeepsShiftShort(w, c, LoadBits(data, BLOCK_SIZE));
    HandshakeAligns(w, Feed(w, c, LoadBits(data, BLOCK_SIZE)), ProgramSequence(k as Byte));
  }

  lemma NextBlockOk(f: Firmware, o: Outcome, cmd: Byte)
    requires |o.chip.shift| < FRAME && f.blockNum < BLOCKS
    ensures FirmwareOk(NextBlock(f, o, cmd).fw)
  {
  }

  lemma BlockOk(w: World, f: Firmware, cmd: Byte, data: seq<Byte>)
    requires |f.chip.shift| < FRAME && |data| == BLOCK_SIZE && f.blockNum < BLOCKS
    ensures FirmwareOk(Block(w, f, cmd, data).fw)
  {
    match cmd
    case 0x63 =>
      LoadAndProgramOk(w, f.chip, f.blockNum, data);
      NextBlockOk(Accumulate(f, data), LoadAndProgram(w, f.chip, f.blockNum, data), cmd);
    case 0x64 =>
      HandshakeAligns(w, f.chip, VerifySequence(f.blockNum as Byte));
      NextBlockOk(f, VerifyOutcome(w, f.chip, f.blockNum as Byte, data), cmd);
    case _ => OtherOperationsAlign(w, f.chip, data);
  }

  /** The shift register of the target stays short and the block number in range, whatever arrives. */
  lemma ReceiveOk(w: World, f: Firmware, b: Byte)
    requires FirmwareOk(f)
    ensures FirmwareOk(Receive(w, f, b).fw)
  {
    match f.pc
    case Terminator(cmd) => DispatchOk(w, f, cmd);
    case Data(cmd) =>
      var data := f.buf + [b];
      if |data| == BLOCK_SIZE {
        BlockOk(w, f.(buf := data), cmd, data);
      }
    case _ =>
  }

  function Zeroes(): (z: seq<Byte>)
    ensures |z| == BLOCK_SIZE
  {
    seq(64, i => 0)
  }

  /** All replies to a string of received bytes. */
  ghost function Respond(w: World, f: Firmware, input: seq<Byte>): (r: Reaction)
    requires FirmwareOk(f)
    ensures FirmwareOk(r.fw)
  {
    if input == [] then Reaction(f, []) else
    var r := Respond(w, f, input[..|input| - 1]);
    var s := Receive(w, r.fw, input[|input| - 1]);
    ReceiveOk(w, r.fw, input[|input| - 1]);
    Reaction(s.fw, r.reply + s.reply)
  }
}
