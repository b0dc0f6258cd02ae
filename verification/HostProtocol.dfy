/**
 * The host application: its serial thread, which frames replies, and its window,
 * which answers each reply with the next request.
 */
module HostProtocol {
  import opened Bits
  import opened IsspTarget
  import opened FlashProtocol

  /** The image to be flashed, as loaded from a file. */
  datatype Image = Image(program: seq<seq<Byte>>, security: seq<Byte>)

  predicate ImageOk(m: Image) {
    |m.program| == BLOCKS && |m.security| == BLOCK_SIZE && forall k | 0 <= k < BLOCKS :: |m.program[k]| == BLOCK_SIZE
  }

  /** What the window writes in answer to a message, and its block counter afterwards. */
  datatype Next = Next(request: seq<Byte>, blockCntr: nat)

  /** What the serial thread emits is never shorter than a reply. */
  type Message = msg: seq<Byte> | |msg| >= 4 witness [0, 0, 0, 0]

  predicate Succeeded(msg: Message) {
    msg[2] == ZERO && msg[3] == NL
  }

  predicate Continues(msg: Message) {
    msg[2] == PLUS && msg[3] == NL
  }

  /** Only the first four bytes of a message are looked at. */
  function React(m: Image, blockCntr: nat, msg: Message): Next
    requires ImageOk(m)
  {
    var quiet := Next([], blockCntr);
    if !IsCommand(msg[0]) || msg[1] != NL then quiet
    else match msg[0]
      case 0x61 => if Succeeded(msg) then Next([ERASE, NL], blockCntr) else quiet
      case 0x62 => if Succeeded(msg) then Next([PROGRAM, NL] + m.program[0], 1) else quiet
      case 0x63 =>
        if Continues(msg) && blockCntr < BLOCKS then Next(m.program[blockCntr], blockCntr + 1)
        else if Succeeded(msg) then Next([VERIFY, NL] + m.program[0], 1)
        else quiet
      case 0x64 =>
        if Continues(msg) && blockCntr < BLOCKS then Next(m.program[blockCntr], blockCntr + 1)
        else if Succeeded(msg) then Next([SECURE, NL] + m.security, blockCntr)
        else quiet
      case 0x65 => if Succeeded(msg) then Next([VERIFY_SECURITY, NL] + m.security, blockCntr) else quiet
      case 0x66 => if Succeeded(msg) then Next([CHECK, NL], blockCntr) else quiet
      case 0x67 => if Succeeded(msg) then Next([RESTART, NL], blockCntr) else quiet
      case _ => quiet
  }

  /**
   * The messages emitted for a receive buffer. The message is not cleared between
   * emissions, so the i-th one is the whole of the first 4 * (i + 1) bytes.
   */
  function Emissions(buf: seq<Byte>): seq<Message> {
    seq(|buf| / 4, i requires 0 <= i < |buf| / 4 => buf[..4 * (i + 1)])
  }

  /** Every buffered reply reaches the window as it was sent exactly when no two are buffered at once. */
  lemma EmissionsAreReplies(buf: seq<Byte>)
    ensures (forall i | 0 <= i < |buf| / 4 :: Emissions(buf)[i] == buf[4 * i..4 * i + 4]) <==> |buf| < 8
  {
    if |buf| >= 8 {
      assert |Emissions(buf)[1]| == 8;
      assert |buf[4 * 1..4 * 1 + 4]| == 4;
    }
  }

  /** With two or more replies buffered, each is answered as though the first had come again. */
  lemma LaterRepliesRepeatTheFirst(m: Image, blockCntr: nat, buf: seq<Byte>, i: nat)
    requires ImageOk(m) && i < |buf| / 4
    ensures React(m, blockCntr, Emissions(buf)[i]) == React(m, blockCntr, buf[..4])
  {
    var msg, first := Emissions(buf)[i], buf[..4];
    assert msg == buf[..4 * (i + 1)];
    assert msg[0] == first[0] && msg[1] == first[1] && msg[2] == first[2] && msg[3] == first[3];
  }

  class SerialThread {
    var m_txBuf: seq<Byte>
    var m_rxBuf: seq<Byte>

    constructor ()
      ensures m_txBuf == [] && m_rxBuf == []
    {
      m_txBuf, m_rxBuf := [], [];
    }

    method Write(ba: seq<Byte>)
      modifies this`m_txBuf
      ensures m_txBuf == old(m_txBuf) + ba
    {
      m_txBuf := m_txBuf + ba;
    }

    /** The port has taken the first n bytes. */
    method Transmitted(n: nat) returns (line: seq<Byte>)
      requires n <= |m_txBuf|
      modifies this`m_txBuf
      ensures old(m_txBuf) == line + m_txBuf && |line| == n
    {
      line, m_txBuf := m_txBuf[..n], m_txBuf[n..];
    }

    /** Bytes have arrived; the messages emitted are returned in order. */
    method Received(chunk: seq<Byte>) returns (emitted: seq<Message>)
      modifies this`m_rxBuf
      ensures var all := old(m_rxBuf) + chunk;
              emitted == Emissions(all) && m_rxBuf == all[4 * (|all| / 4)..]
    {
      m_rxBuf := m_rxBuf + chunk;
      ghost var all := m_rxBuf;
      var msg: seq<Byte>, n := [], 0;
      emitted := [];
      while |m_rxBuf| >= 4
        invariant 0 <= n && 4 * n <= |all| && m_rxBuf == all[4 * n..] && msg == all[..4 * n]
        invariant emitted == seq(n, i requires 0 <= i < n => all[..4 * (i + 1)])
        decreases |m_rxBuf|
      {
        msg := msg + [m_rxBuf[0]] + [m_rxBuf[1]] + [m_rxBuf[2]] + [m_rxBuf[3]];
        m_rxBuf := m_rxBuf[4..];
        n := n + 1;
        assert msg == all[..4 * n];
        emitted := emitted + [msg];
      }
    }
  }

  class MainWindow {
    const serial: SerialThread
    const image: Image
    var blockCntr: nat

    constructor (s: SerialThread, m: Image)
      ensures serial == s && image == m && blockCntr == 0
    {
      serial, image, blockCntr := s, m, 0;
    }

    method TargetFlash()
      modifies serial`m_txBuf
      ensures serial.m_txBuf == old(serial.m_txBuf) + [INIT, NL]
    {
      serial.Write([INIT, NL]);
    }

    /** A command followed by a block of data, written in two pieces. */
    method Send(cmd: Byte, data: seq<Byte>)
      modifies serial`m_txBuf
      ensures serial.m_txBuf == old(serial.m_txBuf) + ([cmd, NL] + data)
    {
      serial.Write([cmd, NL]);
      serial.Write(data);
      assert old(serial.m_txBuf) + [cmd, NL] + data == old(serial.m_txBuf) + ([cmd, NL] + data);
    }

    method SerialData(ba: Message)
      requires ImageOk(image)
      modifies this`blockCntr, serial`m_txBuf
      ensures var n := React(image, old(blockCntr), ba);
              serial.m_txBuf == old(serial.m_txBuf) + n.request && blockCntr == n.blockCntr
    {
      assert serial.m_txBuf + [] == serial.m_txBuf;
      var cmdID, cmdTrm := ba[0], ba[1];
      if !IsCommand(cmdID) || cmdTrm != NL { return; }
      var argID, argTrm := ba[2], ba[3];
      match cmdID
      case 0x61 =>
        if argID == ZERO && argTrm == NL { serial.Write([ERASE, NL]); }
      case 0x62 =>
        if argID == ZERO && argTrm == NL {
          blockCntr := 0;
          Send(PROGRAM, image.program[blockCntr]);
          blockCntr := blockCntr + 1;
        }
      case 0x63 =>
        if argID == PLUS && argTrm == NL && blockCntr < BLOCKS {
          serial.Write(image.program[blockCntr]);
          blockCntr := blockCntr + 1;
        } else if argID == ZERO && argTrm == NL {
          blockCntr := 0;
          Send(VERIFY, image.program[blockCntr]);
          blockCntr := blockCntr + 1;
        }
      case 0x64 =>
        if argID == PLUS && argTrm == NL && blockCntr < BLOCKS {
          serial.Write(image.program[blockCntr]);
          blockCntr := blockCntr + 1;
        } else if argID == ZERO && argTrm == NL {
          Send(SECURE, image.security);
        }
      case 0x65 =>
        if argID == ZERO && argTrm == NL { Send(VERIFY_SECURITY, image.security); }
      case 0x66 =>
        if argID == ZERO && argTrm == NL { serial.Write([CHECK, NL]); }
      case 0x67 =>
        if argID == ZERO && argTrm == NL { serial.Write([RESTART, NL]); }
      case _ =>
    }
  }
}
