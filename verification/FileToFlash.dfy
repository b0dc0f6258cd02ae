/** From a HEX file to the target's flash. */
module FileToFlash {
  import opened Bits
  import opened IsspTarget
  import FlashProtocol
  import FlashRun
  import Hex = HexImage
  import Host = HostProtocol

  /** A run flashing this image has come to the final verify reply. */
  ghost predicate Verified(w: World, m: Host.Image, s0: FlashRun.System, steps: seq<FlashRun.Step>,
      s: FlashRun.System)
  {
    && Host.ImageOk(m) && FlashRun.Start(s0) && FlashRun.Reaches(w, m, s0, steps, s)
    && FlashRun.InFlight(s) == FlashProtocol.Reply(FlashProtocol.VERIFY, FlashProtocol.ZERO)
  }

  /** What is flashed: the table of blocks that a file has overwritten, and the security data. */
  function ToFlash(rows: seq<seq<Byte>>, file: Hex.Content): Host.Image {
    Host.Image(Hex.Overwritten(rows, file.program), file.security)
  }

  lemma FileMakesImage(rows: seq<seq<Byte>>, security: seq<Byte>, checksum: nat, lines: seq<string>)
    requires |rows| == BLOCKS && (forall row | row in rows :: |row| == BLOCK_SIZE) && |security| == BLOCK_SIZE
    requires Hex.Loaded(security, checksum, lines).Some?
    ensures Host.ImageOk(ToFlash(rows, Hex.Loaded(security, checksum, lines).value))
  {
    hide Hex.Loaded, Hex.RecordOf;
    Hex.BlocksAreTheFirstRecords(security, checksum, lines);
    Hex.SecurityLength(security, checksum, lines);
  }

  /**
   * Whatever file loads, on top of whatever earlier one: when a run that flashes what
   * is then in the tables has come to the final verify reply, block k of the target's
   * flash is the data of line k of the file or, if the file has no such line, the
   * block k of the earlier one.
   */
  lemma FileReachesFlash(rows: seq<seq<Byte>>, security: seq<Byte>, checksum: nat, lines: seq<string>,
      w: World, s0: FlashRun.System, steps: seq<FlashRun.Step>, s: FlashRun.System)
    requires |rows| == BLOCKS && (forall row | row in rows :: |row| == BLOCK_SIZE) && |security| == BLOCK_SIZE
    requires Hex.Loaded(security, checksum, lines).Some?
    ensures var m := ToFlash(rows, Hex.Loaded(security, checksum, lines).value);
            && Host.ImageOk(m)
            && (Verified(w, m, s0, steps, s) ==> Hex.ComeFrom(s.fw.chip.mem.flash, lines, rows))
  {
    hide Hex.Loaded, Hex.ComeFrom, Hex.Overwritten, FlashRun.Reaches, FlashRun.Start, Host.ImageOk;
    FileMakesImage(rows, security, checksum, lines);
    var m := ToFlash(rows, Hex.Loaded(security, checksum, lines).value);
    if Verified(w, m, s0, steps, s) {
      FlashRun.VerifiedMeansFlashed(w, m, s0, steps, s);
      Hex.TableComesFrom(rows, security, checksum, lines);
    }
  }

  /**
   * In particular a file written from an image, in digits of either case and with any
   * addresses, brings that image into the flash.
   */
  lemma PrintedImageReachesFlash(rs: seq<Hex.Record>, program: seq<seq<Byte>>, security: seq<Byte>, checksum: seq<Byte>,
      lower: bool, rows: seq<seq<Byte>>, oldSecurity: seq<Byte>, oldChecksum: nat,
      w: World, s0: FlashRun.System, steps: seq<FlashRun.Step>, s: FlashRun.System)
    requires |rows| == BLOCKS && Hex.Describes(rs, program, security, checksum) && forall r | r in rs :: |r.data| < 256
    ensures var file := Hex.Loaded(oldSecurity, oldChecksum, Hex.Printed(rs, lower));
            && file.Some? && ToFlash(rows, file.value) == Host.Image(program, security)
            && (Verified(w, ToFlash(rows, file.value), s0, steps, s) ==> s.fw.chip.mem.flash == program)
  {
    hide Hex.Loaded, Hex.Printed, FlashRun.Reaches, FlashRun.Start;
    Hex.ImageReadBack(rs, program, security, checksum, lower, oldSecurity, oldChecksum);
    var m := Host.Image(program, security);
    if Verified(w, m, s0, steps, s) {
      FlashRun.VerifiedMeansFlashed(w, m, s0, steps, s);
    }
  }
}
