/** BootSave and BootRestore: a boot block copied to a file, and back with a verifying read. */
module Boot {
  import opened Bytes
  import opened Streams

  const BOOTBLOCK_SIZE := 1024

  type Unit = u: int | 0 <= u <= 3

  type Block = b: seq<byte> | |b| == BOOTBLOCK_SIZE witness seq(BOOTBLOCK_SIZE, _ => '\0')

  /** Any block at all. */
  method SomeBlock(default: Block) returns (b: Block)
  {
    assert |default| == BOOTBLOCK_SIZE;
    b :| |b| == BOOTBLOCK_SIZE;
  }

  // ------------------------------------------------------------- the devices

  datatype Command = CmdRead | CmdWrite(data: Block) | CmdUpdate

  /** The four floppy drives behind trackdisk.device.  Every command may fail; a write or an update
      may leave any bytes on the disk, whatever it reports; a read may deliver other bytes than the
      disk holds.  The ghost fields record what really happened. */
  class Trackdisk {
    var boot: map<Unit, Block>        // the boot block on each drive's disk
    var drive: Option<Unit>           // the drive the request is open on
    var signals: nat                  // signals in use
    ghost var commands: seq<Command>  // every command issued
    ghost var delivered: seq<byte>    // what the last successful read put into its buffer
    ghost var failed: bool            // some call reported an error
    ghost var corrupted: bool         // a write or update left other bytes than it should have
    ghost var lied: bool              // a read delivered other bytes than the disk holds

    ghost predicate Valid()
      reads this
    {
      forall u: Unit :: u in boot
    }

    constructor (boot: map<Unit, Block>)
      requires forall u: Unit :: u in boot
      ensures Valid() && this.boot == boot && drive.None? && signals == 0 && commands == []
      ensures !failed && !corrupted && !lied
    {
      this.boot, drive, signals := boot, None, 0;
      commands, delivered, failed, corrupted, lied := [], [], false, false, false;
    }

    /** setup_io: a signal and an open request, or neither. */
    method SetupIo(unit: Unit) returns (ok: bool)
      requires Valid() && drive.None?
      modifies `drive, `signals, `failed
      ensures ok ==> drive == Some(unit) && signals == old(signals) + 1 && failed == old(failed)
      ensures !ok ==> drive == None && signals == old(signals) && failed
    {
      var signal: bool := *;
      if !signal {
        failed := true;
        return false;
      }
      signals := signals + 1;
      var device: bool := *;
      if !device {
        signals := signals - 1;
        failed := true;
        return false;
      }
      drive := Some(unit);
      ok := true;
    }

    /** teardown_io: closes the request and gives the signal back. */
    method TeardownIo()
      requires drive.Some? && signals > 0
      modifies `drive, `signals
      ensures drive == None && signals == old(signals) - 1
    {
      drive := None;
      signals := signals - 1;
    }

    /** DoIO with CMD_READ at offset 0; ok means no error and io_Actual == 1024. */
    method Read(buffer: array<byte>) returns (ok: bool)
      requires Valid() && drive.Some? && buffer.Length == BOOTBLOCK_SIZE
      modifies `commands, `delivered, `failed, `lied, buffer
      ensures commands == old(commands) + [CmdRead]
      ensures ok ==> buffer[..] == delivered && failed == old(failed)
      ensures ok ==> lied == (old(lied) || delivered != boot[drive.value])
      ensures !ok ==> failed && lied == old(lied)
    {
      commands := commands + [CmdRead];
      var bytes := SomeBlock(boot[drive.value]);
      forall i | 0 <= i < BOOTBLOCK_SIZE { buffer[i] := bytes[i]; }
      ok := *;
      if ok {
        delivered := bytes;
        lied := lied || bytes != boot[drive.value];
      } else {
        failed := true;
      }
    }

    /** DoIO with CMD_WRITE or CMD_UPDATE; an update should change nothing. */
    method Change(command: Command) returns (ok: bool)
      requires Valid() && drive.Some? && command != CmdRead
      modifies `boot, `commands, `failed, `corrupted
      ensures Valid() && commands == old(commands) + [command]
      ensures forall u: Unit :: u != drive.value ==> boot[u] == old(boot[u])
      ensures ok ==> failed == old(failed)
      ensures !ok ==> failed
      ensures corrupted ==
        (old(corrupted) || boot[drive.value] != if command.CmdWrite? then command.data else old(boot)[drive.value])
    {
      ghost var intended := if command.CmdWrite? then command.data else boot[drive.value];
      commands := commands + [command];
      var bytes := SomeBlock(boot[drive.value]);
      boot := boot[drive.value := bytes];
      corrupted := corrupted || bytes != intended;
      ok := *;
      if !ok { failed := true; }
    }
  }

  /** The file BootSave creates. */
  class OutFile {
    var present: bool
    var contents: seq<byte>
    ghost var failed: bool
    ghost var stuck: bool  // the file could not be deleted

    constructor ()
      ensures !present && !failed && !stuck
    {
      present, contents, failed, stuck := false, [], false, false;
    }

    method OpenNew() returns (ok: bool)
      modifies this
      ensures ok ==> present && contents == [] && failed == old(failed)
      ensures !ok ==> present == old(present) && contents == old(contents) && failed
      ensures stuck == old(stuck)
    {
      ok := *;
      if ok { present, contents := true, []; } else { failed := true; }
    }

    method Write(data: seq<byte>) returns (wrote: int)
      requires present
      modifies this
      ensures present && stuck == old(stuck) && wrote <= |data| && old(contents) <= contents <= old(contents) + data
      ensures wrote == |data| ==> contents == old(contents) + data && failed == old(failed)
      ensures wrote != |data| ==> failed
    {
      var reached: nat :| reached <= |data|;
      contents := contents + data[..reached];
      if reached == |data| { return reached; }
      failed := true;
      wrote := -1;
    }

    method Close() returns (ok: bool)
      modifies `failed
      ensures ok ==> failed == old(failed)
      ensures !ok ==> failed
    {
      ok := *;
      if !ok { failed := true; }
    }

    /** DeleteFile: its outcome is not checked by the caller. */
    method Delete()
      modifies this
      ensures failed == old(failed)
      ensures !present || stuck
    {
      var ok: bool := *;
      if ok { present := false; } else { stuck := true; }
    }
  }

  // --------------------------------------------------------------- arguments

  /** The character at an index of a C string; its terminator counts. */
  function CharAt(s: CString, i: nat): char {
    if i < |s| then s[i] else '\0'
  }

  ghost function UnitOf(s: CString): Option<Unit> {
    if s == "DF0" || s == "DF0:" then Some(0)
    else if s == "DF1" || s == "DF1:" then Some(1)
    else if s == "DF2" || s == "DF2:" then Some(2)
    else if s == "DF3" || s == "DF3:" then Some(3)
    else None
  }

  /** The names of the four drives, with or without a colon. */
  lemma UnitsNamed(s: CString, u: Unit)
    ensures UnitOf(s) == Some(u) <==> s == "DF" + ["0", "1", "2", "3"][u] || s == "DF" + ["0", "1", "2", "3"][u] + ":"
  {
    assert "DF" + "0" == "DF0" && "DF" + "1" == "DF1" && "DF" + "2" == "DF2" && "DF" + "3" == "DF3";
    assert "DF0" + ":" == "DF0:" && "DF1" + ":" == "DF1:" && "DF2" + ":" == "DF2:" && "DF3" + ":" == "DF3:";
  }

  /** parse_unit accepts exactly the eight spellings of a drive. */
  method ParseUnit(s: CString) returns (unit: Option<Unit>)
    ensures unit == UnitOf(s)
  {
    forall i | 0 <= i < |s| ensures s[i] != '\0' { assert s[i] in s; }
    if CharAt(s, 0) != 'D' || CharAt(s, 1) != 'F' || CharAt(s, 2) < '0' || CharAt(s, 2) > '3' {
      return None;
    }
    if CharAt(s, 3) != '\0' && !(CharAt(s, 3) == ':' && CharAt(s, 4) == '\0') {
      return None;
    }
    assert s == [s[0], s[1], s[2]] || s == [s[0], s[1], s[2], s[3]];
    unit := Some(s[2] as int - '0' as int);
  }

  method StrEq(a: CString, b: CString) returns (equal: bool)
    ensures equal <==> a == b
  {
    var i := 0;
    while i < |a| && i < |b|
      invariant 0 <= i <= |a| && i <= |b| && a[..i] == b[..i]
    {
      if a[i] != b[i] { return false; }
      i := i + 1;
    }
    equal := i == |a| && i == |b|;
    if equal { assert a == a[..i] && b == b[..i]; }
  }

  method BlocksEqual(a: array<byte>, b: array<byte>, length: nat) returns (equal: bool)
    requires length <= a.Length && length <= b.Length
    ensures equal <==> a[..length] == b[..length]
  {
    var i := 0;
    while i < length
      invariant 0 <= i <= length && a[..i] == b[..i]
    {
      if a[i] != b[i] {
        assert a[..length][i] != b[..length][i];
        return false;
      }
      i := i + 1;
    }
    equal := true;
  }

  // -------------------------------------------------------------- BootRestore

  ghost predicate RestoreArguments(argv: seq<CString>) {
    |argv| == 4 && UnitOf(argv[1]).Some? && argv[3] == "YES"
  }

  /** The commands a complete restore issues. */
  ghost function RestoreCommands(block: Block): seq<Command> {
    [CmdWrite(block), CmdUpdate, CmdRead]
  }

  /** Reads the whole input; it must be exactly one boot block. */
  method LoadBlock(file: InFile, bootblock: array<byte>) returns (ok: bool)
    requires bootblock.Length == BOOTBLOCK_SIZE && file.pos == 0 && !file.failed
    modifies file, bootblock
    ensures ok ==> bootblock[..] == file.contents && !file.failed
    ensures !ok ==> |file.contents| != 1024 || file.failed || file.short
  {
    var got := file.Read(bootblock, BOOTBLOCK_SIZE);
    if got != BOOTBLOCK_SIZE { return false; }
    ghost var block := bootblock[..];
    assert bootblock[..got] == block;
    var extra := new byte[1];
    var more := file.Read(extra, 1);
    ok := more == 0;
    if ok { assert file.contents[0..|file.contents|] == file.contents; }
  }

  /** The last part: read the block back, release the device, compare. */
  method ReadBack(dev: Trackdisk, unit: Unit, bootblock: array<byte>, ghost block: Block) returns (code: int)
    requires dev.Valid() && dev.drive == Some(unit) && dev.signals > 0 && !dev.failed && !dev.lied
    requires bootblock.Length == BOOTBLOCK_SIZE && bootblock[..] == block
    modifies dev
    ensures dev.Valid() && dev.drive.None? && dev.signals == old(dev.signals) - 1
    ensures dev.boot == old(dev.boot) && dev.corrupted == old(dev.corrupted)
    ensures dev.commands == old(dev.commands) + [CmdRead]
    ensures code == 0 || code == 5
    ensures code == 0 <==> !dev.failed && dev.delivered == block
    ensures code == 0 && !dev.lied ==> dev.boot[unit] == block
    ensures !dev.failed && !dev.lied && dev.boot[unit] == block ==> code == 0
  {
    var verifyblock := new byte[BOOTBLOCK_SIZE];
    var ok := dev.Read(verifyblock);
    if !ok {
      dev.TeardownIo();
      return 5;
    }
    assert bootblock[..BOOTBLOCK_SIZE] == block && verifyblock[..BOOTBLOCK_SIZE] == dev.delivered;
    var equal := BlocksEqual(bootblock, verifyblock, BOOTBLOCK_SIZE);
    dev.TeardownIo();
    code := if equal then 0 else 5;
  }

  /** The device part of BootRestore: write, update, read back, compare. */
  method WriteAndVerify(dev: Trackdisk, unit: Unit, bootblock: array<byte>, ghost block: Block) returns (code: int)
    requires dev.Valid() && dev.drive.None? && bootblock.Length == BOOTBLOCK_SIZE && bootblock[..] == block
    requires !dev.failed && !dev.lied && !dev.corrupted
    modifies dev
    ensures dev.Valid() && dev.drive.None? && dev.signals == old(dev.signals)
    ensures code == 0 || code == 5
    ensures dev.commands == old(dev.commands) ==> dev.boot == old(dev.boot)
    ensures forall u: Unit :: u != unit ==> dev.boot[u] == old(dev.boot[u])
    ensures old(dev.commands) <= dev.commands <= old(dev.commands) + RestoreCommands(block)
    ensures code == 0 <==> !dev.failed && dev.delivered == block
    ensures code == 0 ==> dev.commands == old(dev.commands) + RestoreCommands(block)
    ensures code == 0 && !dev.lied ==> dev.boot[unit] == block
    ensures !dev.failed && !dev.corrupted && !dev.lied ==> code == 0
  {
    ghost var before := dev.commands;
    var ok := dev.SetupIo(unit);
    if !ok { return 5; }
    ok := dev.Change(CmdWrite(bootblock[..]));
    if !ok {
      dev.TeardownIo();
      return 5;
    }
    ok := dev.Change(CmdUpdate);
    assert dev.commands == before + [CmdWrite(block), CmdUpdate];
    if !ok {
      dev.TeardownIo();
      return 5;
    }
    assert before + [CmdWrite(block), CmdUpdate] + [CmdRead] == before + RestoreCommands(block);
    code := ReadBack(dev, unit, bootblock, block);
  }

  /** BootRestore, on the file its second argument names, or null when that cannot be opened. */
  method BootRestore(argv: seq<CString>, file: InFile?, dev: Trackdisk) returns (code: int)
    requires file != null ==> file.pos == 0 && !file.failed && !file.short
    requires dev.Valid() && dev.drive.None? && !dev.failed && !dev.lied && !dev.corrupted
    modifies file, dev
    ensures dev.Valid() && dev.drive.None? && dev.signals == old(dev.signals)
    ensures code == 10 <==> !(|argv| == 4 && UnitOf(argv[1]).Some? && argv[3] == "YES")
    ensures code == 0 || code == 5 || code == 10
    ensures code == 10 || file == null || |file.contents| != 1024 ==> dev.commands == old(dev.commands)
    ensures dev.commands == old(dev.commands) ==> dev.boot == old(dev.boot)
    ensures dev.commands != old(dev.commands) ==>
      && file != null && |file.contents| == 1024
      && old(dev.commands) <= dev.commands <= old(dev.commands) + [CmdWrite(file.contents), CmdUpdate, CmdRead]
      && forall u: Unit :: u != UnitOf(argv[1]).value ==> dev.boot[u] == old(dev.boot[u])
    ensures code == 0 ==>
      && file != null && |file.contents| == 1024
      && dev.commands == old(dev.commands) + [CmdWrite(file.contents), CmdUpdate, CmdRead]
      && dev.delivered == file.contents
      && (!dev.lied ==> dev.boot[UnitOf(argv[1]).value] == file.contents)
    ensures code == 0 ==> !file.failed && !dev.failed
    ensures RestoreArguments(argv) && file != null && |file.contents| == 1024 ==>
      (code == 0 <==>
        dev.commands == old(dev.commands) + [CmdWrite(file.contents), CmdUpdate, CmdRead]
        && !dev.failed && dev.delivered == file.contents)
    ensures RestoreArguments(argv) && file != null && |file.contents| == 1024 ==>
      (!file.failed && !file.short && !dev.failed && !dev.corrupted && !dev.lied ==> code == 0)
  {
    if |argv| != 4 { return 10; }
    var unit := ParseUnit(argv[1]);
    if unit.None? { return 10; }
    var sure := StrEq(argv[3], "YES");
    if !sure { return 10; }
    if file == null { return 5; }
    var bootblock := new byte[BOOTBLOCK_SIZE];
    var ok := LoadBlock(file, bootblock);
    if !ok { return 5; }
    code := WriteAndVerify(dev, unit.value, bootblock, bootblock[..]);
  }

  // ----------------------------------------------------------------- BootSave

  /** BootSave keeps a complete copy, or removes what it could not complete. */
  method BootSave(argv: seq<CString>, dev: Trackdisk, file: OutFile) returns (code: int)
    requires dev.Valid() && dev.drive.None? && !dev.failed && !dev.lied
    requires !file.failed
    modifies dev, file
    ensures dev.Valid() && dev.drive.None? && dev.signals == old(dev.signals) && dev.boot == old(dev.boot)
    ensures code == 10 <==> !(|argv| == 3 && UnitOf(argv[1]).Some?)
    ensures code != 10 ==> code == if dev.failed || file.failed then 5 else 0
    ensures code == 0 ==> file.present && file.contents == dev.delivered
    ensures code == 0 && !dev.lied ==> file.contents == dev.boot[UnitOf(argv[1]).value]
    ensures code != 0 ==>
      !file.present || file.stuck || (file.present == old(file.present) && file.contents == old(file.contents))
  {
    if |argv| != 3 { return 10; }
    var unit := ParseUnit(argv[1]);
    if unit.None? { return 10; }
    var bootblock := new byte[BOOTBLOCK_SIZE];
    var ok := dev.SetupIo(unit.value);
    if !ok { return 5; }
    ok := dev.Read(bootblock);
    if !ok {
      dev.TeardownIo();
      return 5;
    }
    dev.TeardownIo();
    ok := file.OpenNew();
    if !ok { return 5; }
    var wrote := file.Write(bootblock[..]);
    var closed := file.Close();
    if wrote != BOOTBLOCK_SIZE || !closed {
      file.Delete();
      return 5;
    }
    code := 0;
  }

  /** A saved block comes back: whatever happens to the disks in between, a successful BootSave and a
      later successful BootRestore from its file leave the saved block on the named drive. */
  method SaveThenRestore(save: seq<CString>, restore: seq<CString>, dev: Trackdisk, file: OutFile, meanwhile: map<Unit, Block>)
    returns (saved: int, restored: int)
    requires dev.Valid() && dev.drive.None? && !dev.failed && !dev.lied && !dev.corrupted && !file.failed
    requires forall u: Unit :: u in meanwhile
    modifies dev, file
    ensures saved == 0 && restored == 0 && !dev.lied ==>
      && |save| == 3 && UnitOf(save[1]).Some? && |restore| == 4 && UnitOf(restore[1]).Some?
      && UnitOf(restore[1]).value in dev.boot
      && dev.boot[UnitOf(restore[1]).value] == old(dev.boot)[UnitOf(save[1]).value]
  {
    saved := BootSave(save, dev, file);
    if saved != 0 { return saved, 5; }
    ghost var honest := !dev.lied;
    dev.boot := meanwhile;
    dev.failed, dev.lied, dev.corrupted := false, false, false;
    var copy := new InFile(file.contents);
    restored := BootRestore(restore, copy, dev);
    dev.lied := dev.lied || !honest;
  }
}
