/**
 Durable persistence of the capsule: the locked file, the bytes and generation count the store
 believes durable, and the poison flag. Each operation is a function of the state and of what the
 operating system does (`Faults`), and a method of the class is proved to compute it.
 */
module StoreModel {
  import opened Results
  import opened Bytes
  import opened CapsuleHeader
  import opened CapsuleLog

  datatype StoreError =
    | Capsule(capsuleError: CapsuleError)
    | EmptyCapsule
    | GenerationCount(expectedCount: nat, actualCount: nat)
    | NotAppendOnly
    | Poisoned
    | UnexpectedLength(expected: nat, actual: nat)
    | TooLarge(total: nat, maximum: nat)
    | VerificationMismatch
    | Io(operation: string)

  /** One positional read or write call: it moves some bytes, or fails after some have landed. */
  datatype IoStep = Moved(count: nat) | Failed(landed: nat)

  /** How far a positional loop got, and whether it completed. */
  datatype Transfer = Transfer(moved: nat, completed: bool)

  /** The positional loops: move up to the end of the data (`limit`), until `total` bytes are done.
      A call that moves nothing is an error; past the end of the script calls move all they can. */
  function Transferred(total: nat, limit: nat, done: nat, script: seq<IoStep>): (r: Transfer)
    requires done <= limit <= total
    ensures done <= r.moved <= limit
    ensures r.completed ==> r.moved == total
    decreases total - done
  {
    if done == total then
      Transfer(done, true)
    else if script == [] then
      Transfer(limit, limit == total)
    else
      match script[0]
      case Moved(count) =>
        var step := Min(count, limit - done);
        if step == 0 then Transfer(done, false) else Transferred(total, limit, done + step, script[1..])
      case Failed(landed) =>
        Transfer(done + Min(landed, limit - done), false)
  }

  datatype Boundary = BeforeWrite | AfterWrite | AfterSyncData | AfterReadback | AfterSyncAll | BeforeAdopt

  /** Everything the operating system may do wrong during one operation. */
  datatype Faults = Faults(
    hits: set<Boundary>,
    inspections: set<nat>,
    write: seq<IoStep>,
    read: seq<IoStep>,
    reread: seq<IoStep>,
    setLengthFails: bool,
    syncDataFails: bool,
    syncAllFails: bool)

  const NO_FAULTS: Faults := Faults({}, {}, [], [], [], false, false, false)

  datatype StoreState = StoreState(disk: seq<Byte>, bytes: seq<Byte>, count: nat, poisoned: bool)

  datatype Evidence = Evidence(previousBytes: nat, bytesAppended: nat, totalBytes: nat, generationCount: nat)

  datatype Outcome<T> = Outcome(state: StoreState, result: Result<T, StoreError>)

  function EnsureUnchanged(s: StoreState, inspection: nat, faults: Faults): Result<(), StoreError>
  {
    if inspection in faults.inspections then
      Err(Io("reinspect capsule"))
    else if |s.disk| != |s.bytes| then
      Err(UnexpectedLength(|s.bytes|, |s.disk|))
    else
      Ok(())
  }

  /** How much of a read the file can serve. */
  function Available(disk: seq<Byte>, offset: nat, length: nat): (r: nat)
    ensures r <= length
  {
    if offset <= |disk| then Min(length, |disk| - offset) else 0
  }

  /** Reading `length` bytes at `offset`: completes only if the file holds them. A read of nothing
      makes no call, so it completes anywhere. */
  function ReadExactAt(disk: seq<Byte>, offset: nat, length: nat, script: seq<IoStep>, operation: string)
    : (r: Result<seq<Byte>, StoreError>)
    ensures r.Ok? && offset <= |disk| ==> offset + length <= |disk| && r.value == disk[offset..offset + length]
  {
    if !Transferred(length, Available(disk, offset, length), 0, script).completed then
      Err(Io(operation))
    else if length == 0 then
      Ok([])
    else
      Ok(disk[offset..offset + length])
  }

  /** The hole left by a write past the end is filled first. */
  function Reached(disk: seq<Byte>, offset: nat): (r: seq<Byte>)
    ensures offset <= |r|
  {
    if offset <= |disk| then disk else disk + Zeros(offset - |disk|)
  }

  /** The file after a positional write: a write past the end leaves a hole of zeros, and a write of
      nothing changes nothing. */
  function PositionalWrite(disk: seq<Byte>, offset: nat, bytes: seq<Byte>): seq<Byte>
  {
    if bytes == [] then
      disk
    else
      var reached := Reached(disk, offset);
      var end := offset + |bytes|;
      reached[..offset] + bytes + if end <= |reached| then reached[end..] else []
  }

  lemma NothingWritten(disk: seq<Byte>, offset: nat)
    ensures PositionalWrite(disk, offset, []) == disk
  {
  }

  lemma WriteAtEnd(disk: seq<Byte>, bytes: seq<Byte>)
    ensures PositionalWrite(disk, |disk|, bytes) == disk + bytes
  {
  }

  lemma WriteFillsFirst(disk: seq<Byte>, offset: nat, bytes: seq<Byte>)
    requires bytes != []
    ensures PositionalWrite(disk, offset, bytes) == PositionalWrite(Reached(disk, offset), offset, bytes)
  {
  }

  /** A write continued where it stopped is one write. */
  lemma WriteContinues(disk: seq<Byte>, offset: nat, done: seq<Byte>, more: seq<Byte>)
    ensures PositionalWrite(PositionalWrite(disk, offset, done), offset + |done|, more)
         == PositionalWrite(disk, offset, done + more)
  {
    hide PositionalWrite;
    if done == [] {
      assert done + more == more;
      NothingWritten(disk, offset);
    } else if more == [] {
      assert done + more == done;
      NothingWritten(PositionalWrite(disk, offset, done), offset + |done|);
    } else {
      WriteFillsFirst(disk, offset, done);
      WriteFillsFirst(disk, offset, done + more);
      WriteContinuesInside(Reached(disk, offset), offset, done, more);
    }
  }

  lemma WriteContinuesInside(reached: seq<Byte>, offset: nat, done: seq<Byte>, more: seq<Byte>)
    requires offset <= |reached| && done != [] && more != []
    ensures PositionalWrite(PositionalWrite(reached, offset, done), offset + |done|, more)
         == PositionalWrite(reached, offset, done + more)
  {
    var middle := offset + |done|;
    var first := PositionalWrite(reached, offset, done);
    assert first[..middle] == reached[..offset] + done;
    if middle + |more| <= |reached| {
      assert first[middle + |more|..] == reached[middle + |more|..];
    }
  }

  function AfterPersist(s: StoreState, suffix: seq<Byte>, faults: Faults): Result<(), StoreError>
  {
    if AfterWrite in faults.hits then Err(Io("injected"))
    else if faults.syncDataFails then Err(Io("flush capsule data"))
    else if AfterSyncData in faults.hits then Err(Io("injected"))
    else
      var actual :- ReadExactAt(s.disk, |s.bytes|, |suffix|, faults.read, "verify appended capsule bytes");
      if actual != suffix then Err(VerificationMismatch)
      else if AfterReadback in faults.hits then Err(Io("injected"))
      else if faults.syncAllFails then Err(Io("flush capsule data and metadata"))
      else if AfterSyncAll in faults.hits then Err(Io("injected"))
      else if BeforeAdopt in faults.hits then Err(Io("injected"))
      else Ok(())
  }

  function PersistSuffix(limits: Limits, s: StoreState, suffix: seq<Byte>, generationCount: nat, faults: Faults)
    : Outcome<Evidence>
  {
    var stable := EnsureUnchanged(s, 1, faults);
    if stable.Err? then
      Outcome(s, Err(stable.error))
    else if |s.bytes| + |suffix| > limits.maxCapsuleBytes then
      Outcome(s, Err(TooLarge(|s.bytes| + |suffix|, limits.maxCapsuleBytes)))
    else if BeforeWrite in faults.hits then
      Outcome(s.(poisoned := true), Err(Io("injected")))
    else
      var transfer := Transferred(|suffix|, |suffix|, 0, faults.write);
      var written := s.(poisoned := true, disk := s.disk + suffix[..transfer.moved]);
      if !transfer.completed then
        Outcome(written, Err(Io("append capsule bytes")))
      else
        var persisted := AfterPersist(written, suffix, faults);
        if persisted.Err? then
          Outcome(written, Err(persisted.error))
        else
          var adopted := written.(bytes := s.bytes + suffix, count := generationCount);
          var final := EnsureUnchanged(adopted, 2, faults);
          if final.Err? then
            Outcome(adopted, Err(final.error))
          else
            Outcome(adopted.(poisoned := false),
                    Ok(Evidence(|s.bytes|, |suffix|, |s.bytes| + |suffix|, generationCount)))
  }

  /** `append_with_faults`. */
  function Append(c: Codec, limits: Limits, s: StoreState, updated: seq<Byte>, faults: Faults): Outcome<Evidence>
  {
    if s.poisoned then
      Outcome(s, Err(Poisoned))
    else if |updated| <= |s.bytes| || !(s.bytes <= updated) then
      Outcome(s, Err(NotAppendOnly))
    else
      var scanned := ScanCapsule(c, updated, limits);
      if scanned.Err? then
        Outcome(s, Err(Capsule(scanned.error)))
      else if |scanned.value.generations| != s.count + 1 || scanned.value.validatedBytes != |updated| then
        Outcome(s, Err(GenerationCount(s.count + 1, |scanned.value.generations|)))
      else
        var stable := EnsureUnchanged(s, 0, faults);
        if stable.Err? then
          Outcome(s, Err(stable.error))
        else
          PersistSuffix(limits, s, updated[|s.bytes|..], s.count + 1, faults)
  }

  datatype Repair = Repair(disk: seq<Byte>, result: Result<nat, StoreError>)

  /** After the file was shortened: flush, reread, rescan, flush. */
  function VerifyKept(c: Codec, limits: Limits, kept: seq<Byte>, generations: nat, faults: Faults): Repair
  {
    if faults.syncDataFails then
      Repair(kept, Err(Io("flush recovered capsule data")))
    else
      var reread := ReadExactAt(kept, 0, |kept|, faults.reread, "reread recovered capsule");
      if reread.Err? then
        Repair(kept, Err(reread.error))
      else
        var strict := ScanCapsule(c, reread.value, limits);
        if strict.Err? then
          Repair(kept, Err(Capsule(strict.error)))
        else if |strict.value.generations| != generations || strict.value.validatedBytes != |reread.value| then
          Repair(kept, Err(VerificationMismatch))
        else if faults.syncAllFails then
          Repair(kept, Err(Io("flush recovered capsule data and metadata")))
        else
          Repair(kept, Ok(generations))
  }

  /** `repair_torn_suffix`: shorten the file to the recovered prefix, then verify it. */
  function RepairTornSuffix(c: Codec, limits: Limits, disk: seq<Byte>, strictError: CapsuleError, faults: Faults)
    : Repair
  {
    var recovered := RecoverCapsule(c, disk, limits);
    if recovered.Err? then
      Repair(disk, Err(Capsule(recovered.error)))
    else
      var retained := recovered.value.validatedBytes;
      var generations := |recovered.value.generations|;
      if generations == 0 || retained == 0 || retained >= |disk| then
        Repair(disk, Err(Capsule(strictError)))
      else if faults.setLengthFails then
        Repair(disk, Err(Io("discard proven torn capsule suffix")))
      else
        VerifyKept(c, limits, disk[..retained], generations, faults)
  }

  /** The strict scan accepted the file: flush it, reread it, adopt it. */
  function AdoptScanned(s: StoreState, v: View, faults: Faults): Outcome<()>
  {
    var generations := |v.generations|;
    if v.validatedBytes != |s.disk| || (generations != s.count && generations != s.count + 1) then
      Outcome(s, Err(GenerationCount(s.count + 1, generations)))
    else if faults.syncDataFails then
      Outcome(s, Err(Io("flush reconciled capsule data")))
    else if faults.syncAllFails then
      Outcome(s, Err(Io("flush reconciled capsule data and metadata")))
    else
      var durable := ReadExactAt(s.disk, 0, |s.disk|, faults.reread, "verify reconciled capsule");
      if durable.Err? then
        Outcome(s, Err(durable.error))
      else
        var adopted := s.(bytes := s.disk, count := generations);
        var stable := EnsureUnchanged(adopted, 1, faults);
        if stable.Err? then Outcome(adopted, Err(stable.error)) else Outcome(adopted.(poisoned := false), Ok(()))
  }

  /** The strict scan refused the file: only a proven torn append on exactly the remembered prefix
      is repaired. */
  function RestoreTorn(c: Codec, limits: Limits, s: StoreState, strictError: CapsuleError, faults: Faults): Outcome<()>
  {
    var recovered := RecoverCapsule(c, s.disk, limits);
    if recovered.Err? then
      Outcome(s, Err(Capsule(recovered.error)))
    else
      var retained := recovered.value.validatedBytes;
      if retained != |s.bytes| || |recovered.value.generations| != s.count || retained >= |s.disk|
         || s.disk[..retained] != s.bytes then
        Outcome(s, Err(Capsule(strictError)))
      else
        var repair := RepairTornSuffix(c, limits, s.disk, strictError, faults);
        var repaired := s.(disk := repair.disk);
        if repair.result.Err? then
          Outcome(repaired, Err(repair.result.error))
        else if repair.result.value != s.count || repair.disk != s.bytes then
          Outcome(repaired, Err(VerificationMismatch))
        else
          var stable := EnsureUnchanged(repaired, 1, faults);
          if stable.Err? then Outcome(repaired, Err(stable.error)) else Outcome(repaired.(poisoned := false), Ok(()))
  }

  /** `restore_verified_prefix`. */
  function Restore(c: Codec, limits: Limits, s: StoreState, faults: Faults): Outcome<()>
  {
    if !s.poisoned then
      Outcome(s, Ok(()))
    else if 0 in faults.inspections then
      Outcome(s, Err(Io("reinspect capsule")))
    else if |s.disk| < |s.bytes| then
      Outcome(s, Err(UnexpectedLength(|s.bytes|, |s.disk|)))
    else if |s.disk| > limits.maxCapsuleBytes then
      Outcome(s, Err(TooLarge(|s.disk|, limits.maxCapsuleBytes)))
    else
      var actual := ReadExactAt(s.disk, 0, |s.disk|, faults.read, "reread ambiguous capsule");
      if actual.Err? then
        Outcome(s, Err(actual.error))
      else if !(s.bytes <= actual.value) then
        Outcome(s, Err(VerificationMismatch))
      else
        match ScanCapsule(c, s.disk, limits)
        case Ok(v) => AdoptScanned(s, v, faults)
        case Err(e) => RestoreTorn(c, limits, s, e, faults)
  }

  datatype Resumed = Resumed(disk: seq<Byte>, result: Result<StoreState, StoreError>)

  /** Opening an existing capsule, repairing a torn newest append when asked to. */
  function Resume(c: Codec, limits: Limits, disk: seq<Byte>, recoverTornTail: bool, faults: Faults): Resumed
  {
    var valid := ValidateLimits(limits);
    if valid.Err? then
      Resumed(disk, Err(Capsule(valid.error)))
    else if |disk| > limits.maxCapsuleBytes then
      Resumed(disk, Err(TooLarge(|disk|, limits.maxCapsuleBytes)))
    else if disk == [] then
      Resumed(disk, Err(EmptyCapsule))
    else
      var read := ReadExactAt(disk, 0, |disk|, faults.read, "read capsule");
      if read.Err? then
        Resumed(disk, Err(read.error))
      else
        match ScanCapsule(c, disk, limits)
        case Ok(v) =>
          if v.generations == [] || v.validatedBytes != |disk| then
            Resumed(disk, Err(EmptyCapsule))
          else
            Opened(disk, |v.generations|, faults)
        case Err(e) =>
          if !recoverTornTail then
            Resumed(disk, Err(Capsule(e)))
          else
            var repair := RepairTornSuffix(c, limits, disk, e, faults);
            if repair.result.Err? then
              Resumed(repair.disk, Err(repair.result.error))
            else
              Opened(repair.disk, repair.result.value, faults)
  }

  function Opened(disk: seq<Byte>, generations: nat, faults: Faults): Resumed
  {
    if 1 in faults.inspections then
      Resumed(disk, Err(Io("reinspect capsule")))
    else
      Resumed(disk, Ok(StoreState(disk, disk, generations, false)))
  }
}

module CapsuleStore {
  import opened Results
  import opened Bytes
  import opened CapsuleHeader
  import opened CapsuleLog
  import opened CapsuleScanner
  import opened StoreModel

  /** A regular file, as a byte sequence. */
  class DiskFile {
    var contents: seq<Byte>

    constructor (initial: seq<Byte>)
      ensures contents == initial
    {
      contents := initial;
    }

    /** `set_len`, only ever used to shorten. */
    method SetLength(length: nat)
      requires length <= |contents|
      modifies this
      ensures contents == old(contents)[..length]
    {
      contents := contents[..length];
    }

    /** `positional_write_loop`, anywhere in or past the file. */
    method WriteAllAt(offset: nat, buffer: seq<Byte>, script: seq<IoStep>) returns (completed: bool)
      modifies this
      ensures completed == Transferred(|buffer|, |buffer|, 0, script).completed
      ensures contents == PositionalWrite(old(contents), offset,
              buffer[..Transferred(|buffer|, |buffer|, 0, script).moved])
    {
      hide PositionalWrite;
      NothingWritten(contents, offset);
      var done := 0;
      var rest := script;
      while done < |buffer|
        invariant 0 <= done <= |buffer|
        invariant contents == PositionalWrite(old(contents), offset, buffer[..done])
        invariant Transferred(|buffer|, |buffer|, done, rest) == Transferred(|buffer|, |buffer|, 0, script)
        decreases |buffer| - done
      {
        var step := if rest == [] then Moved(|buffer| - done) else rest[0];
        var count := Min(if step.Moved? then step.count else step.landed, |buffer| - done);
        assert buffer[..done] + buffer[done..done + count] == buffer[..done + count];
        WriteContinues(old(contents), offset, buffer[..done], buffer[done..done + count]);
        contents := PositionalWrite(contents, offset + done, buffer[done..done + count]);
        if step.Failed? || count == 0 {
          return false;
        }
        done := done + count;
        rest := if rest == [] then [] else rest[1..];
      }
      assert buffer[..done] == buffer;
      return true;
    }

    /** `positional_read_loop`. */
    method ReadExact(offset: nat, length: nat, script: seq<IoStep>, operation: string)
      returns (r: Result<seq<Byte>, StoreError>)
      ensures r == ReadExactAt(contents, offset, length, script, operation)
    {
      var limit := Available(contents, offset, length);
      var buffer: seq<Byte> := [];
      var done := 0;
      var rest := script;
      while done < length
        invariant 0 <= done <= limit
        invariant done > 0 ==> offset + done <= |contents|
        invariant buffer == if done == 0 then [] else contents[offset..offset + done]
        invariant Transferred(length, limit, done, rest) == Transferred(length, limit, 0, script)
        decreases length - done
      {
        var step := if rest == [] then Moved(length - done) else rest[0];
        if step.Failed? {
          return Err(Io(operation));
        }
        var count := Min(step.count, limit - done);
        if count == 0 {
          return Err(Io(operation));
        }
        buffer := buffer + contents[offset + done..offset + done + count];
        done := done + count;
        rest := if rest == [] then [] else rest[1..];
      }
      return Ok(buffer);
    }
  }

  /** The exclusively locked, append-only capsule file. */
  class Store {
    const hashes: Hashes
    const limits: Limits
    const file: DiskFile
    var bytes: seq<Byte>
    var generationCount: nat
    var poisoned: bool

    /** Bound to an opened file whose bytes have just been validated. */
    constructor (hashes: Hashes, limits: Limits, file: DiskFile, bytes: seq<Byte>, generationCount: nat)
      ensures this.hashes == hashes && this.limits == limits && this.file == file
      ensures this.bytes == bytes && this.generationCount == generationCount && !poisoned
    {
      this.hashes, this.limits, this.file := hashes, limits, file;
      this.bytes, this.generationCount, this.poisoned := bytes, generationCount, false;
    }

    ghost function State(): StoreState
      reads this, file
    {
      StoreState(file.contents, bytes, generationCount, poisoned)
    }

    method CheckUnchanged(inspection: nat, faults: Faults) returns (r: Result<(), StoreError>)
      ensures r == EnsureUnchanged(State(), inspection, faults)
    {
      if inspection in faults.inspections {
        return Err(Io("reinspect capsule"));
      }
      if |file.contents| != |bytes| {
        return Err(UnexpectedLength(|bytes|, |file.contents|));
      }
      return Ok(());
    }

    /** Write, flush, read back, flush, adopt: poisoned from before the first write until after adoption. */
    method PersistSuffixWithFaults(suffix: seq<Byte>, count: nat, faults: Faults)
      returns (r: Result<Evidence, StoreError>)
      modifies this, file
      ensures Outcome(State(), r) == PersistSuffix(limits, old(State()), suffix, count, faults)
    {
      r := CheckUnchangedThen(1, faults);
      if r.Err? {
        return;
      }
      var previous := |bytes|;
      var total := previous + |suffix|;
      if total > limits.maxCapsuleBytes {
        return Err(TooLarge(total, limits.maxCapsuleBytes));
      }
      poisoned := true;
      if BeforeWrite in faults.hits {
        return Err(Io("injected"));
      }
      WriteAtEnd(file.contents, suffix[..Transferred(|suffix|, |suffix|, 0, faults.write).moved]);
      var completed := file.WriteAllAt(previous, suffix, faults.write);
      if !completed {
        return Err(Io("append capsule bytes"));
      }
      if AfterWrite in faults.hits {
        return Err(Io("injected"));
      }
      if faults.syncDataFails {
        return Err(Io("flush capsule data"));
      }
      if AfterSyncData in faults.hits {
        return Err(Io("injected"));
      }
      var actual := file.ReadExact(previous, |suffix|, faults.read, "verify appended capsule bytes");
      if actual.Err? {
        return Err(actual.error);
      }
      if actual.value != suffix {
        return Err(VerificationMismatch);
      }
      if AfterReadback in faults.hits {
        return Err(Io("injected"));
      }
      if faults.syncAllFails {
        return Err(Io("flush capsule data and metadata"));
      }
      if AfterSyncAll in faults.hits {
        return Err(Io("injected"));
      }
      if BeforeAdopt in faults.hits {
        return Err(Io("injected"));
      }
      bytes := bytes + suffix;
      generationCount := count;
      r := CheckUnchangedThen(2, faults);
      if r.Err? {
        return;
      }
      poisoned := false;
      return Ok(Evidence(previous, |suffix|, total, count));
    }

    method CheckUnchangedThen(inspection: nat, faults: Faults) returns (r: Result<Evidence, StoreError>)
      ensures r.Err? <==> EnsureUnchanged(State(), inspection, faults).Err?
      ensures r.Err? ==> r.error == EnsureUnchanged(State(), inspection, faults).error
    {
      var stable := CheckUnchanged(inspection, faults);
      if stable.Err? {
        return Err(stable.error);
      }
      return Ok(Evidence(0, 0, 0, 0));
    }

    method AppendWithFaults(updated: seq<Byte>, faults: Faults) returns (r: Result<Evidence, StoreError>)
      modifies this, file
      ensures Outcome(State(), r) == StoreModel.Append(CapsuleCodec(hashes), limits, old(State()), updated, faults)
    {
      hide Scan, PersistSuffix;
      if poisoned {
        return Err(Poisoned);
      }
      if |updated| <= |bytes| || !(bytes <= updated) {
        return Err(NotAppendOnly);
      }
      var scanned := ScanCapsuleImpl(hashes, updated, limits, false);
      if scanned.Err? {
        return Err(Capsule(scanned.error));
      }
      var expected := generationCount + 1;
      if |scanned.value.generations| != expected || scanned.value.validatedBytes != |updated| {
        return Err(GenerationCount(expected, |scanned.value.generations|));
      }
      r := CheckUnchangedThen(0, faults);
      if r.Err? {
        return;
      }
      r := PersistSuffixWithFaults(updated[|bytes|..], expected, faults);
    }

    /** Reconciles the file with the last in-memory checkpoint after an ambiguous append. */
    method RestoreVerifiedPrefix(faults: Faults) returns (r: Result<(), StoreError>)
      modifies this, file
      ensures Outcome(State(), r) == Restore(CapsuleCodec(hashes), limits, old(State()), faults)
    {
      hide Scan, AdoptScanned, RestoreTorn;
      if !poisoned {
        return Ok(());
      }
      if 0 in faults.inspections {
        return Err(Io("reinspect capsule"));
      }
      if |file.contents| < |bytes| {
        return Err(UnexpectedLength(|bytes|, |file.contents|));
      }
      if |file.contents| > limits.maxCapsuleBytes {
        return Err(TooLarge(|file.contents|, limits.maxCapsuleBytes));
      }
      var actual := file.ReadExact(0, |file.contents|, faults.read, "reread ambiguous capsule");
      if actual.Err? {
        return Err(actual.error);
      }
      assert actual.value == file.contents;
      if !(bytes <= actual.value) {
        return Err(VerificationMismatch);
      }
      var scanned := ScanCapsuleImpl(hashes, actual.value, limits, false);
      if scanned.Ok? {
        r := AdoptReconciled(actual.value, scanned.value, faults);
      } else {
        r := RestoreTornTail(actual.value, scanned.error, faults);
      }
    }

    method AdoptReconciled(actual: seq<Byte>, view: View, faults: Faults) returns (r: Result<(), StoreError>)
      requires actual == file.contents
      modifies this
      ensures Outcome(State(), r) == AdoptScanned(old(State()), view, faults)
    {
      var generations := |view.generations|;
      if view.validatedBytes != |actual| || (generations != generationCount && generations != generationCount + 1) {
        return Err(GenerationCount(generationCount + 1, generations));
      }
      if faults.syncDataFails {
        return Err(Io("flush reconciled capsule data"));
      }
      if faults.syncAllFails {
        return Err(Io("flush reconciled capsule data and metadata"));
      }
      var durable := file.ReadExact(0, |actual|, faults.reread, "verify reconciled capsule");
      if durable.Err? {
        return Err(durable.error);
      }
      bytes := actual;
      generationCount := generations;
      r := CheckUnchanged(1, faults);
      if r.Ok? {
        poisoned := false;
      }
    }

    method RestoreTornTail(actual: seq<Byte>, strictError: CapsuleError, faults: Faults)
      returns (r: Result<(), StoreError>)
      requires actual == file.contents
      modifies this, file
      ensures Outcome(State(), r) == RestoreTorn(CapsuleCodec(hashes), limits, old(State()), strictError, faults)
    {
      hide Scan, RepairTornSuffix;
      var recovered := ScanCapsuleImpl(hashes, actual, limits, true);
      if recovered.Err? {
        return Err(Capsule(recovered.error));
      }
      var retained := recovered.value.validatedBytes;
      if retained != |bytes| || |recovered.value.generations| != generationCount || retained >= |actual|
         || actual[..retained] != bytes {
        return Err(Capsule(strictError));
      }
      var repaired := RepairTornFile(hashes, limits, file, strictError, faults);
      if repaired.Err? {
        return Err(repaired.error);
      }
      if repaired.value != generationCount || file.contents != bytes {
        return Err(VerificationMismatch);
      }
      r := CheckUnchanged(1, faults);
      if r.Ok? {
        poisoned := false;
      }
    }
  }

  method VerifyKeptFile(hashes: Hashes, limits: Limits, file: DiskFile, generations: nat, faults: Faults)
    returns (r: Result<nat, StoreError>)
    ensures Repair(file.contents, r) == VerifyKept(CapsuleCodec(hashes), limits, file.contents, generations, faults)
  {
    hide Scan, ReadExactAt;
    if faults.syncDataFails {
      return Err(Io("flush recovered capsule data"));
    }
    var reread := file.ReadExact(0, |file.contents|, faults.reread, "reread recovered capsule");
    if reread.Err? {
      return Err(reread.error);
    }
    var strict := ScanCapsuleImpl(hashes, reread.value, limits, false);
    if strict.Err? {
      return Err(Capsule(strict.error));
    }
    if |strict.value.generations| != generations || strict.value.validatedBytes != |reread.value| {
      return Err(VerificationMismatch);
    }
    if faults.syncAllFails {
      return Err(Io("flush recovered capsule data and metadata"));
    }
    return Ok(generations);
  }

  method RepairTornFile(hashes: Hashes, limits: Limits, file: DiskFile, strictError: CapsuleError, faults: Faults)
    returns (r: Result<nat, StoreError>)
    modifies file
    ensures Repair(file.contents, r)
              == RepairTornSuffix(CapsuleCodec(hashes), limits, old(file.contents), strictError, faults)
  {
    hide Scan, VerifyKept;
    var recovered := ScanCapsuleImpl(hashes, file.contents, limits, true);
    if recovered.Err? {
      return Err(Capsule(recovered.error));
    }
    var retained := recovered.value.validatedBytes;
    var generations := |recovered.value.generations|;
    if generations == 0 || retained == 0 || retained >= |file.contents| {
      return Err(Capsule(strictError));
    }
    if faults.setLengthFails {
      return Err(Io("discard proven torn capsule suffix"));
    }
    file.SetLength(retained);
    r := VerifyKeptFile(hashes, limits, file, generations, faults);
  }

  /** `resume_internal_with_identity`, from the opened file on. */
  method ResumeStore(hashes: Hashes, limits: Limits, file: DiskFile, recoverTornTail: bool, faults: Faults)
    returns (store: Option<Store>, r: Result<(), StoreError>)
    modifies file
    ensures var spec := Resume(CapsuleCodec(hashes), limits, old(file.contents), recoverTornTail, faults);
            && file.contents == spec.disk
            && match spec.result
               case Ok(state) => r == Ok(()) && store.Some? && store.value.file == file && store.value.State() == state
               case Err(e) => r == Err(e) && store.None?
  {
    hide Scan, RepairTornSuffix;
    store := None;
    var valid := ValidateLimits(limits);
    if valid.Err? {
      return None, Err(Capsule(valid.error));
    }
    if |file.contents| > limits.maxCapsuleBytes {
      return None, Err(TooLarge(|file.contents|, limits.maxCapsuleBytes));
    }
    if file.contents == [] {
      return None, Err(EmptyCapsule);
    }
    var bytes := file.ReadExact(0, |file.contents|, faults.read, "read capsule");
    if bytes.Err? {
      return None, Err(bytes.error);
    }
    assert bytes.value == file.contents;
    var scanned := ScanCapsuleImpl(hashes, bytes.value, limits, false);
    var generationCount: nat;
    if scanned.Ok? {
      if scanned.value.generations == [] || scanned.value.validatedBytes != |bytes.value| {
        return None, Err(EmptyCapsule);
      }
      generationCount := |scanned.value.generations|;
    } else if recoverTornTail {
      var repaired := RepairTornFile(hashes, limits, file, scanned.error, faults);
      if repaired.Err? {
        return None, Err(repaired.error);
      }
      generationCount := repaired.value;
    } else {
      return None, Err(Capsule(scanned.error));
    }
    if 1 in faults.inspections {
      return None, Err(Io("reinspect capsule"));
    }
    var handle := new Store(hashes, limits, file, file.contents, generationCount);
    return Some(handle), Ok(());
  }
}
