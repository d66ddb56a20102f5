/** The regular-image executor: groups of writes applied in chunks, any chunk of which may fail part
    way, and the authorization of rollback intents. */
module Executor {
  import opened Results
  import opened Bytes
  import opened Sorting
  import opened Images
  import opened CapsuleHeader
  import opened RollbackPlan
  import opened Conversion

  datatype ExecutorError =
    | Injected
    | RangeOutsideImage(offset: nat, length: nat)
    | InvalidRelocation(index: nat)
    | NotAuthorized
    | NonMutatingIntent
    | InvalidExecutionLease
    | LeaseIntentMismatch

  /** What becomes of one chunk: it lands whole and verified, or only a prefix lands and the run ends.
      A failed read-back or an injected fault after the write is a failure with everything landed. */
  datatype Fate = Lands | Fails(landed: nat)

  function FateOf(fates: seq<Fate>, n: nat): Fate
  {
    if n < |fates| then fates[n] else Lands
  }

  lemma PieceInside(image: seq<Byte>, writes: seq<OverlayWrite>, w: OverlayWrite, n: nat)
    requires w in writes && Fits(w, |image|) && n <= |w.bytes|
    ensures AgreeOutside(ApplyWrite(image, Piece(w, n)), image, writes)
  {
    forall position: nat | position < |image| && !Covered(writes, position)
      ensures ApplyWrite(image, Piece(w, n))[position] == image[position]
    {
      WriteAt(image, Piece(w, n), position);
      assert !Covers(w, position);
    }
  }

  lemma AgreeOutsideTransitive(a: seq<Byte>, b: seq<Byte>, c: seq<Byte>, writes: seq<OverlayWrite>)
    requires AgreeOutside(a, b, writes) && AgreeOutside(b, c, writes)
    ensures AgreeOutside(a, c, writes)
  {
  }

  /** The image file: fixed length, positional writes. */
  class ImageFile {
    var contents: seq<Byte>

    constructor (initial: seq<Byte>)
      ensures contents == initial
    {
      contents := initial;
    }

    method WriteAt(offset: nat, bytes: Payload)
      requires offset + |bytes| <= |contents|
      modifies this
      ensures contents == ApplyWrite(old(contents), OverlayWrite(offset, bytes))
    {
      contents := contents[..offset] + bytes + contents[offset + |bytes|..];
    }

    /** One prepared write, chunk by chunk. */
    method ApplyOne(w: OverlayWrite, chunk: nat, fates: seq<Fate>, used: nat) returns (completed: bool, next: nat)
      requires chunk > 0 && Fits(w, |contents|)
      modifies this
      ensures completed ==> contents == ApplyWrite(old(contents), w)
      ensures exists n: nat :: n <= |w.bytes| && contents == ApplyWrite(old(contents), Piece(w, n))
      ensures fates == [] ==> completed
    {
      var relative := 0;
      next := used;
      PieceEnds(contents, w);
      while relative < |w.bytes|
        invariant 0 <= relative <= |w.bytes|
        invariant contents == ApplyWrite(old(contents), Piece(w, relative))
        decreases |w.bytes| - relative
      {
        var count := Min(|w.bytes| - relative, chunk);
        var fate := FateOf(fates, next);
        next := next + 1;
        var landed := if fate.Lands? then count else Min(fate.landed, count);
        PieceGrows(old(contents), w, relative, landed);
        WriteAt(w.offset + relative, w.bytes[relative..relative + landed]);
        relative := relative + landed;
        if fate.Fails? {
          return false, next;
        }
      }
      assert Piece(w, |w.bytes|) == w;
      return true, next;
    }

    /** `apply_write_refs`: a failure anywhere leaves the image changed only inside the group; success
        means exactly the whole group was applied, in order. */
    method ApplyWrites(writes: seq<OverlayWrite>, chunk: nat, fates: seq<Fate>, syncFails: bool)
      returns (r: Result<(), ExecutorError>)
      requires chunk > 0
      modifies this
      ensures AgreeOutside(contents, old(contents), writes)
      ensures r.Ok? ==> AllFit(writes, |contents|) && contents == ApplyAll(old(contents), writes)
      ensures fates == [] && !syncFails && AllFit(writes, |old(contents)|) && NonemptyWrites(writes) ==> r.Ok?
    {
      var used := 0;
      var k := 0;
      while k < |writes|
        invariant 0 <= k <= |writes|
        invariant |contents| == |old(contents)|
        invariant AllFit(writes[..k], |contents|) && contents == ApplyAll(old(contents), writes[..k])
        invariant AgreeOutside(contents, old(contents), writes)
      {
        var w := writes[k];
        assert w in writes;
        if w.bytes == [] || EndOf(w) > |contents| {
          return Err(RangeOutsideImage(w.offset, |w.bytes|));
        }
        ghost var before := contents;
        var completed;
        completed, used := ApplyOne(w, chunk, fates, used);
        ghost var n: nat :| n <= |w.bytes| && contents == ApplyWrite(before, Piece(w, n));
        PieceInside(before, writes, w, n);
        AgreeOutsideTransitive(contents, before, old(contents), writes);
        if !completed {
          return Err(Injected);
        }
        assert writes[..k + 1][..k] == writes[..k] && writes[..k + 1][k] == w;
        k := k + 1;
      }
      assert writes[..k] == writes;
      if syncFails {
        return Err(Injected);
      }
      return Ok(());
    }
  }

  // ----- relocation -----

  predicate Overlapping(a: ByteRange, b: ByteRange)
  {
    a.offset < b.offset + b.length && b.offset < a.offset + a.length
  }

  /** What the executor checks of each relocation before copying it. */
  predicate ValidRelocation(x: Relocation, length: nat)
  {
    && x.source.length == x.destination.length && x.source.length != 0
    && !Overlapping(x.source, x.destination)
    && x.source.offset + x.source.length <= length
    && x.destination.offset + x.destination.length <= length
  }

  /** What the layout solver guarantees: destinations are free space, apart from one another. */
  ghost predicate FreeDestinations(relocations: seq<Relocation>)
  {
    && (forall i, j :: 0 <= i < |relocations| && 0 <= j < |relocations| ==>
          !Overlapping(relocations[i].source, relocations[j].destination))
    && (forall i, j :: 0 <= i < j < |relocations| ==>
          !Overlapping(relocations[i].destination, relocations[j].destination))
  }

  /** The write a relocation amounts to. */
  function CopyOf(image: seq<Byte>, x: Relocation): OverlayWrite
    requires ValidRelocation(x, |image|)
  {
    OverlayWrite(x.destination.offset, image[x.source.offset..x.source.offset + x.source.length])
  }

  ghost predicate ChangedOnlyIn(a: seq<Byte>, b: seq<Byte>, spans: seq<Span>)
  {
    |a| == |b| && forall position: nat :: position < |a| && !SpansCover(spans, position) ==> a[position] == b[position]
  }

  ghost predicate Copied(was: seq<Byte>, now: seq<Byte>, x: Relocation)
  {
    && ValidRelocation(x, |was|) && |now| == |was|
    && now[x.destination.offset..x.destination.offset + x.destination.length]
       == was[x.source.offset..x.source.offset + x.source.length]
  }

  lemma PieceInDestination(image: seq<Byte>, relocations: seq<Relocation>, k: nat, n: nat)
    requires k < |relocations| && ValidRelocation(relocations[k], |image|)
    requires n <= relocations[k].source.length
    ensures ChangedOnlyIn(ApplyWrite(image, Piece(CopyOf(image, relocations[k]), n)), image, Destinations(relocations))
  {
    var piece := Piece(CopyOf(image, relocations[k]), n);
    forall position: nat | position < |image| && !SpansCover(Destinations(relocations), position)
      ensures ApplyWrite(image, piece)[position] == image[position]
    {
      WriteAt(image, piece, position);
      assert Destinations(relocations)[k] in Destinations(relocations);
      assert !SpanCovers(Destinations(relocations)[k], position);
    }
  }

  /** A written range reads back; a range apart from it is as before. */
  lemma RangeAfterWrite(image: seq<Byte>, w: OverlayWrite, offset: nat, length: nat)
    requires Fits(w, |image|) && offset + length <= |image|
    ensures ApplyWrite(image, w)[w.offset..EndOf(w)] == w.bytes
    ensures offset + length <= w.offset || EndOf(w) <= offset ==>
              ApplyWrite(image, w)[offset..offset + length] == image[offset..offset + length]
  {
    var after := ApplyWrite(image, w);
    var written, kept, was := after[w.offset..EndOf(w)], after[offset..offset + length], image[offset..offset + length];
    forall k | 0 <= k < |w.bytes|
      ensures written[k] == w.bytes[k]
    {
      WriteAt(image, w, w.offset + k);
    }
    if offset + length <= w.offset || EndOf(w) <= offset {
      forall k | 0 <= k < length
        ensures kept[k] == was[k]
      {
        WriteAt(image, w, offset + k);
      }
    }
  }

  /** One finished copy: its destination holds the source, and earlier copies still stand. */
  lemma CopyExtends(was: seq<Byte>, before: seq<Byte>, relocations: seq<Relocation>, k: nat)
    requires k < |relocations| && FreeDestinations(relocations) && ValidRelocation(relocations[k], |before|)
    requires ChangedOnlyIn(before, was, Destinations(relocations))
    requires forall i :: 0 <= i < k ==> Copied(was, before, relocations[i])
    ensures var now := ApplyWrite(before, CopyOf(before, relocations[k]));
            forall i :: 0 <= i <= k ==> Copied(was, now, relocations[i])
  {
    hide ApplyWrite;
    var x := relocations[k];
    var w := CopyOf(before, x);
    SourceUntouched(was, before, relocations, k);
    RangeAfterWrite(before, w, 0, 0);
    forall i | 0 <= i < k
      ensures Copied(was, ApplyWrite(before, w), relocations[i])
    {
      var d := relocations[i].destination;
      assert Copied(was, before, relocations[i]);
      assert !Overlapping(d, x.destination);
      RangeAfterWrite(before, w, d.offset, d.length);
    }
  }

  lemma SourceUntouched(was: seq<Byte>, before: seq<Byte>, relocations: seq<Relocation>, k: nat)
    requires k < |relocations| && FreeDestinations(relocations) && ValidRelocation(relocations[k], |before|)
    requires ChangedOnlyIn(before, was, Destinations(relocations))
    ensures var s := relocations[k].source;
            before[s.offset..s.offset + s.length] == was[s.offset..s.offset + s.length]
  {
    var s := relocations[k].source;
    forall position: nat | s.offset <= position < s.offset + s.length
      ensures before[position] == was[position]
    {
      forall span | span in Destinations(relocations)
        ensures !SpanCovers(span, position)
      {
        var j :| 0 <= j < |relocations| && Destinations(relocations)[j] == span;
        assert !Overlapping(relocations[k].source, relocations[j].destination);
      }
    }
  }

  /** Copying into a destination apart from the source leaves the source readable. */
  lemma SourceStillThere(before: seq<Byte>, x: Relocation, relative: nat, count: nat)
    requires ValidRelocation(x, |before|) && relative + count <= x.source.length
    ensures var w := CopyOf(before, x);
            var from := x.source.offset + relative;
            ApplyWrite(before, Piece(w, relative))[from..from + count] == w.bytes[relative..relative + count]
  {
    var w := CopyOf(before, x);
    var from := x.source.offset + relative;
    var now := ApplyWrite(before, Piece(w, relative));
    var got, wanted := now[from..from + count], w.bytes[relative..relative + count];
    forall k | 0 <= k < count
      ensures got[k] == wanted[k]
    {
      WriteAt(before, Piece(w, relative), from + k);
      assert wanted[k] == w.bytes[relative + k];
    }
  }

  /** One relocation: read a chunk of the source, write it at the destination. */
  method CopyOne(file: ImageFile, x: Relocation, chunk: nat, fates: seq<Fate>, used: nat)
    returns (completed: bool, next: nat)
    requires chunk > 0 && ValidRelocation(x, |file.contents|)
    modifies file
    ensures completed ==> file.contents == ApplyWrite(old(file.contents), CopyOf(old(file.contents), x))
    ensures exists n: nat :: n <= x.source.length
              && file.contents == ApplyWrite(old(file.contents), Piece(CopyOf(old(file.contents), x), n))
  {
    hide ApplyWrite, Overlapping;
    ghost var before := file.contents;
    ghost var w := CopyOf(before, x);
    PieceEnds(before, w);
    var relative := 0;
    next := used;
    while relative < x.source.length
      invariant 0 <= relative <= x.source.length
      invariant file.contents == ApplyWrite(before, Piece(w, relative))
      decreases x.source.length - relative
    {
      var count := Min(x.source.length - relative, chunk);
      var from := x.source.offset + relative;
      var bytes := file.contents[from..from + count];
      SourceStillThere(before, x, relative, count);
      var fate := FateOf(fates, next);
      next := next + 1;
      var landed := if fate.Lands? then count else Min(fate.landed, count);
      PieceGrows(before, w, relative, landed);
      assert w.bytes[relative..relative + count][..landed] == w.bytes[relative..relative + landed];
      file.WriteAt(x.destination.offset + relative, bytes[..landed]);
      relative := relative + landed;
      if fate.Fails? {
        return false, next;
      }
    }
    assert Piece(w, |w.bytes|) == w;
    return true, next;
  }

  /** `copy_relocations`: whatever fails, only destinations change; on success into free space every
      destination holds its source's original bytes. */
  method CopyRelocations(file: ImageFile, relocations: seq<Relocation>, chunk: nat, fates: seq<Fate>, syncFails: bool)
    returns (r: Result<(), ExecutorError>)
    requires chunk > 0
    modifies file
    ensures ChangedOnlyIn(file.contents, old(file.contents), Destinations(relocations))
    ensures r.Ok? ==> forall i :: 0 <= i < |relocations| ==> ValidRelocation(relocations[i], |file.contents|)
    ensures r.Ok? && FreeDestinations(relocations) ==>
              forall i :: 0 <= i < |relocations| ==> Copied(old(file.contents), file.contents, relocations[i])
  {
    hide Overlapping;
    ghost var was := file.contents;
    var used := 0;
    var k := 0;
    while k < |relocations|
      invariant 0 <= k <= |relocations|
      invariant ChangedOnlyIn(file.contents, was, Destinations(relocations))
      invariant forall i :: 0 <= i < k ==> ValidRelocation(relocations[i], |was|)
      invariant FreeDestinations(relocations) ==> forall i :: 0 <= i < k ==> Copied(was, file.contents, relocations[i])
    {
      var x := relocations[k];
      if x.source.length != x.destination.length || x.source.length == 0 || Overlapping(x.source, x.destination) {
        return Err(InvalidRelocation(k));
      }
      if x.source.offset + x.source.length > |file.contents| {
        return Err(RangeOutsideImage(x.source.offset, x.source.length));
      }
      if x.destination.offset + x.destination.length > |file.contents| {
        return Err(RangeOutsideImage(x.destination.offset, x.destination.length));
      }
      ghost var before := file.contents;
      var completed;
      completed, used := CopyOne(file, x, chunk, fates, used);
      ghost var n: nat :| n <= x.source.length && file.contents == ApplyWrite(before, Piece(CopyOf(before, x), n));
      PieceInDestination(before, relocations, k, n);
      if !completed {
        return Err(Injected);
      }
      if FreeDestinations(relocations) {
        CopyExtends(was, before, relocations, k);
      }
      k := k + 1;
    }
    if syncFails {
      return Err(Injected);
    }
    return Ok(());
  }

  // ----- forward authorization -----

  /** The phase completed by executing an intent, if the plan authorizes exactly that intent. */
  function CompletedPhase(p: Prepared, intent: Intent): Result<Phase, ExecutorError>
  {
    match intent
    case Relocate(relocations) => if relocations != p.rollbacks.relocations then Err(NotAuthorized) else Ok(Relocating)
    case StageTarget(writes) => if writes != p.rollbacks.writes.targetStaging then Err(NotAuthorized)
        else Ok(TargetStaged)
    case WriteBackupBoot(writes) => if writes != p.rollbacks.writes.backupBoot then Err(NotAuthorized)
        else Ok(BackupBootWritten)
    case Activate(writes) => if writes != p.rollbacks.writes.activation then Err(NotAuthorized) else Ok(Activated)
    case _ => Err(NonMutatingIntent)
  }

  /** A one-use capability minted from a checkpoint. */
  datatype Lease = Lease(phase: Phase, planDigest: Digest, instance: Digest)

  /** The lease and the plan must both belong to the opened file. */
  predicate LeaseHolds(p: Prepared, file: ImageIdentity, lease: Lease)
  {
    lease.planDigest == p.planDigest && lease.instance == file.instance && p.preflight.image == file
  }

  /** `execute_leased_intent`: a valid lease on a checkpoint admits one kind of intent. The plan has no
      materializations to refuse here; building it refused them. */
  function ExecuteLeased(p: Prepared, file: ImageIdentity, lease: Lease, intent: Intent): Result<Phase, ExecutorError>
  {
    if !LeaseHolds(p, file, lease) then
      Err(InvalidExecutionLease)
    else if (lease.phase == Reserved && intent.Relocate?) || (lease.phase == Relocating && intent.StageTarget?)
            || (lease.phase == TargetStaged && intent.WriteBackupBoot?)
            || (lease.phase == BackupBootWritten && intent.Activate?) then
      CompletedPhase(p, intent)
    else
      Err(LeaseIntentMismatch)
  }

  /** The bytes an intent writes. */
  ghost predicate IntentTouches(intent: Intent, position: int)
  {
    match intent
    case Relocate(relocations) => SpansCover(Destinations(relocations), position)
    case StageTarget(writes) => Covered(Forward(writes), position)
    case WriteBackupBoot(writes) => Covered(Forward(writes), position)
    case Activate(writes) => Covered(Forward(writes), position)
    case _ => false
  }

  /** Under a lease minted for this plan and this file, and under no other, the executor accepts from
      each phase exactly one intent, the coordinator's own (at `TargetStaged` the one backup-boot
      authorization hands out); it completes exactly the next phase and touches exactly that phase's
      group. */
  lemma LeasedIntentExact(p: Prepared, file: ImageIdentity, lease: Lease, intent: Intent)
    ensures ExecuteLeased(p, file, lease, intent).Ok? <==>
              && lease.planDigest == p.planDigest && lease.instance == file.instance && file == p.preflight.image
              && (|| (lease.phase in {Reserved, Relocating, BackupBootWritten} && intent == IntentAfter(p, lease.phase))
                  || (lease.phase == TargetStaged && intent == WriteBackupBoot(p.rollbacks.writes.backupBoot)))
    ensures ExecuteLeased(p, file, lease, intent).Ok? ==>
              && NextPhase(lease.phase) == Some(ExecuteLeased(p, file, lease, intent).value)
              && forall position :: IntentTouches(intent, position) <==> GroupCovers(p.rollbacks, lease.phase, position)
  {
  }

  // ----- rollback authorization -----

  /** The digests sealed in the plan are those of its overlays. */
  predicate DigestsSealed(p: Prepared, overlayDigest: seq<OverlayWrite> -> Digest)
  {
    && p.relocationDigest == overlayDigest(p.rollbacks.relocation)
    && p.stagingDigest == overlayDigest(p.rollbacks.staging)
    && p.preactivationDigest == overlayDigest(p.rollbacks.preactivation)
    && p.fullDigest == overlayDigest(p.rollbacks.full)
  }

  /** `execute_rollback_with_faults`, up to the first write: the accepted overlays are staging,
      preactivation and full. */
  function AuthorizeRollback(p: Prepared, overlayDigest: seq<OverlayWrite> -> Digest, intent: RollbackIntent)
    : Result<seq<OverlayWrite>, ExecutorError>
  {
    match intent
    case DiscardStaging => Ok([])
    case RestoreSource(writes, digest) =>
      if writes !in [p.rollbacks.staging, p.rollbacks.preactivation, p.rollbacks.full]
          || overlayDigest(writes) != digest then
        Err(NotAuthorized)
      else
        Ok(writes)
  }

  /** The executor accepts the coordinator's rollback intent from every open phase but one: from
      `Reserved`, with anything to relocate, the intent names the relocation overlay, which is not
      among the accepted ones. Where accepted, the writes are the phase's before-images. */
  lemma RollbackAuthorizedExactly(p: Prepared, overlayDigest: seq<OverlayWrite> -> Digest, source: seq<Byte>,
                                  phase: Phase)
    requires SealedFrom(p.rollbacks, source) && DigestsSealed(p, overlayDigest) && Open(phase)
    ensures var r := AuthorizeRollback(p, overlayDigest, RollbackIntentFor(p, phase).value);
            && (r.Ok? <==> !(phase == Reserved && p.rollbacks.relocations != []))
            && (r.Ok? ==> r.value == RollbackWrites(p.rollbacks, phase))
  {
    hide SealedFrom, SameWrites, AllApart, RollbackPairs, SortBy, TakenFrom;
    var before := SoundBefore(p.rollbacks, source);
    assert |p.rollbacks.relocation| < |p.rollbacks.staging| <= |p.rollbacks.preactivation| <= |p.rollbacks.full|;
  }
}
