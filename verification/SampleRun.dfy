/** Runs do start: one plan, codec and capsule that meet every hypothesis of the run theorems at once. */
module SampleRun {
  import opened Results
  import opened Bytes
  import opened CapsuleHeader
  import opened CapsuleLog
  import opened CapsuleFraming
  import opened CapsuleHistory
  import opened RollbackPlan
  import opened Conversion
  import opened CoupledRuns
  import Executor
  import Images
  import Model = StoreModel
  import NarrowedLimits
  import StoreSafety

  /** Every digest is zero, as an overlay digest that is constantly zero makes it. */
  function SamplePlan(r: Rollbacks): Prepared
  {
    Prepared(QUIET_IDENTITY, Preflight(ImageIdentity(Zeros(32), |SAMPLE_SOURCE|), Zeros(32)), Ntfs, Zeros(32),
        Zeros(32),
             Zeros(32), Zeros(32), Zeros(32), Zeros(32), Zeros(32), r, [1], Zeros(1), SMALL_LIMITS)
  }

  function ZeroDigest(): seq<Images.OverlayWrite> -> Digest
  {
    (_: seq<Images.OverlayWrite>) => Zeros(32)
  }

  /** The capsule as beginning it writes it, just made durable, beside an untouched source. */
  function SampleWorld(): World
  {
    var capsule := NarrowedLimits.WideCapsule(1);
    World(SAMPLE_SOURCE, Model.StoreState(capsule, capsule, 1, false))
  }

  /** A plan with relocations and all three groups, sealed from the source, its digests sealed, its
      capsule begun and accepted: the start of a run to which `CrashConvergence` applies. */
  lemma SampleRunStarts() returns (p: Prepared)
    ensures var c := CapsuleCodec(QUIET_HASHES);
            && RoundTrips(c)
            && SealedFrom(p.rollbacks, SAMPLE_SOURCE) && p.rollbacks.relocations != []
            && Executor.DigestsSealed(p, ZeroDigest())
            && Started(c, p, SAMPLE_SOURCE, SampleWorld())
    ensures BeginCapsule(CapsuleCodec(QUIET_HASHES), p, [], Observed(p.preflight.image, Some(p.preflight.sourceDigest)))
         == Recorded(SampleWorld().store.bytes, Ok(()))
  {
    hide Scan, Append, AppendAll, SealedFrom, NarrowedLimits.WideCapsule;
    var r := SamplePlanSeals();
    p := SamplePlan(r);
    var c := CapsuleCodec(QUIET_HASHES);
    var entries := NarrowedLimits.TornEntries()[..1];
    CapsuleCodecRoundTrips(QUIET_HASHES);
    NarrowedLimits.WideCapsulesWritten();
    NarrowedLimits.LastAppend(c, entries, SMALL_LIMITS);
    assert entries[..0] == [];
    NothingAppended(c);
  }

  lemma NothingAppended(c: Codec)
    ensures AppendAll(c, [], SMALL_LIMITS) == Ok([])
  {
  }
}
