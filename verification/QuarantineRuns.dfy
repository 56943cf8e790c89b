/**
 The life of a quarantined item over whole runs: quarantines, restores and deletes of
 any items in any order, interleaved with arbitrary changes to other files.
 */
module QuarantineRuns {
  import opened Common
  import opened QuarantineFs
  import opened QuarantineSpec

  /** Metadata says "not deleted" exactly when a payload is present that matches it; both are closed to others. */
  ghost predicate ItemOk(sha: Bytes -> Sha, s: Fs, id: nat) {
    && Guarded(s, id)
    && (Payload(id) in s.names <==> PayloadOf(s, id).Some?)
    && match MetaOf(s, id)
       case None => MetaFile(id) !in s.names && Payload(id) !in s.names
       case Some(rec) =>
         && rec.id == id
         && (rec.status != Deleted <==> Payload(id) in s.names)
         && (PayloadOf(s, id).Some? ==> Describes(sha, rec, PayloadOf(s, id).value))
  }

  /** The fields that no operation may change. */
  predicate SameIdentity(a: QRecord, b: QRecord) {
    a.id == b.id && a.sha == b.sha && a.size == b.size && a.originalMode == b.originalMode &&
    a.originalPath == b.originalPath
  }

  /** Names of other items keep name and file. */
  ghost predicate OthersSame(s: Fs, s': Fs, id: nat) {
    forall p: Path | !p.User? && p.id != id :: SameEntry(s, s', p)
  }

  predicate SameEntry(s: Fs, s': Fs, p: Path) {
    && (p in s.names <==> p in s'.names)
    && (p in s.names ==> s.names[p] in s.inodes && s'.names[p] in s'.inodes &&
                         s.inodes[s.names[p]] == s'.inodes[s'.names[p]])
  }

  predicate Stays(s: Fs, s': Fs, id: nat) {
    && MetaOf(s', id) == MetaOf(s, id) && PayloadOf(s', id) == PayloadOf(s, id)
    && (Payload(id) in s'.names <==> Payload(id) in s.names)
    && (MetaFile(id) in s'.names <==> MetaFile(id) in s.names)
  }

  predicate Born(sha: Bytes -> Sha, s: Fs, s': Fs, id: nat) {
    && MetaFile(id) !in s.names && Payload(id) !in s.names
    && MetaOf(s', id).Some? && PayloadOf(s', id).Some?
    && MetaOf(s', id).value.status == Quarantined && MetaOf(s', id).value.id == id
    && Describes(sha, MetaOf(s', id).value, PayloadOf(s', id).value)
  }

  predicate Given(s: Fs, s': Fs, id: nat) {
    && MetaOf(s, id).Some? && MetaOf(s', id).Some? && SameIdentity(MetaOf(s, id).value, MetaOf(s', id).value)
    && MetaOf(s, id).value.status != Deleted && MetaOf(s', id).value.status == Restored
    && PayloadOf(s', id) == PayloadOf(s, id) && (Payload(id) in s'.names <==> Payload(id) in s.names)
  }

  predicate Removed(s: Fs, s': Fs, id: nat) {
    && MetaOf(s, id).Some? && MetaOf(s', id).Some? && SameIdentity(MetaOf(s, id).value, MetaOf(s', id).value)
    && MetaOf(s, id).value.status != Deleted && MetaOf(s', id).value.status == Deleted
    && Payload(id) !in s'.names
  }

  /** What an operation on one item may do when it ends other than by an incomplete rollback. */
  ghost predicate Transition(sha: Bytes -> Sha, s: Fs, s': Fs, id: nat) {
    && OthersSame(s, s', id) && (Guarded(s, id) ==> Guarded(s', id))
    && (Stays(s, s', id) || Born(sha, s, s', id) || Given(s, s', id) || Removed(s, s', id))
  }

  // ------------------------------------------------------------ the operations are transitions

  lemma QuarantineDone(sha: Bytes -> Sha, c: Case, s: Fs, rec: QRecord)
    requires CaseOk(c) && c.source.User? && Committed(sha, c, s, rec) && rec.status == Quarantined
    ensures Transition(sha, c.before, s, c.id) && Born(sha, c.before, s, c.id)
    ensures MetaOf(s, c.id) == Some(rec) && PayloadOf(s, c.id) == Some(c.bytes)
  {
  }

  lemma QuarantineFailed(sha: Bytes -> Sha, c: Case, s: Fs, nonce: nat, stuck: set<Path>)
    requires CaseOk(c) && c.source.User? && AtHome(c, s, TmpLeft(c.id, nonce, stuck))
    ensures Transition(sha, c.before, s, c.id) && Stays(c.before, s, c.id)
  {
  }

  lemma RestoreDone(sha: Bytes -> Sha, k: RestoreCase, s: Fs, now: int)
    requires RestoreOk(k) && k.target.User? && RestoreFrame(k, s)
    requires k.rec.status != Deleted && k.updated == AsRestored(k.rec, k.target, now)
    requires Holds(s, MetaFile(k.rec.id), Meta(k.updated))
    ensures Transition(sha, k.before, s, k.rec.id) && Given(k.before, s, k.rec.id)
  {
    assert SameName(k.before, s, Payload(k.rec.id));
  }

  lemma RestoreFailed(sha: Bytes -> Sha, k: RestoreCase, s: Fs)
    requires RestoreOk(k) && k.target.User? && RestoreFrame(k, s)
    requires Holds(s, MetaFile(k.rec.id), Meta(k.rec))
    ensures Transition(sha, k.before, s, k.rec.id) && Stays(k.before, s, k.rec.id)
  {
    assert SameName(k.before, s, Payload(k.rec.id));
  }

  /**
   Delete is a transition unless the directory sync failed after the payload was
   unlinked; `lost` says whether it did.
   */
  lemma DeleteEnded(sha: Bytes -> Sha, k: DeleteCase, r: Outcome, lost: bool, s: Fs, stuck: set<Path>, now: int)
    requires DeleteOk(k) && DeleteEnds(k, r, lost, s, stuck) && k.updated == AsDeleted(k.rec, now)
    requires ItemOk(sha, k.before, k.rec.id) && (r.Done? || r.FailedSafely?)
    ensures r.Done? ==> Transition(sha, k.before, s, k.rec.id) && Removed(k.before, s, k.rec.id)
    ensures r.FailedSafely? && !lost ==> Transition(sha, k.before, s, k.rec.id) && Stays(k.before, s, k.rec.id)
    ensures ItemOk(sha, s, k.rec.id) <==> !lost
  {
  }

  // ------------------------------------------------------------ the delete that breaks an item

  /** An atomic metadata write in which every call succeeds; i is the inode of the new file. */
  function MetaWritten(s: Fs, rec: QRecord, nonce: nat, i: nat): Fs {
    var tmp := MetaTmp(rec.id, nonce);
    var filled := Filled(Created(s, tmp, i, TornMeta), i, Meta(rec));
    Moded(Renamed(Moded(filled, i, 384), tmp, MetaFile(rec.id)), i, 384)
  }

  /**
   The calls of a delete that all succeed, but for the sync that follows the unlink,
   and those of the handler: the pending name is gone, so it only writes the old metadata.
   */
  function LostDelete(k: DeleteCase, i: nat, j: nat): Fs {
    var pending := Renamed(k.before, Payload(k.rec.id), DeletePending(k.rec.id));
    var gone := Unlinked(MetaWritten(pending, k.updated, k.nonce, i), DeletePending(k.rec.id));
    MetaWritten(gone, k.rec, k.undoNonce, j)
  }

  lemma MetaWrittenStep(s: Fs, rec: QRecord, nonce: nat, i: nat)
    requires WellFormed(s) && i !in s.inodes
    ensures MetaStep(s, MetaWritten(s, rec, nonce, i), rec, nonce)
    ensures Holds(MetaWritten(s, rec, nonce, i), MetaFile(rec.id), Meta(rec))
    ensures MetaTmp(rec.id, nonce) !in MetaWritten(s, rec, nonce, i).names
    ensures MetaWritten(s, rec, nonce, i).inodes.Keys == s.inodes.Keys + {i}
  {
  }

  lemma LostDeleteEnds(k: DeleteCase, i: nat, j: nat)
    requires DeleteOk(k) && k.nonce != k.undoNonce
    requires MetaTmp(k.rec.id, k.undoNonce) !in k.before.names
    requires i !in k.before.inodes && j !in k.before.inodes && i != j
    ensures DeleteEnds(k, FailedSafely, true, LostDelete(k, i, j), {})
  {
    hide DeleteFrame, MetaStep, MetaWritten;
    var id := k.rec.id;
    var pending := Renamed(k.before, Payload(id), DeletePending(id));
    DeleteMoved(k);
    PendingWritten(k, pending, i);
    var written := MetaWritten(pending, k.updated, k.nonce, i);
    DeleteMeta(k, pending, written, k.updated, k.nonce);
    DeleteUnlinked(k, written);
    var gone := Unlinked(written, DeletePending(id));
    FrameWellFormed(k, gone);
    MetaWrittenStep(gone, k.rec, k.undoNonce, j);
    DeleteMeta(k, gone, LostDelete(k, i, j), k.rec, k.undoNonce);
    TmpSame(gone, LostDelete(k, i, j), k.rec, k.undoNonce, MetaTmp(id, k.nonce));
  }

  lemma PendingWritten(k: DeleteCase, pending: Fs, i: nat)
    requires DeleteOk(k) && DeleteFrame(k, pending) && i !in pending.inodes
    ensures MetaStep(pending, MetaWritten(pending, k.updated, k.nonce, i), k.updated, k.nonce)
    ensures MetaTmp(k.rec.id, k.nonce) !in MetaWritten(pending, k.updated, k.nonce, i).names
    ensures MetaWritten(pending, k.updated, k.nonce, i).inodes.Keys == pending.inodes.Keys + {i}
  {
    hide MetaWritten, MetaStep;
    MetaWrittenStep(pending, k.updated, k.nonce, i);
  }

  lemma FrameWellFormed(k: DeleteCase, s: Fs)
    requires DeleteFrame(k, s)
    ensures WellFormed(s)
  {
  }

  lemma TmpSame(s: Fs, s': Fs, rec: QRecord, nonce: nat, p: Path)
    requires MetaStep(s, s', rec, nonce) && p != MetaFile(rec.id) && p != MetaTmp(rec.id, nonce)
    ensures p in s.names <==> p in s'.names
  {
  }

  /**
   From every sound and deletable item: that run of calls is reported as a failure that
   left things as they were, under metadata that still says "not deleted", and the
   item can be neither restored nor deleted any more.
   */
  lemma LostDeleteBreaks(sha: Bytes -> Sha, k: DeleteCase, i: nat, j: nat, now: int)
    requires DeleteOk(k) && k.updated == AsDeleted(k.rec, now) && ItemOk(sha, k.before, k.rec.id)
    requires k.nonce != k.undoNonce && MetaTmp(k.rec.id, k.undoNonce) !in k.before.names
    requires i !in k.before.inodes && j !in k.before.inodes && i != j
    ensures Deletable(k.before, k.rec.id)
    ensures DeleteEnds(k, FailedSafely, true, LostDelete(k, i, j), {})
    ensures MetaOf(LostDelete(k, i, j), k.rec.id) == Some(k.rec) && k.rec.status != Deleted
    ensures !ItemOk(sha, LostDelete(k, i, j), k.rec.id) && !Deletable(LostDelete(k, i, j), k.rec.id)
    ensures forall target :: !Restorable(sha, LostDelete(k, i, j), k.rec.id, target)
  {
    hide LostDelete, DeleteFrame;
    LostDeleteEnds(k, i, j);
    DeleteEnded(sha, k, FailedSafely, true, LostDelete(k, i, j), {}, now);
  }

  /** One quarantined empty file. */
  function OneItem(sha: Bytes -> Sha): QRecord {
    QRecord(0, User("a"), sha([]), 0, 420, Quarantined, None, None, None, None)
  }

  function OneItemStore(sha: Bytes -> Sha): Fs {
    Fs(map[Payload(0) := 0, MetaFile(0) := 1], map[0 := File(Data([]), 384), 1 := File(Meta(OneItem(sha)), 384)])
  }

  lemma LostDeleteExample(sha: Bytes -> Sha, now: int)
    ensures ItemOk(sha, OneItemStore(sha), 0) && Deletable(OneItemStore(sha), 0)
    ensures var s := LostDelete(DeleteCase(OneItemStore(sha), OneItem(sha), AsDeleted(OneItem(sha), now), 0, 1), 2, 3);
      && s.names == map[MetaFile(0) := 3] && s.inodes[3] == File(Meta(OneItem(sha)), 384)
      && !ItemOk(sha, s, 0)
  {
    LostDeleteBreaks(sha, DeleteCase(OneItemStore(sha), OneItem(sha), AsDeleted(OneItem(sha), now), 0, 1), 2, 3, now);
  }

  // ------------------------------------------------------------ runs

  datatype Event = OtherChange | OnItem(id: nat)

  ghost predicate StepOk(sha: Bytes -> Sha, s: Fs, s': Fs, e: Event) {
    match e
    case OtherChange => forall p: Path | !p.User? :: SameEntry(s, s', p)
    case OnItem(id) => Transition(sha, s, s', id)
  }

  ghost predicate IsRun(sha: Bytes -> Sha, run: seq<Fs>, events: seq<Event>) {
    && |run| == |events| + 1
    && forall i | 0 <= i < |events| :: StepOk(sha, run[i], run[i + 1], events[i])
  }

  lemma GuardedSame(s: Fs, s': Fs, id: nat)
    requires Guarded(s, id) && forall p: Path | !p.User? && p.id == id :: SameEntry(s, s', p)
    ensures Guarded(s', id)
  {
    forall p | p in s'.names && Stored(id, p) ensures OwnerOnly(s', p) {
      assert SameEntry(s, s', p) && OwnerOnly(s, p);
    }
  }

  lemma SameItem(sha: Bytes -> Sha, s: Fs, s': Fs, id: nat)
    requires ItemOk(sha, s, id) && Guarded(s', id)
    requires forall p: Path | !p.User? && p.id == id :: SameEntry(s, s', p)
    ensures ItemOk(sha, s', id) && Follows(s, s', id)
  {
    hide Guarded;
    assert SameEntry(s, s', Payload(id)) && SameEntry(s, s', MetaFile(id));
  }

  lemma StepKeeps(sha: Bytes -> Sha, s: Fs, s': Fs, e: Event, id: nat)
    requires ItemOk(sha, s, id) && StepOk(sha, s, s', e)
    ensures ItemOk(sha, s', id) && Follows(s, s', id)
  {
    if e != OnItem(id) {
      forall p: Path | !p.User? && p.id == id ensures SameEntry(s, s', p) {
      }
      GuardedSame(s, s', id);
      SameItem(sha, s, s', id);
    }
  }

  /** What one item's later state owes to its earlier state. */
  predicate Follows(s: Fs, s': Fs, id: nat) {
    && (MetaOf(s, id).Some? ==> MetaOf(s', id).Some? && SameIdentity(MetaOf(s, id).value, MetaOf(s', id).value))
    && (MetaOf(s, id).Some? && MetaOf(s, id).value.status == Deleted ==> MetaOf(s', id) == MetaOf(s, id))
    && (MetaOf(s, id).Some? && PayloadOf(s', id).Some? ==> PayloadOf(s', id) == PayloadOf(s, id))
  }

  lemma FollowsOn(s: Fs, s': Fs, s'': Fs, id: nat)
    requires Follows(s, s', id) && Follows(s', s'', id)
    ensures Follows(s, s'', id)
  {
    hide MetaOf, PayloadOf;
  }

  lemma FollowsItself(s: Fs, id: nat)
    ensures Follows(s, s, id)
  {
    hide MetaOf, PayloadOf;
  }

  /**
   Over every run from a sound store: the store stays sound, `deleted` is
   absorbing, an item's identity never changes, and a payload never changes while it exists.
   */
  lemma {:induction false} Lifecycle(sha: Bytes -> Sha, run: seq<Fs>, events: seq<Event>, id: nat, i: nat, j: nat)
    requires IsRun(sha, run, events) && ItemOk(sha, run[0], id) && i <= j < |run|
    ensures ItemOk(sha, run[i], id) && ItemOk(sha, run[j], id)
    ensures Follows(run[i], run[j], id)
    decreases j
  {
    hide StepOk, ItemOk, Follows;
    if i < j {
      Lifecycle(sha, run, events, id, i, j - 1);
      StepKeeps(sha, run[j - 1], run[j], events[j - 1], id);
      FollowsOn(run[i], run[j - 1], run[j], id);
    } else if i > 0 {
      Lifecycle(sha, run, events, id, i - 1, i - 1);
      StepKeeps(sha, run[i - 1], run[i], events[i - 1], id);
    }
    FollowsItself(run[i], id);
  }

  /** Quarantine and, any run later, restore: the same bytes, with the permission bits of the original. */
  lemma RoundTrip(sha: Bytes -> Sha, c: Case, run: seq<Fs>, events: seq<Event>, rec: QRecord, target: Path, s: Fs)
    requires CaseOk(c) && c.source.User?
    requires IsRun(sha, run, events)
    requires var born := RecordFor(sha, c.id, c.source, c.bytes, c.before.inodes[c.inode].mode);
      Committed(sha, c, run[0], born)
    requires MetaOf(run[|run| - 1], c.id) == Some(rec)
    requires FilledAs(sha, rec, target, run[|run| - 1], s)
    ensures Holds(s, target, Data(c.bytes))
    ensures s.inodes[s.names[target]].mode == c.before.inodes[c.inode].mode % 512
  {
    var born := RecordFor(sha, c.id, c.source, c.bytes, c.before.inodes[c.inode].mode);
    QuarantineDone(sha, c, run[0], born);
    assert ItemOk(sha, run[0], c.id);
    Lifecycle(sha, run, events, c.id, 0, |run| - 1);
    ModeBits(c.before.inodes[c.inode].mode);
  }

  lemma ModeBits(mode: nat)
    ensures mode % 4096 % 512 == mode % 512
  {
    assert mode == 4096 * (mode / 4096) + mode % 4096;
    assert mode % 4096 == 512 * (mode % 4096 / 512) + mode % 4096 % 512;
    assert mode == 512 * (8 * (mode / 4096) + mode % 4096 / 512) + mode % 4096 % 512;
  }
}
