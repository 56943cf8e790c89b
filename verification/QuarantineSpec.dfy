/**
 What every state of a quarantine, a restore or a delete must show, and how each
 system call carries that property along.
 */
module QuarantineSpec {
  import opened Common
  import opened QuarantineFs

  // ------------------------------------------------------------ what a state must show

  predicate Mine(id: nat, p: Path) {
    !p.User? && p.id == id
  }

  predicate SameName(s: Fs, s': Fs, p: Path) {
    (p in s.names <==> p in s'.names) && (p in s.names ==> s.names[p] == s'.names[p])
  }

  predicate FreshId(s: Fs, id: nat) {
    forall p | p in s.names :: !Mine(id, p)
  }

  /** No name made from this identifier has ever resisted an unlink. */
  predicate Unstuck(id: nat, stuck: set<Path>) {
    forall p | p in stuck :: !Mine(id, p)
  }

  /** The temporary metadata name, if its own removal failed. */
  function TmpLeft(id: nat, nonce: nat, stuck: set<Path>): set<Path> {
    if MetaTmp(id, nonce) in stuck then {MetaTmp(id, nonce)} else {}
  }

  /** The names under which the manager stores content; the holding name is the source itself. */
  predicate Stored(id: nat, p: Path) {
    p == PayloadTmp(id) || p == Payload(id) || p == DeletePending(id) || p == MetaFile(id) || (p.MetaTmp? && p.id == id)
  }

  /** Read and write for the owner, nothing for anybody else. */
  predicate OwnerOnly(s: Fs, p: Path) {
    p in s.names && s.names[p] in s.inodes ==> s.inodes[s.names[p]].mode == 0x180
  }

  /** Whatever is stored for this item is closed to everybody but the owner. */
  predicate Guarded(s: Fs, id: nat) {
    forall p | p in s.names && Stored(id, p) :: OwnerOnly(s, p)
  }

  /** One quarantine under way: the state before it, the source and what the source holds. */
  datatype Case = Case(before: Fs, source: Path, id: nat, inode: nat, bytes: Bytes)

  ghost predicate CaseOk(c: Case) {
    && WellFormed(c.before) && FreshId(c.before, c.id) && !Mine(c.id, c.source)
    && Named(c.before, c.source, c.inode)
    && c.before.inodes[c.inode].content == Data(c.bytes)
  }

  /** Nothing but the source name and the manager's own names has changed, and those are closed to others. */
  ghost predicate Frame(c: Case, s: Fs) {
    && WellFormed(s) && Keeps(c.before, s) && Guarded(s, c.id)
    && forall p | p != c.source && !Mine(c.id, p) ::
      (p in c.before.names <==> p in s.names) && (p in s.names ==> s.names[p] == c.before.names[p])
  }

  /** The manager's names present are at most these. */
  ghost predicate OnlyMine(id: nat, s: Fs, extra: set<Path>) {
    forall p | p in s.names && Mine(id, p) :: p in extra
  }

  ghost predicate AtHome(c: Case, s: Fs, extra: set<Path>) {
    Frame(c, s) && Named(s, c.source, c.inode) && OnlyMine(c.id, s, extra)
  }

  ghost predicate Held(c: Case, s: Fs, extra: set<Path>) {
    && Frame(c, s) && c.source !in s.names
    && Named(s, Holding(c.id), c.inode) && OnlyMine(c.id, s, extra + {Holding(c.id)})
  }

  predicate Describes(sha: Bytes -> Sha, rec: QRecord, bytes: Bytes) {
    rec.sha == sha(bytes) && rec.size == |bytes|
  }

  /** A payload with whole metadata that matches it. */
  ghost predicate Verified(sha: Bytes -> Sha, id: nat, bytes: Bytes, s: Fs) {
    && Holds(s, Payload(id), Data(bytes))
    && MetaFile(id) in s.names && s.names[MetaFile(id)] in s.inodes
    && var f := s.inodes[s.names[MetaFile(id)]];
       f.content.Meta? && f.content.rec.id == id && Describes(sha, f.content.rec, bytes)
  }

  /**
    * The bytes are reachable, under the original name, the holding name, or as a verified payload;
    * copies are closed to others.
    */
  ghost predicate Safe(sha: Bytes -> Sha, c: Case, s: Fs) {
    && Guarded(s, c.id)
    && (|| (Named(s, c.source, c.inode) && Holds(s, c.source, Data(c.bytes)))
        || (Named(s, Holding(c.id), c.inode) && Holds(s, Holding(c.id), Data(c.bytes)))
        || Verified(sha, c.id, c.bytes, s))
  }

  ghost predicate SafeSince(sha: Bytes -> Sha, c: Case, trace: seq<Fs>, n: nat) {
    forall k | n <= k < |trace| :: Safe(sha, c, trace[k])
  }

  lemma SafeJoin(sha: Bytes -> Sha, c: Case, t1: seq<Fs>, t2: seq<Fs>, n: nat)
    requires n <= |t1| && Extends(t1, t2) && SafeSince(sha, c, t1, n) && SafeSince(sha, c, t2, |t1|)
    ensures SafeSince(sha, c, t2, n)
  {
    forall k | n <= k < |t2| ensures Safe(sha, c, t2[k]) {
      if k < |t1| {
        assert t2[..|t1|][k] == t1[k];
      }
    }
  }

  // ------------------------------------------------------------ one item as it is stored

  function MetaOf(s: Fs, id: nat): Option<QRecord> {
    if MetaFile(id) in s.names && s.names[MetaFile(id)] in s.inodes && s.inodes[s.names[MetaFile(id)]].content.Meta?
    then Some(s.inodes[s.names[MetaFile(id)]].content.rec) else None
  }

  function PayloadOf(s: Fs, id: nat): Option<Bytes> {
    if Payload(id) in s.names && s.names[Payload(id)] in s.inodes && s.inodes[s.names[Payload(id)]].content.Data?
    then Some(s.inodes[s.names[Payload(id)]].content.bytes) else None
  }

  /** What a restore needs of the store: live metadata, a payload that matches it, a free target. */
  predicate Restorable(sha: Bytes -> Sha, s: Fs, id: nat, target: Path) {
    && MetaOf(s, id).Some? && MetaOf(s, id).value.id == id && MetaOf(s, id).value.status != Deleted
    && PayloadOf(s, id).Some? && Describes(sha, MetaOf(s, id).value, PayloadOf(s, id).value)
    && target !in s.names
  }

  /** What a delete needs of the store: live metadata, a payload, and no delete already pending. */
  predicate Deletable(s: Fs, id: nat) {
    && MetaOf(s, id).Some? && MetaOf(s, id).value.id == id && MetaOf(s, id).value.status != Deleted
    && Payload(id) in s.names && DeletePending(id) !in s.names
  }

  // ------------------------------------------------------------ building blocks

  /** s differs from s0 in at most the content or mode of one inode. */
  predicate OnlyInode(s0: Fs, s: Fs, i: nat) {
    && s.names == s0.names && s.inodes.Keys == s0.inodes.Keys
    && forall j | j in s0.inodes && j != i :: s.inodes[j] == s0.inodes[j]
  }

  /** s differs from s0 in at most the content of one inode. */
  predicate OnlyContent(s0: Fs, s: Fs, i: nat) {
    OnlyInode(s0, s, i) && (i in s0.inodes ==> s.inodes[i].mode == s0.inodes[i].mode)
  }

  ghost predicate Extends<T(!new)>(a: seq<T>, b: seq<T>) {
    |a| <= |b| && b[..|a|] == a
  }

  /** How far preparing a temporary metadata file can have got. */
  ghost predicate TmpStep(s0: Fs, s: Fs, id: nat, nonce: nat) {
    && WellFormed(s) && Keeps(s0, s)
    && (SameName(s0, s, MetaTmp(id, nonce)) || OwnerOnly(s, MetaTmp(id, nonce)))
    && forall p | p != MetaTmp(id, nonce) ::
      (p in s0.names <==> p in s.names) && (p in s.names ==> s.names[p] == s0.names[p])
  }

  /** A temporary name is left behind only if it was there before or could not be unlinked. */
  predicate TmpGone(s0: Fs, s: Fs, stuck0: set<Path>, stuck: set<Path>, tmp: Path) {
    && (tmp in s.names ==> tmp in s0.names || tmp in stuck)
    && stuck0 <= stuck <= stuck0 + {tmp}
  }

  /** How far writing a metadata record can have got. */
  ghost predicate MetaStep(s0: Fs, s: Fs, rec: QRecord, nonce: nat) {
    && WellFormed(s) && Keeps(s0, s)
    && (forall p | p != MetaFile(rec.id) && p != MetaTmp(rec.id, nonce) ::
      (p in s0.names <==> p in s.names) && (p in s.names ==> s.names[p] == s0.names[p]))
    && (SameName(s0, s, MetaTmp(rec.id, nonce)) || OwnerOnly(s, MetaTmp(rec.id, nonce)))
    && (SameName(s0, s, MetaFile(rec.id)) ||
        (Holds(s, MetaFile(rec.id), Meta(rec)) && OwnerOnly(s, MetaFile(rec.id))))
  }

  lemma TmpCreated(s0: Fs, id: nat, nonce: nat, i: nat, c: Content)
    requires WellFormed(s0) && i !in s0.inodes
    ensures TmpStep(s0, Created(s0, MetaTmp(id, nonce), i, c), id, nonce)
  {
  }

  lemma TmpTouched(s0: Fs, s: Fs, id: nat, nonce: nat, i: nat, c: Content, mode: nat)
    requires TmpStep(s0, s, id, nonce) && i !in s0.inodes && i in s.inodes && mode == 0x180
    ensures TmpStep(s0, Filled(s, i, c), id, nonce) && TmpStep(s0, Moded(s, i, mode), id, nonce)
  {
  }

  lemma TmpUnlinked(s0: Fs, s: Fs, id: nat, nonce: nat)
    requires TmpStep(s0, s, id, nonce)
    ensures TmpStep(s0, Unlinked(s, MetaTmp(id, nonce)), id, nonce)
  {
  }

  lemma TmpIsMeta(s0: Fs, s: Fs, rec: QRecord, nonce: nat)
    requires TmpStep(s0, s, rec.id, nonce)
    ensures MetaStep(s0, s, rec, nonce)
  {
  }

  lemma MetaReplaced(s0: Fs, s: Fs, rec: QRecord, nonce: nat, i: nat)
    requires TmpStep(s0, s, rec.id, nonce)
    requires Named(s, MetaTmp(rec.id, nonce), i) && s.inodes[i] == File(Meta(rec), 0x180)
    ensures var s' := Renamed(s, MetaTmp(rec.id, nonce), MetaFile(rec.id));
      MetaStep(s0, s', rec, nonce) && Named(s', MetaFile(rec.id), i)
  {
  }

  lemma MetaModed(s0: Fs, s: Fs, rec: QRecord, nonce: nat, i: nat, mode: nat)
    requires MetaStep(s0, s, rec, nonce) && i !in s0.inodes && i in s.inodes && mode == 0x180
    ensures MetaStep(s0, Moded(s, i, mode), rec, nonce)
  {
  }

  lemma MetaUnlinked(s0: Fs, s: Fs, rec: QRecord, nonce: nat)
    requires MetaStep(s0, s, rec, nonce)
    ensures MetaStep(s0, Unlinked(s, MetaTmp(rec.id, nonce)), rec, nonce)
  {
  }

  // ------------------------------------------------------------ delete

  datatype DeleteCase = DeleteCase(before: Fs, rec: QRecord, updated: QRecord, nonce: nat, undoNonce: nat)

  ghost predicate DeleteOk(k: DeleteCase) {
    && WellFormed(k.before) && Holds(k.before, MetaFile(k.rec.id), Meta(k.rec))
    && Payload(k.rec.id) in k.before.names && DeletePending(k.rec.id) !in k.before.names
    && k.updated.id == k.rec.id && k.updated.status == Deleted
  }

  predicate DeleteName(k: DeleteCase, p: Path) {
    p == Payload(k.rec.id) || p == DeletePending(k.rec.id) || p == MetaFile(k.rec.id) ||
    p == MetaTmp(k.rec.id, k.nonce) || p == MetaTmp(k.rec.id, k.undoNonce)
  }

  /** Nothing but this item's own names changes, and its metadata is always one whole record. */
  ghost predicate DeleteFrame(k: DeleteCase, s: Fs) {
    && WellFormed(s) && Keeps(k.before, s)
    && (forall p | !DeleteName(k, p) ::
      (p in k.before.names <==> p in s.names) && (p in s.names ==> s.names[p] == k.before.names[p]))
    && (Holds(s, MetaFile(k.rec.id), Meta(k.rec)) || Holds(s, MetaFile(k.rec.id), Meta(k.updated)))
    && (Guarded(k.before, k.rec.id) ==> Guarded(s, k.rec.id))
  }

  ghost predicate Back(k: DeleteCase, s: Fs)
    requires Payload(k.rec.id) in k.before.names
  {
    Named(s, Payload(k.rec.id), k.before.names[Payload(k.rec.id)]) && DeletePending(k.rec.id) !in s.names
  }

  ghost predicate Pending(k: DeleteCase, s: Fs)
    requires Payload(k.rec.id) in k.before.names
  {
    Named(s, DeletePending(k.rec.id), k.before.names[Payload(k.rec.id)]) && Payload(k.rec.id) !in s.names
  }

  ghost predicate Gone(k: DeleteCase, s: Fs) {
    DeletePending(k.rec.id) !in s.names && Payload(k.rec.id) !in s.names
  }

  /** The payload has a name, or the metadata already says that it is deleted. */
  ghost predicate Reachable(k: DeleteCase, s: Fs)
    requires Payload(k.rec.id) in k.before.names
  {
    Back(k, s) || Pending(k, s) || (Gone(k, s) && Holds(s, MetaFile(k.rec.id), Meta(k.updated)))
  }

  predicate NoDeleteTmp(k: DeleteCase, s: Fs, stuck: set<Path>) {
    && (MetaTmp(k.rec.id, k.nonce) in s.names ==> MetaTmp(k.rec.id, k.nonce) in stuck)
    && (MetaTmp(k.rec.id, k.undoNonce) in s.names ==> MetaTmp(k.rec.id, k.undoNonce) in stuck)
  }

  ghost predicate DeleteSince(k: DeleteCase, trace: seq<Fs>, n: nat)
    requires Payload(k.rec.id) in k.before.names
  {
    forall i | n <= i < |trace| :: DeleteFrame(k, trace[i]) && Reachable(k, trace[i])
  }

  lemma DeleteJoin(k: DeleteCase, t1: seq<Fs>, t2: seq<Fs>, n: nat)
    requires Payload(k.rec.id) in k.before.names
    requires n <= |t1| && Extends(t1, t2) && DeleteSince(k, t1, n) && DeleteSince(k, t2, |t1|)
    ensures DeleteSince(k, t2, n)
  {
    forall i | n <= i < |t2| ensures DeleteFrame(k, t2[i]) && Reachable(k, t2[i]) {
      if i < |t1| {
        assert t2[..|t1|][i] == t1[i];
      }
    }
  }

  lemma DeleteMoved(k: DeleteCase)
    requires DeleteOk(k)
    ensures var s := Renamed(k.before, Payload(k.rec.id), DeletePending(k.rec.id));
      DeleteFrame(k, k.before) && Back(k, k.before) && DeleteFrame(k, s) && Pending(k, s)
  {
  }

  lemma DeleteBegins(k: DeleteCase, now: int)
    requires WellFormed(k.before) && Holds(k.before, MetaFile(k.rec.id), Meta(k.rec))
    requires Payload(k.rec.id) in k.before.names && DeletePending(k.rec.id) !in k.before.names
    requires k.updated == AsDeleted(k.rec, now)
    ensures DeleteOk(k)
  {
  }

  lemma DeleteStart(k: DeleteCase, t: seq<Fs>, n: nat)
    requires DeleteOk(k) && n <= |t| && forall i | n <= i < |t| :: t[i] == k.before
    ensures DeleteSince(k, t, n)
  {
    DeleteMoved(k);
  }

  lemma DeletableMeans(s: Fs, id: nat)
    requires WellFormed(s)
    ensures Deletable(s, id) <==>
      && MetaFile(id) in s.names && s.inodes[s.names[MetaFile(id)]].content.Meta?
      && s.inodes[s.names[MetaFile(id)]].content.rec.id == id
      && s.inodes[s.names[MetaFile(id)]].content.rec.status != Deleted
      && Payload(id) in s.names && DeletePending(id) !in s.names
  {
  }

  lemma DeleteMovedBack(k: DeleteCase, s: Fs)
    requires DeleteOk(k) && DeleteFrame(k, s) && Pending(k, s)
    ensures var s' := Renamed(s, DeletePending(k.rec.id), Payload(k.rec.id)); DeleteFrame(k, s') && Back(k, s')
  {
  }

  lemma DeleteMeta(k: DeleteCase, s: Fs, s': Fs, rec: QRecord, nonce: nat)
    requires DeleteOk(k) && DeleteFrame(k, s) && MetaStep(s, s', rec, nonce)
    requires rec == k.rec || rec == k.updated
    requires nonce == k.nonce || nonce == k.undoNonce
    ensures DeleteFrame(k, s')
    ensures Back(k, s) ==> Back(k, s')
    ensures Pending(k, s) ==> Pending(k, s')
    ensures Gone(k, s) ==> Gone(k, s')
  {
  }

  lemma DeleteUnlinked(k: DeleteCase, s: Fs)
    requires DeleteOk(k) && DeleteFrame(k, s) && Pending(k, s)
    ensures var s' := Unlinked(s, DeletePending(k.rec.id)); DeleteFrame(k, s') && Gone(k, s')
  {
  }

  /** How a delete that got as far as its pending rename may end. */
  ghost predicate DeleteEnds(k: DeleteCase, r: Outcome, lost: bool, s: Fs, stuck: set<Path>)
    requires Payload(k.rec.id) in k.before.names
  {
    && DeleteFrame(k, s)
    && (r.Done? ==> !lost && Gone(k, s) && r.rec == k.updated && Holds(s, MetaFile(k.rec.id), Meta(k.updated)))
    && (r.FailedSafely? ==> Holds(s, MetaFile(k.rec.id), Meta(k.rec)))
    && (r.FailedSafely? ==> if lost then Gone(k, s) else Back(k, s))
    && (!r.RollbackIncomplete? ==> NoDeleteTmp(k, s, stuck))
  }

  lemma DeletedRecord(k: DeleteCase, r: Outcome, lost: bool, s: Fs, stuck: set<Path>)
    requires Payload(k.rec.id) in k.before.names && DeleteEnds(k, r, lost, s, stuck) && r.Done?
    ensures r.rec == k.updated
  {
    hide DeleteFrame;
  }

  datatype Markers = Markers(holding: bool, tmp: bool, final: bool, meta: bool)

  function Extras(id: nat, m: Markers): set<Path> {
    (if m.tmp then {PayloadTmp(id)} else {}) +
    (if m.final then {Payload(id)} else {}) +
    (if m.meta then {MetaFile(id)} else {})
  }

  // ------------------------------------------------------------ steps of a held quarantine

  lemma HomeIsSafe(sha: Bytes -> Sha, c: Case, s: Fs, extra: set<Path>)
    requires CaseOk(c) && AtHome(c, s, extra)
    ensures Safe(sha, c, s)
  {
  }

  lemma HeldIsSafe(sha: Bytes -> Sha, c: Case, s: Fs, extra: set<Path>)
    requires CaseOk(c) && Held(c, s, extra)
    ensures Safe(sha, c, s)
  {
  }

  lemma Moved(c: Case, s: Fs)
    requires CaseOk(c) && AtHome(c, s, {})
    ensures Held(c, Renamed(s, c.source, Holding(c.id)), {})
  {
  }

  lemma MovedBack(c: Case, s: Fs, extra: set<Path>)
    requires CaseOk(c) && Held(c, s, extra)
    ensures AtHome(c, Renamed(s, Holding(c.id), c.source), extra)
  {
  }

  lemma HeldCreated(c: Case, s: Fs, extra: set<Path>, p: Path, i: nat, content: Content)
    requires CaseOk(c) && Held(c, s, extra) && i !in s.inodes && Mine(c.id, p) && p !in s.names
    ensures Held(c, Created(s, p, i, content), extra + {p})
  {
  }

  lemma HeldTouched(c: Case, s: Fs, s': Fs, extra: set<Path>, i: nat)
    requires CaseOk(c) && Held(c, s, extra) && OnlyInode(s, s', i) && i !in c.before.inodes
    requires i in s'.inodes ==> s'.inodes[i].mode == 0x180
    ensures Held(c, s', extra)
  {
  }

  lemma HeldPromoted(c: Case, s: Fs)
    requires CaseOk(c) && Held(c, s, {PayloadTmp(c.id)})
    ensures var s' := Renamed(s, PayloadTmp(c.id), Payload(c.id));
      PayloadTmp(c.id) in s.names ==> Held(c, s', {Payload(c.id)})
  {
  }

  lemma HeldMeta(c: Case, s: Fs, s': Fs, rec: QRecord, nonce: nat)
    requires CaseOk(c) && Held(c, s, {Payload(c.id)}) && rec.id == c.id && MetaStep(s, s', rec, nonce)
    ensures Held(c, s', {Payload(c.id), MetaFile(c.id)} +
                        if MetaTmp(c.id, nonce) in s'.names then {MetaTmp(c.id, nonce)} else {})
  {
  }

  lemma UnlinkedMine(c: Case, s: Fs, extra: set<Path>, p: Path)
    requires CaseOk(c) && Mine(c.id, p) && AtHome(c, s, extra)
    ensures AtHome(c, Unlinked(s, p), extra - {p})
  {
  }

  datatype Expect = Expect(inode: Option<nat>, size: Option<nat>, sha: Option<Sha>)

  datatype Outcome = Done(rec: QRecord) | Refused | AlreadyDeleted | FailedSafely | RollbackIncomplete

  // ------------------------------------------------------------ restore

  /** One restore: the state before it, the metadata as loaded and as it will be written. */
  datatype RestoreCase = RestoreCase(
    before: Fs, target: Path, rec: QRecord, updated: QRecord, nonce: nat, undoNonce: nat)

  ghost predicate RestoreOk(k: RestoreCase) {
    && WellFormed(k.before) && Holds(k.before, MetaFile(k.rec.id), Meta(k.rec))
    && k.updated.id == k.rec.id
    && k.target != MetaTmp(k.rec.id, k.nonce) && k.target != MetaTmp(k.rec.id, k.undoNonce)
  }

  predicate RestoreName(k: RestoreCase, p: Path) {
    p == MetaFile(k.rec.id) || p == MetaTmp(k.rec.id, k.nonce) || p == MetaTmp(k.rec.id, k.undoNonce) ||
    (p == k.target && p !in k.before.names)
  }

  /**
   What every instant of a restore keeps: no existing path or file is touched but
   the metadata name, and that always names one whole record, old or new.
   */
  ghost predicate RestoreFrame(k: RestoreCase, s: Fs) {
    && WellFormed(s) && Keeps(k.before, s)
    && (forall p | !RestoreName(k, p) ::
      (p in k.before.names <==> p in s.names) && (p in s.names ==> s.names[p] == k.before.names[p]))
    && (Holds(s, MetaFile(k.rec.id), Meta(k.rec)) || Holds(s, MetaFile(k.rec.id), Meta(k.updated)))
    && (Guarded(k.before, k.rec.id) && !Stored(k.rec.id, k.target) ==> Guarded(s, k.rec.id))
  }

  /** A temporary metadata name that exists nowhere and has never resisted an unlink. */
  predicate FreshTmp(s: Fs, stuck: set<Path>, tmp: Path) {
    tmp !in s.names && tmp !in stuck
  }

  /** Temporary names remain only where their own removal failed. */
  predicate NoTmpLeft(k: RestoreCase, s: Fs, stuck: set<Path>) {
    && (MetaTmp(k.rec.id, k.nonce) in s.names ==> MetaTmp(k.rec.id, k.nonce) in stuck)
    && (MetaTmp(k.rec.id, k.undoNonce) in s.names ==> MetaTmp(k.rec.id, k.undoNonce) in stuck)
  }

  ghost predicate RestoreSince(k: RestoreCase, trace: seq<Fs>, n: nat) {
    forall i | n <= i < |trace| :: RestoreFrame(k, trace[i])
  }

  lemma RestoreJoin(k: RestoreCase, t1: seq<Fs>, t2: seq<Fs>, n: nat)
    requires n <= |t1| && Extends(t1, t2) && RestoreSince(k, t1, n) && RestoreSince(k, t2, |t1|)
    ensures RestoreSince(k, t2, n)
  {
    forall i | n <= i < |t2| ensures RestoreFrame(k, t2[i]) {
      if i < |t1| {
        assert t2[..|t1|][i] == t1[i];
      }
    }
  }

  lemma RestoreStart(k: RestoreCase)
    requires RestoreOk(k)
    ensures RestoreFrame(k, k.before)
  {
  }

  lemma RestoreCreated(k: RestoreCase, s: Fs, i: nat)
    requires RestoreOk(k) && RestoreFrame(k, s) && k.target !in s.names && k.target !in k.before.names && i !in s.inodes
    ensures RestoreFrame(k, Created(s, k.target, i, Data([])))
  {
  }

  lemma BeforeWellFormed(k: RestoreCase)
    requires RestoreOk(k)
    ensures WellFormed(k.before)
  {
  }

  lemma OnlyTarget(k: RestoreCase, s: Fs, i: nat)
    requires WellFormed(k.before) && i !in k.before.inodes && s.names == k.before.names[k.target := i]
    ensures forall p | p in s.names && s.names[p] == i :: p == k.target
  {
  }

  lemma RestoreTouched(k: RestoreCase, s: Fs, s': Fs, i: nat)
    requires RestoreOk(k) && RestoreFrame(k, s) && OnlyInode(s, s', i) && i !in k.before.inodes
    requires i in s.inodes && s.inodes[i].content.Data?
    requires forall p | p in s.names && s.names[p] == i :: p == k.target
    ensures RestoreFrame(k, s')
  {
  }

  lemma RestoreMeta(k: RestoreCase, s: Fs, s': Fs, rec: QRecord, nonce: nat)
    requires RestoreOk(k) && RestoreFrame(k, s) && MetaStep(s, s', rec, nonce)
    requires rec == k.rec || rec == k.updated
    requires nonce == k.nonce || nonce == k.undoNonce
    ensures RestoreFrame(k, s')
  {
  }

  lemma RestoreUnlinked(k: RestoreCase, s: Fs)
    requires RestoreOk(k) && RestoreFrame(k, s) && k.target !in k.before.names
    ensures RestoreFrame(k, Unlinked(s, k.target))
  {
  }

  function LinkCount(s: Fs, i: nat): nat {
    |set p | p in s.names && s.names[p] == i|
  }

  // ------------------------------------------------------------ results

  /** What the caller asked for, and the isolation check, hold of the source as it was. */
  ghost predicate Expected(sha: Bytes -> Sha, c: Case, want: Expect) {
    && (want.inode.Some? ==> want.inode.value == c.inode)
    && (want.size.Some? ==> want.size.value == |c.bytes|)
    && (want.sha.Some? ==> want.sha.value == sha(c.bytes))
    && LinkCount(c.before, c.inode) == 1
  }

  /** The quarantined state: the source is gone and the payload and its metadata are in place. */
  ghost predicate Committed(sha: Bytes -> Sha, c: Case, s: Fs, rec: QRecord) {
    && Frame(c, s) && c.source !in s.names
    && OnlyMine(c.id, s, {Payload(c.id), MetaFile(c.id)})
    && Holds(s, Payload(c.id), Data(c.bytes)) && Holds(s, MetaFile(c.id), Meta(rec))
    && s.names[Payload(c.id)] !in c.before.inodes
    && OwnerOnly(s, Payload(c.id)) && OwnerOnly(s, MetaFile(c.id))
    && rec.id == c.id && Describes(sha, rec, c.bytes)
  }

  lemma CommitPoint(sha: Bytes -> Sha, c: Case, s: Fs, rec: QRecord)
    requires CaseOk(c) && Held(c, s, {Payload(c.id), MetaFile(c.id)})
    requires Holds(s, Payload(c.id), Data(c.bytes)) && s.names[Payload(c.id)] !in c.before.inodes
    requires Holds(s, MetaFile(c.id), Meta(rec))
    requires rec.id == c.id && Describes(sha, rec, c.bytes)
    ensures Committed(sha, c, Unlinked(s, Holding(c.id)), rec)
  {
  }

  /** The record that describes the quarantined file. */
  function RecordFor(sha: Bytes -> Sha, id: nat, source: Path, bytes: Bytes, mode: nat): QRecord {
    QRecord(id, source, sha(bytes), |bytes|, mode % 4096, Status.Quarantined, None, None, None, None)
  }

  /** A single-link source leaves no name behind for its inode. */
  lemma SourceIsolated(sha: Bytes -> Sha, c: Case, s: Fs, rec: QRecord)
    requires CaseOk(c) && Committed(sha, c, s, rec) && LinkCount(c.before, c.inode) == 1
    ensures forall p | p in s.names :: s.names[p] != c.inode
  {
    var links := set p | p in c.before.names && c.before.names[p] == c.inode;
    assert c.source in links;
    assert |links - {c.source}| == 0;
    assert forall p | p in c.before.names && p != c.source :: p !in links - {c.source};
  }

  lemma NothingLeft(c: Case, s: Fs, extra: set<Path>)
    requires CaseOk(c) && AtHome(c, s, extra)
    ensures extra == {} ==> s.names == c.before.names
  {
  }

  function AsRestored(rec: QRecord, target: Path, now: int): QRecord {
    rec.(status := Restored, restoredPath := Some(target),
         restoredMode := Some(rec.originalMode % 512), restoredAt := Some(now))
  }

  /** The target holds exactly the payload's verified bytes, under the permission bits of the original. */
  ghost predicate FilledAs(sha: Bytes -> Sha, rec: QRecord, target: Path, before: Fs, s: Fs) {
    && target in s.names && s.names[target] in s.inodes
    && Payload(rec.id) in before.names && before.names[Payload(rec.id)] in before.inodes
    && var f := before.inodes[before.names[Payload(rec.id)]];
       && f.content.Data? && Describes(sha, rec, f.content.bytes)
       && s.inodes[s.names[target]] == File(f.content, rec.originalMode % 512)
  }

  function AsDeleted(rec: QRecord, now: int): QRecord {
    rec.(status := Deleted, deletedAt := Some(now))
  }
}
