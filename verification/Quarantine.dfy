/**
 The quarantine manager: a protected move with rollback, an exclusive restore and a
 rollback-capable delete, over a file system whose every call may fail.
 */
module Quarantine {
  import opened Common
  import opened QuarantineFs
  import opened QuarantineSpec
  import opened QuarantineRuns

  /** The most bytes one read of the copy loop asks for. */
  const CHUNK: nat := 1024 * 1024

  class QuarantineManager {
    const fs: FileSystem
    const sha: Bytes -> Sha

    constructor (fs: FileSystem, sha: Bytes -> Sha)
      ensures this.fs == fs && this.sha == sha
    {
      this.fs, this.sha := fs, sha;
    }

    /** The inner write loop: every write may be short or fail. */
    method WriteAll(dst: nat, chunk: Bytes) returns (ok: bool)
      requires fs.Valid() && dst in fs.st.inodes && fs.st.inodes[dst].content.Data?
      modifies fs
      ensures fs.Valid() && fs.stuck == old(fs.stuck) && Extends(old(fs.trace), fs.trace)
      ensures forall k | |old(fs.trace)| <= k < |fs.trace| :: OnlyContent(old(fs.st), fs.trace[k], dst)
      ensures OnlyContent(old(fs.st), fs.st, dst)
      ensures fs.st.inodes[dst].content.Data? && fs.st.inodes[dst].mode == old(fs.st).inodes[dst].mode
      ensures ok ==> fs.st.inodes[dst].content.bytes == old(fs.st).inodes[dst].content.bytes + chunk
      ensures fs.faults >= old(fs.faults) + if !ok then 1 else 0
    {
      ghost var before := fs.st.inodes[dst].content.bytes;
      ghost var done := 0;
      var view := chunk;
      assert before + chunk[..0] == before;
      while view != []
        invariant fs.Valid() && fs.stuck == old(fs.stuck) && Extends(old(fs.trace), fs.trace)
        invariant forall k | |old(fs.trace)| <= k < |fs.trace| :: OnlyContent(old(fs.st), fs.trace[k], dst)
        invariant OnlyContent(old(fs.st), fs.st, dst)
        invariant done <= |chunk| && view == chunk[done..]
        invariant fs.st.inodes[dst] == File(Data(before + chunk[..done]), old(fs.st).inodes[dst].mode)
        invariant fs.faults >= old(fs.faults)
        decreases |view|
      {
        var written := fs.Write(dst, view);
        if written.None? {
          return false;
        }
        var n := written.value;
        assert before + chunk[..done] + view[..n] == before + chunk[..done + n];
        view := view[n..];
        done := done + n;
      }
      assert chunk[..done] == chunk;
      return true;
    }

    /** The chunked copy: reads may be short, and any read may fail. */
    method CopyBetween(src: nat, dst: nat) returns (r: Option<(Sha, nat)>)
      requires fs.Valid() && src != dst && src in fs.st.inodes && dst in fs.st.inodes
      requires fs.st.inodes[src].content.Data? && fs.st.inodes[dst].content == Data([])
      modifies fs
      ensures fs.Valid() && fs.stuck == old(fs.stuck) && Extends(old(fs.trace), fs.trace)
      ensures forall k | |old(fs.trace)| <= k < |fs.trace| :: OnlyContent(old(fs.st), fs.trace[k], dst)
      ensures OnlyContent(old(fs.st), fs.st, dst)
      ensures fs.st.inodes[dst].content.Data? && fs.st.inodes[dst].mode == old(fs.st).inodes[dst].mode
      ensures r.Some? ==> var bytes := old(fs.st).inodes[src].content.bytes;
        r.value == (sha(bytes), |bytes|) && fs.st.inodes[dst].content == Data(bytes)
      ensures fs.faults >= old(fs.faults) + if r.None? then 1 else 0
    {
      var bytes := fs.st.inodes[src].content.bytes;
      var digested: Bytes, total := [], 0;
      while true
        invariant fs.Valid() && fs.stuck == old(fs.stuck) && Extends(old(fs.trace), fs.trace)
        invariant forall k | |old(fs.trace)| <= k < |fs.trace| :: OnlyContent(old(fs.st), fs.trace[k], dst)
        invariant OnlyContent(old(fs.st), fs.st, dst)
        invariant fs.st.inodes[dst] == File(Data(digested), old(fs.st).inodes[dst].mode)
        invariant total <= |bytes| && digested == bytes[..total]
        invariant fs.faults >= old(fs.faults)
        decreases |bytes| - total
      {
        var readable := fs.Try();
        if !readable {
          return None;
        }
        if total == |bytes| {
          break;
        }
        var size: nat :| 1 <= size <= CHUNK && size <= |bytes| - total;
        var chunk := bytes[total..total + size];
        var ok := WriteAll(dst, chunk);
        if !ok {
          return None;
        }
        assert bytes[..total + size] == bytes[..total] + chunk;
        digested := digested + chunk;
        total := total + size;
      }
      assert bytes[..total] == bytes;
      var rewound := fs.Try();
      if !rewound {
        return None;
      }
      return Some((sha(digested), total));
    }

    /** The first half of an atomic metadata write: a whole temporary file, or nothing. */
    method WriteTmp(rec: QRecord, nonce: nat) returns (fd: Option<nat>)
      requires fs.Valid()
      modifies fs
      ensures fs.Valid() && Extends(old(fs.trace), fs.trace)
      ensures forall k | |old(fs.trace)| <= k < |fs.trace| :: TmpStep(old(fs.st), fs.trace[k], rec.id, nonce)
      ensures TmpStep(old(fs.st), fs.st, rec.id, nonce)
      ensures fd.Some? ==> fs.stuck == old(fs.stuck) && fd.value !in old(fs.st).inodes
      ensures fd.Some? ==> Named(fs.st, MetaTmp(rec.id, nonce), fd.value)
      ensures fd.Some? ==> fs.st.inodes[fd.value] == File(Meta(rec), 0x180)
      ensures fd.None? ==> TmpGone(old(fs.st), fs.st, old(fs.stuck), fs.stuck, MetaTmp(rec.id, nonce))
      ensures fs.faults >= old(fs.faults) + if fd.None? && MetaTmp(rec.id, nonce) !in old(fs.st.names) then 1 else 0
      ensures fs.syncFaults == old(fs.syncFaults)
    {
      ghost var s0 := fs.st;
      fd := fs.CreateExcl(MetaTmp(rec.id, nonce), TornMeta);
      if fd.None? {
        return;
      }
      TmpCreated(s0, rec.id, nonce, fd.value, TornMeta);
      var ok := FillTmp(s0, rec, nonce, fd.value);
      if !ok {
        ghost var s := fs.st;
        TmpUnlinked(s0, s, rec.id, nonce);
        var _ := fs.Unlink(MetaTmp(rec.id, nonce));
        fd := None;
      }
    }

    method FillTmp(ghost s0: Fs, rec: QRecord, nonce: nat, fd: nat) returns (ok: bool)
      requires fs.Valid() && TmpStep(s0, fs.st, rec.id, nonce)
      requires fd !in s0.inodes && Named(fs.st, MetaTmp(rec.id, nonce), fd) && fs.st.inodes[fd].mode == 0x180
      modifies fs
      ensures fs.Valid() && Extends(old(fs.trace), fs.trace) && fs.stuck == old(fs.stuck)
      ensures forall k | |old(fs.trace)| <= k < |fs.trace| :: TmpStep(s0, fs.trace[k], rec.id, nonce)
      ensures TmpStep(s0, fs.st, rec.id, nonce) && fs.st.names == old(fs.st).names
      ensures fd in fs.st.inodes && (ok ==> fs.st.inodes[fd] == File(Meta(rec), 0x180))
      ensures fs.faults >= old(fs.faults) + if !ok then 1 else 0
      ensures fs.syncFaults == old(fs.syncFaults)
    {
      TmpTouched(s0, fs.st, rec.id, nonce, fd, Meta(rec), 384);
      TmpTouched(s0, fs.st, rec.id, nonce, fd, TornMeta, 384);
      ok := fs.WriteMeta(fd, rec);
      if ok {
        TmpTouched(s0, fs.st, rec.id, nonce, fd, Meta(rec), 384);
        ok := fs.Chmod(fd, 384);
      }
      if ok {
        ok := fs.Try();
      }
    }

    /** Write to a temporary name, then rename over the metadata name. */
    method WriteMetadata(rec: QRecord, nonce: nat) returns (ok: bool)
      requires fs.Valid()
      modifies fs
      ensures fs.Valid() && Extends(old(fs.trace), fs.trace)
      ensures forall k | |old(fs.trace)| <= k < |fs.trace| :: MetaStep(old(fs.st), fs.trace[k], rec, nonce)
      ensures MetaStep(old(fs.st), fs.st, rec, nonce)
      ensures ok ==> Holds(fs.st, MetaFile(rec.id), Meta(rec)) && OwnerOnly(fs.st, MetaFile(rec.id))
      ensures ok ==> MetaTmp(rec.id, nonce) !in fs.st.names && fs.stuck == old(fs.stuck)
      ensures !ok ==> TmpGone(old(fs.st), fs.st, old(fs.stuck), fs.stuck, MetaTmp(rec.id, nonce))
      ensures fs.faults >= old(fs.faults) + if !ok && MetaTmp(rec.id, nonce) !in old(fs.st.names) then 1 else 0
      ensures fs.syncFaults == old(fs.syncFaults)
    {
      ghost var s0 := fs.st;
      var fd := WriteTmp(rec, nonce);
      forall k | |old(fs.trace)| <= k < |fs.trace| ensures MetaStep(s0, fs.trace[k], rec, nonce) {
        TmpIsMeta(s0, fs.trace[k], rec, nonce);
      }
      TmpIsMeta(s0, fs.st, rec, nonce);
      if fd.None? {
        return false;
      }
      ok := Publish(s0, rec, nonce, fd.value);
      if !ok {
        MetaUnlinked(s0, fs.st, rec, nonce);
        var _ := fs.Unlink(MetaTmp(rec.id, nonce));
      }
    }

    method Publish(ghost s0: Fs, rec: QRecord, nonce: nat, fd: nat) returns (ok: bool)
      requires fs.Valid() && TmpStep(s0, fs.st, rec.id, nonce) && fd !in s0.inodes
      requires Named(fs.st, MetaTmp(rec.id, nonce), fd) && fs.st.inodes[fd] == File(Meta(rec), 0x180)
      modifies fs
      ensures fs.Valid() && Extends(old(fs.trace), fs.trace) && fs.stuck == old(fs.stuck)
      ensures forall k | |old(fs.trace)| <= k < |fs.trace| :: MetaStep(s0, fs.trace[k], rec, nonce)
      ensures MetaStep(s0, fs.st, rec, nonce)
      ensures ok ==> Holds(fs.st, MetaFile(rec.id), Meta(rec)) && MetaTmp(rec.id, nonce) !in fs.st.names
      ensures ok ==> OwnerOnly(fs.st, MetaFile(rec.id))
      ensures fs.faults >= old(fs.faults) + if !ok then 1 else 0
      ensures fs.syncFaults == old(fs.syncFaults)
    {
      TmpIsMeta(s0, fs.st, rec, nonce);
      MetaReplaced(s0, fs.st, rec, nonce, fd);
      ok := fs.Replace(MetaTmp(rec.id, nonce), MetaFile(rec.id));
      if ok {
        MetaModed(s0, fs.st, rec, nonce, fd, 384);
        ok := fs.Chmod(fd, 384);
        if ok {
          ok := fs.Try();
        }
      }
    }

    // ---------------------------------------------------------- quarantine

    /** Open, check and move the source to its private holding name. */
    method Hold(ghost c: Case, fd: nat, source: Path, id: nat, want: Expect) returns (ok: bool, holding: bool)
      requires fs.Valid() && CaseOk(c) && fs.st == c.before
      requires fd == c.inode && source == c.source && id == c.id
      modifies fs
      ensures fs.Valid() && Extends(old(fs.trace), fs.trace) && fs.stuck == old(fs.stuck)
      ensures SafeSince(sha, c, fs.trace, |old(fs.trace)|)
      ensures ok ==> holding && Held(c, fs.st, {}) && Expected(sha, c, want)
      ensures !ok ==> fs.st == c.before || (holding && Held(c, fs.st, {}))
      ensures fs.faults >= old(fs.faults) + if !ok && Expected(sha, c, want) then 1 else 0
    {
      ghost var start := |fs.trace|;
      HomeIsSafe(sha, c, fs.st, {});
      var bytes := fs.st.inodes[fd].content.bytes;
      if (want.inode.Some? && want.inode.value != fd)
        || (want.size.Some? && want.size.value != |bytes|)
        || LinkCount(fs.st, fd) != 1
      {
        return false, false;
      }
      ok := fs.Try();
      if !ok || (want.sha.Some? && want.sha.value != sha(bytes)) {
        return false, false;
      }
      Moved(c, fs.st);
      ok := fs.MoveNoReplace(source, Holding(id));
      if !ok {
        return false, true;
      }
      HeldIsSafe(sha, c, fs.st, {});
      ok := fs.Try();
      if !ok || fs.st.names[Holding(id)] != fd {
        return false, true;
      }
      return true, true;
    }

    /** Copy the held file to a temporary payload, verify the copy and give it its final name. */
    method CopyPayload(ghost c: Case, fd: nat, id: nat) returns (ok: bool, m: Markers)
      requires fs.Valid() && CaseOk(c) && Held(c, fs.st, {}) && fd == c.inode && id == c.id
      modifies fs
      ensures fs.Valid() && Extends(old(fs.trace), fs.trace) && fs.stuck == old(fs.stuck)
      ensures SafeSince(sha, c, fs.trace, |old(fs.trace)|)
      ensures Held(c, fs.st, Extras(id, m)) && m.holding && !m.meta
      ensures ok ==> m == Markers(true, false, true, false)
      ensures ok ==> Holds(fs.st, Payload(id), Data(c.bytes)) && fs.st.names[Payload(id)] !in c.before.inodes
      ensures fs.faults >= old(fs.faults) + if !ok then 1 else 0
    {
      hide Safe;
      m := Markers(true, true, true, false);
      ghost var s0 := fs.st;
      HeldIsSafe(sha, c, fs.st, {});
      var dst := fs.CreateExcl(PayloadTmp(id), Data([]));
      if dst.None? {
        return false, m;
      }
      HeldCreated(c, s0, {}, PayloadTmp(id), dst.value, Data([]));
      HeldIsSafe(sha, c, fs.st, {PayloadTmp(id)});
      ghost var n, t1 := |old(fs.trace)|, fs.trace;
      ok := FillPayload(c, fd, dst.value, id);
      SafeJoin(sha, c, t1, fs.trace, n);
      if !ok {
        return false, m;
      }
      ghost var t2 := fs.trace;
      ok, m := PromotePayload(c, dst.value, id);
      SafeJoin(sha, c, t2, fs.trace, n);
    }

    method PromotePayload(ghost c: Case, dst: nat, id: nat) returns (ok: bool, m: Markers)
      requires fs.Valid() && CaseOk(c) && Held(c, fs.st, {PayloadTmp(id)}) && id == c.id
      requires Named(fs.st, PayloadTmp(id), dst) && dst !in c.before.inodes
      requires fs.st.inodes[dst].content == Data(c.bytes)
      modifies fs
      ensures fs.Valid() && Extends(old(fs.trace), fs.trace) && fs.stuck == old(fs.stuck)
      ensures SafeSince(sha, c, fs.trace, |old(fs.trace)|)
      ensures Held(c, fs.st, Extras(id, m)) && m.holding && !m.meta
      ensures ok ==> m == Markers(true, false, true, false)
      ensures ok ==> Named(fs.st, Payload(id), dst) && fs.st.inodes[dst].content == Data(c.bytes)
      ensures fs.faults >= old(fs.faults) + if !ok then 1 else 0
    {
      m := Markers(true, true, true, false);
      HeldIsSafe(sha, c, fs.st, {PayloadTmp(id)});
      HeldPromoted(c, fs.st);
      ok := fs.MoveNoReplace(PayloadTmp(id), Payload(id));
      if !ok {
        return false, m;
      }
      m := Markers(true, false, true, false);
      HeldIsSafe(sha, c, fs.st, {Payload(id)});
      ghost var s1 := fs.st;
      ok := fs.Chmod(dst, 384);
      HeldTouched(c, s1, fs.st, {Payload(id)}, dst);
      HeldIsSafe(sha, c, fs.st, {Payload(id)});
      if ok {
        ok := fs.SyncPayloads();
      }
    }

    method FillPayload(ghost c: Case, fd: nat, dst: nat, id: nat) returns (ok: bool)
      requires fs.Valid() && CaseOk(c) && Held(c, fs.st, {PayloadTmp(id)}) && fd == c.inode && id == c.id
      requires Named(fs.st, PayloadTmp(id), dst) && dst !in c.before.inodes
      requires fs.st.inodes[dst].content == Data([])
      modifies fs
      ensures fs.Valid() && Extends(old(fs.trace), fs.trace) && fs.stuck == old(fs.stuck)
      ensures SafeSince(sha, c, fs.trace, |old(fs.trace)|)
      ensures Held(c, fs.st, {PayloadTmp(id)}) && OnlyInode(old(fs.st), fs.st, dst)
      ensures ok ==> fs.st.inodes[dst].content == Data(c.bytes)
      ensures fs.faults >= old(fs.faults) + if !ok then 1 else 0
    {
      ghost var s0, n := fs.st, |fs.trace|;
      var copied := CopyBetween(fd, dst);
      forall k | n <= k < |fs.trace| ensures Safe(sha, c, fs.trace[k]) {
        HeldTouched(c, s0, fs.trace[k], {PayloadTmp(id)}, dst);
        HeldIsSafe(sha, c, fs.trace[k], {PayloadTmp(id)});
      }
      HeldTouched(c, s0, fs.st, {PayloadTmp(id)}, dst);
      if copied.None? {
        return false;
      }
      ghost var s1 := fs.st;
      ok := fs.Chmod(dst, 384);
      HeldTouched(c, s1, fs.st, {PayloadTmp(id)}, dst);
      HeldIsSafe(sha, c, fs.st, {PayloadTmp(id)});
      if ok {
        ok := fs.Try();
      }
      var bytes := fs.st.inodes[fd].content.bytes;
      ok := ok && copied == Some((sha(bytes), |bytes|));
    }

    method CommitMeta(ghost c: Case, rec: QRecord, nonce: nat) returns (ok: bool)
      requires fs.Valid() && CaseOk(c) && Held(c, fs.st, {Payload(c.id)})
      requires Holds(fs.st, Payload(c.id), Data(c.bytes)) && fs.st.names[Payload(c.id)] !in c.before.inodes
      requires rec.id == c.id && Unstuck(c.id, fs.stuck)
      modifies fs
      ensures fs.Valid() && Extends(old(fs.trace), fs.trace) && old(fs.stuck) <= fs.stuck
      ensures SafeSince(sha, c, fs.trace, |old(fs.trace)|)
      ensures Held(c, fs.st, {Payload(c.id), MetaFile(c.id)} + TmpLeft(c.id, nonce, fs.stuck))
      ensures ok ==> Held(c, fs.st, {Payload(c.id), MetaFile(c.id)}) && fs.stuck == old(fs.stuck)
      ensures ok ==> Holds(fs.st, MetaFile(c.id), Meta(rec)) && Holds(fs.st, Payload(c.id), Data(c.bytes))
      ensures ok ==> fs.st.names[Payload(c.id)] !in c.before.inodes
      ensures fs.faults >= old(fs.faults) + if !ok then 1 else 0
    {
      ghost var s0, n := fs.st, |fs.trace|;
      ok := WriteMetadata(rec, nonce);
      forall k | n <= k < |fs.trace| ensures Safe(sha, c, fs.trace[k]) {
        HeldMeta(c, s0, fs.trace[k], rec, nonce);
      }
      HeldMeta(c, s0, fs.st, rec, nonce);
    }

    /** Write the metadata, then remove the holding name: the commit point. */
    method Commit(ghost c: Case, rec: QRecord, nonce: nat) returns (ok: bool, m: Markers)
      requires fs.Valid() && CaseOk(c) && Held(c, fs.st, {Payload(c.id)})
      requires Holds(fs.st, Payload(c.id), Data(c.bytes)) && fs.st.names[Payload(c.id)] !in c.before.inodes
      requires rec.id == c.id && Describes(sha, rec, c.bytes) && Unstuck(c.id, fs.stuck)
      modifies fs
      ensures fs.Valid() && Extends(old(fs.trace), fs.trace)
      ensures SafeSince(sha, c, fs.trace, |old(fs.trace)|)
      ensures old(fs.stuck) <= fs.stuck
      ensures !ok ==> m.holding && Held(c, fs.st, Extras(c.id, m) + TmpLeft(c.id, nonce, fs.stuck))
      ensures ok ==> Committed(sha, c, fs.st, rec) && fs.stuck == old(fs.stuck)
      ensures fs.faults >= old(fs.faults) + if !ok then 1 else 0
    {
      hide Held;
      m := Markers(true, false, true, true);
      ok := CommitMeta(c, rec, nonce);
      assert Extras(c.id, m) == {Payload(c.id), MetaFile(c.id)};
      if !ok {
        return false, m;
      }
      CommitPoint(sha, c, fs.st, rec);
      HeldIsSafe(sha, c, fs.st, {Payload(c.id), MetaFile(c.id)});
      ok := fs.Unlink(Holding(rec.id));
      if ok {
        var _ := fs.Try();
      }
    }

    /** The try-block of quarantine_file after the source is open. */
    method Attempt(ghost c: Case, fd: nat, source: Path, id: nat, nonce: nat, want: Expect)
      returns (rec: Option<QRecord>, m: Markers)
      requires fs.Valid() && CaseOk(c) && fs.st == c.before && Unstuck(id, fs.stuck)
      requires fd == c.inode && source == c.source && id == c.id
      modifies fs
      ensures fs.Valid() && Extends(old(fs.trace), fs.trace) && old(fs.stuck) <= fs.stuck
      ensures SafeSince(sha, c, fs.trace, |old(fs.trace)|)
      ensures rec.Some? ==> Committed(sha, c, fs.st, rec.value) && Expected(sha, c, want) && fs.stuck == old(fs.stuck)
      ensures rec.Some? ==> rec.value == RecordFor(sha, id, source, c.bytes, c.before.inodes[fd].mode)
      ensures rec.None? && fs.st != c.before ==>
        m.holding && Held(c, fs.st, Extras(id, m) + TmpLeft(id, nonce, fs.stuck))
      ensures fs.faults >= old(fs.faults) + if rec.None? && Expected(sha, c, want) then 1 else 0
    {
      hide Safe, SafeSince, Held, Committed, Expected, LinkCount;
      ghost var n := |fs.trace|;
      var bytes, mode := fs.st.inodes[fd].content.bytes, fs.st.inodes[fd].mode;
      m := Markers(false, false, false, false);
      var ok, holding := Hold(c, fd, source, id, want);
      m := m.(holding := holding);
      assert TmpLeft(id, nonce, fs.stuck) == {};
      if !ok {
        assert Extras(id, m) + TmpLeft(id, nonce, fs.stuck) == {};
        return None, m;
      }
      ghost var t1 := fs.trace;
      ok, m := CopyPayload(c, fd, id);
      SafeJoin(sha, c, t1, fs.trace, n);
      if !ok {
        assert Extras(id, m) + TmpLeft(id, nonce, fs.stuck) == Extras(id, m);
        return None, m;
      }
      assert Extras(id, m) == {Payload(id)};
      rec := Some(RecordFor(sha, id, source, bytes, mode));
      ghost var t2 := fs.trace;
      ok, m := Commit(c, rec.value, nonce);
      SafeJoin(sha, c, t2, fs.trace, n);
      if !ok {
        rec := None;
      }
    }

    /** Undo whatever the markers say may have been done, the source first. */
    method Rollback(ghost c: Case, source: Path, id: nat, m: Markers, ghost extra: set<Path>) returns (ok: bool)
      requires fs.Valid() && CaseOk(c) && source == c.source && id == c.id
      requires fs.st == c.before || (m.holding && Held(c, fs.st, Extras(id, m) + extra))
      modifies fs
      ensures fs.Valid() && Extends(old(fs.trace), fs.trace) && old(fs.stuck) <= fs.stuck
      ensures SafeSince(sha, c, fs.trace, |old(fs.trace)|)
      ensures ok ==> AtHome(c, fs.st, extra) && fs.stuck == old(fs.stuck)
      ensures fs.faults >= old(fs.faults) + if !ok then 1 else 0
    {
      hide Safe, WellFormed, Extras;
      if m.holding && Holding(id) in fs.st.names {
        HeldIsSafe(sha, c, fs.st, Extras(id, m) + extra);
        if source in fs.st.names {
          return false;
        }
        MovedBack(c, fs.st, Extras(id, m) + extra);
        ok := fs.MoveNoReplace(Holding(id), source);
        if !ok {
          return false;
        }
        HomeIsSafe(sha, c, fs.st, Extras(id, m) + extra);
        ok := fs.Try();
        if !ok {
          return false;
        }
      }
      ok := RemoveArtifacts(c, id, m, extra);
    }

    method RemoveArtifacts(ghost c: Case, id: nat, m: Markers, ghost extra: set<Path>) returns (ok: bool)
      requires fs.Valid() && CaseOk(c) && id == c.id && AtHome(c, fs.st, Extras(id, m) + extra)
      modifies fs
      ensures fs.Valid() && Extends(old(fs.trace), fs.trace) && old(fs.stuck) <= fs.stuck
      ensures SafeSince(sha, c, fs.trace, |old(fs.trace)|)
      ensures ok ==> AtHome(c, fs.st, extra) && fs.stuck == old(fs.stuck)
      ensures fs.faults >= old(fs.faults) + if !ok then 1 else 0
    {
      ok := RemoveMarked(c, id, m, extra);
      if ok {
        HomeIsSafe(sha, c, fs.st, extra);
        ok := fs.SyncPayloads();
        if ok {
          ok := fs.Try();
        }
      }
    }

    method RemoveMarked(ghost c: Case, id: nat, m: Markers, ghost extra: set<Path>) returns (ok: bool)
      requires fs.Valid() && CaseOk(c) && id == c.id && AtHome(c, fs.st, Extras(id, m) + extra)
      modifies fs
      ensures fs.Valid() && Extends(old(fs.trace), fs.trace) && old(fs.stuck) <= fs.stuck
      ensures SafeSince(sha, c, fs.trace, |old(fs.trace)|)
      ensures ok ==> AtHome(c, fs.st, extra) && fs.stuck == old(fs.stuck)
      ensures fs.faults >= old(fs.faults) + if !ok then 1 else 0
    {
      hide AtHome, Safe, SafeSince;
      ghost var e0 := Extras(id, m) + extra;
      ghost var e1 := Extras(id, m.(tmp := false)) + extra;
      ghost var e2 := Extras(id, m.(tmp := false, meta := false)) + extra;
      ghost var n := |fs.trace|;
      ok := Remove(c, PayloadTmp(id), m.tmp, e0, e1);
      if ok {
        ghost var t1 := fs.trace;
        ok := Remove(c, MetaFile(id), m.meta, e1, e2);
        SafeJoin(sha, c, t1, fs.trace, n);
      }
      if ok {
        ghost var t2 := fs.trace;
        ok := Remove(c, Payload(id), m.final, e2, extra);
        SafeJoin(sha, c, t2, fs.trace, n);
      }
    }

    /** Unlink one artifact if its marker is set. */
    method Remove(ghost c: Case, p: Path, marked: bool, ghost before: set<Path>, ghost after: set<Path>)
      returns (ok: bool)
      requires fs.Valid() && CaseOk(c) && Mine(c.id, p) && AtHome(c, fs.st, before)
      requires if marked then before - {p} <= after else before <= after
      modifies fs
      ensures fs.Valid() && Extends(old(fs.trace), fs.trace) && old(fs.stuck) <= fs.stuck
      ensures SafeSince(sha, c, fs.trace, |old(fs.trace)|)
      ensures ok ==> AtHome(c, fs.st, after) && fs.stuck == old(fs.stuck)
      ensures fs.faults >= old(fs.faults) + if !ok then 1 else 0
    {
      if !marked {
        return true;
      }
      HomeIsSafe(sha, c, fs.st, before);
      UnlinkedMine(c, fs.st, before, p);
      ok := fs.Unlink(p);
      if ok {
        HomeIsSafe(sha, c, fs.st, before - {p});
      }
    }

    /** quarantine_file once the source is open: attempt, then undo on any failure. */
    method QuarantineOpened(ghost c: Case, fd: nat, source: Path, id: nat, nonce: nat, want: Expect)
      returns (r: Outcome)
      requires fs.Valid() && CaseOk(c) && fs.st == c.before && Unstuck(id, fs.stuck)
      requires fd == c.inode && source == c.source && id == c.id
      modifies fs
      ensures fs.Valid() && Extends(old(fs.trace), fs.trace) && old(fs.stuck) <= fs.stuck
      ensures SafeSince(sha, c, fs.trace, |old(fs.trace)|)
      ensures r.Done? || r.FailedSafely? || r.RollbackIncomplete?
      ensures r.Done? ==> Committed(sha, c, fs.st, r.rec) && Expected(sha, c, want)
      ensures r.Done? ==> r.rec == RecordFor(sha, id, source, c.bytes, c.before.inodes[fd].mode)
      ensures r.Done? ==> forall p | p in fs.st.names :: fs.st.names[p] != c.inode
      ensures r.FailedSafely? ==> AtHome(c, fs.st, TmpLeft(id, nonce, fs.stuck))
      ensures r.FailedSafely? && MetaTmp(id, nonce) !in fs.stuck ==> fs.st.names == c.before.names
      ensures fs.faults >= old(fs.faults) + if r.RollbackIncomplete? then 1 else 0
      ensures !r.Done? && Expected(sha, c, want) ==> fs.faults > old(fs.faults)
    {
      hide Held, Safe, SafeSince, Committed, RecordFor, Unstuck, WellFormed, CaseOk, AtHome;
      ghost var n := |fs.trace|;
      var rec, m := Attempt(c, fd, source, id, nonce, want);
      if rec.Some? {
        SourceIsolated(sha, c, fs.st, rec.value);
        return Done(rec.value);
      }
      ghost var t := fs.trace;
      var ok := Rollback(c, source, id, m, TmpLeft(id, nonce, fs.stuck));
      SafeJoin(sha, c, t, fs.trace, n);
      if ok {
        NothingLeft(c, fs.st, TmpLeft(id, nonce, fs.stuck));
      }
      return if ok then FailedSafely else RollbackIncomplete;
    }

    /**
     Quarantine is all or nothing. Success leaves payload and metadata and no name
     for the source; a plain failure leaves the source exactly where it was and
     nothing of ours, except a temporary name whose own removal failed; and at
     every instant the bytes are reachable. Without any failed call a source that
     meets the expectations is quarantined.
     */
    method QuarantineFile(source: Path, id: nat, nonce: nat, want: Expect) returns (r: Outcome, ghost bytes: Bytes)
      requires fs.Valid() && FreshId(fs.st, id) && Unstuck(id, fs.stuck) && !Mine(id, source)
      modifies fs
      ensures fs.Valid() && Extends(old(fs.trace), fs.trace) && old(fs.stuck) <= fs.stuck
      ensures Holds(old(fs.st), source, Data(bytes)) ==>
        var c := Case(old(fs.st), source, id, old(fs.st).names[source], bytes);
        && SafeSince(sha, c, fs.trace, |old(fs.trace)|)
        && (r.Done? ==> Committed(sha, c, fs.st, r.rec) && Expected(sha, c, want))
        && (fs.faults == old(fs.faults) && Expected(sha, c, want) ==> r.Done?)
        && (r.Done? ==> r.rec == RecordFor(sha, id, source, bytes, old(fs.st).inodes[c.inode].mode))
        && (r.Done? ==> r.rec.originalMode == old(fs.st).inodes[c.inode].mode % 0x1000)
        && (r.Done? ==> forall p | p in fs.st.names :: fs.st.names[p] != c.inode)
        && (r.FailedSafely? ==> AtHome(c, fs.st, TmpLeft(id, nonce, fs.stuck)))
        && (r.FailedSafely? && MetaTmp(id, nonce) !in fs.stuck ==> fs.st.names == old(fs.st).names)
      ensures (forall b :: !Holds(old(fs.st), source, Data(b))) ==> !r.Done? && fs.st == old(fs.st)
      ensures r.Done? ==>
        r.rec.id == id && r.rec.originalPath == source && r.rec.status == Quarantined && r.rec.size == |bytes| &&
        r.rec.sha == sha(bytes) && r.rec.restoredPath == None && r.rec.restoredAt == None && r.rec.deletedAt == None
      ensures r.RollbackIncomplete? ==> fs.faults > old(fs.faults)
    {
      hide Held, Safe, Committed, Expected, Unstuck, TmpLeft;
      ghost var s0, n := fs.st, |fs.trace|;
      bytes := if source in fs.st.names && fs.st.inodes[fs.st.names[source]].content.Data?
        then fs.st.inodes[fs.st.names[source]].content.bytes else [];
      if Holds(s0, source, Data(bytes)) {
        HomeIsSafe(sha, Case(s0, source, id, s0.names[source], bytes), s0, {});
      }
      var fd := fs.OpenRead(source);
      if fd.None? {
        var ok := fs.Try();
        if ok {
          ok := fs.Try();
        }
        return if ok then FailedSafely else RollbackIncomplete, bytes;
      }
      ghost var c := Case(s0, source, id, fd.value, bytes);
      ghost var t := fs.trace;
      r := QuarantineOpened(c, fd.value, source, id, nonce, want);
      SafeJoin(sha, c, t, fs.trace, n);
    }

    // ---------------------------------------------------------- restore

    /** Create the target exclusively and fill it; `target` is left behind on failure only if created. */
    method FillTarget(ghost k: RestoreCase, target: Path, payload: nat, mode: nat)
      returns (ok: bool, created: Option<nat>)
      requires fs.Valid() && RestoreOk(k) && fs.st == k.before && target == k.target
      requires payload in fs.st.inodes && fs.st.inodes[payload].content.Data?
      modifies fs
      ensures fs.Valid() && Extends(old(fs.trace), fs.trace) && fs.stuck == old(fs.stuck)
      ensures RestoreSince(k, fs.trace, |old(fs.trace)|) && RestoreFrame(k, fs.st)
      ensures created.None? ==> fs.st == k.before
      ensures created.Some? ==> target !in k.before.names && created.value !in k.before.inodes
      ensures created.Some? ==> fs.st.names == k.before.names[target := created.value]
      ensures created.Some? ==> created.value in fs.st.inodes
      ensures ok ==> created.Some?
      ensures ok ==> fs.st.inodes[created.value] == File(k.before.inodes[payload].content, mode)
      ensures fs.faults >= old(fs.faults) + if !ok && target !in k.before.names then 1 else 0
    {
      hide RestoreFrame, RestoreOk, WellFormed;
      RestoreStart(k);
      ghost var s0, n := fs.st, |fs.trace|;
      created := fs.CreateExcl(target, Data([]));
      if created.None? {
        return false, None;
      }
      var dst := created.value;
      RestoreCreated(k, s0, dst);
      ghost var s1, n1 := fs.st, |fs.trace|;
      BeforeWellFormed(k);
      OnlyTarget(k, s1, dst);
      var copied := CopyBetween(payload, dst);
      forall i | n1 <= i < |fs.trace| ensures RestoreFrame(k, fs.trace[i]) {
        RestoreTouched(k, s1, fs.trace[i], dst);
      }
      RestoreTouched(k, s1, fs.st, dst);
      var bytes := fs.st.inodes[payload].content.bytes;
      if copied != Some((sha(bytes), |bytes|)) {
        return false, created;
      }
      ghost var t := fs.trace;
      ok := FinishTarget(k, dst, mode);
      RestoreJoin(k, t, fs.trace, n);
    }

    /** Permission bits, ownership and sync of the filled target. */
    method FinishTarget(ghost k: RestoreCase, dst: nat, mode: nat) returns (ok: bool)
      requires fs.Valid() && RestoreOk(k) && RestoreFrame(k, fs.st)
      requires dst in fs.st.inodes && dst !in k.before.inodes && fs.st.inodes[dst].content.Data?
      requires forall p | p in fs.st.names && fs.st.names[p] == dst :: p == k.target
      modifies fs
      ensures fs.Valid() && Extends(old(fs.trace), fs.trace) && fs.stuck == old(fs.stuck)
      ensures RestoreSince(k, fs.trace, |old(fs.trace)|) && RestoreFrame(k, fs.st) && OnlyInode(old(fs.st), fs.st, dst)
      ensures fs.st.inodes[dst].content == old(fs.st).inodes[dst].content
      ensures ok ==> fs.st.inodes[dst].mode == mode
      ensures fs.faults >= old(fs.faults) + if !ok then 1 else 0
    {
      hide RestoreFrame, RestoreOk, WellFormed;
      RestoreTouched(k, fs.st, Moded(fs.st, dst, mode), dst);
      ok := fs.Chmod(dst, mode);
      if ok {
        ok := fs.Try();
      }
      if ok {
        ok := fs.Try();
      }
    }

    /** Write the new metadata, then sync the target directory. */
    method CommitRestore(ghost k: RestoreCase, updated: QRecord, nonce: nat) returns (ok: bool)
      requires fs.Valid() && RestoreOk(k) && RestoreFrame(k, fs.st)
      requires updated == k.updated && nonce == k.nonce
      modifies fs
      ensures fs.Valid() && Extends(old(fs.trace), fs.trace) && old(fs.stuck) <= fs.stuck
      ensures RestoreSince(k, fs.trace, |old(fs.trace)|) && RestoreFrame(k, fs.st)
      ensures MetaStep(old(fs.st), fs.st, updated, nonce)
      ensures ok ==> Holds(fs.st, MetaFile(updated.id), Meta(updated))
      ensures ok ==> MetaTmp(updated.id, nonce) !in fs.st.names && fs.stuck == old(fs.stuck)
      ensures !ok && MetaTmp(updated.id, nonce) in fs.st.names ==>
        MetaTmp(updated.id, nonce) in old(fs.st).names || MetaTmp(updated.id, nonce) in fs.stuck
      ensures fs.faults >= old(fs.faults) + if !ok && MetaTmp(updated.id, nonce) !in old(fs.st.names) then 1 else 0
    {
      ghost var s0, n := fs.st, |fs.trace|;
      ok := WriteMetadata(updated, nonce);
      forall i | n <= i < |fs.trace| ensures RestoreFrame(k, fs.trace[i]) {
        RestoreMeta(k, s0, fs.trace[i], updated, nonce);
      }
      RestoreMeta(k, s0, fs.st, updated, nonce);
      if ok {
        ok := fs.Try();
      }
    }

    /** The except-block of restore_file: remove the target we created, put the old metadata back. */
    method UndoRestore(ghost k: RestoreCase, target: Path, created: Option<nat>, previous: QRecord, changed: bool,
                       nonce: nat)
      returns (ok: bool)
      requires fs.Valid() && RestoreOk(k) && RestoreFrame(k, fs.st)
      requires target == k.target && previous == k.rec && nonce == k.undoNonce
      requires created.Some? ==> target !in k.before.names && Named(fs.st, target, created.value)
      requires created.None? ==> target in fs.st.names ==> target in k.before.names
      requires !changed ==> Holds(fs.st, MetaFile(k.rec.id), Meta(k.rec))
      requires MetaTmp(k.rec.id, nonce) !in fs.st.names
      modifies fs
      ensures fs.Valid() && Extends(old(fs.trace), fs.trace) && old(fs.stuck) <= fs.stuck
      ensures RestoreSince(k, fs.trace, |old(fs.trace)|) && RestoreFrame(k, fs.st)
      ensures ok ==> Holds(fs.st, MetaFile(k.rec.id), Meta(k.rec))
      ensures ok ==> (target in fs.st.names ==> target in k.before.names)
      ensures ok && MetaTmp(k.rec.id, k.nonce) in fs.st.names ==> MetaTmp(k.rec.id, k.nonce) in old(fs.st).names
      ensures ok && MetaTmp(k.rec.id, k.undoNonce) in fs.st.names ==>
        MetaTmp(k.rec.id, k.undoNonce) in old(fs.st).names || MetaTmp(k.rec.id, k.undoNonce) in fs.stuck
      ensures fs.faults >= old(fs.faults) + if !ok then 1 else 0
      ensures created.None? && !changed ==> ok
    {
      hide RestoreFrame, WellFormed;
      var removed := true;
      if created.Some? && target in fs.st.names {
        removed := fs.Try();
        removed := removed && fs.st.names[target] == created.value;
        if removed {
          RestoreUnlinked(k, fs.st);
          removed := fs.Unlink(target);
        }
      }
      ghost var s0, t0 := fs.st, fs.trace;
      if changed {
        ok := WriteMetadata(previous, nonce);
        forall i | |t0| <= i < |fs.trace| ensures RestoreFrame(k, fs.trace[i]) {
          RestoreMeta(k, s0, fs.trace[i], previous, nonce);
        }
        RestoreMeta(k, s0, fs.st, previous, nonce);
        RestoreJoin(k, t0, fs.trace, |old(fs.trace)|);
      } else {
        ok := true;
      }
      ok := ok && removed;
    }

    /** Open the payload and compare it with the metadata; the target must not exist. */
    method VerifyPayload(rec: QRecord, target: Path) returns (fd: Option<nat>)
      requires fs.Valid()
      requires MetaOf(fs.st, rec.id) == Some(rec)
      modifies fs
      ensures fs.Valid() && Extends(old(fs.trace), fs.trace) && fs.stuck == old(fs.stuck) && fs.st == old(fs.st)
      ensures forall i | |old(fs.trace)| <= i < |fs.trace| :: fs.trace[i] == fs.st
      ensures fd.Some? ==> Named(fs.st, Payload(rec.id), fd.value) && target !in fs.st.names
      ensures fd.Some? ==> fs.st.inodes[fd.value].content.Data?
      ensures fd.Some? ==> Describes(sha, rec, fs.st.inodes[fd.value].content.bytes)
      ensures fs.faults >= old(fs.faults) + if fd.None? && Restorable(sha, fs.st, rec.id, target) then 1 else 0
    {
      fd := fs.OpenRead(Payload(rec.id));
      if fd.None? {
        return;
      }
      var bytes := fs.st.inodes[fd.value].content.bytes;
      var ok := fs.Try();
      if !ok || sha(bytes) != rec.sha || |bytes| != rec.size || target in fs.st.names {
        return None;
      }
      ok := fs.Try();
      if !ok {
        return None;
      }
    }

    /** The try-block of restore_file. */
    method TryRestore(ghost k: RestoreCase, target: Path, rec: QRecord, updated: QRecord, nonce: nat)
      returns (ok: bool, created: Option<nat>, changed: bool)
      requires fs.Valid() && RestoreOk(k) && fs.st == k.before && FreshTmp(fs.st, fs.stuck, MetaTmp(rec.id, nonce))
      requires k.target == target && k.rec == rec && k.updated == updated && k.nonce == nonce
      modifies fs
      ensures fs.Valid() && Extends(old(fs.trace), fs.trace) && old(fs.stuck) <= fs.stuck
      ensures RestoreSince(k, fs.trace, |old(fs.trace)|) && RestoreFrame(k, fs.st)
      ensures created.Some? ==> target !in k.before.names && Named(fs.st, target, created.value)
      ensures created.None? ==> target in fs.st.names ==> target in k.before.names
      ensures !changed ==> Holds(fs.st, MetaFile(rec.id), Meta(rec))
      ensures MetaTmp(rec.id, k.undoNonce) in fs.st.names ==>
        MetaTmp(rec.id, k.undoNonce) in k.before.names || k.undoNonce == nonce
      ensures MetaTmp(rec.id, nonce) in fs.st.names ==> MetaTmp(rec.id, nonce) in fs.stuck
      ensures ok ==> Holds(fs.st, MetaFile(rec.id), Meta(updated)) && fs.stuck == old(fs.stuck)
      ensures ok ==> target !in k.before.names && FilledAs(sha, rec, target, k.before, fs.st)
      ensures fs.faults >= old(fs.faults)
      ensures !ok && (Restorable(sha, k.before, rec.id, target) || created.Some? || changed) ==>
        fs.faults > old(fs.faults)
    {
      RestoreStart(k);
      ok, created, changed := false, None, false;
      var payload := VerifyPayload(rec, target);
      if payload.None? {
        return;
      }
      ghost var t0 := fs.trace;
      ok, created := FillTarget(k, target, payload.value, rec.originalMode % 512);
      RestoreJoin(k, t0, fs.trace, |old(fs.trace)|);
      if !ok {
        return;
      }
      changed := updated != rec;
      ghost var t1, s1 := fs.trace, fs.st;
      ok := CommitRestore(k, updated, nonce);
      RestoreJoin(k, t1, fs.trace, |old(fs.trace)|);
    }

    /** restore_file after the metadata is loaded. */
    method RestoreLoaded(ghost k: RestoreCase, target: Path, rec: QRecord, nonce: nat, undoNonce: nat, now: int)
      returns (r: Outcome)
      requires fs.Valid() && RestoreOk(k) && fs.st == k.before
      requires k == RestoreCase(fs.st, target, rec, AsRestored(rec, target, now), nonce, undoNonce)
      requires nonce != undoNonce && FreshTmp(fs.st, fs.stuck, MetaTmp(rec.id, nonce))
      requires FreshTmp(fs.st, fs.stuck, MetaTmp(rec.id, undoNonce))
      modifies fs
      ensures fs.Valid() && Extends(old(fs.trace), fs.trace) && old(fs.stuck) <= fs.stuck
      ensures RestoreSince(k, fs.trace, |old(fs.trace)|) && RestoreFrame(k, fs.st) && !r.Refused? && !r.AlreadyDeleted?
      ensures r.Done? ==> r.rec == k.updated && Holds(fs.st, MetaFile(rec.id), Meta(r.rec))
      ensures r.Done? ==> target !in k.before.names && FilledAs(sha, rec, target, k.before, fs.st)
      ensures r.Done? ==> fs.stuck == old(fs.stuck)
      ensures r.FailedSafely? ==> Holds(fs.st, MetaFile(rec.id), Meta(rec))
      ensures r.FailedSafely? ==> (target in fs.st.names ==> target in k.before.names)
      ensures r.Done? || r.FailedSafely? ==> NoTmpLeft(k, fs.st, fs.stuck)
      ensures fs.faults >= old(fs.faults) + if r.RollbackIncomplete? then 2 else 0
      ensures fs.faults == old(fs.faults) && Restorable(sha, k.before, rec.id, target) ==> r.Done?
    {
      var updated := AsRestored(rec, target, now);
      var ok, created, changed := TryRestore(k, target, rec, updated, nonce);
      if ok {
        return Done(updated);
      }
      ghost var t := fs.trace;
      ok := UndoRestore(k, target, created, rec, changed, undoNonce);
      RestoreJoin(k, t, fs.trace, |old(fs.trace)|);
      r := if ok then FailedSafely else RollbackIncomplete;
    }

    /**
     Restore never alters an existing path: at every instant only the metadata name
     (always one whole record) and a target that did not exist differ from before.
     Success gives the target the verified payload bytes; a plain failure leaves no
     target and the old metadata; a deleted item is refused with no effect.
     */
    method RestoreFile(id: nat, target: Path, nonce: nat, undoNonce: nat, now: int)
      returns (r: Outcome, ghost rec: QRecord)
      requires fs.Valid() && nonce != undoNonce
      requires FreshTmp(fs.st, fs.stuck, MetaTmp(id, nonce)) && FreshTmp(fs.st, fs.stuck, MetaTmp(id, undoNonce))
      requires target != MetaTmp(id, nonce) && target != MetaTmp(id, undoNonce)
      modifies fs
      ensures fs.Valid() && Extends(old(fs.trace), fs.trace) && old(fs.stuck) <= fs.stuck
      ensures r.Refused? ==> fs.st == old(fs.st) && fs.stuck == old(fs.stuck)
      ensures !r.AlreadyDeleted?
      ensures !r.Refused? ==> Holds(old(fs.st), MetaFile(id), Meta(rec)) && rec.id == id && rec.status != Deleted
      ensures !r.Refused? ==>
        var k := RestoreCase(old(fs.st), target, rec, AsRestored(rec, target, now), nonce, undoNonce);
        && RestoreSince(k, fs.trace, |old(fs.trace)|) && RestoreFrame(k, fs.st)
        && (r.Done? ==> r.rec == k.updated && Holds(fs.st, MetaFile(id), Meta(r.rec)))
        && (r.Done? ==> target !in k.before.names && FilledAs(sha, rec, target, k.before, fs.st))
        && (r.FailedSafely? ==> Holds(fs.st, MetaFile(id), Meta(rec)))
        && (r.FailedSafely? ==> target in fs.st.names ==> target in k.before.names)
        && (r.Done? || r.FailedSafely? ==> NoTmpLeft(k, fs.st, fs.stuck))
      ensures r.Done? ==>
        r.rec == rec.(status := Restored, restoredPath := Some(target), restoredMode := Some(rec.originalMode % 512),
                      restoredAt := Some(now))
      ensures r.RollbackIncomplete? ==> fs.faults >= old(fs.faults) + 2
      ensures fs.faults == old(fs.faults) ==> (r.Done? <==> Restorable(sha, old(fs.st), id, target))
    {
      var loaded := fs.Load(MetaFile(id));
      rec := QRecord(id, target, "", 0, 0, Deleted, None, None, None, None);
      if loaded.None? || loaded.value.id != id || loaded.value.status == Deleted || Payload(id) !in fs.st.names {
        return Refused, rec;
      }
      rec := loaded.value;
      ghost var k := RestoreCase(fs.st, target, rec, AsRestored(rec, target, now), nonce, undoNonce);
      RestoreStart(k);
      ghost var t := fs.trace;
      r := RestoreLoaded(k, target, loaded.value, nonce, undoNonce, now);
      RestoreJoin(k, t, fs.trace, |old(fs.trace)|);
    }

    // ---------------------------------------------------------- delete

    /** The try-block of delete_permanently, after the payload has its pending name. */
    method TryDelete(ghost k: DeleteCase, updated: QRecord, nonce: nat) returns (ok: bool, ghost unlinked: bool)
      requires fs.Valid() && DeleteOk(k) && FreshTmp(fs.st, fs.stuck, MetaTmp(k.rec.id, nonce))
      requires DeleteFrame(k, fs.st) && Pending(k, fs.st) && Holds(fs.st, MetaFile(k.rec.id), Meta(k.rec))
      requires updated == k.updated && nonce == k.nonce
      modifies fs
      ensures fs.Valid() && Extends(old(fs.trace), fs.trace) && old(fs.stuck) <= fs.stuck
      ensures DeleteSince(k, fs.trace, |old(fs.trace)|) && DeleteFrame(k, fs.st)
      ensures if unlinked then Gone(k, fs.st) && Holds(fs.st, MetaFile(k.rec.id), Meta(updated)) else Pending(k, fs.st)
      ensures ok ==> unlinked && fs.stuck == old(fs.stuck)
      ensures MetaTmp(k.rec.id, nonce) in fs.st.names ==> MetaTmp(k.rec.id, nonce) in fs.stuck
      ensures MetaTmp(k.rec.id, k.undoNonce) in fs.st.names ==>
        MetaTmp(k.rec.id, k.undoNonce) in old(fs.st).names || k.undoNonce == nonce
      ensures fs.faults >= old(fs.faults) + if !ok then 1 else 0
      ensures fs.syncFaults == old(fs.syncFaults) + if unlinked && !ok then 1 else 0
    {
      hide DeleteFrame, MetaStep;
      unlinked := false;
      ghost var s0, n := fs.st, |fs.trace|;
      ok := WriteMetadata(updated, nonce);
      forall i | n <= i < |fs.trace| ensures DeleteFrame(k, fs.trace[i]) && Reachable(k, fs.trace[i]) {
        DeleteMeta(k, s0, fs.trace[i], updated, nonce);
      }
      DeleteMeta(k, s0, fs.st, updated, nonce);
      if !ok {
        return;
      }
      DeleteUnlinked(k, fs.st);
      ok := fs.Unlink(DeletePending(updated.id));
      if !ok {
        return;
      }
      unlinked := true;
      ok := fs.SyncPayloads();
    }

    /** The except-block: move the payload back if it is still pending, then put the old metadata back. */
    method UndoDelete(ghost k: DeleteCase, previous: QRecord, nonce: nat, ghost unlinked: bool) returns (ok: bool)
      requires fs.Valid() && DeleteOk(k) && DeleteFrame(k, fs.st)
      requires if unlinked then Gone(k, fs.st) && Holds(fs.st, MetaFile(k.rec.id), Meta(k.updated))
               else Pending(k, fs.st)
      requires previous == k.rec && nonce == k.undoNonce
      requires MetaTmp(k.rec.id, nonce) !in fs.st.names
      modifies fs
      ensures fs.Valid() && Extends(old(fs.trace), fs.trace) && old(fs.stuck) <= fs.stuck
      ensures DeleteFrame(k, fs.st)
      ensures !unlinked ==> DeleteSince(k, fs.trace, |old(fs.trace)|)
      ensures ok ==> Holds(fs.st, MetaFile(k.rec.id), Meta(k.rec))
      ensures ok ==> if unlinked then Gone(k, fs.st) else Back(k, fs.st)
      ensures ok && MetaTmp(k.rec.id, k.nonce) in fs.st.names ==> MetaTmp(k.rec.id, k.nonce) in old(fs.st).names
      ensures ok && MetaTmp(k.rec.id, k.undoNonce) in fs.st.names ==>
        MetaTmp(k.rec.id, k.undoNonce) in old(fs.st).names || MetaTmp(k.rec.id, k.undoNonce) in fs.stuck
      ensures fs.faults >= old(fs.faults) + if !ok then 1 else 0
      ensures fs.syncFaults == old(fs.syncFaults)
    {
      hide DeleteFrame, MetaStep;
      var id := previous.id;
      if DeletePending(id) in fs.st.names && Payload(id) !in fs.st.names {
        DeleteMovedBack(k, fs.st);
        ok := fs.MoveNoReplace(DeletePending(id), Payload(id));
        if !ok {
          return;
        }
      }
      ghost var s0, t0 := fs.st, fs.trace;
      ok := WriteMetadata(previous, nonce);
      forall i | |t0| <= i < |fs.trace| && !unlinked ensures DeleteFrame(k, fs.trace[i]) && Reachable(k, fs.trace[i]) {
        DeleteMeta(k, s0, fs.trace[i], previous, nonce);
      }
      DeleteMeta(k, s0, fs.st, previous, nonce);
      if !unlinked {
        DeleteJoin(k, t0, fs.trace, |old(fs.trace)|);
      }
    }

    /**
     Delete by a pending rename. The one failure that the handler cannot undo is the
     directory sync after the payload was unlinked: unless that sync failed, at every
     instant the payload has a name or the metadata says deleted, and a plain failure
     puts payload and metadata back; a sound item stays sound exactly when it did not
     fail. Without any failed call the delete succeeds exactly when it may.
     */
    method DeletePermanently(id: nat, nonce: nat, undoNonce: nat, now: int)
      returns (r: Outcome, ghost rec: QRecord)
      requires fs.Valid() && nonce != undoNonce
      requires FreshTmp(fs.st, fs.stuck, MetaTmp(id, nonce)) && FreshTmp(fs.st, fs.stuck, MetaTmp(id, undoNonce))
      modifies fs
      ensures fs.Valid() && Extends(old(fs.trace), fs.trace) && old(fs.stuck) <= fs.stuck
      ensures r.Refused? || r.AlreadyDeleted? ==> fs.st == old(fs.st) && fs.syncFaults == old(fs.syncFaults)
      ensures r.AlreadyDeleted? ==> Holds(old(fs.st), MetaFile(id), Meta(rec)) && rec.id == id && rec.status == Deleted
      ensures r.Done? || r.FailedSafely? || r.RollbackIncomplete? ==>
        var k := DeleteCase(old(fs.st), rec, AsDeleted(rec, now), nonce, undoNonce);
        && DeleteOk(k) && rec.id == id && rec.status != Deleted
        && (fs.syncFaults == old(fs.syncFaults) ==> DeleteSince(k, fs.trace, |old(fs.trace)|))
        && DeleteEnds(k, r, fs.syncFaults > old(fs.syncFaults), fs.st, fs.stuck)
      ensures r.Done? ==> r.rec == rec.(status := Deleted, deletedAt := Some(now))
      ensures ItemOk(sha, old(fs.st), id) && (r.Done? || r.FailedSafely?) ==>
        (ItemOk(sha, fs.st, id) <==> fs.syncFaults == old(fs.syncFaults))
      ensures fs.faults >= old(fs.faults) && (r.RollbackIncomplete? ==> fs.faults >= old(fs.faults) + 2)
      ensures fs.faults == old(fs.faults) ==> (r.Done? <==> Deletable(old(fs.st), id))
    {
      hide ItemOk, DeleteEnds, DeleteOk, DeleteFrame, WellFormed, Deletable, DeleteSince;
      DeletableMeans(fs.st, id);
      var loaded := fs.Load(MetaFile(id));
      rec := QRecord(id, Payload(id), "", 0, 0, Deleted, None, None, None, None);
      if loaded.None? || loaded.value.id != id {
        return Refused, rec;
      }
      rec := loaded.value;
      if loaded.value.status == Deleted {
        return AlreadyDeleted, rec;
      }
      if Payload(id) !in fs.st.names || DeletePending(id) in fs.st.names {
        return Refused, rec;
      }
      ghost var k := DeleteCase(fs.st, rec, AsDeleted(rec, now), nonce, undoNonce);
      DeleteBegins(k, now);
      ghost var t, n := fs.trace, fs.syncFaults;
      r := DeletePresent(k, loaded.value, AsDeleted(loaded.value, now), nonce, undoNonce);
      if r.Done? {
        DeletedRecord(k, r, fs.syncFaults > n, fs.st, fs.stuck);
      }
      if fs.syncFaults == n {
        DeleteStart(k, t, |old(fs.trace)|);
        DeleteJoin(k, t, fs.trace, |old(fs.trace)|);
      }
      if ItemOk(sha, k.before, id) && (r.Done? || r.FailedSafely?) {
        DeleteEnded(sha, k, r, fs.syncFaults > n, fs.st, fs.stuck, now);
      }
    }

    /** Take the pending name, then delete; a move that fails leaves everything as it was. */
    method DeletePresent(ghost k: DeleteCase, rec: QRecord, updated: QRecord, nonce: nat, undoNonce: nat)
      returns (r: Outcome)
      requires fs.Valid() && DeleteOk(k) && k == DeleteCase(fs.st, rec, updated, nonce, undoNonce)
      requires nonce != undoNonce && FreshTmp(fs.st, fs.stuck, MetaTmp(rec.id, nonce))
      requires FreshTmp(fs.st, fs.stuck, MetaTmp(rec.id, undoNonce))
      modifies fs
      ensures fs.Valid() && Extends(old(fs.trace), fs.trace) && old(fs.stuck) <= fs.stuck
      ensures r.Refused? ==> fs.st == old(fs.st) && fs.syncFaults == old(fs.syncFaults)
      ensures !r.AlreadyDeleted? && fs.syncFaults >= old(fs.syncFaults)
      ensures fs.syncFaults == old(fs.syncFaults) ==> DeleteSince(k, fs.trace, |old(fs.trace)|)
      ensures !r.Refused? ==> DeleteEnds(k, r, fs.syncFaults > old(fs.syncFaults), fs.st, fs.stuck)
      ensures fs.faults >= old(fs.faults) + if r.Done? then 0 else if r.RollbackIncomplete? then 2 else 1
    {
      hide DeleteFrame, WellFormed;
      DeleteMoved(k);
      var ok := fs.MoveNoReplace(Payload(rec.id), DeletePending(rec.id));
      if !ok {
        return Refused;
      }
      ghost var t, n := fs.trace, fs.syncFaults;
      r := DeleteMarked(k, rec, updated, nonce, undoNonce);
      if fs.syncFaults == n {
        DeleteJoin(k, t, fs.trace, |old(fs.trace)|);
      }
    }

    method DeleteMarked(ghost k: DeleteCase, rec: QRecord, updated: QRecord, nonce: nat, undoNonce: nat)
      returns (r: Outcome)
      requires fs.Valid() && DeleteOk(k) && k == DeleteCase(k.before, rec, updated, nonce, undoNonce)
      requires DeleteFrame(k, fs.st) && Pending(k, fs.st) && Holds(fs.st, MetaFile(rec.id), Meta(rec))
      requires nonce != undoNonce && FreshTmp(fs.st, fs.stuck, MetaTmp(rec.id, nonce))
      requires FreshTmp(fs.st, fs.stuck, MetaTmp(rec.id, undoNonce))
      modifies fs
      ensures fs.Valid() && Extends(old(fs.trace), fs.trace) && old(fs.stuck) <= fs.stuck
      ensures r.Done? || r.FailedSafely? || r.RollbackIncomplete?
      ensures fs.syncFaults >= old(fs.syncFaults)
      ensures fs.syncFaults == old(fs.syncFaults) ==> DeleteSince(k, fs.trace, |old(fs.trace)|)
      ensures DeleteEnds(k, r, fs.syncFaults > old(fs.syncFaults), fs.st, fs.stuck)
      ensures fs.faults >= old(fs.faults) + if r.Done? then 0 else if r.RollbackIncomplete? then 2 else 1
    {
      var ok;
      ghost var unlinked;
      ok, unlinked := TryDelete(k, updated, nonce);
      if ok {
        return Done(updated);
      }
      ghost var t := fs.trace;
      ok := UndoDelete(k, rec, undoNonce, unlinked);
      if !unlinked {
        DeleteJoin(k, t, fs.trace, |old(fs.trace)|);
      }
      r := if ok then FailedSafely else RollbackIncomplete;
    }
  }
}
