/**
 The file system under the quarantine manager: names, inodes, and system calls
 each of which may fail without effect. Every state a call leaves behind is kept in
 a ghost trace, so that a property of the trace is a property of every crash point.
 */
module QuarantineFs {
  import opened Common

  type Sha = string

  /** Quarantine metadata, reduced to the fields that the protocol reads back. */
  datatype Status = Quarantined | Restored | Deleted

  datatype QRecord = QRecord(
    id: nat, originalPath: Path, sha: Sha, size: nat, originalMode: nat, status: Status,
    restoredPath: Option<Path>, restoredMode: Option<nat>, restoredAt: Option<int>, deletedAt: Option<int>)

  /**
   Names outside the manager's control, and the names the manager makes from a
   quarantine identifier (temporary names carry a further random part).
   */
  datatype Path =
    | User(name: string)
    | Holding(id: nat)
    | Payload(id: nat)
    | PayloadTmp(id: nat)
    | DeletePending(id: nat)
    | MetaFile(id: nat)
    | MetaTmp(id: nat, nonce: nat)

  /** A metadata file holds a whole record, or what a cut write left of one. */
  datatype Content = Data(bytes: Bytes) | Meta(rec: QRecord) | TornMeta

  datatype File = File(content: Content, mode: nat)

  datatype Fs = Fs(names: map<Path, nat>, inodes: map<nat, File>)

  predicate WellFormed(s: Fs) {
    forall p | p in s.names :: s.names[p] in s.inodes
  }

  predicate Named(s: Fs, p: Path, i: nat) {
    p in s.names && s.names[p] == i
  }

  predicate Holds(s: Fs, p: Path, c: Content) {
    p in s.names && s.names[p] in s.inodes && s.inodes[s.names[p]].content == c
  }

  /** s' has every inode of s, unchanged. */
  predicate Keeps(s: Fs, s': Fs) {
    forall i | i in s.inodes :: i in s'.inodes && s'.inodes[i] == s.inodes[i]
  }

  // ------------------------------------------------------------ what a call does when it succeeds

  function Created(s: Fs, p: Path, i: nat, c: Content): Fs {
    Fs(s.names[p := i], s.inodes[i := File(c, 384)])
  }

  function Renamed(s: Fs, src: Path, dst: Path): Fs {
    if src in s.names then s.(names := s.names[dst := s.names[src]] - {src}) else s
  }

  function Unlinked(s: Fs, p: Path): Fs {
    s.(names := s.names - {p})
  }

  function Filled(s: Fs, i: nat, c: Content): Fs
    requires i in s.inodes
  {
    s.(inodes := s.inodes[i := s.inodes[i].(content := c)])
  }

  function Moded(s: Fs, i: nat, mode: nat): Fs
    requires i in s.inodes
  {
    s.(inodes := s.inodes[i := s.inodes[i].(mode := mode)])
  }

  class FileSystem {
    var st: Fs
    var next: nat
    ghost var trace: seq<Fs>
    ghost var stuck: set<Path>
    ghost var faults: nat
    ghost var syncFaults: nat

    ghost predicate Valid()
      reads this
    {
      WellFormed(st) && forall i | i in st.inodes :: i < next
    }

    /**
     What every call does to the trace. `stuck` collects the names an unlink failed to
     remove; `faults` counts the calls that failed although the state allowed them,
     and `syncFaults` those of them that were a sync of the payload directory.
     */
    twostate predicate Stepped()
      reads this
    {
      Valid() && trace == old(trace) + [st] && stuck == old(stuck) && syncFaults == old(syncFaults)
    }

    twostate predicate Counted(fault: bool)
      reads this
    {
      faults == old(faults) + if fault then 1 else 0
    }

    twostate predicate Still()
      reads this
    {
      Stepped() && st == old(st)
    }

    method OpenRead(p: Path) returns (fd: Option<nat>)
      requires Valid()
      modifies this
      ensures Still()
      ensures fd.Some? ==> Named(st, p, fd.value) && st.inodes[fd.value].content.Data?
      ensures Counted(fd.None? && p in st.names && st.inodes[st.names[p]].content.Data?)
    {
      trace := trace + [st];
      if p !in st.names || !st.inodes[st.names[p]].content.Data? {
        return None;
      }
      fd := *;
      if fd != Some(st.names[p]) {
        fd := None;
        faults := faults + 1;
      }
    }

    /** Any call that changes nothing and may fail: fstat by path, fsync, read of a whole file. */
    method Try() returns (ok: bool)
      requires Valid()
      modifies this
      ensures Still() && Counted(!ok)
    {
      trace := trace + [st];
      ok := *;
      if !ok {
        faults := faults + 1;
      }
    }

    /** fsync of the directory that holds the payloads. */
    method SyncPayloads() returns (ok: bool)
      requires Valid()
      modifies this
      ensures Valid() && trace == old(trace) + [st] && stuck == old(stuck) && st == old(st) && Counted(!ok)
      ensures syncFaults == old(syncFaults) + if ok then 0 else 1
    {
      ok := Try();
      if !ok {
        syncFaults := syncFaults + 1;
      }
    }

    method Load(p: Path) returns (r: Option<QRecord>)
      requires Valid()
      modifies this
      ensures Still()
      ensures r.Some? ==> Holds(st, p, Meta(r.value))
      ensures Counted(r.None? && p in st.names && st.inodes[st.names[p]].content.Meta?)
    {
      trace := trace + [st];
      if p !in st.names || !st.inodes[st.names[p]].content.Meta? {
        return None;
      }
      r := *;
      if r != Some(st.inodes[st.names[p]].content.rec) {
        r := None;
        faults := faults + 1;
      }
    }

    /** open(O_CREAT | O_EXCL): a new empty file, or failure. */
    method CreateExcl(p: Path, c: Content) returns (fd: Option<nat>)
      requires Valid()
      modifies this
      ensures Stepped()
      ensures fd.None? ==> st == old(st)
      ensures fd.Some? ==> p !in old(st.names) && fd.value !in old(st.inodes)
      ensures fd.Some? ==> st == Created(old(st), p, fd.value, c)
      ensures Counted(fd.None? && p !in old(st.names))
    {
      var fault: bool := *;
      if fault || p in st.names {
        trace := trace + [st];
        faults := faults + if p in st.names then 0 else 1;
        return None;
      }
      var i := next;
      next := next + 1;
      st := Fs(st.names[p := i], st.inodes[i := File(c, 384)]);
      trace := trace + [st];
      return Some(i);
    }

    /** One write(2) on an open descriptor: some of the bytes are appended. */
    method Write(fd: nat, view: Bytes) returns (written: Option<nat>)
      requires Valid() && fd in st.inodes && st.inodes[fd].content.Data? && view != []
      modifies this
      ensures Stepped()
      ensures written.None? ==> st == old(st)
      ensures written.Some? ==> 1 <= written.value <= |view|
      ensures written.Some? ==>
        st == Filled(old(st), fd, Data(old(st).inodes[fd].content.bytes + view[..written.value]))
      ensures Counted(written.None?)
    {
      if * {
        trace := trace + [st];
        faults := faults + 1;
        return None;
      }
      var n: nat :| 1 <= n <= |view|;
      st := Filled(st, fd, Data(st.inodes[fd].content.bytes + view[..n]));
      trace := trace + [st];
      return Some(n);
    }

    /** The write loop that fills a metadata file: it is whole only when the loop completes. */
    method WriteMeta(fd: nat, rec: QRecord) returns (ok: bool)
      requires Valid() && fd in st.inodes
      modifies this
      ensures Stepped()
      ensures st == Filled(old(st), fd, if ok then Meta(rec) else TornMeta)
      ensures Counted(!ok)
    {
      ok := *;
      faults := faults + if ok then 0 else 1;
      st := Filled(st, fd, if ok then Meta(rec) else TornMeta);
      trace := trace + [st];
    }

    method Chmod(i: nat, mode: nat) returns (ok: bool)
      requires Valid() && i in st.inodes
      modifies this
      ensures Stepped()
      ensures st == if ok then Moded(old(st), i, mode) else old(st)
      ensures Counted(!ok)
    {
      ok := *;
      if ok {
        st := Moded(st, i, mode);
      } else {
        faults := faults + 1;
      }
      trace := trace + [st];
    }

    /** renameat2(RENAME_NOREPLACE), preceded by the explicit existence check. */
    method MoveNoReplace(src: Path, dst: Path) returns (ok: bool)
      requires Valid()
      modifies this
      ensures Stepped()
      ensures st == if ok then Renamed(old(st), src, dst) else old(st)
      ensures ok ==> src in old(st.names) && dst !in old(st.names)
      ensures Counted(!ok && src in old(st.names) && dst !in old(st.names))
    {
      var fault: bool := *;
      ok := !fault && src in st.names && dst !in st.names;
      if ok {
        st := Renamed(st, src, dst);
      } else if src in st.names && dst !in st.names {
        faults := faults + 1;
      }
      trace := trace + [st];
    }

    /** os.replace: an atomic rename over whatever the destination named. */
    method Replace(src: Path, dst: Path) returns (ok: bool)
      requires Valid() && src != dst
      modifies this
      ensures Stepped()
      ensures st == if ok then Renamed(old(st), src, dst) else old(st)
      ensures ok ==> src in old(st.names)
      ensures Counted(!ok && src in old(st.names))
    {
      var fault: bool := *;
      ok := !fault && src in st.names;
      if ok {
        st := Renamed(st, src, dst);
      } else if src in st.names {
        faults := faults + 1;
      }
      trace := trace + [st];
    }

    /** unlink(missing_ok=True). */
    method Unlink(p: Path) returns (ok: bool)
      requires Valid()
      modifies this
      ensures Valid() && trace == old(trace) + [st] && syncFaults == old(syncFaults) && Counted(!ok)
      ensures ok ==> st == Unlinked(old(st), p) && stuck == old(stuck)
      ensures !ok ==> st == old(st) && p in st.names && stuck == old(stuck) + {p}
    {
      ok := *;
      ok := ok || p !in st.names;
      if ok {
        st := Unlinked(st, p);
      } else {
        stuck := stuck + {p};
        faults := faults + 1;
      }
      trace := trace + [st];
    }
  }
}
