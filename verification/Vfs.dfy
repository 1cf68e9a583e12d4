/** File descriptors over the FAT32 driver. */
module Vfs {
  import opened Numbers
  import opened Bytes
  import opened Fat32Layout
  import opened Fat32Name
  import opened Fat32Dir
  import opened Fat32State
  import opened Fat32Abs
  import opened Fat32Volume
  import opened Fat32Tree
  import opened Fat32Free
  import opened Fat32Create
  import opened Fat32Remove
  import opened Fat32File
  import opened Fat32Write
  import opened Fat32Run

  const MAX_OPEN: nat := 256

  datatype Access = ReadOnly | WriteOnly | ReadWrite

  datatype Flags = Flags(access: Access, create: bool, truncate: bool, append: bool)

  /** An open file; every descriptor has its own node, so nodes are values here. */
  datatype OpenRec = OpenRec(node: Node, offset: nat, flags: Flags)

  datatype Whence = SeekSet | SeekCur | SeekEnd | SeekOther

  /** Opening finds a file, or may make one. */
  ghost predicate CanOpen(g: Geometry, fat: seq<nat>, f: Fs, dir: nat, name: Name, create: bool)
  {
    && dir in f.slots
    && if name in DirMap(f.slots[dir]) then DirMap(f.slots[dir])[name] !in f.slots
       else create && ValidName(name) && !Full(g, fat, f.slots[dir])
  }

  /** The clusters that a file opened by this name has and could still get. */
  ghost function OpenStock(g: Geometry, fat: seq<nat>, f: Fs, dir: nat, name: Name): int
    requires dir in f.slots
  {
    if name in DirMap(f.slots[dir]) then Stock(g, fat, f, DirMap(f.slots[dir])[name])
    else FreeCount(g, fat) - Growth(f.slots[dir])
  }

  /** Some descriptor is free. */
  ghost predicate FreeFd(fds: seq<Option<OpenRec>>)
  {
    exists i :: 0 <= i < |fds| && fds[i].None?
  }

  class Vfs {
    const vol: Volume
    var fds: seq<Option<OpenRec>>

    ghost predicate Valid()
      reads this, vol
    {
      |fds| == MAX_OPEN && vol.Mounted()
    }

    constructor (volume: Volume)
      requires volume.Mounted()
      ensures Valid() && vol == volume && forall i :: 0 <= i < |fds| ==> fds[i].None?
    {
      hide Volume.Mounted;
      vol := volume;
      fds := seq(MAX_OPEN, _ => None);
    }

    ghost predicate IsOpen(fd: int)
      reads this
    {
      0 <= fd < |fds| && fds[fd].Some?
    }

    /** The open file behind a descriptor still matches its directory slot. */
    ghost predicate Live(fd: int)
      reads this, vol
    {
      IsOpen(fd) && OpenFile(vol.g, vol.fs, fds[fd].value.node)
    }

    ghost function BytesOf(fd: int): seq<byte>
      reads this, vol
      requires IsOpen(fd)
    {
      NodeBytes(vol.disk, vol.fs, fds[fd].value.node)
    }

    /** `vfs_alloc_fd`: the lowest free descriptor, or -1 when all are taken. */
    method AllocFd(rec: OpenRec) returns (fd: int)
      requires |fds| == MAX_OPEN
      modifies this`fds
      ensures |fds| == MAX_OPEN
      ensures fd == -1 <==> forall i :: 0 <= i < MAX_OPEN ==> old(fds)[i].Some?
      ensures fd == -1 ==> fds == old(fds)
      ensures fd != -1 ==> 0 <= fd < MAX_OPEN && old(fds)[fd].None? && fds == old(fds)[fd := Some(rec)]
      ensures fd != -1 ==> forall i :: 0 <= i < fd ==> old(fds)[i].Some?
    {
      for i := 0 to MAX_OPEN
        invariant fds == old(fds) && forall k :: 0 <= k < i ==> fds[k].Some?
      {
        if fds[i].None? {
          fds := fds[i := Some(rec)];
          return i;
        }
      }
      return -1;
    }

    method Close(fd: int) returns (rc: int)
      requires |fds| == MAX_OPEN
      modifies this`fds
      ensures |fds| == MAX_OPEN
      ensures rc == 0 <==> old(IsOpen(fd))
      ensures rc == 0 ==> fds == old(fds)[fd := None]
      ensures rc != 0 ==> rc == -1 && fds == old(fds)
    {
      if fd < 0 || fd >= MAX_OPEN || fds[fd].None? {
        return -1;
      }
      fds := fds[fd := None];
      rc := 0;
    }

    /** `vfs_read`: the slice at the descriptor's offset, which advances past it. */
    method Read(fd: int, count: nat) returns (r: Option<seq<byte>>)
      requires Valid() && (IsOpen(fd) ==> Live(fd))
      modifies this`fds
      ensures Valid() && (r.None? <==> !old(IsOpen(fd)))
      ensures r.None? ==> fds == old(fds)
      ensures r.Some? ==>
                var rec, all := old(fds)[fd].value, old(BytesOf(fd));
                && fds == old(fds)[fd := Some(rec.(offset := rec.offset + |r.value|))]
                && (rec.offset >= |all| ==> r.value == [])
                && (rec.offset < |all| ==>
                      r.value == all[rec.offset..if rec.offset + count > |all| then |all| else rec.offset + count])
    {
      hide Volume.Mounted, NodeBytes, OpenFile;
      if fd < 0 || fd >= |fds| || fds[fd].None? {
        return None;
      }
      var rec := fds[fd].value;
      var buf := Fat32File.Read(vol, rec.node, count, rec.offset);
      fds := fds[fd := Some(rec.(offset := rec.offset + |buf|))];
      r := Some(buf);
    }

    /** Where a write goes: at the end for an appending descriptor. */
    ghost function WritePos(fd: int): nat
      reads this
      requires IsOpen(fd)
    {
      var rec := fds[fd].value;
      if rec.flags.append then rec.node.size else rec.offset
    }

    /** The clusters an open file has and could still get. */
    ghost function StockOf(fd: int): nat
      reads this, vol
    {
      if IsOpen(fd) then Stock(vol.g, vol.disk.fat, vol.fs, fds[fd].value.node.first) else 0
    }

    /**
     * `vfs_write`.  At or below the end of the file the bytes replace and extend the contents
     * there; a short count means that the volume is full; nothing else changes.
     */
    method Write(fd: int, buf: seq<byte>) returns (r: int)
      requires Valid() && Live(fd) && WritePos(fd) <= fds[fd].value.node.size
      requires WritePos(fd) < 0x1_0000_0000 * vol.g.ClusterSize()
      modifies this`fds, vol
      ensures Valid() && -1 <= r <= |buf|
      ensures r == -1 <==> old(fds)[fd].value.flags.access.ReadOnly?
      ensures r == -1 ==> fds == old(fds) && vol.disk == old(vol.disk) && vol.fs == old(vol.fs)
      ensures r >= 0 && r < |buf| ==> NoneFree(vol.g, vol.disk.fat)
      ensures r >= 0 ==>
                var stock := old(StockOf(fd));
                StockOf(fd) == stock && r == Min(|buf|, Room(stock, vol.g.ClusterSize(), old(WritePos(fd))))
      ensures r >= 0 ==>
                var rec, pos := old(fds)[fd].value, old(WritePos(fd));
                && fds == old(fds)[fd := Some(rec.(node := Raised(rec.node, pos, r), offset := pos + r))]
                && Live(fd) && SameFrame(old(vol.fs), vol.fs, rec.node.first)
                && WroteAt(old(BytesOf(fd)), BytesOf(fd), pos, buf[..r])
                && vol.Files() == old(vol.Files())[rec.node.first := File(Recorded32(BytesOf(fd)))]
      ensures Tidy(old(vol.fs).slots) ==> Tidy(vol.fs.slots)
    {
      hide Volume.Valid, Consistent, Abs, NoLeak, Tidy, NodeOk, SameFrame, Stored, SafeSince, NoneFree, WroteAt, ChainBytes, Recorded32, Stock, Room, SizeBacked;
      var rec := fds[fd].value;
      if rec.flags.access.ReadOnly? {
        return -1;
      }
      var pos := if rec.flags.append then rec.node.size else rec.offset;
      ghost var was, f0 := Whole(vol.disk, vol.fs, rec.node.first), vol.fs;
      NodeIsPrefix(vol.g, vol.disk, vol.fs, rec.node);
      var node;
      r, node := Fat32Write.Write(vol, rec.node, buf, pos);
      fds := fds[fd := Some(rec.(node := node, offset := pos + r))];
      WriteOpened(vol.g, f0, vol.disk, vol.fs, rec.node, node, pos, buf[..r], was);
    }

    /** What a descriptor fresh from `vfs_open` stands for. */
    ghost predicate Opened(dir: nat, name: Name, flags: Flags, fd: int)
      reads this, vol
    {
      && Live(fd) && dir in vol.fs.slots && name in DirMap(vol.fs.slots[dir])
      && var rec := fds[fd].value;
         && rec.flags == flags && rec.offset == 0 && rec.node.first == DirMap(vol.fs.slots[dir])[name]
         && rec.node.first in vol.Files() && vol.Files()[rec.node.first].File?
         && (if flags.truncate then rec.node.size == 0
             else vol.Files()[rec.node.first].bytes == BytesOf(fd) && |BytesOf(fd)| == rec.node.size < 0x1_0000_0000)
    }

    /**
     * `vfs_open` on a name in a directory: look it up, create it if asked to, refuse directories,
     * forget the size in memory (only there) when truncating, take the lowest descriptor.
     */
    method Open(dir: nat, name: Name, flags: Flags) returns (fd: int, ghost made: nat)
      requires Valid() && dir in vol.fs.slots && IsCString(name) && (name != [] ==> name[0] != DELETED)
      modifies this`fds, vol
      ensures Valid() && fd < MAX_OPEN && NodesKept(old(vol.fs), vol.fs)
      ensures fd < 0 ==> fds == old(fds)
      ensures fd >= 0 ==> old(fds)[fd].None? && Opened(dir, name, flags, fd) && fds == old(fds)[fd := fds[fd]]
      ensures name in DirMap(old(vol.fs).slots[dir]) || !flags.create ==>
                vol.disk == old(vol.disk) && vol.fs == old(vol.fs)
      ensures fd >= 0 && name !in DirMap(old(vol.fs).slots[dir]) && Canonical(name) ==>
                var h := fds[fd].value.node.first;
                h !in old(vol.fs).owner &&
                vol.Files() == WithNew(old(vol.Files()), dir, DirMap(old(vol.fs).slots[dir]), name, h, false)
      ensures Tidy(old(vol.fs).slots) && Canonical(name) ==> Tidy(vol.fs.slots)
      ensures Canonical(name) || !flags.create ==>
                (fd >= 0 <==>
                   FreeFd(old(fds)) && CanOpen(vol.g, old(vol.disk).fat, old(vol.fs), dir, name, flags.create))
      ensures (Canonical(name) || !flags.create) && fd >= 0 ==>
                StockOf(fd) == OpenStock(vol.g, old(vol.disk).fat, old(vol.fs), dir, name)
      ensures Canonical(name) && fd < 0 ==>
                var entries := DirMap(old(vol.fs).slots[dir]);
                vol.Files() ==
                  if name !in entries && CanOpen(vol.g, old(vol.disk).fat, old(vol.fs), dir, name, flags.create)
                  then WithNew(old(vol.Files()), dir, entries, name, made, false) else old(vol.Files())
    {
      hide Volume.Mounted, Abs, Tidy, NodeOk, DirMap, NodesKept, Canonical, Answers, WithNew, NodeBytes, OpenFile, Opened, CanOpen, OpenStock, Stock;
      made := 0;
      var found := Locate(vol, dir, name, flags.create);
      if found.None? {
        return -2, made;
      }
      var node := found.value;
      made := node.first;
      if node.isDir {
        return -1, made;
      }
      if flags.truncate {
        node := node.(size := 0);
      }
      fd := AllocFd(OpenRec(node, 0, flags));
      if fd != -1 {
        OpenedNow(this, dir, name, flags, fd, found.value);
      }
    }

    /** `vfs_lseek`: a negative position is refused, everything else is taken. */
    method Lseek(fd: int, offset: int, whence: Whence) returns (r: int)
      requires |fds| == MAX_OPEN
      modifies this`fds
      ensures |fds| == MAX_OPEN
      ensures r == -1 ==> fds == old(fds)
      ensures r == -1 <==>
                || !old(IsOpen(fd)) || whence.SeekOther?
                || (whence.SeekSet? && offset < 0)
                || (whence.SeekCur? && old(fds)[fd].value.offset + offset < 0)
                || (whence.SeekEnd? && old(fds)[fd].value.node.size + offset < 0)
      ensures r != -1 && whence.SeekSet? ==> r == offset
      ensures r != -1 && whence.SeekCur? ==> r == old(fds)[fd].value.offset + offset
      ensures r != -1 && whence.SeekEnd? ==> r == old(fds)[fd].value.node.size + offset
      ensures r != -1 ==> fds == old(fds)[fd := Some(old(fds)[fd].value.(offset := r))]
    {
      if fd < 0 || fd >= |fds| || fds[fd].None? {
        return -1;
      }
      var rec := fds[fd].value;
      if whence.SeekOther? {
        return -1;
      }
      var target := Target(rec, offset, whence);
      if target < 0 {
        return -1;
      }
      fds := fds[fd := Some(rec.(offset := target))];
      r := target;
    }
  }

  /** After a write at or below the end, the node still opens the file, which reads as overwritten. */
  lemma WriteOpened(g: Geometry, f0: Fs, disk: Disk, f: Fs, n: Node, n': Node, pos: nat, data: seq<byte>, was: seq<byte>)
    requires Consistent(g, disk, f) && OpenFile(g, f0, n) && SameFrame(f0, f, n.first) && pos <= n.size <= |was|
    requires n' == Raised(n, pos, |data|) && Stored(was, Whole(disk, f, n.first), pos, data)
    ensures OpenFile(g, f, n') && 0 <= n'.size % 0x1_0000_0000 <= n'.size <= |Whole(disk, f, n.first)|
    ensures NodeBytes(disk, f, n') == Whole(disk, f, n.first)[..n'.size]
    ensures WroteAt(was[..n.size], NodeBytes(disk, f, n'), pos, data)
    ensures Recorded32(NodeBytes(disk, f, n')) == Whole(disk, f, n.first)[..n'.size % 0x1_0000_0000]
  {
    hide Consistent, ChainBytes, Stored, Overwritten;
    WholeFits(g, disk, f, n.first);
    StoredIsOverwritten(was, Whole(disk, f, n.first), n.size, pos, data);
  }

  lemma KeptDir(f0: Fs, f1: Fs, dir: nat)
    requires NodesKept(f0, f1) && dir in f0.slots
    ensures dir in f1.slots
  {
  }

  lemma AnswerFirst(f: Fs, dir: nat, name: Name, n: Node)
    requires Answers(f, dir, name, n)
    ensures dir in f.slots && name in DirMap(f.slots[dir]) && n.first == DirMap(f.slots[dir])[name]
  {
  }

  lemma NewEntry(m': map<nat, Obj>, m: map<nat, Obj>, dir: nat, entries: map<Name, nat>, name: Name, c: nat)
    requires m' == WithNew(m, dir, entries, name, c, false) && dir in m && c !in m
    ensures dir in m' && m'[dir].Folder? && name in m'[dir].entries && m'[dir].entries[name] == c
    ensures c in m' && m'[c] == File([])
  {
  }

  lemma TruncatedOk(g: Geometry, f: Fs, n: Node)
    requires OpenFile(g, f, n)
    ensures OpenFile(g, f, n.(size := 0))
  {
  }

  /** The lookup, creation and second lookup inside `vfs_open`. */
  method Locate(vol: Volume, dir: nat, name: Name, create: bool) returns (found: Option<Node>)
    requires vol.Mounted() && dir in vol.fs.slots && IsCString(name) && (name != [] ==> name[0] != DELETED)
    modifies vol
    ensures vol.Mounted() && NodesKept(old(vol.fs), vol.fs)
    ensures found.Some? ==> Answers(vol.fs, dir, name, found.value) && NodeOk(vol.g, vol.fs, found.value)
    ensures name in DirMap(old(vol.fs).slots[dir]) || !create ==> vol.disk == old(vol.disk) && vol.fs == old(vol.fs)
    ensures found.Some? && name !in DirMap(old(vol.fs).slots[dir]) && Canonical(name) ==>
              var h := found.value.first;
              h !in old(vol.fs).owner &&
              vol.Files() == WithNew(old(vol.Files()), dir, DirMap(old(vol.fs).slots[dir]), name, h, false)
    ensures Tidy(old(vol.fs).slots) && Canonical(name) ==> Tidy(vol.fs.slots)
    ensures Canonical(name) || !create ==>
              (found.Some? && !found.value.isDir <==> CanOpen(vol.g, old(vol.disk).fat, old(vol.fs), dir, name, create))
    ensures Canonical(name) && found.None? ==> vol.Files() == old(vol.Files())
    ensures (Canonical(name) || !create) && found.Some? ==>
              Stock(vol.g, vol.disk.fat, vol.fs, found.value.first) == OpenStock(vol.g, old(vol.disk).fat, old(vol.fs), dir, name)
    ensures Canonical(name) && found.Some? && found.value.isDir ==> name in DirMap(old(vol.fs).slots[dir])
  {
    hide Volume.Valid, Consistent, Abs, NoLeak, Tidy, NodeOk, DirMap, NodesKept, Canonical, Full, ValidName, Answers, WithNew, FreeCount;
    ghost var f0, m0 := vol.fs, vol.Files();
    KeptSame(f0);
    HeadFacts(vol.g, vol.disk, f0);
    FolderIsDir(vol.g, vol.disk, f0, dir);
    found := Lookup(vol, dir, name);
    if found.Some? {
      NodeKind(vol.g, vol.fs, found.value);
      AnswerFirst(vol.fs, dir, name, found.value);
    }
    if found.Some? || !create {
      return;
    }
    var rc;
    ghost var made;
    rc, made := Create(vol, dir, name, false);
    if rc != 0 {
      return None;
    }
    NameNotEmpty(name);
    KeptDir(f0, vol.fs, dir);
    found := Lookup(vol, dir, name);
    FolderIsDir(vol.g, vol.disk, vol.fs, dir);
    if Canonical(name) {
      NewEntry(vol.Files(), m0, dir, DirMap(f0.slots[dir]), name, made);
      AnswerFirst(vol.fs, dir, name, found.value);
      NodeKind(vol.g, vol.fs, found.value);
      FolderIsDir(vol.g, vol.disk, vol.fs, made);
    }
  }

  lemma OpenedNow(fs: Vfs, dir: nat, name: Name, flags: Flags, fd: int, n: Node)
    requires fs.Valid() && fs.IsOpen(fd) && !n.isDir
    requires Answers(fs.vol.fs, dir, name, n) && NodeOk(fs.vol.g, fs.vol.fs, n)
    requires fs.fds[fd].value == OpenRec(if flags.truncate then n.(size := 0) else n, 0, flags)
    ensures fs.Opened(dir, name, flags, fd)
  {
    hide Volume.Valid, Consistent, Abs, NoLeak, NodeOk, DirMap, NodeBytes;
    AnswerFirst(fs.vol.fs, dir, name, n);
    NodeOpens(fs.vol.g, fs.vol.disk, fs.vol.fs, dir, name, n);
    TruncatedOk(fs.vol.g, fs.vol.fs, n);
    NodeBytesLen(fs.vol.g, fs.vol.disk, fs.vol.fs, n);
  }

  lemma NodeBytesLen(g: Geometry, disk: Disk, f: Fs, n: Node)
    requires Consistent(g, disk, f) && OpenFile(g, f, n)
    ensures |NodeBytes(disk, f, n)| == n.size
  {
    hide Consistent, ChainBytes;
    NodeFits(g, disk, f, n);
  }

  function Target(rec: OpenRec, offset: int, whence: Whence): int
  {
    match whence
    case SeekCur => rec.offset + offset
    case SeekEnd => rec.node.size + offset
    case _ => offset
  }

  /** Reading from a place: counted from the start, from where the descriptor is, or from the end. */
  method SeekThenRead(fs: Vfs, fd: int, offset: int, whence: Whence, count: nat) returns (r: int, back: seq<byte>)
    requires fs.Valid() && fs.Live(fd)
    modifies fs`fds
    ensures fs.Valid()
    ensures r == -1 ==> back == []
    ensures r != -1 ==>
              var all, at := old(fs.BytesOf(fd)), old(fs.fds)[fd].value.offset;
              var from := match whence
                case SeekSet => offset
                case SeekCur => at + offset
                case _ => |all| + offset;
              && from >= 0 && !whence.SeekOther?
              && back == (if from >= |all| then [] else all[from..if from + count > |all| then |all| else from + count])
  {
    hide Volume.Mounted, NodeBytes, OpenFile;
    back := [];
    SizeOf(fs, fd);
    r := fs.Lseek(fd, offset, whence);
    if r >= 0 {
      var got := fs.Read(fd, count);
      back := got.value;
    }
  }

  lemma SizeOf(fs: Vfs, fd: int)
    requires fs.Valid() && fs.Live(fd)
    ensures |fs.BytesOf(fd)| == fs.fds[fd].value.node.size
  {
    hide Volume.Valid, Consistent, NodeBytes, NoLeak;
    NodeBytesLen(fs.vol.g, fs.vol.disk, fs.vol.fs, fs.fds[fd].value.node);
  }

  /** Reading back at once what was written gives exactly the bytes that were taken. */
  method WriteThenRead(fs: Vfs, fd: int, buf: seq<byte>) returns (r: int, back: seq<byte>)
    requires fs.Valid() && fs.Live(fd) && fs.WritePos(fd) <= fs.fds[fd].value.node.size
    requires fs.WritePos(fd) < 0x1_0000_0000 * fs.vol.g.ClusterSize()
    modifies fs`fds, fs.vol
    ensures fs.Valid() && (r == -1 <==> old(fs.fds)[fd].value.flags.access.ReadOnly?)
    ensures r >= 0 ==> r <= |buf| && back == buf[..r] && (r < |buf| ==> NoneFree(fs.vol.g, fs.vol.disk.fat))
  {
    hide Volume.Mounted, Abs, Tidy, NodeBytes, OpenFile, SameFrame, NoneFree, WroteAt;
    back := [];
    ghost var pos, was := fs.WritePos(fd), fs.BytesOf(fd);
    r := fs.Write(fd, buf);
    if r < 0 {
      return;
    }
    ghost var now := fs.BytesOf(fd);
    ReadBack(was, now, pos, buf[..r]);
    var _ := fs.Lseek(fd, -r, SeekCur);
    var got := fs.Read(fd, r);
    back := got.value;
  }

  lemma ReadBack(was: seq<byte>, now: seq<byte>, pos: nat, data: seq<byte>)
    requires WroteAt(was, now, pos, data)
    ensures pos + |data| <= |now| && now[pos..pos + |data|] == data
  {
  }
}
