/** Cloning a rootfs image file: FICLONE, else a sparse copy by copy_file_range, else a full copy (sandbox/clone.go).
    The source does not change meanwhile; every call may fail or do part of its work. */
module Clone {
  import opened Bytes

  /** lseek(SEEK_DATA): an offset, or ENXIO, or another error. */
  datatype Seek = At(off: nat) | ENXIO | Failed

  datatype ReadErr = Fine | EOF | Broken

  /** Some number from 0 to most. */
  function Part(n: int, most: nat): (p: nat)
    ensures p <= most
  {
    if 0 <= n <= most then n else most
  }

  /** Writing b at off, extending the file with zeros as needed. */
  function Patch(d: seq<byte>, off: nat, b: seq<byte>): (r: seq<byte>)
    ensures |r| == if off + |b| > |d| then off + |b| else |d|
    ensures forall i :: 0 <= i < |r| ==>
      r[i] == if off <= i < off + |b| then b[i - off] else if i < |d| then d[i] else 0
  {
    seq(if off + |b| > |d| then off + |b| else |d|,
        i requires 0 <= i => if off <= i < off + |b| then b[i - off] else if i < |d| then d[i] else 0)
  }

  function Mark(m: seq<bool>, off: nat, n: nat): (r: seq<bool>)
    ensures |r| == if off + n > |m| then off + n else |m|
    ensures forall i :: 0 <= i < |r| ==> r[i] == (off <= i < off + n || (i < |m| && m[i]))
  {
    seq(if off + n > |m| then off + n else |m|, i requires 0 <= i => off <= i < off + n || (i < |m| && m[i]))
  }

  class File {
    var data: seq<byte>
    /** Which bytes the file system has allocated; the others are holes and read as zero. */
    var mapped: seq<bool>
    /** Failed calls to open, rewind or close the file; failed reads and writes since it was last opened or rewound, and
        which of the two that was; and failed calls that only the sparse copy makes. */
    ghost var hard: nat
    ghost var io: nat
    ghost var rewound: bool
    ghost var soft: nat

    ghost predicate Valid()
      reads this`data, this`mapped
    {
      |mapped| == |data| && forall i :: 0 <= i < |data| && !mapped[i] ==> data[i] == 0
    }

    constructor (data: seq<byte>, mapped: seq<bool>)
      requires |mapped| == |data| && forall i :: 0 <= i < |data| && !mapped[i] ==> data[i] == 0
      ensures Valid() && this.data == data && this.mapped == mapped
    {
      this.data, this.mapped := data, mapped;
      hard, io, rewound, soft := 0, 0, false, 0;
    }

    /** open(O_RDONLY) and stat. */
    method Open() returns (ok: bool)
      modifies this`hard, this`io, this`rewound
      ensures if ok then hard == old(hard) && io == 0 && !rewound else hard == old(hard) + 1
    {
      ok := *;
      if ok {
        io, rewound := 0, false;
      } else {
        hard := hard + 1;
      }
    }

    method Rewind() returns (ok: bool)
      modifies this`hard, this`io, this`rewound
      ensures if ok then hard == old(hard) && io == 0 && rewound else hard == old(hard) + 1
    {
      ok := *;
      if ok {
        io, rewound := 0, true;
      } else {
        hard := hard + 1;
      }
    }

    method Close() returns (ok: bool)
      modifies this`hard
      ensures hard == old(hard) + if ok then 0 else 1
    {
      ok := *;
      hard := hard + if ok then 0 else 1;
    }

    /** lseek to an offset of the data. */
    method Seek() returns (ok: bool)
      modifies this`soft
      ensures soft == old(soft) + if ok then 0 else 1
    {
      ok := *;
      soft := soft + if ok then 0 else 1;
    }

    /** open(O_CREATE|O_TRUNC). */
    method OpenTruncated() returns (ok: bool)
      requires Valid()
      modifies this
      ensures Valid() && soft == old(soft)
      ensures if ok then data == [] && hard == old(hard) && io == 0 && !rewound else hard == old(hard) + 1
    {
      ok := Open();
      if ok {
        data, mapped := [], [];
      }
    }

    /** ftruncate: grows with a hole. */
    method Truncate(n: nat) returns (ok: bool)
      requires Valid() && data == []
      modifies this`data, this`mapped, this`soft
      ensures Valid() && |data| == (if ok then n else 0) && forall i :: 0 <= i < |mapped| ==> !mapped[i]
      ensures soft == old(soft) + if ok then 0 else 1
    {
      ok := Seek();
      if ok {
        data, mapped := Zeros(n), seq(n, _ => false);
      }
    }

    /** FICLONE: the whole of src, or failure with the destination in any state. */
    method CloneFrom(src: File, junk: seq<byte>) returns (ok: bool)
      requires Valid() && src.Valid() && src != this
      modifies this`data, this`mapped
      ensures Valid() && (ok ==> data == src.data && mapped == src.mapped)
    {
      ok := *;
      data := if ok then src.data else junk;
      mapped := if ok then src.mapped else seq(|junk|, _ => true);
    }

    method SeekData(off: nat) returns (s: Seek)
      requires Valid() && off < |data|
      modifies this`soft
      ensures soft == old(soft) + if s.Failed? then 1 else 0
      ensures s.At? ==> off <= s.off < |data| && mapped[s.off] && forall i :: off <= i < s.off ==> !mapped[i]
      ensures s.ENXIO? ==> forall i :: off <= i < |data| ==> !mapped[i]
    {
      var works := Seek();
      if !works {
        return Failed;
      }
      var i := off;
      while i < |mapped| && !mapped[i]
        invariant off <= i <= |mapped| && forall j :: off <= j < i ==> !mapped[j]
      {
        i := i + 1;
      }
      s := if i < |mapped| then At(i) else ENXIO;
    }

    method SeekHole(off: nat) returns (s: Seek)
      requires Valid() && off < |data| && mapped[off]
      modifies this`soft
      ensures soft == old(soft) + if s.Failed? then 1 else 0
      ensures !s.ENXIO?
      ensures s.At? ==> off < s.off <= |data| && forall i :: off <= i < s.off ==> mapped[i]
    {
      var works := Seek();
      if !works {
        return Failed;
      }
      var i := off + 1;
      while i < |mapped| && mapped[i]
        invariant off < i <= |mapped| && forall j :: off <= j < i ==> mapped[j]
      {
        i := i + 1;
      }
      s := At(i);
    }

    /** copy_file_range at equal offsets: some prefix, possibly none; or an error that may have left junk in the range. */
    method CopyRange(src: File, off: nat, len: nat, junk: seq<byte>) returns (n: nat, err: bool)
      requires Valid() && src.Valid() && src != this && off + len <= |src.data| == |data| && len > 0
      modifies this`data, this`mapped
      ensures Valid() && n <= len && |data| == |old(data)|
      ensures forall i :: 0 <= i < |data| && !(off <= i < off + len) ==> data[i] == old(data)[i] && mapped[i] == old(mapped)[i]
      ensures !err ==> forall i :: off <= i < off + n ==> data[i] == src.data[i]
    {
      n, err := *, *;
      var part := if err then junk[..Min(|junk|, len)] else src.data[off..off + Min(n, len)];
      n := |part|;
      data, mapped := Patch(data, off, part), Mark(mapped, off, n);
    }

    /** pread: all of it, or less with an error; EOF only at the end of the file. */
    method ReadAt(off: nat, len: nat) returns (b: seq<byte>, e: ReadErr)
      requires Valid() && off <= |data|
      modifies this`io
      ensures io == old(io) + if e.Broken? then 1 else 0
      ensures off + |b| <= |data| && |b| <= len && b == data[off..off + |b|]
      ensures e.Fine? <==> |b| == len
      ensures e.EOF? ==> off + |b| == |data|
    {
      var n: int := *;
      var fails: bool := *;
      var most := Min(len, |data| - off);
      if fails && 0 <= n < most {
        io := io + 1;
        return data[off..off + n], Broken;
      }
      b := data[off..off + most];
      e := if most == len then Fine else EOF;
    }

    /** pwrite: all of b, or a prefix and an error. */
    method WriteAt(b: seq<byte>, off: nat) returns (ok: bool)
      requires Valid() && off <= |data|
      modifies this`data, this`mapped, this`io
      ensures io == old(io) + if ok then 0 else 1
      ensures Valid() && (ok ==> data == Patch(old(data), off, b) && mapped == Mark(old(mapped), off, |b|))
      ensures !ok ==> exists k :: 0 <= k <= |b| && data == Patch(old(data), off, b[..k])
    {
      var n: int := *;
      ok := *;
      io := io + if ok then 0 else 1;
      var part := if ok then b else b[..Part(n, |b|)];
      assert ok ==> b == b[..|b|];
      data, mapped := Patch(data, off, part), Mark(mapped, off, |part|);
      assert !ok ==> data == Patch(old(data), off, b[..Part(n, |b|)]);
    }
  }

  /** Equal up to k, still zero from z on, and nothing allocated that is a hole in the source. */
  ghost predicate Copied(dst: File, src: File, k: nat, z: nat)
    reads dst`data, dst`mapped, src`data, src`mapped
  {
    && dst.Valid() && src.Valid() && |dst.data| == |src.data| && k <= |src.data|
    && (forall i :: 0 <= i < k ==> dst.data[i] == src.data[i])
    && (forall i :: z <= i < |dst.data| ==> dst.data[i] == 0)
    && (forall i :: 0 <= i < |dst.data| && dst.mapped[i] ==> src.mapped[i])
  }

  const BUF_LEN := 0x10_0000
  const COPY_LEN := 0x40_0000

  /** The userspace fallback for the rest of one data region. */
  method CopyRegion(dst: File, src: File, from: nat, len: nat) returns (ok: bool)
    requires src != dst && from + len <= |src.data| && Copied(dst, src, from, from + len)
    requires forall i :: from <= i < from + len ==> src.mapped[i]
    modifies dst`data, dst`mapped, dst`io, src`io
    ensures dst.Valid() && |dst.data| == |src.data| && (ok ==> Copied(dst, src, from + len, from + len))
    ensures if ok then dst.io + src.io == old(dst.io + src.io) else dst.io + src.io > old(dst.io + src.io)
  {
    var at, remaining := from, len;
    while remaining > 0
      invariant at + remaining == from + len && Copied(dst, src, at, from + len)
      invariant dst.io == old(dst.io) && src.io == old(src.io)
    {
      var toRead := if remaining < BUF_LEN then remaining else BUF_LEN;
      var b, rerr := src.ReadAt(at, toRead);
      if |b| > 0 {
        ghost var before := dst.data;
        var wrote := dst.WriteAt(b, at);
        if !wrote {
          return false;
        }
        at, remaining := at + |b|, remaining - |b|;
      }
      if !rerr.Fine? {
        if rerr.EOF? {
          break;
        }
        return false;
      }
    }
    ok := true;
  }

  /** One data region: copy_file_range until it fails or stops, then the fallback for what is left. */
  method CopyData(dst: File, src: File, from: nat, end: nat) returns (ok: bool)
    requires src != dst && from < end <= |src.data| && Copied(dst, src, from, end)
    requires forall i :: from <= i < end ==> src.mapped[i]
    modifies dst`data, dst`mapped, dst`io, src`io
    ensures dst.Valid() && |dst.data| == |src.data| && (ok ==> Copied(dst, src, end, end))
    ensures if ok then dst.io + src.io == old(dst.io + src.io) else dst.io + src.io > old(dst.io + src.io)
  {
    var at, length := from, end - from;
    while length > 0
      invariant at + length == end && Copied(dst, src, at, end)
      invariant dst.io == old(dst.io) && src.io == old(src.io)
    {
      var junk: seq<byte> := *;
      var n, err := dst.CopyRange(src, at, length, junk);
      if err || n == 0 {
        ok := CopyRegion(dst, src, at, length);
        return;
      }
      at, length := at + n, length - n;
    }
    ok := true;
  }

  /** Failed calls of the sparse copy so far. */
  ghost function Troubles(dst: File, src: File): nat
    reads dst`io, dst`soft, src`io, src`soft
  {
    dst.io + dst.soft + src.io + src.soft
  }

  /** sparseCopy: on success the destination is the source, byte for byte, and no hole of the source was filled in. It is
      abandoned only if a seek, the truncation, a read or a write failed, not because copy_file_range did. */
  method SparseCopy(dst: File, src: File, size: nat) returns (ok: bool)
    requires src != dst && src.Valid() && dst.Valid() && size == |src.data| && dst.data == []
    modifies dst`data, dst`mapped, dst`io, dst`soft, src`io, src`soft
    ensures dst.Valid() && |dst.data| <= size
    ensures ok ==> dst.data == src.data && forall i :: 0 <= i < size && dst.mapped[i] ==> src.mapped[i]
    ensures if ok then Troubles(dst, src) == old(Troubles(dst, src)) else Troubles(dst, src) > old(Troubles(dst, src))
  {
    var sized := dst.Truncate(size);
    if !sized {
      return false;
    }
    var offset := 0;
    while offset < size
      invariant Copied(dst, src, offset, offset) && Troubles(dst, src) == old(Troubles(dst, src))
    {
      var d := src.SeekData(offset);
      if d.ENXIO? {
        assert forall i :: offset <= i < |src.data| ==> src.data[i] == 0;
        assert dst.data == src.data;
        return true;
      }
      if d.Failed? {
        return false;
      }
      var h := src.SeekHole(d.off);
      if !h.At? {
        return false;
      }
      var sought := dst.Seek();
      if !sought {
        return false;
      }
      ok := CopyData(dst, src, d.off, h.off);
      if !ok {
        return false;
      }
      offset := h.off;
    }
    ok := true;
  }

  /** io.CopyBuffer from the start of both files to the end of src; fails only if a read or a write did. */
  method FullCopy(dst: File, src: File) returns (ok: bool)
    requires src != dst && src.Valid() && dst.Valid() && |dst.data| <= |src.data|
    modifies dst`data, dst`mapped, dst`io, src`io
    ensures dst.Valid() && (ok ==> dst.data == src.data)
    ensures if ok then dst.io + src.io == old(dst.io + src.io) else dst.io + src.io > old(dst.io + src.io)
  {
    var pos := 0;
    while true
      invariant pos <= |dst.data| <= |src.data| && dst.Valid()
      invariant dst.io == old(dst.io) && src.io == old(src.io)
      invariant forall i :: 0 <= i < pos ==> dst.data[i] == src.data[i]
      decreases |src.data| - pos
    {
      var b, rerr := src.ReadAt(pos, COPY_LEN);
      if |b| > 0 {
        var wrote := dst.WriteAt(b, pos);
        if !wrote {
          return false;
        }
        pos := pos + |b|;
      }
      if rerr.EOF? {
        return true;
      }
      if rerr.Broken? {
        return false;
      }
    }
    ok := true;
  }

  /** cloneFile: whatever was refused, partial or abandoned on the way, success means an identical file, and unless it took
      the full copy, one with no hole filled in. It fails only if a file could not be opened, rewound or closed, or if a read
      or a write of the full copy failed: nothing that goes wrong before that is final. */
  method CloneFile(src: File, dst: File) returns (ok: bool)
    requires src != dst && src.Valid() && dst.Valid()
    modifies dst, src`hard, src`io, src`rewound, src`soft
    ensures dst.Valid() && (ok ==> dst.data == src.data)
    ensures ok && !dst.rewound ==> |dst.mapped| == |src.mapped| && forall i :: 0 <= i < |dst.mapped| && dst.mapped[i] ==> src.mapped[i]
    ensures !ok ==>
      || dst.hard + src.hard > old(dst.hard + src.hard)
      || (dst.rewound && src.rewound && dst.io + src.io > 0)
  {
    var isOpen := src.Open();
    if !isOpen {
      return false;
    }
    var size := |src.data|;
    isOpen := dst.OpenTruncated();
    if !isOpen {
      return false;
    }
    var junk: seq<byte> := *;
    var cloned := dst.CloneFrom(src, junk);
    if cloned {
      ok := dst.Close();
      return;
    }
    isOpen := dst.OpenTruncated();
    if !isOpen {
      return false;
    }
    var copied := SparseCopy(dst, src, size);
    if copied {
      ok := dst.Close();
      return;
    }
    var rewound := src.Rewind();
    if !rewound {
      return false;
    }
    rewound := dst.Rewind();
    if !rewound {
      return false;
    }
    ok := FullCopy(dst, src);
    if ok {
      ok := dst.Close();
    }
  }
}
