/** `/dev/hda0`: bytes at any offset, over whole 512-byte sectors. */
module ByteDisks {
  import opened Bytes

  /** The disk as one array of bytes. */
  function At(d: seq<Sector>, i: nat): byte
    requires i < 512 * |d|
  {
    d[i / 512][i % 512]
  }

  /** `e` is `d` with `b` at `off` and nothing else changed. */
  ghost predicate Wrote(d: seq<Sector>, e: seq<Sector>, off: nat, b: seq<byte>) {
    && |e| == |d| && off + |b| <= 512 * |d|
    && forall i {:trigger At(e, i)} | 0 <= i < 512 * |d| ::
       At(e, i) == if off <= i < off + |b| then b[i - off] else At(d, i)
  }

  /** `b` holds the bytes of `d` from `off`. */
  ghost predicate ReadFrom(d: seq<Sector>, off: nat, b: seq<byte>) {
    && off + |b| <= 512 * |d|
    && forall j {:trigger b[j]} | 0 <= j < |b| :: b[j] == At(d, off + j)
  }

  /** What was written is what is read, wherever the two transfers start and end. */
  lemma ReadBack(d: seq<Sector>, e: seq<Sector>, off: nat, b: seq<byte>, at: nat, c: seq<byte>)
    requires Wrote(d, e, off, b) && ReadFrom(e, at, c)
    ensures forall j | 0 <= j < |c| && off <= at + j < off + |b| :: c[j] == b[at + j - off]
    ensures forall j | 0 <= j < |c| && !(off <= at + j < off + |b|) :: c[j] == At(d, at + j)
    ensures at == off && |c| == |b| ==> c == b
  {
  }

  /** Two writes in a row. */
  lemma WroteTwice(d: seq<Sector>, e: seq<Sector>, f: seq<Sector>, off: nat, b: seq<byte>, pos: nat, c: seq<byte>)
    requires Wrote(d, e, off, b) && Wrote(e, f, pos, c) && pos == off + |b|
    ensures Wrote(d, f, off, b + c)
  {
    forall i | 0 <= i < 512 * |d| ensures At(f, i) == if off <= i < off + |b + c| then (b + c)[i - off] else At(d, i) {
      assert At(e, i) == if off <= i < off + |b| then b[i - off] else At(d, i);
    }
  }

  /** Rewriting part of one sector. */
  lemma WroteSector(d: seq<Sector>, s: nat, off: nat, b: seq<byte>, pos: nat)
    requires s < |d| && off + |b| <= 512 && pos == 512 * s + off
    ensures Wrote(d, d[s := Splice(d[s], off, b)], pos, b)
  {
    var e := d[s := Splice(d[s], off, b)];
    forall i | 0 <= i < 512 * |d| ensures At(e, i) == if pos <= i < pos + |b| then b[i - pos] else At(d, i) {
      if i / 512 == s {
        assert i == 512 * s + i % 512;
      }
    }
  }

  class HdaDevice {
    var disk: seq<Sector>
    const tmp: array<byte>

    ghost predicate Valid()
      reads this
    {
      tmp.Length == 512
    }

    /** How many bytes of the current sector a transfer takes. */
    static method Chunk(i: nat, lbaOffset: nat, remaining: nat) returns (off: nat, n: nat)
      requires lbaOffset < 512
      ensures off == (if i == 0 then lbaOffset else 0) && n == (if 512 - off > remaining then remaining else 512 - off)
    {
      off := if i == 0 then lbaOffset else 0;
      n := 512 - off;
      if n > remaining {
        n := remaining;
      }
    }

    /** `hda_read`. */
    method Read(buf: array<byte>, count: nat, offset: nat) returns (r: int)
      requires Valid() && buf != tmp && count <= buf.Length && offset + count <= 512 * |disk|
      modifies buf, tmp
      ensures count == 0 ==> r == -1 && buf[..] == old(buf[..])
      ensures count > 0 ==> r == count && ReadFrom(disk, offset, buf[..count]) && buf[count..] == old(buf[count..])
    {
      if count == 0 {
        return -1;
      }
      var lba, lbaOffset := offset / 512, offset % 512;
      var sectors := (lbaOffset + count + 511) / 512;
      var remaining, i := count, 0;
      while i < sectors && remaining > 0
        invariant 0 <= remaining <= count
        invariant remaining > 0 ==> offset + (count - remaining) == 512 * (lba + i) + (if i == 0 then lbaOffset else 0)
        invariant ReadFrom(disk, offset, buf[..count - remaining])
                  && forall j | count - remaining <= j < buf.Length :: buf[j] == old(buf[j])
        decreases sectors - i
      {
        var off, n := Chunk(i, lbaOffset, remaining);
        GetSector(lba + i, off, n, buf, count - remaining, offset);
        remaining := remaining - n;
        i := i + 1;
      }
      r := count - remaining;
    }

    /** Append part of one sector to what was read so far. */
    method GetSector(s: nat, off: nat, n: nat, buf: array<byte>, done: nat, ghost at: nat)
      requires Valid() && buf != tmp && s < |disk| && off + n <= 512 && done + n <= buf.Length
               && at + done == 512 * s + off
      requires ReadFrom(disk, at, buf[..done])
      modifies buf, tmp
      ensures ReadFrom(disk, at, buf[..done + n]) && forall j | done + n <= j < buf.Length :: buf[j] == old(buf[j])
    {
      Memcpy(tmp, 0, disk[s]);
      assert tmp[..] == disk[s];
      ghost var was := buf[..];
      Memcpy(buf, done, tmp[off..off + n]);
      ReadMore(disk, at, was, buf[..], done, s, off, n);
    }

    /** `hda_write`: a sector that is not rewritten whole is read first. */
    method Write(buf: array<byte>, count: nat, offset: nat) returns (r: int)
      requires Valid() && buf != tmp && count <= buf.Length && offset + count <= 512 * |disk|
      modifies this`disk, tmp
      ensures count == 0 ==> r == -1 && disk == old(disk)
      ensures count > 0 ==> r == count && Wrote(old(disk), disk, offset, buf[..count])
    {
      if count == 0 {
        return -1;
      }
      var lba, lbaOffset := offset / 512, offset % 512;
      var sectors := (lbaOffset + count + 511) / 512;
      var remaining, i := count, 0;
      while i < sectors && remaining > 0
        invariant 0 <= remaining <= count
        invariant remaining > 0 ==> offset + (count - remaining) == 512 * (lba + i) + (if i == 0 then lbaOffset else 0)
        invariant Wrote(old(disk), disk, offset, buf[..count - remaining])
        decreases sectors - i
      {
        var off, n := Chunk(i, lbaOffset, remaining);
        var done := count - remaining;
        label Turn:
        PutSector(lba + i, off, buf[done..done + n]);
        WroteTwice(old(disk), old@Turn(disk), disk, offset, buf[..done], offset + done, buf[done..done + n]);
        assert buf[..done] + buf[done..done + n] == buf[..done + n];
        remaining := remaining - n;
        i := i + 1;
      }
      r := count - remaining;
    }

    /** Put some bytes into one sector. */
    method PutSector(s: nat, off: nat, b: seq<byte>)
      requires Valid() && s < |disk| && off + |b| <= 512
      modifies this`disk, tmp
      ensures Wrote(old(disk), disk, 512 * s + off, b)
    {
      if off != 0 || |b| != 512 {
        Memcpy(tmp, 0, disk[s]);
      }
      Memcpy(tmp, off, b);
      assert tmp[..] == Splice(disk[s], off, b);
      WroteSector(disk, s, off, b, 512 * s + off);
      disk := disk[s := tmp[..]];
    }
  }

  lemma ReadMore(d: seq<Sector>, at: nat, was: seq<byte>, buf: seq<byte>, done: nat, s: nat, off: nat, n: nat)
    requires done + n <= |was| && s < |d| && off + n <= 512 && at + done == 512 * s + off
    requires ReadFrom(d, at, was[..done]) && buf == Splice(was, done, d[s][off..off + n])
    ensures ReadFrom(d, at, buf[..done + n]) && buf[done + n..] == was[done + n..]
  {
    var c := buf[..done + n];
    forall j | 0 <= j < |c| ensures c[j] == At(d, at + j) {
      if j < done {
        assert c[j] == was[..done][j] == At(d, at + j);
      } else {
        assert (at + j) / 512 == s && (at + j) % 512 == off + (j - done);
        assert c[j] == d[s][off..off + n][j - done];
      }
    }
  }
}
