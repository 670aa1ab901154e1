/** The loops behind the directory code: short names, checksums, name comparison, and printing
    entries into the cluster buffer, each proved against the functions of `DirFormat`. */
module DirNames {
  import opened Bytes
  import opened DirFormat

  /** The scan for the last dot. */
  method FindExt(name: seq<byte>) returns (ext: nat)
    ensures ext == ExtAt(name)
  {
    var dot := -1;
    var p := 0;
    while p < |name|
      invariant 0 <= p <= |name| && dot == LastDot(name[..p])
    {
      assert name[..p + 1][..p] == name[..p];
      if name[p] == '.' as int {
        dot := p;
      }
      p := p + 1;
    }
    assert name[..p] == name;
    ext := if dot == -1 then 11 else dot;
  }

  /** `string_to_fatname`. */
  method StringToFatname(name: seq<byte>) returns (r: seq<byte>)
    requires NoNul(name)
    ensures r == FatName(name)
    ensures (exists d :: LastDotAt(name, d)) && |r| == 12 && r[11] == 0
    ensures forall d, i | LastDotAt(name, d) && 0 <= i < 8 ::
      r[i] == if i < |name| && i < (if d == -1 then 11 else d)
                then (if 97 <= name[i] <= 122 then name[i] - 32 else name[i]) else 32
    ensures forall d, i | LastDotAt(name, d) && 8 <= i < 11 ::
      r[i] == if d != -1 && d != 11 && d + i - 7 < |name|
                then (if 97 <= name[d + i - 7] <= 122 then name[d + i - 7] - 32 else name[d + i - 7]) else 32
  {
    r := FillFatname(name);
    FatNameIs(name);
  }

  lemma DotIs(name: seq<byte>, d: int)
    requires LastDotAt(name, d)
    ensures LastDot(name) == d
  {
  }

  lemma FatNameIs(name: seq<byte>)
    ensures LastDotAt(name, LastDot(name))
    ensures forall d, i | LastDotAt(name, d) && 0 <= i < 8 ::
      FatName(name)[i] == if i < |name| && i < (if d == -1 then 11 else d)
                            then (if 97 <= name[i] <= 122 then name[i] - 32 else name[i]) else 32
    ensures forall d, i | LastDotAt(name, d) && 8 <= i < 11 ::
      FatName(name)[i] == if d != -1 && d != 11 && d + i - 7 < |name|
                            then (if 97 <= name[d + i - 7] <= 122 then name[d + i - 7] - 32 else name[d + i - 7])
                            else 32
  {
    forall d: int, i: nat | LastDotAt(name, d) && i < 8
      ensures FatName(name)[i] == if i < |name| && i < (if d == -1 then 11 else d)
                                    then (if 97 <= name[i] <= 122 then name[i] - 32 else name[i]) else 32
    {
      BaseAt(name, d, i);
    }
    forall d: int, i: nat | LastDotAt(name, d) && 8 <= i < 11
      ensures FatName(name)[i]
           == if d != -1 && d != 11 && d + i - 7 < |name|
                then (if 97 <= name[d + i - 7] <= 122 then name[d + i - 7] - 32 else name[d + i - 7]) else 32
    {
      ExtensionAt(name, d, i, d + i - 7);
    }
  }

  lemma BaseAt(name: seq<byte>, d: int, i: nat)
    requires LastDotAt(name, d) && i < 8
    ensures FatName(name)[i] == if i < |name| && i < (if d == -1 then 11 else d)
                                  then (if 97 <= name[i] <= 122 then name[i] - 32 else name[i]) else 32
  {
    DotIs(name, d);
  }

  lemma ExtensionAt(name: seq<byte>, d: int, i: nat, x: int)
    requires LastDotAt(name, d) && 8 <= i < 11 && x == d + i - 7
    ensures FatName(name)[i] == if d != -1 && d != 11 && x < |name|
                                  then (if 97 <= name[x] <= 122 then name[x] - 32 else name[x]) else 32
  {
    DotIs(name, d);
  }

  method FillFatname(name: seq<byte>) returns (r: seq<byte>)
    requires NoNul(name)
    ensures r == FatName(name)
  {
    var fatName := new byte[12](i => 0x20);
    fatName[11] := 0;
    var ext := FindExt(name);
    var i := 0;
    while i < 8 && i < |name| && i < ext
      invariant 0 <= i <= 8 && (i == 0 || (i <= |name| && i <= ext))
      invariant forall j | 0 <= j < 12 :: fatName[j] == if j < i then Upper(name[j]) else if j < 11 then 0x20 else 0
    {
      fatName[i] := if 'a' as int <= name[i] <= 'z' as int then name[i] - 32 else name[i];
      i := i + 1;
    }
    assert forall j | 0 <= j < 8 :: fatName[j] == FatNameByte(name, j);
    if ext != 11 {
      i := 0;
      while i < 3 && ext + i + 1 < |name|
        invariant 0 <= i <= 3 && (i == 0 || ext + i < |name|)
        invariant forall j | 0 <= j < 8 :: fatName[j] == FatNameByte(name, j)
        invariant forall j | 8 <= j < 11 :: fatName[j] == if j - 8 < i then Upper(name[ext + 1 + (j - 8)]) else 0x20
        invariant fatName[11] == 0
      {
        fatName[i + 8] := if 'a' as int <= name[ext + i + 1] <= 'z' as int then name[ext + i + 1] - 32
            else name[ext + i + 1];
        i := i + 1;
      }
    }
    r := fatName[..];
  }

  /** `make_sfn`. */
  method MakeSfn(name: seq<byte>) returns (sfn: seq<byte>)
    requires NoNul(name)
    ensures sfn == ShortName(name)
    ensures (exists d :: LastDotAt(name, d)) && |sfn| == 11
    ensures forall d, i | LastDotAt(name, d) && 0 <= i < 8 ::
      sfn[i] == if i < |name| && i < (if d == -1 then 11 else d)
                  then (if 97 <= name[i] <= 122 then name[i] - 32 else name[i]) else 32
    ensures forall d, i | LastDotAt(name, d) && 8 <= i < 11 ::
      sfn[i] == if d == -1 then 0
                else if d != 11 && d + i - 7 < |name|
                  then (if 97 <= name[d + i - 7] <= 122 then name[d + i - 7] - 32 else name[d + i - 7]) else 32
  {
    sfn := FillSfn(name);
    ShortNameIs(name);
  }

  lemma ShortNameIs(name: seq<byte>)
    ensures LastDotAt(name, LastDot(name))
    ensures forall d, i | LastDotAt(name, d) && 0 <= i < 8 ::
      ShortName(name)[i] == if i < |name| && i < (if d == -1 then 11 else d)
                              then (if 97 <= name[i] <= 122 then name[i] - 32 else name[i]) else 32
    ensures forall d, i | LastDotAt(name, d) && 8 <= i < 11 ::
      ShortName(name)[i] == if d == -1 then 0
                            else if d != 11 && d + i - 7 < |name|
                              then (if 97 <= name[d + i - 7] <= 122 then name[d + i - 7] - 32 else name[d + i - 7])
                            else 32
  {
    FatNameIs(name);
    forall d: int, i: nat | LastDotAt(name, d) && i < 11
      ensures ShortName(name)[i] == if i >= 8 && d == -1 then 0 else FatName(name)[i]
    {
      DotIs(name, d);
    }
  }

  method FillSfn(name: seq<byte>) returns (sfn: seq<byte>)
    requires NoNul(name)
    ensures sfn == ShortName(name)
  {
    var tmp := FillFatname(name);
    var hasDot := false;
    var p := 0;
    while p < |name| && !hasDot
      invariant 0 <= p <= |name|
      invariant !hasDot ==> forall j | 0 <= j < p :: name[j] != '.' as int
      invariant hasDot ==> '.' as int in name
    {
      if name[p] == '.' as int {
        hasDot := true;
      }
      p := p + 1;
    }
    assert hasDot <==> LastDot(name) != -1;
    if !hasDot {
      tmp := tmp[8 := 0][9 := 0][10 := 0];
    }
    sfn := tmp[..11];
  }

  /** The sums after each byte: the one before turned right by a bit, plus the byte. */
  ghost predicate Sums(t: seq<byte>, sfn: seq<byte>) {
    && |t| == |sfn| + 1 && t[0] == 0
    && forall p | 0 <= p < |sfn| ::
         t[p + 1] as int == ((if t[p] % 2 == 1 then 128 else 0) + t[p] as int / 2 + sfn[p] as int) % 256
  }

  /** `lfn_sum` and `CalculateLFNChecksum`. */
  method LfnSum(sfn: seq<byte>) returns (s: byte)
    requires |sfn| == 11
    ensures s == Checksum(sfn)
    ensures exists t :: Sums(t, sfn) && t[11] == s
  {
    s := AddUp(sfn);
    SumTrace(sfn);
  }

  lemma SumTrace(sfn: seq<byte>)
    requires |sfn| == 11
    ensures exists t :: Sums(t, sfn) && t[11] == Checksum(sfn)
  {
    var t: seq<byte> := seq(12, p requires 0 <= p < 12 => Checksum(sfn[..p]));
    assert sfn[..11] == sfn && sfn[..0] == [];
    forall p | 0 <= p < 11
      ensures t[p + 1] as int == ((if t[p] % 2 == 1 then 128 else 0) + t[p] as int / 2 + sfn[p] as int) % 256
    {
      assert sfn[..p + 1][..p] == sfn[..p];
    }
    assert Sums(t, sfn);
  }

  method AddUp(sfn: seq<byte>) returns (s: byte)
    requires |sfn| == 11
    ensures s == Checksum(sfn)
  {
    s := 0;
    var p := 0;
    while p < 11
      invariant 0 <= p <= 11 && s == Checksum(sfn[..p])
    {
      assert sfn[..p + 1][..p] == sfn[..p];
      s := ((if s % 2 == 1 then 0x80 else 0) + s / 2 + sfn[p]) % 0x100;
      p := p + 1;
    }
    assert sfn[..11] == sfn;
  }

  /** `strCasecmp(a, b) == 0`, on a NUL-terminated buffer and a string. */
  method StrCaseEq(a: seq<byte>, b: seq<byte>) returns (eq: bool)
    requires NoNul(b)
    ensures eq <==> Fold(CStr(a)) == Fold(b)
    ensures eq <==>
      |CStr(a)| == |b| && forall i | 0 <= i < |b| ::
        var c := CStr(a)[i];
        c == b[i] || (65 <= c <= 90 && b[i] == c + 32) || (65 <= b[i] <= 90 && c == b[i] + 32)
  {
    eq := CompareFolded(a, b);
    FoldSame(CStr(a), b);
  }

  method CompareFolded(a: seq<byte>, b: seq<byte>) returns (eq: bool)
    requires NoNul(b)
    ensures eq <==> Fold(CStr(a)) == Fold(b)
  {
    var s := CStr(a);
    var i := 0;
    while true
      invariant 0 <= i <= |s| && i <= |b|
      invariant forall j | 0 <= j < i :: Upper(s[j]) == Upper(b[j])
      decreases |b| - i
    {
      var c1 := if i < |s| then Upper(s[i]) else 0;
      var c2 := if i < |b| then Upper(b[i]) else 0;
      if c1 != c2 {
        assert i < |s| && i < |b| && |s| == |b| ==> Fold(s)[i] != Fold(b)[i];
        return false;
      }
      if c1 == 0 {
        return true;
      }
      i := i + 1;
    }
  }

  // ---- printing into the cluster buffer ----

  /** Little-endian bytes of `n` units starting at `from`. */
  function UnitBytes(u: seq<u16>, from: nat, n: nat): (r: seq<byte>)
    requires from + n <= |u|
    ensures |r| == 2 * n
  {
    if n == 0 then [] else UnitBytes(u, from, n - 1) + Le16(u[from + n - 1])
  }

  lemma {:induction false} UnitBytesAt(u: seq<u16>, from: nat, n: nat, b: nat)
    requires from + n <= |u| && b < 2 * n
    ensures UnitBytes(u, from, n)[b] == Le16(u[from + b / 2])[b % 2]
  {
    if b < 2 * (n - 1) {
      UnitBytesAt(u, from, n - 1, b);
    }
  }

  method PrepareUnits(name: seq<byte>) returns (uname: array<u16>)
    requires NameOk(name)
    ensures fresh(uname) && uname.Length == 128
    ensures forall i | 0 <= i < LfnCount(name) * 13 :: uname[i] == NameUnit(name, i)
  {
    uname := new u16[128](i => 0);
    var i := 0;
    while i < |name|
      invariant 0 <= i <= |name|
      invariant forall j | 0 <= j < i :: uname[j] == name[j]
    {
      uname[i] := name[i];
      i := i + 1;
    }
    uname[|name|] := 0;
    i := |name| + 1;
    while i < LfnCount(name) * 13
      invariant |name| + 1 <= i <= 76
      invariant forall j | 0 <= j < i :: uname[j] == NameUnit(name, j)
    {
      uname[i] := 0xFFFF;
      i := i + 1;
    }
  }

  /** `buf` with slot `i` replaced. */
  function PutSlot(buf: seq<byte>, i: nat, s: Slot): seq<byte>
    requires 32 * i + 32 <= |buf|
  {
    Splice(buf, 32 * i, s)
  }

  /** The fields of a slot before its name units are copied in. */
  function HeaderByte(order: byte, csum: byte, x: nat): byte {
    if x == 0 then order else if x == 11 then 0x0F else if x == 13 then csum else 0
  }

  /** `c` is `b` with a slot cleared and its header filled in at `l`. */
  ghost predicate IsHeader(b: seq<byte>, c: seq<byte>, l: nat, order: byte, csum: byte) {
    |b| == |c| && forall j | 0 <= j < |b| :: c[j] == if l <= j < l + 32 then HeaderByte(order, csum, j - l) else b[j]
  }

  /** Clear a slot and fill in everything but the name. */
  method PrintHeader(buf: array<byte>, l: nat, chunk: nat, last: bool, csum: byte)
    requires l + 32 <= buf.Length && chunk < 20
    modifies buf
    ensures IsHeader(old(buf[..]), buf[..], l, if last then chunk + 1 + 0x40 else chunk + 1, csum)
  {
    Memset(buf, l, 0, 32);
    buf[l] := chunk + 1;
    if last {
      buf[l] := buf[l] + 0x40;   // `|= 0x40` on a value below 0x40
    }
    buf[l + 11] := 0x0F;
    buf[l + 13] := csum;
  }

  method PrintLfn(buf: array<byte>, i: nat, name: seq<byte>, uname: array<u16>, k: nat, csum: byte)
    requires NameOk(name) && k < LfnCount(name) && 32 * i + 32 <= buf.Length
    requires uname.Length == 128 && forall j | 0 <= j < LfnCount(name) * 13 :: uname[j] == NameUnit(name, j)
    requires buf as object != uname
    modifies buf
    ensures buf[..] == PutSlot(old(buf[..]), i, LfnSlot(name, k, LfnCount(name), csum))
  {
    var n := LfnCount(name);
    var chunk := n - 1 - k;
    var l := 32 * i;
    ghost var b0 := buf[..];
    PrintHeader(buf, l, chunk, k == 0, csum);
    ghost var b1 := buf[..];
    var u1 := UnitBytes(uname[..], chunk * 13, 5);
    var u2 := UnitBytes(uname[..], chunk * 13 + 5, 6);
    var u3 := UnitBytes(uname[..], chunk * 13 + 11, 2);
    Memcpy(buf, l + 1, u1);
    ghost var b2 := buf[..];
    Memcpy(buf, l + 14, u2);
    ghost var b3 := buf[..];
    Memcpy(buf, l + 28, u3);
    PrintedSlot(b0, b1, b2, b3, buf[..], i, l, name, uname[..], k, chunk, csum, u1, u2, u3);
  }

  lemma PrintedSlot(b0: seq<byte>, b1: seq<byte>, b2: seq<byte>, b3: seq<byte>, b4: seq<byte>, i: nat, l: nat,
                    name: seq<byte>, u: seq<u16>, k: nat, c: nat, csum: byte, u1: seq<byte>, u2: seq<byte>,
                        u3: seq<byte>)
    requires NameOk(name) && k < LfnCount(name) && c == LfnCount(name) - 1 - k && l == 32 * i && l + 32 <= |b0| == |b1|
    requires |u| == 128 && forall j | 0 <= j < LfnCount(name) * 13 :: u[j] == NameUnit(name, j)
    requires u1 == UnitBytes(u, c * 13, 5) && u2 == UnitBytes(u, c * 13 + 5, 6) && u3 == UnitBytes(u, c * 13 + 11, 2)
    requires IsHeader(b0, b1, l, OrderByte(k, LfnCount(name)), csum)
    requires b2 == Splice(b1, l + 1, u1) && b3 == Splice(b2, l + 14, u2) && b4 == Splice(b3, l + 28, u3)
    ensures b4 == PutSlot(b0, i, LfnSlot(name, k, LfnCount(name), csum))
  {
    Printed(name, u, k, c, csum);
    Assembled(b0, b1, b2, b3, b4, l, OrderByte(k, LfnCount(name)), csum, u1, u2, u3,
        LfnSlot(name, k, LfnCount(name), csum));
  }

  /** Byte `x` of a slot with the given header and name fields. */
  function SlotByte(order: byte, csum: byte, u1: seq<byte>, u2: seq<byte>, u3: seq<byte>, x: nat): byte
    requires |u1| == 10 && |u2| == 12 && |u3| == 4 && x < 32
  {
    if 1 <= x < 11 then u1[x - 1]
    else if 14 <= x < 26 then u2[x - 14]
    else if 28 <= x then u3[x - 28]
    else HeaderByte(order, csum, x)
  }

  lemma Assembled(b0: seq<byte>, b1: seq<byte>, b2: seq<byte>, b3: seq<byte>, b4: seq<byte>, l: nat,
                  order: byte, csum: byte, u1: seq<byte>, u2: seq<byte>, u3: seq<byte>, s: Slot)
    requires |u1| == 10 && |u2| == 12 && |u3| == 4 && l + 32 <= |b0| && IsHeader(b0, b1, l, order, csum)
    requires b2 == Splice(b1, l + 1, u1) && b3 == Splice(b2, l + 14, u2) && b4 == Splice(b3, l + 28, u3)
    requires forall x | 0 <= x < 32 :: s[x] == SlotByte(order, csum, u1, u2, u3, x)
    ensures b4 == Splice(b0, l, s)
  {
  }

  lemma Printed(name: seq<byte>, u: seq<u16>, k: nat, c: nat, csum: byte)
    requires NameOk(name) && k < LfnCount(name) && c == LfnCount(name) - 1 - k
    requires |u| == 128 && forall j | 0 <= j < LfnCount(name) * 13 :: u[j] == NameUnit(name, j)
    ensures forall x | 0 <= x < 32 ::
      LfnSlot(name, k, LfnCount(name), csum)[x]
      == SlotByte(OrderByte(k, LfnCount(name)), csum, UnitBytes(u, c * 13, 5), UnitBytes(u, c * 13 + 5, 6),
          UnitBytes(u, c * 13 + 11, 2), x)
  {
    var n := LfnCount(name);
    forall x | 0 <= x < 32 ensures LfnSlot(name, k, n, csum)[x]
      == SlotByte(OrderByte(k, n), csum, UnitBytes(u, c * 13, 5), UnitBytes(u, c * 13 + 5, 6),
          UnitBytes(u, c * 13 + 11, 2), x)
    {
      PrintedByte(name, u, c, n, OrderByte(k, n), csum, x);
    }
  }

  lemma PrintedByte(name: seq<byte>, u: seq<u16>, c: nat, n: nat, order: byte, csum: byte, x: nat)
    requires c < n <= 5 && x < 32 && |u| == 128 && forall j | 0 <= j < n * 13 :: u[j] == NameUnit(name, j)
    ensures LfnByte(name, c, order, csum, x)
         == SlotByte(order, csum, UnitBytes(u, c * 13, 5), UnitBytes(u, c * 13 + 5, 6), UnitBytes(u, c * 13 + 11, 2), x)
  {
    if 1 <= x < 11 {
      FieldByte(name, u, n, c, 0, 5, x - 1, c * 13, c * 13 + (x - 1) / 2);
    } else if 14 <= x < 26 {
      FieldByte(name, u, n, c, 5, 6, x - 14, c * 13 + 5, c * 13 + (x - 4) / 2);
    } else if 28 <= x {
      FieldByte(name, u, n, c, 11, 2, x - 28, c * 13 + 11, c * 13 + (x - 6) / 2);
    }
  }

  lemma FieldByte(name: seq<byte>, u: seq<u16>, n: nat, c: nat, a: nat, m: nat, y: nat, from: nat, at: nat)
    requires c < n <= 5 && a + m <= 13 && y < 2 * m && from == c * 13 + a && at == from + y / 2
    requires |u| == 128 && forall i | 0 <= i < n * 13 :: u[i] == NameUnit(name, i)
    ensures UnitBytes(u, from, m)[y] == Le16(NameUnit(name, at))[y % 2]
  {
    UnitBytesAt(u, from, m, y);
  }
}
