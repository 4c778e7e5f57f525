/** The QCOW2 metadata checks, on the 64-bit unsigned arithmetic the code uses, against what they
    are meant to establish in plain integers (internal/applevmhelper/runtime_darwin_arm64.go;
    sections "Header" and "Header extensions" of the QEMU qcow2 image format specification). */
module Qcow2 {
  import opened Bytes

  const HEADER_V2 := 72
  const HEADER_V3 := 104
  const MAX_L1_BYTES := 0x200_0000
  const MAX_REFCOUNT_BYTES := 0x80_0000
  const SNAPSHOT_HEADER := 40
  const MAX_INT64 := 0x7FFF_FFFF_FFFF_FFFF
  const TWO64 := 0x1_0000_0000_0000_0000

  /** A file whose size fits the signed 64-bit integer the system reports it in. */
  type Image = s: seq<byte> | |s| <= MAX_INT64

  /** uint64 arithmetic. */
  function U64(x: int): int { x % TWO64 }

  function Field(source: seq<byte>, from: nat, to: nat): int
    requires from <= to
  {
    if to <= |source| then BigEndian(source[from..to]) else 0
  }

  lemma FieldBounds(source: seq<byte>, from: nat, to: nat)
    requires from <= to
    ensures 0 <= Field(source, from, to)
    ensures to == from + 4 ==> Field(source, from, to) < 0x1_0000_0000
    ensures to == from + 8 ==> Field(source, from, to) < TWO64
  {
    if to <= |source| {
      BigEndianBound(source[from..to]);
      assert Power256(1) == 256 && Power256(2) == 0x1_0000 && Power256(3) == 0x100_0000 && Power256(4) == 0x1_0000_0000;
      assert Power256(5) == 0x100_0000_0000 && Power256(6) == 0x1_0000_0000_0000 && Power256(7) == 0x100_0000_0000_0000;
      assert Power256(8) == TWO64;
    }
  }

  /** `1 << bits` over the supported range of cluster sizes. */
  function ClusterSize(bits: int): (n: int)
    ensures 512 <= n <= 0x20_0000 && n % 512 == 0
  {
    match bits
    case 10 => 0x400
    case 11 => 0x800
    case 12 => 0x1000
    case 13 => 0x2000
    case 14 => 0x4000
    case 15 => 0x8000
    case 16 => 0x1_0000
    case 17 => 0x2_0000
    case 18 => 0x4_0000
    case 19 => 0x8_0000
    case 20 => 0x10_0000
    case 21 => 0x20_0000
    case _ => 0x200
  }

  // The incompatible-feature bits the checks look at.
  predicate Corrupt(features: int) { (features / 2) % 2 == 1 }
  predicate ExternalData(features: int) { (features / 4) % 2 == 1 }
  predicate ExtendedL2(features: int) { (features / 16) % 2 == 1 }

  // ---------- header fields ----------

  predicate HasMagic(s: seq<byte>) { |s| >= 4 && s[0] == 0x51 && s[1] == 0x46 && s[2] == 0x49 && s[3] == 0xfb }
  function Version(s: seq<byte>): int { Field(s, 4, 8) }
  function ClusterBits(s: seq<byte>): int { Field(s, 20, 24) }
  function VirtualBytes(s: seq<byte>): int { Field(s, 24, 32) }
  function L1Entries(s: seq<byte>): int { Field(s, 36, 40) }
  function RefcountClusters(s: seq<byte>): int { Field(s, 56, 60) }
  function Snapshots(s: seq<byte>): int { Field(s, 60, 64) }
  function Incompatible(s: seq<byte>): int { if Version(s) == 3 then Field(s, 72, 80) else 0 }
  function HeaderBytes(s: seq<byte>): int { if Version(s) == 3 then Field(s, 100, 104) else HEADER_V2 }
  function L2EntryBytes(s: seq<byte>): int { if ExtendedL2(Incompatible(s)) then 16 else 8 }
  function ClusterBytes(s: seq<byte>): int { ClusterSize(ClusterBits(s)) }

  // ---------- the checks, as the code computes them ----------

  predicate RangeOk(offset: int, length: int, alignment: int, sourceBytes: int)
    requires alignment > 0
  {
    && offset != 0 && offset % alignment == 0
    && offset <= sourceBytes && length <= U64(sourceBytes - offset)
  }

  predicate VersionThreeOk(s: Image)
  {
    && |s| >= HEADER_V3
    && !Corrupt(Incompatible(s))
    && Incompatible(s) < 32 && !ExternalData(Incompatible(s))
    && Field(s, 96, 100) <= 6
    && HeaderBytes(s) >= HEADER_V3 && HeaderBytes(s) % 8 == 0 && HeaderBytes(s) <= ClusterBytes(s)
    && (ExtendedL2(Incompatible(s)) ==> ClusterBits(s) >= 14)
  }

  /** Everything before the walk over the header extensions. */
  predicate TablesOk(s: Image, maxDiskBytes: int)
  {
    && |s| >= HEADER_V2 && HasMagic(s)
    && (Version(s) == 2 || Version(s) == 3)
    && Field(s, 8, 16) == 0 && Field(s, 16, 20) == 0
    && 9 <= ClusterBits(s) <= 21
    && VirtualBytes(s) != 0 && VirtualBytes(s) <= MAX_INT64 && VirtualBytes(s) <= maxDiskBytes
    && Field(s, 32, 36) == 0
    && (Version(s) == 3 ==> VersionThreeOk(s))
    && L1Ok(s) && RefcountOk(s) && SnapshotsOk(s)
  }

  predicate L1Ok(s: Image)
  {
    var cluster := ClusterBytes(s);
    var l1Bytes := U64(L1Entries(s) * 8);
    var coverage := U64(cluster * (cluster / L2EntryBytes(s)));
    && L1Entries(s) != 0 && l1Bytes <= MAX_L1_BYTES
    && coverage != 0 && L1Entries(s) >= U64(U64(VirtualBytes(s) + coverage) - 1) / coverage
    && RangeOk(Field(s, 40, 48), l1Bytes, cluster, |s|)
  }

  predicate RefcountOk(s: Image)
  {
    var bytes := U64(RefcountClusters(s) * ClusterBytes(s));
    RefcountClusters(s) != 0 && bytes <= MAX_REFCOUNT_BYTES && RangeOk(Field(s, 48, 56), bytes, ClusterBytes(s), |s|)
  }

  predicate SnapshotsOk(s: Image)
  {
    Snapshots(s) > 0 ==> RangeOk(Field(s, 64, 72), U64(Snapshots(s) * SNAPSHOT_HEADER), ClusterBytes(s), |s|)
  }

  function Min(a: int, b: int): int { if a < b then a else b }

  function Padded(n: int): int { (n + 7) / 8 * 8 }

  /** From `offset` on there is a chain of whole, padded extensions inside [0, limit) that ends
      in an empty end marker. */
  ghost predicate ExtensionChain(s: seq<byte>, offset: nat, limit: nat)
    requires limit <= |s|
    decreases limit - offset
  {
    offset + 8 <= limit &&
    (var kind, length := Field(s, offset, offset + 4), Field(s, offset + 4, offset + 8);
     if kind == 0 then length == 0
     else
       FieldBounds(s, offset + 4, offset + 8);
       offset + 8 + Padded(length) <= limit && ExtensionChain(s, offset + 8 + Padded(length), limit))
  }

  lemma WalkArithmetic(offset: nat, limit: nat, length: int)
    requires offset <= 0x20_0000 && limit <= 0x20_0000 && 0 <= length < 0x1_0000_0000
    ensures U64(offset + 8) == offset + 8 && U64(length + 7) / 8 * 8 == Padded(length) >= 0
    ensures offset + 8 <= limit ==> U64(limit - (offset + 8)) == limit - (offset + 8)
    ensures U64(offset + 8 + Padded(length)) == offset + 8 + Padded(length)
  {
  }

  method ValidateHeaderExtensions(s: Image, headerBytes: nat, clusterBytes: nat) returns (ok: bool)
    requires headerBytes <= clusterBytes <= 0x20_0000
    ensures ok <==> ExtensionChain(s, headerBytes, Min(clusterBytes, |s|))
  {
    var limit := Min(clusterBytes, |s|);
    var offset := headerBytes;
    WalkArithmetic(offset, limit, 0);
    while U64(offset + 8) <= limit
      invariant offset <= 0x20_0000 && U64(offset + 8) == offset + 8
      invariant ExtensionChain(s, headerBytes, limit) <==> ExtensionChain(s, offset, limit)
      decreases limit - offset
    {
      var kind, length := Field(s, offset, offset + 4), Field(s, offset + 4, offset + 8);
      FieldBounds(s, offset + 4, offset + 8);
      if kind == 0 {
        return length == 0;
      }
      WalkArithmetic(offset, limit, length);
      var padded := U64(length + 7) / 8 * 8;
      if padded > U64(limit - (offset + 8)) {
        return false;
      }
      offset := U64(U64(offset + 8) + padded);
      WalkArithmetic(offset, limit, 0);
    }
    ok := false;
  }

  /** The whole check. */
  method ValidateMetadata(s: Image, maxDiskBytes: int) returns (ok: bool)
    ensures ok <==> WellFormed(s, maxDiskBytes)
  {
    ok := TablesOk(s, maxDiskBytes);
    TablesExact(s, maxDiskBytes);
    if ok {
      ok := ValidateHeaderExtensions(s, HeaderBytes(s), ClusterBytes(s));
    }
  }

  // ---------- what acceptance means, in plain integers ----------

  /** A table of `length` bytes lies cluster-aligned, past the header, inside the file. */
  predicate Inside(offset: int, length: int, cluster: int, size: int)
    requires cluster > 0
  {
    0 < offset && offset % cluster == 0 && offset + length <= size
  }

  ghost predicate WellFormed(s: Image, maxDiskBytes: int)
  {
    var cluster := ClusterBytes(s);
    && |s| >= HEADER_V2 && HasMagic(s) && (Version(s) == 2 || Version(s) == 3)
    && Field(s, 8, 16) == 0 && Field(s, 16, 20) == 0 && Field(s, 32, 36) == 0
    && 9 <= ClusterBits(s) <= 21
    && 0 < VirtualBytes(s) <= MAX_INT64 && VirtualBytes(s) <= maxDiskBytes
    && (Version(s) == 3 ==> VersionThreeOk(s))
    // The L1 table maps the whole virtual disk.
    && 0 < L1Entries(s) * 8 <= MAX_L1_BYTES
    && L1Entries(s) * (cluster * (cluster / L2EntryBytes(s))) >= VirtualBytes(s)
    && Inside(Field(s, 40, 48), L1Entries(s) * 8, cluster, |s|)
    && 0 < RefcountClusters(s) * cluster <= MAX_REFCOUNT_BYTES
    && Inside(Field(s, 48, 56), RefcountClusters(s) * cluster, cluster, |s|)
    && (Snapshots(s) > 0 ==> Inside(Field(s, 64, 72), Snapshots(s) * SNAPSHOT_HEADER, cluster, |s|))
    && ExtensionChain(s, HeaderBytes(s), Min(cluster, |s|))
  }

  lemma RangeExact(offset: int, length: int, cluster: int, size: int)
    requires cluster > 0 && 0 <= offset < TWO64 && 0 <= length && 0 <= size <= MAX_INT64
    ensures RangeOk(offset, length, cluster, size) <==> Inside(offset, length, cluster, size)
  {
    if offset <= size {
      assert U64(size - offset) == size - offset;
    }
  }

  /** Rounding up: `n` units of `unit` cover `total` exactly when `n` is at least the quotient. */
  lemma CoverIff(n: int, unit: int, total: int)
    requires unit > 0 && total >= 0 && n >= 0
    ensures n >= (total + unit - 1) / unit <==> n * unit >= total
  {
    var q := (total + unit - 1) / unit;
    QuotientBounds(total + unit - 1, unit);
    if n >= q {
      ProductMonotone(q, n, unit);
    } else {
      ProductMonotone(n + 1, q, unit);
    }
  }

  lemma QuotientBounds(x: int, unit: int)
    requires unit > 0
    ensures x / unit * unit <= x < x / unit * unit + unit
  {
    assert x == x / unit * unit + x % unit;
  }

  lemma ProductMonotone(a: int, b: int, unit: int)
    requires a <= b && unit > 0
    ensures a * unit <= b * unit
  {
    assert (b - a) * unit >= 0;
  }

  /** The bytes one L1 entry maps; small enough that no sum with a disk size can wrap. */
  lemma Coverage(bits: int, extended: bool)
    ensures var c, e := ClusterSize(bits), if extended then 16 else 8;
            0 < c * (c / e) <= 0x80_0000_0000 && U64(c * (c / e)) == c * (c / e)
  {
  }

  /** The rounded-up division in the code does not wrap. */
  lemma CoverTest(entries: int, coverage: int, total: int)
    requires entries >= 0 && 0 < coverage <= 0x80_0000_0000 && 0 < total <= MAX_INT64
    ensures entries >= U64(U64(total + coverage) - 1) / coverage <==> entries * coverage >= total
  {
    assert U64(U64(total + coverage) - 1) == total + coverage - 1;
    CoverIff(entries, coverage, total);
  }

  lemma L1Exact(s: Image)
    requires 0 < VirtualBytes(s) <= MAX_INT64
    ensures var c := ClusterBytes(s);
            L1Ok(s) <==>
              && 0 < L1Entries(s) * 8 <= MAX_L1_BYTES
              && L1Entries(s) * (c * (c / L2EntryBytes(s))) >= VirtualBytes(s)
              && Inside(Field(s, 40, 48), L1Entries(s) * 8, c, |s|)
  {
    var c := ClusterBytes(s);
    FieldBounds(s, 36, 40);
    FieldBounds(s, 40, 48);
    Coverage(ClusterBits(s), ExtendedL2(Incompatible(s)));
    L1Test(L1Entries(s), VirtualBytes(s), Field(s, 40, 48), c, c * (c / L2EntryBytes(s)), |s|);
  }

  lemma L1Test(entries: int, total: int, offset: int, cluster: int, coverage: int, size: int)
    requires 0 <= entries < 0x1_0000_0000 && 0 < total <= MAX_INT64 && 0 <= offset < TWO64
    requires cluster > 0 && 0 < coverage <= 0x80_0000_0000 && 0 <= size <= MAX_INT64
    ensures (&& entries != 0 && U64(entries * 8) <= MAX_L1_BYTES
             && entries >= U64(U64(total + coverage) - 1) / coverage
             && RangeOk(offset, U64(entries * 8), cluster, size)) <==>
            (&& 0 < entries * 8 <= MAX_L1_BYTES && entries * coverage >= total
             && Inside(offset, entries * 8, cluster, size))
  {
    var bytes := entries * 8;
    assert U64(bytes) == bytes;
    RangeExact(offset, bytes, cluster, size);
    var covers := entries >= U64(U64(total + coverage) - 1) / coverage;
    assert covers <==> entries * coverage >= total by {
      CoverTest(entries, coverage, total);
    }
  }

  lemma RefcountExact(s: Image)
    ensures var c := ClusterBytes(s);
            RefcountOk(s) <==>
              0 < RefcountClusters(s) * c <= MAX_REFCOUNT_BYTES
                  && Inside(Field(s, 48, 56), RefcountClusters(s) * c, c, |s|)
  {
    var n, c := RefcountClusters(s), ClusterBytes(s);
    FieldBounds(s, 56, 60);
    FieldBounds(s, 48, 56);
    assert 0 <= n * c <= 0x1_0000_0000 * 0x20_0000;
    assert n > 0 <==> n * c > 0;
    RangeExact(Field(s, 48, 56), n * c, c, |s|);
  }

  lemma SnapshotsExact(s: Image)
    ensures SnapshotsOk(s) <==>
              (Snapshots(s) > 0 ==> Inside(Field(s, 64, 72), Snapshots(s) * SNAPSHOT_HEADER, ClusterBytes(s), |s|))
  {
    FieldBounds(s, 60, 64);
    FieldBounds(s, 64, 72);
    RangeExact(Field(s, 64, 72), Snapshots(s) * SNAPSHOT_HEADER, ClusterBytes(s), |s|);
  }

  /** No product or sum the checks compare wraps: on every byte source they decide exactly the
      plain-integer conditions. */
  lemma TablesExact(s: Image, maxDiskBytes: int)
    ensures TablesOk(s, maxDiskBytes) && ExtensionChain(s, HeaderBytes(s), Min(ClusterBytes(s), |s|))
            <==> WellFormed(s, maxDiskBytes)
    ensures TablesOk(s, maxDiskBytes) ==> HEADER_V2 <= HeaderBytes(s) <= ClusterBytes(s)
  {
    FieldBounds(s, 24, 32);
    FieldBounds(s, 100, 104);
    if 0 < VirtualBytes(s) <= MAX_INT64 {
      L1Exact(s);
    }
    RefcountExact(s);
    SnapshotsExact(s);
  }
}
