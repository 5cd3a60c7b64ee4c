/** The cached percentage of a file (src/block/locations.rs:303-331), with the saturating
    64-bit product and the truncating division of the source. */
module Percentage {
  import opened Types
  import opened Arithmetic

  /** What one block contributes: its length if it has a location, else nothing. */
  function Located(fbi: FileBlockInfo): (n: nat) {
    if fbi.blockInfo.None? || fbi.blockInfo.value.locations == [] then 0
    else Max(fbi.blockInfo.value.length.GetOr(0), 0)
  }

  function LocatedLength(infos: seq<FileBlockInfo>): nat {
    if infos == [] then 0 else LocatedLength(infos[..|infos| - 1]) + Located(infos[|infos| - 1])
  }

  /** `i64::saturating_mul(100)` of a number that is not negative. */
  function SaturatingTimes100(x: nat): nat {
    Min(100 * x, I64_MAX)
  }

  /** Division of `i64`, which truncates toward zero. */
  function TruncatingDiv(a: nat, b: int): int
    requires b != 0
  {
    if b > 0 then a / b else -(a / -b)
  }

  /** `as i32`. */
  function AsI32(x: int): int {
    (x + 0x8000_0000) % 0x1_0000_0000 - 0x8000_0000
  }

  function Percent(fileLength: int, cached: nat): int {
    if fileLength == 0 then 100
    else AsI32(Min(TruncatingDiv(SaturatingTimes100(cached), fileLength), 100))
  }

  function Recomputed(info: FileInfo): FileInfo {
    info.(inGoosefsPercentage := Some(Percent(info.length.GetOr(0), LocatedLength(info.fileBlockInfos))))
  }

  lemma {:induction false} LocatedLengthPrefix(infos: seq<FileBlockInfo>, i: nat)
    requires i <= |infos|
    ensures LocatedLength(infos[..i]) <= LocatedLength(infos)
    decreases |infos| - i
  {
    if i < |infos| {
      LocatedLengthPrefix(infos, i + 1);
      assert infos[..i + 1][..i] == infos[..i];
    } else {
      assert infos[..i] == infos;
    }
  }

  /** `recompute_in_goosefs_percentage`. The sum of the lengths fits in `i64`. */
  method Recompute(info: FileInfo) returns (r: FileInfo)
    requires LocatedLength(info.fileBlockInfos) <= I64_MAX
    ensures r == Recomputed(info)
  {
    var fileLength := info.length.GetOr(0);
    if fileLength == 0 {
      return info.(inGoosefsPercentage := Some(100));
    }
    var infos := info.fileBlockInfos;
    var cacheSize := 0;
    for i := 0 to |infos|
      invariant cacheSize == LocatedLength(infos[..i])
      invariant cacheSize <= I64_MAX
    {
      assert infos[..i + 1][..i] == infos[..i];
      LocatedLengthPrefix(infos, i + 1);
      var bi := infos[i].blockInfo;
      if bi.Some? && bi.value.locations != [] {
        var blockLength := Max(bi.value.length.GetOr(0), 0);
        cacheSize := cacheSize + blockLength;
      }
    }
    assert infos[..|infos|] == infos;
    var pct := Min(TruncatingDiv(SaturatingTimes100(cacheSize), fileLength), 100);
    r := info.(inGoosefsPercentage := Some(AsI32(pct)));
  }

  // ----- What the percentage says -----

  /** It is a percentage, and more located bytes never lower it. */
  lemma PercentInRange(fileLength: nat, cached: nat, more: nat)
    requires cached <= more
    ensures 0 <= Percent(fileLength, cached) <= Percent(fileLength, more) <= 100
  {
    hide AsI32;
    if fileLength > 0 {
      var a, b := SaturatingTimes100(cached), SaturatingTimes100(more);
      DivMonotone(a, b, fileLength);
      var p, q := TruncatingDiv(a, fileLength), TruncatingDiv(b, fileLength);
      assert 0 <= p <= q;
      hide TruncatingDiv, SaturatingTimes100;
      AsI32Small(Min(p, 100));
      AsI32Small(Min(q, 100));
    }
  }

  lemma AsI32Small(x: int)
    requires -0x8000_0000 <= x <= 100
    ensures AsI32(x) == x
  {
  }

  /** Where nothing saturates it is the exact percentage, rounded down, and at most 100. */
  lemma PercentExactly(fileLength: nat, cached: nat)
    requires fileLength > 0 && 100 * cached <= I64_MAX
    ensures var p := Percent(fileLength, cached);
      if cached >= fileLength then p == 100 else 0 <= p < 100 && p * fileLength <= 100 * cached < (p + 1) * fileLength
  {
    hide AsI32;
    var a := SaturatingTimes100(cached);
    DivAtLeast(a, fileLength, 100);
    var p := TruncatingDiv(a, fileLength);
    DivMonotone(0, a, fileLength);
    DivAtLeast(a, fileLength, p);
    DivAtLeast(a, fileLength, p + 1);
    hide TruncatingDiv;
    AsI32Small(Min(p, 100));
  }

  /** A negative length gives the same percentage as its opposite, negated and not capped, as long as
      that fits in `i32`. */
  lemma PercentOfNegative(fileLength: int, cached: nat)
    requires fileLength < 0 && 100 * cached <= I64_MAX && 100 * cached <= 0x8000_0000 * -fileLength
    ensures var p := Percent(fileLength, cached);
      p <= 0 && -p * -fileLength <= 100 * cached < (-p + 1) * -fileLength
  {
    hide AsI32;
    var a, d := SaturatingTimes100(cached), -fileLength;
    var q := a / d;
    DivAtLeast(a, d, q);
    DivAtLeast(a, d, q + 1);
    DivMonotone(a, 0x8000_0000 * d, d);
    DivAtLeast(0x8000_0000 * d, d, 0x8000_0001);
    assert TruncatingDiv(a, fileLength) == -q;
    hide TruncatingDiv;
    AsI32Small(-q);
  }

  /** In terms of the located length, it is 100 exactly for an empty file and for a file whose located
      blocks cover it, provided that 100 times the length fits in `i64`. */
  lemma PercentFull(fileLength: nat, cached: nat)
    ensures Percent(fileLength, cached) == 100 <==>
      fileLength == 0 || (cached >= fileLength && 100 * fileLength <= I64_MAX)
  {
    hide AsI32;
    if fileLength > 0 {
      DivAtLeast(SaturatingTimes100(cached), fileLength, 100);
      var p := TruncatingDiv(SaturatingTimes100(cached), fileLength);
      DivMonotone(0, SaturatingTimes100(cached), fileLength);
      assert p >= 100 <==> SaturatingTimes100(cached) >= fileLength * 100;
      hide TruncatingDiv;
      AsI32Small(Min(p, 100));
    }
  }

  // ----- What it says about the blocks -----

  predicate HasLocation(fbi: FileBlockInfo) {
    fbi.blockInfo.Some? && |fbi.blockInfo.value.locations| > 0
  }

  /** The length of a block, if it is known and positive. */
  function BlockLength(fbi: FileBlockInfo): nat {
    if fbi.blockInfo.Some? && fbi.blockInfo.value.length.Some? && fbi.blockInfo.value.length.value > 0
    then fbi.blockInfo.value.length.value else 0
  }

  /** The lengths of the blocks whose locations are not empty, from the first one on. */
  function CoveredLength(infos: seq<FileBlockInfo>): nat {
    if infos == [] then 0
    else (if HasLocation(infos[0]) then BlockLength(infos[0]) else 0) + CoveredLength(infos[1..])
  }

  /** What is counted is the lengths of the blocks that have a location. */
  lemma {:induction false} LocatedIsCovered(infos: seq<FileBlockInfo>)
    ensures LocatedLength(infos) == CoveredLength(infos)
  {
    if infos != [] {
      var n := |infos| - 1;
      LocatedIsCovered(infos[..n]);
      CoveredThen(infos[..n], infos[n]);
      assert infos == infos[..n] + [infos[n]];
    }
  }

  lemma {:induction false} CoveredThen(infos: seq<FileBlockInfo>, fbi: FileBlockInfo)
    ensures CoveredLength(infos + [fbi]) == CoveredLength(infos) + if HasLocation(fbi) then BlockLength(fbi) else 0
  {
    if infos != [] {
      CoveredThen(infos[1..], fbi);
      assert (infos + [fbi])[1..] == infos[1..] + [fbi];
    } else {
      assert [fbi][1..] == [];
    }
  }

  /** A file none of whose blocks has a location is not cached at all. */
  lemma NothingLocated(info: FileInfo)
    requires info.length.Some? && info.length.value > 0
    requires forall i :: 0 <= i < |info.fileBlockInfos| ==> !HasLocation(info.fileBlockInfos[i])
    ensures Recomputed(info).inGoosefsPercentage == Some(0)
  {
    LocatedIsCovered(info.fileBlockInfos);
    NothingCovered(info.fileBlockInfos);
    hide LocatedLength, AsI32;
    AsI32Small(0);
    PercentExactly(info.length.value, 0);
  }

  lemma {:induction false} NothingCovered(infos: seq<FileBlockInfo>)
    requires forall i :: 0 <= i < |infos| ==> !HasLocation(infos[i])
    ensures CoveredLength(infos) == 0
  {
    if infos != [] {
      NothingCovered(infos[1..]);
    }
  }

  /** It is 100 exactly for an empty file, and for a file that the blocks with a location cover,
      provided that 100 times the length fits in `i64`: beyond that the product saturates, and a
      file is never reported as fully cached. */
  lemma FullExactly(info: FileInfo)
    requires info.length.Some? ==> info.length.value >= 0
    ensures Recomputed(info).inGoosefsPercentage == Some(100) <==>
      || info.length.None? || info.length.value == 0
      || (CoveredLength(info.fileBlockInfos) >= info.length.value && 100 * info.length.value <= I64_MAX)
  {
    hide Percent, LocatedLength;
    LocatedIsCovered(info.fileBlockInfos);
    PercentFull(info.length.GetOr(0), LocatedLength(info.fileBlockInfos));
  }

  /** Giving a block its first location adds exactly its length to what is counted; taking the last
      one away, seen from the other side, takes exactly that away. */
  lemma FirstLocationCounts(infos: seq<FileBlockInfo>, i: nat, locations: seq<BlockLocation>)
    requires i < |infos| && infos[i].blockInfo.Some? && infos[i].blockInfo.value.locations == [] && locations != []
    ensures var located := infos[i].(blockInfo := Some(infos[i].blockInfo.value.(locations := locations)));
      && LocatedLength(infos[i := located]) == LocatedLength(infos) + BlockLength(infos[i])
      && infos[i := located][i := infos[i]] == infos
  {
    var located := infos[i].(blockInfo := Some(infos[i].blockInfo.value.(locations := locations)));
    LocatedLengthUpdate(infos, i, located);
  }

  lemma {:induction false} LocatedLengthUpdate(infos: seq<FileBlockInfo>, i: nat, fbi: FileBlockInfo)
    requires i < |infos|
    ensures LocatedLength(infos[i := fbi]) == LocatedLength(infos) - Located(infos[i]) + Located(fbi)
    decreases |infos|
  {
    var n := |infos| - 1;
    var init := infos[..n];
    if i == n {
      assert infos[i := fbi][..n] == init;
    } else {
      LocatedLengthUpdate(init, i, fbi);
      assert infos[i := fbi][..n] == init[i := fbi];
    }
  }

  /** Adding a location never lowers the percentage. */
  lemma AddingLocationNeverLowers(info: FileInfo, i: nat, loc: BlockLocation)
    requires i < |info.fileBlockInfos| && info.fileBlockInfos[i].blockInfo.Some? && info.length.GetOr(0) >= 0
    ensures var fbi := info.fileBlockInfos[i];
      var bi := fbi.blockInfo.value;
      var fbi' := fbi.(blockInfo := Some(bi.(locations := bi.locations + [loc])));
      Recomputed(info).inGoosefsPercentage.value
        <= Recomputed(info.(fileBlockInfos := info.fileBlockInfos[i := fbi'])).inGoosefsPercentage.value
  {
    hide Percent;
    var fbi := info.fileBlockInfos[i];
    var bi := fbi.blockInfo.value;
    var fbi' := fbi.(blockInfo := Some(bi.(locations := bi.locations + [loc])));
    LocatedLengthUpdate(info.fileBlockInfos, i, fbi');
    PercentInRange(info.length.GetOr(0), LocatedLength(info.fileBlockInfos),
                   LocatedLength(info.fileBlockInfos[i := fbi']));
  }
}
