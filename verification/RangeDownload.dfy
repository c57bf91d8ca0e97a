/** Splitting a download into byte ranges and assembling the parts in whatever order they arrive. */
module RangeDownload {
  import opened Common

  const PARTS := 16

  /** The bytes from `start` to `end`, both included, as in section 14 of RFC 9110. */
  datatype Range = Range(start: nat, end: nat)

  /** The ranges follow each other without a gap from the first byte to the last. */
  ghost predicate Contiguous(ranges: seq<Range>, size: nat) {
    && (forall i :: 0 <= i < |ranges| ==> ranges[i].start <= ranges[i].end < size)
    && (forall i :: 0 < i < |ranges| ==> ranges[i].start == ranges[i - 1].end + 1)
    && (if ranges == [] then size == 0 else ranges[0].start == 0 && ranges[|ranges| - 1].end == size - 1)
  }

  /** A sixteenth of the object, rounded up. */
  function PartSize(size: nat): nat {
    size / PARTS + if size % PARTS == 0 then 0 else 1
  }

  /** Every range but the one that ends the object has exactly this many bytes, and that one has no more. */
  ghost predicate Even(ranges: seq<Range>, size: nat, partSize: nat) {
    forall i :: 0 <= i < |ranges| ==>
      || ranges[i].end == ranges[i].start + partSize - 1
      || (ranges[i].end == size - 1 && ranges[i].end < ranges[i].start + partSize - 1)
  }

  function Covered(ranges: seq<Range>): nat {
    if ranges == [] then 0 else ranges[|ranges| - 1].end + 1
  }

  /** The ranges planned so far make up a prefix of the object. */
  ghost predicate Planned(ranges: seq<Range>, size: nat, partSize: nat) {
    Covered(ranges) <= size && Contiguous(ranges, Covered(ranges)) && Even(ranges, size, partSize)
  }

  function EndOf(start: nat, size: nat, partSize: nat): int {
    if start + partSize - 1 < size - 1 then start + partSize - 1 else size - 1
  }

  lemma PlanNext(ranges: seq<Range>, size: nat, partSize: nat)
    requires Planned(ranges, size, partSize) && Covered(ranges) < size && partSize > 0
    ensures EndOf(Covered(ranges), size, partSize) >= 0
    ensures Planned(ranges + [Range(Covered(ranges), EndOf(Covered(ranges), size, partSize))], size, partSize)
  {
  }

  lemma PartsCover(size: U64)
    ensures size <= PARTS * PartSize(size) <= U64_MAX + 1
  {
  }

  /** The parts are as small as sixteen of them can be. */
  lemma PartSizeIsLeast(size: nat, smaller: nat)
    ensures size <= 16 * PartSize(size)
    ensures smaller < PartSize(size) ==> 16 * smaller < size
  {
  }

  /** Where a part starts, in unbounded arithmetic. */
  function StartOf(part: nat, partSize: nat): nat {
    part * partSize
  }

  lemma StartsAreSpaced(part: nat, partSize: nat)
    requires part < PARTS
    ensures StartOf(part + 1, partSize) == StartOf(part, partSize) + partSize <= PARTS * partSize
  {
    assert (PARTS - 1 - part) * partSize >= 0;
  }

  lemma NextStart(size: U64, part: nat)
    requires part < PARTS
    ensures StartOf(part + 1, PartSize(size)) == StartOf(part, PartSize(size)) + PartSize(size)
    ensures StartOf(part, PartSize(size)) + PartSize(size) - 1 <= U64_MAX
  {
    PartsCover(size);
    StartsAreSpaced(part, PartSize(size));
  }

  lemma AllStarts(size: U64)
    ensures StartOf(0, PartSize(size)) == 0 && StartOf(PARTS, PartSize(size)) >= size
  {
    PartsCover(size);
  }

  lemma PartsAreNotEmpty(size: U64)
    ensures size > 0 ==> PartSize(size) > 0
  {
  }

  /** Part i of the download is `ranges[i]`; no intermediate value needs more than 64 bits. */
  method PlanRanges(size: U64) returns (ranges: seq<Range>)
    ensures Contiguous(ranges, size) && Even(ranges, size, PartSize(size)) && |ranges| <= PARTS
  {
    var partSize := PartSize(size);
    AllStarts(size);
    PartsAreNotEmpty(size);
    ranges := [];
    for part := 0 to PARTS
      invariant |ranges| == part && Planned(ranges, size, partSize)
      invariant Covered(ranges) == if StartOf(part, partSize) < size then StartOf(part, partSize) else size
    {
      NextStart(size, part);
      var start := StartOf(part, partSize);
      assert start <= U64_MAX && start + partSize - 1 <= U64_MAX;
      if start >= size {
        break;
      }
      PlanNext(ranges, size, partSize);
      var end := if start + partSize - 1 < size - 1 then start + partSize - 1 else size - 1;
      ranges := ranges + [Range(start, end)];
    }
  }

  predicate Contains(r: Range, offset: nat) {
    r.start <= offset <= r.end
  }

  lemma {:induction false} EndsGrow(ranges: seq<Range>, size: nat, i: nat, j: nat)
    requires Contiguous(ranges, size) && i < j < |ranges|
    ensures ranges[i].end < ranges[j].start
  {
    if i + 1 < j {
      EndsGrow(ranges, size, i, j - 1);
    }
  }

  lemma {:induction false} OffsetUpTo(ranges: seq<Range>, size: nat, offset: nat, n: nat) returns (i: nat)
    requires Contiguous(ranges, size) && n < |ranges| && offset <= ranges[n].end
    ensures i <= n && Contains(ranges[i], offset)
  {
    if offset >= ranges[n].start {
      i := n;
    } else {
      i := OffsetUpTo(ranges, size, offset, n - 1);
    }
  }

  /** Every byte of the object is in exactly one range. */
  lemma RangesPartition(ranges: seq<Range>, size: nat, offset: nat) returns (i: nat)
    requires Contiguous(ranges, size) && offset < size
    ensures i < |ranges| && Contains(ranges[i], offset)
    ensures forall j :: 0 <= j < |ranges| && Contains(ranges[j], offset) ==> j == i
  {
    i := OffsetUpTo(ranges, size, offset, |ranges| - 1);
    forall j | 0 <= j < |ranges| && Contains(ranges[j], offset) ensures j == i {
      if i < j {
        EndsGrow(ranges, size, i, j);
      } else if j < i {
        EndsGrow(ranges, size, j, i);
      }
    }
  }

  // ----- assembly -----

  /** What a download task yields, in the order in which the tasks finish. */
  datatype Completion = Downloaded(part: nat, start: nat, bytes: seq<Byte>) | TaskFailed

  datatype Outcome = Assembled(archive: seq<Byte>) | Rejected

  predicate Fits(c: Completion, size: nat, partCount: nat) {
    c.Downloaded? && c.start + |c.bytes| <= size && c.part < partCount
  }

  /** Every task delivered, inside the archive, and every part arrived exactly once. */
  ghost predicate DeliveredOnce(completions: seq<Completion>, size: nat, partCount: nat) {
    && AllFit(completions, size, partCount)
    && NoRepeats(completions)
    && forall p :: 0 <= p < partCount ==> Arrived(completions, p)
  }

  ghost predicate AllFit(completions: seq<Completion>, size: nat, partCount: nat) {
    forall i :: 0 <= i < |completions| ==> Fits(completions[i], size, partCount)
  }

  ghost predicate NoRepeats(completions: seq<Completion>) {
    forall i, j :: 0 <= i < j < |completions| && completions[i].Downloaded? && completions[j].Downloaded? ==>
      completions[i].part != completions[j].part
  }

  ghost predicate Arrived(completions: seq<Completion>, p: nat) {
    exists i :: 0 <= i < |completions| && completions[i].Downloaded? && completions[i].part == p
  }

  function Overwrite(archive: seq<Byte>, start: nat, bytes: seq<Byte>): seq<Byte>
    requires start + |bytes| <= |archive|
  {
    archive[..start] + bytes + archive[start + |bytes|..]
  }

  /** The archive after the parts were written over zeros one after the other. */
  ghost function Written(completions: seq<Completion>, size: nat, partCount: nat): (archive: seq<Byte>)
    requires AllFit(completions, size, partCount)
    ensures |archive| == size
  {
    if completions == [] then seq(size, _ => 0)
    else
      var last := completions[|completions| - 1];
      Overwrite(Written(completions[..|completions| - 1], size, partCount), last.start, last.bytes)
  }

  method CopyInto(archive: array<Byte>, start: nat, bytes: seq<Byte>)
    requires start + |bytes| <= archive.Length
    modifies archive
    ensures archive[..] == Overwrite(old(archive[..]), start, bytes)
  {
    for i := 0 to |bytes|
      invariant archive[..start + i] == old(archive[..start]) + bytes[..i]
      invariant archive[start + i..] == old(archive[start + i..])
    {
      archive[start + i] := bytes[i];
    }
    assert archive[..] == archive[..start + |bytes|] + archive[start + |bytes|..];
  }

  method AssembleArchive(size: nat, partCount: nat, completions: seq<Completion>) returns (outcome: Outcome)
    ensures outcome.Assembled? <==> DeliveredOnce(completions, size, partCount)
    ensures outcome.Assembled? ==> outcome.archive == Written(completions, size, partCount)
  {
    var archive := new Byte[size](_ => 0);
    var received := new bool[partCount](_ => false);
    for n := 0 to |completions|
      invariant AllFit(completions[..n], size, partCount) && NoRepeats(completions[..n])
      invariant archive[..] == Written(completions[..n], size, partCount)
      invariant forall p :: 0 <= p < partCount ==> (received[p] <==> Arrived(completions[..n], p))
    {
      assert completions[..n + 1][..n] == completions[..n];
      var c := completions[n];
      if c.TaskFailed? || c.start + |c.bytes| > size {
        assert !Fits(completions[n], size, partCount);
        return Rejected;
      }
      CopyInto(archive, c.start, c.bytes);
      if c.part >= partCount {
        assert !Fits(completions[n], size, partCount);
        return Rejected;
      }
      if received[c.part] {
        var i :| 0 <= i < n && completions[..n][i].Downloaded? && completions[..n][i].part == c.part;
        assert completions[i].part == completions[n].part;
        return Rejected;
      }
      received[c.part] := true;
      forall p | 0 <= p < partCount ensures received[p] <==> Arrived(completions[..n + 1], p) {
        ArrivedAppend(completions[..n], c, p);
        assert completions[..n + 1] == completions[..n] + [c];
      }
    }
    assert completions[..|completions|] == completions;
    var p := 0;
    while p < partCount
      invariant 0 <= p <= partCount
      invariant forall q :: 0 <= q < p ==> received[q]
    {
      if !received[p] {
        assert !Arrived(completions, p);
        return Rejected;
      }
      p := p + 1;
    }
    return Assembled(archive[..]);
  }

  lemma ArrivedAppend(completions: seq<Completion>, c: Completion, p: nat)
    ensures Arrived(completions + [c], p) <==> Arrived(completions, p) || (c.Downloaded? && c.part == p)
  {
    var longer := completions + [c];
    if Arrived(completions, p) {
      var i :| 0 <= i < |completions| && completions[i].Downloaded? && completions[i].part == p;
      assert longer[i].part == p;
    }
    assert longer[|completions|] == c;
  }

  /** Each delivered part is the slice of the object that its range names. */
  ghost predicate Genuine(completions: seq<Completion>, ranges: seq<Range>, content: seq<Byte>)
    requires Contiguous(ranges, |content|)
  {
    forall i :: 0 <= i < |completions| && completions[i].Downloaded? && completions[i].part < |ranges| ==>
      var r := ranges[completions[i].part];
      completions[i].start == r.start && completions[i].bytes == content[r.start..r.end + 1]
  }

  lemma {:induction false} GenuineBytesStay(completions: seq<Completion>, ranges: seq<Range>, content: seq<Byte>,
      i: nat, offset: nat)
    requires Contiguous(ranges, |content|) && Genuine(completions, ranges, content)
    requires AllFit(completions, |content|, |ranges|)
    requires i < |completions| && Contains(ranges[completions[i].part], offset)
    ensures Written(completions, |content|, |ranges|)[offset] == content[offset]
  {
    var n := |completions| - 1;
    var last := completions[n];
    if !(last.start <= offset < last.start + |last.bytes|) {
      GenuineBytesStay(completions[..n], ranges, content, i, offset);
    }
  }

  /** However the parts are ordered, the assembled archive is the object. */
  lemma AssemblyIsTheObject(completions: seq<Completion>, ranges: seq<Range>, content: seq<Byte>)
    requires Contiguous(ranges, |content|) && Genuine(completions, ranges, content)
    requires DeliveredOnce(completions, |content|, |ranges|)
    ensures Written(completions, |content|, |ranges|) == content
  {
    forall offset | 0 <= offset < |content|
      ensures Written(completions, |content|, |ranges|)[offset] == content[offset]
    {
      var p := RangesPartition(ranges, |content|, offset);
      assert Arrived(completions, p);
      var i :| 0 <= i < |completions| && completions[i].Downloaded? && completions[i].part == p;
      GenuineBytesStay(completions, ranges, content, i, offset);
    }
  }
}
