/**
 The format the archive reader accepts, written down as a writer (sections 4.3.7, 4.3.9, 4.3.12 and 4.3.16 of PKWARE
 APPNOTE.TXT): an archive is read if and only if the writer produces it from some parts, and what is read is their content
 (packages/cli/src/optimization/artifact-zip.ts).
 */
module ArchiveFormat {
  import opened Contracts
  import opened Checksums
  import opened ArtifactZip

  // ---- numbers ----

  function Le16(n: nat): (r: Bytes)
    requires n < 0x1_0000
    ensures |r| == 2
  {
    [n % 0x100, n / 0x100]
  }

  lemma Le16Reads(n: nat)
    requires n < 0x1_0000
    ensures U16(Le16(n), 0) == n
  {
  }

  // Two and four bytes are written again as they were read.
  lemma ShortWrites(a: Bytes, o: nat)
    requires o + 2 <= |a|
    ensures Le16(U16(a, o)) == a[o..o + 2]
  {
  }

  lemma Digit(low: int, high: int)
    requires 0 <= low < 0x100
    ensures (low + 0x100 * high) % 0x100 == low && (low + 0x100 * high) / 0x100 == high
  {
  }

  lemma Digits(n: nat, b: int, c: int, d: int, e: int)
    requires 0 <= b < 0x100 && 0 <= c < 0x100 && 0 <= d < 0x100 && 0 <= e < 0x100
    requires n == b + 0x100 * (c + 0x100 * (d + 0x100 * e))
    ensures n % 0x100 == b && (n / 0x100) % 0x100 == c && (n / 0x1_0000) % 0x100 == d && (n / 0x100_0000) % 0x100 == e
  {
    Digit(b, c + 0x100 * (d + 0x100 * e));
    Digit(c, d + 0x100 * e);
    Digit(d, e);
    assert n / 0x1_0000 == n / 0x100 / 0x100 && n / 0x100_0000 == n / 0x1_0000 / 0x100;
  }

  lemma LongWrites(a: Bytes, o: nat)
    requires o + 4 <= |a|
    ensures Le32(U32(a, o)) == a[o..o + 4]
  {
    Digits(U32(a, o), a[o], a[o + 1], a[o + 2], a[o + 3]);
  }

  // ---- extra fields ----

  datatype Extra = Extra(kind: nat, payload: Bytes)

  predicate ExtraFits(x: Extra) { x.kind < 0x1_0000 && x.kind != 1 && |x.payload| < 0x1_0000 }

  ghost predicate ExtrasFit(xs: seq<Extra>) { forall k :: 0 <= k < |xs| ==> ExtraFits(xs[k]) }

  function Area(xs: seq<Extra>): Bytes
    requires ExtrasFit(xs)
  {
    if xs == [] then [] else (Le16(xs[0].kind) + Le16(|xs[0].payload|)) + (xs[0].payload + Area(xs[1..]))
  }

  lemma Join(a: Bytes, k: nat, l: nat, m: nat)
    requires k <= l <= m <= |a|
    ensures a[k..m] == a[k..l] + a[l..m]
  {
  }

  lemma RestSlice(a: Bytes, o: nat, head: Bytes, payload: Bytes, rest: Bytes)
    requires o + |head| + |payload| + |rest| <= |a| && a[o..o + |head| + |payload| + |rest|] == head + (payload + rest)
    ensures var next := o + |head| + |payload|; a[next..next + |rest|] == rest
  {
    var all, next := o + |head| + |payload| + |rest|, o + |head| + |payload|;
    Join(a, o, next, all);
    assert head + (payload + rest) == (head + payload) + rest;
  }

  lemma OneField(a: Bytes, o: nat, next: nat, last: nat)
    requires o + 4 <= next <= last <= |a| && U16(a, o) != 1 && next == o + 4 + U16(a, o + 2) && ExtrasFill(a, next, last)
    ensures ExtrasFill(a, o, last)
  {
  }

  // The fields written one after the other fill their area.
  lemma {:induction false} AreaFills(a: Bytes, o: nat, xs: seq<Extra>)
    requires ExtrasFit(xs) && o + |Area(xs)| <= |a| && a[o..o + |Area(xs)|] == Area(xs)
    ensures ExtrasFill(a, o, o + |Area(xs)|)
    decreases |xs|
  {
    if xs != [] {
      var x, rest := xs[0], Area(xs[1..]);
      var next := o + 4 + |x.payload|;
      HeadReads(a, o, x, rest);
      RestSlice(a, o, Le16(x.kind) + Le16(|x.payload|), x.payload, rest);
      AreaFills(a, next, xs[1..]);
      OneField(a, o, next, next + |rest|);
    }
  }

  lemma HeadReads(a: Bytes, o: nat, x: Extra, rest: Bytes)
    requires ExtraFits(x) && o + 4 + |x.payload| + |rest| <= |a|
    requires a[o..o + 4 + |x.payload| + |rest|] == (Le16(x.kind) + Le16(|x.payload|)) + (x.payload + rest)
    ensures U16(a, o) == x.kind && U16(a, o + 2) == |x.payload|
  {
    var part := a[o..o + 4 + |x.payload| + |rest|];
    assert part[0] == a[o] && part[1] == a[o + 1] && part[2] == a[o + 2] && part[3] == a[o + 3];
  }

  // An area that fields fill is written from them.
  lemma {:induction false} FilledArea(a: Bytes, o: nat, last: nat) returns (xs: seq<Extra>)
    requires o <= last <= |a| && ExtrasFill(a, o, last)
    ensures ExtrasFit(xs) && Area(xs) == a[o..last]
    decreases last - o
  {
    if o == last {
      xs := [];
    } else {
      var next := o + 4 + U16(a, o + 2);
      var rest := FilledArea(a, next, last);
      var x := Extra(U16(a, o), a[o + 4..next]);
      xs := [x] + rest;
      assert xs[1..] == rest;
      ShortWrites(a, o);
      ShortWrites(a, o + 2);
      assert a[o..last] == (a[o..o + 2] + a[o + 2..o + 4]) + (a[o + 4..next] + a[next..last]);
    }
  }

  // ---- archives ----

  // What an archiver is free to choose.
  datatype Archive = Archive(
    flags: nat, compression: nat, crc: Bytes, size: nat, data: Bytes,
    // The local header: its version and time, the checksum and sizes it holds when a descriptor follows, and its extras.
    version: Bytes, localTime: Bytes, unusedSums: Bytes, localExtras: seq<Extra>,
    // Whether the descriptor begins with a signature.
    signed: bool,
    // The directory entry: versions, time, internal and external attributes, extras and comment.
    made: Bytes, centralTime: Bytes, internal: Bytes, attributes: nat, centralExtras: seq<Extra>, remark: Bytes,
    // The comment of the whole archive.
    comment: Bytes)

  // Every field fits its place.
  ghost predicate Sized(p: Archive) {
    && p.flags < 0x1_0000 && p.compression < 0x1_0000 && |p.crc| == 4 && p.size < 0x1_0000_0000 && |p.data| < 0x1_0000_0000
    && |p.version| == 2 && |p.localTime| == 4 && |p.unusedSums| == 12
    && |p.made| == 4 && |p.centralTime| == 4 && |p.internal| == 2 && p.attributes < 0x1_0000_0000
    && ExtrasFit(p.localExtras) && |Area(p.localExtras)| < 0x1_0000
    && ExtrasFit(p.centralExtras) && |Area(p.centralExtras)| < 0x1_0000
    && |p.remark| < 0x1_0000 && |p.comment| < 0x1_0000
  }

  predicate Described(p: Archive) { p.flags == 0x8 || p.flags == 0x808 }

  // Checksum, compressed and uncompressed size.
  function Sums(p: Archive): (r: Bytes)
    requires Sized(p)
    ensures |r| == 12
  {
    p.crc + (Le32(|p.data|) + Le32(p.size))
  }

  function LocalFront(p: Archive): (r: Bytes)
    requires Sized(p)
    ensures |r| == 14
  {
    [0x50, 0x4b, 0x03, 0x04] + (p.version + (Le16(p.flags) + (Le16(p.compression) + p.localTime)))
  }

  function LocalOf(p: Archive): (r: Bytes)
    requires Sized(p)
    ensures |r| == 30
  {
    LocalFront(p) + ((if Described(p) then p.unusedSums else Sums(p)) + (Le16(12) + Le16(|Area(p.localExtras)|)))
  }

  const SIGNATURE: Bytes := [0x50, 0x4b, 0x07, 0x08]

  function DescriptorOf(p: Archive): (r: Bytes)
    requires Sized(p)
    ensures |r| == if !Described(p) then 0 else if p.signed then 16 else 12
  {
    if !Described(p) then [] else if p.signed then SIGNATURE + Sums(p) else Sums(p)
  }

  function CentralFront(p: Archive): (r: Bytes)
    requires Sized(p)
    ensures |r| == 16
  {
    [0x50, 0x4b, 0x01, 0x02] + (p.made + (Le16(p.flags) + (Le16(p.compression) + p.centralTime)))
  }

  // Lengths of name, extras and comment, the disk, the attributes, and the place of the local header.
  function CentralBack(p: Archive): (r: Bytes)
    requires Sized(p)
    ensures |r| == 18
  {
    (Le16(12) + (Le16(|Area(p.centralExtras)|) + Le16(|p.remark|))) + ((Le16(0) + p.internal) + (Le32(p.attributes) + Le32(0)))
  }

  function CentralOf(p: Archive): (r: Bytes)
    requires Sized(p)
    ensures |r| == 46
  {
    CentralFront(p) + (Sums(p) + CentralBack(p))
  }

  // One entry on one disk, the size and the place of the directory, and the length of the comment.
  function EndOf(directorySize: nat, directory: nat, comment: nat): (r: Bytes)
    requires directorySize < 0x1_0000_0000 && directory < 0x1_0000_0000 && comment < 0x1_0000
    ensures |r| == 22
  {
    ([0x50, 0x4b, 0x05, 0x06, 0, 0, 0, 0, 1, 0, 1, 0] + Le32(directorySize)) + (Le32(directory) + Le16(comment))
  }

  // Up to the directory.
  function FrontOf(p: Archive): Bytes
    requires Sized(p)
  {
    LocalOf(p) + (NAME + (Area(p.localExtras) + (p.data + DescriptorOf(p))))
  }

  function DirectoryOf(p: Archive): Bytes
    requires Sized(p)
  {
    CentralOf(p) + (NAME + (Area(p.centralExtras) + p.remark))
  }

  function Written(p: Archive): Bytes
    requires Sized(p) && |FrontOf(p)| < 0x1_0000_0000
  {
    FrontOf(p) + (DirectoryOf(p) + (EndOf(|DirectoryOf(p)|, |FrontOf(p)|, |p.comment|) + p.comment))
  }

  // ---- what is written is read ----

  lemma FourParts(a: Bytes, b: Bytes, c: Bytes, d: Bytes, e: Bytes)
    requires |a| == 4 && |c| == 2 && |d| == 2
    ensures var s := a + (b + (c + (d + e)));
            && U32(s, 0) == U32(a, 0) && U16(s, 4 + |b|) == U16(c, 0) && U16(s, 6 + |b|) == U16(d, 0)
  {
    var s := a + (b + (c + (d + e)));
    assert s[0] == a[0] && s[1] == a[1] && s[2] == a[2] && s[3] == a[3];
    assert s[4 + |b|] == c[0] && s[5 + |b|] == c[1];
    assert s[6 + |b|] == d[0] && s[7 + |b|] == d[1];
  }

  lemma Signatures()
    ensures U32([0x50, 0x4b, 0x03, 0x04], 0) == LOCAL_SIGNATURE && U32([0x50, 0x4b, 0x01, 0x02], 0) == DIRECTORY_SIGNATURE
    ensures U32(SIGNATURE, 0) == DESCRIPTOR_SIGNATURE
  {
  }

  lemma FrontsRead(p: Archive)
    requires Sized(p)
    ensures U32(LocalFront(p), 0) == LOCAL_SIGNATURE && U16(LocalFront(p), 6) == p.flags && U16(LocalFront(p), 8) == p.compression
    ensures U32(CentralFront(p), 0) == DIRECTORY_SIGNATURE && U16(CentralFront(p), 8) == p.flags
            && U16(CentralFront(p), 10) == p.compression
  {
    Signatures();
    FourParts([0x50, 0x4b, 0x03, 0x04], p.version, Le16(p.flags), Le16(p.compression), p.localTime);
    FourParts([0x50, 0x4b, 0x01, 0x02], p.made, Le16(p.flags), Le16(p.compression), p.centralTime);
    Le16Reads(p.flags);
    Le16Reads(p.compression);
  }

  lemma SumsRead(p: Archive)
    requires Sized(p)
    ensures Word(Sums(p), 0) == p.crc && U32(Sums(p), 4) == |p.data| && U32(Sums(p), 8) == p.size
  {
    Le32Reads(|p.data|);
    Le32Reads(p.size);
    ReadFirst([], p.crc, Le32(|p.data|), Le32(p.size), [], 0);
    ReadSecond([], p.crc, Le32(|p.data|), Le32(p.size), [], 0);
    ReadThird([], p.crc, Le32(|p.data|), Le32(p.size), [], 0);
    assert [] + (Sums(p) + []) == Sums(p);
  }

  lemma TwoShorts(a: Bytes, b: Bytes)
    requires |a| == 2 && |b| == 2
    ensures U16(a + b, 0) == U16(a, 0) && U16(a + b, 2) == U16(b, 0)
  {
  }

  lemma BackReads(p: Archive)
    requires Sized(p)
    ensures var z := CentralBack(p);
            && U16(z, 0) == 12 && U16(z, 2) == |Area(p.centralExtras)| && U16(z, 4) == |p.remark| && U16(z, 6) == 0
            && U32(z, 10) == p.attributes && U32(z, 14) == 0
  {
    var a, b, c, d := Le16(12), Le16(|Area(p.centralExtras)|), Le16(|p.remark|), Le16(0);
    var x, y, w := (a + (b + c)), d + p.internal, Le32(p.attributes) + Le32(0);
    assert a + b + c == a + (b + c);
    assert CentralBack(p) == x + (y + w);
    BackParts(x, y, w);
    ThreeShorts(a, b, c);
    TwoShorts(d, p.internal);
    TwoLongs(Le32(p.attributes), Le32(0));
    Le16Reads(12);
    Le16Reads(|Area(p.centralExtras)|);
    Le16Reads(|p.remark|);
    Le16Reads(0);
    Le32Reads(p.attributes);
    Le32Reads(0);
  }

  lemma ThreeShorts(a: Bytes, b: Bytes, c: Bytes)
    requires |a| == 2 && |b| == 2 && |c| == 2
    ensures var s := a + (b + c); U16(s, 0) == U16(a, 0) && U16(s, 2) == U16(b, 0) && U16(s, 4) == U16(c, 0)
  {
  }

  lemma TwoLongs(a: Bytes, b: Bytes)
    requires |a| == 4 && |b| == 4
    ensures U32(a + b, 0) == U32(a, 0) && U32(a + b, 4) == U32(b, 0)
  {
    var s := a + b;
    assert s[0] == a[0] && s[1] == a[1] && s[2] == a[2] && s[3] == a[3];
    assert s[4] == b[0] && s[5] == b[1] && s[6] == b[2] && s[7] == b[3];
  }

  lemma BackParts(x: Bytes, y: Bytes, z: Bytes)
    requires |x| == 6 && |y| == 4 && |z| == 8
    ensures var s := x + (y + z);
            && U16(s, 0) == U16(x, 0) && U16(s, 2) == U16(x, 2) && U16(s, 4) == U16(x, 4) && U16(s, 6) == U16(y, 0)
            && U32(s, 10) == U32(z, 0) && U32(s, 14) == U32(z, 4)
  {
    ReadFirst([], x, y, z, [], 0);
    ReadFirst([], x, y, z, [], 2);
    ReadFirst([], x, y, z, [], 4);
    ReadSecond([], x, y, z, [], 0);
    ReadThird([], x, y, z, [], 0);
    ReadThird([], x, y, z, [], 4);
    assert [] + ((x + (y + z)) + []) == x + (y + z);
  }

  // The entry as the reader sees it.
  function EntryOf(p: Archive): Entry
    requires Sized(p)
  {
    Entry(p.flags, p.compression, p.crc, |p.data|, p.size, 12, |Area(p.centralExtras)|, |p.remark|, 0, p.attributes, 0)
  }

  lemma CentralReads(before: Bytes, p: Archive, after: Bytes)
    requires Sized(p)
    ensures var a := before + (CentralOf(p) + after);
            U32(a, |before|) == DIRECTORY_SIGNATURE && EntryAt(a, |before|) == EntryOf(p)
  {
    FrontsRead(p);
    SumsRead(p);
    BackReads(p);
    CentralPartsRead(before, CentralFront(p), Sums(p), CentralBack(p), after);
  }

  lemma LocalReads(p: Archive, after: Bytes)
    requires Sized(p)
    ensures var a := LocalOf(p) + after;
            && U32(a, 0) == LOCAL_SIGNATURE && U16(a, 6) == p.flags && U16(a, 8) == p.compression && U16(a, 26) == 12
            && U16(a, 28) == |Area(p.localExtras)|
            && (!Described(p) ==> Word(a, 14) == p.crc && U32(a, 18) == |p.data| && U32(a, 22) == p.size)
  {
    FrontsRead(p);
    SumsRead(p);
    TwoShorts(Le16(12), Le16(|Area(p.localExtras)|));
    Le16Reads(12);
    Le16Reads(|Area(p.localExtras)|);
    var y, z := if Described(p) then p.unusedSums else Sums(p), Le16(12) + Le16(|Area(p.localExtras)|);
    LocalPartsRead([], LocalFront(p), y, z, after);
    assert [] + (LocalOf(p) + after) == LocalOf(p) + after;
  }

  lemma EndReads(before: Bytes, directorySize: nat, directory: nat, comment: nat, after: Bytes)
    requires directorySize < 0x1_0000_0000 && directory < 0x1_0000_0000 && comment < 0x1_0000
    ensures var a, o := before + (EndOf(directorySize, directory, comment) + after), |before|;
            && U32(a, o) == END_SIGNATURE && EndRecordFits(a, o)
            && U32(a, o + 12) == directorySize && U32(a, o + 16) == directory && U16(a, o + 20) == comment
  {
    var start: Bytes := [0x50, 0x4b, 0x05, 0x06, 0, 0, 0, 0, 1, 0, 1, 0];
    var x, y, z := start + Le32(directorySize), Le32(directory), Le16(comment);
    EndStart(start, Le32(directorySize));
    Le32Reads(directorySize);
    Le32Reads(directory);
    Le16Reads(comment);
    EndReadAt(before, x, y, z, after);
  }

  lemma EndStart(start: Bytes, size: Bytes)
    requires start == [0x50, 0x4b, 0x05, 0x06, 0, 0, 0, 0, 1, 0, 1, 0] && |size| == 4
    ensures var x := start + size;
            && U32(x, 0) == END_SIGNATURE && U16(x, 4) == 0 && U16(x, 6) == 0 && U16(x, 8) == 1 && U16(x, 10) == 1
            && U32(x, 12) == U32(size, 0)
  {
    var x := start + size;
    assert x[12] == size[0] && x[13] == size[1] && x[14] == size[2] && x[15] == size[3];
  }

  lemma EndReadAt(before: Bytes, x: Bytes, y: Bytes, z: Bytes, after: Bytes)
    requires |x| == 16 && |y| == 4 && |z| == 2
    ensures var a, o := before + ((x + (y + z)) + after), |before|;
            && U32(a, o) == U32(x, 0) && U16(a, o + 4) == U16(x, 4) && U16(a, o + 6) == U16(x, 6)
            && U16(a, o + 8) == U16(x, 8) && U16(a, o + 10) == U16(x, 10) && U32(a, o + 12) == U32(x, 12)
            && U32(a, o + 16) == U32(y, 0) && U16(a, o + 20) == U16(z, 0)
  {
    ReadFirst(before, x, y, z, after, 0);
    ReadFirst(before, x, y, z, after, 4);
    ReadFirst(before, x, y, z, after, 6);
    ReadFirst(before, x, y, z, after, 8);
    ReadFirst(before, x, y, z, after, 10);
    ReadFirst(before, x, y, z, after, 12);
    ReadSecond(before, x, y, z, after, 0);
    ReadThird(before, x, y, z, after, 0);
  }

  // ---- a written archive fits ----

  // Where the parts of a written archive lie.
  function PlacesOf(p: Archive): Layout
    requires Sized(p)
  {
    var dataStart := 42 + |Area(p.localExtras)|;
    Layout(dataStart, dataStart + |p.data|, |FrontOf(p)|, |FrontOf(p)| + |DirectoryOf(p)|, EntryOf(p))
  }

  lemma FrontSlices(local: Bytes, name: Bytes, extras: Bytes, data: Bytes, descriptor: Bytes, after: Bytes)
    requires |local| == 30 && |name| == 12
    ensures var front := local + (name + (extras + (data + descriptor)));
            var a, start := front + after, 42 + |extras|;
            && |front| == start + |data| + |descriptor|
            && a[30..42] == name && a[42..start] == extras && a[start..start + |data|] == data
            && a[start + |data|..|front|] == descriptor && a == local + a[30..]
  {
  }

  lemma DirectorySlices(before: Bytes, central: Bytes, name: Bytes, extras: Bytes, remark: Bytes, after: Bytes)
    requires |central| == 46 && |name| == 12
    ensures var directory, o := central + (name + (extras + remark)), |before|;
            var a := before + (directory + after);
            && |directory| == 58 + |extras| + |remark| && a[o + 46..o + 58] == name && a[o + 58..o + 58 + |extras|] == extras
            && a == before + (central + a[o + 46..])
  {
    var directory, o := central + (name + (extras + remark)), |before|;
    var a := before + (directory + after);
    assert a[o..] == directory + after;
    assert a[o + 46..] == (name + (extras + remark)) + after;
    assert a[o..] == central + a[o + 46..];
    assert a[o + 46..o + 58] == name;
    assert a[o + 58..] == extras + (remark + after);
  }

  lemma EndSlices(before: Bytes, end: Bytes, comment: Bytes)
    requires |end| == 22
    ensures |before + (end + comment)| == |before| + 22 + |comment|
  {
  }

  // What the reader asks of the choices. A descriptor without signature is taken for one with it when its checksum reads
  // like the signature.
  predicate Chosen(p: Archive) {
    && p.flags in {0, 0x8, 0x800, 0x808} && p.compression in {0, 8} && p.size <= MAX_OUTPUT && |p.data| <= MAX_ARCHIVE
    && (p.attributes / 0x10) % 2 == 0 && p.attributes / 0x1000_0000 in {0, 8}
    && (Described(p) && !p.signed ==> p.crc != SIGNATURE)
  }

  ghost predicate Bounded(p: Archive) {
    Sized(p) && |FrontOf(p)| + |DirectoryOf(p)| + 22 + |p.comment| <= MAX_ARCHIVE
  }

  ghost predicate Acceptable(p: Archive) { Bounded(p) && Chosen(p) }

  // No later place of the text, inside the comment, looks like its end record.
  ghost predicate EndsLast(p: Archive)
    requires Bounded(p)
  {
    var a := Written(p);
    forall o :: |FrontOf(p)| + |DirectoryOf(p)| < o <= |a| - 22 ==> !IsEnd(a, o)
  }

  lemma ReadWithin(a: Bytes, o: nat, part: Bytes, k: nat)
    requires o + |part| <= |a| && a[o..o + |part|] == part && k + 4 <= |part|
    ensures U32(a, o + k) == U32(part, k) && Word(a, o + k) == Word(part, k)
  {
    assert a == a[..o] + (part + a[o + |part|..]);
    ReadPart(a[..o], part, a[o + |part|..], k);
  }

  // What the reader sees up to the directory, of the directory, and of the end record.
  ghost predicate FrontSays(a: Bytes, l: Layout, p: Archive)
    requires Sized(p)
  {
    && 42 <= l.dataStart <= l.dataEnd <= l.directory <= |a|
    && l.dataStart == 42 + |Area(p.localExtras)| && l.dataEnd == l.dataStart + |p.data| && l.directory == l.dataEnd + |DescriptorOf(p)|
    && a[30..42] == NAME && a[42..l.dataStart] == Area(p.localExtras) && a[l.dataStart..l.dataEnd] == p.data
    && a[l.dataEnd..l.directory] == DescriptorOf(p)
    && U32(a, 0) == LOCAL_SIGNATURE && U16(a, 6) == p.flags && U16(a, 8) == p.compression && U16(a, 26) == 12
    && U16(a, 28) == |Area(p.localExtras)|
    && (!Described(p) ==> Word(a, 14) == p.crc && U32(a, 18) == |p.data| && U32(a, 22) == p.size)
  }

  ghost predicate DirectorySays(a: Bytes, o: nat, p: Archive)
    requires Sized(p)
  {
    && o + 58 + |Area(p.centralExtras)| + |p.remark| <= |a|
    && a[o + 46..o + 58] == NAME && a[o + 58..o + 58 + |Area(p.centralExtras)|] == Area(p.centralExtras)
    && U32(a, o) == DIRECTORY_SIGNATURE && EntryAt(a, o) == EntryOf(p)
  }

  predicate EndRecordSays(a: Bytes, end: nat, directorySize: nat, directory: nat, comment: nat) {
    && |a| == end + 22 + comment && U32(a, end) == END_SIGNATURE && EndRecordFits(a, end)
    && U32(a, end + 12) == directorySize && U32(a, end + 16) == directory && U16(a, end + 20) == comment
  }

  lemma FrontRead(a: Bytes, p: Archive, after: Bytes)
    requires Sized(p) && a == FrontOf(p) + after
    ensures FrontSays(a, PlacesOf(p), p)
  {
    NameLength();
    FrontSlices(LocalOf(p), NAME, Area(p.localExtras), p.data, DescriptorOf(p), after);
    LocalReads(p, a[30..]);
  }

  lemma DirectoryRead(a: Bytes, before: Bytes, p: Archive, after: Bytes)
    requires Sized(p) && a == before + (DirectoryOf(p) + after)
    ensures |DirectoryOf(p)| == 58 + |Area(p.centralExtras)| + |p.remark|
    ensures DirectorySays(a, |before|, p)
  {
    NameLength();
    DirectorySlices(before, CentralOf(p), NAME, Area(p.centralExtras), p.remark, after);
    CentralReads(before, p, a[|before| + 46..]);
  }

  lemma EndRecordRead(a: Bytes, before: Bytes, directorySize: nat, directory: nat, comment: Bytes)
    requires directorySize < 0x1_0000_0000 && directory < 0x1_0000_0000 && |comment| < 0x1_0000
    requires a == before + (EndOf(directorySize, directory, |comment|) + comment)
    ensures EndRecordSays(a, |before|, directorySize, directory, |comment|)
  {
    EndReads(before, directorySize, directory, |comment|, comment);
  }

  // The whole archive, part by part.
  ghost predicate Says(a: Bytes, l: Layout, p: Archive)
    requires Sized(p)
  {
    && FrontSays(a, l, p) && DirectorySays(a, l.directory, p) && l.end == l.directory + 58 + |Area(p.centralExtras)| + |p.remark|
    && EndRecordSays(a, l.end, l.end - l.directory, l.directory, |p.comment|) && l.entry == EntryOf(p)
  }

  lemma WrittenFront(a: Bytes, p: Archive)
    requires Bounded(p) && a == Written(p)
    ensures FrontSays(a, PlacesOf(p), p)
  {
    FrontRead(a, p, DirectoryOf(p) + (EndOf(|DirectoryOf(p)|, |FrontOf(p)|, |p.comment|) + p.comment));
  }

  lemma WrittenDirectory(a: Bytes, p: Archive)
    requires Bounded(p) && a == Written(p)
    ensures |DirectoryOf(p)| == 58 + |Area(p.centralExtras)| + |p.remark| && DirectorySays(a, |FrontOf(p)|, p)
  {
    DirectoryRead(a, FrontOf(p), p, EndOf(|DirectoryOf(p)|, |FrontOf(p)|, |p.comment|) + p.comment);
  }

  lemma WrittenEnd(a: Bytes, p: Archive)
    requires Bounded(p) && a == Written(p)
    ensures EndRecordSays(a, |FrontOf(p)| + |DirectoryOf(p)|, |DirectoryOf(p)|, |FrontOf(p)|, |p.comment|)
  {
    EndSplit(a, FrontOf(p), DirectoryOf(p), p.comment);
  }

  lemma EndSplit(a: Bytes, front: Bytes, directory: Bytes, comment: Bytes)
    requires |front| < 0x1_0000_0000 && |directory| < 0x1_0000_0000 && |comment| < 0x1_0000
    requires a == front + (directory + (EndOf(|directory|, |front|, |comment|) + comment))
    ensures EndRecordSays(a, |front| + |directory|, |directory|, |front|, |comment|)
  {
    assert a == (front + directory) + (EndOf(|directory|, |front|, |comment|) + comment);
    EndRecordRead(a, front + directory, |directory|, |front|, comment);
  }

  lemma SaysAll(a: Bytes, l: Layout, p: Archive, directory: nat)
    requires Sized(p) && FrontSays(a, l, p) && DirectorySays(a, l.directory, p) && l.entry == EntryOf(p)
    requires directory == 58 + |Area(p.centralExtras)| + |p.remark| && l.end == l.directory + directory
    requires EndRecordSays(a, l.end, directory, l.directory, |p.comment|)
    ensures Says(a, l, p)
  {
  }

  lemma WrittenSays(p: Archive)
    requires Bounded(p)
    ensures Says(Written(p), PlacesOf(p), p)
  {
    AllSays(Written(p), p);
  }

  lemma AllSays(a: Bytes, p: Archive)
    requires Bounded(p) && a == Written(p)
    ensures Says(a, PlacesOf(p), p)
  {
    WrittenFront(a, p);
    WrittenDirectory(a, p);
    WrittenEnd(a, p);
    SaysAll(a, PlacesOf(p), p, |DirectoryOf(p)|);
  }

  lemma DescriptorReads(a: Bytes, o: nat, p: Archive)
    requires Sized(p) && Described(p) && o + |DescriptorOf(p)| <= |a| && a[o..o + |DescriptorOf(p)|] == DescriptorOf(p)
    ensures var s := if p.signed then 4 else 0;
            && Word(a, o + s) == p.crc && U32(a, o + s + 4) == |p.data| && U32(a, o + s + 8) == p.size
    ensures U32(a, o) == DESCRIPTOR_SIGNATURE <==> p.signed || p.crc == SIGNATURE
  {
    SumsRead(p);
    Signatures();
    if p.signed {
      var part := SIGNATURE + Sums(p);
      assert part[0..4] == SIGNATURE && part[4..] == Sums(p);
      assert a[o..o + 4] == part[0..4] && a[o + 4..o + 16] == part[4..];
      ReadWithin(a, o, SIGNATURE, 0);
      SumsWithin(a, o + 4, p);
    } else {
      SumsWithin(a, o, p);
      LongWrites(a, o);
      LongWrites(SIGNATURE, 0);
      assert SIGNATURE[0..4] == SIGNATURE;
    }
  }

  lemma SumsWithin(a: Bytes, o: nat, p: Archive)
    requires Sized(p) && o + 12 <= |a| && a[o..o + 12] == Sums(p)
    ensures Word(a, o) == p.crc && U32(a, o + 4) == |p.data| && U32(a, o + 8) == p.size
  {
    SumsRead(p);
    ReadWithin(a, o, Sums(p), 0);
    ReadWithin(a, o, Sums(p), 4);
    ReadWithin(a, o, Sums(p), 8);
  }

  lemma SaysEnds(a: Bytes, l: Layout, p: Archive)
    requires Sized(p) && Says(a, l, p) && |a| <= MAX_ARCHIVE && forall o :: l.end < o <= |a| - 22 ==> !IsEnd(a, o)
    ensures 22 <= |a| && EndsAt(a, l.end) && DirectoryInside(a, l.end) && LayoutOf(a, l.end) == l
  {
  }

  lemma ChosenEntryFits(p: Archive)
    requires Sized(p) && Chosen(p)
    ensures EntryFits(EntryOf(p), 58 + |Area(p.centralExtras)| + |p.remark|)
  {
  }

  lemma DirectoryExtras(a: Bytes, o: nat, p: Archive)
    requires Sized(p) && DirectorySays(a, o, p)
    ensures ExtrasFill(a, o + 58, o + 58 + |Area(p.centralExtras)|)
  {
    AreaFills(a, o + 58, p.centralExtras);
  }

  lemma SaysDirectoryFits(a: Bytes, o: nat, end: nat, p: Archive)
    requires Sized(p) && DirectorySays(a, o, p) && Chosen(p) && end == o + 58 + |Area(p.centralExtras)| + |p.remark|
    ensures DirectoryFits(a, o, end, EntryOf(p))
  {
    ChosenEntryFits(p);
    DirectoryExtras(a, o, p);
  }

  lemma SaysSizes(a: Bytes, l: Layout, p: Archive)
    requires Sized(p) && FrontSays(a, l, p) && l.entry == EntryOf(p) && Chosen(p)
    ensures SizesAgree(a, l.entry, l.dataEnd, l.directory)
  {
    if Described(p) {
      DescriptorReads(a, l.dataEnd, p);
    }
  }

  lemma SaysLocalFits(a: Bytes, l: Layout, p: Archive)
    requires Sized(p) && FrontSays(a, l, p) && l.entry == EntryOf(p)
    ensures LocalFits(a, l.directory, l.entry)
  {
  }

  lemma DataFitsFrom(a: Bytes, l: Layout, nameEnd: nat)
    requires 30 <= nameEnd <= l.dataStart <= l.dataEnd <= l.directory <= |a|
    requires nameEnd == 30 + l.entry.nameLength && a[30..nameEnd] == NAME
    requires l.dataStart == nameEnd + U16(a, 28) && l.dataEnd == l.dataStart + l.entry.compressed
    requires ExtrasFill(a, nameEnd, l.dataStart) && SizesAgree(a, l.entry, l.dataEnd, l.directory)
    ensures DataFits(a, l.directory, l.entry)
  {
  }

  lemma SaysDataFits(a: Bytes, l: Layout, p: Archive, nameEnd: nat)
    requires Sized(p) && FrontSays(a, l, p) && l.entry == EntryOf(p) && Chosen(p) && nameEnd == 42
    ensures LocalFits(a, l.directory, l.entry) && DataFits(a, l.directory, l.entry)
  {
    SaysLocalFits(a, l, p);
    SaysSizes(a, l, p);
    AreaFills(a, nameEnd, p.localExtras);
    DataFitsFrom(a, l, nameEnd);
  }

  // Whatever the writer produces from acceptable choices is read in the places it was written.
  lemma WrittenFits(p: Archive)
    requires Acceptable(p) && EndsLast(p)
    ensures Fits(Written(p), PlacesOf(p))
  {
    var a, l := Written(p), PlacesOf(p);
    WrittenSays(p);
    SaysEnds(a, l, p);
    SaysDirectoryFits(a, l.directory, l.end, p);
    SaysDataFits(a, l, p, 42);
  }

  // ---- a fitting archive is written ----

  lemma SignaturesWritten()
    ensures Le32(LOCAL_SIGNATURE) == [0x50, 0x4b, 0x03, 0x04] && Le32(DIRECTORY_SIGNATURE) == [0x50, 0x4b, 0x01, 0x02]
    ensures Le32(DESCRIPTOR_SIGNATURE) == SIGNATURE && Le32(END_SIGNATURE) == [0x50, 0x4b, 0x05, 0x06]
  {
  }

  lemma FourSlices(a: Bytes, k: nat, l: nat, m: nat, n: nat, o: nat)
    requires k <= l <= m <= n <= o <= |a|
    ensures a[k..o] == a[k..l] + (a[l..m] + (a[m..n] + a[n..o]))
  {
    Join(a, m, n, o);
    Join(a, l, m, o);
    Join(a, k, l, o);
  }

  lemma FiveSlices(a: Bytes, k: nat, l: nat, m: nat, n: nat, o: nat, q: nat)
    requires k <= l <= m <= n <= o <= q <= |a|
    ensures a[k..q] == a[k..l] + (a[l..m] + (a[m..n] + (a[n..o] + a[o..q])))
  {
    FourSlices(a, l, m, n, o, q);
    Join(a, k, l, q);
  }

  lemma FrontWritten(a: Bytes, p: Archive)
    requires Sized(p) && 30 <= |a| && U32(a, 0) == LOCAL_SIGNATURE && U16(a, 6) == p.flags && U16(a, 8) == p.compression
    requires p.version == a[4..6] && p.localTime == a[10..14]
    ensures LocalFront(p) == a[..14]
  {
    SignaturesWritten();
    LongWrites(a, 0);
    ShortWrites(a, 6);
    ShortWrites(a, 8);
    FiveSlices(a, 0, 4, 6, 8, 10, 14);
    assert a[0..4] == [0x50, 0x4b, 0x03, 0x04] && a[0..14] == a[..14];
  }

  lemma SumsWritten(a: Bytes, o: nat, p: Archive)
    requires Sized(p) && o + 12 <= |a| && Word(a, o) == p.crc && U32(a, o + 4) == |p.data| && U32(a, o + 8) == p.size
    ensures Sums(p) == a[o..o + 12]
  {
    LongWrites(a, o + 4);
    LongWrites(a, o + 8);
    assert a[o..o + 12] == a[o..o + 4] + (a[o + 4..o + 8] + a[o + 8..o + 12]);
  }

  lemma LocalWritten(a: Bytes, p: Archive)
    requires Sized(p) && 30 <= |a| && U32(a, 0) == LOCAL_SIGNATURE && U16(a, 6) == p.flags && U16(a, 8) == p.compression
    requires p.version == a[4..6] && p.localTime == a[10..14] && U16(a, 26) == 12 && U16(a, 28) == |Area(p.localExtras)|
    requires if Described(p) then p.unusedSums == a[14..26]
             else Word(a, 14) == p.crc && U32(a, 18) == |p.data| && U32(a, 22) == p.size
    ensures LocalOf(p) == a[..30]
  {
    FrontWritten(a, p);
    if !Described(p) {
      SumsWritten(a, 14, p);
    }
    ShortWrites(a, 26);
    ShortWrites(a, 28);
    assert a[..30] == a[..14] + (a[14..26] + (a[26..28] + a[28..30]));
  }

  lemma DescriptorWritten(a: Bytes, o: nat, p: Archive)
    requires Sized(p) && Described(p) && o + (if p.signed then 16 else 12) <= |a|
    requires p.signed ==> U32(a, o) == DESCRIPTOR_SIGNATURE
    requires var s := o + if p.signed then 4 else 0; Word(a, s) == p.crc && U32(a, s + 4) == |p.data| && U32(a, s + 8) == p.size
    ensures DescriptorOf(p) == a[o..o + |DescriptorOf(p)|]
  {
    if p.signed {
      SignaturesWritten();
      LongWrites(a, o);
      SumsWritten(a, o + 4, p);
      assert a[o..o + 16] == a[o..o + 4] + a[o + 4..o + 16];
    } else {
      SumsWritten(a, o, p);
    }
  }

  lemma CentralFrontWritten(a: Bytes, o: nat, p: Archive)
    requires Sized(p) && o + 46 <= |a| && U32(a, o) == DIRECTORY_SIGNATURE && U16(a, o + 8) == p.flags && U16(a, o + 10) == p.compression
    requires p.made == a[o + 4..o + 8] && p.centralTime == a[o + 12..o + 16]
    ensures CentralFront(p) == a[o..o + 16]
  {
    SignaturesWritten();
    LongWrites(a, o);
    ShortWrites(a, o + 8);
    ShortWrites(a, o + 10);
    FiveSlices(a, o, o + 4, o + 8, o + 10, o + 12, o + 16);
  }

  lemma CentralBackWritten(a: Bytes, o: nat, p: Archive)
    requires Sized(p) && o + 18 <= |a| && U16(a, o) == 12 && U16(a, o + 2) == |Area(p.centralExtras)| && U16(a, o + 4) == |p.remark|
    requires U16(a, o + 6) == 0 && p.internal == a[o + 8..o + 10] && U32(a, o + 10) == p.attributes && U32(a, o + 14) == 0
    ensures CentralBack(p) == a[o..o + 18]
  {
    ShortWrites(a, o);
    ShortWrites(a, o + 2);
    ShortWrites(a, o + 4);
    ShortWrites(a, o + 6);
    LongWrites(a, o + 10);
    LongWrites(a, o + 14);
    assert a[o..o + 18] == (a[o..o + 2] + (a[o + 2..o + 4] + a[o + 4..o + 6]))
                           + ((a[o + 6..o + 8] + a[o + 8..o + 10]) + (a[o + 10..o + 14] + a[o + 14..o + 18]));
  }

  lemma CentralWritten(a: Bytes, o: nat, p: Archive)
    requires Sized(p) && o + 46 <= |a| && U32(a, o) == DIRECTORY_SIGNATURE && EntryAt(a, o) == EntryOf(p)
    requires p.made == a[o + 4..o + 8] && p.centralTime == a[o + 12..o + 16] && p.internal == a[o + 36..o + 38]
    ensures CentralOf(p) == a[o..o + 46]
  {
    CentralFrontWritten(a, o, p);
    SumsWritten(a, o + 16, p);
    CentralBackWritten(a, o + 28, p);
    assert a[o..o + 46] == a[o..o + 16] + (a[o + 16..o + 28] + a[o + 28..o + 46]);
  }

  lemma EndWritten(a: Bytes, o: nat)
    requires o + 22 <= |a| && U32(a, o) == END_SIGNATURE && EndRecordFits(a, o)
    ensures EndOf(U32(a, o + 12), U32(a, o + 16), U16(a, o + 20)) == a[o..o + 22]
  {
    SignaturesWritten();
    LongWrites(a, o);
    EndFields(a, o);
    LongWrites(a, o + 12);
    LongWrites(a, o + 16);
    ShortWrites(a, o + 20);
    assert a[o..o + 22] == (a[o..o + 12] + a[o + 12..o + 16]) + (a[o + 16..o + 20] + a[o + 20..o + 22]);
  }

  lemma EndFields(a: Bytes, o: nat)
    requires o + 22 <= |a| && a[o..o + 4] == [0x50, 0x4b, 0x05, 0x06] && EndRecordFits(a, o)
    ensures a[o..o + 12] == [0x50, 0x4b, 0x05, 0x06, 0, 0, 0, 0, 1, 0, 1, 0]
  {
    assert a[o..o + 12] == a[o..o + 4] + a[o + 4..o + 12];
    ShortWrites(a, o + 4);
    ShortWrites(a, o + 6);
    ShortWrites(a, o + 8);
    ShortWrites(a, o + 10);
    assert a[o + 4..o + 12] == (a[o + 4..o + 6] + a[o + 6..o + 8]) + (a[o + 8..o + 10] + a[o + 10..o + 12]);
  }

  // The choices an archive was written with.
  function ChoicesOf(a: Bytes, l: Layout, localExtras: seq<Extra>, centralExtras: seq<Extra>): Archive
    requires 42 <= l.dataStart <= l.dataEnd <= l.directory && l.directory + 58 + l.entry.extraLength <= l.end && l.end + 22 <= |a|
  {
    var e, o := l.entry, l.directory;
    Archive(e.flags, e.compression, e.crc, e.size, a[l.dataStart..l.dataEnd],
            a[4..6], a[10..14], a[14..26], localExtras, l.directory - l.dataEnd == 16,
            a[o + 4..o + 8], a[o + 12..o + 16], a[o + 36..o + 38], e.attributes, centralExtras,
            a[o + 58 + e.extraLength..l.end], a[l.end + 22..])
  }

  // What makes choices those of this archive.
  ghost predicate Chose(a: Bytes, l: Layout, p: Archive) {
    && 42 <= l.dataStart <= l.dataEnd <= l.directory && l.directory + 58 + l.entry.extraLength <= l.end && l.end + 22 <= |a|
    && ExtrasFit(p.localExtras) && Area(p.localExtras) == a[42..l.dataStart]
    && ExtrasFit(p.centralExtras) && Area(p.centralExtras) == a[l.directory + 58..l.directory + 58 + l.entry.extraLength]
    && p == ChoicesOf(a, l, p.localExtras, p.centralExtras)
  }

  lemma FitsExtras(a: Bytes, l: Layout, nameEnd: nat, from: nat)
    requires Fits(a, l) && nameEnd == 42 && from == l.directory + 58
    ensures nameEnd <= l.dataStart <= l.dataEnd <= l.directory && from + l.entry.extraLength <= l.end && l.end + 22 <= |a|
    ensures ExtrasFill(a, nameEnd, l.dataStart) && ExtrasFill(a, from, from + l.entry.extraLength)
  {
    LayoutBounds(a, l);
    FitsParts(a, l);
    ExtrasFrom(a, l, nameEnd, from);
  }

  lemma ExtrasFrom(a: Bytes, l: Layout, nameEnd: nat, from: nat)
    requires 30 <= l.directory && l.directory + 46 <= l.end <= |a| && l.entry.nameLength == 12
    requires nameEnd == 42 && from == l.directory + 58 && from + l.entry.extraLength <= l.end && l.dataStart == nameEnd + U16(a, 28)
    requires DirectoryFits(a, l.directory, l.end, l.entry) && DataFits(a, l.directory, l.entry)
    ensures nameEnd <= l.dataStart <= |a|
    ensures ExtrasFill(a, nameEnd, l.dataStart) && ExtrasFill(a, from, from + l.entry.extraLength)
  {
  }

  lemma FitsParts(a: Bytes, l: Layout)
    requires Fits(a, l)
    ensures 30 <= l.directory && l.directory + 46 <= l.end <= |a|
    ensures DirectoryFits(a, l.directory, l.end, l.entry) && DataFits(a, l.directory, l.entry)
  {
    LayoutBounds(a, l);
  }

  // Where the reader found the directory and the end record.
  predicate Found(a: Bytes, l: Layout) {
    && l.directory + 46 <= l.end && l.end + 22 <= |a|
    && U32(a, l.directory) == DIRECTORY_SIGNATURE && EntryAt(a, l.directory) == l.entry
    && U32(a, l.end) == END_SIGNATURE && EndRecordFits(a, l.end)
    && U32(a, l.end + 12) == l.end - l.directory && U32(a, l.end + 16) == l.directory && U16(a, l.end + 20) == |a| - l.end - 22
  }

  lemma FitsEnd(a: Bytes, l: Layout)
    requires Fits(a, l)
    ensures l.end + 22 <= |a| && U32(a, l.end) == END_SIGNATURE && EndRecordFits(a, l.end) && DirectoryInside(a, l.end)
    ensures l == LayoutOf(a, l.end) && U16(a, l.end + 20) == |a| - l.end - 22
  {
  }

  lemma FitsFound(a: Bytes, l: Layout)
    requires Fits(a, l)
    ensures Found(a, l)
  {
    FitsEnd(a, l);
  }

  lemma Choose(a: Bytes, l: Layout) returns (p: Archive)
    requires Fits(a, l)
    ensures Chose(a, l, p)
  {
    var nameEnd, from := 42, l.directory + 58;
    FitsExtras(a, l, nameEnd, from);
    p := ChooseFrom(a, l, nameEnd, from);
  }

  lemma ChooseFrom(a: Bytes, l: Layout, nameEnd: nat, from: nat) returns (p: Archive)
    requires 42 <= l.dataStart <= l.dataEnd <= l.directory && l.directory + 58 + l.entry.extraLength <= l.end && l.end + 22 <= |a|
    requires nameEnd == 42 && from == l.directory + 58
    requires ExtrasFill(a, nameEnd, l.dataStart) && ExtrasFill(a, from, from + l.entry.extraLength)
    ensures Chose(a, l, p)
  {
    var localExtras := FilledArea(a, nameEnd, l.dataStart);
    var centralExtras := FilledArea(a, from, from + l.entry.extraLength);
    p := ChoicesOf(a, l, localExtras, centralExtras);
  }

  lemma ChoiceSized(a: Bytes, l: Layout, p: Archive)
    requires Fits(a, l) && Chose(a, l, p)
    ensures Sized(p) && l.entry == EntryOf(p) && Described(p) == HasDescriptor(l.entry)
  {
    LayoutBounds(a, l);
    assert |p.data| == l.entry.compressed;
    assert |Area(p.localExtras)| == U16(a, 28);
  }

  lemma ChoiceChosen(a: Bytes, l: Layout, p: Archive)
    requires Fits(a, l) && Chose(a, l, p)
    ensures Chosen(p)
  {
    ChoiceSized(a, l, p);
    assert EntryFits(l.entry, l.end - l.directory);
    if Described(p) && !p.signed {
      ChoiceDescriptor(a, l, p);
      DescriptorReads(a, l.dataEnd, p);
    }
  }

  lemma ChoiceDescriptor(a: Bytes, l: Layout, p: Archive)
    requires Fits(a, l) && Chose(a, l, p)
    ensures Sized(p) && DescriptorOf(p) == a[l.dataEnd..l.directory]
    ensures Described(p) && !p.signed ==> U32(a, l.dataEnd) != DESCRIPTOR_SIGNATURE
  {
    ChoiceSized(a, l, p);
    FitsLocal(a, l);
    DescriptorFromChoice(a, l, p);
  }

  lemma DescriptorFromChoice(a: Bytes, l: Layout, p: Archive)
    requires Sized(p) && Chose(a, l, p) && l.entry == EntryOf(p) && SizesAgree(a, l.entry, l.dataEnd, l.directory)
    ensures DescriptorOf(p) == a[l.dataEnd..l.directory]
    ensures Described(p) && !p.signed ==> U32(a, l.dataEnd) != DESCRIPTOR_SIGNATURE
  {
    if Described(p) {
      DescriptorWritten(a, l.dataEnd, p);
    }
  }

  lemma ChoiceFront(a: Bytes, l: Layout, p: Archive)
    requires Fits(a, l) && Chose(a, l, p)
    ensures Sized(p) && FrontOf(p) == a[..l.directory]
  {
    ChoiceSized(a, l, p);
    LayoutBounds(a, l);
    ChoiceLocal(a, l, p);
    ChoiceDescriptor(a, l, p);
    FiveSlices(a, 0, 30, 42, l.dataStart, l.dataEnd, l.directory);
    assert a[0..30] == a[..30] && a[0..l.directory] == a[..l.directory];
  }

  lemma ChoiceLocal(a: Bytes, l: Layout, p: Archive)
    requires Fits(a, l) && Chose(a, l, p)
    ensures Sized(p) && LocalOf(p) == a[..30]
  {
    ChoiceSized(a, l, p);
    LayoutBounds(a, l);
    FitsLocal(a, l);
    LocalFromChoice(a, l, p);
  }

  lemma FitsLocal(a: Bytes, l: Layout)
    requires Fits(a, l)
    ensures 42 <= l.dataEnd <= l.directory <= |a| && LocalFits(a, l.directory, l.entry) && SizesAgree(a, l.entry, l.dataEnd, l.directory)
  {
    LayoutBounds(a, l);
  }

  lemma LocalFromChoice(a: Bytes, l: Layout, p: Archive)
    requires Sized(p) && Chose(a, l, p) && l.entry == EntryOf(p) && l.dataStart == 42 + U16(a, 28)
    requires LocalFits(a, l.directory, l.entry) && SizesAgree(a, l.entry, l.dataEnd, l.directory)
    ensures LocalOf(p) == a[..30]
  {
    LocalWritten(a, p);
  }

  lemma ChoiceCentral(a: Bytes, l: Layout, p: Archive)
    requires Sized(p) && Found(a, l) && Chose(a, l, p) && l.entry == EntryOf(p)
    ensures CentralOf(p) == a[l.directory..l.directory + 46]
  {
    CentralWritten(a, l.directory, p);
  }

  lemma DirectoryFromParts(a: Bytes, o: nat, x: nat, end: nat, p: Archive)
    requires Sized(p) && o + 58 <= x <= end <= |a| && CentralOf(p) == a[o..o + 46] && a[o + 46..o + 58] == NAME
    requires Area(p.centralExtras) == a[o + 58..x] && p.remark == a[x..end]
    ensures DirectoryOf(p) == a[o..end]
  {
    FourSlices(a, o, o + 46, o + 58, x, end);
  }

  lemma ChosenSlices(a: Bytes, l: Layout, p: Archive, x: nat)
    requires Chose(a, l, p) && x == l.directory + 58 + l.entry.extraLength
    ensures l.directory + 58 <= x <= l.end <= |a|
    ensures Area(p.centralExtras) == a[l.directory + 58..x] && p.remark == a[x..l.end] && p.comment == a[l.end + 22..]
  {
  }

  lemma ChoiceDirectory(a: Bytes, l: Layout, p: Archive)
    requires Sized(p) && Chose(a, l, p) && CentralOf(p) == a[l.directory..l.directory + 46]
    requires a[l.directory + 46..l.directory + 58] == NAME
    ensures DirectoryOf(p) == a[l.directory..l.end]
  {
    var x := l.directory + 58 + l.entry.extraLength;
    ChosenSlices(a, l, p, x);
    DirectoryFromParts(a, l.directory, x, l.end, p);
  }

  lemma ThreeCuts(a: Bytes, k: nat, l: nat, m: nat)
    requires k <= l <= m <= |a|
    ensures a == a[..k] + (a[k..l] + (a[l..m] + a[m..]))
  {
    assert a[l..] == a[l..m] + a[m..];
    assert a[k..] == a[k..l] + a[l..];
    assert a == a[..k] + a[k..];
  }

  lemma WrittenFromParts(a: Bytes, l: Layout, p: Archive)
    requires Sized(p) && l.directory <= l.end && l.end + 22 <= |a| && |a| < 0x1_0000_0000
    requires FrontOf(p) == a[..l.directory] && DirectoryOf(p) == a[l.directory..l.end] && p.comment == a[l.end + 22..]
    requires EndOf(l.end - l.directory, l.directory, |p.comment|) == a[l.end..l.end + 22]
    ensures a == Written(p)
  {
    ThreeCuts(a, l.directory, l.end, l.end + 22);
  }

  lemma ChoiceParts(a: Bytes, l: Layout, p: Archive)
    requires Fits(a, l) && Chose(a, l, p)
    ensures Sized(p) && l.entry == EntryOf(p) && FrontOf(p) == a[..l.directory] && DirectoryOf(p) == a[l.directory..l.end]
  {
    ChoiceSized(a, l, p);
    ChoiceFront(a, l, p);
    FitsFound(a, l);
    NamesAgree(a, l);
    ChoiceCentral(a, l, p);
    ChoiceDirectory(a, l, p);
  }

  lemma ChoiceEnd(a: Bytes, l: Layout, p: Archive)
    requires Fits(a, l) && Chose(a, l, p)
    ensures l.directory <= l.end && |p.comment| < 0x1_0000 && l.end < 0x1_0000_0000
    ensures EndOf(l.end - l.directory, l.directory, |p.comment|) == a[l.end..l.end + 22]
  {
    FitsFound(a, l);
    EndWritten(a, l.end);
  }

  lemma WrittenAll(a: Bytes, l: Layout, p: Archive)
    requires Sized(p) && Chosen(p) && Chose(a, l, p) && a == Written(p) && |a| <= MAX_ARCHIVE && PlacesOf(p) == l
    requires FrontOf(p) == a[..l.directory] && DirectoryOf(p) == a[l.directory..l.end]
    requires forall o :: l.end < o <= |a| - 22 ==> !IsEnd(a, o)
    ensures Acceptable(p) && EndsLast(p)
  {
  }

  lemma ChoiceWritten(a: Bytes, l: Layout, p: Archive)
    requires Fits(a, l) && Chose(a, l, p)
    ensures Acceptable(p) && a == Written(p) && PlacesOf(p) == l && EndsLast(p)
  {
    ChoiceParts(a, l, p);
    ChoiceEnd(a, l, p);
    ChoiceChosen(a, l, p);
    WrittenFromParts(a, l, p);
    ChoicePlaces(a, l, p);
    WrittenAll(a, l, p);
  }

  lemma ChoicePlaces(a: Bytes, l: Layout, p: Archive)
    requires Fits(a, l) && Sized(p) && Chose(a, l, p) && l.entry == EntryOf(p)
    requires FrontOf(p) == a[..l.directory] && DirectoryOf(p) == a[l.directory..l.end]
    ensures PlacesOf(p) == l
  {
    LayoutBounds(a, l);
  }

  // An archive fits exactly when the writer produces it from acceptable choices, and then the choices say where its parts
  // lie.
  lemma FitsExactly(a: Bytes, l: Layout)
    ensures Fits(a, l) <==> exists p :: Acceptable(p) && EndsLast(p) && a == Written(p) && l == PlacesOf(p)
  {
    if Fits(a, l) {
      var p := Choose(a, l);
      ChoiceWritten(a, l, p);
    }
    if p :| Acceptable(p) && EndsLast(p) && a == Written(p) && l == PlacesOf(p) {
      WrittenFits(p);
    }
  }

  // What the data of an archive stand for.
  function ContentOf(p: Archive, inflate: Inflate): Option<Bytes> {
    if p.compression == 0 then Some(p.data)
    else
      match inflate(p.data)
      case None => None
      case Some(inflated) => if inflated.1 == |p.data| then Some(inflated.0) else None
  }

  // The reader returns a content exactly when the archive was written of it: with acceptable choices, data that stand for
  // the content, and the size and the checksum of the content.
  ghost predicate WrittenOf(a: Bytes, p: Archive, inflate: Inflate, output: Bytes) {
    && Acceptable(p) && EndsLast(p) && a == Written(p)
    && ContentOf(p, inflate) == Some(output) && |output| == p.size && CrcBytes(Crc(output)) == p.crc
  }

  lemma SameContent(a: Bytes, p: Archive, inflate: Inflate)
    requires Acceptable(p) && EndsLast(p) && a == Written(p)
    ensures var l := PlacesOf(p); l.dataStart <= l.dataEnd <= |a| && Content(a, l, inflate) == ContentOf(p, inflate)
  {
    WrittenSays(p);
  }

  lemma AcceptedWritten(a: Bytes, l: Layout, inflate: Inflate, output: Bytes) returns (p: Archive)
    requires Accepts(a, l, inflate, output)
    ensures WrittenOf(a, p, inflate, output)
  {
    p := Choose(a, l);
    ChoiceWritten(a, l, p);
    SameContent(a, p, inflate);
  }

  lemma WrittenAccepted(a: Bytes, p: Archive, inflate: Inflate, output: Bytes)
    requires WrittenOf(a, p, inflate, output)
    ensures Accepts(a, PlacesOf(p), inflate, output)
  {
    WrittenFits(p);
    SameContent(a, p, inflate);
  }

  lemma ReadsExactly(a: Bytes, inflate: Inflate, output: Bytes)
    ensures (exists l :: Accepts(a, l, inflate, output)) <==> exists p :: WrittenOf(a, p, inflate, output)
  {
    if l :| Accepts(a, l, inflate, output) {
      var p := AcceptedWritten(a, l, inflate, output);
    }
    if p :| WrittenOf(a, p, inflate, output) {
      WrittenAccepted(a, p, inflate, output);
    }
  }

  lemma LooksSigned(a: Bytes, l: Layout, p: Archive)
    requires Sized(p) && FrontSays(a, l, p) && l.entry == EntryOf(p) && Described(p) && !p.signed && p.crc == SIGNATURE
    ensures !SizesAgree(a, l.entry, l.dataEnd, l.directory)
  {
    DescriptorReads(a, l.dataEnd, p);
  }

  // An archive whose descriptor carries no signature, but a checksum that reads like one, is refused whatever it holds.
  lemma LooksSignedRefused(p: Archive, l: Layout)
    requires Bounded(p) && EndsLast(p) && Described(p) && !p.signed && p.crc == SIGNATURE
    ensures !Fits(Written(p), l)
  {
    WrittenSays(p);
    LooksSignedAt(Written(p), l, p, PlacesOf(p));
  }

  lemma LooksSignedAt(a: Bytes, l: Layout, p: Archive, places: Layout)
    requires Sized(p) && Says(a, places, p) && |a| <= MAX_ARCHIVE && forall o :: places.end < o <= |a| - 22 ==> !IsEnd(a, o)
    requires Described(p) && !p.signed && p.crc == SIGNATURE
    ensures !Fits(a, l)
  {
    SaysEnds(a, places, p);
    LooksSigned(a, places, p);
    RefusedAt(a, l, places);
  }

  lemma RefusedAt(a: Bytes, l: Layout, places: Layout)
    requires EndsAt(a, places.end) && DirectoryInside(a, places.end) && LayoutOf(a, places.end) == places
    requires 30 <= places.dataEnd <= places.directory <= |a| && !SizesAgree(a, places.entry, places.dataEnd, places.directory)
    ensures !Fits(a, l)
  {
    if Fits(a, l) {
      EndUnique(a, l.end, places.end);
      FitsLocal(a, l);
    }
  }
}
