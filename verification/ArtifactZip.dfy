/**
 The bounded reader of quality archives (packages/cli/src/optimization/artifact-zip.ts): exactly one stored or deflated
 `quality.json`, laid out as sections 4.3.7, 4.3.9, 4.3.12 and 4.3.16 of PKWARE APPNOTE.TXT describe, and checked by
 the CRC-32 of section 4.4.7. Inflation is an oracle.
 */
module ArtifactZip {
  import opened Contracts
  import opened Checksums

  const MAX_ARCHIVE := 8_388_608
  const MAX_OUTPUT := 1_048_576

  const END_SIGNATURE := 0x06054b50
  const DIRECTORY_SIGNATURE := 0x02014b50
  const LOCAL_SIGNATURE := 0x04034b50
  const DESCRIPTOR_SIGNATURE := 0x08074b50

  // Deflated data to the output and the number of input bytes it used up; None when inflation fails.
  type Inflate = Bytes -> Option<(Bytes, nat)>

  // ---- little-endian fields ----

  function U16(a: Bytes, o: nat): (r: nat)
    requires o + 2 <= |a|
    ensures r < 0x1_0000
  {
    (a[o] as int) + 0x100 * (a[o + 1] as int)
  }

  function U32(a: Bytes, o: nat): (r: nat)
    requires o + 4 <= |a|
    ensures r < 0x1_0000_0000
  {
    U16(a, o) + 0x1_0000 * U16(a, o + 2)
  }

  // The four bytes of a checksum field.
  function Word(a: Bytes, o: nat): Bytes
    requires o + 4 <= |a|
  {
    a[o..o + 4]
  }

  // ---- the parts of an archive ----

  const NAME: Bytes := [0x71, 0x75, 0x61, 0x6c, 0x69, 0x74, 0x79, 0x2e, 0x6a, 0x73, 0x6f, 0x6e]
  const BOM: Bytes := [0xef, 0xbb, 0xbf]

  // The byte sequences a fatal UTF-8 decoder reads as `quality.json`: it drops a byte order mark.
  predicate DecodesToName(bytes: Bytes) { bytes == NAME || bytes == BOM + NAME }

  predicate IsEnd(a: Bytes, o: nat) {
    o + 22 <= |a| && U32(a, o) == END_SIGNATURE && o + 22 + U16(a, o + 20) == |a|
  }

  function LowestEnd(a: Bytes): nat { if |a| > 65557 then |a| - 65557 else 0 }

  // The fields of the one directory entry that matter.
  datatype Entry = Entry(
    flags: nat, compression: nat, crc: Bytes, compressed: nat, size: nat, nameLength: nat, extraLength: nat,
    commentLength: nat, disk: nat, attributes: nat, local: nat)

  function EntryAt(a: Bytes, d: nat): Entry
    requires d + 46 <= |a|
  {
    Entry(U16(a, d + 8), U16(a, d + 10), Word(a, d + 16), U32(a, d + 20), U32(a, d + 24), U16(a, d + 28), U16(a, d + 30),
          U16(a, d + 32), U16(a, d + 34), U32(a, d + 38), U32(a, d + 42))
  }

  predicate EndRecordFits(a: Bytes, end: nat)
    requires end + 22 <= |a|
  {
    U16(a, end + 4) == 0 && U16(a, end + 6) == 0 && U16(a, end + 8) == 1 && U16(a, end + 10) == 1
  }

  // No flags but data descriptor and UTF-8, stored or deflated, a regular file, and nothing behind the entry.
  predicate EntryFits(e: Entry, directorySize: nat) {
    && e.flags in {0, 0x8, 0x800, 0x808} && e.compression in {0, 8} && e.size <= MAX_OUTPUT && e.compressed <= MAX_ARCHIVE
    && e.disk == 0 && e.local == 0 && 46 + e.nameLength + e.extraLength + e.commentLength == directorySize
    && (e.attributes / 0x10) % 2 == 0 && e.attributes / 0x1000_0000 in {0, 8}
  }

  predicate HasDescriptor(e: Entry) { e.flags in {0x8, 0x808} }

  // Extra fields fill their area exactly, and none is the ZIP64 one.
  predicate ExtrasFill(a: Bytes, offset: nat, last: nat)
    requires last <= |a|
    decreases last - offset
  {
    offset == last
    || (&& offset + 4 <= last && U16(a, offset) != 1 && offset + 4 + U16(a, offset + 2) <= last
        && ExtrasFill(a, offset + 4 + U16(a, offset + 2), last))
  }

  predicate LocalFits(a: Bytes, directory: nat, e: Entry)
    requires directory <= |a|
  {
    && 30 <= directory && U32(a, 0) == LOCAL_SIGNATURE
    && U16(a, 6) == e.flags && U16(a, 8) == e.compression && U16(a, 26) == e.nameLength
  }

  function SignatureLength(a: Bytes, descriptor: nat, directory: nat): nat
    requires descriptor <= directory <= |a|
  {
    if descriptor + 4 <= directory && U32(a, descriptor) == DESCRIPTOR_SIGNATURE then 4 else 0
  }

  // Checksum and sizes agree, behind the data or in the local header.
  predicate SizesAgree(a: Bytes, e: Entry, dataEnd: nat, directory: nat)
    requires 30 <= dataEnd <= directory <= |a|
  {
    if HasDescriptor(e) then
      var signature := SignatureLength(a, dataEnd, directory);
      && dataEnd + signature + 12 == directory && Word(a, dataEnd + signature) == e.crc
      && U32(a, dataEnd + signature + 4) == e.compressed && U32(a, dataEnd + signature + 8) == e.size
    else
      dataEnd == directory && Word(a, 14) == e.crc && U32(a, 18) == e.compressed && U32(a, 22) == e.size
  }

  // The last end record within reach.
  ghost predicate EndsAt(a: Bytes, end: nat) {
    && IsEnd(a, end) && LowestEnd(a) <= end && (forall o :: end < o <= |a| - 22 ==> !IsEnd(a, o)) && EndRecordFits(a, end)
  }

  // The directory fills the space before the end record.
  predicate DirectoryInside(a: Bytes, end: nat)
    requires end + 22 <= |a|
  {
    var directorySize, directory := U32(a, end + 12), U32(a, end + 16);
    directory + directorySize == end && directorySize >= 46 && U32(a, directory) == DIRECTORY_SIGNATURE
  }

  predicate DirectoryFits(a: Bytes, directory: nat, end: nat, e: Entry)
    requires directory + 46 <= end <= |a|
  {
    && EntryFits(e, end - directory)
    && DecodesToName(a[directory + 46..directory + 46 + e.nameLength])
    && ExtrasFill(a, directory + 46 + e.nameLength, directory + 46 + e.nameLength + e.extraLength)
  }

  predicate DataFits(a: Bytes, directory: nat, e: Entry)
    requires 30 <= directory <= |a|
  {
    var dataStart := 30 + e.nameLength + U16(a, 28);
    && dataStart + e.compressed <= directory && a[30..30 + e.nameLength] == NAME
    && ExtrasFill(a, 30 + e.nameLength, dataStart) && SizesAgree(a, e, dataStart + e.compressed, directory)
  }

  // Where the parts of an accepted archive lie.
  datatype Layout = Layout(dataStart: nat, dataEnd: nat, directory: nat, end: nat, entry: Entry)

  function LayoutOf(a: Bytes, end: nat): Layout
    requires end + 22 <= |a| && DirectoryInside(a, end)
  {
    var directory := U32(a, end + 16);
    var e := EntryAt(a, directory);
    var dataStart := 30 + e.nameLength + U16(a, 28);
    Layout(dataStart, dataStart + e.compressed, directory, end, e)
  }

  // Everything before the end record.
  predicate BodyFits(a: Bytes, directory: nat, end: nat, e: Entry)
    requires directory + 46 <= end <= |a|
  {
    DirectoryFits(a, directory, end, e) && LocalFits(a, directory, e) && DataFits(a, directory, e)
  }

  // An archive with this layout, tiled without a gap.
  ghost predicate Fits(a: Bytes, l: Layout) {
    && 22 <= |a| <= MAX_ARCHIVE && EndsAt(a, l.end) && DirectoryInside(a, l.end) && l == LayoutOf(a, l.end)
    && BodyFits(a, l.directory, l.end, l.entry)
  }

  function Content(a: Bytes, l: Layout, inflate: Inflate): Option<Bytes>
    requires l.dataStart <= l.dataEnd <= |a|
  {
    var data := a[l.dataStart..l.dataEnd];
    if l.entry.compression == 0 then Some(data)
    else
      match inflate(data)
      case None => None
      case Some(inflated) => if inflated.1 == l.entry.compressed then Some(inflated.0) else None
  }

  predicate ContentChecks(output: Bytes, e: Entry) { |output| == e.size && CrcBytes(Crc(output)) == e.crc }

  ghost predicate Accepts(a: Bytes, l: Layout, inflate: Inflate, output: Bytes) {
    Fits(a, l) && Content(a, l, inflate) == Some(output) && ContentChecks(output, l.entry)
  }

  // ---- the reader ----

  method FindEnd(a: Bytes) returns (end: Option<nat>)
    requires |a| >= 22
    ensures end.Some? ==> IsEnd(a, end.value) && LowestEnd(a) <= end.value && forall o :: end.value < o <= |a| - 22 ==> !IsEnd(a, o)
    ensures end.None? ==> forall o :: LowestEnd(a) <= o <= |a| - 22 ==> !IsEnd(a, o)
  {
    var offset := |a| - 22;
    while offset >= LowestEnd(a)
      invariant -1 <= offset <= |a| - 22
      invariant forall o :: offset < o <= |a| - 22 && LowestEnd(a) <= o ==> !IsEnd(a, o)
    {
      if IsEnd(a, offset) {
        return Some(offset);
      }
      offset := offset - 1;
    }
    end := None;
  }

  method CheckExtra(a: Bytes, start: nat, length: nat) returns (ok: bool)
    requires start + length <= |a|
    ensures ok <==> ExtrasFill(a, start, start + length)
  {
    var offset, last := start, start + length;
    while offset < last
      invariant start <= offset <= last
      invariant ExtrasFill(a, start, last) <==> ExtrasFill(a, offset, last)
    {
      if offset + 4 > last {
        return false;
      }
      var kind, count := U16(a, offset), U16(a, offset + 2);
      if kind == 1 || offset + 4 + count > last {
        return false;
      }
      offset := offset + 4 + count;
    }
    ok := true;
  }

  lemma EndUnique(a: Bytes, k: nat, l: nat)
    requires EndsAt(a, k) && EndsAt(a, l)
    ensures k == l
  {
  }

  // An archive has at most one layout.
  lemma LayoutUnique(a: Bytes, k: Layout, l: Layout)
    requires Fits(a, k) && Fits(a, l)
    ensures k == l
  {
    EndUnique(a, k.end, l.end);
  }

  method Locate(a: Bytes) returns (layout: Option<Layout>)
    ensures layout.Some? ==> Fits(a, layout.value)
    ensures layout.None? ==> forall l :: !Fits(a, l)
  {
    if |a| < 22 || |a| > MAX_ARCHIVE {
      return None;
    }
    var found := FindEnd(a);
    if found.None? || !EndRecordFits(a, found.value) {
      OnlyThatEnd(a, found);
      return None;
    }
    var end := found.value;
    forall l | Fits(a, l) ensures l.end == end {
      EndUnique(a, l.end, end);
    }
    if !DirectoryInside(a, end) {
      return None;
    }
    var l := LayoutOf(a, end);
    var fits := CheckBody(a, l.directory, end, l.entry);
    layout := if fits then Some(l) else None;
  }

  method CheckBody(a: Bytes, directory: nat, end: nat, e: Entry) returns (ok: bool)
    requires directory + 46 <= end <= |a|
    ensures ok <==> BodyFits(a, directory, end, e)
  {
    ok := CheckDirectory(a, directory, end, e);
    if ok {
      ok := LocalFits(a, directory, e);
    }
    if ok {
      ok := CheckData(a, directory, e);
    }
  }

  lemma OnlyThatEnd(a: Bytes, found: Option<nat>)
    requires found.Some? ==> IsEnd(a, found.value) && LowestEnd(a) <= found.value
                             && (forall o :: found.value < o <= |a| - 22 ==> !IsEnd(a, o)) && !EndRecordFits(a, found.value)
    requires found.None? ==> forall o :: LowestEnd(a) <= o <= |a| - 22 ==> !IsEnd(a, o)
    ensures forall end :: !EndsAt(a, end)
  {
  }

  method CheckDirectory(a: Bytes, directory: nat, end: nat, e: Entry) returns (ok: bool)
    requires directory + 46 <= end <= |a|
    ensures ok <==> DirectoryFits(a, directory, end, e)
  {
    if !EntryFits(e, end - directory) || !DecodesToName(a[directory + 46..directory + 46 + e.nameLength]) {
      return false;
    }
    ok := CheckExtra(a, directory + 46 + e.nameLength, e.extraLength);
  }

  // Local header, data and descriptor, up to the directory.
  method CheckData(a: Bytes, directory: nat, e: Entry) returns (ok: bool)
    requires 30 <= directory <= |a|
    ensures ok <==> DataFits(a, directory, e)
  {
    var localExtra := U16(a, 28);
    var dataStart := 30 + e.nameLength + localExtra;
    var dataEnd := dataStart + e.compressed;
    if dataEnd > directory || a[30..30 + e.nameLength] != NAME {
      return false;
    }
    var filled := CheckExtra(a, 30 + e.nameLength, localExtra);
    ok := filled && SizesAgree(a, e, dataEnd, directory);
  }

  method ReadQualityZip(a: Bytes, inflate: Inflate) returns (result: Option<Bytes>)
    ensures result.Some? ==> exists l :: Accepts(a, l, inflate, result.value)
    ensures result.None? ==> forall l, output :: !Accepts(a, l, inflate, output)
  {
    var located := Locate(a);
    if located.None? {
      return None;
    }
    var l := located.value;
    forall k, output | Accepts(a, k, inflate, output) ensures k == l {
      LayoutUnique(a, k, l);
    }
    var content := Content(a, l, inflate);
    if content.None? {
      return None;
    }
    var crc := Crc32(content.value);
    if |content.value| != l.entry.size || CrcBytes(crc) != l.entry.crc {
      return None;
    }
    assert Accepts(a, l, inflate, content.value);
    result := content;
  }

  // ---- every byte is accounted for ----

  lemma NameBounds(a: Bytes, length: nat)
    requires 30 + length <= |a| && a[30..30 + length] == NAME
    ensures length == 12
  {
    assert |a[30..30 + length]| == length;
    assert |NAME| == 12;
  }

  lemma DescriptorLength(a: Bytes, e: Entry, dataEnd: nat, directory: nat)
    requires 30 <= dataEnd <= directory <= |a| && SizesAgree(a, e, dataEnd, directory)
    ensures directory - dataEnd in (if HasDescriptor(e) then {12, 16} else {0})
  {
  }

  lemma LocalBounds(a: Bytes, directory: nat, e: Entry)
    requires 30 <= directory <= |a| && DataFits(a, directory, e)
    ensures e.nameLength == 12 && a[30..42] == NAME
    ensures var dataEnd := 42 + U16(a, 28) + e.compressed;
            directory - dataEnd in (if HasDescriptor(e) then {12, 16} else {0})
  {
    NameBounds(a, e.nameLength);
    DescriptorLength(a, e, 30 + e.nameLength + U16(a, 28) + e.compressed, directory);
  }

  lemma BodyBounds(a: Bytes, directory: nat, end: nat, e: Entry)
    requires directory + 46 <= end <= |a| && BodyFits(a, directory, end, e)
    ensures e.nameLength == 12 && a[30..42] == NAME && 42 + U16(a, 28) + e.compressed <= directory
    ensures directory - (42 + U16(a, 28) + e.compressed) in (if HasDescriptor(e) then {12, 16} else {0})
    ensures end == directory + 46 + e.nameLength + e.extraLength + e.commentLength
  {
    LocalBounds(a, directory, e);
  }

  // Where the parts lie: each begins where the one before it ends.
  lemma LayoutBounds(a: Bytes, l: Layout)
    requires Fits(a, l)
    ensures 42 <= l.dataStart <= l.dataEnd <= l.directory < l.end < |a| && a[30..42] == NAME
    ensures l.entry.nameLength == 12 && l.dataStart == 42 + U16(a, 28) && l.dataEnd == l.dataStart + l.entry.compressed
    ensures l.directory - l.dataEnd in (if HasDescriptor(l.entry) then {12, 16} else {0})
    ensures l.end == l.directory + 46 + l.entry.nameLength + l.entry.extraLength + l.entry.commentLength
    ensures |a| == l.end + 22 + U16(a, l.end + 20)
  {
    BodyBounds(a, l.directory, l.end, l.entry);
  }

  lemma Slices(a: Bytes, k: nat, l: nat, m: nat, n: nat, o: nat, p: nat)
    requires k <= l <= m <= n <= o <= p <= |a|
    ensures a == a[..k] + a[k..l] + a[l..m] + a[m..n] + a[n..o] + a[o..p] + a[p..]
  {
  }

  // Local header, name, extra fields, data and descriptor fill the archive up to the directory; entry, name, extra
  // fields and comment fill it up to the end record; and that ends the archive with its comment. No byte is left over.
  lemma PartsTile(a: Bytes, l: Layout)
    requires Fits(a, l)
    ensures 42 <= l.dataStart <= l.dataEnd <= l.directory < l.end < |a|
    ensures a == a[..30] + NAME + a[42..l.dataStart] + a[l.dataStart..l.dataEnd] + a[l.dataEnd..l.directory]
                 + a[l.directory..l.end] + a[l.end..]
    ensures l.dataStart == 42 + U16(a, 28) && l.dataEnd == l.dataStart + l.entry.compressed
    ensures l.directory - l.dataEnd in (if HasDescriptor(l.entry) then {12, 16} else {0})
    ensures l.end == l.directory + 46 + l.entry.nameLength + l.entry.extraLength + l.entry.commentLength
    ensures |a| == l.end + 22 + U16(a, l.end + 20)
  {
    LayoutBounds(a, l);
    Slices(a, 30, 42, l.dataStart, l.dataEnd, l.directory, l.end);
  }

  lemma TwelveBytesDecode(bytes: Bytes)
    requires DecodesToName(bytes) && |bytes| == 12
    ensures bytes == NAME
  {
    assert |BOM + NAME| == 15;
  }

  // A byte order mark before the name, which the decoder drops, is refused all the same.
  lemma NamesAgree(a: Bytes, l: Layout)
    requires Fits(a, l)
    ensures l.entry.nameLength == 12 && l.directory + 58 <= |a|
    ensures a[30..42] == NAME && a[l.directory + 46..l.directory + 58] == NAME
  {
    LayoutBounds(a, l);
    TwelveBytesDecode(a[l.directory + 46..l.directory + 46 + l.entry.nameLength]);
  }

  // A stored member is copied out as it stands.
  lemma StoredIsCopied(a: Bytes, l: Layout, inflate: Inflate, output: Bytes)
    requires Accepts(a, l, inflate, output) && l.entry.compression == 0
    ensures 0 <= l.dataStart <= l.dataEnd <= |a| && output == a[l.dataStart..l.dataEnd]
    ensures |output| == l.entry.compressed == l.entry.size && CrcBytes(Crc(output)) == l.entry.crc
  {
    LayoutBounds(a, l);
  }

  // The checks refuse a member that differs from the recorded one in a single byte.
  lemma DamageIsRefused(e: Entry, before: Bytes, x: Byte, y: Byte, after: Bytes)
    requires ContentChecks(before + [x] + after, e) && x != y
    ensures !ContentChecks(before + [y] + after, e)
  {
    SingleByteDetected(before, x, y, after);
    if CrcBytes(Crc(before + [x] + after)) == CrcBytes(Crc(before + [y] + after)) {
      FieldHoldsOne(CrcBytes(Crc(before + [x] + after)), Crc(before + [x] + after), Crc(before + [y] + after));
    }
  }

  // ---- reading back a stored archive ----

  // A number's bytes, lowest first.
  function Le32(n: nat): (r: Bytes)
    requires n < 0x1_0000_0000
    ensures |r| == 4
  {
    [n % 0x100, (n / 0x100) % 0x100, (n / 0x1_0000) % 0x100, (n / 0x100_0000) % 0x100]
  }

  // The local header of a stored member: signature, version, no flags, stored, no time.
  const LOCAL_START: Bytes := [0x50, 0x4b, 0x03, 0x04, 20, 0, 0, 0, 0, 0, 0, 0, 0, 0]
  const LOCAL_NAMES: Bytes := [12, 0, 0, 0]

  const CENTRAL_START: Bytes := [0x50, 0x4b, 0x01, 0x02, 20, 3, 20, 0, 0, 0, 0, 0, 0, 0, 0, 0]
  // Name, extra and comment lengths, disk, attributes of a regular file, and the offset of the local header.
  const CENTRAL_REST: Bytes := [12, 0, 0, 0, 0, 0, 0, 0, 0, 0, 0, 0, 0xa4, 0x81, 0, 0, 0, 0]

  const END_START: Bytes := [0x50, 0x4b, 0x05, 0x06, 0, 0, 0, 0, 1, 0, 1, 0, 58, 0, 0, 0]
  const END_REST: Bytes := [0, 0]

  function Sizes(crc: Bytes, n: nat): (r: Bytes)
    requires n < 0x1_0000_0000 && |crc| == 4
    ensures |r| == 12
  {
    crc + (Le32(n) + Le32(n))
  }

  function LocalHeader(crc: Bytes, n: nat): Bytes
    requires n < 0x1_0000_0000 && |crc| == 4
  {
    LOCAL_START + (Sizes(crc, n) + LOCAL_NAMES)
  }

  function CentralHeader(crc: Bytes, n: nat): Bytes
    requires n < 0x1_0000_0000 && |crc| == 4
  {
    CENTRAL_START + (Sizes(crc, n) + CENTRAL_REST)
  }

  function EndRecord(n: nat): Bytes
    requires n + 42 < 0x1_0000_0000
  {
    END_START + (Le32(n + 42) + END_REST)
  }

  // The archive the repository's own tests write for a stored body.
  function OwnedZip(body: Bytes): Bytes
    requires |body| + 42 < 0x1_0000_0000
  {
    var crc, n := CrcBytes(Crc(body)), |body|;
    LocalHeader(crc, n) + (NAME + (body + (CentralHeader(crc, n) + (NAME + EndRecord(n)))))
  }

  lemma Le32Reads(n: nat)
    requires n < 0x1_0000_0000
    ensures U32(Le32(n), 0) == n
  {
    assert n / 0x1_0000 == n / 0x100 / 0x100 && n / 0x100_0000 == n / 0x1_0000 / 0x100;
  }

  // A part of a text is read like the part.
  lemma ReadPart(before: Bytes, part: Bytes, after: Bytes, k: nat)
    requires k + 2 <= |part|
    ensures U16(before + (part + after), |before| + k) == U16(part, k)
    ensures k + 4 <= |part| ==> U32(before + (part + after), |before| + k) == U32(part, k)
    ensures k + 4 <= |part| ==> Word(before + (part + after), |before| + k) == Word(part, k)
  {
    var s := before + (part + after);
    assert forall i :: 0 <= i < |part| ==> s[|before| + i] == part[i];
    if k + 4 <= |part| {
      assert Word(s, |before| + k) == Word(part, k);
    }
  }

  // Three parts in a row, between others: each is read like itself.
  lemma ReadFirst(before: Bytes, x: Bytes, y: Bytes, z: Bytes, after: Bytes, k: nat)
    requires k + 2 <= |x|
    ensures var a, o := before + ((x + (y + z)) + after), |before| + k;
            U16(a, o) == U16(x, k) && (k + 4 <= |x| ==> U32(a, o) == U32(x, k) && Word(a, o) == Word(x, k))
  {
    assert before + ((x + (y + z)) + after) == before + (x + ((y + z) + after));
    ReadPart(before, x, (y + z) + after, k);
  }

  lemma ReadSecond(before: Bytes, x: Bytes, y: Bytes, z: Bytes, after: Bytes, k: nat)
    requires k + 2 <= |y|
    ensures var a, o := before + ((x + (y + z)) + after), |before| + |x| + k;
            U16(a, o) == U16(y, k) && (k + 4 <= |y| ==> U32(a, o) == U32(y, k) && Word(a, o) == Word(y, k))
  {
    assert before + ((x + (y + z)) + after) == (before + x) + (y + (z + after));
    ReadPart(before + x, y, z + after, k);
  }

  lemma ReadThird(before: Bytes, x: Bytes, y: Bytes, z: Bytes, after: Bytes, k: nat)
    requires k + 2 <= |z|
    ensures var a, o := before + ((x + (y + z)) + after), |before| + |x| + |y| + k;
            U16(a, o) == U16(z, k) && (k + 4 <= |z| ==> U32(a, o) == U32(z, k) && Word(a, o) == Word(z, k))
  {
    assert before + ((x + (y + z)) + after) == (before + x + y) + (z + after);
    ReadPart(before + x + y, z, after, k);
  }

  lemma SizesRead(crc: Bytes, n: nat)
    requires n < 0x1_0000_0000 && |crc| == 4
    ensures var s := Sizes(crc, n); Word(s, 0) == crc && U32(s, 4) == n && U32(s, 8) == n
  {
    Le32Reads(n);
    ReadFirst([], crc, Le32(n), Le32(n), [], 0);
    ReadSecond([], crc, Le32(n), Le32(n), [], 0);
    ReadThird([], crc, Le32(n), Le32(n), [], 0);
    assert [] + (Sizes(crc, n) + []) == Sizes(crc, n);
  }

  lemma LocalConstants()
    ensures |LOCAL_START| == 14 && |LOCAL_NAMES| == 4
    ensures U32(LOCAL_START, 0) == LOCAL_SIGNATURE && U16(LOCAL_START, 6) == 0 && U16(LOCAL_START, 8) == 0
    ensures U16(LOCAL_NAMES, 0) == 12 && U16(LOCAL_NAMES, 2) == 0
  {
  }

  lemma CentralConstants()
    ensures |CENTRAL_START| == 16 && |CENTRAL_REST| == 18
    ensures U32(CENTRAL_START, 0) == DIRECTORY_SIGNATURE && U16(CENTRAL_START, 8) == 0 && U16(CENTRAL_START, 10) == 0
  {
  }

  lemma CentralRest()
    ensures |CENTRAL_REST| == 18 && U16(CENTRAL_REST, 0) == 12 && U16(CENTRAL_REST, 2) == 0 && U16(CENTRAL_REST, 4) == 0
    ensures U16(CENTRAL_REST, 6) == 0 && U32(CENTRAL_REST, 10) == 0x81a4_0000 && U32(CENTRAL_REST, 14) == 0
  {
  }

  lemma EndConstants()
    ensures |END_START| == 16 && |END_REST| == 2 && U16(END_REST, 0) == 0
    ensures U32(END_START, 0) == END_SIGNATURE && U16(END_START, 4) == 0 && U16(END_START, 6) == 0
    ensures U16(END_START, 8) == 1 && U16(END_START, 10) == 1 && U32(END_START, 12) == 58
  {
  }

  // Three parts of a header and what they say, carried over to the text they stand in.
  lemma LocalPartsRead(before: Bytes, x: Bytes, y: Bytes, z: Bytes, after: Bytes)
    requires |x| == 14 && |y| == 12 && |z| == 4
    ensures var a, o := before + ((x + (y + z)) + after), |before|;
            && U32(a, o) == U32(x, 0) && U16(a, o + 6) == U16(x, 6) && U16(a, o + 8) == U16(x, 8)
            && Word(a, o + 14) == Word(y, 0) && U32(a, o + 18) == U32(y, 4) && U32(a, o + 22) == U32(y, 8)
            && U16(a, o + 26) == U16(z, 0) && U16(a, o + 28) == U16(z, 2)
  {
    ReadFirst(before, x, y, z, after, 0);
    ReadFirst(before, x, y, z, after, 6);
    ReadFirst(before, x, y, z, after, 8);
    ReadSecond(before, x, y, z, after, 0);
    ReadSecond(before, x, y, z, after, 4);
    ReadSecond(before, x, y, z, after, 8);
    ReadThird(before, x, y, z, after, 0);
    ReadThird(before, x, y, z, after, 2);
  }

  lemma CentralFrontRead(before: Bytes, x: Bytes, y: Bytes, z: Bytes, after: Bytes)
    requires |x| == 16 && |y| == 12
    ensures var a, o := before + ((x + (y + z)) + after), |before|;
            && U32(a, o) == U32(x, 0) && U16(a, o + 8) == U16(x, 8) && U16(a, o + 10) == U16(x, 10)
            && Word(a, o + 16) == Word(y, 0) && U32(a, o + 20) == U32(y, 4) && U32(a, o + 24) == U32(y, 8)
  {
    ReadFirst(before, x, y, z, after, 0);
    ReadFirst(before, x, y, z, after, 8);
    ReadFirst(before, x, y, z, after, 10);
    ReadSecond(before, x, y, z, after, 0);
    ReadSecond(before, x, y, z, after, 4);
    ReadSecond(before, x, y, z, after, 8);
  }

  lemma CentralBackRead(before: Bytes, x: Bytes, y: Bytes, z: Bytes, after: Bytes)
    requires |x| == 16 && |y| == 12 && |z| == 18
    ensures var a, o := before + ((x + (y + z)) + after), |before|;
            && U16(a, o + 28) == U16(z, 0) && U16(a, o + 30) == U16(z, 2) && U16(a, o + 32) == U16(z, 4)
            && U16(a, o + 34) == U16(z, 6) && U32(a, o + 38) == U32(z, 10) && U32(a, o + 42) == U32(z, 14)
  {
    ReadThird(before, x, y, z, after, 0);
    ReadThird(before, x, y, z, after, 2);
    ReadThird(before, x, y, z, after, 4);
    ReadThird(before, x, y, z, after, 6);
    ReadThird(before, x, y, z, after, 10);
    ReadThird(before, x, y, z, after, 14);
  }

  lemma CentralPartsRead(before: Bytes, x: Bytes, y: Bytes, z: Bytes, after: Bytes)
    requires |x| == 16 && |y| == 12 && |z| == 18
    ensures var a, o := before + ((x + (y + z)) + after), |before|;
            && U32(a, o) == U32(x, 0)
            && EntryAt(a, o) == Entry(U16(x, 8), U16(x, 10), Word(y, 0), U32(y, 4), U32(y, 8), U16(z, 0), U16(z, 2),
                                      U16(z, 4), U16(z, 6), U32(z, 10), U32(z, 14))
  {
    CentralFrontRead(before, x, y, z, after);
    CentralBackRead(before, x, y, z, after);
  }

  lemma EndPartsRead(before: Bytes, x: Bytes, y: Bytes, z: Bytes)
    requires |x| == 16 && |y| == 4 && |z| == 2
    ensures var a, o := before + (x + (y + z)), |before|;
            && U32(a, o) == U32(x, 0) && U16(a, o + 4) == U16(x, 4) && U16(a, o + 6) == U16(x, 6)
            && U16(a, o + 8) == U16(x, 8) && U16(a, o + 10) == U16(x, 10) && U32(a, o + 12) == U32(x, 12)
            && U32(a, o + 16) == U32(y, 0) && U16(a, o + 20) == U16(z, 0)
  {
    assert before + ((x + (y + z)) + []) == before + (x + (y + z));
    ReadFirst(before, x, y, z, [], 0);
    ReadFirst(before, x, y, z, [], 4);
    ReadFirst(before, x, y, z, [], 6);
    ReadFirst(before, x, y, z, [], 8);
    ReadFirst(before, x, y, z, [], 10);
    ReadFirst(before, x, y, z, [], 12);
    ReadSecond(before, x, y, z, [], 0);
    ReadThird(before, x, y, z, [], 0);
  }

  // ---- the round trip ----

  predicate LocalSays(a: Bytes, n: nat, crc: Bytes) {
    && |a| >= 30 && U32(a, 0) == LOCAL_SIGNATURE && U16(a, 6) == 0 && U16(a, 8) == 0 && Word(a, 14) == crc && U32(a, 18) == n && U32(a, 22) == n
    && U16(a, 26) == 12 && U16(a, 28) == 0
  }

  predicate CentralSays(a: Bytes, o: nat, n: nat, crc: Bytes) {
    && |a| >= o + 46 && U32(a, o) == DIRECTORY_SIGNATURE
    && EntryAt(a, o) == Entry(0, 0, crc, n, n, 12, 0, 0, 0, 0x81a4_0000, 0)
  }

  predicate EndSays(a: Bytes, o: nat, directory: nat) {
    && |a| >= o + 22 && U32(a, o) == END_SIGNATURE && EndRecordFits(a, o)
    && U32(a, o + 12) == 58 && U32(a, o + 16) == directory && U16(a, o + 20) == 0
  }

  // What the reader sees of a stored archive of n bytes.
  predicate SaysStored(a: Bytes, n: nat, crc: Bytes) {
    && |a| == n + 122
    && LocalSays(a, n, crc) && CentralSays(a, n + 42, n, crc) && EndSays(a, n + 100, n + 42)
    && a[30..42] == NAME && a[n + 88..n + 100] == NAME
  }

  lemma LocalRead(crc: Bytes, n: nat, after: Bytes)
    requires n < 0x1_0000_0000 && |crc| == 4
    ensures |LocalHeader(crc, n)| == 30 && LocalSays(LocalHeader(crc, n) + after, n, crc)
  {
    LocalConstants();
    SizesRead(crc, n);
    LocalPartsRead([], LOCAL_START, Sizes(crc, n), LOCAL_NAMES, after);
    assert [] + (LocalHeader(crc, n) + after) == LocalHeader(crc, n) + after;
  }

  lemma CentralRead(before: Bytes, crc: Bytes, n: nat, after: Bytes)
    requires n < 0x1_0000_0000 && |crc| == 4
    ensures |CentralHeader(crc, n)| == 46 && CentralSays(before + (CentralHeader(crc, n) + after), |before|, n, crc)
  {
    CentralConstants();
    CentralRest();
    SizesRead(crc, n);
    CentralPartsRead(before, CENTRAL_START, Sizes(crc, n), CENTRAL_REST, after);
  }

  lemma EndRead(before: Bytes, n: nat)
    requires n + 42 < 0x1_0000_0000
    ensures |EndRecord(n)| == 22 && EndSays(before + EndRecord(n), |before|, n + 42)
  {
    EndConstants();
    Le32Reads(n + 42);
    EndPartsRead(before, END_START, Le32(n + 42), END_REST);
  }

  lemma OwnedSlices(local: Bytes, name: Bytes, body: Bytes, central: Bytes, end: Bytes)
    requires |local| == 30 && |name| == 12 && |central| == 46 && |end| == 22
    ensures var a, n := local + (name + (body + (central + (name + end)))), |body|;
            && |a| == n + 122 && a[30..42] == name && a[42..42 + n] == body && a[n + 88..n + 100] == name
            && a == local + a[30..] && a == a[..n + 42] + (central + a[n + 88..]) && a == a[..n + 100] + end
  {
  }

  lemma NameLength()
    ensures |NAME| == 12
  {
  }

  lemma OwnedSays(body: Bytes)
    requires |body| + 42 < 0x1_0000_0000
    ensures SaysStored(OwnedZip(body), |body|, CrcBytes(Crc(body))) && OwnedZip(body)[42..42 + |body|] == body
  {
    var a, n, crc := OwnedZip(body), |body|, CrcBytes(Crc(body));
    LocalRead(crc, n, []);
    CentralRead([], crc, n, []);
    EndRead([], n);
    NameLength();
    OwnedSlices(LocalHeader(crc, n), NAME, body, CentralHeader(crc, n), EndRecord(n));
    LocalRead(crc, n, a[30..]);
    CentralRead(a[..n + 42], crc, n, a[n + 88..]);
    EndRead(a[..n + 100], n);
  }

  function StoredLayout(n: nat, crc: Bytes): Layout {
    Layout(42, n + 42, n + 42, n + 100, Entry(0, 0, crc, n, n, 12, 0, 0, 0, 0x81a4_0000, 0))
  }

  lemma StoredEnds(a: Bytes, n: nat, crc: Bytes)
    requires SaysStored(a, n, crc)
    ensures EndsAt(a, n + 100) && DirectoryInside(a, n + 100) && LayoutOf(a, n + 100) == StoredLayout(n, crc)
  {
  }

  lemma StoredData(a: Bytes, n: nat, crc: Bytes)
    requires SaysStored(a, n, crc)
    ensures LocalFits(a, n + 42, StoredLayout(n, crc).entry) && DataFits(a, n + 42, StoredLayout(n, crc).entry)
  {
  }

  lemma StoredDirectory(a: Bytes, n: nat, crc: Bytes)
    requires SaysStored(a, n, crc) && n <= MAX_OUTPUT
    ensures DirectoryFits(a, n + 42, n + 100, StoredLayout(n, crc).entry)
  {
    StoredEntryFits(n, crc);
  }

  lemma StoredEntryFits(n: nat, crc: Bytes)
    requires n <= MAX_OUTPUT
    ensures EntryFits(StoredLayout(n, crc).entry, 58)
  {
  }

  lemma StoredFits(a: Bytes, n: nat, crc: Bytes)
    requires SaysStored(a, n, crc) && n <= MAX_OUTPUT
    ensures Fits(a, StoredLayout(n, crc))
  {
    StoredEnds(a, n, crc);
    StoredData(a, n, crc);
    StoredDirectory(a, n, crc);
  }

  lemma StoredTooLong(a: Bytes, n: nat, crc: Bytes, l: Layout)
    requires SaysStored(a, n, crc) && Fits(a, l)
    ensures n <= MAX_OUTPUT
  {
    StoredEnds(a, n, crc);
    EndUnique(a, l.end, n + 100);
    assert EntryFits(l.entry, l.end - l.directory);
  }

  // Reading a stored archive gives back the body, exactly when the body is within the limit.
  lemma StoredReadsBack(body: Bytes, inflate: Inflate)
    requires |body| + 42 < 0x1_0000_0000
    ensures |body| <= MAX_OUTPUT ==> Accepts(OwnedZip(body), StoredLayout(|body|, CrcBytes(Crc(body))), inflate, body)
    ensures |body| > MAX_OUTPUT ==> forall l :: !Fits(OwnedZip(body), l)
  {
    var a, n, crc := OwnedZip(body), |body|, CrcBytes(Crc(body));
    OwnedSays(body);
    if n <= MAX_OUTPUT {
      StoredFits(a, n, crc);
    } else {
      forall l ensures !Fits(a, l) {
        if Fits(a, l) {
          StoredTooLong(a, n, crc, l);
        }
      }
    }
  }

  // An archive is read in one way only.
  lemma OutputUnique(a: Bytes, k: Layout, l: Layout, inflate: Inflate, x: Bytes, y: Bytes)
    requires Accepts(a, k, inflate, x) && Accepts(a, l, inflate, y)
    ensures k == l && x == y
  {
    LayoutUnique(a, k, l);
  }

  // ---- a genuine archive ----

  // A stored `quality.json` that holds the nine digits, as any archiver writes it: the checksum is 0xcbf43926.
  const GENUINE_LOCAL: Bytes := [
    0x50, 0x4b, 0x03, 0x04, 0x14, 0x00, 0x00, 0x00, 0x00, 0x00, 0x00, 0x00, 0x00, 0x00,
    0x26, 0x39, 0xf4, 0xcb, 0x09, 0x00, 0x00, 0x00, 0x09, 0x00, 0x00, 0x00, 0x0c, 0x00, 0x00, 0x00]
  const GENUINE_CENTRAL: Bytes := [
    0x50, 0x4b, 0x01, 0x02, 0x14, 0x03, 0x14, 0x00, 0x00, 0x00, 0x00, 0x00, 0x00, 0x00, 0x00, 0x00,
    0x26, 0x39, 0xf4, 0xcb, 0x09, 0x00, 0x00, 0x00, 0x09, 0x00, 0x00, 0x00,
    0x0c, 0x00, 0x00, 0x00, 0x00, 0x00, 0x00, 0x00, 0x00, 0x00, 0x00, 0x00, 0xa4, 0x81, 0x00, 0x00, 0x00, 0x00]
  const GENUINE_END: Bytes := [
    0x50, 0x4b, 0x05, 0x06, 0x00, 0x00, 0x00, 0x00, 0x01, 0x00, 0x01, 0x00, 0x3a, 0x00, 0x00, 0x00, 0x33, 0x00, 0x00, 0x00, 0x00, 0x00]

  function Genuine(): Bytes { GENUINE_LOCAL + (NAME + (DIGITS + (GENUINE_CENTRAL + (NAME + GENUINE_END)))) }

  lemma GenuineSizes()
    ensures Sizes([0x26, 0x39, 0xf4, 0xcb], 9) == [0x26, 0x39, 0xf4, 0xcb, 0x09, 0x00, 0x00, 0x00, 0x09, 0x00, 0x00, 0x00]
  {
  }

  lemma GenuineLocal()
    ensures LocalHeader([0x26, 0x39, 0xf4, 0xcb], 9) == GENUINE_LOCAL
  {
    GenuineSizes();
  }

  lemma GenuineCentral()
    ensures CentralHeader([0x26, 0x39, 0xf4, 0xcb], 9) == GENUINE_CENTRAL
  {
    GenuineSizes();
  }

  lemma GenuineEnd()
    ensures EndRecord(9) == GENUINE_END
  {
  }

  // The archive is accepted, and its content is the nine digits.
  lemma GenuineAccepted(inflate: Inflate)
    ensures Accepts(Genuine(), StoredLayout(9, [0x26, 0x39, 0xf4, 0xcb]), inflate, DIGITS)
  {
    CheckValue();
    CheckBytes();
    GenuineLocal();
    GenuineCentral();
    GenuineEnd();
    StoredReadsBack(DIGITS, inflate);
  }
}
