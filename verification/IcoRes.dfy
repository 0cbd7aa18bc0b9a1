/**
 Translating a `.ico` file into a `.res` file (`parse_ico`, `push_res_entry` and
 `emit_icon_res` in build.rs).
 */
module IcoRes {
  import opened Basics
  import opened Bytes

  const IDI_APP: U16 := 1
  const RT_ICON: U16 := 3
  const RT_GROUP_ICON: U16 := 14

  datatype Image = Image(width: Byte, height: Byte, colors: Byte, planes: U16, bitCount: U16, data: seq<Byte>)

  // ---- Reading the .ico ----------------------------------------------------------------

  /** Numbers as the file has them, the low byte first. */
  function Short(a: int, b: int): int { a + 0x100 * b }

  function Long(a: int, b: int, c: int, d: int): int { a + 0x100 * b + 0x1_0000 * c + 0x100_0000 * d }

  /** The header of an icon file: reserved 0 and type 1, then a count, two bytes each. */
  predicate IconFile(b: seq<Byte>) { |b| >= 6 && b[0] == 0 && b[1] == 0 && b[2] == 1 && b[3] == 0 }

  function Count(b: seq<Byte>): nat
    requires IconFile(b)
  {
    Short(b[4], b[5])
  }

  /** Directory entry `k` takes the 16 bytes from 6 + 16 * k on: the length of its data at 8 ... */
  function DataSize(b: seq<Byte>, k: nat): nat
    requires 22 + 16 * k <= |b|
  {
    var e := 6 + 16 * k;
    Long(b[e + 8], b[e + 9], b[e + 10], b[e + 11])
  }

  /** ... and where that data starts at 12. */
  function DataOffset(b: seq<Byte>, k: nat): nat
    requires 22 + 16 * k <= |b|
  {
    var e := 6 + 16 * k;
    Long(b[e + 12], b[e + 13], b[e + 14], b[e + 15])
  }

  /** The entry and the data it points at lie in the buffer. */
  predicate EntryLies(b: seq<Byte>, k: nat) { 22 + 16 * k <= |b| && DataOffset(b, k) + DataSize(b, k) <= |b| }

  function DataOf(b: seq<Byte>, k: nat): seq<Byte>
    requires EntryLies(b, k)
  {
    b[DataOffset(b, k)..DataOffset(b, k) + DataSize(b, k)]
  }

  /** `img` is entry `k`: width, height and colours one byte each, then, behind a reserved one,
      planes and bit count in two bytes, the low one first. */
  predicate EntryIs(b: seq<Byte>, k: nat, img: Image)
    requires EntryLies(b, k)
  {
    var e := 6 + 16 * k;
    && img.width == b[e] && img.height == b[e + 1] && img.colors == b[e + 2]
    && img.planes == Short(b[e + 4], b[e + 5]) && img.bitCount == Short(b[e + 6], b[e + 7])
    && img.data == DataOf(b, k)
  }

  lemma HeaderFields(b: seq<Byte>)
    requires |b| >= 6
    ensures U16At(b, 0) == Some(0) <==> b[0] == 0 && b[1] == 0
    ensures U16At(b, 2) == Some(1) <==> b[2] == 1 && b[3] == 0
    ensures U16At(b, 4) == Some(Short(b[4], b[5]))
  {
    WordIs(b[0], b[1], 0, 0);
    WordIs(b[2], b[3], 1, 0);
    hide FromLe16;
  }

  lemma HeaderExactly(b: seq<Byte>)
    ensures IconFile(b) <==> |b| >= 6 && b[0] == 0 && b[1] == 0 && b[2] == 1 && b[3] == 0
    ensures IconFile(b) ==> Count(b) == Short(b[4], b[5])
  {
    hide Short;
  }

  /** A word is that of two bytes exactly when it is made of them. */
  lemma WordIs(a: Byte, b: Byte, c: Byte, d: Byte)
    ensures FromLe16(a, b) == Short(c, d) <==> a == c && b == d
  {
  }

  lemma EntryFields(b: seq<Byte>, k: nat)
    requires 22 + 16 * k <= |b|
    ensures var e := 6 + 16 * k;
            && U32At(b, e + 8) == Some(DataSize(b, k)) && U32At(b, e + 12) == Some(DataOffset(b, k))
            && U16At(b, e + 4) == Some(Short(b[e + 4], b[e + 5])) && U16At(b, e + 6) == Some(Short(b[e + 6], b[e + 7]))
  {
  }

  /** `parse_ico` accepts exactly an icon header all of whose entries lie in the buffer, and
      then returns the images in order. */
  method ParseIco(b: seq<Byte>) returns (images: Option<seq<Image>>)
    ensures images.Some? <==> IconFile(b) && forall k :: 0 <= k < Count(b) ==> EntryLies(b, k)
    ensures images.Some? ==>
              |images.value| == Count(b) && forall k :: 0 <= k < Count(b) ==> EntryIs(b, k, images.value[k])
  {
    hide Short;
    hide DataSize;
    hide DataOffset;
    hide DataOf;
    hide FromLe16;
    hide FromLe32;
    if |b| >= 6 { HeaderFields(b); }
    HeaderExactly(b);
    hide IconFile;
    hide Count;
    if U16At(b, 0) != Some(0) { return None; }
    if U16At(b, 2) != Some(1) { return None; }
    var count := U16At(b, 4);
    if count.None? { return None; }
    var out: seq<Image> := [];
    for i := 0 to count.value
      invariant |out| == i
      invariant forall k :: 0 <= k < i ==> EntryLies(b, k) && EntryIs(b, k, out[k])
    {
      var e := 6 + i * 16;
      var size := U32At(b, e + 8);
      if size.None? { assert !EntryLies(b, i); return None; }
      var offset := U32At(b, e + 12);
      if offset.None? { assert !EntryLies(b, i); return None; }
      EntryFields(b, i);
      var planes, bitCount := U16At(b, e + 4), U16At(b, e + 6);
      if offset.value + size.value > |b| { assert !EntryLies(b, i); return None; }
      var img := Image(b[e], b[e + 1], b[e + 2], planes.value, bitCount.value, b[offset.value..offset.value + size.value]);
      assert EntryIs(b, i, img) by { Sliced(b, i); }
      out := out + [img];
    }
    return Some(out);
  }

  lemma Sliced(b: seq<Byte>, k: nat)
    requires EntryLies(b, k)
    ensures DataOf(b, k) == b[DataOffset(b, k)..DataOffset(b, k) + DataSize(b, k)]
    ensures |DataOf(b, k)| == DataSize(b, k) < 0x1_0000_0000
  {
  }

  // ---- Writing the .res ----------------------------------------------------------------

  function Zeros(n: nat): (r: seq<Byte>)
    ensures |r| == n
  {
    seq(n, _ => 0)
  }

  /** How many bytes bring `n` to a multiple of four. */
  function PadLength(n: nat): (r: nat)
    ensures r < 4 && (n + r) % 4 == 0
  {
    (4 - n % 4) % 4
  }

  /** The header of one entry after its two sizes, whose type and name are ordinals. */
  function EntryTail(typeId: U16, nameId: U16, flags: U16): (r: seq<Byte>)
    ensures |r| == 24
  {
    Le16(0xFFFF) + Le16(typeId) + Le16(0xFFFF) + Le16(nameId) + Le32(0) + Le16(flags) + Le16(0x0409) + Le32(0) + Le32(0)
  }

  /** One whole entry. */
  function EntryBytes(typeId: U16, nameId: U16, flags: U16, data: seq<Byte>): (r: seq<Byte>)
    requires |data| < 0x1_0000_0000
  {
    Le32(|data|) + Le32(32) + EntryTail(typeId, nameId, flags) + data + Zeros(PadLength(|data|))
  }

  /** `u16::max` with 1. */
  function AtLeastOne(v: U16): U16 { if v == 0 then 1 else v }

  /** The images an icon file can hold: none too long for a 32-bit length, none too many for
      a 16-bit count. */
  ghost predicate Storable(images: seq<Image>) {
    && |images| < 0x1_0000
    && forall i :: 0 <= i < |images| ==> |images[i].data| < 0x1_0000_0000
  }

  /** One row of the group directory. */
  function Row(img: Image, id: U16): (r: seq<Byte>)
    requires |img.data| < 0x1_0000_0000
    ensures |r| == 14
  {
    [img.width, img.height, img.colors, 0] + Le16(AtLeastOne(img.planes)) + Le16(img.bitCount)
    + Le32(|img.data|) + Le16(id)
  }

  function GroupHeader(count: U16): (r: seq<Byte>)
    ensures |r| == 6
  {
    Le16(0) + Le16(1) + Le16(count)
  }

  /** The `.res` buffer, appended to in place. */
  class ResBuffer {
    var bytes: seq<Byte>

    constructor ()
      ensures bytes == []
    {
      bytes := [];
    }

    /** `Vec::resize` upwards, with zeros. */
    method Resize(n: nat)
      requires n >= |bytes|
      modifies this
      ensures bytes == old(bytes) + Zeros(n - |old(bytes)|)
    {
      bytes := bytes + Zeros(n - |bytes|);
    }

    /** The null entry every `.res` opens with. */
    method PushNull()
      requires bytes == []
      modifies this
      ensures bytes == Le32(0) + Le32(32) + Zeros(24)
    {
      bytes := bytes + Le32(0);
      bytes := bytes + Le32(32);
      Resize(32);
    }

    method Extend(more: seq<Byte>)
      modifies this
      ensures bytes == old(bytes) + more
    {
      bytes := bytes + more;
    }

    /** The fields of an entry's header after its two sizes. */
    method PushTail(typeId: U16, nameId: U16, flags: U16)
      modifies this
      ensures bytes == old(bytes) + EntryTail(typeId, nameId, flags)
    {
      hide Le16;
      hide Le32;
      Extend(Le16(0xFFFF));
      Extend(Le16(typeId));
      Extend(Le16(0xFFFF));
      Extend(Le16(nameId));
      Extend(Le32(0));
      Extend(Le16(flags));
      Extend(Le16(0x0409));
      Extend(Le32(0));
      Extend(Le32(0));
    }

    /** `push_res_entry`. The source's length cast keeps the value because the data is shorter
        than 2^32 bytes. */
    method PushEntry(typeId: U16, nameId: U16, flags: U16, data: seq<Byte>)
      requires |data| < 0x1_0000_0000 && |bytes| % 4 == 0
      modifies this
      ensures bytes == old(bytes) + EntryBytes(typeId, nameId, flags, data)
      ensures |bytes| % 4 == 0
    {
      hide Le32;
      hide EntryTail;
      hide Zeros;
      hide PadLength;
      ghost var start := bytes;
      Extend(Le32(|data|));
      Extend(Le32(32));
      PushTail(typeId, nameId, flags);
      Extend(data);
      PadTo4(|start|, |data|);
      ghost var size, head, tail := Le32(|data|), Le32(32), EntryTail(typeId, nameId, flags);
      Resize(|bytes| + PadLength(|bytes|));
      Flatten(start, size, head, tail, data, Zeros(PadLength(|data|)));
    }
  }

  lemma PadTo4(start: nat, data: nat)
    requires start % 4 == 0
    ensures PadLength(start + 32 + data) == PadLength(data)
  {
    SameRemainder(start / 4 + 8, data);
  }

  lemma SameRemainder(quads: nat, n: nat)
    ensures (4 * quads + n) % 4 == n % 4
  {
  }

  lemma Flatten(start: seq<Byte>, a: seq<Byte>, b: seq<Byte>, c: seq<Byte>, d: seq<Byte>, e: seq<Byte>)
    ensures start + a + b + c + d + e == start + (a + b + c + d + e)
  {
  }

  // ---- The whole file --------------------------------------------------------------------

  function NullEntry(): (r: seq<Byte>)
    ensures |r| == 32
  {
    Le32(0) + Le32(32) + Zeros(24)
  }

  /** The icon entries from image `i` on. */
  ghost function IconsFrom(images: seq<Image>, i: nat): seq<Byte>
    requires Storable(images) && i <= |images|
    decreases |images| - i
  {
    if i == |images| then []
    else EntryBytes(RT_ICON, IDI_APP + i, 0x1010, images[i].data) + IconsFrom(images, i + 1)
  }

  /** The directory rows from image `i` on. */
  ghost function RowsFrom(images: seq<Image>, i: nat): (r: seq<Byte>)
    requires Storable(images) && i <= |images|
    ensures |r| == 14 * (|images| - i)
    decreases |images| - i
  {
    if i == |images| then [] else Row(images[i], IDI_APP + i) + RowsFrom(images, i + 1)
  }

  ghost function GroupBytes(images: seq<Image>): (r: seq<Byte>)
    requires Storable(images)
    ensures |r| == 6 + 14 * |images|
  {
    GroupHeader(|images|) + RowsFrom(images, 0)
  }

  ghost function ResBytes(images: seq<Image>): seq<Byte>
    requires Storable(images)
  {
    NullEntry() + IconsFrom(images, 0) + EntryBytes(RT_GROUP_ICON, IDI_APP, 0x1030, GroupBytes(images))
  }

  /** The buffer-building half of `emit_icon_res`. `IDI_APP + i` and both length casts keep
      their values: the types of the ids and lengths are the narrow ones. */
  method BuildRes(images: seq<Image>) returns (bytes: seq<Byte>)
    requires Storable(images)
    ensures bytes == ResBytes(images)
  {
    hide EntryBytes;
    hide Row;
    var res := new ResBuffer();
    res.PushNull();
    var group := GroupHeader(|images|);
    var i := 0;
    while i < |images|
      invariant i <= |images| && |res.bytes| % 4 == 0 && fresh(res)
      invariant res.bytes + IconsFrom(images, i) == NullEntry() + IconsFrom(images, 0)
      invariant group + RowsFrom(images, i) == GroupBytes(images)
    {
      var id: U16 := IDI_APP + i;
      ghost var was, wasGroup := res.bytes, group;
      group := group + Row(images[i], id);
      Regroup(wasGroup, Row(images[i], id), RowsFrom(images, i + 1));
      res.PushEntry(RT_ICON, id, 0x1010, images[i].data);
      Regroup(was, EntryBytes(RT_ICON, id, 0x1010, images[i].data), IconsFrom(images, i + 1));
      i := i + 1;
    }
    assert group == GroupBytes(images) by { assert group + [] == group; }
    assert res.bytes == NullEntry() + IconsFrom(images, 0) by { assert res.bytes + [] == res.bytes; }
    res.PushEntry(RT_GROUP_ICON, IDI_APP, 0x1030, group);
    bytes := res.bytes;
  }

  // ---- Reading a .res back -----------------------------------------------------------------

  datatype Entry = Entry(typeMark: U16, typeId: U16, nameMark: U16, nameId: U16, flags: U16, language: U16, data: seq<Byte>)

  /** The entry at `at`, which must be 4-aligned, and where the next one starts. */
  function ReadEntry(b: seq<Byte>, at: nat): (r: Option<(Entry, nat)>)
    ensures r.Some? ==> at < r.value.1 <= |b|
  {
    if at % 4 != 0 || at + 32 > |b| then None
    else
      var size, header := U32At(b, at).value, U32At(b, at + 4).value;
      var next := at + 32 + size + PadLength(size);
      if header != 32 || next > |b| then None
      else
        Some((Entry(U16At(b, at + 8).value, U16At(b, at + 10).value, U16At(b, at + 12).value, U16At(b, at + 14).value,
                    U16At(b, at + 20).value, U16At(b, at + 22).value, b[at + 32..at + 32 + size]), next))
  }

  /** All entries from `at` to the end of the buffer. */
  function ReadEntries(b: seq<Byte>, at: nat): Option<seq<Entry>>
    requires at <= |b|
    decreases |b| - at
  {
    if at == |b| then Some([])
    else
      match ReadEntry(b, at)
      case None => None
      case Some((entry, next)) =>
        match ReadEntries(b, next)
        case None => None
        case Some(rest) => Some([entry] + rest)
  }

  /** One row of a group directory, read back. */
  datatype GroupRow =
    GroupRow(width: Byte, height: Byte, colors: Byte, reserved: Byte, planes: U16, bitCount: U16, size: U32, id: U16)

  function RowAt(group: seq<Byte>, k: nat): Option<GroupRow> {
    var e := 6 + 14 * k;
    if e + 14 > |group| then None
    else
      Some(GroupRow(group[e], group[e + 1], group[e + 2], group[e + 3], U16At(group, e + 4).value,
                    U16At(group, e + 6).value, U32At(group, e + 8).value, U16At(group, e + 12).value))
  }

  lemma TailFields(s: seq<Byte>, at: nat, typeId: U16, nameId: U16, flags: U16)
    requires At(s, at, EntryTail(typeId, nameId, flags))
    ensures U16At(s, at) == Some(0xFFFF) && U16At(s, at + 2) == Some(typeId)
    ensures U16At(s, at + 4) == Some(0xFFFF) && U16At(s, at + 6) == Some(nameId)
    ensures U16At(s, at + 12) == Some(flags) && U16At(s, at + 14) == Some(0x0409)
  {
    hide Le16;
    hide Le32;
    var mark, t, n, zero, f, l := Le16(0xFFFF), Le16(typeId), Le16(nameId), Le32(0), Le16(flags), Le16(0x0409);
    AtSplit(s, at, mark + t + mark + n + zero + f + l + zero, zero);
    AtSplit(s, at, mark + t + mark + n + zero + f + l, zero);
    AtSplit(s, at, mark + t + mark + n + zero + f, l);
    AtSplit(s, at, mark + t + mark + n + zero, f);
    AtSplit(s, at, mark + t + mark + n, zero);
    AtSplit(s, at, mark + t + mark, n);
    AtSplit(s, at, mark + t, mark);
    AtSplit(s, at, mark, t);
    ReadsBack16(s, at, 0xFFFF);
    ReadsBack16(s, at + 2, typeId);
    ReadsBack16(s, at + 4, 0xFFFF);
    ReadsBack16(s, at + 6, nameId);
    ReadsBack16(s, at + 12, flags);
    ReadsBack16(s, at + 14, 0x0409);
  }

  lemma EntryLength(typeId: U16, nameId: U16, flags: U16, data: seq<Byte>)
    requires |data| < 0x1_0000_0000
    ensures |EntryBytes(typeId, nameId, flags, data)| == 32 + |data| + PadLength(|data|)
    ensures (32 + |data| + PadLength(|data|)) % 4 == 0
  {
    hide PadLength;
    hide EntryTail;
    var n := |data| + PadLength(|data|);
    assert (32 + n) % 4 == n % 4;
  }

  lemma EntryPieces(s: seq<Byte>, at: nat, typeId: U16, nameId: U16, flags: U16, data: seq<Byte>)
    requires |data| < 0x1_0000_0000 && At(s, at, EntryBytes(typeId, nameId, flags, data))
    ensures At(s, at, Le32(|data|)) && At(s, at + 4, Le32(32))
    ensures At(s, at + 8, EntryTail(typeId, nameId, flags)) && At(s, at + 32, data)
  {
    hide Le32;
    hide EntryTail;
    hide Zeros;
    var size, head, tail := Le32(|data|), Le32(32), EntryTail(typeId, nameId, flags);
    AtSplit(s, at, size + head + tail + data, Zeros(PadLength(|data|)));
    AtSplit(s, at, size + head + tail, data);
    AtSplit(s, at, size + head, tail);
    AtSplit(s, at, size, head);
  }

  /** The reader recovers an entry wherever it was written. */
  lemma EntryReadsBack(s: seq<Byte>, at: nat, typeId: U16, nameId: U16, flags: U16, data: seq<Byte>)
    requires |data| < 0x1_0000_0000 && at % 4 == 0 && At(s, at, EntryBytes(typeId, nameId, flags, data))
    ensures ReadEntry(s, at) == Some((Entry(0xFFFF, typeId, 0xFFFF, nameId, flags, 0x0409, data),
                                      at + |EntryBytes(typeId, nameId, flags, data)|))
  {
    hide EntryBytes;
    hide EntryTail;
    hide Le32;
    hide PadLength;
    EntryLength(typeId, nameId, flags, data);
    assert at + |EntryBytes(typeId, nameId, flags, data)| <= |s|;
    EntryPieces(s, at, typeId, nameId, flags, data);
    hide At;
    hide U16At;
    hide U32At;
    ReadsBack32(s, at, |data|);
    ReadsBack32(s, at + 4, 32);
    TailFields(s, at + 8, typeId, nameId, flags);
    AtSlice(s, at + 32, data);
  }

  ghost function IconEntry(images: seq<Image>, i: nat): Entry
    requires Storable(images) && i < |images|
  {
    Entry(0xFFFF, RT_ICON, 0xFFFF, IDI_APP + i, 0x1010, 0x0409, images[i].data)
  }

  ghost function GroupEntry(images: seq<Image>): Entry
    requires Storable(images)
  {
    Entry(0xFFFF, RT_GROUP_ICON, 0xFFFF, IDI_APP, 0x1030, 0x0409, GroupBytes(images))
  }

  ghost function IconEntriesFrom(images: seq<Image>, i: nat): (r: seq<Entry>)
    requires Storable(images) && i <= |images|
    ensures |r| == |images| - i
    ensures forall k :: 0 <= k < |r| ==> r[k] == IconEntry(images, i + k)
    decreases |images| - i
  {
    if i == |images| then [] else [IconEntry(images, i)] + IconEntriesFrom(images, i + 1)
  }

  lemma {:induction false} IconsReadBack(s: seq<Byte>, at: nat, images: seq<Image>, i: nat)
    requires Storable(images) && i <= |images| && at % 4 == 0
    requires At(s, at, IconsFrom(images, i))
    requires var end := at + |IconsFrom(images, i)|;
             var group := EntryBytes(RT_GROUP_ICON, IDI_APP, 0x1030, GroupBytes(images));
             At(s, end, group) && |s| == end + |group|
    ensures ReadEntries(s, at) == Some(IconEntriesFrom(images, i) + [GroupEntry(images)])
    decreases |images| - i
  {
    hide EntryBytes;
    hide ReadEntry;
    hide GroupBytes;
    if i == |images| {
      EntryReadsBack(s, at, RT_GROUP_ICON, IDI_APP, 0x1030, GroupBytes(images));
      assert ReadEntries(s, |s|) == Some([]);
      assert [] + [GroupEntry(images)] == [GroupEntry(images)] + [];
    } else {
      var e := EntryBytes(RT_ICON, IDI_APP + i, 0x1010, images[i].data);
      AtSplit(s, at, e, IconsFrom(images, i + 1));
      EntryReadsBack(s, at, RT_ICON, IDI_APP + i, 0x1010, images[i].data);
      EntryLength(RT_ICON, IDI_APP + i, 0x1010, images[i].data);
      IconsReadBack(s, at + |e|, images, i + 1);
      assert [IconEntry(images, i)] + (IconEntriesFrom(images, i + 1) + [GroupEntry(images)])
          == IconEntriesFrom(images, i) + [GroupEntry(images)];
    }
  }

  lemma NullReadsBack(s: seq<Byte>)
    requires At(s, 0, NullEntry())
    ensures ReadEntry(s, 0) == Some((Entry(0, 0, 0, 0, 0, 0, []), 32))
  {
    hide Le32;
    hide Zeros;
    hide U16At;
    hide U32At;
    AtSplit(s, 0, Le32(0) + Le32(32), Zeros(24));
    AtSplit(s, 0, Le32(0), Le32(32));
    ReadsBack32(s, 0, 0);
    ReadsBack32(s, 4, 32);
    ZeroInside(s, 8, 24, 0);
    ZeroInside(s, 8, 24, 2);
    ZeroInside(s, 8, 24, 4);
    ZeroInside(s, 8, 24, 6);
    ZeroInside(s, 8, 24, 12);
    ZeroInside(s, 8, 24, 14);
    assert s[32..32] == [];
  }

  lemma ZeroInside(s: seq<Byte>, at: nat, n: nat, k: nat)
    requires At(s, at, Zeros(n)) && k + 2 <= n
    ensures U16At(s, at + k) == Some(0)
  {
    assert s[at + k] == Zeros(n)[k] && s[at + (k + 1)] == Zeros(n)[k + 1];
  }

  /** A `.res` reader recovers exactly the null entry, one icon entry per image with its
      bytes, and the group. */
  lemma ResReadsBack(images: seq<Image>)
    requires Storable(images)
    ensures ReadEntries(ResBytes(images), 0)
            == Some([Entry(0, 0, 0, 0, 0, 0, [])] + (IconEntriesFrom(images, 0) + [GroupEntry(images)]))
  {
    hide EntryBytes;
    hide ReadEntry;
    hide NullEntry;
    hide GroupBytes;
    var s := ResBytes(images);
    var icons, group := IconsFrom(images, 0), EntryBytes(RT_GROUP_ICON, IDI_APP, 0x1030, GroupBytes(images));
    assert At(s, 0, s);
    AtSplit(s, 0, NullEntry() + icons, group);
    AtSplit(s, 0, NullEntry(), icons);
    NullReadsBack(s);
    IconsReadBack(s, 32, images, 0);
  }

  lemma RowReadsBack(s: seq<Byte>, k: nat, img: Image, id: U16)
    requires |img.data| < 0x1_0000_0000 && At(s, 6 + 14 * k, Row(img, id))
    ensures RowAt(s, k)
            == Some(GroupRow(img.width, img.height, img.colors, 0, AtLeastOne(img.planes), img.bitCount, |img.data|, id))
  {
    hide Le16;
    hide Le32;
    var e := 6 + 14 * k;
    var head := [img.width, img.height, img.colors, 0];
    var p, c, n, d := Le16(AtLeastOne(img.planes)), Le16(img.bitCount), Le32(|img.data|), Le16(id);
    AtSplit(s, e, head + p + c + n, d);
    AtSplit(s, e, head + p + c, n);
    AtSplit(s, e, head + p, c);
    AtSplit(s, e, head, p);
    assert s[e + 0] == head[0] && s[e + 1] == head[1] && s[e + 2] == head[2] && s[e + 3] == head[3];
    ReadsBack16(s, e + 4, AtLeastOne(img.planes));
    ReadsBack16(s, e + 6, img.bitCount);
    ReadsBack32(s, e + 8, |img.data|);
    ReadsBack16(s, e + 12, id);
  }

  lemma {:induction false} RowsReadBack(s: seq<Byte>, images: seq<Image>, i: nat, k: nat)
    requires Storable(images) && i <= k < |images| && At(s, 6 + 14 * i, RowsFrom(images, i))
    ensures RowAt(s, k)
            == Some(GroupRow(images[k].width, images[k].height, images[k].colors, 0, AtLeastOne(images[k].planes),
                             images[k].bitCount, |images[k].data|, IDI_APP + k))
    decreases k - i
  {
    hide Row;
    AtSplit(s, 6 + 14 * i, Row(images[i], IDI_APP + i), RowsFrom(images, i + 1));
    if i == k {
      RowReadsBack(s, k, images[i], IDI_APP + i);
    } else {
      RowsReadBack(s, images, i + 1, k);
    }
  }

  /** What the translation promises of the `.res` it writes for an icon file: entry 0 is the
      null entry; entry k + 1 is an icon with exactly the bytes the file's entry k points at;
      the last entry is the group, whose k-th row carries the file's entry k. The reader demands
      that every entry starts 4-aligned; icon ids are pairwise distinct. */
  ghost predicate Translates(ico: seq<Byte>, res: seq<Byte>) {
    && IconFile(ico) && (forall k :: 0 <= k < Count(ico) ==> EntryLies(ico, k))
    && ReadEntries(res, 0).Some?
    && Carries(ico, Count(ico), ReadEntries(res, 0).value)
  }

  ghost predicate Carries(ico: seq<Byte>, n: nat, read: seq<Entry>)
    requires forall k :: 0 <= k < n ==> EntryLies(ico, k)
  {
    && |read| == n + 2
    && read[0] == Entry(0, 0, 0, 0, 0, 0, [])
    && (forall k :: 0 <= k < n ==> IsIcon(read[k + 1], k, DataOf(ico, k)))
    && DistinctIds(read[1..n + 1])
    && IsGroup(read[n + 1], n)
    && (forall k :: 0 <= k < n ==> RowCarried(ico, n, read, k))
  }

  ghost predicate RowCarried(ico: seq<Byte>, n: nat, read: seq<Entry>, k: nat)
    requires k < n && |read| == n + 2
  {
    RowMatches(read[n + 1].data, k, ico, read[k + 1])
  }

  ghost predicate IsIcon(e: Entry, k: nat, data: seq<Byte>) {
    e == Entry(0xFFFF, RT_ICON, 0xFFFF, e.nameId, 0x1010, 0x0409, data) && e.nameId == IDI_APP + k
  }

  ghost predicate IsGroup(e: Entry, n: nat) {
    && e == Entry(0xFFFF, RT_GROUP_ICON, 0xFFFF, IDI_APP, 0x1030, 0x0409, e.data)
    && |e.data| == 6 + 14 * n
    && e.data[0] == 0 && e.data[1] == 0 && e.data[2] == 1 && e.data[3] == 0 && Short(e.data[4], e.data[5]) == n
  }

  ghost predicate DistinctIds(entries: seq<Entry>) {
    forall j, k :: 0 <= j < k < |entries| ==> entries[j].nameId != entries[k].nameId
  }

  /** Row `k` of the group, byte by byte, is the file's entry `k`: everything is copied but the
      reserved byte, planes 0, which becomes 1, and the offset, in whose place the row ends with
      the id of its icon entry. */
  ghost predicate RowMatches(group: seq<Byte>, k: nat, ico: seq<Byte>, icon: Entry) {
    var e, g := 6 + 16 * k, 6 + 14 * k;
    && e + 16 <= |ico| && g + 14 <= |group|
    && group[g] == ico[e] && group[g + 1] == ico[e + 1] && group[g + 2] == ico[e + 2] && group[g + 3] == 0
    && group[g + 4] == (if ico[e + 4] == 0 && ico[e + 5] == 0 then 1 else ico[e + 4]) && group[g + 5] == ico[e + 5]
    && group[g + 6] == ico[e + 6] && group[g + 7] == ico[e + 7]
    && group[g + 8] == ico[e + 8] && group[g + 9] == ico[e + 9]
    && group[g + 10] == ico[e + 10] && group[g + 11] == ico[e + 11]
    && Short(group[g + 12], group[g + 13]) == icon.nameId
  }

  lemma SameBytes16(a: Byte, b: Byte, c: Byte, d: Byte)
    requires Short(a, b) == Short(c, d)
    ensures a == c && b == d
  {
  }

  lemma SameBytes32(a: Byte, b: Byte, c: Byte, d: Byte, p: Byte, q: Byte, r: Byte, s: Byte)
    requires Long(a, b, c, d) == Long(p, q, r, s)
    ensures a == p && b == q && c == r && d == s
  {
    SameBytes16(c, d, r, s);
    SameBytes16(a, b, p, q);
  }

  lemma PlanesCopied(a: Byte, b: Byte, c: Byte, d: Byte)
    requires Short(a, b) == AtLeastOne(Short(c, d))
    ensures a == (if c == 0 && d == 0 then 1 else c) && b == d
  {
  }

  lemma RowBytes(group: seq<Byte>, k: nat)
    requires RowAt(group, k).Some?
    ensures var g, row := 6 + 14 * k, RowAt(group, k).value;
            && g + 14 <= |group|
            && row.width == group[g] && row.height == group[g + 1] && row.colors == group[g + 2] && row.reserved == group[g + 3]
            && row.planes == Short(group[g + 4], group[g + 5]) && row.bitCount == Short(group[g + 6], group[g + 7])
            && row.size == Long(group[g + 8], group[g + 9], group[g + 10], group[g + 11])
            && row.id == Short(group[g + 12], group[g + 13])
  {
  }

  lemma EntryNumbers(ico: seq<Byte>, k: nat, img: Image)
    requires EntryLies(ico, k) && EntryIs(ico, k, img) && |img.data| == DataSize(ico, k)
    ensures var e := 6 + 16 * k;
            && e + 16 <= |ico|
            && img.width == ico[e] && img.height == ico[e + 1] && img.colors == ico[e + 2]
            && img.planes == Short(ico[e + 4], ico[e + 5]) && img.bitCount == Short(ico[e + 6], ico[e + 7])
            && |img.data| == Long(ico[e + 8], ico[e + 9], ico[e + 10], ico[e + 11])
  {
    hide DataOf;
    hide DataOffset;
    hide Short;
    hide Long;
  }

  /** Where a row reads as the fields of an entry, its bytes are that entry's. */
  lemma RowCopies(group: seq<Byte>, k: nat, ico: seq<Byte>, img: Image, icon: Entry)
    requires EntryLies(ico, k) && EntryIs(ico, k, img) && |img.data| == DataSize(ico, k) < 0x1_0000_0000
    requires RowAt(group, k) == Some(GroupRow(img.width, img.height, img.colors, 0, AtLeastOne(img.planes), img.bitCount,
                                              |img.data|, icon.nameId))
    ensures RowMatches(group, k, ico, icon)
  {
    EntryNumbers(ico, k, img);
    RowBytes(group, k);
    hide EntryLies;
    hide EntryIs;
    hide RowAt;
    hide DataSize;
    hide Short;
    hide Long;
    hide AtLeastOne;
    BytesMatch(group, 6 + 14 * k, ico, 6 + 16 * k);
  }

  lemma BytesMatch(group: seq<Byte>, g: nat, ico: seq<Byte>, e: nat)
    requires g + 14 <= |group| && e + 16 <= |ico|
    requires Short(group[g + 4], group[g + 5]) == AtLeastOne(Short(ico[e + 4], ico[e + 5]))
    requires Short(group[g + 6], group[g + 7]) == Short(ico[e + 6], ico[e + 7])
    requires Long(group[g + 8], group[g + 9], group[g + 10], group[g + 11])
             == Long(ico[e + 8], ico[e + 9], ico[e + 10], ico[e + 11])
    ensures group[g + 4] == (if ico[e + 4] == 0 && ico[e + 5] == 0 then 1 else ico[e + 4]) && group[g + 5] == ico[e + 5]
    ensures group[g + 6] == ico[e + 6] && group[g + 7] == ico[e + 7]
    ensures group[g + 8] == ico[e + 8] && group[g + 9] == ico[e + 9]
    ensures group[g + 10] == ico[e + 10] && group[g + 11] == ico[e + 11]
  {
    PlanesCopied(group[g + 4], group[g + 5], ico[e + 4], ico[e + 5]);
    SameBytes16(group[g + 6], group[g + 7], ico[e + 6], ico[e + 7]);
    SameBytes32(group[g + 8], group[g + 9], group[g + 10], group[g + 11],
                ico[e + 8], ico[e + 9], ico[e + 10], ico[e + 11]);
    hide Short;
    hide Long;
    hide AtLeastOne;
  }

  lemma GroupHeaderReadsBack(s: seq<Byte>, count: U16)
    requires At(s, 0, GroupHeader(count))
    ensures U16At(s, 0) == Some(0) && U16At(s, 2) == Some(1) && U16At(s, 4) == Some(count)
  {
    hide Le16;
    AtSplit(s, 0, Le16(0) + Le16(1), Le16(count));
    AtSplit(s, 0, Le16(0), Le16(1));
    ReadsBack16(s, 0, 0);
    ReadsBack16(s, 2, 1);
    ReadsBack16(s, 4, count);
  }

  /** The images are the file's entries. */
  ghost predicate Parsed(ico: seq<Byte>, images: seq<Image>) {
    && IconFile(ico) && |images| == Count(ico)
    && forall k :: 0 <= k < |images| ==> EntryLies(ico, k) && EntryIs(ico, k, images[k])
  }

  lemma ParsedStorable(ico: seq<Byte>, images: seq<Image>)
    requires Parsed(ico, images)
    ensures Storable(images)
    ensures forall k :: 0 <= k < |images| ==> images[k].data == DataOf(ico, k) && |images[k].data| == DataSize(ico, k)
  {
    hide DataSize;
    hide DataOffset;
    hide DataOf;
    forall k | 0 <= k < |images| ensures |images[k].data| == DataSize(ico, k) < 0x1_0000_0000 {
      Sliced(ico, k);
    }
  }

  lemma GroupCounts(images: seq<Image>)
    requires Storable(images)
    ensures IsGroup(GroupEntry(images), |images|)
  {
    hide RowsFrom;
    var group := GroupBytes(images);
    assert At(group, 0, group);
    AtSplit(group, 0, GroupHeader(|images|), RowsFrom(images, 0));
    GroupHeaderReadsBack(group, |images|);
    HeaderFields(group);
    hide GroupHeader;
    hide GroupBytes;
    hide FromLe16;
  }

  lemma GroupReadsBack(ico: seq<Byte>, images: seq<Image>)
    requires Storable(images) && Parsed(ico, images)
    ensures forall k :: 0 <= k < |images| ==> RowMatches(GroupBytes(images), k, ico, IconEntry(images, k))
  {
    hide RowAt;
    hide RowsFrom;
    hide GroupHeader;
    hide EntryIs;
    hide RowMatches;
    hide DataSize;
    var group := GroupBytes(images);
    assert At(group, 0, group);
    AtSplit(group, 0, GroupHeader(|images|), RowsFrom(images, 0));
    ParsedStorable(ico, images);
    forall k | 0 <= k < |images| ensures RowMatches(group, k, ico, IconEntry(images, k)) {
      RowsReadBack(group, images, 0, k);
      RowCopies(group, k, ico, images[k], IconEntry(images, k));
    }
  }

  lemma BuiltTranslates(ico: seq<Byte>, images: seq<Image>)
    requires Parsed(ico, images)
    ensures Storable(images) && Translates(ico, ResBytes(images))
  {
    ParsedStorable(ico, images);
    ParsedLies(ico, images);
    ResReadsBack(images);
    EntriesApart(Entry(0, 0, 0, 0, 0, 0, []), IconEntriesFrom(images, 0), GroupEntry(images));
    IconEntriesAre(images);
    var read := ReadEntries(ResBytes(images), 0).value;
    AllCarried(ico, images, read);
    hide *;
    TranslatesIs(ico, ResBytes(images), read);
  }

  lemma ParsedLies(ico: seq<Byte>, images: seq<Image>)
    requires Parsed(ico, images)
    ensures IconFile(ico) && |images| == Count(ico) && forall k :: 0 <= k < Count(ico) ==> EntryLies(ico, k)
  {
    hide EntryLies;
    hide EntryIs;
  }

  lemma IconEntriesAre(images: seq<Image>)
    requires Storable(images)
    ensures forall k :: 0 <= k < |images| ==> IconEntriesFrom(images, 0)[k] == IconEntry(images, k)
  {
    hide IconEntry;
  }

  lemma TranslatesIs(ico: seq<Byte>, res: seq<Byte>, read: seq<Entry>)
    requires IconFile(ico) && (forall k :: 0 <= k < Count(ico) ==> EntryLies(ico, k))
    requires ReadEntries(res, 0) == Some(read) && Carries(ico, Count(ico), read)
    ensures Translates(ico, res)
  {
    hide Carries;
    hide ReadEntries;
    hide EntryLies;
  }

  lemma EntriesApart(first: Entry, middle: seq<Entry>, last: Entry)
    ensures var read := [first] + (middle + [last]);
            && |read| == |middle| + 2 && read[0] == first && read[|middle| + 1] == last
            && read[1..|middle| + 1] == middle
            && forall k :: 0 <= k < |middle| ==> read[k + 1] == middle[k]
  {
  }

  lemma AllCarried(ico: seq<Byte>, images: seq<Image>, read: seq<Entry>)
    requires Storable(images) && Parsed(ico, images)
    requires |read| == |images| + 2 && read[0] == Entry(0, 0, 0, 0, 0, 0, []) && read[|images| + 1] == GroupEntry(images)
    requires read[1..|images| + 1] == IconEntriesFrom(images, 0)
    requires forall k :: 0 <= k < |images| ==> read[k + 1] == IconEntry(images, k)
    ensures Carries(ico, |images|, read)
  {
    IconsCarried(ico, images, read);
    RowsCarried(ico, images, read);
    GroupCounts(images);
    hide *;
    CarriesIs(ico, |images|, read);
  }

  lemma CarriesIs(ico: seq<Byte>, n: nat, read: seq<Entry>)
    requires forall k :: 0 <= k < n ==> EntryLies(ico, k)
    requires |read| == n + 2 && read[0] == Entry(0, 0, 0, 0, 0, 0, []) && IsGroup(read[n + 1], n)
    requires forall k :: 0 <= k < n ==> IsIcon(read[k + 1], k, DataOf(ico, k))
    requires DistinctIds(read[1..n + 1])
    requires forall k :: 0 <= k < n ==> RowCarried(ico, n, read, k)
    ensures Carries(ico, n, read)
  {
    hide IsIcon;
    hide IsGroup;
    hide DistinctIds;
    hide RowCarried;
    hide DataOf;
    hide EntryLies;
  }

  lemma IconsCarried(ico: seq<Byte>, images: seq<Image>, read: seq<Entry>)
    requires Storable(images) && Parsed(ico, images) && |read| == |images| + 2
    requires read[1..|images| + 1] == IconEntriesFrom(images, 0)
    requires forall k :: 0 <= k < |images| ==> read[k + 1] == IconEntry(images, k)
    ensures forall k :: 0 <= k < |images| ==> EntryLies(ico, k) && IsIcon(read[k + 1], k, DataOf(ico, k))
    ensures DistinctIds(read[1..|images| + 1])
  {
    ParsedStorable(ico, images);
    hide EntryIs;
    hide DataOf;
    hide DataSize;
    hide DataOffset;
  }

  lemma RowsCarried(ico: seq<Byte>, images: seq<Image>, read: seq<Entry>)
    requires Storable(images) && Parsed(ico, images) && |read| == |images| + 2
    requires read[|images| + 1] == GroupEntry(images)
    requires forall k :: 0 <= k < |images| ==> read[k + 1] == IconEntry(images, k)
    ensures forall k :: 0 <= k < |images| ==> RowCarried(ico, |images|, read, k)
  {
    GroupReadsBack(ico, images);
    hide *;
    forall k | 0 <= k < |images| ensures RowCarried(ico, |images|, read, k) {
      RowIs(ico, images, read, k);
    }
  }

  lemma RowIs(ico: seq<Byte>, images: seq<Image>, read: seq<Entry>, k: nat)
    requires k < |images| && Storable(images) && |read| == |images| + 2 && read[|images| + 1] == GroupEntry(images)
    requires read[k + 1] == IconEntry(images, k) && RowMatches(GroupBytes(images), k, ico, IconEntry(images, k))
    ensures RowCarried(ico, |images|, read, k)
  {
    hide Storable;
    hide GroupBytes;
    hide RowMatches;
    hide IconEntry;
  }

  /** `emit_icon_res` from the file's bytes to the `.res`: it writes one exactly for the files
      `parse_ico` accepts that hold an image, and that one translates the file. */
  method EmitIconRes(ico: seq<Byte>) returns (res: Option<seq<Byte>>)
    ensures res.Some? <==>
              IconFile(ico) && Count(ico) > 0 && forall k :: 0 <= k < Count(ico) ==> EntryLies(ico, k)
    ensures res.Some? ==> Translates(ico, res.value)
  {
    var images := ParseIco(ico);
    if images.None? || images.value == [] { return None; }
    BuiltTranslates(ico, images.value);
    var bytes := BuildRes(images.value);
    return Some(bytes);
  }
}
