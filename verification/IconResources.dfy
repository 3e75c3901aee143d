/** An icon file turned into a resource file: every image as an icon entry, and
    a group entry that lists them. */
module IconResources {
  import opened Results
  import opened Bytes
  import opened ResourceFile

  const RT_ICON: U16 := 3
  const RT_GROUP_ICON: U16 := 14
  const ICON_FLAGS: U16 := 0x1010
  const GROUP_FLAGS: U16 := 0x1030

  datatype Error = Truncated | NotAnIcon | NoImages | ImageOutside

  function U16At(bytes: seq<Byte>, at: nat): Result<U16, Error> {
    if at + 2 <= |bytes| then Ok(From16(bytes[at..at + 2])) else Err(Truncated)
  }

  function U32At(bytes: seq<Byte>, at: nat): Result<U32, Error> {
    if at + 4 <= |bytes| then Ok(From32(bytes[at..at + 4])) else Err(Truncated)
  }

  // ---------------------------------------------------------------- the icon file

  function EntryStart(i: nat): nat {
    6 + 16 * i
  }

  /** The directory entry of image i is complete and the image lies in the file. */
  predicate ImagePresent(ico: seq<Byte>, i: nat) {
    && EntryStart(i) + 16 <= |ico|
    && ImageOffset(ico, i) + ImageLength(ico, i) <= |ico|
  }

  function ImageLength(ico: seq<Byte>, i: nat): U32
    requires EntryStart(i) + 16 <= |ico|
  {
    From32(ico[EntryStart(i) + 8..EntryStart(i) + 12])
  }

  function ImageOffset(ico: seq<Byte>, i: nat): U32
    requires EntryStart(i) + 16 <= |ico|
  {
    From32(ico[EntryStart(i) + 12..EntryStart(i) + 16])
  }

  function Image(ico: seq<Byte>, i: nat): (r: seq<Byte>)
    requires ImagePresent(ico, i)
    ensures |r| <= MAX_U32
  {
    ico[ImageOffset(ico, i)..ImageOffset(ico, i) + ImageLength(ico, i)]
  }

  function Count(ico: seq<Byte>): U16
    requires |ico| >= 6
  {
    From16(ico[4..6])
  }

  ghost predicate ImagesPresent(ico: seq<Byte>, n: nat) {
    forall i :: 0 <= i < n ==> ImagePresent(ico, i)
  }

  /** An icon file with at least one image and all images inside it. */
  ghost predicate ValidIcon(ico: seq<Byte>) {
    && |ico| >= 6
    && From16(ico[0..2]) == 0 && From16(ico[2..4]) == 1
    && Count(ico) > 0
    && ImagesPresent(ico, Count(ico))
  }

  // ---------------------------------------------------------------- the group directory

  /** One line of the directory: eight header bytes, a length and an id. */
  datatype Line = Line(header: seq<Byte>, length: U32, id: U16)

  datatype Directory = Directory(reserved: U16, kind: U16, lines: seq<Line>)

  /** Reads n lines of 14 bytes. */
  function ReadLines(s: seq<Byte>, n: nat): (r: Option<seq<Line>>)
    ensures r.Some? ==> |r.value| == n
  {
    if n == 0 then (if s == [] then Some([]) else None)
    else if |s| < 14 then None
    else
      var rest := ReadLines(s[14..], n - 1);
      if rest.None? then None else Some([Line(s[0..8], From32(s[8..12]), From16(s[12..14]))] + rest.value)
  }

  function ReadDirectory(s: seq<Byte>): Option<Directory> {
    if |s| < 6 then None
    else
      var lines := ReadLines(s[6..], From16(s[4..6]));
      if lines.None? then None else Some(Directory(From16(s[0..2]), From16(s[2..4]), lines.value))
  }

  function WriteLine(l: Line): (r: seq<Byte>)
    requires |l.header| == 8
    ensures |r| == 14
  {
    l.header + Le32(l.length) + Le16(l.id)
  }

  predicate Eights(lines: seq<Line>) {
    forall i :: 0 <= i < |lines| ==> |lines[i].header| == 8
  }

  function WriteLines(lines: seq<Line>): (r: seq<Byte>)
    requires Eights(lines)
    ensures |r| == 14 * |lines|
  {
    if lines == [] then [] else WriteLines(lines[..|lines| - 1]) + WriteLine(lines[|lines| - 1])
  }

  lemma WriteLast(lines: seq<Line>, l: Line)
    requires Eights(lines) && |l.header| == 8
    ensures WriteLines(lines + [l]) == WriteLines(lines) + WriteLine(l)
  {
    hide WriteLine;
    assert (lines + [l])[..|lines|] == lines;
  }

  lemma {:induction false} WriteFirst(l: Line, rest: seq<Line>)
    requires |l.header| == 8 && Eights(rest)
    ensures WriteLines([l] + rest) == WriteLine(l) + WriteLines(rest)
    decreases |rest|
  {
    if rest == [] {
      assert [l] + rest == [l] && [l][..0] == [];
    } else {
      hide WriteLine, WriteLines;
      var (front, last) := (rest[..|rest| - 1], rest[|rest| - 1]);
      SplitLast([l], rest);
      WriteFirst(l, front);
      WriteLast([l] + front, last);
      WriteLast(front, last);
      Regroup(WriteLine(l), WriteLines(front), WriteLine(last));
    }
  }

  lemma ReadLineBack(l: Line, rest: seq<Byte>)
    requires |l.header| == 8
    ensures var s := WriteLine(l) + rest;
            s[0..8] == l.header && From32(s[8..12]) == l.length && From16(s[12..14]) == l.id && s[14..] == rest
  {
    var s := WriteLine(l) + rest;
    assert s[0..8] == l.header && s[8..12] == Le32(l.length) && s[12..14] == Le16(l.id);
    hide Le32, Le16, From32, From16;
    RoundTrip32(l.length);
    RoundTrip16(l.id);
  }

  lemma {:induction false} LinesRoundTrip(lines: seq<Line>)
    requires Eights(lines)
    ensures ReadLines(WriteLines(lines), |lines|) == Some(lines)
    decreases |lines|
  {
    hide WriteLine, From32, From16;
    if lines != [] {
      assert lines == [lines[0]] + lines[1..];
      WriteFirst(lines[0], lines[1..]);
      ReadLineBack(lines[0], WriteLines(lines[1..]));
      LinesRoundTrip(lines[1..]);
    }
  }

  function DirectoryStart(count: U16): (r: seq<Byte>)
    ensures |r| == 6
  {
    Le16(0) + Le16(1) + Le16(count)
  }

  lemma StartReads(count: U16, rest: seq<Byte>)
    ensures var s := DirectoryStart(count) + rest;
            From16(s[0..2]) == 0 && From16(s[2..4]) == 1 && From16(s[4..6]) == count && s[6..] == rest
  {
    var s := DirectoryStart(count) + rest;
    assert s[0..2] == Le16(0) && s[2..4] == Le16(1) && s[4..6] == Le16(count);
    hide Le16, From16, DirectoryStart;
    RoundTrip16(0);
    RoundTrip16(1);
    RoundTrip16(count);
  }

  lemma DirectoryRoundTrip(lines: seq<Line>)
    requires |lines| <= 0xFFFF && Eights(lines)
    ensures ReadDirectory(DirectoryStart(|lines|) + WriteLines(lines)) == Some(Directory(0, 1, lines))
  {
    hide WriteLines, ReadLines, Eights, From16, DirectoryStart;
    LinesRoundTrip(lines);
    StartReads(|lines|, WriteLines(lines));
  }

  // ---------------------------------------------------------------- what must come out

  function IconEntry(ico: seq<Byte>, i: nat): Entry
    requires ImagePresent(ico, i) && i < 0xFFFF
  {
    Entry(RT_ICON, i + 1, ICON_FLAGS, Image(ico, i))
  }

  function IconLine(ico: seq<Byte>, i: nat): (l: Line)
    requires ImagePresent(ico, i) && i < 0xFFFF
    ensures |l.header| == 8
  {
    Line(ico[EntryStart(i)..EntryStart(i) + 8], ImageLength(ico, i), i + 1)
  }

  function IconEntries(ico: seq<Byte>, n: nat): (r: seq<Entry>)
    requires ImagesPresent(ico, n) && n <= 0xFFFF
    ensures |r| == n
  {
    seq(n, i requires 0 <= i < n => IconEntry(ico, i))
  }

  function IconLines(ico: seq<Byte>, n: nat): (r: seq<Line>)
    requires ImagesPresent(ico, n) && n <= 0xFFFF
    ensures |r| == n && Eights(r)
  {
    seq(n, i requires 0 <= i < n => IconLine(ico, i))
  }

  function EmptyEntry(): Entry {
    Entry(0, 0, 0, [])
  }

  /** The entries are the empty one, every image in order under ids 1..count,
      and a directory that lists exactly those headers, lengths and ids. */
  ghost predicate Describes(ico: seq<Byte>, entries: seq<Entry>)
    requires ValidIcon(ico)
  {
    var n := Count(ico);
    && |entries| == n + 2
    && entries[0] == EmptyEntry()
    && (forall i :: 0 <= i < n ==> entries[i + 1] == IconEntry(ico, i))
    && entries[n + 1].kind == RT_GROUP_ICON && entries[n + 1].name == 1 && entries[n + 1].flags == GROUP_FLAGS
    && ReadDirectory(entries[n + 1].data) == Some(Directory(0, 1, IconLines(ico, n)))
  }

  function GroupData(ico: seq<Byte>, n: nat): (r: seq<Byte>)
    requires |ico| >= 6 && ImagesPresent(ico, n) && n <= 0xFFFF
    ensures |r| == 6 + 14 * n
  {
    DirectoryStart(Count(ico)) + WriteLines(IconLines(ico, n))
  }

  function Written(ico: seq<Byte>, n: nat): seq<Byte>
    requires ImagesPresent(ico, n) && n <= 0xFFFF
  {
    EncodeAll([EmptyEntry()] + IconEntries(ico, n))
  }

  lemma PresentMore(ico: seq<Byte>, n: nat)
    requires ImagesPresent(ico, n) && ImagePresent(ico, n)
    ensures ImagesPresent(ico, n + 1)
  {
    hide ImagePresent;
  }

  lemma WrittenStep(ico: seq<Byte>, n: nat)
    requires ImagesPresent(ico, n + 1) && n < 0xFFFF && ImagesPresent(ico, n)
    ensures Written(ico, n + 1) == Written(ico, n) + EncodeEntry(IconEntry(ico, n))
  {
    hide EncodeEntry, EncodeAll, ImagePresent, IconEntry;
    assert IconEntries(ico, n + 1) == IconEntries(ico, n) + [IconEntry(ico, n)];
    EncodeLast([EmptyEntry()] + IconEntries(ico, n), IconEntry(ico, n));
    assert [EmptyEntry()] + IconEntries(ico, n) + [IconEntry(ico, n)] == [EmptyEntry()] + IconEntries(ico, n + 1);
  }

  lemma GroupStep(ico: seq<Byte>, n: nat)
    requires |ico| >= 6 && ImagesPresent(ico, n + 1) && n < 0xFFFF && ImagesPresent(ico, n)
    ensures GroupData(ico, n + 1) == GroupData(ico, n) + WriteLine(IconLine(ico, n))
  {
    hide WriteLine, ImagePresent, IconLine, DirectoryStart;
    assert IconLines(ico, n + 1) == IconLines(ico, n) + [IconLine(ico, n)];
    WriteLast(IconLines(ico, n), IconLine(ico, n));
    Regroup(DirectoryStart(Count(ico)), WriteLines(IconLines(ico, n)), WriteLine(IconLine(ico, n)));
  }

  lemma NothingWritten(ico: seq<Byte>)
    requires |ico| >= 6
    ensures ImagesPresent(ico, 0) && Written(ico, 0) == EncodeEntry(EmptyEntry()) && GroupData(ico, 0) == DirectoryStart(Count(ico))
  {
    hide EncodeEntry, DirectoryStart;
    assert [EmptyEntry()] + IconEntries(ico, 0) == [EmptyEntry()];
    assert [EmptyEntry()][..0] == [];
    assert EncodeAll([EmptyEntry()]) == EncodeEntry(EmptyEntry());
  }

  ghost function AllEntries(ico: seq<Byte>): seq<Entry>
    requires ValidIcon(ico)
  {
    [EmptyEntry()] + IconEntries(ico, Count(ico)) + [Entry(RT_GROUP_ICON, 1, GROUP_FLAGS, GroupData(ico, Count(ico)))]
  }

  /** What was written decodes, entry by entry, to what it must describe; no
      size saturates. */
  lemma OutputDescribes(ico: seq<Byte>)
    requires ValidIcon(ico)
    ensures DecodeAll(EncodeAll(AllEntries(ico))) == Some(AllEntries(ico)) && Sized(AllEntries(ico)) && Describes(ico, AllEntries(ico))
    ensures |EncodeAll(AllEntries(ico))| % 4 == 0
  {
    hide EncodeAll, DecodeAll, ImagePresent, GroupData, ReadDirectory;
    var (n, entries) := (Count(ico), AllEntries(ico));
    GroupSized(ico);
    forall i | 0 <= i < |entries|
      ensures |entries[i].data| <= MAX_U32
    {
      if 0 < i <= n {
        assert entries[i] == IconEntry(ico, i - 1);
      }
    }
    FileRoundTrip(entries);
    EncodeAligned(entries);
    GroupReads(ico);
  }

  lemma GroupSized(ico: seq<Byte>)
    requires ValidIcon(ico)
    ensures |GroupData(ico, Count(ico))| <= MAX_U32
  {
    hide DirectoryStart, WriteLines;
  }

  lemma GroupReads(ico: seq<Byte>)
    requires ValidIcon(ico)
    ensures ReadDirectory(GroupData(ico, Count(ico))) == Some(Directory(0, 1, IconLines(ico, Count(ico))))
  {
    hide DirectoryStart, WriteLines, ReadDirectory, ImagePresent;
    DirectoryRoundTrip(IconLines(ico, Count(ico)));
  }

  /** What a refusal says about the file. */
  ghost predicate Refused(ico: seq<Byte>, e: Error) {
    match e
    case Truncated => |ico| < 6 || exists i: nat :: i < Count(ico) && EntryStart(i) + 16 > |ico|
    case NotAnIcon => |ico| >= 2 && (From16(ico[0..2]) != 0 || (|ico| >= 4 && From16(ico[2..4]) != 1))
    case NoImages => |ico| >= 6 && Count(ico) == 0
    case ImageOutside => |ico| >= 6 && exists i: nat :: i < Count(ico) && EntryStart(i) + 16 <= |ico| && !ImagePresent(ico, i)
  }

  // ---------------------------------------------------------------- the writer

  /** One image: its entry appended to the output, its line to the group. */
  method PushImage(ico: seq<Byte>, index: U16, out: seq<Byte>, group: seq<Byte>) returns (r: Result<(seq<Byte>, seq<Byte>), Error>)
    requires index < 0xFFFF && |out| % 4 == 0
    ensures r.Ok? <==> ImagePresent(ico, index)
    ensures r.Ok? ==> r.value.0 == out + EncodeEntry(IconEntry(ico, index)) && |r.value.0| % 4 == 0
    ensures r.Ok? ==> r.value.1 == group + WriteLine(IconLine(ico, index))
    ensures r.Err? ==> r.error == if EntryStart(index) + 16 > |ico| then Truncated else ImageOutside
  {
    hide EncodeEntry, From32, Le32, Le16;
    var entry := 6 + 16 * index;
    if entry + 8 > |ico| {
      return Err(Truncated);
    }
    var header := ico[entry..entry + 8];
    var length := U32At(ico, entry + 8);
    if length.Err? {
      return Err(Truncated);
    }
    var offset := U32At(ico, entry + 12);
    if offset.Err? {
      return Err(Truncated);
    }
    if offset.value + length.value > |ico| {
      return Err(ImageOutside);
    }
    var image := ico[offset.value..offset.value + length.value];
    var id := index + 1;
    var out' := PushResource(out, RT_ICON, id, ICON_FLAGS, image);
    var group' := group + header + Le32(length.value) + Le16(id);
    assert group' == group + WriteLine(Line(header, length.value, id));
    r := Ok((out', group'));
  }

  /** Succeeds exactly on valid icon files; the result decodes to the icons and
      their directory. */
  method IconResources(ico: seq<Byte>) returns (r: Result<seq<Byte>, Error>)
    ensures r.Ok? <==> ValidIcon(ico)
    ensures r.Ok? ==> DecodeAll(r.value) == Some(AllEntries(ico)) && Describes(ico, AllEntries(ico)) && Sized(AllEntries(ico))
    ensures r.Ok? ==> |r.value| % 4 == 0
    ensures r.Err? ==> Refused(ico, r.error)
  {
    hide EncodeEntry, EncodeAll, DecodeAll, ImagePresent, WriteLine, IconEntry, IconLine, Describes, Sized;
    hide From16, Le16, Written, GroupData, DirectoryStart, AllEntries, ImagesPresent;
    var reserved := U16At(ico, 0);
    if reserved.Err? {
      return Err(Truncated);
    }
    if reserved.value != 0 {
      return Err(NotAnIcon);
    }
    var kind := U16At(ico, 2);
    if kind.Err? {
      return Err(Truncated);
    }
    if kind.value != 1 {
      return Err(NotAnIcon);
    }
    var counted := U16At(ico, 4);
    if counted.Err? {
      return Err(Truncated);
    }
    var count := counted.value;
    if count == 0 {
      return Err(NoImages);
    }
    var out := PushResource([], 0, 0, 0, []);
    assert out == EncodeEntry(EmptyEntry());
    var group := StartGroup(count);
    NothingWritten(ico);
    for index := 0 to count
      invariant ImagesPresent(ico, index) && |out| % 4 == 0
      invariant out == Written(ico, index) && group == GroupData(ico, index)
    {
      var pushed := PushImage(ico, index, out, group);
      if pushed.Err? {
        Absent(ico, index, count);
        assert index < Count(ico);
        return Err(pushed.error);
      }
      PresentMore(ico, index);
      WrittenStep(ico, index);
      GroupStep(ico, index);
      out, group := pushed.value.0, pushed.value.1;
    }
    out := PushResource(out, RT_GROUP_ICON, 1, GROUP_FLAGS, group);
    LastWritten(ico);
    OutputDescribes(ico);
    r := Ok(out);
  }

  method StartGroup(count: U16) returns (group: seq<Byte>)
    ensures group == DirectoryStart(count)
  {
    group := Le16(0);
    group := group + Le16(1);
    group := group + Le16(count);
  }

  lemma Absent(ico: seq<Byte>, i: nat, n: nat)
    requires i < n && !ImagePresent(ico, i)
    ensures !ImagesPresent(ico, n)
  {
    hide ImagePresent;
  }

  lemma LastWritten(ico: seq<Byte>)
    requires ValidIcon(ico)
    ensures EncodeAll(AllEntries(ico))
         == Written(ico, Count(ico)) + EncodeEntry(Entry(RT_GROUP_ICON, 1, GROUP_FLAGS, GroupData(ico, Count(ico))))
  {
    hide EncodeEntry, EncodeAll, GroupData, ImagePresent;
    EncodeLast([EmptyEntry()] + IconEntries(ico, Count(ico)), Entry(RT_GROUP_ICON, 1, GROUP_FLAGS, GroupData(ico, Count(ico))));
  }
}
