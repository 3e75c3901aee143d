/** Compiled resource files: entries with a 32-byte header, data, and padding
    to four bytes. */
module ResourceFile {
  import opened Results
  import opened Bytes

  const MAX_U32: nat := 0xFFFF_FFFF

  type U16 = n: nat | n <= 0xFFFF

  type U32 = n: nat | n <= MAX_U32

  const LANG_EN_US: U16 := 0x0409

  // ---------------------------------------------------------------- little-endian numbers

  function Le16(n: U16): (r: seq<Byte>)
    ensures |r| == 2
  {
    [n % 256, n / 256]
  }

  function Le32(n: U32): (r: seq<Byte>)
    ensures |r| == 4
  {
    [n % 256, n / 256 % 256, n / 0x1_0000 % 256, n / 0x100_0000]
  }

  function From16(s: seq<Byte>): U16
    requires |s| == 2
  {
    s[0] as int + 256 * (s[1] as int)
  }

  function From32(s: seq<Byte>): U32
    requires |s| == 4
  {
    s[0] as int + 256 * (s[1] as int) + 0x1_0000 * (s[2] as int) + 0x100_0000 * (s[3] as int)
  }

  lemma RoundTrip16(n: U16)
    ensures From16(Le16(n)) == n
  {
  }

  lemma RoundTrip32(n: U32)
    ensures From32(Le32(n)) == n
  {
    var (m, l) := (n / 256, n / 0x1_0000);
    assert n == 256 * m + n % 256;
    assert m == 256 * l + m % 256;
    assert l == 256 * (n / 0x100_0000) + l % 256;
  }

  // ---------------------------------------------------------------- entries

  datatype Entry = Entry(kind: U16, name: U16, flags: U16, data: seq<Byte>)

  function Saturate32(n: nat): U32 {
    if n <= MAX_U32 then n else MAX_U32
  }

  function Zeros(n: nat): (r: seq<Byte>)
    ensures |r| == n
  {
    seq(n, _ => 0)
  }

  /** How many bytes bring a length to a multiple of four. */
  function Padding(length: nat): (n: nat)
    ensures n < 4 && (length + n) % 4 == 0
  {
    (4 - length % 4) % 4
  }

  function SizePart(size: U32): (r: seq<Byte>)
    ensures |r| == 8
  {
    Le32(size) + Le32(32)
  }

  function NamePart(kind: U16, name: U16): (r: seq<Byte>)
    ensures |r| == 8
  {
    Le16(0xFFFF) + Le16(kind) + Le16(0xFFFF) + Le16(name)
  }

  function FlagsPart(flags: U16): (r: seq<Byte>)
    ensures |r| == 16
  {
    Le32(0) + Le16(flags) + Le16(LANG_EN_US) + Le32(0) + Le32(0)
  }

  function Header(e: Entry): (r: seq<Byte>)
    ensures |r| == 32
  {
    SizePart(Saturate32(|e.data|)) + NamePart(e.kind, e.name) + FlagsPart(e.flags)
  }

  function EncodeEntry(e: Entry): (r: seq<Byte>)
    ensures |r| == 32 + |e.data| + Padding(|e.data|)
  {
    Header(e) + e.data + Zeros(Padding(|e.data|))
  }

  function EncodeAll(entries: seq<Entry>): seq<Byte>
  {
    if entries == [] then [] else EncodeAll(entries[..|entries| - 1]) + EncodeEntry(entries[|entries| - 1])
  }

  lemma WholeWords(a: nat, b: nat)
    requires a % 4 == 0 && b % 4 == 0
    ensures (a + b) % 4 == 0
  {
  }

  /** Every entry starts and ends on a four-byte boundary. */
  lemma {:induction false} EncodeAligned(entries: seq<Entry>)
    ensures |EncodeAll(entries)| % 4 == 0
    decreases |entries|
  {
    hide EncodeEntry, Padding;
    if entries != [] {
      var n := |entries| - 1;
      EncodeAligned(entries[..n]);
      EntryAligned(entries[n]);
      WholeWords(|EncodeAll(entries[..n])|, |EncodeEntry(entries[n])|);
    }
  }

  lemma EntryAligned(e: Entry)
    ensures |EncodeEntry(e)| % 4 == 0
  {
    hide Padding, Header;
    WholeWords(32, |e.data| + Padding(|e.data|));
  }

  lemma Regroup(a: seq<Byte>, b: seq<Byte>, c: seq<Byte>)
    ensures a + b + c == a + (b + c)
  {
  }

  method PushNames(out: seq<Byte>, kind: U16, name: U16) returns (r: seq<Byte>)
    ensures r == out + NamePart(kind, name)
  {
    hide Le16;
    r := out + Le16(0xFFFF) + Le16(kind);
    Regroup(out, Le16(0xFFFF), Le16(kind));
    var first := Le16(0xFFFF) + Le16(kind);
    var second := Le16(0xFFFF) + Le16(name);
    r := r + Le16(0xFFFF) + Le16(name);
    Regroup(out + first, Le16(0xFFFF), Le16(name));
    Regroup(out, first, second);
    Regroup(first, Le16(0xFFFF), Le16(name));
  }

  method PushFlags(out: seq<Byte>, flags: U16) returns (r: seq<Byte>)
    ensures r == out + FlagsPart(flags)
  {
    hide Le16, Le32;
    r := out + Le32(0);
    var part := Le32(0);
    r := r + Le16(flags);
    Regroup(out, part, Le16(flags));
    part := part + Le16(flags);
    r := r + Le16(LANG_EN_US);
    Regroup(out, part, Le16(LANG_EN_US));
    part := part + Le16(LANG_EN_US);
    r := r + Le32(0);
    Regroup(out, part, Le32(0));
    part := part + Le32(0);
    r := r + Le32(0);
    Regroup(out, part, Le32(0));
  }

  /** Appends one entry; the output grows by whole words. */
  method PushResource(out: seq<Byte>, kind: U16, name: U16, flags: U16, data: seq<Byte>) returns (r: seq<Byte>)
    requires |out| % 4 == 0
    ensures r == out + EncodeEntry(Entry(kind, name, flags, data)) && |r| % 4 == 0
  {
    hide Le32, NamePart, FlagsPart, Zeros, Padding;
    var size := Saturate32(|data|);
    r := out + Le32(size) + Le32(32);
    Regroup(out, Le32(size), Le32(32));
    r := PushNames(r, kind, name);
    Regroup(out, SizePart(size), NamePart(kind, name));
    r := PushFlags(r, flags);
    Regroup(out, SizePart(size) + NamePart(kind, name), FlagsPart(flags));
    ghost var header := Header(Entry(kind, name, flags, data));
    assert r == out + header;
    hide Header, SizePart, Le32;
    r := r + data;
    Regroup(out, header, data);
    SamePadding(|out|, |data|, |r|);
    Regroup(out, header + data, Zeros(Padding(|r|)));
    r := r + Zeros(Padding(|r|));
  }

  lemma SamePadding(out: nat, data: nat, total: nat)
    requires out % 4 == 0 && total == out + 32 + data
    ensures Padding(total) == Padding(data)
  {
  }

  // ---------------------------------------------------------------- decoding

  predicate HeaderRead(s: seq<Byte>, e: Entry, size: U32)
    requires |s| >= 32
  {
    && From32(s[0..4]) == size && From32(s[4..8]) == 32
    && From16(s[8..10]) == 0xFFFF && From16(s[10..12]) == e.kind
    && From16(s[12..14]) == 0xFFFF && From16(s[14..16]) == e.name
    && From32(s[16..20]) == 0 && From16(s[20..22]) == e.flags && From16(s[22..24]) == LANG_EN_US
    && From32(s[24..28]) == 0 && From32(s[28..32]) == 0
  }

  /** The first entry and how many bytes it takes. */
  function DecodeEntry(s: seq<Byte>): Option<(Entry, nat)> {
    if |s| < 32 then None
    else
      var size := From32(s[0..4]);
      var length := 32 + size + Padding(size);
      if length > |s| then None
      else
        var e := Entry(From16(s[10..12]), From16(s[14..16]), From16(s[20..22]), s[32..32 + size]);
        if HeaderRead(s, e, size) && s[32 + size..length] == Zeros(Padding(size)) then Some((e, length)) else None
  }

  /** Entry by entry to the end; nothing may be left over. */
  function DecodeAll(s: seq<Byte>): Option<seq<Entry>>
    decreases |s|
  {
    if s == [] then Some([])
    else
      var first := DecodeEntry(s);
      if first.None? then None
      else
        var rest := DecodeAll(s[first.value.1..]);
        if rest.None? then None else Some([first.value.0] + rest.value)
  }

  lemma HeaderReads(e: Entry, rest: seq<Byte>)
    requires |e.data| <= MAX_U32
    ensures HeaderRead(Header(e) + rest, e, |e.data|)
  {
    var (size, name, flags, s) := (SizePart(|e.data|), NamePart(e.kind, e.name), FlagsPart(e.flags), Header(e) + rest);
    assert s[0..4] == size[0..4] == Le32(|e.data|) && s[4..8] == size[4..8] == Le32(32);
    assert s[8..10] == name[0..2] == Le16(0xFFFF) && s[10..12] == name[2..4] == Le16(e.kind);
    assert s[12..14] == name[4..6] == Le16(0xFFFF) && s[14..16] == name[6..8] == Le16(e.name);
    assert s[16..20] == flags[0..4] == Le32(0) && s[20..22] == flags[4..6] == Le16(e.flags);
    assert s[22..24] == flags[6..8] == Le16(LANG_EN_US) && s[24..28] == flags[8..12] == Le32(0) && s[28..32] == flags[12..16] == Le32(0);
    hide Le16, Le32, From16, From32, SizePart, NamePart, FlagsPart;
    RoundTrip32(|e.data|);
    RoundTrip32(32);
    RoundTrip32(0);
    RoundTrip16(0xFFFF);
    RoundTrip16(e.kind);
    RoundTrip16(e.name);
    RoundTrip16(e.flags);
    RoundTrip16(LANG_EN_US);
  }

  lemma EntryRoundTrip(e: Entry, rest: seq<Byte>)
    requires |e.data| <= MAX_U32
    ensures DecodeEntry(EncodeEntry(e) + rest) == Some((e, |EncodeEntry(e)|))
  {
    hide Header, From16, From32;
    var (size, s) := (|e.data|, EncodeEntry(e) + rest);
    assert s == Header(e) + (e.data + Zeros(Padding(size)) + rest);
    HeaderReads(e, e.data + Zeros(Padding(size)) + rest);
    assert s[32..32 + size] == e.data;
    assert s[32 + size..32 + size + Padding(size)] == Zeros(Padding(size));
  }

  /** No entry's size saturates. */
  ghost predicate Sized(entries: seq<Entry>) {
    forall i :: 0 <= i < |entries| ==> |entries[i].data| <= MAX_U32
  }

  lemma EncodeLast(entries: seq<Entry>, e: Entry)
    ensures EncodeAll(entries + [e]) == EncodeAll(entries) + EncodeEntry(e)
  {
    hide EncodeEntry;
    assert (entries + [e])[..|entries|] == entries;
  }

  lemma SplitLast<X>(a: seq<X>, b: seq<X>)
    requires b != []
    ensures b == b[..|b| - 1] + [b[|b| - 1]] && a + b == a + b[..|b| - 1] + [b[|b| - 1]]
  {
  }

  lemma {:induction false} EncodeAppend(a: seq<Entry>, b: seq<Entry>)
    ensures EncodeAll(a + b) == EncodeAll(a) + EncodeAll(b)
    decreases |b|
  {
    if b == [] {
      assert a + b == a && EncodeAll(b) == [];
    } else {
      hide EncodeEntry, EncodeAll;
      var (front, e) := (b[..|b| - 1], b[|b| - 1]);
      SplitLast(a, b);
      EncodeAppend(a, front);
      EncodeLast(a + front, e);
      EncodeLast(front, e);
      Regroup(EncodeAll(a), EncodeAll(front), EncodeEntry(e));
    }
  }

  /** Decoding what was written gives the entries back. */
  lemma {:induction false} FileRoundTrip(entries: seq<Entry>)
    requires Sized(entries)
    ensures DecodeAll(EncodeAll(entries)) == Some(entries)
    decreases |entries|
  {
    hide EncodeEntry, DecodeEntry;
    if entries != [] {
      var (e, rest) := (entries[0], entries[1..]);
      EncodeAppend([e], rest);
      assert entries == [e] + rest;
      assert EncodeAll([e]) == EncodeEntry(e);
      EntryRoundTrip(e, EncodeAll(rest));
      var s := EncodeEntry(e) + EncodeAll(rest);
      assert EncodeAll(entries) == s;
      assert s[|EncodeEntry(e)|..] == EncodeAll(rest);
      FileRoundTrip(rest);
      hide EncodeAll;
    }
  }
}
