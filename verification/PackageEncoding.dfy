/** The length-prefixed byte encodings that are signed and hashed. */
module PackageEncoding {
  import opened Bytes

  // ---------------------------------------------------------------- items

  /** One pushed value: a number, or a field with its length. */
  datatype Item = Number(value: U64) | Field(text: Text)

  function Saturate(n: nat): U64 {
    if n <= MAX_U64 then n else MAX_U64
  }

  function EncodeNumber(n: U64): (r: seq<Byte>)
    ensures |r| == 8
  {
    BigEndian(n, 8)
  }

  function EncodeItem(item: Item): seq<Byte> {
    match item
    case Number(n) => EncodeNumber(n)
    case Field(text) => EncodeNumber(Saturate(|text|)) + text
  }

  function Encode(items: seq<Item>): seq<Byte> {
    if items == [] then [] else Encode(items[..|items| - 1]) + EncodeItem(items[|items| - 1])
  }

  lemma NumberUnique(a: U64, b: U64)
    requires EncodeNumber(a) == EncodeNumber(b)
    ensures a == b
  {
    EightBytes();
    BigEndianRoundTrip(a, 8);
    BigEndianRoundTrip(b, 8);
  }

  /** An item followed by anything can be split off again. */
  lemma ItemUnique(a: Item, b: Item, x: seq<Byte>, y: seq<Byte>)
    requires a.Number? <==> b.Number?
    requires EncodeItem(a) + x == EncodeItem(b) + y
    ensures a == b && x == y
  {
    hide EncodeNumber;
    var (s, t) := (EncodeItem(a) + x, EncodeItem(b) + y);
    match a
    case Number(m) =>
      assert EncodeNumber(m) == s[..8] && EncodeNumber(b.value) == t[..8];
      NumberUnique(m, b.value);
      assert x == s[8..] && y == t[8..];
    case Field(p) =>
      assert EncodeNumber(|p|) == s[..8] && EncodeNumber(|b.text|) == t[..8];
      NumberUnique(|p|, |b.text|);
      assert p == s[8..8 + |p|] && b.text == t[8..8 + |p|];
      assert x == s[8 + |p|..] && y == t[8 + |p|..];
  }

  ghost predicate SameKinds(a: seq<Item>, b: seq<Item>) {
    |a| == |b| && forall i :: 0 <= i < |a| ==> (a[i].Number? <==> b[i].Number?)
  }

  lemma {:induction false} EncodeAppend(a: seq<Item>, b: seq<Item>)
    ensures Encode(a + b) == Encode(a) + Encode(b)
    decreases |b|
  {
    hide EncodeItem;
    if b == [] {
      assert a + b == a;
    } else {
      var n := |b| - 1;
      EncodeAppend(a, b[..n]);
      assert (a + b)[..|a| + n] == a + b[..n];
    }
  }

  lemma EncodeFirst(items: seq<Item>)
    requires items != []
    ensures Encode(items) == EncodeItem(items[0]) + Encode(items[1..])
  {
    EncodeAppend([items[0]], items[1..]);
    assert items == [items[0]] + items[1..];
    assert Encode([items[0]]) == EncodeItem(items[0]);
  }

  /** Lists of the same kinds, whatever follows them, are determined by their bytes. */
  lemma {:induction false} ItemsUnique(a: seq<Item>, b: seq<Item>, x: seq<Byte>, y: seq<Byte>)
    requires SameKinds(a, b) && Encode(a) + x == Encode(b) + y
    ensures a == b && x == y
    decreases |a|
  {
    hide EncodeItem;
    if a == [] {
      assert Encode(a) + x == x && Encode(b) + y == y;
    } else {
      EncodeFirst(a);
      EncodeFirst(b);
      hide Encode;
      assert Encode(a) + x == EncodeItem(a[0]) + (Encode(a[1..]) + x);
      assert Encode(b) + y == EncodeItem(b[0]) + (Encode(b[1..]) + y);
      ItemUnique(a[0], b[0], Encode(a[1..]) + x, Encode(b[1..]) + y);
      ItemsUnique(a[1..], b[1..], x, y);
      assert a == [a[0]] + a[1..] && b == [b[0]] + b[1..];
    }
  }

  // ---------------------------------------------------------------- names

  ghost predicate IsAscii(s: string) {
    |s| < 256 && forall i :: 0 <= i < |s| ==> s[i] as int < 128
  }

  /** The bytes of an ASCII literal. */
  function Ascii(s: string): (t: Text)
    requires IsAscii(s)
    ensures |t| == |s| && forall i :: 0 <= i < |s| ==> t[i] == s[i] as int
  {
    seq(|s|, i requires 0 <= i < |s| => s[i] as int)
  }

  datatype Runtime = WasmNoImports | NativeSandboxed

  function RuntimeName(r: Runtime): Text {
    match r
    case WasmNoImports => Ascii("wasm-no-imports.v1")
    case NativeSandboxed => Ascii("native-sandboxed.v1")
  }

  lemma RuntimeNamesDiffer(r: Runtime, q: Runtime)
    ensures RuntimeName(r) == RuntimeName(q) <==> r == q
  {
    assert |RuntimeName(WasmNoImports)| == 18 && |RuntimeName(NativeSandboxed)| == 19;
  }

  // ---------------------------------------------------------------- manifests

  datatype License = OpenSource | Paid(product: Text)

  type U32 = n: nat | n <= 0xFFFF_FFFF

  type Hosts = s: seq<Text> | |s| <= 0x7FFF_FFFF_FFFF_FFFF

  datatype Manifest = Manifest(
    package: Text, version: Text, release: U64, publisher: Text, contract: Text, contractVersion: U32,
    implementation: Text, implementationVersion: Text, descriptorSha: Text, artifactSha: Text,
    runtime: Runtime, hosts: Hosts, license: License)

  /** Everything up to and including the number of hosts. */
  function HeaderItems(m: Manifest): (r: seq<Item>)
    ensures |r| == 13
  {
    [Field(Ascii("ketchup.validator-package.v1")), Field(m.package), Field(m.version), Number(m.release), Field(m.publisher),
     Field(m.contract), Number(m.contractVersion), Field(m.implementation), Field(m.implementationVersion),
     Field(m.descriptorSha), Field(m.artifactSha), Field(RuntimeName(m.runtime)), Number(Saturate(|m.hosts|))]
  }

  function FieldItems(texts: seq<Text>): (r: seq<Item>)
    ensures |r| == |texts|
  {
    seq(|texts|, i requires 0 <= i < |texts| => Field(texts[i]))
  }

  function LicenseItems(l: License): seq<Item> {
    match l
    case OpenSource => [Field(Ascii("open-source"))]
    case Paid(product) => [Field(Ascii("paid")), Field(product)]
  }

  function ManifestItems(m: Manifest): seq<Item> {
    HeaderItems(m) + FieldItems(m.hosts) + LicenseItems(m.license)
  }

  lemma EncodeOne(bytes: seq<Byte>, items: seq<Item>, item: Item)
    requires bytes == Encode(items)
    ensures bytes + EncodeItem(item) == Encode(items + [item])
  {
    assert (items + [item])[..|items|] == items;
  }

  /** The buffer after pushing a list of items. */
  method PushAll(bytes: seq<Byte>, items: seq<Item>, ghost earlier: seq<Item>) returns (r: seq<Byte>)
    requires bytes == Encode(earlier)
    ensures r == Encode(earlier + items)
  {
    hide Encode, EncodeItem;
    r := bytes;
    assert earlier + items[..0] == earlier;
    for i := 0 to |items|
      invariant r == Encode(earlier + items[..i])
    {
      EncodeOne(r, earlier + items[..i], items[i]);
      assert earlier + items[..i] + [items[i]] == earlier + items[..i + 1];
      r := r + EncodeItem(items[i]);
    }
    assert items[..|items|] == items;
  }

  /** The bytes a publisher signs. */
  method SigningPayload(m: Manifest) returns (bytes: seq<Byte>)
    ensures bytes == Encode(ManifestItems(m))
  {
    hide EncodeItem, HeaderItems, FieldItems, LicenseItems;
    bytes := [];
    bytes := PushAll(bytes, HeaderItems(m), []);
    assert [] + HeaderItems(m) == HeaderItems(m);
    bytes := PushAll(bytes, FieldItems(m.hosts), HeaderItems(m));
    bytes := PushAll(bytes, LicenseItems(m.license), HeaderItems(m) + FieldItems(m.hosts));
  }

  lemma FieldsUnique(a: seq<Text>, b: seq<Text>)
    requires FieldItems(a) == FieldItems(b)
    ensures a == b
  {
    assert |FieldItems(a)| == |FieldItems(b)|;
    forall i | 0 <= i < |a|
      ensures a[i] == b[i]
    {
      assert FieldItems(a)[i] == FieldItems(b)[i];
    }
  }

  lemma LicenseUnique(l: License, k: License)
    requires Encode(LicenseItems(l)) == Encode(LicenseItems(k))
    ensures l == k
  {
    hide Encode, EncodeItem;
    var (a, b) := (LicenseItems(l), LicenseItems(k));
    EncodeFirst(a);
    EncodeFirst(b);
    ItemUnique(a[0], b[0], Encode(a[1..]), Encode(b[1..]));
    assert |Ascii("open-source")| == 11 && |Ascii("paid")| == 4;
    assert SameKinds(a, b);
    assert Encode(a) + [] == Encode(b) + [];
    ItemsUnique(a, b, [], []);
  }

  lemma HeaderUnique(m: Manifest, n: Manifest)
    requires HeaderItems(m) == HeaderItems(n)
    ensures m.(hosts := n.hosts, license := n.license) == n && |m.hosts| == |n.hosts|
  {
    var (a, b) := (HeaderItems(m), HeaderItems(n));
    assert a[1] == b[1] && a[2] == b[2] && a[3] == b[3] && a[4] == b[4] && a[5] == b[5] && a[6] == b[6];
    assert a[7] == b[7] && a[8] == b[8] && a[9] == b[9] && a[10] == b[10] && a[11] == b[11] && a[12] == b[12];
    RuntimeNamesDiffer(m.runtime, n.runtime);
    hide RuntimeName, HeaderItems;
  }

  lemma ThreeParts(a: seq<Item>, b: seq<Item>, c: seq<Item>)
    ensures Encode(a + b + c) == Encode(a) + (Encode(b) + Encode(c))
  {
    EncodeAppend(a + b, c);
    EncodeAppend(a, b);
    hide Encode;
  }

  lemma HeaderKinds(m: Manifest, n: Manifest)
    ensures SameKinds(HeaderItems(m), HeaderItems(n))
  {
  }

  lemma FieldKinds(a: seq<Text>, b: seq<Text>)
    requires |a| == |b|
    ensures SameKinds(FieldItems(a), FieldItems(b))
  {
  }

  lemma PayloadParts(m: Manifest)
    ensures Encode(ManifestItems(m)) == Encode(HeaderItems(m)) + (Encode(FieldItems(m.hosts)) + Encode(LicenseItems(m.license)))
  {
    ThreeParts(HeaderItems(m), FieldItems(m.hosts), LicenseItems(m.license));
  }

  lemma PayloadUnique(m: Manifest, n: Manifest)
    requires Encode(ManifestItems(m)) == Encode(ManifestItems(n))
    ensures m == n
  {
    hide Encode, HeaderItems, FieldItems, LicenseItems, ManifestItems, SameKinds;
    PayloadParts(m);
    PayloadParts(n);
    HeaderKinds(m, n);
    var (h, k) := (FieldItems(m.hosts), FieldItems(n.hosts));
    var (l, o) := (Encode(LicenseItems(m.license)), Encode(LicenseItems(n.license)));
    ItemsUnique(HeaderItems(m), HeaderItems(n), Encode(h) + l, Encode(k) + o);
    HeaderUnique(m, n);
    FieldKinds(m.hosts, n.hosts);
    ItemsUnique(h, k, l, o);
    FieldsUnique(m.hosts, n.hosts);
    LicenseUnique(m.license, n.license);
  }

  /** Different manifests have different payloads. */
  lemma PayloadInjective(m: Manifest, n: Manifest)
    ensures Encode(ManifestItems(m)) == Encode(ManifestItems(n)) <==> m == n
  {
    if Encode(ManifestItems(m)) == Encode(ManifestItems(n)) {
      PayloadUnique(m, n);
    }
  }
}
