/** The bytes hashed for a validator descriptor. */
module DescriptorEncoding {
  import opened Bytes
  import opened PackageEncoding

  // ---------------------------------------------------------------- sorting names

  /** Lexicographic order of byte strings. */
  predicate Less(a: seq<Byte>, b: seq<Byte>) {
    if b == [] then false
    else if a == [] then true
    else a[0] < b[0] || (a[0] == b[0] && Less(a[1..], b[1..]))
  }

  lemma {:induction false} LessTotal(a: seq<Byte>, b: seq<Byte>)
    ensures Less(a, b) || a == b || Less(b, a)
    decreases |a|
  {
    if a != [] && b != [] {
      LessTotal(a[1..], b[1..]);
      assert a == [a[0]] + a[1..] && b == [b[0]] + b[1..];
    }
  }

  lemma {:induction false} LessTransitive(a: seq<Byte>, b: seq<Byte>, c: seq<Byte>)
    requires Less(a, b) && Less(b, c)
    ensures Less(a, c)
    decreases |a|
  {
    if a != [] && a[0] == b[0] == c[0] {
      LessTransitive(a[1..], b[1..], c[1..]);
    }
  }

  lemma {:induction false} LessIrreflexive(a: seq<Byte>)
    ensures !Less(a, a)
  {
    if a != [] {
      LessIrreflexive(a[1..]);
    }
  }

  ghost predicate StrictlySorted(s: seq<Text>) {
    forall i, j :: 0 <= i < j < |s| ==> Less(s[i], s[j])
  }

  /** Inserts a name in order, unless it is there already. */
  function InsertName(x: Text, s: seq<Text>): (r: seq<Text>)
    ensures forall y :: y in r <==> y == x || y in s
    ensures |s| <= |r| <= |s| + 1
  {
    if s == [] then [x]
    else if s[0] == x then s
    else if Less(x, s[0]) then [x] + s
    else
      assert s == [s[0]] + s[1..];
      [s[0]] + InsertName(x, s[1..])
  }

  /** Sorted, each name once. */
  function SortNames(s: seq<Text>): (r: seq<Text>)
    ensures forall y :: y in r <==> y in s
    ensures |r| <= |s|
  {
    if s == [] then []
    else
      assert s == [s[0]] + s[1..];
      InsertName(s[0], SortNames(s[1..]))
  }

  lemma {:induction false} InsertSorted(x: Text, s: seq<Text>)
    requires StrictlySorted(s)
    ensures StrictlySorted(InsertName(x, s))
    decreases |s|
  {
    hide Less;
    if s != [] && s[0] != x {
      var r := InsertName(x, s);
      if Less(x, s[0]) {
        forall j | 0 < j < |r|
          ensures Less(r[0], r[j])
        {
          if j > 1 {
            LessTransitive(x, s[0], s[j - 1]);
          }
        }
      } else {
        LessTotal(x, s[0]);
        var rest := InsertName(x, s[1..]);
        InsertSorted(x, s[1..]);
        forall j | 0 <= j < |rest|
          ensures Less(s[0], rest[j])
        {
          assert rest[j] in rest;
        }
      }
    }
  }

  lemma {:induction false} SortSorted(s: seq<Text>)
    ensures StrictlySorted(SortNames(s))
    decreases |s|
  {
    if s != [] {
      SortSorted(s[1..]);
      InsertSorted(s[0], SortNames(s[1..]));
    }
  }

  lemma SortedHead(a: seq<Text>, b: seq<Text>)
    requires StrictlySorted(a) && StrictlySorted(b) && a != [] && b != []
    requires forall y :: y in a <==> y in b
    ensures a[0] == b[0]
    ensures forall y :: y in a[1..] <==> y in b[1..]
  {
    hide Less;
    assert a[0] in b && b[0] in a;
    var i :| 0 <= i < |b| && b[i] == a[0];
    var j :| 0 <= j < |a| && a[j] == b[0];
    if i > 0 && j > 0 {
      LessTransitive(a[0], b[0], a[0]);
    }
    LessIrreflexive(a[0]);
    forall y
      ensures y in a[1..] <==> y in a && y != a[0]
      ensures y in b[1..] <==> y in b && y != b[0]
    {
      TailMembers(a, y);
      TailMembers(b, y);
    }
  }

  lemma TailMembers(a: seq<Text>, y: Text)
    requires StrictlySorted(a) && a != []
    ensures y in a[1..] <==> y in a && y != a[0]
  {
    hide Less;
    LessIrreflexive(a[0]);
    if y in a[1..] {
      var k :| 0 <= k < |a| - 1 && a[1..][k] == y;
      assert Less(a[0], a[k + 1]);
    }
    if y in a && y != a[0] {
      var k :| 0 <= k < |a| && a[k] == y;
      assert a[1..][k - 1] == y;
    }
  }

  /** A strictly sorted list is determined by its members. */
  lemma {:induction false} SortedUnique(a: seq<Text>, b: seq<Text>)
    requires StrictlySorted(a) && StrictlySorted(b) && forall y :: y in a <==> y in b
    ensures a == b
    decreases |a|
  {
    assert b != [] ==> b[0] in b;
    if a != [] {
      assert a[0] in b;
      SortedHead(a, b);
      SortedUnique(a[1..], b[1..]);
      assert a == [a[0]] + a[1..] && b == [b[0]] + b[1..];
    }
  }

  /** Sorting without repeats forgets exactly order and repetition. */
  lemma SortForgets(a: seq<Text>, b: seq<Text>)
    ensures SortNames(a) == SortNames(b) <==> forall y :: y in a <==> y in b
  {
    SortSorted(a);
    SortSorted(b);
    if forall y :: y in a <==> y in b {
      SortedUnique(SortNames(a), SortNames(b));
    }
    hide SortNames;
    if SortNames(a) == SortNames(b) {
      assert forall y :: y in a <==> y in SortNames(a);
    }
  }

  // ---------------------------------------------------------------- descriptors

  datatype ValidationClass = CanonicalInvariant | Collision | DeclaredJoint | StructuralBestEffort | Manufacturability | Advisory

  datatype ReadScope = CanonicalGraph | DerivedGeometry | DeclaredJoints | Materials

  function ClassName(c: ValidationClass): Text {
    match c
    case CanonicalInvariant => Ascii("canonical-invariant")
    case Collision => Ascii("collision")
    case DeclaredJoint => Ascii("declared-joint")
    case StructuralBestEffort => Ascii("structural-best-effort")
    case Manufacturability => Ascii("manufacturability")
    case Advisory => Ascii("advisory")
  }

  function ScopeName(s: ReadScope): Text {
    match s
    case CanonicalGraph => Ascii("canonical-graph")
    case DerivedGeometry => Ascii("derived-geometry")
    case DeclaredJoints => Ascii("declared-joints")
    case Materials => Ascii("materials")
  }

  /** Every class name has its own length. */
  function ClassLength(c: ValidationClass): nat {
    match c
    case CanonicalInvariant => 19
    case Collision => 9
    case DeclaredJoint => 14
    case StructuralBestEffort => 22
    case Manufacturability => 17
    case Advisory => 8
  }

  lemma ClassNamesDiffer(c: ValidationClass, d: ValidationClass)
    ensures ClassName(c) == ClassName(d) <==> c == d
  {
    assert |ClassName(c)| == ClassLength(c) && |ClassName(d)| == ClassLength(d);
    hide ClassName;
  }

  /** First byte and length tell the scopes apart. */
  function ScopeMark(s: ReadScope): (int, nat) {
    match s
    case CanonicalGraph => ('c' as int, 15)
    case DerivedGeometry => ('d' as int, 16)
    case DeclaredJoints => ('d' as int, 15)
    case Materials => ('m' as int, 9)
  }

  lemma ScopeNamesDiffer(s: ReadScope, t: ReadScope)
    ensures ScopeName(s) == ScopeName(t) <==> s == t
  {
    assert |ScopeName(s)| == ScopeMark(s).1 && ScopeName(s)[0] == ScopeMark(s).0;
    assert |ScopeName(t)| == ScopeMark(t).1 && ScopeName(t)[0] == ScopeMark(t).0;
    hide ScopeName;
  }

  type Scopes = s: seq<ReadScope> | |s| <= 0x7FFF_FFFF_FFFF_FFFF

  datatype Descriptor = Descriptor(
    contract: Text, contractVersion: U32, implementation: Text, implementationVersion: Text, inputSchema: Text,
    validationClass: ValidationClass, readScopes: Scopes, deterministic: bool, maximumInputBytes: U64, maximumWorkUnits: U64)

  function Names(scopes: seq<ReadScope>): (r: seq<Text>)
    ensures |r| == |scopes|
  {
    seq(|scopes|, i requires 0 <= i < |scopes| => ScopeName(scopes[i]))
  }

  function FrontItems(d: Descriptor): (r: seq<Item>)
    ensures |r| == 7
  {
    [Field(d.contract), Number(d.contractVersion), Field(d.implementation), Field(d.implementationVersion), Field(d.inputSchema),
     Field(ClassName(d.validationClass)), Number(Saturate(|SortNames(Names(d.readScopes))|))]
  }

  function DeterminismName(deterministic: bool): Text {
    if deterministic then Ascii("deterministic") else Ascii("non-deterministic")
  }

  function BackItems(d: Descriptor): (r: seq<Item>)
    ensures |r| == 3
  {
    [Field(DeterminismName(d.deterministic)), Number(d.maximumInputBytes), Number(d.maximumWorkUnits)]
  }

  function ScopeItems(d: Descriptor): seq<Item> {
    FieldItems(SortNames(Names(d.readScopes)))
  }

  function DescriptorBytes(d: Descriptor): seq<Byte> {
    Encode(FrontItems(d) + ScopeItems(d) + BackItems(d))
  }

  /** The bytes before hashing. */
  method EncodeDescriptor(d: Descriptor) returns (bytes: seq<Byte>)
    ensures bytes == DescriptorBytes(d)
  {
    assert Encode([]) == [];
    hide Encode, FrontItems, ScopeItems, BackItems;
    bytes := PushAll([], FrontItems(d), []);
    assert [] + FrontItems(d) == FrontItems(d);
    bytes := PushAll(bytes, ScopeItems(d), FrontItems(d));
    bytes := PushAll(bytes, BackItems(d), FrontItems(d) + ScopeItems(d));
  }

  /** The same scopes, whatever their order and repetition. */
  ghost predicate SameScopes(a: seq<ReadScope>, b: seq<ReadScope>) {
    forall s :: s in a <==> s in b
  }

  ghost predicate Agree(d: Descriptor, e: Descriptor) {
    d.(readScopes := e.readScopes) == e && SameScopes(d.readScopes, e.readScopes)
  }

  lemma NameMember(scopes: seq<ReadScope>, s: ReadScope)
    ensures ScopeName(s) in Names(scopes) <==> s in scopes
  {
    hide ScopeName;
    if ScopeName(s) in Names(scopes) {
      var i :| 0 <= i < |scopes| && Names(scopes)[i] == ScopeName(s);
      ScopeNamesDiffer(scopes[i], s);
    }
    if s in scopes {
      var i :| 0 <= i < |scopes| && scopes[i] == s;
      assert Names(scopes)[i] == ScopeName(s);
    }
  }

  /** The written scope list is the set of scopes. */
  lemma ScopeList(a: seq<ReadScope>, b: seq<ReadScope>)
    ensures SortNames(Names(a)) == SortNames(Names(b)) <==> SameScopes(a, b)
  {
    SortForgets(Names(a), Names(b));
    hide SortNames, ScopeName;
    if SameScopes(a, b) {
      forall y
        ensures y in Names(a) <==> y in Names(b)
      {
        NamesOf(a, b, y);
        NamesOf(b, a, y);
      }
    } else {
      var s :| !(s in a <==> s in b);
      NameMember(a, s);
      NameMember(b, s);
    }
  }

  lemma NamesOf(a: seq<ReadScope>, b: seq<ReadScope>, y: Text)
    requires forall s :: s in a ==> s in b
    ensures y in Names(a) ==> y in Names(b)
  {
    hide ScopeName;
    if y in Names(a) {
      var i :| 0 <= i < |a| && Names(a)[i] == y;
      NameMember(b, a[i]);
    }
  }

  lemma FrontUnique(d: Descriptor, e: Descriptor)
    requires FrontItems(d) == FrontItems(e)
    ensures d.contract == e.contract && d.contractVersion == e.contractVersion && d.implementation == e.implementation
    ensures d.implementationVersion == e.implementationVersion && d.inputSchema == e.inputSchema && d.validationClass == e.validationClass
    ensures |ScopeItems(d)| == |ScopeItems(e)|
  {
    hide SortNames;
    var (a, b) := (FrontItems(d), FrontItems(e));
    assert a[0] == b[0] && a[1] == b[1] && a[2] == b[2] && a[3] == b[3] && a[4] == b[4] && a[5] == b[5] && a[6] == b[6];
    ClassNamesDiffer(d.validationClass, e.validationClass);
    hide ClassName;
  }

  lemma BackUnique(d: Descriptor, e: Descriptor)
    requires BackItems(d) == BackItems(e)
    ensures d.deterministic == e.deterministic && d.maximumInputBytes == e.maximumInputBytes && d.maximumWorkUnits == e.maximumWorkUnits
  {
    var (a, b) := (BackItems(d), BackItems(e));
    assert a[0] == b[0] && a[1] == b[1] && a[2] == b[2];
    assert |Ascii("deterministic")| == 13 && |Ascii("non-deterministic")| == 17;
  }

  lemma Kinds(d: Descriptor, e: Descriptor)
    ensures SameKinds(FrontItems(d), FrontItems(e)) && SameKinds(BackItems(d), BackItems(e))
    ensures |ScopeItems(d)| == |ScopeItems(e)| ==> SameKinds(ScopeItems(d), ScopeItems(e))
  {
    hide SortNames, ClassName;
  }

  lemma BytesUnique(d: Descriptor, e: Descriptor)
    requires DescriptorBytes(d) == DescriptorBytes(e)
    ensures Agree(d, e)
  {
    hide Encode, SameKinds, SortNames, Names, FieldItems, SameScopes, FrontItems, ScopeItems, BackItems;
    Kinds(d, e);
    ThreeParts(FrontItems(d), ScopeItems(d), BackItems(d));
    ThreeParts(FrontItems(e), ScopeItems(e), BackItems(e));
    ItemsUnique(FrontItems(d), FrontItems(e), Encode(ScopeItems(d)) + Encode(BackItems(d)), Encode(ScopeItems(e)) + Encode(BackItems(e)));
    FrontUnique(d, e);
    ItemsUnique(ScopeItems(d), ScopeItems(e), Encode(BackItems(d)), Encode(BackItems(e)));
    assert Encode(BackItems(d)) + [] == Encode(BackItems(e)) + [];
    ItemsUnique(BackItems(d), BackItems(e), [], []);
    BackUnique(d, e);
    ScopesUnique(d, e);
  }

  lemma ScopesUnique(d: Descriptor, e: Descriptor)
    requires ScopeItems(d) == ScopeItems(e)
    ensures SameScopes(d.readScopes, e.readScopes)
  {
    FieldsUnique(SortNames(Names(d.readScopes)), SortNames(Names(e.readScopes)));
    ScopeList(d.readScopes, e.readScopes);
  }

  /** The hashed bytes are equal exactly when two descriptors agree up to the
      order and repetition of their read scopes. */
  lemma DescriptorBytesEqual(d: Descriptor, e: Descriptor)
    ensures DescriptorBytes(d) == DescriptorBytes(e) <==> Agree(d, e)
  {
    if DescriptorBytes(d) == DescriptorBytes(e) {
      BytesUnique(d, e);
    }
    if Agree(d, e) {
      hide SortNames, Encode;
      ScopeList(d.readScopes, e.readScopes);
      assert FrontItems(d) == FrontItems(e) && ScopeItems(d) == ScopeItems(e) && BackItems(d) == BackItems(e);
    }
  }
}
