/** The host of signed validator packages: trust, revocation, licences,
    installation and resolution. */
module PackageHost {
  import opened Results
  import opened Bytes
  import opened PackageEncoding

  const MAX_ARTIFACT_BYTES: nat := 8 * 1024 * 1024

  // ---------------------------------------------------------------- manifests

  predicate IsDigit(b: Byte) {
    '0' as int <= b <= '9' as int
  }

  predicate IsAlphanumeric(b: Byte) {
    IsDigit(b) || 'a' as int <= b <= 'z' as int || 'A' as int <= b <= 'Z' as int
  }

  predicate ValidIdentifier(s: Text, maximum: nat) {
    0 < |s| <= maximum
    && forall i :: 0 <= i < |s| ==>
                     IsAlphanumeric(s[i]) || s[i] == '.' as int || s[i] == '-' as int || s[i] == '_' as int || s[i] == ':' as int || s[i] == '/' as int
  }

  predicate ValidSha256(s: Text) {
    |s| == 64 && forall i :: 0 <= i < |s| ==> IsDigit(s[i]) || 'a' as int <= s[i] <= 'f' as int || 'A' as int <= s[i] <= 'F' as int
  }

  predicate ValidHostName(s: Text) {
    && 0 < |s| <= 253
    && (forall i :: 0 <= i < |s| - 1 ==> !(s[i] == '.' as int && s[i + 1] == '.' as int))
    && forall i :: 0 <= i < |s| ==> IsAlphanumeric(s[i]) || s[i] == '.' as int || s[i] == '-' as int
  }

  predicate ValidManifest(m: Manifest) {
    && ValidIdentifier(m.package, 128) && ValidIdentifier(m.version, 64) && ValidIdentifier(m.publisher, 128)
    && ValidIdentifier(m.contract, 160) && ValidIdentifier(m.implementation, 160) && ValidIdentifier(m.implementationVersion, 64)
    && m.release != 0 && m.contractVersion != 0
    && ValidSha256(m.descriptorSha) && ValidSha256(m.artifactSha)
    && |m.hosts| <= 16 && (forall i :: 0 <= i < |m.hosts| ==> ValidHostName(m.hosts[i]))
    && (m.license.Paid? ==> ValidIdentifier(m.license.product, 128))
  }

  method CheckIdentifier(s: Text, maximum: nat) returns (ok: bool)
    ensures ok <==> ValidIdentifier(s, maximum)
  {
    if |s| == 0 || |s| > maximum {
      return false;
    }
    for i := 0 to |s|
      invariant forall k :: 0 <= k < i ==> IsAlphanumeric(s[k]) || s[k] as char in ".-_:/"
    {
      var c := s[i] as char;
      if !('0' <= c <= '9' || 'A' <= c <= 'Z' || 'a' <= c <= 'z' || c in ".-_:/") {
        return false;
      }
    }
    return true;
  }

  method CheckSha256(s: Text) returns (ok: bool)
    ensures ok <==> ValidSha256(s)
  {
    if |s| != 64 {
      return false;
    }
    for i := 0 to |s|
      invariant forall k :: 0 <= k < i ==> IsDigit(s[k]) || 'a' as int <= s[k] <= 'f' as int || 'A' as int <= s[k] <= 'F' as int
    {
      var c := s[i] as char;
      if !('0' <= c <= '9' || 'A' <= c <= 'F' || 'a' <= c <= 'f') {
        return false;
      }
    }
    return true;
  }

  method CheckHostName(s: Text) returns (ok: bool)
    ensures ok <==> ValidHostName(s)
  {
    if |s| == 0 || |s| > 253 {
      return false;
    }
    for i := 0 to |s|
      invariant forall k :: 0 <= k < i ==> IsAlphanumeric(s[k]) || s[k] == '.' as int || s[k] == '-' as int
      invariant forall k :: 0 <= k < i - 1 ==> !(s[k] == '.' as int && s[k + 1] == '.' as int)
    {
      var c := s[i] as char;
      if c == '.' && i > 0 && s[i - 1] as char == '.' {
        return false;
      }
      if !('0' <= c <= '9' || 'A' <= c <= 'Z' || 'a' <= c <= 'z' || c == '.' || c == '-') {
        return false;
      }
    }
    return true;
  }

  /** The checks of a manifest, in order. */
  method CheckManifest(m: Manifest) returns (ok: bool)
    ensures ok <==> ValidManifest(m)
  {
    hide ValidIdentifier, ValidSha256, ValidHostName;
    var fields := [(m.package, 128), (m.version, 64), (m.publisher, 128), (m.contract, 160), (m.implementation, 160), (m.implementationVersion, 64)];
    for i := 0 to |fields|
      invariant forall k :: 0 <= k < i ==> ValidIdentifier(fields[k].0, fields[k].1)
    {
      ok := CheckIdentifier(fields[i].0, fields[i].1);
      if !ok {
        return;
      }
    }
    assert fields[0] == (m.package, 128) && fields[1] == (m.version, 64) && fields[2] == (m.publisher, 128);
    assert fields[3] == (m.contract, 160) && fields[4] == (m.implementation, 160) && fields[5] == (m.implementationVersion, 64);
    if m.release == 0 || m.contractVersion == 0 {
      return false;
    }
    ok := CheckSha256(m.descriptorSha);
    if !ok {
      return;
    }
    ok := CheckSha256(m.artifactSha);
    if !ok {
      return;
    }
    ok := CheckHosts(m.hosts);
    if !ok {
      return;
    }
    if m.license.Paid? {
      ok := CheckIdentifier(m.license.product, 128);
    }
  }

  method CheckHosts(hosts: seq<Text>) returns (ok: bool)
    ensures ok <==> |hosts| <= 16 && forall i :: 0 <= i < |hosts| ==> ValidHostName(hosts[i])
  {
    hide ValidHostName;
    if |hosts| > 16 {
      return false;
    }
    for i := 0 to |hosts|
      invariant forall k :: 0 <= k < i ==> ValidHostName(hosts[k])
    {
      ok := CheckHostName(hosts[i]);
      if !ok {
        return;
      }
    }
    return true;
  }

  function LowercaseByte(b: Byte): Byte {
    if 'A' as int <= b <= 'Z' as int then b + 32 else b
  }

  function Lowercase(s: Text): (r: Text)
    ensures |r| == |s|
  {
    seq(|s|, i requires 0 <= i < |s| => LowercaseByte(s[i]))
  }

  /** The digit of a hexadecimal character, upper or lower case. */
  function HexDigit(b: Byte): int {
    if b <= '9' as int then b - '0' as int else if b <= 'F' as int then b - 'A' as int + 10 else b - 'a' as int + 10
  }

  /** Digests are compared by what they say, not by the case of their letters. */
  lemma SameDigest(s: Text, t: Text)
    requires ValidSha256(s) && ValidSha256(t)
    ensures Lowercase(s) == Lowercase(t) <==> forall i :: 0 <= i < 64 ==> HexDigit(s[i]) == HexDigit(t[i])
  {
    if Lowercase(s) == Lowercase(t) {
      forall i | 0 <= i < 64
        ensures HexDigit(s[i]) == HexDigit(t[i])
      {
        assert Lowercase(s)[i] == Lowercase(t)[i];
      }
    }
  }

  // ---------------------------------------------------------------- state

  /** The library's digest and signature check. */
  datatype Crypto = Crypto(sha256: seq<Byte> -> Text, isKey: Text -> bool, verifies: (Text, seq<Byte>, Text) -> bool)

  datatype Signed = Signed(manifest: Manifest, signature: Text)

  datatype Installed = Installed(signed: Signed, artifact: seq<Byte>) {
    function Release(): U64 {
      signed.manifest.release
    }
  }

  datatype LicenseState = Missing | Active | Expired

  datatype State = State(trusted: map<Text, Text>, revokedPublishers: set<Text>, revokedReleases: set<(Text, U64)>,
                         licenses: map<Text, LicenseState>, installed: map<Text, Installed>)

  const EMPTY: State := State(map[], {}, {}, map[], map[])

  datatype Error =
    | InvalidManifest | InvalidPublisher | InvalidPublisherKey | PublisherUntrusted | PublisherRevoked | ReleaseRevoked
    | SignatureInvalid | ArtifactTooLarge | ArtifactDigestMismatch | ReleaseNotNewer(installed: U64, candidate: U64)
    | NotInstalled(package: Text) | LicenseMissing | LicenseExpired

  /** The first check that fails, in order. */
  function Verify(c: Crypto, s: State, signed: Signed, artifact: seq<Byte>): Result<(), Error> {
    var m := signed.manifest;
    if !ValidManifest(m) then Err(InvalidManifest)
    else if |artifact| > MAX_ARTIFACT_BYTES then Err(ArtifactTooLarge)
    else if c.sha256(artifact) != Lowercase(m.artifactSha) then Err(ArtifactDigestMismatch)
    else if m.publisher in s.revokedPublishers then Err(PublisherRevoked)
    else if (m.package, m.release) in s.revokedReleases then Err(ReleaseRevoked)
    else if m.publisher !in s.trusted then Err(PublisherUntrusted)
    else if !c.verifies(s.trusted[m.publisher], Encode(ManifestItems(m)), signed.signature) then Err(SignatureInvalid)
    else Ok(())
  }

  datatype Operation =
    | Trust(publisher: Text, key: Text)
    | RevokePublisher(publisher: Text)
    | RevokeRelease(package: Text, release: U64)
    | SetLicense(package: Text, state: LicenseState)
    | Install(signed: Signed, artifact: seq<Byte>)
    | Resolve(package: Text)

  datatype Response = Done | InstalledFirst | Updated | Resolved(package: Installed) | Refused(error: Error)

  function LicenseOf(s: State, package: Text): LicenseState {
    if package in s.licenses then s.licenses[package] else Missing
  }

  function ResolveIn(c: Crypto, s: State, package: Text): Response {
    if package !in s.installed then Refused(NotInstalled(package))
    else
      var entry := s.installed[package];
      var verified := Verify(c, s, entry.signed, entry.artifact);
      if verified.Err? then Refused(verified.error)
      else if entry.signed.manifest.license.Paid? && LicenseOf(s, package) == Missing then Refused(LicenseMissing)
      else if entry.signed.manifest.license.Paid? && LicenseOf(s, package) == Expired then Refused(LicenseExpired)
      else Resolved(entry)
  }

  function InstallIn(c: Crypto, s: State, signed: Signed, artifact: seq<Byte>): (State, Response) {
    var verified := Verify(c, s, signed, artifact);
    var (p, release) := (signed.manifest.package, signed.manifest.release);
    if verified.Err? then (s, Refused(verified.error))
    else if p in s.installed && s.installed[p].Release() >= release then
      (s, Refused(ReleaseNotNewer(s.installed[p].Release(), release)))
    else
      (s.(installed := s.installed[p := Installed(signed, artifact)]), if p in s.installed then Updated else InstalledFirst)
  }

  function Apply(c: Crypto, s: State, op: Operation): (State, Response) {
    match op
    case Trust(publisher, key) =>
      if !ValidIdentifier(publisher, 128) then (s, Refused(InvalidPublisher))
      else if !c.isKey(key) then (s, Refused(InvalidPublisherKey))
      else (s.(revokedPublishers := s.revokedPublishers - {publisher}, trusted := s.trusted[publisher := key]), Done)
    case RevokePublisher(publisher) => (s.(revokedPublishers := s.revokedPublishers + {publisher}), Done)
    case RevokeRelease(package, release) => (s.(revokedReleases := s.revokedReleases + {(package, release)}), Done)
    case SetLicense(package, state) => (s.(licenses := s.licenses[package := state]), Done)
    case Install(signed, artifact) => InstallIn(c, s, signed, artifact)
    case Resolve(package) => (s, ResolveIn(c, s, package))
  }

  // ---------------------------------------------------------------- the host

  class ValidatorPackageHost {
    const crypto: Crypto
    var trusted: map<Text, Text>
    var revokedPublishers: set<Text>
    var revokedReleases: set<(Text, U64)>
    var licenses: map<Text, LicenseState>
    var installed: map<Text, Installed>

    function Contents(): State
      reads this
    {
      State(trusted, revokedPublishers, revokedReleases, licenses, installed)
    }

    constructor (crypto: Crypto)
      ensures this.crypto == crypto && Contents() == EMPTY
    {
      this.crypto := crypto;
      trusted, revokedPublishers, revokedReleases, licenses, installed := map[], {}, {}, map[], map[];
    }

    method TrustPublisher(publisher: Text, key: Text) returns (r: Response)
      modifies this
      ensures (Contents(), r) == Apply(crypto, old(Contents()), Trust(publisher, key))
    {
      var named := CheckIdentifier(publisher, 128);
      if !named {
        return Refused(InvalidPublisher);
      }
      if !crypto.isKey(key) {
        return Refused(InvalidPublisherKey);
      }
      revokedPublishers := revokedPublishers - {publisher};
      trusted := trusted[publisher := key];
      r := Done;
    }

    method RevokePublisherNamed(publisher: Text)
      modifies this
      ensures Contents() == Apply(crypto, old(Contents()), RevokePublisher(publisher)).0
    {
      revokedPublishers := revokedPublishers + {publisher};
    }

    method RevokeReleaseOf(package: Text, release: U64)
      modifies this
      ensures Contents() == Apply(crypto, old(Contents()), RevokeRelease(package, release)).0
    {
      revokedReleases := revokedReleases + {(package, release)};
    }

    method SetLicenseState(package: Text, state: LicenseState)
      modifies this
      ensures Contents() == Apply(crypto, old(Contents()), SetLicense(package, state)).0
    {
      licenses := licenses[package := state];
    }

    /** The first failing check, with the payload built byte by byte. */
    method VerifyPackage(signed: Signed, artifact: seq<Byte>) returns (r: Result<(), Error>)
      ensures r == Verify(crypto, Contents(), signed, artifact)
    {
      var m := signed.manifest;
      var valid := CheckManifest(m);
      if !valid {
        return Err(InvalidManifest);
      }
      if |artifact| > MAX_ARTIFACT_BYTES {
        return Err(ArtifactTooLarge);
      }
      if crypto.sha256(artifact) != Lowercase(m.artifactSha) {
        return Err(ArtifactDigestMismatch);
      }
      if m.publisher in revokedPublishers {
        return Err(PublisherRevoked);
      }
      if (m.package, m.release) in revokedReleases {
        return Err(ReleaseRevoked);
      }
      if m.publisher !in trusted {
        return Err(PublisherUntrusted);
      }
      hide ValidManifest, ManifestItems, Encode;
      var payload := SigningPayload(m);
      r := if crypto.verifies(trusted[m.publisher], payload, signed.signature) then Ok(()) else Err(SignatureInvalid);
    }

    method InstallPackage(signed: Signed, artifact: seq<Byte>) returns (r: Response)
      modifies this
      ensures (Contents(), r) == Apply(crypto, old(Contents()), Install(signed, artifact))
      ensures r.Refused? ==> unchanged(this)
    {
      hide Verify;
      var verified := VerifyPackage(signed, artifact);
      if verified.Err? {
        return Refused(verified.error);
      }
      var package := signed.manifest.package;
      if package in installed {
        if installed[package].Release() >= signed.manifest.release {
          return Refused(ReleaseNotNewer(installed[package].Release(), signed.manifest.release));
        }
        r := Updated;
      } else {
        r := InstalledFirst;
      }
      installed := installed[package := Installed(signed, artifact)];
    }

    method ResolvePackage(package: Text) returns (r: Response)
      ensures (Contents(), r) == Apply(crypto, Contents(), Resolve(package))
    {
      hide Verify;
      if package !in installed {
        return Refused(NotInstalled(package));
      }
      var entry := installed[package];
      var verified := VerifyPackage(entry.signed, entry.artifact);
      if verified.Err? {
        return Refused(verified.error);
      }
      if entry.signed.manifest.license.Paid? {
        match if package in licenses then licenses[package] else Missing
        case Active =>
        case Missing =>
          return Refused(LicenseMissing);
        case Expired =>
          return Refused(LicenseExpired);
      }
      r := Resolved(entry);
    }
  }

  // ---------------------------------------------------------------- runs

  /** The state after the first n operations. */
  function After(c: Crypto, s: State, ops: seq<Operation>, n: nat): State
    requires n <= |ops|
    decreases n
  {
    if n == 0 then s else Apply(c, After(c, s, ops, n - 1), ops[n - 1]).0
  }

  function Answer(c: Crypto, s: State, ops: seq<Operation>, n: nat): Response
    requires n < |ops|
  {
    Apply(c, After(c, s, ops, n), ops[n]).1
  }

  /** Each entry sits under its own name and is what was signed for. */
  ghost predicate Authentic(c: Crypto, s: State) {
    forall p :: p in s.installed ==> AuthenticEntry(c, p, s.installed[p])
  }

  ghost predicate AuthenticEntry(c: Crypto, p: Text, entry: Installed) {
    && entry.signed.manifest.package == p
    && ValidManifest(entry.signed.manifest)
    && |entry.artifact| <= MAX_ARTIFACT_BYTES
    && c.sha256(entry.artifact) == Lowercase(entry.signed.manifest.artifactSha)
  }

  /** Revoked releases stay, entries stay or are replaced by a newer release. */
  ghost predicate Advances(s: State, s': State) {
    && s.revokedReleases <= s'.revokedReleases
    && forall p :: p in s.installed ==> p in s'.installed && (s'.installed[p] == s.installed[p] || s'.installed[p].Release() > s.installed[p].Release())
  }

  /** A refusal and a resolution change nothing. */
  lemma RefusalChangesNothing(c: Crypto, s: State, op: Operation)
    ensures var (s', r) := Apply(c, s, op); r.Refused? || r.Resolved? ==> s' == s
  {
    hide Verify, ValidManifest;
  }

  lemma VerifiedEntry(c: Crypto, s: State, signed: Signed, artifact: seq<Byte>)
    requires Verify(c, s, signed, artifact).Ok?
    ensures AuthenticEntry(c, signed.manifest.package, Installed(signed, artifact))
  {
    hide ValidManifest, ManifestItems, Encode, Lowercase;
  }

  lemma InstallAdvances(c: Crypto, s: State, signed: Signed, artifact: seq<Byte>)
    requires Authentic(c, s)
    ensures Authentic(c, InstallIn(c, s, signed, artifact).0) && Advances(s, InstallIn(c, s, signed, artifact).0)
  {
    hide Verify, AuthenticEntry;
    if Verify(c, s, signed, artifact).Ok? {
      VerifiedEntry(c, s, signed, artifact);
    }
  }

  lemma StepAdvances(c: Crypto, s: State, op: Operation)
    requires Authentic(c, s)
    ensures Authentic(c, Apply(c, s, op).0) && Advances(s, Apply(c, s, op).0)
  {
    hide Verify, InstallIn, ResolveIn, AuthenticEntry, ValidIdentifier;
    if op.Install? {
      InstallAdvances(c, s, op.signed, op.artifact);
    }
  }

  lemma {:induction false} RunAuthentic(c: Crypto, ops: seq<Operation>, n: nat)
    requires n <= |ops|
    ensures Authentic(c, After(c, EMPTY, ops, n))
    decreases n
  {
    if n > 0 {
      RunAuthentic(c, ops, n - 1);
      StepAdvances(c, After(c, EMPTY, ops, n - 1), ops[n - 1]);
    }
  }

  lemma AdvancesTransitive(a: State, b: State, d: State)
    requires Advances(a, b) && Advances(b, d)
    ensures Advances(a, d)
  {
    forall p | p in a.installed
      ensures p in d.installed && (d.installed[p] == a.installed[p] || d.installed[p].Release() > a.installed[p].Release())
    {
      assert p in b.installed;
    }
  }

  /** Over every run the installed releases only grow. */
  lemma {:induction false} RunAdvances(c: Crypto, ops: seq<Operation>, i: nat, j: nat)
    requires i <= j <= |ops|
    ensures Advances(After(c, EMPTY, ops, i), After(c, EMPTY, ops, j))
    decreases j
  {
    hide Apply, Authentic;
    if i < j {
      RunAdvances(c, ops, i, j - 1);
      RunAuthentic(c, ops, j - 1);
      StepAdvances(c, After(c, EMPTY, ops, j - 1), ops[j - 1]);
      AdvancesTransitive(After(c, EMPTY, ops, i), After(c, EMPTY, ops, j - 1), After(c, EMPTY, ops, j));
    }
  }

  // ---------------------------------------------------------------- resolution

  /** What a package must meet now to resolve. */
  ghost predicate Usable(c: Crypto, s: State, package: Text, entry: Installed) {
    var m := entry.signed.manifest;
    && ValidManifest(m) && |entry.artifact| <= MAX_ARTIFACT_BYTES
    && c.sha256(entry.artifact) == Lowercase(m.artifactSha)
    && m.publisher !in s.revokedPublishers
    && (m.package, m.release) !in s.revokedReleases
    && m.publisher in s.trusted
    && c.verifies(s.trusted[m.publisher], Encode(ManifestItems(m)), entry.signed.signature)
    && (m.license.Paid? ==> package in s.licenses && s.licenses[package] == Active)
  }

  /** Resolution succeeds exactly under the current trust, revocation, digest
      and licence state. */
  lemma ResolveExact(c: Crypto, s: State, package: Text, entry: Installed)
    ensures ResolveIn(c, s, package) == Resolved(entry)
       <==> package in s.installed && entry == s.installed[package] && Usable(c, s, package, entry)
  {
    hide ValidManifest, ManifestItems, Encode, Lowercase;
  }

  /** A package that was installed is never refused for its manifest or artifact. */
  lemma InstalledStaysIntact(c: Crypto, ops: seq<Operation>, n: nat, package: Text)
    requires n <= |ops| && package in After(c, EMPTY, ops, n).installed
    ensures var r := ResolveIn(c, After(c, EMPTY, ops, n), package);
            r.Refused? ==> r.error in {PublisherRevoked, ReleaseRevoked, PublisherUntrusted, SignatureInvalid, LicenseMissing, LicenseExpired}
  {
    RunAuthentic(c, ops, n);
    hide ValidManifest, ManifestItems, Encode, Lowercase, After;
    var s := After(c, EMPTY, ops, n);
    assert AuthenticEntry(c, package, s.installed[package]);
  }

  lemma AnswerEntry(c: Crypto, ops: seq<Operation>, i: nat, package: Text)
    requires i < |ops| && ops[i] == Resolve(package) && Answer(c, EMPTY, ops, i).Resolved?
    ensures var s := After(c, EMPTY, ops, i);
            && package in s.installed && Answer(c, EMPTY, ops, i).package == s.installed[package]
            && s.installed[package].signed.manifest.package == package
            && (package, s.installed[package].Release()) !in s.revokedReleases
  {
    RunAuthentic(c, ops, i);
    hide ValidManifest, ManifestItems, Encode, Lowercase, After;
    var s := After(c, EMPTY, ops, i);
    assert package in s.installed ==> AuthenticEntry(c, package, s.installed[package]);
  }

  /** Over every run the releases that one package resolves to never decrease,
      and the same release is always the same artifact. */
  lemma ResolvesNeverDecrease(c: Crypto, ops: seq<Operation>, i: nat, j: nat, package: Text)
    requires i <= j < |ops| && ops[i] == Resolve(package) && ops[j] == Resolve(package)
    requires Answer(c, EMPTY, ops, i).Resolved? && Answer(c, EMPTY, ops, j).Resolved?
    ensures Answer(c, EMPTY, ops, i).package == Answer(c, EMPTY, ops, j).package
            || Answer(c, EMPTY, ops, i).package.Release() < Answer(c, EMPTY, ops, j).package.Release()
  {
    hide Answer, After;
    AnswerEntry(c, ops, i, package);
    AnswerEntry(c, ops, j, package);
    RunAdvances(c, ops, i, j);
  }

  /** A revoked release never resolves again. */
  lemma RevokedNeverResolves(c: Crypto, ops: seq<Operation>, i: nat, j: nat, package: Text, release: U64)
    requires i < j < |ops| && ops[i] == RevokeRelease(package, release) && ops[j] == Resolve(package)
    requires Answer(c, EMPTY, ops, j).Resolved?
    ensures Answer(c, EMPTY, ops, j).package.Release() != release
  {
    AnswerEntry(c, ops, j, package);
    RunAdvances(c, ops, i + 1, j);
    hide Verify;
    assert (package, release) in After(c, EMPTY, ops, i + 1).revokedReleases;
    hide Answer, After;
  }

  /** A release that resolved and was then revoked is followed only by newer ones. */
  lemma RevocationForcesNewer(c: Crypto, ops: seq<Operation>, i: nat, k: nat, j: nat, package: Text)
    requires i < k < j < |ops| && ops[i] == Resolve(package) && ops[j] == Resolve(package)
    requires Answer(c, EMPTY, ops, i).Resolved? && Answer(c, EMPTY, ops, j).Resolved?
    requires ops[k] == RevokeRelease(package, Answer(c, EMPTY, ops, i).package.Release())
    ensures Answer(c, EMPTY, ops, i).package.Release() < Answer(c, EMPTY, ops, j).package.Release()
  {
    hide Answer;
    ResolvesNeverDecrease(c, ops, i, j, package);
    RevokedNeverResolves(c, ops, k, j, package, Answer(c, EMPTY, ops, i).package.Release());
  }

  /** A revoked publisher stays revoked until it is trusted again. */
  lemma {:induction false} PublisherStaysRevoked(c: Crypto, ops: seq<Operation>, i: nat, j: nat, publisher: Text)
    requires i < j <= |ops| && ops[i] == RevokePublisher(publisher)
    requires forall k :: i < k < j ==> !(ops[k].Trust? && ops[k].publisher == publisher)
    ensures publisher in After(c, EMPTY, ops, j).revokedPublishers
    decreases j
  {
    hide Verify, ValidIdentifier;
    if i < j - 1 {
      PublisherStaysRevoked(c, ops, i, j - 1, publisher);
    }
  }

  /** None of its packages resolves or installs meanwhile. */
  lemma RevokedPublisherBlocked(c: Crypto, ops: seq<Operation>, i: nat, j: nat, publisher: Text)
    requires i < j < |ops| && ops[i] == RevokePublisher(publisher)
    requires forall k :: i < k < j ==> !(ops[k].Trust? && ops[k].publisher == publisher)
    ensures Answer(c, EMPTY, ops, j).Resolved? ==> Answer(c, EMPTY, ops, j).package.signed.manifest.publisher != publisher
    ensures ops[j].Install? && ops[j].signed.manifest.publisher == publisher ==> Answer(c, EMPTY, ops, j).Refused?
  {
    PublisherStaysRevoked(c, ops, i, j, publisher);
    hide ValidManifest, ManifestItems, Encode, Lowercase, After, ValidIdentifier;
  }
}
