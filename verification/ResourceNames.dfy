/** fakekms/resource_names.go: the four levels of KMS resource names, and the name helpers of
    kmsp11/util/string_utils.cc. */
module ResourceNames {
  import opened Basics

  // ---------------------------------------------------------------------------------------
  // Splitting at slashes
  // ---------------------------------------------------------------------------------------

  predicate NoSlash(s: string) { '/' !in s }

  predicate NoNewline(s: string) { '\n' !in s }

  /** absl::StrSplit(s, '/'). */
  function Split(s: string): (parts: seq<string>)
    ensures parts != []
  {
    if s == [] then [[]]
    else
      var rest := Split(s[1..]);
      if s[0] == '/' then [[]] + rest else [[s[0]] + rest[0]] + rest[1..]
  }

  /** absl::StrJoin(parts, "/"). */
  function Join(parts: seq<string>): string
    requires parts != []
  {
    if |parts| == 1 then parts[0] else parts[0] + "/" + Join(parts[1..])
  }

  lemma {:induction false} SplitFirst(a: string, rest: string)
    requires NoSlash(a)
    ensures Split(a) == [a]
    ensures Split(a + "/" + rest) == [a] + Split(rest)
  {
    if a == [] {
      assert ("/" + rest)[1..] == rest;
    } else {
      SplitFirst(a[1..], rest);
      assert (a + "/" + rest)[1..] == a[1..] + "/" + rest;
      assert [a[0]] + a[1..] == a;
    }
  }

  lemma {:induction false} SplitJoin(parts: seq<string>)
    requires parts != [] && forall i :: 0 <= i < |parts| ==> NoSlash(parts[i])
    ensures Split(Join(parts)) == parts
  {
    if |parts| == 1 {
      SplitFirst(parts[0], []);
    } else {
      SplitJoin(parts[1..]);
      SplitFirst(parts[0], Join(parts[1..]));
    }
  }

  lemma {:induction false} JoinSplit(s: string)
    ensures Join(Split(s)) == s
    ensures forall i :: 0 <= i < |Split(s)| ==> NoSlash(Split(s)[i])
  {
    if s != [] {
      JoinSplit(s[1..]);
      var rest := Split(s[1..]);
      if s[0] == '/' {
        assert ([[]] + rest)[1..] == rest;
      } else if |rest| > 1 {
        assert ([[s[0]] + rest[0]] + rest[1..])[1..] == rest[1..];
      }
    }
  }

  lemma {:induction false} JoinAppend(a: seq<string>, b: seq<string>)
    requires a != [] && b != []
    ensures Join(a + b) == Join(a) + "/" + Join(b)
  {
    if |a| > 1 {
      JoinAppend(a[1..], b);
      assert (a + b)[1..] == a[1..] + b;
    } else {
      assert (a + b)[1..] == b;
    }
  }

  lemma JoinTwo(a: string, b: string)
    ensures Join([a, b]) == a + "/" + b
  {
  }

  // ---------------------------------------------------------------------------------------
  // Names and their printed forms
  // ---------------------------------------------------------------------------------------

  /** fmt.Sprintf("%s/<collection>/%s", prefix, id) */
  function Tail(prefix: string, collection: string, id: string): string {
    prefix + "/" + collection + "/" + id
  }

  datatype LocationName = LocationName(project: string, location: string) {
    function Print(): string { Tail("projects/" + project, "locations", location) }

    predicate WellFormed() {
      project != [] && location != [] && NoSlash(project) && NoSlash(location)
    }
  }

  datatype KeyRingName = KeyRingName(location: LocationName, id: string) {
    function Print(): string { Tail(location.Print(), "keyRings", id) }

    predicate WellFormed() { location.WellFormed() && NoNewline(location.Print()) && ValidId(id) }
  }

  datatype CryptoKeyName = CryptoKeyName(keyRing: KeyRingName, id: string) {
    function Print(): string { Tail(keyRing.Print(), "cryptoKeys", id) }

    predicate WellFormed() { keyRing.WellFormed() && ValidId(id) }
  }

  datatype VersionName = VersionName(cryptoKey: CryptoKeyName, id: string) {
    function Print(): string { Tail(cryptoKey.Print(), "cryptoKeyVersions", id) }

    predicate WellFormed() { cryptoKey.WellFormed() && ValidId(id) }
  }

  predicate IdChar(c: char) {
    'a' <= c <= 'z' || 'A' <= c <= 'Z' || '0' <= c <= '9' || c == '_' || c == '-'
  }

  /** The pattern [a-zA-Z0-9_-]{1,63}; also checkID. */
  predicate ValidId(id: string) {
    1 <= |id| <= 63 && forall i :: 0 <= i < |id| ==> IdChar(id[i])
  }

  // ---------------------------------------------------------------------------------------
  // Parsers
  // ---------------------------------------------------------------------------------------

  /** ^projects/([^/]+)/locations/([^/]+)$ */
  function ParseLocation(s: string): Option<LocationName> {
    var parts := Split(s);
    if |parts| == 4 && parts[0] == "projects" && parts[1] != [] && parts[2] == "locations" && parts[3] != []
    then Some(LocationName(parts[1], parts[3])) else None
  }

  /** ^(.*)/<collection>/(<id pattern>)$, where . does not match a newline. */
  function ParseTail(s: string, collection: string): Option<(string, string)> {
    var parts := Split(s);
    var n := |parts|;
    if n >= 3 && parts[n - 2] == collection && ValidId(parts[n - 1]) && NoNewline(Join(parts[..n - 2]))
    then Some((Join(parts[..n - 2]), parts[n - 1])) else None
  }

  function ParseKeyRing(s: string): Option<KeyRingName> {
    match ParseTail(s, "keyRings")
    case None => None
    case Some((prefix, id)) =>
      match ParseLocation(prefix)
      case None => None
      case Some(location) => Some(KeyRingName(location, id))
  }

  function ParseCryptoKey(s: string): Option<CryptoKeyName> {
    match ParseTail(s, "cryptoKeys")
    case None => None
    case Some((prefix, id)) =>
      match ParseKeyRing(prefix)
      case None => None
      case Some(ring) => Some(CryptoKeyName(ring, id))
  }

  function ParseVersion(s: string): Option<VersionName> {
    match ParseTail(s, "cryptoKeyVersions")
    case None => None
    case Some((prefix, id)) =>
      match ParseCryptoKey(prefix)
      case None => None
      case Some(key) => Some(VersionName(key, id))
  }

  // ---------------------------------------------------------------------------------------
  // Round trips
  // ---------------------------------------------------------------------------------------

  /** The tail parser finds the one way of reading `s` that the pattern allows. */
  lemma TailMatches(s: string, collection: string, prefix: string, id: string)
    requires NoSlash(collection)
    ensures ParseTail(s, collection) == Some((prefix, id))
       <==> s == Tail(prefix, collection, id) && NoNewline(prefix) && ValidId(id)
  {
    if ParseTail(s, collection) == Some((prefix, id)) {
      TailPrinted(s, collection, prefix, id);
    }
    if s == Tail(prefix, collection, id) && ValidId(id) {
      TailParts(prefix, collection, id);
    }
  }

  lemma TailPrinted(s: string, collection: string, prefix: string, id: string)
    requires ParseTail(s, collection) == Some((prefix, id))
    ensures s == Tail(prefix, collection, id)
  {
    var parts := Split(s);
    JoinSplit(s);
    assert parts == parts[..|parts| - 2] + [collection, id];
    JoinAppend(parts[..|parts| - 2], [collection, id]);
    JoinTwo(collection, id);
  }

  lemma TailParts(prefix: string, collection: string, id: string)
    requires NoSlash(collection) && NoSlash(id)
    ensures var parts := Split(Tail(prefix, collection, id));
            && |parts| >= 3 && parts == Split(prefix) + [collection, id]
            && Join(parts[..|parts| - 2]) == prefix
  {
    JoinSplit(prefix);
    var all := Split(prefix) + [collection, id];
    JoinAppend(Split(prefix), [collection, id]);
    assert Tail(prefix, collection, id) == Join(all);
    SplitJoin(all);
    assert all[..|all| - 2] == Split(prefix);
  }

  /** A string parses as a name exactly when it is the printed form of that name and the name is
      well formed. So printing a parsed name gives back the input, and parsing a printed name
      gives back the name if and only if it is well formed. */
  lemma LocationRoundTrip(s: string, n: LocationName)
    ensures ParseLocation(s) == Some(n) <==> s == n.Print() && n.WellFormed()
  {
    var parts := ["projects", n.project, "locations", n.location];
    LocationJoin(n);
    if n.WellFormed() {
      SplitJoin(parts);
    }
    JoinSplit(s);
    if ParseLocation(s) == Some(n) {
      assert Split(s) == parts;
    }
  }

  lemma LocationJoin(n: LocationName)
    ensures Join(["projects", n.project, "locations", n.location]) == n.Print()
  {
    JoinAppend(["projects", n.project], ["locations", n.location]);
    JoinTwo("projects", n.project);
    JoinTwo("locations", n.location);
  }

  lemma KeyRingRoundTrip(s: string, n: KeyRingName)
    ensures ParseKeyRing(s) == Some(n) <==> s == n.Print() && n.WellFormed()
  {
    LocationRoundTrip(n.location.Print(), n.location);
    TailMatches(s, "keyRings", n.location.Print(), n.id);
    if ParseKeyRing(s) == Some(n) {
      LocationRoundTrip(ParseTail(s, "keyRings").value.0, n.location);
    }
  }

  lemma TailNoNewline(prefix: string, collection: string, id: string)
    requires NoNewline(prefix) && NoNewline(collection) && ValidId(id)
    ensures NoNewline(Tail(prefix, collection, id))
  {
  }

  lemma CryptoKeyRoundTrip(s: string, n: CryptoKeyName)
    ensures ParseCryptoKey(s) == Some(n) <==> s == n.Print() && n.WellFormed()
    ensures n.WellFormed() ==> NoNewline(n.Print())
  {
    KeyRingRoundTrip(n.keyRing.Print(), n.keyRing);
    if n.WellFormed() {
      TailNoNewline(n.keyRing.location.Print(), "keyRings", n.keyRing.id);
      TailNoNewline(n.keyRing.Print(), "cryptoKeys", n.id);
    }
    TailMatches(s, "cryptoKeys", n.keyRing.Print(), n.id);
    if ParseCryptoKey(s) == Some(n) {
      KeyRingRoundTrip(ParseTail(s, "cryptoKeys").value.0, n.keyRing);
    }
  }

  lemma VersionRoundTrip(s: string, n: VersionName)
    ensures ParseVersion(s) == Some(n) <==> s == n.Print() && n.WellFormed()
  {
    CryptoKeyRoundTrip(n.cryptoKey.Print(), n.cryptoKey);
    TailMatches(s, "cryptoKeyVersions", n.cryptoKey.Print(), n.id);
    if ParseVersion(s) == Some(n) {
      CryptoKeyRoundTrip(ParseTail(s, "cryptoKeyVersions").value.0, n.cryptoKey);
    }
  }

  // ---------------------------------------------------------------------------------------
  // ExtractKeyId and ExtractLocationName
  // ---------------------------------------------------------------------------------------

  function ExtractKeyId(s: string): Option<string> {
    var parts := Split(s);
    if |parts| != 10 || parts[0] != "projects" || parts[2] != "locations" || parts[4] != "keyRings"
       || parts[6] != "cryptoKeys" || parts[8] != "cryptoKeyVersions"
    then None else Some(parts[7])
  }

  function ExtractLocationName(s: string): Option<string> {
    var parts := Split(s);
    if |parts| != 6 || parts[0] != "projects" || parts[2] != "locations" || parts[4] != "keyRings"
    then None else Some(Join(parts[..4]))
  }

  lemma LocationParts(n: LocationName)
    requires n.WellFormed()
    ensures Split(n.Print()) == ["projects", n.project, "locations", n.location]
  {
    LocationRoundTrip(n.Print(), n);
  }

  lemma KeyRingParts(n: KeyRingName)
    requires n.WellFormed()
    ensures Split(n.Print()) == ["projects", n.location.project, "locations", n.location.location, "keyRings", n.id]
  {
    LocationParts(n.location);
    TailParts(n.location.Print(), "keyRings", n.id);
  }

  /** Both helpers recover the components of the names the parsers accept. */
  lemma KeyIdExtracted(s: string, n: VersionName)
    requires ParseVersion(s) == Some(n)
    ensures ExtractKeyId(s) == Some(n.cryptoKey.id)
  {
    VersionRoundTrip(s, n);
    var key := n.cryptoKey;
    KeyRingParts(key.keyRing);
    TailParts(key.keyRing.Print(), "cryptoKeys", key.id);
    TailParts(key.Print(), "cryptoKeyVersions", n.id);
    var parts := Split(s);
    assert parts == Split(key.keyRing.Print()) + ["cryptoKeys", key.id, "cryptoKeyVersions", n.id];
  }

  lemma LocationExtracted(s: string, n: KeyRingName)
    requires ParseKeyRing(s) == Some(n)
    ensures ExtractLocationName(s) == Some(n.location.Print())
  {
    KeyRingRoundTrip(s, n);
    KeyRingParts(n);
    LocationParts(n.location);
    JoinSplit(n.location.Print());
    assert Split(s)[..4] == Split(n.location.Print());
  }

  /** The names as they are written. */
  lemma WrittenNames(v: VersionName)
    ensures var key := v.cryptoKey;
            var ring := key.keyRing;
            && ring.Print() == "projects/" + ring.location.project + "/locations/" + ring.location.location + "/keyRings/" + ring.id
            && v.Print() == ring.Print() + "/cryptoKeys/" + key.id + "/cryptoKeyVersions/" + v.id
  {
    var ring := v.cryptoKey.keyRing;
    assert "/locations/" == "/" + "locations" + "/" && "/keyRings/" == "/" + "keyRings" + "/";
    assert "/cryptoKeys/" == "/" + "cryptoKeys" + "/" && "/cryptoKeyVersions/" == "/" + "cryptoKeyVersions" + "/";
    assert ring.location.Print() == "projects/" + ring.location.project + "/locations/" + ring.location.location;
    assert ring.Print() == ring.location.Print() + "/keyRings/" + ring.id;
    assert v.cryptoKey.Print() == ring.Print() + "/cryptoKeys/" + v.cryptoKey.id;
    assert v.Print() == v.cryptoKey.Print() + "/cryptoKeyVersions/" + v.id;
  }

  /** IDs have 1 to 63 characters, each a letter, a digit, an underscore or a hyphen of ASCII. */
  lemma IdCharacters(id: string)
    ensures ValidId(id) <==>
              && 1 <= |id| <= 63
              && forall i | 0 <= i < |id| ::
                   var code := id[i] as int;
                   97 <= code <= 122 || 65 <= code <= 90 || 48 <= code <= 57 || code == 95 || code == 45
  {
  }
}
