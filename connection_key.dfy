/**
 * Connection keys (ConnKey): a resource key and a connection ordinal joined
 * by a `/`. Only the LAST `/` separates the two, so the resource key may
 * itself contain `/`.
 */
module ConnectionKey {
  import opened QtString

  /**
   * getResourceKey: connKey.left(connKey.lastIndexOf('/')). With no `/`,
   * lastIndexOf gives -1 and left(-1) is the whole key.
   */
  function GetResourceKey(k: string): (r: string)
    ensures '/' !in k ==> r == k
    ensures '/' in k ==> |r| < |k| && r == k[..|r|] && k[|r|] == '/' && '/' !in k[|r| + 1..]
  {
    Left(k, LastIndexOf(k, '/'))
  }

  /**
   * getConnectionKey: connKey.mid(connKey.lastIndexOf('/') + 1).toUInt(), that
   * is, toUInt of the text after the last `/`, or of the whole key when there is none.
   */
  function GetConnectionKey(k: string): (r: nat)
    ensures r <= UIntMax
    ensures '/' !in k ==> r == ToUInt(k)
    ensures '/' in k ==> r == ToUInt(k[|GetResourceKey(k)| + 1..])
  {
    ToUInt(Mid(k, LastIndexOf(k, '/') + 1))
  }

  /** In r + "/" + d with no `/` in d, the separator found is the one after r. */
  lemma SplitAtLastSlash(r: string, d: string)
    requires '/' !in d
    ensures GetResourceKey(r + "/" + d) == r
    ensures (r + "/" + d)[|r| + 1..] == d
  {
    var k := r + "/" + d;
    assert k[|r|] == '/';
    assert k[..|r|] == r;
  }

  /** Decoding an encoded key gives back both of its parts, whatever `/` the resource key holds. */
  lemma RoundTrip(r: string, n: nat)
    requires n <= UIntMax
    ensures GetResourceKey(r + "/" + Number(n)) == r
    ensures GetConnectionKey(r + "/" + Number(n)) == n
  {
    SplitAtLastSlash(r, Number(n));
    ToUIntNumber(n);
  }

  /**
   * Re-encoding a decoded key gives the key back exactly when its suffix is
   * the canonical decimal of a 32-bit value.
   */
  lemma ReEncode(k: string)
    requires '/' in k
    ensures var suffix := k[|GetResourceKey(k)| + 1..];
      (GetResourceKey(k) + "/" + Number(GetConnectionKey(k)) == k) <==>
      (suffix == Number(GetConnectionKey(k)))
  {
    var r := GetResourceKey(k);
    assert k == r + "/" + k[|r| + 1..];
  }

  /** A canonical 32-bit decimal suffix is re-encoded unchanged. */
  lemma ReEncodeCanonical(k: string)
    requires '/' in k
    requires var suffix := k[|GetResourceKey(k)| + 1..];
      ParseDecimal(suffix).Some? && Canonical(suffix) && ParseDecimal(suffix).value <= UIntMax
    ensures GetResourceKey(k) + "/" + Number(GetConnectionKey(k)) == k
  {
    var r := GetResourceKey(k);
    NumberParse(k[|r| + 1..]);
    ReEncode(k);
  }

  /** A suffix that is not all digits (a malformed ordinal) decodes to 0. */
  lemma MalformedOrdinal(r: string, suffix: string)
    requires '/' !in suffix && !AllDigits(suffix)
    ensures GetResourceKey(r + "/" + suffix) == r
    ensures GetConnectionKey(r + "/" + suffix) == 0
  {
    SplitAtLastSlash(r, suffix);
  }

  /** A key without a `/` is its own resource key and is parsed whole as the ordinal. */
  lemma NoSeparator(k: string)
    requires '/' !in k
    ensures GetResourceKey(k) == k && GetConnectionKey(k) == ToUInt(k)
  {
  }

  /** The example "a/b/c/42": resource key "a/b/c", connection 42. */
  lemma ExampleNumeric()
    ensures GetResourceKey("a/b/c/42") == "a/b/c" && GetConnectionKey("a/b/c/42") == 42
  {
    assert Number(42) == "42";
    assert "a/b/c/42" == "a/b/c" + "/" + "42";
    RoundTrip("a/b/c", 42);
  }

  /** The example "a/b/c/xyz": a malformed ordinal gives connection 0. */
  lemma ExampleMalformed()
    ensures GetResourceKey("a/b/c/xyz") == "a/b/c" && GetConnectionKey("a/b/c/xyz") == 0
  {
    assert !IsDigit("xyz"[0]);
    assert "a/b/c/xyz" == "a/b/c" + "/" + "xyz";
    MalformedOrdinal("a/b/c", "xyz");
  }

  /** The key "abc/": an empty ordinal gives connection 0. */
  lemma ExampleEmptyOrdinal()
    ensures GetResourceKey("abc/") == "abc" && GetConnectionKey("abc/") == 0
  {
    assert "abc/" == "abc" + "/" + "";
    SplitAtLastSlash("abc", "");
  }
}
