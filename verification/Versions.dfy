/** Data versions: a packed word holding a major version, a minor version and a
    final-minor mark, compared without the mark. */
module Versions {

  datatype Version = Version(major: int, minor: int, finalMinor: int)

  const NO_VERSION := Version(0, 0, 0)

  /** The packed word is positive; its top sixteen bits are the mark. */
  predicate Positive(v: Version) {
    v.finalMinor > 0 || (v.finalMinor == 0 && v != NO_VERSION)
  }

  function Compare(l: Version, r: Version): int {
    if l.major == r.major && l.minor == r.minor then 0
    else if l.major < r.major || (l.major == r.major && l.minor < r.minor) then -1
    else 1
  }

  predicate NotNewer(l: Version, r: Version) {
    Compare(l, r) <= 0
  }

  /** By major version, then by minor version. */
  predicate UpTo(l: Version, r: Version) {
    l.major < r.major || (l.major == r.major && l.minor <= r.minor)
  }

  /** The comparison is the order of major and minor versions, and the mark never matters. */
  lemma CompareIsOrder(l: Version, r: Version, mark: int, mark': int)
    ensures NotNewer(l, r) <==> UpTo(l, r)
    ensures Compare(l, r) == 0 <==> UpTo(l, r) && UpTo(r, l)
    ensures Compare(l, r) == -Compare(r, l)
    ensures Compare(l.(finalMinor := mark), r.(finalMinor := mark')) == Compare(l, r)
  {
  }

  /** The packed word: the mark in the top sixteen bits, then sixteen bits of minor and
      thirty-two bits of major version. */
  function Packed(v: Version): int {
    v.finalMinor * 0x1_0000_0000_0000 + v.minor * 0x1_0000_0000 + v.major
  }

  /** A version is valid exactly when its packed word is above zero. */
  lemma PositiveIsWord(v: Version)
    requires 0 <= v.major < 0x1_0000_0000 && 0 <= v.minor < 0x1_0000
    ensures Positive(v) <==> Packed(v) > 0
  {
  }
}
