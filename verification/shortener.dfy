/** The link shortener of the main tree: a 6-character key cut from the MD5
    hex digest of the full URL, a bare-key mapping, and one mapping shared by
    every instance (a process-wide singleton).

    MD5 itself is not modelled: every operation takes the digest as a
    function `md5` that yields 32 lowercase hex characters. */
module Shortener {
  import opened Common
  import opened Text

  /** What a lookup answers for a key that is not in the mapping. */
  const NotFound: string := "URL не найден"

  /** Number of digest characters that form a key. */
  const KeyLength: nat := 6

  datatype LinkShortener = LinkShortener(urlMapping: map<string, string>)

  /** `LinkShortener()`: the class attribute `_instance` is `slot`; the first
      construction creates the one shared instance with an empty mapping,
      every later one hands back that same instance. The second component is
      the class attribute afterwards. */
  function Construct(slot: Option<LinkShortener>): (r: (LinkShortener, Option<LinkShortener>))
    ensures r.1 == Some(r.0)
    ensures slot.None? ==> r.0.urlMapping == map[]
    ensures slot.Some? ==> r == (slot.value, slot)
  {
    match slot
    case None => (LinkShortener(map[]), Some(LinkShortener(map[])))
    case Some(instance) => (instance, slot)
  }

  /** All instances share one mapping: constructing again after a first
      construction yields the very instance (and mapping) of the first. */
  lemma ConstructShared(slot: Option<LinkShortener>)
    ensures Construct(Construct(slot).1) == Construct(slot)
    ensures Construct(Construct(slot).1).0.urlMapping == Construct(slot).0.urlMapping
  {
  }

  /** `shorten_url`: the key is the first six digest characters; the mapping
      gains (or overwrites) that key with the full URL and keeps every other
      entry. */
  function ShortenUrl(s: LinkShortener, md5: string -> HexDigest, fullUrl: string): (r: (string, LinkShortener))
    ensures r.0 == md5(fullUrl)[..KeyLength]
    ensures |r.0| == KeyLength && IsLowerHex(r.0)
    ensures r.1.urlMapping.Keys == s.urlMapping.Keys + {r.0}
    ensures r.1.urlMapping[r.0] == fullUrl
    ensures forall k :: k in s.urlMapping && k != r.0 ==> r.1.urlMapping[k] == s.urlMapping[k]
  {
    var key := md5(fullUrl)[..KeyLength];
    (key, LinkShortener(s.urlMapping[key := fullUrl]))
  }

  /** `restore_url`: `GetOr` with the sentinel as default. It
      takes no shortener to return, so it cannot change the mapping. */
  function RestoreUrl(s: LinkShortener, key: string): (r: string)
    ensures key in s.urlMapping ==> r == s.urlMapping[key]
    ensures key !in s.urlMapping ==> r == NotFound
  {
    GetOr(s.urlMapping, key, NotFound)
  }

  /** Restoring the key just handed out gives back the URL, whatever the
      mapping held before. */
  lemma RestoreAfterShorten(s: LinkShortener, md5: string -> HexDigest, u: string)
    ensures RestoreUrl(ShortenUrl(s, md5, u).1, ShortenUrl(s, md5, u).0) == u
  {
  }

  /** Shortening the same URL twice returns the same key and leaves the
      mapping as the first call left it. */
  lemma ShortenIdempotent(s: LinkShortener, md5: string -> HexDigest, u: string)
    ensures ShortenUrl(ShortenUrl(s, md5, u).1, md5, u) == ShortenUrl(s, md5, u)
  {
    var (k, s1) := ShortenUrl(s, md5, u);
    StoreHeldValue(s1.urlMapping, k, u);
  }

  /** The key depends on the URL alone, not on what the mapping holds. */
  lemma KeyIsDeterministic(s1: LinkShortener, s2: LinkShortener, md5: string -> HexDigest, u: string)
    ensures ShortenUrl(s1, md5, u).0 == ShortenUrl(s2, md5, u).0
  {
  }

  /** Two URLs whose digests agree on the first six characters alias: after
      shortening both, the shared key restores the later one only (last
      write wins), and lookups of other keys are as before. */
  lemma CollisionLastWriteWins(s: LinkShortener, md5: string -> HexDigest, u1: string, u2: string, other: string)
    requires md5(u1)[..KeyLength] == md5(u2)[..KeyLength]
    requires other != md5(u1)[..KeyLength]
    ensures var s2 := ShortenUrl(ShortenUrl(s, md5, u1).1, md5, u2).1;
      && RestoreUrl(s2, ShortenUrl(s, md5, u1).0) == u2
      && RestoreUrl(s2, other) == RestoreUrl(s, other)
  {
  }

  /** A fresh shared instance knows no key: every lookup answers the
      sentinel. */
  lemma FreshInstanceKnowsNothing(key: string)
    ensures RestoreUrl(Construct(None).0, key) == NotFound
  {
  }
}
