/** The link shortener of the `foodgram` tree: a 3-character key cut from the
    MD5 hex digest, handed out and stored as `"s/" + key`, with a mapping of
    its own in every instance. MD5 is a parameter, as in `Shortener`. */
module FoodgramShortener {
  import opened Common
  import opened Text

  const NotFound: string := "URL не найден"

  /** Number of digest characters that form a key. */
  const KeyLength: nat := 3

  /** Every short link starts with this. */
  const Prefix: string := "s/"

  datatype LinkShortener = LinkShortener(urlMapping: map<string, string>)

  /** `LinkShortener()`: a new instance starts with an empty mapping. */
  function New(): (r: LinkShortener)
    ensures forall k :: RestoreUrl(r, k) == NotFound
  {
    LinkShortener(map[])
  }

  /** The route `^s/([a-f0-9]{3})/$` captures exactly these codes. */
  predicate IsShortCode(code: string) {
    |code| == KeyLength && IsLowerHex(code)
  }

  /** `shorten_url`: the short link is `"s/"` and the first three digest
      characters; the mapping is keyed by that whole link. */
  function ShortenUrl(s: LinkShortener, md5: string -> HexDigest, fullUrl: string): (r: (string, LinkShortener))
    ensures |r.0| == |Prefix| + KeyLength
    ensures r.0 == Prefix + md5(fullUrl)[..KeyLength]
    ensures IsShortCode(r.0[|Prefix|..])
    ensures r.1.urlMapping.Keys == s.urlMapping.Keys + {r.0}
    ensures r.1.urlMapping[r.0] == fullUrl
    ensures forall k :: k in s.urlMapping && k != r.0 ==> r.1.urlMapping[k] == s.urlMapping[k]
  {
    var shortUrl := Prefix + md5(fullUrl)[..KeyLength];
    (shortUrl, LinkShortener(s.urlMapping[shortUrl := fullUrl]))
  }

  /** `restore_url`: `GetOr` with the sentinel as default. */
  function RestoreUrl(s: LinkShortener, shortUrl: string): (r: string)
    ensures shortUrl in s.urlMapping ==> r == s.urlMapping[shortUrl]
    ensures shortUrl !in s.urlMapping ==> r == NotFound
  {
    GetOr(s.urlMapping, shortUrl, NotFound)
  }

  /** Restoring the link just handed out gives back the URL. */
  lemma RestoreAfterShorten(s: LinkShortener, md5: string -> HexDigest, u: string)
    ensures RestoreUrl(ShortenUrl(s, md5, u).1, ShortenUrl(s, md5, u).0) == u
  {
  }

  /** The mapping is keyed by the prefixed link: the bare three-character
      code is never a key of it when it only ever received short links. */
  lemma BareCodeIsNoKey(md5: string -> HexDigest, u: string)
    ensures var (link, s) := ShortenUrl(New(), md5, u);
      RestoreUrl(s, link[|Prefix|..]) == NotFound
  {
    var (link, s) := ShortenUrl(New(), md5, u);
    assert |link[|Prefix|..]| != |link|;
  }

  /** Shortening the same URL twice returns the same link and leaves the
      mapping as the first call left it. */
  lemma ShortenIdempotent(s: LinkShortener, md5: string -> HexDigest, u: string)
    ensures ShortenUrl(ShortenUrl(s, md5, u).1, md5, u) == ShortenUrl(s, md5, u)
  {
    var (k, s1) := ShortenUrl(s, md5, u);
    StoreHeldValue(s1.urlMapping, k, u);
  }
}
