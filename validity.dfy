/**
 * What a valid product is: the generators of the backend's property tests,
 * written as predicates. A generator of strings drawn from some characters with
 * a length range becomes "every character is one of them and the length is in
 * range"; a filter becomes a conjunct; a mapped generator becomes an inverse.
 */
module ProductValidity {
  import opened Wrappers
  import opened Products

  /** The generators' `alpha()` (ASCII letters) and `numeric()` (ASCII digits). */
  predicate IsAsciiLetter(c: char) { 'a' <= c <= 'z' || 'A' <= c <= 'Z' }
  predicate IsAsciiDigit(c: char) { '0' <= c <= '9' }
  predicate IsAlphanumeric(c: char) { IsAsciiLetter(c) || IsAsciiDigit(c) }

  predicate IsNameChar(c: char) { IsAlphanumeric(c) || c == ' ' || c == '-' || c == '_' }
  predicate IsDescriptionChar(c: char) {
    IsAlphanumeric(c) || c == ' ' || c == '.' || c == ',' || c == '-' || c == '!' || c == '?'
  }
  predicate IsImageKeyChar(c: char) { IsAlphanumeric(c) || c == '/' || c == '.' || c == '-' || c == '_' }

  /**
   * Java's String.trim removes every leading and trailing character up to U+0020,
   * so `s.trim().isEmpty()` fails exactly when some character lies above U+0020.
   */
  predicate NotBlank(s: string) {
    exists k :: 0 <= k < |s| && s[k] > ' '
  }

  predicate ValidName(s: string) {
    1 <= |s| <= 100 && (forall k :: 0 <= k < |s| ==> IsNameChar(s[k])) && NotBlank(s)
  }

  predicate ValidDescription(s: string) {
    |s| <= 500 && forall k :: 0 <= k < |s| ==> IsDescriptionChar(s[k])
  }

  /** Two decimals between 0.01 and 9999.99, in cents. */
  const MinPriceCents: int := 1
  const MaxPriceCents: int := 999999
  predicate ValidPrice(cents: int) { MinPriceCents <= cents <= MaxPriceCents }

  const MaxStock: int := 10000
  predicate ValidStock(quantity: int) { 0 <= quantity <= MaxStock }

  const Categories: seq<string> := [
    "Electronics", "Clothing", "Books", "Home & Garden",
    "Sports", "Toys", "Food & Beverage", "Health & Beauty"
  ]
  predicate ValidCategory(category: Option<string>) {
    category.None? || category.value in Categories
  }

  const ImagePrefix: string := "https://example.com/images/"
  const ImageSuffix: string := ".jpg"

  predicate ValidImageKey(key: string) {
    10 <= |key| <= 100 && forall k :: 0 <= k < |key| ==> IsImageKeyChar(key[k])
  }

  /** The mapping the image-url generator applies to a key. */
  function ImageUrl(key: string): string {
    ImagePrefix + key + ImageSuffix
  }

  /** Recovers the key from a url of the generated shape. */
  function ImageKeyOf(url: string): string
    requires |url| >= |ImagePrefix| + |ImageSuffix|
  {
    url[|ImagePrefix|..|url| - |ImageSuffix|]
  }

  predicate ValidImageUrl(url: Option<string>) {
    url.None? ||
    (var u := url.value;
     && |u| >= |ImagePrefix| + |ImageSuffix|
     && u[..|ImagePrefix|] == ImagePrefix
     && u[|u| - |ImageSuffix|..] == ImageSuffix
     && ValidImageKey(ImageKeyOf(u)))
  }

  /** The six fields as `validProducts` combines them; the description is never null. */
  predicate ValidFields(f: Fields) {
    && ValidName(f.name)
    && f.description.Some? && ValidDescription(f.description.value)
    && ValidPrice(f.price)
    && ValidStock(f.stockQuantity)
    && ValidCategory(f.category)
    && ValidImageUrl(f.imageUrl)
  }

  /** A generated product: built by the six-argument constructor from valid fields. */
  predicate ValidProduct(p: Product) {
    p == NewProduct(p.MutableFields()) && ValidFields(p.MutableFields())
  }

  /** Every url the generator can produce is valid, and its key can be read back. */
  lemma ImageUrlRoundTrip(key: string)
    requires ValidImageKey(key)
    ensures ValidImageUrl(Some(ImageUrl(key)))
    ensures ImageKeyOf(ImageUrl(key)) == key
  {
    var u := ImageUrl(key);
    assert u[..|ImagePrefix|] == ImagePrefix;
    assert u[|u| - |ImageSuffix|..] == ImageSuffix;
    assert ImageKeyOf(u) == key;
  }

  /** Conversely, every valid non-null url is one the generator produces. */
  lemma ValidImageUrlIsGenerated(url: string)
    requires ValidImageUrl(Some(url))
    ensures url == ImageUrl(ImageKeyOf(url))
    ensures |ImagePrefix| + 10 + |ImageSuffix| <= |url| <= |ImagePrefix| + 100 + |ImageSuffix|
  {
    var key := ImageKeyOf(url);
    calc {
      url;
      url[..|ImagePrefix|] + url[|ImagePrefix|..|url| - |ImageSuffix|] + url[|url| - |ImageSuffix|..];
      ImagePrefix + key + ImageSuffix;
    }
  }

  /**
   * Over the name alphabet, Java's not-blank test means exactly that some
   * character is not a space.
   */
  lemma NameNotBlankIff(s: string)
    requires forall k :: 0 <= k < |s| ==> IsNameChar(s[k])
    ensures NotBlank(s) <==> exists k :: 0 <= k < |s| && s[k] != ' '
  {
    if NotBlank(s) {
      var k :| 0 <= k < |s| && s[k] > ' ';
      assert s[k] != ' ';
    }
    if k :| 0 <= k < |s| && s[k] != ' ' {
      assert IsNameChar(s[k]);
      assert s[k] > ' ';
    }
  }
}
