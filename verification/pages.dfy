/**
 * Phase 4 naming and the per-product gallery: the review page's file name,
 * the search strings embedded in the source-citation links, and the
 * category rule that chooses which set of gallery images a product gets.
 */
module Pages {
  import opened Text
  import opened Trending

  // ----- the review page file -----

  const ReviewSuffix: string := "-review.html"
  const ReviewsDir: string := "reviews/"

  /** What one character of the product name becomes in the file name. */
  function SlugChar(c: char): char {
    if c == ' ' || c == '/' then '-' else LowerChar(c)
  }

  /**
   * `product_name.lower().replace(' ', '-').replace('/', '-') + '-review.html'`:
   * the stem is the name mapped character by character.
   */
  function ReviewFilename(name: string): (r: string)
    ensures |r| == |name| + |ReviewSuffix|
    ensures r[|name|..] == ReviewSuffix
    ensures forall i :: 0 <= i < |name| ==> r[i] == SlugChar(name[i])
  {
    var lowered := Lower(name);
    var dashed := ReplaceChar(lowered, ' ', "-");
    ReplaceByCharPointwise(lowered, ' ', '-');
    ReplaceByCharPointwise(dashed, '/', '-');
    ReplaceChar(dashed, '/', "-") + ReviewSuffix
  }

  /** `os.path.join('reviews', filename)` on a POSIX system. */
  function ReviewFilePath(name: string): (r: string)
    ensures |r| == |ReviewsDir| + |ReviewFilename(name)|
    ensures r[..|ReviewsDir|] == ReviewsDir
    ensures r[|ReviewsDir|..] == ReviewFilename(name)
  {
    ReviewsDir + ReviewFilename(name)
  }

  /** The stem of a review file name holds no space, no slash and no ASCII capital. */
  lemma FilenameStemClean(name: string)
    ensures forall i :: 0 <= i < |name| ==>
              var c := ReviewFilename(name)[i]; c != ' ' && c != '/' && !IsAsciiUpper(c)
  {
  }

  /**
   * Two names give the same file exactly when they have the same length and
   * agree character by character once case, spaces and slashes are folded.
   */
  lemma FilenameEqualIff(a: string, b: string)
    ensures ReviewFilename(a) == ReviewFilename(b)
            <==> |a| == |b| && forall i :: 0 <= i < |a| ==> SlugChar(a[i]) == SlugChar(b[i])
  {
    var fa, fb := ReviewFilename(a), ReviewFilename(b);
    if fa == fb {
      assert |a| == |b|;
      forall i | 0 <= i < |a| ensures SlugChar(a[i]) == SlugChar(b[i]) {
        assert fa[i] == fb[i];
      }
    }
    if |a| == |b| && forall i :: 0 <= i < |a| ==> SlugChar(a[i]) == SlugChar(b[i]) {
      assert fa[|a|..] == fb[|b|..];
      assert fa[..|a|] == fb[..|b|];
      assert fa == fa[..|a|] + fa[|a|..];
      assert fb == fb[..|b|] + fb[|b|..];
    }
  }

  /** Distinct products can share a file: a slash and a space both become a dash. */
  lemma FilenameCollision()
    ensures "A/B" != "a b"
    ensures ReviewFilename("A/B") == ReviewFilename("a b")
  {
    var a, b := "A/B", "a b";
    assert a[0] != b[0];
    assert SlugChar(a[0]) == 'a' == SlugChar(b[0]);
    assert SlugChar(a[1]) == '-' == SlugChar(b[1]);
    assert SlugChar(a[2]) == 'b' == SlugChar(b[2]);
    FilenameEqualIff(a, b);
  }

  // ----- the citation search strings -----

  /** `product_name.lower().replace(' ', '%20')`, used in the YouTube and Google links. */
  function SearchQuery(name: string): (r: string)
    ensures ' ' !in r
    ensures |r| == |name| + 2 * Count(Lower(name), ' ')
  {
    ReplaceChar(Lower(name), ' ', "%20")
  }

  /** `product_name.lower().replace(' ', '+')`. */
  function RedditQuery(name: string): (r: string)
    ensures ' ' !in r
    ensures |r| == |name|
  {
    ReplaceChar(Lower(name), ' ', "+")
  }

  /** Turns every "%20" back into a space, left to right. */
  function DecodeSpaces(t: string): string
    decreases |t|
  {
    if |t| >= 3 && t[..3] == "%20" then " " + DecodeSpaces(t[3..])
    else if |t| == 0 then ""
    else [t[0]] + DecodeSpaces(t[1..])
  }

  lemma {:induction false} DecodeSpacesInverts(s: string)
    requires '%' !in s
    ensures DecodeSpaces(ReplaceChar(s, ' ', "%20")) == s
  {
    if |s| > 0 {
      DecodeSpacesInverts(s[1..]);
      var t := ReplaceChar(s, ' ', "%20");
      var rest := ReplaceChar(s[1..], ' ', "%20");
      if s[0] == ' ' {
        assert t == "%20" + rest;
        assert t[3..] == rest;
      } else {
        assert t == [s[0]] + rest;
        assert t[1..] == rest;
      }
    }
  }

  lemma {:induction false} ReplaceBack(s: string, c: char, d: char)
    requires d !in s
    ensures ReplaceChar(ReplaceChar(s, c, [d]), d, [c]) == s
  {
    if |s| > 0 {
      ReplaceBack(s[1..], c, d);
      var t := ReplaceChar(s, c, [d]);
      assert t == [if s[0] == c then d else s[0]] + ReplaceChar(s[1..], c, [d]);
      assert t[1..] == ReplaceChar(s[1..], c, [d]);
    }
  }

  lemma LowerKeeps(s: string, c: char)
    requires !IsAsciiUpper(c) && !('a' <= c <= 'z') && c !in s
    ensures c !in Lower(s)
  {
    forall i | 0 <= i < |Lower(s)|
      ensures Lower(s)[i] != c
    {
      assert s[i] != c;
    }
  }

  /** Without a '%' in the name, the "%20" query decodes back to the lower-cased name. */
  lemma SearchQueryRoundTrip(name: string)
    requires '%' !in name
    ensures DecodeSpaces(SearchQuery(name)) == Lower(name)
  {
    LowerKeeps(name, '%');
    DecodeSpacesInverts(Lower(name));
  }

  /** Without a '+' in the name, turning '+' back into spaces recovers the lower-cased name. */
  lemma RedditQueryRoundTrip(name: string)
    requires '+' !in name
    ensures ReplaceChar(RedditQuery(name), '+', " ") == Lower(name)
  {
    LowerKeeps(name, '+');
    ReplaceBack(Lower(name), ' ', '+');
  }

  // ----- the gallery -----

  datatype GalleryImage = GalleryImage(src: string, alt: string, caption: string, fallback: string)

  /** The placeholder shown when a gallery image fails to load. */
  const FallbackSvg: string :=
    "data:image/svg+xml;base64,PHN2ZyB3aWR0aD0iNjAwIiBoZWlnaHQ9IjQwMCIgdmlld0JveD0iMC"
    + "AwIDYwMCA0MDAiIGZpbGw9Im5vbmUiIHhtbG5zPSJodHRwOi8vd3d3LnczLm9yZy8yMDAwL3N2ZyI+Cj"
    + "xyZWN0IHdpZHRoPSI2MDAiIGhlaWdodD0iNDAwIiBmaWxsPSIjZjNmNGY2Ii8+CjxyZWN0IHg9IjIwIi"
    + "B5PSIyMCIgd2lkdGg9IjU2MCIgaGVpZ2h0PSIzNjAiIGZpbGw9Im5vbmUiIHN0cm9rZT0iIzY2N2VlYS"
    + "Igc3Ryb2tlLXdpZHRoPSIyIi8+Cjx0ZXh0IHg9IjMwMCIgeT0iMTgwIiB0ZXh0LWFuY2hvcj0ibWlkZG"
    + "xlIiBmaWxsPSIjNjY3ZWVhIiBmb250LXNpemU9IjI0Ij7wn5O3PC90ZXh0Pgo8dGV4dCB4PSIzMDAiIH"
    + "k9IjIyMCIgdGV4dC1hbmNob3I9Im1pZGRsZSIgZmlsbD0iIzY2N2VlYSIgZm9udC1zaXplPSIxNiI+UH"
    + "JvZHVjdCBJbWFnZTwvdGV4dD4KPC9zdmc+"

  const PhoneShot: string := Unsplash("1695048133142-1a20484d2569")
  const PhoneUnboxing: string := Unsplash("1695048133096-5b90d5230e80")
  const PhoneLifestyle: string := Unsplash("1574484284002-952d92456975")
  const GamingSetup: string := Unsplash("1542751371-adc38448a05e")
  const GamingPortable: string := Unsplash("1538481199705-c710c4e965fc")
  const GenericPhoto: string := Unsplash("1596462502278-27bfdc403348")
  const GenericInUse: string := Unsplash("1556909114-f6e7ad7d3136")

  /** Every gallery source is a 600x400 crop of an Unsplash photo. */
  function Unsplash(photo: string): (r: string)
    ensures |r| > 34 + |photo| && r[..34] == "https://images.unsplash.com/photo-"
    ensures r[34..34 + |photo|] == photo
  {
    "https://images.unsplash.com/photo-" + photo + "?w=600&h=400&fit=crop&crop=center&auto=format&q=80"
  }

  /** Different photos give different URLs. */
  lemma UnsplashInjective(a: string, b: string)
    ensures Unsplash(a) == Unsplash(b) <==> a == b
  {
    if Unsplash(a) == Unsplash(b) {
      assert |a| == |b|;
    }
  }

  /** `product.get('category', 'Product')`. */
  function CategoryOf(p: Product): string {
    p.category.GetOr("Product")
  }

  predicate IsPhone(p: Product) {
    Contains(Lower(CategoryOf(p)), "smartphone") || Contains(Lower(p.name), "iphone")
  }

  predicate IsGaming(p: Product) {
    Contains(Lower(CategoryOf(p)), "gaming") || Contains(Lower(p.name), "steam deck")
  }

  /**
   * The shape every image set shares: the fallback SVG on each image, each
   * alt text starting with the product name and a space, and a first
   * caption starting with the name and " - ".
   */
  predicate NamedImages(r: seq<GalleryImage>, n: string) {
    && |r| > 0
    && (forall k :: 0 <= k < |r| ==> r[k].fallback == FallbackSvg)
    && (forall k :: 0 <= k < |r| ==> |r[k].alt| > |n| + 1 && r[k].alt[..|n| + 1] == n + " ")
    && |r[0].caption| > |n| + 3 && r[0].caption[..|n| + 3] == n + " - "
  }

  function PhoneImages(n: string): (r: seq<GalleryImage>)
    ensures |r| == 3 && r[0].src == PhoneShot && NamedImages(r, n)
  {
    [ GalleryImage(PhoneShot, n + " official product shot", n + " - Official Product Shot", FallbackSvg),
      GalleryImage(PhoneUnboxing, n + " unboxing", "Premium Unboxing Experience", FallbackSvg),
      GalleryImage(PhoneLifestyle, n + " lifestyle usage", "Real-World Usage", FallbackSvg) ]
  }

  function GamingImages(n: string): (r: seq<GalleryImage>)
    ensures |r| == 2 && r[0].src == GamingSetup && NamedImages(r, n)
  {
    [ GalleryImage(GamingSetup, n + " gaming setup", n + " - Gaming Experience", FallbackSvg),
      GalleryImage(GamingPortable, n + " portable gaming", "Portable Gaming Excellence", FallbackSvg) ]
  }

  function GenericImages(n: string): (r: seq<GalleryImage>)
    ensures |r| == 2 && r[0].src == GenericPhoto && NamedImages(r, n)
  {
    [ GalleryImage(GenericPhoto, n + " product photo", n + " - Official Product Shot", FallbackSvg),
      GalleryImage(GenericInUse, n + " in use", "Real-World Performance", FallbackSvg) ]
  }

  /** `_get_gallery_images`: three phone images, else two gaming images, else two generic ones. */
  function GalleryImages(p: Product): (r: seq<GalleryImage>)
    ensures |r| == if IsPhone(p) then 3 else 2
    ensures forall k :: 0 <= k < |r| ==> r[k].fallback == FallbackSvg
    ensures forall k :: 0 <= k < |r| ==> |r[k].alt| > |p.name| + 1 && r[k].alt[..|p.name| + 1] == p.name + " "
    ensures |r[0].caption| > |p.name| + 3 && r[0].caption[..|p.name| + 3] == p.name + " - "
  {
    if IsPhone(p) then PhoneImages(p.name)
    else if IsGaming(p) then GamingImages(p.name)
    else GenericImages(p.name)
  }

  /**
   * The first image identifies the rule that fired: the phone rule wins over
   * the gaming rule, and the gaming rule over the generic set.
   */
  lemma GalleryRulePrecedence(p: Product)
    ensures GalleryImages(p)[0].src == PhoneShot <==> IsPhone(p)
    ensures GalleryImages(p)[0].src == GamingSetup <==> !IsPhone(p) && IsGaming(p)
    ensures GalleryImages(p)[0].src == GenericPhoto <==> !IsPhone(p) && !IsGaming(p)
  {
    UnsplashInjective("1695048133142-1a20484d2569", "1542751371-adc38448a05e");
    UnsplashInjective("1695048133142-1a20484d2569", "1596462502278-27bfdc403348");
    UnsplashInjective("1542751371-adc38448a05e", "1596462502278-27bfdc403348");
  }

  /** A smartphone category or "iphone" in the name selects the phone set, whatever the gaming rule says. */
  lemma PhoneNameSelectsPhoneSet(p: Product)
    requires exists i :: OccursAt(Lower(p.name), "iphone", i)
    ensures |GalleryImages(p)| == 3
    ensures GalleryImages(p)[0].src == PhoneShot
  {
    ContainsIff(Lower(p.name), "iphone");
  }
}
