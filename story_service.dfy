/** The story queries of `StoryService` (`src/lib/story-service.ts`). The directory
    listing and the parsed files are inputs: `stories` is what `parseStoryFile` produced
    for each file name, in listing order. */
module StoryService {
  import opened JsString
  import opened JsArray
  import opened Results
  import StoryParser

  const DEFAULT_FEATURED_LIMIT := 6

  /** A parsed story, with the field types its front matter is cast to. */
  datatype StoryData = StoryData(
    slug: string,
    title: string,
    firstName: string,
    age: int,
    country: string,
    previousReligion: string,
    profilePhoto: string,
    featured: bool,
    language: string,
    contentHtml: string)

  function Title(story: StoryData): string { story.title }
  function Identity(s: string): string { s }

  /** The three `filter` callbacks the service uses. */
  datatype Criterion = InLocale(locale: string) | IsFeatured | FromCountry(country: string)

  predicate Holds(c: Criterion, story: StoryData) {
    match c
    case InLocale(locale) => story.language == locale
    case IsFeatured => story.featured
    case FromCountry(country) => ToLower(story.country) == ToLower(country)
  }

  /** `stories.filter(...)`: the stories meeting `c`, in their original order. */
  function Filter(stories: seq<StoryData>, c: Criterion): (r: seq<StoryData>)
    ensures forall x :: x in r <==> x in stories && Holds(c, x)
    ensures |r| <= |stories|
  {
    if stories == [] then []
    else
      assert stories == [stories[0]] + stories[1..];
      var rest := Filter(stories[1..], c);
      if Holds(c, stories[0]) then [stories[0]] + rest else rest
  }

  /** Filtering keeps every copy of a matching story and drops every other one. */
  lemma {:induction false} FilterCount(stories: seq<StoryData>, c: Criterion, x: StoryData)
    ensures multiset(Filter(stories, c))[x] == if Holds(c, x) then multiset(stories)[x] else 0
  {
    if stories != [] {
      assert stories == [stories[0]] + stories[1..];
      FilterCount(stories[1..], c, x);
    }
  }

  /** Filtering two permutations of each other gives permutations of each other. */
  lemma FilterPermutation(a: seq<StoryData>, b: seq<StoryData>, c: Criterion)
    requires multiset(a) == multiset(b)
    ensures multiset(Filter(a, c)) == multiset(Filter(b, c))
  {
    forall x ensures multiset(Filter(a, c))[x] == multiset(Filter(b, c))[x] {
      FilterCount(a, c, x);
      FilterCount(b, c, x);
    }
  }

  /** Filtering a title-ordered list leaves it title-ordered. */
  lemma {:induction false} FilterSorted(stories: seq<StoryData>, c: Criterion)
    requires SortedBy(stories, Title)
    ensures SortedBy(Filter(stories, c), Title)
  {
    if stories != [] {
      var rest := Filter(stories[1..], c);
      FilterSorted(stories[1..], c);
      if Holds(c, stories[0]) {
        forall j | 0 <= j < |rest| ensures !LexLess(rest[j].title, stories[0].title) {
          assert rest[j] in stories[1..];
        }
      }
    }
  }

  /** `getSortedStoriesData(locale)`: the locale's stories, ordered by title. */
  function GetSortedStoriesData(stories: seq<StoryData>, locale: string): (r: seq<StoryData>)
    ensures multiset(r) == multiset(Filter(stories, InLocale(locale)))
    ensures SortedBy(r, Title)
    ensures forall x :: x in r <==> x in stories && x.language == locale
  {
    var filtered := Filter(stories, InLocale(locale));
    var r := SortBy(filtered, Title);
    forall x ensures x in r <==> x in filtered {
      assert x in r <==> x in multiset(r);
      assert x in filtered <==> x in multiset(filtered);
    }
    r
  }

  /** `getStoryData(slug, locale)`: parse the one file the pair names; any failure of the
      parse becomes the not-found error. `parse` stands for `parseStoryFile`. */
  function GetStoryData<T>(slug: string, locale: string, parse: string -> Result<T, string>): (r: Result<T, string>)
    ensures r.Success? <==> parse(StoryParser.StoryFileName(slug, locale)).Success?
    ensures r.Success? ==> r.value == parse(StoryParser.StoryFileName(slug, locale)).value
    ensures r.Failure? ==> r.error == NotFoundMessage(slug)
  {
    match parse(StoryParser.StoryFileName(slug, locale))
    case Success(story) => Success(story)
    case Failure(_) => Failure(NotFoundMessage(slug))
  }

  function NotFoundMessage(slug: string): string {
    "Story with slug '" + slug + "' not found"
  }

  /** The `params` entry of one static page. */
  datatype PageParams = PageParams(params: StoryParser.SlugLocale)

  /** `getAllStorySlugs()`: one entry per file name, in listing order; every markdown file
      is found again under the name its entry builds. */
  function GetAllStorySlugs(fileNames: seq<string>): (r: seq<PageParams>)
    ensures |r| == |fileNames|
    ensures forall i :: 0 <= i < |r| ==> r[i].params == StoryParser.ExtractSlugAndLocale(fileNames[i])
    ensures forall i :: 0 <= i < |r| && EndsWith(fileNames[i], StoryParser.MARKDOWN_SUFFIX) ==>
              StoryParser.StoryFileName(r[i].params.slug, r[i].params.locale) == fileNames[i]
  {
    seq(|fileNames|, i requires 0 <= i < |fileNames| =>
      PageParams(StoryParser.ExtractSlugAndLocale(fileNames[i])))
  }

  /** `getFeaturedStories(locale, limit)`: the title-ordered featured stories of the locale,
      cut by `slice(0, limit)`: at most `limit` of them, and none that is left out has an
      earlier title than one that is kept. */
  function GetFeaturedStories(stories: seq<StoryData>, locale: string, limit: int): (r: seq<StoryData>)
    ensures var pool := Filter(Filter(stories, InLocale(locale)), IsFeatured);
      && |r| == SliceEnd(|pool|, limit)
      && multiset(r) <= multiset(pool)
      && SortedBy(r, Title)
      && forall x, y :: x in r && y in pool && y !in r ==> !LexLess(y.title, x.title)
  {
    var featured := Filter(GetSortedStoriesData(stories, locale), IsFeatured);
    var k := SliceEnd(|featured|, limit);
    FeaturedSelection(stories, locale, k);
    featured[..k]
  }

  /** `getFeaturedStories(locale)` with the limit left to its default: the first six
      featured stories of the locale in title order, or all of them when there are fewer. */
  function GetDefaultFeaturedStories(stories: seq<StoryData>, locale: string): (r: seq<StoryData>)
    ensures var pool := Filter(Filter(stories, InLocale(locale)), IsFeatured);
      && |r| == (if |pool| < DEFAULT_FEATURED_LIMIT then |pool| else DEFAULT_FEATURED_LIMIT)
      && multiset(r) <= multiset(pool)
      && SortedBy(r, Title)
      && forall x, y :: x in r && y in pool && y !in r ==> !LexLess(y.title, x.title)
  {
    GetFeaturedStories(stories, locale, DEFAULT_FEATURED_LIMIT)
  }

  /** What the first `k` title-ordered featured stories are, for any `k`. */
  lemma FeaturedSelection(stories: seq<StoryData>, locale: string, k: nat)
    requires k <= |Filter(GetSortedStoriesData(stories, locale), IsFeatured)|
    ensures var featured := Filter(GetSortedStoriesData(stories, locale), IsFeatured);
      var pool := Filter(Filter(stories, InLocale(locale)), IsFeatured);
      && |featured| == |pool|
      && multiset(featured[..k]) <= multiset(pool)
      && SortedBy(featured[..k], Title)
      && forall x, y :: x in featured[..k] && y in pool && y !in featured[..k] ==> !LexLess(y.title, x.title)
  {
    var sorted := GetSortedStoriesData(stories, locale);
    var featured := Filter(sorted, IsFeatured);
    var pool := Filter(Filter(stories, InLocale(locale)), IsFeatured);
    FeaturedIsPool(stories, locale);
    FilterSorted(sorted, IsFeatured);
    SortedPrefixOfPermutation(featured, pool, Title, k);
    forall x, y | x in featured[..k] && y in pool && y !in featured[..k] ensures !LexLess(y.title, x.title) {
      assert Title(x) == x.title && Title(y) == y.title;
    }
  }

  /** The featured stories of the sorted list are a permutation of the featured stories
      of the locale. */
  lemma FeaturedIsPool(stories: seq<StoryData>, locale: string)
    ensures multiset(Filter(GetSortedStoriesData(stories, locale), IsFeatured))
         == multiset(Filter(Filter(stories, InLocale(locale)), IsFeatured))
  {
    FilterPermutation(GetSortedStoriesData(stories, locale), Filter(stories, InLocale(locale)), IsFeatured);
  }

  /** `getStoriesByCountry(locale, country)`: the locale's stories whose country matches
      ignoring case, still in title order. */
  function GetStoriesByCountry(stories: seq<StoryData>, locale: string, country: string): (r: seq<StoryData>)
    ensures multiset(r) == multiset(Filter(Filter(stories, InLocale(locale)), FromCountry(country)))
    ensures SortedBy(r, Title)
    ensures forall x :: x in r <==>
              x in stories && x.language == locale && ToLower(x.country) == ToLower(country)
  {
    var sorted := GetSortedStoriesData(stories, locale);
    FilterPermutation(sorted, Filter(stories, InLocale(locale)), FromCountry(country));
    FilterSorted(sorted, FromCountry(country));
    Filter(sorted, FromCountry(country))
  }

  /** `stories.map(story => story.country)` */
  function Countries(stories: seq<StoryData>): (r: seq<string>)
    ensures |r| == |stories|
    ensures forall i :: 0 <= i < |r| ==> r[i] == stories[i].country
  {
    seq(|stories|, i requires 0 <= i < |stories| => stories[i].country)
  }

  /** `getAllCountries(locale)`: every country of the locale's stories, once each, in
      strictly increasing order. */
  function GetAllCountries(stories: seq<StoryData>, locale: string): (r: seq<string>)
    ensures forall i, j :: 0 <= i < j < |r| ==> LexLess(r[i], r[j])
    ensures forall c :: c in r <==> exists x :: x in stories && x.language == locale && x.country == c
  {
    var sorted := GetSortedStoriesData(stories, locale);
    var unique := Unique(Countries(sorted));
    var r := SortBy(unique, Identity);
    SortByDistinct(unique, Identity);
    StrictlyIncreasing(r, Identity);
    CountriesOfLocale(stories, locale, unique, r);
    r
  }

  lemma CountriesOfLocale(stories: seq<StoryData>, locale: string, unique: seq<string>, r: seq<string>)
    requires unique == Unique(Countries(GetSortedStoriesData(stories, locale)))
    requires multiset(r) == multiset(unique)
    ensures forall c :: c in r <==> exists x :: x in stories && x.language == locale && x.country == c
  {
    var sorted := GetSortedStoriesData(stories, locale);
    var names := Countries(sorted);
    forall c ensures c in r <==> exists x :: x in stories && x.language == locale && x.country == c {
      assert c in r <==> c in multiset(unique);
      assert c in unique <==> c in names;
      if c in names {
        var k :| 0 <= k < |names| && names[k] == c;
        assert sorted[k] in sorted;
      }
      if x :| x in stories && x.language == locale && x.country == c {
        var k :| 0 <= k < |sorted| && sorted[k] == x;
        assert names[k] == c;
      }
    }
  }
}
