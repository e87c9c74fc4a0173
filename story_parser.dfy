/** How a story's markdown file name encodes its slug and locale
    (`src/lib/story-parser.ts`): `<slug>-ar.md` holds the Arabic version of a story and
    `<slug>.md` the English one. Reading the file, the front-matter parser and the
    markdown-to-HTML conversion are foreign calls; their results are parameters here. */
module StoryParser {
  import opened JsString

  const ARABIC_SUFFIX := "-ar.md"
  const MARKDOWN_SUFFIX := ".md"

  /** `{ slug, locale }` as returned by `extractSlugAndLocale`. */
  datatype SlugLocale = SlugLocale(slug: string, locale: string)

  /** `extractSlug`: drop a trailing `-ar.md`, or else a trailing `.md`; any other name
      is its own slug. */
  function ExtractSlug(fileName: string): (slug: string)
    ensures StartsWith(fileName, slug)
    ensures EndsWith(fileName, ARABIC_SUFFIX) ==> fileName == slug + ARABIC_SUFFIX
    ensures !EndsWith(fileName, ARABIC_SUFFIX) && EndsWith(fileName, MARKDOWN_SUFFIX) ==>
              fileName == slug + MARKDOWN_SUFFIX
    ensures !EndsWith(fileName, MARKDOWN_SUFFIX) ==> slug == fileName
  {
    if EndsWith(fileName, ARABIC_SUFFIX) then
      var slug := fileName[..|fileName| - |ARABIC_SUFFIX|];
      EndsWithAppended(fileName, ARABIC_SUFFIX);
      slug
    else if EndsWith(fileName, MARKDOWN_SUFFIX) then
      var slug := fileName[..|fileName| - |MARKDOWN_SUFFIX|];
      EndsWithAppended(fileName, MARKDOWN_SUFFIX);
      slug
    else
      fileName
  }

  /** `extractSlugAndLocale`: the locale is `ar` exactly for names ending in `-ar.md`,
      and `en` for every other name, markdown or not. */
  function ExtractSlugAndLocale(fileName: string): (r: SlugLocale)
    ensures r.locale == "ar" <==> EndsWith(fileName, ARABIC_SUFFIX)
    ensures r.locale == "ar" || r.locale == "en"
    ensures r.slug == ExtractSlug(fileName)
  {
    var isArabic := EndsWith(fileName, ARABIC_SUFFIX);
    SlugLocale(ExtractSlug(fileName), if isArabic then "ar" else "en")
  }

  /** The file name a (slug, locale) pair is stored under, as built in `storyFileExists`
      and `StoryService.getStoryData`: `ar` picks the Arabic file, any other locale the
      English one. */
  function StoryFileName(slug: string, locale: string): (fileName: string)
    ensures EndsWith(fileName, MARKDOWN_SUFFIX)
    ensures StartsWith(fileName, slug)
    ensures locale == "ar" ==> fileName == slug + ARABIC_SUFFIX
    ensures locale != "ar" ==> fileName == slug + MARKDOWN_SUFFIX
    ensures EndsWith(fileName, ARABIC_SUFFIX) <==> locale == "ar" || EndsWith(slug, "-ar")
  {
    var name := if locale == "ar" then slug + ARABIC_SUFFIX else slug + MARKDOWN_SUFFIX;
    assert name[..|slug|] == slug;
    assert name[|name| - 3..] == MARKDOWN_SUFFIX;
    assert locale != "ar" && |slug| >= 3 ==> name[|name| - 6..] == slug[|slug| - 3..] + MARKDOWN_SUFFIX;
    name
  }

  /** The locale that the file name of (slug, locale) reads back as. */
  function NormalLocale(locale: string): string {
    if locale == "ar" then "ar" else "en"
  }

  /** Building a file name and reading it back returns the slug and the normalised locale,
      provided the slug itself does not end in `-ar`. */
  lemma RoundTripFromSlug(slug: string, locale: string)
    requires !EndsWith(slug, "-ar")
    ensures ExtractSlugAndLocale(StoryFileName(slug, locale)) == SlugLocale(slug, NormalLocale(locale))
  {
    var name := StoryFileName(slug, locale);
    var back := ExtractSlug(name);
    if locale == "ar" {
      assert back + ARABIC_SUFFIX == slug + ARABIC_SUFFIX;
      assert back == (back + ARABIC_SUFFIX)[..|back|];
    } else {
      assert back + MARKDOWN_SUFFIX == slug + MARKDOWN_SUFFIX;
      assert back == (back + MARKDOWN_SUFFIX)[..|back|];
    }
  }

  /** The other half: an English story whose slug ends in `-ar` is read back as the
      Arabic story of the slug without that ending. */
  lemma ArabicLookingSlugIsMisread(slug: string, locale: string)
    requires EndsWith(slug, "-ar") && locale != "ar"
    ensures ExtractSlugAndLocale(StoryFileName(slug, locale)) == SlugLocale(slug[..|slug| - 3], "ar")
  {
    var name := StoryFileName(slug, locale);
    var back := ExtractSlug(name);
    var stem := slug[..|slug| - 3];
    assert slug == stem + "-ar";
    assert name == stem + ARABIC_SUFFIX;
    assert back + ARABIC_SUFFIX == stem + ARABIC_SUFFIX;
    assert back == (back + ARABIC_SUFFIX)[..|back|];
  }

  /** Reading a markdown file name and building the name again gives the same name back. */
  lemma RoundTripFromFileName(fileName: string)
    requires EndsWith(fileName, MARKDOWN_SUFFIX)
    ensures var e := ExtractSlugAndLocale(fileName); StoryFileName(e.slug, e.locale) == fileName
  {
  }

  /** A front-matter value, as the front-matter parser may produce it. */
  datatype Value = Text(text: string) | Number(number: int) | Flag(flag: bool) | Undefined | Structured

  /** `parseStoryFile`'s record `{ slug, contentHtml, ...data, language: data.language }`:
      the slug comes from the file name, every front-matter key is copied over it (and may
      replace `slug` or `contentHtml`), and `language` is front matter's own, `undefined`
      when it has none. */
  function AssembleStory(fileName: string, contentHtml: string, data: map<string, Value>): (story: map<string, Value>)
    ensures story.Keys == data.Keys + {"slug", "contentHtml", "language"}
    ensures forall k :: k in data ==> story[k] == data[k]
    ensures "slug" !in data ==> story["slug"] == Text(ExtractSlug(fileName))
    ensures "contentHtml" !in data ==> story["contentHtml"] == Text(contentHtml)
    ensures "language" !in data ==> story["language"] == Undefined
  {
    var base := map["slug" := Text(ExtractSlug(fileName)), "contentHtml" := Text(contentHtml)];
    var language := if "language" in data then data["language"] else Undefined;
    (base + data)["language" := language]
  }
}
