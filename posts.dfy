/**
 * The post record and how one markdown file becomes one: the slug derived
 * from the file name, and the record built from the front-matter fields and
 * the body with a fixed default for every field.
 */
module Posts {
  import opened Js

  datatype Option<+T> = None | Some(value: T)

  datatype Result<+T, +E> = Ok(value: T) | Err(error: E)

  /** The suffix that marks a markdown post file. */
  const Md: string := ".md"

  const UntitledPost: string := "Untitled Post"
  const Anonymous: string := "Anonymous"
  const DateNotAvailable: string := "Date not available"

  /** The front-matter keys the record reads; every other key is ignored. */
  const RecognisedKeys: set<string> :=
    {"title", "date", "excerpt", "tags", "author", "featured", "featuredImage"}

  /**
   * The date library, which the model does not look inside:
   * `parseIso(v)` is the instant `parseISO(v)` denotes, or None for an Invalid Date
   * (on which `format` throws); `formatLong(t)` is `format(t, 'MMMM d, yyyy')`;
   * `toTime(v)` is the time value of `new Date(v)`, None when it is NaN.
   */
  datatype DateLib = DateLib(
    parseIso: Value -> Option<int>,
    formatLong: int -> string,
    toTime: Value -> Option<int>)

  /**
   * One post. Fields taken from the front matter keep whatever value the
   * parser produced (the record is built with an unchecked cast), so they are
   * JavaScript values rather than strings.
   */
  datatype BlogPost = BlogPost(
    slug: string,
    title: Value,
    date: Value,
    formattedDate: Value,
    excerpt: Value,
    content: string,
    tags: Value,
    author: Value,
    featured: Value,
    featuredImage: Value)

  /** `name.endsWith('.md')` */
  predicate EndsWithMd(name: string) {
    |name| >= |Md| && name[|name| - |Md|..] == Md
  }

  /** `name.replace(/\.md$/, '')`: removes one trailing ".md" and leaves any other name alone. */
  function StripMd(name: string): (r: string)
    ensures EndsWithMd(name) ==> r + Md == name
    ensures !EndsWithMd(name) ==> r == name
  {
    if EndsWithMd(name) then name[..|name| - |Md|] else name
  }

  /** Every slug names its file: appending ".md" to a slug gives a post file name whose slug it is. */
  lemma SlugFileRoundTrip(slug: string)
    ensures EndsWithMd(slug + Md)
    ensures StripMd(slug + Md) == slug
  {

  }

  /** Different slugs name different files. */
  lemma SlugOfFileIsUnique(x: string, y: string)
    requires x + Md == y + Md
    ensures x == y
  {
    assert x == (x + Md)[..|x|];
    assert y == (y + Md)[..|y|];
  }

  /** Two post files never share a slug. */
  lemma StripMdInjective(a: string, b: string)
    requires EndsWithMd(a) && EndsWithMd(b)
    ensures StripMd(a) == StripMd(b) <==> a == b
  {
  }

  /** Only the last ".md" goes: "a.md.md" is the file of post "a.md"; ".md" is the file of the empty slug. */
  lemma StripMdExamples()
    ensures StripMd("a.md.md") == "a.md"
    ensures StripMd("hello.md") == "hello"
    ensures StripMd(".md") == ""
    ensures StripMd("notes.mdx") == "notes.mdx"
    ensures StripMd("md") == "md"
  {

  }

  /** `matterResult.data.date || new Date().toISOString()` */
  function DateValue(data: map<string, Value>, now: string): Value {
    Or(Get(data, "date"), Str(now))
  }

  /**
   * `formattedDate`: the formatted date when `parseISO` gives a valid date,
   * otherwise the front-matter date if truthy, otherwise "Date not available".
   */
  function FormattedDate(data: map<string, Value>, now: string, lib: DateLib): Value {
    match lib.parseIso(DateValue(data, now))
    case Some(t) => Str(lib.formatLong(t))
    case None => Or(Get(data, "date"), Str(DateNotAvailable))
  }

  /** The record both the listing and the lookup build from one parsed file. */
  function BuildPost(slug: string, data: map<string, Value>, content: string, now: string, lib: DateLib): (p: BlogPost)
    ensures p.slug == slug
    ensures p.content == content
  {
    BlogPost(
      slug,
      Or(Get(data, "title"), Str(UntitledPost)),
      DateValue(data, now),
      FormattedDate(data, now, lib),
      Or(Get(data, "excerpt"), Str("")),
      content,
      Or(Get(data, "tags"), List([])),
      Or(Get(data, "author"), Str(Anonymous)),
      Or(Get(data, "featured"), Bool(false)),
      Or(Get(data, "featuredImage"), Undefined))
  }

  /**
   * Each optional field keeps its front-matter value when that is truthy and
   * takes its fixed default when the key is missing or the value is falsy.
   */
  lemma FieldDefaults(slug: string, data: map<string, Value>, content: string, now: string, lib: DateLib)
    ensures var p := BuildPost(slug, data, content, now, lib);
      && p.title == (if Truthy(Get(data, "title")) then data["title"] else Str(UntitledPost))
      && p.excerpt == (if Truthy(Get(data, "excerpt")) then data["excerpt"] else Str(""))
      && p.tags == (if Truthy(Get(data, "tags")) then data["tags"] else List([]))
      && p.author == (if Truthy(Get(data, "author")) then data["author"] else Str(Anonymous))
      && p.featured == (if Truthy(Get(data, "featured")) then data["featured"] else Bool(false))
      && p.featuredImage == (if Truthy(Get(data, "featuredImage")) then data["featuredImage"] else Undefined)
  {
  }

  /**
   * `date` is the front-matter date when truthy, else `now`; `formattedDate`
   * is the formatted date when parsing succeeds, else the raw front-matter
   * date (which is then `date` itself), else "Date not available".
   */
  lemma DateFields(slug: string, data: map<string, Value>, content: string, now: string, lib: DateLib)
    ensures var p := BuildPost(slug, data, content, now, lib);
      && (Truthy(Get(data, "date")) ==> p.date == data["date"])
      && (!Truthy(Get(data, "date")) ==> p.date == Str(now))
      && (lib.parseIso(p.date).Some? ==> p.formattedDate == Str(lib.formatLong(lib.parseIso(p.date).value)))
      && (lib.parseIso(p.date).None? && Truthy(Get(data, "date")) ==> p.formattedDate == p.date)
      && (lib.parseIso(p.date).None? && !Truthy(Get(data, "date")) ==> p.formattedDate == Str(DateNotAvailable))
  {
  }

  /**
   * Nothing can leave a record without a usable value: title, tags and author
   * are always truthy, the remaining optional fields are truthy or exactly
   * their falsy default, and a formatted date that did not come from the
   * formatter is truthy too.
   */
  lemma RecordAlwaysPopulated(slug: string, data: map<string, Value>, content: string, now: string, lib: DateLib)
    ensures var p := BuildPost(slug, data, content, now, lib);
      && Truthy(p.title) && Truthy(p.tags) && Truthy(p.author)
      && (Truthy(p.excerpt) || p.excerpt == Str(""))
      && (Truthy(p.featured) || p.featured == Bool(false))
      && (Truthy(p.featuredImage) || p.featuredImage == Undefined)
      && (now != "" ==> Truthy(p.date))
      && (lib.parseIso(p.date).None? ==> Truthy(p.formattedDate))
  {
  }

  /** A file whose front matter is empty yields every default, `now` as its date, and its body as content. */
  lemma EmptyFrontMatter(slug: string, content: string, now: string, lib: DateLib)
    ensures BuildPost(slug, map[], content, now, lib)
      == BlogPost(slug, Str(UntitledPost), Str(now),
                  if lib.parseIso(Str(now)).Some? then Str(lib.formatLong(lib.parseIso(Str(now)).value))
                  else Str(DateNotAvailable),
                  Str(""), content, List([]), Str(Anonymous), Bool(false), Undefined)
  {
  }

  /** Keys the record does not read have no effect on it. */
  lemma UnrecognisedKeysIgnored(slug: string, data: map<string, Value>, key: string, v: Value,
                                content: string, now: string, lib: DateLib)
    requires key !in RecognisedKeys
    ensures BuildPost(slug, data[key := v], content, now, lib) == BuildPost(slug, data, content, now, lib)
  {

  }

  /** Updating one front-matter key leaves every other key's value as it was. */
  lemma GetAfterUpdate(data: map<string, Value>, key: string, v: Value, k: string)
    ensures Get(data[key := v], k) == if k == key then v else Get(data, k)
  {

  }

  /**
   * Fields are defaulted independently: changing one optional key changes
   * only its own field.
   */
  lemma FieldsIndependent(slug: string, data: map<string, Value>, key: string, v: Value,
                          content: string, now: string, lib: DateLib)
    requires key in RecognisedKeys - {"date"}
    ensures var p := BuildPost(slug, data, content, now, lib);
      var q := BuildPost(slug, data[key := v], content, now, lib);
      q == match key
        case "title" => p.(title := Or(v, Str(UntitledPost)))
        case "excerpt" => p.(excerpt := Or(v, Str("")))
        case "tags" => p.(tags := Or(v, List([])))
        case "author" => p.(author := Or(v, Str(Anonymous)))
        case "featured" => p.(featured := Or(v, Bool(false)))
        case _ => p.(featuredImage := Or(v, Undefined))
  {

  }

  /** Changing the front-matter date changes only `date` and `formattedDate`. */
  lemma DateIndependent(slug: string, data: map<string, Value>, v: Value,
                        content: string, now: string, lib: DateLib)
    ensures var p := BuildPost(slug, data, content, now, lib);
      var q := BuildPost(slug, data["date" := v], content, now, lib);
      && q == p.(date := q.date, formattedDate := q.formattedDate)
      && q.date == Or(v, Str(now))
  {

  }

  /**
   * The clock matters only to `date` and `formattedDate`, and only when the
   * front matter has no truthy date: two builds of one file at different
   * times agree on every other field, and agree entirely when it has one.
   */
  lemma BuildPostClockIndependent(slug: string, data: map<string, Value>, content: string,
                                  now1: string, now2: string, lib: DateLib)
    ensures var p := BuildPost(slug, data, content, now1, lib);
      var q := BuildPost(slug, data, content, now2, lib);
      && q == p.(date := q.date, formattedDate := q.formattedDate)
      && (Truthy(Get(data, "date")) ==> q == p)
      && (!Truthy(Get(data, "date")) ==> q.date == Str(now2))
  {

  }
}
