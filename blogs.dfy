/**
 * The three read operations over the posts directory: the sorted post list,
 * the slug list, and the lookup of one post by slug.
 */
module Blogs {
  import opened Js
  import opened Posts
  import opened PostOrder

  /** What reading one directory entry gives: `readFileSync` throws, `matter` throws, or the parsed file. */
  datatype Entry = Unreadable | Malformed | Parsed(data: map<string, Value>, content: string)

  /**
   * The posts directory: the names `readdirSync` enumerates (None when it
   * throws) and, for each name `existsSync` finds, what reading it gives.
   */
  datatype Directory = Directory(listing: Option<seq<string>>, entries: map<string, Entry>)

  /** The exception that escapes the listing when one post file cannot be read or parsed. */
  datatype LoadError = ReadFailed(name: string) | ParseFailed(name: string)

  /** The listing, when there is one, names exactly the entries that exist. */
  ghost predicate Consistent(dir: Directory) {
    dir.listing.Some? ==> forall n :: n in dir.listing.value <==> n in dir.entries
  }

  predicate Distinct<T(==)>(s: seq<T>) {
    forall i, j :: 0 <= i < j < |s| ==> s[i] != s[j]
  }

  /** The entry exists and both reading and front-matter parsing succeed. */
  predicate Loads(dir: Directory, name: string) {
    name in dir.entries && dir.entries[name].Parsed?
  }

  /** The post is what the file for its slug builds, given `now` and the date library. */
  predicate FromFile(dir: Directory, p: BlogPost, now: string, lib: DateLib) {
    var name := p.slug + Md;
    Loads(dir, name)
    && p == BuildPost(p.slug, dir.entries[name].data, dir.entries[name].content, now, lib)
  }

  // ---------------------------------------------------------------------------
  // Slugs

  /** `fileNames.filter(fileName => fileName.endsWith('.md'))` */
  function MdNames(names: seq<string>): (r: seq<string>)
    ensures |r| <= |names|
    ensures forall n :: n in r <==> n in names && EndsWithMd(n)
  {
    if names == [] then []
    else (if EndsWithMd(names[0]) then [names[0]] else []) + MdNames(names[1..])
  }

  /** The filter keeps enumeration order: it distributes over concatenation. */
  lemma {:induction false} MdNamesAppend(a: seq<string>, b: seq<string>)
    ensures MdNames(a + b) == MdNames(a) + MdNames(b)
  {
    if a == [] {
      assert a + b == b;
    } else {
      assert (a + b)[1..] == a[1..] + b;
      MdNamesAppend(a[1..], b);
    }
  }

  /** A listing without repeated names gives post files without repeated names. */
  lemma {:induction false} MdNamesDistinct(names: seq<string>)
    requires Distinct(names)
    ensures Distinct(MdNames(names))
  {
    if names != [] {
      var rest := names[1..];
      assert Distinct(rest) by {
        forall i, j | 0 <= i < j < |rest| ensures rest[i] != rest[j] {
          assert rest[i] == names[i + 1] && rest[j] == names[j + 1];
        }
      }
      MdNamesDistinct(rest);
      assert names[0] !in rest by {
        forall k | 0 <= k < |rest| ensures rest[k] != names[0] {
          assert rest[k] == names[k + 1];
        }
      }
      assert names[0] !in MdNames(rest);
    }
  }

  /** `.map(fileName => fileName.replace(/\.md$/, ''))` */
  function SlugsOf(mdNames: seq<string>): seq<string> {
    seq(|mdNames|, i requires 0 <= i < |mdNames| => StripMd(mdNames[i]))
  }

  /**
   * `getAllPostSlugs`: one slug per ".md" name in enumeration order, each the
   * name without its ".md"; nothing when the directory cannot be listed.
   */
  function GetAllPostSlugs(dir: Directory): (r: seq<string>)
    ensures dir.listing.None? ==> r == []
    ensures dir.listing.Some? ==>
      var md := MdNames(dir.listing.value);
      |r| == |md| && forall i :: 0 <= i < |r| ==> r[i] + Md == md[i]
  {
    match dir.listing
    case None => []
    case Some(names) =>
      var md := MdNames(names);
      assert forall i :: 0 <= i < |md| ==> EndsWithMd(md[i]) by {
        forall i | 0 <= i < |md| ensures EndsWithMd(md[i]) {
          assert md[i] in md;
        }
      }
      SlugsOf(md)
  }

  /** A string is a slug exactly when the listing holds that string followed by ".md". */
  lemma SlugMembership(dir: Directory, s: string)
    ensures s in GetAllPostSlugs(dir) <==> dir.listing.Some? && s + Md in dir.listing.value
  {

  }

  /** A listing without repeated names gives no repeated slugs. */
  lemma SlugsDistinct(dir: Directory)
    requires dir.listing.Some? && Distinct(dir.listing.value)
    ensures Distinct(GetAllPostSlugs(dir))
  {
    var md := MdNames(dir.listing.value);
    MdNamesDistinct(dir.listing.value);
    var r := GetAllPostSlugs(dir);
    forall i, j | 0 <= i < j < |r| ensures r[i] != r[j] {
      assert r[i] + Md == md[i] && r[j] + Md == md[j];
    }
  }

  // ---------------------------------------------------------------------------
  // The sorted listing

  /** Reads and parses one post file, as the listing's `.map` callback does; a throw becomes Err. */
  function ReadPost(dir: Directory, name: string, slug: string, now: string, lib: DateLib): (r: Result<BlogPost, LoadError>)
    ensures r.Ok? <==> Loads(dir, name)
    ensures r.Err? ==> r.error.name == name
    ensures r.Ok? ==> r.value.slug == slug && r.value.content == dir.entries[name].content
  {
    if name !in dir.entries then Err(ReadFailed(name))
    else match dir.entries[name]
      case Unreadable => Err(ReadFailed(name))
      case Malformed => Err(ParseFailed(name))
      case Parsed(data, content) => Ok(BuildPost(slug, data, content, now, lib))
  }

  /**
   * The `.map` over the ".md" names: one post per name, in order, or the
   * error of the first name that fails, which stops the whole listing.
   */
  function BuildAll(dir: Directory, mdNames: seq<string>, now: string, lib: DateLib): (r: Result<seq<BlogPost>, LoadError>)
    ensures r.Ok? <==> forall i :: 0 <= i < |mdNames| ==> Loads(dir, mdNames[i])
    ensures r.Ok? ==> |r.value| == |mdNames|
    ensures r.Ok? ==> forall i :: 0 <= i < |mdNames| ==>
      r.value[i] == ReadPost(dir, mdNames[i], StripMd(mdNames[i]), now, lib).value
    ensures r.Err? ==> exists i :: (0 <= i < |mdNames| && !Loads(dir, mdNames[i])
      && (forall j :: 0 <= j < i ==> Loads(dir, mdNames[j]))
      && r.error == ReadPost(dir, mdNames[i], StripMd(mdNames[i]), now, lib).error)
  {
    if mdNames == [] then Ok([])
    else
      match ReadPost(dir, mdNames[0], StripMd(mdNames[0]), now, lib)
      case Err(e) => Err(e)
      case Ok(p) =>
        match BuildAll(dir, mdNames[1..], now, lib)
        case Err(e) =>
          assert forall i :: 1 <= i < |mdNames| ==> mdNames[i] == mdNames[1..][i - 1];
          Err(e)
        case Ok(ps) =>
          assert forall i :: 1 <= i < |mdNames| ==> mdNames[i] == mdNames[1..][i - 1];
          Ok([p] + ps)
  }

  /**
   * `getSortedPostsData`: nothing when the directory cannot be listed;
   * otherwise the post of every ".md" file, newest first, or the error that
   * escapes when one of them cannot be read or parsed.
   */
  function GetSortedPostsData(dir: Directory, now: string, lib: DateLib): (r: Result<seq<BlogPost>, LoadError>)
    ensures dir.listing.None? ==> r == Ok([])
    ensures r.Err? <==> dir.listing.Some? && exists n :: n in MdNames(dir.listing.value) && !Loads(dir, n)
    ensures r.Ok? ==> AllDated(lib, r.value) ==> NewestFirst(lib, r.value)
    ensures r.Ok? ==> forall p :: p in r.value ==> FromFile(dir, p, now, lib)
  {
    match dir.listing
    case None => Ok([])
    case Some(names) =>
      var md := MdNames(names);
      match BuildAll(dir, md, now, lib)
      case Err(e) =>
        Err(e)
      case Ok(posts) =>
        var sorted := SortNewestFirst(lib, posts);
        BuiltPostsFromFiles(dir, md, now, lib);
        assert AllDated(lib, sorted) ==> AllDated(lib, posts) by {
          if AllDated(lib, sorted) {
            AllDatedPermutation(lib, sorted, posts);
          }
        }
        assert forall p :: p in sorted ==> p in posts by {
          forall p | p in sorted ensures p in posts {
            assert p in multiset(posts);
          }
        }
        Ok(sorted)
  }

  /** Each post the `.map` builds from a ".md" name is what the file for its slug builds. */
  lemma BuiltPostsFromFiles(dir: Directory, md: seq<string>, now: string, lib: DateLib)
    requires forall n :: n in md ==> EndsWithMd(n)
    requires BuildAll(dir, md, now, lib).Ok?
    ensures forall p :: p in BuildAll(dir, md, now, lib).value ==> FromFile(dir, p, now, lib)
  {
    var posts := BuildAll(dir, md, now, lib).value;
    forall p | p in posts ensures FromFile(dir, p, now, lib) {
      var i :| 0 <= i < |posts| && posts[i] == p;
      assert md[i] in md;
      BuiltPostFromFile(dir, md, now, lib, i);
    }
  }

  /** The post the `.map` builds from the i-th ".md" name is what the file for its slug builds. */
  lemma BuiltPostFromFile(dir: Directory, md: seq<string>, now: string, lib: DateLib, i: nat)
    requires i < |md| && EndsWithMd(md[i])
    requires BuildAll(dir, md, now, lib).Ok?
    ensures FromFile(dir, BuildAll(dir, md, now, lib).value[i], now, lib)
  {
    assert StripMd(md[i]) + Md == md[i];
  }

  /** The slugs of a post list, in its order. */
  function SlugList(posts: seq<BlogPost>): (r: seq<string>)
    ensures |r| == |posts|
    ensures forall i :: 0 <= i < |r| ==> r[i] == posts[i].slug
  {
    if posts == [] then [] else [posts[0].slug] + SlugList(posts[1..])
  }

  /** Inserting a post adds exactly its slug to the list's slugs. */
  lemma {:induction false} InsertSlugs(lib: DateLib, p: BlogPost, s: seq<BlogPost>)
    ensures multiset(SlugList(Insert(lib, p, s))) == multiset(SlugList(s)) + multiset{p.slug}
  {
    if s == [] {
    } else if Compare(lib, p, s[0]) < 0 {
      assert ([p] + s)[1..] == s;
      assert SlugList([p] + s) == [p.slug] + SlugList(s);
    } else {
      var rest := Insert(lib, p, s[1..]);
      InsertSlugs(lib, p, s[1..]);
      assert ([s[0]] + rest)[1..] == rest;
      assert SlugList([s[0]] + rest) == [s[0].slug] + SlugList(rest);
      assert SlugList(s) == [s[0].slug] + SlugList(s[1..]);
    }
  }

  /** Sorting only reorders: the slugs before and after are the same multiset. */
  lemma {:induction false} SortKeepsSlugs(lib: DateLib, posts: seq<BlogPost>)
    ensures multiset(SlugList(SortNewestFirst(lib, posts))) == multiset(SlugList(posts))
  {
    if posts != [] {
      SortKeepsSlugs(lib, posts[1..]);
      InsertSlugs(lib, posts[0], SortNewestFirst(lib, posts[1..]));
    }
  }

  /**
   * The sorted listing holds one post per slug of `getAllPostSlugs`: its
   * slugs are a permutation of that list.
   */
  lemma SortedListingIsPermutationOfSlugs(dir: Directory, now: string, lib: DateLib)
    requires GetSortedPostsData(dir, now, lib).Ok?
    ensures multiset(SlugList(GetSortedPostsData(dir, now, lib).value)) == multiset(GetAllPostSlugs(dir))
  {
    if dir.listing.Some? {
      var md := MdNames(dir.listing.value);
      var posts := BuildAll(dir, md, now, lib).value;
      SortKeepsSlugs(lib, posts);
      BuiltSlugsAreSlugs(dir, now, lib);
    }
  }

  /** Before sorting, the built posts carry the slugs of `getAllPostSlugs`, in the same order. */
  lemma BuiltSlugsAreSlugs(dir: Directory, now: string, lib: DateLib)
    requires dir.listing.Some?
    requires BuildAll(dir, MdNames(dir.listing.value), now, lib).Ok?
    ensures SlugList(BuildAll(dir, MdNames(dir.listing.value), now, lib).value) == GetAllPostSlugs(dir)
  {
    var md := MdNames(dir.listing.value);
    var posts := BuildAll(dir, md, now, lib).value;
    var slugs := GetAllPostSlugs(dir);
    var built := SlugList(posts);
    forall i | 0 <= i < |posts| ensures built[i] == slugs[i] {
      assert slugs[i] + Md == md[i];
      assert EndsWithMd(md[i]) by { assert md[i] in md; }
      assert posts[i].slug == StripMd(md[i]);
    }
  }

  // ---------------------------------------------------------------------------
  // Lookup by slug

  /**
   * `getPostData(slug)`: None when "<slug>.md" does not exist or reading or
   * parsing it throws; otherwise the record built from that file, carrying
   * the requested slug.
   */
  function GetPostData(dir: Directory, slug: string, now: string, lib: DateLib): (r: Option<BlogPost>)
    ensures r.Some? <==> Loads(dir, slug + Md)
    ensures r.Some? ==> r.value.slug == slug && FromFile(dir, r.value, now, lib)
  {
    var name := slug + Md;
    if name !in dir.entries then None
    else match ReadPost(dir, name, slug, now, lib)
      case Ok(p) => Some(p)
      case Err(_) => None
  }

  /** Every post of a successful listing is what the lookup returns for its slug. */
  lemma LookupAgreesWithListing(dir: Directory, now: string, lib: DateLib, p: BlogPost)
    requires GetSortedPostsData(dir, now, lib).Ok?
    requires p in GetSortedPostsData(dir, now, lib).value
    ensures GetPostData(dir, p.slug, now, lib) == Some(p)
  {
  }

  /**
   * The listing and the lookup read the clock separately. Whatever the two
   * clocks read, the lookup finds every listed post and agrees with it on
   * every field but `date` and `formattedDate`; when the file has a truthy
   * front-matter date it returns the listed post exactly.
   */
  lemma LookupAgreesWithListingAnyClock(dir: Directory, now1: string, now2: string, lib: DateLib, p: BlogPost)
    requires GetSortedPostsData(dir, now1, lib).Ok?
    requires p in GetSortedPostsData(dir, now1, lib).value
    ensures Loads(dir, p.slug + Md) && GetPostData(dir, p.slug, now2, lib).Some?
    ensures var q := GetPostData(dir, p.slug, now2, lib).value;
      q == p.(date := q.date, formattedDate := q.formattedDate)
    ensures Truthy(Get(dir.entries[p.slug + Md].data, "date")) ==> GetPostData(dir, p.slug, now2, lib) == Some(p)
  {
    var e := dir.entries[p.slug + Md];
    BuildPostClockIndependent(p.slug, e.data, e.content, now1, now2, lib);
  }

  /**
   * In a consistent directory whose listing succeeds, a post the lookup finds
   * is in the listing and its slug is one `getAllPostSlugs` declares; and
   * every declared slug is found.
   */
  lemma ListingCoversLookup(dir: Directory, slug: string, now: string, lib: DateLib)
    requires Consistent(dir) && dir.listing.Some?
    requires GetSortedPostsData(dir, now, lib).Ok?
    ensures GetPostData(dir, slug, now, lib).Some? <==> slug in GetAllPostSlugs(dir)
    ensures GetPostData(dir, slug, now, lib).Some? ==>
      GetPostData(dir, slug, now, lib).value in GetSortedPostsData(dir, now, lib).value
  {
    var names := dir.listing.value;
    var md := MdNames(names);
    var name := slug + Md;
    SlugMembership(dir, slug);
    SlugFileRoundTrip(slug);
    if GetPostData(dir, slug, now, lib).Some? {
      assert name in md;
      var i :| 0 <= i < |md| && md[i] == name;
      var posts := BuildAll(dir, md, now, lib).value;
      var sorted := GetSortedPostsData(dir, now, lib).value;
      assert posts[i] == GetPostData(dir, slug, now, lib).value;
      assert sorted == SortNewestFirst(lib, posts);
      assert posts[i] in multiset(sorted);
    }
    if slug in GetAllPostSlugs(dir) {
      assert name in md;
    }
  }

  // ---------------------------------------------------------------------------
  // A worked directory

  /** Two posts, "a" dated 2024-01-01 with no other metadata and "b" dated 2024-06-01 titled "Second", beside a text file. */
  function ExampleDirectory(bodyA: string, bodyB: string): Directory {
    Directory(
      Some(["a.md", "notes.txt", "b.md"]),
      map[
        "a.md" := Parsed(map["date" := Str("2024-01-01")], bodyA),
        "notes.txt" := Unreadable,
        "b.md" := Parsed(map["date" := Str("2024-06-01"), "title" := Str("Second")], bodyB)])
  }

  /** The example's slugs are [a, b]: the text file is skipped and the order is the listing's. */
  lemma ExampleSlugs(bodyA: string, bodyB: string)
    ensures GetAllPostSlugs(ExampleDirectory(bodyA, bodyB)) == ["a", "b"]
  {
    var names := ["a.md", "notes.txt", "b.md"];
    SlugFileRoundTrip("a");
    SlugFileRoundTrip("b");
    assert !EndsWithMd("notes.txt");
    assert names[1..] == ["notes.txt", "b.md"] && names[1..][1..] == ["b.md"];
    assert MdNames(names) == ["a.md", "b.md"];
    var slugs := GetAllPostSlugs(ExampleDirectory(bodyA, bodyB));
    SlugOfFileIsUnique(slugs[0], "a");
    SlugOfFileIsUnique(slugs[1], "b");
  }

  /** The example's ".md" names, in listing order. */
  lemma ExampleMdNames(bodyA: string, bodyB: string)
    ensures MdNames(ExampleDirectory(bodyA, bodyB).listing.value) == ["a.md", "b.md"]
  {

  }

  /** Reading the example's two ".md" files. */
  lemma ExampleReads(bodyA: string, bodyB: string, now: string, lib: DateLib)
    ensures var dir := ExampleDirectory(bodyA, bodyB);
      && ReadPost(dir, "a.md", StripMd("a.md"), now, lib)
         == Ok(BuildPost("a", map["date" := Str("2024-01-01")], bodyA, now, lib))
      && ReadPost(dir, "b.md", StripMd("b.md"), now, lib)
         == Ok(BuildPost("b", map["date" := Str("2024-06-01"), "title" := Str("Second")], bodyB, now, lib))
  {
    SlugFileRoundTrip("a");
    SlugFileRoundTrip("b");
    assert "a" + Md == "a.md" && "b" + Md == "b.md";
  }

  /** The posts the example's two ".md" files build, in listing order. */
  lemma ExampleBuilt(bodyA: string, bodyB: string, now: string, lib: DateLib)
    ensures BuildAll(ExampleDirectory(bodyA, bodyB), ["a.md", "b.md"], now, lib)
      == Ok([BuildPost("a", map["date" := Str("2024-01-01")], bodyA, now, lib),
             BuildPost("b", map["date" := Str("2024-06-01"), "title" := Str("Second")], bodyB, now, lib)])
  {
    var dir := ExampleDirectory(bodyA, bodyB);
    var a := BuildPost("a", map["date" := Str("2024-01-01")], bodyA, now, lib);
    var b := BuildPost("b", map["date" := Str("2024-06-01"), "title" := Str("Second")], bodyB, now, lib);
    ExampleReads(bodyA, bodyB, now, lib);
    assert ["a.md", "b.md"][1..] == ["b.md"] && ["b.md"][1..] == [];
    assert BuildAll(dir, [], now, lib) == Ok([]);
    assert [b] + [] == [b] && [a] + [b] == [a, b];
    assert BuildAll(dir, ["b.md"], now, lib) == Ok([b]);
  }

  /** The example's listing is the sort of its two posts. */
  lemma ExampleListingSorts(bodyA: string, bodyB: string, now: string, lib: DateLib)
    ensures GetSortedPostsData(ExampleDirectory(bodyA, bodyB), now, lib)
      == Ok(SortNewestFirst(lib,
              [BuildPost("a", map["date" := Str("2024-01-01")], bodyA, now, lib),
               BuildPost("b", map["date" := Str("2024-06-01"), "title" := Str("Second")], bodyB, now, lib)]))
  {
    ExampleMdNames(bodyA, bodyB);
    ExampleBuilt(bodyA, bodyB, now, lib);
  }

  /** With dates that convert in calendar order, the example's two posts sort as [b, a]. */
  lemma ExampleOrder(bodyA: string, bodyB: string, now: string, lib: DateLib, t1: int, t2: int)
    requires lib.toTime(Str("2024-01-01")) == Some(t1)
    requires lib.toTime(Str("2024-06-01")) == Some(t2)
    requires t1 < t2
    ensures var a := BuildPost("a", map["date" := Str("2024-01-01")], bodyA, now, lib);
      var b := BuildPost("b", map["date" := Str("2024-06-01"), "title" := Str("Second")], bodyB, now, lib);
      SortNewestFirst(lib, [a, b]) == [b, a]
  {
    var a := BuildPost("a", map["date" := Str("2024-01-01")], bodyA, now, lib);
    var b := BuildPost("b", map["date" := Str("2024-06-01"), "title" := Str("Second")], bodyB, now, lib);
    assert a.date == Str("2024-01-01") && b.date == Str("2024-06-01");
    SortTwo(lib, a, b);
  }

  /** With dates that convert in calendar order, the example lists [b, a]. */
  lemma ExampleListing(bodyA: string, bodyB: string, now: string, lib: DateLib, t1: int, t2: int)
    requires lib.toTime(Str("2024-01-01")) == Some(t1)
    requires lib.toTime(Str("2024-06-01")) == Some(t2)
    requires t1 < t2
    ensures GetSortedPostsData(ExampleDirectory(bodyA, bodyB), now, lib).Ok?
    ensures SlugList(GetSortedPostsData(ExampleDirectory(bodyA, bodyB), now, lib).value) == ["b", "a"]
  {
    var a := BuildPost("a", map["date" := Str("2024-01-01")], bodyA, now, lib);
    var b := BuildPost("b", map["date" := Str("2024-06-01"), "title" := Str("Second")], bodyB, now, lib);
    ExampleListingSorts(bodyA, bodyB, now, lib);
    ExampleOrder(bodyA, bodyB, now, lib, t1, t2);
    SlugListTwo(b, a);
  }

  lemma SlugListTwo(x: BlogPost, y: BlogPost)
    ensures SlugList([x, y]) == [x.slug, y.slug]
  {

  }

  /** Two posts, the first strictly older, come out swapped. */
  lemma SortTwo(lib: DateLib, a: BlogPost, b: BlogPost)
    requires OlderThan(lib, a, b)
    ensures SortNewestFirst(lib, [a, b]) == [b, a]
  {

  }

  /** In the example, "a" has the default title and its own body, "b" keeps "Second", and "missing" is not found. */
  lemma ExampleLookups(bodyA: string, bodyB: string, now: string, lib: DateLib)
    ensures var dir := ExampleDirectory(bodyA, bodyB);
      && GetPostData(dir, "a", now, lib).Some?
      && GetPostData(dir, "a", now, lib).value.title == Str(UntitledPost)
      && GetPostData(dir, "a", now, lib).value.content == bodyA
      && GetPostData(dir, "b", now, lib).Some?
      && GetPostData(dir, "b", now, lib).value.title == Str("Second")
      && GetPostData(dir, "missing", now, lib) == None
  {
    SlugFileRoundTrip("a");
    SlugFileRoundTrip("b");
    SlugFileRoundTrip("missing");
    assert "a" + Md == "a.md" && "b" + Md == "b.md";
    assert "missing" + Md !in ExampleDirectory(bodyA, bodyB).entries;
  }
}
