# Markdown Memoirs: the post pipeline, modelled in Dafny

The blog keeps one markdown file per post in a content directory. Each file starts
with a YAML front-matter block followed by the markdown body. `src/lib/blogs.ts`
turns that directory into post records with three read operations:

- `getSortedPostsData` lists the directory, keeps the names ending in `.md`, builds a
  `BlogPost` per file and sorts the list newest first;
- `getAllPostSlugs` returns the slug of every `.md` name, which pre-declares the detail pages;
- `getPostData(slug)` reads `<slug>.md` and returns its record, or `null`.

This project models those operations as pure Dafny functions and proves what they promise.

- `js.dfy` (module `Js`) holds the JavaScript values a front-matter block parses into.
  It defines their truthiness and the `||` operator that applies every default.
- `posts.dfy` (module `Posts`) holds the `BlogPost` record, slug derivation and record building.
  Front-matter fields keep whatever value the parser produced, because the source
  builds the record with an unchecked `as BlogPost` cast.
- `post_order.dfy` (module `PostOrder`) holds the sort comparator and a sort that uses it.
- `blogs.dfy` (module `Blogs`) holds the directory, the three operations and the lemmas
  that relate them.

The directory is a value: `listing` is what `readdirSync` returns (`None` when it throws),
and `entries` says, for each name `existsSync` finds, whether reading and front-matter
parsing succeed and what they give. `now` (`new Date().toISOString()`) is a parameter.
The date library is a `DateLib` value with three functions:

- `parseIso`: `parseISO`, giving `None` for an Invalid Date, on which `format` throws;
- `formatLong`: `format(…, 'MMMM d, yyyy')`;
- `toTime`: the time value of `new Date(…)`, giving `None` for NaN.

## Behaviour worth noting

- A `.md` file that cannot be read or parsed makes `getSortedPostsData` throw.
  `readFileSync` and `matter` run outside any `try` (src/lib/blogs.ts:36-37), so the
  exception escapes. `GetSortedPostsData` returns `Err` naming the first such file in
  enumeration order.
- `getSortedPostsData` takes no parameter and always sorts newest first (src/lib/blogs.ts:21, 62-68).
  An `{ order: … }` argument passed by a caller is ignored.
- The comparator never returns 0 (src/lib/blogs.ts:63-67, `CompareOnTies`), so the order
  among equal or invalid dates is the engine's choice. A comparison with an Invalid Date
  is false, so the comparator returns -1 for it.

## Model

| member | source | states |
|---|---|---|
| `Js.Or` | src/lib/blogs.ts:50-58 | the logical-or operator yields one of its two operands. It is truthy exactly when either operand is. It keeps the left operand when that one is truthy, else yields the right one |
| `Posts.StripMd` | src/lib/blogs.ts:80-83 | `replace(/\.md$/, '')` removes exactly one trailing ".md" (result + ".md" is the name) and leaves any other name unchanged |
| `Posts.SlugFileRoundTrip` | src/lib/blogs.ts:89 | `slug + ".md"` always ends with ".md", and its slug is `slug` again, so the lookup path and the listing's slug agree |
| `Posts.SlugOfFileIsUnique` | src/lib/blogs.ts:80-83 | appending ".md" is injective: equal file names come from equal slugs |
| `Posts.StripMdInjective` | src/lib/blogs.ts:32-34 | two `.md` names have the same slug if and only if they are the same name |
| `Posts.StripMdExamples` | src/lib/blogs.ts:34 | "a.md.md" gives "a.md", "hello.md" gives "hello", ".md" gives "", while "notes.mdx" and "md" are left as they are |
| `Posts.BuildPost` | src/lib/blogs.ts:48-59 | the record carries the slug it is given and the body as content, never the metadata block |
| `Posts.FieldDefaults` | src/lib/blogs.ts:50-58 | each of title, excerpt, tags, author, featured, featuredImage is the front-matter value when truthy, else 'Untitled Post', '', [], 'Anonymous', false, undefined |
| `Posts.DateFields` | src/lib/blogs.ts:39-46 | `date` is the front-matter date when truthy, else `now`. `formattedDate` is the formatted date when `parseISO` succeeds, else the raw date (then equal to `date`), else "Date not available" |
| `Posts.RecordAlwaysPopulated` | src/lib/blogs.ts:48-59 | title, tags and author are always truthy. excerpt, featured and featuredImage are truthy or exactly their default. A fallback formatted date is truthy. `date` is truthy when `now` is non-empty |
| `Posts.EmptyFrontMatter` | src/lib/blogs.ts:39-59 | empty front matter yields the all-defaults record with `now` as date and the body as content |
| `Posts.UnrecognisedKeysIgnored` | src/lib/blogs.ts:48-59 | a front-matter key outside the seven the record reads has no effect on the record |
| `Posts.FieldsIndependent` | src/lib/blogs.ts:50-58 | setting one optional key changes only that key's field, to the new value or its default |
| `Posts.DateIndependent` | src/lib/blogs.ts:39-52 | setting the front-matter date changes only `date` and `formattedDate` |
| `Posts.GetAfterUpdate` | src/lib/blogs.ts:50-58 | after one front-matter key is set, reading that key gives the new value, and reading any other key gives what it gave before |
| `Posts.BuildPostClockIndependent` | src/lib/blogs.ts:39-59 | two builds of one file at different clock readings differ at most in `date` and `formattedDate`. They are equal when the front-matter date is truthy, and otherwise `date` is the clock reading |
| `PostOrder.Compare` | src/lib/blogs.ts:62-68 | the comparator answers 1 or -1, never 0, and answers 1 exactly when a's date is strictly earlier than b's, both being valid dates |
| `PostOrder.CompareOnTies` | src/lib/blogs.ts:63-67 | on equal times or an invalid date, each post is ordered before the other, so their relative order is unspecified |
| `PostOrder.Insert` | src/lib/blogs.ts:62 | insertion adds exactly the one post: the result is the old list's multiset plus that post |
| `PostOrder.InsertKeepsNewestFirst` | src/lib/blogs.ts:62-68 | inserting a dated post into a newest-first list of dated posts keeps it newest first |
| `PostOrder.SortNewestFirst` | src/lib/blogs.ts:62-68 | the sort returns a permutation of its input. When every date is valid, no post is strictly older than a post after it |
| `PostOrder.NewestFirstUnique` | src/lib/blogs.ts:62-68 | when no two different posts share a time, two newest-first permutations of each other are equal |
| `PostOrder.SortIsTheNewestFirstOrder` | src/lib/blogs.ts:62-68 | when no two different posts share a time, the model's sort equals any newest-first permutation, whatever algorithm the engine uses |
| `Blogs.MdNames` | src/lib/blogs.ts:31-32 | the filter keeps exactly the names of the listing that end with ".md" |
| `Blogs.MdNamesAppend` | src/lib/blogs.ts:79-80 | the filter distributes over concatenation, so it keeps enumeration order |
| `Blogs.MdNamesDistinct` | src/lib/blogs.ts:79-80 | a listing without repeated names gives `.md` names without repeats |
| `Blogs.GetAllPostSlugs` | src/lib/blogs.ts:71-86 | a failed listing gives no slugs. Otherwise there is one slug per `.md` name, in enumeration order, and slug + ".md" is that name |
| `Blogs.SlugMembership` | src/lib/blogs.ts:79-85 | `s` is a slug exactly when the listing succeeded and holds `s + ".md"` |
| `Blogs.SlugsDistinct` | src/lib/blogs.ts:79-85 | a listing without repeated names gives slugs without repeats |
| `Blogs.ReadPost` | src/lib/blogs.ts:35-37 | reading one file succeeds exactly when it exists and both reading and parsing succeed. A failure names the file. A success carries the given slug and the file's body |
| `Blogs.BuildAll` | src/lib/blogs.ts:31-60 | the map succeeds exactly when every `.md` file loads, giving one post per name in order. Otherwise it fails with the error of the first file in enumeration order that does not load |
| `Blogs.GetSortedPostsData` | src/lib/blogs.ts:21-69 | a failed listing gives an empty list. The result is an error exactly when some `.md` file does not load. Every listed post is what its own file builds. All dates valid implies newest first |
| `Blogs.BuiltPostsFromFiles` | src/lib/blogs.ts:31-60 | each post the map builds is the record of the file `slug + ".md"` |
| `Blogs.BuiltPostFromFile` | src/lib/blogs.ts:33-59 | the post built from the i-th `.md` name is the record of the file named by its slug plus ".md" |
| `Blogs.SlugList` | src/lib/blogs.ts:34 | the slug list has one entry per post, and entry i is post i's slug |
| `Blogs.BuiltSlugsAreSlugs` | src/lib/blogs.ts:31-34 | before sorting, the listing's posts carry exactly the slugs of `getAllPostSlugs`, in the same order |
| `Blogs.InsertSlugs` | src/lib/blogs.ts:62 | inserting a post adds exactly its slug to the multiset of slugs |
| `Blogs.SortKeepsSlugs` | src/lib/blogs.ts:62-68 | sorting only reorders: the multiset of slugs is unchanged |
| `Blogs.SortedListingIsPermutationOfSlugs` | src/lib/blogs.ts:31-85 | the slugs of a successful sorted listing are a permutation of `getAllPostSlugs` |
| `Blogs.GetPostData` | src/lib/blogs.ts:88-121 | the lookup finds a post exactly when `<slug>.md` exists and can be read and parsed. The post carries the requested slug and is what that file builds |
| `Blogs.LookupAgreesWithListing` | src/lib/blogs.ts:88-120 | given the same `now`, every post of a successful listing is exactly what the lookup returns for its slug |
| `Blogs.LookupAgreesWithListingAnyClock` | src/lib/blogs.ts:88-120 | whatever the listing's and the lookup's clocks read, the lookup finds every listed post and agrees with it except on `date` and `formattedDate`. When the file's front-matter date is truthy, it returns the listed post itself |
| `Blogs.ListingCoversLookup` | src/lib/blogs.ts:71-120 | take a directory whose listing names exactly its entries and whose listing succeeds. The lookup finds `s` exactly when `s` is a declared slug, and what it finds is in the sorted listing |
| `Blogs.ExampleSlugs` | src/lib/blogs.ts:79-85 | for `a.md`, `notes.txt`, `b.md` the slugs are ["a", "b"] |
| `Blogs.ExampleListing` | src/lib/blogs.ts:21-69 | take `a.md` dated 2024-01-01 and `b.md` dated 2024-06-01 titled "Second", with dates that convert in calendar order. The listing is [b, a] |
| `Blogs.ExampleLookups` | src/lib/blogs.ts:88-120 | in that directory "a" has the default title and its own body, "b" keeps "Second", and "missing" is not found |

## Left out

- File-system calls (`readdirSync`, `readFileSync`, `existsSync`): the directory is an input value. `Consistent` states when its listing and its entries agree.
- `path.join` normalisation: the lookup lets `slug + ".md"` name a directory entry directly, so a slug with `/` or `..` that would reach another directory is not modelled.
- The `gray-matter` YAML parser: its output (front-matter map and body) or its failure is given per entry.
- `date-fns` `parseISO`/`format` and JavaScript `Date`: these are the uninterpreted functions of `DateLib`. Time zones, locale and the text of the formatted date are not modelled.
- The clock: `now` is one parameter per call, where the source reads the clock again for each post. The model therefore gives all dateless posts of one listing the same `now`. `LookupAgreesWithListing` assumes the listing and the lookup read the same `now`. `LookupAgreesWithListingAnyClock` drops that assumption, and then agreement on `date` and `formattedDate` holds only for files with a truthy front-matter date.
- `console.warn` and `console.error` diagnostics: they have no effect on results.
- The JavaScript engine's sort algorithm: `SortNewestFirst` is one insertion sort using the source's comparator. `SortIsTheNewestFirstOrder` shows that the order is the same for any algorithm when no two times tie. Among ties the engine may order differently.
- PostOrder.SortNewestFirst: newest-first is promised only when every date converts to a valid time. With an Invalid Date in the list, the comparator is not a consistent ordering, and neither the source nor the model promises any order.
- The shape of `getAllPostSlugs` results: the source returns `{ slug }` objects, and the model returns the slug strings in the same order.
- JavaScript numbers are modelled as reals plus a separate NaN. Only their truthiness matters here.
- Pages, components, markdown rendering and styling (`src/app`, `src/components`, `tailwind.config.ts`): presentation only.
