# Member publication synchronisation, modelled in Dafny

`sync_member_posts.py` mirrors research publications from every lab
member's GitHub site repository (`<username>.github.io`, directory
`publications/`) into the lab's own `publications/` tree. This model covers
its decision logic:

- **Discovery.** It lists the member's publication directories through the
  contents API. A directory qualifies when it is not `_`-prefixed and holds
  an `index.qmd`; its featured images come with it. When the listing is
  unavailable, it falls back to fetching known directories by raw URL.
- **Parsing.** It splits a Quarto document into its YAML front matter and
  its body, and fills in the defaults.
- **The destination resolver.**
- **Rendering.** It renders the local `index.qmd`: the author is made a
  list, the `member-publication` marker is ensured, unknown keys are passed
  through, the original categories are merged, and an attribution trailer
  is optionally appended. It also builds the image download list.
- **Reconciling.** It compares each rendered text with the local file,
  whitespace-trimmed, and decides create, update or skip. It writes only on
  create or update, counts each outcome, keeps only the first
  `max_posts_per_member` publications, and never writes in a dry run.
- **Member selection.** It picks the members by user name and the `active`
  flag.

Modules, in dependency order:

| module | file | models |
|---|---|---|
| `Wrappers` | wrappers.dfy | `Option` |
| `Text` | text.dfy | Python's `startswith`, `strip`, `split` search, `replace`, `lower`, `title`, and path joining |
| `FrontMatter` | frontmatter.dfy | YAML values; the insertion-ordered `dict` as a sequence of entries; `str()`/`repr()` |
| `Config` | config.dfy | member records, `sync_config`, and their defaults |
| `Parse` | parse.dfy | `_parse_qmd_content` |
| `Destination` | destination.dfy | `_get_destination_subdir` |
| `Render` | render.dfy | `_create_local_post` |
| `Discovery` | discovery.dfy | `_get_posts_from_member_site`, `_parse_posts_from_github_api`, `_process_publication_directory`, `_get_posts_via_raw_github` |
| `Sync` | sync.dfy | the `MemberPostSync` object, `_sync_member_posts`, `sync_member_posts`, and the download loop |

**How it is built.**

- **Foreign calls are function-valued parameters.** An `Env` bundles them:
  - HTTP (`_safe_request`), a function from URL to an optional response. `None` is a request that raised.
  - `yaml.safe_load`, a function from text to an optional mapping. `None` is a raised parse or a non-mapping result, which is where `frontmatter.get` raises.
  - `yaml.dump`.
- **Imperative code is a method proved against a specification function.**
  The source's loops become Dafny methods. Each one's `ensures` ties its
  result or new state to that function, and the properties are lemmas about
  the function.
  - The local file system is the state of class `Sync.MemberPostSync`, with fields `files` (path to text) and `images` (path to bytes).
  - Each reconcile step is proved equal to `ApplyOne`.
  - The whole loop is proved equal to `ApplyAll` over the limited batch.

**The model follows the code as written.** Four places where the code
does something its own text suggests it did not mean:

- **The resolver is not used.** The local directory is always
  `publications/<lower(username)>-<directory>` (line 333). Nothing calls
  `_get_destination_subdir`, so a `category_mapping` entry does not move a
  publication. `Destination.DestinationSubdir` is modelled standalone.
- **Error statuses take the fallback.** The log message at line 81 calls a
  404 "normal if they don't have publications yet", and lines 82-85 keep the
  fallback for a 403. As written, every 4xx/5xx status takes the fallback
  (see Findings). `Discovery.MemberPosts` follows the code;
  `Discovery.IntendedMemberPosts` is the version the messages describe.
- **A document with carriage returns is rewritten on every run.** Line 487
  reads the local file in text mode, which turns `\r\n` and `\r` into `\n`;
  line 506 writes the rendered text unchanged. A rendered text with a `\r`
  inside its stripped form (a body of several lines with Windows line
  endings) never compares equal to its own copy (see Findings); a `\r` only
  in the surrounding whitespace does no harm, since line 491 strips it. `Sync.Existing` reads as the code does.
- **The two default titles differ.** A front-matter block without `title`
  gets `filename.replace('.qmd', '').title()` (line 275), which keeps `-`;
  a document without front matter also replaces `-` by a space (line 285).

## Model

| member | source | states |
|---|---|---|
| Text.Find | sync_member_posts.py:263 | the least index at or after the start where the separator occurs, or none — the search `split('---', 2)` performs |
| Text.StripIgnoresSurrounding | sync_member_posts.py:491 | `strip` leaves the same text whatever whitespace surrounds it |
| Text.StripCharsIdempotent | sync_member_posts.py:491 | stripping twice is stripping once |
| Text.ReplaceAllChar | sync_member_posts.py:285 | `replace('-', ' ')` keeps the length and changes exactly the `-` characters |
| Text.ReplaceAllOnlySuffix | sync_member_posts.py:275 | `replace('.qmd', '')` on a name whose only occurrence is the final suffix drops just that suffix |
| Text.Title | sync_member_posts.py:275 | `title()`: the result has the input's length; a letter after a letter is lowered, every other letter is raised |
| FrontMatter.Lookup | sync_member_posts.py:272-277 | `dict.get`: nothing exactly when no entry has the key, else the value of an entry with that key |
| Parse.SplitFrontMatter | sync_member_posts.py:262-264 | a split exists exactly when the text starts with `---` and has another `---` at index 3 or later; the parts are what lies between the opening delimiter and the first later one, and what follows it |
| Parse.SplitAt | sync_member_posts.py:263-266 | with the first later `---` at index k, the split yields `content[3..k]` and `content[k+3..]` |
| Parse.ParseQmd | sync_member_posts.py:258-295 | `_parse_qmd_content`: described by `Parse.ParseWithFrontMatter`, `Parse.ParseWithoutFrontMatter` and `Parse.ParseFailsOnlyOnBadYaml` |
| Parse.ParseWithFrontMatter | sync_member_posts.py:262-281 | a text with front matter parses to the stripped middle as metadata and the stripped tail as body, with the title, author and categories defaults; a YAML failure gives no document |
| Parse.ParseWithoutFrontMatter | sync_member_posts.py:283-291 | any other text is the unchanged body, with author `[name]`, categories `['research']` and the derived title |
| Parse.ParseFailsOnlyOnBadYaml | sync_member_posts.py:262-295 | parsing fails exactly when a front-matter block exists and the YAML parser rejects it |
| Parse.OverlappingDelimitersDoNotSplit | sync_member_posts.py:262-264 | `-----` is not split: the second `---` must start after the first ends |
| Parse.DefaultTitlesDiffer | sync_member_posts.py:275-285 | the plain-text title contains no `-`; the front-matter default title keeps every `-` of the stem in place |
| Parse.IndexTitles | sync_member_posts.py:275-285 | for `index.qmd`, the name every caller passes, both default titles are `Index` |
| Destination.FirstMapped | sync_member_posts.py:308-310 | the index of the first category in list order that the mapping knows, and no earlier one is known; none when no category is known |
| Destination.DestinationSubdir | sync_member_posts.py:297-326 | `_get_destination_subdir`: described by `Destination.OverrideWins`, `Destination.FirstMappedCategoryWins`, `Destination.TypeMappingDecides`, `Destination.UnmappedCategoriesIgnored` and `Destination.DefaultTypes` |
| Destination.OverrideWins | sync_member_posts.py:300-301 | a member's `destination_path` decides, with slashes stripped, whatever the categories and type say |
| Destination.FirstMappedCategoryWins | sync_member_posts.py:303-310 | without an override, the earliest mapped category decides, stripped of slashes |
| Destination.TypeMappingDecides | sync_member_posts.py:312-326 | without an override or a mapped category, the type mapping decides for the type (default `post`), else `posts` |
| Destination.UnmappedCategoriesIgnored | sync_member_posts.py:308-310 | unmapped categories placed in front do not change the result |
| Destination.DefaultTypes | sync_member_posts.py:314-326 | with the built-in type mapping, type `paper` goes to `papers` and a missing type to `posts` |
| Render.Render | sync_member_posts.py:328-401 | the triple `_create_local_post` returns: described by `Render.RenderLayout`, `Render.RequiredKeysKept`, `Render.OriginalKeysPassed` and `Render.RenderedKeysUnique` |
| Render.NormalizeAuthor | sync_member_posts.py:343-348 | the author as a list: described by `Render.AuthorIsList` |
| Render.RenderedCategories | sync_member_posts.py:353-379 | the rendered category list: described by `Render.MarkerPresent`, `Render.MarkerCount`, `Render.CategoriesKept`, `Render.ParsedCategoriesRendered` and `Render.RerenderKeepsCategories` |
| Render.MergeCategories | sync_member_posts.py:375-379 | the category merge: described by `Render.MergeKeepsPrefix`, `Render.MergeCount`, `Render.MergeContains`, `Render.MergePresent` and `Render.MergeIdempotent` |
| Render.CreateLocalPost | sync_member_posts.py:328-401 | the method that builds the front matter in place returns exactly the rendered path, text and download list |
| Render.CopyUnsetKeys | sync_member_posts.py:369-372 | the passthrough loop yields the passthrough of the original entries |
| Render.MergeOriginalCategories | sync_member_posts.py:375-379 | the category loop yields the merge of the original categories, a lone value standing for a one-element list |
| Render.CollectDownloads | sync_member_posts.py:395-399 | the download loop yields one download per image, in order |
| Render.Passthrough | sync_member_posts.py:369-372 | the passthrough keeps the existing entries as a prefix |
| Render.AuthorIsList | sync_member_posts.py:343-348 | the rendered author is a list: `s` becomes `[s]`, a list stays as it is, any other value `v` becomes `[str(v)]` |
| Render.MarkerPresent | sync_member_posts.py:356-358 | `member-publication` is among the rendered categories |
| Render.MarkerCount | sync_member_posts.py:356-358 | the marker occurs max(1, n) times, where n is its count among the parsed categories |
| Render.MergeKeepsPrefix | sync_member_posts.py:375-379 | merging never removes or reorders existing categories: they stay a prefix |
| Render.MergeCount | sync_member_posts.py:375-379 | after merging, a category occurs as often as before if it was present, once if only the original list has it, otherwise not at all |
| Render.MergeContains | sync_member_posts.py:375-379 | every existing and every original category is present after merging |
| Render.MergePresent | sync_member_posts.py:375-379 | merging categories that are all present already changes nothing |
| Render.MergeIdempotent | sync_member_posts.py:375-379 | merging the same categories twice is merging once |
| Render.CategoriesKept | sync_member_posts.py:353-379 | every parsed and every original category is in the rendered list |
| Render.ParsedCategoriesRendered | sync_member_posts.py:353-379 | for a parsed document the merge adds nothing: the rendered list is the parsed list with the marker appended if absent |
| Render.PlainCategoriesRendered | sync_member_posts.py:353-358 | a document without front matter renders with categories `research, member-publication` |
| Render.RerenderKeepsCategories | sync_member_posts.py:353-379 | re-rendering a rendered category list reproduces it (idempotent on the marker) |
| Render.PassthroughLookup | sync_member_posts.py:369-372 | after the passthrough a key finds its existing value if set, nothing for `categories`, else its original value |
| Render.PassthroughKeysUnique | sync_member_posts.py:369-372 | the passthrough introduces no duplicate key |
| Render.RenderedKeysUnique | sync_member_posts.py:350-372 | no key of the rendered front matter stands twice |
| Render.RequiredKeysKept | sync_member_posts.py:350-372 | `title`, `author`, `categories` and `source` carry the renderer's own values; no original value overwrites them |
| Render.OriginalKeysPassed | sync_member_posts.py:369-372 | every other key finds exactly its original value, or nothing when the original lacks it |
| Render.RenderLayout | sync_member_posts.py:333-399 | the primary file is `publications/<lower(username)>-<dir>/index.qmd`; image i goes to `<that dir>/<name>` from its URL, in order; the text is `---\n`, dump, `---\n\n`, body, with the trailer exactly when attribution is not switched off |
| Render.LocalDirInjective | sync_member_posts.py:333 | for one member, distinct remote directories give distinct local directories |
| Render.LocalDirCollision | sync_member_posts.py:333 | across members the names can collide: `a-b`/`c` and `a`/`b-c` both give `a-b-c` |
| Discovery.ScanItems | sync_member_posts.py:189-197 | the scan of a directory listing: described by `Discovery.ScanFindsIndex` and `Discovery.ScanKeepsImages` |
| Discovery.ScanDirectory | sync_member_posts.py:189-197 | the scan loop yields the scan function of the directory listing |
| Discovery.ScanFindsIndex | sync_member_posts.py:192-195 | a primary document is found exactly when a file named `index.qmd` is listed, and it is the last such file |
| Discovery.ScanKeepsImages | sync_member_posts.py:196-197 | the kept images are exactly the listed files, other than `index.qmd`, whose lower-cased name starts with `featured.` and ends with an allowed extension |
| Discovery.ImageRefs | sync_member_posts.py:244-250 | one image record per listed image, in order, with its name, download URL and path |
| Discovery.CollectImageRefs | sync_member_posts.py:244-250 | the image loop yields those records |
| Discovery.ProcessDirectory | sync_member_posts.py:217-256 | the publication of one directory: described by `Discovery.ProcessDirectoryFound` and `Discovery.ListingItemQualifies` |
| Discovery.ProcessDirectoryFound | sync_member_posts.py:217-256 | a directory yields a publication exactly when its `index.qmd` fetches with status 200 as a file object whose text parses; the publication then holds the parsed document, the directory name, the index entry's `html_url` and `path`, and one record per listed image with its name, download URL and path |
| Discovery.ProcessPublicationDirectory | sync_member_posts.py:217-256 | the method, branching as the code does, yields what `Discovery.ProcessDirectoryFound` describes: the publication of the fetched, parsed `index.qmd`, or none when the fetch, the JSON shape or the parse fails |
| Discovery.ListingItem | sync_member_posts.py:177-205 | what one listed entry yields: described by `Discovery.ListingItemQualifies` (only a qualifying entry yields) and `Discovery.ListingItemFound` (a qualifying entry yields what its directory yields) |
| Discovery.ListingPosts | sync_member_posts.py:171-213 | the listing path: described by `Discovery.ListingOnlyQualifying`, `Discovery.ListingAppend` and `Discovery.ListingFindsQualifying` |
| Discovery.ParsePostsFromGithubApi | sync_member_posts.py:171-215 | the listing loop yields the publications of the listed directories, in listing order |
| Discovery.ListingOnlyQualifying | sync_member_posts.py:177-205 | the listing yields no more publications than there are entries, and each comes from a listed entry |
| Discovery.ListingAppend | sync_member_posts.py:177-205 | the listing of two runs of entries is the listing of the first followed by that of the second |
| Discovery.ListingFindsQualifying | sync_member_posts.py:177-205 | each entry's publication, if it yields one, sits in the result between those of the entries before it and those after it; so every qualifying entry is found, in listing order |
| Discovery.ListingItemQualifies | sync_member_posts.py:177-205 | an entry yields a publication only if it is a directory not starting with `_` whose listing holds `index.qmd`; the publication is named after it, and its images are featured images |
| Discovery.ListingItemFound | sync_member_posts.py:177-205 | the converse: a directory entry not starting with `_` whose listing fetches and holds `index.qmd` yields exactly what processing the directory with the last listed `index.qmd` and the listed featured images yields; an entry that is not such a directory, or whose listing does not fetch as a list, yields nothing |
| Discovery.FirstImage | sync_member_posts.py:131-146 | the probe finds the featured image of the first extension that fetches with status 200, and none of the earlier extensions does; or none when no extension does |
| Discovery.ProbeFeaturedImage | sync_member_posts.py:131-146 | the probe loop, which stops at the first hit, yields that one image or none |
| Discovery.FallbackItem | sync_member_posts.py:112-155 | what the fallback finds in one known directory: described by `Discovery.FallbackAtMostOneImage` |
| Discovery.FallbackPosts | sync_member_posts.py:101-160 | the fallback path: described by `Discovery.GetPostsViaRawGithub` and `Discovery.AccessDeniedFallsBack` |
| Discovery.GetPostsViaRawGithub | sync_member_posts.py:101-160 | the fallback loop yields the publications of the known directories whose `index.qmd` fetches and parses |
| Discovery.FallbackAtMostOneImage | sync_member_posts.py:131-146 | a fallback publication has at most one image, and has one exactly when some extension fetches with status 200 |
| Discovery.DispatchAsWritten | sync_member_posts.py:76-93 | the route as written: described by `Discovery.DispatchAsWrittenFallsBackOnErrors` |
| Discovery.Dispatch | sync_member_posts.py:76-93 | the route the log messages describe: described by `Discovery.DispatchDiffersOnlyOnErrors` |
| Discovery.RoutePosts | sync_member_posts.py:76-93 | the publications of a route: the listing of the response's entries, the fallback, or nothing; described by `Discovery.NotFoundFallsBack`, `Discovery.NotFoundYieldsNothing` and `Discovery.AccessDeniedFallsBack` |
| Discovery.IntendedMemberPosts | sync_member_posts.py:76-93 | discovery with the dispatch the log messages at lines 80-85 describe: described by `Discovery.NotFoundYieldsNothing` and `Discovery.AccessDeniedFallsBack` |
| Discovery.MemberPosts | sync_member_posts.py:60-99 | `_get_posts_from_member_site` as written: described by `Discovery.GetPostsFromMemberSite`, `Discovery.NotFoundFallsBack` and `Discovery.AccessDeniedFallsBack` |
| Discovery.DispatchAsWrittenFallsBackOnErrors | sync_member_posts.py:76-93 | as written, no response or any status from 400 to 599 takes the fallback, a 404 among them |
| Discovery.DispatchDiffersOnlyOnErrors | sync_member_posts.py:76-93 | the corrected dispatch differs from the written one exactly on error statuses other than 403 |
| Discovery.GetPostsFromMemberSite | sync_member_posts.py:60-99 | the method, branching as the code does, yields the publications of the written dispatch: the listing on 200, the fallback on no response or any error status, nothing on another status |
| Discovery.NotFoundFallsBack | sync_member_posts.py:76-93 | as written, a 404 or any other error status on the publications path yields the fallback's publications |
| Discovery.NotFoundYieldsNothing | sync_member_posts.py:80-81 | with the intended dispatch a 404 yields no publications, which differs from the written code whenever the known directory is found |
| Discovery.AccessDeniedFallsBack | sync_member_posts.py:82-93 | a 403 or no response yields the fallback's publications, as written and as intended; a fetchable, parsable known directory is still found |
| Sync.Bump | sync_member_posts.py:469-500 | each outcome raises its own counter by one, and only that one: the total rises by one |
| Sync.Named | sync_member_posts.py:429 | the members with the given user name, and only they, in configuration order with repeats: described by `Sync.NamedAppend` |
| Sync.NamedAppend | sync_member_posts.py:429 | selecting by user name distributes over concatenation, so order and repeats are kept |
| Sync.NamedOne | sync_member_posts.py:429 | a single member is kept exactly when its user name matches |
| Sync.Active | sync_member_posts.py:435 | the members whose `active` is not false, and only they, in configuration order with repeats: described by `Sync.ActiveAppend` |
| Sync.ActiveAppend | sync_member_posts.py:435 | selecting the active members distributes over concatenation, so order and repeats are kept |
| Sync.ActiveOne | sync_member_posts.py:435 | a single member is kept exactly when it is active |
| Sync.SelectMembers | sync_member_posts.py:428-435 | nothing to sync exactly when a non-empty user name matches no member; otherwise the active members, restricted to that user name when one is given, in configuration order: described by `Sync.SelectMembersAppend` and `Sync.SelectMembersOne` |
| Sync.SelectMembersAppend | sync_member_posts.py:428-435 | the selection from a concatenation is the selection from each part in turn, so configuration order and repeats decide the sync order |
| Sync.SelectMembersOne | sync_member_posts.py:428-435 | a single configured member is selected exactly when it is active and has the given user name, if one is given; a different name means nothing to sync |
| Sync.Renders | sync_member_posts.py:475 | one rendered publication per publication of the batch, in batch order; each is described by the `Render` lemmas |
| Sync.SyncBatch | sync_member_posts.py:458-516 | one member's batch after discovery: described by `Sync.SyncBatchCounts`, `Sync.SyncBatchTwiceSkips` and `Sync.DryRunNeverMutates` |
| Sync.MemberSync | sync_member_posts.py:450-519 | `_sync_member_posts`: discovery as written (`Discovery.MemberPosts`), then `Sync.SyncBatch`; the contract of `Sync.MemberPostSync.SyncMember` |
| Sync.SyncMembers | sync_member_posts.py:443-448 | the selected members synced one after another, in order: the contract of `Sync.MemberPostSync.SyncMemberPosts`, described by `Sync.DryRunSyncsNothing` |
| Sync.DryRunSyncsNothing | sync_member_posts.py:443-448 | a dry run over any list of members leaves the local tree as it was |
| Sync.DecideIgnoresSurroundingWhitespace | sync_member_posts.py:491 | whitespace around the local or the rendered text never changes the decision |
| Sync.ReadBack | sync_member_posts.py:487-488 | the text-mode read holds no `\r`, and leaves a text without `\r` as it is |
| Sync.ReadBackKeepsStripped | sync_member_posts.py:487-491 | a text with no `\r` inside its stripped form strips to the same text after it is read back |
| Sync.Existing | sync_member_posts.py:485-488 | the local document as the reconciler reads it: described by `Sync.ReadBack`, `Sync.ReadBackKeepsStripped` and `Sync.CrRewrittenEveryRun` |
| Sync.Decide | sync_member_posts.py:485-500 | create, update or skip: described by `Sync.DecideIgnoresSurroundingWhitespace`, `Sync.ApplyOneEffect` and `Sync.Bump` |
| Sync.FetchImages | sync_member_posts.py:403-422 | the downloads of one publication: described by `Sync.FetchImagesEffect` |
| Sync.FetchImagesEffect | sync_member_posts.py:403-422 | a path no successful download names keeps its image; the last download of a path that fetches with status 200 leaves its bytes there |
| Sync.ApplyOne | sync_member_posts.py:484-512 | one reconcile step: described by `Sync.ApplyOneEffect`, `Sync.SkipStep` and `Sync.CrRewrittenEveryRun` |
| Sync.ApplyAll | sync_member_posts.py:473-512 | the reconcile loop over a batch: described by `Sync.ApplyAllCounts`, `Sync.ApplyAllUntouched`, `Sync.ApplyAllSettles`, `Sync.ApplyAllSkipsSettled` and `Sync.SecondRunSkipsAll` |
| Sync.ApplyOneEffect | sync_member_posts.py:484-507 | a document is skipped exactly when, read back, it already equals the rendered text up to surrounding whitespace, and the tree is then unchanged; otherwise the rendered text is written; no other document changes; the document ends up in place exactly when no `\r` is inside its stripped text |
| Sync.ApplyAllCounts | sync_member_posts.py:469-500 | each processed publication raises exactly one counter, and no counter goes down |
| Sync.ApplyAllUntouched | sync_member_posts.py:473-512 | a document that no publication of the batch renders to is left as it was |
| Sync.ApplyAllSettles | sync_member_posts.py:473-507 | after a batch with distinct paths and no `\r` inside any stripped text, every publication of it is in place |
| Sync.SkipStep | sync_member_posts.py:491-494 | a publication already in place is skipped and changes nothing |
| Sync.ApplyAllSkipsSettled | sync_member_posts.py:473-494 | a batch already in place is skipped entirely: the tree is unchanged and only `skipped` rises |
| Sync.SecondRunSkipsAll | sync_member_posts.py:473-507 | when no `\r` is inside any stripped text, reconciling the same batch again skips all of it and leaves the tree as the first run left it |
| Sync.CrRewrittenEveryRun | sync_member_posts.py:484-507 | a rendered text with a `\r` inside its stripped form is never skipped, whatever is stored; after it is written the next run updates it again |
| Sync.CrlfExample | sync_member_posts.py:491 | `a\r\nb` is such a text: its `strip()` keeps the `\r` |
| Sync.RawReadSkipsAfterWrite | sync_member_posts.py:487-491 | read with `newline=''`, a written text is skipped on the next run whatever its line endings, and a stored text without `\r` is decided as before |
| Sync.Limit | sync_member_posts.py:463-466 | the truncated batch: described by `Sync.LimitKeepsPrefix` and `Sync.LimitLength` |
| Sync.LimitKeepsPrefix | sync_member_posts.py:463-466 | the limit keeps a prefix of the discovered batch, in discovery order |
| Sync.LimitLength | sync_member_posts.py:463-466 | the limited batch has the length of the Python slice `publications[:max_posts]`, for negative limits too |
| Sync.SyncBatchCounts | sync_member_posts.py:463-500 | a real run makes exactly one counter step per kept publication, so never more than `max_posts_per_member` steps |
| Sync.SyncBatchTwiceSkips | sync_member_posts.py:458-507 | running the same batch twice, with no `\r` inside any stripped text: the second run skips everything and changes nothing |
| Sync.DryRunNeverMutates | sync_member_posts.py:477-482 | a dry run leaves the tree unchanged and counts nothing |
| Config.MaxPosts | sync_member_posts.py:463 | `max_posts_per_member`, 50 by default: described by `Sync.LimitLength` and `Sync.SyncBatchCounts` |
| Config.AddAttribution | sync_member_posts.py:386 | `add_attribution`, true by default: described by `Render.RenderLayout` |
| Config.TypeMapping | sync_member_posts.py:314-320 | the type mapping, the built-in one by default: described by `Destination.TypeMappingDecides` and `Destination.DefaultTypes` |
| Config.IsActive | sync_member_posts.py:435 | a member is active unless it says `active: false`: described by `Sync.ActiveOne` and `Sync.SelectMembersOne` |
| Config.PublicationsPath | sync_member_posts.py:63 | the member's publications path with `/` stripped: described by `Config.PublicationsPathTrimmed` |
| Config.PublicationsPathTrimmed | sync_member_posts.py:63 | the path has no leading or trailing `/`, and is `publications` when the member gives none |
| Sync.MemberPostSync.constructor | sync_member_posts.py:34-44 | the object starts with the given configuration, mode and local tree |
| Sync.MemberPostSync.DownloadImages | sync_member_posts.py:510-512 | the download loop leaves the documents alone and writes each image that fetches with status 200 |
| Sync.MemberPostSync.Reconcile | sync_member_posts.py:484-512 | one step reads the stored text back as text mode does, moves the tree to `ApplyOne` of the old tree, and raises the counter of the decided outcome |
| Sync.MemberPostSync.ReconcileBatch | sync_member_posts.py:473-516 | the loop leaves the tree as `ApplyAll` of the rendered batch for a real run, and unchanged with zero counters for a dry run |
| Sync.MemberPostSync.SyncMember | sync_member_posts.py:450-519 | one member's sync moves the tree and counters to those `MemberSync` gives: discovery as written, the limit, then the reconcile loop |
| Sync.MemberPostSync.SyncMemberPosts | sync_member_posts.py:424-448 | the object syncs every selected member in order, and changes nothing when a named member is unknown |

## Left out

- HTTP, the session, headers and timeouts (`_safe_request`). They are a parameter from URL to an optional response.
- `yaml.safe_load` and `yaml.dump`. They are parameters; the model does not describe YAML syntax or output format.
- Base64 decoding of the API file content. The decoded text is taken as given in the file object.
- Loading the configuration file, `sys.exit`, argparse and the `main` entry point. The configuration is a `Settings` value.
- Logging, including the per-member summary line. `SyncMember` returns the counters instead of logging them.
- Creating directories (`mkdir`). The tree is a flat map from path to content; directories are implicit.
- The `publication-<timestamp>` fallback directory name. It depends on the clock, and every discovered publication carries `directory_name`.
- The `.get` defaults of `_create_local_post` for keys a publication always has (`title`, `author`, `categories`, `source_url`, `github_path`). Discovery always fills them, so `Publication` makes them fields.
- Exceptions caught and skipped per publication, directory or member (`:95-96`, `:153-158`, `:211-213`, `:254-256`, `:444-448`, `:514-516`). Only those with a modellable cause are covered, as an absent result: a YAML parse failure, a failed fetch, and a listing of the wrong JSON shape. A raised write or download is not modelled.
- Python aliasing: the rendered categories list is the parsed document's own list object. `Render.ParsedCategoriesRendered` proves the output is the same either way.
- A string-valued `categories`, where `in` is a substring test and `append` raises. Categories are a list of values; a lone value stands for a one-element list, as line 376 does for the original front matter.
- Non-string or unhashable YAML keys and categories. Mapping keys are strings; only a string category can be a key of `category_mapping`.
- Destination.DestinationSubdir: an unhashable `type` value that would raise is treated as unmapped.
- Text.Lower, Text.Title: ASCII case mapping only; Unicode case rules are not modelled.
- FrontMatter.Repr: quotes and escapes inside strings are not reproduced.
- Text.Join: `pathlib` normalisation (doubled or trailing slashes) is not modelled.
- ApplyAllSettles, SecondRunSkipsAll, SyncBatchTwiceSkips: the second-run skip is stated only for rendered texts with no `\r` inside their stripped form, because the code rewrites the others on every run (`Sync.CrRewrittenEveryRun`, Findings).
- Sync.ReadBack: writing with `'w'` is taken to store the text unchanged, as on POSIX systems; on Windows the write would turn `\n` into `\r\n`, which is not modelled, and the carriage-return finding assumes the POSIX behaviour.
- Render.RenderLayout: `add_attribution` is taken as a boolean; YAML truthiness of other values is not modelled.

## Findings

| source | as written | input that shows it | evidently intended | confidence | as-written member | corrected member |
|---|---|---|---|---|---|---|
| sync_member_posts.py:76-93 | `elif response:` tests the response's truth; a `requests` response is false for any status from 400 to 599, so the 404 and 403 branches never run and every error status takes the fallback | the publications listing answers 404: the raw-URL fallback is tried instead of yielding nothing | 200 lists, 404 yields nothing, 403 or no response falls back, any other status yields nothing | not executed | Discovery.DispatchAsWritten, used by Discovery.MemberPosts and shown by Discovery.DispatchAsWrittenFallsBackOnErrors and Discovery.NotFoundFallsBack | Discovery.Dispatch, used by Discovery.IntendedMemberPosts and proved in Discovery.NotFoundYieldsNothing, Discovery.AccessDeniedFallsBack and Discovery.DispatchDiffersOnlyOnErrors |
| sync_member_posts.py:485-491 | the local file is read in text mode, so `\r\n` and `\r` come back as `\n`, while the write at line 506 keeps them; `strip()` equality then fails | a publication whose body has several lines with Windows line endings: its file is rewritten, its images fetched again and `updated` raised on every run | an unchanged publication is skipped on the next run | not executed | Sync.Existing, shown by Sync.CrRewrittenEveryRun and Sync.CrlfExample | Sync.ExistingRaw (read with `newline=''`), proved in Sync.RawReadSkipsAfterWrite |
