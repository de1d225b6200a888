/**
 * The renderer (`_create_local_post`): from a fetched publication it builds
 * the local index path, the text of the local `index.qmd` (front matter,
 * body and attribution trailer) and the list of images to download. The YAML
 * serialiser `yaml.dump` is a parameter.
 */
module Render {
  import opened Wrappers
  import opened Text
  import opened FrontMatter
  import opened Config
  import opened Parse

  /** The category every synced document carries. */
  const Marker: string := "member-publication"

  /** The local root all publication directories live under. */
  const PublicationsRoot: string := "publications"

  /** The keys the renderer sets itself before any original key is copied. */
  const RequiredKeys: set<string> := {"title", "author", "categories", "source"}

  /** The YAML serialiser, `yaml.dump`. */
  type Dumper = Mapping -> string

  /** An image to fetch: where it goes locally and the URL it comes from. */
  datatype Download = Download(localPath: string, url: string)

  /** The triple `_create_local_post` returns. */
  datatype Rendered = Rendered(indexPath: string, text: string, downloads: seq<Download>)

  /** `<lower-cased username>-<directory name>`. */
  function LocalDirName(member: Member, directoryName: string): string {
    Lower(member.username) + "-" + directoryName
  }

  function LocalDir(member: Member, directoryName: string): string {
    Join(PublicationsRoot, LocalDirName(member, directoryName))
  }

  /** The author as a list: a string becomes a one-element list, a list stays, any other value is shown as text. */
  function NormalizeAuthor(v: Value): Value {
    match v
    case Str(_) => List([v])
    case List(_) => v
    case _ => List([Str(Show(v))])
  }

  /** `if c not in cats: cats.append(c)`. */
  function AddIfAbsent(cats: seq<Value>, c: Value): seq<Value> {
    if c in cats then cats else cats + [c]
  }

  /** Append, in order, every category of `extra` that is not yet present. */
  function MergeCategories(cats: seq<Value>, extra: seq<Value>): seq<Value>
    decreases |extra|
  {
    if extra == [] then cats else MergeCategories(AddIfAbsent(cats, extra[0]), extra[1..])
  }

  /** The categories the original front matter lists, if it has the key. */
  function OriginalCategories(original: Mapping): seq<Value> {
    if HasKey(original, "categories") then AsList(Get(original, "categories", List([]))) else []
  }

  /** The categories of the rendered front matter. */
  function RenderedCategories(doc: Document): seq<Value> {
    MergeCategories(AddIfAbsent(doc.categories, Str(Marker)), OriginalCategories(doc.original))
  }

  /** The `source` entry: who published the document and where it came from. */
  function SourceInfo(pub: Publication, member: Member): Value {
    Dict([Entry("member", Str(member.name)), Entry("username", Str(member.username)),
          Entry("original_url", Str(pub.sourceUrl)), Entry("github_path", Str(pub.githubPath)),
          Entry("directory", Str(pub.directoryName))])
  }

  function RequiredFields(pub: Publication, member: Member, cats: seq<Value>): Mapping {
    [Entry("title", pub.doc.title), Entry("author", NormalizeAuthor(pub.doc.author)),
     Entry("categories", List(cats)), Entry("source", SourceInfo(pub, member))]
  }

  /** Copy, in order, every original entry whose key is not yet set and is not `categories`. */
  function Passthrough(fm: Mapping, original: Mapping): (r: Mapping)
    decreases |original|
    ensures |fm| <= |r| && r[..|fm|] == fm
  {
    if original == [] then fm
    else
      var e := original[0];
      Passthrough(if !HasKey(fm, e.key) && e.key != "categories" then fm + [e] else fm, original[1..])
  }

  function RenderedFrontMatter(pub: Publication, member: Member): Mapping {
    Passthrough(RequiredFields(pub, member, RenderedCategories(pub.doc)), pub.doc.original)
  }

  /** The trailer crediting the member. */
  function Attribution(member: Member): string {
    "\n\n---\n\n*This publication was originally published by [" + member.name + "](" + member.profileUrl
      + ") and automatically synced to the McPherson Lab website.*"
  }

  function Body(pub: Publication, sync: SyncConfig, member: Member): string {
    if AddAttribution(sync) then pub.doc.content + Attribution(member) else pub.doc.content
  }

  function ImageDownloads(dir: string, images: seq<ImageRef>): seq<Download> {
    seq(|images|, i requires 0 <= i < |images| => Download(Join(dir, images[i].name), images[i].downloadUrl))
  }

  /** Everything `_create_local_post` computes. */
  function Render(pub: Publication, member: Member, sync: SyncConfig, dump: Dumper): Rendered {
    var dir := LocalDir(member, pub.directoryName);
    Rendered(Join(dir, IndexFile),
             "---\n" + dump(RenderedFrontMatter(pub, member)) + "---\n\n" + Body(pub, sync, member),
             ImageDownloads(dir, pub.images))
  }

  /** `_create_local_post`, building the front matter in place as the source does. */
  method CreateLocalPost(pub: Publication, member: Member, sync: SyncConfig, dump: Dumper)
    returns (indexPath: string, fullContent: string, imageDownloads: seq<Download>)
    ensures Rendered(indexPath, fullContent, imageDownloads) == Render(pub, member, sync, dump)
  {
    var directoryName := pub.directoryName;
    var destinationDir := Join(PublicationsRoot, Lower(member.username) + "-" + directoryName);
    assert destinationDir == LocalDir(member, pub.directoryName);
    indexPath := Join(destinationDir, IndexFile);
    var original := pub.doc.original;

    var author := pub.doc.author;
    if author.Str? {
      author := List([author]);
    } else if !author.List? {
      author := List([Str(Show(author))]);
    }
    assert author == NormalizeAuthor(pub.doc.author);

    var categories := pub.doc.categories;
    if Str(Marker) !in categories {
      categories := categories + [Str(Marker)];
    }
    var frontmatter := [Entry("title", pub.doc.title), Entry("author", author), Entry("categories", List(categories))];
    frontmatter := frontmatter + [Entry("source", SourceInfo(pub, member))];
    ghost var base := frontmatter;

    frontmatter := CopyUnsetKeys(frontmatter, original);
    categories := MergeOriginalCategories(categories, original);
    PassthroughReplace(base, original, 2, Entry("categories", List(categories)));
    frontmatter := frontmatter[2 := Entry("categories", List(categories))];
    assert base[2 := Entry("categories", List(categories))] == RequiredFields(pub, member, RenderedCategories(pub.doc));
    assert frontmatter == RenderedFrontMatter(pub, member);

    var content := pub.doc.content;
    if AddAttribution(sync) {
      content := content + Attribution(member);
    }
    assert content == Body(pub, sync, member);
    fullContent := "---\n" + dump(frontmatter) + "---\n\n" + content;
    imageDownloads := CollectDownloads(destinationDir, pub.images);
  }

  /** The loop of lines 369-372: copy every original key not yet set, except `categories`. */
  method CopyUnsetKeys(fm: Mapping, original: Mapping) returns (frontmatter: Mapping)
    ensures frontmatter == Passthrough(fm, original)
  {
    frontmatter := fm;
    var i := 0;
    while i < |original|
      invariant 0 <= i <= |original|
      invariant Passthrough(frontmatter, original[i..]) == Passthrough(fm, original)
    {
      var e := original[i];
      assert original[i..][1..] == original[i + 1..];
      if !HasKey(frontmatter, e.key) && e.key != "categories" {
        frontmatter := frontmatter + [e];
      }
      i := i + 1;
    }
  }

  /** The loop of lines 375-379: append each original category not yet present. */
  method MergeOriginalCategories(cats: seq<Value>, original: Mapping) returns (categories: seq<Value>)
    ensures categories == MergeCategories(cats, OriginalCategories(original))
  {
    categories := cats;
    if HasKey(original, "categories") {
      var originalCats := AsList(Get(original, "categories", List([])));
      var j := 0;
      while j < |originalCats|
        invariant 0 <= j <= |originalCats|
        invariant MergeCategories(categories, originalCats[j..]) == MergeCategories(cats, originalCats)
      {
        assert originalCats[j..][1..] == originalCats[j + 1..];
        if originalCats[j] !in categories {
          categories := categories + [originalCats[j]];
        }
        j := j + 1;
      }
    }
  }

  /** The loop of lines 395-399: one download per image, in order. */
  method CollectDownloads(dir: string, images: seq<ImageRef>) returns (imageDownloads: seq<Download>)
    ensures imageDownloads == ImageDownloads(dir, images)
  {
    imageDownloads := [];
    var k := 0;
    while k < |images|
      invariant 0 <= k <= |images|
      invariant imageDownloads == ImageDownloads(dir, images[..k])
    {
      var img := images[k];
      ImageDownloadsSnoc(dir, images, k);
      imageDownloads := imageDownloads + [Download(Join(dir, img.name), img.downloadUrl)];
      k := k + 1;
    }
    assert images[..k] == images;
  }

  lemma ImageDownloadsSnoc(dir: string, images: seq<ImageRef>, k: nat)
    requires k < |images|
    ensures ImageDownloads(dir, images[..k + 1]) ==
      ImageDownloads(dir, images[..k]) + [Download(Join(dir, images[k].name), images[k].downloadUrl)]
  {
    var a := ImageDownloads(dir, images[..k + 1]);
    var b := ImageDownloads(dir, images[..k]) + [Download(Join(dir, images[k].name), images[k].downloadUrl)];
    assert |a| == |b|;
    forall i | 0 <= i < |a| ensures a[i] == b[i] {
      assert images[..k + 1][i] == images[i];
    }
  }

  /** Passthrough looks only at keys, so changing the value under a key commutes with it. */
  lemma {:induction false} PassthroughReplace(fm: Mapping, original: Mapping, i: nat, e: Entry)
    requires i < |fm| && e.key == fm[i].key
    ensures Passthrough(fm[i := e], original) == Passthrough(fm, original)[i := e]
    decreases |original|
  {
    if original != [] {
      var o := original[0];
      assert forall k :: HasKey(fm[i := e], k) == HasKey(fm, k) by {
        forall k ensures HasKey(fm[i := e], k) == HasKey(fm, k) {
          if HasKey(fm, k) {
            var j :| 0 <= j < |fm| && fm[j].key == k;
            assert fm[i := e][j].key == k;
          }
        }
      }
      if !HasKey(fm, o.key) && o.key != "categories" {
        assert (fm + [o])[i := e] == fm[i := e] + [o];
        PassthroughReplace(fm + [o], original[1..], i, e);
      } else {
        PassthroughReplace(fm, original[1..], i, e);
      }
    }
  }

  // ----- Categories -----

  /** Merging keeps the existing categories, in place, as a prefix. */
  lemma {:induction false} MergeKeepsPrefix(cats: seq<Value>, extra: seq<Value>)
    ensures |cats| <= |MergeCategories(cats, extra)|
    ensures MergeCategories(cats, extra)[..|cats|] == cats
    decreases |extra|
  {
    if extra != [] {
      var a := AddIfAbsent(cats, extra[0]);
      MergeKeepsPrefix(a, extra[1..]);
      assert a[..|cats|] == cats;
      assert MergeCategories(cats, extra)[..|a|][..|cats|] == MergeCategories(cats, extra)[..|cats|];
    }
  }

  /**
   * How often a category occurs after merging: as often as before if it was
   * there, once if only `extra` has it, not at all otherwise. So merging never
   * removes a category and adds no duplicate.
   */
  lemma {:induction false} MergeCount(cats: seq<Value>, extra: seq<Value>, x: Value)
    ensures multiset(MergeCategories(cats, extra))[x] ==
      if x in cats then multiset(cats)[x] else if x in extra then 1 else 0
    decreases |extra|
  {
    if extra != [] {
      var a := AddIfAbsent(cats, extra[0]);
      MergeCount(a, extra[1..], x);
      if extra[0] !in cats {
        assert multiset(a) == multiset(cats) + multiset{extra[0]};
      }
      assert x in extra <==> x == extra[0] || x in extra[1..];
    }
  }

  /** Every category of `extra` is present after merging. */
  lemma MergeContains(cats: seq<Value>, extra: seq<Value>, x: Value)
    requires x in cats || x in extra
    ensures x in MergeCategories(cats, extra)
  {
    MergeCount(cats, extra, x);
  }

  /** Merging categories that are all present already changes nothing. */
  lemma {:induction false} MergePresent(cats: seq<Value>, extra: seq<Value>)
    requires forall j :: 0 <= j < |extra| ==> extra[j] in cats
    ensures MergeCategories(cats, extra) == cats
    decreases |extra|
  {
    if extra != [] {
      MergePresent(cats, extra[1..]);
    }
  }

  /** Merging the same categories a second time changes nothing. */
  lemma MergeIdempotent(cats: seq<Value>, extra: seq<Value>)
    ensures MergeCategories(MergeCategories(cats, extra), extra) == MergeCategories(cats, extra)
  {
    forall j | 0 <= j < |extra| ensures extra[j] in MergeCategories(cats, extra) {
      MergeContains(cats, extra, extra[j]);
    }
    MergePresent(MergeCategories(cats, extra), extra);
  }

  /** After rendering, the marker category is present. */
  lemma MarkerPresent(doc: Document)
    ensures Str(Marker) in RenderedCategories(doc)
  {
    MergeContains(AddIfAbsent(doc.categories, Str(Marker)), OriginalCategories(doc.original), Str(Marker));
  }

  /** The marker occurs as often as in the document's categories, and at least once. */
  lemma MarkerCount(doc: Document)
    ensures var n := multiset(doc.categories)[Str(Marker)];
      multiset(RenderedCategories(doc))[Str(Marker)] == if n == 0 then 1 else n
  {
    var a := AddIfAbsent(doc.categories, Str(Marker));
    MergeCount(a, OriginalCategories(doc.original), Str(Marker));
    if Str(Marker) !in doc.categories {
      assert multiset(a) == multiset(doc.categories) + multiset{Str(Marker)};
    }
  }

  /** Every category of the document and of its original front matter is in the rendered list. */
  lemma CategoriesKept(doc: Document, x: Value)
    requires x in doc.categories || x in OriginalCategories(doc.original)
    ensures x in RenderedCategories(doc)
  {
    MergeContains(AddIfAbsent(doc.categories, Str(Marker)), OriginalCategories(doc.original), x);
  }

  /**
   * For a parsed document the merge adds nothing (its categories are those of
   * its original front matter), so the rendered list is the parsed list with
   * the marker appended when absent. In the source the two lists are one
   * object, so the append is seen by both; either way the output is the same.
   */
  lemma ParsedCategoriesRendered(fm: Mapping, body: string, filename: string, memberName: string)
    ensures var doc := FrontMatterDocument(fm, body, filename, memberName);
      RenderedCategories(doc) == AddIfAbsent(doc.categories, Str(Marker))
  {
    var doc := FrontMatterDocument(fm, body, filename, memberName);
    var a := AddIfAbsent(doc.categories, Str(Marker));
    forall j | 0 <= j < |OriginalCategories(fm)| ensures OriginalCategories(fm)[j] in a {
    }
    MergePresent(a, OriginalCategories(fm));
  }

  /** A document without front matter renders with categories `research` and the marker. */
  lemma PlainCategoriesRendered(content: string, filename: string, memberName: string)
    ensures RenderedCategories(PlainDocument(content, filename, memberName)) == [Str(PlainCategory), Str(Marker)]
  {
    assert Str(Marker) !in [Str(PlainCategory)];
  }

  /**
   * Rendering is idempotent on categories: a document whose categories (and
   * original categories) are a rendered list renders to that same list.
   */
  lemma RerenderKeepsCategories(doc: Document)
    ensures var cats := RenderedCategories(doc);
      RenderedCategories(doc.(categories := cats, original := [Entry("categories", List(cats))])) == cats
  {
    var cats := RenderedCategories(doc);
    MarkerPresent(doc);
    var doc' := doc.(categories := cats, original := [Entry("categories", List(cats))]);
    assert OriginalCategories(doc'.original) == cats;
    MergePresent(cats, cats);
  }

  // ----- Front matter -----

  lemma LookupAppend(m: Mapping, e: Entry, k: string)
    ensures Lookup(m + [e], k) == if HasKey(m, k) then Lookup(m, k) else if e.key == k then Some(e.value) else None
    decreases |m|
  {
    if m != [] {
      assert (m + [e])[1..] == m[1..] + [e];
      LookupAppend(m[1..], e, k);
    }
  }

  /**
   * What a key finds after the passthrough: the existing value when the key
   * was set, nothing for `categories`, else the original value.
   */
  lemma {:induction false} PassthroughLookup(fm: Mapping, original: Mapping, k: string)
    ensures Lookup(Passthrough(fm, original), k) ==
      if HasKey(fm, k) then Lookup(fm, k) else if k == "categories" then None else Lookup(original, k)
    decreases |original|
  {
    if original != [] {
      var e := original[0];
      var fm' := if !HasKey(fm, e.key) && e.key != "categories" then fm + [e] else fm;
      LookupAppend(fm, e, k);
      PassthroughLookup(fm', original[1..], k);
    }
  }

  lemma {:induction false} PassthroughKeysUnique(fm: Mapping, original: Mapping)
    requires KeysUnique(fm)
    ensures KeysUnique(Passthrough(fm, original))
    decreases |original|
  {
    if original != [] {
      var e := original[0];
      if !HasKey(fm, e.key) && e.key != "categories" {
        assert KeysUnique(fm + [e]);
        PassthroughKeysUnique(fm + [e], original[1..]);
      } else {
        PassthroughKeysUnique(fm, original[1..]);
      }
    }
  }

  /** No key of the rendered front matter stands twice. */
  lemma RenderedKeysUnique(pub: Publication, member: Member)
    ensures KeysUnique(RenderedFrontMatter(pub, member))
  {
    var req := RequiredFields(pub, member, RenderedCategories(pub.doc));
    assert KeysUnique(req);
    PassthroughKeysUnique(req, pub.doc.original);
  }

  /** The required keys carry the renderer's own values; no original value overwrites them. */
  lemma RequiredKeysKept(pub: Publication, member: Member)
    ensures var fm := RenderedFrontMatter(pub, member);
      && Lookup(fm, "title") == Some(pub.doc.title)
      && Lookup(fm, "author") == Some(NormalizeAuthor(pub.doc.author))
      && Lookup(fm, "categories") == Some(List(RenderedCategories(pub.doc)))
      && Lookup(fm, "source") == Some(SourceInfo(pub, member))
  {
    var req := RequiredFields(pub, member, RenderedCategories(pub.doc));
    assert KeysUnique(req);
    forall i | 0 <= i < 4
      ensures Lookup(Passthrough(req, pub.doc.original), req[i].key) == Some(req[i].value)
    {
      LookupAt(req, i);
      PassthroughLookup(req, pub.doc.original, req[i].key);
    }
    assert req[0].key == "title" && req[1].key == "author" && req[2].key == "categories" && req[3].key == "source";
  }

  /**
   * Every other key finds in the rendered front matter exactly what it finds
   * in the original: its original value when present, nothing when absent,
   * so the passthrough copies every custom key and invents none.
   */
  lemma OriginalKeysPassed(pub: Publication, member: Member, k: string)
    requires k !in RequiredKeys
    ensures Lookup(RenderedFrontMatter(pub, member), k) == Lookup(pub.doc.original, k)
  {
    var req := RequiredFields(pub, member, RenderedCategories(pub.doc));
    PassthroughLookup(req, pub.doc.original, k);
    assert !HasKey(req, k);
  }

  /** The rendered author is always a list; a string or other single value is its only element. */
  lemma AuthorIsList(v: Value)
    ensures NormalizeAuthor(v).List?
    ensures v.Str? ==> NormalizeAuthor(v).items == [v]
    ensures v.List? ==> NormalizeAuthor(v) == v
    ensures !v.Str? && !v.List? ==> NormalizeAuthor(v).items == [Str(Show(v))]
  {
  }

  // ----- Layout and text -----

  /**
   * The primary file is `publications/<lower(username)>-<directory>/index.qmd`,
   * each image goes into the same directory under its own name, in order,
   * and the text is the delimited front matter followed by the body, with
   * the attribution trailer exactly when attribution is on.
   */
  lemma RenderLayout(pub: Publication, member: Member, sync: SyncConfig, dump: Dumper)
    ensures var r := Render(pub, member, sync, dump);
      var dir := PublicationsRoot + "/" + Lower(member.username) + "-" + pub.directoryName;
      && r.indexPath == dir + "/" + IndexFile
      && |r.downloads| == |pub.images|
      && (forall i :: 0 <= i < |pub.images| ==>
            r.downloads[i] == Download(dir + "/" + pub.images[i].name, pub.images[i].downloadUrl))
      && r.text == "---\n" + dump(RenderedFrontMatter(pub, member)) + "---\n\n" + pub.doc.content
                   + (if sync.addAttribution != Some(false) then Attribution(member) else "")
  {
    var dir := PublicationsRoot + "/" + Lower(member.username) + "-" + pub.directoryName;
    assert LocalDir(member, pub.directoryName) == dir;
    assert (pub.doc.content + "") == pub.doc.content;
  }

  /** Within one member, distinct remote directories give distinct local directories. */
  lemma LocalDirInjective(member: Member, d1: string, d2: string)
    requires d1 != d2
    ensures LocalDirName(member, d1) != LocalDirName(member, d2)
  {
    var p := Lower(member.username) + "-";
    assert (p + d1)[|p|..] == d1 && (p + d2)[|p|..] == d2;
  }

  /**
   * Across members the names can collide: user `a-b` with directory `c` and
   * user `a` with directory `b-c` both map to `a-b-c`.
   */
  lemma LocalDirCollision(m1: Member, m2: Member)
    requires m1.username == "a-b" && m2.username == "a"
    ensures LocalDirName(m1, "c") == LocalDirName(m2, "b-c")
  {
    assert Lower("a-b") == "a-b";
    assert Lower("a") == "a";
  }
}
