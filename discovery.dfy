/**
 * Discovery of a member's publications on their site repository: the
 * listing path through the contents API (`_parse_posts_from_github_api`,
 * `_process_publication_directory`), the fallback through raw file URLs
 * (`_get_posts_via_raw_github`) and the choice between them on the status of
 * the first request (`_get_posts_from_member_site`). The network is a
 * parameter mapping a URL to the response, or to `None` where the request
 * raises.
 */
module Discovery {
  import opened Wrappers
  import opened Text
  import opened Config
  import opened Parse

  newtype byte = x: int | 0 <= x < 256

  /** One entry of a contents-API directory listing. */
  datatype ListEntry = ListEntry(name: string, kind: string, url: string, htmlUrl: string, path: string, downloadUrl: string)

  /**
   * What `response.json()` yields: a directory listing, or a file object
   * whose `content` is given here already base64-decoded.
   */
  datatype Json = Entries(items: seq<ListEntry>) | FileObject(content: string)

  /** An HTTP response: status, `text`, raw `content`, and the JSON body if it parses. */
  datatype Response = Response(status: int, text: string, body: seq<byte>, json: Option<Json>)

  /** `_safe_request`: `None` where the request raises. */
  type Fetcher = string -> Option<Response>

  /** The directory names the fallback tries. */
  const KnownDirectories: seq<string> := ["20250917_test"]

  /** The extensions the fallback probes for a featured image, in order. */
  const ProbeExtensions: seq<string> := ["jpg", "jpeg", "png", "gif", "svg"]

  /** The suffixes a listed featured image may end with. */
  const ImageSuffixes: seq<string> := [".png", ".jpg", ".jpeg", ".gif", ".svg"]

  /** A `requests` response is truthy unless its status is a client or server error (400 to 599). */
  predicate Truthy(r: Response) {
    !(400 <= r.status < 600)
  }

  /** `response and response.status_code == 200`. */
  predicate Fetched(r: Option<Response>) {
    r.Some? && Truthy(r.value) && r.value.status == 200
  }

  // ----- URLs -----

  function ApiUrl(m: Member): string {
    "https://api.github.com/repos/" + m.username + "/" + RepoName(m) + "/contents/" + PublicationsPath(m)
  }

  function RawDirUrl(m: Member, dirName: string): string {
    "https://raw.githubusercontent.com/" + m.username + "/" + RepoName(m) + "/main/" + PublicationsPath(m) + "/" + dirName
  }

  function BlobUrl(m: Member, dirName: string): string {
    "https://github.com/" + m.username + "/" + RepoName(m) + "/blob/main/" + PublicationsPath(m) + "/" + dirName + "/" + IndexFile
  }

  // ----- Listing path -----

  /** A file name the listing path keeps as a featured image. */
  predicate IsFeaturedImage(name: string) {
    var l := Lower(name);
    StartsWith(l, "featured.") && exists i :: 0 <= i < |ImageSuffixes| && EndsWith(l, ImageSuffixes[i])
  }

  /** A listing entry the scan of a directory keeps as an image. */
  predicate IsImageItem(x: ListEntry) {
    x.kind == "file" && x.name != IndexFile && IsFeaturedImage(x.name)
  }

  /** A listing entry that is the primary document. */
  predicate IsIndexItem(x: ListEntry) {
    x.kind == "file" && x.name == IndexFile
  }

  /** What the scan of one directory listing finds. */
  datatype Scan = Scan(index: Option<ListEntry>, images: seq<ListEntry>)

  function ScanStep(acc: Scan, x: ListEntry): Scan {
    if IsIndexItem(x) then acc.(index := Some(x))
    else if IsImageItem(x) then acc.(images := acc.images + [x])
    else acc
  }

  /** The scan of the entries of a publication directory (lines 189-197). */
  function ScanItems(items: seq<ListEntry>): Scan {
    if items == [] then Scan(None, []) else ScanStep(ScanItems(items[..|items| - 1]), items[|items| - 1])
  }

  method ScanDirectory(items: seq<ListEntry>) returns (indexQmd: Option<ListEntry>, imageFiles: seq<ListEntry>)
    ensures Scan(indexQmd, imageFiles) == ScanItems(items)
  {
    indexQmd, imageFiles := None, [];
    var i := 0;
    while i < |items|
      invariant 0 <= i <= |items|
      invariant Scan(indexQmd, imageFiles) == ScanItems(items[..i])
    {
      var subitem := items[i];
      assert items[..i + 1][..i] == items[..i];
      if subitem.kind == "file" {
        if subitem.name == IndexFile {
          indexQmd := Some(subitem);
        } else if IsFeaturedImage(subitem.name) {
          imageFiles := imageFiles + [subitem];
        }
      }
      i := i + 1;
    }
    assert items[..i] == items;
  }

  /**
   * The scan finds the primary document exactly when the listing has a file
   * named `index.qmd`, and then it is the last such file.
   */
  lemma {:induction false} ScanFindsIndex(items: seq<ListEntry>)
    ensures ScanItems(items).index.Some? <==> exists i :: 0 <= i < |items| && IsIndexItem(items[i])
    ensures ScanItems(items).index.Some? ==>
      (exists i :: 0 <= i < |items| && IsIndexItem(items[i])
        && ScanItems(items).index.value == items[i]
        && forall j :: i < j < |items| ==> !IsIndexItem(items[j]))
  {
    if items != [] {
      var init := items[..|items| - 1];
      var last := items[|items| - 1];
      ScanFindsIndex(init);
      assert forall j :: 0 <= j < |init| ==> items[j] == init[j];
      var acc := ScanItems(init);
      if IsIndexItem(last) {
        assert ScanItems(items).index == Some(last);
      } else {
        assert ScanItems(items).index == acc.index;
        if acc.index.Some? {
          var i :| 0 <= i < |init| && IsIndexItem(init[i]) && acc.index.value == init[i]
            && forall j :: i < j < |init| ==> !IsIndexItem(init[j]);
          assert items[i] == init[i];
        }
      }
    }
  }

  /**
   * The scan keeps as images exactly the files other than `index.qmd` named
   * `featured.<image extension>`, and no more entries than were listed.
   */
  lemma {:induction false} ScanKeepsImages(items: seq<ListEntry>)
    ensures forall x :: x in ScanItems(items).images <==> x in items && IsImageItem(x)
    ensures |ScanItems(items).images| <= |items|
  {
    if items != [] {
      var init := items[..|items| - 1];
      ScanKeepsImages(init);
      assert items == init + [items[|items| - 1]];
    }
  }

  /** An image name as the download list records it. */
  function ImageRefOf(x: ListEntry): ImageRef {
    ImageRef(x.name, x.downloadUrl, x.path)
  }

  /** The image records of the listed images, in order. */
  function ImageRefs(images: seq<ListEntry>): (r: seq<ImageRef>)
    ensures |r| == |images| && forall j :: 0 <= j < |images| ==> r[j] == ImageRefOf(images[j])
  {
    seq(|images|, i requires 0 <= i < |images| => ImageRefOf(images[i]))
  }

  /** `_process_publication_directory` once the primary document is found. */
  function ProcessDirectory(dirName: string, index: ListEntry, images: seq<ListEntry>,
                            m: Member, fetch: Fetcher, parseYaml: YamlParser): Option<Publication>
  {
    var resp := fetch(index.url);
    if !Fetched(resp) then None
    else match resp.value.json
      case Some(FileObject(text)) =>
        (match ParseQmd(text, IndexFile, m.name, parseYaml)
         case None => None
         case Some(doc) =>
           Some(Publication(doc, dirName, index.htmlUrl, index.path, ImageRefs(images))))
      case _ => None
  }

  /** The loop of lines 244-250 that records each listed image. */
  method CollectImageRefs(images: seq<ListEntry>) returns (imageFiles: seq<ImageRef>)
    ensures imageFiles == ImageRefs(images)
  {
    imageFiles := [];
    var i := 0;
    while i < |images|
      invariant 0 <= i <= |images|
      invariant |imageFiles| == i
      invariant forall j :: 0 <= j < i ==> imageFiles[j] == ImageRefOf(images[j])
    {
      imageFiles := imageFiles + [ImageRef(images[i].name, images[i].downloadUrl, images[i].path)];
      i := i + 1;
    }
  }

  method ProcessPublicationDirectory(dirName: string, index: ListEntry, images: seq<ListEntry>,
                                     m: Member, fetch: Fetcher, parseYaml: YamlParser)
    returns (r: Option<Publication>)
    ensures r == ProcessDirectory(dirName, index, images, m, fetch, parseYaml)
  {
    var contentResponse := fetch(index.url);
    if contentResponse.None? || !Truthy(contentResponse.value) || contentResponse.value.status != 200 {
      return None;
    }
    if contentResponse.value.json.None? || !contentResponse.value.json.value.FileObject? {
      return None;
    }
    var decoded := contentResponse.value.json.value.content;
    var parsed := ParseQmd(decoded, IndexFile, m.name, parseYaml);
    if parsed.None? {
      return None;
    }
    var imageFiles := CollectImageRefs(images);
    r := Some(Publication(parsed.value, dirName, index.htmlUrl, index.path, imageFiles));
  }

  /** A listing entry worth looking into: a directory whose name does not start with `_`. */
  predicate IsCandidate(x: ListEntry) {
    x.kind == "dir" && !StartsWith(x.name, "_")
  }

  /** The publication one entry of the top listing yields, if any. */
  function ListingItem(x: ListEntry, m: Member, fetch: Fetcher, parseYaml: YamlParser): Option<Publication> {
    if !IsCandidate(x) then None
    else
      var resp := fetch(x.url);
      if !Fetched(resp) || resp.value.json.None? || !resp.value.json.value.Entries? then None
      else
        var scan := ScanItems(resp.value.json.value.items);
        if scan.index.None? then None
        else ProcessDirectory(x.name, scan.index.value, scan.images, m, fetch, parseYaml)
  }

  /** `_parse_posts_from_github_api`: the publications of the listed directories, in listing order. */
  function ListingPosts(items: seq<ListEntry>, m: Member, fetch: Fetcher, parseYaml: YamlParser): seq<Publication> {
    if items == [] then []
    else
      var acc := ListingPosts(items[..|items| - 1], m, fetch, parseYaml);
      match ListingItem(items[|items| - 1], m, fetch, parseYaml)
      case None => acc
      case Some(p) => acc + [p]
  }

  method ParsePostsFromGithubApi(items: seq<ListEntry>, m: Member, fetch: Fetcher, parseYaml: YamlParser)
    returns (publications: seq<Publication>)
    ensures publications == ListingPosts(items, m, fetch, parseYaml)
  {
    publications := [];
    var i := 0;
    while i < |items|
      invariant 0 <= i <= |items|
      invariant publications == ListingPosts(items[..i], m, fetch, parseYaml)
    {
      var item := items[i];
      assert items[..i + 1][..i] == items[..i];
      if item.kind == "dir" && !StartsWith(item.name, "_") {
        var subdirResponse := fetch(item.url);
        if subdirResponse.Some? && Truthy(subdirResponse.value) && subdirResponse.value.status == 200
           && subdirResponse.value.json.Some? && subdirResponse.value.json.value.Entries?
        {
          var indexQmd, imageFiles := ScanDirectory(subdirResponse.value.json.value.items);
          if indexQmd.Some? {
            var publicationData := ProcessPublicationDirectory(item.name, indexQmd.value, imageFiles, m, fetch, parseYaml);
            if publicationData.Some? {
              publications := publications + [publicationData.value];
            }
          }
        }
      }
      i := i + 1;
    }
    assert items[..i] == items;
  }

  /**
   * Every publication the listing path yields comes from a listed directory
   * whose name does not start with `_` and whose own listing holds a file
   * named exactly `index.qmd`; its images are featured images of that listing.
   */
  lemma {:induction false} ListingOnlyQualifying(items: seq<ListEntry>, m: Member, fetch: Fetcher, parseYaml: YamlParser)
    ensures |ListingPosts(items, m, fetch, parseYaml)| <= |items|
    ensures forall p :: p in ListingPosts(items, m, fetch, parseYaml) ==>
      exists i :: 0 <= i < |items| && ListingItem(items[i], m, fetch, parseYaml) == Some(p)
  {
    if items != [] {
      var init := items[..|items| - 1];
      ListingOnlyQualifying(init, m, fetch, parseYaml);
      forall p | p in ListingPosts(items, m, fetch, parseYaml)
        ensures exists i :: 0 <= i < |items| && ListingItem(items[i], m, fetch, parseYaml) == Some(p)
      {
        if p in ListingPosts(init, m, fetch, parseYaml) {
          var i :| 0 <= i < |init| && ListingItem(init[i], m, fetch, parseYaml) == Some(p);
          assert items[i] == init[i];
        } else {
          assert ListingItem(items[|items| - 1], m, fetch, parseYaml) == Some(p);
        }
      }
    }
  }

  /** The listing path over two runs of entries is the two results in turn. */
  lemma {:induction false} ListingAppend(a: seq<ListEntry>, b: seq<ListEntry>, m: Member, fetch: Fetcher, parseYaml: YamlParser)
    ensures ListingPosts(a + b, m, fetch, parseYaml) == ListingPosts(a, m, fetch, parseYaml) + ListingPosts(b, m, fetch, parseYaml)
    decreases |b|
  {
    if b == [] {
      assert a + b == a;
    } else {
      var init := b[..|b| - 1];
      ListingAppend(a, init, m, fetch, parseYaml);
      assert (a + b)[..|a + b| - 1] == a + init;
      assert (a + b)[|a + b| - 1] == b[|b| - 1];
    }
  }

  /**
   * Every entry contributes its own publication, if any, at its place in
   * listing order: the publications of the entries before it, then its own,
   * then those of the entries after it. So a qualifying entry is found.
   */
  lemma ListingFindsQualifying(items: seq<ListEntry>, m: Member, fetch: Fetcher, parseYaml: YamlParser, i: nat)
    requires i < |items|
    ensures ListingPosts(items, m, fetch, parseYaml) ==
      ListingPosts(items[..i], m, fetch, parseYaml) + OptionToSeq(ListingItem(items[i], m, fetch, parseYaml))
        + ListingPosts(items[i + 1..], m, fetch, parseYaml)
    ensures ListingItem(items[i], m, fetch, parseYaml).Some? ==>
      ListingItem(items[i], m, fetch, parseYaml).value in ListingPosts(items, m, fetch, parseYaml)
  {
    assert items == items[..i] + [items[i]] + items[i + 1..];
    ListingAppend(items[..i], [items[i]], m, fetch, parseYaml);
    ListingAppend(items[..i] + [items[i]], items[i + 1..], m, fetch, parseYaml);
    assert [items[i]][..0] == [];
  }

  /** What one entry can yield: only a qualifying directory, named as listed, with featured images only. */
  lemma ListingItemQualifies(x: ListEntry, m: Member, fetch: Fetcher, parseYaml: YamlParser)
    ensures ListingItem(x, m, fetch, parseYaml).Some? ==>
      && IsCandidate(x)
      && Fetched(fetch(x.url)) && fetch(x.url).value.json.Some? && fetch(x.url).value.json.value.Entries?
      && (exists i :: 0 <= i < |fetch(x.url).value.json.value.items| && IsIndexItem(fetch(x.url).value.json.value.items[i]))
      && ListingItem(x, m, fetch, parseYaml).value.directoryName == x.name
      && forall img :: img in ListingItem(x, m, fetch, parseYaml).value.images ==>
           IsFeaturedImage(img.name) && img.name != IndexFile
  {
    if ListingItem(x, m, fetch, parseYaml).Some? {
      var items := fetch(x.url).value.json.value.items;
      ScanFindsIndex(items);
      ScanKeepsImages(items);
      var scan := ScanItems(items);
      var p := ListingItem(x, m, fetch, parseYaml).value;
      forall img | img in p.images ensures IsFeaturedImage(img.name) && img.name != IndexFile {
        var k :| 0 <= k < |p.images| && p.images[k] == img;
        assert img == ImageRefOf(scan.images[k]);
        assert scan.images[k] in scan.images;
      }
    }
  }

  /**
   * Processing a directory yields a publication exactly when its `index.qmd`
   * fetches with status 200 as a file object whose text parses; the
   * publication then carries the parsed document, the directory's name, the
   * index entry's `html_url` and `path`, and one record per listed image.
   */
  lemma ProcessDirectoryFound(dirName: string, index: ListEntry, images: seq<ListEntry>,
                              m: Member, fetch: Fetcher, parseYaml: YamlParser)
    ensures ProcessDirectory(dirName, index, images, m, fetch, parseYaml).Some? <==>
      && Fetched(fetch(index.url)) && fetch(index.url).value.json.Some? && fetch(index.url).value.json.value.FileObject?
      && ParseQmd(fetch(index.url).value.json.value.content, IndexFile, m.name, parseYaml).Some?
    ensures ProcessDirectory(dirName, index, images, m, fetch, parseYaml).Some? ==>
      var p := ProcessDirectory(dirName, index, images, m, fetch, parseYaml).value;
      && p.doc == ParseQmd(fetch(index.url).value.json.value.content, IndexFile, m.name, parseYaml).value
      && p.directoryName == dirName && p.sourceUrl == index.htmlUrl && p.githubPath == index.path
      && |p.images| == |images|
      && forall j :: 0 <= j < |images| ==>
           p.images[j].name == images[j].name && p.images[j].downloadUrl == images[j].downloadUrl
           && p.images[j].githubPath == images[j].path
  {
    var resp := fetch(index.url);
    if Fetched(resp) && resp.value.json.Some? && resp.value.json.value.FileObject? {
      var parsed := ParseQmd(resp.value.json.value.content, IndexFile, m.name, parseYaml);
      if parsed.Some? {
        assert ProcessDirectory(dirName, index, images, m, fetch, parseYaml)
          == Some(Publication(parsed.value, dirName, index.htmlUrl, index.path, ImageRefs(images)));
      }
    }
  }

  /**
   * The converse of `ListingItemQualifies`: a directory entry not starting
   * with `_`, whose listing fetches and holds `index.qmd`, yields exactly what
   * processing that directory yields, with the last listed `index.qmd` and the
   * listed featured images; any other entry yields nothing.
   */
  lemma ListingItemFound(x: ListEntry, m: Member, fetch: Fetcher, parseYaml: YamlParser)
    ensures !IsCandidate(x) ==> ListingItem(x, m, fetch, parseYaml).None?
    ensures IsCandidate(x) && !(Fetched(fetch(x.url)) && fetch(x.url).value.json.Some? && fetch(x.url).value.json.value.Entries?) ==>
      ListingItem(x, m, fetch, parseYaml).None?
    ensures IsCandidate(x) && Fetched(fetch(x.url)) && fetch(x.url).value.json.Some? && fetch(x.url).value.json.value.Entries? ==>
      var items := fetch(x.url).value.json.value.items;
      && ((forall i :: 0 <= i < |items| ==> !IsIndexItem(items[i])) ==> ListingItem(x, m, fetch, parseYaml).None?)
      && forall i :: 0 <= i < |items| && IsIndexItem(items[i]) && (forall j :: i < j < |items| ==> !IsIndexItem(items[j])) ==>
           ListingItem(x, m, fetch, parseYaml)
             == ProcessDirectory(x.name, items[i], ScanItems(items).images, m, fetch, parseYaml)
  {
    if IsCandidate(x) && Fetched(fetch(x.url)) && fetch(x.url).value.json.Some? && fetch(x.url).value.json.value.Entries? {
      var items := fetch(x.url).value.json.value.items;
      ScanFindsIndex(items);
      forall i | 0 <= i < |items| && IsIndexItem(items[i]) && (forall j :: i < j < |items| ==> !IsIndexItem(items[j]))
        ensures ListingItem(x, m, fetch, parseYaml)
                  == ProcessDirectory(x.name, items[i], ScanItems(items).images, m, fetch, parseYaml)
      {
        var k :| 0 <= k < |items| && IsIndexItem(items[k]) && ScanItems(items).index.value == items[k]
          && forall j :: k < j < |items| ==> !IsIndexItem(items[j]);
        assert k == i;
      }
    }
  }

  // ----- Fallback path -----

  /** The first extension, in probing order, whose featured image fetches with status 200. */
  function FirstImage(m: Member, dirName: string, exts: seq<string>, fetch: Fetcher): (r: Option<ImageRef>)
    ensures r.Some? ==>
      (exists k :: 0 <= k < |exts|
        && r.value.name == "featured." + exts[k]
        && r.value.downloadUrl == RawDirUrl(m, dirName) + "/featured." + exts[k]
        && Fetched(fetch(r.value.downloadUrl))
        && forall j :: 0 <= j < k ==> !Fetched(fetch(RawDirUrl(m, dirName) + "/featured." + exts[j])))
    ensures r.None? ==> forall j :: 0 <= j < |exts| ==> !Fetched(fetch(RawDirUrl(m, dirName) + "/featured." + exts[j]))
    decreases |exts|
  {
    if exts == [] then None
    else
      var name := "featured." + exts[0];
      var url := RawDirUrl(m, dirName) + "/" + name;
      assert url == RawDirUrl(m, dirName) + "/featured." + exts[0];
      if Fetched(fetch(url)) then Some(ImageRef(name, url, PublicationsPath(m) + "/" + dirName + "/" + name))
      else FirstImage(m, dirName, exts[1..], fetch)
  }

  function OptionToSeq<T>(o: Option<T>): seq<T> {
    if o.Some? then [o.value] else []
  }

  /** The publication the fallback finds in one known directory, if any. */
  function FallbackItem(m: Member, dirName: string, fetch: Fetcher, parseYaml: YamlParser): Option<Publication> {
    var resp := fetch(RawDirUrl(m, dirName) + "/" + IndexFile);
    if !Fetched(resp) then None
    else match ParseQmd(resp.value.text, IndexFile, m.name, parseYaml)
      case None => None
      case Some(doc) =>
        Some(Publication(doc, dirName, BlobUrl(m, dirName), PublicationsPath(m) + "/" + dirName + "/" + IndexFile,
                         OptionToSeq(FirstImage(m, dirName, ProbeExtensions, fetch))))
  }

  /** `_get_posts_via_raw_github` over the given directory names. */
  function FallbackPosts(m: Member, dirs: seq<string>, fetch: Fetcher, parseYaml: YamlParser): seq<Publication> {
    if dirs == [] then []
    else
      var acc := FallbackPosts(m, dirs[..|dirs| - 1], fetch, parseYaml);
      match FallbackItem(m, dirs[|dirs| - 1], fetch, parseYaml)
      case None => acc
      case Some(p) => acc + [p]
  }

  /** The probe loop of lines 131-146, which stops at the first image found. */
  method ProbeFeaturedImage(m: Member, dirName: string, fetch: Fetcher) returns (imageFiles: seq<ImageRef>)
    ensures imageFiles == OptionToSeq(FirstImage(m, dirName, ProbeExtensions, fetch))
  {
    imageFiles := [];
    var i := 0;
    while i < |ProbeExtensions|
      invariant 0 <= i <= |ProbeExtensions|
      invariant imageFiles == []
      invariant FirstImage(m, dirName, ProbeExtensions, fetch) == FirstImage(m, dirName, ProbeExtensions[i..], fetch)
    {
      var ext := ProbeExtensions[i];
      var imgFilename := "featured." + ext;
      var imgUrl := RawDirUrl(m, dirName) + "/" + imgFilename;
      var imgResponse := fetch(imgUrl);
      assert ProbeExtensions[i..][1..] == ProbeExtensions[i + 1..];
      if imgResponse.Some? && Truthy(imgResponse.value) && imgResponse.value.status == 200 {
        imageFiles := imageFiles + [ImageRef(imgFilename, imgUrl, PublicationsPath(m) + "/" + dirName + "/" + imgFilename)];
        break;
      }
      i := i + 1;
    }
  }

  method GetPostsViaRawGithub(m: Member, fetch: Fetcher, parseYaml: YamlParser) returns (publications: seq<Publication>)
    ensures publications == FallbackPosts(m, KnownDirectories, fetch, parseYaml)
  {
    publications := [];
    var i := 0;
    while i < |KnownDirectories|
      invariant 0 <= i <= |KnownDirectories|
      invariant publications == FallbackPosts(m, KnownDirectories[..i], fetch, parseYaml)
    {
      var dirName := KnownDirectories[i];
      assert KnownDirectories[..i + 1][..i] == KnownDirectories[..i];
      var response := fetch(RawDirUrl(m, dirName) + "/" + IndexFile);
      if response.Some? && Truthy(response.value) && response.value.status == 200 {
        var publicationData := ParseQmd(response.value.text, IndexFile, m.name, parseYaml);
        if publicationData.Some? {
          var imageFiles := ProbeFeaturedImage(m, dirName, fetch);
          publications := publications + [Publication(publicationData.value, dirName, BlobUrl(m, dirName),
                                                      PublicationsPath(m) + "/" + dirName + "/" + IndexFile, imageFiles)];
        }
      }
      i := i + 1;
    }
    assert KnownDirectories[..i] == KnownDirectories;
  }

  /**
   * The fallback keeps at most one image per publication: the featured image
   * of the first extension of `jpg, jpeg, png, gif, svg` that fetches with 200.
   */
  lemma FallbackAtMostOneImage(m: Member, dirName: string, fetch: Fetcher, parseYaml: YamlParser)
    ensures FallbackItem(m, dirName, fetch, parseYaml).Some? ==>
      var p := FallbackItem(m, dirName, fetch, parseYaml).value;
      && p.directoryName == dirName
      && |p.images| <= 1
      && (|p.images| == 1 <==>
            (exists k :: 0 <= k < |ProbeExtensions| && Fetched(fetch(RawDirUrl(m, dirName) + "/featured." + ProbeExtensions[k]))))
  {
  }

  // ----- Choosing a path -----

  /** What the status of the first request leads to. */
  datatype Route = Listing | NoPosts | Fallback

  /**
   * The dispatch of lines 76-93 as written. `elif response:` tests the
   * response's truth, so a 404 or 403 response never reaches its inner tests.
   */
  function DispatchAsWritten(resp: Option<Response>): Route {
    if resp.Some? && Truthy(resp.value) && resp.value.status == 200 then Listing
    else if resp.Some? && Truthy(resp.value) then
      (if resp.value.status == 404 then NoPosts
       else if resp.value.status == 403 then Fallback
       else NoPosts)
    else Fallback
  }

  /**
   * As written, every error status takes the fallback and the 404 and 403
   * branches are dead: a 404 probes the known directories instead of
   * yielding nothing.
   */
  lemma DispatchAsWrittenFallsBackOnErrors(resp: Option<Response>)
    ensures DispatchAsWritten(resp) ==
      if resp.None? || 400 <= resp.value.status < 600 then Fallback
      else if resp.value.status == 200 then Listing
      else NoPosts
    ensures resp.Some? && resp.value.status == 404 ==> DispatchAsWritten(resp) == Fallback
  {
  }

  /**
   * The dispatch the log messages describe: 200 lists, 404 means the member
   * has nothing yet, 403 or no response falls back, anything else yields nothing.
   */
  function Dispatch(resp: Option<Response>): Route {
    if resp.None? then Fallback
    else if resp.value.status == 200 then Listing
    else if resp.value.status == 404 then NoPosts
    else if resp.value.status == 403 then Fallback
    else NoPosts
  }

  /** The two dispatches agree except on error statuses other than 403. */
  lemma DispatchDiffersOnlyOnErrors(resp: Option<Response>)
    ensures Dispatch(resp) != DispatchAsWritten(resp) <==>
      resp.Some? && 400 <= resp.value.status < 600 && resp.value.status != 403
  {
  }

  /** The publications one route leads to, given the response to the first request. */
  function RoutePosts(route: Route, resp: Option<Response>, m: Member, fetch: Fetcher, parseYaml: YamlParser): seq<Publication> {
    match route
    case Listing =>
      if resp.Some? && resp.value.json.Some? && resp.value.json.value.Entries? then
        ListingPosts(resp.value.json.value.items, m, fetch, parseYaml)
      else []
    case NoPosts => []
    case Fallback => FallbackPosts(m, KnownDirectories, fetch, parseYaml)
  }

  /** `_get_posts_from_member_site` as written. */
  function MemberPosts(m: Member, fetch: Fetcher, parseYaml: YamlParser): seq<Publication> {
    RoutePosts(DispatchAsWritten(fetch(ApiUrl(m))), fetch(ApiUrl(m)), m, fetch, parseYaml)
  }

  /** `_get_posts_from_member_site` with the dispatch its log messages describe. */
  function IntendedMemberPosts(m: Member, fetch: Fetcher, parseYaml: YamlParser): seq<Publication> {
    RoutePosts(Dispatch(fetch(ApiUrl(m))), fetch(ApiUrl(m)), m, fetch, parseYaml)
  }

  method GetPostsFromMemberSite(m: Member, fetch: Fetcher, parseYaml: YamlParser) returns (posts: seq<Publication>)
    ensures posts == MemberPosts(m, fetch, parseYaml)
  {
    posts := [];
    var response := fetch(ApiUrl(m));
    if response.Some? && Truthy(response.value) && response.value.status == 200 {
      if response.value.json.Some? && response.value.json.value.Entries? {
        posts := ParsePostsFromGithubApi(response.value.json.value.items, m, fetch, parseYaml);
      }
    } else if response.Some? && Truthy(response.value) {
      if response.value.status == 403 {
        posts := GetPostsViaRawGithub(m, fetch, parseYaml);
      }
    } else {
      posts := GetPostsViaRawGithub(m, fetch, parseYaml);
    }
  }

  /**
   * As written, a 404 on the publications path, like any other error
   * status, probes the known directories.
   */
  lemma NotFoundFallsBack(m: Member, fetch: Fetcher, parseYaml: YamlParser)
    requires fetch(ApiUrl(m)).Some? && 400 <= fetch(ApiUrl(m)).value.status < 600
    ensures MemberPosts(m, fetch, parseYaml) == FallbackPosts(m, KnownDirectories, fetch, parseYaml)
  {
  }

  /** With the intended dispatch, a 404 on the publications path yields no publications. */
  lemma NotFoundYieldsNothing(m: Member, fetch: Fetcher, parseYaml: YamlParser)
    requires fetch(ApiUrl(m)).Some? && fetch(ApiUrl(m)).value.status == 404
    ensures IntendedMemberPosts(m, fetch, parseYaml) == []
    ensures KnownDirectories != [] && FallbackItem(m, KnownDirectories[0], fetch, parseYaml).Some? ==>
      MemberPosts(m, fetch, parseYaml) != IntendedMemberPosts(m, fetch, parseYaml)
  {
    assert KnownDirectories[..0] == [];
  }

  /**
   * A 403 or no response takes the fallback, as written and as intended: a
   * known directory whose `index.qmd` fetches and parses is still found.
   */
  lemma AccessDeniedFallsBack(m: Member, fetch: Fetcher, parseYaml: YamlParser)
    requires fetch(ApiUrl(m)).None? || fetch(ApiUrl(m)).value.status == 403
    ensures MemberPosts(m, fetch, parseYaml) == FallbackPosts(m, KnownDirectories, fetch, parseYaml)
    ensures IntendedMemberPosts(m, fetch, parseYaml) == MemberPosts(m, fetch, parseYaml)
    ensures FallbackItem(m, KnownDirectories[0], fetch, parseYaml).Some? ==>
      MemberPosts(m, fetch, parseYaml) == [FallbackItem(m, KnownDirectories[0], fetch, parseYaml).value]
  {
    assert KnownDirectories[..0] == [];
  }
}
