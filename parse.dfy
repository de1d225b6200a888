/**
 * The document parser (`_parse_qmd_content`): it splits a Quarto document
 * into its YAML front matter and its body and fills in the defaults. The YAML
 * parser is a parameter; it returns `None` where `yaml.safe_load` raises or
 * yields something other than a mapping, which is where the source's
 * `frontmatter.get` raises.
 */
module Parse {
  import opened Wrappers
  import opened Text
  import opened FrontMatter

  const Delimiter: string := "---"

  /** The category a document without front matter gets. */
  const PlainCategory: string := "research"

  /** A parsed publication: the dictionary `_parse_qmd_content` returns. */
  datatype Document = Document(
    title: Value,
    author: Value,
    categories: seq<Value>,
    content: string,
    filename: string,
    original: Mapping)

  /** An image found next to a document: `name`, `download_url` and `github_path`. */
  datatype ImageRef = ImageRef(name: string, downloadUrl: string, githubPath: string)

  /**
   * A document together with what discovery adds to its dictionary:
   * `directory_name`, `source_url`, `github_path` and `image_files`.
   */
  datatype Publication = Publication(
    doc: Document,
    directoryName: string,
    sourceUrl: string,
    githubPath: string,
    images: seq<ImageRef>)

  /** The YAML parser, `yaml.safe_load`. */
  type YamlParser = string -> Option<Mapping>

  /**
   * `content.split('---', 2)`, when the text starts with the delimiter and the
   * split yields three parts: the second part (the metadata) and the third
   * (everything after the second delimiter).
   */
  function SplitFrontMatter(content: string): (r: Option<(string, string)>)
    ensures r.Some? <==>
      StartsWith(content, Delimiter) && exists k :: 3 <= k && OccursAt(content, Delimiter, k)
    ensures r.Some? ==>
      exists k :: 3 <= k && OccursAt(content, Delimiter, k)
        && (forall j :: 3 <= j < k ==> !OccursAt(content, Delimiter, j))
        && r.value == (content[3..k], content[k + 3..])
  {
    if !StartsWith(content, Delimiter) then None
    else match Find(content, Delimiter, 3)
      case None => None
      case Some(k) => Some((content[3..k], content[k + 3..]))
  }

  /** `filename.replace('.qmd', '')`. */
  function FileStem(filename: string): string {
    ReplaceAll(filename, ".qmd", "")
  }

  /** The title a front-matter block without `title` gets: the stem, title-cased. */
  function DefaultTitle(filename: string): string {
    Title(FileStem(filename))
  }

  /** The title a document without front matter gets: the stem with `-` turned to spaces, title-cased. */
  function PlainTitle(filename: string): string {
    Title(ReplaceAll(FileStem(filename), "-", " "))
  }

  /** A categories value that is not a list stands for the one-element list holding it. */
  function AsList(v: Value): seq<Value> {
    if v.List? then v.items else [v]
  }

  /** The document a text without front matter yields. */
  function PlainDocument(content: string, filename: string, memberName: string): Document {
    Document(Str(PlainTitle(filename)), List([Str(memberName)]), [Str(PlainCategory)], content, filename, [])
  }

  /** The document a front-matter mapping and a body yield, with the defaults filled in. */
  function FrontMatterDocument(fm: Mapping, body: string, filename: string, memberName: string): Document {
    Document(
      Get(fm, "title", Str(DefaultTitle(filename))),
      Get(fm, "author", Str(memberName)),
      AsList(Get(fm, "categories", List([]))),
      body, filename, fm)
  }

  /** `_parse_qmd_content`: `None` when the front matter does not parse. */
  function ParseQmd(content: string, filename: string, memberName: string, parseYaml: YamlParser): Option<Document> {
    match SplitFrontMatter(content)
    case Some((meta, rest)) =>
      (match parseYaml(Strip(meta))
       case None => None
       case Some(fm) => Some(FrontMatterDocument(fm, Strip(rest), filename, memberName)))
    case None => Some(PlainDocument(content, filename, memberName))
  }

  /**
   * A text that starts with `---` and has a second `---` at index `k` (the
   * first one after the opening delimiter) yields the stripped text between
   * them as metadata and the stripped text after the second as body.
   */
  lemma ParseWithFrontMatter(content: string, filename: string, memberName: string, parseYaml: YamlParser, k: nat)
    requires StartsWith(content, Delimiter) && 3 <= k && OccursAt(content, Delimiter, k)
    requires forall j :: 3 <= j < k ==> !OccursAt(content, Delimiter, j)
    ensures ParseQmd(content, filename, memberName, parseYaml) ==
      match parseYaml(Strip(content[3..k]))
      case None => None
      case Some(fm) => Some(FrontMatterDocument(fm, Strip(content[k + 3..]), filename, memberName))
  {
    SplitAt(content, k);
  }

  /** The split happens at the first delimiter after the opening one. */
  lemma SplitAt(content: string, k: nat)
    requires StartsWith(content, Delimiter) && 3 <= k && OccursAt(content, Delimiter, k)
    requires forall j :: 3 <= j < k ==> !OccursAt(content, Delimiter, j)
    ensures SplitFrontMatter(content) == Some((content[3..k], content[k + 3..]))
  {
    assert Find(content, Delimiter, 3) == Some(k);
  }

  /**
   * Any other text is the body unchanged, with the derived title, the member
   * as the one author and `research` as the one category.
   */
  lemma ParseWithoutFrontMatter(content: string, filename: string, memberName: string, parseYaml: YamlParser)
    requires !StartsWith(content, Delimiter) || forall k :: 3 <= k ==> !OccursAt(content, Delimiter, k)
    ensures ParseQmd(content, filename, memberName, parseYaml) == Some(PlainDocument(content, filename, memberName))
    ensures PlainDocument(content, filename, memberName).content == content
    ensures PlainDocument(content, filename, memberName).categories == [Str(PlainCategory)]
    ensures PlainDocument(content, filename, memberName).author == List([Str(memberName)])
  {
  }

  /** Parsing fails exactly when there is a front-matter block and the YAML parser rejects it. */
  lemma ParseFailsOnlyOnBadYaml(content: string, filename: string, memberName: string, parseYaml: YamlParser)
    ensures ParseQmd(content, filename, memberName, parseYaml).None? <==>
      SplitFrontMatter(content).Some? && parseYaml(Strip(SplitFrontMatter(content).value.0)).None?
  {
  }

  /** Overlapping delimiters do not split: `-----` has no second `---` after the first. */
  lemma OverlappingDelimitersDoNotSplit(filename: string, memberName: string, parseYaml: YamlParser)
    ensures ParseQmd("-----", filename, memberName, parseYaml) == Some(PlainDocument("-----", filename, memberName))
  {
  }

  /** Case mapping turns no other character into `-`, and leaves `-` alone. */
  lemma CaseKeepsDash(c: char)
    ensures LowerChar(c) == '-' <==> c == '-'
    ensures UpperChar(c) == '-' <==> c == '-'
  {
  }

  /**
   * The two default titles differ: the plain-text title has no `-` left, the
   * front-matter default keeps every `-` of the stem where it was.
   */
  lemma {:induction false} DefaultTitlesDiffer(filename: string)
    ensures '-' !in PlainTitle(filename)
    ensures |DefaultTitle(filename)| == |FileStem(filename)|
    ensures forall i :: 0 <= i < |FileStem(filename)| ==>
      (DefaultTitle(filename)[i] == '-' <==> FileStem(filename)[i] == '-')
  {
    var stem := FileStem(filename);
    var t := Title(stem);
    forall i | 0 <= i < |stem|
      ensures t[i] == '-' <==> stem[i] == '-'
    {
      assert t[i] == LowerChar(stem[i]) || t[i] == UpperChar(stem[i]);
      CaseKeepsDash(stem[i]);
    }
    assert "-" == ['-'] && " " == [' '];
    ReplaceAllChar(stem, '-', ' ');
    var spaced := ReplaceAll(stem, "-", " ");
    var p := Title(spaced);
    assert p == PlainTitle(filename);
    forall i | 0 <= i < |p| ensures p[i] != '-' {
      assert spaced[i] != '-';
      assert p[i] == LowerChar(spaced[i]) || p[i] == UpperChar(spaced[i]);
      CaseKeepsDash(spaced[i]);
    }
  }

  lemma IndexStem()
    ensures FileStem("index.qmd") == "index"
  {
    assert "index.qmd" == "index" + ".qmd";
    forall k | 0 <= k < 5 ensures !OccursAt("index" + ".qmd", ".qmd", k) {
      assert ("index" + ".qmd")[k] != '.';
    }
    ReplaceAllOnlySuffix("index", ".qmd", "");
    assert "index" + "" == "index";
  }

  lemma TitleOfIndex()
    ensures Title("index") == "Index"
  {
    var t := Title("index");
    assert forall i :: 0 <= i < 5 ==> t[i] == "Index"[i];
  }

  /** Every document the callers fetch is named `index.qmd`; both default titles are then `Index`. */
  lemma IndexTitles()
    ensures DefaultTitle("index.qmd") == "Index"
    ensures PlainTitle("index.qmd") == "Index"
  {
    IndexStem();
    TitleOfIndex();
    assert "-" == ['-'] && " " == [' '];
    ReplaceAllChar("index", '-', ' ');
    var spaced := ReplaceAll("index", "-", " ");
    assert |spaced| == 5;
    assert forall i :: 0 <= i < 5 ==> spaced[i] == "index"[i];
    assert spaced == "index";
  }
}
