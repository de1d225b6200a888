/**
 * The configuration the synchroniser loads once per run: the member records
 * and the `sync_config` block. A key the file leaves out is `None` here, and
 * the accessor functions below apply the program's defaults.
 */
module Config {
  import opened Wrappers
  import opened Text

  /** One entry of `members`; `publicationsPath`, `destinationPath` and `active` are optional keys. */
  datatype Member = Member(
    username: string,
    name: string,
    profileUrl: string,
    publicationsPath: Option<string>,
    destinationPath: Option<string>,
    active: Option<bool>)

  /** The `sync_config` block; `categoryMapping` is empty when absent. */
  datatype SyncConfig = SyncConfig(
    maxPostsPerMember: Option<int>,
    addAttribution: Option<bool>,
    categoryMapping: map<string, string>,
    typeMapping: Option<map<string, string>>)

  datatype Settings = Settings(members: seq<Member>, sync: SyncConfig)

  /** The primary document of every publication directory. */
  const IndexFile: string := "index.qmd"

  /** The type mapping used when `sync_config` gives none. */
  const DefaultTypeMapping: map<string, string> :=
    map["paper" := "papers", "publication" := "papers", "report" := "reports", "post" := "posts", "blog" := "posts"]

  function MaxPosts(c: SyncConfig): int {
    c.maxPostsPerMember.GetOr(50)
  }

  predicate AddAttribution(c: SyncConfig) {
    c.addAttribution.GetOr(true)
  }

  function TypeMapping(c: SyncConfig): map<string, string> {
    c.typeMapping.GetOr(DefaultTypeMapping)
  }

  /** `member.get('active', True)`. */
  predicate IsActive(m: Member) {
    m.active.GetOr(true)
  }

  /** `member.get('publications_path', '/publications').strip('/')`. */
  function PublicationsPath(m: Member): string {
    StripChars(m.publicationsPath.GetOr("/publications"), {'/'})
  }

  /** The path has no leading or trailing `/`, and is `publications` when the member gives none. */
  lemma PublicationsPathTrimmed(m: Member)
    ensures PublicationsPath(m) != [] ==>
      PublicationsPath(m)[0] != '/' && PublicationsPath(m)[|PublicationsPath(m)| - 1] != '/'
    ensures m.publicationsPath.None? ==> PublicationsPath(m) == "publications"
  {
    var w1, w2 := StripSplit(m.publicationsPath.GetOr("/publications"), {'/'});
    if m.publicationsPath.None? {
      assert w1 + PublicationsPath(m) + w2 == "/" + "publications";
    }
  }

  /** The member's site repository, `<username>.github.io`. */
  function RepoName(m: Member): string {
    m.username + ".github.io"
  }
}
