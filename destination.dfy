/**
 * The destination resolver (`_get_destination_subdir`): which subdirectory a
 * publication belongs in, by a four-level precedence. Nothing in the program
 * calls it; the local path the renderer builds does not depend on it.
 */
module Destination {
  import opened Wrappers
  import opened Text
  import opened FrontMatter
  import opened Config
  import opened Parse

  /** The subdirectory used when no rule applies. */
  const FallbackSubdir: string := "posts"

  /** `value in mapping` for a category: only a string can be a key of the mapping. */
  predicate Mapped(c: Value, mapping: map<string, string>) {
    c.Str? && c.s in mapping
  }

  /** The index of the first category, in list order, that the category mapping has an entry for. */
  function FirstMapped(cats: seq<Value>, mapping: map<string, string>): (r: Option<nat>)
    ensures r.Some? ==> r.value < |cats| && Mapped(cats[r.value], mapping)
    ensures r.Some? ==> forall j :: 0 <= j < r.value ==> !Mapped(cats[j], mapping)
    ensures r.None? ==> forall j :: 0 <= j < |cats| ==> !Mapped(cats[j], mapping)
  {
    if cats == [] then None
    else if Mapped(cats[0], mapping) then Some(0)
    else match FirstMapped(cats[1..], mapping)
      case None => None
      case Some(i) => Some(i + 1)
  }

  /** `_get_destination_subdir(post, member)`. */
  function DestinationSubdir(doc: Document, member: Member, sync: SyncConfig): string {
    if member.destinationPath.Some? then
      StripChars(member.destinationPath.value, {'/'})
    else match FirstMapped(doc.categories, sync.categoryMapping)
      case Some(i) => StripChars(sync.categoryMapping[doc.categories[i].s], {'/'})
      case None =>
        var postType := Get(doc.original, "type", Str("post"));
        var types := TypeMapping(sync);
        if postType.Str? && postType.s in types then types[postType.s] else FallbackSubdir
  }

  /** A member's own destination wins over every category and type mapping. */
  lemma OverrideWins(doc: Document, member: Member, sync: SyncConfig, path: string)
    requires member.destinationPath == Some(path)
    ensures DestinationSubdir(doc, member, sync) == StripChars(path, {'/'})
  {
  }

  /**
   * Without an override, the earliest mapped category decides, whatever the
   * document's type and the type mapping say.
   */
  lemma FirstMappedCategoryWins(doc: Document, member: Member, sync: SyncConfig, i: nat)
    requires member.destinationPath.None?
    requires i < |doc.categories| && Mapped(doc.categories[i], sync.categoryMapping)
    requires forall j :: 0 <= j < i ==> !Mapped(doc.categories[j], sync.categoryMapping)
    ensures DestinationSubdir(doc, member, sync) == StripChars(sync.categoryMapping[doc.categories[i].s], {'/'})
  {
  }

  /**
   * Without an override and without a mapped category, the type mapping
   * decides, the type defaulting to `post`; an unmapped type gives `posts`.
   */
  lemma TypeMappingDecides(doc: Document, member: Member, sync: SyncConfig)
    requires member.destinationPath.None?
    requires forall j :: 0 <= j < |doc.categories| ==> !Mapped(doc.categories[j], sync.categoryMapping)
    ensures var t := Get(doc.original, "type", Str("post"));
      DestinationSubdir(doc, member, sync) ==
        if t.Str? && t.s in TypeMapping(sync) then TypeMapping(sync)[t.s] else FallbackSubdir
  {
  }

  /** Categories the mapping does not know, put in front, change nothing. */
  lemma UnmappedCategoriesIgnored(doc: Document, member: Member, sync: SyncConfig, extra: seq<Value>)
    requires forall j :: 0 <= j < |extra| ==> !Mapped(extra[j], sync.categoryMapping)
    ensures DestinationSubdir(doc.(categories := extra + doc.categories), member, sync) ==
            DestinationSubdir(doc, member, sync)
  {
    var cats := extra + doc.categories;
    FirstMappedSkips(extra, doc.categories, sync.categoryMapping);
    match FirstMapped(doc.categories, sync.categoryMapping)
    case None =>
    case Some(i) => assert cats[i + |extra|] == doc.categories[i];
  }

  lemma {:induction false} FirstMappedSkips(extra: seq<Value>, cats: seq<Value>, mapping: map<string, string>)
    requires forall j :: 0 <= j < |extra| ==> !Mapped(extra[j], mapping)
    ensures FirstMapped(extra + cats, mapping) ==
            match FirstMapped(cats, mapping) case None => None case Some(i) => Some(i + |extra|)
  {
    if extra != [] {
      assert (extra + cats)[1..] == extra[1..] + cats;
      assert (extra + cats)[0] == extra[0];
      FirstMappedSkips(extra[1..], cats, mapping);
    } else {
      assert extra + cats == cats;
    }
  }

  /**
   * With the default configuration, whose category mapping is empty, a document goes to `papers` when its type is `paper` and to `posts`
   * when it has no type.
   */
  lemma DefaultTypes(doc: Document, member: Member)
    requires member.destinationPath.None?
    ensures Lookup(doc.original, "type") == Some(Str("paper")) ==>
      DestinationSubdir(doc, member, SyncConfig(None, None, map[], None)) == "papers"
    ensures Lookup(doc.original, "type").None? ==>
      DestinationSubdir(doc, member, SyncConfig(None, None, map[], None)) == "posts"
  {
    TypeMappingDecides(doc, member, SyncConfig(None, None, map[], None));
  }
}
