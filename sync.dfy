/**
 * The reconciler (`_sync_member_posts`) and the member selection of
 * `sync_member_posts`. The local file system is the state of a
 * `MemberPostSync` object: a map from path to text for the documents and a
 * map from path to bytes for the downloaded images. Discovery, the YAML
 * library and the network come in as an `Env`.
 */
module Sync {
  import opened Wrappers
  import opened Text
  import opened Config
  import opened Parse
  import opened Render
  import opened Discovery

  /** The foreign calls: HTTP (`_safe_request`), `yaml.safe_load` and `yaml.dump`. */
  datatype Env = Env(fetch: Fetcher, parseYaml: YamlParser, dump: Dumper)

  /** What the reconciler does with one rendered publication. */
  datatype Action = Create | Update | Skip

  /** The `created`, `updated` and `skipped` counters. */
  datatype Tally = Tally(created: nat, updated: nat, skipped: nat) {
    function Total(): nat {
      created + updated + skipped
    }
  }

  const Zero: Tally := Tally(0, 0, 0)

  /** The local tree: document texts and image bytes by path. */
  datatype Tree = Tree(files: map<string, string>, images: map<string, seq<byte>>)

  /**
   * A stored text as `open(path, 'r')` reads it back: text mode uses
   * universal newlines, so `\r\n` and a lone `\r` both come back as `\n`.
   * Writing with `'w'` on a POSIX system stores the text unchanged.
   */
  function ReadBack(s: string): (r: string)
    ensures '\r' !in r
    ensures '\r' !in s ==> r == s
    ensures |r| <= |s|
  {
    if s == [] then []
    else if s[0] == '\r' then
      "\n" + ReadBack(if |s| > 1 && s[1] == '\n' then s[2..] else s[1..])
    else [s[0]] + ReadBack(s[1..])
  }

  /** Reading two texts back is reading each, unless a `\r` ends the first and a `\n` starts the second. */
  lemma {:induction false} ReadBackAppend(a: string, b: string)
    requires a == [] || b == [] || a[|a| - 1] != '\r' || b[0] != '\n'
    ensures ReadBack(a + b) == ReadBack(a) + ReadBack(b)
    decreases |a|
  {
    if a == [] {
      assert a + b == b;
    } else {
      var ab := a + b;
      assert ab[0] == a[0];
      if a[0] == '\r' && |a| > 1 && a[1] == '\n' {
        assert ab[1] == '\n' && ab[2..] == a[2..] + b;
        ReadBackAppend(a[2..], b);
      } else if a[0] == '\r' && |a| == 1 {
        assert ab[1..] == b;
        assert ReadBack(a) == "\n";
      } else {
        assert |a| > 1 ==> ab[1] == a[1];
        assert ab[1..] == a[1..] + b;
        ReadBackAppend(a[1..], b);
      }
    }
  }

  /** Whitespace reads back as whitespace. */
  lemma {:induction false} ReadBackWhitespace(w: string)
    requires forall k :: 0 <= k < |w| ==> w[k] in PyWhitespace
    ensures forall k :: 0 <= k < |ReadBack(w)| ==> ReadBack(w)[k] in PyWhitespace
    decreases |w|
  {
    if w != [] {
      var rest := if w[0] == '\r' && |w| > 1 && w[1] == '\n' then w[2..] else w[1..];
      ReadBackWhitespace(rest);
    }
  }

  /**
   * Reading back only touches carriage returns, so when none is left after
   * `strip()` the stripped text survives the read unchanged.
   */
  lemma ReadBackKeepsStripped(s: string)
    requires '\r' !in Strip(s)
    ensures Strip(ReadBack(s)) == Strip(s)
  {
    var w1, w2 := StripSplit(s, PyWhitespace);
    if Strip(s) == [] {
      assert s == w1 + [] + [];
      ReadBackWhitespace(w1);
      var rb := ReadBack(w1);
      StripIgnoresSurrounding(rb, [], [], PyWhitespace);
      assert rb + [] + [] == rb;
      assert Strip(rb) == Strip([]) == [];
    } else {
      ReadBackAround(w1, Strip(s), w2);
      StripIgnoresSurrounding(w1, Strip(s), w2, PyWhitespace);
      StripCharsIdempotent(s, PyWhitespace);
    }
  }

  lemma ReadBackAround(w1: string, core: string, w2: string)
    requires forall k :: 0 <= k < |w1| ==> w1[k] in PyWhitespace
    requires forall k :: 0 <= k < |w2| ==> w2[k] in PyWhitespace
    requires core != [] && core[0] !in PyWhitespace && core[|core| - 1] !in PyWhitespace
    requires '\r' !in core
    ensures Strip(ReadBack(w1 + core + w2)) == Strip(core)
  {
    ReadBackWhitespace(w1);
    ReadBackWhitespace(w2);
    ReadBackAppend(core, w2);
    ReadBackAppend(w1, core + w2);
    assert w1 + core + w2 == w1 + (core + w2);
    assert ReadBack(w1 + core + w2) == ReadBack(w1) + core + ReadBack(w2);
    StripIgnoresSurrounding(ReadBack(w1), core, ReadBack(w2), PyWhitespace);
  }

  /** The existing local document at `path`, as the reconciler reads it (lines 485-488). */
  function Existing(files: map<string, string>, path: string): Option<string> {
    if path in files then Some(ReadBack(files[path])) else None
  }

  /** The existing local document read with `newline=''`, which keeps its line endings. */
  function ExistingRaw(files: map<string, string>, path: string): Option<string> {
    if path in files then Some(files[path]) else None
  }

  /** The decision of lines 485-500: no file, a file equal up to surrounding whitespace, or another file. */
  function Decide(existing: Option<string>, rendered: string): Action {
    if existing.None? then Create
    else if Strip(existing.value) == Strip(rendered) then Skip
    else Update
  }

  /** Exactly one counter goes up by one. */
  function Bump(t: Tally, a: Action): (r: Tally)
    ensures r.Total() == t.Total() + 1
    ensures r.created >= t.created && r.updated >= t.updated && r.skipped >= t.skipped
    ensures a == Create <==> r.created == t.created + 1
    ensures a == Update <==> r.updated == t.updated + 1
    ensures a == Skip <==> r.skipped == t.skipped + 1
  {
    match a
    case Create => t.(created := t.created + 1)
    case Update => t.(updated := t.updated + 1)
    case Skip => t.(skipped := t.skipped + 1)
  }

  /** `_download_image_file` for each download in turn: an image is written only when it fetches with status 200. */
  function FetchImages(images: map<string, seq<byte>>, downloads: seq<Download>, fetch: Fetcher): map<string, seq<byte>> {
    if downloads == [] then images
    else
      var acc := FetchImages(images, downloads[..|downloads| - 1], fetch);
      var d := downloads[|downloads| - 1];
      var resp := fetch(d.url);
      if Fetched(resp) then acc[d.localPath := resp.value.body] else acc
  }

  /** One rendered publication reconciled against the tree. */
  function ApplyOne(t: Tree, r: Rendered, fetch: Fetcher): Tree {
    if Decide(Existing(t.files, r.indexPath), r.text) == Skip then t
    else Tree(t.files[r.indexPath := r.text], FetchImages(t.images, r.downloads, fetch))
  }

  /** The rendered publications reconciled in order, with the counters. */
  function ApplyAll(t: Tree, tally: Tally, rs: seq<Rendered>, fetch: Fetcher): (Tree, Tally) {
    if rs == [] then (t, tally)
    else
      var prev := ApplyAll(t, tally, rs[..|rs| - 1], fetch);
      var r := rs[|rs| - 1];
      (ApplyOne(prev.0, r, fetch), Bump(prev.1, Decide(Existing(prev.0.files, r.indexPath), r.text)))
  }

  /** `_create_local_post` over a batch, in order. */
  function Renders(pubs: seq<Publication>, member: Member, sync: SyncConfig, dump: Dumper): (r: seq<Rendered>)
    ensures |r| == |pubs|
  {
    seq(|pubs|, i requires 0 <= i < |pubs| => Render.Render(pubs[i], member, sync, dump))
  }

  /** The end index of the Python slice `s[:n]` on a sequence of length `len`. */
  function SliceEnd(len: nat, n: int): nat {
    if n >= 0 then (if n < len then n else len)
    else if len + n > 0 then len + n else 0
  }

  /** Lines 464-466: `publications[:max_posts]` when the batch is longer than `max_posts`. */
  function Limit(pubs: seq<Publication>, n: int): seq<Publication> {
    if |pubs| > n then pubs[..SliceEnd(|pubs|, n)] else pubs
  }

  /** Lines 458-516 on the batch discovery returned: the new tree and the counters. */
  function SyncBatch(t: Tree, pubs: seq<Publication>, member: Member, sync: SyncConfig, dryRun: bool, env: Env): (Tree, Tally) {
    if dryRun then (t, Zero)
    else ApplyAll(t, Zero, Renders(Limit(pubs, MaxPosts(sync)), member, sync, env.dump), env.fetch)
  }

  /** `_sync_member_posts` for one member: the new tree and the counters. */
  function MemberSync(t: Tree, member: Member, sync: SyncConfig, dryRun: bool, env: Env): (Tree, Tally) {
    SyncBatch(t, MemberPosts(member, env.fetch, env.parseYaml), member, sync, dryRun, env)
  }

  /** The members with the given user name, in configuration order. */
  function Named(ms: seq<Member>, u: string): (r: seq<Member>)
    ensures |r| <= |ms|
    ensures forall m :: m in r <==> m in ms && m.username == u
  {
    if ms == [] then []
    else (if ms[0].username == u then [ms[0]] else []) + Named(ms[1..], u)
  }

  /** The members whose `active` flag is not false, in configuration order. */
  function Active(ms: seq<Member>): (r: seq<Member>)
    ensures |r| <= |ms|
    ensures forall m :: m in r <==> m in ms && IsActive(m)
  {
    if ms == [] then []
    else (if IsActive(ms[0]) then [ms[0]] else []) + Active(ms[1..])
  }

  /** Lines 428-435: the members to sync, or `None` when a named member is not configured. */
  function SelectMembers(ms: seq<Member>, username: Option<string>): (r: Option<seq<Member>>)
    ensures r.None? <==> username.Some? && username.value != "" && forall m :: m in ms ==> m.username != username.value
    ensures r.Some? ==> forall m :: m in r.value <==>
      m in ms && IsActive(m) && (username.Some? && username.value != "" ==> m.username == username.value)
  {
    if username.Some? && username.value != "" then
      var named := Named(ms, username.value);
      if named == [] then None
      else Some(Active(named))
    else Some(Active(ms))
  }

  /** Selecting by user name keeps configuration order and repeats: it distributes over concatenation. */
  lemma {:induction false} NamedAppend(a: seq<Member>, b: seq<Member>, u: string)
    ensures Named(a + b, u) == Named(a, u) + Named(b, u)
    decreases |a|
  {
    if a == [] {
      assert a + b == b;
    } else {
      var ab := a + b;
      assert ab[0] == a[0] && ab[1..] == a[1..] + b;
      NamedAppend(a[1..], b, u);
    }
  }

  /** A single member is kept by the name selection exactly when its user name matches. */
  lemma NamedOne(m: Member, u: string)
    ensures Named([m], u) == (if m.username == u then [m] else [])
  {
    assert [m][1..] == [];
  }

  /** Selecting the active members keeps configuration order and repeats: it distributes over concatenation. */
  lemma {:induction false} ActiveAppend(a: seq<Member>, b: seq<Member>)
    ensures Active(a + b) == Active(a) + Active(b)
    decreases |a|
  {
    if a == [] {
      assert a + b == b;
    } else {
      var ab := a + b;
      assert ab[0] == a[0] && ab[1..] == a[1..] + b;
      ActiveAppend(a[1..], b);
    }
  }

  /** A single member is kept by the active selection exactly when it is active. */
  lemma ActiveOne(m: Member)
    ensures Active([m]) == (if IsActive(m) then [m] else [])
  {
    assert [m][1..] == [];
  }

  /**
   * The selection is made member by member, in configuration order: the
   * selection from a concatenation is the selections from its parts, one
   * after the other, so a member listed twice is synced twice, in place.
   */
  lemma SelectMembersAppend(a: seq<Member>, b: seq<Member>, username: Option<string>)
    ensures SelectMembers(a, username).Some? ==> SelectMembers(a + b, username).Some?
    ensures SelectMembers(b, username).Some? ==> SelectMembers(a + b, username).Some?
    ensures SelectMembers(a, username).Some? && SelectMembers(b, username).Some? ==>
      SelectMembers(a + b, username).value == SelectMembers(a, username).value + SelectMembers(b, username).value
  {
    ActiveAppend(a, b);
    if username.Some? && username.value != "" {
      NamedAppend(a, b, username.value);
      ActiveAppend(Named(a, username.value), Named(b, username.value));
    }
  }

  /** A single configured member is selected exactly when it is active and, if a user name is given, has that name. */
  lemma SelectMembersOne(m: Member, username: Option<string>)
    ensures SelectMembers([m], username) ==
      if username.Some? && username.value != "" && m.username != username.value then None
      else Some(if IsActive(m) then [m] else [])
  {
    ActiveOne(m);
    if username.Some? && username.value != "" {
      NamedOne(m, username.value);
    }
  }

  /** The selected members synced in order. */
  function SyncMembers(t: Tree, ms: seq<Member>, sync: SyncConfig, dryRun: bool, env: Env): Tree {
    if ms == [] then t
    else MemberSync(SyncMembers(t, ms[..|ms| - 1], sync, dryRun, env), ms[|ms| - 1], sync, dryRun, env).0
  }

  /** A rendered publication is in place: its file exists and, read back, equals the text up to surrounding whitespace. */
  predicate Settled(files: map<string, string>, r: Rendered) {
    r.indexPath in files && Strip(ReadBack(files[r.indexPath])) == Strip(r.text)
  }

  /** A rendered text whose stripped form holds no carriage return: reading it back does not change the comparison. */
  predicate NoCarriageReturn(r: Rendered) {
    '\r' !in Strip(r.text)
  }

  predicate DistinctPaths(rs: seq<Rendered>) {
    forall i, j :: 0 <= i < j < |rs| ==> rs[i].indexPath != rs[j].indexPath
  }

  // ----- Properties -----

  /** Whitespace around either text never changes the decision. */
  lemma DecideIgnoresSurroundingWhitespace(existing: string, rendered: string, w1: string, w2: string, w3: string, w4: string)
    requires forall k :: 0 <= k < |w1| ==> w1[k] in PyWhitespace
    requires forall k :: 0 <= k < |w2| ==> w2[k] in PyWhitespace
    requires forall k :: 0 <= k < |w3| ==> w3[k] in PyWhitespace
    requires forall k :: 0 <= k < |w4| ==> w4[k] in PyWhitespace
    ensures Decide(Some(w1 + existing + w2), w3 + rendered + w4) == Decide(Some(existing), rendered)
  {
    StripIgnoresSurrounding(w1, existing, w2, PyWhitespace);
    StripIgnoresSurrounding(w3, rendered, w4, PyWhitespace);
  }

  /**
   * One reconcile step: a skip leaves the tree unchanged; a create or
   * update writes the rendered text; no other document changes; the
   * document ends up in place exactly when its stripped text holds no
   * carriage return.
   */
  lemma ApplyOneEffect(t: Tree, r: Rendered, fetch: Fetcher)
    ensures Settled(ApplyOne(t, r, fetch).files, r) <==> NoCarriageReturn(r)
    ensures Decide(Existing(t.files, r.indexPath), r.text) == Skip <==> Settled(t.files, r)
    ensures Decide(Existing(t.files, r.indexPath), r.text) == Skip ==> ApplyOne(t, r, fetch) == t
    ensures Decide(Existing(t.files, r.indexPath), r.text) != Skip ==> ApplyOne(t, r, fetch).files == t.files[r.indexPath := r.text]
    ensures forall p :: p != r.indexPath ==>
      (p in ApplyOne(t, r, fetch).files <==> p in t.files) &&
      (p in t.files ==> ApplyOne(t, r, fetch).files[p] == t.files[p])
  {
    if NoCarriageReturn(r) {
      ReadBackKeepsStripped(r.text);
    } else {
      CrRewrittenEveryRun(t, r, fetch);
    }
  }

  /**
   * The downloads touch only their own paths: a path no download names keeps
   * its image; the path of a download that fetches with status 200, and that
   * no later download names, holds the bytes fetched; a path whose every
   * download fails keeps what it had.
   */
  lemma {:induction false} FetchImagesEffect(images: map<string, seq<byte>>, ds: seq<Download>, fetch: Fetcher, p: string)
    ensures (forall i :: 0 <= i < |ds| ==> ds[i].localPath != p || !Fetched(fetch(ds[i].url))) ==>
      (p in FetchImages(images, ds, fetch) <==> p in images) &&
      (p in images ==> FetchImages(images, ds, fetch)[p] == images[p])
    ensures forall i :: (0 <= i < |ds| && ds[i].localPath == p && Fetched(fetch(ds[i].url))
                         && forall j :: i < j < |ds| ==> ds[j].localPath != p) ==>
      p in FetchImages(images, ds, fetch) && FetchImages(images, ds, fetch)[p] == fetch(ds[i].url).value.body
  {
    if ds != [] {
      var init := ds[..|ds| - 1];
      FetchImagesEffect(images, init, fetch, p);
      assert forall i :: 0 <= i < |init| ==> init[i] == ds[i];
    }
  }

  /** Every processed publication bumps exactly one counter. */
  lemma {:induction false} ApplyAllCounts(t: Tree, tally: Tally, rs: seq<Rendered>, fetch: Fetcher)
    ensures ApplyAll(t, tally, rs, fetch).1.Total() == tally.Total() + |rs|
    ensures ApplyAll(t, tally, rs, fetch).1.created >= tally.created
    ensures ApplyAll(t, tally, rs, fetch).1.updated >= tally.updated
    ensures ApplyAll(t, tally, rs, fetch).1.skipped >= tally.skipped
  {
    if rs != [] {
      ApplyAllCounts(t, tally, rs[..|rs| - 1], fetch);
    }
  }

  /** A document no publication of the batch renders to is left as it was. */
  lemma {:induction false} ApplyAllUntouched(t: Tree, tally: Tally, rs: seq<Rendered>, fetch: Fetcher, p: string)
    requires forall i :: 0 <= i < |rs| ==> rs[i].indexPath != p
    ensures p in ApplyAll(t, tally, rs, fetch).0.files <==> p in t.files
    ensures p in t.files ==> ApplyAll(t, tally, rs, fetch).0.files[p] == t.files[p]
  {
    if rs != [] {
      ApplyAllUntouched(t, tally, rs[..|rs| - 1], fetch, p);
      ApplyOneEffect(ApplyAll(t, tally, rs[..|rs| - 1], fetch).0, rs[|rs| - 1], fetch);
    }
  }

  /** After a batch whose paths are distinct and whose stripped texts have no carriage return, every publication of it is in place. */
  lemma {:induction false} ApplyAllSettles(t: Tree, tally: Tally, rs: seq<Rendered>, fetch: Fetcher)
    requires DistinctPaths(rs)
    requires forall i :: 0 <= i < |rs| ==> NoCarriageReturn(rs[i])
    ensures forall i :: 0 <= i < |rs| ==> Settled(ApplyAll(t, tally, rs, fetch).0.files, rs[i])
  {
    if rs != [] {
      var init := rs[..|rs| - 1];
      var last := rs[|rs| - 1];
      ApplyAllSettles(t, tally, init, fetch);
      var mid := ApplyAll(t, tally, init, fetch).0;
      ApplyOneEffect(mid, last, fetch);
      forall i | 0 <= i < |rs|
        ensures Settled(ApplyAll(t, tally, rs, fetch).0.files, rs[i])
      {
        if i < |rs| - 1 {
          assert rs[i] == init[i];
          assert rs[i].indexPath != last.indexPath;
        }
      }
    }
  }

  /** A publication already in place is skipped and leaves the tree alone. */
  lemma SkipStep(t: Tree, r: Rendered, fetch: Fetcher)
    requires Settled(t.files, r)
    ensures Decide(Existing(t.files, r.indexPath), r.text) == Skip
    ensures ApplyOne(t, r, fetch) == t
  {
  }

  /** A batch already in place is skipped entirely and changes nothing. */
  lemma {:induction false} ApplyAllSkipsSettled(t: Tree, tally: Tally, rs: seq<Rendered>, fetch: Fetcher)
    requires forall i :: 0 <= i < |rs| ==> Settled(t.files, rs[i])
    ensures ApplyAll(t, tally, rs, fetch).0 == t
    ensures ApplyAll(t, tally, rs, fetch).1 == tally.(skipped := tally.skipped + |rs|)
  {
    if rs != [] {
      var init := rs[..|rs| - 1];
      forall i | 0 <= i < |init| ensures Settled(t.files, init[i]) {
        assert init[i] == rs[i];
      }
      ApplyAllSkipsSettled(t, tally, init, fetch);
      SkipStep(t, rs[|rs| - 1], fetch);
    }
  }

  /**
   * Reconciling the same batch a second time skips every publication and
   * leaves the tree as the first run left it, when no stripped rendered
   * text holds a carriage return.
   */
  lemma SecondRunSkipsAll(t: Tree, rs: seq<Rendered>, fetch: Fetcher)
    requires DistinctPaths(rs)
    requires forall i :: 0 <= i < |rs| ==> NoCarriageReturn(rs[i])
    ensures var first := ApplyAll(t, Zero, rs, fetch).0;
      ApplyAll(first, Zero, rs, fetch) == (first, Tally(0, 0, |rs|))
  {
    ApplyAllSettles(t, Zero, rs, fetch);
    ApplyAllSkipsSettled(ApplyAll(t, Zero, rs, fetch).0, Zero, rs, fetch);
  }

  /** `strip` only removes characters: one absent from a text is absent from what is left. */
  lemma StripKeepsOut(s: string, c: char)
    requires c !in s
    ensures c !in Strip(s)
  {
    var l := TrimLeft(s, PyWhitespace);
    TrimLeftSpec(s, PyWhitespace);
    TrimRightSpec(l, PyWhitespace);
    assert forall k :: 0 <= k < |l| ==> l[k] == s[|s| - |l| + k];
    assert c !in l;
  }

  /**
   * As written, a document whose rendered text keeps a carriage return
   * inside is never in place: whatever is stored, it reads back without
   * `\r`, so every run updates the document, rewriting it and fetching its
   * images anew.
   */
  lemma CrRewrittenEveryRun(t: Tree, r: Rendered, fetch: Fetcher)
    requires '\r' in Strip(r.text)
    ensures Decide(Existing(t.files, r.indexPath), r.text) != Skip
    ensures ApplyOne(t, r, fetch).files == t.files[r.indexPath := r.text]
    ensures !Settled(ApplyOne(t, r, fetch).files, r)
    ensures Decide(Existing(ApplyOne(t, r, fetch).files, r.indexPath), r.text) == Update
  {
    if r.indexPath in t.files {
      StripKeepsOut(ReadBack(t.files[r.indexPath]), '\r');
    }
    StripKeepsOut(ReadBack(r.text), '\r');
  }

  /** A document with Windows line endings is one such: `a\r\nb` strips to itself. */
  lemma CrlfExample()
    ensures '\r' in Strip("a\r\nb")
  {
    var text := "a\r\nb";
    assert text[0] == 'a' && text[|text| - 1] == 'b';
    assert TrimLeft(text, PyWhitespace) == text;
    assert Strip(text) == text;
    assert text[1] == '\r';
  }

  /**
   * Reading the stored text with `newline=''` instead: whatever line endings
   * a rendered text has, once written it compares equal, so the next run
   * skips it and changes nothing; a stored text without `\r` is decided as
   * before.
   */
  lemma RawReadSkipsAfterWrite(files: map<string, string>, r: Rendered)
    ensures Decide(ExistingRaw(files[r.indexPath := r.text], r.indexPath), r.text) == Skip
    ensures Decide(ExistingRaw(files, r.indexPath), r.text) == Skip ==>
      r.indexPath in files && Strip(files[r.indexPath]) == Strip(r.text)
    ensures r.indexPath in files && '\r' !in files[r.indexPath] ==>
      Decide(ExistingRaw(files, r.indexPath), r.text) == Decide(Existing(files, r.indexPath), r.text)
  {
  }

  /** The limit keeps a prefix of the discovered batch, in discovery order, of Python slice length. */
  lemma LimitKeepsPrefix(pubs: seq<Publication>, n: int)
    ensures |Limit(pubs, n)| <= |pubs| && Limit(pubs, n) == pubs[..|Limit(pubs, n)|]
  {
  }

  /** The limited batch has the length of the Python slice `publications[:max_posts]`. */
  lemma LimitLength(pubs: seq<Publication>, n: int)
    ensures n >= 0 ==> |Limit(pubs, n)| == if n < |pubs| then n else |pubs|
    ensures n < 0 ==> |Limit(pubs, n)| == if |pubs| + n > 0 then |pubs| + n else 0
  {
  }

  lemma LimitBound(pubs: seq<Publication>, n: int)
    ensures 0 <= n ==> |Limit(pubs, n)| <= n
  {
    LimitLength(pubs, n);
  }

  lemma SyncBatchReal(t: Tree, pubs: seq<Publication>, member: Member, sync: SyncConfig, env: Env)
    ensures SyncBatch(t, pubs, member, sync, false, env).1 ==
      ApplyAll(t, Zero, Renders(Limit(pubs, MaxPosts(sync)), member, sync, env.dump), env.fetch).1
  {
  }

  /** Only the first `max_posts_per_member` publications are processed: one counter step each. */
  lemma SyncBatchCounts(t: Tree, pubs: seq<Publication>, member: Member, sync: SyncConfig, env: Env)
    ensures SyncBatch(t, pubs, member, sync, false, env).1.Total() == |Limit(pubs, MaxPosts(sync))|
    ensures 0 <= MaxPosts(sync) ==> SyncBatch(t, pubs, member, sync, false, env).1.Total() <= MaxPosts(sync)
  {
    var l := Limit(pubs, MaxPosts(sync));
    var rs := Renders(l, member, sync, env.dump);
    SyncBatchReal(t, pubs, member, sync, env);
    ApplyAllCounts(t, Zero, rs, env.fetch);
    LimitBound(pubs, MaxPosts(sync));
  }

  /**
   * Syncing the same batch twice: when its publications render to distinct
   * paths and stripped texts without carriage returns, the second pass skips them
   * all and changes nothing.
   */
  lemma SyncBatchTwiceSkips(t: Tree, pubs: seq<Publication>, member: Member, sync: SyncConfig, env: Env)
    requires DistinctPaths(Renders(Limit(pubs, MaxPosts(sync)), member, sync, env.dump))
    requires forall i :: 0 <= i < |Limit(pubs, MaxPosts(sync))| ==>
      NoCarriageReturn(Renders(Limit(pubs, MaxPosts(sync)), member, sync, env.dump)[i])
    ensures var first := SyncBatch(t, pubs, member, sync, false, env).0;
      SyncBatch(first, pubs, member, sync, false, env) == (first, Tally(0, 0, |Limit(pubs, MaxPosts(sync))|))
  {
    SecondRunSkipsAll(t, Renders(Limit(pubs, MaxPosts(sync)), member, sync, env.dump), env.fetch);
  }

  /** A dry run changes nothing and counts nothing. */
  lemma DryRunNeverMutates(t: Tree, pubs: seq<Publication>, member: Member, sync: SyncConfig, env: Env)
    ensures SyncBatch(t, pubs, member, sync, true, env) == (t, Zero)
  {
  }

  lemma RendersSnoc(pubs: seq<Publication>, member: Member, sync: SyncConfig, dump: Dumper, i: nat)
    requires i < |pubs|
    ensures Renders(pubs[..i + 1], member, sync, dump) ==
      Renders(pubs[..i], member, sync, dump) + [Render.Render(pubs[i], member, sync, dump)]
  {
    var a := Renders(pubs[..i + 1], member, sync, dump);
    var b := Renders(pubs[..i], member, sync, dump) + [Render.Render(pubs[i], member, sync, dump)];
    forall j | 0 <= j <= i ensures a[j] == b[j] {
      assert pubs[..i + 1][j] == pubs[j];
    }
  }

  lemma ApplyAllSnoc(t: Tree, tally: Tally, rs: seq<Rendered>, r: Rendered, fetch: Fetcher)
    ensures var prev := ApplyAll(t, tally, rs, fetch);
      ApplyAll(t, tally, rs + [r], fetch) ==
        (ApplyOne(prev.0, r, fetch), Bump(prev.1, Decide(Existing(prev.0.files, r.indexPath), r.text)))
  {
    assert (rs + [r])[..|rs|] == rs;
  }

  lemma SyncMembersSnoc(t: Tree, ms: seq<Member>, sync: SyncConfig, dryRun: bool, env: Env, i: nat)
    requires i < |ms|
    ensures SyncMembers(t, ms[..i + 1], sync, dryRun, env) ==
      MemberSync(SyncMembers(t, ms[..i], sync, dryRun, env), ms[i], sync, dryRun, env).0
  {
    assert ms[..i + 1][..i] == ms[..i];
  }

  /** A dry run over any list of members leaves the local tree as it was. */
  lemma {:induction false} DryRunSyncsNothing(t: Tree, ms: seq<Member>, sync: SyncConfig, env: Env)
    ensures SyncMembers(t, ms, sync, true, env) == t
  {
    if ms != [] {
      DryRunSyncsNothing(t, ms[..|ms| - 1], sync, env);
      DryRunNeverMutates(t, MemberPosts(ms[|ms| - 1], env.fetch, env.parseYaml), ms[|ms| - 1], sync, env);
    }
  }

  /** The object the program runs: its configuration, its mode and the local tree. */
  class MemberPostSync {
    const config: Settings
    const dryRun: bool
    var files: map<string, string>
    var images: map<string, seq<byte>>

    constructor (config: Settings, dryRun: bool, files: map<string, string>, images: map<string, seq<byte>>)
      ensures this.config == config && this.dryRun == dryRun
      ensures this.files == files && this.images == images
    {
      this.config := config;
      this.dryRun := dryRun;
      this.files := files;
      this.images := images;
    }

    function Snapshot(): Tree
      reads this
    {
      Tree(files, images)
    }

    /** The download loop of lines 510-512; a failed download is skipped. */
    method DownloadImages(downloads: seq<Download>, fetch: Fetcher)
      modifies this
      ensures files == old(files)
      ensures images == FetchImages(old(images), downloads, fetch)
    {
      var i := 0;
      while i < |downloads|
        invariant 0 <= i <= |downloads|
        invariant files == old(files)
        invariant images == FetchImages(old(images), downloads[..i], fetch)
      {
        assert downloads[..i + 1][..i] == downloads[..i];
        var response := fetch(downloads[i].url);
        if response.Some? && Truthy(response.value) && response.value.status == 200 {
          images := images[downloads[i].localPath := response.value.body];
        }
        i := i + 1;
      }
      assert downloads[..i] == downloads;
    }

    /** Lines 484-512 for one rendered publication: compare, count, and write on a create or update. */
    method Reconcile(r: Rendered, tally: Tally, fetch: Fetcher) returns (tally': Tally)
      modifies this
      ensures Snapshot() == ApplyOne(old(Snapshot()), r, fetch)
      ensures tally' == Bump(tally, Decide(Existing(old(files), r.indexPath), r.text))
    {
      if r.indexPath in files {
        var existingContent := ReadBack(files[r.indexPath]);
        if Strip(existingContent) == Strip(r.text) {
          return tally.(skipped := tally.skipped + 1);
        } else {
          tally' := tally.(updated := tally.updated + 1);
        }
      } else {
        tally' := tally.(created := tally.created + 1);
      }
      files := files[r.indexPath := r.text];
      DownloadImages(r.downloads, fetch);
    }

    /** `_sync_member_posts`: reconciles one member's publications and returns the counters. */
    method SyncMember(member: Member, env: Env) returns (tally: Tally)
      modifies this
      ensures Snapshot() == MemberSync(old(Snapshot()), member, config.sync, dryRun, env).0
      ensures tally == MemberSync(old(Snapshot()), member, config.sync, dryRun, env).1
    {
      tally := Zero;
      var publications := GetPostsFromMemberSite(member, env.fetch, env.parseYaml);
      if publications == [] {
        return;
      }
      var maxPosts := MaxPosts(config.sync);
      if |publications| > maxPosts {
        publications := publications[..SliceEnd(|publications|, maxPosts)];
      }
      tally := ReconcileBatch(publications, member, env);
    }

    /** The loop of lines 473-516 over the limited batch. */
    method ReconcileBatch(publications: seq<Publication>, member: Member, env: Env) returns (tally: Tally)
      modifies this
      ensures dryRun ==> Snapshot() == old(Snapshot()) && tally == Zero
      ensures !dryRun ==>
        Snapshot() == ApplyAll(old(Snapshot()), Zero, Renders(publications, member, config.sync, env.dump), env.fetch).0 &&
        tally == ApplyAll(old(Snapshot()), Zero, Renders(publications, member, config.sync, env.dump), env.fetch).1
    {
      tally := Zero;
      ghost var t0 := Snapshot();
      var i := 0;
      while i < |publications|
        invariant 0 <= i <= |publications|
        invariant dryRun ==> Snapshot() == t0 && tally == Zero
        invariant !dryRun ==>
          Snapshot() == ApplyAll(t0, Zero, Renders(publications[..i], member, config.sync, env.dump), env.fetch).0 &&
          tally == ApplyAll(t0, Zero, Renders(publications[..i], member, config.sync, env.dump), env.fetch).1
      {
        RendersSnoc(publications, member, config.sync, env.dump, i);
        ghost var done := Renders(publications[..i], member, config.sync, env.dump);
        var indexPath, content, imageDownloads := CreateLocalPost(publications[i], member, config.sync, env.dump);
        if !dryRun {
          tally := Reconcile(Rendered(indexPath, content, imageDownloads), tally, env.fetch);
          ApplyAllSnoc(t0, Zero, done, Rendered(indexPath, content, imageDownloads), env.fetch);
        }
        i := i + 1;
      }
      assert publications[..i] == publications;
    }

    /** `sync_member_posts`: every selected member in turn; nothing happens when a named member is unknown. */
    method SyncMemberPosts(username: Option<string>, env: Env)
      modifies this
      ensures SelectMembers(config.members, username).None? ==> Snapshot() == old(Snapshot())
      ensures SelectMembers(config.members, username).Some? ==>
        Snapshot() == SyncMembers(old(Snapshot()), SelectMembers(config.members, username).value, config.sync, dryRun, env)
    {
      var members := config.members;
      if username.Some? && username.value != "" {
        members := Named(members, username.value);
        if members == [] {
          return;
        }
      }
      var activeMembers := Active(members);
      ghost var t0 := Snapshot();
      var i := 0;
      while i < |activeMembers|
        invariant 0 <= i <= |activeMembers|
        invariant Snapshot() == SyncMembers(t0, activeMembers[..i], config.sync, dryRun, env)
      {
        ghost var next := SyncMembers(t0, activeMembers[..i + 1], config.sync, dryRun, env);
        SyncMembersSnoc(t0, activeMembers, config.sync, dryRun, env, i);
        assert next == MemberSync(Snapshot(), activeMembers[i], config.sync, dryRun, env).0;
        var tally := SyncMember(activeMembers[i], env);
        assert Snapshot() == next;
        i := i + 1;
      }
      assert activeMembers[..i] == activeMembers;
    }
  }
}
