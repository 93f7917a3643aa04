/** Three-way synchronisation of an OKF bundle with an OpenWiki directory of Markdown files. */
module WikiSync {
  import opened Basics
  import opened Text
  import opened Markdown
  import CanonicalJson

  /** The libraries and helpers whose text processing is not modelled. */
  datatype Lib = Lib(
    yaml: Yaml,
    hash: string -> string,
    slug: string -> string,
    title: (string, string) -> string,
    mergeTags: (seq<Datum>, seq<Datum>) -> seq<Datum>)

  datatype Direction = Pull | Push | Bidirectional

  datatype Strategy = PreferOkf | PreferWiki | Fail

  datatype Options = Options(direction: Direction, strategy: Strategy, dryRun: bool)

  datatype Entry = Entry(baseBodyHash: string, okfBodyHash: string, wikiBodyHash: string)

  datatype ActionKind = InSync | ImportedToOkf | ExportedToWiki | UpdatedOkf | UpdatedWiki | Conflicting

  datatype Action = Action(relPath: string, kind: ActionKind, preservedKeys: seq<string>)

  datatype Resolution = ResolvedOkf | ResolvedWiki | Unresolved

  datatype Conflict = Conflict(relPath: string, base: Option<string>, okfHash: string, wikiHash: string,
                               resolution: Resolution)

  // ---------- Frontmatter ----------

  const GOVERNED_OKF_KEYS := [
    "id", "type", "sensitivity", "owners", "ttlDays", "status", "freshnessClass",
    "depends_on", "mitigates", "references", "supersedes", "replacedBy"
  ]

  function Field(fm: Frontmatter, key: string): Datum { if key in fm then fm[key] else Nothing }

  predicate Truthy(d: Datum) {
    match d
    case Nothing => false
    case Flag(on) => on
    case Number(numeral) => numeral != "0"
    case Words(text) => text != ""
    case _ => true
  }

  function WithDefault(fm: Frontmatter, key: string, d: Datum): Frontmatter {
    if Truthy(Field(fm, key)) then fm else fm[key := d]
  }

  function TitledFrom(lib: Lib, fm: Frontmatter, wikiFm: Frontmatter, wikiBody: string, relPath: string): Frontmatter {
    var title := Field(wikiFm, "title");
    if title.Words? && Trim(title.text) != "" then fm["title" := Words(Trim(title.text))]
    else WithDefault(fm, "title", Words(lib.title(wikiBody, relPath)))
  }

  function TaggedFrom(lib: Lib, fm: Frontmatter, okfFm: Frontmatter, wikiFm: Frontmatter): Frontmatter {
    var tags, existing := Field(wikiFm, "tags"), Field(okfFm, "tags");
    if tags.List? then fm["tags" := List(lib.mergeTags(if existing.List? then existing.items else [], tags.items))]
    else fm
  }

  /** The governed keys that the bundle's file has, in their fixed order. */
  function PreservedKeys(okfFm: Frontmatter): seq<string> { Filter(GOVERNED_OKF_KEYS, key => key in okfFm) }

  /** Wiki fields under the bundle's own, required fields filled in, title and tags from the wiki. */
  function Merged(lib: Lib, okfFm: Frontmatter, wikiFm: Frontmatter, wikiBody: string, relPath: string): Frontmatter {
    var identified := WithDefault(wikiFm + okfFm, "id", Words(lib.slug(relPath)));
    var typed := WithDefault(identified, "type", Words("Concept"));
    var classified := WithDefault(typed, "sensitivity", Words("internal"));
    TaggedFrom(lib, TitledFrom(lib, classified, wikiFm, wikiBody, relPath), okfFm, wikiFm)
  }

  method MergeWikiIntoOkfFrontmatter(lib: Lib, okfFm: Frontmatter, wikiFm: Frontmatter, wikiBody: string,
                                     relPath: string)
    returns (merged: Frontmatter, preservedKeys: seq<string>)
    ensures merged == Merged(lib, okfFm, wikiFm, wikiBody, relPath) && preservedKeys == PreservedKeys(okfFm)
  {
    merged, preservedKeys := PreserveGoverned(okfFm, wikiFm);
    if !Truthy(Field(merged, "id")) { merged := merged["id" := Words(lib.slug(relPath))]; }
    if !Truthy(Field(merged, "type")) { merged := merged["type" := Words("Concept")]; }
    if !Truthy(Field(merged, "sensitivity")) { merged := merged["sensitivity" := Words("internal")]; }
    merged := TitledFrom(lib, merged, wikiFm, wikiBody, relPath);
    merged := TaggedFrom(lib, merged, okfFm, wikiFm);
  }

  method PreserveGoverned(okfFm: Frontmatter, wikiFm: Frontmatter)
    returns (merged: Frontmatter, preservedKeys: seq<string>)
    ensures merged == wikiFm + okfFm && preservedKeys == PreservedKeys(okfFm)
  {
    var present := (key: string) => key in okfFm;
    merged, preservedKeys := wikiFm + okfFm, [];
    for i := 0 to |GOVERNED_OKF_KEYS|
      invariant merged == wikiFm + okfFm && preservedKeys == Filter(GOVERNED_OKF_KEYS[..i], present)
    {
      var key := GOVERNED_OKF_KEYS[i];
      assert GOVERNED_OKF_KEYS[..i + 1][..i] == GOVERNED_OKF_KEYS[..i];
      if key in okfFm {
        merged := merged[key := okfFm[key]];
        preservedKeys := preservedKeys + [key];
      }
    }
    assert GOVERNED_OKF_KEYS[..|GOVERNED_OKF_KEYS|] == GOVERNED_OKF_KEYS;
    FilterSame(GOVERNED_OKF_KEYS, present, key => key in okfFm);
  }

  lemma {:induction false} FilterSame(s: seq<string>, f: string -> bool, g: string -> bool)
    requires forall x :: f(x) == g(x)
    ensures Filter(s, f) == Filter(s, g)
  {
    if s != [] { FilterSame(s[..|s| - 1], f, g); }
  }

  function Kept(from: Frontmatter, into: Frontmatter, key: string): Frontmatter {
    if Truthy(Field(from, key)) then into[key := from[key]] else into
  }

  /** What the wiki gets to see: id, title and type if they say something, and tags that are a list. */
  function BuildWikiFrontmatterFromOkf(okfFm: Frontmatter): Frontmatter {
    var fm := Kept(okfFm, Kept(okfFm, Kept(okfFm, map[], "id"), "title"), "type");
    if Field(okfFm, "tags").List? then fm["tags" := okfFm["tags"]] else fm
  }

  // ---------- One path ----------

  /** What the two directories and the manifest hold under one path. */
  datatype Slot = Slot(okf: Option<string>, wiki: Option<string>, entry: Option<Entry>)

  datatype Decision = Absent | Skip | Import | Export | Same | TakeWiki | TakeOkf | Clash

  function Read(lib: Lib, raw: string): Parts { ParseMarkdownParts(lib.yaml, raw) }

  function BodyHash(lib: Lib, body: string): string { lib.hash(Normalized(body)) }

  function HashOf(lib: Lib, raw: string): string { BodyHash(lib, Read(lib, raw).body) }

  function BaseOf(slot: Slot): Option<string> { if slot.entry.Some? then Some(slot.entry.value.baseBodyHash) else None }

  /** Whether a body differs from the recorded base; without a base every body counts as changed. */
  predicate Changed(base: Option<string>, hash: string) {
    base.Some? && base.value != "" ==> hash != base.value
  }

  function DecisionOf(lib: Lib, options: Options, slot: Slot): (d: Decision)
    ensures Fits(d, slot)
  {
    if slot.okf.None? && slot.wiki.None? then Absent
    else if slot.okf.None? then if options.direction.Push? then Skip else Import
    else if slot.wiki.None? then if options.direction.Pull? then Skip else Export
    else
      var okfHash, wikiHash := HashOf(lib, slot.okf.value), HashOf(lib, slot.wiki.value);
      var okfChanged, wikiChanged := Changed(BaseOf(slot), okfHash), Changed(BaseOf(slot), wikiHash);
      if okfHash == wikiHash then Same
      else if options.direction.Pull? || (!okfChanged && wikiChanged) then TakeWiki
      else if options.direction.Push? || (okfChanged && !wikiChanged) then TakeOkf
      else Clash
  }

  function OkfText(lib: Lib, okfFm: Frontmatter, wiki: Parts, relPath: string): string {
    SerializeMarkdownParts(lib.yaml, Merged(lib, okfFm, wiki.frontmatter, wiki.body, relPath), wiki.body)
  }

  function WikiText(lib: Lib, okf: Parts): string {
    SerializeMarkdownParts(lib.yaml, BuildWikiFrontmatterFromOkf(okf.frontmatter), okf.body)
  }

  function Recorded(hash: string): Option<Entry> { Some(Entry(hash, hash, hash)) }

  /** The wiki's body and fields enter the bundle; a missing bundle file has no fields of its own. */
  function WithWiki(lib: Lib, slot: Slot, relPath: string): Slot
    requires slot.wiki.Some?
  {
    var wiki := Read(lib, slot.wiki.value);
    var okfFm := if slot.okf.Some? then Read(lib, slot.okf.value).frontmatter else map[];
    Slot(Some(OkfText(lib, okfFm, wiki, relPath)), slot.wiki, Recorded(BodyHash(lib, wiki.body)))
  }

  function WithOkf(lib: Lib, slot: Slot): Slot
    requires slot.okf.Some?
  {
    var okf := Read(lib, slot.okf.value);
    Slot(slot.okf, Some(WikiText(lib, okf)), Recorded(BodyHash(lib, okf.body)))
  }

  /** The decisions that bring the wiki's body into the bundle. */
  predicate TakesWiki(options: Options, d: Decision) {
    d.Import? || d.TakeWiki? || (d.Clash? && options.strategy.PreferWiki?)
  }

  /** The decisions that bring the bundle's body to the wiki. */
  predicate TakesOkf(options: Options, d: Decision) {
    d.Export? || d.TakeOkf? || (d.Clash? && options.strategy.PreferOkf?)
  }

  predicate Fits(d: Decision, slot: Slot) {
    && (d.Import? || d.TakeWiki? || d.Same? || d.Clash? ==> slot.wiki.Some?)
    && (d.Export? || d.TakeOkf? || d.Same? || d.Clash? ==> slot.okf.Some?)
  }

  function SlotBy(lib: Lib, options: Options, d: Decision, slot: Slot, relPath: string): Slot
    requires Fits(d, slot)
  {
    if options.dryRun then slot
    else if TakesWiki(options, d) then WithWiki(lib, slot, relPath)
    else if TakesOkf(options, d) then WithOkf(lib, slot)
    else if d.Same? then slot.(entry := Recorded(HashOf(lib, slot.okf.value)))
    else slot
  }

  function ActionBy(lib: Lib, options: Options, d: Decision, slot: Slot, relPath: string): seq<Action> {
    var preserved := PreservedKeys(if slot.okf.Some? then Read(lib, slot.okf.value).frontmatter else map[]);
    match d
    case Absent => []
    case Skip => []
    case Import => [Action(relPath, ImportedToOkf, preserved)]
    case Export => [Action(relPath, ExportedToWiki, [])]
    case Same => [Action(relPath, InSync, [])]
    case TakeWiki => [Action(relPath, UpdatedOkf, preserved)]
    case TakeOkf => [Action(relPath, UpdatedWiki, [])]
    case Clash =>
      (match options.strategy
       case PreferWiki => [Action(relPath, UpdatedOkf, preserved)]
       case PreferOkf => [Action(relPath, UpdatedWiki, [])]
       case Fail => [Action(relPath, Conflicting, [])])
  }

  function ResolutionOf(strategy: Strategy): Resolution {
    match strategy
    case PreferWiki => ResolvedWiki
    case PreferOkf => ResolvedOkf
    case Fail => Unresolved
  }

  function ConflictBy(lib: Lib, options: Options, d: Decision, slot: Slot, relPath: string): seq<Conflict>
    requires Fits(d, slot)
  {
    if d.Clash? then
      [Conflict(relPath, BaseOf(slot), HashOf(lib, slot.okf.value), HashOf(lib, slot.wiki.value),
                ResolutionOf(options.strategy))]
    else []
  }

  /** The stores after the path has been dealt with. */
  function SlotAfter(lib: Lib, options: Options, slot: Slot, relPath: string): Slot {
    SlotBy(lib, options, DecisionOf(lib, options, slot), slot, relPath)
  }

  function ActionFor(lib: Lib, options: Options, slot: Slot, relPath: string): seq<Action> {
    ActionBy(lib, options, DecisionOf(lib, options, slot), slot, relPath)
  }

  function ConflictFor(lib: Lib, options: Options, slot: Slot, relPath: string): seq<Conflict> {
    ConflictBy(lib, options, DecisionOf(lib, options, slot), slot, relPath)
  }

  // ---------- All paths ----------

  /** The two directories, from relative path to content, and the recorded state. */
  datatype Stores = Stores(okf: map<string, string>, wiki: map<string, string>, manifest: map<string, Entry>)

  function At(s: Stores, relPath: string): Slot {
    Slot(Lookup(s.okf, relPath), Lookup(s.wiki, relPath), Lookup(s.manifest, relPath))
  }

  /** Every path of either directory once, in order. */
  function AllRelPaths(s: Stores): seq<string> { CanonicalJson.SortedKeys(s.okf.Keys + s.wiki.Keys) }

  function AllActions(lib: Lib, options: Options, s: Stores, paths: seq<string>): seq<Action> {
    if paths == [] then []
    else
      var p := paths[|paths| - 1];
      AllActions(lib, options, s, paths[..|paths| - 1]) + ActionFor(lib, options, At(s, p), p)
  }

  function AllConflicts(lib: Lib, options: Options, s: Stores, paths: seq<string>): seq<Conflict> {
    if paths == [] then []
    else
      var p := paths[|paths| - 1];
      AllConflicts(lib, options, s, paths[..|paths| - 1]) + ConflictFor(lib, options, At(s, p), p)
  }

  datatype Report = Report(ok: bool, actions: seq<Action>, conflicts: seq<Conflict>)

  function IsUnresolved(c: Conflict): bool { c.resolution == Unresolved }

  class Workspace {
    const lib: Lib
    var okf: map<string, string>
    var wiki: map<string, string>
    var manifest: map<string, Entry>

    constructor (lib: Lib, okf: map<string, string>, wiki: map<string, string>, manifest: map<string, Entry>)
      ensures this.lib == lib && Contents() == Stores(okf, wiki, manifest)
    {
      this.lib, this.okf, this.wiki, this.manifest := lib, okf, wiki, manifest;
    }

    function Contents(): Stores
      reads this
    {
      Stores(okf, wiki, manifest)
    }

    /** Merges the wiki's file into the bundle's and records the common body. */
    method UpdateOkf(dryRun: bool, relPath: string) returns (preserved: seq<string>)
      requires relPath in wiki
      modifies this
      ensures forall p :: p != relPath ==> At(Contents(), p) == At(old(Contents()), p)
      ensures At(Contents(), relPath)
           == var slot := At(old(Contents()), relPath); if dryRun then slot else WithWiki(lib, slot, relPath)
      ensures preserved == PreservedKeys(if relPath in old(okf) then Read(lib, old(okf)[relPath]).frontmatter
                                         else map[])
    {
      var okfFm: Frontmatter := map[];
      if relPath in okf { okfFm := Read(lib, okf[relPath]).frontmatter; }
      var parsed := Read(lib, wiki[relPath]);
      var merged;
      merged, preserved := MergeWikiIntoOkfFrontmatter(lib, okfFm, parsed.frontmatter, parsed.body, relPath);
      if !dryRun {
        var hash := BodyHash(lib, parsed.body);
        okf := okf[relPath := SerializeMarkdownParts(lib.yaml, merged, parsed.body)];
        manifest := manifest[relPath := Entry(hash, hash, hash)];
      }
    }

    /** Writes the bundle's body to the wiki and records it. */
    method UpdateWiki(dryRun: bool, relPath: string)
      requires relPath in okf
      modifies this
      ensures forall p :: p != relPath ==> At(Contents(), p) == At(old(Contents()), p)
      ensures At(Contents(), relPath)
           == var slot := At(old(Contents()), relPath); if dryRun then slot else WithOkf(lib, slot)
    {
      if !dryRun {
        var parsed := Read(lib, okf[relPath]);
        var hash := BodyHash(lib, parsed.body);
        wiki := wiki[relPath := SerializeMarkdownParts(lib.yaml, BuildWikiFrontmatterFromOkf(parsed.frontmatter),
                                                       parsed.body)];
        manifest := manifest[relPath := Entry(hash, hash, hash)];
      }
    }

    method Decide(options: Options, relPath: string) returns (d: Decision)
      requires relPath in okf || relPath in wiki
      ensures d == DecisionOf(lib, options, At(Contents(), relPath))
    {
      if relPath !in okf { return if options.direction.Push? then Skip else Import; }
      if relPath !in wiki { return if options.direction.Pull? then Skip else Export; }
      var okfHash, wikiHash := HashOf(lib, okf[relPath]), HashOf(lib, wiki[relPath]);
      if okfHash == wikiHash { return Same; }
      var base := if relPath in manifest then Some(manifest[relPath].baseBodyHash) else None;
      var okfChanged, wikiChanged := Changed(base, okfHash), Changed(base, wikiHash);
      if options.direction.Pull? || (!okfChanged && wikiChanged) { return TakeWiki; }
      if options.direction.Push? || (okfChanged && !wikiChanged) { return TakeOkf; }
      return Clash;
    }

    method SyncPath(options: Options, relPath: string) returns (actions: seq<Action>, conflicts: seq<Conflict>)
      requires relPath in okf || relPath in wiki
      modifies this
      ensures forall p :: p != relPath ==> At(Contents(), p) == At(old(Contents()), p)
      ensures At(Contents(), relPath) == SlotAfter(lib, options, At(old(Contents()), relPath), relPath)
      ensures actions == ActionFor(lib, options, At(old(Contents()), relPath), relPath)
      ensures conflicts == ConflictFor(lib, options, At(old(Contents()), relPath), relPath)
    {
      var d := Decide(options, relPath);
      conflicts := NoteConflict(options, relPath, d);
      actions := CarryOut(options, relPath, d);
    }

    method NoteConflict(options: Options, relPath: string, d: Decision) returns (conflicts: seq<Conflict>)
      requires Fits(d, At(Contents(), relPath))
      ensures conflicts == ConflictBy(lib, options, d, At(Contents(), relPath), relPath)
    {
      if d != Clash { return []; }
      var base := if relPath in manifest then Some(manifest[relPath].baseBodyHash) else None;
      conflicts := [
        Conflict(relPath, base, HashOf(lib, okf[relPath]), HashOf(lib, wiki[relPath]), ResolutionOf(options.strategy))
      ];
    }

    method CarryOut(options: Options, relPath: string, d: Decision) returns (actions: seq<Action>)
      requires Fits(d, At(Contents(), relPath))
      modifies this
      ensures forall p :: p != relPath ==> At(Contents(), p) == At(old(Contents()), p)
      ensures At(Contents(), relPath) == SlotBy(lib, options, d, At(old(Contents()), relPath), relPath)
      ensures actions == ActionBy(lib, options, d, At(old(Contents()), relPath), relPath)
    {
      actions := [];
      if TakesWiki(options, d) {
        var preserved := UpdateOkf(options.dryRun, relPath);
        actions := [Action(relPath, if d.Import? then ImportedToOkf else UpdatedOkf, preserved)];
      } else if TakesOkf(options, d) {
        UpdateWiki(options.dryRun, relPath);
        actions := [Action(relPath, if d.Export? then ExportedToWiki else UpdatedWiki, [])];
      } else if d == Same {
        var hash := HashOf(lib, okf[relPath]);
        if !options.dryRun { manifest := manifest[relPath := Entry(hash, hash, hash)]; }
        actions := [Action(relPath, InSync, [])];
      } else if d == Clash {
        actions := [Action(relPath, Conflicting, [])];
      }
    }

    /** One round of the loop over the paths. */
    method SyncNext(options: Options, ghost before: Stores, paths: seq<string>, i: nat)
      returns (actions: seq<Action>, conflicts: seq<Conflict>)
      requires i < |paths| && paths == AllRelPaths(before) && Progress(lib, options, before, Contents(), paths[..i])
      modifies this
      ensures Progress(lib, options, before, Contents(), paths[..i + 1])
      ensures actions == ActionFor(lib, options, At(before, paths[i]), paths[i])
      ensures conflicts == ConflictFor(lib, options, At(before, paths[i]), paths[i])
    {
      ghost var middle := Contents();
      Unvisited(lib, options, before, middle, paths, i);
      actions, conflicts := SyncPath(options, paths[i]);
      Visited(lib, options, before, middle, Contents(), paths, i);
    }

    method SyncOpenWikiBidirectional(options: Options) returns (report: Report)
      modifies this
      ensures Synced(lib, options, old(Contents()), Contents())
      ensures report.actions == AllActions(lib, options, old(Contents()), AllRelPaths(old(Contents())))
      ensures report.conflicts == AllConflicts(lib, options, old(Contents()), AllRelPaths(old(Contents())))
      ensures report.ok <==> forall c :: c in report.conflicts ==> c.resolution != Unresolved
    {
      ghost var before := Contents();
      var paths := AllRelPaths(Contents());
      var actions: seq<Action>, conflicts: seq<Conflict> := [], [];
      NothingDealt(lib, options, before, paths);
      for i := 0 to |paths|
        invariant Progress(lib, options, before, Contents(), paths[..i])
        invariant actions == AllActions(lib, options, before, paths[..i])
        invariant conflicts == AllConflicts(lib, options, before, paths[..i])
      {
        var found, clashes := SyncNext(options, before, paths, i);
        actions, conflicts := actions + found, conflicts + clashes;
        ReportExtends(lib, options, before, paths, i);
      }
      AllVisited(lib, options, before, Contents(), paths);
      assert paths[..|paths|] == paths;
      report := Report(Filter(conflicts, IsUnresolved) == [], actions, conflicts);
      NoneUnresolved(conflicts);
    }
  }

  /** Every path has been dealt with, and its outcome depends on that path alone. */
  ghost predicate Synced(lib: Lib, options: Options, before: Stores, after: Stores) {
    forall p :: At(after, p) == SlotAfter(lib, options, At(before, p), p)
  }

  ghost predicate Dealt(lib: Lib, options: Options, before: Stores, now: Stores, done: seq<string>, p: string) {
    At(now, p) == if p in done then SlotAfter(lib, options, At(before, p), p) else At(before, p)
  }

  ghost predicate Progress(lib: Lib, options: Options, before: Stores, now: Stores, done: seq<string>) {
    forall p :: Dealt(lib, options, before, now, done, p)
  }

  lemma NothingDealt(lib: Lib, options: Options, before: Stores, paths: seq<string>)
    ensures Progress(lib, options, before, before, paths[..0])
  {
  }

  lemma ReportExtends(lib: Lib, options: Options, before: Stores, paths: seq<string>, i: nat)
    requires i < |paths|
    ensures AllActions(lib, options, before, paths[..i + 1])
         == AllActions(lib, options, before, paths[..i]) + ActionFor(lib, options, At(before, paths[i]), paths[i])
    ensures AllConflicts(lib, options, before, paths[..i + 1])
         == AllConflicts(lib, options, before, paths[..i]) + ConflictFor(lib, options, At(before, paths[i]), paths[i])
  {
    assert paths[..i + 1][..i] == paths[..i];
  }

  lemma PathsDiffer(before: Stores, i: nat)
    requires i < |AllRelPaths(before)|
    ensures AllRelPaths(before)[i] !in AllRelPaths(before)[..i]
    ensures AllRelPaths(before)[i] in before.okf || AllRelPaths(before)[i] in before.wiki
  {
    CanonicalJson.KeysAscend(before.okf.Keys + before.wiki.Keys);
    assert AllRelPaths(before)[i] in AllRelPaths(before);
  }

  lemma Unvisited(lib: Lib, options: Options, before: Stores, now: Stores, paths: seq<string>, i: nat)
    requires i < |paths| && paths == AllRelPaths(before) && Progress(lib, options, before, now, paths[..i])
    ensures At(now, paths[i]) == At(before, paths[i]) && (paths[i] in now.okf || paths[i] in now.wiki)
    ensures paths[i] !in paths[..i]
  {
    PathsDiffer(before, i);
    assert Dealt(lib, options, before, now, paths[..i], paths[i]);
    SameSlotSamePlace(before, now, paths[i]);
  }

  lemma SameSlotSamePlace(before: Stores, now: Stores, p: string)
    ensures At(before, p) == At(now, p) ==> (p in before.okf <==> p in now.okf) && (p in before.wiki <==> p in now.wiki)
  {
  }

  lemma Visited(lib: Lib, options: Options, before: Stores, middle: Stores, now: Stores, paths: seq<string>, i: nat)
    requires i < |paths| && Progress(lib, options, before, middle, paths[..i]) && paths[i] !in paths[..i]
    requires forall q :: q != paths[i] ==> At(now, q) == At(middle, q)
    requires At(now, paths[i]) == SlotAfter(lib, options, At(middle, paths[i]), paths[i])
    ensures Progress(lib, options, before, now, paths[..i + 1])
  {
    var done := paths[..i + 1];
    assert done == paths[..i] + [paths[i]];
    forall q ensures Dealt(lib, options, before, now, done, q) {
      assert Dealt(lib, options, before, middle, paths[..i], q);
    }
  }

  lemma AllVisited(lib: Lib, options: Options, before: Stores, now: Stores, paths: seq<string>)
    requires paths == AllRelPaths(before) && Progress(lib, options, before, now, paths[..|paths|])
    ensures Synced(lib, options, before, now)
  {
    forall p ensures At(now, p) == SlotAfter(lib, options, At(before, p), p) {
      assert paths[..|paths|] == paths;
      assert Dealt(lib, options, before, now, paths, p);
    }
  }

  lemma NoneUnresolved(conflicts: seq<Conflict>)
    ensures Filter(conflicts, IsUnresolved) == [] <==> forall c :: c in conflicts ==> c.resolution != Unresolved
  {
    if Filter(conflicts, IsUnresolved) != [] { assert Filter(conflicts, IsUnresolved)[0] in conflicts; }
  }
}
