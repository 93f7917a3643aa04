/** What a synchronisation of the two directories leaves behind. */
module WikiSyncTheorems {
  import opened Basics
  import opened Text
  import opened Markdown
  import opened WikiSync

  /** YAML round-trips, trimmed YAML can be read, and the hash is collision-free and never empty. */
  ghost predicate Lawful(lib: Lib) {
    && RoundTrips(lib.yaml) && TrimLoads(lib.yaml)
    && (forall s, t :: lib.hash(s) == lib.hash(t) ==> s == t)
    && forall s :: lib.hash(s) != ""
  }

  /** The normalised body of a file: what its hash stands for. */
  function BodyOf(lib: Lib, raw: string): string { Normalized(Read(lib, raw).body) }

  /** A run that writes, goes both ways and settles every conflict. */
  predicate Settling(options: Options) {
    !options.dryRun && options.direction.Bidirectional? && !options.strategy.Fail?
  }

  // ---------- One path ----------

  /** The body that is written, if one is, has no carriage return before a Windows line end. */
  predicate WritesSettled(lib: Lib, options: Options, slot: Slot) {
    var d := DecisionOf(lib, options, slot);
    && (TakesWiki(options, d) ==> Settled(Read(lib, slot.wiki.value).body))
    && (TakesOkf(options, d) ==> Settled(Read(lib, slot.okf.value).body))
  }

  predicate Present(slot: Slot) { slot.okf.Some? || slot.wiki.Some? }

  ghost predicate Agree(lib: Lib, slot: Slot) {
    slot.okf.Some? && slot.wiki.Some? && BodyOf(lib, slot.okf.value) == BodyOf(lib, slot.wiki.value)
  }

  lemma WrittenReads(lib: Lib, fm: Frontmatter, raw: string)
    requires RoundTrips(lib.yaml) && TrimLoads(lib.yaml)
    ensures var written := Read(lib, SerializeMarkdownParts(lib.yaml, fm, Read(lib, raw).body));
            written.body == BodyOf(lib, raw) && (TrimKeeps(lib.yaml, fm) ==> written.frontmatter == fm)
  {
    ParsedBodyTrimmed(lib.yaml, raw);
    TrimTrims(Read(lib, raw).body);
    ParseSerialize(lib.yaml, fm, Read(lib, raw).body);
  }

  /** The frontmatter that a rewritten bundle file is given. */
  function MergedFor(lib: Lib, okfFm: Frontmatter, wikiRaw: string, relPath: string): Frontmatter {
    Merged(lib, okfFm, Read(lib, wikiRaw).frontmatter, Read(lib, wikiRaw).body, relPath)
  }

  lemma OkfReads(lib: Lib, okfFm: Frontmatter, wikiRaw: string, relPath: string)
    requires RoundTrips(lib.yaml) && TrimLoads(lib.yaml)
    ensures var written := Read(lib, OkfText(lib, okfFm, Read(lib, wikiRaw), relPath));
            var fm := MergedFor(lib, okfFm, wikiRaw, relPath);
            written.body == BodyOf(lib, wikiRaw) && (TrimKeeps(lib.yaml, fm) ==> written.frontmatter == fm)
  {
    WrittenReads(lib, MergedFor(lib, okfFm, wikiRaw, relPath), wikiRaw);
  }

  lemma WikiReads(lib: Lib, okfRaw: string)
    requires RoundTrips(lib.yaml) && TrimLoads(lib.yaml)
    ensures Read(lib, WikiText(lib, Read(lib, okfRaw))).body == BodyOf(lib, okfRaw)
  {
    WrittenReads(lib, BuildWikiFrontmatterFromOkf(Read(lib, okfRaw).frontmatter), okfRaw);
  }

  /** Copying the wiki's body makes the two agree exactly if the body is settled. */
  lemma WithWikiAgrees(lib: Lib, slot: Slot, relPath: string)
    requires Lawful(lib) && slot.wiki.Some?
    ensures Agree(lib, WithWiki(lib, slot, relPath)) <==> Settled(Read(lib, slot.wiki.value).body)
  {
    OkfReads(lib, if slot.okf.Some? then Read(lib, slot.okf.value).frontmatter else map[], slot.wiki.value, relPath);
  }

  lemma WithOkfAgrees(lib: Lib, slot: Slot)
    requires Lawful(lib) && slot.okf.Some?
    ensures Agree(lib, WithOkf(lib, slot)) <==> Settled(Read(lib, slot.okf.value).body)
  {
    WikiReads(lib, slot.okf.value);
  }

  lemma SameMeansAgree(lib: Lib, options: Options, slot: Slot)
    requires Lawful(lib) && slot.okf.Some? && slot.wiki.Some?
    ensures DecisionOf(lib, options, slot).Same? <==> Agree(lib, slot)
  {
    var a, b := BodyOf(lib, slot.okf.value), BodyOf(lib, slot.wiki.value);
    assert lib.hash(a) == lib.hash(b) ==> a == b;
  }

  lemma SomethingIsDone(lib: Lib, options: Options, slot: Slot)
    requires Settling(options) && Present(slot)
    ensures var d := DecisionOf(lib, options, slot); TakesWiki(options, d) || TakesOkf(options, d) || d.Same?
  {
  }

  /** After a settling run a path is in both directories, and the bodies agree exactly when the
      body that was written is settled. */
  lemma PathAgreesExactly(lib: Lib, options: Options, slot: Slot, relPath: string)
    requires Lawful(lib) && Settling(options) && Present(slot)
    ensures var after := SlotAfter(lib, options, slot, relPath);
            after.okf.Some? && after.wiki.Some? && (Agree(lib, after) <==> WritesSettled(lib, options, slot))
  {
    var d := DecisionOf(lib, options, slot);
    SomethingIsDone(lib, options, slot);
    if TakesWiki(options, d) {
      WithWikiAgrees(lib, slot, relPath);
    } else if TakesOkf(options, d) {
      WithOkfAgrees(lib, slot);
    } else {
      SameMeansAgree(lib, options, slot);
    }
  }

  lemma EntryRecordsBody(lib: Lib, options: Options, slot: Slot, relPath: string)
    requires Lawful(lib) && Settling(options) && Present(slot)
    ensures var after := SlotAfter(lib, options, slot, relPath);
            after.okf.Some? && after.wiki.Some?
            && (Agree(lib, after) ==> after.entry == Recorded(HashOf(lib, after.okf.value)))
  {
    PathAgreesExactly(lib, options, slot, relPath);
    SomethingIsDone(lib, options, slot);
  }

  /** A second run finds the path in sync, and leaves everything as it is, exactly when the first
      run wrote a settled body. */
  lemma SecondRunInSyncExactly(lib: Lib, options: Options, slot: Slot, relPath: string)
    requires Lawful(lib) && Settling(options) && Present(slot)
    ensures var after := SlotAfter(lib, options, slot, relPath);
            && (DecisionOf(lib, options, after).Same? <==> WritesSettled(lib, options, slot))
            && (WritesSettled(lib, options, slot) ==> SlotAfter(lib, options, after, relPath) == after)
  {
    var after := SlotAfter(lib, options, slot, relPath);
    PathAgreesExactly(lib, options, slot, relPath);
    SameMeansAgree(lib, options, after);
    EntryRecordsBody(lib, options, slot, relPath);
  }

  /** What ends up on both sides: the body that the decision takes. */
  lemma BodyAfter(lib: Lib, options: Options, slot: Slot, relPath: string)
    requires Lawful(lib) && Settling(options) && Present(slot) && WritesSettled(lib, options, slot)
    ensures var after, d := SlotAfter(lib, options, slot, relPath), DecisionOf(lib, options, slot);
            && after.okf.Some? && after.wiki.Some? && BodyOf(lib, after.okf.value) == BodyOf(lib, after.wiki.value)
            && (TakesWiki(options, d) || d.Same? ==>
                  slot.wiki.Some? && BodyOf(lib, after.wiki.value) == BodyOf(lib, slot.wiki.value))
            && (TakesOkf(options, d) || d.Same? ==>
                  slot.okf.Some? && BodyOf(lib, after.okf.value) == BodyOf(lib, slot.okf.value))
  {
    PathAgreesExactly(lib, options, slot, relPath);
  }

  lemma EditDecides(lib: Lib, options: Options, slot: Slot)
    requires options.direction.Bidirectional? && !DecisionOf(lib, options, slot).Clash?
    ensures var d := DecisionOf(lib, options, slot);
            && (slot.okf.Some? && Changed(BaseOf(slot), HashOf(lib, slot.okf.value)) ==>
                  TakesOkf(options, d) || d.Same?)
            && (slot.wiki.Some? && Changed(BaseOf(slot), HashOf(lib, slot.wiki.value)) ==>
                  TakesWiki(options, d) || d.Same?)
  {
  }

  /** Both sides hold this body. */
  ghost predicate HeldByBoth(lib: Lib, slot: Slot, body: string) {
    slot.okf.Some? && slot.wiki.Some? && BodyOf(lib, slot.okf.value) == BodyOf(lib, slot.wiki.value) == body
  }

  /** A body that differs from the recorded base is on both sides afterwards exactly when the body
      that was written is settled, unless the path is in conflict. */
  lemma ChangeSurvivesExactly(lib: Lib, options: Options, slot: Slot, relPath: string)
    requires Lawful(lib) && Settling(options) && Present(slot) && !DecisionOf(lib, options, slot).Clash?
    ensures var after := SlotAfter(lib, options, slot, relPath);
            && (slot.okf.Some? && Changed(BaseOf(slot), HashOf(lib, slot.okf.value)) ==>
                  (HeldByBoth(lib, after, BodyOf(lib, slot.okf.value)) <==> WritesSettled(lib, options, slot)))
            && (slot.wiki.Some? && Changed(BaseOf(slot), HashOf(lib, slot.wiki.value)) ==>
                  (HeldByBoth(lib, after, BodyOf(lib, slot.wiki.value)) <==> WritesSettled(lib, options, slot)))
  {
    PathAgreesExactly(lib, options, slot, relPath);
    if WritesSettled(lib, options, slot) {
      BodyAfter(lib, options, slot, relPath);
      EditDecides(lib, options, slot);
    }
  }

  /** A path is reported in conflict exactly when both sides changed, to different bodies. */
  lemma ConflictExactly(lib: Lib, options: Options, slot: Slot, relPath: string)
    requires Lawful(lib) && options.direction.Bidirectional?
    ensures ConflictFor(lib, options, slot, relPath) != [] <==>
              slot.okf.Some? && slot.wiki.Some? && !Agree(lib, slot)
              && Changed(BaseOf(slot), HashOf(lib, slot.okf.value))
              && Changed(BaseOf(slot), HashOf(lib, slot.wiki.value))
  {
    if slot.okf.Some? && slot.wiki.Some? { SameMeansAgree(lib, options, slot); }
  }

  /** Only the wiki was edited since the recorded base. */
  predicate OnlyWikiEdited(lib: Lib, slot: Slot) {
    slot.okf.Some? && slot.wiki.Some?
    && !Changed(BaseOf(slot), HashOf(lib, slot.okf.value)) && Changed(BaseOf(slot), HashOf(lib, slot.wiki.value))
  }

  lemma OneWayDecisions(lib: Lib, options: Options, slot: Slot)
    ensures options.direction.Pull? ==> !TakesOkf(options, DecisionOf(lib, options, slot))
    ensures options.direction.Push? ==>
            (TakesWiki(options, DecisionOf(lib, options, slot)) <==> OnlyWikiEdited(lib, slot))
  {
  }

  /** A dry run touches nothing, an unresolved conflict stays as it was, a pull leaves the wiki
      alone. A push leaves the bundle alone, except for files that were edited in the wiki only:
      those it overwrites with the wiki's version. */
  lemma RestraintHolds(lib: Lib, options: Options, slot: Slot, relPath: string)
    ensures var after := SlotAfter(lib, options, slot, relPath);
            && (options.dryRun ==> after == slot)
            && (options.strategy.Fail? && DecisionOf(lib, options, slot).Clash? ==> after == slot)
            && (options.direction.Pull? ==> after.wiki == slot.wiki)
            && (options.direction.Push? && !OnlyWikiEdited(lib, slot) ==> after.okf == slot.okf)
            && (options.direction.Push? && OnlyWikiEdited(lib, slot) && !options.dryRun ==>
                after == WithWiki(lib, slot, relPath))
  {
    OneWayDecisions(lib, options, slot);
  }

  // ---------- Governed keys ----------

  predicate Required(key: string) { key == "id" || key == "type" || key == "sensitivity" }

  function DefaultFor(lib: Lib, key: string, relPath: string): Datum {
    if key == "id" then Words(lib.slug(relPath)) else if key == "type" then Words("Concept") else Words("internal")
  }

  lemma GovernedIsNotMerged(key: string)
    requires key in GOVERNED_OKF_KEYS
    ensures key != "title" && key != "tags"
  {
    var i :| 0 <= i < |GOVERNED_OKF_KEYS| && GOVERNED_OKF_KEYS[i] == key;
    assert |key| != 5 && (|key| == 4 ==> key[1] == 'y');
  }

  /** Where the value of a governed key comes from when wiki fields enter the bundle: the bundle's
      own, else the wiki's, and a default for a required key that says nothing so far. */
  function GovernedField(lib: Lib, okfFm: Frontmatter, wikiFm: Frontmatter, relPath: string, key: string)
    : Option<Datum>
  {
    var given := if key in okfFm then Lookup(okfFm, key) else Lookup(wikiFm, key);
    if Required(key) && (given.None? || !Truthy(given.value)) then Some(DefaultFor(lib, key, relPath)) else given
  }

  lemma MergedGoverned(lib: Lib, okfFm: Frontmatter, wikiFm: Frontmatter, wikiBody: string, relPath: string,
                       key: string)
    requires key in GOVERNED_OKF_KEYS
    ensures Lookup(Merged(lib, okfFm, wikiFm, wikiBody, relPath), key)
         == GovernedField(lib, okfFm, wikiFm, relPath, key)
  {
    GovernedIsNotMerged(key);
    IdentityMerged(lib, wikiFm + okfFm, relPath, key);
  }

  lemma IdentityMerged(lib: Lib, fm: Frontmatter, relPath: string, key: string)
    ensures var identified := WithDefault(fm, "id", Words(lib.slug(relPath)));
            var typed := WithDefault(identified, "type", Words("Concept"));
            var filled := WithDefault(typed, "sensitivity", Words("internal"));
            Lookup(filled, key) == if Required(key) && !Truthy(Field(fm, key)) then Some(DefaultFor(lib, key, relPath))
                                   else Lookup(fm, key)
  {
  }

  predicate Rewritten(lib: Lib, options: Options, slot: Slot) {
    !options.dryRun && TakesWiki(options, DecisionOf(lib, options, slot))
  }

  /** The frontmatter of a file that may be missing. */
  function FieldsIn(lib: Lib, raw: Option<string>): Frontmatter {
    if raw.Some? then Read(lib, raw.value).frontmatter else map[]
  }

  /** If the bundle file is rewritten, trimming keeps the new frontmatter. */
  predicate RewriteKeeps(lib: Lib, options: Options, slot: Slot, relPath: string) {
    Rewritten(lib, options, slot) ==>
      TrimKeeps(lib.yaml, MergedFor(lib, FieldsIn(lib, slot.okf), slot.wiki.value, relPath))
  }

  /** Whatever the direction and the strategy: a bundle file that is rewritten has every governed key
      from itself, else from the wiki, else by default; any other keeps its fields. */
  lemma GovernedKeysComeFrom(lib: Lib, options: Options, slot: Slot, relPath: string, key: string)
    requires RoundTrips(lib.yaml) && TrimLoads(lib.yaml) && key in GOVERNED_OKF_KEYS
    requires RewriteKeeps(lib, options, slot, relPath)
    ensures Lookup(FieldsIn(lib, SlotAfter(lib, options, slot, relPath).okf), key)
         == if Rewritten(lib, options, slot)
            then GovernedField(lib, FieldsIn(lib, slot.okf), FieldsIn(lib, slot.wiki), relPath, key)
            else Lookup(FieldsIn(lib, slot.okf), key)
  {
    if Rewritten(lib, options, slot) {
      var okfFm, wiki := FieldsIn(lib, slot.okf), Read(lib, slot.wiki.value);
      OkfReads(lib, okfFm, slot.wiki.value, relPath);
      MergedGoverned(lib, okfFm, wiki.frontmatter, wiki.body, relPath, key);
    }
  }

  /** Whatever the direction and the strategy, a governed key of the bundle keeps its value, exactly
      unless the file is rewritten and the key is a required one that says nothing (and does not
      already hold the default it is given). */
  lemma GovernedKeyKeptExactly(lib: Lib, options: Options, slot: Slot, relPath: string, key: string)
    requires RoundTrips(lib.yaml) && TrimLoads(lib.yaml) && slot.okf.Some?
    requires key in GOVERNED_OKF_KEYS && key in Read(lib, slot.okf.value).frontmatter
    requires RewriteKeeps(lib, options, slot, relPath)
    ensures var after := SlotAfter(lib, options, slot, relPath);
            var value := Read(lib, slot.okf.value).frontmatter[key];
            && after.okf.Some?
            && key in Read(lib, after.okf.value).frontmatter
            && (Read(lib, after.okf.value).frontmatter[key] == value <==>
                  !Rewritten(lib, options, slot) || !Required(key) || Truthy(value)
                  || value == DefaultFor(lib, key, relPath))
  {
    GovernedKeysComeFrom(lib, options, slot, relPath, key);
  }

  // ---------- Whole runs ----------

  predicate InStores(s: Stores, p: string) { p in s.okf || p in s.wiki }

  ghost predicate AllSettled(lib: Lib, options: Options, s: Stores) {
    forall p :: InStores(s, p) ==> WritesSettled(lib, options, At(s, p))
  }

  ghost predicate InAgreement(lib: Lib, s: Stores) {
    forall p :: InStores(s, p) ==> Agree(lib, At(s, p))
  }

  lemma StoresKept(lib: Lib, options: Options, before: Stores, after: Stores, p: string)
    requires Lawful(lib) && Settling(options) && Synced(lib, options, before, after)
    ensures InStores(before, p) <==> InStores(after, p)
    ensures InStores(before, p) <==> p in after.okf
    ensures InStores(before, p) <==> p in after.wiki
    ensures InStores(before, p) ==> (Agree(lib, At(after, p)) <==> WritesSettled(lib, options, At(before, p)))
  {
    assert At(after, p) == SlotAfter(lib, options, At(before, p), p);
    if InStores(before, p) { PathAgreesExactly(lib, options, At(before, p), p); }
  }

  /** After a settling run both directories hold the same paths, those of either before. */
  lemma DirectoriesHoldSamePaths(lib: Lib, options: Options, before: Stores, after: Stores)
    requires Lawful(lib) && Settling(options) && Synced(lib, options, before, after)
    ensures after.okf.Keys == after.wiki.Keys == before.okf.Keys + before.wiki.Keys
  {
    forall p ensures InStores(before, p) <==> p in after.okf { StoresKept(lib, options, before, after, p); }
    forall p ensures InStores(before, p) <==> p in after.wiki { StoresKept(lib, options, before, after, p); }
  }

  /** And their bodies agree everywhere exactly when every body that was written is settled. */
  lemma DirectoriesAgreeExactly(lib: Lib, options: Options, before: Stores, after: Stores)
    requires Lawful(lib) && Settling(options) && Synced(lib, options, before, after)
    ensures InAgreement(lib, after) <==> AllSettled(lib, options, before)
  {
    if AllSettled(lib, options, before) {
      forall p | InStores(after, p) ensures Agree(lib, At(after, p)) { StoresKept(lib, options, before, after, p); }
    }
    if InAgreement(lib, after) {
      forall p | InStores(before, p) ensures WritesSettled(lib, options, At(before, p)) {
        StoresKept(lib, options, before, after, p);
        assert Agree(lib, At(after, p));
      }
    }
  }

  ghost predicate AllInSync(actions: seq<Action>) { forall a :: a in actions ==> a.kind == InSync }

  lemma {:induction false} InSyncActions(lib: Lib, options: Options, s: Stores, paths: seq<string>)
    requires Settling(options) && forall p :: p in paths ==> InStores(s, p)
    ensures AllInSync(AllActions(lib, options, s, paths)) <==>
              forall p :: p in paths ==> DecisionOf(lib, options, At(s, p)).Same?
  {
    if paths != [] {
      var front, p := paths[..|paths| - 1], paths[|paths| - 1];
      assert paths == front + [p];
      assert p in paths;
      InSyncActions(lib, options, s, front);
      OneInSync(lib, options, At(s, p), p);
    }
  }

  lemma OneAction(lib: Lib, options: Options, d: Decision, slot: Slot, p: string)
    requires Settling(options) && !d.Absent? && !d.Skip?
    ensures |ActionBy(lib, options, d, slot, p)| == 1
            && (ActionBy(lib, options, d, slot, p)[0].kind == InSync <==> d.Same?)
  {
  }

  lemma OneInSync(lib: Lib, options: Options, slot: Slot, p: string)
    requires Settling(options) && Present(slot)
    ensures AllInSync(ActionFor(lib, options, slot, p)) <==> DecisionOf(lib, options, slot).Same?
  {
    OneAction(lib, options, DecisionOf(lib, options, slot), slot, p);
    Singleton(ActionFor(lib, options, slot, p));
  }

  lemma Singleton(actions: seq<Action>)
    requires |actions| == 1
    ensures AllInSync(actions) <==> actions[0].kind == InSync
  {
    assert actions[0] in actions;
  }

  /** A second run reports nothing but in-sync exactly when every body the first one wrote is
      settled, and then it leaves both directories and the manifest as they are. */
  lemma SecondRunIsQuietExactly(lib: Lib, options: Options, before: Stores, after: Stores, again: Stores)
    requires Lawful(lib) && Settling(options)
    requires Synced(lib, options, before, after) && Synced(lib, options, after, again)
    ensures AllInSync(AllActions(lib, options, after, AllRelPaths(after))) <==> AllSettled(lib, options, before)
    ensures AllSettled(lib, options, before) ==> again == after
  {
    var paths := AllRelPaths(after);
    assert forall p :: p in paths <==> InStores(after, p);
    InSyncActions(lib, options, after, paths);
    forall p ensures InStores(before, p) <==> InStores(after, p) { StoresKept(lib, options, before, after, p); }
    forall p | InStores(before, p)
      ensures DecisionOf(lib, options, At(after, p)).Same? <==> WritesSettled(lib, options, At(before, p))
    {
      assert At(after, p) == SlotAfter(lib, options, At(before, p), p);
      SecondRunInSyncExactly(lib, options, At(before, p), p);
    }
    if AllSettled(lib, options, before) {
      forall p ensures At(again, p) == At(after, p) { QuietPath(lib, options, before, after, again, p); }
      SameEverywhere(again, after);
    }
  }

  lemma QuietPath(lib: Lib, options: Options, before: Stores, after: Stores, again: Stores, p: string)
    requires Lawful(lib) && Settling(options) && AllSettled(lib, options, before)
    requires Synced(lib, options, before, after) && Synced(lib, options, after, again)
    ensures At(again, p) == At(after, p)
  {
    assert At(after, p) == SlotAfter(lib, options, At(before, p), p);
    assert At(again, p) == SlotAfter(lib, options, At(after, p), p);
    if InStores(before, p) { SecondRunInSyncExactly(lib, options, At(before, p), p); }
  }

  lemma SameEverywhere(a: Stores, b: Stores)
    requires forall p :: At(a, p) == At(b, p)
    ensures a == b
  {
    forall p ensures (p in a.okf <==> p in b.okf) && (p in a.okf ==> a.okf[p] == b.okf[p]) {
      assert At(a, p) == At(b, p);
    }
    forall p ensures (p in a.wiki <==> p in b.wiki) && (p in a.wiki ==> a.wiki[p] == b.wiki[p]) {
      assert At(a, p) == At(b, p);
    }
    forall p ensures (p in a.manifest <==> p in b.manifest) && (p in a.manifest ==> a.manifest[p] == b.manifest[p]) {
      assert At(a, p) == At(b, p);
    }
    assert a.okf == b.okf && a.wiki == b.wiki && a.manifest == b.manifest;
  }

  lemma {:induction false} ConflictListed(lib: Lib, options: Options, s: Stores, paths: seq<string>, p: string)
    requires p in paths && ConflictFor(lib, options, At(s, p), p) != []
    ensures exists c :: c in AllConflicts(lib, options, s, paths) && c.relPath == p
  {
    var front, last := paths[..|paths| - 1], paths[|paths| - 1];
    assert paths == front + [last];
    if p in front {
      ConflictListed(lib, options, s, front, p);
      var c :| c in AllConflicts(lib, options, s, front) && c.relPath == p;
      assert c in AllConflicts(lib, options, s, paths);
    } else {
      assert ConflictFor(lib, options, At(s, p), p)[0] in AllConflicts(lib, options, s, paths);
    }
  }

  /** The report names the path as a conflict. */
  ghost predicate ListedInConflict(lib: Lib, options: Options, s: Stores, p: string) {
    exists c :: c in AllConflicts(lib, options, s, AllRelPaths(s)) && c.relPath == p
  }

  /** The file under this path, on one side, is not what the manifest recorded. */
  predicate Edited(lib: Lib, s: Stores, raw: Option<string>, p: string) {
    raw.Some? && Changed(BaseOf(At(s, p)), HashOf(lib, raw.value))
  }

  /** Every edited body whose path is not listed in conflicts is on both sides after the run exactly
      when the body that was written is settled. */
  lemma EditsSurviveExactly(lib: Lib, options: Options, before: Stores, after: Stores, p: string)
    requires Lawful(lib) && Settling(options) && Synced(lib, options, before, after)
    requires InStores(before, p) && !ListedInConflict(lib, options, before, p)
    ensures Edited(lib, before, At(before, p).okf, p) ==>
              (HeldByBoth(lib, At(after, p), BodyOf(lib, before.okf[p]))
               <==> WritesSettled(lib, options, At(before, p)))
    ensures Edited(lib, before, At(before, p).wiki, p) ==>
              (HeldByBoth(lib, At(after, p), BodyOf(lib, before.wiki[p]))
               <==> WritesSettled(lib, options, At(before, p)))
  {
    assert At(after, p) == SlotAfter(lib, options, At(before, p), p);
    if DecisionOf(lib, options, At(before, p)).Clash? {
      ConflictListed(lib, options, before, AllRelPaths(before), p);
    }
    ChangeSurvivesExactly(lib, options, At(before, p), p);
  }

  /** Governed keys survive any run, of any direction and strategy, under the same condition. */
  lemma GovernedKeysKept(lib: Lib, options: Options, before: Stores, after: Stores, p: string, key: string)
    requires RoundTrips(lib.yaml) && TrimLoads(lib.yaml) && Synced(lib, options, before, after)
    requires p in before.okf && RewriteKeeps(lib, options, At(before, p), p)
    requires key in GOVERNED_OKF_KEYS && key in Read(lib, before.okf[p]).frontmatter
    requires !Required(key) || Truthy(Read(lib, before.okf[p]).frontmatter[key])
    ensures p in after.okf && key in Read(lib, after.okf[p]).frontmatter
            && Read(lib, after.okf[p]).frontmatter[key] == Read(lib, before.okf[p]).frontmatter[key]
  {
    assert At(after, p) == SlotAfter(lib, options, At(before, p), p);
    GovernedKeyKeptExactly(lib, options, At(before, p), p, key);
  }

  /** The wiki is told the id, the title and the type that say something, and tags that are a list, and
      no other field of the bundle. */
  lemma WikiIsTold(okfFm: Frontmatter, key: string)
    ensures Lookup(BuildWikiFrontmatterFromOkf(okfFm), key)
         == if key in ["id", "title", "type"] then (if Truthy(Field(okfFm, key)) then Some(okfFm[key]) else None)
            else if key == "tags" then (if Field(okfFm, key).List? then Some(okfFm[key]) else None)
            else None
  {
    assert key in ["id", "title", "type"] <==> key == "id" || key == "title" || key == "type";
    assert "tags"[1] == 'a' && "type"[1] == 'y' && |"title"| == 5 && |"id"| == 2;
  }

  /** A conflict names its path, the recorded base and both hashes, and how it was settled: in favour of
      the side whose body both have afterwards, or not at all, and then nothing was touched. */
  lemma ConflictSaysHow(lib: Lib, options: Options, slot: Slot, relPath: string, c: Conflict)
    requires Lawful(lib) && !options.dryRun && c in ConflictFor(lib, options, slot, relPath)
    ensures slot.okf.Some? && slot.wiki.Some?
    ensures var after := SlotAfter(lib, options, slot, relPath);
            && c.relPath == relPath && c.base == BaseOf(slot)
            && c.okfHash == HashOf(lib, slot.okf.value) && c.wikiHash == HashOf(lib, slot.wiki.value)
            && (c.resolution == ResolvedOkf <==> options.strategy == PreferOkf)
            && (c.resolution == ResolvedWiki <==> options.strategy == PreferWiki)
            && (c.resolution == Unresolved <==> options.strategy == Fail)
            && (c.resolution == ResolvedOkf ==>
                  after.okf == slot.okf && after.wiki.Some?
                  && BodyOf(lib, after.wiki.value) == Normalized(BodyOf(lib, slot.okf.value)))
            && (c.resolution == ResolvedWiki ==>
                  after.wiki == slot.wiki && after.okf.Some?
                  && BodyOf(lib, after.okf.value) == Normalized(BodyOf(lib, slot.wiki.value)))
            && (c.resolution == Unresolved ==> after == slot)
  {
    WikiReads(lib, slot.okf.value);
    OkfReads(lib, Read(lib, slot.okf.value).frontmatter, slot.wiki.value, relPath);
  }
}
