/** What the synchronisation reads, merges, decides and reports, in the words of the files. */
module WikiMeaning {
  import opened Basics
  import opened Text
  import opened Markdown
  import opened WikiSync
  import T = WikiSyncTheorems

  // ---------- Reading a file ----------

  /** Every Windows line end becomes a plain one, whatever is around it; without one nothing changes. */
  lemma LineEndsReplaced(a: string, b: string)
    ensures Crlf(a + ("\r\n" + b)) == Crlf(a) + ("\n" + Crlf(b))
    ensures !HasCrlf(a) ==> Crlf(a) == a
  {
    CrlfExactly(a);
    CrlfConcat(a, "\r\n" + b);
    assert ("\r\n" + b)[2..] == b;
  }

  /** Trimming takes exactly the white space around a text: it yields the one text without white space
      at its ends that the original surrounds with nothing else. */
  lemma TrimsExactly(left: string, s: string, right: string)
    requires forall c :: c in left || c in right ==> IsSpace(c)
    ensures Trimmed(s) <==> Trim(left + (s + right)) == s
  {
    if Trimmed(s) {
      TrimPadded(left, s, right);
    } else {
      TrimTrims(left + (s + right));
    }
  }

  lemma SpacesByName(c: char)
    ensures IsSpace(c) <==>
            c in {'\t', '\n', '\U{B}', '\U{C}', '\r', ' ', '\U{A0}', '\U{1680}', '\U{2000}',
                  '\U{2001}', '\U{2002}', '\U{2003}', '\U{2004}', '\U{2005}', '\U{2006}', '\U{2007}', '\U{2008}',
                  '\U{2009}', '\U{200A}', '\U{2028}', '\U{2029}', '\U{202F}', '\U{205F}', '\U{3000}', '\U{FEFF}'}
  {
  }

  /** The text opens with a line of three dashes, and the next such line is the one behind the block. */
  ghost predicate Fenced(text: string, block: string, rest: string) {
    && text == "---\n" + (block + ("\n---\n" + rest))
    && forall i :: 4 <= i < 4 + |block| ==> !FenceAt(text, i)
  }

  predicate FenceAt(text: string, i: nat) { StartsWith(if i <= |text| then text[i..] else "", "\n---\n") }

  /** A fenced file has the fields that YAML loads from its block, and what follows for a body; if the
      block does not load it has no fields and is all body. */
  lemma FencedReads(yaml: Yaml, raw: string, block: string, rest: string)
    requires Fenced(Crlf(raw), block, rest)
    ensures ParseMarkdownParts(yaml, raw) ==
              match yaml.load(block)
              case Loads(fm) => Parts(fm, Trim(rest))
              case NotAMapping => Parts(map[], Trim(rest))
              case Fails => Parts(map[], Trim(Crlf(raw)))
  {
    FencedFound(Crlf(raw), block, rest);
  }

  /** A file without fences has no fields and is all body. */
  lemma UnfencedReads(yaml: Yaml, raw: string)
    requires forall block, rest :: !Fenced(Crlf(raw), block, rest)
    ensures ParseMarkdownParts(yaml, raw) == Parts(map[], Trim(Crlf(raw)))
  {
    var text := Crlf(raw);
    if StartsWith(text, "---\n") && IndexOf(text, FENCE, 4).Some? {
      var end := IndexOf(text, FENCE, 4).value;
      FirstFence(text, 4);
      Reassembled(text, end);
      assert Fenced(text, text[4..end], text[end + 5..]);
    }
  }

  lemma FencedFound(text: string, block: string, rest: string)
    requires Fenced(text, block, rest)
    ensures StartsWith(text, "---\n") && IndexOf(text, FENCE, 4) == Some(4 + |block|)
    ensures text[4..4 + |block|] == block && text[4 + |block| + 5..] == rest
  {
    var end := 4 + |block|;
    assert text[end..] == FENCE + rest;
    forall i | 4 <= i < end ensures !StartsWith(text[i..], FENCE) { assert !FenceAt(text, i); }
    FirstAt(text, FENCE, 4, end);
  }

  lemma {:induction false} FirstFence(text: string, from: nat)
    requires from <= |text| && IndexOf(text, FENCE, from).Some?
    ensures var end := IndexOf(text, FENCE, from).value;
            FenceAt(text, end) && forall i :: from <= i < end ==> !FenceAt(text, i)
    decreases |text| - from
  {
    if !StartsWith(text[from..], FENCE) { FirstFence(text, from + 1); }
  }

  lemma Reassembled(text: string, end: nat)
    requires StartsWith(text, "---\n") && 4 <= end && end + 5 <= |text| && FenceAt(text, end)
    ensures text == "---\n" + (text[4..end] + ("\n---\n" + text[end + 5..]))
  {
    assert text[end..][..5] == "\n---\n";
    assert text[end..end + 5] == "\n---\n";
    assert text == text[..4] + (text[4..end] + (text[end..end + 5] + text[end + 5..]));
  }

  // ---------- Merging fields ----------

  /** A field that is absent, or counts as false in JavaScript. */
  predicate Blank(d: Option<Datum>) {
    d in {None, Some(Nothing), Some(Flag(false)), Some(Number("0")), Some(Words(""))}
  }

  lemma BlankSaysNothing(fm: Frontmatter, key: string)
    ensures Blank(Lookup(fm, key)) <==> !Truthy(Field(fm, key))
  {
  }

  /** The bundle's own value, else the wiki's. */
  function OwnElse(okfFm: Frontmatter, wikiFm: Frontmatter, key: string): Option<Datum> {
    if key in okfFm then Lookup(okfFm, key) else Lookup(wikiFm, key)
  }

  /** What a merged file says under every key: a title that the wiki has, trimmed; tags of both where the
      wiki lists some; everything else from the bundle before the wiki; and for a missing id, type,
      sensitivity or title what the path or the body suggests. */
  lemma MergedSays(lib: Lib, okfFm: Frontmatter, wikiFm: Frontmatter, wikiBody: string, relPath: string, key: string)
    ensures var own, wikis := OwnElse(okfFm, wikiFm, key), Lookup(wikiFm, key);
            Lookup(Merged(lib, okfFm, wikiFm, wikiBody, relPath), key) ==
              if key == "title" && wikis.Some? && wikis.value.Words? && Trim(wikis.value.text) != "" then
                Some(Words(Trim(wikis.value.text)))
              else if key == "tags" && wikis.Some? && wikis.value.List? then
                var mine := Lookup(okfFm, "tags");
                Some(List(lib.mergeTags(if mine.Some? && mine.value.List? then mine.value.items else [],
                                        wikis.value.items)))
              else if !Blank(own) then own
              else if key == "id" then Some(Words(lib.slug(relPath)))
              else if key == "type" then Some(Words("Concept"))
              else if key == "sensitivity" then Some(Words("internal"))
              else if key == "title" then Some(Words(lib.title(wikiBody, relPath)))
              else own
  {
    var both := wikiFm + okfFm;
    KeysDiffer(key);
    T.IdentityMerged(lib, both, relPath, key);
    T.IdentityMerged(lib, both, relPath, "title");
    BlankSaysNothing(both, key);
    assert Lookup(both, key) == OwnElse(okfFm, wikiFm, key);
    var typed := WithDefault(WithDefault(both, "id", Words(lib.slug(relPath))), "type", Words("Concept"));
    var filled := WithDefault(typed, "sensitivity", Words("internal"));
    TitleMerged(lib, filled, wikiFm, wikiBody, relPath, key);
    TagsMerged(lib, TitledFrom(lib, filled, wikiFm, wikiBody, relPath), okfFm, wikiFm, key);
  }

  lemma TitleMerged(lib: Lib, fm: Frontmatter, wikiFm: Frontmatter, wikiBody: string, relPath: string, key: string)
    ensures var title := Lookup(wikiFm, "title");
            Lookup(TitledFrom(lib, fm, wikiFm, wikiBody, relPath), key) ==
              if key != "title" then Lookup(fm, key)
              else if title.Some? && title.value.Words? && Trim(title.value.text) != "" then
                Some(Words(Trim(title.value.text)))
              else if Blank(Lookup(fm, "title")) then Some(Words(lib.title(wikiBody, relPath)))
              else Lookup(fm, "title")
  {
    BlankSaysNothing(fm, "title");
  }

  lemma TagsMerged(lib: Lib, fm: Frontmatter, okfFm: Frontmatter, wikiFm: Frontmatter, key: string)
    ensures var tags, mine := Lookup(wikiFm, "tags"), Lookup(okfFm, "tags");
            Lookup(TaggedFrom(lib, fm, okfFm, wikiFm), key) ==
              if key != "tags" || tags.None? || !tags.value.List? then Lookup(fm, key)
              else Some(List(lib.mergeTags(if mine.Some? && mine.value.List? then mine.value.items else [],
                                           tags.value.items)))
  {
  }

  lemma KeysDiffer(key: string)
    ensures key == "tags" ==> key !in {"id", "type", "sensitivity", "title"}
    ensures key == "title" ==> key !in {"id", "type", "sensitivity"}
    ensures T.Required(key) <==> key in {"id", "type", "sensitivity"}
  {
    assert "tags"[1] == 'a' && "type"[1] == 'y' && |"title"| == 5 && |"id"| == 2 && |"sensitivity"| == 11;
  }

  /** The keys that are reported as preserved. */
  lemma PreservedSays(okfFm: Frontmatter, key: string)
    ensures key in PreservedKeys(okfFm) <==>
              key in okfFm
              && key in {"id", "type", "sensitivity", "owners", "ttlDays", "status", "freshnessClass", "depends_on",
                         "mitigates", "references", "supersedes", "replacedBy"}
  {
    assert key in GOVERNED_OKF_KEYS <==>
             key in {"id", "type", "sensitivity", "owners", "ttlDays", "status", "freshnessClass", "depends_on",
                     "mitigates", "references", "supersedes", "replacedBy"};
  }

  // ---------- Decisions and reports ----------

  /** The body is not the recorded one, or none is recorded. */
  predicate Moved(lib: Lib, slot: Slot, raw: string) {
    slot.entry.None? || slot.entry.value.baseBodyHash == ""
    || slot.entry.value.baseBodyHash != lib.hash(T.BodyOf(lib, raw))
  }

  predicate Differ(lib: Lib, slot: Slot) {
    slot.okf.Some? && slot.wiki.Some? && T.BodyOf(lib, slot.okf.value) != T.BodyOf(lib, slot.wiki.value)
  }

  /** Both were edited, and neither direction was given to decide it. */
  predicate Contested(lib: Lib, options: Options, slot: Slot) {
    && Differ(lib, slot) && options.direction == Bidirectional
    && Moved(lib, slot, slot.okf.value) && Moved(lib, slot, slot.wiki.value)
  }

  /** The wiki's version replaces the bundle's: a pull, an edit on the wiki alone, or by strategy. */
  predicate WikiWins(lib: Lib, options: Options, slot: Slot) {
    && Differ(lib, slot)
    && (options.direction == Pull
        || (!Moved(lib, slot, slot.okf.value) && Moved(lib, slot, slot.wiki.value))
        || (Contested(lib, options, slot) && options.strategy == PreferWiki))
  }

  /** The bundle's version replaces the wiki's: a push, an edit in the bundle alone, or by strategy. */
  predicate OkfWins(lib: Lib, options: Options, slot: Slot) {
    && Differ(lib, slot) && options.direction != Pull
    && (if Moved(lib, slot, slot.wiki.value) && !Moved(lib, slot, slot.okf.value) then false
        else options.direction == Push || !Moved(lib, slot, slot.wiki.value) || options.strategy == PreferOkf)
  }

  /** The action that a path is reported with, if any, by what the two directories hold. */
  lemma ActionExactly(lib: Lib, options: Options, slot: Slot, p: string)
    requires T.Lawful(lib)
    ensures var actions := ActionFor(lib, options, slot, p);
            && (actions == [] <==> (slot.okf.None? && (slot.wiki.None? || options.direction == Push))
                                   || (slot.wiki.None? && options.direction == Pull))
            && |actions| <= 1
            && forall a :: a in actions ==>
                 && a.relPath == p
                 && (a.kind == ImportedToOkf <==> slot.okf.None?)
                 && (a.kind == ExportedToWiki <==> slot.wiki.None?)
                 && (a.kind == InSync <==> T.Agree(lib, slot))
                 && (a.kind == UpdatedOkf <==> WikiWins(lib, options, slot))
                 && (a.kind == UpdatedWiki <==> OkfWins(lib, options, slot))
                 && (a.kind == Conflicting <==> Contested(lib, options, slot) && options.strategy == Fail)
                 && a.preservedKeys == if a.kind in {ImportedToOkf, UpdatedOkf}
                                       then PreservedKeys(T.FieldsIn(lib, slot.okf)) else []
  {
    DecisionExactly(lib, options, slot);
    if slot.okf.Some? && slot.wiki.Some? { T.SameMeansAgree(lib, options, slot); }
  }

  lemma DecisionExactly(lib: Lib, options: Options, slot: Slot)
    requires T.Lawful(lib)
    ensures var d := DecisionOf(lib, options, slot);
            && (slot.okf.Some? && slot.wiki.Some? ==>
                  && (d == Same <==> T.Agree(lib, slot))
                  && (d == Clash <==> Contested(lib, options, slot))
                  && (TakesWiki(options, d) <==> WikiWins(lib, options, slot))
                  && (TakesOkf(options, d) <==> OkfWins(lib, options, slot)))
  {
    if slot.okf.Some? && slot.wiki.Some? {
      T.SameMeansAgree(lib, options, slot);
      assert HashOf(lib, slot.okf.value) == lib.hash(T.BodyOf(lib, slot.okf.value));
      assert HashOf(lib, slot.wiki.value) == lib.hash(T.BodyOf(lib, slot.wiki.value));
    }
  }

  /** What an action did: the wiki's body, or the bundle's, is on the other side and recorded; a path in
      sync is recorded, one in conflict left alone. In a dry run nothing is done. */
  lemma ActionDoes(lib: Lib, options: Options, slot: Slot, p: string, a: Action)
    requires T.Lawful(lib) && a in ActionFor(lib, options, slot, p)
    ensures var after := SlotAfter(lib, options, slot, p);
            if options.dryRun || a.kind == Conflicting then after == slot
            else if a.kind in {ImportedToOkf, UpdatedOkf} then CopiedFromWiki(lib, slot, after)
            else if a.kind in {ExportedToWiki, UpdatedWiki} then CopiedToWiki(lib, slot, after)
            else after.okf == slot.okf && after.wiki == slot.wiki && slot.okf.Some?
                 && Records(lib, after.entry, slot.okf.value)
  {
    var d := DecisionOf(lib, options, slot);
    KindBy(lib, options, d, slot, p, a);
    if TakesWiki(options, d) {
      WithWikiCopies(lib, slot, p);
    } else if TakesOkf(options, d) {
      WithOkfCopies(lib, slot);
    }
  }

  lemma KindBy(lib: Lib, options: Options, d: Decision, slot: Slot, p: string, a: Action)
    requires a in ActionBy(lib, options, d, slot, p)
    ensures a.kind in {ImportedToOkf, UpdatedOkf} <==> TakesWiki(options, d)
    ensures a.kind in {ExportedToWiki, UpdatedWiki} <==> TakesOkf(options, d)
    ensures a.kind == InSync <==> d.Same?
  {
  }

  predicate CopiedFromWiki(lib: Lib, slot: Slot, after: Slot) {
    && after.wiki == slot.wiki && after.okf.Some? && slot.wiki.Some?
    && T.BodyOf(lib, after.okf.value) == Normalized(T.BodyOf(lib, slot.wiki.value))
    && Records(lib, after.entry, slot.wiki.value)
  }

  predicate CopiedToWiki(lib: Lib, slot: Slot, after: Slot) {
    && after.okf == slot.okf && after.wiki.Some? && slot.okf.Some?
    && T.BodyOf(lib, after.wiki.value) == Normalized(T.BodyOf(lib, slot.okf.value))
    && Records(lib, after.entry, slot.okf.value)
  }

  lemma WithWikiCopies(lib: Lib, slot: Slot, p: string)
    requires T.Lawful(lib) && slot.wiki.Some?
    ensures CopiedFromWiki(lib, slot, WithWiki(lib, slot, p))
  {
    T.OkfReads(lib, T.FieldsIn(lib, slot.okf), slot.wiki.value, p);
  }

  lemma WithOkfCopies(lib: Lib, slot: Slot)
    requires T.Lawful(lib) && slot.okf.Some?
    ensures CopiedToWiki(lib, slot, WithOkf(lib, slot))
  {
    T.WikiReads(lib, slot.okf.value);
  }

  /** The manifest holds the hash of this file's body, three times. */
  predicate Records(lib: Lib, entry: Option<Entry>, raw: string) {
    var hash := lib.hash(T.BodyOf(lib, raw));
    entry == Some(Entry(baseBodyHash := hash, okfBodyHash := hash, wikiBodyHash := hash))
  }
}
