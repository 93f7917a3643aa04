/** Frontmatter written as JSON, which is YAML: a library and a hash that meet every premise of the
    synchronisation theorems, and a library for which trimming what it wrote loses something. */
module JsonFrontmatter {
  import opened Text
  import opened CanonicalJson
  import opened Markdown
  import MerkleTree
  import WikiSync
  import WikiSyncTheorems

  function ToValue(d: Datum): (v: Value)
    ensures v != Undefined
  {
    match d
    case Nothing => Null
    case Flag(on) => Bool(on)
    case Number(numeral) => Num(numeral)
    case Words(text) => Str(text)
    case List(items) => Arr(seq(|items|, i requires 0 <= i < |items| => ToValue(items[i])))
    case Mapping(fields) => Obj(map k | k in fields :: ToValue(fields[k]))
  }

  lemma {:induction false} ToValueInjective(d: Datum, e: Datum)
    requires ToValue(d) == ToValue(e)
    ensures d == e
  {
    match d
    case List(items) =>
      forall i | 0 <= i < |items| ensures items[i] == e.items[i] {
        assert ToValue(items[i]) == ToValue(d).items[i] == ToValue(e).items[i] == ToValue(e.items[i]);
        ToValueInjective(items[i], e.items[i]);
      }
    case Mapping(fields) =>
      assert ToValue(d).fields.Keys == fields.Keys && ToValue(e).fields.Keys == e.fields.Keys;
      forall k | k in fields ensures fields[k] == e.fields[k] {
        assert ToValue(fields[k]) == ToValue(d).fields[k] == ToValue(e).fields[k] == ToValue(e.fields[k]);
        ToValueInjective(fields[k], e.fields[k]);
      }
    case _ =>
  }

  /** A frontmatter has nothing that JSON cannot say. */
  lemma {:induction false} ToValueIsPlain(d: Datum)
    ensures Plain(ToValue(d)) == ToValue(d)
  {
    match d
    case List(items) =>
      forall i | 0 <= i < |items| ensures Plain(ToValue(items[i])) == ToValue(items[i]) { ToValueIsPlain(items[i]); }
    case Mapping(fields) =>
      forall k | k in fields ensures Plain(ToValue(fields[k])) == ToValue(fields[k]) { ToValueIsPlain(fields[k]); }
    case _ =>
  }

  // ---------- The text ----------

  /** No control characters, so no line ends. */
  ghost predicate OneLine(s: string) { forall i :: 0 <= i < |s| ==> ' ' <= s[i] }

  lemma {:induction false} EscapeAllOneLine(s: string)
    ensures OneLine(EscapeAll(s))
  {
    if s != "" {
      EscapeAllOneLine(s[1..]);
      assert OneLine(Escape(s[0]));
    }
  }

  lemma QuoteOneLine(s: string)
    ensures OneLine(Quote(s))
  {
    EscapeAllOneLine(s);
  }

  lemma {:induction false} CanonicalOneLine(v: Value)
    ensures OneLine(Canonical(v))
    decreases v, 1, 0
  {
    match v
    case Num(numeral) => forall i | 0 <= i < |numeral| ensures ' ' <= numeral[i] { assert NumeralChar(numeral[i]); }
    case Str(text) => QuoteOneLine(text);
    case Arr(items) => ItemsOneLine(v, 0);
    case Obj(fields) => FieldsOneLine(v, SortedKeys(Defined(fields)), true);
    case _ =>
  }

  lemma {:induction false} ItemsOneLine(v: Value, i: nat)
    requires v.Arr? && i <= |v.items|
    ensures OneLine(Items(v, i))
    decreases v, 0, |v.items| - i
  {
    if i < |v.items| {
      CanonicalOneLine(v.items[i]);
      ItemsOneLine(v, i + 1);
    }
  }

  lemma {:induction false} FieldsOneLine(v: Value, keys: seq<string>, first: bool)
    requires v.Obj? && forall k :: k in keys ==> k in v.fields
    ensures OneLine(Fields(v, keys, first)) && EndsInBrace(Fields(v, keys, first))
    decreases v, 0, |keys|
  {
    if keys != [] {
      var value, rest := Canonical(v.fields[keys[0]]), Fields(v, keys[1..], false);
      QuoteOneLine(keys[0]);
      CanonicalOneLine(v.fields[keys[0]]);
      FieldsOneLine(v, keys[1..], false);
      assert OneLine(value + rest) && EndsInBrace(value + rest);
      assert OneLine(Quote(keys[0]) + (":" + (value + rest)));
    }
  }

  ghost predicate EndsInBrace(s: string) { s != "" && s[|s| - 1] == '}' }

  function Dump(fm: Frontmatter): string { Canonical(ToValue(Mapping(fm))) }

  lemma DumpInjective(fm: Frontmatter, other: Frontmatter)
    requires Dump(fm) == Dump(other)
    ensures fm == other
  {
    CanonicalInjective(ToValue(Mapping(fm)), ToValue(Mapping(other)));
    ToValueIsPlain(Mapping(fm));
    ToValueIsPlain(Mapping(other));
    ToValueInjective(Mapping(fm), Mapping(other));
  }

  lemma DumpIsTrimmedLine(fm: Frontmatter)
    ensures OneLine(Dump(fm)) && Trim(Dump(fm)) == Dump(fm)
  {
    var v := ToValue(Mapping(fm));
    var keys := SortedKeys(Defined(v.fields));
    CanonicalOneLine(v);
    FieldsOneLine(v, keys, true);
    assert Dump(fm)[0] == '{' && EndsInBrace(Dump(fm));
    TrimTrims(Dump(fm));
  }

  lemma OneLineHasNoFence(s: string)
    requires OneLine(s)
    ensures NoFence(s) && '\r' !in s
  {
    forall j ensures !DashedLine(s, j) {
      if 0 <= j <= |s| - 4 { assert s[j..j + 4][0] == s[j]; }
    }
  }

  // ---------- The libraries ----------

  ghost function Load(s: string): Loaded {
    if fm :| Dump(fm) == s then Loads(fm) else Fails
  }

  ghost function JsonYaml(): Yaml { Yaml(Load, Dump) }

  lemma LoadOfDump(fm: Frontmatter)
    ensures Load(Dump(fm)) == Loads(fm)
  {
    var other :| Dump(other) == Dump(fm) && Load(Dump(fm)) == Loads(other);
    DumpInjective(other, fm);
  }

  lemma JsonYamlRoundTrips()
    ensures RoundTrips(JsonYaml()) && TrimLoads(JsonYaml()) && forall fm :: TrimKeeps(JsonYaml(), fm)
  {
    var yaml := JsonYaml();
    forall fm
      ensures yaml.load(yaml.dump(fm)) == Loads(fm) && '\r' !in yaml.dump(fm) && NoFence(yaml.dump(fm))
      ensures yaml.load(Trim(yaml.dump(fm))) == Loads(fm)
    {
      LoadOfDump(fm);
      DumpIsTrimmedLine(fm);
      OneLineHasNoFence(Dump(fm));
    }
    forall fm ensures TrimKeeps(yaml, fm) { assert yaml.load(Trim(yaml.dump(fm))) == Loads(fm); }
  }

  /** The premises of the synchronisation theorems can be met together. */
  lemma SomeLibIsLawful()
    ensures var lib := WikiSync.Lib(JsonYaml(), MerkleTree.SpeltDigest, (path: string) => path,
                                    (body: string, path: string) => path, (xs: seq<Datum>, ys: seq<Datum>) => xs);
            WikiSyncTheorems.Lawful(lib) && forall fm :: TrimKeeps(lib.yaml, fm)
  {
    JsonYamlRoundTrips();
    MerkleTree.PremisesHoldOfSomeHash();
  }

  const PADDED: Frontmatter := map["note" := Words("\n\n")]

  function PaddedText(): string { Dump(map[]) + "\n\n" }

  /** A library that tells one frontmatter from the empty one by the line ends behind it. */
  ghost function PaddedYaml(): Yaml {
    Yaml((s: string) => if s == PaddedText() then Loads(PADDED) else Load(s),
         (fm: Frontmatter) => if fm == PADDED then PaddedText() else Dump(fm))
  }

  lemma PaddedTextIsSafe()
    ensures '\r' !in PaddedText() && NoFence(PaddedText()) && Trim(PaddedText()) == Dump(map[])
            && !OneLine(PaddedText())
  {
    var line, text := Dump(map[]), PaddedText();
    DumpIsTrimmedLine(map[]);
    OneLineHasNoFence(line);
    TrimTrims(line);
    TrimPadded("", line, "\n\n");
    assert text == "" + (line + "\n\n");
    assert text[|line|] == '\n' && text[|line| + 1] == '\n';
    forall j ensures !DashedLine(text, j) {
      if 0 <= j <= |text| - 4 { assert text[j..j + 4][0] == text[j] && text[j..j + 4][1] == text[j + 1]; }
    }
  }

  /** Round trips of the library do not suffice: trimming what it wrote can lose a field. */
  lemma TrimMayLose()
    ensures RoundTrips(PaddedYaml()) && TrimLoads(PaddedYaml()) && !TrimKeeps(PaddedYaml(), PADDED)
  {
    var yaml := PaddedYaml();
    PaddedTextIsSafe();
    LoadOfDump(map[]);
    assert "note" in PADDED;
    forall fm
      ensures yaml.load(yaml.dump(fm)) == Loads(fm) && '\r' !in yaml.dump(fm) && NoFence(yaml.dump(fm))
      ensures !yaml.load(Trim(yaml.dump(fm))).Fails?
    {
      LoadOfDump(fm);
      DumpIsTrimmedLine(fm);
      OneLineHasNoFence(Dump(fm));
    }
  }
}
