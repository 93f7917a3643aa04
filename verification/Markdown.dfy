/** Markdown files with YAML frontmatter: reading them apart and writing them back, line ends included. */
module Markdown {
  import opened Basics
  import opened Text
  import opened CanonicalJson

  /** What a frontmatter field holds. */
  datatype Datum =
    | Nothing
    | Flag(on: bool)
    | Number(numeral: Numeral)
    | Words(text: string)
    | List(items: seq<Datum>)
    | Mapping(fields: map<string, Datum>)

  type Frontmatter = map<string, Datum>

  /** What the YAML reader makes of a block. */
  datatype Loaded = Fails | NotAMapping | Loads(fm: Frontmatter)

  /** The YAML library. */
  datatype Yaml = Yaml(load: string -> Loaded, dump: Frontmatter -> string)

  /** The line that starts behind position j starts with three dashes. */
  ghost predicate DashedLine(text: string, j: int) { 0 <= j <= |text| - 4 && text[j..j + 4] == "\n---" }

  /** No line after the first starts with three dashes. */
  ghost predicate NoFence(text: string) { forall j :: !DashedLine(text, j) }

  /** What the library writes it reads back, in lines without carriage returns, none of which
      looks like a fence. */
  ghost predicate RoundTrips(yaml: Yaml) {
    forall fm :: yaml.load(yaml.dump(fm)) == Loads(fm) && '\r' !in yaml.dump(fm) && NoFence(yaml.dump(fm))
  }

  /** Nothing of these fields is lost when the program trims what the library wrote. */
  predicate TrimKeeps(yaml: Yaml, fm: Frontmatter) { yaml.load(Trim(yaml.dump(fm))) == Loads(fm) }

  /** Trimmed or not, what the library wrote can be read. */
  ghost predicate TrimLoads(yaml: Yaml) { forall fm :: !yaml.load(Trim(yaml.dump(fm))).Fails? }

  /** Windows line ends become plain ones; a lone carriage return stays. */
  function Crlf(s: string): string {
    if s == "" then ""
    else if |s| >= 2 && s[0] == '\r' && s[1] == '\n' then "\n" + Crlf(s[2..])
    else [s[0]] + Crlf(s[1..])
  }

  function IndexOf(s: string, pattern: string, from: nat): (index: Option<nat>)
    requires from <= |s|
    ensures index.Some? ==> from <= index.value && index.value + |pattern| <= |s|
    decreases |s| - from
  {
    if StartsWith(s[from..], pattern) then Some(from)
    else if from == |s| then None
    else IndexOf(s, pattern, from + 1)
  }

  datatype Parts = Parts(frontmatter: Frontmatter, body: string)

  const FENCE := "\n---\n"

  function ParseMarkdownParts(yaml: Yaml, raw: string): Parts {
    var normalized := Crlf(raw);
    if !StartsWith(normalized, "---\n") then Parts(map[], Trim(normalized))
    else
      var end := IndexOf(normalized, FENCE, 4);
      if end.None? then Parts(map[], Trim(normalized))
      else
        match yaml.load(normalized[4..end.value])
        case Fails => Parts(map[], Trim(normalized))
        case NotAMapping => Parts(map[], Trim(normalized[end.value + 5..]))
        case Loads(fm) => Parts(fm, Trim(normalized[end.value + 5..]))
  }

  function SerializeMarkdownParts(yaml: Yaml, fm: Frontmatter, body: string): string {
    "---\n" + (Trim(yaml.dump(fm)) + (FENCE + ("\n" + (Trim(body) + "\n"))))
  }

  /** The body as it is hashed. */
  function Normalized(body: string): string { Trim(Crlf(body)) }

  // ---------- Line ends ----------

  lemma {:induction false} CrlfConcat(a: string, b: string)
    requires a == "" || a[|a| - 1] != '\r' || b == "" || b[0] != '\n'
    ensures Crlf(a + b) == Crlf(a) + Crlf(b)
  {
    if a == "" {
      assert a + b == b;
    } else if |a| >= 2 && a[0] == '\r' && a[1] == '\n' {
      assert (a + b)[2..] == a[2..] + b;
      CrlfConcat(a[2..], b);
    } else {
      assert (a + b)[1..] == a[1..] + b;
      CrlfConcat(a[1..], b);
    }
  }

  ghost predicate HasCrlf(s: string) { exists i :: 0 <= i < |s| - 1 && s[i] == '\r' && s[i + 1] == '\n' }

  lemma {:induction false} CrlfExactly(s: string)
    ensures Crlf(s) == s <==> !HasCrlf(s)
    ensures |Crlf(s)| <= |s|
    ensures HasCrlf(s) ==> |Crlf(s)| < |s|
  {
    if s == "" {
    } else if |s| >= 2 && s[0] == '\r' && s[1] == '\n' {
      CrlfExactly(s[2..]);
    } else {
      CrlfExactly(s[1..]);
      if HasCrlf(s) {
        var i :| 0 <= i < |s| - 1 && s[i] == '\r' && s[i + 1] == '\n';
        assert s[1..][i - 1] == '\r' && s[1..][i] == '\n';
      }
      if HasCrlf(s[1..]) {
        var i :| 0 <= i < |s[1..]| - 1 && s[1..][i] == '\r' && s[1..][i + 1] == '\n';
        assert s[i + 1] == '\r' && s[i + 2] == '\n';
      }
      assert s == [s[0]] + s[1..];
    }
  }

  lemma NoReturnsStay(s: string)
    requires '\r' !in s
    ensures Crlf(s) == s
  {
    CrlfExactly(s);
  }

  // ---------- Reading back what was written ----------

  lemma {:induction false} FirstAt(s: string, pattern: string, from: nat, at: nat)
    requires from <= at <= |s| && StartsWith(s[at..], pattern)
    requires forall i :: from <= i < at ==> !StartsWith(s[i..], pattern)
    ensures IndexOf(s, pattern, from) == Some(at)
    decreases at - from
  {
    if from < at { FirstAt(s, pattern, from + 1, at); }
  }

  lemma NoEarlierFence(block: string, rest: string, i: nat)
    requires NoFence(block) && 4 <= i < 4 + |block|
    ensures !StartsWith(("---\n" + (block + (FENCE + rest)))[i..], FENCE)
  {
    var s := "---\n" + (block + (FENCE + rest));
    var j := i - 4;
    if StartsWith(s[i..], FENCE) {
      var found := s[i..][..5];
      assert found[0] == '\n' && found[1] == '-' && found[2] == '-' && found[3] == '-' && found[4] == '\n';
      FenceInside(block, rest, j);
    }
  }

  lemma FenceInside(block: string, rest: string, j: nat)
    requires j < |block|
    requires var s := "---\n" + (block + (FENCE + rest));
             s[j + 4] == '\n' && s[j + 5] == '-' && s[j + 6] == '-' && s[j + 7] == '-' && s[j + 8] == '\n'
    ensures !NoFence(block)
  {
    var s := "---\n" + (block + (FENCE + rest));
    assert s[4 + |block|] == '\n';
    assert forall k :: 0 <= k < |block| ==> s[k + 4] == block[k];
    assert j + 4 <= |block|;
    assert DashedLine(block, j);
  }

  lemma SliceHasNoFence(text: string, k: nat, m: nat)
    requires k + m <= |text|
    ensures NoFence(text) ==> NoFence(text[k..][..m])
  {
    var slice := text[k..][..m];
    if j :| DashedLine(slice, j) {
      assert forall i :: 0 <= i < m ==> slice[i] == text[k + i];
      assert DashedLine(text, k + j) by { assert text[k + j..k + j + 4] == slice[j..j + 4]; }
    }
  }

  lemma TrimHasNoFence(text: string)
    ensures NoFence(text) ==> NoFence(Trim(text))
  {
    TrimStartSuffix(text);
    var k :| 0 <= k <= |text| && TrimStart(text) == text[k..];
    TrimEndPrefix(text[k..]);
    var m :| 0 <= m <= |text[k..]| && Trim(text) == text[k..][..m];
    SliceHasNoFence(text, k, m);
  }

  function FieldsOf(loaded: Loaded): Frontmatter { if loaded.Loads? then loaded.fm else map[] }

  lemma ParseFenced(yaml: Yaml, raw: string, block: string, rest: string)
    requires Crlf(raw) == "---\n" + (block + (FENCE + rest)) && NoFence(block) && !yaml.load(block).Fails?
    ensures ParseMarkdownParts(yaml, raw) == Parts(FieldsOf(yaml.load(block)), Trim(rest))
  {
    var normalized, end := Crlf(raw), 4 + |block|;
    assert normalized[..4] == "---\n";
    FenceFound(block, rest);
    assert normalized[4..end] == block;
    assert normalized[end + 5..] == rest;
  }

  /** What is written reads back with the body normalised once more, and with the same frontmatter
      if trimming keeps it. */
  lemma ParseSerialize(yaml: Yaml, fm: Frontmatter, body: string)
    requires RoundTrips(yaml) && TrimLoads(yaml)
    ensures var parts := ParseMarkdownParts(yaml, SerializeMarkdownParts(yaml, fm, body));
            && parts.body == Normalized(Trim(body))
            && (TrimKeeps(yaml, fm) ==> parts.frontmatter == fm)
  {
    var block, text := Trim(yaml.dump(fm)), Trim(body);
    TrimTrims(yaml.dump(fm));
    TrimHasNoFence(yaml.dump(fm));
    TrimTrims(body);
    WrittenLineEnds(block, text);
    TrimLineEnds(Crlf(text));
    ParseFenced(yaml, SerializeMarkdownParts(yaml, fm, body), block, "\n" + (Crlf(text) + "\n"));
  }

  lemma WrittenLineEnds(block: string, text: string)
    requires '\r' !in block && Trimmed(text)
    ensures Crlf("---\n" + (block + (FENCE + ("\n" + (text + "\n")))))
         == "---\n" + (block + (FENCE + ("\n" + (Crlf(text) + "\n"))))
  {
    CrlfConcat("---\n", block + (FENCE + ("\n" + (text + "\n"))));
    CrlfConcat(block, FENCE + ("\n" + (text + "\n")));
    CrlfConcat(FENCE, "\n" + (text + "\n"));
    CrlfConcat("\n", text + "\n");
    CrlfConcat(text, "\n");
    NoReturnsStay("---\n");
    NoReturnsStay(block);
    NoReturnsStay(FENCE);
    NoReturnsStay("\n");
  }

  lemma FenceFound(block: string, rest: string)
    requires NoFence(block)
    ensures IndexOf("---\n" + (block + (FENCE + rest)), FENCE, 4) == Some(4 + |block|)
  {
    var s := "---\n" + (block + (FENCE + rest));
    assert s[4 + |block|..] == FENCE + rest;
    forall i | 4 <= i < 4 + |block| ensures !StartsWith(s[i..], FENCE) { NoEarlierFence(block, rest, i); }
    FirstAt(s, FENCE, 4, 4 + |block|);
  }

  /** Line ends around a text do not matter to trimming. */
  lemma TrimLineEnds(text: string)
    ensures Trim("\n" + (text + "\n")) == Trim(text)
  {
    TrimStartPadded("\n", text + "\n");
    TrimInside(text);
  }

  lemma {:induction false} TrimInside(text: string)
    ensures Trim(text + "\n") == Trim(text)
  {
    if text == "" {
      assert text + "\n" == "\n" && TrimStart("\n") == TrimStart("\n"[1..]) == "";
    } else if IsSpace(text[0]) {
      assert (text + "\n")[1..] == text[1..] + "\n";
      TrimInside(text[1..]);
    } else {
      TrimEndPadded(text, "\n");
      assert (text + "\n")[0] == text[0];
    }
  }

  lemma ParsedBodyTrimmed(yaml: Yaml, raw: string)
    ensures Trimmed(ParseMarkdownParts(yaml, raw).body)
  {
    var normalized := Crlf(raw);
    TrimTrims(normalized);
    if StartsWith(normalized, "---\n") {
      var end := IndexOf(normalized, FENCE, 4);
      if end.Some? { TrimTrims(normalized[end.value + 5..]); }
    }
  }

  /** A body that normalising twice leaves as normalising once. */
  predicate Settled(body: string) { Normalized(Normalized(body)) == Normalized(body) }

  /** That is, one without a carriage return before a Windows line end. */
  lemma SettledExactly(body: string)
    ensures Settled(body) <==> !HasCrlf(Normalized(body))
  {
    var once := Normalized(body);
    TrimTrims(Crlf(body));
    CrlfExactly(once);
    TrimTrims(Crlf(once));
    if HasCrlf(once) { TrimShortens(Crlf(once)); }
  }

  /** A body that is not settled. */
  lemma DoubleReturnUnsettled()
    ensures !Settled("a\r\r\nb")
  {
    var once := "a\r\nb";
    assert "a\r\r\nb"[1..] == "\r\r\nb" && "\r\r\nb"[1..] == "\r\nb" && "\r\nb"[2..] == "b" && "b"[1..] == "";
    assert Crlf("\r\nb") == "\nb" && Crlf("\r\r\nb") == "\r\nb";
    assert Crlf("a\r\r\nb") == once;
    TrimTrims(once);
    assert HasCrlf(once) by { assert once[1] == '\r' && once[2] == '\n'; }
    SettledExactly("a\r\r\nb");
  }

  lemma TrimShortens(s: string)
    ensures |Trim(s)| <= |s|
  {
    TrimStartSuffix(s);
    TrimEndPrefix(TrimStart(s));
  }
}
