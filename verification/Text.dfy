/** Strings as the programs handle them: trimming white space in JavaScript's sense, splitting into
    pieces at a separator, and joining pieces, which splitting undoes where they lack the separator. */
module Text {

  /** White space and line ends in the sense of JavaScript's trim and of \s. */
  predicate IsSpace(c: char) {
    var n := c as int;
    9 <= n <= 13 || n == 32 || n == 160 || n == 0x1680 || 0x2000 <= n <= 0x200A
    || n == 0x2028 || n == 0x2029 || n == 0x202F || n == 0x205F || n == 0x3000 || n == 0xFEFF
  }

  predicate StartsWith(s: string, prefix: string) { |prefix| <= |s| && s[..|prefix|] == prefix }

  function TrimStart(s: string): string { if s != "" && IsSpace(s[0]) then TrimStart(s[1..]) else s }

  function TrimEnd(s: string): string { if s != "" && IsSpace(s[|s| - 1]) then TrimEnd(s[..|s| - 1]) else s }

  function Trim(s: string): string { TrimEnd(TrimStart(s)) }

  /** No white space at either end. */
  predicate Trimmed(s: string) { s == "" || (!IsSpace(s[0]) && !IsSpace(s[|s| - 1])) }

  /** Every character of a occurs in b. */
  ghost predicate DrawnFrom(a: string, b: string) { forall c :: c in a ==> c in b }

  lemma {:induction false} TrimStartSuffix(s: string)
    ensures exists k :: 0 <= k <= |s| && TrimStart(s) == s[k..] && (k > 0 ==> IsSpace(s[k - 1]))
    ensures TrimStart(s) == "" || !IsSpace(TrimStart(s)[0])
    ensures DrawnFrom(TrimStart(s), s)
  {
    if s != "" && IsSpace(s[0]) {
      TrimStartSuffix(s[1..]);
      var k :| 0 <= k <= |s[1..]| && TrimStart(s[1..]) == s[1..][k..] && (k > 0 ==> IsSpace(s[1..][k - 1]));
      assert TrimStart(s) == s[k + 1..];
    } else {
      assert s == s[0..];
    }
  }

  lemma {:induction false} TrimEndPrefix(s: string)
    ensures exists k :: 0 <= k <= |s| && TrimEnd(s) == s[..k]
    ensures TrimEnd(s) == "" || (!IsSpace(TrimEnd(s)[|TrimEnd(s)| - 1]) && TrimEnd(s)[0] == s[0])
    ensures DrawnFrom(TrimEnd(s), s)
  {
    if s != "" && IsSpace(s[|s| - 1]) {
      TrimEndPrefix(s[..|s| - 1]);
      var k :| 0 <= k <= |s| - 1 && TrimEnd(s[..|s| - 1]) == s[..|s| - 1][..k];
      assert TrimEnd(s) == s[..k];
    } else {
      assert s == s[..|s|];
    }
  }

  /** Trimming removes white space at the ends and nothing else. */
  lemma TrimTrims(s: string)
    ensures Trimmed(Trim(s)) && DrawnFrom(Trim(s), s)
    ensures Trimmed(s) <==> Trim(s) == s
  {
    TrimStartSuffix(s);
    TrimEndPrefix(TrimStart(s));
    TrimEndPrefix(s);
  }

  lemma {:induction false} TrimStartPadded(pad: string, s: string)
    requires forall c :: c in pad ==> IsSpace(c)
    ensures TrimStart(pad + s) == TrimStart(s)
  {
    if pad == "" {
      assert pad + s == s;
    } else {
      assert (pad + s)[1..] == pad[1..] + s;
      TrimStartPadded(pad[1..], s);
    }
  }

  lemma {:induction false} TrimEndPadded(s: string, pad: string)
    requires forall c :: c in pad ==> IsSpace(c)
    ensures TrimEnd(s + pad) == TrimEnd(s)
  {
    if pad == "" {
      assert s + pad == s;
    } else {
      assert (s + pad)[..|s + pad| - 1] == s + pad[..|pad| - 1];
      TrimEndPadded(s, pad[..|pad| - 1]);
    }
  }

  /** A trimmed text comes out of any padding unchanged. */
  lemma TrimPadded(left: string, s: string, right: string)
    requires Trimmed(s) && forall c :: c in left || c in right ==> IsSpace(c)
    ensures Trim(left + (s + right)) == s
  {
    TrimStartPadded(left, s + right);
    TrimTrims(s);
    if s == "" {
      assert s + right == right + "";
      TrimStartPadded(right, "");
    } else {
      TrimEndPadded(s, right);
      assert (s + right)[0] == s[0];
    }
  }

  // ---------- Lines ----------

  /** The text between the separators; always at least one piece. */
  function Split(s: string, separator: char): (pieces: seq<string>)
    ensures |pieces| >= 1
  {
    if s == "" then [""]
    else
      var rest := Split(s[1..], separator);
      if s[0] == separator then [""] + rest else [[s[0]] + rest[0]] + rest[1..]
  }

  function Join(pieces: seq<string>, separator: char): string {
    if pieces == [] then ""
    else if |pieces| == 1 then pieces[0]
    else pieces[0] + ([separator] + Join(pieces[1..], separator))
  }

  lemma {:induction false} SplitPieces(s: string, separator: char)
    ensures forall p :: p in Split(s, separator) ==> separator !in p && DrawnFrom(p, s)
  {
    if s != "" {
      SplitPieces(s[1..], separator);
      var rest := Split(s[1..], separator);
      assert rest[0] in rest;
      assert forall p :: p in rest[1..] ==> p in rest;
    }
  }

  /** A piece without the separator is split off whole. */
  lemma {:induction false} SplitAfter(piece: string, rest: string, separator: char)
    requires separator !in piece
    ensures Split(piece + ([separator] + rest), separator) == [piece] + Split(rest, separator)
    ensures Split(piece, separator) == [piece]
  {
    var s := piece + ([separator] + rest);
    if piece == "" {
      assert s == [separator] + rest && s[1..] == rest;
    } else {
      SplitAfter(piece[1..], rest, separator);
      assert s[1..] == piece[1..] + ([separator] + rest);
      assert piece == [piece[0]] + piece[1..];
    }
  }

  /** Splitting undoes joining, for pieces without the separator. */
  lemma {:induction false} SplitJoin(pieces: seq<string>, separator: char)
    requires pieces != [] && forall p :: p in pieces ==> separator !in p
    ensures Split(Join(pieces, separator), separator) == pieces
  {
    if |pieces| == 1 {
      SplitAfter(pieces[0], "", separator);
    } else {
      assert forall p :: p in pieces[1..] ==> p in pieces;
      SplitJoin(pieces[1..], separator);
      SplitAfter(pieces[0], Join(pieces[1..], separator), separator);
      assert pieces == [pieces[0]] + pieces[1..];
    }
  }
}
