/** The Merkle root, and exactly when it binds its leaves. */
module MerkleTree {
  import opened Basics

  type Hash = string -> string

  /** No two texts share a digest. */
  ghost predicate CollisionFree(sha: Hash) {
    forall s, t :: sha(s) == sha(t) ==> s == t
  }

  /** Digests are printed in hexadecimal: never empty, never with a colon. */
  ghost predicate Hexadecimal(sha: Hash) {
    forall s :: sha(s) != "" && ':' !in sha(s)
  }

  /** Colons and semicolons spelt out. */
  function Spelt(s: string): (r: string)
    ensures ':' !in r
  {
    if s == "" then "" else (if s[0] == ':' then ";c" else if s[0] == ';' then ";s" else [s[0]]) + Spelt(s[1..])
  }

  function SpeltDigest(s: string): string { "#" + Spelt(s) }

  lemma {:induction false} SpeltInjective(s: string, t: string)
    requires Spelt(s) == Spelt(t)
    ensures s == t
  {
    if s != "" && t != "" {
      var l, r := Spelt(s), Spelt(t);
      assert l[0] == r[0];
      if l[0] == ';' { assert l[1] == r[1]; }
      assert s[0] == t[0];
      var k := if l[0] == ';' then 2 else 1;
      assert Spelt(s[1..]) == l[k..] == r[k..] == Spelt(t[1..]);
      SpeltInjective(s[1..], t[1..]);
      assert s == [s[0]] + s[1..] && t == [t[0]] + t[1..];
    }
  }

  /** The two premises can be met together. */
  lemma PremisesHoldOfSomeHash()
    ensures CollisionFree(SpeltDigest) && Hexadecimal(SpeltDigest)
  {
    forall s, t | SpeltDigest(s) == SpeltDigest(t) ensures s == t {
      assert Spelt(s) == SpeltDigest(s)[1..] == SpeltDigest(t)[1..] == Spelt(t);
      SpeltInjective(s, t);
    }
  }

  function Joined(left: string, right: string): string { left + (":" + right) }

  /** The level above: neighbours are joined and hashed, an odd last one with itself. */
  function NextLevel(sha: Hash, level: seq<string>): (next: seq<string>)
    ensures |next| == (|level| + 1) / 2
  {
    if level == [] then []
    else if |level| == 1 then [sha(Joined(level[0], level[0]))]
    else [sha(Joined(level[0], level[1]))] + NextLevel(sha, level[2..])
  }

  function Root(sha: Hash, level: seq<string>): string
    requires level != []
    decreases |level|
  {
    if |level| == 1 then level[0] else Root(sha, NextLevel(sha, level))
  }

  // ---------- The loops ----------

  method HashPairs(sha: Hash, level: seq<string>) returns (next: seq<string>)
    ensures next == NextLevel(sha, level)
  {
    next := [];
    var i := 0;
    while i < |level|
      invariant 0 <= i
      invariant NextLevel(sha, level) == next + if i < |level| then NextLevel(sha, level[i..]) else []
    {
      var left := level[i];
      var right := if i + 1 < |level| then level[i + 1] else left;
      PairStep(sha, level, i);
      next := next + [sha(Joined(left, right))];
      i := i + 2;
    }
  }

  lemma PairStep(sha: Hash, level: seq<string>, i: nat)
    requires i < |level|
    ensures NextLevel(sha, level[i..])
         == [sha(Joined(level[i], if i + 1 < |level| then level[i + 1] else level[i]))]
            + if i + 2 < |level| then NextLevel(sha, level[i + 2..]) else []
  {
    if i + 1 < |level| { assert level[i..][2..] == level[i + 2..]; }
  }

  method ComputeRoot(sha: Hash, leaves: seq<string>) returns (root: string)
    requires leaves != []
    ensures root == Root(sha, leaves)
  {
    var level := leaves;
    while |level| > 1
      invariant level != [] && Root(sha, level) == Root(sha, leaves)
      decreases |level|
    {
      level := HashPairs(sha, level);
    }
    root := level[0];
  }

  // ---------- Binding ----------

  /** A leaf that is hashed together with a different leaf. */
  predicate Paired(i: nat, n: nat) { i % 2 == 1 || i + 1 < n }

  ghost predicate Separable(level: seq<string>) {
    forall i :: 0 <= i < |level| && Paired(i, |level|) ==> ':' !in level[i]
  }

  lemma OneColon(l: string, r: string, k: nat)
    requires ':' !in l && ':' !in r && k < |Joined(l, r)|
    ensures Joined(l, r)[k] == ':' <==> k == |l|
  {
    if k < |l| { assert Joined(l, r)[k] == l[k]; }
    if k > |l| { assert Joined(l, r)[k] == r[k - |l| - 1]; }
  }

  lemma JoinedSplits(l: string, r: string, x: string, y: string)
    requires Joined(l, r) == Joined(x, y) && ':' !in l && ':' !in r
    ensures l == x && r == y
  {
    var text := Joined(l, r);
    assert text[|x|] == ':';
    OneColon(l, r, |x|);
    assert l == text[..|l|] == x;
    assert r == text[|l| + 1..] == y;
  }

  lemma DoubledSplits(l: string, x: string)
    requires Joined(l, l) == Joined(x, x)
    ensures l == x
  {
    assert |Joined(l, l)| == 2 * |l| + 1 && |Joined(x, x)| == 2 * |x| + 1;
    assert l == Joined(l, l)[..|l|] == Joined(x, x)[..|x|] == x;
  }

  lemma {:induction false} LevelBinds(sha: Hash, level: seq<string>, other: seq<string>)
    requires CollisionFree(sha) && Separable(level) && |other| == |level|
    requires NextLevel(sha, level) == NextLevel(sha, other)
    ensures level == other
  {
    if |level| == 1 {
      assert NextLevel(sha, level)[0] == NextLevel(sha, other)[0];
      DoubledSplits(level[0], other[0]);
    } else if |level| > 1 {
      assert NextLevel(sha, level)[0] == NextLevel(sha, other)[0];
      assert Paired(0, |level|) && Paired(1, |level|);
      JoinedSplits(level[0], level[1], other[0], other[1]);
      assert NextLevel(sha, level)[1..] == NextLevel(sha, level[2..]);
      assert NextLevel(sha, other)[1..] == NextLevel(sha, other[2..]);
      RestSeparable(level);
      LevelBinds(sha, level[2..], other[2..]);
      assert level == [level[0], level[1]] + level[2..] && other == [other[0], other[1]] + other[2..];
    }
  }

  lemma RestSeparable(level: seq<string>)
    requires Separable(level) && |level| > 1
    ensures Separable(level[2..])
  {
    forall i | 0 <= i < |level[2..]| && Paired(i, |level[2..]|) ensures ':' !in level[2..][i] {
      assert Paired(i + 2, |level|) && level[2..][i] == level[i + 2];
    }
  }

  lemma {:induction false} NextLevelIsHexadecimal(sha: Hash, level: seq<string>)
    requires Hexadecimal(sha)
    ensures forall i :: 0 <= i < |NextLevel(sha, level)| ==> ':' !in NextLevel(sha, level)[i]
  {
    if |level| > 1 { NextLevelIsHexadecimal(sha, level[2..]); }
  }

  /** Two leaf lists of one length and one root are one list, if the paired leaves of either
      have no colon. */
  lemma {:induction false} RootBinds(sha: Hash, leaves: seq<string>, other: seq<string>)
    requires CollisionFree(sha) && Hexadecimal(sha) && Separable(leaves)
    requires leaves != [] && |other| == |leaves| && Root(sha, leaves) == Root(sha, other)
    ensures leaves == other
    decreases |leaves|
  {
    if |leaves| > 1 {
      NextLevelIsHexadecimal(sha, leaves);
      RootBinds(sha, NextLevel(sha, leaves), NextLevel(sha, other));
      LevelBinds(sha, leaves, other);
    }
  }

  /** A colon inside a leaf can be taken for the separator. */
  lemma Shifted(l: string, r: string) returns (x: string, y: string)
    requires ':' in l || ':' in r
    ensures Joined(x, y) == Joined(l, r) && x != l
  {
    if ':' in l {
      var k :| 0 <= k < |l| && l[k] == ':';
      x, y := l[..k], l[k + 1..] + (":" + r);
      assert l == l[..k] + (":" + l[k + 1..]);
    } else {
      var k :| 0 <= k < |r| && r[k] == ':';
      x, y := l + (":" + r[..k]), r[k + 1..];
      assert r == r[..k] + (":" + r[k + 1..]);
    }
  }

  lemma {:induction false} NextLevelUpdate(sha: Hash, level: seq<string>, k: nat, x: string, y: string)
    requires 2 * k + 1 < |level| && Joined(x, y) == Joined(level[2 * k], level[2 * k + 1])
    ensures NextLevel(sha, level[2 * k := x][2 * k + 1 := y]) == NextLevel(sha, level)
  {
    var other := level[2 * k := x][2 * k + 1 := y];
    if k == 0 {
      assert other[2..] == level[2..];
    } else {
      assert other[2..] == level[2..][2 * (k - 1) := x][2 * (k - 1) + 1 := y];
      NextLevelUpdate(sha, level[2..], k - 1, x, y);
    }
  }

  ghost predicate Binding(sha: Hash, leaves: seq<string>)
    requires leaves != []
  {
    forall other :: |other| == |leaves| && Root(sha, other) == Root(sha, leaves) ==> other == leaves
  }

  lemma ColonBreaks(sha: Hash, leaves: seq<string>, i: nat)
    requires i < |leaves| && Paired(i, |leaves|) && ':' in leaves[i]
    ensures !Binding(sha, leaves)
  {
    var k := i / 2;
    var x, y := Shifted(leaves[2 * k], leaves[2 * k + 1]);
    NextLevelUpdate(sha, leaves, k, x, y);
    var other := leaves[2 * k := x][2 * k + 1 := y];
    assert |other| == |leaves| && Root(sha, other) == Root(sha, leaves) && other[2 * k] != leaves[2 * k];
  }

  /** The root binds the leaves, among all lists of their length, exactly when no leaf that is
      hashed with another one holds a colon. */
  lemma BindingExactly(sha: Hash, leaves: seq<string>)
    requires CollisionFree(sha) && Hexadecimal(sha) && leaves != []
    ensures Binding(sha, leaves) <==> Separable(leaves)
  {
    if Separable(leaves) {
      forall other | |other| == |leaves| && Root(sha, other) == Root(sha, leaves) ensures other == leaves {
        RootBinds(sha, leaves, other);
      }
    } else {
      var i :| 0 <= i < |leaves| && Paired(i, |leaves|) && ':' in leaves[i];
      ColonBreaks(sha, leaves, i);
    }
  }

  // ---------- Lists of any length ----------

  /** A text that no two neighbours without colons hash to. */
  ghost predicate NoNode(sha: Hash, text: string) {
    !exists l, r :: ':' !in l && ':' !in r && text == sha(Joined(l, r))
  }

  /** The right neighbour, or the last one itself. */
  function RightOf(level: seq<string>, k: nat): string
    requires 2 * k < |level|
  {
    level[if 2 * k + 1 < |level| then 2 * k + 1 else 2 * k]
  }

  lemma {:induction false} NextLevelAt(sha: Hash, level: seq<string>, k: nat)
    requires 2 * k < |level|
    ensures NextLevel(sha, level)[k] == sha(Joined(level[2 * k], RightOf(level, k)))
  {
    if k > 0 {
      assert 2 * (k - 1) < |level[2..]|;
      NextLevelAt(sha, level[2..], k - 1);
    }
  }

  lemma RootOfMany(sha: Hash, leaves: seq<string>) returns (l: string, r: string)
    requires |leaves| > 1
    ensures Root(sha, leaves) == sha(Joined(l, r))
    decreases |leaves|
  {
    if |leaves| == 2 {
      l, r := leaves[0], leaves[1];
      NextLevelAt(sha, leaves, 0);
    } else {
      l, r := RootOfMany(sha, NextLevel(sha, leaves));
    }
  }

  /** Every list with this root has this length. */
  ghost predicate LengthBound(sha: Hash, leaves: seq<string>)
    requires leaves != []
  {
    forall other :: other != [] && Root(sha, other) == Root(sha, leaves) ==> |other| == |leaves|
  }

  /** The root binds the number of leaves only for a single leaf that is no digest of two joined
      texts: any longer list shares its root with the level above it. */
  lemma LengthBoundExactly(sha: Hash, leaves: seq<string>)
    requires leaves != []
    ensures LengthBound(sha, leaves) <==> |leaves| == 1 && !exists l, r :: leaves[0] == sha(Joined(l, r))
  {
    if |leaves| > 1 {
      var above := NextLevel(sha, leaves);
      assert above != [] && Root(sha, above) == Root(sha, leaves) && |above| != |leaves|;
    } else if l, r :| leaves[0] == sha(Joined(l, r)) {
      var two := [l, r];
      NextLevelAt(sha, two, 0);
      assert two != [] && Root(sha, two) == Root(sha, leaves) && |two| != |leaves|;
    } else {
      forall other | other != [] && Root(sha, other) == Root(sha, leaves) ensures |other| == |leaves| {
        if |other| > 1 { var l, r := RootOfMany(sha, other); }
      }
    }
  }

  lemma {:induction false} RepeatedTail(sha: Hash, level: seq<string>)
    requires |level| % 2 == 1
    ensures NextLevel(sha, level + [level[|level| - 1]]) == NextLevel(sha, level)
  {
    var longer := level + [level[|level| - 1]];
    if |level| > 1 {
      RepeatedTail(sha, level[2..]);
      assert longer[2..] == level[2..] + [level[2..][|level[2..]| - 1]];
    }
  }

  /** Nor does a longer list of leaves always show: repeating the last of an odd number of leaves,
      three or more, keeps the root. */
  lemma RepeatedTailKeepsRoot(sha: Hash, leaves: seq<string>)
    requires |leaves| % 2 == 1 && |leaves| >= 3
    ensures Root(sha, leaves + [leaves[|leaves| - 1]]) == Root(sha, leaves)
  {
    RepeatedTail(sha, leaves);
  }

  /** Different texts without colons. */
  ghost predicate Clear(level: seq<string>) {
    NoDuplicates(level) && forall i :: 0 <= i < |level| ==> ':' !in level[i]
  }

  lemma NodesSplit(sha: Hash, level: seq<string>, other: seq<string>, j: nat, k: nat)
    requires CollisionFree(sha) && Clear(level) && 2 * j < |level| && 2 * k < |other|
    requires NextLevel(sha, level)[j] == NextLevel(sha, other)[k]
    ensures level[2 * j] == other[2 * k] && RightOf(level, j) == RightOf(other, k)
  {
    NextLevelAt(sha, level, j);
    NextLevelAt(sha, other, k);
    JoinedSplits(level[2 * j], RightOf(level, j), other[2 * k], RightOf(other, k));
  }

  lemma NextLevelIsClear(sha: Hash, level: seq<string>)
    requires CollisionFree(sha) && Hexadecimal(sha) && Clear(level)
    ensures Clear(NextLevel(sha, level))
  {
    NextLevelIsHexadecimal(sha, level);
    var next := NextLevel(sha, level);
    forall j, k | 0 <= j < k < |next| ensures next[j] != next[k] {
      if next[j] == next[k] { NodesSplit(sha, level, level, j, k); }
    }
  }

  /** One level of different texts is known from the level above it, its length included. */
  lemma ClearLevelBinds(sha: Hash, level: seq<string>, other: seq<string>)
    requires CollisionFree(sha) && Clear(level) && Clear(other)
    requires NextLevel(sha, level) == NextLevel(sha, other)
    ensures level == other
  {
    if |level| != |other| {
      var k := |NextLevel(sha, level)| - 1;
      NodesSplit(sha, level, other, k, k);
    } else {
      LevelBinds(sha, level, other);
    }
  }

  /** level is one of the levels over leaves. */
  ghost predicate Above(sha: Hash, level: seq<string>, leaves: seq<string>)
    decreases |leaves|
  {
    level == leaves || (|leaves| > 1 && Above(sha, level, NextLevel(sha, leaves)))
  }

  lemma {:induction false} RootIsAbove(sha: Hash, leaves: seq<string>)
    requires leaves != []
    ensures Above(sha, [Root(sha, leaves)], leaves)
    decreases |leaves|
  {
    if |leaves| > 1 { RootIsAbove(sha, NextLevel(sha, leaves)); }
  }

  lemma {:induction false} AboveDescends(sha: Hash, level: seq<string>, leaves: seq<string>)
    requires CollisionFree(sha) && Hexadecimal(sha) && Clear(level) && Clear(leaves) && |leaves| > 1
    requires Above(sha, NextLevel(sha, level), NextLevel(sha, leaves))
    ensures Above(sha, level, leaves)
    decreases |leaves|
  {
    if NextLevel(sha, level) == NextLevel(sha, leaves) {
      ClearLevelBinds(sha, level, leaves);
    } else {
      NextLevelIsClear(sha, leaves);
      AboveDescends(sha, level, NextLevel(sha, leaves));
    }
  }

  /** With one root, one list is a level over the other. */
  lemma {:induction false} SameRootAbove(sha: Hash, a: seq<string>, b: seq<string>)
    requires CollisionFree(sha) && Hexadecimal(sha) && Clear(a) && Clear(b) && a != [] && b != []
    requires Root(sha, a) == Root(sha, b)
    ensures Above(sha, a, b) || Above(sha, b, a)
    decreases |a| + |b|
  {
    RootIsAbove(sha, a);
    RootIsAbove(sha, b);
    if |a| == 1 {
      assert a == [Root(sha, b)];
    } else if |b| == 1 {
      assert b == [Root(sha, a)];
    } else {
      NextLevelIsClear(sha, a);
      NextLevelIsClear(sha, b);
      SameRootAbove(sha, NextLevel(sha, a), NextLevel(sha, b));
      if Above(sha, NextLevel(sha, a), NextLevel(sha, b)) { AboveDescends(sha, a, b); }
      else { AboveDescends(sha, b, a); }
    }
  }

  lemma {:induction false} AboveIsNode(sha: Hash, level: seq<string>, leaves: seq<string>)
    requires Hexadecimal(sha) && Clear(leaves) && leaves != [] && level != leaves && Above(sha, level, leaves)
    requires CollisionFree(sha)
    ensures level != [] && !NoNode(sha, level[0])
    decreases |leaves|
  {
    if level == NextLevel(sha, leaves) {
      NextLevelAt(sha, leaves, 0);
      assert ':' !in leaves[0] && ':' !in RightOf(leaves, 0);
    } else {
      NextLevelIsClear(sha, leaves);
      AboveIsNode(sha, level, NextLevel(sha, leaves));
    }
  }

  /** Different leaves without colons, the first of them no inner node. */
  ghost predicate Original(sha: Hash, leaves: seq<string>) {
    leaves != [] && Clear(leaves) && NoNode(sha, leaves[0])
  }

  /** Among such lists, of whatever lengths, the root is the list. */
  lemma OriginalRootBinds(sha: Hash, a: seq<string>, b: seq<string>)
    requires CollisionFree(sha) && Hexadecimal(sha) && Original(sha, a) && Original(sha, b)
    ensures Root(sha, a) == Root(sha, b) <==> a == b
  {
    if Root(sha, a) == Root(sha, b) && a != b {
      SameRootAbove(sha, a, b);
      if Above(sha, a, b) { AboveIsNode(sha, a, b); } else { AboveIsNode(sha, b, a); }
    }
  }

  lemma RootOfTwo(sha: Hash, a: string, b: string)
    ensures NextLevel(sha, [a, b]) == [sha(a + ":" + b)] && Root(sha, [a, b]) == sha(a + ":" + b)
  {
    assert [a, b][2..] == [] && NextLevel(sha, []) == [];
    assert Joined(a, b) == a + ":" + b;
  }

  /** Left comes before right: the root of one, two and three leaves. */
  lemma SmallRoots(sha: Hash, a: string, b: string, c: string)
    ensures Root(sha, [a]) == a
    ensures Root(sha, [a, b]) == sha(a + ":" + b)
    ensures Root(sha, [a, b, c]) == sha(sha(a + ":" + b) + ":" + sha(c + ":" + c))
  {
    RootOfTwo(sha, a, b);
    RootOfTwo(sha, sha(a + ":" + b), sha(c + ":" + c));
    var three := [a, b, c];
    assert three[2..] == [c] && NextLevel(sha, [c]) == [sha(Joined(c, c))];
    assert Joined(a, b) == a + ":" + b && Joined(c, c) == c + ":" + c;
    assert NextLevel(sha, three) == [sha(a + ":" + b), sha(c + ":" + c)];
    assert Root(sha, three) == Root(sha, NextLevel(sha, three));
  }
}
