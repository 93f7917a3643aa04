/** Canonical JSON with sorted keys, as the audit ledger hashes it, and which values share a text. */
module CanonicalJson {

  predicate NumeralChar(c: char) { '0' <= c <= '9' || c in "+-.e" }

  predicate IsNumeral(s: string) {
    s != "" && ('0' <= s[0] <= '9' || s[0] == '-') && forall c :: c in s ==> NumeralChar(c)
  }

  /** A finite number, known by the text that JSON.stringify prints for it. */
  type Numeral = s: string | IsNumeral(s) witness "0"

  datatype Value =
    | Undefined
    | Null
    | Bool(truth: bool)
    | Num(numeral: Numeral)
    | Str(text: string)
    | Arr(items: seq<Value>)
    | Obj(fields: map<string, Value>)

  /** The keys of the fields that are defined. */
  function Defined(fields: map<string, Value>): set<string> {
    set k | k in fields && fields[k] != Undefined
  }

  /** The value as JSON can say it: undefined reads as null, and undefined fields are dropped. */
  function Plain(v: Value): Value {
    match v
    case Undefined => Null
    case Arr(items) => Arr(seq(|items|, i requires 0 <= i < |items| => Plain(items[i])))
    case Obj(fields) => Obj(map k | k in Defined(fields) :: Plain(fields[k]))
    case _ => v
  }

  // ---------- Keys in order ----------

  predicate LexLeq(a: string, b: string) {
    a == "" || (b != "" && (a[0] < b[0] || (a[0] == b[0] && LexLeq(a[1..], b[1..]))))
  }

  lemma {:induction false} LexTotal(a: string, b: string)
    ensures LexLeq(a, b) || LexLeq(b, a)
  {
    if a != "" && b != "" && a[0] == b[0] { LexTotal(a[1..], b[1..]); }
  }

  lemma {:induction false} LexTransitive(a: string, b: string, c: string)
    requires LexLeq(a, b) && LexLeq(b, c)
    ensures LexLeq(a, c)
  {
    if a != "" && a[0] == b[0] == c[0] { LexTransitive(a[1..], b[1..], c[1..]); }
  }

  lemma {:induction false} LexAntisymmetric(a: string, b: string)
    requires LexLeq(a, b) && LexLeq(b, a)
    ensures a == b
  {
    if a != "" {
      LexAntisymmetric(a[1..], b[1..]);
      assert a == [a[0]] + a[1..];
    }
  }

  predicate IsLeast(keys: set<string>, k: string) {
    k in keys && forall o :: o in keys ==> LexLeq(k, o)
  }

  lemma {:induction false} LeastExists(keys: set<string>)
    requires keys != {}
    ensures exists k :: IsLeast(keys, k)
    decreases |keys|
  {
    var k :| k in keys;
    var rest := keys - {k};
    LexTotal(k, k);
    if rest == {} {
      assert keys == {k};
      assert IsLeast(keys, k);
    } else {
      LeastExists(rest);
      var l :| IsLeast(rest, l);
      LexTotal(k, l);
      if LexLeq(l, k) {
        assert IsLeast(keys, l);
      } else {
        forall o | o in keys ensures LexLeq(k, o) { if o != k { LexTransitive(k, l, o); } }
        assert IsLeast(keys, k);
      }
    }
  }

  function Least(keys: set<string>): (k: string)
    requires keys != {}
    ensures IsLeast(keys, k)
  {
    LeastExists(keys);
    LeastUnique(keys);
    var k :| k in keys && IsLeast(keys, k);
    k
  }

  lemma LeastUnique(keys: set<string>)
    ensures forall k, l :: IsLeast(keys, k) && IsLeast(keys, l) ==> k == l
  {
    forall k, l | IsLeast(keys, k) && IsLeast(keys, l) ensures k == l { LexAntisymmetric(k, l); }
  }

  /** The keys of an object in ascending order. */
  function SortedKeys(keys: set<string>): (sorted: seq<string>)
    ensures forall k :: k in sorted <==> k in keys
    decreases |keys|
  {
    if keys == {} then [] else [Least(keys)] + SortedKeys(keys - {Least(keys)})
  }

  lemma {:induction false} KeysAscend(keys: set<string>)
    ensures forall i, j :: 0 <= i < j < |SortedKeys(keys)| ==>
              SortedKeys(keys)[i] != SortedKeys(keys)[j] && LexLeq(SortedKeys(keys)[i], SortedKeys(keys)[j])
    decreases |keys|
  {
    if keys != {} {
      var k := Least(keys);
      KeysAscend(keys - {k});
      assert forall o :: o in SortedKeys(keys - {k}) ==> o in keys && o != k;
    }
  }

  // ---------- Printing ----------

  function HexDigit(n: nat): (c: char)
    requires n < 16
  {
    "0123456789abcdef"[n]
  }

  /** One character inside a JSON string. */
  function Escape(c: char): (s: string)
    ensures s != ""
  {
    if c == '"' then "\\\""
    else if c == '\\' then "\\\\"
    else if c == '\n' then "\\n"
    else if c == '\r' then "\\r"
    else if c == '\t' then "\\t"
    else if c as int == 8 then "\\b"
    else if c as int == 12 then "\\f"
    else if c as int < 32 then "\\u00" + [HexDigit(c as int / 16), HexDigit(c as int % 16)]
    else [c]
  }

  function EscapeAll(s: string): string {
    if s == "" then "" else Escape(s[0]) + EscapeAll(s[1..])
  }

  function Quote(s: string): string { "\"" + (EscapeAll(s) + "\"") }

  function Comma(first: bool): string { if first then "" else "," }

  function Canonical(v: Value): (s: string)
    decreases v, 1, 0
  {
    match v
    case Undefined => "null"
    case Null => "null"
    case Bool(truth) => if truth then "true" else "false"
    case Num(numeral) => numeral
    case Str(text) => Quote(text)
    case Arr(items) => "[" + Items(v, 0)
    case Obj(fields) => "{" + Fields(v, SortedKeys(Defined(fields)), true)
  }

  /** The items from position i on, separated by commas, and the closing bracket. */
  function Items(v: Value, i: nat): string
    requires v.Arr? && i <= |v.items|
    decreases v, 0, |v.items| - i
  {
    if i == |v.items| then "]"
    else Comma(i == 0) + (Canonical(v.items[i]) + Items(v, i + 1))
  }

  /** The fields under the given keys, separated by commas, and the closing brace. */
  function Fields(v: Value, keys: seq<string>, first: bool): string
    requires v.Obj? && forall k :: k in keys ==> k in v.fields
    decreases v, 0, |keys|
  {
    if keys == [] then "}"
    else
      Comma(first) + (Quote(keys[0]) + (":" + (Canonical(v.fields[keys[0]]) + Fields(v, keys[1..], false))))
  }

  // ---------- Reading it back ----------

  lemma Cancel(p: string, x: string, y: string)
    requires p + x == p + y
    ensures x == y
  {
    assert x == (p + x)[|p|..] == (p + y)[|p|..] == y;
  }

  lemma Regroup(p: string, q: string, x: string)
    ensures (p + q) + x == p + (q + x)
  {
  }

  /** What may follow a complete value. */
  ghost predicate Ends(x: string) { x == "" || x[0] in ",]}" }

  lemma PlainEscape(c: char)
    ensures Escape(c)[0] != '\\' ==> Escape(c) == [c]
    ensures Escape(c)[0] == '\\' ==> |Escape(c)| == if Escape(c)[1] == 'u' then 6 else 2
  {
  }

  lemma ShortEscape(c: char, d: char)
    requires Escape(c)[0] == '\\' && Escape(d)[0] == '\\' && |Escape(c)| == 2 && |Escape(d)| == 2
    requires Escape(c)[1] == Escape(d)[1]
    ensures c == d
  {
  }

  lemma HexEscape(c: char, d: char)
    requires |Escape(c)| == 6 && |Escape(d)| == 6
    requires Escape(c)[4] == Escape(d)[4] && Escape(c)[5] == Escape(d)[5]
    ensures c == d
  {
    assert Escape(c)[4] == HexDigit(c as int / 16) && Escape(c)[5] == HexDigit(c as int % 16);
    assert Escape(d)[4] == HexDigit(d as int / 16) && Escape(d)[5] == HexDigit(d as int % 16);
    HexInjective(c as int / 16, d as int / 16);
    HexInjective(c as int % 16, d as int % 16);
    assert c as int == d as int;
  }

  lemma HexInjective(n: nat, m: nat)
    requires n < 16 && m < 16 && HexDigit(n) == HexDigit(m)
    ensures n == m
  {
    assert forall i, j :: 0 <= i < j < 16 ==> "0123456789abcdef"[i] != "0123456789abcdef"[j];
  }

  lemma EscapeReadable(c: char, d: char, x: string, y: string)
    requires Escape(c) + x == Escape(d) + y
    ensures c == d && x == y
  {
    var l, r := Escape(c) + x, Escape(d) + y;
    PlainEscape(c);
    PlainEscape(d);
    assert l[0] == Escape(c)[0] && r[0] == Escape(d)[0];
    if Escape(c)[0] == '\\' {
      assert l[1] == Escape(c)[1] && r[1] == Escape(d)[1];
      if Escape(c)[1] == 'u' {
        assert l[4] == Escape(c)[4] && r[4] == Escape(d)[4] && l[5] == Escape(c)[5] && r[5] == Escape(d)[5];
        HexEscape(c, d);
      } else {
        ShortEscape(c, d);
      }
    }
    Cancel(Escape(c), x, y);
  }

  lemma EscapeNoQuote(c: char)
    ensures Escape(c)[0] != '"'
  {
  }

  lemma QuoteStops(s: string, z: string)
    requires s != ""
    ensures (EscapeAll(s) + z)[0] != '"'
  {
    EscapeNoQuote(s[0]);
  }

  /** Escaped text up to the closing quote, where p and q start with that quote. */
  lemma {:induction false} EscapedReadable(s: string, t: string, p: string, q: string)
    requires EscapeAll(s) + p == EscapeAll(t) + q
    requires p != "" && q != "" && p[0] == q[0] == '"'
    ensures s == t && p == q
  {
    if s == "" || t == "" {
      if s != "" { QuoteStops(s, p); }
      if t != "" { QuoteStops(t, q); }
      Cancel("", p, q);
    } else {
      Regroup(Escape(s[0]), EscapeAll(s[1..]), p);
      Regroup(Escape(t[0]), EscapeAll(t[1..]), q);
      EscapeReadable(s[0], t[0], EscapeAll(s[1..]) + p, EscapeAll(t[1..]) + q);
      EscapedReadable(s[1..], t[1..], p, q);
      assert s == [s[0]] + s[1..] && t == [t[0]] + t[1..];
    }
  }

  lemma StringReadable(s: string, t: string, x: string, y: string)
    requires Quote(s) + x == Quote(t) + y
    ensures s == t && x == y
  {
    QuoteSplit(s, x);
    QuoteSplit(t, y);
    Cancel("\"", EscapeAll(s) + ("\"" + x), EscapeAll(t) + ("\"" + y));
    EscapedReadable(s, t, "\"" + x, "\"" + y);
    Cancel("\"", x, y);
  }

  lemma QuoteSplit(s: string, x: string)
    ensures Quote(s) + x == "\"" + (EscapeAll(s) + ("\"" + x))
  {
    Regroup("\"", EscapeAll(s) + "\"", x);
    Regroup(EscapeAll(s), "\"", x);
  }

  lemma NumeralStops(n: string, m: string, x: string, y: string)
    requires |n| < |m| && Ends(x) && forall c :: c in m ==> NumeralChar(c)
    ensures n + x != m + y
  {
    var l := n + x;
    assert m[|n|] in m && (m + y)[|n|] == m[|n|];
    if |l| > |n| { assert l[|n|] == x[0]; }
  }

  lemma NumeralReadable(n: string, m: string, x: string, y: string)
    requires n + x == m + y && Ends(x) && Ends(y)
    requires forall c :: c in n || c in m ==> NumeralChar(c)
    ensures n == m && x == y
  {
    if |n| < |m| { NumeralStops(n, m, x, y); }
    if |m| < |n| { NumeralStops(m, n, y, x); }
    assert n == (n + x)[..|n|] == (m + y)[..|m|] == m;
    Cancel(n, x, y);
  }

  /** The first character of a value's text says which kind of value it is. */
  ghost predicate Starts(v: Value, c: char) {
    match v
    case Undefined => c == 'n'
    case Null => c == 'n'
    case Bool(truth) => c == if truth then 't' else 'f'
    case Num(_) => '0' <= c <= '9' || c == '-'
    case Str(_) => c == '"'
    case Arr(_) => c == '['
    case Obj(_) => c == '{'
  }

  lemma FirstCharacter(v: Value)
    ensures Canonical(v) != "" && Starts(v, Canonical(v)[0])
  {
  }

  lemma ItemsEnd(v: Value, i: nat, x: string)
    requires v.Arr? && 0 < i <= |v.items|
    ensures Ends(Items(v, i) + x)
  {
  }

  lemma FieldsEnd(v: Value, keys: seq<string>, x: string)
    requires v.Obj? && forall k :: k in keys ==> k in v.fields
    ensures Ends(Fields(v, keys, false) + x)
  {
  }

  /** Two values whose texts start one string alike, each followed by a separator or nothing,
      are one value, as far as JSON can say. */
  lemma {:induction false} Readable(v: Value, w: Value, x: string, y: string)
    requires Canonical(v) + x == Canonical(w) + y && Ends(x) && Ends(y)
    ensures Plain(v) == Plain(w) && x == y
    decreases v, 1, 0
  {
    SameKind(v, w, x, y);
    match v
    case Undefined => Cancel("null", x, y);
    case Null => Cancel("null", x, y);
    case Bool(truth) => Cancel(Canonical(v), x, y);
    case Num(numeral) => NumeralReadable(numeral, w.numeral, x, y);
    case Str(text) => StringReadable(text, w.text, x, y);
    case Arr(items) =>
      Regroup("[", Items(v, 0), x);
      Regroup("[", Items(w, 0), y);
      Cancel("[", Items(v, 0) + x, Items(w, 0) + y);
      ItemsReadable(v, w, 0, x, y);
      assert Plain(v).items == Plain(w).items;
    case Obj(fields) =>
      var ks, ls := SortedKeys(Defined(fields)), SortedKeys(Defined(w.fields));
      Regroup("{", Fields(v, ks, true), x);
      Regroup("{", Fields(w, ls, true), y);
      Cancel("{", Fields(v, ks, true) + x, Fields(w, ls, true) + y);
      FieldsReadable(v, ks, w, ls, true, x, y);
      SameFields(fields, w.fields);
  }

  lemma SameKind(v: Value, w: Value, x: string, y: string)
    requires Canonical(v) + x == Canonical(w) + y
    ensures (v.Null? || v.Undefined?) == (w.Null? || w.Undefined?)
    ensures v.Num? == w.Num? && v.Str? == w.Str? && v.Arr? == w.Arr? && v.Obj? == w.Obj?
    ensures v.Bool? ==> w == v
  {
    FirstCharacter(v);
    FirstCharacter(w);
    assert (Canonical(v) + x)[0] == (Canonical(w) + y)[0];
  }

  lemma SameDefined(f: map<string, Value>, g: map<string, Value>)
    requires SortedKeys(Defined(f)) == SortedKeys(Defined(g))
    ensures Defined(f) == Defined(g)
  {
    forall k ensures k in Defined(f) <==> k in Defined(g) {
      assert k in Defined(f) <==> k in SortedKeys(Defined(f));
      assert k in Defined(g) <==> k in SortedKeys(Defined(g));
    }
  }

  lemma SameFields(f: map<string, Value>, g: map<string, Value>)
    requires SortedKeys(Defined(f)) == SortedKeys(Defined(g))
    requires forall k :: k in SortedKeys(Defined(f)) ==> k in f && k in g && Plain(f[k]) == Plain(g[k])
    ensures Plain(Obj(f)) == Plain(Obj(g))
  {
    SameDefined(f, g);
    var a, b := Plain(Obj(f)).fields, Plain(Obj(g)).fields;
    assert a.Keys == Defined(f) && b.Keys == Defined(g);
    forall k | k in Defined(f) ensures a[k] == b[k] { assert k in SortedKeys(Defined(f)); }
    assert a == b;
  }

  /** A closing bracket cannot be taken for a further item. */
  lemma BothEnd(v: Value, w: Value, i: nat, x: string, y: string)
    requires v.Arr? && w.Arr? && i <= |v.items| && i <= |w.items|
    requires Items(v, i) + x == Items(w, i) + y
    ensures i == |v.items| <==> i == |w.items|
  {
    if i < |v.items| { FirstCharacter(v.items[i]); }
    if i < |w.items| { FirstCharacter(w.items[i]); }
    assert (Items(v, i) + x)[0] == (Items(w, i) + y)[0];
  }

  lemma ItemsSplit(v: Value, i: nat, x: string)
    requires v.Arr? && i < |v.items|
    ensures Items(v, i) + x == Comma(i == 0) + (Canonical(v.items[i]) + (Items(v, i + 1) + x))
  {
    Regroup(Comma(i == 0), Canonical(v.items[i]) + Items(v, i + 1), x);
    Regroup(Canonical(v.items[i]), Items(v, i + 1), x);
  }

  /** One item read on both sides, and what is left. */
  lemma FirstItems(v: Value, w: Value, i: nat, x: string, y: string, a: string, b: string)
    requires v.Arr? && w.Arr? && i < |v.items| && i < |w.items|
    requires Items(v, i) + x == Items(w, i) + y
    requires a == Items(v, i + 1) + x && b == Items(w, i + 1) + y
    ensures Canonical(v.items[i]) + a == Canonical(w.items[i]) + b && Ends(a) && Ends(b)
  {
    ItemsEnd(v, i + 1, x);
    ItemsEnd(w, i + 1, y);
    ItemsSplit(v, i, x);
    ItemsSplit(w, i, y);
    Cancel(Comma(i == 0), Canonical(v.items[i]) + a, Canonical(w.items[i]) + b);
  }

  lemma {:induction false} ItemsReadable(v: Value, w: Value, i: nat, x: string, y: string)
    requires v.Arr? && w.Arr? && i <= |v.items| && i <= |w.items|
    requires Items(v, i) + x == Items(w, i) + y
    ensures |v.items| == |w.items| && x == y
    ensures forall j :: i <= j < |v.items| ==> Plain(v.items[j]) == Plain(w.items[j])
    decreases v, 0, |v.items| - i
  {
    BothEnd(v, w, i, x, y);
    if i == |v.items| {
      Cancel("]", x, y);
    } else {
      var a, b := Items(v, i + 1) + x, Items(w, i + 1) + y;
      FirstItems(v, w, i, x, y, a, b);
      Readable(v.items[i], w.items[i], a, b);
      ItemsReadable(v, w, i + 1, x, y);
    }
  }

  lemma FieldsSplit(v: Value, ks: seq<string>, first: bool, x: string)
    requires v.Obj? && ks != [] && forall k :: k in ks ==> k in v.fields
    ensures Fields(v, ks, first) + x
         == Comma(first) + (Quote(ks[0]) + (":" + (Canonical(v.fields[ks[0]]) + (Fields(v, ks[1..], false) + x))))
  {
    var k := ks[0];
    var value, rest := Canonical(v.fields[k]), Fields(v, ks[1..], false);
    Regroup(Comma(first), Quote(k) + (":" + (value + rest)), x);
    Regroup(Quote(k), ":" + (value + rest), x);
    Regroup(":", value + rest, x);
    Regroup(value, rest, x);
  }

  lemma BothClose(v: Value, ks: seq<string>, w: Value, ls: seq<string>, first: bool, x: string, y: string)
    requires v.Obj? && w.Obj? && (forall k :: k in ks ==> k in v.fields) && forall k :: k in ls ==> k in w.fields
    requires Fields(v, ks, first) + x == Fields(w, ls, first) + y
    ensures ks == [] <==> ls == []
  {
    assert (Fields(v, ks, first) + x)[0] == (Fields(w, ls, first) + y)[0];
  }

  lemma {:induction false} FieldsReadable(v: Value, ks: seq<string>, w: Value, ls: seq<string>, first: bool, x: string,
                                          y: string)
    requires v.Obj? && w.Obj? && (forall k :: k in ks ==> k in v.fields) && forall k :: k in ls ==> k in w.fields
    requires Fields(v, ks, first) + x == Fields(w, ls, first) + y
    ensures ks == ls && x == y
    ensures forall k :: k in ks ==> Plain(v.fields[k]) == Plain(w.fields[k])
    decreases v, 0, |ks|
  {
    BothClose(v, ks, w, ls, first, x, y);
    if ks == [] {
      Cancel("}", x, y);
    } else {
      var k, o := ks[0], ls[0];
      var a, b := Fields(v, ks[1..], false) + x, Fields(w, ls[1..], false) + y;
      var c, d := Canonical(v.fields[k]) + a, Canonical(w.fields[o]) + b;
      FieldsSplit(v, ks, first, x);
      FieldsSplit(w, ls, first, y);
      Cancel(Comma(first), Quote(k) + (":" + c), Quote(o) + (":" + d));
      StringReadable(k, o, ":" + c, ":" + d);
      Cancel(":", c, d);
      FieldsEnd(v, ks[1..], x);
      FieldsEnd(w, ls[1..], y);
      Readable(v.fields[k], w.fields[o], a, b);
      FieldsReadable(v, ks[1..], w, ls[1..], false, x, y);
      assert ks == [k] + ks[1..] && ls == [o] + ls[1..];
    }
  }

  lemma {:induction false} PlainText(v: Value)
    ensures Canonical(Plain(v)) == Canonical(v)
    decreases v, 1, 0
  {
    match v
    case Arr(_) => PlainItems(v, 0);
    case Obj(fields) =>
      PlainDefined(fields);
      PlainFields(v, SortedKeys(Defined(fields)), true);
    case _ =>
  }

  lemma PlainDefined(fields: map<string, Value>)
    ensures Defined(Plain(Obj(fields)).fields) == Defined(fields)
  {
    assert forall k :: k in Defined(fields) ==> Plain(fields[k]) != Undefined;
  }

  lemma {:induction false} PlainItems(v: Value, i: nat)
    requires v.Arr? && i <= |v.items|
    ensures Items(Plain(v), i) == Items(v, i)
    decreases v, 0, |v.items| - i
  {
    if i < |v.items| {
      PlainText(v.items[i]);
      PlainItems(v, i + 1);
    }
  }

  lemma {:induction false} PlainFields(v: Value, keys: seq<string>, first: bool)
    requires v.Obj? && forall k :: k in keys ==> k in Defined(v.fields)
    ensures Fields(Plain(v), keys, first) == Fields(v, keys, first)
    decreases v, 0, |keys|
  {
    if keys != [] {
      assert keys[0] in keys;
      PlainText(v.fields[keys[0]]);
      PlainFields(v, keys[1..], false);
    }
  }

  /** Two values have one canonical text exactly when they differ in nothing but undefined
      fields and in undefined standing for null. */
  lemma CanonicalInjective(v: Value, w: Value)
    ensures Canonical(v) == Canonical(w) <==> Plain(v) == Plain(w)
  {
    if Canonical(v) == Canonical(w) {
      assert Canonical(v) + "" == Canonical(w) + "";
      Readable(v, w, "", "");
    }
    PlainText(v);
    PlainText(w);
  }

  /** The texts of single values, and how lists and objects are put together. */
  lemma TextOf(v: Value, w: Value, k: string, text: string, numeral: Numeral)
    ensures Canonical(Null) == Canonical(Undefined) == "null"
    ensures Canonical(Bool(true)) == "true" && Canonical(Bool(false)) == "false"
    ensures Canonical(Num(numeral)) == numeral && Canonical(Str(text)) == "\"" + EscapeAll(text) + "\""
    ensures Canonical(Arr([])) == "[]" && Canonical(Obj(map[])) == "{}"
    ensures Canonical(Arr([v, w])) == "[" + Canonical(v) + "," + Canonical(w) + "]"
    ensures v != Undefined ==> Canonical(Obj(map[k := v])) == "{" + Canonical(Str(k)) + ":" + Canonical(v) + "}"
  {
    ListText(v, w);
    assert SortedKeys({}) == [];
    assert Defined(map[]) == {};
    if v != Undefined { OneFieldText(k, v); }
  }

  lemma ListText(v: Value, w: Value)
    ensures Canonical(Arr([])) == "[]" && Canonical(Arr([v, w])) == "[" + Canonical(v) + "," + Canonical(w) + "]"
  {
    assert Items(Arr([]), 0) == "]";
    TwoItems(Arr([v, w]));
  }

  lemma TwoItems(two: Value)
    requires two.Arr? && |two.items| == 2
    ensures Canonical(two) == "[" + Canonical(two.items[0]) + "," + Canonical(two.items[1]) + "]"
  {
    var v, w := Canonical(two.items[0]), Canonical(two.items[1]);
    assert Items(two, 2) == "]";
    assert Items(two, 1) == "," + (w + "]");
    assert Items(two, 0) == "" + (v + Items(two, 1));
    assert Canonical(two) == "[" + Items(two, 0);
  }

  lemma OneFieldText(k: string, v: Value)
    requires v != Undefined
    ensures Canonical(Obj(map[k := v])) == "{" + Canonical(Str(k)) + ":" + Canonical(v) + "}"
  {
    var o := Obj(map[k := v]);
    assert Defined(o.fields) == {k};
    assert Least({k}) == k && {k} - {k} == {} && SortedKeys({}) == [];
    assert SortedKeys({k}) == [k];
    assert Fields(o, [], false) == "}" && [k][1..] == [];
    assert Fields(o, [k], true) == "" + (Quote(k) + (":" + (Canonical(v) + "}")));
  }

  /** A field that is undefined is not printed. */
  lemma UndefinedIsDropped(fields: map<string, Value>, k: string)
    requires k in fields && fields[k] == Undefined
    ensures Canonical(Obj(fields)) == Canonical(Obj(fields - {k}))
  {
    var rest := fields - {k};
    assert Defined(rest) == Defined(fields);
    assert Plain(Obj(rest)) == Plain(Obj(fields));
    CanonicalInjective(Obj(fields), Obj(rest));
  }

  /** Which characters are escaped, and how; all others stand for themselves. */
  lemma EscapesExactly(c: char)
    ensures Escape('"') == ['\\', '"'] && Escape('\\') == ['\\', '\\']
    ensures Escape('\n') == ['\\', 'n'] && Escape('\r') == ['\\', 'r'] && Escape('\t') == ['\\', 't']
    ensures Escape(8 as char) == ['\\', 'b'] && Escape(12 as char) == ['\\', 'f']
    ensures Escape(0 as char) == "\\u0000" && Escape(31 as char) == "\\u001f" && Escape(27 as char) == "\\u001b"
    ensures c >= ' ' && c != '"' && c != '\\' ==> Escape(c) == [c]
  {
  }
}
