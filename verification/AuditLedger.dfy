/** The hash-chained audit ledger, and what its hashes bind. */
module AuditLedger {
  import opened Basics
  import opened CanonicalJson
  import opened MerkleTree

  datatype Event = Event(
    schemaVersion: string,
    eventId: string,
    timestamp: string,
    sequence: Option<Numeral>,
    prevHash: Option<string>,
    entryHash: Option<string>,
    requestId: string,
    actor: string,
    action: string,
    capabilityId: Option<string>,
    decision: string,
    riskLevel: string,
    evidence: map<string, Value>)

  const GENESIS_AUDIT_HASH := "0000000000000000000000000000000000000000000000000000000000000000"

  // ---------- The hash of an entry ----------

  const PAYLOAD_FIELDS := [
    "schemaVersion", "eventId", "timestamp", "sequence", "prevHash", "requestId",
    "actor", "action", "capabilityId", "decision", "riskLevel", "evidence"
  ]

  /** An object literal: the values under the names, in order. */
  function Literal(names: seq<string>, values: seq<Value>): map<string, Value>
    requires |names| == |values|
  {
    if names == [] then map[]
    else Literal(names[..|names| - 1], values[..|values| - 1])[names[|names| - 1] := values[|values| - 1]]
  }

  function Nullable(s: Option<string>): Value { if s.Some? then Str(s.value) else Null }

  function PayloadValues(ev: Event, prevHash: string, sequence: Numeral): (values: seq<Value>)
    ensures |values| == |PAYLOAD_FIELDS|
  {
    [
      Str(ev.schemaVersion), Str(ev.eventId), Str(ev.timestamp), Num(sequence), Str(prevHash), Str(ev.requestId),
      Str(ev.actor), Str(ev.action), Nullable(ev.capabilityId), Str(ev.decision), Str(ev.riskLevel), Obj(ev.evidence)
    ]
  }

  function ComputeAuditEntryHash(sha: Hash, ev: Event, prevHash: string, sequence: Numeral): string {
    sha(Canonical(Obj(Literal(PAYLOAD_FIELDS, PayloadValues(ev, prevHash, sequence)))))
  }

  lemma PayloadFieldsDiffer()
    ensures NoDuplicates(PAYLOAD_FIELDS)
  {
    var f := PAYLOAD_FIELDS;
    forall i, j | 0 <= i < j < |f| ensures f[i] != f[j] {
      assert |f[i]| != |f[j]| || f[i][0] != f[j][0] || f[i][1] != f[j][1];
    }
  }

  lemma {:induction false} LiteralAt(names: seq<string>, values: seq<Value>, i: nat)
    requires |names| == |values| && i < |names| && NoDuplicates(names)
    ensures names[i] in Literal(names, values) && Literal(names, values)[names[i]] == values[i]
  {
    if i < |names| - 1 { LiteralAt(names[..|names| - 1], values[..|values| - 1], i); }
  }

  lemma PlainField(fields: map<string, Value>, k: string)
    requires k in fields && fields[k] != Undefined
    ensures k in Plain(Obj(fields)).fields && Plain(Obj(fields)).fields[k] == Plain(fields[k])
  {
  }

  lemma LiteralsAgree(names: seq<string>, xs: seq<Value>, ys: seq<Value>, i: nat)
    requires |names| == |xs| == |ys| && i < |names| && NoDuplicates(names)
    requires Plain(Obj(Literal(names, xs))) == Plain(Obj(Literal(names, ys)))
    requires xs[i] != Undefined && ys[i] != Undefined
    ensures Plain(xs[i]) == Plain(ys[i])
  {
    LiteralAt(names, xs, i);
    LiteralAt(names, ys, i);
    PlainField(Literal(names, xs), names[i]);
    PlainField(Literal(names, ys), names[i]);
  }

  /** What the entry hash covers: all of the event but the hash itself, with the chain fields
      that were used and the evidence as JSON can say it. */
  ghost function Covered(ev: Event, prevHash: string, sequence: Numeral): Event {
    ev.(sequence := Some(sequence), prevHash := Some(prevHash), entryHash := None,
        evidence := Plain(Obj(ev.evidence)).fields)
  }

  lemma PayloadByPosition(ev: Event, prevHash: string, sequence: Numeral)
    returns (o: map<string, Value>, values: seq<Value>)
    ensures values == PayloadValues(ev, prevHash, sequence) && o == Literal(PAYLOAD_FIELDS, values)
    ensures o.Keys == set name | name in PAYLOAD_FIELDS
    ensures forall i :: 0 <= i < 12 ==> PAYLOAD_FIELDS[i] in o && o[PAYLOAD_FIELDS[i]] == values[i]
  {
    values := PayloadValues(ev, prevHash, sequence);
    o := Literal(PAYLOAD_FIELDS, values);
    PayloadFieldsDiffer();
    LiteralKeys(PAYLOAD_FIELDS, values);
    forall i | 0 <= i < 12 ensures PAYLOAD_FIELDS[i] in o && o[PAYLOAD_FIELDS[i]] == values[i] {
      LiteralAt(PAYLOAD_FIELDS, values, i);
    }
  }

  /** What is hashed is an object with each field of the event under its own name, and no other. */
  lemma PayloadSays(sha: Hash, ev: Event, prevHash: string, sequence: Numeral) returns (o: map<string, Value>)
    ensures ComputeAuditEntryHash(sha, ev, prevHash, sequence) == sha(Canonical(Obj(o)))
    ensures |o.Keys| <= 12
    ensures "schemaVersion" in o && o["schemaVersion"] == Str(ev.schemaVersion)
    ensures "eventId" in o && o["eventId"] == Str(ev.eventId)
    ensures "timestamp" in o && o["timestamp"] == Str(ev.timestamp)
    ensures "sequence" in o && o["sequence"] == Num(sequence)
    ensures "prevHash" in o && o["prevHash"] == Str(prevHash)
    ensures "requestId" in o && o["requestId"] == Str(ev.requestId)
    ensures "actor" in o && o["actor"] == Str(ev.actor)
    ensures "action" in o && o["action"] == Str(ev.action)
    ensures "capabilityId" in o
            && o["capabilityId"] == if ev.capabilityId.Some? then Str(ev.capabilityId.value) else Null
    ensures "decision" in o && o["decision"] == Str(ev.decision)
    ensures "riskLevel" in o && o["riskLevel"] == Str(ev.riskLevel)
    ensures "evidence" in o && o["evidence"] == Obj(ev.evidence)
  {
    var values;
    o, values := PayloadByPosition(ev, prevHash, sequence);
    NamedAt(o, values);
    FewNames(PAYLOAD_FIELDS);
  }

  lemma {:induction false} FewNames(names: seq<string>)
    ensures |set name | name in names| <= |names|
  {
    if names != [] {
      var front, last := names[..|names| - 1], names[|names| - 1];
      assert names == front + [last];
      FewNames(front);
      assert (set name | name in names) == (set name | name in front) + {last};
    }
  }

  lemma NamedAt(o: map<string, Value>, values: seq<Value>)
    requires |values| == 12
    requires forall i :: 0 <= i < 12 ==> PAYLOAD_FIELDS[i] in o && o[PAYLOAD_FIELDS[i]] == values[i]
    ensures "schemaVersion" in o && "eventId" in o && "timestamp" in o && "sequence" in o && "prevHash" in o
            && "requestId" in o && "actor" in o && "action" in o && "capabilityId" in o && "decision" in o
            && "riskLevel" in o && "evidence" in o
    ensures o["schemaVersion"] == values[0] && o["eventId"] == values[1] && o["timestamp"] == values[2]
            && o["sequence"] == values[3] && o["prevHash"] == values[4] && o["requestId"] == values[5]
    ensures o["actor"] == values[6] && o["action"] == values[7] && o["capabilityId"] == values[8]
            && o["decision"] == values[9] && o["riskLevel"] == values[10] && o["evidence"] == values[11]
  {
    var f := PAYLOAD_FIELDS;
    assert f[0] in o && f[1] in o && f[2] in o && f[3] in o && f[4] in o && f[5] in o;
    assert f[6] in o && f[7] in o && f[8] in o && f[9] in o && f[10] in o && f[11] in o;
  }

  lemma {:induction false} LiteralKeys(names: seq<string>, values: seq<Value>)
    requires |names| == |values|
    ensures Literal(names, values).Keys == set name | name in names
  {
    if names != [] {
      assert names == names[..|names| - 1] + [names[|names| - 1]];
      LiteralKeys(names[..|names| - 1], values[..|values| - 1]);
    }
  }

  lemma LiteralTextsAgree(names: seq<string>, xs: seq<Value>, ys: seq<Value>)
    requires |names| == |xs| == |ys| && NoDuplicates(names)
    requires forall i :: 0 <= i < |xs| ==> xs[i] != Undefined && ys[i] != Undefined
    requires Canonical(Obj(Literal(names, xs))) == Canonical(Obj(Literal(names, ys)))
    ensures forall i :: 0 <= i < |xs| ==> Plain(xs[i]) == Plain(ys[i])
  {
    CanonicalInjective(Obj(Literal(names, xs)), Obj(Literal(names, ys)));
    forall i | 0 <= i < |xs| ensures Plain(xs[i]) == Plain(ys[i]) { LiteralsAgree(names, xs, ys, i); }
  }

  lemma NothingUndefined(ev: Event, prevHash: string, sequence: Numeral)
    ensures forall i :: 0 <= i < |PAYLOAD_FIELDS| ==> PayloadValues(ev, prevHash, sequence)[i] != Undefined
  {
  }

  /** Under a collision-free hash an entry hash determines everything it covers. */
  lemma EntryHashBinds(sha: Hash, a: Event, p: string, n: Numeral, b: Event, q: string, m: Numeral)
    requires CollisionFree(sha)
    requires ComputeAuditEntryHash(sha, a, p, n) == ComputeAuditEntryHash(sha, b, q, m)
    ensures Covered(a, p, n) == Covered(b, q, m)
  {
    PayloadFieldsDiffer();
    NothingUndefined(a, p, n);
    NothingUndefined(b, q, m);
    LiteralTextsAgree(PAYLOAD_FIELDS, PayloadValues(a, p, n), PayloadValues(b, q, m));
    ValuesBind(a, p, n, b, q, m);
  }

  lemma ValuesBind(a: Event, p: string, n: Numeral, b: Event, q: string, m: Numeral)
    requires forall i :: 0 <= i < |PAYLOAD_FIELDS| ==>
             Plain(PayloadValues(a, p, n)[i]) == Plain(PayloadValues(b, q, m)[i])
    ensures Covered(a, p, n) == Covered(b, q, m)
  {
    var xs, ys := PayloadValues(a, p, n), PayloadValues(b, q, m);
    assert Plain(xs[0]) == Plain(ys[0]) && Plain(xs[1]) == Plain(ys[1]) && Plain(xs[2]) == Plain(ys[2]);
    assert Plain(xs[3]) == Plain(ys[3]) && Plain(xs[4]) == Plain(ys[4]) && Plain(xs[5]) == Plain(ys[5]);
    assert Plain(xs[6]) == Plain(ys[6]) && Plain(xs[7]) == Plain(ys[7]) && Plain(xs[8]) == Plain(ys[8]);
    assert Plain(xs[9]) == Plain(ys[9]) && Plain(xs[10]) == Plain(ys[10]) && Plain(xs[11]) == Plain(ys[11]);
  }

  /** The hash of an entry, from the event, the previous hash and the sequence number. */
  type EntryHash = (Event, string, Numeral) -> string

  function EntryHashOf(sha: Hash): EntryHash {
    (ev: Event, prevHash: string, sequence: Numeral) => ComputeAuditEntryHash(sha, ev, prevHash, sequence)
  }

  ghost predicate Digests(h: EntryHash) {
    forall ev, prevHash, sequence :: h(ev, prevHash, sequence) != "" && ':' !in h(ev, prevHash, sequence)
  }

  ghost predicate Binds(h: EntryHash) {
    forall a, p, n, b, q, m :: h(a, p, n) == h(b, q, m) ==> Covered(a, p, n) == Covered(b, q, m)
  }

  /** An entry's own hash is not part of what is hashed. */
  ghost predicate Closed(h: EntryHash) {
    forall ev: Event, prevHash, sequence, own ::
      h(ev.(entryHash := own), prevHash, sequence) == h(ev, prevHash, sequence)
  }

  /** No entry hash is the digest of two joined texts without colons. */
  ghost predicate Apart(sha: Hash, h: EntryHash) {
    forall ev, prevHash, sequence :: NoNode(sha, h(ev, prevHash, sequence))
  }

  lemma EntryHashOfDigests(sha: Hash)
    requires Hexadecimal(sha)
    ensures Digests(EntryHashOf(sha))
  {
    forall ev, prevHash, sequence
      ensures EntryHashOf(sha)(ev, prevHash, sequence) != "" && ':' !in EntryHashOf(sha)(ev, prevHash, sequence)
    {
      assert EntryHashOf(sha)(ev, prevHash, sequence) == ComputeAuditEntryHash(sha, ev, prevHash, sequence);
    }
  }

  lemma EntryHashOfBinds(sha: Hash)
    requires CollisionFree(sha)
    ensures Binds(EntryHashOf(sha))
  {
    forall a, p, n, b, q, m | EntryHashOf(sha)(a, p, n) == EntryHashOf(sha)(b, q, m)
      ensures Covered(a, p, n) == Covered(b, q, m)
    {
      EntryHashBinds(sha, a, p, n, b, q, m);
    }
  }

  lemma EntryHashOfCloses(sha: Hash)
    ensures Closed(EntryHashOf(sha))
  {
    forall ev: Event, prevHash, sequence, own
      ensures EntryHashOf(sha)(ev.(entryHash := own), prevHash, sequence) == EntryHashOf(sha)(ev, prevHash, sequence)
    {
      assert PayloadValues(ev.(entryHash := own), prevHash, sequence) == PayloadValues(ev, prevHash, sequence);
    }
  }

  lemma OneColonWhenJoined(l: string, r: string)
    requires ':' !in l && ':' !in r
    ensures multiset(Joined(l, r))[':'] == 1
  {
    assert multiset(l)[':'] == 0 && multiset(r)[':'] == 0;
  }

  lemma {:induction false} ColonPerField(v: Value, keys: seq<string>, first: bool)
    requires v.Obj? && forall k :: k in keys ==> k in v.fields
    ensures multiset(Fields(v, keys, first))[':'] >= |keys|
    decreases |keys|
  {
    if keys != [] {
      var rest := Fields(v, keys[1..], false);
      ColonPerField(v, keys[1..], false);
      assert multiset(Canonical(v.fields[keys[0]]) + rest)[':'] >= |keys| - 1;
    }
  }

  lemma TwoFieldsTwoColons(fields: map<string, Value>, k: string, l: string)
    requires k != l && k in Defined(fields) && l in Defined(fields)
    ensures multiset(Canonical(Obj(fields)))[':'] >= 2
  {
    var keys := SortedKeys(Defined(fields));
    assert k in keys && l in keys;
    ColonPerField(Obj(fields), keys, true);
  }

  lemma EntryHashIsNoNode(sha: Hash, ev: Event, prevHash: string, sequence: Numeral)
    requires CollisionFree(sha)
    ensures NoNode(sha, ComputeAuditEntryHash(sha, ev, prevHash, sequence))
  {
    var values := PayloadValues(ev, prevHash, sequence);
    var fields := Literal(PAYLOAD_FIELDS, values);
    PayloadFieldsDiffer();
    LiteralAt(PAYLOAD_FIELDS, values, 0);
    LiteralAt(PAYLOAD_FIELDS, values, 1);
    TwoFieldsTwoColons(fields, PAYLOAD_FIELDS[0], PAYLOAD_FIELDS[1]);
    forall l, r | ':' !in l && ':' !in r ensures sha(Canonical(Obj(fields))) != sha(Joined(l, r)) {
      OneColonWhenJoined(l, r);
    }
  }

  lemma EntryHashOfStaysApart(sha: Hash)
    requires CollisionFree(sha)
    ensures Apart(sha, EntryHashOf(sha))
  {
    forall ev, prevHash, sequence ensures NoNode(sha, EntryHashOf(sha)(ev, prevHash, sequence)) {
      EntryHashIsNoNode(sha, ev, prevHash, sequence);
    }
  }

  // ---------- Checking a ledger ----------

  datatype Reason = SequenceMismatch | PrevHashMismatch | EntryHashMismatch

  datatype Finding = Finding(index: nat, eventId: string, reason: Reason, expected: string, actual: string)

  function SequenceOf(ev: Event, i: nat): Numeral { if ev.sequence.Some? then ev.sequence.value else Decimal(i) }

  function PrevHashOf(ev: Event): string { if ev.prevHash.Some? then ev.prevHash.value else GENESIS_AUDIT_HASH }

  function HashOf(ev: Event): string { if ev.entryHash.Some? then ev.entryHash.value else "" }

  function ExpectedHash(h: EntryHash, ev: Event, i: nat): string {
    h(ev, PrevHashOf(ev), SequenceOf(ev, i))
  }

  function FindingsAt(h: EntryHash, ev: Event, i: nat, expectedPrev: string): seq<Finding> {
    (if SequenceOf(ev, i) == Decimal(i) then []
     else [Finding(i, ev.eventId, SequenceMismatch, Decimal(i), SequenceOf(ev, i))])
    + ((if PrevHashOf(ev) == expectedPrev then []
        else [Finding(i, ev.eventId, PrevHashMismatch, expectedPrev, PrevHashOf(ev))])
       + (if HashOf(ev) == ExpectedHash(h, ev, i) then []
          else [Finding(i, ev.eventId, EntryHashMismatch, ExpectedHash(h, ev, i), HashOf(ev))]))
  }

  /** The hash that the next entry must point back to. */
  function ExpectedPrevHash(h: EntryHash, events: seq<Event>): string {
    if events == [] then GENESIS_AUDIT_HASH
    else
      var ev := events[|events| - 1];
      if HashOf(ev) != "" then HashOf(ev) else ExpectedHash(h, ev, |events| - 1)
  }

  function Findings(h: EntryHash, events: seq<Event>): seq<Finding> {
    if events == [] then []
    else
      var front := events[..|events| - 1];
      Findings(h, front) + FindingsAt(h, events[|events| - 1], |events| - 1, ExpectedPrevHash(h, front))
  }

  function Leaves(h: EntryHash, events: seq<Event>): (leaves: seq<string>)
    ensures |leaves| == |events|
  {
    if events == [] then []
    else
      var ev := events[|events| - 1];
      Leaves(h, events[..|events| - 1])
      + [if ev.entryHash.Some? then ev.entryHash.value else ExpectedHash(h, ev, |events| - 1)]
  }

  function MerkleRoot(sha: Hash, h: EntryHash, events: seq<Event>): string {
    if events == [] then GENESIS_AUDIT_HASH else Root(sha, Leaves(h, events))
  }

  function HeadHash(h: EntryHash, events: seq<Event>): string {
    if events == [] then GENESIS_AUDIT_HASH
    else
      var ev := events[|events| - 1];
      if ev.entryHash.Some? then ev.entryHash.value else ExpectedPrevHash(h, events)
  }

  datatype Verification = Verification(
    valid: bool,
    totalEvents: nat,
    merkleRoot: string,
    headHash: string,
    findings: seq<Finding>)

  method VerifyAuditLedger(sha: Hash, events: seq<Event>) returns (r: Verification)
    ensures r.findings == Findings(EntryHashOf(sha), events) && (r.valid <==> r.findings == [])
            && r.totalEvents == |events|
    ensures r.merkleRoot == MerkleRoot(sha, EntryHashOf(sha), events)
            && r.headHash == HeadHash(EntryHashOf(sha), events)
  {
    var h := EntryHashOf(sha);
    var findings: seq<Finding> := [];
    var expectedPrev := GENESIS_AUDIT_HASH;
    for i := 0 to |events|
      invariant findings == Findings(h, events[..i]) && expectedPrev == ExpectedPrevHash(h, events[..i])
    {
      assert events[..i + 1][..i] == events[..i];
      var found := CheckEntry(h, events[i], i, expectedPrev);
      findings := findings + found;
      expectedPrev := if HashOf(events[i]) != "" then HashOf(events[i]) else ExpectedHash(h, events[i], i);
    }
    assert events[..|events|] == events;
    var root := ComputeAuditMerkleRoot(sha, h, events);
    var head := if events == [] then GENESIS_AUDIT_HASH
                else if events[|events| - 1].entryHash.Some? then events[|events| - 1].entryHash.value
                else expectedPrev;
    r := Verification(findings == [], |events|, root, head, findings);
  }

  method CheckEntry(h: EntryHash, ev: Event, i: nat, expectedPrev: string) returns (findings: seq<Finding>)
    ensures findings == FindingsAt(h, ev, i, expectedPrev)
  {
    findings := [];
    var sequence, prev := SequenceOf(ev, i), PrevHashOf(ev);
    if sequence != Decimal(i) {
      findings := findings + [Finding(i, ev.eventId, SequenceMismatch, Decimal(i), sequence)];
    }
    if prev != expectedPrev {
      findings := findings + [Finding(i, ev.eventId, PrevHashMismatch, expectedPrev, prev)];
    }
    var expected := h(ev, prev, sequence);
    if HashOf(ev) != expected {
      findings := findings + [Finding(i, ev.eventId, EntryHashMismatch, expected, HashOf(ev))];
    }
  }

  method ComputeAuditMerkleRoot(sha: Hash, h: EntryHash, events: seq<Event>) returns (root: string)
    ensures root == MerkleRoot(sha, h, events)
  {
    if events == [] { return GENESIS_AUDIT_HASH; }
    var leaves: seq<string> := [];
    for i := 0 to |events|
      invariant leaves == Leaves(h, events[..i])
    {
      assert events[..i + 1][..i] == events[..i];
      var ev := events[i];
      leaves := leaves + [if ev.entryHash.Some? then ev.entryHash.value else ExpectedHash(h, ev, i)];
    }
    assert events[..|events|] == events;
    root := ComputeRoot(sha, leaves);
  }

  // ---------- What acceptance means ----------

  /** Entry i carries its own hash and points to the one before. */
  ghost predicate Link(h: EntryHash, events: seq<Event>, i: nat)
    requires i < |events|
  {
    && SequenceOf(events[i], i) == Decimal(i)
    && PrevHashOf(events[i]) == (if i == 0 then GENESIS_AUDIT_HASH else HashOf(events[i - 1]))
    && events[i].entryHash == Some(ExpectedHash(h, events[i], i))
  }

  ghost predicate Chained(h: EntryHash, events: seq<Event>) {
    forall i :: 0 <= i < |events| ==> Link(h, events, i)
  }

  lemma LinkInFront(h: EntryHash, events: seq<Event>, n: nat, i: nat)
    requires i < n <= |events|
    ensures Link(h, events, i) <==> Link(h, events[..n], i)
  {
  }

  lemma ChainedPrefix(h: EntryHash, events: seq<Event>, n: nat)
    requires Chained(h, events) && n <= |events|
    ensures Chained(h, events[..n])
  {
    forall i | 0 <= i < n ensures Link(h, events[..n], i) { LinkInFront(h, events, n, i); }
  }

  lemma LinkKept(h: EntryHash, events: seq<Event>, n: nat, i: nat)
    requires i < n <= |events| && Chained(h, events[..n])
    ensures Link(h, events, i)
  {
    assert Link(h, events[..n], i);
    LinkInFront(h, events, n, i);
  }

  lemma ChainedGrows(h: EntryHash, events: seq<Event>)
    requires events != [] && Chained(h, events[..|events| - 1]) && Link(h, events, |events| - 1)
    ensures Chained(h, events)
  {
    var n := |events| - 1;
    forall i | 0 <= i < |events| && i != n ensures Link(h, events, i) { LinkKept(h, events, n, i); }
  }

  lemma LastEntry(h: EntryHash, events: seq<Event>)
    requires Digests(h) && events != [] && Chained(h, events[..|events| - 1])
    ensures Link(h, events, |events| - 1)
       <==> FindingsAt(h, events[|events| - 1], |events| - 1, ExpectedPrevHash(h, events[..|events| - 1])) == []
  {
    var n := |events| - 1;
    if n > 0 {
      assert Link(h, events[..n], n - 1);
      assert HashOf(events[n - 1]) != "";
    }
    assert ExpectedHash(h, events[n], n) != "";
  }

  lemma ChainedStep(h: EntryHash, events: seq<Event>)
    requires Digests(h) && events != []
    ensures Chained(h, events)
       <==> Chained(h, events[..|events| - 1])
            && FindingsAt(h, events[|events| - 1], |events| - 1, ExpectedPrevHash(h, events[..|events| - 1])) == []
  {
    var front := events[..|events| - 1];
    if Chained(h, events) { ChainedPrefix(h, events, |events| - 1); }
    if Chained(h, front) {
      LastEntry(h, events);
      if Link(h, events, |events| - 1) { ChainedGrows(h, events); }
    }
  }

  /** The verifier accepts exactly the unbroken chains. */
  lemma {:induction false} ValidExactly(h: EntryHash, events: seq<Event>)
    requires Digests(h)
    ensures Findings(h, events) == [] <==> Chained(h, events)
  {
    if events != [] {
      ValidExactly(h, events[..|events| - 1]);
      ChainedStep(h, events);
    }
  }

  // ---------- The service that appends ----------

  /** What a caller of logEvent supplies. */
  datatype Draft = Draft(
    requestId: string,
    actor: string,
    action: string,
    capabilityId: Option<string>,
    decision: string,
    riskLevel: string,
    evidence: map<string, Value>)

  function Drafted(d: Draft, eventId: string, timestamp: string, sequence: nat, prevHash: string): Event {
    Event("akcp.audit/v1", eventId, timestamp, Some(Decimal(sequence)), Some(prevHash), None,
          d.requestId, d.actor, d.action, d.capabilityId, d.decision, d.riskLevel, d.evidence)
  }

  function Appended(h: EntryHash, events: seq<Event>, d: Draft, eventId: string, timestamp: string): seq<Event> {
    var n := |events|;
    var prevHash := if n > 0 && events[n - 1].entryHash.Some? then events[n - 1].entryHash.value
                    else GENESIS_AUDIT_HASH;
    var ev := Drafted(d, eventId, timestamp, n, prevHash);
    events + [ev.(entryHash := Some(h(ev, prevHash, Decimal(n))))]
  }

  /** A logged event says what its draft says, carries its position and the hash of the event before it,
      and is sealed with its own; nothing logged before changes. */
  lemma LoggedEventSays(h: EntryHash, events: seq<Event>, d: Draft, eventId: string, timestamp: string)
    ensures var after := Appended(h, events, d, eventId, timestamp);
            && |after| == |events| + 1 && after[..|events|] == events
            && var ev := after[|events|];
               && ev.actor == d.actor && ev.action == d.action && ev.decision == d.decision
               && ev.requestId == d.requestId && ev.capabilityId == d.capabilityId && ev.riskLevel == d.riskLevel
               && ev.evidence == d.evidence && ev.eventId == eventId && ev.timestamp == timestamp
               && ev.schemaVersion == "akcp.audit/v1" && ev.sequence == Some(Decimal(|events|))
               && (events == [] ==>
                     ev.prevHash == Some("0000000000000000000000000000000000000000000000000000000000000000"))
               && (events != [] && events[|events| - 1].entryHash.Some? ==>
                     ev.prevHash == events[|events| - 1].entryHash)
               && ev.entryHash == Some(h(ev.(entryHash := None), Or(ev.prevHash, ""), Decimal(|events|)))
  {
  }

  class InMemoryAuditLogService {
    const sha: Hash
    var events: seq<Event>

    constructor (sha: Hash)
      ensures this.sha == sha && events == []
    {
      this.sha := sha;
      events := [];
    }

    /** The id and the time come from the platform. */
    method LogEvent(d: Draft, eventId: string, timestamp: string) returns (id: string)
      modifies this
      ensures events == Appended(EntryHashOf(sha), old(events), d, eventId, timestamp) && id == eventId
    {
      var sequence := |events|;
      var prevHash := GENESIS_AUDIT_HASH;
      if sequence > 0 && events[sequence - 1].entryHash.Some? { prevHash := events[sequence - 1].entryHash.value; }
      var ev := Drafted(d, eventId, timestamp, sequence, prevHash);
      var entryHash := ComputeAuditEntryHash(sha, ev, prevHash, Decimal(sequence));
      events := events + [ev.(entryHash := Some(entryHash))];
      id := eventId;
    }

    method VerifyLedger() returns (r: Verification)
      ensures r.findings == Findings(EntryHashOf(sha), events) && (r.valid <==> r.findings == [])
    {
      r := VerifyAuditLedger(sha, events);
    }
  }

  datatype Call = Call(draft: Draft, eventId: string, timestamp: string)

  /** The ledger after a run of calls on a fresh service. */
  function Logged(h: EntryHash, calls: seq<Call>): seq<Event> {
    if calls == [] then []
    else
      var c := calls[|calls| - 1];
      Appended(h, Logged(h, calls[..|calls| - 1]), c.draft, c.eventId, c.timestamp)
  }

  lemma AppendedIsLinked(h: EntryHash, events: seq<Event>, d: Draft, eventId: string, timestamp: string)
    requires Closed(h) && Chained(h, events)
    ensures Chained(h, Appended(h, events, d, eventId, timestamp))
  {
    var longer := Appended(h, events, d, eventId, timestamp);
    assert longer[..|longer| - 1] == events;
    if events != [] { assert Link(h, events, |events| - 1); }
    ChainedGrows(h, longer);
  }

  /** Every ledger that logEvent builds passes verification. */
  lemma {:induction false} LoggedIsValid(h: EntryHash, calls: seq<Call>)
    requires Digests(h) && Closed(h)
    ensures Findings(h, Logged(h, calls)) == []
  {
    if calls != [] {
      var front, c := calls[..|calls| - 1], calls[|calls| - 1];
      LoggedIsValid(h, front);
      ValidExactly(h, Logged(h, front));
      AppendedIsLinked(h, Logged(h, front), c.draft, c.eventId, c.timestamp);
    }
    ValidExactly(h, Logged(h, calls));
  }

  // ---------- What the hashes bind ----------

  /** Entry i with its defaulted chain fields filled in, and its evidence as JSON can say it. */
  ghost function Stated(ev: Event, i: nat): Event {
    Covered(ev, PrevHashOf(ev), SequenceOf(ev, i)).(entryHash := ev.entryHash)
  }

  lemma EntryBinds(h: EntryHash, a: Event, b: Event, i: nat, j: nat)
    requires Binds(h) && a.entryHash == b.entryHash
    requires a.entryHash == Some(ExpectedHash(h, a, i)) && b.entryHash == Some(ExpectedHash(h, b, j))
    ensures Stated(a, i) == Stated(b, j)
    ensures SequenceOf(a, i) == SequenceOf(b, j) && PrevHashOf(a) == PrevHashOf(b)
  {
    assert h(a, PrevHashOf(a), SequenceOf(a, i)) == h(b, PrevHashOf(b), SequenceOf(b, j));
  }

  lemma LinksBind(h: EntryHash, a: seq<Event>, b: seq<Event>, i: nat, j: nat)
    requires Binds(h) && Chained(h, a) && Chained(h, b)
    requires i < |a| && j < |b| && HashOf(a[i]) == HashOf(b[j])
    ensures i == j && Stated(a[i], i) == Stated(b[j], j)
    ensures i > 0 ==> HashOf(a[i - 1]) == HashOf(b[i - 1])
  {
    assert Link(h, a, i) && Link(h, b, j);
    EntryBinds(h, a[i], b[j], i, j);
    DecimalInjective(i, j);
  }

  /** Walking back from one common hash. */
  lemma {:induction false} ChainBinds(h: EntryHash, a: seq<Event>, b: seq<Event>, n: nat, i: nat)
    requires Binds(h) && Chained(h, a) && Chained(h, b)
    requires i <= n < |a| && n < |b| && HashOf(a[n]) == HashOf(b[n])
    ensures Stated(a[i], i) == Stated(b[i], i)
    decreases n
  {
    LinksBind(h, a, b, n, n);
    if i < n { ChainBinds(h, a, b, n - 1, i); }
  }

  /** Entry i says the same in both ledgers. */
  ghost predicate SameEntry(a: seq<Event>, b: seq<Event>, i: nat)
    requires i < |a| && i < |b|
  {
    Stated(a[i], i) == Stated(b[i], i)
  }

  ghost predicate SameEntries(a: seq<Event>, b: seq<Event>) {
    |a| == |b| && forall i :: 0 <= i < |a| ==> SameEntry(a, b, i)
  }

  lemma ChainsCoincide(h: EntryHash, a: seq<Event>, b: seq<Event>)
    requires Binds(h) && Chained(h, a) && Chained(h, b) && a != [] && b != []
    requires HashOf(a[|a| - 1]) == HashOf(b[|b| - 1])
    ensures SameEntries(a, b)
  {
    LinksBind(h, a, b, |a| - 1, |b| - 1);
    forall i | 0 <= i < |a| ensures SameEntry(a, b, i) { ChainBinds(h, a, b, |a| - 1, i); }
  }

  lemma HeadOfChain(h: EntryHash, events: seq<Event>)
    requires Chained(h, events) && events != []
    ensures HeadHash(h, events) == HashOf(events[|events| - 1])
  {
    assert Link(h, events, |events| - 1);
  }

  /** Two accepted, non-empty ledgers with one head hash are one ledger, entry by entry, once
      defaults are filled in; in particular they are equally long. */
  lemma HeadHashBinds(h: EntryHash, a: seq<Event>, b: seq<Event>)
    requires Binds(h) && Digests(h) && a != [] && b != []
    requires Findings(h, a) == [] && Findings(h, b) == [] && HeadHash(h, a) == HeadHash(h, b)
    ensures SameEntries(a, b)
  {
    ValidExactly(h, a);
    ValidExactly(h, b);
    HeadOfChain(h, a);
    HeadOfChain(h, b);
    ChainsCoincide(h, a, b);
  }

  /** Every chain field is present and no evidence is undefined, as in a ledger read from JSON
      that logEvent wrote. */
  ghost predicate Complete(events: seq<Event>) {
    forall i :: 0 <= i < |events| ==>
      events[i].sequence.Some? && events[i].prevHash.Some? && Plain(Obj(events[i].evidence)) == Obj(events[i].evidence)
  }

  lemma SameCompleteEntries(a: seq<Event>, b: seq<Event>)
    requires SameEntries(a, b) && Complete(a) && Complete(b)
    ensures a == b
  {
    forall i | 0 <= i < |a| ensures a[i] == b[i] {
      assert SameEntry(a, b, i);
      assert Stated(a[i], i) == a[i] && Stated(b[i], i) == b[i];
    }
  }

  /** Complete ledgers with one head hash are identical. */
  lemma CompleteLedgersCoincide(h: EntryHash, a: seq<Event>, b: seq<Event>)
    requires Binds(h) && Digests(h) && a != [] && b != []
    requires Findings(h, a) == [] && Findings(h, b) == [] && HeadHash(h, a) == HeadHash(h, b)
    requires Complete(a) && Complete(b)
    ensures a == b
  {
    HeadHashBinds(h, a, b);
    SameCompleteEntries(a, b);
  }

  /** Cutting entries off the end goes unnoticed by verification alone, but the head hash changes. */
  lemma Truncation(h: EntryHash, events: seq<Event>, n: nat)
    requires Binds(h) && Digests(h) && Findings(h, events) == [] && 0 < n < |events|
    ensures Findings(h, events[..n]) == [] && HeadHash(h, events[..n]) != HeadHash(h, events)
  {
    ValidExactly(h, events);
    ChainedPrefix(h, events, n);
    ValidExactly(h, events[..n]);
    if HeadHash(h, events[..n]) == HeadHash(h, events) { HeadHashBinds(h, events[..n], events); }
  }

  lemma {:induction false} LeafAt(h: EntryHash, events: seq<Event>, i: nat)
    requires i < |events| && events[i].entryHash.Some?
    ensures Leaves(h, events)[i] == events[i].entryHash.value
  {
    if i < |events| - 1 { LeafAt(h, events[..|events| - 1], i); }
  }

  lemma LeavesAreHashes(h: EntryHash, events: seq<Event>, i: nat)
    requires Digests(h) && Chained(h, events) && i < |events|
    ensures Leaves(h, events)[i] == HashOf(events[i]) && ':' !in Leaves(h, events)[i]
  {
    assert Link(h, events, i);
    LeafAt(h, events, i);
  }

  /** The entries of a chain have different hashes, none of which is an inner node. */
  lemma LeavesAreOriginal(sha: Hash, h: EntryHash, events: seq<Event>)
    requires Binds(h) && Digests(h) && Apart(sha, h) && Chained(h, events) && events != []
    ensures Original(sha, Leaves(h, events))
  {
    var leaves := Leaves(h, events);
    forall i | 0 <= i < |events| ensures ':' !in leaves[i] { LeavesAreHashes(h, events, i); }
    forall i, j | 0 <= i < j < |events| ensures leaves[i] != leaves[j] {
      LeavesAreHashes(h, events, i);
      LeavesAreHashes(h, events, j);
      if leaves[i] == leaves[j] { LinksBind(h, events, events, i, j); }
    }
    LeavesAreHashes(h, events, 0);
    assert Link(h, events, 0);
  }

  /** Two accepted, non-empty ledgers with one Merkle root are one ledger, entry by entry, once
      defaults are filled in; in particular they are equally long. */
  lemma MerkleRootBinds(sha: Hash, h: EntryHash, a: seq<Event>, b: seq<Event>)
    requires CollisionFree(sha) && Hexadecimal(sha) && Binds(h) && Digests(h) && Apart(sha, h) && a != [] && b != []
    requires Findings(h, a) == [] && Findings(h, b) == [] && MerkleRoot(sha, h, a) == MerkleRoot(sha, h, b)
    ensures SameEntries(a, b)
  {
    ValidExactly(h, a);
    ValidExactly(h, b);
    LeavesAreOriginal(sha, h, a);
    LeavesAreOriginal(sha, h, b);
    OriginalRootBinds(sha, Leaves(h, a), Leaves(h, b));
    LeavesAreHashes(h, a, |a| - 1);
    LeavesAreHashes(h, b, |b| - 1);
    ChainsCoincide(h, a, b);
  }

  // ---------- The same with SHA-256 ----------

  /** Every ledger that logEvent builds passes verification, under any hash that prints in hexadecimal. */
  lemma LedgersBuiltAreAccepted(sha: Hash, calls: seq<Call>)
    requires Hexadecimal(sha)
    ensures Findings(EntryHashOf(sha), Logged(EntryHashOf(sha), calls)) == []
  {
    EntryHashOfDigests(sha);
    EntryHashOfCloses(sha);
    LoggedIsValid(EntryHashOf(sha), calls);
  }

  /** Under a collision-free hash the head hash determines a complete accepted ledger. */
  lemma HeadHashDetermines(sha: Hash, a: seq<Event>, b: seq<Event>)
    requires CollisionFree(sha) && Hexadecimal(sha) && a != [] && b != [] && Complete(a) && Complete(b)
    requires Findings(EntryHashOf(sha), a) == [] && Findings(EntryHashOf(sha), b) == []
    ensures HeadHash(EntryHashOf(sha), a) == HeadHash(EntryHashOf(sha), b) <==> a == b
  {
    if HeadHash(EntryHashOf(sha), a) == HeadHash(EntryHashOf(sha), b) {
      EntryHashOfDigests(sha);
      EntryHashOfBinds(sha);
      CompleteLedgersCoincide(EntryHashOf(sha), a, b);
    }
  }

  /** So does the Merkle root, among accepted ledgers of any lengths. */
  lemma MerkleRootDetermines(sha: Hash, a: seq<Event>, b: seq<Event>)
    requires CollisionFree(sha) && Hexadecimal(sha) && a != [] && b != [] && Complete(a) && Complete(b)
    requires Findings(EntryHashOf(sha), a) == [] && Findings(EntryHashOf(sha), b) == []
    ensures MerkleRoot(sha, EntryHashOf(sha), a) == MerkleRoot(sha, EntryHashOf(sha), b) <==> a == b
  {
    if MerkleRoot(sha, EntryHashOf(sha), a) == MerkleRoot(sha, EntryHashOf(sha), b) {
      EntryHashOfDigests(sha);
      EntryHashOfBinds(sha);
      EntryHashOfStaysApart(sha);
      MerkleRootBinds(sha, EntryHashOf(sha), a, b);
      SameCompleteEntries(a, b);
    }
  }
}
