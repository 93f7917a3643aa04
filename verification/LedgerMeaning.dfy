/** What the verification of an audit ledger reports, entry by entry. */
module LedgerMeaning {
  import opened Basics
  import opened AuditLedger

  /** What an entry without a predecessor points back to. */
  const ZEROS := "0000000000000000000000000000000000000000000000000000000000000000"

  /** The hash of the entry at position i, computed from what it says, with the defaults for what it
      does not say. */
  function Recomputed(h: EntryHash, ev: Event, i: nat): string {
    h(ev, Or(ev.prevHash, ZEROS), Or(ev.sequence, Decimal(i)))
  }

  /** What entry i should point back to: the hash that the entry before it claims, if it claims one. */
  function Predecessor(h: EntryHash, events: seq<Event>, i: nat): string
    requires i < |events|
  {
    if i == 0 then ZEROS
    else if events[i - 1].entryHash in {None, Some("")} then Recomputed(h, events[i - 1], i - 1)
    else events[i - 1].entryHash.value
  }

  /** What is found wrong with the entry at position i, with what was expected and what was there. */
  predicate Wrong(h: EntryHash, ev: Event, i: nat, predecessor: string, f: Finding) {
    && f.index == i && f.eventId == ev.eventId && f.expected != f.actual
    && match f.reason
       case SequenceMismatch => f.expected == Decimal(i) && ev.sequence == Some(f.actual)
       case PrevHashMismatch => f.expected == predecessor && f.actual == Or(ev.prevHash, ZEROS)
       case EntryHashMismatch => f.expected == Recomputed(h, ev, i) && f.actual == Or(ev.entryHash, "")
  }

  /** The report lists exactly what is wrong: positions, links back and hashes that are not as expected. */
  lemma {:induction false} FindingsExactly(h: EntryHash, events: seq<Event>, f: Finding)
    ensures f in Findings(h, events) <==>
              f.index < |events| && Wrong(h, events[f.index], f.index, Predecessor(h, events, f.index), f)
  {
    if events != [] {
      var front, n := events[..|events| - 1], |events| - 1;
      FindingsExactly(h, front, f);
      EntryExactly(h, events[n], n, ExpectedPrevHash(h, front), f);
      PredecessorExpected(h, events);
      assert Findings(h, events) == Findings(h, front) + FindingsAt(h, events[n], n, ExpectedPrevHash(h, front));
      if f.index < n { assert Predecessor(h, front, f.index) == Predecessor(h, events, f.index); }
    }
  }

  lemma EntryExactly(h: EntryHash, ev: Event, i: nat, predecessor: string, f: Finding)
    ensures f in FindingsAt(h, ev, i, predecessor) <==> Wrong(h, ev, i, predecessor, f)
  {
    assert SequenceOf(ev, i) == Or(ev.sequence, Decimal(i)) && PrevHashOf(ev) == Or(ev.prevHash, ZEROS);
    assert HashOf(ev) == Or(ev.entryHash, "") && ExpectedHash(h, ev, i) == Recomputed(h, ev, i);
  }

  lemma PredecessorExpected(h: EntryHash, events: seq<Event>)
    requires events != []
    ensures ExpectedPrevHash(h, events[..|events| - 1]) == Predecessor(h, events, |events| - 1)
  {
  }

  /** The leaves of the Merkle root, and the head hash: the hash that an entry claims, else its own. */
  lemma {:induction false} LeafSays(h: EntryHash, events: seq<Event>, i: nat)
    requires i < |events|
    ensures Leaves(h, events)[i] == Or(events[i].entryHash, Recomputed(h, events[i], i))
    ensures i == |events| - 1 ==> HeadHash(h, events) == Leaves(h, events)[i]
  {
    if i < |events| - 1 { LeafSays(h, events[..|events| - 1], i); }
  }

  /** An empty ledger has zeros for its head hash and its root. */
  lemma EmptyLedgerSays(sha: string -> string, h: EntryHash)
    ensures HeadHash(h, []) == MerkleRoot(sha, h, []) == ZEROS
  {
  }
}
