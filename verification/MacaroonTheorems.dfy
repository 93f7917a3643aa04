/** What holders can and cannot obtain. */
module MacaroonTheorems {
  import opened Basics
  import opened Macaroon

  ghost predicate Accepts(secret: string, m: Macaroon, ctx: Context) { Verify(secret, m, ctx).Valid? }

  ghost predicate AllSatisfied(cs: seq<Caveat>, ctx: Context) {
    forall i :: 0 <= i < |cs| ==> Satisfied(cs[i], ctx)
  }

  lemma {:induction false} FirstViolatedMeaning(cs: seq<Caveat>, ctx: Context, i: nat)
    requires i <= |cs|
    ensures FirstViolated(cs, ctx, i).None? <==> forall k :: i <= k < |cs| ==> Satisfied(cs[k], ctx)
    decreases |cs| - i
  {
    if i < |cs| {
      FirstViolatedMeaning(cs, ctx, i + 1);
    }
  }

  /** The root binding is there and the signature is the one the chain gives. */
  ghost predicate Authentic(secret: string, m: Macaroon) {
    HasRootBinding(m) && m.signature == ExpectedSignature(secret, m)
  }

  lemma AcceptsMeaning(secret: string, m: Macaroon, ctx: Context)
    ensures Accepts(secret, m, ctx)
       <==> Authentic(secret, m) && m.delegateAgentId == BoundDelegate(m)
            && CallerAllowed(ctx, BoundDelegate(m)) && AllSatisfied(m.caveats, ctx)
  {
    FirstViolatedMeaning(m.caveats, ctx, 0);
  }

  // ---------- Unforgeability ----------

  /** What a holder of these macaroons can compute without the secret: their signatures,
      anything chained onto a computable signature, unrelated bytes, and roots under other
      secrets. */
  ghost predicate Derivable(secret: string, held: set<Sig>, s: Sig) {
    s in held
    || match s
       case Bytes(_) => true
       case Root(other, _, _, _, _) => other != secret
       case Chain(previous, _) => Derivable(secret, held, previous)
  }

  ghost function Depth(s: Sig): nat { if s.Chain? then 1 + Depth(s.previous) else 0 }

  lemma {:induction false} ChainDepth(s: Sig, cs: seq<Caveat>)
    requires s.Root?
    ensures Depth(ChainAll(s, cs)) == |cs|
  {
    if cs != [] { ChainDepth(s, cs[..|cs| - 1]); }
  }

  /** A chained signature determines its root and its caveats. */
  lemma {:induction false} ChainInjective(r: Sig, cs: seq<Caveat>, r': Sig, cs': seq<Caveat>)
    requires r.Root? && r'.Root? && ChainAll(r, cs) == ChainAll(r', cs')
    ensures r == r' && cs == cs'
  {
    ChainDepth(r, cs);
    ChainDepth(r', cs');
    if cs != [] {
      ChainInjective(r, cs[..|cs| - 1], r', cs'[..|cs'| - 1]);
      assert cs == cs[..|cs| - 1] + [cs[|cs| - 1]] && cs' == cs'[..|cs'| - 1] + [cs'[|cs'| - 1]];
    }
  }

  lemma {:induction false} DerivableExtendsHeld(secret: string, held: set<Sig>, root: Sig, cs: seq<Caveat>)
    returns (k: nat)
    requires root.Root? && root.secret == secret && Derivable(secret, held, ChainAll(root, cs))
    ensures k <= |cs| && ChainAll(root, cs[..k]) in held
  {
    if ChainAll(root, cs) in held {
      k := |cs|;
      assert cs[..k] == cs;
    } else {
      assert cs != [];
      k := DerivableExtendsHeld(secret, held, root, cs[..|cs| - 1]);
      assert cs[..|cs| - 1][..k] == cs[..k];
    }
  }

  ghost predicate MintedWith(secret: string, m: Macaroon) {
    exists o :: m == Mint(secret, o)
  }

  ghost predicate ExtendsMinted(m: Macaroon, minted: Macaroon) {
    && m.nonce == minted.nonce && m.issuerAgentId == minted.issuerAgentId && m.issuedAt == minted.issuedAt
    && minted.caveats <= m.caveats
  }

  /** Whoever holds minted macaroons and can only chain caveats onto signatures they know
      obtains only verifying macaroons that extend a minted one: same header, and its caveats
      first, unedited, in order. */
  lemma OnlyExtensionsVerify(secret: string, minted: set<Macaroon>, forged: Macaroon)
    requires forall m :: m in minted ==> MintedWith(secret, m)
    requires Derivable(secret, set m | m in minted :: m.signature, forged.signature)
    requires Authentic(secret, forged)
    ensures exists m :: m in minted && ExtendsMinted(forged, m)
  {
    var root := Root(secret, forged.nonce, forged.issuerAgentId, forged.caveats[0].delegateToAgentId.value,
                     forged.issuedAt);
    var k := DerivableExtendsHeld(secret, set m | m in minted :: m.signature, root, forged.caveats);
    var m :| m in minted && m.signature == ChainAll(root, forged.caveats[..k]);
    var o :| m == Mint(secret, o);
    ChainInjective(root, forged.caveats[..k],
                   Root(secret, o.nonce, o.issuerAgentId, o.delegateAgentId, o.issuedAt), m.caveats);
    assert ExtendsMinted(forged, m);
  }

  /** Removing, reordering or editing a caveat, or touching the header, never verifies under
      the same signature. */
  lemma TamperingIsDetected(secret: string, m: Macaroon, tampered: Macaroon)
    requires Authentic(secret, m) && tampered.signature == m.signature
    requires tampered.caveats != m.caveats || tampered.nonce != m.nonce
             || tampered.issuerAgentId != m.issuerAgentId || tampered.issuedAt != m.issuedAt
    ensures !Authentic(secret, tampered)
  {
    if Authentic(secret, tampered) {
      ChainInjective(Root(secret, m.nonce, m.issuerAgentId, m.caveats[0].delegateToAgentId.value, m.issuedAt),
                     m.caveats,
                     Root(secret, tampered.nonce, tampered.issuerAgentId,
                          tampered.caveats[0].delegateToAgentId.value, tampered.issuedAt), tampered.caveats);
    }
  }

  // ---------- Completeness ----------

  lemma {:induction false} AttenuateAllShape(m: Macaroon, cs: seq<Caveat>)
    ensures var a := AttenuateAll(m, cs);
            && a.caveats == m.caveats + cs && a.signature == ChainAll(m.signature, cs)
            && a.nonce == m.nonce && a.issuerAgentId == m.issuerAgentId && a.issuedAt == m.issuedAt
  {
    if cs != [] {
      AttenuateAllShape(m, cs[..|cs| - 1]);
      assert cs == cs[..|cs| - 1] + [cs[|cs| - 1]];
    }
  }

  lemma {:induction false} ChainConcat(s: Sig, xs: seq<Caveat>, ys: seq<Caveat>)
    ensures ChainAll(s, xs + ys) == ChainAll(ChainAll(s, xs), ys)
  {
    if ys == [] {
      assert xs + ys == xs;
    } else {
      assert (xs + ys)[..|xs + ys| - 1] == xs + ys[..|ys| - 1];
      ChainConcat(s, xs, ys[..|ys| - 1]);
    }
  }

  lemma {:induction false} LastDelegateConcat(start: string, xs: seq<Caveat>, ys: seq<Caveat>)
    ensures LastDelegate(start, xs + ys) == LastDelegate(LastDelegate(start, xs), ys)
  {
    if ys == [] {
      assert xs + ys == xs;
    } else {
      assert (xs + ys)[..|xs + ys| - 1] == xs + ys[..|ys| - 1];
      LastDelegateConcat(start, xs, ys[..|ys| - 1]);
    }
  }

  /** The last attenuation that names a delegate at all names a non-empty one. */
  ghost predicate EndsOnRealDelegate(cs: seq<Caveat>) {
    cs == []
    || (var c := cs[|cs| - 1];
        if c.delegateToAgentId.Some? then c.delegateToAgentId.value != "" else EndsOnRealDelegate(cs[..|cs| - 1]))
  }

  lemma {:induction false} HeaderAfterAttenuation(m: Macaroon, cs: seq<Caveat>)
    requires m.delegateAgentId != ""
    ensures AttenuateAll(m, cs).delegateAgentId == LastDelegate(m.delegateAgentId, cs) <==> EndsOnRealDelegate(cs)
    ensures LastDelegate(m.delegateAgentId, cs) != ""
  {
    if cs != [] { HeaderAfterAttenuation(m, cs[..|cs| - 1]); }
  }

  /** A mint followed by any attenuations passes the signature and header checks exactly when
      the mint names a delegate and no empty delegate id is the last one named. */
  lemma AttenuatedMintPassesExactly(secret: string, o: MintOptions, cs: seq<Caveat>)
    ensures var a := AttenuateAll(Mint(secret, o), cs);
            (Authentic(secret, a) && a.delegateAgentId == BoundDelegate(a))
            <==> o.delegateAgentId != "" && EndsOnRealDelegate(cs)
  {
    var m := Mint(secret, o);
    var a := AttenuateAll(m, cs);
    var root := Root(secret, o.nonce, o.issuerAgentId, o.delegateAgentId, o.issuedAt);
    AttenuateAllShape(m, cs);
    ChainConcat(root, m.caveats, cs);
    assert a.caveats[0] == m.caveats[0];
    if o.delegateAgentId != "" {
      LastDelegateConcat(o.delegateAgentId, m.caveats, cs);
      LastDelegateNonEmpty(o.delegateAgentId, m.caveats);
      HeaderAfterAttenuation(m, cs);
    }
  }

  lemma {:induction false} LastDelegateNonEmpty(start: string, cs: seq<Caveat>)
    requires start != ""
    ensures LastDelegate(start, cs) != ""
  {
    if cs != [] { LastDelegateNonEmpty(start, cs[..|cs| - 1]); }
  }

  // ---------- Attenuation only narrows ----------

  lemma SatisfiedIgnoresCaller(c: Caveat, ctx: Context, who: Option<string>)
    ensures Satisfied(c, ctx.(agentId := who)) <==> Satisfied(c, ctx)
  {
  }

  lemma AuthenticAttenuation(secret: string, m: Macaroon, c: Caveat)
    requires HasRootBinding(m)
    ensures Authentic(secret, Attenuate(m, c)) <==> Authentic(secret, m)
    ensures BoundDelegate(Attenuate(m, c))
         == if NonEmpty(c.delegateToAgentId) then c.delegateToAgentId.value else BoundDelegate(m)
  {
    assert (m.caveats + [c])[..|m.caveats|] == m.caveats;
  }

  /** A caveat that names no delegate: the attenuated macaroon verifies for a context exactly
      when the original does and the caveat is satisfied. */
  lemma NarrowsForSameDelegate(secret: string, m: Macaroon, c: Caveat, ctx: Context)
    requires c.delegateToAgentId.None?
    ensures Accepts(secret, Attenuate(m, c), ctx) <==> Accepts(secret, m, ctx) && Satisfied(c, ctx)
  {
    var a := Attenuate(m, c);
    AcceptsMeaning(secret, m, ctx);
    AcceptsMeaning(secret, a, ctx);
    assert a.caveats == m.caveats + [c];
    if HasRootBinding(m) {
      AuthenticAttenuation(secret, m, c);
      assert AllSatisfied(a.caveats, ctx) <==> AllSatisfied(m.caveats, ctx) && Satisfied(c, ctx) by {
        assert a.caveats[|m.caveats|] == c;
        assert forall i :: 0 <= i < |m.caveats| ==> a.caveats[i] == m.caveats[i];
      }
    } else if m.caveats != [] {
      assert a.caveats[0] == m.caveats[0];
    }
  }

  function CalledBy(ctx: Context, who: string): Context { ctx.(agentId := Some(who)) }

  /** The macaroon with the delegate header its signed caveats call for. */
  ghost function Repaired(m: Macaroon): Macaroon
    requires HasRootBinding(m)
  {
    m.(delegateAgentId := BoundDelegate(m))
  }

  /** A caveat that names a delegate, for every macaroon: the result verifies for that delegate
      exactly when the caveat is satisfied and the original, with its unsigned delegate header
      set right, verifies for its own delegate; on a macaroon without caveats it verifies
      exactly when the signature is the root tag for that delegate. */
  lemma NarrowsForNewDelegate(secret: string, m: Macaroon, c: Caveat, ctx: Context)
    requires NonEmpty(c.delegateToAgentId)
    ensures var d := c.delegateToAgentId.value;
            Accepts(secret, Attenuate(m, c), CalledBy(ctx, d))
            <==> && Satisfied(c, ctx)
                 && (if m.caveats == [] then m.signature == Root(secret, m.nonce, m.issuerAgentId, d, m.issuedAt)
                     else HasRootBinding(m) && Accepts(secret, Repaired(m), CalledBy(ctx, BoundDelegate(m))))
  {
    var a, d := Attenuate(m, c), c.delegateToAgentId.value;
    AcceptsMeaning(secret, a, CalledBy(ctx, d));
    assert a.caveats == m.caveats + [c];
    if m.caveats == [] {
      assert a.caveats == [c] && [c][..0] == [];
      assert ChainAll(Root(secret, m.nonce, m.issuerAgentId, d, m.issuedAt), [c])
             == Chain(ChainAll(Root(secret, m.nonce, m.issuerAgentId, d, m.issuedAt), [c][..0]), c);
      assert AllSatisfied(a.caveats, CalledBy(ctx, d)) <==> Satisfied(c, ctx) by {
        SatisfiedIgnoresCaller(c, ctx, Some(d));
      }
    } else if HasRootBinding(m) {
      AuthenticAttenuation(secret, m, c);
      AcceptsMeaning(secret, Repaired(m), CalledBy(ctx, BoundDelegate(m)));
      SatisfiedOnBoth(m.caveats, c, ctx, d, BoundDelegate(m));
    } else {
      assert a.caveats[0] == m.caveats[0];
    }
  }

  lemma SatisfiedOnBoth(cs: seq<Caveat>, c: Caveat, ctx: Context, d: string, e: string)
    ensures AllSatisfied(cs + [c], CalledBy(ctx, d)) <==> AllSatisfied(cs, CalledBy(ctx, e)) && Satisfied(c, ctx)
  {
    assert (cs + [c])[|cs|] == c;
    assert forall i :: 0 <= i < |cs| ==> (cs + [c])[i] == cs[i];
    forall x: Caveat ensures Satisfied(x, CalledBy(ctx, d)) <==> Satisfied(x, ctx)
                     ensures Satisfied(x, CalledBy(ctx, e)) <==> Satisfied(x, ctx)
    {
      SatisfiedIgnoresCaller(x, ctx, Some(d));
      SatisfiedIgnoresCaller(x, ctx, Some(e));
    }
  }

  /** No attenuation in the list names an empty delegate. */
  ghost predicate RealDelegates(cs: seq<Caveat>) {
    forall i :: 0 <= i < |cs| ==> cs[i].delegateToAgentId != Some("")
  }

  /** Any sequence of attenuations of a macaroon whose header matches its signed caveats
      verifies for its final delegate exactly when the original verifies for its own delegate
      in the same context and every added caveat is satisfied. */
  lemma {:induction false} AttenuationOnlyNarrows(secret: string, m: Macaroon, cs: seq<Caveat>, ctx: Context)
    requires HasRootBinding(m) && m.delegateAgentId == BoundDelegate(m) && RealDelegates(cs)
    ensures var a := AttenuateAll(m, cs);
            && HasRootBinding(a) && a.delegateAgentId == BoundDelegate(a)
            && (Accepts(secret, a, CalledBy(ctx, a.delegateAgentId))
                <==> Accepts(secret, m, CalledBy(ctx, m.delegateAgentId)) && AllSatisfied(cs, ctx))
  {
    if cs != [] {
      var front, c := cs[..|cs| - 1], cs[|cs| - 1];
      var b := AttenuateAll(m, front);
      AttenuationOnlyNarrows(secret, m, front, ctx);
      AuthenticAttenuation(secret, b, c);
      assert Attenuate(b, c).caveats[0] == b.caveats[0];
      assert AllSatisfied(cs, ctx) <==> AllSatisfied(front, ctx) && Satisfied(c, ctx) by {
        assert forall i :: 0 <= i < |front| ==> cs[i] == front[i];
      }
      assert Repaired(b) == b;
      if c.delegateToAgentId.None? {
        NarrowsForSameDelegate(secret, b, c, CalledBy(ctx, b.delegateAgentId));
        SatisfiedIgnoresCaller(c, ctx, Some(b.delegateAgentId));
      } else {
        NarrowsForNewDelegate(secret, b, c, ctx);
      }
    }
  }

  /** The header premise is needed: the delegate header is not signed, so a macaroon whose
      header was altered is refused, while re-delegating it is accepted. */
  lemma AlteredHeaderIsRepairedByDelegation(secret: string, o: MintOptions, ctx: Context)
    requires o.delegateAgentId != "" && o.initialCaveats == []
    ensures var m := Mint(secret, o).(delegateAgentId := o.delegateAgentId + "?");
            var c := NO_CAVEAT.(delegateToAgentId := Some("helper"));
            && !Accepts(secret, m, CalledBy(ctx, o.delegateAgentId))
            && Accepts(secret, Attenuate(m, c), CalledBy(ctx, "helper"))
  {
    var good := Mint(secret, o);
    var m := good.(delegateAgentId := o.delegateAgentId + "?");
    var c := NO_CAVEAT.(delegateToAgentId := Some("helper"));
    AttenuatedMintPassesExactly(secret, o, []);
    assert HasRootBinding(good) && HasRootBinding(m) && Repaired(m) == good;
    assert |m.delegateAgentId| == |o.delegateAgentId| + 1;
    LastDelegateConcat(o.delegateAgentId, [], m.caveats);
    assert m.caveats == [m.caveats[0]] && m.caveats[..0] == [];
    assert BoundDelegate(m) == o.delegateAgentId;
    AcceptsMeaning(secret, m, CalledBy(ctx, o.delegateAgentId));
    AcceptsMeaning(secret, good, CalledBy(ctx, o.delegateAgentId));
    NarrowsForNewDelegate(secret, m, c, ctx);
  }
}
