/** Delegation macaroons, with free-term tags. */
module Macaroon {
  // A macaroon is a chained signature over a header and a list of caveats. Signatures are free
  // terms, so equal signatures were computed from equal inputs; hex case and the token's base64
  // wrapping are not part of the model.

  import opened Basics

  datatype RiskLevel = Low | Medium | High | Critical {
    function Rank(): nat { match this case Low => 0 case Medium => 1 case High => 2 case Critical => 3 }
  }
  datatype SideEffect = Read | Write | Submit

  datatype Caveat = Caveat(allowedTools: Option<seq<string>>, maxRiskLevel: Option<RiskLevel>,
                           allowedSideEffects: Option<seq<SideEffect>>, expiresAt: Option<string>,
                           maxTokensBudget: Option<int>, delegateToAgentId: Option<string>)

  /** The root tag under a secret, a tag chained onto another, or unrelated bytes. */
  datatype Sig =
    | Root(secret: string, nonce: string, issuer: string, delegate: string, issuedAt: string)
    | Chain(previous: Sig, caveat: Caveat)
    | Bytes(hex: string)

  datatype Macaroon = Macaroon(nonce: string, issuerAgentId: string, delegateAgentId: string, issuedAt: string,
                               caveats: seq<Caveat>, signature: Sig)

  datatype MintOptions = MintOptions(issuerAgentId: string, delegateAgentId: string, initialCaveats: seq<Caveat>,
                                     nonce: string, issuedAt: string)

  /** parseDate stands for Date.parse; None is NaN. */
  datatype Context = Context(toolName: string, riskLevel: Option<string>, sideEffect: SideEffect,
                             agentId: Option<string>, cumulativeTokensUsed: Option<int>, now: int,
                             parseDate: string -> Option<int>)

  datatype Reason = MissingRootBinding | BadSignature | HeaderMismatch | WrongCaller | CaveatViolated(index: nat)

  datatype Result = Valid(issuer: string, delegate: string, caveatsEvaluated: nat)
                  | Invalid(reason: Reason, caveatsEvaluated: nat)

  const NO_CAVEAT := Caveat(None, None, None, None, None, None)

  predicate NonEmpty(s: Option<string>) { s.Some? && s.value != "" }

  // ---------- Signature chain ----------

  function ChainAll(sig: Sig, caveats: seq<Caveat>): Sig {
    if caveats == [] then sig else Chain(ChainAll(sig, caveats[..|caveats| - 1]), caveats[|caveats| - 1])
  }

  /** The last non-empty delegate named, or the one at the start. */
  function LastDelegate(start: string, caveats: seq<Caveat>): string {
    if caveats == [] then start
    else
      var c := caveats[|caveats| - 1];
      if NonEmpty(c.delegateToAgentId) then c.delegateToAgentId.value
      else LastDelegate(start, caveats[..|caveats| - 1])
  }

  function Mint(secret: string, o: MintOptions): Macaroon {
    var caveats := [NO_CAVEAT.(delegateToAgentId := Some(o.delegateAgentId))] + o.initialCaveats;
    Macaroon(o.nonce, o.issuerAgentId, LastDelegate(o.delegateAgentId, caveats), o.issuedAt, caveats,
             ChainAll(Root(secret, o.nonce, o.issuerAgentId, o.delegateAgentId, o.issuedAt), caveats))
  }

  function Attenuate(m: Macaroon, c: Caveat): Macaroon {
    m.(signature := Chain(m.signature, c),
       delegateAgentId := if c.delegateToAgentId.Some? then c.delegateToAgentId.value else m.delegateAgentId,
       caveats := m.caveats + [c])
  }

  function AttenuateAll(m: Macaroon, cs: seq<Caveat>): Macaroon {
    if cs == [] then m else Attenuate(AttenuateAll(m, cs[..|cs| - 1]), cs[|cs| - 1])
  }

  // ---------- Verification ----------

  predicate MatchesToolPattern(pattern: string, tool: string) {
    if pattern == "*" then true
    else if pattern != "" && pattern[|pattern| - 1] == '*' then pattern[..|pattern| - 1] <= tool
    else pattern == tool
  }

  function RiskRank(level: Option<string>): nat {
    if level == Some("low") then 0 else if level == Some("high") then 2 else if level == Some("critical") then 3 else 1
  }

  predicate Satisfied(c: Caveat, ctx: Context) {
    && (c.allowedTools.Some? && c.allowedTools.value != []
        ==> exists i :: 0 <= i < |c.allowedTools.value| && MatchesToolPattern(c.allowedTools.value[i], ctx.toolName))
    && (c.maxRiskLevel.Some? ==> RiskRank(ctx.riskLevel) <= c.maxRiskLevel.value.Rank())
    && (c.allowedSideEffects.Some? && c.allowedSideEffects.value != [] ==> ctx.sideEffect in c.allowedSideEffects.value)
    && (NonEmpty(c.expiresAt) ==>
          var expiry := ctx.parseDate(c.expiresAt.value); expiry.Some? && ctx.now <= expiry.value)
    && (c.maxTokensBudget.Some? && ctx.cumulativeTokensUsed.Some? ==>
          ctx.cumulativeTokensUsed.value <= c.maxTokensBudget.value)
  }

  predicate HasRootBinding(m: Macaroon) { m.caveats != [] && NonEmpty(m.caveats[0].delegateToAgentId) }

  function ExpectedSignature(secret: string, m: Macaroon): Sig
    requires HasRootBinding(m)
  {
    ChainAll(Root(secret, m.nonce, m.issuerAgentId, m.caveats[0].delegateToAgentId.value, m.issuedAt), m.caveats)
  }

  function BoundDelegate(m: Macaroon): string
    requires HasRootBinding(m)
  {
    LastDelegate(m.caveats[0].delegateToAgentId.value, m.caveats)
  }

  /** The caller is unnamed, anonymous, or the delegate itself. */
  predicate CallerAllowed(ctx: Context, delegate: string) {
    !NonEmpty(ctx.agentId) || ctx.agentId.value == "anonymous" || ctx.agentId.value == delegate
  }

  function FirstViolated(caveats: seq<Caveat>, ctx: Context, i: nat): Option<nat>
    requires i <= |caveats|
    decreases |caveats| - i
  {
    if i == |caveats| then None
    else if !Satisfied(caveats[i], ctx) then Some(i)
    else FirstViolated(caveats, ctx, i + 1)
  }

  function Verify(secret: string, m: Macaroon, ctx: Context): Result {
    if !HasRootBinding(m) then Invalid(MissingRootBinding, 0)
    else if m.signature != ExpectedSignature(secret, m) then Invalid(BadSignature, 0)
    else if m.delegateAgentId != BoundDelegate(m) then Invalid(HeaderMismatch, 0)
    else if !CallerAllowed(ctx, BoundDelegate(m)) then Invalid(WrongCaller, 0)
    else
      match FirstViolated(m.caveats, ctx, 0)
      case Some(i) => Invalid(CaveatViolated(i), i + 1)
      case None => Valid(m.issuerAgentId, BoundDelegate(m), |m.caveats|)
  }

  // ---------- The service's loops ----------

  method MintRootMacaroon(secret: string, o: MintOptions) returns (m: Macaroon)
    ensures m == Mint(secret, o)
  {
    var caveats := [NO_CAVEAT.(delegateToAgentId := Some(o.delegateAgentId))] + o.initialCaveats;
    var sig, delegate := FoldChain(Root(secret, o.nonce, o.issuerAgentId, o.delegateAgentId, o.issuedAt),
                                   o.delegateAgentId, caveats);
    m := Macaroon(o.nonce, o.issuerAgentId, delegate, o.issuedAt, caveats, sig);
  }

  /** Runs along the caveats, chaining the signature and following the delegate. */
  method FoldChain(root: Sig, start: string, caveats: seq<Caveat>) returns (sig: Sig, delegate: string)
    ensures sig == ChainAll(root, caveats) && delegate == LastDelegate(start, caveats)
  {
    sig, delegate := root, start;
    var i := 0;
    while i < |caveats|
      invariant 0 <= i <= |caveats|
      invariant sig == ChainAll(root, caveats[..i]) && delegate == LastDelegate(start, caveats[..i])
    {
      assert caveats[..i + 1][..i] == caveats[..i];
      sig := Chain(sig, caveats[i]);
      if NonEmpty(caveats[i].delegateToAgentId) {
        delegate := caveats[i].delegateToAgentId.value;
      }
      i := i + 1;
    }
    assert caveats[..i] == caveats;
  }

  method VerifyAndAuthorize(secret: string, m: Macaroon, ctx: Context) returns (result: Result)
    ensures result == Verify(secret, m, ctx)
  {
    if |m.caveats| == 0 || !NonEmpty(m.caveats[0].delegateToAgentId) {
      return Invalid(MissingRootBinding, 0);
    }
    var initial := m.caveats[0].delegateToAgentId.value;
    var expected, delegate := FoldChain(Root(secret, m.nonce, m.issuerAgentId, initial, m.issuedAt), initial,
                                        m.caveats);
    if m.signature != expected { return Invalid(BadSignature, 0); }
    if m.delegateAgentId != delegate { return Invalid(HeaderMismatch, 0); }
    if !CallerAllowed(ctx, delegate) { return Invalid(WrongCaller, 0); }
    var i := 0;
    while i < |m.caveats|
      invariant 0 <= i <= |m.caveats|
      invariant FirstViolated(m.caveats, ctx, 0) == FirstViolated(m.caveats, ctx, i)
    {
      if !Satisfied(m.caveats[i], ctx) { return Invalid(CaveatViolated(i), i + 1); }
      i := i + 1;
    }
    result := Valid(m.issuerAgentId, delegate, |m.caveats|);
  }
}
